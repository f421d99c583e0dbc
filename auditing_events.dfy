/**
 * The Auditing service's event-sourced document ("Auditing"): its events,
 * the state they fold into, and the fold itself as specification functions.
 * The entity class that applies events in place is proved against these.
 */
module AuditingEvents {
  import opened Common
  import opened Linq

  /** An uploaded file as the request carries it (`IFormFile`): name, content type and length. */
  datatype FormFile = FormFile(fileName: string, contentType: string, length: int)

  /**
   * The events of a document's history. `Unmatched` stands for an
   * `IAuditingEvent` of any other type, which the dispatcher ignores.
   * Nullable members are `Option`s; a `float?` version is an `Option<real>`.
   */
  datatype AuditingEvent =
    | Uploaded(id: Guid, occurredAt: Time, version: Option<real>,
               auditingName: Option<string>, auditingDescription: Option<string>,
               fileName: Option<string>, fileUrl: Option<string>, contentType: Option<string>,
               fileSize: int, uploadedByUserId: Guid, tags: Option<seq<string>>)
    | Updated(id: Guid, occurredAt: Time, version: Option<real>,
              newAuditingName: Option<string>, newAuditingDescription: Option<string>,
              newFileName: Option<string>, newContentType: Option<string>, newFileSize: Option<int>,
              newFileUrl: Option<string>, updatedTags: Option<seq<string>>, updatedByUserId: Guid)
    | Deleted(id: Guid, occurredAt: Time, version: Option<real>, deletedByUserId: Guid)
    | RolledBack(id: Guid, occurredAt: Time, version: Option<real>, rolledBackByUserId: Guid,
                 eventsToReapply: seq<AuditingEvent>)
    | Unmatched(id: Guid, occurredAt: Time, version: Option<real>)

  /** The fields of the `Auditing` entity. */
  datatype AuditingState = AuditingState(
    id: Guid,
    name: Option<string>,
    description: Option<string>,
    version: Option<real>,
    fileUrl: Option<string>,
    contentType: Option<string>,
    fileSize: int,
    changedByUserId: Guid,
    uploadedAt: Time,
    updatedAt: Time,
    tags: Option<seq<string>>)

  /** A freshly constructed entity: every reference null, every value its default. */
  const Fresh: AuditingState :=
    AuditingState(EmptyGuid, None, None, None, None, None, 0, EmptyGuid, DefaultTime, DefaultTime, None)

  /** The sort key of `OrderBy(e => e.OccurredAt)`. */
  function OccurredAt(e: AuditingEvent): int {
    e.occurredAt
  }

  /** The nesting depth of rollbacks inside an event, which the fold's recursion descends. */
  function Height(e: AuditingEvent): nat
    decreases e
  {
    if e.RolledBack? then 1 + MaxHeight(e.eventsToReapply) else 0
  }

  function MaxHeight(es: seq<AuditingEvent>): nat
    decreases es
  {
    if es == [] then 0
    else
      var h, m := Height(es[0]), MaxHeight(es[1..]);
      if h < m then m else h
  }

  lemma {:induction false} HeightBelowMax(es: seq<AuditingEvent>, x: AuditingEvent)
    requires x in es
    ensures Height(x) <= MaxHeight(es)
    decreases es
  {
    if x != es[0] {
      HeightBelowMax(es[1..], x);
    }
  }

  lemma {:induction false} MaxHeightAtMost(es: seq<AuditingEvent>, m: nat)
    requires forall x :: x in es ==> Height(x) <= m
    ensures MaxHeight(es) <= m
    decreases es
  {
    if es != [] {
      MaxHeightAtMost(es[1..], m);
    }
  }

  lemma PrefixHeight(es: seq<AuditingEvent>)
    requires es != []
    ensures MaxHeight(es[..|es| - 1]) <= MaxHeight(es)
    ensures Height(es[|es| - 1]) <= MaxHeight(es)
  {
    HeightBelowMax(es, es[|es| - 1]);
    forall x | x in es[..|es| - 1] ensures Height(x) <= MaxHeight(es) {
      HeightBelowMax(es, x);
    }
    MaxHeightAtMost(es[..|es| - 1], MaxHeight(es));
  }

  /** Sorting the events to reapply does not deepen them. */
  lemma SortedHeight(es: seq<AuditingEvent>)
    ensures MaxHeight(SortBy(es, OccurredAt)) <= MaxHeight(es)
  {
    forall x | x in SortBy(es, OccurredAt) ensures Height(x) <= MaxHeight(es) {
      SortByMembers(es, OccurredAt, x);
      HeightBelowMax(es, x);
    }
    MaxHeightAtMost(SortBy(es, OccurredAt), MaxHeight(es));
  }

  /** The state a rollback starts its replay from. */
  function RollbackBase(occurredAt: Time): (r: AuditingState)
    ensures r.(updatedAt := DefaultTime, version := None) == Fresh
  {
    Fresh.(updatedAt := occurredAt, version := Some(0.0))
  }

  /** `Auditing.Apply(e)`: one event's effect on the entity. */
  function Apply(s: AuditingState, e: AuditingEvent): (r: AuditingState)
    ensures e.Unmatched? ==> r == s
    ensures e.RolledBack? ==> r.changedByUserId == e.rolledBackByUserId && r.version == e.version
    decreases Height(e), 1, 0
  {
    match e
    case Uploaded(_, _, _, _, _, _, _, _, _, _, _) =>
      s.(id := e.id, name := e.auditingName, description := e.auditingDescription,
         fileUrl := e.fileUrl, contentType := e.contentType, fileSize := e.fileSize,
         changedByUserId := e.uploadedByUserId, uploadedAt := e.occurredAt,
         tags := e.tags, version := e.version)
    case Updated(_, _, _, _, _, _, _, _, _, _, _) => Update(s, e)
    case Deleted(_, _, _, _) =>
      s.(fileUrl := Some("[Deleted]"), fileSize := 0, updatedAt := e.occurredAt,
         changedByUserId := e.deletedByUserId, version := e.version)
    case RolledBack(_, _, _, _, _) =>
      SortedHeight(e.eventsToReapply);
      var replayed := ApplyAll(RollbackBase(e.occurredAt), SortBy(e.eventsToReapply, OccurredAt));
      replayed.(changedByUserId := e.rolledBackByUserId, version := e.version)
    case Unmatched(_, _, _) => s
  }

  /** `Apply(DocumentUpdatedEvent)`: only the values the event carries replace the old ones. */
  function Update(s: AuditingState, e: AuditingEvent): AuditingState
    requires e.Updated?
  {
    s.(name := if IsNullOrEmpty(e.newAuditingName) then s.name else e.newAuditingName,
       description := if IsNullOrEmpty(e.newAuditingDescription) then s.description else e.newAuditingDescription,
       contentType := if IsNullOrEmpty(e.newContentType) then s.contentType else e.newContentType,
       fileUrl := if IsNullOrEmpty(e.newFileUrl) then s.fileUrl else e.newFileUrl,
       fileSize := if e.newFileSize.Some? then e.newFileSize.value else s.fileSize,
       tags := if e.updatedTags.Some? && |e.updatedTags.value| > 0 then e.updatedTags else s.tags,
       updatedAt := e.occurredAt, changedByUserId := e.updatedByUserId, version := e.version)
  }

  /** Applies `es` one after another, left to right. */
  function ApplyAll(s: AuditingState, es: seq<AuditingEvent>): AuditingState
    decreases MaxHeight(es), 2, |es|
  {
    if es == [] then s
    else
      var n := |es| - 1;
      PrefixHeight(es);
      Apply(ApplyAll(s, es[..n]), es[n])
  }

  /** `AuditingFactory.FromEvents`: a fresh entity with the events applied in `OccurredAt` order. */
  function Project(events: seq<AuditingEvent>): AuditingState {
    ApplyAll(Fresh, SortBy(events, OccurredAt))
  }

  /** Folding a concatenation is folding its halves in turn. */
  lemma {:induction false} ApplyAllConcat(s: AuditingState, a: seq<AuditingEvent>, b: seq<AuditingEvent>)
    ensures ApplyAll(s, a + b) == ApplyAll(ApplyAll(s, a), b)
    decreases |b|
  {
    if b == [] {
      assert a + b == a;
    } else {
      var n := |b| - 1;
      assert (a + b)[..|a + b| - 1] == a + b[..n];
      ApplyAllConcat(s, a, b[..n]);
    }
  }

  /** An event no earlier than every stored one extends the projection by one step. */
  lemma ProjectAppendLatest(events: seq<AuditingEvent>, e: AuditingEvent)
    requires forall x :: x in events ==> OccurredAt(x) <= OccurredAt(e)
    ensures Project(events + [e]) == Apply(Project(events), e)
  {
    var sorted := SortBy(events, OccurredAt);
    assert (events + [e])[..|events|] == events;
    if sorted != [] {
      var last := sorted[|sorted| - 1];
      assert last in sorted;
      SortByMembers(events, OccurredAt, last);
    }
    assert SortBy(events + [e], OccurredAt) == sorted + [e];
    ApplyAllConcat(Fresh, sorted, [e]);
    assert [e][..0] == [];
  }

  /** `FromEvents` of no events is a freshly constructed entity. */
  lemma ProjectEmpty()
    ensures Project([]) == Fresh
  {
  }

  /** A rollback replaying nothing leaves a default entity apart from its stamps. */
  lemma RollbackOfNothing(s: AuditingState, id: Guid, at: Time, v: Option<real>, user: Guid)
    ensures Apply(s, RolledBack(id, at, v, user, [])) == Fresh.(updatedAt := at, changedByUserId := user, version := v)
  {
    assert SortBy([], OccurredAt) == [];
  }

  /** A rollback discards the current state: its outcome depends only on the event. */
  lemma RollbackIgnoresState(s1: AuditingState, s2: AuditingState, e: AuditingEvent)
    requires e.RolledBack?
    ensures Apply(s1, e) == Apply(s2, e)
  {
  }

  /** An update never changes the document's identity or upload time, and stamps who and when. */
  lemma UpdateKeepsIdentity(s: AuditingState, e: AuditingEvent)
    requires e.Updated?
    ensures var r := Apply(s, e);
      r.id == s.id && r.uploadedAt == s.uploadedAt &&
      r.updatedAt == e.occurredAt && r.changedByUserId == e.updatedByUserId && r.version == e.version
  {
  }

  /** Applying the same update twice is applying it once. */
  lemma UpdateIdempotent(s: AuditingState, e: AuditingEvent)
    requires e.Updated?
    ensures Apply(Apply(s, e), e) == Apply(s, e)
  {
  }

  /** A delete blanks the file but keeps the document's id, name and description. */
  lemma DeleteKeepsMetadata(s: AuditingState, e: AuditingEvent)
    requires e.Deleted?
    ensures var r := Apply(s, e);
      r.fileUrl == Some("[Deleted]") && r.fileSize == 0 &&
      r.id == s.id && r.name == s.name && r.description == s.description && r.uploadedAt == s.uploadedAt
  {
  }

  /** `new AuditingUpdatedEvent(id, name, description, version, file, fileUrl, userId, tags)`. */
  function NewUpdated(id: Guid, now: Time, name: string, description: string, version: real,
                      file: FormFile, fileUrl: string, userId: Guid, tags: Option<seq<string>>): (e: AuditingEvent)
    ensures e.Updated? && e.id == id && e.version == Some(version) && e.newFileSize == Some(file.length)
  {
    Updated(id, now, Some(version), Some(name), Some(description), Some(file.fileName),
            Some(file.contentType), Some(file.length), Some(fileUrl), tags, userId)
  }

  /** `new AuditingDeletedEvent(id, userId)`: its version is left null. */
  function NewDeleted(id: Guid, now: Time, userId: Guid): (e: AuditingEvent)
    ensures e.Deleted? && e.id == id && e.version.None?
  {
    Deleted(id, now, None, userId)
  }

  /** `new AuditingRolebackEvent(id, version, userId, events)`. */
  function NewRollback(id: Guid, now: Time, version: real, userId: Guid, events: seq<AuditingEvent>): (e: AuditingEvent)
    ensures e.RolledBack? && e.id == id && e.version == Some(version) && e.eventsToReapply == events
  {
    RolledBack(id, now, Some(version), userId, events)
  }

  /**
   * `new AuditingUploadedEvent(name, description, version, file, fileUrl, userId, tags)`
   * as written: its first two statements assign each parameter to itself, so
   * the event's name and description stay null.
   */
  function NewUploadedAsWritten(newId: Guid, now: Time, name: string, description: string, version: real,
                                file: FormFile, fileUrl: string, userId: Guid, tags: Option<seq<string>>): (e: AuditingEvent)
    ensures e.Uploaded? && e.id == newId && e.auditingName.None? && e.auditingDescription.None?
  {
    Uploaded(newId, now, Some(version), None, None, Some(file.fileName), Some(fileUrl),
             Some(file.contentType), file.length, userId, tags)
  }

  /** The upload an Auditing projection then shows has no name, whatever was uploaded. */
  lemma UploadAsWrittenLosesName(s: AuditingState, newId: Guid, now: Time, name: string, description: string,
                                 version: real, file: FormFile, fileUrl: string, userId: Guid)
    requires name != []
    ensures Apply(s, NewUploadedAsWritten(newId, now, name, description, version, file, fileUrl, userId, None)).name
      != Some(name)
  {
  }

  /** The constructor as intended: the event carries the uploaded name and description. */
  function NewUploaded(newId: Guid, now: Time, name: string, description: string, version: real,
                       file: FormFile, fileUrl: string, userId: Guid, tags: Option<seq<string>>): (e: AuditingEvent)
    ensures e.Uploaded? && e.id == newId && e.auditingName == Some(name) && e.auditingDescription == Some(description)
  {
    Uploaded(newId, now, Some(version), Some(name), Some(description), Some(file.fileName), Some(fileUrl),
             Some(file.contentType), file.length, userId, tags)
  }

  /** With the intended constructor, the projection of a lone upload shows what was uploaded. */
  lemma UploadShowsUpload(newId: Guid, now: Time, name: string, description: string, version: real,
                          file: FormFile, fileUrl: string, userId: Guid, tags: Option<seq<string>>)
    ensures var r := Project([NewUploaded(newId, now, name, description, version, file, fileUrl, userId, tags)]);
      r.id == newId && r.name == Some(name) && r.description == Some(description) &&
      r.fileUrl == Some(fileUrl) && r.contentType == Some(file.contentType) && r.fileSize == file.length &&
      r.changedByUserId == userId && r.uploadedAt == now && r.tags == tags && r.version == Some(version)
  {
    var e := NewUploaded(newId, now, name, description, version, file, fileUrl, userId, tags);
    assert [e][..0] == [];
    assert SortBy([e], OccurredAt) == [e];
    assert ApplyAll(Fresh, [e]) == Apply(ApplyAll(Fresh, []), e);
  }
}

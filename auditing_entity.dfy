/**
 * The `Auditing` entity as the service holds it: an object whose `Apply`
 * overloads assign its fields in place, and the factory that folds a
 * history into a fresh one. Each method is proved to agree with the fold
 * `AuditingEvents.Apply` / `AuditingEvents.Project`.
 */
module AuditingEntity {
  import opened Common
  import opened Linq
  import E = AuditingEvents

  class Auditing {
    var id: Guid
    var name: Option<string>
    var description: Option<string>
    var version: Option<real>
    var fileUrl: Option<string>
    var contentType: Option<string>
    var fileSize: int
    var changedByUserId: Guid
    var uploadedAt: Time
    var updatedAt: Time
    var tags: Option<seq<string>>

    /** The entity's fields as a value. */
    function State(): E.AuditingState
      reads this
    {
      E.AuditingState(id, name, description, version, fileUrl, contentType, fileSize,
                      changedByUserId, uploadedAt, updatedAt, tags)
    }

    /** `new Auditing()`. */
    constructor ()
      ensures State() == E.Fresh
    {
      id := EmptyGuid;
      name := None;
      description := None;
      version := None;
      fileUrl := None;
      contentType := None;
      fileSize := 0;
      changedByUserId := EmptyGuid;
      uploadedAt := DefaultTime;
      updatedAt := DefaultTime;
      tags := None;
    }

    /** The event dispatcher: each known event type goes to its overload, any other is ignored. */
    method Apply(e: E.AuditingEvent)
      modifies this
      ensures State() == E.Apply(old(State()), e)
      decreases E.Height(e), 1
    {
      match e {
        case Uploaded(_, _, _, _, _, _, _, _, _, _, _) => ApplyUploaded(e);
        case Updated(_, _, _, _, _, _, _, _, _, _, _) => ApplyUpdated(e);
        case Deleted(_, _, _, _) => ApplyDeleted(e);
        case RolledBack(_, _, _, _, _) => ApplyRollback(e);
        case Unmatched(_, _, _) =>
      }
    }

    method ApplyUploaded(e: E.AuditingEvent)
      requires e.Uploaded?
      modifies this
      ensures State() == E.Apply(old(State()), e)
    {
      id := e.id;
      name := e.auditingName;
      description := e.auditingDescription;
      fileUrl := e.fileUrl;
      contentType := e.contentType;
      fileSize := e.fileSize;
      changedByUserId := e.uploadedByUserId;
      uploadedAt := e.occurredAt;
      tags := e.tags;
      version := e.version;
    }

    method ApplyUpdated(e: E.AuditingEvent)
      requires e.Updated?
      modifies this
      ensures State() == E.Update(old(State()), e)
    {
      if !IsNullOrEmpty(e.newAuditingName) {
        name := e.newAuditingName;
      }
      if !IsNullOrEmpty(e.newAuditingDescription) {
        description := e.newAuditingDescription;
      }
      if !IsNullOrEmpty(e.newContentType) {
        contentType := e.newContentType;
      }
      if !IsNullOrEmpty(e.newFileUrl) {
        fileUrl := e.newFileUrl;
      }
      if e.newFileSize.Some? {
        fileSize := e.newFileSize.value;
      }
      if e.updatedTags.Some? && |e.updatedTags.value| > 0 {
        tags := e.updatedTags;
      }
      updatedAt := e.occurredAt;
      changedByUserId := e.updatedByUserId;
      version := e.version;
    }

    method ApplyDeleted(e: E.AuditingEvent)
      requires e.Deleted?
      modifies this
      ensures State() == E.Apply(old(State()), e)
    {
      fileUrl := Some("[Deleted]");
      fileSize := 0;
      updatedAt := e.occurredAt;
      changedByUserId := e.deletedByUserId;
      version := e.version;
    }

    /** Resets every field, replays the carried events in `OccurredAt` order, then stamps the rollback. */
    method ApplyRollback(e: E.AuditingEvent)
      requires e.RolledBack?
      modifies this
      ensures State() == E.Apply(old(State()), e)
      decreases E.Height(e), 0
    {
      id := EmptyGuid;
      name := None;
      description := None;
      fileUrl := None;
      contentType := None;
      fileSize := 0;
      changedByUserId := EmptyGuid;
      uploadedAt := DefaultTime;
      updatedAt := e.occurredAt;
      tags := None;
      version := Some(0.0);

      var past := SortBy(e.eventsToReapply, E.OccurredAt);
      var i := 0;
      while i < |past|
        invariant 0 <= i <= |past|
        invariant State() == E.ApplyAll(E.RollbackBase(e.occurredAt), past[..i])
      {
        SortByMembers(e.eventsToReapply, E.OccurredAt, past[i]);
        E.HeightBelowMax(e.eventsToReapply, past[i]);
        Apply(past[i]);
        assert past[..i + 1][..i] == past[..i];
        i := i + 1;
      }
      assert past[..i] == past;

      changedByUserId := e.rolledBackByUserId;
      version := e.version;
    }
  }

  /** `AuditingFactory.FromEvents`: a new entity with `events` applied in `OccurredAt` order. */
  method FromEvents(events: seq<E.AuditingEvent>) returns (doc: Auditing)
    ensures fresh(doc)
    ensures doc.State() == E.Project(events)
  {
    doc := new Auditing();
    var ordered := SortBy(events, E.OccurredAt);
    var i := 0;
    while i < |ordered|
      invariant 0 <= i <= |ordered|
      invariant doc.State() == E.ApplyAll(E.Fresh, ordered[..i])
    {
      doc.Apply(ordered[i]);
      assert ordered[..i + 1][..i] == ordered[..i];
      i := i + 1;
    }
    assert ordered[..i] == ordered;
  }
}

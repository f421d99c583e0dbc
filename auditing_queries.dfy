/**
 * The Auditing service's handlers over `AuditingStorage`: the cached,
 * paginated list of entities, the cached single lookup, the
 * version-bounded rollback and the update, with their validators.
 */
module AuditingQueries {
  import opened Common
  import opened Linq
  import opened Validation
  import opened Cache
  import opened AuditingEvents
  import opened AuditingStorage
  import AuditingEntity

  /** `x.GetType() == typeof(AuditingDeletedEvent)`. */
  predicate IsDeletedEvent(e: AuditingEvent) {
    e.Deleted?
  }

  /** `group.Any(x => x is AuditingDeletedEvent)`. */
  predicate HasDelete(group: seq<AuditingEvent>) {
    Any(group, IsDeletedEvent)
  }

  /** A group is listed when it has no delete event, or when deleted entities were asked for. */
  predicate Shown(isDeleted: bool, group: seq<AuditingEvent>) {
    isDeleted || !HasDelete(group)
  }

  function Keep(isDeleted: bool): seq<AuditingEvent> -> bool {
    g => Shown(isDeleted, g)
  }

  // ---------------------------------------------------------------- GetAuditings

  /** The groups of events per `Id` that the list shows, in order of first appearance. */
  function KeptGroups(events: seq<AuditingEvent>, isDeleted: bool): seq<seq<AuditingEvent>> {
    Where(GroupBy(events, AuditingId), Keep(isDeleted))
  }

  /** One entity per shown group, each the `OccurredAt`-ordered fold of its events. */
  function Auditings(events: seq<AuditingEvent>, isDeleted: bool): seq<AuditingState> {
    Select(KeptGroups(events, isDeleted), Project)
  }

  /** The page a cached `null` stands for: no items, a total of 0. */
  function EmptyPage(pageNumber: int, pageSize: int): (r: PaginatedList<AuditingState>)
    ensures r.items == [] && r.totalCount == 0 && r.pageNumber == pageNumber && r.pageSize == pageSize
  {
    PaginatedList([], 0, pageNumber, pageSize)
  }

  /**
   * The answer and the cache entries after one page request. The shared
   * cache only ever holds a page under a page key (`Storage.Valid`), so the
   * handler's cast always succeeds.
   */
  function PageLookup(entries: map<CacheKey, Cached>, events: seq<AuditingEvent>,
                      pageNumber: int, pageSize: int, isDeleted: bool): (PaginatedList<AuditingState>, map<CacheKey, Cached>)
    requires WellTyped(entries)
  {
    var key := PageKey(pageNumber, pageSize, isDeleted);
    if key in entries then
      var cached := entries[key].page;
      (if cached.Some? then cached.value else EmptyPage(pageNumber, pageSize), entries)
    else
      var page := Paginate(Auditings(events, isDeleted), pageNumber, pageSize);
      (page, entries[key := CachedPage(Some(page))])
  }

  /** The folds of the shown groups, built one group at a time as the handler's loop does. */
  function ShownFolds(groups: seq<seq<AuditingEvent>>, isDeleted: bool): seq<AuditingState>
    decreases |groups|
  {
    if groups == [] then []
    else
      var n := |groups| - 1;
      ShownFolds(groups[..n], isDeleted) + (if Shown(isDeleted, groups[n]) then [Project(groups[n])] else [])
  }

  /** The loop's one-group-at-a-time list is the listing of the shown groups. */
  lemma {:induction false} ShownFoldsAreListed(groups: seq<seq<AuditingEvent>>, isDeleted: bool)
    ensures ShownFolds(groups, isDeleted) == Select(Where(groups, Keep(isDeleted)), Project)
    decreases |groups|
  {
    if groups != [] {
      ShownFoldsAreListed(groups[..|groups| - 1], isDeleted);
      SelectWhereSnoc(groups, Keep(isDeleted), Project);
    }
  }

  /** The handler's `foreach` over the groups: one `FromEvents` fold per shown group. */
  method FoldShownGroups(groups: seq<seq<AuditingEvent>>, isDeleted: bool) returns (auditings: seq<AuditingState>)
    ensures auditings == ShownFolds(groups, isDeleted)
  {
    auditings := [];
    var i := 0;
    while i < |groups|
      invariant 0 <= i <= |groups|
      invariant auditings == ShownFolds(groups[..i], isDeleted)
    {
      assert groups[..i + 1][..i] == groups[..i];
      if !HasDelete(groups[i]) || isDeleted {
        var doc := AuditingEntity.FromEvents(groups[i]);
        auditings := auditings + [doc.State()];
      }
      i := i + 1;
    }
    assert groups[..i] == groups;
  }

  /** Builds the listed entities the way the handler does: the stored events grouped by `Id`, then folded. */
  method CollectAuditings(storage: Storage, isDeleted: bool) returns (auditings: seq<AuditingState>)
    ensures auditings == Auditings(storage.events, isDeleted)
  {
    var all := storage.GetAuditingList();
    var groups := GroupBy(all, AuditingId);
    auditings := FoldShownGroups(groups, isDeleted);
    ShownFoldsAreListed(groups, isDeleted);
  }

  /** `GetAuditingsWithPaginationQueryHandler.Handle`. */
  method GetAuditings(storage: Storage, pageNumber: int, pageSize: int, isDeleted: bool)
    returns (r: PaginatedList<AuditingState>)
    requires storage.Valid()
    modifies storage.cache
    ensures storage.Valid()
    ensures (r, storage.cache.entries) ==
      PageLookup(old(storage.cache.entries), storage.events, pageNumber, pageSize, isDeleted)
    ensures var key := PageKey(pageNumber, pageSize, isDeleted);
      storage.cache.keys == old(storage.cache.keys) + (if key in old(storage.cache.entries) then [] else [key])
  {
    var key := PageKey(pageNumber, pageSize, isDeleted);
    var hit, cached := storage.cache.TryGetCache(key);
    if hit {
      if cached.value.page.Some? {
        return cached.value.page.value;
      }
      return EmptyPage(pageNumber, pageSize);
    }
    var auditings := CollectAuditings(storage, isDeleted);
    var items := Page(auditings, pageNumber, pageSize);
    r := PaginatedList(items, |auditings|, pageNumber, pageSize);
    storage.cache.SetCache(key, CachedPage(Some(r)));
  }

  /** Each listed entity is the fold of all the events of one shown id. */
  lemma AuditingsAreGroupFolds(events: seq<AuditingEvent>, isDeleted: bool, a: AuditingState)
    requires a in Auditings(events, isDeleted)
    ensures exists g :: g in KeptGroups(events, isDeleted) && a == Project(g)
  {
    var groups := KeptGroups(events, isDeleted);
    var j :| 0 <= j < |groups| && Auditings(events, isDeleted)[j] == a;
    assert groups[j] in groups;
  }

  /**
   * For an accepted page request: the total is the number of shown ids (not
   * the page length), the page holds at most `pageSize` entities (the slice
   * `PageIsSlice` describes), and each is the fold of one shown group.
   */
  lemma AuditingsPageFacts(events: seq<AuditingEvent>, pageNumber: int, pageSize: int, isDeleted: bool)
    requires PageRequestFailures(pageNumber, pageSize) == []
    ensures var r := Paginate(Auditings(events, isDeleted), pageNumber, pageSize);
      r.totalCount == |KeptGroups(events, isDeleted)| &&
      |r.items| <= pageSize &&
      (events == [] ==> r.items == [] && r.totalCount == 0) &&
      forall a :: a in r.items ==> exists g :: g in KeptGroups(events, isDeleted) && a == Project(g)
  {
    var all := Auditings(events, isDeleted);
    PageIsSlice(all, pageNumber, pageSize);
    forall a | a in Page(all, pageNumber, pageSize)
      ensures exists g :: g in KeptGroups(events, isDeleted) && a == Project(g)
    {
      PageMember(all, pageNumber, pageSize, a);
      AuditingsAreGroupFolds(events, isDeleted, a);
    }
  }

  /** An id has events exactly when some stored event carries it. */
  lemma EventsWithIdNonEmpty(events: seq<AuditingEvent>, id: Guid)
    ensures EventsWithId(events, id) != [] <==> exists e :: e in events && e.id == id
  {
    var g := EventsWithId(events, id);
    if exists e :: e in events && e.id == id {
      var e :| e in events && e.id == id;
      assert e in g;
    }
    if g != [] {
      assert g[0] in g;
    }
  }

  /** An id's events hold a delete exactly when some stored delete event carries the id. */
  lemma HasDeleteWithId(events: seq<AuditingEvent>, id: Guid)
    ensures HasDelete(EventsWithId(events, id)) <==> exists e :: e in events && e.id == id && e.Deleted?
  {
    var g := EventsWithId(events, id);
    if exists e :: e in events && e.id == id && e.Deleted? {
      var e :| e in events && e.id == id && e.Deleted?;
      assert e in g;
      var i :| 0 <= i < |g| && g[i] == e;
      assert IsDeletedEvent(g[i]);
    }
    if HasDelete(g) {
      var i :| 0 <= i < |g| && IsDeletedEvent(g[i]);
      assert g[i] in g;
    }
  }

  /**
   * An id's events are listed as a group exactly when there are some and
   * either deleted entities were asked for or none of them is a delete event.
   */
  lemma DeletedGroupHiddenUnlessAsked(events: seq<AuditingEvent>, id: Guid, isDeleted: bool)
    ensures EventsWithId(events, id) in KeptGroups(events, isDeleted) <==>
      (exists e :: e in events && e.id == id) &&
      (isDeleted || forall e :: e in events && e.id == id ==> !e.Deleted?)
  {
    var g := EventsWithId(events, id);
    KeptGroupIff(events, AuditingId, id, Keep(isDeleted));
    assert (g in KeptGroups(events, isDeleted)) == (g != [] && Shown(isDeleted, g));
    EventsWithIdNonEmpty(events, id);
    HasDeleteWithId(events, id);
  }

  /** Two events with the same `Id` and no delete make exactly one entity. */
  lemma SameIdOneAuditing(a: AuditingEvent, b: AuditingEvent, isDeleted: bool)
    requires a.id == b.id && !a.Deleted? && !b.Deleted?
    ensures Auditings([a, b], isDeleted) == [Project([a, b])]
  {
    GroupByPair(a, b, AuditingId);
    var gs: seq<seq<AuditingEvent>> := [[a, b]];
    assert !HasDelete(gs[0]);
    assert gs[..0] == [];
  }

  /**
   * A miss caches the computed page under its key; asking again, while the
   * store is unchanged, answers the same page and leaves the cache as it is.
   * A hit answers the cached page, or the empty page for a cached `null`.
   */
  lemma PageLookupCachesOnce(entries: map<CacheKey, Cached>, events: seq<AuditingEvent>,
                             pageNumber: int, pageSize: int, isDeleted: bool)
    requires WellTyped(entries)
    ensures var key := PageKey(pageNumber, pageSize, isDeleted);
      var (r, entries') := PageLookup(entries, events, pageNumber, pageSize, isDeleted);
      WellTyped(entries') &&
      (key !in entries ==> r == Paginate(Auditings(events, isDeleted), pageNumber, pageSize) &&
                           entries' == entries[key := CachedPage(Some(r))]) &&
      (key in entries ==> entries' == entries &&
                          r == (if entries[key].page.Some? then entries[key].page.value else EmptyPage(pageNumber, pageSize))) &&
      PageLookup(entries', events, pageNumber, pageSize, isDeleted) == (r, entries')
  {
  }

  // ---------------------------------------------------------------- GetAuditingById

  /** The answer and the cache entries after one lookup of `id`. */
  function LookupAuditing(entries: map<CacheKey, Cached>, events: seq<AuditingEvent>, id: Guid)
    : (AuditingState, map<CacheKey, Cached>)
    requires WellTyped(entries)
  {
    var key := EntityKey(id);
    if key in entries then (entries[key].entity, entries)
    else
      var doc := Project(EventsWithId(events, id));
      (doc, entries[key := CachedEntity(doc)])
  }

  /** `GetAuditingByIdQueryHandler.Handle`. */
  method GetAuditingById(storage: Storage, id: Guid) returns (r: AuditingState)
    requires storage.Valid()
    modifies storage.cache
    ensures storage.Valid()
    ensures (r, storage.cache.entries) == LookupAuditing(old(storage.cache.entries), storage.events, id)
    ensures storage.cache.keys ==
      old(storage.cache.keys) + (if EntityKey(id) in old(storage.cache.entries) then [] else [EntityKey(id)])
  {
    var key := EntityKey(id);
    var hit, cached := storage.cache.TryGetCache(key);
    if hit {
      return cached.value.entity;
    }
    var all := storage.GetAuditingList();
    var events := EventsWithId(all, id);
    var doc := AuditingEntity.FromEvents(events);
    r := doc.State();
    storage.cache.SetCache(key, CachedEntity(r));
  }

  /**
   * A miss folds exactly the events with that id and caches the result, so a
   * second lookup, while the store is unchanged, answers the same entity and
   * leaves the cache as it is; an id with no events gives a fresh entity,
   * not an error.
   */
  lemma LookupAuditingCachesOnce(entries: map<CacheKey, Cached>, events: seq<AuditingEvent>, id: Guid)
    requires WellTyped(entries)
    ensures var (r, entries') := LookupAuditing(entries, events, id);
      WellTyped(entries') &&
      (EntityKey(id) !in entries ==> r == Project(EventsWithId(events, id)) &&
                                     entries' == entries[EntityKey(id) := CachedEntity(r)]) &&
      (EntityKey(id) in entries ==> entries' == entries && r == entries[EntityKey(id)].entity) &&
      LookupAuditing(entries', events, id) == (r, entries')
  {
  }

  /** An id no event carries folds into a freshly constructed entity. */
  lemma LookupOfUnknownIdIsFresh(entries: map<CacheKey, Cached>, events: seq<AuditingEvent>, id: Guid)
    requires WellTyped(entries)
    requires EntityKey(id) !in entries
    requires forall e :: e in events ==> e.id != id
    ensures LookupAuditing(entries, events, id).0 == Fresh
  {
    assert forall e :: HasKey(AuditingId, id)(e) == (AuditingId(e) == id);
    WhereNone(events, HasKey(AuditingId, id));
    ProjectEmpty();
  }

  // ---------------------------------------------------------------- RolebackAuditing

  /** `x.Version <= v` on a `float?`: false when the version is null. */
  predicate VersionAtMost(e: AuditingEvent, v: real) {
    e.version.Some? && e.version.value <= v
  }

  /** The events to reapply: those with the id whose version is at most `version`, in stored order. */
  function ReapplyAuditing(events: seq<AuditingEvent>, id: Guid, version: real): (r: seq<AuditingEvent>)
    ensures forall e :: e in r <==> e in events && e.id == id && e.version.Some? && e.version.value <= version
  {
    Where(EventsWithId(events, id), e => VersionAtMost(e, version))
  }

  /** `RolebackAuditingQueryHandler.Handle`: the store always accepts, so the answer is the id. */
  method RolebackAuditing(storage: Storage, caller: Guid, id: Guid, version: real, now: Time)
    returns (r: Result<Guid>)
    requires storage.Valid()
    modifies storage, storage.cache
    ensures storage.Valid()
    ensures storage.events ==
      old(storage.events) + [NewRollback(id, now, version, caller, ReapplyAuditing(old(storage.events), id, version))]
    ensures storage.cache.entries == map[]
    ensures r == SaveOutcome(id, true) && r == Ok(id)
  {
    var matching := storage.GetAuditingById(id);
    var roleback := Where(matching, e => VersionAtMost(e, version));
    var e := NewRollback(id, now, version, caller, roleback);
    var added := storage.AddAuditing(e);
    r := SaveOutcome(e.id, added);
  }

  /**
   * The not-deleted rule of the rollback validator is typed on the update
   * query, so a rollback request reaches its handler unvalidated.
   */
  function RollbackValidationAsWritten(events: seq<AuditingEvent>, id: Guid): Option<seq<ValidationFailure>> {
    None
  }

  /** As intended: a rollback of an entity with a delete event fails validation. */
  function RollbackValidation(events: seq<AuditingEvent>, id: Guid): (r: Option<seq<ValidationFailure>>)
    ensures r.Some? && (r.value == [] <==> !HasDelete(EventsWithId(events, id)))
  {
    Some(Rule(!HasDelete(EventsWithId(events, id)), "Id", FileDeletedMessage))
  }

  /**
   * An entity uploaded at a version at most `v` and then deleted: as written,
   * its rollback reaches the handler, and since the delete event has no
   * version it is not reapplied, so the rolled-back entity shows the uploaded
   * file again. As intended, the pipeline answers with the "deleted" error.
   */
  lemma RollbackResurrectsDeleted(upload: AuditingEvent, deletedAt: Time, deleter: Guid,
                                  caller: Guid, v: real, now: Time, s: AuditingState, answer: Result<Guid>)
    requires upload.Uploaded? && upload.version.Some? && upload.version.value <= v
    ensures var events := [upload, NewDeleted(upload.id, deletedAt, deleter)];
      var reapply := ReapplyAuditing(events, upload.id, v);
      reapply == [upload] &&
      Apply(s, NewRollback(upload.id, now, v, caller, reapply)).fileUrl == upload.fileUrl &&
      Handle(RollbackValidationAsWritten(events, upload.id), answer) == Handled(answer) &&
      Handle(RollbackValidation(events, upload.id), answer) ==
        Invalid([Error(Validation, "Id", Some(FileDeletedMessage))])
  {
    var d := NewDeleted(upload.id, deletedAt, deleter);
    var events := [upload, d];
    assert events[..1] == [upload];
    assert [upload][..0] == [];
    assert EventsWithId(events, upload.id) == events;
    assert Where([upload], e => VersionAtMost(e, v)) == [upload];
    assert ReapplyAuditing(events, upload.id, v) == [upload];
    assert HasDelete(EventsWithId(events, upload.id)) by {
      assert IsDeletedEvent(events[1]);
    }
    assert SortBy([upload], OccurredAt) == [upload];
    assert ApplyAll(RollbackBase(now), [upload]) == Apply(ApplyAll(RollbackBase(now), []), upload);
  }

  // ---------------------------------------------------------------- UpdateAuditing

  /**
   * `UpdateAuditingQueryValidator`: the id must have no delete event and the
   * scanner must report the file clean (`scanClean`).
   */
  function UpdateFailures(events: seq<AuditingEvent>, id: Guid, scanClean: bool): (r: seq<ValidationFailure>)
    ensures r == [] <==> !HasDelete(EventsWithId(events, id)) && scanClean
    ensures HasDelete(EventsWithId(events, id)) ==> ValidationFailure("Id", FileDeletedMessage) in r
    ensures !scanClean ==> ValidationFailure("File", MaliciousFileMessage) in r
  {
    Rule(!HasDelete(EventsWithId(events, id)), "Id", FileDeletedMessage) +
      Rule(scanClean, "File", MaliciousFileMessage)
  }

  /** `UpdateAuditingQueryHandler.Handle`: the event carries an empty file url and no tags. */
  method UpdateAuditing(storage: Storage, caller: Guid, id: Guid, name: string, description: string,
                        version: real, file: FormFile, now: Time)
    returns (r: Result<Guid>)
    requires storage.Valid()
    modifies storage, storage.cache
    ensures storage.Valid()
    ensures storage.events == old(storage.events) + [NewUpdated(id, now, name, description, version, file, "", caller, None)]
    ensures storage.cache.entries == map[]
    ensures r == SaveOutcome(id, true) && r == Ok(id)
  {
    var e := NewUpdated(id, now, name, description, version, file, "", caller, None);
    var added := storage.AddAuditing(e);
    r := SaveOutcome(e.id, added);
  }

  /**
   * The two validators registered for the update query: its own, and the
   * rollback validator, which is declared on the update query too. The
   * validation behaviour takes a single `IValidator`, so the container
   * resolves one of them; which one is an input.
   */
  datatype UpdateValidator = UpdateRules | RollbackRules

  /** The failures the resolved validator reports for an update. */
  function ResolvedUpdateFailures(v: UpdateValidator, events: seq<AuditingEvent>, id: Guid, scanClean: bool)
    : (r: seq<ValidationFailure>)
    ensures r == [] <==> !HasDelete(EventsWithId(events, id)) && (v == UpdateRules ==> scanClean)
    ensures HasDelete(EventsWithId(events, id)) ==> ValidationFailure("Id", FileDeletedMessage) in r
  {
    match v
    case UpdateRules => UpdateFailures(events, id, scanClean)
    case RollbackRules => RollbackValidation(events, id).value
  }

  /**
   * An update the resolved validator accepts is stored and answered with its
   * id; one it refuses is answered with its errors, the handler's answer
   * unused. Either validator refuses a deleted entity; only the update's own
   * validator refuses a file the scanner rejects.
   */
  lemma UpdatePipeline(v: UpdateValidator, events: seq<AuditingEvent>, id: Guid, scanClean: bool)
    ensures var response := Handle(Some(ResolvedUpdateFailures(v, events, id, scanClean)), SaveOutcome(id, true));
      (response.Handled? <==> !HasDelete(EventsWithId(events, id)) && (v == UpdateRules ==> scanClean)) &&
      (response.Handled? ==> response.value == Ok(id)) &&
      (HasDelete(EventsWithId(events, id)) ==>
        response.Invalid? && Error(Validation, "Id", Some(FileDeletedMessage)) in response.errors) &&
      (v == UpdateRules && !scanClean ==>
        response.Invalid? && Error(Validation, "File", Some(MaliciousFileMessage)) in response.errors)
  {
    var failures := ResolvedUpdateFailures(v, events, id, scanClean);
    var response := Handle(Some(failures), SaveOutcome(id, true));
    if HasDelete(EventsWithId(events, id)) {
      var k :| 0 <= k < |failures| && failures[k] == ValidationFailure("Id", FileDeletedMessage);
      assert response.errors[k] == ToError(failures[k]);
    }
    if v == UpdateRules && !scanClean {
      var k :| 0 <= k < |failures| && failures[k] == ValidationFailure("File", MaliciousFileMessage);
      assert response.errors[k] == ToError(failures[k]);
    }
  }

  /** When the rollback validator is the one resolved, a file the scanner rejects is stored. */
  lemma MaliciousUpdateStoredUnderRollbackRules(events: seq<AuditingEvent>, id: Guid)
    requires !HasDelete(EventsWithId(events, id))
    ensures Handle(Some(ResolvedUpdateFailures(RollbackRules, events, id, false)), SaveOutcome(id, true)) == Handled(Ok(id))
  {
  }
}

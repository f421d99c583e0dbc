/**
 * The Document service's query and command handlers over its event store:
 * the paginated list of documents, the cached single lookup with its owner
 * check, the "has live documents" query, the per-user deletion and the
 * version-bounded rollback.
 */
module DocumentQueries {
  import opened Common
  import opened Linq
  import opened Validation
  import opened DocumentEvents
  import opened Cache
  import opened DocumentInfra

  /** Folds one group of events into its document, in `OccurredAt` order. */
  method FoldGroup(apply: Applier, group: seq<DocumentEvent>) returns (doc: Document)
    ensures doc == Project(apply, group)
  {
    var ordered := SortBy(group, OccurredAt);
    doc := Fresh;
    var i := 0;
    while i < |ordered|
      invariant 0 <= i <= |ordered|
      invariant doc == FoldLeft(apply, Fresh, ordered[..i])
    {
      doc := apply(doc, ordered[i]);
      assert ordered[..i + 1][..i] == ordered[..i];
      i := i + 1;
    }
    assert ordered[..i] == ordered;
  }

  // ---------------------------------------------------------------- GetDocuments

  /** One document per distinct event `Id`, in order of first appearance. */
  function AllDocuments(apply: Applier, events: seq<DocumentEvent>): seq<Document> {
    Select(GroupBy(events, EventId), g => Project(apply, g))
  }

  /** `GetDocumentsWithPaginationQueryHandler.Handle`. */
  method GetDocuments(store: DocumentStore, apply: Applier, pageNumber: int, pageSize: int)
    returns (r: PaginatedList<Document>)
    ensures r == Paginate(AllDocuments(apply, store.events), pageNumber, pageSize)
  {
    var groups := GroupBy(store.events, EventId);
    var documents: seq<Document> := [];
    var i := 0;
    while i < |groups|
      invariant 0 <= i <= |groups|
      invariant |documents| == i
      invariant forall j :: 0 <= j < i ==> documents[j] == Project(apply, groups[j])
    {
      var doc := FoldGroup(apply, groups[i]);
      documents := documents + [doc];
      i := i + 1;
    }
    assert documents == AllDocuments(apply, store.events);
    r := PaginatedList(Page(documents, pageNumber, pageSize), |documents|, pageNumber, pageSize);
  }

  /** Each document is the fold of all the events that share one event id. */
  lemma AllDocumentsAreGroupFolds(apply: Applier, events: seq<DocumentEvent>, d: Document)
    requires d in AllDocuments(apply, events)
    ensures exists k :: k in DistinctKeys(events, EventId) && d == Project(apply, Where(events, HasKey(EventId, k)))
  {
    var docs := AllDocuments(apply, events);
    var keys := DistinctKeys(events, EventId);
    var j :| 0 <= j < |docs| && docs[j] == d;
    assert keys[j] in keys;
  }

  /**
   * For an accepted page request: the total is the number of distinct event
   * ids, the page holds at most `pageSize` documents, and each of them is the
   * fold of all the events sharing one id.
   */
  lemma DocumentsPageFacts(apply: Applier, events: seq<DocumentEvent>, pageNumber: int, pageSize: int)
    requires PageRequestFailures(pageNumber, pageSize) == []
    ensures var r := Paginate(AllDocuments(apply, events), pageNumber, pageSize);
      r.totalCount == |DistinctKeys(events, EventId)| &&
      |r.items| <= pageSize &&
      (events == [] ==> r.items == [] && r.totalCount == 0) &&
      forall d :: d in r.items ==>
        exists k :: k in DistinctKeys(events, EventId) && d == Project(apply, Where(events, HasKey(EventId, k)))
  {
    var docs := AllDocuments(apply, events);
    PageIsSlice(docs, pageNumber, pageSize);
    forall d | d in Page(docs, pageNumber, pageSize)
      ensures exists k :: k in DistinctKeys(events, EventId) && d == Project(apply, Where(events, HasKey(EventId, k)))
    {
      PageMember(docs, pageNumber, pageSize, d);
      AllDocumentsAreGroupFolds(apply, events, d);
    }
  }

  /** Two events with the same `Id` make exactly one document. */
  lemma SameIdOneDocument(apply: Applier, a: DocumentEvent, b: DocumentEvent)
    requires a.id == b.id
    ensures AllDocuments(apply, [a, b]) == [Project(apply, [a, b])]
  {
    GroupByPair(a, b, EventId);
  }

  // ---------------------------------------------------------------- GetDocumentById

  const NotFoundMessage: string := "Document not found or you do not have permission to access this document."

  /** The owner check: only the document's owner may see it. */
  function OwnedBy(doc: Document, caller: Guid): (r: Result<Document>)
    ensures r.Ok? <==> doc.userId == caller
    ensures r.Ok? ==> r.value == doc
    ensures r.Err? ==> r.error == NotFoundError(NotFoundMessage)
  {
    if doc.userId != caller then Err(NotFoundError(NotFoundMessage)) else Ok(doc)
  }

  /** `_storage.GetDocumentList().Where(x => x.DocumentId == id)`. */
  function EventsOf(events: seq<DocumentEvent>, id: Guid): (r: seq<DocumentEvent>)
    ensures forall e :: e in r <==> e in events && e.documentId == id
  {
    assert forall e :: HasKey(DocumentIdOf, id)(e) == (DocumentIdOf(e) == id);
    Where(events, HasKey(DocumentIdOf, id))
  }

  /** The answer and the cache entries after one lookup of `id` by `caller`. */
  function LookupById(entries: map<CacheKey, Document>, events: seq<DocumentEvent>, apply: Applier,
                      caller: Guid, id: Guid): (Result<Document>, map<CacheKey, Document>)
  {
    var key := EntityKey(id);
    if key in entries then (OwnedBy(entries[key], caller), entries)
    else
      var doc := Project(apply, EventsOf(events, id));
      (OwnedBy(doc, caller), entries[key := doc])
  }

  /** `GetDocumentByIdQueryHandler.Handle`. */
  method GetDocumentById(store: DocumentStore, cache: CacheService<CacheKey, Document>, apply: Applier,
                         caller: Guid, id: Guid) returns (r: Result<Document>)
    requires cache.Valid()
    modifies cache
    ensures cache.Valid()
    ensures (r, cache.entries) == LookupById(old(cache.entries), store.events, apply, caller, id)
    ensures cache.keys == old(cache.keys) + (if EntityKey(id) in old(cache.entries) then [] else [EntityKey(id)])
  {
    var key := EntityKey(id);
    var hit, cached := cache.TryGetCache(key);
    if hit {
      if cached.value.userId != caller {
        return Err(NotFoundError(NotFoundMessage));
      }
      return Ok(cached.value);
    }
    var doc := FoldGroup(apply, EventsOf(store.events, id));
    cache.SetCache(key, doc);
    if doc.userId != caller {
      return Err(NotFoundError(NotFoundMessage));
    }
    r := Ok(doc);
  }

  /**
   * A miss folds exactly the events of that document and caches the result
   * before the owner check, so the document is cached even when the caller is
   * refused; looking it up again, while the store is unchanged, gives the
   * same answer and leaves the cache as it is.
   */
  lemma LookupCachesBeforeOwnerCheck(entries: map<CacheKey, Document>, events: seq<DocumentEvent>, apply: Applier,
                                     caller: Guid, id: Guid)
    requires EntityKey(id) !in entries
    ensures var (r, entries') := LookupById(entries, events, apply, caller, id);
      var doc := Project(apply, EventsOf(events, id));
      entries' == entries[EntityKey(id) := doc] &&
      (r.Ok? <==> doc.userId == caller) &&
      LookupById(entries', events, apply, caller, id) == (r, entries')
  {
  }

  // ---------------------------------------------------------------- ExistsDocumentByUserId

  /** A group of events is live when none of them is a delete event. */
  predicate IsLive(group: seq<DocumentEvent>) {
    !HasDelete(group)
  }

  /** The groups of events per `DocumentId` that contain no delete event. */
  function LiveGroups(events: seq<DocumentEvent>): seq<seq<DocumentEvent>> {
    Where(GroupBy(events, DocumentIdOf), IsLive)
  }

  /** A group's document under `apply`, as a function value. */
  function Folder(apply: Applier): seq<DocumentEvent> -> Document {
    g => Project(apply, g)
  }

  /** The documents that were not deleted, in order of first appearance. */
  function LiveDocuments(apply: Applier, events: seq<DocumentEvent>): seq<Document> {
    Select(LiveGroups(events), Folder(apply))
  }

  /** A document's events form a live group exactly when there are some and none of them is a delete. */
  lemma LiveGroupIffNoDelete(events: seq<DocumentEvent>, id: Guid)
    ensures EventsOf(events, id) in LiveGroups(events) <==>
      EventsOf(events, id) != [] && !HasDelete(EventsOf(events, id))
  {
    KeptGroupIff(events, DocumentIdOf, id, IsLive);
  }

  /** The documents of the live groups, built one group at a time as the handlers' loop does. */
  function LiveFolds(apply: Applier, groups: seq<seq<DocumentEvent>>): seq<Document>
    decreases |groups|
  {
    if groups == [] then []
    else
      var n := |groups| - 1;
      LiveFolds(apply, groups[..n]) + (if IsLive(groups[n]) then [Project(apply, groups[n])] else [])
  }

  /** The loop's one-group-at-a-time list is the list of live documents. */
  lemma {:induction false} LiveFoldsAreListed(apply: Applier, groups: seq<seq<DocumentEvent>>)
    ensures LiveFolds(apply, groups) == Select(Where(groups, IsLive), Folder(apply))
    decreases |groups|
  {
    if groups != [] {
      LiveFoldsAreListed(apply, groups[..|groups| - 1]);
      SelectWhereSnoc(groups, IsLive, Folder(apply));
    }
  }

  /** The handlers' `foreach` over the groups: one fold per group without a delete event. */
  method FoldLiveGroups(apply: Applier, groups: seq<seq<DocumentEvent>>) returns (documents: seq<Document>)
    ensures documents == LiveFolds(apply, groups)
  {
    documents := [];
    var i := 0;
    while i < |groups|
      invariant 0 <= i <= |groups|
      invariant documents == LiveFolds(apply, groups[..i])
    {
      assert groups[..i + 1][..i] == groups[..i];
      if !HasDelete(groups[i]) {
        var doc := FoldGroup(apply, groups[i]);
        documents := documents + [doc];
      }
      i := i + 1;
    }
    assert groups[..i] == groups;
  }

  /** Builds the list of live documents the way the handlers do: the stored events grouped by document, then folded. */
  method CollectLiveDocuments(store: DocumentStore, apply: Applier) returns (documents: seq<Document>)
    ensures documents == LiveDocuments(apply, store.events)
  {
    var groups := GroupBy(store.events, DocumentIdOf);
    documents := FoldLiveGroups(apply, groups);
    LiveFoldsAreListed(apply, groups);
  }

  /**
   * `ExistsDocumentByUserIdQueryHandler.Handle` as written: whether any live
   * document exists, whoever owns it. The requested user id is not used.
   */
  function ExistsAsWritten(apply: Applier, events: seq<DocumentEvent>, userId: Guid): bool {
    LiveDocuments(apply, events) != []
  }

  method ExistsDocumentByUserIdAsWritten(store: DocumentStore, apply: Applier, userId: Guid) returns (r: bool)
    ensures r == ExistsAsWritten(apply, store.events, userId)
  {
    var documents := CollectLiveDocuments(store, apply);
    r := documents != [];
  }

  /** As intended: whether the user owns a live document. */
  function ExistsForUser(apply: Applier, events: seq<DocumentEvent>, userId: Guid): bool {
    Any(LiveDocuments(apply, events), (d: Document) => d.userId == userId)
  }

  method ExistsDocumentByUserId(store: DocumentStore, apply: Applier, userId: Guid) returns (r: bool)
    ensures r == ExistsForUser(apply, store.events, userId)
  {
    var documents := CollectLiveDocuments(store, apply);
    r := false;
    var i := 0;
    while i < |documents|
      invariant 0 <= i <= |documents|
      invariant r <==> exists j :: 0 <= j < i && documents[j].userId == userId
    {
      if documents[i].userId == userId {
        r := true;
      }
      i := i + 1;
    }
  }

  /** The intended answer is true only if the user owns a live document, and then the written one is too. */
  lemma ExistsForUserImpliesAsWritten(apply: Applier, events: seq<DocumentEvent>, userId: Guid)
    ensures ExistsForUser(apply, events, userId) ==> ExistsAsWritten(apply, events, userId)
    ensures ExistsForUser(apply, events, userId) <==>
      exists d :: d in LiveDocuments(apply, events) && d.userId == userId
  {
  }

  /** An `Apply` that records the uploader as the owner, to exhibit the written query's answer. */
  function UploaderIsOwner(d: Document, e: DocumentEvent): Document {
    if e.kind.Uploaded? then Document(e.documentId, e.kind.uploadedByUserId) else d
  }

  /** A single live upload by user 1: the written query says user 2 has documents. */
  lemma ExistsAsWrittenAnswersForAnyone()
    ensures var events := [DocumentEvent(10, 20, 0, Some(1.0), Uploaded(1))];
      ExistsAsWritten(UploaderIsOwner, events, 2) && !ExistsForUser(UploaderIsOwner, events, 2)
  {
    var e := DocumentEvent(10, 20, 0, Some(1.0), Uploaded(1));
    var events := [e];
    assert [e][..0] == [];
    assert DistinctKeys(events, DocumentIdOf) == [20];
    assert Where(events, HasKey(DocumentIdOf, 20)) == [e];
    assert GroupBy(events, DocumentIdOf) == [[e]];
    assert !HasDelete([e]);
    assert [[e]][..0] == [];
    assert LiveGroups(events) == [[e]];
    assert SortBy([e], OccurredAt) == [e];
    assert Project(UploaderIsOwner, [e]) == Document(20, 1);
    assert LiveDocuments(UploaderIsOwner, events) == [Document(20, 1)];
  }

  // ---------------------------------------------------------------- DeleteDocumentByUserId

  /** The ids `DeleteDocument` is called with: owned documents whose blob step, if any, did not throw. */
  function DeleteTargets(docs: seq<Document>, userId: Guid, blobStep: bool, blobOk: Guid -> bool): seq<Guid>
    decreases |docs|
  {
    if docs == [] then []
    else
      var n := |docs| - 1;
      var d := docs[n];
      DeleteTargets(docs[..n], userId, blobStep, blobOk) +
        (if d.userId == userId && (!blobStep || blobOk(d.id)) then [d.id] else [])
  }

  /** The document ids whose blob prefix `"{id}/"` deletion is attempted. */
  function BlobTargets(docs: seq<Document>, userId: Guid, blobStep: bool): seq<Guid>
    decreases |docs|
  {
    if docs == [] || !blobStep then []
    else
      var n := |docs| - 1;
      BlobTargets(docs[..n], userId, blobStep) + (if docs[n].userId == userId then [docs[n].id] else [])
  }

  /** An id is deleted exactly when a live document with that id is owned by the user and its blob step succeeded. */
  lemma {:induction false} DeleteTargetsExact(docs: seq<Document>, userId: Guid, blobStep: bool, blobOk: Guid -> bool,
                                              id: Guid)
    ensures id in DeleteTargets(docs, userId, blobStep, blobOk) <==>
      exists d :: d in docs && d.id == id && d.userId == userId && (!blobStep || blobOk(id))
    decreases |docs|
  {
    if docs != [] {
      var n := |docs| - 1;
      DeleteTargetsExact(docs[..n], userId, blobStep, blobOk, id);
      assert docs == docs[..n] + [docs[n]];
      if exists d :: d in docs && d.id == id && d.userId == userId && (!blobStep || blobOk(id)) {
        var d :| d in docs && d.id == id && d.userId == userId && (!blobStep || blobOk(id));
        if d != docs[n] {
          assert d in docs[..n];
        }
      }
    }
  }

  /** One more document extends both target lists by that document's own entry. */
  lemma TargetsStep(docs: seq<Document>, i: nat, userId: Guid, blobStep: bool, blobOk: Guid -> bool)
    requires i < |docs|
    ensures DeleteTargets(docs[..i + 1], userId, blobStep, blobOk) ==
      DeleteTargets(docs[..i], userId, blobStep, blobOk) +
        (if docs[i].userId == userId && (!blobStep || blobOk(docs[i].id)) then [docs[i].id] else [])
    ensures BlobTargets(docs[..i + 1], userId, blobStep) ==
      BlobTargets(docs[..i], userId, blobStep) + (if blobStep && docs[i].userId == userId then [docs[i].id] else [])
  {
    assert docs[..i + 1][..i] == docs[..i];
  }

  /**
   * `DeleteDocumentByUserIdCommandHandler.Handle`. The blob step runs outside
   * the "Test" environment when blob storage is configured; `blobOk(id)` is
   * whether deleting that prefix returns normally. A document whose blob step
   * throws is skipped and the loop goes on; the handler always succeeds.
   */
  method DeleteDocumentByUserId(store: DocumentStore, apply: Applier, userId: Guid,
                                isTestEnvironment: bool, hasBlobStorage: bool, blobOk: Guid -> bool)
    returns (blobDeletes: seq<Guid>)
    modifies store
    ensures var docs := LiveDocuments(apply, old(store.events));
      var blobStep := !isTestEnvironment && hasBlobStorage;
      store.deleted == old(store.deleted) + DeleteTargets(docs, userId, blobStep, blobOk) &&
      blobDeletes == BlobTargets(docs, userId, blobStep)
    ensures store.events == old(store.events)
  {
    var blobStep := !isTestEnvironment && hasBlobStorage;
    blobDeletes := [];
    if store.events == [] {
      assert LiveDocuments(apply, store.events) == [];
      return;
    }
    var documents := CollectLiveDocuments(store, apply);
    blobDeletes := DeleteOwned(store, documents, userId, blobStep, blobOk);
  }

  /** The handler's `foreach` over the live documents: each one the user owns is deleted unless its blob step threw. */
  method DeleteOwned(store: DocumentStore, documents: seq<Document>, userId: Guid, blobStep: bool, blobOk: Guid -> bool)
    returns (blobDeletes: seq<Guid>)
    modifies store
    ensures store.deleted == old(store.deleted) + DeleteTargets(documents, userId, blobStep, blobOk)
    ensures blobDeletes == BlobTargets(documents, userId, blobStep)
    ensures store.events == old(store.events)
  {
    blobDeletes := [];
    var i := 0;
    while i < |documents|
      invariant 0 <= i <= |documents|
      invariant store.events == old(store.events)
      invariant store.deleted == old(store.deleted) + DeleteTargets(documents[..i], userId, blobStep, blobOk)
      invariant blobDeletes == BlobTargets(documents[..i], userId, blobStep)
    {
      var document := documents[i];
      TargetsStep(documents, i, userId, blobStep, blobOk);
      if document.userId == userId {
        if blobStep {
          blobDeletes := blobDeletes + [document.id];
        }
        if !blobStep || blobOk(document.id) {
          store.DeleteDocument(document.id);
        }
      }
      i := i + 1;
    }
    assert documents[..i] == documents;
  }

  // ---------------------------------------------------------------- RolebackDocument

  /** The events to reapply: the document's events whose version is at most `version`. */
  function Reapply(events: seq<DocumentEvent>, id: Guid, version: real): (r: seq<DocumentEvent>)
    ensures forall e :: e in r <==> e in events && e.documentId == id && e.version.Some? && e.version.value <= version
  {
    Where(EventsOf(events, id), e => VersionAtMost(e, version))
  }

  /** `new DocumentRolebackEvent(id, version, userId, reapply)`. */
  function RollbackEvent(events: seq<DocumentEvent>, id: Guid, version: real, userId: Guid, now: Time): DocumentEvent {
    DocumentEvent(id, id, now, Some(version), RolledBack(userId, Reapply(events, id, version)))
  }

  /** `RolebackDocumentQueryHandler.Handle`; `accepted` is the store's answer. */
  method RolebackDocument(store: DocumentStore, caller: Guid, id: Guid, version: real, now: Time, accepted: bool)
    returns (r: Result<Guid>)
    modifies store
    ensures store.events == old(store.events) + (if accepted then [RollbackEvent(old(store.events), id, version, caller, now)] else [])
    ensures store.deleted == old(store.deleted)
    ensures r == SaveOutcome(id, accepted)
  {
    var roleback := Reapply(store.events, id, version);
    var e := DocumentEvent(id, id, now, Some(version), RolledBack(caller, roleback));
    var added := store.AddDocument(e, accepted);
    r := SaveOutcome(id, added);
  }

  /**
   * Rolling back keeps only events with a version, at most the requested one,
   * in stored order; asking for a higher version never keeps fewer events.
   */
  lemma ReapplyMonotone(events: seq<DocumentEvent>, id: Guid, v1: real, v2: real)
    requires v1 <= v2
    ensures |Reapply(events, id, v1)| <= |Reapply(events, id, v2)|
  {
    WhereMonotone(EventsOf(events, id), e => VersionAtMost(e, v1), e => VersionAtMost(e, v2));
  }

  /** The not-deleted rule, as the rollback validator is typed: it applies to updates, so a rollback has no validator. */
  function RollbackValidationAsWritten(events: seq<DocumentEvent>, id: Guid): Option<seq<ValidationFailure>> {
    None
  }

  /** As intended: a rollback of a document with a delete event fails validation. */
  function RollbackValidation(events: seq<DocumentEvent>, id: Guid): (r: Option<seq<ValidationFailure>>)
    ensures r.Some? && (r.value == [] <==> !HasDelete(EventsOf(events, id)))
  {
    Some(Rule(!HasDelete(EventsOf(events, id)), "Id", FileDeletedMessage))
  }

  /**
   * A deleted document: as written, the rollback reaches its handler; as
   * intended, the pipeline answers with the "deleted" validation error.
   */
  lemma RollbackOfDeletedDocument(events: seq<DocumentEvent>, id: Guid, answer: Result<Guid>)
    requires HasDelete(EventsOf(events, id))
    ensures Handle(RollbackValidationAsWritten(events, id), answer) == Handled(answer)
    ensures Handle(RollbackValidation(events, id), answer) ==
      Invalid([Error(Validation, "Id", Some(FileDeletedMessage))])
  {
  }
}

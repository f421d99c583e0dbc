/**
 * The Auditing service's `AuditingStorage`: an append-only list of events
 * that invalidates the shared query cache on every append.
 */
module AuditingStorage {
  import opened Common
  import opened Linq
  import opened Cache
  import opened AuditingEvents

  /** What the query handlers cache: a page of entities, or one entity. */
  datatype Cached =
    | CachedPage(page: Option<PaginatedList<AuditingState>>)
    | CachedEntity(entity: AuditingState)

  /** Page keys hold pages and entity keys hold entities, so every cast the handlers make succeeds. */
  predicate WellTyped(entries: map<CacheKey, Cached>) {
    forall k :: k in entries ==> (k.PageKey? <==> entries[k].CachedPage?)
  }

  /** The key an event is grouped and looked up by. */
  function AuditingId(e: AuditingEvent): Guid {
    e.id
  }

  /** `GetAuditingById(id)`: the stored events with that `Id`, in stored order. */
  function EventsWithId(events: seq<AuditingEvent>, id: Guid): (r: seq<AuditingEvent>)
    ensures forall e :: e in r <==> e in events && e.id == id
    ensures |r| <= |events|
  {
    assert forall e :: HasKey(AuditingId, id)(e) == (AuditingId(e) == id);
    Where(events, HasKey(AuditingId, id))
  }

  /** Appending never changes which earlier events an id selects: they stay a prefix of its selection. */
  lemma EventsWithIdAppend(events: seq<AuditingEvent>, e: AuditingEvent, id: Guid)
    ensures EventsWithId(events + [e], id) == EventsWithId(events, id) + (if e.id == id then [e] else [])
  {
    assert (events + [e])[..|events|] == events;
  }

  class Storage {
    /** `AuditingList`. */
    var events: seq<AuditingEvent>
    /** The cache every query handler shares. */
    const cache: CacheService<CacheKey, Cached>

    ghost predicate Valid()
      reads this, cache
    {
      cache.Valid() && WellTyped(cache.entries)
    }

    constructor (c: CacheService<CacheKey, Cached>)
      requires c.Valid() && WellTyped(c.entries)
      ensures events == [] && cache == c
      ensures Valid()
    {
      events := [];
      cache := c;
    }

    /** `AddAuditing`: appends the event, empties the cache, and reports success. */
    method AddAuditing(e: AuditingEvent) returns (added: bool)
      requires Valid()
      modifies this, cache
      ensures Valid()
      ensures added
      ensures events == old(events) + [e]
      ensures cache.entries == map[] && cache.keys == []
    {
      events := events + [e];
      cache.InvalidateCaches();
      added := true;
    }

    /** `GetAuditingList`. */
    method GetAuditingList() returns (r: seq<AuditingEvent>)
      ensures r == events
    {
      r := events;
    }

    /** `GetAuditingById`. */
    method GetAuditingById(id: Guid) returns (r: seq<AuditingEvent>)
      ensures r == EventsWithId(events, id)
    {
      r := EventsWithId(events, id);
    }
  }
}

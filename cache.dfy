/**
 * The in-memory `CacheService`: a key/value cache that also records, in order,
 * every key it has been given, so that `InvalidateCaches` can drop them all.
 */
module Cache {
  import opened Common

  /**
   * The keys the query handlers cache under: one per page request and one per
   * entity. Their rendering as strings is not modelled.
   */
  datatype CacheKey =
    | PageKey(pageNumber: int, pageSize: int, isDeleted: bool)
    | EntityKey(id: Guid)

  /** How many times `k` occurs in `s`. */
  function Count<K(==)>(s: seq<K>, k: K): nat {
    multiset(s)[k]
  }

  class CacheService<K(==), V> {
    /** The live cache entries (the wrapped `IMemoryCache`). */
    var entries: map<K, V>
    /** `_keys`: every key set since the last invalidation, duplicates included. */
    var keys: seq<K>

    /** Every live entry was set since the last invalidation, so invalidation reaches it. */
    ghost predicate Valid()
      reads this
    {
      forall k :: k in entries ==> k in keys
    }

    constructor ()
      ensures Valid()
      ensures entries == map[] && keys == []
    {
      entries := map[];
      keys := [];
    }

    /** `SetCache`: stores the value and records the key, even if it is already recorded. */
    method SetCache(key: K, value: V)
      requires Valid()
      modifies this
      ensures Valid()
      ensures entries == old(entries)[key := value]
      ensures keys == old(keys) + [key]
      ensures Count(keys, key) == Count(old(keys), key) + 1
    {
      entries := entries[key := value];
      keys := keys + [key];
    }

    /** `TryGetCache`: the value stored under `key`, if any. */
    method TryGetCache(key: K) returns (found: bool, value: Option<V>)
      ensures found <==> key in entries
      ensures found ==> value == Some(entries[key])
      ensures !found ==> value == None
    {
      if key in entries {
        found, value := true, Some(entries[key]);
      } else {
        found, value := false, None;
      }
    }

    /** `InvalidateCaches`: removes every recorded key's entry, then forgets the keys. */
    method InvalidateCaches()
      requires Valid()
      modifies this
      ensures Valid()
      ensures keys == []
      ensures entries == old(entries) - (set k | k in old(keys))
      ensures entries == map[]
    {
      var i := 0;
      while i < |keys|
        invariant 0 <= i <= |keys|
        invariant keys == old(keys)
        invariant entries == old(entries) - (set j | 0 <= j < i :: keys[j])
      {
        entries := entries - {keys[i]};
        i := i + 1;
      }
      assert (set j | 0 <= j < i :: keys[j]) == (set k | k in old(keys));
      keys := [];
    }
  }
}

/** The time-to-live cache of src/util/sliding_cache_map.cc.

    Clock readings are arguments, in nanoseconds; every method takes the reading the source takes under its lock. */
module SlidingCache {
  import opened Basics

  const NANOS_PER_SECOND: int := 1_000_000_000
  const DEFAULT_EXPIRATION_SEC: int := 600

  datatype Entry<+V> = Entry(value: V, expiry: int, ttl: int)

  type Cache<K, +V> = map<K, Entry<V>>

  function ExpiryAt(now: int, ttl: int): int {
    now + ttl * NANOS_PER_SECOND
  }

  /** The entry under `k` is present and has not expired at `now`. */
  predicate Live<K, V>(m: Cache<K, V>, k: K, now: int) {
    k in m && m[k].expiry > now
  }

  function Lookup<K, V>(m: Cache<K, V>, k: K, now: int): Option<V> {
    if Live(m, k, now) then Some(m[k].value) else None
  }

  function Stored<K, V>(m: Cache<K, V>, k: K, v: V, ttl: int, now: int): Cache<K, V> {
    m[k := Entry(v, ExpiryAt(now, ttl), ttl)]
  }

  /** What `Get` and `Find` leave behind: a live entry is refreshed, a dead one dropped. */
  function Accessed<K, V>(m: Cache<K, V>, k: K, now: int): Cache<K, V> {
    if Live(m, k, now) then m[k := m[k].(expiry := ExpiryAt(now, m[k].ttl))] else m - {k}
  }

  /** `putIfAbsent` reads the clock a second time, at `later`, when it does store. */
  function StoredIfAbsent<K, V>(m: Cache<K, V>, k: K, v: V, ttl: int, now: int, later: int): Cache<K, V> {
    if Live(m, k, now) then Accessed(m, k, now) else Stored(m, k, v, ttl, later)
  }

  /** `Size` keeps an entry whose expiry is exactly `now`, although `Get` and `Find` treat it as dead. */
  function Purged<K, V>(m: Cache<K, V>, now: int): Cache<K, V> {
    map k | k in m && m[k].expiry >= now :: m[k]
  }

  class SlidingCacheMap<K(==), V> {
    var cache: Cache<K, V>

    constructor ()
      ensures cache == map[]
    {
      cache := map[];
    }

    method Put(k: K, v: V, ttl: int, now: int)
      modifies this
      ensures cache == Stored(old(cache), k, v, ttl, now)
    {
      cache := cache[k := Entry(v, ExpiryAt(now, ttl), ttl)];
    }

    method PutIfAbsent(k: K, v: V, ttl: int, now: int, later: int)
      modifies this
      ensures cache == StoredIfAbsent(old(cache), k, v, ttl, now, later)
    {
      if k in cache {
        var entry := cache[k];
        if entry.expiry > now {
          cache := cache[k := entry.(expiry := ExpiryAt(now, entry.ttl))];
          return;
        }
      }
      cache := cache[k := Entry(v, ExpiryAt(later, ttl), ttl)];
    }

    method Get(k: K, now: int) returns (r: Option<V>)
      modifies this
      ensures r == Lookup(old(cache), k, now)
      ensures cache == Accessed(old(cache), k, now)
    {
      if k in cache {
        var entry := cache[k];
        if entry.expiry > now {
          cache := cache[k := entry.(expiry := ExpiryAt(now, entry.ttl))];
          return Some(entry.value);
        }
        cache := cache - {k};
      }
      return None;
    }

    method Find(k: K, now: int) returns (found: bool)
      modifies this
      ensures found == Live(old(cache), k, now)
      ensures cache == Accessed(old(cache), k, now)
    {
      if k in cache {
        var entry := cache[k];
        if entry.expiry > now {
          cache := cache[k := entry.(expiry := ExpiryAt(now, entry.ttl))];
          return true;
        }
        cache := cache - {k};
      }
      return false;
    }

    method Size(now: int) returns (n: nat)
      modifies this
      ensures cache == Purged(old(cache), now)
      ensures n == |cache|
    {
      var pending := cache.Keys;
      while pending != {}
        invariant pending <= cache.Keys
        invariant forall k :: k in cache <==> k in old(cache) && (k in pending || old(cache)[k].expiry >= now)
        invariant forall k | k in cache :: cache[k] == old(cache)[k]
        decreases |pending|
      {
        var k :| k in pending;
        pending := pending - {k};
        if cache[k].expiry < now {
          cache := cache - {k};
        }
      }
      return |cache|;
    }

    method Clear()
      modifies this
      ensures cache == map[]
    {
      cache := map[];
    }
  }
}

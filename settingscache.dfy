/** lib/utils/settingsCache.js: a read-through cache of settings values
    with a time-to-live, lazy refresh and a stale value on fetch failure.
    The clock is the `now` parameter (ms) and the fetch function is the
    outcome it produced. */
module SettingsCaching {

  import opened Wrappers

  /** The default time-to-live: 5 minutes in milliseconds. */
  const DefaultTtl: int := 5 * 60 * 1000

  datatype Entry<V> = Entry(value: V, timestamp: int)

  /** What calling `fetchFn` did: produced a value or threw. */
  datatype Fetch<V> = Fetched(value: V) | FetchFailed

  /** An entry is fresh while its age is strictly below the TTL. */
  predicate IsFresh<V>(e: Entry<V>, now: int, ttl: int) {
    now - e.timestamp < ttl
  }

  /** Whether a read of `key` at `now` is answered from the cache. */
  predicate Hit<V>(cache: map<string, Entry<V>>, key: string, now: int, ttl: int) {
    key in cache && IsFresh(cache[key], now, ttl)
  }

  /** The result of `get(key, fetchFn)`: the cached value on a hit; else the
      fetched value; else, when the fetch threw, the old value even if
      expired, or null (None) when nothing was cached. */
  function ReadResult<V>(cache: map<string, Entry<V>>, key: string, now: int, ttl: int, fetch: Fetch<V>): Option<V> {
    if Hit(cache, key, now, ttl) then Some(cache[key].value)
    else match fetch
      case Fetched(v) => Some(v)
      case FetchFailed => if key in cache then Some(cache[key].value) else None
  }

  /** The cache after `get(key, fetchFn)`: a successful fetch on a miss
      stores the value stamped with the time taken before the fetch. */
  function ReadCache<V>(cache: map<string, Entry<V>>, key: string, now: int, ttl: int, fetch: Fetch<V>): map<string, Entry<V>> {
    if Hit(cache, key, now, ttl) then cache
    else match fetch
      case Fetched(v) => cache[key := Entry(v, now)]
      case FetchFailed => cache
  }

  /** A hit returns the cached value and changes nothing; age equal to the
      TTL is already stale. */
  lemma HitServesCache<V>(cache: map<string, Entry<V>>, key: string, now: int, ttl: int, fetch: Fetch<V>)
    requires key in cache && now - cache[key].timestamp < ttl
    ensures ReadResult(cache, key, now, ttl, fetch) == Some(cache[key].value)
    ensures ReadCache(cache, key, now, ttl, fetch) == cache
    ensures !Hit(cache, key, cache[key].timestamp + ttl, ttl)
  {
  }

  /** A failed fetch leaves the cache as it was and falls back to the last
      known value, expired or not; with nothing cached the result is null. */
  lemma FailureFallsBack<V>(cache: map<string, Entry<V>>, key: string, now: int, ttl: int)
    requires !Hit(cache, key, now, ttl)
    ensures ReadCache(cache, key, now, ttl, FetchFailed) == cache
    ensures key in cache ==> ReadResult(cache, key, now, ttl, FetchFailed) == Some(cache[key].value)
    ensures key !in cache ==> ReadResult(cache, key, now, ttl, FetchFailed).None?
  {
  }

  /** A successful refetch is served unchanged to every read that follows
      within the TTL, with no further fetch. */
  lemma RefetchThenHit<V>(cache: map<string, Entry<V>>, key: string, now: int, later: int, ttl: int, v: V, fetch: Fetch<V>)
    requires !Hit(cache, key, now, ttl)
    requires now <= later < now + ttl
    ensures var c1 := ReadCache(cache, key, now, ttl, Fetched(v));
            && Hit(c1, key, later, ttl)
            && ReadResult(c1, key, later, ttl, fetch) == Some(v)
            && ReadCache(c1, key, later, ttl, fetch) == c1
  {
  }

  class SettingsCache<V> {
    var cache: map<string, Entry<V>>
    var ttl: int

    constructor ()
      ensures cache == map[] && ttl == DefaultTtl
    {
      cache := map[];
      ttl := DefaultTtl;
    }

    /** `get(key, fetchFn)` at time `now`; `fetched` tells whether `fetchFn`
        was called (it is called at most once, and only on a miss). */
    method Get(key: string, now: int, fetch: Fetch<V>) returns (r: Option<V>, fetched: bool)
      modifies this
      ensures fetched <==> !Hit(old(cache), key, now, old(ttl))
      ensures r == ReadResult(old(cache), key, now, old(ttl), fetch)
      ensures cache == ReadCache(old(cache), key, now, old(ttl), fetch)
      ensures ttl == old(ttl)
    {
      if key in cache && now - cache[key].timestamp < ttl {
        return Some(cache[key].value), false;
      }
      fetched := true;
      match fetch
      case Fetched(v) =>
        cache := cache[key := Entry(v, now)];
        r := Some(v);
      case FetchFailed =>
        r := if key in cache then Some(cache[key].value) else None;
    }

    /** `invalidate(key)`: drops that key only. */
    method Invalidate(key: string)
      modifies this
      ensures key !in cache
      ensures forall k :: k != key ==> (k in cache <==> k in old(cache)) && (k in cache ==> cache[k] == old(cache)[k])
      ensures ttl == old(ttl)
    {
      cache := cache - {key};
    }

    /** `clear()`: empties the cache. */
    method Clear()
      modifies this
      ensures cache == map[] && ttl == old(ttl)
    {
      cache := map[];
    }

    /** `setTTL(ttl)`: the new TTL governs every later freshness check. */
    method SetTtl(newTtl: int)
      modifies this
      ensures ttl == newTtl && cache == old(cache)
    {
      ttl := newTtl;
    }
  }

  /** Two reads of one key within the TTL of a successful fetch: the second
      is served from the cache without calling the fetch function. */
  method ReadTwice<V>(c: SettingsCache<V>, key: string, t1: int, t2: int, f1: Fetch<V>, f2: Fetch<V>)
      returns (r1: Option<V>, r2: Option<V>, fetched2: bool)
    requires f1.Fetched? && !Hit(c.cache, key, t1, c.ttl)
    requires t1 <= t2 < t1 + c.ttl
    modifies c
    ensures fetched2 == false && r1 == r2 == Some(f1.value)
  {
    var fetched1;
    r1, fetched1 := c.Get(key, t1, f1);
    r2, fetched2 := c.Get(key, t2, f2);
  }
}

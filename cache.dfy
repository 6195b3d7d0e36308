/** utils/cache.ts: the `MemoryCache` class, `getCacheKey` and `getOrFetch`.
    `Date.now()` is an explicit `now` argument; the JavaScript `Map` is the pair of
    fields `entries` (its contents) and `order` (its insertion order). */
module Cache {
  import opened Wrappers
  import opened CacheStore
  import Text

  /** What `getStats` reports. */
  datatype Stats = Stats(size: nat, maxSize: nat, expired: nat, active: nat)

  class MemoryCache<T> {
    var entries: map<string, Entry<T>>
    var order: seq<string>

    /** The cache's state as a value of the specification. */
    function Model(): Store<T>
      reads this
    {
      Store(entries, order)
    }

    ghost predicate Valid()
      reads this
    {
      CacheStore.Valid(Model())
    }

    constructor ()
      ensures Valid() && Model() == Empty()
    {
      entries := map[];
      order := [];
    }

    /** `set(key, data, type = "profile")`: a cleanup when the map is at capacity, then the new entry. */
    method Set(key: string, data: T, now: int, cacheType: CacheType := Profile)
      requires Valid()
      modifies this
      ensures Valid()
      ensures Model() == Put(old(Model()), key, data, cacheType, now)
    {
      if |entries| >= MaxSize {
        Cleanup(now);
      }
      var ttl := Ttl(cacheType);
      if key !in entries {
        order := order + [key];
      }
      entries := entries[key := Entry(data, now, ttl)];
      PutKeepsValid(old(Model()), key, data, cacheType, now);
    }

    /** `get(key)`: the data of a live entry; null (None) for a missing or expired one,
        and an expired one is deleted. */
    method Get(key: string, now: int) returns (r: Option<T>)
      requires Valid()
      modifies this
      ensures Valid()
      ensures r == Lookup(old(Model()), key, now)
      ensures Model() == Touch(old(Model()), key, now)
    {
      if key !in entries {
        return None;
      }
      var entry := entries[key];
      if now - entry.timestamp > entry.ttl {
        Delete(key);
        return None;
      }
      return Some(entry.data);
    }

    /** `has(key)`: whether a live entry exists; an expired one is deleted. */
    method Has(key: string, now: int) returns (b: bool)
      requires Valid()
      modifies this
      ensures Valid()
      ensures b <==> Lookup(old(Model()), key, now).Some?
      ensures Model() == Touch(old(Model()), key, now)
    {
      if key !in entries {
        return false;
      }
      var entry := entries[key];
      if now - entry.timestamp > entry.ttl {
        Delete(key);
        return false;
      }
      return true;
    }

    /** `delete(key)`. */
    method Delete(key: string)
      requires Valid()
      modifies this
      ensures Valid()
      ensures Model() == CacheStore.Delete(old(Model()), key)
      ensures entries == old(entries) - {key} && order == Drop(old(order), {key})
    {
      entries := entries - {key};
      order := Drop(order, {key});
      StepKeepsValid(old(Model()), DeleteOp(key));
    }

    /** `clear()`. */
    method Clear()
      requires Valid()
      modifies this
      ensures Valid()
      ensures Model() == CacheStore.Clear()
    {
      entries := map[];
      order := [];
    }

    /** The private `cleanup()`: delete every expired entry (visiting them oldest first), then,
        if the map still holds `MaxSize` entries or more, delete the `EvictCount` oldest. */
    method Cleanup(now: int)
      requires Valid()
      modifies this
      ensures Valid()
      ensures Model() == CacheStore.Cleanup(old(Model()), now)
    {
      DeleteExpired(now);
      DropKeysShrinks(old(Model()), ExpiredKeys(old(Model()), now));
      if |entries| >= MaxSize {
        ghost var live := Model();
        DeleteOldest();
        DropKeysShrinks(live, Evicted(live));
      }
    }

    /** The first loop of `cleanup` (it deletes from the `Map` directly). */
    method DeleteExpired(now: int)
      requires WellFormed(Model())
      modifies this
      ensures Model() == Purge(old(Model()), now)
    {
      ghost var s0 := Model();
      var snapshot := entries;
      var sorted := SortByAge(order, entries);
      var remaining, kept := entries, order;
      ghost var dropped: set<string> := {};
      DropKeysNothing(s0);
      for i := 0 to |sorted|
        invariant dropped == ExpiredKeys(s0, now) * Elems(sorted[..i])
        invariant remaining == s0.entries - dropped && kept == Drop(s0.order, dropped)
      {
        var key := sorted[i];
        PurgeLoopStep(s0, now, sorted, i, dropped);
        if now - snapshot[key].timestamp > snapshot[key].ttl {
          remaining := remaining - {key};
          kept := Drop(kept, {key});
          dropped := dropped + {key};
        }
      }
      PurgeLoopDone(s0, now, sorted);
      entries, order := remaining, kept;
    }

    /** The second loop of `cleanup`: the `EvictCount` oldest entries deleted from the `Map`. */
    method DeleteOldest()
      requires WellFormed(Model()) && |entries| >= MaxSize
      modifies this
      ensures Model() == DropKeys(old(Model()), Evicted(old(Model())))
    {
      ghost var live := Model();
      var toRemove := OldestKeys(Model());
      var remaining, kept := entries, order;
      ghost var evicted: set<string> := {};
      DropKeysNothing(live);
      for j := 0 to |toRemove|
        invariant evicted == Elems(toRemove[..j])
        invariant remaining == live.entries - evicted && kept == Drop(live.order, evicted)
      {
        var key := toRemove[j];
        EvictLoopStep(live.entries, live.order, toRemove, j, evicted);
        remaining := remaining - {key};
        kept := Drop(kept, {key});
        evicted := evicted + {key};
      }
      EvictLoopDone(live, toRemove);
      entries, order := remaining, kept;
    }

    /** `getStats()`: changes nothing; counts the expired entries. */
    method GetStats(now: int) returns (stats: Stats)
      requires Valid()
      ensures stats.size == |entries| && stats.maxSize == MaxSize
      ensures stats.expired == |ExpiredKeys(Model(), now)|
      ensures stats.active + stats.expired == stats.size
      ensures stats.active == |Purge(Model(), now).entries|
    {
      ghost var s := Model();
      var expired := 0;
      ghost var seen: set<string> := {};
      for i := 0 to |order|
        invariant seen == ExpiredKeys(s, now) * Elems(order[..i])
        invariant expired == |seen|
      {
        var key := order[i];
        ExpiredAlongOrder(s, now, i);
        if now - entries[key].timestamp > entries[key].ttl {
          expired := expired + 1;
          seen := seen + {key};
        }
      }
      ExpiredAlongWholeOrder(s, now);
      stats := Stats(|entries|, MaxSize, expired, |entries| - expired);
    }
  }

  /** One argument of `getCacheKey` after the type: a string or a number. */
  datatype KeyPart = StrPart(s: string) | NumPart(n: int)

  /** How a part prints inside the template string. */
  function PartText(p: KeyPart): string {
    match p
    case StrPart(s) => s
    case NumPart(n) => Text.IntToString(n)
  }

  function PartTexts(parts: seq<KeyPart>): (texts: seq<string>)
    ensures |texts| == |parts|
    ensures forall i :: 0 <= i < |parts| ==> texts[i] == PartText(parts[i])
  {
    if |parts| == 0 then [] else [PartText(parts[0])] + PartTexts(parts[1..])
  }

  /** `getCacheKey(type, ...parts)`: `${type}:${parts.join(":")}`. */
  function GetCacheKey(ty: string, parts: seq<KeyPart>): (key: string)
    ensures Text.StartsWith(key, ty + ":")
    ensures |parts| == 0 ==> key == ty + ":"
  {
    ty + ":" + Text.Join(PartTexts(parts), ':')
  }

  /** A key built from colon-free pieces splits back into the type and the pieces. */
  lemma CacheKeySplits(ty: string, parts: seq<KeyPart>)
    requires ':' !in ty && |parts| >= 1
    requires forall i :: 0 <= i < |parts| ==> parts[i].StrPart? ==> ':' !in parts[i].s
    ensures Text.Split(GetCacheKey(ty, parts), ':') == [ty] + PartTexts(parts)
  {
    var texts := PartTexts(parts);
    Text.SplitJoin(texts, ':');
    Text.SplitAtFirst(ty, ':', Text.Join(texts, ':'));
    assert ty + ":" + Text.Join(texts, ':') == ty + [':'] + Text.Join(texts, ':');
  }

  /** `getOrFetch(key, fetcher, cacheType)` on the shared cache. The fetcher is the value it
      would produce, `fetched`, and `fetcherCalled` says whether it was invoked; `now` is the
      clock at the lookup and `fetchedAt` the clock when the result is stored. A cached value
      counts as a hit only when it is truthy. */
  method GetOrFetch<T>(cache: MemoryCache<T>, key: string, fetched: T, isTruthy: T -> bool,
                       now: int, fetchedAt: int, cacheType: CacheType := Profile)
    returns (r: T, fetcherCalled: bool)
    requires cache.Valid()
    modifies cache
    ensures cache.Valid()
    ensures var hit := Lookup(old(cache.Model()), key, now);
      if hit.Some? && isTruthy(hit.value) then
        r == hit.value && !fetcherCalled && cache.Model() == old(cache.Model())
      else
        r == fetched && fetcherCalled
        && cache.Model() == Put(Touch(old(cache.Model()), key, now), key, fetched, cacheType, fetchedAt)
  {
    var cached := cache.Get(key, now);
    if cached.Some? && isTruthy(cached.value) {
      return cached.value, false;
    }
    cache.Set(key, fetched, fetchedAt, cacheType);
    return fetched, true;
  }
}

/** The state of `MemoryCache` (utils/cache.ts) as a value, and the effect of each of its
    operations on that value. The class in cache.dfy is proved to follow these functions;
    the lemmas here are the properties of the cache itself. */
module CacheStore {
  import opened Wrappers

  /** `maxSize`: the capacity at which `set` starts a cleanup. */
  const MaxSize: nat := 1000
  /** `Math.floor(maxSize * 0.2)`: how many of the oldest live entries a full cleanup drops. */
  const EvictCount: nat := 200

  /** The keys of `defaultTTLs`. */
  datatype CacheType = Profile | Network | Invitations | Search

  /** `defaultTTLs[type]`, in milliseconds. */
  function Ttl(t: CacheType): (ms: nat)
    ensures ms >= 2 * 60 * 1000
  {
    match t
    case Profile => 5 * 60 * 1000
    case Network => 10 * 60 * 1000
    case Invitations => 3 * 60 * 1000
    case Search => 2 * 60 * 1000
  }

  /** `CacheEntry<T>`: the stored data, the clock reading when it was stored, and its TTL. */
  datatype Entry<T> = Entry(data: T, timestamp: int, ttl: int)

  /** `now - entry.timestamp > entry.ttl`: strictly older than the TTL. */
  predicate Expired<T>(e: Entry<T>, now: int) {
    now - e.timestamp > e.ttl
  }

  /** An entry is live up to and including the instant its age equals its TTL, expired from the
      next one on, and stays expired as time moves forward. */
  lemma ExpiryBoundary<T>(e: Entry<T>, now: int, later: int)
    ensures !Expired(e, e.timestamp + e.ttl) && Expired(e, e.timestamp + e.ttl + 1)
    ensures Expired(e, now) && now <= later ==> Expired(e, later)
  {
  }

  /** The JavaScript `Map`: its entries by key, and its keys in insertion order
      (the order `Map.prototype.entries` yields them). */
  datatype Store<T> = Store(entries: map<string, Entry<T>>, order: seq<string>)

  predicate Distinct(o: seq<string>) {
    forall i, j :: 0 <= i < j < |o| ==> o[i] != o[j]
  }

  function Elems(o: seq<string>): set<string> {
    set k | k in o
  }

  /** The insertion order lists each key of the map exactly once. */
  predicate WellFormed<T>(s: Store<T>) {
    && Distinct(s.order)
    && (forall k :: k in s.order ==> k in s.entries)
    && (forall k :: k in s.entries ==> k in s.order)
  }

  /** The cache invariant: well formed and never above capacity. */
  predicate Valid<T>(s: Store<T>) {
    WellFormed(s) && |s.entries| <= MaxSize
  }

  function Empty<T>(): (s: Store<T>)
    ensures Valid(s) && |s.entries| == 0
  {
    Store(map[], [])
  }

  // ---------------------------------------------------------------- order helpers

  /** The keys of `o` not in `ks`, in their original order. */
  function Drop(o: seq<string>, ks: set<string>): (r: seq<string>)
    ensures forall k :: k in r <==> k in o && k !in ks
  {
    if |o| == 0 then []
    else if o[0] in ks then Drop(o[1..], ks)
    else [o[0]] + Drop(o[1..], ks)
  }

  lemma DistinctCons(x: string, o: seq<string>)
    requires Distinct(o) && x !in o
    ensures Distinct([x] + o)
  {
    forall i, j | 0 <= i < j < |[x] + o| ensures ([x] + o)[i] != ([x] + o)[j] {
      if i > 0 {
        assert ([x] + o)[i] == o[i - 1];
      }
      assert ([x] + o)[j] == o[j - 1];
    }
  }

  lemma {:induction false} DropDistinct(o: seq<string>, ks: set<string>)
    requires Distinct(o)
    ensures Distinct(Drop(o, ks))
  {
    if |o| > 0 {
      assert Distinct(o[1..]);
      DropDistinct(o[1..], ks);
      if o[0] !in ks {
        assert o[0] !in o[1..] by {
          forall j | 0 <= j < |o[1..]| ensures o[1..][j] != o[0] {
            assert o[1..][j] == o[j + 1];
          }
        }
        DistinctCons(o[0], Drop(o[1..], ks));
      }
    }
  }

  lemma {:induction false} DropDrop(o: seq<string>, a: set<string>, b: set<string>)
    ensures Drop(Drop(o, a), b) == Drop(o, a + b)
  {
    if |o| > 0 {
      DropDrop(o[1..], a, b);
      if o[0] !in a {
        assert Drop(o, a) == [o[0]] + Drop(o[1..], a);
        assert Drop(o, a)[1..] == Drop(o[1..], a);
      }
    }
  }

  lemma {:induction false} DistinctCard(o: seq<string>)
    requires Distinct(o)
    ensures |Elems(o)| == |o|
  {
    if |o| > 0 {
      assert Distinct(o[1..]);
      DistinctCard(o[1..]);
      assert o[0] !in o[1..] by {
        forall j | 0 <= j < |o[1..]| ensures o[1..][j] != o[0] {
          assert o[1..][j] == o[j + 1];
        }
      }
      assert Elems(o) == {o[0]} + Elems(o[1..]);
    }
  }

  /** In a well-formed store the order is exactly as long as the map. */
  lemma OrderLength<T>(s: Store<T>)
    requires WellFormed(s)
    ensures |s.order| == |s.entries|
  {
    DistinctCard(s.order);
    assert Elems(s.order) == s.entries.Keys;
  }

  // ---------------------------------------------------------------- deletion

  /** `cache.delete(k)` for every `k` in `ks`. */
  function DropKeys<T>(s: Store<T>, ks: set<string>): (r: Store<T>)
    requires WellFormed(s)
    ensures WellFormed(r)
    ensures r.entries.Keys == s.entries.Keys - ks
    ensures forall k :: k in r.entries ==> r.entries[k] == s.entries[k]
  {
    DropDistinct(s.order, ks);
    Store(s.entries - ks, Drop(s.order, ks))
  }

  /** `delete(key)`: removes `key` and nothing else. */
  function Delete<T>(s: Store<T>, key: string): (r: Store<T>)
    requires WellFormed(s)
    ensures WellFormed(r)
    ensures key !in r.entries
    ensures forall k :: k != key ==> (k in r.entries <==> k in s.entries)
    ensures forall k :: k in r.entries ==> r.entries[k] == s.entries[k]
  {
    DropKeys(s, {key})
  }

  /** `clear()`. */
  function Clear<T>(): (r: Store<T>)
    ensures Valid(r) && |r.entries| == 0
  {
    Empty()
  }

  // ---------------------------------------------------------------- reads

  /** What `get(key)` returns: the data while the entry is live, null otherwise. */
  function Lookup<T>(s: Store<T>, key: string, now: int): (r: Option<T>)
    ensures r.Some? <==> key in s.entries && !Expired(s.entries[key], now)
    ensures r.Some? ==> r.value == s.entries[key].data
  {
    if key in s.entries && !Expired(s.entries[key], now) then Some(s.entries[key].data) else None
  }

  /** The state after `get(key)` or `has(key)`: an expired entry for `key` is deleted;
      nothing is refreshed, so every timestamp stays as it was. */
  function Touch<T>(s: Store<T>, key: string, now: int): (r: Store<T>)
    requires WellFormed(s)
    ensures WellFormed(r)
    ensures r.entries.Keys == if key in s.entries && Expired(s.entries[key], now)
                               then s.entries.Keys - {key} else s.entries.Keys
    ensures forall k :: k in r.entries ==> r.entries[k] == s.entries[k]
  {
    if key in s.entries && Expired(s.entries[key], now) then DropKeys(s, {key}) else s
  }

  /** The keys whose entries are expired at `now` (what `getStats` counts). */
  function ExpiredKeys<T>(s: Store<T>, now: int): set<string> {
    set k | k in s.entries && Expired(s.entries[k], now)
  }

  // ---------------------------------------------------------------- cleanup

  predicate SortedByAge<T>(o: seq<string>, m: map<string, Entry<T>>)
    requires forall k :: k in o ==> k in m
  {
    forall i, j :: 0 <= i < j < |o| ==> m[o[i]].timestamp <= m[o[j]].timestamp
  }

  /** Inserts `k` before the first key that is not strictly older (keeps equal timestamps in order). */
  function InsertByAge<T>(k: string, sorted: seq<string>, m: map<string, Entry<T>>): (r: seq<string>)
    requires k in m && forall x :: x in sorted ==> x in m
    ensures |r| == |sorted| + 1
    ensures forall x :: x in r <==> x == k || x in sorted
    ensures multiset(r) == multiset(sorted) + multiset{k}
  {
    if |sorted| == 0 || m[k].timestamp <= m[sorted[0]].timestamp then [k] + sorted
    else
      assert sorted == [sorted[0]] + sorted[1..];
      [sorted[0]] + InsertByAge(k, sorted[1..], m)
  }

  /** A key no newer than every key of a sorted list can go in front of it. */
  lemma ConsKeepsSorted<T>(x: string, rest: seq<string>, m: map<string, Entry<T>>)
    requires x in m && forall y :: y in rest ==> y in m
    requires SortedByAge(rest, m)
    requires forall j :: 0 <= j < |rest| ==> m[x].timestamp <= m[rest[j]].timestamp
    ensures SortedByAge([x] + rest, m)
  {
    var r := [x] + rest;
    forall i, j | 0 <= i < j < |r| ensures m[r[i]].timestamp <= m[r[j]].timestamp {
      assert r[j] == rest[j - 1];
      if i > 0 { assert r[i] == rest[i - 1]; }
    }
  }

  lemma {:induction false} InsertKeepsSorted<T>(k: string, sorted: seq<string>, m: map<string, Entry<T>>)
    requires k in m && forall x :: x in sorted ==> x in m
    requires SortedByAge(sorted, m)
    ensures SortedByAge(InsertByAge(k, sorted, m), m)
  {
    if |sorted| == 0 || m[k].timestamp <= m[sorted[0]].timestamp {
      ConsKeepsSorted(k, sorted, m);
    } else {
      var rest := InsertByAge(k, sorted[1..], m);
      InsertKeepsSorted(k, sorted[1..], m);
      forall j | 0 <= j < |rest| ensures m[sorted[0]].timestamp <= m[rest[j]].timestamp {
        assert rest[j] in rest;
        if rest[j] != k {
          var i :| 0 <= i < |sorted[1..]| && sorted[1..][i] == rest[j];
          assert sorted[i + 1] == rest[j];
        }
      }
      ConsKeepsSorted(sorted[0], rest, m);
    }
  }

  lemma {:induction false} InsertKeepsDistinct<T>(k: string, sorted: seq<string>, m: map<string, Entry<T>>)
    requires k in m && forall x :: x in sorted ==> x in m
    requires Distinct(sorted) && k !in sorted
    ensures Distinct(InsertByAge(k, sorted, m))
  {
    if |sorted| == 0 || m[k].timestamp <= m[sorted[0]].timestamp {
      DistinctCons(k, sorted);
    } else {
      assert Distinct(sorted[1..]);
      InsertKeepsDistinct(k, sorted[1..], m);
      assert sorted[0] !in sorted[1..] by {
        forall j | 0 <= j < |sorted[1..]| ensures sorted[1..][j] != sorted[0] {
          assert sorted[1..][j] == sorted[j + 1];
        }
      }
      DistinctCons(sorted[0], InsertByAge(k, sorted[1..], m));
    }
  }

  lemma HeadNotInTail(keys: seq<string>)
    requires Distinct(keys) && |keys| > 0
    ensures Distinct(keys[1..]) && keys[0] !in keys[1..]
  {
    forall j | 0 <= j < |keys[1..]| ensures keys[1..][j] != keys[0] {
      assert keys[1..][j] == keys[j + 1];
    }
  }

  /** `Array.from(cache.entries()).sort((a, b) => a.timestamp - b.timestamp)`, keys only:
      a stable insertion sort, oldest first. */
  function SortByAge<T>(keys: seq<string>, m: map<string, Entry<T>>): (r: seq<string>)
    requires forall k :: k in keys ==> k in m
    ensures |r| == |keys|
    ensures forall x :: x in r <==> x in keys
    ensures multiset(r) == multiset(keys)
    ensures Distinct(keys) ==> Distinct(r)
    ensures SortedByAge(r, m)
  {
    if |keys| == 0 then []
    else
      assert keys == [keys[0]] + keys[1..];
      var rest := SortByAge(keys[1..], m);
      InsertKeepsSorted(keys[0], rest, m);
      if Distinct(keys) then
        HeadNotInTail(keys);
        InsertKeepsDistinct(keys[0], rest, m);
        InsertByAge(keys[0], rest, m)
      else
        InsertByAge(keys[0], rest, m)
  }

  /** The first pass of `cleanup`: every expired entry deleted. */
  function Purge<T>(s: Store<T>, now: int): (r: Store<T>)
    requires WellFormed(s)
    ensures WellFormed(r)
    ensures r.entries.Keys == s.entries.Keys - ExpiredKeys(s, now)
  {
    DropKeys(s, ExpiredKeys(s, now))
  }

  /** The keys the second pass of `cleanup` deletes: the first `EvictCount` of the
      remaining entries sorted oldest first. */
  function Evicted<T>(s: Store<T>): (ks: set<string>)
    requires WellFormed(s) && |s.entries| >= EvictCount
    ensures ks <= s.entries.Keys
  {
    OrderLength(s);
    var sorted := SortByAge(s.order, s.entries);
    var oldest := sorted[..EvictCount];
    assert forall k :: k in oldest ==> k in s.order;
    Elems(oldest)
  }

  /** The keys of `Evicted(s)` as the sorted slice the second pass walks. */
  function OldestKeys<T>(s: Store<T>): (o: seq<string>)
    requires WellFormed(s) && |s.entries| >= EvictCount
    ensures |o| == EvictCount && Elems(o) == Evicted(s)
  {
    OrderLength(s);
    SortByAge(s.order, s.entries)[..EvictCount]
  }

  lemma ElemsSnoc(o: seq<string>, j: nat)
    requires j < |o|
    ensures Elems(o[..j + 1]) == Elems(o[..j]) + {o[j]}
  {
    assert o[..j + 1] == o[..j] + [o[j]];
  }

  /** One iteration of the first cleanup loop: visiting `sorted[i]` extends the set of
      expired keys deleted so far, and deleting it composes with the earlier deletions. */
  lemma PurgeLoopStep<T>(s0: Store<T>, now: int, sorted: seq<string>, i: nat, dropped: set<string>)
    requires i < |sorted| && sorted[i] in s0.entries
    requires dropped == ExpiredKeys(s0, now) * Elems(sorted[..i])
    ensures var key := sorted[i];
      var next := if Expired(s0.entries[key], now) then dropped + {key} else dropped;
      && next == ExpiredKeys(s0, now) * Elems(sorted[..i + 1])
      && (s0.entries - dropped) - {key} == s0.entries - (dropped + {key})
      && Drop(Drop(s0.order, dropped), {key}) == Drop(s0.order, dropped + {key})
  {
    ElemsSnoc(sorted, i);
    ExpiredStep(s0, now, Elems(sorted[..i]), sorted[i]);
    DropDrop(s0.order, dropped, {sorted[i]});
    MapMinusTwice(s0.entries, dropped, {sorted[i]});
  }

  /** Once every sorted key is visited, the deletions are exactly those of `Purge`. */
  lemma PurgeLoopDone<T>(s0: Store<T>, now: int, sorted: seq<string>)
    requires WellFormed(s0) && sorted == SortByAge(s0.order, s0.entries)
    ensures var dropped := ExpiredKeys(s0, now) * Elems(sorted[..|sorted|]);
      Purge(s0, now) == Store(s0.entries - dropped, Drop(s0.order, dropped))
  {
    assert sorted[..|sorted|] == sorted;
    assert ExpiredKeys(s0, now) * Elems(sorted) == ExpiredKeys(s0, now);
  }

  lemma ExpiredStep<T>(s: Store<T>, now: int, seen: set<string>, k: string)
    requires k in s.entries
    ensures ExpiredKeys(s, now) * (seen + {k}) ==
      ExpiredKeys(s, now) * seen + (if Expired(s.entries[k], now) then {k} else {})
  {
  }

  /** Deleting keys never grows the map. */
  lemma DropKeysShrinks<T>(s: Store<T>, ks: set<string>)
    requires Valid(s)
    ensures Valid(DropKeys(s, ks))
  {
    SubsetCard(DropKeys(s, ks).entries.Keys, s.entries.Keys);
  }

  /** Deleting no keys leaves the store as it was. */
  lemma DropKeysNothing<T>(s: Store<T>)
    ensures s.entries - {} == s.entries && Drop(s.order, {}) == s.order
  {
    DropNothing(s.order);
  }

  lemma DropNothing(o: seq<string>)
    ensures Drop(o, {}) == o
  {
    if |o| > 0 {
      DropNothing(o[1..]);
      assert o == [o[0]] + o[1..];
    }
  }

  lemma MapMinusTwice<T>(m: map<string, Entry<T>>, a: set<string>, b: set<string>)
    ensures (m - a) - b == m - (a + b)
  {
  }

  /** One iteration of the second cleanup loop: deleting `o[j]` extends the deletions so far. */
  lemma EvictLoopStep<T>(m: map<string, Entry<T>>, order: seq<string>, o: seq<string>, j: nat, evicted: set<string>)
    requires j < |o| && evicted == Elems(o[..j])
    ensures Elems(o[..j + 1]) == evicted + {o[j]}
    ensures (m - evicted) - {o[j]} == m - (evicted + {o[j]})
    ensures Drop(Drop(order, evicted), {o[j]}) == Drop(order, evicted + {o[j]})
  {
    ElemsSnoc(o, j);
    DropDrop(order, evicted, {o[j]});
  }

  /** Once the whole slice is visited, the deletions are those of `DropKeys` on the oldest keys. */
  lemma EvictLoopDone<T>(s: Store<T>, o: seq<string>)
    requires WellFormed(s) && |s.entries| >= EvictCount
    requires o == OldestKeys(s)
    ensures DropKeys(s, Evicted(s)) == Store(s.entries - Elems(o[..|o|]), Drop(s.order, Elems(o[..|o|])))
  {
    assert o[..|o|] == o;
  }

  /** `cleanup(now)`: purge the expired entries, then, if the map still holds
      `MaxSize` entries or more, drop the `EvictCount` oldest. */
  function Cleanup<T>(s: Store<T>, now: int): (r: Store<T>)
    requires WellFormed(s)
    ensures WellFormed(r)
    ensures r.entries.Keys <= s.entries.Keys - ExpiredKeys(s, now)
  {
    var live := Purge(s, now);
    if |live.entries| < MaxSize then live else DropKeys(live, Evicted(live))
  }

  /** `set(key, data, type)` at time `now`. */
  function Put<T>(s: Store<T>, key: string, data: T, ty: CacheType, now: int): (r: Store<T>)
    requires WellFormed(s)
    ensures WellFormed(r)
    ensures key in r.entries && r.entries[key] == Entry(data, now, Ttl(ty))
    ensures r.entries.Keys <= s.entries.Keys + {key}
  {
    var c := if |s.entries| >= MaxSize then Cleanup(s, now) else s;
    var order := if key in c.entries then c.order else c.order + [key];
    assert Distinct(order) by {
      if key !in c.entries {
        forall i, j | 0 <= i < j < |order| ensures order[i] != order[j] {
          if j == |c.order| { assert order[i] in c.order; }
        }
      }
    }
    Store(c.entries[key := Entry(data, now, Ttl(ty))], order)
  }

  // ---------------------------------------------------------------- cleanup properties

  /** What survives a cleanup is live and unchanged. */
  lemma CleanupKeepsOnlyLive<T>(s: Store<T>, now: int)
    requires WellFormed(s)
    ensures forall k :: k in Cleanup(s, now).entries ==>
      k in s.entries && Cleanup(s, now).entries[k] == s.entries[k] && !Expired(s.entries[k], now)
  {
  }

  /** If the purge alone brings the map below capacity, the cleanup stops there: every live entry stays. */
  lemma CleanupBelowCapacity<T>(s: Store<T>, now: int)
    requires WellFormed(s)
    requires |Purge(s, now).entries| < MaxSize
    ensures Cleanup(s, now).entries.Keys == s.entries.Keys - ExpiredKeys(s, now)
  {
  }

  lemma EvictedCount<T>(s: Store<T>)
    requires WellFormed(s) && |s.entries| >= EvictCount
    ensures |Evicted(s)| == EvictCount
  {
    OrderLength(s);
    var sorted := SortByAge(s.order, s.entries);
    var oldest := sorted[..EvictCount];
    assert Distinct(oldest);
    DistinctCard(oldest);
  }

  /** The size after a cleanup: the live entries, less `EvictCount` when they still fill the cache. */
  lemma CleanupSize<T>(s: Store<T>, now: int)
    requires WellFormed(s)
    ensures |Cleanup(s, now).entries| ==
      if |Purge(s, now).entries| < MaxSize then |Purge(s, now).entries|
      else |Purge(s, now).entries| - EvictCount
  {
    var live := Purge(s, now);
    if |live.entries| >= MaxSize {
      EvictedCount(live);
      var r := DropKeys(live, Evicted(live));
      assert r.entries.Keys == live.entries.Keys - Evicted(live);
      assert |r.entries.Keys| == |live.entries.Keys| - |Evicted(live)|;
    }
  }

  lemma EvictedAreOldest<T>(s: Store<T>)
    requires WellFormed(s) && |s.entries| >= EvictCount
    ensures forall r, k :: r in Evicted(s) && k in s.entries && k !in Evicted(s) ==>
      s.entries[r].timestamp <= s.entries[k].timestamp
  {
    OrderLength(s);
    var sorted := SortByAge(s.order, s.entries);
    var oldest := sorted[..EvictCount];
    forall r, k | r in Evicted(s) && k in s.entries && k !in Evicted(s)
      ensures s.entries[r].timestamp <= s.entries[k].timestamp
    {
      assert r in oldest;
      var i :| 0 <= i < EvictCount && oldest[i] == r;
      assert k in sorted;
      var j :| 0 <= j < |sorted| && sorted[j] == k;
      assert sorted[i] == r;
    }
  }

  /** Every entry the second pass drops is at least as old as every entry it keeps. */
  lemma CleanupEvictsOldest<T>(s: Store<T>, now: int)
    requires WellFormed(s)
    ensures forall r, k ::
      (r in Purge(s, now).entries && r !in Cleanup(s, now).entries && k in Cleanup(s, now).entries
       ==> s.entries[r].timestamp <= s.entries[k].timestamp)
  {
    var live := Purge(s, now);
    if |live.entries| >= MaxSize {
      EvictedAreOldest(live);
    }
  }

  /** From a valid store a cleanup always leaves room for one more entry. */
  lemma CleanupMakesRoom<T>(s: Store<T>, now: int)
    requires Valid(s)
    ensures |Cleanup(s, now).entries| < MaxSize
  {
    CleanupSize(s, now);
    var live := Purge(s, now);
    assert live.entries.Keys <= s.entries.Keys;
    assert |live.entries.Keys| <= |s.entries.Keys| by {
      SubsetCard(live.entries.Keys, s.entries.Keys);
    }
  }

  lemma SubsetCard(a: set<string>, b: set<string>)
    requires a <= b
    ensures |a| <= |b|
  {
    assert b == a + (b - a);
  }

  /** One step of counting expired entries along the insertion order. */
  lemma ExpiredAlongOrder<T>(s: Store<T>, now: int, i: nat)
    requires WellFormed(s) && i < |s.order|
    ensures s.order[i] !in Elems(s.order[..i])
    ensures ExpiredKeys(s, now) * Elems(s.order[..i + 1]) ==
      ExpiredKeys(s, now) * Elems(s.order[..i]) + (if Expired(s.entries[s.order[i]], now) then {s.order[i]} else {})
  {
    assert s.order[..i + 1] == s.order[..i] + [s.order[i]];
    forall j | 0 <= j < i ensures s.order[..i][j] != s.order[i] {
      assert s.order[..i][j] == s.order[j];
    }
  }

  /** Once the whole order is visited, the expired keys seen are all of them. */
  lemma ExpiredAlongWholeOrder<T>(s: Store<T>, now: int)
    requires WellFormed(s)
    ensures ExpiredKeys(s, now) * Elems(s.order[..|s.order|]) == ExpiredKeys(s, now)
    ensures |ExpiredKeys(s, now)| <= |s.entries|
    ensures Purge(s, now).entries.Keys == s.entries.Keys - ExpiredKeys(s, now)
  {
    assert s.order[..|s.order|] == s.order;
    SubsetCard(ExpiredKeys(s, now), s.entries.Keys);
  }

  // ---------------------------------------------------------------- set properties

  /** `set` stores the new entry wholesale (data, timestamp and TTL); any other surviving key
      keeps its entry; below capacity nothing is evicted, and an overwritten key keeps its place. */
  lemma PutEffect<T>(s: Store<T>, key: string, data: T, ty: CacheType, now: int)
    requires WellFormed(s)
    ensures var r := Put(s, key, data, ty, now);
      && key in r.entries && r.entries[key] == Entry(data, now, Ttl(ty))
      && (forall k :: k in r.entries && k != key ==> k in s.entries && r.entries[k] == s.entries[k])
      && (|s.entries| < MaxSize ==> r.entries == s.entries[key := Entry(data, now, Ttl(ty))])
      && (|s.entries| < MaxSize && key in s.entries ==> r.order == s.order)
  {
    if |s.entries| >= MaxSize {
      CleanupKeepsOnlyLive(s, now);
    }
  }

  /** `set` never takes a valid cache above capacity. */
  lemma PutKeepsValid<T>(s: Store<T>, key: string, data: T, ty: CacheType, now: int)
    requires Valid(s)
    ensures Valid(Put(s, key, data, ty, now))
  {
    if |s.entries| >= MaxSize {
      CleanupMakesRoom(s, now);
    }
  }

  // ---------------------------------------------------------------- sequences of operations

  /** One call on the cache. */
  datatype Op<T> =
    | SetOp(key: string, data: T, cacheType: CacheType, now: int)
    | GetOp(key: string, now: int)
    | HasOp(key: string, now: int)
    | DeleteOp(key: string)
    | ClearOp

  function Step<T>(s: Store<T>, op: Op<T>): (r: Store<T>)
    requires WellFormed(s)
    ensures WellFormed(r)
  {
    match op
    case SetOp(k, d, ty, now) => Put(s, k, d, ty, now)
    case GetOp(k, now) => Touch(s, k, now)
    case HasOp(k, now) => Touch(s, k, now)
    case DeleteOp(k) => Delete(s, k)
    case ClearOp => Clear()
  }

  function Run<T>(s: Store<T>, ops: seq<Op<T>>): (r: Store<T>)
    requires WellFormed(s)
    ensures WellFormed(r)
    decreases |ops|
  {
    if |ops| == 0 then s else Run(Step(s, ops[0]), ops[1..])
  }

  lemma StepKeepsValid<T>(s: Store<T>, op: Op<T>)
    requires Valid(s)
    ensures Valid(Step(s, op))
  {
    if op.SetOp? {
      PutKeepsValid(s, op.key, op.data, op.cacheType, op.now);
    } else {
      StepShrinks(s, op);
      ShrinkKeepsValid(s, Step(s, op));
    }
  }

  /** Every call but `set` only ever removes keys. */
  lemma StepShrinks<T>(s: Store<T>, op: Op<T>)
    requires WellFormed(s) && !op.SetOp?
    ensures Step(s, op).entries.Keys <= s.entries.Keys
  {
  }

  /** A well-formed store whose keys are a subset of a valid store's keys is valid. */
  lemma ShrinkKeepsValid<T>(s: Store<T>, r: Store<T>)
    requires Valid(s) && WellFormed(r) && r.entries.Keys <= s.entries.Keys
    ensures Valid(r)
  {
    SubsetCard(r.entries.Keys, s.entries.Keys);
  }

  /** The size bound: across any sequence of calls the map never holds more than `MaxSize` entries. */
  lemma {:induction false} RunStaysWithinCapacity<T>(s: Store<T>, ops: seq<Op<T>>)
    requires Valid(s)
    ensures Valid(Run(s, ops))
    decreases |ops|
  {
    if |ops| > 0 {
      StepKeepsValid(s, ops[0]);
      RunStaysWithinCapacity(Step(s, ops[0]), ops[1..]);
    }
  }

  /** No `set` in `ops` finds the cache at capacity, so no cleanup runs. */
  predicate NeverFull<T>(s: Store<T>, ops: seq<Op<T>>)
    requires WellFormed(s)
    decreases |ops|
  {
    |ops| == 0 || ((ops[0].SetOp? ==> |s.entries| < MaxSize) && NeverFull(Step(s, ops[0]), ops[1..]))
  }

  /** `op` does not overwrite or delete `key`, does not clear the cache, and reads `key`
      only while an entry stored at `t` with TTL `ttl` is live. */
  predicate SparesKey<T>(op: Op<T>, key: string, t: int, ttl: int) {
    match op
    case SetOp(k, _, _, _) => k != key
    case GetOp(k, now) => k == key ==> now - t <= ttl
    case HasOp(k, now) => k == key ==> now - t <= ttl
    case DeleteOp(k) => k != key
    case ClearOp => false
  }

  lemma {:induction false} RunPreservesEntry<T>(s: Store<T>, ops: seq<Op<T>>, key: string, e: Entry<T>)
    requires WellFormed(s) && key in s.entries && s.entries[key] == e
    requires forall i :: 0 <= i < |ops| ==> SparesKey(ops[i], key, e.timestamp, e.ttl)
    requires NeverFull(s, ops)
    ensures key in Run(s, ops).entries && Run(s, ops).entries[key] == e
    decreases |ops|
  {
    if |ops| > 0 {
      assert SparesKey(ops[0], key, e.timestamp, e.ttl);
      if ops[0].SetOp? {
        PutEffect(s, ops[0].key, ops[0].data, ops[0].cacheType, ops[0].now);
      }
      RunPreservesEntry(Step(s, ops[0]), ops[1..], key, e);
    }
  }

  /** After `set(key, data, type)` at `t`, `get(key)` at `t2` returns `data` while `t2 - t <= Ttl(type)`,
      provided nothing in between overwrites, deletes or clears it and no cleanup runs. */
  lemma SetThenGetWithinTtl<T>(s: Store<T>, key: string, data: T, ty: CacheType, t: int,
                               ops: seq<Op<T>>, t2: int)
    requires WellFormed(s)
    requires forall i :: 0 <= i < |ops| ==> SparesKey(ops[i], key, t, Ttl(ty))
    requires NeverFull(Put(s, key, data, ty, t), ops)
    requires t2 - t <= Ttl(ty)
    ensures Lookup(Run(Put(s, key, data, ty, t), ops), key, t2) == Some(data)
  {
    PutEffect(s, key, data, ty, t);
    RunPreservesEntry(Put(s, key, data, ty, t), ops, key, Entry(data, t, Ttl(ty)));
  }

  /** A call that does not set `key` either leaves its entry as it was or removes it. */
  lemma StepKeepsOrDrops<T>(s: Store<T>, op: Op<T>, key: string)
    requires WellFormed(s) && !(op.SetOp? && op.key == key)
    ensures key in Step(s, op).entries ==> key in s.entries && Step(s, op).entries[key] == s.entries[key]
  {
    if op.SetOp? {
      PutEffect(s, op.key, op.data, op.cacheType, op.now);
    }
  }

  lemma {:induction false} RunKeepsEntryOrDropsIt<T>(s: Store<T>, ops: seq<Op<T>>, key: string, e: Entry<T>)
    requires WellFormed(s) && (key in s.entries ==> s.entries[key] == e)
    requires forall i :: 0 <= i < |ops| ==> !(ops[i].SetOp? && ops[i].key == key)
    ensures key in Run(s, ops).entries ==> Run(s, ops).entries[key] == e
    decreases |ops|
  {
    if |ops| > 0 {
      assert !(ops[0].SetOp? && ops[0].key == key);
      StepKeepsOrDrops(s, ops[0], key);
      RunKeepsEntryOrDropsIt(Step(s, ops[0]), ops[1..], key, e);
    }
  }

  /** Once `t2 - t` exceeds the TTL, `get(key)` misses whatever happened in between, unless `key` was set again. */
  lemma SetThenGetAfterTtl<T>(s: Store<T>, key: string, data: T, ty: CacheType, t: int,
                              ops: seq<Op<T>>, t2: int)
    requires WellFormed(s)
    requires forall i :: 0 <= i < |ops| ==> !(ops[i].SetOp? && ops[i].key == key)
    requires t2 - t > Ttl(ty)
    ensures Lookup(Run(Put(s, key, data, ty, t), ops), key, t2) == None
  {
    PutEffect(s, key, data, ty, t);
    RunKeepsEntryOrDropsIt(Put(s, key, data, ty, t), ops, key, Entry(data, t, Ttl(ty)));
  }
}

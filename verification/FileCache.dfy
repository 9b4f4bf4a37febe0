/**
 The file metadata cache, `file_cache.cpp`: bounded, with a time to live. The
 clock is an argument of every operation that reads it; an eviction scan reads
 it once for each entry it tests.
 */
module FileCache {
  import opened Text

  // Clock ticks in a second.
  const SECOND: nat := 1_000_000_000

  datatype Metadata = Metadata(path: string, size: nat, isDirectory: bool, lastModified: int)

  // A cached value and when it was stored.
  datatype Stamped = Stamped(value: Metadata, time: int)

  datatype Limits = Limits(maxEntries: nat, ttl: int)

  // The clock reading taken when the entry of a given path is tested.
  type Readings = string -> int

  // Whole seconds, rounded toward zero as `duration_cast` does.
  function Age(now: int, time: int): int {
    if now >= time then (now - time) / SECOND else -((time - now) / SECOND)
  }

  lemma AgeMonotone(earlier: int, later: int, time: int)
    requires earlier <= later
    ensures Age(earlier, time) <= Age(later, time)
  {
  }

  predicate IsExpired(l: Limits, e: Stamped, now: int) {
    Age(now, e.time) > l.ttl
  }

  // With a time to live that is not negative, an entry expires once it is a
  // whole second older than that.
  lemma ExpiredExactly(l: Limits, e: Stamped, now: int)
    requires l.ttl >= 0
    ensures IsExpired(l, e, now) <==> now - e.time >= (l.ttl + 1) * SECOND
  {
  }

  // ----- Eviction -----

  // The entries a scan finds unexpired.
  function Live(l: Limits, m: map<string, Stamped>, scan: Readings): map<string, Stamped> {
    map k | k in m && !IsExpired(l, m[k], scan(k)) :: m[k]
  }

  // What eviction may leave: of the live entries all, when they are below the
  // limit; otherwise just enough are dropped to make room for one more, and
  // each dropped one is no newer than every survivor.
  ghost predicate Evicted(l: Limits, before: map<string, Stamped>, after: map<string, Stamped>, scan: Readings) {
    var live := Live(l, before, scan);
    && (forall k :: k in after ==> k in live && after[k] == live[k])
    && |after| == (if |live| < l.maxEntries then |live| else if l.maxEntries > 0 then l.maxEntries - 1 else 0)
    && (forall r, s :: r in live && r !in after && s in after ==> live[r].time <= live[s].time)
  }

  lemma SubsetSize<T>(a: set<T>, b: set<T>)
    requires a <= b
    ensures |a| <= |b|
    ensures |a| == |b| ==> a == b
  {
    assert b == a + (b - a);
  }

  lemma KeysSize<K, V>(m: map<K, V>)
    ensures |m.Keys| == |m|
  {
  }

  // The live entries stored no earlier than a given time.
  ghost function NotOlder(m: map<string, Stamped>, time: int): set<string> {
    set k | k in m && m[k].time >= time
  }

  // Eviction keeps the most recent: a live entry survives when fewer than
  // `maxEntries` live entries are as recent as it is.
  lemma RecentSurvives(l: Limits, before: map<string, Stamped>, after: map<string, Stamped>, scan: Readings, k: string)
    requires Evicted(l, before, after, scan)
    requires k in Live(l, before, scan)
    requires |NotOlder(Live(l, before, scan), before[k].time)| < l.maxEntries
    ensures k in after
  {
    var live := Live(l, before, scan);
    KeysSize(after);
    KeysSize(live);
    if k !in after {
      if |live| < l.maxEntries {
        SubsetSize(after.Keys, live.Keys);
      } else {
        SubsetSize(after.Keys + {k}, NotOlder(live, before[k].time));
      }
    }
  }

  // ----- Operations as relations on the abstract state -----

  datatype State = State(entries: map<string, Stamped>, hits: nat, misses: nat)

  datatype Op =
    | Get(path: string, now: int)
    | Put(path: string, value: Metadata, scan: Readings, stamp: int)
    | Invalidate(path: string)
    | Clear

  // Room for a new entry is made only when the cache is full, whether or not
  // the path is already stored.
  ghost predicate MadeRoom(l: Limits, before: map<string, Stamped>, after: map<string, Stamped>, scan: Readings) {
    if |before| >= l.maxEntries then Evicted(l, before, after, scan) else after == before
  }

  predicate Found(l: Limits, s: State, path: string, now: int) {
    path in s.entries && !IsExpired(l, s.entries[path], now)
  }

  ghost predicate PutInto(l: Limits, s: State, path: string, value: Metadata, scan: Readings, stamp: int, t: State) {
    && t.hits == s.hits && t.misses == s.misses
    && exists room :: MadeRoom(l, s.entries, room, scan) && t.entries == room[path := Stamped(value, stamp)]
  }

  ghost predicate Step(l: Limits, s: State, op: Op, t: State, result: Option<Stamped>) {
    match op
    case Get(path, now) =>
      if Found(l, s, path, now) then t == s.(hits := s.hits + 1) && result == Some(s.entries[path])
      else t == s.(entries := s.entries - {path}, misses := s.misses + 1) && result == None
    case Put(path, value, scan, stamp) => PutInto(l, s, path, value, scan, stamp, t) && result == None
    case Invalidate(path) => t == s.(entries := s.entries - {path}) && result == None
    case Clear => t == s.(entries := map[]) && result == None
  }

  // ----- The cache -----

  class FileCache {
    const limits: Limits
    var cache: map<string, Stamped>
    var hits: nat
    var misses: nat

    constructor (maxEntries: nat, ttl: int)
      ensures limits == Limits(maxEntries, ttl) && Value() == State(map[], 0, 0)
    {
      limits := Limits(maxEntries, ttl);
      cache := map[];
      hits := 0;
      misses := 0;
    }

    function Value(): State
      reads this
    {
      State(cache, hits, misses)
    }

    method Get(path: string, now: int) returns (result: Option<Stamped>)
      modifies this
      ensures Step(limits, old(Value()), Op.Get(path, now), Value(), result)
    {
      if path in cache {
        var metadata := cache[path];
        if !IsExpired(limits, metadata, now) {
          hits := hits + 1;
          return Some(metadata);
        } else {
          cache := cache - {path};
        }
      }
      misses := misses + 1;
      return None;
    }

    method Put(path: string, value: Metadata, scan: Readings, stamp: int)
      modifies this
      ensures Step(limits, old(Value()), Op.Put(path, value, scan, stamp), Value(), None)
    {
      hide Evicted;
      ghost var before := Value();
      if |cache| >= limits.maxEntries {
        EvictOldEntries(scan);
      }
      ghost var room := cache;
      cache := cache[path := Stamped(value, stamp)];
      assert MadeRoom(limits, before.entries, room, scan);
    }

    method Invalidate(path: string)
      modifies this
      ensures Step(limits, old(Value()), Op.Invalidate(path), Value(), None)
    {
      cache := cache - {path};
    }

    method Clear()
      modifies this
      ensures Step(limits, old(Value()), Op.Clear, Value(), None)
    {
      cache := map[];
    }

    method EvictOldEntries(scan: Readings)
      modifies `cache
      ensures Evicted(limits, old(cache), cache, scan)
    {
      hide ByTime;
      RemoveExpired(scan);
      ghost var live := cache;
      if |cache| >= limits.maxEntries {
        var order := KeysByTime();
        var toRemove := |cache| - limits.maxEntries + 1;
        EraseOldest(order, toRemove);
        OldestErased(live, order, if toRemove <= |order| then toRemove else |order|);
      }
    }

    method EraseOldest(order: seq<string>, toRemove: nat)
      requires ByTime(order, cache) && forall k :: k in cache ==> k in order
      modifies `cache
      ensures cache == old(cache) - Oldest(order, if toRemove <= |order| then toRemove else |order|)
    {
      ghost var before := cache;
      var i := 0;
      while i < toRemove && i < |order|
        invariant i <= |order| && i <= toRemove
        invariant cache == before - Oldest(order, i)
      {
        OldestStep(order, i);
        cache := cache - {order[i]};
        i := i + 1;
      }
    }

    // The scan that drops expired entries.
    method RemoveExpired(scan: Readings)
      modifies `cache
      ensures cache == Live(limits, old(cache), scan)
    {
      hide IsExpired;
      ghost var before := cache;
      var left := cache.Keys;
      while left != {}
        invariant left <= cache.Keys <= before.Keys
        invariant forall k :: k in cache ==> cache[k] == before[k]
        invariant forall k :: k in before && k !in left ==> (k in cache <==> !IsExpired(limits, before[k], scan(k)))
        decreases left
      {
        var k :| k in left;
        if IsExpired(limits, cache[k], scan(k)) {
          cache := cache - {k};
        }
        left := left - {k};
      }
      assert cache == Live(limits, before, scan);
    }

    // The stored paths, oldest first; equal times in any order.
    method KeysByTime() returns (order: seq<string>)
      ensures ByTime(order, cache) && forall k :: k in cache ==> k in order
    {
      hide ByTime;
      order := [];
      NothingByTime(cache);
      var left := cache.Keys;
      while left != {}
        invariant left <= cache.Keys
        invariant ByTime(order, cache)
        invariant forall k :: k in order <==> k in cache.Keys - left
        decreases left
      {
        var k :| k in left;
        var at := Position(order, k);
        InsertByTime(order, cache, k, at);
        order := order[..at] + [k] + order[at..];
        left := left - {k};
      }
    }

    method Position(order: seq<string>, k: string) returns (at: nat)
      requires ByTime(order, cache) && k in cache
      ensures at <= |order|
      ensures forall i :: 0 <= i < at ==> cache[order[i]].time <= cache[k].time
      ensures at < |order| ==> cache[order[at]].time > cache[k].time
    {
      at := 0;
      while at < |order| && cache[order[at]].time <= cache[k].time
        invariant at <= |order|
        invariant forall i :: 0 <= i < at ==> cache[order[i]].time <= cache[k].time
      {
        at := at + 1;
      }
    }
  }

  // Distinct stored paths in the order of their times.
  predicate ByTime(order: seq<string>, m: map<string, Stamped>) {
    && (forall i :: 0 <= i < |order| ==> order[i] in m)
    && (forall i, j :: 0 <= i < j < |order| ==> order[i] != order[j] && m[order[i]].time <= m[order[j]].time)
  }

  lemma NothingByTime(m: map<string, Stamped>)
    ensures ByTime([], m)
  {
  }

  lemma InsertByTime(order: seq<string>, m: map<string, Stamped>, k: string, at: nat)
    requires ByTime(order, m) && k in m && k !in order && at <= |order|
    requires forall i :: 0 <= i < at ==> m[order[i]].time <= m[k].time
    requires at < |order| ==> m[order[at]].time > m[k].time
    ensures ByTime(order[..at] + [k] + order[at..], m)
    ensures forall x :: x in order[..at] + [k] + order[at..] <==> x == k || x in order
  {
    var longer := order[..at] + [k] + order[at..];
    assert order == order[..at] + order[at..];
    forall i, j | 0 <= i < j < |longer|
      ensures longer[i] != longer[j] && longer[i] in m && longer[j] in m && m[longer[i]].time <= m[longer[j]].time
    {
      InsertedAt(order, k, at, i);
      InsertedAt(order, k, at, j);
      if i == at {
        assert at == j - 1 || m[order[at]].time <= m[order[j - 1]].time;
      }
    }
    assert forall i :: 0 <= i < |longer| ==> longer[i] in longer;
    assert forall i :: 0 <= i < |longer| ==> longer[i] in m by {
      forall i | 0 <= i < |longer| ensures longer[i] in m {
        InsertedAt(order, k, at, i);
      }
    }
  }

  lemma InsertedAt(order: seq<string>, k: string, at: nat, i: nat)
    requires at <= |order| && i <= |order|
    ensures (order[..at] + [k] + order[at..])[i] == if i < at then order[i] else if i == at then k else order[i - 1]
  {
  }

  function Oldest(order: seq<string>, n: nat): set<string>
    requires n <= |order|
  {
    set k | k in order[..n]
  }

  lemma OldestStep(order: seq<string>, i: nat)
    requires i < |order|
    ensures Oldest(order, i + 1) == Oldest(order, i) + {order[i]}
  {
    assert order[..i + 1] == order[..i] + [order[i]];
  }

  // Erasing the n oldest leaves the others, none of them older.
  lemma OldestErased(live: map<string, Stamped>, order: seq<string>, n: nat)
    requires ByTime(order, live) && n <= |order| && forall k :: k in live ==> k in order
    ensures |order| == |live| && |live - Oldest(order, n)| == |live| - n
    ensures forall r, s :: r in Oldest(order, n) && s in live && s !in Oldest(order, n) ==> live[r].time <= live[s].time
  {
    hide ByTime, Oldest;
    OldestSize(live, order, n);
    forall r, s | r in Oldest(order, n) && s in live && s !in Oldest(order, n)
      ensures r in live && live[r].time <= live[s].time
    {
      OldestIsOlder(live, order, n, r, s);
    }
  }

  lemma OldestSize(live: map<string, Stamped>, order: seq<string>, n: nat)
    requires ByTime(order, live) && n <= |order| && forall k :: k in live ==> k in order
    ensures |order| == |live| && |live - Oldest(order, n)| == |live| - n
  {
    KeysSize(live);
    DistinctSize(order, live.Keys);
    DistinctSize(order[..n], Oldest(order, n));
    KeysSize(live - Oldest(order, n));
    assert (live - Oldest(order, n)).Keys == live.Keys - Oldest(order, n);
    assert Oldest(order, n) <= live.Keys;
  }

  lemma OldestIsOlder(live: map<string, Stamped>, order: seq<string>, n: nat, r: string, s: string)
    requires ByTime(order, live) && n <= |order|
    requires r in Oldest(order, n) && s in order && s !in Oldest(order, n)
    ensures r in live && s in live && live[r].time <= live[s].time
  {
    var a :| 0 <= a < n && order[..n][a] == r;
    var b :| 0 <= b < |order| && order[b] == s;
    assert forall x :: 0 <= x < n ==> order[..n][x] in Oldest(order, n);
  }

  lemma {:induction false} DistinctSize<T>(order: seq<T>, elements: set<T>)
    requires forall i, j :: 0 <= i < j < |order| ==> order[i] != order[j]
    requires forall k :: k in order <==> k in elements
    ensures |order| == |elements|
  {
    if order == [] {
      assert elements == {};
    } else {
      var rest := order[1..];
      assert order == [order[0]] + rest;
      assert order[0] !in rest;
      DistinctSize(rest, elements - {order[0]});
    }
  }
}

/**
 The metadata cache over whole histories: what a hit returns, when a stored
 value is still there, and how large the cache gets.
 */
module CacheRuns {
  import opened Text
  import opened FileCache

  // The states before and after each operation, from an empty cache on.
  ghost predicate History(l: Limits, ops: seq<Op>, states: seq<State>, results: seq<Option<Stamped>>) {
    && |states| == |ops| + 1 && |results| == |ops|
    && states[0] == State(map[], 0, 0)
    && forall i :: 0 <= i < |ops| ==> Step(l, states[i], ops[i], states[i + 1], results[i])
  }

  // ----- Size -----

  lemma {:induction false} PutSize(
      l: Limits, s: State, path: string, value: Metadata, scan: Readings, stamp: int, t: State)
    requires PutInto(l, s, path, value, scan, stamp, t)
    ensures |t.entries| <= if |s.entries| >= l.maxEntries then Bound(l) else |s.entries| + 1
  {
    hide Evicted;
    var room :| MadeRoom(l, s.entries, room, scan) && t.entries == room[path := Stamped(value, stamp)];
    if |s.entries| >= l.maxEntries {
      EvictedSize(l, s.entries, room, scan);
    }
    InsertSize(room, path, Stamped(value, stamp));
  }

  lemma EvictedSize(l: Limits, before: map<string, Stamped>, after: map<string, Stamped>, scan: Readings)
    requires Evicted(l, before, after, scan)
    ensures |after| <= if l.maxEntries > 0 then l.maxEntries - 1 else 0
  {
  }

  lemma InsertSize<K, V>(m: map<K, V>, k: K, v: V)
    ensures |m| <= |m[k := v]| <= |m| + 1
  {
    KeysSize(m);
    KeysSize(m[k := v]);
    assert m[k := v].Keys == m.Keys + {k};
  }

  lemma RemoveSize<K, V>(m: map<K, V>, k: K)
    ensures |m - {k}| <= |m|
  {
    KeysSize(m);
    KeysSize(m - {k});
    SubsetSize((m - {k}).Keys, m.Keys);
  }

  function Bound(l: Limits): nat {
    if l.maxEntries > 0 then l.maxEntries else 1
  }

  lemma {:induction false} SizeBounded(
      l: Limits, ops: seq<Op>, states: seq<State>, results: seq<Option<Stamped>>, i: nat)
    requires History(l, ops, states, results) && i < |states|
    ensures |states[i].entries| <= Bound(l)
  {
    hide Step;
    if i > 0 {
      SizeBounded(l, ops, states, results, i - 1);
      StepSize(l, states[i - 1], ops[i - 1], states[i], results[i - 1]);
    }
  }

  lemma StepSize(l: Limits, s: State, op: Op, t: State, result: Option<Stamped>)
    requires Step(l, s, op, t, result) && |s.entries| <= Bound(l)
    ensures |t.entries| <= Bound(l)
  {
    hide PutInto;
    match op
    case Put(path, value, scan, stamp) => PutSize(l, s, path, value, scan, stamp, t);
    case Get(path, now) => RemoveSize(s.entries, path);
    case Invalidate(path) => RemoveSize(s.entries, path);
    case Clear =>
  }

  // ----- Counting -----

  function Gets(ops: seq<Op>): nat {
    if ops == [] then 0 else Gets(ops[..|ops| - 1]) + (if ops[|ops| - 1].Get? then 1 else 0)
  }

  function Hits(results: seq<Option<Stamped>>): nat {
    if results == [] then 0
    else Hits(results[..|results| - 1]) + (if results[|results| - 1].Some? then 1 else 0)
  }

  // A hit is counted for each value that is returned, a miss for every other get.
  lemma {:induction false} HitsAndMisses(
      l: Limits, ops: seq<Op>, states: seq<State>, results: seq<Option<Stamped>>, i: nat)
    requires History(l, ops, states, results) && i < |states|
    ensures states[i].hits == Hits(results[..i])
    ensures states[i].hits + states[i].misses == Gets(ops[..i])
  {
    if i > 0 {
      HitsAndMisses(l, ops, states, results, i - 1);
      assert Step(l, states[i - 1], ops[i - 1], states[i], results[i - 1]);
      assert ops[..i][..i - 1] == ops[..i - 1] && results[..i][..i - 1] == results[..i - 1];
    }
  }

  // ----- What a hit returns -----

  // The operation stores, invalidates or clears the path.
  predicate Touches(op: Op, path: string) {
    (op.Put? && op.path == path) || (op.Invalidate? && op.path == path) || op.Clear?
  }

  // The entry was stored by the j-th operation, and nothing has touched the
  // path between then and before the i-th.
  predicate LastPut(ops: seq<Op>, i: nat, path: string, e: Stamped, j: nat)
    requires i <= |ops|
  {
    && j < i && ops[j].Put? && ops[j].path == path && ops[j].value == e.value && ops[j].stamp == e.time
    && forall m :: j < m < i ==> !Touches(ops[m], path)
  }

  // No operation makes an entry up: it was there before, or is the one put.
  lemma StepOrigin(l: Limits, s: State, op: Op, t: State, result: Option<Stamped>, path: string)
    requires Step(l, s, op, t, result) && path in t.entries
    ensures if op.Put? && op.path == path then t.entries[path] == Stamped(op.value, op.stamp)
            else !Touches(op, path) && path in s.entries && s.entries[path] == t.entries[path]
  {
    if op.Put? {
      PutOrigin(l, s, op.path, op.value, op.scan, op.stamp, t, path);
    }
  }

  lemma PutOrigin(l: Limits, s: State, p: string, value: Metadata, scan: Readings, stamp: int, t: State, path: string)
    requires PutInto(l, s, p, value, scan, stamp, t) && path in t.entries
    ensures if p == path then t.entries[path] == Stamped(value, stamp)
            else path in s.entries && s.entries[path] == t.entries[path]
  {
  }

  lemma {:induction false} StoredIsLastPut(
      l: Limits, ops: seq<Op>, states: seq<State>, results: seq<Option<Stamped>>, i: nat, path: string) returns (j: nat)
    requires History(l, ops, states, results) && i < |states| && path in states[i].entries
    ensures LastPut(ops, i, path, states[i].entries[path], j)
  {
    hide Step;
    StepOrigin(l, states[i - 1], ops[i - 1], states[i], results[i - 1], path);
    if ops[i - 1].Put? && ops[i - 1].path == path {
      j := i - 1;
    } else {
      j := StoredIsLastPut(l, ops, states, results, i - 1, path);
    }
  }

  // A hit returns the value last put for the path since it was invalidated or
  // the cache cleared, and its age is within the time to live.
  lemma HitIsLastPut(
      l: Limits, ops: seq<Op>, states: seq<State>, results: seq<Option<Stamped>>, i: nat) returns (j: nat)
    requires History(l, ops, states, results) && i < |ops| && ops[i].Get? && results[i].Some?
    ensures LastPut(ops, i, ops[i].path, results[i].value, j)
    ensures Age(ops[i].now, results[i].value.time) <= l.ttl
  {
    hide PutInto;
    assert Step(l, states[i], ops[i], states[i + 1], results[i]);
    j := StoredIsLastPut(l, ops, states, results, i, ops[i].path);
  }

  // ----- When a stored value is still there -----

  // Every reading of the clock for this path, from the j-th operation to
  // before the i-th, finds the entry unexpired. A clock that never runs
  // backwards gives this for any entry unexpired at the i-th operation.
  predicate Fresh(l: Limits, ops: seq<Op>, j: nat, i: nat, path: string, e: Stamped)
    requires j <= i <= |ops|
  {
    forall m :: j <= m < i ==>
      && (ops[m].Get? && ops[m].path == path ==> !IsExpired(l, e, ops[m].now))
      && (ops[m].Put? ==> !IsExpired(l, e, ops[m].scan(path)))
  }

  predicate Reads(op: Op, path: string, reading: int) {
    (op.Get? && op.path == path && op.now == reading) || (op.Put? && op.scan(path) == reading)
  }

  // Readings of a clock that never runs backwards, up to the time `now`.
  ghost predicate Before(ops: seq<Op>, path: string, now: int) {
    forall m, reading :: 0 <= m < |ops| && Reads(ops[m], path, reading) ==> reading <= now
  }

  lemma MonotoneClockKeepsFresh(l: Limits, ops: seq<Op>, j: nat, i: nat, path: string, e: Stamped, now: int)
    requires j <= i <= |ops| && Before(ops[..i], path, now) && !IsExpired(l, e, now)
    ensures Fresh(l, ops, j, i, path, e)
  {
    forall m | j <= m < i
      ensures ops[m].Get? && ops[m].path == path ==> !IsExpired(l, e, ops[m].now)
      ensures ops[m].Put? ==> !IsExpired(l, e, ops[m].scan(path))
    {
      assert ops[..i][m] == ops[m];
      if ops[m].Get? && ops[m].path == path {
        assert Reads(ops[..i][m], path, ops[m].now);
        AgeMonotone(ops[m].now, now, e.time);
      } else if ops[m].Put? {
        assert Reads(ops[..i][m], path, ops[m].scan(path));
        AgeMonotone(ops[m].scan(path), now, e.time);
      }
    }
  }

  // A put cannot evict the path: the cache has room, or the entry is live and
  // among the most recent.
  ghost predicate Spared(l: Limits, m: map<string, Stamped>, scan: Readings, path: string)
    requires path in m
  {
    |m| < l.maxEntries ||
    (!IsExpired(l, m[path], scan(path)) && |NotOlder(m, m[path].time)| < l.maxEntries)
  }

  // An operation that does not touch the path, reads it unexpired and does not
  // evict it leaves it in place.
  lemma StepKeeps(l: Limits, s: State, op: Op, t: State, result: Option<Stamped>, path: string)
    requires Step(l, s, op, t, result) && path in s.entries && !Touches(op, path)
    requires op.Get? && op.path == path ==> !IsExpired(l, s.entries[path], op.now)
    requires op.Put? ==> Spared(l, s.entries, op.scan, path)
    ensures path in t.entries && t.entries[path] == s.entries[path]
  {
    if op.Put? {
      PutKeeps(l, s, op.path, op.value, op.scan, op.stamp, t, path);
    }
  }

  lemma PutKeeps(l: Limits, s: State, p: string, value: Metadata, scan: Readings, stamp: int, t: State, path: string)
    requires PutInto(l, s, p, value, scan, stamp, t) && path in s.entries && p != path
    requires Spared(l, s.entries, scan, path)
    ensures path in t.entries && t.entries[path] == s.entries[path]
  {
    hide Evicted, IsExpired;
    var room :| MadeRoom(l, s.entries, room, scan) && t.entries == room[p := Stamped(value, stamp)];
    if |s.entries| >= l.maxEntries {
      var live := Live(l, s.entries, scan);
      SubsetSize(NotOlder(live, s.entries[path].time), NotOlder(s.entries, s.entries[path].time));
      RecentSurvives(l, s.entries, room, scan, path);
      EvictedSubset(l, s.entries, room, scan);
    }
  }

  lemma EvictedSubset(l: Limits, before: map<string, Stamped>, after: map<string, Stamped>, scan: Readings)
    requires Evicted(l, before, after, scan)
    ensures forall k :: k in after ==> k in before && after[k] == before[k]
  {
  }

  // The j-th operation put the path, and no later one before the i-th touches it.
  predicate PutAt(ops: seq<Op>, j: nat, i: nat) {
    j < i <= |ops| && ops[j].Put? && forall m :: j < m < i ==> !Touches(ops[m], ops[j].path)
  }

  function StampedBy(op: Op): Stamped
    requires op.Put?
  {
    Stamped(op.value, op.stamp)
  }

  // Each put between the j-th and the i-th operation finds the cache below its
  // limit.
  predicate PutsFindRoom(l: Limits, ops: seq<Op>, states: seq<State>, j: nat, i: nat)
    requires i <= |ops| < |states|
  {
    forall m :: j < m < i && ops[m].Put? ==> |states[m].entries| < l.maxEntries
  }

  // A put value is still stored if it stays fresh and each later put finds the
  // cache below its limit.
  lemma {:induction false} KeptBelowCapacity(
      l: Limits, ops: seq<Op>, states: seq<State>, results: seq<Option<Stamped>>, j: nat, i: nat)
    requires History(l, ops, states, results) && PutAt(ops, j, i)
    requires Fresh(l, ops, j + 1, i, ops[j].path, StampedBy(ops[j]))
    requires PutsFindRoom(l, ops, states, j, i)
    ensures ops[j].path in states[i].entries && states[i].entries[ops[j].path] == StampedBy(ops[j])
  {
    hide Step, NotOlder;
    if i == j + 1 {
      StepStores(l, states[j], ops[j], states[i], results[j]);
    } else {
      KeptBelowCapacity(l, ops, states, results, j, i - 1);
      StepKeeps(l, states[i - 1], ops[i - 1], states[i], results[i - 1], ops[j].path);
    }
  }

  lemma StepStores(l: Limits, s: State, op: Op, t: State, result: Option<Stamped>)
    requires Step(l, s, op, t, result) && op.Put?
    ensures op.path in t.entries && t.entries[op.path] == StampedBy(op)
  {
  }

  function Puts(ops: seq<Op>): nat {
    if ops == [] then 0 else Puts(ops[..|ops| - 1]) + (if ops[|ops| - 1].Put? then 1 else 0)
  }

  // Each put is stamped later than all before it.
  predicate StrictStamps(ops: seq<Op>) {
    forall a, b :: 0 <= a < b < |ops| && ops[a].Put? && ops[b].Put? ==> ops[a].stamp < ops[b].stamp
  }

  lemma OnlyTheLatest(l: Limits, ops: seq<Op>, states: seq<State>, results: seq<Option<Stamped>>, j: nat, k: string)
    requires History(l, ops, states, results) && StrictStamps(ops) && j < |ops| && ops[j].Put?
    requires k in states[j + 1].entries && states[j + 1].entries[k].time >= ops[j].stamp
    ensures k == ops[j].path
  {
    var m := StoredIsLastPut(l, ops, states, results, j + 1, k);
  }

  lemma StepNotOlder(l: Limits, s: State, op: Op, t: State, result: Option<Stamped>, time: int)
    requires Step(l, s, op, t, result)
    ensures |NotOlder(t.entries, time)| <= |NotOlder(s.entries, time)| + if op.Put? then 1 else 0
  {
    hide Step;
    var one: set<string> := if op.Put? then {op.path} else {};
    forall k | k in NotOlder(t.entries, time) ensures k in NotOlder(s.entries, time) + one {
      StepOrigin(l, s, op, t, result, k);
    }
    SubsetSize(NotOlder(t.entries, time), NotOlder(s.entries, time) + one);
  }

  // The entries as recent as the j-th operation's number at most one more than
  // the puts since.
  lemma {:induction false} RecentCount(
      l: Limits, ops: seq<Op>, states: seq<State>, results: seq<Option<Stamped>>, j: nat, i: nat)
    requires History(l, ops, states, results) && StrictStamps(ops) && j < i <= |ops| && ops[j].Put?
    ensures |NotOlder(states[i].entries, ops[j].stamp)| <= 1 + Puts(ops[j + 1..i])
  {
    hide Step;
    var time := ops[j].stamp;
    if i == j + 1 {
      forall k | k in NotOlder(states[i].entries, time) ensures k in {ops[j].path} {
        OnlyTheLatest(l, ops, states, results, j, k);
      }
      SubsetSize(NotOlder(states[i].entries, time), {ops[j].path});
    } else {
      hide NotOlder;
      RecentCount(l, ops, states, results, j, i - 1);
      assert ops[j + 1..i][..i - j - 2] == ops[j + 1..i - 1];
      StepNotOlder(l, states[i - 1], ops[i - 1], states[i], results[i - 1], time);
    }
  }

  // A put value is also still stored, however full the cache, if it stays
  // fresh and fewer than `maxEntries` puts have followed it.
  lemma {:induction false} KeptWhileRecent(
      l: Limits, ops: seq<Op>, states: seq<State>, results: seq<Option<Stamped>>, j: nat, i: nat)
    requires History(l, ops, states, results) && PutAt(ops, j, i) && StrictStamps(ops)
    requires Fresh(l, ops, j + 1, i, ops[j].path, StampedBy(ops[j]))
    requires Puts(ops[j + 1..i]) < l.maxEntries
    ensures ops[j].path in states[i].entries && states[i].entries[ops[j].path] == StampedBy(ops[j])
  {
    hide Step, NotOlder;
    if i == j + 1 {
      StepStores(l, states[j], ops[j], states[i], results[j]);
    } else {
      assert ops[j + 1..i][..i - j - 2] == ops[j + 1..i - 1];
      KeptWhileRecent(l, ops, states, results, j, i - 1);
      RecentCount(l, ops, states, results, j, i - 1);
      StepKeeps(l, states[i - 1], ops[i - 1], states[i], results[i - 1], ops[j].path);
    }
  }

  // Together: such a value is what the i-th operation finds, exactly when it
  // has not expired by then.
  lemma GetFindsPut(
      l: Limits, ops: seq<Op>, states: seq<State>, results: seq<Option<Stamped>>, j: nat, i: nat)
    requires History(l, ops, states, results) && PutAt(ops, j, i)
    requires i < |ops| && ops[i].Get? && ops[i].path == ops[j].path
    requires Before(ops[..i], ops[j].path, ops[i].now)
    requires PutsFindRoom(l, ops, states, j, i) || (StrictStamps(ops) && Puts(ops[j + 1..i]) < l.maxEntries)
    ensures results[i] ==
      if IsExpired(l, StampedBy(ops[j]), ops[i].now) then None else Some(StampedBy(ops[j]))
  {
    hide PutInto;
    assert Step(l, states[i], ops[i], states[i + 1], results[i]);
    if IsExpired(l, StampedBy(ops[j]), ops[i].now) {
      if results[i].Some? {
        var m := HitIsLastPut(l, ops, states, results, i);
      }
    } else {
      MonotoneClockKeepsFresh(l, ops, j + 1, i, ops[j].path, StampedBy(ops[j]), ops[i].now);
      if PutsFindRoom(l, ops, states, j, i) {
        KeptBelowCapacity(l, ops, states, results, j, i);
      } else {
        KeptWhileRecent(l, ops, states, results, j, i);
      }
    }
  }

  // The same in clock ticks.
  lemma GetFindsPutInTime(
      l: Limits, ops: seq<Op>, states: seq<State>, results: seq<Option<Stamped>>, j: nat, i: nat)
    requires History(l, ops, states, results) && PutAt(ops, j, i) && l.ttl >= 0
    requires i < |ops| && ops[i].Get? && ops[i].path == ops[j].path
    requires Before(ops[..i], ops[j].path, ops[i].now)
    requires PutsFindRoom(l, ops, states, j, i) || (StrictStamps(ops) && Puts(ops[j + 1..i]) < l.maxEntries)
    ensures results[i] ==
      if ops[i].now - ops[j].stamp < (l.ttl + 1) * SECOND then Some(Stamped(ops[j].value, ops[j].stamp)) else None
  {
    assert ops[j].Put?;
    hide History, IsExpired, PutAt, PutsFindRoom, StrictStamps, Puts;
    GetFindsPut(l, ops, states, results, j, i);
    ExpiredExactly(l, StampedBy(ops[j]), ops[i].now);
  }

  // The stored paths that are within the time to live when they are tested.
  ghost function Young(l: Limits, m: map<string, Stamped>, scan: Readings): set<string> {
    set k | k in m && Age(scan(k), m[k].time) <= l.ttl
  }

  lemma YoungIsLive(l: Limits, m: map<string, Stamped>, scan: Readings)
    ensures Live(l, m, scan).Keys == Young(l, m, scan) && |Live(l, m, scan)| == |Young(l, m, scan)|
  {
    hide Age;
    KeysSize(Live(l, m, scan));
  }

  lemma EvictedYoung(l: Limits, before: map<string, Stamped>, after: map<string, Stamped>, scan: Readings)
    requires Evicted(l, before, after, scan)
    ensures var young := Young(l, before, scan);
      && after.Keys <= young
      && |after| == (if |young| < l.maxEntries then |young| else if l.maxEntries > 0 then l.maxEntries - 1 else 0)
      && forall r, k :: r in young && r !in after && k in after ==> before[r].time <= before[k].time
  {
    hide Young, IsExpired;
    YoungIsLive(l, before, scan);
  }

  // A put of a new path into a full cache keeps no expired entry; of the others
  // all, if they are below the limit, and else one less than the limit, none of
  // them older than any that is dropped.
  lemma PutEvicts(l: Limits, s: State, path: string, value: Metadata, scan: Readings, stamp: int, t: State)
    requires Step(l, s, Op.Put(path, value, scan, stamp), t, None)
    requires |s.entries| >= l.maxEntries && path !in s.entries
    ensures path in t.entries && t.entries[path] == Stamped(value, stamp)
    ensures forall k :: k in t.entries && k != path ==>
      k in s.entries && t.entries[k] == s.entries[k] && Age(scan(k), s.entries[k].time) <= l.ttl
    ensures var young := set k | k in s.entries && Age(scan(k), s.entries[k].time) <= l.ttl;
      && (|young| < l.maxEntries ==> young <= t.entries.Keys)
      && (|young| >= l.maxEntries > 0 ==> |t.entries| == l.maxEntries)
      && forall r, k :: r in young && r !in t.entries && k in t.entries && k != path ==>
           s.entries[r].time <= s.entries[k].time
  {
    hide Age, Evicted;
    var room :| MadeRoom(l, s.entries, room, scan) && t.entries == room[path := Stamped(value, stamp)];
    EvictedSubset(l, s.entries, room, scan);
    EvictedYoung(l, s.entries, room, scan);
    KeysSize(room);
    InsertNew(room, path, Stamped(value, stamp));
    var young := Young(l, s.entries, scan);
    if |young| < l.maxEntries {
      SubsetSize(room.Keys, young);
    }
  }

  lemma InsertNew<K, V>(m: map<K, V>, k: K, v: V)
    requires k !in m
    ensures |m[k := v]| == |m| + 1
  {
    KeysSize(m);
    KeysSize(m[k := v]);
    assert m[k := v].Keys == m.Keys + {k};
  }
}

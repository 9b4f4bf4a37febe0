/**
 The fixed-window rate limiter and the accept loop that consults it. Time is a
 steady clock in nanoseconds; the value 0 stands for "never set".
 */
module RateLimiter {
  import opened Sequences

  const WINDOW: int := 60_000_000_000

  datatype Entry = Entry(count: int, start: int)

  type Table = map<string, Entry>

  function EntryOf(m: Table, ip: string): Entry {
    if ip in m then m[ip] else Entry(0, 0)
  }

  // A window that is unset or over starts afresh.
  function Refresh(e: Entry, now: int): Entry {
    if e.start == 0 || now - e.start >= WINDOW then Entry(0, now) else e
  }

  class FTPRateLimiter {
    var rateLimits: Table
    var maxRequestsPerMinute: int

    constructor (limit: int)
      ensures rateLimits == map[] && maxRequestsPerMinute == limit
    {
      rateLimits := map[];
      maxRequestsPerMinute := limit;
    }

    method IsAllowed(ip: string, now: int) returns (allowed: bool)
      modifies this`rateLimits
      ensures var e := Refresh(EntryOf(old(rateLimits), ip), now);
        rateLimits == old(rateLimits)[ip := e] && allowed == (e.count < maxRequestsPerMinute)
    {
      var entry := EntryOf(rateLimits, ip);
      if entry.start == 0 || now - entry.start >= WINDOW {
        entry := entry.(start := now);
        entry := entry.(count := 0);
      }
      rateLimits := rateLimits[ip := entry];
      if entry.count >= maxRequestsPerMinute {
        return false;
      }
      return true;
    }

    method RecordRequest(ip: string, now: int)
      modifies this`rateLimits
      ensures var e := Refresh(EntryOf(old(rateLimits), ip), now);
        rateLimits == old(rateLimits)[ip := Entry(e.count + 1, e.start)]
    {
      var entry := EntryOf(rateLimits, ip);
      if entry.start == 0 || now - entry.start >= WINDOW {
        entry := entry.(start := now);
        entry := entry.(count := 0);
      }
      rateLimits := rateLimits[ip := entry.(count := entry.count + 1)];
    }
  }

  // ----- The accept loop -----

  // One accepted connection: when the limiter checks it, and when it records it.
  datatype Attempt = Attempt(ip: string, checked: int, recorded: int)

  function Checked(m: Table, a: Attempt): Entry {
    Refresh(EntryOf(m, a.ip), a.checked)
  }

  function Recorded(m: Table, a: Attempt): Entry {
    var e := Refresh(Checked(m, a), a.recorded);
    Entry(e.count + 1, e.start)
  }

  // The table after a run of attempts under the limit.
  function After(limit: int, run: seq<Attempt>): Table {
    if run == [] then map[]
    else
      var m, a := After(limit, Front(run)), Last(run);
      m[a.ip := if Checked(m, a).count < limit then Recorded(m, a) else Checked(m, a)]
  }

  // Whether the last attempt of a run gets past the limiter.
  predicate Admits(limit: int, run: seq<Attempt>)
    requires run != []
  {
    Checked(After(limit, Front(run)), Last(run)).count < limit
  }

  method ServerLoop(limit: int, attempts: seq<Attempt>) returns (admitted: seq<bool>)
    ensures |admitted| == |attempts|
    ensures forall i :: 0 <= i < |attempts| ==> admitted[i] == Admits(limit, attempts[..i + 1])
  {
    hide Refresh;
    var limiter := new FTPRateLimiter(limit);
    admitted := [];
    for i := 0 to |attempts|
      invariant fresh(limiter) && limiter.maxRequestsPerMinute == limit
      invariant limiter.rateLimits == After(limit, attempts[..i])
      invariant |admitted| == i
      invariant forall j :: 0 <= j < i ==> admitted[j] == Admits(limit, attempts[..j + 1])
    {
      var a := attempts[i];
      assert Front(attempts[..i + 1]) == attempts[..i];
      var allowed := limiter.IsAllowed(a.ip, a.checked);
      if allowed {
        limiter.RecordRequest(a.ip, a.recorded);
      }
      admitted := admitted + [allowed];
    }
  }

  // ----- The log of one address -----

  // An admitted request: its time, and the start of the window it was counted in.
  datatype Request = Request(time: int, window: int)

  function Log(limit: int, run: seq<Attempt>, ip: string): seq<Request> {
    if run == [] then []
    else
      var before := Log(limit, Front(run), ip);
      if Last(run).ip == ip && Admits(limit, run) then
        before + [Request(Last(run).recorded, Recorded(After(limit, Front(run)), Last(run)).start)]
      else before
  }

  // A positive clock that never runs backwards.
  predicate ClockRuns(run: seq<Attempt>) {
    && (forall i :: 0 <= i < |run| ==> 0 < run[i].checked <= run[i].recorded)
    && (forall i, j :: 0 <= i < j < |run| ==> run[i].recorded <= run[j].checked)
  }

  predicate InOrder(log: seq<Request>) {
    && (forall i :: 0 <= i < |log| ==> log[i].window <= log[i].time < log[i].window + WINDOW)
    && (forall i, j :: 0 <= i < j < |log| ==>
          log[i].window == log[j].window || log[i].window + WINDOW <= log[j].window)
    && (forall i, j :: 0 <= i < j < |log| ==> log[i].time <= log[j].time)
  }

  // No window holds more than `limit` requests.
  predicate WindowsBounded(log: seq<Request>, limit: int) {
    limit > 0 && forall i :: 0 <= i < |log| - limit ==> log[i].window != log[i + limit].window
  }

  // The entry counts exactly the requests of its window, the latest ones.
  predicate Tallies(e: Entry, log: seq<Request>) {
    && 0 <= e.count <= |log|
    && (forall i :: |log| - e.count <= i < |log| ==> log[i].window == e.start)
    && (forall i :: 0 <= i < |log| - e.count ==> log[i].window + WINDOW <= e.start)
    && (e.start == 0 ==> log == [])
  }

  predicate Consistent(e: Entry, log: seq<Request>, limit: int) {
    InOrder(log) && WindowsBounded(log, limit) && Tallies(e, log) && e.count <= limit
  }

  lemma RefreshTallies(e: Entry, log: seq<Request>, limit: int, now: int)
    requires Consistent(e, log, limit) && 0 <= e.start && 0 < now
    ensures Consistent(Refresh(e, now), log, limit)
    ensures 0 < Refresh(e, now).start && now < Refresh(e, now).start + WINDOW
  {
  }

  lemma RecordInOrder(log: seq<Request>, r: Request)
    requires InOrder(log) && r.window <= r.time < r.window + WINDOW
    requires forall i :: 0 <= i < |log| ==> log[i].time <= r.time
    requires forall i :: 0 <= i < |log| ==> log[i].window == r.window || log[i].window + WINDOW <= r.window
    ensures InOrder(log + [r])
  {
  }

  lemma RecordTallies(e: Entry, log: seq<Request>, limit: int, now: int)
    requires Consistent(e, log, limit) && 0 < e.start <= now < e.start + WINDOW && e.count < limit
    requires forall i :: 0 <= i < |log| ==> log[i].time <= now
    ensures Consistent(Entry(e.count + 1, e.start), log + [Request(now, e.start)], limit)
  {
    hide InOrder;
    RecordInOrder(log, Request(now, e.start));
  }

  // What one attempt does to the entry and the log of its address.
  function NextEntry(e: Entry, limit: int, a: Attempt): Entry {
    var c := Refresh(e, a.checked);
    var r := Refresh(c, a.recorded);
    if c.count < limit then Entry(r.count + 1, r.start) else c
  }

  function NextLog(e: Entry, log: seq<Request>, limit: int, a: Attempt): seq<Request> {
    var c := Refresh(e, a.checked);
    if c.count < limit then log + [Request(a.recorded, Refresh(c, a.recorded).start)] else log
  }

  lemma NextConsistent(e: Entry, log: seq<Request>, limit: int, a: Attempt)
    requires limit > 0 && Consistent(e, log, limit) && 0 <= e.start && 0 < a.checked <= a.recorded
    requires e.start <= a.checked && forall i :: 0 <= i < |log| ==> log[i].time <= a.checked
    ensures Consistent(NextEntry(e, limit, a), NextLog(e, log, limit, a), limit)
    ensures 0 < NextEntry(e, limit, a).start <= a.recorded
    ensures forall r :: r in NextLog(e, log, limit, a) ==> r in log || r.time == a.recorded
  {
    hide Consistent;
    var c := Refresh(e, a.checked);
    RefreshTallies(e, log, limit, a.checked);
    RefreshTallies(c, log, limit, a.recorded);
    if c.count < limit {
      RecordTallies(Refresh(c, a.recorded), log, limit, a.recorded);
    }
  }

  lemma EmptyTallies(limit: int)
    requires limit > 0
    ensures Consistent(Entry(0, 0), [], limit)
  {
  }

  lemma AfterOwnAttempt(limit: int, run: seq<Attempt>)
    requires run != []
    ensures var front, a := Front(run), Last(run);
            var e, log := EntryOf(After(limit, front), a.ip), Log(limit, front, a.ip);
      && EntryOf(After(limit, run), a.ip) == NextEntry(e, limit, a)
      && Log(limit, run, a.ip) == NextLog(e, log, limit, a)
  {
  }

  lemma AfterOtherAttempt(limit: int, run: seq<Attempt>, ip: string)
    requires run != [] && Last(run).ip != ip
    ensures EntryOf(After(limit, run), ip) == EntryOf(After(limit, Front(run)), ip)
    ensures Log(limit, run, ip) == Log(limit, Front(run), ip)
  {
  }

  lemma FrontClock(run: seq<Attempt>)
    requires run != [] && ClockRuns(run)
    ensures ClockRuns(Front(run))
    ensures |run| > 1 ==> Last(Front(run)).recorded <= Last(run).checked
  {
    assert forall i, j :: 0 <= i < j < |run| - 1 ==> run[i].recorded <= run[j].checked;
  }

  // After any run, for any address: the log is in order, its windows are
  // bounded, the entry tallies with it, and nothing lies in the future.
  lemma {:induction false} RunConsistent(limit: int, run: seq<Attempt>, ip: string)
    requires limit > 0 && ClockRuns(run)
    ensures var e, log := EntryOf(After(limit, run), ip), Log(limit, run, ip);
      && Consistent(e, log, limit) && 0 <= e.start
      && (forall r :: r in log ==> run != [] && r.time <= Last(run).recorded)
      && (e.start > 0 ==> run != [] && e.start <= Last(run).recorded)
  {
    hide Consistent, ClockRuns, NextEntry, NextLog;
    if run == [] {
      EmptyTallies(limit);
    } else {
      var front, a := Front(run), Last(run);
      FrontClock(run);
      RunConsistent(limit, front, ip);
      assert 0 < a.checked <= a.recorded by { LastClock(run); }
      if a.ip == ip {
        AfterOwnAttempt(limit, run);
        NextConsistent(EntryOf(After(limit, front), ip), Log(limit, front, ip), limit, a);
      } else {
        AfterOtherAttempt(limit, run, ip);
      }
    }
  }

  lemma LastClock(run: seq<Attempt>)
    requires run != [] && ClockRuns(run)
    ensures 0 < Last(run).checked <= Last(run).recorded
  {
  }

  lemma {:induction false} NothingAdmitted(limit: int, run: seq<Attempt>, ip: string)
    requires limit <= 0
    ensures Log(limit, run, ip) == [] && EntryOf(After(limit, run), ip).count == 0
  {
    if run != [] {
      NothingAdmitted(limit, Front(run), ip);
      NothingAdmitted(limit, Front(run), Last(run).ip);
    }
  }

  // Any 2 * limit + 1 admitted requests of one address span more than a
  // minute: at most 2 * limit fall into any 60-second interval, ends included.
  lemma TwoWindowBound(limit: int, run: seq<Attempt>, ip: string, i: nat)
    requires limit >= 0 && ClockRuns(run)
    requires i + 2 * limit < |Log(limit, run, ip)|
    ensures Log(limit, run, ip)[i + 2 * limit].time - Log(limit, run, ip)[i].time > WINDOW
  {
    if limit == 0 {
      NothingAdmitted(limit, run, ip);
      assert false;
    } else {
      RunConsistent(limit, run, ip);
      var log := Log(limit, run, ip);
      assert log[i].window != log[i + limit].window;
      assert log[i + limit].window != log[i + limit + limit].window;
    }
  }

  // A refusal means the address has used up its limit within the last minute.
  lemma DenialIsEarned(limit: int, run: seq<Attempt>)
    requires run != [] && ClockRuns(run) && limit > 0 && !Admits(limit, run)
    ensures var log, now := Log(limit, Front(run), Last(run).ip), Last(run).checked;
      && |log| >= limit
      && forall i :: |log| - limit <= i < |log| ==> now - WINDOW < log[i].time <= now
  {
    FrontClock(run);
    LastClock(run);
    RunConsistent(limit, Front(run), Last(run).ip);
  }

  // ----- Independence of other addresses -----

  function Only(run: seq<Attempt>, ip: string): seq<Attempt> {
    if run == [] then []
    else Only(Front(run), ip) + if Last(run).ip == ip then [Last(run)] else []
  }

  // What becomes of an address depends on its own attempts alone.
  lemma {:induction false} OthersDoNotMatter(limit: int, run: seq<Attempt>, ip: string)
    ensures EntryOf(After(limit, run), ip) == EntryOf(After(limit, Only(run, ip)), ip)
    ensures run != [] && Last(run).ip == ip ==>
              Only(run, ip) != [] && Admits(limit, run) == Admits(limit, Only(run, ip))
  {
    if run != [] {
      OthersDoNotMatter(limit, Front(run), ip);
      if Last(run).ip == ip {
        var own := Only(run, ip);
        assert Front(own) == Only(Front(run), ip) && Last(own) == Last(run);
      } else {
        assert Only(run, ip) == Only(Front(run), ip);
      }
    }
  }
}

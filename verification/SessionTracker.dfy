/**
 The shared session counters and their use by concurrent connections. A login
 asks whether the user limit leaves room, then whether the host limit does, and
 then registers the session, in three locked calls; steps of other connections
 may come in between.
 */
module SessionTracker {
  import opened Sequences

  type Counter = map<string, nat>

  function Get(m: Counter, k: string): nat {
    if k in m then m[k] else 0
  }

  function Add(m: Counter, k: string): Counter {
    if k == "" then m else m[k := Get(m, k) + 1]
  }

  function Remove(m: Counter, k: string): Counter {
    if k == "" || k !in m then m
    else if m[k] <= 1 then m - {k}
    else m[k := m[k] - 1]
  }

  class Tracker {
    var countByUser: Counter
    var countByHost: Counter

    constructor ()
      ensures countByUser == map[] && countByHost == map[]
    {
      countByUser, countByHost := map[], map[];
    }

    method RegisterSession(username: string, hostname: string)
      modifies this
      ensures countByUser == Add(old(countByUser), username)
      ensures countByHost == Add(old(countByHost), hostname)
    {
      if username != "" {
        countByUser := countByUser[username := (if username in countByUser then countByUser[username] else 0) + 1];
      }
      if hostname != "" {
        countByHost := countByHost[hostname := (if hostname in countByHost then countByHost[hostname] else 0) + 1];
      }
    }

    method UnregisterSession(username: string, hostname: string)
      modifies this
      ensures countByUser == Remove(old(countByUser), username)
      ensures countByHost == Remove(old(countByHost), hostname)
    {
      if username != "" {
        if username in countByUser {
          if countByUser[username] <= 1 {
            countByUser := countByUser - {username};
          } else {
            countByUser := countByUser[username := countByUser[username] - 1];
          }
        }
      }
      if hostname != "" {
        if hostname in countByHost {
          if countByHost[hostname] <= 1 {
            countByHost := countByHost - {hostname};
          } else {
            countByHost := countByHost[hostname := countByHost[hostname] - 1];
          }
        }
      }
    }

    method GetCountForUser(username: string) returns (n: nat)
      ensures n == Get(countByUser, username)
    {
      n := if username in countByUser then countByUser[username] else 0;
    }

    method GetCountForHost(hostname: string) returns (n: nat)
      ensures n == Get(countByHost, hostname)
    {
      n := if hostname in countByHost then countByHost[hostname] else 0;
    }
  }

  // Unregistering undoes registering.
  lemma RemoveUndoesAdd(m: Counter, k: string)
    requires k in m ==> m[k] > 0
    ensures Remove(Add(m, k), k) == m
  {
    if k != "" && k !in m {
      assert m[k := 1] - {k} == m;
    }
  }

  // ----- Concurrent connections -----

  datatype Key = ByUser(name: string) | ByHost(name: string)

  // How far a login has come: not under way; past the check of the user limit;
  // past both checks, not yet registered.
  datatype Login = Idle | UserChecked | Cleared

  // `user` and `host` are the names in force now; USER and HOST replace them.
  // `regUser` and `regHost` are those of the last registration.
  datatype Conn = Conn(
    login: Login,
    registered: bool,
    closed: bool,
    user: string,
    host: string,
    regUser: string,
    regHost: string)

  datatype Server = Server(conns: map<nat, Conn>, users: Counter, hosts: Counter)

  // Limits; anything not positive means unlimited.
  datatype Limits = Limits(perUser: int, perHost: map<string, int>)

  function LimitOf(l: Limits, k: Key): int {
    match k
    case ByUser(_) => l.perUser
    case ByHost(h) => if h in l.perHost then l.perHost[h] else 0
  }

  function Count(s: Server, k: Key): nat {
    match k
    case ByUser(u) => Get(s.users, u)
    case ByHost(h) => Get(s.hosts, h)
  }

  // One atomic step of one connection.
  datatype Step =
    | Name(c: nat, user: string)
    | Select(c: nat, host: string)
    | CheckUser(c: nat)
    | CheckHost(c: nat)
    | Register(c: nat)
    | Close(c: nat)

  function ConnOf(s: Server, c: nat): Conn {
    if c in s.conns then s.conns[c] else Conn(Idle, false, false, "", "", "", "")
  }

  predicate RoomFor(l: Limits, s: Server, k: Key) {
    LimitOf(l, k) > 0 ==> Count(s, k) < LimitOf(l, k)
  }

  function Update(s: Server, c: nat, conn: Conn): Server {
    s.(conns := s.conns[c := conn])
  }

  // A login is the user check, the host check and the registration; a check
  // that finds no room ends it. A connection may log in more than once. A step
  // that does not apply leaves everything as it is.
  function Do(l: Limits, s: Server, t: Step): Server {
    var conn := ConnOf(s, t.c);
    match t
    case Name(c, user) => if conn.login.Idle? then Update(s, c, conn.(user := user)) else s
    case Select(c, host) => if conn.login.Idle? then Update(s, c, conn.(host := host)) else s
    case CheckUser(c) =>
      if conn.login.Idle? && !conn.closed && conn.user != "" && RoomFor(l, s, ByUser(conn.user))
      then Update(s, c, conn.(login := UserChecked)) else s
    case CheckHost(c) =>
      if conn.login.UserChecked?
      then Update(s, c, conn.(login := if conn.host == "" || RoomFor(l, s, ByHost(conn.host)) then Cleared else Idle))
      else s
    case Register(c) =>
      if conn.login.Cleared?
      then Update(s, c, conn.(login := Idle, registered := true, regUser := conn.user, regHost := conn.host))
           .(users := Add(s.users, conn.user), hosts := Add(s.hosts, conn.host))
      else s
    case Close(c) =>
      if !conn.login.Idle? || conn.closed then s
      else if conn.registered
      then Update(s, c, conn.(registered := false, closed := true))
           .(users := Remove(s.users, conn.user), hosts := Remove(s.hosts, conn.host))
      else Update(s, c, conn.(closed := true))
  }

  const EMPTY := Server(map[], map[], map[])

  function Exec(l: Limits, run: seq<Step>): Server {
    if run == [] then EMPTY else Do(l, Exec(l, Front(run)), Last(run))
  }

  predicate Uses(user: string, host: string, k: Key) {
    k.name != "" && match k case ByUser(u) => u == user case ByHost(h) => h == host
  }

  // A login counts as in flight for its user once the user check has passed,
  // and for its host once the host check has passed, too.
  predicate Flies(conn: Conn, k: Key) {
    Uses(conn.user, conn.host, k) && (conn.login.Cleared? || (conn.login.UserChecked? && k.ByUser?))
  }

  function InFlight(s: Server, k: Key): set<nat> {
    set c | c in s.conns && Flies(s.conns[c], k)
  }

  // The live sessions of a user or host.
  predicate Lives(conn: Conn, k: Key) {
    conn.registered && Uses(conn.regUser, conn.regHost, k)
  }

  function Live(s: Server, k: Key): set<nat> {
    set c | c in s.conns && Lives(s.conns[c], k)
  }

  lemma Without(a: set<nat>, c: nat)
    ensures |a - {c}| == (if c in a then |a| - 1 else |a|)
    ensures |(a - {c}) + {c}| == |a - {c}| + 1
  {
    if c in a {
      assert (a - {c}) + {c} == a;
    } else {
      assert a - {c} == a;
    }
  }

  // Setting one connection moves at most that connection in or out of a set;
  // the sets do not look at the counters.
  lemma InFlightAfterUpdate(s: Server, c: nat, conn: Conn, users: Counter, hosts: Counter, k: Key)
    ensures InFlight(Update(s, c, conn).(users := users, hosts := hosts), k)
         == if Flies(conn, k) then (InFlight(s, k) - {c}) + {c} else InFlight(s, k) - {c}
  {
    hide Flies;
  }

  lemma LiveAfterUpdate(s: Server, c: nat, conn: Conn, users: Counter, hosts: Counter, k: Key)
    ensures Live(Update(s, c, conn).(users := users, hosts := hosts), k)
         == if Lives(conn, k) then (Live(s, k) - {c}) + {c} else Live(s, k) - {c}
  {
    hide Lives;
  }

  lemma GetAfter(m: Counter, a: string, k: string)
    requires k != ""
    ensures Get(Add(m, a), k) == Get(m, k) + (if a == k then 1 else 0)
    ensures Get(Remove(m, a), k) == (if a == k && Get(m, k) > 0 then Get(m, k) - 1 else Get(m, k))
  {
  }

  // What registering and unregistering do to the counter of one user or host.
  lemma CountAfter(s: Server, user: string, host: string, k: Key)
    requires k.name != ""
    ensures Count(s.(users := Add(s.users, user), hosts := Add(s.hosts, host)), k)
         == Count(s, k) + (if Uses(user, host, k) then 1 else 0)
    ensures Count(s.(users := Remove(s.users, user), hosts := Remove(s.hosts, host)), k)
         == (if Uses(user, host, k) && Count(s, k) > 0 then Count(s, k) - 1 else Count(s, k))
  {
    hide Add, Remove;
    GetAfter(s.users, user, k.name);
    GetAfter(s.hosts, host, k.name);
  }

  // ----- The limit under interleaving -----

  // One step adds at most one to sessions plus logins in flight, and only when
  // a check has just found room.
  lemma StepLoad(l: Limits, s: Server, t: Step, k: Key)
    requires k.name != ""
    ensures var s' := Do(l, s, t);
            var load, load' := Count(s, k) + |InFlight(s, k)|, Count(s', k) + |InFlight(s', k)|;
      && load' <= load + 1
      && (load' > load ==> RoomFor(l, s, k) && Count(s', k) == Count(s, k))
  {
    hide InFlight, Add, Remove, Get;
    var conn, s' := ConnOf(s, t.c), Do(l, s, t);
    if s' != s {
      CountAfter(s, conn.user, conn.host, k);
      InFlightAfterUpdate(s, t.c, s'.conns[t.c], s'.users, s'.hosts, k);
      Without(InFlight(s, k), t.c);
      FliesInFlight(s, t.c, k);
    }
  }

  lemma FliesInFlight(s: Server, c: nat, k: Key)
    ensures c in InFlight(s, k) <==> Flies(ConnOf(s, c), k)
  {
  }

  lemma RegisteredIsLive(s: Server, c: nat, k: Key)
    ensures c in Live(s, k) <==> Lives(ConnOf(s, c), k)
  {
  }

  // With at most `n` logins of a user or host in flight at any time the number
  // of its sessions stays below limit + n; with atomic logins (n == 1) it never
  // exceeds the limit. Connections may log in repeatedly.
  lemma {:induction false} LimitUnderInterleaving(l: Limits, run: seq<Step>, k: Key, n: nat)
    requires k.name != "" && LimitOf(l, k) > 0
    requires forall i :: 0 <= i <= |run| ==> |InFlight(Exec(l, run[..i]), k)| <= n
    ensures Count(Exec(l, run), k) + |InFlight(Exec(l, run), k)| <= LimitOf(l, k) - 1 + n
  {
    assert run[..|run|] == run;
    if run != [] {
      var front := Front(run);
      forall i | 0 <= i <= |front| ensures |InFlight(Exec(l, front[..i]), k)| <= n {
        assert front[..i] == run[..i];
      }
      LimitUnderInterleaving(l, front, k, n);
      StepLoad(l, Exec(l, front), Last(run), k);
    }
  }

  // ----- Counting live sessions -----

  ghost predicate Exact(s: Server) {
    forall k: Key :: k.name != "" ==> Count(s, k) == |Live(s, k)|
  }

  // Between registering and closing nobody changes name or host or registers
  // once more.
  predicate Steady(s: Server, t: Step) {
    (t.Name? || t.Select? || t.Register?) ==> !ConnOf(s, t.c).registered
  }

  predicate NamesKeptBy(conn: Conn) {
    conn.registered ==> conn.user == conn.regUser && conn.host == conn.regHost
  }

  predicate NamesKept(s: Server) {
    forall c :: c in s.conns ==> NamesKeptBy(s.conns[c])
  }

  lemma StepExactFor(l: Limits, s: Server, t: Step, k: Key)
    requires k.name != "" && Count(s, k) == |Live(s, k)| && NamesKeptBy(ConnOf(s, t.c)) && Steady(s, t)
    ensures Count(Do(l, s, t), k) == |Live(Do(l, s, t), k)|
  {
    hide Live, Add, Remove, Get, RoomFor, Uses;
    var conn, s' := ConnOf(s, t.c), Do(l, s, t);
    if s' != s {
      CountAfter(s, conn.user, conn.host, k);
      LiveAfterUpdate(s, t.c, s'.conns[t.c], s'.users, s'.hosts, k);
      Without(Live(s, k), t.c);
      RegisteredIsLive(s, t.c, k);
    }
  }

  lemma StepNamesKept(l: Limits, s: Server, t: Step)
    requires NamesKept(s) && Steady(s, t)
    ensures NamesKept(Do(l, s, t))
  {
    hide Add, Remove, RoomFor;
  }

  lemma StepExact(l: Limits, s: Server, t: Step)
    requires Exact(s) && NamesKept(s) && Steady(s, t)
    ensures Exact(Do(l, s, t))
  {
    hide Do, Live, Count, Steady;
    forall k: Key | k.name != "" ensures Count(Do(l, s, t), k) == |Live(Do(l, s, t), k)| {
      StepExactFor(l, s, t, k);
    }
  }

  lemma EmptyExact()
    ensures Exact(EMPTY) && NamesKept(EMPTY)
  {
    forall k: Key | k.name != "" ensures Count(EMPTY, k) == |Live(EMPTY, k)| {
      assert Live(EMPTY, k) == {};
    }
  }

  // While every connection logs in once and keeps name and host, each counter
  // is the number of live sessions of its user or host, whatever the
  // interleaving.
  lemma {:induction false} RunExact(l: Limits, run: seq<Step>)
    requires forall i :: 0 <= i < |run| ==> Steady(Exec(l, run[..i]), run[i])
    ensures Exact(Exec(l, run)) && NamesKept(Exec(l, run))
  {
    hide Do, Exact, NamesKept, Steady;
    if run == [] {
      EmptyExact();
    } else {
      var front := Front(run);
      forall i | 0 <= i < |front| ensures Steady(Exec(l, front[..i]), front[i]) {
        assert front[..i] == run[..i];
      }
      RunExact(l, front);
      assert run[..|run| - 1] == front;
      StepExact(l, Exec(l, front), Last(run));
      StepNamesKept(l, Exec(l, front), Last(run));
    }
  }

  // ----- Repeated logins -----

  // A registration on a connection that is registered already: the older one
  // stays counted for good.
  function Leak(s: Server, t: Step, k: Key): nat {
    var conn := ConnOf(s, t.c);
    if t.Register? && conn.login.Cleared? && Lives(conn, k) then 1 else 0
  }

  function Leaks(l: Limits, run: seq<Step>, k: Key): nat {
    if run == [] then 0 else Leaks(l, Front(run), k) + Leak(Exec(l, Front(run)), Last(run), k)
  }

  // Whoever closes a session does so under the names last registered.
  predicate ClosesAsRegistered(s: Server, t: Step) {
    t.Close? ==> NamesKeptBy(ConnOf(s, t.c))
  }

  lemma StepLeaks(l: Limits, s: Server, t: Step, k: Key, n: nat)
    requires k.name != "" && Count(s, k) == |Live(s, k)| + n && ClosesAsRegistered(s, t)
    ensures Count(Do(l, s, t), k) == |Live(Do(l, s, t), k)| + n + Leak(s, t, k)
  {
    hide Live, Add, Remove, Get, RoomFor, Uses;
    var conn, s' := ConnOf(s, t.c), Do(l, s, t);
    if s' != s {
      CountAfter(s, conn.user, conn.host, k);
      LiveAfterUpdate(s, t.c, s'.conns[t.c], s'.users, s'.hosts, k);
      Without(Live(s, k), t.c);
      RegisteredIsLive(s, t.c, k);
    }
  }

  // In every run, with any number of logins on each connection, a counter
  // exceeds its live sessions by exactly the registrations that a later one on
  // the same connection has replaced.
  lemma {:induction false} RunLeaks(l: Limits, run: seq<Step>, k: Key)
    requires k.name != ""
    requires forall i :: 0 <= i < |run| ==> ClosesAsRegistered(Exec(l, run[..i]), run[i])
    ensures Count(Exec(l, run), k) == |Live(Exec(l, run), k)| + Leaks(l, run, k)
  {
    hide Do, ClosesAsRegistered, Leak, Live;
    if run == [] {
      EmptyExact();
    } else {
      var front := Front(run);
      forall i | 0 <= i < |front| ensures ClosesAsRegistered(Exec(l, front[..i]), front[i]) {
        assert front[..i] == run[..i];
      }
      RunLeaks(l, front, k);
      assert run[..|run| - 1] == front;
      StepLeaks(l, Exec(l, front), Last(run), k, Leaks(l, front, k));
    }
  }

  // One connection that logs in n times as the same user.
  function Logins(c: nat, user: string, n: nat): seq<Step> {
    if n == 0 then [Name(c, user)] else Logins(c, user, n - 1) + [CheckUser(c), CheckHost(c), Register(c)]
  }

  lemma ExecMore(l: Limits, run: seq<Step>, t: Step)
    ensures Exec(l, run + [t]) == Do(l, Exec(l, run), t)
  {
    assert Front(run + [t]) == run;
  }

  // The state it leads to, when no limit stops it.
  function AfterLogins(c: nat, user: string, n: nat): Server {
    if n == 0 then Server(map[c := Conn(Idle, false, false, user, "", "", "")], map[], map[])
    else Server(map[c := Conn(Idle, true, false, user, "", user, "")], map[user := n], map[])
  }

  lemma OneMoreLogin(l: Limits, c: nat, user: string, n: nat)
    requires user != "" && l.perUser <= 0
    ensures Do(l, Do(l, Do(l, AfterLogins(c, user, n), CheckUser(c)), CheckHost(c)), Register(c))
         == AfterLogins(c, user, n + 1)
  {
    var s := AfterLogins(c, user, n);
    var conn := s.conns[c];
    var s1 := Do(l, s, CheckUser(c));
    assert s1 == Update(s, c, conn.(login := UserChecked));
    var s2 := Do(l, s1, CheckHost(c));
    assert s2 == Update(s1, c, conn.(login := Cleared));
    assert Add(s.users, user) == map[user := n + 1];
  }

  lemma ExecLogin(l: Limits, run: seq<Step>, c: nat)
    ensures Exec(l, run + [CheckUser(c), CheckHost(c), Register(c)])
         == Do(l, Do(l, Do(l, Exec(l, run), CheckUser(c)), CheckHost(c)), Register(c))
  {
    hide Do, Exec;
    ExecMore(l, run, CheckUser(c));
    ExecMore(l, run + [CheckUser(c)], CheckHost(c));
    ExecMore(l, run + [CheckUser(c)] + [CheckHost(c)], Register(c));
    assert run + [CheckUser(c)] + [CheckHost(c)] + [Register(c)] == run + [CheckUser(c), CheckHost(c), Register(c)];
  }

  lemma FirstName(l: Limits, c: nat, user: string)
    ensures Exec(l, [Name(c, user)]) == AfterLogins(c, user, 0)
  {
    hide Add, Remove, Get, RoomFor;
    assert Front([Name(c, user)]) == [];
  }

  lemma {:induction false} RepeatedLogins(l: Limits, c: nat, user: string, n: nat)
    requires user != "" && l.perUser <= 0
    ensures Exec(l, Logins(c, user, n)) == AfterLogins(c, user, n)
  {
    if n == 0 {
      FirstName(l, c, user);
    } else {
      hide Do, AfterLogins, Exec;
      RepeatedLogins(l, c, user, n - 1);
      ExecLogin(l, Logins(c, user, n - 1), c);
      OneMoreLogin(l, c, user, n - 1);
    }
  }

  // So n logins on one connection count n for one live session, and closing it
  // leaves n - 1 for none.
  lemma RepeatedLoginsLeak(l: Limits, c: nat, user: string, n: nat)
    requires user != "" && l.perUser <= 0 && n > 0
    ensures var s := Exec(l, Logins(c, user, n));
      && Count(s, ByUser(user)) == n && Live(s, ByUser(user)) == {c}
      && Count(Do(l, s, Close(c)), ByUser(user)) == n - 1 && Live(Do(l, s, Close(c)), ByUser(user)) == {}
  {
    hide Exec;
    RepeatedLogins(l, c, user, n);
  }

  // A session to close, with no further login under way.
  predicate Closable(conn: Conn) {
    conn.registered && !conn.closed && conn.login.Idle?
  }

  predicate ClosesCleanly(s: Server, conn: Conn) {
    && conn.user == conn.regUser
    && (conn.host == conn.regHost || (conn.regHost == "" && Get(s.hosts, conn.host) == 0))
  }

  lemma CountOfHost(s: Server, h: string)
    ensures Count(s, ByHost(h)) == Get(s.hosts, h)
  {
  }

  lemma CloseFor(l: Limits, s: Server, c: nat, k: Key)
    requires k.name != "" && Count(s, k) == |Live(s, k)| && Closable(ConnOf(s, c))
    ensures var conn, s' := ConnOf(s, c), Do(l, s, Close(c));
      Count(s', k) == |Live(s', k)| <==>
        (Uses(conn.user, conn.host, k) && Count(s, k) > 0 <==> Uses(conn.regUser, conn.regHost, k))
  {
    hide Live, Uses, Add, Remove, Get, RoomFor;
    var conn, s' := ConnOf(s, c), Do(l, s, Close(c));
    CountAfter(s, conn.user, conn.host, k);
    LiveAfterUpdate(s, c, s'.conns[c], s'.users, s'.hosts, k);
    Without(Live(s, k), c);
    RegisteredIsLive(s, c, k);
  }

  lemma UsesBoth(conn: Conn)
    requires conn.regUser != ""
    ensures Uses(conn.regUser, conn.regHost, ByUser(conn.regUser))
    ensures Uses(conn.user, conn.host, ByUser(conn.regUser)) <==> conn.user == conn.regUser
    ensures Uses(conn.regUser, conn.regHost, ByHost(conn.regHost)) <==> conn.regHost != ""
    ensures conn.regHost != "" ==>
              (Uses(conn.user, conn.host, ByHost(conn.regHost)) <==> conn.host == conn.regHost)
    ensures conn.host != "" ==> Uses(conn.user, conn.host, ByHost(conn.host))
    ensures conn.host != conn.regHost ==> !Uses(conn.regUser, conn.regHost, ByHost(conn.host))
  {
  }

  lemma SameUses(s: Server, conn: Conn, k: Key)
    requires ClosesCleanly(s, conn) && k.name != ""
    requires Uses(conn.regUser, conn.regHost, k) ==> Count(s, k) > 0
    ensures Uses(conn.user, conn.host, k) && Count(s, k) > 0 <==> Uses(conn.regUser, conn.regHost, k)
  {
  }

  // Closing uses the names in force now, not those the session registered
  // under. The counters stay exact if and only if the user name is the same
  // and so is the host (or neither the old nor the new host has a counter).
  lemma CloseExactly(l: Limits, s: Server, c: nat)
    requires Exact(s) && c in s.conns && Closable(s.conns[c]) && s.conns[c].regUser != ""
    ensures Exact(Do(l, s, Close(c))) <==> ClosesCleanly(s, s.conns[c])
  {
    hide Live, Uses, Add, Remove, Get, Do, Count;
    var conn, s' := s.conns[c], Do(l, s, Close(c));
    forall k: Key | k.name != ""
      ensures Count(s', k) == |Live(s', k)| <==>
                (Uses(conn.user, conn.host, k) && Count(s, k) > 0 <==> Uses(conn.regUser, conn.regHost, k))
    {
      CloseFor(l, s, c, k);
    }
    UsesBoth(conn);
    var user, host, other := ByUser(conn.regUser), ByHost(conn.regHost), ByHost(conn.host);
    RegisteredIsLive(s, c, user);
    RegisteredIsLive(s, c, host);
    assert Count(s, other) == Get(s.hosts, conn.host) by { CountOfHost(s, conn.host); }
    if ClosesCleanly(s, conn) {
      forall k: Key | k.name != "" ensures Count(s', k) == |Live(s', k)| {
        RegisteredIsLive(s, c, k);
        SameUses(s, conn, k);
      }
    }
  }
}

/**
 Who gets in: when PASS succeeds, what the session then is, and what every
 logged-in session has shown.
 */
module Login {
  import opened Text
  import opened Accounts
  import opened Disk
  import opened Session

  // The accounts in force: those of the virtual host, if it has its own.
  function Table(cfg: Config, s: State): map<string, User> {
    if s.host.Some? && s.host.value.users.Some? then s.host.value.users.value else cfg.users
  }

  // A known account that has not run out, with the right password.
  predicate Known(cfg: Config, s: State, ans: Answers) {
    && s.username in Table(cfg, s)
    && (Table(cfg, s)[s.username].expiresAt <= 0 || ans.now <= Table(cfg, s)[s.username].expiresAt)
    && ans.credentialOk
  }

  // Neither limit is set and reached.
  predicate HasRoom(cfg: Config, s: State, ans: Answers) {
    cfg.tracksSessions ==>
      && (cfg.maxSessionsPerUser > 0 ==> ans.userSessions < cfg.maxSessionsPerUser)
      && (s.host.Some? && s.host.value.maxSessions > 0 ==> ans.hostSessions < s.host.value.maxSessions)
  }

  // PASS is answered 230 exactly when a name was given, that name has shown to
  // be known or PAM vouches for it, and there is room. Without a name it is
  // answered 503, and 530 otherwise.
  lemma PassSucceedsExactly(cfg: Config, s: State, d: Tree, password: string, ans: Answers)
    ensures var o := Step(cfg, s, d, PASS(password), ans);
      && (o.reply == Code(230) <==>
            s.username != "" && (Known(cfg, s, ans) || ans.pam.Accepted?) && HasRoom(cfg, s, ans))
      && (o.reply == Code(503) <==> s.username == "")
      && o.reply in {Code(230), Code(503), Code(530)} && o.d == d
  {
    hide DoWrite;
  }

  // A success makes the session that account's, in its home; any other outcome
  // logs nobody in and moves nothing.
  lemma PassEffect(cfg: Config, s: State, d: Tree, password: string, ans: Answers)
    ensures var o := Step(cfg, s, d, PASS(password), ans);
      if o.reply == Code(230) then
        && o.s.authenticated && o.s.user.Some? && o.s.directory == o.s.user.value.home
        && o.s.registered == (cfg.tracksSessions || s.registered)
        && (Known(cfg, s, ans) ==> o.s.user == Some(Table(cfg, s)[s.username]))
        && (!Known(cfg, s, ans) ==>
              && o.s.user.value.username == s.username && o.s.user.value.permissions == []
              && o.s.user.value.quota == 0)
      else
        o.s.authenticated == s.authenticated && o.s.directory == s.directory && o.s.registered == s.registered
  {
    hide DoWrite;
  }

  // Whoever only PAM vouches for gets the first of these homes that there is: the
  // one of the system, of the account of that name, of the configuration.
  lemma PamLoginHome(cfg: Config, s: State, d: Tree, password: string, ans: Answers)
    requires Step(cfg, s, d, PASS(password), ans).reply == Code(230) && !Known(cfg, s, ans)
    ensures var home := Step(cfg, s, d, PASS(password), ans).s.directory;
      && (ans.pam.home != "" ==> home == ans.pam.home)
      && (ans.pam.home == "" && s.username in Table(cfg, s) ==> home == Table(cfg, s)[s.username].home)
      && (ans.pam.home == "" && s.username !in Table(cfg, s) && cfg.fallbackHome != "" ==> home == cfg.fallbackHome)
      && (ans.pam.home == "" && s.username !in Table(cfg, s) && cfg.fallbackHome == "" ==> home == "/tmp")
  {
    hide DoWrite;
  }

  // USER takes the name and ends any login.
  lemma UserEffect(cfg: Config, s: State, d: Tree, name: string, ans: Answers)
    ensures Step(cfg, s, d, USER(name), ans).s == s.(username := name, authenticated := false)
  {
    hide DoWrite;
  }

  // HOST selects exactly an enabled host of that name.
  lemma HostEffect(cfg: Config, s: State, d: Tree, name: string, ans: Answers)
    ensures var o := Step(cfg, s, d, HOST(name), ans);
      && (o.reply == Code(220) <==>
            name != "" && cfg.hosts.Some? && name in cfg.hosts.value && cfg.hosts.value[name].enabled)
      && o.s == if o.reply == Code(220) then s.(host := Some(cfg.hosts.value[name])) else s
  {
    hide DoWrite;
  }

  // ----- Whole runs -----

  // How many of the events are served before the session ends.
  function Served(cfg: Config, w: World, events: seq<Event>): (n: nat)
    ensures n <= |events|
    decreases |events|
  {
    if events == [] || !w.s.active then 0
    else
      var o := Step(cfg, w.s, w.d, events[0].cmd, events[0].ans);
      1 + Served(cfg, World(o.s, o.d), events[1..])
  }

  // The i-th event is a PASS whose password is right or which PAM accepts.
  predicate Vouched(events: seq<Event>, i: nat)
    requires i < |events|
  {
    events[i].cmd.PASS? && (events[i].ans.credentialOk || events[i].ans.pam.Accepted?)
  }

  // A PASS that counts, with no USER served after it.
  ghost predicate Earned(events: seq<Event>, served: nat)
    requires served <= |events|
  {
    exists i :: 0 <= i < served && Vouched(events, i) && forall j :: i < j < served ==> !events[j].cmd.USER?
  }

  lemma StepLogin(cfg: Config, s: State, d: Tree, e: Event)
    ensures Step(cfg, s, d, e.cmd, e.ans).s.authenticated ==>
      || (s.authenticated && !e.cmd.USER?)
      || (e.cmd.PASS? && (e.ans.credentialOk || e.ans.pam.Accepted?))
  {
    hide Step;
    StepFrame(cfg, s, d, e.cmd, e.ans);
    if e.cmd.USER? {
      UserEffect(cfg, s, d, e.cmd.name, e.ans);
    } else if e.cmd.PASS? {
      PassSucceedsExactly(cfg, s, d, e.cmd.password, e.ans);
      PassEffect(cfg, s, d, e.cmd.password, e.ans);
    }
  }

  lemma {:induction false} LoginIsEarnedFrom(cfg: Config, w: World, events: seq<Event>)
    requires Run(cfg, w, events).s.authenticated
    ensures var n := Served(cfg, w, events);
      Earned(events, n) || (w.s.authenticated && forall j :: 0 <= j < n ==> !events[j].cmd.USER?)
    decreases |events|
  {
    hide Step;
    if events != [] && w.s.active {
      var e := events[0];
      var o := Step(cfg, w.s, w.d, e.cmd, e.ans);
      var rest, n := events[1..], Served(cfg, World(o.s, o.d), events[1..]);
      StepLogin(cfg, w.s, w.d, e);
      LoginIsEarnedFrom(cfg, World(o.s, o.d), rest);
      if Earned(rest, n) {
        var i :| 0 <= i < n && Vouched(rest, i) && forall j :: i < j < n ==> !rest[j].cmd.USER?;
        assert Vouched(events, i + 1);
        assert forall j :: i + 1 < j < n + 1 ==> events[j] == rest[j - 1];
      } else {
        assert forall j :: 1 <= j < n + 1 ==> events[j] == rest[j - 1];
        if e.cmd.PASS? && (e.ans.credentialOk || e.ans.pam.Accepted?) {
          assert Vouched(events, 0);
        }
      }
    }
  }

  // In every run from the start, a session that is logged in at the end has been
  // served a PASS with the right password, or one that PAM accepted, and no USER
  // since.
  lemma LoginIsEarned(cfg: Config, d: Tree, events: seq<Event>)
    requires Run(cfg, World(INITIAL, d), events).s.authenticated
    ensures Earned(events, Served(cfg, World(INITIAL, d), events))
  {
    LoginIsEarnedFrom(cfg, World(INITIAL, d), events);
  }
}

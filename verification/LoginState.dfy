/**
 The login state over whole runs: who is logged in, where the working
 directory lies, and how CDUP walks up to the home directory and no further.
 */
module LoginState {
  import opened Sequences
  import opened Text
  import opened Paths
  import opened Accounts
  import opened Disk
  import opened Session
  import opened Runs

  // A logged-in session has a user, and its directory is under that user's home.
  predicate AtHome(s: State) {
    s.authenticated ==> s.user.Some? && WithinHome(s, s.directory)
  }

  // Inductive form: that user is still the one the name resolves to.
  predicate Settled(cfg: Config, s: State) {
    AtHome(s) && (s.authenticated ==> s.user == Lookup(cfg, s.host, s.username))
  }

  // HOST comes before login, and PAM vouches for nobody.
  predicate Orderly(s: State, e: Event) {
    && (e.cmd.HOST? ==> !s.authenticated)
    && (e.cmd.PASS? ==> !e.ans.pam.Accepted?)
  }

  predicate OrderlyRun(cfg: Config, w: World, events: seq<Event>)
    decreases |events|
  {
    if events == [] || !w.s.active then true
    else
      var o := Step(cfg, w.s, w.d, events[0].cmd, events[0].ans);
      Orderly(w.s, events[0]) && OrderlyRun(cfg, World(o.s, o.d), events[1..])
  }

  lemma PassSettled(cfg: Config, s: State, d: Tree, password: string, ans: Answers)
    requires Settled(cfg, s) && !ans.pam.Accepted?
    ensures Settled(cfg, DoPass(cfg, s, d, password, ans).s)
  {
    hide Norm, Lookup;
  }

  lemma CwdSettled(cfg: Config, s: State, d: Tree, arg: string, ans: Answers)
    requires Settled(cfg, s)
    ensures Settled(cfg, DoCwd(s, d, arg, ans).s) && Settled(cfg, DoCdup(s, d, ans).s)
  {
    hide Norm, Resolve, Lookup;
  }

  lemma StepSettled(cfg: Config, s: State, d: Tree, e: Event)
    requires Settled(cfg, s) && Orderly(s, e)
    ensures Settled(cfg, Step(cfg, s, d, e.cmd, e.ans).s)
  {
    hide DoWrite, DoPass, DoCwd, DoCdup, DoList, DoMlsd, DoSize, DoPasv, DoEpsv, DoPort, DoEprt, DoMode, DoRest;
    hide DoRetr, DoRnfr, Norm, Lookup;
    StepFrame(cfg, s, d, e.cmd, e.ans);
    match e.cmd
    case PASS(password) => PassSettled(cfg, s, d, password, e.ans);
    case CWD(arg) => CwdSettled(cfg, s, d, arg, e.ans);
    case CDUP => CwdSettled(cfg, s, d, "..", e.ans);
    case _ =>
  }

  // In every orderly run a logged-in session has a user and a working
  // directory under that user's home.
  lemma {:induction false} RunSettled(cfg: Config, w: World, events: seq<Event>)
    requires Settled(cfg, w.s) && OrderlyRun(cfg, w, events)
    ensures Settled(cfg, Run(cfg, w, events).s)
    decreases |events|
  {
    if events != [] && w.s.active {
      var o := Step(cfg, w.s, w.d, events[0].cmd, events[0].ans);
      StepSettled(cfg, w.s, w.d, events[0]);
      RunSettled(cfg, World(o.s, o.d), events[1..]);
    }
  }

  // Why HOST has to come first. A HOST accepted after login followed by a
  // refused PASS, be it for the password or for a session limit, swaps the user
  // without ending the login: the session stays at home exactly when the new
  // host knows the name, with a home that holds the current directory.
  lemma HostAfterLogin(cfg: Config, s: State, d: Tree, name: string, password: string, ans: Answers)
    requires s.authenticated && s.username != ""
    requires DoHost(cfg, s, d, name).reply == Code(220)
    requires !ans.pam.Accepted?
    requires DoPass(cfg, DoHost(cfg, s, d, name).s, d, password, ans).reply == Code(530)
    ensures var h := DoHost(cfg, s, d, name).s;
            var after := DoPass(cfg, h, d, password, ans).s;
            var found := Lookup(cfg, h.host, s.username);
      && after.authenticated && after.user == found
      && (AtHome(after) <==> found.Some? && Within(Norm(s.directory), Norm(found.value.home)))
  {
    hide Norm, Lookup;
  }

  // A run in which that leaves a logged-in session without any user.
  lemma LoggedInWithoutUser(cfg: Config, d: Tree, right: Answers, wrong: Answers)
    requires cfg.users == map["u" := NewUser("u", "", "/u")] && !cfg.tracksSessions
    requires cfg.hosts == Some(map["h" := VirtualHost("h", "", true, Some(map[]), 0, 0)])
    requires right.credentialOk && !wrong.credentialOk && !wrong.pam.Accepted?
    ensures var last := Run(cfg, World(INITIAL, d),
                            [Event(USER("u"), right), Event(PASS("p"), right),
                             Event(HOST("h"), right), Event(PASS("q"), wrong)]);
            last.s.authenticated && last.s.user == None && !AtHome(last.s)
  {
    hide Norm, Run, Step;
    var e0, e1 := Event(USER("u"), right), Event(PASS("p"), right);
    var e2, e3 := Event(HOST("h"), right), Event(PASS("q"), wrong);
    var u := NewUser("u", "", "/u");
    var h := VirtualHost("h", "", true, Some(map[]), 0, 0);
    var s1 := INITIAL.(username := "u");
    var s2 := s1.(user := Some(u), authenticated := true, directory := "/u");
    var s3 := s2.(host := Some(h));
    var s4 := s3.(user := None);
    LoginSteps(cfg, INITIAL, d, "u", u, right);
    OneStep(cfg, World(INITIAL, d), e0, World(s1, d), [e1, e2, e3]);
    OneStep(cfg, World(s1, d), e1, World(s2, d), [e2, e3]);
    OneStep(cfg, World(s2, d), e2, World(s3, d), [e3]) by { HostStep(cfg, s2, d, "h", h, right); }
    OneStep(cfg, World(s3, d), e3, World(s4, d), []) by { FailedPassStep(cfg, s3, d, wrong); }
    assert [e0] + [e1, e2, e3] == [e0, e1, e2, e3] && [e1] + [e2, e3] == [e1, e2, e3] && [e2] + [e3] == [e2, e3];
    assert [e3] + [] == [e3];
    RunEmpty(cfg, World(s4, d));
  }

  // ----- CDUP -----

  lemma DotDot()
    ensures Components("..") == [".."] && !IsAbsolute("..")
  {
    ComponentsOfRender([".."]);
    assert Render([".."]) == "..";
  }

  // The parent of the working directory, once it is below the root.
  lemma ParentPath(s: State)
    requires |Norm(s.directory)| > 1 && IsAbsoluteNormal(Norm(s.directory))
    ensures Norm(Resolve(s, "..")) == Front(Norm(s.directory))
  {
    hide Components, Render, IsAbsolute;
    DotDot();
    var p := Components(s.directory) + [".."];
    assert Candidate(s, "..") == p;
    assert Front(p) == Components(s.directory);
    var kept := Fold(Components(s.directory));
    assert kept == Norm(s.directory);
    assert Fold(p) == Push(kept, "..") == Front(kept);
    NormOfRender(p);
  }

  // A session in a home below the root, without a virtual host root.
  predicate InPlainHome(s: State) {
    && s.authenticated && s.active && s.user.Some?
    && (s.host.Some? ==> s.host.value.root == "")
    && IsAbsoluteNormal(Norm(s.user.value.home)) && |Norm(s.user.value.home)| > 1
    && IsAbsoluteNormal(Norm(s.directory))
    && Within(Norm(s.directory), Norm(s.user.value.home))
  }

  // The system can tell that the path is a directory.
  predicate KnownDirectory(d: Tree, q: Path, ans: Answers) {
    IsDirectory(d, q) && q !in ans.unseen
  }

  // At home CDUP is refused and nothing changes; anywhere below it moves one
  // level up, provided the parent is a directory.
  lemma CdupStep(s: State, d: Tree, ans: Answers)
    requires InPlainHome(s)
    ensures var o := DoCdup(s, d, ans);
            var here, home := Norm(s.directory), Norm(s.user.value.home);
      && o.d == d
      && (here == home ==> o.s == s && o.reply == Code(550))
      && (here != home && !KnownDirectory(d, Front(here), ans) ==> o.s == s && o.reply == Code(550))
      && (here != home && KnownDirectory(d, Front(here), ans) ==>
            && o.reply == Code(250)
            && o.s == s.(directory := o.s.directory)
            && Norm(o.s.directory) == Front(here)
            && InPlainHome(o.s))
  {
    hide Norm, Resolve, IsPlain;
    ParentPath(s);
    var here, home := Norm(s.directory), Norm(s.user.value.home);
    if here == home {
      assert |Front(here)| < |home|;
    } else {
      assert Within(Front(here), home);
    }
  }

  function Cdups(n: nat, ans: Answers): seq<Event> {
    seq(n, _ => Event(CDUP, ans))
  }

  lemma CdupIsServed(cfg: Config, s: State, d: Tree, ans: Answers)
    requires s.authenticated
    ensures Step(cfg, s, d, CDUP, ans) == DoCdup(s, d, ans)
  {
    hide DoCdup, DoWrite;
  }

  lemma CdupsUnfold(cfg: Config, w: World, n: nat, ans: Answers)
    requires w.s.authenticated && w.s.active && n > 0
    ensures var o := DoCdup(w.s, w.d, ans);
            Run(cfg, w, Cdups(n, ans)) == Run(cfg, World(o.s, o.d), Cdups(n - 1, ans))
  {
    CdupIsServed(cfg, w.s, w.d, ans);
    hide Step, DoCdup;
    var e := Cdups(n, ans);
    assert e[0] == Event(CDUP, ans) && e[1..] == Cdups(n - 1, ans);
  }

  predicate PlainlyAtHome(s: State) {
    InPlainHome(s) && Norm(s.directory) == Norm(s.user.value.home)
  }

  lemma CdupAtHome(s: State, d: Tree, ans: Answers)
    requires PlainlyAtHome(s)
    ensures DoCdup(s, d, ans).s == s && DoCdup(s, d, ans).d == d
    ensures s.authenticated && s.active
  {
    hide Norm, DoCdup;
    CdupStep(s, d, ans);
  }

  lemma {:induction false} CdupsAtHome(cfg: Config, w: World, n: nat, ans: Answers)
    requires PlainlyAtHome(w.s)
    ensures Run(cfg, w, Cdups(n, ans)) == w
  {
    hide Norm, Run, DoCdup, PlainlyAtHome;
    if n == 0 {
      assert Cdups(n, ans) == [];
      RunEmpty(cfg, w);
    } else {
      CdupAtHome(w.s, w.d, ans);
      CdupsUnfold(cfg, w, n, ans);
      CdupsAtHome(cfg, w, n - 1, ans);
    }
  }

  // How far up `n` steps lead from `depth` when `floor` is the last level.
  function Level(depth: nat, floor: nat, n: nat): (level: nat)
    requires floor <= depth
    ensures floor <= level <= depth
  {
    if depth - n > floor then depth - n else floor
  }

  lemma TakeOfFront(p: Path)
    requires p != []
    ensures forall k :: 0 <= k < |p| ==> Front(p)[..k] == p[..k]
  {
  }

  // Repeated CDUP goes up one level at a time, reaches home after as many
  // steps as there are levels, and stays there for good.
  lemma {:induction false} CdupsReachHome(cfg: Config, w: World, n: nat, ans: Answers)
    requires InPlainHome(w.s)
    requires forall k :: |Norm(w.s.user.value.home)| <= k < |Norm(w.s.directory)| ==>
               KnownDirectory(w.d, Norm(w.s.directory)[..k], ans)
    ensures var last := Run(cfg, w, Cdups(n, ans));
            var here, home := Norm(w.s.directory), Norm(w.s.user.value.home);
      && last.d == w.d
      && Norm(last.s.directory) == here[..Level(|here|, |home|, n)]
      && last.s == w.s.(directory := last.s.directory)
    decreases n
  {
    hide Norm, Run, DoCdup;
    var here, home := Norm(w.s.directory), Norm(w.s.user.value.home);
    if here == home {
      CdupsAtHome(cfg, w, n, ans);
    } else if n == 0 {
      assert Cdups(n, ans) == [];
      RunEmpty(cfg, w);
    } else {
      CdupsUnfold(cfg, w, n, ans);
      CdupStep(w.s, w.d, ans);
      TakeOfFront(here);
      assert KnownDirectory(w.d, here[..|here| - 1], ans);
      var o := DoCdup(w.s, w.d, ans);
      CdupsReachHome(cfg, World(o.s, o.d), n - 1, ans);
      assert Level(|here| - 1, |home|, n - 1) == Level(|here|, |home|, n);
    }
  }
}

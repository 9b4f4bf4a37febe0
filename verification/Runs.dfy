/**
 Unfolding a run one command at a time, for the runs written out in full.
 */
module Runs {
  import opened Text
  import opened Paths
  import opened Accounts
  import opened Disk
  import opened Session

  lemma RunEmpty(cfg: Config, w: World)
    ensures Run(cfg, w, []) == w
  {
    hide Step;
  }

  lemma OneStep(cfg: Config, w: World, e: Event, next: World, rest: seq<Event>)
    requires w.s.active
    requires Step(cfg, w.s, w.d, e.cmd, e.ans).s == next.s && Step(cfg, w.s, w.d, e.cmd, e.ans).d == next.d
    ensures Run(cfg, w, [e] + rest) == Run(cfg, next, rest)
  {
    hide Step;
    assert ([e] + rest)[1..] == rest;
  }

  lemma LoginSteps(cfg: Config, s: State, d: Tree, name: string, u: User, ans: Answers)
    requires name != "" && Lookup(cfg, s.host, name) == Some(u) && !Expired(u, ans.now)
    requires ans.credentialOk && !cfg.tracksSessions
    ensures var s1 := s.(username := name, authenticated := false);
            var s2 := s1.(user := Some(u), authenticated := true, directory := u.home);
      && Step(cfg, s, d, USER(name), ans) == Say(s1, d, 331)
      && forall password :: Step(cfg, s1, d, PASS(password), ans) == Say(s2, d, 230)
  {
    hide Norm, DoWrite, Lookup;
  }

  lemma HostStep(cfg: Config, s: State, d: Tree, name: string, h: VirtualHost, ans: Answers)
    requires name != "" && h.enabled && cfg.hosts == Some(map[name := h])
    ensures Step(cfg, s, d, HOST(name), ans) == Say(s.(host := Some(h)), d, 220)
  {
    hide Norm, DoWrite;
  }

  lemma FailedPassStep(cfg: Config, s: State, d: Tree, ans: Answers)
    requires s.username != "" && Lookup(cfg, s.host, s.username) == None
    requires !ans.credentialOk && !ans.pam.Accepted?
    ensures forall password :: Step(cfg, s, d, PASS(password), ans) == Say(s.(user := None), d, 530)
  {
    hide Norm, DoWrite, Lookup;
  }
}

/**
 What a session can do to the file system: which nodes a command may change,
 how those lie to the home directory and the virtual host root, and what no
 run of commands can ever touch.
 */
module Confinement {
  import opened Sequences
  import opened Text
  import opened Paths
  import opened Accounts
  import opened Disk
  import opened Session
  import opened Runs

  // The path a command sets out to change, as text.
  function WriteTarget(s: State, d: Tree, cmd: Command, ans: Answers): Option<string> {
    match cmd
    case STOR(arg) => Some(Resolve(s, arg))
    case STOU(arg) =>
      (match FirstUnused(s, d, UniqueBase(arg), 0, ans)
       case None => None
       case Some(n) => Some(Resolve(s, UniqueName(UniqueBase(arg), n))))
    case APPE(arg) => Some(Resolve(s, arg))
    case DELE(arg) => Some(Resolve(s, arg))
    case MKD(arg) => Some(Resolve(s, arg))
    case RMD(arg) => Some(Resolve(s, arg))
    case RNTO(arg) => Some(Resolve(s, arg))
    case CHMOD(bits, arg) => Some(Resolve(s, arg))
    case _ => None
  }

  predicate Targets(s: State, d: Tree, cmd: Command, ans: Answers, q: Path) {
    var t := WriteTarget(s, d, cmd, ans);
    t.Some? && q == Norm(t.value)
  }

  // The login, the write permission and the path check, all on one path.
  predicate Cleared(s: State, path: string) {
    && s.authenticated
    && s.user.Some?
    && Permits(s.user.value, "write", path)
    && Valid(s, path)
  }

  // The nodes a cleared command may change: its target; for an upload also the
  // target's missing ancestors; for a rename the two subtrees.
  predicate InReach(s: State, d: Tree, cmd: Command, target: string, q: Path) {
    if cmd.RNTO? then
      Within(q, Norm(target)) || (s.renameFrom != "" && Within(q, Norm(s.renameFrom)))
    else
      || q == Norm(target)
      || ((cmd.STOR? || cmd.STOU?) && q in MissingAncestors(d, Norm(target)))
  }

  // Some path is the command's write target, is cleared, and has `q` in reach.
  predicate Changeable(s: State, d: Tree, cmd: Command, ans: Answers, q: Path) {
    var target := WriteTarget(s, d, cmd, ans);
    target.Some? && Cleared(s, target.value) && InReach(s, d, cmd, target.value, q)
  }

  lemma StorChanges(cfg: Config, s: State, d: Tree, arg: string, ans: Answers, q: Path)
    requires At(DoStor(cfg, s, d, arg, ans).d, q) != At(d, q)
    ensures May(s, "write", arg) && Valid(s, Resolve(s, arg))
    ensures q == Norm(Resolve(s, arg)) || q in MissingAncestors(d, Norm(Resolve(s, arg)))
    ensures CannotMakeAncestors(d, Norm(Resolve(s, arg)), ans) ==>
      q in MissingAncestors(d, Norm(Resolve(s, arg))) && |q| <= ans.madeUpTo
  {
    hide Norm, Resolve, May, Valid, MissingAncestors, StoredContent, CannotMakeAncestors, EffectiveQuota, Accepts;
    if At(DoStor(cfg, s, d, arg, ans).d, q) != At(d, q) && CannotMakeAncestors(d, Norm(Resolve(s, arg)), ans) {
      LeftChanges(d, Norm(Resolve(s, arg)), ans, q);
    }
  }

  lemma LeftChanges(d: Tree, k: Path, ans: Answers, q: Path)
    requires At(AncestorsLeft(d, k, ans), q) != At(d, q)
    ensures q in MissingAncestors(d, k) && |q| <= ans.madeUpTo
  {
    hide MissingAncestors;
  }

  lemma StorChangeable(cfg: Config, s: State, d: Tree, arg: string, ans: Answers, q: Path)
    requires s.authenticated
    requires At(DoStor(cfg, s, d, arg, ans).d, q) != At(d, q)
    ensures Changeable(s, d, STOR(arg), ans, q)
  {
    hide Norm, Resolve, Permits, Valid, DoStor, MissingAncestors;
    StorChanges(cfg, s, d, arg, ans, q);
  }

  lemma AppeChanges(s: State, d: Tree, arg: string, ans: Answers, q: Path)
    requires s.authenticated
    requires At(DoAppe(s, d, arg, ans).d, q) != At(d, q)
    ensures Changeable(s, d, APPE(arg), ans, q)
  {
    hide Norm, Resolve, Permits, Valid;
  }

  lemma RntoChanges(s: State, d: Tree, arg: string, ans: Answers, q: Path)
    requires s.authenticated
    requires At(DoRnto(s, d, arg, ans).d, q) != At(d, q)
    ensures Changeable(s, d, RNTO(arg), ans, q)
  {
    hide Norm, Resolve, Permits, Valid, Move;
    if !Within(q, Norm(Resolve(s, arg))) && !Within(q, Norm(s.renameFrom)) {
      MoveElsewhere(d, Norm(s.renameFrom), Norm(Resolve(s, arg)), q);
    }
  }

  lemma DeleChanges(s: State, d: Tree, arg: string, ans: Answers, q: Path)
    requires s.authenticated
    requires At(DoDele(s, d, arg, ans).d, q) != At(d, q)
    ensures Changeable(s, d, DELE(arg), ans, q)
  {
    hide Norm, Resolve, Permits, Valid;
  }

  lemma MkdChanges(s: State, d: Tree, arg: string, ans: Answers, q: Path)
    requires s.authenticated
    requires At(DoMkd(s, d, arg, ans).d, q) != At(d, q)
    ensures Changeable(s, d, MKD(arg), ans, q)
  {
    hide Norm, Resolve, Permits, Valid;
  }

  lemma RmdChanges(s: State, d: Tree, arg: string, ans: Answers, q: Path)
    requires s.authenticated
    requires At(DoRmd(s, d, arg, ans).d, q) != At(d, q)
    ensures Changeable(s, d, RMD(arg), ans, q)
  {
    hide Norm, Resolve, Permits, Valid;
  }

  lemma ChmodChanges(s: State, d: Tree, bits: string, arg: string, ans: Answers, q: Path)
    requires s.authenticated
    requires At(DoChmod(s, d, bits, arg, ans).d, q) != At(d, q)
    ensures Changeable(s, d, CHMOD(bits, arg), ans, q)
  {
    hide Norm, Resolve, Permits, Valid;
  }

  lemma StouChanges(cfg: Config, s: State, d: Tree, arg: string, ans: Answers, q: Path)
    requires s.authenticated
    requires At(DoStou(cfg, s, d, arg, ans).d, q) != At(d, q)
    ensures Changeable(s, d, STOU(arg), ans, q)
  {
    hide Norm, Permits, DoStor, MissingAncestors, UniqueName, UniqueBase;
    var n := FirstUnused(s, d, UniqueBase(arg), 0, ans).value;
    StorChanges(cfg, s.(resume := 0), d, UniqueName(UniqueBase(arg), n), ans, q);
  }

  lemma UploadIsCleared(cfg: Config, s: State, d: Tree, cmd: Command, ans: Answers, q: Path)
    requires (cmd.STOR? || cmd.STOU? || cmd.APPE?) && s.authenticated
    requires At(DoWrite(cfg, s, d, cmd, ans).d, q) != At(d, q)
    ensures Changeable(s, d, cmd, ans, q)
  {
    hide DoStor, DoStou, DoAppe, DoDele, DoMkd, DoRmd, DoRnto, DoChmod, Changeable, At;
    match cmd
    case STOR(arg) => StorChangeable(cfg, s, d, arg, ans, q);
    case STOU(arg) => StouChanges(cfg, s, d, arg, ans, q);
    case APPE(arg) => AppeChanges(s, d, arg, ans, q);
  }

  lemma WriteIsCleared(cfg: Config, s: State, d: Tree, cmd: Command, ans: Answers, q: Path)
    requires Writes(cmd) && s.authenticated
    requires At(DoWrite(cfg, s, d, cmd, ans).d, q) != At(d, q)
    ensures Changeable(s, d, cmd, ans, q)
  {
    hide DoStor, DoStou, DoAppe, DoDele, DoMkd, DoRmd, DoRnto, DoChmod, Changeable, At;
    match cmd
    case DELE(arg) => DeleChanges(s, d, arg, ans, q);
    case MKD(arg) => MkdChanges(s, d, arg, ans, q);
    case RMD(arg) => RmdChanges(s, d, arg, ans, q);
    case RNTO(arg) => RntoChanges(s, d, arg, ans, q);
    case CHMOD(bits, arg) => ChmodChanges(s, d, bits, arg, ans, q);
    case _ => UploadIsCleared(cfg, s, d, cmd, ans, q);
  }

  // In any state whatever, a command changes a node only when the path that
  // passed the write permission check also passed the path check, and only at
  // that very path (or what the command has to touch along with it).
  lemma ChangeIsCleared(cfg: Config, s: State, d: Tree, cmd: Command, ans: Answers, q: Path)
    requires At(Step(cfg, s, d, cmd, ans).d, q) != At(d, q)
    ensures Changeable(s, d, cmd, ans, q)
  {
    hide DoOther, DoWrite, Changeable;
    WriteIsCleared(cfg, s, d, cmd, ans, q);
  }

  // ----- The home directory and the virtual host root -----

  // Every node changed by DELE, MKD, RMD, APPE, CHMOD, by STOR and STOU apart
  // from ancestors they create, and by RNTO apart from the renamed source, is
  // under the user's home and under the root of the selected virtual host.
  lemma ChangeIsConfined(cfg: Config, s: State, d: Tree, cmd: Command, ans: Answers, q: Path)
    requires At(Step(cfg, s, d, cmd, ans).d, q) != At(d, q)
    requires (cmd.STOR? || cmd.STOU?) ==> Targets(s, d, cmd, ans, q) || q in d
    requires cmd.RNTO? ==> !Within(q, Norm(s.renameFrom))
    ensures s.authenticated && s.user.Some?
    ensures Within(q, Norm(s.user.value.home))
    ensures s.host.Some? && s.host.value.root != "" ==> Within(q, Norm(s.host.value.root))
  {
    ChangeIsCleared(cfg, s, d, cmd, ans, q);
    var target := WriteTarget(s, d, cmd, ans).value;
    WithinTransitive(q, Norm(target), Norm(s.user.value.home));
    if s.host.Some? && s.host.value.root != "" {
      WithinTransitive(q, Norm(target), Norm(s.host.value.root));
    }
  }

  // An upload passes its checks, gets its data connection, and finds no file in
  // the way of its parent directories. It makes them before it opens the target.
  predicate ReachesParents(cfg: Config, s: State, d: Tree, arg: string, ans: Answers) {
    && May(s, "write", arg) && Valid(s, Resolve(s, arg))
    && !OverQuota(s, ans) && !RestartRefused(s) && !CompressionRefused(cfg, s)
    && Accepts(s.data, ans) && !AncestorIsFile(d, Norm(Resolve(s, arg)))
  }

  // A missing ancestor that gets made: any, unless making them fails half-way.
  predicate GetsMade(d: Tree, k: Path, ans: Answers, q: Path) {
    q in MissingAncestors(d, k) && (CannotMakeAncestors(d, k, ans) ==> |q| <= ans.madeUpTo)
  }

  lemma UnchangedWithoutParents(cfg: Config, s: State, d: Tree, arg: string, ans: Answers)
    requires !ReachesParents(cfg, s, d, arg, ans)
    ensures DoStor(cfg, s, d, arg, ans).d == d
  {
    hide Norm, Resolve, May, Valid, Accepts, StoreInto, MakeAncestors, AncestorIsFile, EffectiveQuota;
  }

  lemma ParentsMade(cfg: Config, s: State, d: Tree, arg: string, ans: Answers, q: Path)
    requires ReachesParents(cfg, s, d, arg, ans) && GetsMade(d, Norm(Resolve(s, arg)), ans, q)
    ensures At(DoStor(cfg, s, d, arg, ans).d, q) == Some(Directory(DIRECTORY_MODE))
  {
    hide Norm, Resolve, May, Valid, Accepts, CannotMakeAncestors, StoredContent, EffectiveQuota, AncestorIsFile;
    AncestorsAreProperPrefixes(Norm(Resolve(s, arg)), q);
  }

  // Some directory above `base` is missing and gets made.
  predicate MakesAbove(d: Tree, k: Path, base: Path, ans: Answers) {
    exists a :: a in Ancestors(base) && GetsMade(d, k, ans, a)
  }

  ghost predicate ChangesOutside(d: Tree, after: Tree, base: Path) {
    exists q :: At(after, q) != At(d, q) && !Within(q, base)
  }

  // Whatever directory holds the target, an upload changes something outside it
  // exactly when it gets as far as its parents and makes a directory above that
  // one, even if making the others then fails. The reply makes no difference.
  lemma UploadLeavesExactly(cfg: Config, s: State, d: Tree, arg: string, ans: Answers, base: Path)
    requires Within(Norm(Resolve(s, arg)), base)
    ensures ChangesOutside(d, DoStor(cfg, s, d, arg, ans).d, base)
       <==> ReachesParents(cfg, s, d, arg, ans) && MakesAbove(d, Norm(Resolve(s, arg)), base, ans)
  {
    hide Norm, Resolve, DoStor, ReachesParents, CannotMakeAncestors;
    var after := DoStor(cfg, s, d, arg, ans).d;
    var k := Norm(Resolve(s, arg));
    if !ReachesParents(cfg, s, d, arg, ans) {
      UnchangedWithoutParents(cfg, s, d, arg, ans);
    } else if a :| a in Ancestors(base) && GetsMade(d, k, ans, a) {
      AncestorsAreProperPrefixes(base, a);
      ParentsMade(cfg, s, d, arg, ans, a);
      assert At(after, a) != At(d, a) && !Within(a, base);
    }
    if q :| At(after, q) != At(d, q) && !Within(q, base) {
      StorChanges(cfg, s, d, arg, ans, q);
      AncestorsAreProperPrefixes(k, q);
      AncestorsAreProperPrefixes(base, q);
      assert q < base;
      assert GetsMade(d, k, ans, q);
    }
  }

  // For the home of the user, and for the root of the virtual host.
  lemma UploadLeavesHomeExactly(cfg: Config, s: State, d: Tree, arg: string, ans: Answers)
    requires s.user.Some?
    ensures ChangesOutside(d, DoStor(cfg, s, d, arg, ans).d, Norm(s.user.value.home))
       <==> && ReachesParents(cfg, s, d, arg, ans)
            && MakesAbove(d, Norm(Resolve(s, arg)), Norm(s.user.value.home), ans)
  {
    hide Norm, Resolve, DoStor, May, Accepts, OverQuota, AncestorIsFile, MakesAbove;
    if Valid(s, Resolve(s, arg)) {
      UploadLeavesExactly(cfg, s, d, arg, ans, Norm(s.user.value.home));
    } else {
      UnchangedWithoutParents(cfg, s, d, arg, ans);
    }
  }

  lemma UploadLeavesHostRootExactly(cfg: Config, s: State, d: Tree, arg: string, ans: Answers)
    requires s.host.Some? && s.host.value.root != ""
    ensures ChangesOutside(d, DoStor(cfg, s, d, arg, ans).d, Norm(s.host.value.root))
       <==> && ReachesParents(cfg, s, d, arg, ans)
            && MakesAbove(d, Norm(Resolve(s, arg)), Norm(s.host.value.root), ans)
  {
    hide Norm, Resolve, DoStor, May, Accepts, OverQuota, AncestorIsFile, MakesAbove;
    if Valid(s, Resolve(s, arg)) {
      UploadLeavesExactly(cfg, s, d, arg, ans, Norm(s.host.value.root));
    } else {
      UnchangedWithoutParents(cfg, s, d, arg, ans);
    }
  }

  // STOU goes through STOR, from offset 0 and under the name it has found.
  lemma UniqueUploadLeavesExactly(cfg: Config, s: State, d: Tree, arg: string, ans: Answers)
    requires s.user.Some?
    ensures var n := FirstUnused(s, d, UniqueBase(arg), 0, ans);
      var after := DoStou(cfg, s, d, arg, ans).d;
      if n.None? then after == d
      else
        var s0, name := s.(resume := 0), UniqueName(UniqueBase(arg), n.value);
        && (ChangesOutside(d, after, Norm(s.user.value.home)) <==>
              && ReachesParents(cfg, s0, d, name, ans)
              && MakesAbove(d, Norm(Resolve(s0, name)), Norm(s.user.value.home), ans))
        && (s.host.Some? && s.host.value.root != "" ==>
              (ChangesOutside(d, after, Norm(s.host.value.root)) <==>
                 && ReachesParents(cfg, s0, d, name, ans)
                 && MakesAbove(d, Norm(Resolve(s0, name)), Norm(s.host.value.root), ans)))
  {
    hide Norm, Resolve, DoStor, ReachesParents, MakesAbove, UniqueName, UniqueBase, FirstUnused;
    var n := FirstUnused(s, d, UniqueBase(arg), 0, ans);
    if n.Some? {
      var name := UniqueName(UniqueBase(arg), n.value);
      UploadLeavesHomeExactly(cfg, s.(resume := 0), d, name, ans);
      if s.host.Some? && s.host.value.root != "" {
        UploadLeavesHostRootExactly(cfg, s.(resume := 0), d, name, ans);
      }
    }
  }

  // When making the parents fails at the last of them, those above are left:
  // the upload ends the daemon and has still made a directory above the home.
  lemma FailedUploadAboveHome(cfg: Config, s: State, d: Tree, arg: string, ans: Answers, a: Path)
    requires ReachesParents(cfg, s, d, arg, ans)
    requires a in Ancestors(Norm(s.user.value.home)) && a !in d
    requires !ans.systemOk && |a| <= ans.madeUpTo
    ensures DoStor(cfg, s, d, arg, ans).reply == Uncaught
    ensures At(DoStor(cfg, s, d, arg, ans).d, a) == Some(Directory(DIRECTORY_MODE))
    ensures !Within(a, Norm(s.user.value.home))
  {
    var home, k := Norm(s.user.value.home), Norm(Resolve(s, arg));
    assert Within(k, home) && CannotMakeAncestors(d, k, ans) && GetsMade(d, k, ans, a) && !Within(a, home) by {
      hide Norm, Resolve, May, Accepts, OverQuota, AncestorIsFile;
      AncestorsAreProperPrefixes(home, a);
      AncestorsAreProperPrefixes(k, a);
      assert a in MissingAncestors(d, k);
    }
    hide Norm, Resolve, May, Valid, Accepts, EffectiveQuota, CannotMakeAncestors, AncestorsLeft, AncestorIsFile;
    ParentsMade(cfg, s, d, arg, ans, a);
  }

  // A first upload of a user whose home does not exist yet makes the directory
  // above the home, even though the file itself cannot be opened.
  lemma UploadAboveHome(cfg: Config, s: State, d: Tree, a: string, u: string, f: string, ans: Answers)
    requires IsPlain(a) && IsPlain(u) && IsPlain(f) && d == map[[ROOT] := Directory(DIRECTORY_MODE)]
    requires s.user == Some(NewUser(u, "", Render([ROOT, a, u]))) && s.directory == Render([ROOT, a, u])
    requires s.host == None && s.mode.Stream? && s.data.listening && !s.data.activeEnabled && s.resume == 0
    requires ans.channel.Established? && ans.systemOk && !ans.openForWrite
    ensures DoStor(cfg, s, d, f, ans).reply == Code(550)
    ensures At(DoStor(cfg, s, d, f, ans).d, [ROOT, a]) == Some(Directory(DIRECTORY_MODE))
    ensures [ROOT, a] !in d && !Within([ROOT, a], Norm(s.user.value.home))
  {
    hide Norm, Resolve, Render, Valid, ReachesParents, CannotMakeAncestors;
    var home, k := [ROOT, a, u], [ROOT, a, u, f];
    assert home + [f] == k;
    ResolveUnder(s, home, f);
    ParentsReachable(cfg, s, d, f, ans);
    AncestorsAreProperPrefixes(k, [ROOT, a]);
    assert GetsMade(d, k, ans, [ROOT, a]);
    ParentsMade(cfg, s, d, f, ans, [ROOT, a]);
    TargetUnopened(cfg, s, d, f, ans);
  }

  lemma ParentsReachable(cfg: Config, s: State, d: Tree, arg: string, ans: Answers)
    requires May(s, "write", arg) && Valid(s, Resolve(s, arg))
    requires forall q :: q in d ==> d[q].Directory?
    requires s.host == None && s.user.Some? && s.user.value.quota == 0 && s.mode.Stream?
    requires s.data.listening && !s.data.activeEnabled && ans.channel.Established? && ans.systemOk
    ensures ReachesParents(cfg, s, d, arg, ans)
    ensures !CannotMakeAncestors(d, Norm(Resolve(s, arg)), ans)
  {
    hide Norm, Resolve, Valid, May;
    NoFileAbove(d, Norm(Resolve(s, arg)));
  }

  lemma TargetUnopened(cfg: Config, s: State, d: Tree, arg: string, ans: Answers)
    requires ReachesParents(cfg, s, d, arg, ans) && !CannotMakeAncestors(d, Norm(Resolve(s, arg)), ans)
    requires s.resume == 0 && !ans.openForWrite
    ensures DoStor(cfg, s, d, arg, ans).reply == Code(550)
  {
    hide Norm, Resolve, Valid, May, Accepts, CannotMakeAncestors, EffectiveQuota, AncestorIsFile;
  }

  lemma NoFileAbove(d: Tree, k: Path)
    requires forall q :: q in d ==> d[q].Directory?
    ensures !AncestorIsFile(d, k)
  {
  }

  // A file named in the home directory of a user without limits.
  lemma ResolveUnder(s: State, home: Path, f: string)
    requires IsAbsoluteNormal(home) && IsPlain(f)
    requires s.directory == Render(home) && s.host == None
    requires s.user.Some? && s.user.value.permissions == [] && s.user.value.home == Render(home)
    ensures Resolve(s, f) == Render(home + [f]) && Norm(Resolve(s, f)) == home + [f]
    ensures Norm(s.user.value.home) == home
    ensures Valid(s, Resolve(s, f)) && May(s, "write", f)
  {
    hide Render;
    PlainPath(home);
    PlainPath(home + [f]);
    PlainName(f);
    assert Candidate(s, f) == home + [f];
    FoldFixed(home + [f]);
  }

  // ----- Whole runs -----

  ghost predicate TableWithin(users: map<string, User>, homes: set<string>) {
    forall name :: name in users ==> users[name].home in homes
  }

  ghost predicate HostWithin(host: VirtualHost, homes: set<string>) {
    host.users.Some? ==> TableWithin(host.users.value, homes)
  }

  // `homes` lists every home directory the configuration can log a user into.
  ghost predicate ConfigWithin(cfg: Config, homes: set<string>) {
    && TableWithin(cfg.users, homes)
    && (cfg.hosts.Some? ==>
          forall name :: name in cfg.hosts.value ==> HostWithin(cfg.hosts.value[name], homes))
    && "/tmp" in homes && (cfg.fallbackHome != "" ==> cfg.fallbackHome in homes)
  }

  // The homes PAM reports are listed, too.
  predicate EventWithin(e: Event, homes: set<string>) {
    e.cmd.PASS? && e.ans.pam.Accepted? && e.ans.pam.home != "" ==> e.ans.pam.home in homes
  }

  ghost predicate StateWithin(s: State, homes: set<string>) {
    && (s.user.Some? ==> s.user.value.home in homes)
    && (s.host.Some? ==> HostWithin(s.host.value, homes))
    && (s.renameFrom != "" ==> exists h :: h in homes && Within(Norm(s.renameFrom), Norm(h)))
  }

  lemma LookupWithin(cfg: Config, host: Option<VirtualHost>, name: string, homes: set<string>)
    requires ConfigWithin(cfg, homes) && (host.Some? ==> HostWithin(host.value, homes))
    ensures Lookup(cfg, host, name).Some? ==> Lookup(cfg, host, name).value.home in homes
  {
    assert TableWithin(UsersOf(cfg, host), homes);
  }

  lemma IdentityWithin(cfg: Config, s: State, password: string, ans: Answers, homes: set<string>)
    requires ConfigWithin(cfg, homes) && StateWithin(s, homes)
    requires EventWithin(Event(PASS(password), ans), homes)
    ensures Identify(cfg, s, password, ans).Some? ==> Identify(cfg, s, password, ans).value.home in homes
  {
    hide Norm, Lookup;
    LookupWithin(cfg, s.host, s.username, homes);
  }

  lemma LoginStaysWithin(cfg: Config, s: State, d: Tree, password: string, ans: Answers, homes: set<string>)
    requires ConfigWithin(cfg, homes) && StateWithin(s, homes)
    requires EventWithin(Event(PASS(password), ans), homes)
    ensures StateWithin(DoPass(cfg, s, d, password, ans).s, homes)
  {
    hide Norm, Lookup, Identify, ConfigWithin;
    LookupWithin(cfg, s.host, s.username, homes);
    IdentityWithin(cfg, s, password, ans, homes);
  }

  lemma HostStaysWithin(cfg: Config, s: State, d: Tree, name: string, homes: set<string>)
    requires ConfigWithin(cfg, homes) && StateWithin(s, homes)
    ensures StateWithin(DoHost(cfg, s, d, name).s, homes)
  {
    hide Norm;
  }

  lemma RenameSourceWithin(s: State, d: Tree, arg: string, ans: Answers, homes: set<string>)
    requires StateWithin(s, homes)
    ensures StateWithin(DoRnfr(s, d, arg, ans).s, homes)
  {
    hide Norm, Resolve, May;
    var s' := DoRnfr(s, d, arg, ans).s;
    if s'.renameFrom != s.renameFrom {
      assert Within(Norm(s'.renameFrom), Norm(s.user.value.home));
    }
  }

  lemma StateStaysWithin(cfg: Config, s: State, d: Tree, e: Event, homes: set<string>)
    requires ConfigWithin(cfg, homes) && EventWithin(e, homes) && StateWithin(s, homes)
    ensures StateWithin(Step(cfg, s, d, e.cmd, e.ans).s, homes)
  {
    hide DoWrite, DoUser, DoPass, DoHost, DoCwd, DoCdup, DoList, DoMlsd, DoSize, DoPasv, DoEpsv, DoPort, DoEprt, DoMode;
    hide DoRest, DoRetr, DoRnfr, ConfigWithin, TableWithin, Norm;
    StepFrame(cfg, s, d, e.cmd, e.ans);
    match e.cmd
    case PASS(password) => LoginStaysWithin(cfg, s, d, password, e.ans, homes);
    case HOST(name) => HostStaysWithin(cfg, s, d, name, homes);
    case RNFR(arg) => RenameSourceWithin(s, d, arg, e.ans, homes);
    case _ =>
  }

  // Outside all homes; and, if the node does not exist yet, not a directory
  // that holds a home either.
  ghost predicate OutOfBounds(d: Tree, homes: set<string>, q: Path) {
    forall h :: h in homes ==> !Within(q, Norm(h)) && (q in d || !Within(Norm(h), q))
  }

  lemma ChangeableIsInBounds(s: State, d: Tree, cmd: Command, ans: Answers, homes: set<string>, q: Path)
    requires StateWithin(s, homes) && Changeable(s, d, cmd, ans, q)
    ensures !OutOfBounds(d, homes, q)
  {
    var target, home := Norm(WriteTarget(s, d, cmd, ans).value), Norm(s.user.value.home);
    if Within(q, target) {
      WithinTransitive(q, target, home);
    } else if cmd.RNTO? {
      var h :| h in homes && Within(Norm(s.renameFrom), Norm(h));
      WithinTransitive(q, Norm(s.renameFrom), Norm(h));
    } else {
      AncestorsAreProperPrefixes(target, q);
    }
  }

  lemma OutsideKept(cfg: Config, s: State, d: Tree, e: Event, homes: set<string>, q: Path)
    requires StateWithin(s, homes) && OutOfBounds(d, homes, q)
    ensures At(Step(cfg, s, d, e.cmd, e.ans).d, q) == At(d, q)
  {
    hide Step, StateWithin, OutOfBounds, Changeable;
    if At(Step(cfg, s, d, e.cmd, e.ans).d, q) != At(d, q) {
      ChangeIsCleared(cfg, s, d, e.cmd, e.ans, q);
      ChangeableIsInBounds(s, d, e.cmd, e.ans, homes, q);
    }
  }

  // No run of commands, with any logins, any virtual hosts and any arguments,
  // changes, removes or creates a node that is out of bounds.
  lemma {:induction false} OutsideUntouched(cfg: Config, w: World, events: seq<Event>, homes: set<string>, q: Path)
    requires ConfigWithin(cfg, homes) && StateWithin(w.s, homes)
    requires forall e :: e in events ==> EventWithin(e, homes)
    requires OutOfBounds(w.d, homes, q)
    ensures At(Run(cfg, w, events).d, q) == At(w.d, q)
    decreases |events|
  {
    if events != [] && w.s.active {
      var e := events[0];
      assert e in events;
      var o := Step(cfg, w.s, w.d, e.cmd, e.ans);
      StateStaysWithin(cfg, w.s, w.d, e, homes);
      OutsideKept(cfg, w.s, w.d, e, homes, q);
      OutsideUntouched(cfg, World(o.s, o.d), events[1..], homes, q);
    }
  }

  // ----- The source of a rename -----

  // A pending rename source stays a checked path of the current user, through
  // every command but a new login and a change of virtual host.
  lemma RenameSourceStaysValid(cfg: Config, s: State, d: Tree, cmd: Command, ans: Answers)
    requires s.renameFrom != "" ==> Valid(s, s.renameFrom)
    requires !cmd.PASS? && !cmd.HOST?
    ensures var s' := Step(cfg, s, d, cmd, ans).s; s'.renameFrom != "" ==> Valid(s', s'.renameFrom)
  {
    hide DoWrite, DoUser, DoPass, DoHost, DoCwd, DoCdup, DoList, DoMlsd, DoSize, DoPasv, DoEpsv, DoPort, DoEprt, DoMode;
    hide DoRest, DoRetr, Norm, Resolve, Permits;
    StepFrame(cfg, s, d, cmd, ans);
  }

  // A rename passes its checks and is carried out.
  predicate Renames(s: State, d: Tree, arg: string, ans: Answers) {
    && s.renameFrom != "" && May(s, "write", arg) && Valid(s, Resolve(s, arg))
    && Norm(Resolve(s, arg)) !in ans.unseen && !Exists(d, Norm(Resolve(s, arg)))
    && CanRename(d, Norm(s.renameFrom), Norm(Resolve(s, arg))) && ans.systemOk
  }

  lemma RntoOutcome(s: State, d: Tree, arg: string, ans: Answers)
    ensures DoRnto(s, d, arg, ans).d ==
      if Renames(s, d, arg, ans) then Move(d, Norm(s.renameFrom), Norm(Resolve(s, arg))) else d
  {
    hide Norm, Resolve, May, Valid, CanRename, Move;
  }

  // Whatever directory holds the target, RNTO changes something outside it
  // exactly when it goes through and its source lies outside.
  lemma RenameLeavesExactly(s: State, d: Tree, arg: string, ans: Answers, base: Path)
    requires Within(Norm(Resolve(s, arg)), base)
    ensures ChangesOutside(d, DoRnto(s, d, arg, ans).d, base)
       <==> Renames(s, d, arg, ans) && !Within(Norm(s.renameFrom), base)
  {
    hide Norm, Resolve, May, Valid, Move, DoRnto, Within;
    RntoOutcome(s, d, arg, ans);
    if Renames(s, d, arg, ans) {
      var from, to, after := Norm(s.renameFrom), Norm(Resolve(s, arg)), DoRnto(s, d, arg, ans).d;
      if !Within(from, base) {
        SourceIsApart(from, to, base);
        MoveLeavesSource(d, from, to);
        assert At(after, from) != At(d, from);
      } else {
        forall q | !Within(q, base) ensures At(after, q) == At(d, q) {
          TreesAreInside(q, from, to, base);
          MoveElsewhere(d, from, to, q);
        }
      }
    }
  }

  lemma SourceIsApart(from: Path, to: Path, base: Path)
    requires Within(to, base) && !Within(from, base)
    ensures !Within(from, to)
  {
    if Within(from, to) {
      WithinTransitive(from, to, base);
    }
  }

  lemma TreesAreInside(q: Path, from: Path, to: Path, base: Path)
    requires Within(from, base) && Within(to, base) && !Within(q, base)
    ensures !Within(q, from) && !Within(q, to)
  {
    if Within(q, from) {
      WithinTransitive(q, from, base);
    }
    if Within(q, to) {
      WithinTransitive(q, to, base);
    }
  }

  lemma RenameLeavesHomeExactly(s: State, d: Tree, arg: string, ans: Answers)
    requires s.user.Some?
    ensures ChangesOutside(d, DoRnto(s, d, arg, ans).d, Norm(s.user.value.home))
       <==> Renames(s, d, arg, ans) && !Within(Norm(s.renameFrom), Norm(s.user.value.home))
  {
    hide Norm, Resolve, May, DoRnto, CanRename, Within;
    if Valid(s, Resolve(s, arg)) {
      RenameLeavesExactly(s, d, arg, ans, Norm(s.user.value.home));
    } else {
      RntoOutcome(s, d, arg, ans);
    }
  }

  lemma RenameLeavesHostRootExactly(s: State, d: Tree, arg: string, ans: Answers)
    requires s.host.Some? && s.host.value.root != ""
    ensures ChangesOutside(d, DoRnto(s, d, arg, ans).d, Norm(s.host.value.root))
       <==> Renames(s, d, arg, ans) && !Within(Norm(s.renameFrom), Norm(s.host.value.root))
  {
    hide Norm, Resolve, May, DoRnto, CanRename, Within;
    if Valid(s, Resolve(s, arg)) {
      RenameLeavesExactly(s, d, arg, ans, Norm(s.host.value.root));
    } else {
      RntoOutcome(s, d, arg, ans);
    }
  }

  lemma MoveLeavesSource(d: Tree, from: Path, to: Path)
    requires from in d && !Within(to, from) && !Within(from, to)
    ensures At(Move(d, from, to), from) != At(d, from)
  {
    hide Move;
    assert to + from[|from|..] == to;
    MoveDelivers(d, from, to, from);
  }

  function HomeOf(name: string): string {
    Render([ROOT, name])
  }

  lemma PlainPath(p: Path)
    requires IsAbsoluteNormal(p)
    ensures Components(Render(p)) == p && Norm(Render(p)) == p && Render(p) != ""
  {
    ComponentsOfRender(p);
    FoldFixed(p);
  }

  lemma PlainName(f: string)
    requires IsPlain(f)
    ensures Components(f) == [f] && !IsAbsolute(f)
  {
    ComponentsOfRender([f]);
  }

  // A file named directly under the home of a logged-in user without limits.
  lemma ResolveInHome(s: State, name: string, f: string)
    requires IsPlain(name) && IsPlain(f)
    requires s.directory == HomeOf(name) && s.host == None
    requires s.user == Some(NewUser(name, "", HomeOf(name)))
    ensures Resolve(s, f) == Render([ROOT, name, f]) && Norm(Resolve(s, f)) == [ROOT, name, f]
    ensures Valid(s, Resolve(s, f)) && May(s, "write", f)
  {
    assert [ROOT, name] + [f] == [ROOT, name, f];
    ResolveUnder(s, [ROOT, name], f);
  }

  lemma RnfrStep(cfg: Config, s: State, d: Tree, arg: string, ans: Answers)
    requires s.authenticated && May(s, "write", arg) && Valid(s, Resolve(s, arg))
    requires Norm(Resolve(s, arg)) in d && Norm(Resolve(s, arg)) !in ans.unseen
    ensures Step(cfg, s, d, RNFR(arg), ans) == Say(s.(renameFrom := Resolve(s, arg)), d, 350)
  {
    hide Norm, Resolve, May, Valid, DoWrite;
  }

  lemma RntoStep(cfg: Config, s: State, d: Tree, arg: string, ans: Answers)
    requires s.authenticated && s.renameFrom != ""
    requires May(s, "write", arg) && Valid(s, Resolve(s, arg))
    requires Norm(Resolve(s, arg)) !in d && Norm(Resolve(s, arg)) !in ans.unseen
    requires CanRename(d, Norm(s.renameFrom), Norm(Resolve(s, arg))) && ans.systemOk
    ensures Step(cfg, s, d, RNTO(arg), ans)
         == Say(s.(renameFrom := ""), Move(d, Norm(s.renameFrom), Norm(Resolve(s, arg))), 250)
  {
    hide Norm, Resolve, May, Valid, CanRename, Move, DoOther;
  }

  // The state of user `name` right after logging in.
  function LoggedIn(s: State, name: string): State {
    s.(username := name, user := Some(NewUser(name, "", HomeOf(name))), authenticated := true,
       directory := HomeOf(name))
  }

  lemma LoginRun(cfg: Config, s: State, d: Tree, name: string, ans: Answers, rest: seq<Event>)
    requires s.active && s.host == None && name != ""
    requires name in cfg.users && cfg.users[name] == NewUser(name, "", HomeOf(name))
    requires ans.credentialOk && !cfg.tracksSessions
    ensures Run(cfg, World(s, d), [Event(USER(name), ans), Event(PASS(""), ans)] + rest)
         == Run(cfg, World(LoggedIn(s, name), d), rest)
  {
    hide Run, Step;
    var e0, e1 := Event(USER(name), ans), Event(PASS(""), ans);
    var s1 := s.(username := name, authenticated := false);
    LoginSteps(cfg, s, d, name, cfg.users[name], ans);
    OneStep(cfg, World(s, d), e0, World(s1, d), [e1] + rest);
    OneStep(cfg, World(s1, d), e1, World(LoggedIn(s, name), d), rest);
    assert [e0, e1] + rest == [e0] + ([e1] + rest);
  }

  lemma RnfrRun(cfg: Config, s: State, d: Tree, name: string, f: string, ans: Answers, rest: seq<Event>)
    requires IsPlain(name) && IsPlain(f) && [ROOT, name, f] in d && [ROOT, name, f] !in ans.unseen
    requires s.active && s.host == None
    ensures Run(cfg, World(LoggedIn(s, name), d), [Event(RNFR(f), ans)] + rest)
         == Run(cfg, World(LoggedIn(s, name).(renameFrom := Render([ROOT, name, f])), d), rest)
  {
    hide Run, Step, Resolve, Norm, May, Valid, Render;
    var s2 := LoggedIn(s, name);
    ResolveInHome(s2, name, f);
    RnfrStep(cfg, s2, d, f, ans);
    OneStep(cfg, World(s2, d), Event(RNFR(f), ans), World(s2.(renameFrom := Resolve(s2, f)), d), rest);
  }

  lemma RntoRun(cfg: Config, s: State, d: Tree, name: string, f: string, from: Path, ans: Answers)
    requires IsPlain(name) && IsPlain(f) && s.active && s.host == None && ans.systemOk
    requires IsAbsoluteNormal(from) && s.renameFrom == Render(from)
    requires [ROOT, name, f] !in d && [ROOT, name, f] !in ans.unseen && CanRename(d, from, [ROOT, name, f])
    ensures Run(cfg, World(LoggedIn(s, name), d), [Event(RNTO(f), ans)])
         == World(LoggedIn(s, name).(renameFrom := ""), Move(d, from, [ROOT, name, f]))
  {
    hide Run, Step, Resolve, Norm, May, Valid, Render, Move, CanRename;
    var s2 := LoggedIn(s, name);
    ResolveInHome(s2, name, f);
    PlainPath(from);
    RntoStep(cfg, s2, d, f, ans);
    var last := World(s2.(renameFrom := ""), Move(d, from, [ROOT, name, f]));
    OneStep(cfg, World(s2, d), Event(RNTO(f), ans), last, []);
    RunEmpty(cfg, last);
    assert [Event(RNTO(f), ans)] + [] == [Event(RNTO(f), ans)];
  }

  // RNTO does not check the source again. A rename started by user `a` and
  // finished after user `b` has logged in takes a file out of `a`'s home.
  lemma RenameAcrossLogins(cfg: Config, a: string, b: string, f: string, d: Tree, ans: Answers)
    requires IsPlain(a) && IsPlain(b) && IsPlain(f) && a != b
    requires cfg.users == map[a := NewUser(a, "", HomeOf(a)), b := NewUser(b, "", HomeOf(b))]
    requires [ROOT, a, f] in d && IsDirectory(d, [ROOT, b]) && [ROOT, b, f] !in d
    requires ans.credentialOk && ans.systemOk && ans.unseen == {} && !cfg.tracksSessions
    ensures var last := Run(cfg, World(INITIAL, d),
                            [Event(USER(a), ans), Event(PASS(""), ans), Event(RNFR(f), ans),
                             Event(USER(b), ans), Event(PASS(""), ans), Event(RNTO(f), ans)]);
      && last.s.user == Some(cfg.users[b]) && !Within([ROOT, a, f], Norm(HomeOf(b)))
      && [ROOT, a, f] !in last.d && At(last.d, [ROOT, b, f]) == Some(d[[ROOT, a, f]])
  {
    hide Run, Norm, Render, Move;
    var from, to := [ROOT, a, f], [ROOT, b, f];
    var e0, e1, e2 := Event(USER(a), ans), Event(PASS(""), ans), Event(RNFR(f), ans);
    var e3, e4, e5 := Event(USER(b), ans), Event(PASS(""), ans), Event(RNTO(f), ans);
    LoginRun(cfg, INITIAL, d, a, ans, [e2, e3, e4, e5]);
    RnfrRun(cfg, INITIAL, d, a, f, ans, [e3, e4, e5]);
    var s3 := LoggedIn(INITIAL, a).(renameFrom := Render(from));
    LoginRun(cfg, s3, d, b, ans, [e5]);
    assert Front(to) == [ROOT, b] && from[1] != to[1];
    RntoRun(cfg, s3, d, b, f, from, ans);
    assert [e0, e1] + [e2, e3, e4, e5] == [e0, e1, e2, e3, e4, e5];
    assert [e2] + [e3, e4, e5] == [e2, e3, e4, e5] && [e3, e4] + [e5] == [e3, e4, e5];
    PlainPath([ROOT, b]);
    assert to == to + from[|from|..];
    MoveDelivers(d, from, to, from);
  }
}

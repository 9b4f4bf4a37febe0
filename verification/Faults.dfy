/**
 Exceptions that no handler catches. The command loop is the whole body of a
 connection's thread, so such an exception ends the daemon.
 */
module Faults {
  import opened Text
  import opened Paths
  import opened Disk
  import opened Session

  // The system cannot tell the status of what the argument names.
  predicate Unseen(s: State, arg: string, ans: Answers) {
    Norm(Resolve(s, arg)) in ans.unseen
  }

  // An upload that gets as far as its parent directories and cannot make them,
  // or restarts on a target whose status cannot be told.
  predicate StorThrows(cfg: Config, s: State, d: Tree, arg: string, ans: Answers) {
    && Checked(s, "write", arg)
    && !OverQuota(s, ans) && !RestartRefused(s) && !CompressionRefused(cfg, s)
    && Accepts(s.data, ans)
    && (CannotMakeAncestors(d, Norm(Resolve(s, arg)), ans) || (s.resume > 0 && Unseen(s, arg, ans)))
  }

  predicate StouThrows(cfg: Config, s: State, d: Tree, arg: string, ans: Answers) {
    var n := FirstUnused(s, d, UniqueBase(arg), 0, ans);
    n.Some? && StorThrows(cfg, s.(resume := 0), d, UniqueName(UniqueBase(arg), n.value), ans)
  }

  predicate WriteThrows(cfg: Config, s: State, d: Tree, cmd: Command, ans: Answers)
    requires Writes(cmd)
  {
    match cmd
    case STOR(arg) => StorThrows(cfg, s, d, arg, ans)
    case STOU(arg) => StouThrows(cfg, s, d, arg, ans)
    case APPE(arg) => Checked(s, "write", arg) && s.mode.Stream? && Accepts(s.data, ans) && Unseen(s, arg, ans)
    case DELE(arg) =>
      Checked(s, "write", arg) && (Unseen(s, arg, ans) || (IsFile(d, Norm(Resolve(s, arg))) && !ans.systemOk))
    case MKD(arg) =>
      var k := Norm(Resolve(s, arg));
      Checked(s, "write", arg) && !IsDirectory(d, k) && (IsFile(d, k) || !ParentIsDirectory(d, k) || !ans.systemOk)
    case RMD(arg) =>
      var k := Norm(Resolve(s, arg));
      && Checked(s, "write", arg)
      && (Unseen(s, arg, ans) || (IsDirectory(d, k) && (!IsEmptyDirectory(d, k) || !ans.systemOk)))
    case RNTO(arg) => s.renameFrom != "" && Checked(s, "write", arg) && Unseen(s, arg, ans)
    case CHMOD(_, _) => false
  }

  // LIST asks for its permission without a path; SIZE for none, and it does
  // not check the path either.
  predicate OtherThrows(s: State, d: Tree, cmd: Command, ans: Answers) {
    match cmd
    case CWD(arg) => Valid(s, Resolve(s, arg)) && Unseen(s, arg, ans)
    case LIST(arg) =>
      && May(s, "list", "") && Valid(s, Resolve(s, arg))
      && (Unseen(s, arg, ans) || (IsFile(d, Norm(Resolve(s, arg))) && Accepts(s.data, ans) && !ans.systemOk))
    case SIZE(arg) => Unseen(s, arg, ans) || (IsFile(d, Norm(Resolve(s, arg))) && !ans.systemOk)
    case RETR(arg) => Checked(s, "read", arg) && Unseen(s, arg, ans)
    case RNFR(arg) => Checked(s, "write", arg) && Unseen(s, arg, ans)
    case _ => false
  }

  predicate Throws(cfg: Config, s: State, d: Tree, cmd: Command, ans: Answers) {
    s.authenticated && if Writes(cmd) then WriteThrows(cfg, s, d, cmd, ans) else OtherThrows(s, d, cmd, ans)
  }

  lemma StorThrowsExactly(cfg: Config, s: State, d: Tree, arg: string, ans: Answers)
    ensures DoStor(cfg, s, d, arg, ans).reply == Uncaught <==> StorThrows(cfg, s, d, arg, ans)
  {
    hide Norm, Resolve, May, Valid, Accepts, CannotMakeAncestors, OverQuota, MakeAncestors, AncestorsLeft;
    hide StoredContent;
  }

  lemma UploadThrowsExactly(cfg: Config, s: State, d: Tree, cmd: Command, ans: Answers)
    requires cmd.STOR? || cmd.STOU? || cmd.APPE?
    ensures DoWrite(cfg, s, d, cmd, ans).reply == Uncaught <==> WriteThrows(cfg, s, d, cmd, ans)
  {
    hide Norm, Resolve, May, Valid, DoStor, StorThrows, FirstUnused, UniqueName, UniqueBase, Accepts;
    match cmd
    case STOR(arg) => StorThrowsExactly(cfg, s, d, arg, ans);
    case STOU(arg) =>
      var n := FirstUnused(s, d, UniqueBase(arg), 0, ans);
      if n.Some? {
        StorThrowsExactly(cfg, s.(resume := 0), d, UniqueName(UniqueBase(arg), n.value), ans);
      }
    case APPE(arg) =>
  }

  lemma ChangeThrowsExactly(cfg: Config, s: State, d: Tree, cmd: Command, ans: Answers)
    requires cmd.DELE? || cmd.MKD? || cmd.RMD? || cmd.RNTO? || cmd.CHMOD?
    ensures DoWrite(cfg, s, d, cmd, ans).reply == Uncaught <==> WriteThrows(cfg, s, d, cmd, ans)
  {
    hide Norm, Resolve, May, Valid, DoStor, DoStou, DoAppe, StorThrows, StouThrows, Move, Stoull, CanRename;
    hide IsEmptyDirectory;
  }

  lemma SessionThrowsExactly(cfg: Config, s: State, d: Tree, cmd: Command, ans: Answers)
    requires OfSession(cmd)
    ensures DoSession(cfg, s, d, cmd, ans).reply == Uncaught <==> OtherThrows(s, d, cmd, ans)
  {
    hide Norm, Resolve, May, Valid, Identify, Lookup, SessionLimitReached, Accepts, Attempted;
  }

  lemma SetupThrowsExactly(cfg: Config, s: State, d: Tree, cmd: Command, ans: Answers)
    requires !OfSession(cmd) && !Writes(cmd)
    ensures DoSetup(cfg, s, d, cmd, ans).reply == Uncaught <==> OtherThrows(s, d, cmd, ans)
  {
    hide Norm, Resolve, May, Valid, Upper, FirstBindable, ParseAll, Lines, EprtFields;
    hide Stoi, Stoull, Accepts, Attempted, Finished, RetrReply, Dotted;
  }

  lemma PublicDoesNotThrow(s: State, d: Tree, cmd: Command, ans: Answers)
    requires Public(cmd)
    ensures !Writes(cmd) && !OtherThrows(s, d, cmd, ans)
  {
  }

  // For every command in every state: it ends the daemon exactly when the
  // system fails it at one of the calls that throw, after the checks that
  // command makes before.
  lemma UncaughtExactly(cfg: Config, s: State, d: Tree, cmd: Command, ans: Answers)
    ensures Step(cfg, s, d, cmd, ans).reply == Uncaught <==> Throws(cfg, s, d, cmd, ans)
  {
    hide DoWrite, DoSession, DoSetup, WriteThrows, OtherThrows;
    if Public(cmd) {
      PublicDoesNotThrow(s, d, cmd, ans);
    }
    if Writes(cmd) {
      if cmd.STOR? || cmd.STOU? || cmd.APPE? {
        UploadThrowsExactly(cfg, s, d, cmd, ans);
      } else {
        ChangeThrowsExactly(cfg, s, d, cmd, ans);
      }
    } else {
      if OfSession(cmd) {
        SessionThrowsExactly(cfg, s, d, cmd, ans);
      } else {
        SetupThrowsExactly(cfg, s, d, cmd, ans);
      }
    }
  }

  // So for a name whose status the system cannot tell, such as one too long for
  // it: CWD ends the daemon exactly when the path check passes, whatever the
  // permissions, and SIZE always.
  lemma UnseenName(cfg: Config, s: State, d: Tree, name: string, ans: Answers)
    requires s.authenticated && Unseen(s, name, ans)
    ensures Step(cfg, s, d, SIZE(name), ans).reply == Uncaught
    ensures Step(cfg, s, d, CWD(name), ans).reply == Uncaught <==> Valid(s, Resolve(s, name))
  {
    hide Norm, Resolve, Valid, Step;
    UncaughtExactly(cfg, s, d, SIZE(name), ans);
    UncaughtExactly(cfg, s, d, CWD(name), ans);
  }
}

/**
 The data channel, the transfer mode and the restart offset over whole runs.
 */
module Protocol {
  import opened Sequences
  import opened Text
  import opened Paths
  import opened Accounts
  import opened Disk
  import Transfer
  import opened Session

  // ----- The data channel -----

  // Active and passive mode exclude each other.
  predicate Exclusive(c: DataState) {
    !(c.activeEnabled && c.listening)
  }

  // After EPSV ALL only extended passive mode can be set up (RFC 2428,
  // section 4): the flag stays, and active mode never comes on.
  predicate LockedDown(before: DataState, after: DataState) {
    before.epsvAll ==> after.epsvAll && (after.activeEnabled ==> before.activeEnabled)
  }

  predicate ChannelStep(before: DataState, after: DataState) {
    (Exclusive(before) ==> Exclusive(after)) && LockedDown(before, after)
  }

  lemma AcceptChannel(c: DataState, ans: Answers)
    ensures ChannelStep(c, AfterAccept(c, ans))
  {
  }

  lemma PassiveChannel(cfg: Config, s: State, d: Tree, arg: string, ans: Answers)
    ensures ChannelStep(s.data, DoPasv(cfg, s, d, ans).s.data)
    ensures ChannelStep(s.data, DoEpsv(cfg, s, d, arg, ans).s.data)
  {
    hide Upper, FirstBindable;
  }

  lemma ActiveChannel(s: State, d: Tree, arg: string)
    ensures ChannelStep(s.data, DoPort(s, d, arg).s.data)
    ensures ChannelStep(s.data, DoEprt(s, d, arg).s.data)
  {
    hide ParseAll, Lines, EprtFields, Stoi, Dotted;
  }

  lemma TransferChannel(cfg: Config, s: State, d: Tree, arg: string, ans: Answers)
    ensures ChannelStep(s.data, DoRetr(cfg, s, d, arg, ans).s.data)
    ensures ChannelStep(s.data, DoList(s, d, arg, ans).s.data)
    ensures ChannelStep(s.data, DoMlsd(s, d, arg, ans).s.data)
  {
    hide Norm, Resolve, May, Valid, AfterAccept, ChannelStep, RetrReply;
    AcceptChannel(s.data, ans);
    SameChannel(s.data);
  }

  lemma SameChannel(c: DataState)
    ensures ChannelStep(c, c)
  {
  }

  lemma SessionChannel(cfg: Config, s: State, d: Tree, cmd: Command, ans: Answers)
    requires OfSession(cmd)
    ensures ChannelStep(s.data, DoSession(cfg, s, d, cmd, ans).s.data)
  {
    hide DoUser, DoPass, DoHost, DoCwd, DoCdup, DoList, DoMlsd, DoSize, ChannelStep;
    match cmd
    case LIST(arg) => TransferChannel(cfg, s, d, arg, ans);
    case MLSD(arg) => TransferChannel(cfg, s, d, arg, ans);
    case CWD(arg) =>
      MoveFrame(s, d, arg, ans);
      SameChannel(s.data);
    case CDUP =>
      MoveFrame(s, d, "", ans);
      SameChannel(s.data);
    case ABOR => AbortChannel(s.data);
    case _ => SameChannel(s.data);
  }

  lemma OtherChannel(cfg: Config, s: State, d: Tree, cmd: Command, ans: Answers)
    requires !Writes(cmd)
    ensures ChannelStep(s.data, DoOther(cfg, s, d, cmd, ans).s.data)
  {
    hide DoSession, DoPasv, DoEpsv, DoPort, DoEprt, DoMode, DoRest, DoRetr, DoRnfr, ChannelStep;
    if OfSession(cmd) {
      SessionChannel(cfg, s, d, cmd, ans);
    } else {
      match cmd
      case PASV => PassiveChannel(cfg, s, d, "", ans);
      case EPSV(arg) => PassiveChannel(cfg, s, d, arg, ans);
      case PORT(arg) => ActiveChannel(s, d, arg);
      case EPRT(arg) => ActiveChannel(s, d, arg);
      case RETR(arg) => TransferChannel(cfg, s, d, arg, ans);
      case _ => SameChannel(s.data);
    }
  }

  lemma AbortChannel(c: DataState)
    ensures ChannelStep(c, ClosePassive(c))
  {
  }

  lemma StepChannel(cfg: Config, s: State, d: Tree, cmd: Command, ans: Answers)
    ensures ChannelStep(s.data, Step(cfg, s, d, cmd, ans).s.data)
  {
    hide DoWrite, DoOther, AfterAccept, ChannelStep;
    SameChannel(s.data);
    AcceptChannel(s.data, ans);
    if Writes(cmd) {
      WriteFrame(cfg, s, d, cmd, ans);
    } else {
      OtherChannel(cfg, s, d, cmd, ans);
    }
  }

  // In every run: active mode and a passive listener are never up together;
  // EPSV ALL is final; from then on active mode never goes from off to on.
  lemma {:induction false} RunChannel(cfg: Config, w: World, events: seq<Event>)
    requires Exclusive(w.s.data)
    ensures Exclusive(Run(cfg, w, events).s.data)
    ensures LockedDown(w.s.data, Run(cfg, w, events).s.data)
    decreases |events|
  {
    hide Step;
    if events != [] && w.s.active {
      var o := Step(cfg, w.s, w.d, events[0].cmd, events[0].ans);
      StepChannel(cfg, w.s, w.d, events[0].cmd, events[0].ans);
      RunChannel(cfg, World(o.s, o.d), events[1..]);
    }
  }

  // Under EPSV ALL the older commands are refused and change nothing.
  lemma EpsvAllRefuses(cfg: Config, s: State, d: Tree, cmd: Command, ans: Answers)
    requires s.data.epsvAll && (cmd.PASV? || cmd.PORT? || cmd.EPRT?)
    ensures Step(cfg, s, d, cmd, ans) == Say(s, d, if s.authenticated then 501 else 530)
  {
    hide DoWrite;
  }

  // ----- The active-mode port -----

  // Armed active mode has an address and a port a client may ask for.
  predicate Armed(c: DataState) {
    c.activeEnabled ==> PortInRange(c.port)
  }

  predicate NamesBadPort(numbers: Option<seq<int>>) {
    && numbers.Some? && |numbers.value| == 6
    && !PortInRange(numbers.value[4] * 256 + numbers.value[5])
  }

  // PORT stores its operands before it checks them. It breaks the arming
  // exactly when active mode is already on and six numbers name a port out of
  // range: the refusal then leaves active mode on with the refused port.
  lemma PortArmed(s: State, d: Tree, arg: string)
    requires Armed(s.data)
    ensures Armed(DoPort(s, d, arg).s.data)
       <==> !(s.data.activeEnabled && !s.data.epsvAll && NamesBadPort(ParseAll(Lines(arg, ','))))
  {
    hide ParseAll, Lines, Dotted;
  }

  lemma EprtArmed(s: State, d: Tree, arg: string)
    requires Armed(s.data)
    ensures Armed(DoEprt(s, d, arg).s.data)
  {
    hide EprtFields, Stoi;
  }

  // ----- Transfer mode and restart offset -----

  predicate ModeAllowed(cfg: Config, s: State) {
    s.mode.Compressed? ==> cfg.compression
  }

  lemma StepMode(cfg: Config, s: State, d: Tree, cmd: Command, ans: Answers)
    requires ModeAllowed(cfg, s)
    ensures ModeAllowed(cfg, Step(cfg, s, d, cmd, ans).s)
  {
    hide DoWrite, DoUser, DoPass, DoHost, DoCwd, DoCdup, DoList, DoMlsd, DoSize, DoPasv, DoEpsv, DoPort, DoEprt;
    hide DoRest, DoRetr, DoRnfr, Upper;
    StepFrame(cfg, s, d, cmd, ans);
  }

  // So it does in every run.
  lemma {:induction false} RunMode(cfg: Config, w: World, events: seq<Event>)
    requires ModeAllowed(cfg, w.s)
    ensures ModeAllowed(cfg, Run(cfg, w, events).s)
    decreases |events|
  {
    hide Step, ModeAllowed;
    if events != [] && w.s.active {
      var o := Step(cfg, w.s, w.d, events[0].cmd, events[0].ans);
      StepMode(cfg, w.s, w.d, events[0].cmd, events[0].ans);
      RunMode(cfg, World(o.s, o.d), events[1..]);
    }
  }

  // What a transfer about to open its data connection looks like.
  lemma StoreOpening(cfg: Config, s: State, d: Tree, arg: string, ans: Answers)
    ensures var p := DoStor(cfg, s, d, arg, ans).opening;
      p.Some? ==> p.value == Opening(true, Resolve(s, arg), s.mode, s.resume) && !RestartRefused(s)
  {
    hide Norm, Resolve, May, Valid, StoredContent, CannotMakeAncestors, MakeAncestors, AncestorsLeft;
    hide OpensForUpdate, OpensTruncated, Accepts, Attempted, Uploaded, UploadOk, ModeAt;
  }

  predicate OpeningAllowed(s: State, cmd: Command, p: Option<Opening>) {
    p.Some? ==>
      && p.value.mode == s.mode
      && (p.value.offset == s.resume || (cmd.STOU? && p.value.offset == 0))
      && (s.mode.Compressed? ==> p.value.offset <= 0 && !cmd.APPE?)
  }

  lemma UploadOpening(cfg: Config, s: State, d: Tree, cmd: Command, ans: Answers)
    requires cmd.STOR? || cmd.STOU? || cmd.APPE?
    ensures OpeningAllowed(s, cmd, DoWrite(cfg, s, d, cmd, ans).opening)
  {
    hide DoStor, DoDele, DoMkd, DoRmd, DoRnto, DoChmod;
    hide Norm, Resolve, May, Valid, FirstUnused, UniqueBase, UniqueName;
    hide Accepts, Attempted, Finished, OpensForAppend, ContentAt, ModeAt;
    match cmd
    case STOR(arg) => StoreOpening(cfg, s, d, arg, ans);
    case STOU(arg) =>
      var n := FirstUnused(s, d, UniqueBase(arg), 0, ans);
      if n.Some? {
        StoreOpening(cfg, s.(resume := 0), d, UniqueName(UniqueBase(arg), n.value), ans);
      }
    case APPE(arg) =>
  }

  lemma ChangeOpensNothing(cfg: Config, s: State, d: Tree, cmd: Command, ans: Answers)
    requires cmd.DELE? || cmd.MKD? || cmd.RMD? || cmd.RNTO? || cmd.CHMOD?
    ensures DoWrite(cfg, s, d, cmd, ans).opening == None
  {
    hide DoStor, DoStou, DoAppe, Norm, Resolve, May, Valid, Move, Stoull, CanRename;
  }

  lemma OtherOpening(cfg: Config, s: State, d: Tree, cmd: Command, ans: Answers)
    requires !Writes(cmd)
    ensures OpeningAllowed(s, cmd, DoOther(cfg, s, d, cmd, ans).opening)
  {
    hide Norm, Resolve, May, Valid, Identify, Lookup, Upper, FirstBindable, ParseAll, Lines, EprtFields;
    hide Stoi, Stoull, Accepts, Attempted, Finished, RetrReply, SessionLimitReached, Dotted;
  }

  lemma StepOpening(cfg: Config, s: State, d: Tree, cmd: Command, ans: Answers)
    ensures OpeningAllowed(s, cmd, Step(cfg, s, d, cmd, ans).opening)
  {
    hide DoWrite, DoOther;
    if cmd.STOR? || cmd.STOU? || cmd.APPE? {
      UploadOpening(cfg, s, d, cmd, ans);
    } else if Writes(cmd) {
      ChangeOpensNothing(cfg, s, d, cmd, ans);
    } else {
      OtherOpening(cfg, s, d, cmd, ans);
    }
  }

  // REST values from 2^63 on turn into negative stream positions.
  predicate SmallRest(cmd: Command) {
    cmd.REST? ==> var v := Stoull(cmd.arg, 10); v.Some? ==> v.value < TWO_63
  }

  lemma SessionResume(cfg: Config, s: State, d: Tree, cmd: Command, ans: Answers)
    requires OfSession(cmd)
    ensures DoSession(cfg, s, d, cmd, ans).s.resume == s.resume
  {
    hide DoUser, DoPass, DoHost, DoCwd, DoCdup, DoList, DoMlsd, DoSize;
    if cmd.CWD? || cmd.CDUP? {
      MoveFrame(s, d, if cmd.CWD? then cmd.arg else "", ans);
    }
  }

  lemma StepResume(cfg: Config, s: State, d: Tree, cmd: Command, ans: Answers)
    requires s.resume >= 0 && SmallRest(cmd)
    ensures Step(cfg, s, d, cmd, ans).s.resume >= 0
  {
    hide DoWrite, DoSession, DoPasv, DoEpsv, DoPort, DoEprt;
    hide DoRnfr, DoMode, Norm, Resolve, May, Valid, Stoull, AfterAccept, RetrReply;
    if Writes(cmd) {
      WriteFrame(cfg, s, d, cmd, ans);
    } else if OfSession(cmd) {
      SessionResume(cfg, s, d, cmd, ans);
    }
  }

  // Every data connection a run is about to open for a file transfer.
  function Openings(cfg: Config, w: World, events: seq<Event>): seq<Opening>
    decreases |events|
  {
    if events == [] || !w.s.active then []
    else
      var o := Step(cfg, w.s, w.d, events[0].cmd, events[0].ans);
      (if o.opening.Some? then [o.opening.value] else []) + Openings(cfg, World(o.s, o.d), events[1..])
  }

  // In every run, for every order of MODE, REST and transfer commands: a
  // compressed transfer gets as far as its data connection only when
  // compression is enabled, and never with a positive restart offset; the
  // offset is zero unless some REST named a position from 2^63 on.
  lemma {:induction false} CompressedTransfersStartAtZero(cfg: Config, w: World, events: seq<Event>, p: Opening)
    requires ModeAllowed(cfg, w.s)
    requires p in Openings(cfg, w, events) && p.mode.Compressed?
    ensures cfg.compression && p.offset <= 0
    ensures w.s.resume >= 0 && (forall e :: e in events ==> SmallRest(e.cmd)) ==> p.offset == 0
    decreases |events|
  {
    hide Step, Stoull;
    var e := events[0];
    var o := Step(cfg, w.s, w.d, e.cmd, e.ans);
    StepMode(cfg, w.s, w.d, e.cmd, e.ans);
    StepOpening(cfg, w.s, w.d, e.cmd, e.ans);
    assert e in events;
    if w.s.resume >= 0 && SmallRest(e.cmd) {
      StepResume(cfg, w.s, w.d, e.cmd, e.ans);
    }
    if p in Openings(cfg, World(o.s, o.d), events[1..]) {
      CompressedTransfersStartAtZero(cfg, World(o.s, o.d), events[1..], p);
    }
  }

  lemma UpperZ()
    ensures Upper("Z") == "Z"
  {
  }

  // The positions from 2^63 on do get through: REST, then MODE Z, then RETR
  // opens a compressed download at a negative offset.
  lemma HugeRestOpensCompressed(cfg: Config, s: State, d: Tree, v: nat, arg: string, ans: Answers)
    requires s.authenticated && s.mode.Stream? && cfg.compression && TWO_63 <= v < TWO_64
    requires May(s, "read", arg) && Valid(s, Resolve(s, arg)) && IsFile(d, Norm(Resolve(s, arg)))
    requires Norm(Resolve(s, arg)) !in ans.unseen
    ensures var s1 := DoRest(s, d, ToDecimal(v)).s;
            var s2 := DoMode(cfg, s1, d, "Z").s;
            DoRetr(cfg, s2, d, arg, ans).opening
              == Some(Opening(false, Resolve(s, arg), Compressed, v - TWO_64))
  {
    hide Resolve, May, Valid, DoRest, DoMode, DoRetr;
    HugeRest(s, d, v);
    var s1 := DoRest(s, d, ToDecimal(v)).s;
    ModeZ(cfg, s1, d);
    SameUser(s, v - TWO_64, arg);
    CompressedOpens(cfg, s1.(mode := Compressed), d, arg, ans);
  }

  lemma HugeRest(s: State, d: Tree, v: nat)
    requires s.mode.Stream? && TWO_63 <= v < TWO_64
    ensures DoRest(s, d, ToDecimal(v)).s == s.(resume := v - TWO_64)
  {
    hide Scan;
    ScanDecimal(v);
  }

  lemma ModeZ(cfg: Config, s: State, d: Tree)
    requires cfg.compression
    ensures DoMode(cfg, s, d, "Z").s == s.(mode := Compressed)
  {
    hide Upper;
    UpperZ();
  }

  // Neither the offset nor the mode matters to the checks.
  lemma SameUser(s: State, resume: int, arg: string)
    ensures var t := s.(resume := resume, mode := Compressed);
      && Resolve(t, arg) == Resolve(s, arg)
      && May(t, "read", arg) == May(s, "read", arg) && Valid(t, Resolve(t, arg)) == Valid(s, Resolve(s, arg))
  {
    hide Norm, Permits;
  }

  lemma CompressedOpens(cfg: Config, s: State, d: Tree, arg: string, ans: Answers)
    requires s.mode.Compressed? && s.resume <= 0 && cfg.compression
    requires May(s, "read", arg) && Valid(s, Resolve(s, arg)) && IsFile(d, Norm(Resolve(s, arg)))
    requires Norm(Resolve(s, arg)) !in ans.unseen
    ensures DoRetr(cfg, s, d, arg, ans).opening == Some(Opening(false, Resolve(s, arg), Compressed, s.resume))
  {
    hide Norm, Resolve, May, Valid, RetrReply, Attempted, Finished;
  }

  // ----- STOU -----

  lemma UniqueNameShape(base: string, n: nat)
    requires '/' !in base
    ensures IsName(UniqueName(base, n)) && !IsAbsolute(UniqueName(base, n))
  {
    var digits := ToDecimal(n);
    assert forall i :: 0 <= i < |digits| ==> digits[i] in digits;
  }

  lemma UniqueBaseShape(arg: string)
    ensures '/' !in UniqueBase(arg)
  {
    var parts := Split(arg, '/');
    assert Last(parts) in parts;
  }

  // The name STOU probes is the path it then stores to, exactly when the text
  // of the working directory is not empty.
  lemma ProbeIsTarget(s: State, name: string)
    requires IsName(name)
    ensures Norm(Resolve(s, name)) == Norm(s.directory + "/" + name) <==> s.directory != ""
  {
    hide Normalize, RelativeComponents, Render;
    var p := Components(s.directory) + RelativeComponents(name);
    assert Candidate(s, name) == p by {
      assert Components(name) == [] + RelativeComponents(name);
    }
    NormOfRender(p);
    if s.directory != "" {
      ComponentsOfAppend(s.directory, name);
    } else {
      assert s.directory + "/" + name == "/" + name;
      NormAbsolute("/" + name);
      NothingBefore();
      assert p == RelativeComponents(name);
      RelativeNorm(p);
    }
  }

  lemma NothingBefore()
    ensures Components("") == []
  {
    ComponentsOfRender([]);
  }

  lemma RelativeNorm(p: Path)
    requires forall c :: c in p ==> IsName(c)
    ensures Normalize(p) == [] || Normalize(p)[0] != ROOT
  {
    FoldShape(p);
    assert ROOT[0] == '/';
    if p != [] {
      assert p[0] in p;
    }
    if Fold(p) != [] {
      assert Fold(p)[0] == ".." || IsPlain(Fold(p)[0]);
    }
  }

  lemma StorKeepsOthers(cfg: Config, s: State, d: Tree, arg: string, ans: Answers, q: Path)
    requires q in d && q != Norm(Resolve(s, arg))
    ensures At(DoStor(cfg, s, d, arg, ans).d, q) == At(d, q)
  {
    hide Norm, Resolve, May, Valid, StoredContent, AncestorIsFile;
  }

  // The only existing node that STOU can change is its target, and that only
  // where the working directory has no text or the status of the target cannot
  // be told.
  lemma StouNeverOverwrites(cfg: Config, s: State, d: Tree, arg: string, ans: Answers, q: Path)
    requires q in d && At(DoStou(cfg, s, d, arg, ans).d, q) != At(d, q)
    ensures s.directory == "" || q in ans.unseen
    ensures var n := FirstUnused(s, d, UniqueBase(arg), 0, ans);
      n.Some? && q == Norm(Resolve(s, UniqueName(UniqueBase(arg), n.value)))
  {
    var base := UniqueBase(arg);
    hide Norm, Resolve, DoStor, UniqueName, UniqueBase;
    var n := FirstUnused(s, d, base, 0, ans);
    var name := UniqueName(base, n.value);
    UniqueBaseShape(arg);
    UniqueNameShape(base, n.value);
    var s0 := s.(resume := 0);
    SameResolution(s, s0, name);
    ProbeIsTarget(s, name);
    assert !Taken(s, d, base, n.value, ans);
    if q != Norm(Resolve(s0, name)) {
      StorKeepsOthers(cfg, s0, d, name, ans, q);
    }
  }

  lemma SameResolution(s: State, t: State, arg: string)
    requires s.user == t.user && s.directory == t.directory
    ensures Resolve(s, arg) == Resolve(t, arg)
  {
  }

  // A name in the empty working directory of a user with an empty home.
  lemma ResolveWithoutHome(s: State, name: string)
    requires IsPlain(name) && s.directory == "" && s.host == None
    requires s.user.Some? && s.user.value.home == "" && s.user.value.permissions == []
    ensures Norm(Resolve(s, name)) == [name] && Valid(s, Resolve(s, name)) && May(s, "write", name)
  {
    NothingBefore();
    ComponentsOfRender([name]);
    assert Render([name]) == name && Components(name) == [name];
    assert Candidate(s, name) == [name];
    FoldFixed([name]);
    NormOfRender([name]);
    assert Norm("") == [] by { assert Fold([]) == []; }
  }

  lemma StorReplaces(cfg: Config, s: State, d: Tree, arg: string, ans: Answers)
    requires s.mode.Stream? && s.resume == 0 && s.data.listening && !s.data.activeEnabled
    requires May(s, "write", arg) && Valid(s, Resolve(s, arg)) && EffectiveQuota(s) == 0
    requires IsFile(d, Norm(Resolve(s, arg))) && |Norm(Resolve(s, arg))| == 1
    requires ans.channel.Established? && ans.openForWrite
    ensures At(DoStor(cfg, s, d, arg, ans).d, Norm(Resolve(s, arg)))
         == Some(File(Transfer.WriteAt([], 0, Transfer.Kept(Transfer.Flatten(ans.chunks), ans.written)),
                      d[Norm(Resolve(s, arg))].mode))
  {
    hide Norm, Resolve, May, Valid, EffectiveQuota, Transfer.WriteAt, Transfer.Flatten, Transfer.Kept;
    var k := Norm(Resolve(s, arg));
    assert Ancestors(k) == {};
    assert MakeAncestors(d, k) == d;
  }

  // With an empty home, which makes the working directory empty, it does: the
  // name is probed under the root and stored outside it.
  lemma StouOverwritesWithoutHome(cfg: Config, s: State, d: Tree, f: string, mode: nat, was: seq<Byte>, ans: Answers)
    requires f != "" && '/' !in f && d == map[[UniqueName(f, 0)] := File(was, mode)]
    requires s.user == Some(NewUser("u", "", "")) && s.directory == "" && s.host == None
    requires s.mode.Stream? && s.data.listening && !s.data.activeEnabled
    requires ans.channel.Established? && ans.openForWrite
    ensures At(DoStou(cfg, s, d, f, ans).d, [UniqueName(f, 0)])
         == Some(File(Transfer.WriteAt([], 0, Transfer.Kept(Transfer.Flatten(ans.chunks), ans.written)), mode))
  {
    hide Norm, Resolve, DoStor, Valid, May, UniqueName, Transfer.WriteAt, Transfer.Flatten, Transfer.Kept;
    var name, s0 := UniqueName(f, 0), s.(resume := 0);
    BaseOfName(f);
    UniqueNameShape(f, 0);
    UniqueNamePlain(f, 0);
    ResolveWithoutHome(s0, name);
    assert !Taken(s, d, f, 0, ans) by {
      ProbeIsTarget(s0, name);
      ResolveWithoutHome(s, name);
      ProbeIsTarget(s, name);
    }
    StorReplaces(cfg, s0, d, name, ans);
  }

  lemma BaseOfName(f: string)
    requires f != "" && '/' !in f
    ensures UniqueBase(f) == f
  {
    SplitNoDelimiter(f, '/');
  }

  lemma UniqueNamePlain(base: string, n: nat)
    requires '/' !in base && base != ""
    ensures IsPlain(UniqueName(base, n))
  {
    UniqueNameShape(base, n);
    var name, digits := UniqueName(base, n), ToDecimal(n);
    assert name[|name| - 1] == digits[|digits| - 1] && digits[|digits| - 1] in digits;
    assert IsDigit(digits[|digits| - 1], 10);
  }
}

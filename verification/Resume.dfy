/**
 What a transfer amounts to across commands: what uploads leave in the file,
 with section 5 of RFC 3659 carried through REST, STOR and APPE, and what the
 reply to a download is worth.
 */
module Resume {
  import opened Text
  import opened Paths
  import opened Disk
  import opened Transfer
  import opened Session

  lemma MakeAncestorsKeeps(d: Tree, k: Path)
    ensures At(MakeAncestors(d, k), k) == At(d, k)
  {
    if k in MissingAncestors(d, k) {
      AncestorsAreProperPrefixes(k, k);
    }
  }

  // The received bytes that reach the file: those that can be written.
  function Stays(ans: Answers): seq<Byte> {
    Kept(Flatten(ans.chunks), ans.written)
  }

  predicate AllWritten(ans: Answers) {
    |Flatten(ans.chunks)| <= ans.written
  }

  // An upload that restarts inside an existing file.
  predicate Updates(s: State, d: Tree, arg: string, ans: Answers) {
    s.resume > 0 && IsFile(d, Target(s, arg)) && ans.openForUpdate
  }

  // What an upload writes over, and from where on.
  function Base(s: State, d: Tree, arg: string, ans: Answers): seq<Byte> {
    if Updates(s, d, arg, ans) then d[Target(s, arg)].content else []
  }

  function Start(s: State, d: Tree, arg: string, ans: Answers): nat {
    if Updates(s, d, arg, ans) then s.resume else 0
  }

  // An uncompressed upload answered 226 leaves those of the received bytes that
  // could be written, in whatever chunks they came: alone, or written over the
  // file from the restart offset on. It also spends the offset.
  lemma StorLeaves(cfg: Config, s: State, d: Tree, arg: string, ans: Answers)
    requires s.mode.Stream? && DoStor(cfg, s, d, arg, ans).reply == Code(226)
    ensures var o, k := DoStor(cfg, s, d, arg, ans), Target(s, arg);
      && IsFile(o.d, k) && o.s.resume == 0
      && o.d[k].content == WriteAt(Base(s, d, arg, ans), Start(s, d, arg, ans), Stays(ans))
      && o.d[k].mode == if k in d then d[k].mode else 0x1A4
  {
    hide Norm, Resolve, May, Valid, MissingAncestors, CannotMakeAncestors, MakeAncestors, AncestorsLeft, Accepts;
    hide AfterAccept, WriteAt, Flatten, Kept, EffectiveQuota;
    MakeAncestorsKeeps(d, Target(s, arg));
  }

  lemma WriteAtStart(data: seq<Byte>)
    ensures WriteAt([], 0, data) == data
  {
    assert [] + data == data;
  }

  lemma RestSets(s: State, d: Tree, k: nat)
    requires s.mode.Stream? && k < TWO_63
    ensures DoRest(s, d, ToDecimal(k)).s == s.(resume := k)
    ensures DoRest(s, d, ToDecimal(k)).reply == Code(350)
  {
    hide ToDecimal, Scan;
    ScanDecimal(k);
  }

  // REST k and STOR on an existing file of at least k bytes: the bytes before
  // k stay, those written follow, and what lies beyond them stays too.
  lemma RestThenStor(cfg: Config, s: State, d: Tree, arg: string, k: nat, ans: Answers)
    requires s.mode.Stream? && 0 < k < TWO_63
    requires IsFile(d, Target(s, arg)) && k <= |d[Target(s, arg)].content| && ans.openForUpdate
    requires DoStor(cfg, DoRest(s, d, ToDecimal(k)).s, d, arg, ans).reply == Code(226)
    ensures var before := d[Target(s, arg)].content;
      var data := Stays(ans);
      var after := DoStor(cfg, DoRest(s, d, ToDecimal(k)).s, d, arg, ans).d;
      && IsFile(after, Target(s, arg))
      && after[Target(s, arg)].content ==
           before[..k] + data + (if k + |data| <= |before| then before[k + |data|..] else [])
  {
    hide Norm, Resolve, DoStor, DoRest, Stays;
    RestSets(s, d, k);
    SameTarget(s, s.(resume := k), arg);
    StorLeaves(cfg, s.(resume := k), d, arg, ans);
    WriteAtParts(d[Target(s, arg)].content, k, Stays(ans));
  }

  lemma SameTarget(s: State, t: State, arg: string)
    requires s.user == t.user && s.directory == t.directory
    ensures Target(s, arg) == Target(t, arg)
  {
  }

  // An interrupted upload, all of which was written, completed by REST and
  // STOR leaves what was sent first and then what could be written of the rest,
  // wherever it was cut and however each half was chunked.
  lemma UploadResumed(cfg: Config, s: State, d: Tree, arg: string, first: Answers, rest: Answers)
    requires s.mode.Stream? && s.resume == 0
    requires first.chunks != [] && |Flatten(first.chunks)| < TWO_63 && rest.openForUpdate && AllWritten(first)
    requires DoStor(cfg, s, d, arg, first).reply == Code(226)
    requires var o1, k := DoStor(cfg, s, d, arg, first), |Flatten(first.chunks)|;
      DoStor(cfg, DoRest(o1.s, o1.d, ToDecimal(k)).s, o1.d, arg, rest).reply == Code(226)
    ensures var o1, k := DoStor(cfg, s, d, arg, first), |Flatten(first.chunks)|;
      var after := DoStor(cfg, DoRest(o1.s, o1.d, ToDecimal(k)).s, o1.d, arg, rest).d;
      && IsFile(after, Target(s, arg))
      && after[Target(s, arg)].content == Flatten(first.chunks) + Stays(rest)
      && (AllWritten(rest) ==> after[Target(s, arg)].content == Flatten(first.chunks) + Flatten(rest.chunks))
  {
    hide Norm, Resolve, DoStor, DoRest;
    var o1, sent := DoStor(cfg, s, d, arg, first), Flatten(first.chunks);
    StorLeaves(cfg, s, d, arg, first);
    WriteAtStart(sent);
    StorFrame(cfg, s, d, arg, first);
    SameTarget(s, o1.s, arg);
    assert first.chunks[|first.chunks| - 1] != [];
    RestThenStor(cfg, o1.s, o1.d, arg, |sent|, rest);
    assert sent[..|sent|] == sent;
    var data := Stays(rest);
    assert |sent| + |data| <= |sent| ==> sent[|sent| + |data|..] == [];
    assert sent + data + [] == sent + data;
  }

  // APPE leaves the old content followed by what could be written.
  lemma AppeLeaves(s: State, d: Tree, arg: string, ans: Answers)
    requires DoAppe(s, d, arg, ans).reply == Code(226)
    ensures var o, k := DoAppe(s, d, arg, ans), Target(s, arg);
      && IsFile(o.d, k) && o.s.resume == 0
      && o.d[k].content == (if IsFile(d, k) then d[k].content else []) + Stays(ans)
      && o.d[k].mode == if k in d then d[k].mode else 0x1A4
  {
    hide Norm, Resolve, May, Valid, Accepts, AfterAccept, Flatten, Kept;
  }

  // Appending is resuming at the end of the file.
  lemma AppendIsResumeAtEnd(cfg: Config, s: State, d: Tree, arg: string, ans: Answers)
    requires s.mode.Stream? && ans.openForUpdate
    requires IsFile(d, Target(s, arg)) && 0 < |d[Target(s, arg)].content| < TWO_63
    requires DoAppe(s, d, arg, ans).reply == Code(226)
    requires var k := |d[Target(s, arg)].content|;
      DoStor(cfg, DoRest(s, d, ToDecimal(k)).s, d, arg, ans).reply == Code(226)
    ensures var k := |d[Target(s, arg)].content|;
      At(DoAppe(s, d, arg, ans).d, Target(s, arg)) ==
      At(DoStor(cfg, DoRest(s, d, ToDecimal(k)).s, d, arg, ans).d, Target(s, arg))
  {
    hide Norm, Resolve, DoStor, DoRest, DoAppe, Stays, ModeAt;
    var before := d[Target(s, arg)].content;
    var k := |before|;
    AppeLeaves(s, d, arg, ans);
    RestThenStor(cfg, s, d, arg, k, ans);
    assert before[..k] == before;
    var data := Stays(ans);
    assert k + |data| <= k ==> before[k + |data|..] == [];
    assert before + data + [] == before + data;
    RestSets(s, d, k);
    SameTarget(s, s.(resume := k), arg);
    StorLeaves(cfg, s.(resume := k), d, arg, ans);
  }

  // ----- What the reply to an upload is worth -----

  lemma StoreRoom(s: State, d: Tree, t: string, ans: Answers, room: nat)
    ensures StoreAt(s, d, t, ans.(written := room)).reply == StoreAt(s, d, t, ans).reply
  {
    hide Norm, StoredContent, ModeAt, AfterAccept, MakeAncestors, MakeAncestorsUpTo, AncestorIsFile, MissingAncestors;
  }

  lemma RoomMakesNoDifference(cfg: Config, s: State, d: Tree, arg: string, ans: Answers, room: nat)
    requires s.mode.Stream?
    ensures DoStor(cfg, s, d, arg, ans.(written := room)).reply == DoStor(cfg, s, d, arg, ans).reply
  {
    hide Norm, Resolve, May, Valid, StoreAt, EffectiveQuota;
    StoreRoom(s, d, Resolve(s, arg), ans, room);
  }

  // What is in the target file when `room` bytes can be written.
  function StoredWith(cfg: Config, s: State, d: Tree, arg: string, ans: Answers, room: nat): Option<Node> {
    At(DoStor(cfg, s, d, arg, ans.(written := room)).d, Target(s, arg))
  }

  predicate Holds(n: Option<Node>, content: seq<Byte>) {
    n.Some? && n.value.File? && n.value.content == content
  }

  // A write that fails goes unnoticed: an uncompressed STOR answered 226 would
  // be however much of it could be written. The reply guarantees the whole
  // upload exactly when writing it changes nothing, because nothing was received
  // or a restarted upload repeats what the file holds already.
  lemma UploadReplyHidesLoss(cfg: Config, s: State, d: Tree, arg: string, ans: Answers)
    requires s.mode.Stream? && DoStor(cfg, s, d, arg, ans).reply == Code(226)
    ensures var base, start, data := Base(s, d, arg, ans), Start(s, d, arg, ans), Flatten(ans.chunks);
      (forall room: nat :: Holds(StoredWith(cfg, s, d, arg, ans, room), WriteAt(base, start, data)))
      <==> AlreadyThere(base, start, data)
    ensures forall room: nat :: DoStor(cfg, s, d, arg, ans.(written := room)).reply == Code(226)
  {
    hide Norm, Resolve, DoStor, WriteAt, Kept, Flatten, AlreadyThere;
    var base, start, data := Base(s, d, arg, ans), Start(s, d, arg, ans), Flatten(ans.chunks);
    forall room: nat
      ensures DoStor(cfg, s, d, arg, ans.(written := room)).reply == Code(226)
      ensures Holds(StoredWith(cfg, s, d, arg, ans, room), WriteAt(base, start, data))
         <==> WriteAt(base, start, Kept(data, room)) == WriteAt(base, start, data)
    {
      RoomMakesNoDifference(cfg, s, d, arg, ans, room);
      StorLeaves(cfg, s, d, arg, ans.(written := room));
    }
    WholeWhateverRoom(base, start, data);
    if forall room: nat :: Holds(StoredWith(cfg, s, d, arg, ans, room), WriteAt(base, start, data)) {
      forall room: nat ensures WriteAt(base, start, Kept(data, room)) == WriteAt(base, start, data) {
        assert Holds(StoredWith(cfg, s, d, arg, ans, room), WriteAt(base, start, data));
      }
    }
  }

  function AppendedWith(s: State, d: Tree, arg: string, ans: Answers, room: nat): Option<Node> {
    At(DoAppe(s, d, arg, ans.(written := room)).d, Target(s, arg))
  }

  // The same for APPE, where only an empty upload leaves nothing to lose.
  lemma AppendReplyHidesLoss(s: State, d: Tree, arg: string, ans: Answers)
    requires s.mode.Stream? && DoAppe(s, d, arg, ans).reply == Code(226)
    ensures (forall room: nat ::
               Holds(AppendedWith(s, d, arg, ans, room), ContentAt(d, Target(s, arg)) + Flatten(ans.chunks)))
       <==> Flatten(ans.chunks) == []
  {
    hide Norm, Resolve, DoAppe, Flatten;
    var was, data := ContentAt(d, Target(s, arg)), Flatten(ans.chunks);
    forall room: nat
      ensures Holds(AppendedWith(s, d, arg, ans, room), was + Kept(data, room))
    {
      AppendRoom(s, d, arg, ans, room);
      AppeLeaves(s, d, arg, ans.(written := room));
    }
    if data != [] {
      assert Kept(data, 0) == [] && was + [] != was + data;
      assert Holds(AppendedWith(s, d, arg, ans, 0), was + Kept(data, 0));
    }
  }

  lemma AppendRoom(s: State, d: Tree, arg: string, ans: Answers, room: nat)
    ensures DoAppe(s, d, arg, ans.(written := room)).reply == DoAppe(s, d, arg, ans).reply
  {
    hide Norm, Resolve, May, Valid, ModeAt, ContentAt, Kept, Flatten, AfterAccept;
  }

  // A stream-mode download that gets its data connection is answered 226
  // whatever the system calls do to it. That reply guarantees the whole rest of
  // the file exactly when there is nothing to send.
  lemma ReplyHidesLoss(cfg: Config, s: State, d: Tree, arg: string, ans: Answers)
    requires DoRetr(cfg, s, d, arg, ans).opening.Some? && Accepts(s.data, ans)
    requires Downloads(s, |d[Target(s, arg)].content|, ans)
    ensures DoRetr(cfg, s, d, arg, ans).reply == Code(226)
    ensures var content := d[Target(s, arg)].content;
      (forall kernel, wire, complete :: Fetched(cfg, s, content, ans.(kernel := kernel), wire, complete) ==>
         wire == content[s.resume..])
      <==> content == []
  {
    hide Norm, Resolve, May, Valid, Accepts, AfterAccept, Possible, Completed, Wire;
    var content := d[Target(s, arg)].content;
    if content != [] {
      NothingSent(content, s.resume, cfg.useSendfile, cfg.useMmap);
      var refusing := Kernel(_ => -1, true);
      assert !Willing(refusing, BufferSize(cfg.bufferSize)) by {
        assert refusing.script(0) == -1;
      }
      assert Fetched(cfg, s, content, ans.(kernel := refusing), [], false);
    } else {
      forall kernel, wire, complete | Fetched(cfg, s, content, ans.(kernel := kernel), wire, complete)
        ensures wire == []
      {
        EmptyFile(content, cfg.useSendfile, cfg.useMmap, wire, complete);
      }
    }
  }

  lemma NothingSent(content: seq<Byte>, resume: nat, useSendfile: bool, useMmap: bool)
    requires resume < |content|
    ensures Delivers(content, resume, useSendfile, useMmap, [], false)
  {
    assert Possible(content, resume, useSendfile, useMmap, 0, 0, 0);
    assert Wire(content, resume, 0, 0, 0) == [];
  }

  lemma EmptyFile(content: seq<Byte>, useSendfile: bool, useMmap: bool, wire: seq<Byte>, complete: bool)
    requires content == [] && Delivers(content, 0, useSendfile, useMmap, wire, complete)
    ensures wire == []
  {
  }
}

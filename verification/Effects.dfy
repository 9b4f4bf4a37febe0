/**
 What each command achieves, and exactly when: its success reply, the change it
 makes to the tree and to the session, and that it changes nothing else.
 */
module Effects {
  import opened Sequences
  import opened Text
  import opened Paths
  import opened Accounts
  import opened Disk
  import opened Transfer
  import opened Session

  // Logged in, permitted, and inside the home and the root of the host.
  predicate Allowed(s: State, operation: string, arg: string) {
    s.authenticated && Checked(s, operation, arg)
  }

  // Allowed, and the system can tell the status of the target.
  predicate Ready(s: State, operation: string, arg: string, ans: Answers) {
    Allowed(s, operation, arg) && Target(s, arg) !in ans.unseen
  }

  // The trees agree everywhere but at one path.
  ghost predicate SameElsewhere(d: Tree, after: Tree, k: Path) {
    forall q :: q != k ==> At(after, q) == At(d, q)
  }

  // ----- Files and directories -----

  // DELE removes a file: success means that it is gone and nothing else.
  lemma DeleEffect(cfg: Config, s: State, d: Tree, arg: string, ans: Answers)
    ensures var o, k := Step(cfg, s, d, DELE(arg), ans), Target(s, arg);
      && (o.reply == Code(250) <==> Ready(s, "write", arg, ans) && IsFile(d, k) && ans.systemOk)
      && if o.reply == Code(250) then k !in o.d && SameElsewhere(d, o.d, k) && o.s == s else o.d == d
  {
    hide Norm, Resolve, May, Valid, DoOther, DoStor, DoStou, DoAppe;
  }

  // MKD makes a directory where nothing is, below one that exists.
  lemma MkdEffect(cfg: Config, s: State, d: Tree, arg: string, ans: Answers)
    ensures var o, k := Step(cfg, s, d, MKD(arg), ans), Target(s, arg);
      && (o.reply == Code(257) <==>
            Allowed(s, "write", arg) && k !in d && (|k| > 1 ==> IsDirectory(d, Front(k))) && ans.systemOk)
      && if o.reply == Code(257) then At(o.d, k) == Some(Directory(0x1ED)) && SameElsewhere(d, o.d, k) && o.s == s
         else o.d == d
  {
    hide Norm, Resolve, May, Valid, DoOther, DoStor, DoStou, DoAppe;
  }

  // RMD removes a directory with nothing below it.
  lemma RmdEffect(cfg: Config, s: State, d: Tree, arg: string, ans: Answers)
    ensures var o, k := Step(cfg, s, d, RMD(arg), ans), Target(s, arg);
      && (o.reply == Code(250) <==>
            && Ready(s, "write", arg, ans) && IsDirectory(d, k) && ans.systemOk
            && (forall q :: q in d && k <= q ==> q == k))
      && if o.reply == Code(250) then k !in o.d && SameElsewhere(d, o.d, k) && o.s == s else o.d == d
  {
    hide Norm, Resolve, May, Valid, DoOther, DoStor, DoStou, DoAppe;
  }

  // SITE CHMOD sets the mode to the low twelve bits of the octal number and
  // keeps what the node holds.
  lemma ChmodEffect(cfg: Config, s: State, d: Tree, bits: string, arg: string, ans: Answers)
    ensures var o, k := Step(cfg, s, d, CHMOD(bits, arg), ans), Target(s, arg);
      && (o.reply == Code(200) <==>
            && Allowed(s, "write", arg) && bits != "" && arg != "" && Stoull(bits, 8).Some?
            && k in d && ans.systemOk)
      && o.s == s
      && if o.reply == Code(200) then
           && k in o.d && SameElsewhere(d, o.d, k)
           && o.d[k].mode == Stoull(bits, 8).value % 4096
           && o.d[k].File? == d[k].File? && (d[k].File? ==> o.d[k].content == d[k].content)
         else o.d == d
  {
    hide Norm, Resolve, May, Valid, Stoull, DoOther, DoStor, DoStou, DoAppe;
  }

  // The octal number of three digits, as modes are written.
  lemma OctalMode(a: char, b: char, c: char)
    requires '0' <= a <= '7' && '0' <= b <= '7' && '0' <= c <= '7'
    ensures Stoull([a, b, c], 8) == Some(64 * DigitValue(a) + 8 * DigitValue(b) + DigitValue(c))
  {
    hide Scan, Number, AllDigits;
    assert [] + [a] == [a] && [a] + [b] == [a, b] && [a, b] + [c] == [a, b, c];
    NoDigits();
    OneDigitMore([], a);
    OneDigitMore([a], b);
    OneDigitMore([a, b], c);
    ScanDigits([a, b, c], 8);
  }

  lemma NoDigits()
    ensures AllDigits("", 8) && Number("", 8) == 0
  {
  }

  lemma OneDigitMore(s: string, c: char)
    requires AllDigits(s, 8) && '0' <= c <= '7'
    ensures AllDigits(s + [c], 8) && Number(s + [c], 8) == 8 * Number(s, 8) + DigitValue(c)
  {
    assert (s + [c])[..|s|] == s;
  }

  // RNFR remembers the very path that passed the checks.
  lemma RnfrEffect(cfg: Config, s: State, d: Tree, arg: string, ans: Answers)
    ensures var o, k := Step(cfg, s, d, RNFR(arg), ans), Target(s, arg);
      && (o.reply == Code(350) <==> Ready(s, "write", arg, ans) && k in d)
      && o.d == d
      && (o.reply == Code(350) ==> o.s == s.(renameFrom := Resolve(s, arg)))
      && (o.reply != Code(350) ==> o.s.renameFrom == s.renameFrom)
  {
    hide Norm, Resolve, May, Valid, DoWrite;
  }

  // RNTO moves the remembered tree to a free place below an existing directory
  // and outside itself: everything arrives with what it held, the old place is
  // empty, and the rest is as it was.
  lemma RntoEffect(cfg: Config, s: State, d: Tree, arg: string, ans: Answers)
    ensures var o, from, to := Step(cfg, s, d, RNTO(arg), ans), Norm(s.renameFrom), Target(s, arg);
      && (o.reply == Code(250) <==>
            && s.renameFrom != "" && Ready(s, "write", arg, ans) && to !in d && ans.systemOk
            && from in d && (|to| > 1 ==> IsDirectory(d, Front(to))) && !(from <= to))
      && if o.reply == Code(250) then
           && o.s == s.(renameFrom := "")
           && (forall r :: r in d && from <= r ==> At(o.d, to + r[|from|..]) == Some(d[r]))
           && (forall r :: r in d && from <= r && !(to <= r) ==> r !in o.d)
           && (forall q :: !(from <= q) && !(to <= q) ==> At(o.d, q) == At(d, q))
         else o.d == d
  {
    hide Norm, Resolve, May, Valid, Move, DoOther, DoStor, DoStou, DoAppe;
    var from, to := Norm(s.renameFrom), Target(s, arg);
    if from in d && !(from <= to) {
      forall r | r in d && from <= r
        ensures At(Move(d, from, to), to + r[|from|..]) == Some(d[r])
        ensures !(to <= r) ==> r !in Move(d, from, to)
      {
        MoveDelivers(d, from, to, r);
      }
      forall q | !(from <= q) && !(to <= q) ensures At(Move(d, from, to), q) == At(d, q) {
        MoveElsewhere(d, from, to, q);
      }
    }
  }

  // CWD moves to a directory, and to no other than the one named.
  lemma CwdEffect(cfg: Config, s: State, d: Tree, arg: string, ans: Answers)
    ensures var o, k := Step(cfg, s, d, CWD(arg), ans), Target(s, arg);
      && (o.reply == Code(250) <==>
            s.authenticated && Valid(s, Resolve(s, arg)) && k !in ans.unseen && IsDirectory(d, k))
      && o.d == d
      && (o.reply == Code(250) ==> o.s == s.(directory := o.s.directory) && Norm(o.s.directory) == k)
      && (o.reply != Code(250) ==> o.s.directory == s.directory)
  {
    hide Norm, Resolve, Valid, DoWrite;
  }

  // SIZE finds files only, and checks nothing but the login.
  lemma SizeEffect(cfg: Config, s: State, d: Tree, arg: string, ans: Answers)
    ensures var o, k := Step(cfg, s, d, SIZE(arg), ans), Target(s, arg);
      && (o.reply == Code(213) <==> s.authenticated && k !in ans.unseen && IsFile(d, k) && ans.systemOk)
      && o.d == d && o.s == s.(active := o.s.active)
  {
    hide Norm, Resolve, DoWrite;
  }

  // ----- Transfers -----

  // The data connection comes about: active mode with an address to connect
  // to, or else a passive listener, and a peer that is there.
  predicate Connects(s: State, ans: Answers) {
    && ans.channel.Established?
    && if s.data.activeEnabled then s.data.ip != "" && s.data.port > 0 else s.data.listening
  }

  lemma ConnectsExactly(s: State, ans: Answers)
    ensures Accepts(s.data, ans) <==> Connects(s, ans)
  {
  }

  // After the data connection has been asked for, active mode is off if a
  // socket could be had for it; the rest of the channel is as it was.
  lemma ConnectEffect(s: State, ans: Answers)
    ensures var c := AfterAccept(s.data, ans);
      && c.listening == s.data.listening && c.epsvAll == s.data.epsvAll
      && (c.activeEnabled <==>
            s.data.activeEnabled && (s.data.ip == "" || s.data.port <= 0 || ans.channel.NoSocket?))
      && (c.activeEnabled == s.data.activeEnabled ==> c == s.data)
  {
  }

  // A listing is sent of what exists inside the home, over an open connection.
  lemma ListEffect(cfg: Config, s: State, d: Tree, arg: string, ans: Answers)
    ensures var o, k := Step(cfg, s, d, LIST(arg), ans), Target(s, arg);
      && (o.reply == Code(226) <==>
            && s.authenticated && May(s, "list", "") && Valid(s, Resolve(s, arg))
            && k !in ans.unseen && k in d && Connects(s, ans) && ans.systemOk)
      && o.d == d
  {
    hide Norm, Resolve, May, Valid, Accepts, Connects, AfterAccept, DoWrite;
    ConnectsExactly(s, ans);
  }

  lemma MlsdEffect(cfg: Config, s: State, d: Tree, arg: string, ans: Answers)
    ensures var o, k := Step(cfg, s, d, MLSD(arg), ans), Target(s, arg);
      && (o.reply == Code(226) <==> Ready(s, "list", arg, ans) && IsDirectory(d, k) && Connects(s, ans) && ans.systemOk)
      && o.d == d
  {
    hide Norm, Resolve, May, Valid, Accepts, Connects, AfterAccept, DoWrite;
    ConnectsExactly(s, ans);
  }

  // A compressed transfer is let through only when compression is on, and only
  // from the start.
  predicate ModeFits(cfg: Config, s: State) {
    s.mode.Compressed? ==> cfg.compression && s.resume <= 0
  }

  // RETR ends with 226 exactly when the file can be read from where it is to
  // start; otherwise it sends nothing of it.
  lemma RetrEffect(cfg: Config, s: State, d: Tree, arg: string, ans: Answers)
    ensures var o, k := Step(cfg, s, d, RETR(arg), ans), Target(s, arg);
      && (o.reply == Code(226) <==>
            && Ready(s, "read", arg, ans) && IsFile(d, k) && ModeFits(cfg, s) && Connects(s, ans)
            && ans.systemOk && s.resume >= 0
            && (s.mode.Compressed? ==> ans.zlibOk))
      && (o.reply == Code(425) <==>
            Ready(s, "read", arg, ans) && IsFile(d, k) && ModeFits(cfg, s) && !Connects(s, ans))
      && o.d == d
      && (o.reply == Code(226) ==> o.s.resume == 0)
  {
    hide Norm, Resolve, May, Valid, Accepts, Connects, AfterAccept, DoWrite;
    ConnectsExactly(s, ans);
  }

  // The quota that counts: the smaller of the positive ones, or none.
  lemma QuotaIsSmaller(s: State)
    requires s.user.Some?
    ensures var own, shared := s.user.value.quota, if s.host.Some? then s.host.value.quota else 0;
      && (EffectiveQuota(s) == 0 <==> own == 0 && shared == 0)
      && (EffectiveQuota(s) > 0 ==> EffectiveQuota(s) in {own, shared})
      && (own > 0 ==> EffectiveQuota(s) <= own) && (shared > 0 ==> EffectiveQuota(s) <= shared)
  {
  }

  // Some positive quota has been used up.
  predicate QuotaUsedUp(s: State, ans: Answers) {
    s.user.Some? &&
    (|| (s.user.value.quota > 0 && ans.homeBytes >= s.user.value.quota)
     || (s.host.Some? && s.host.value.quota > 0 && ans.homeBytes >= s.host.value.quota))
  }

  lemma OverQuotaExactly(s: State, ans: Answers)
    ensures OverQuota(s, ans) <==> QuotaUsedUp(s, ans)
  {
    if s.user.Some? {
      QuotaIsSmaller(s);
    }
  }

  // Every missing parent directory can be made.
  predicate ParentsCome(d: Tree, k: Path, ans: Answers) {
    && (forall a :: a in Ancestors(k) && a in d ==> d[a].Directory?)
    && (ans.systemOk || forall a :: a in Ancestors(k) ==> a in d)
  }

  lemma ParentsComeExactly(d: Tree, k: Path, ans: Answers)
    ensures CannotMakeAncestors(d, k, ans) <==> !ParentsCome(d, k, ans)
  {
    if ans.systemOk || forall a :: a in Ancestors(k) ==> a in d {
      assert ans.systemOk || MissingAncestors(d, k) == {};
    } else {
      var a :| a in Ancestors(k) && a !in d;
      assert a in MissingAncestors(d, k);
    }
  }

  // The target opens: for update when an existing file is resumed, or afresh.
  predicate TargetOpens(s: State, d: Tree, k: Path, ans: Answers) {
    (s.resume > 0 && IsFile(d, k) && ans.openForUpdate) || (!IsDirectory(d, k) && ans.openForWrite)
  }

  lemma OpensExactly(s: State, d: Tree, k: Path, ans: Answers)
    ensures var e := MakeAncestors(d, k);
      OpensForUpdate(s, e, k, ans) || OpensTruncated(e, k, ans) <==> TargetOpens(s, d, k, ans)
  {
    if k in MissingAncestors(d, k) {
      AncestorsAreProperPrefixes(k, k);
    }
  }

  // An upload gets past every check that is made before its data connection.
  predicate UploadPasses(cfg: Config, s: State, arg: string, ans: Answers) {
    Allowed(s, "write", arg) && !QuotaUsedUp(s, ans) && ModeFits(cfg, s)
  }

  lemma StoreReply(s: State, d: Tree, t: string, ans: Answers)
    ensures StoreAt(s, d, t, ans).reply == Code(226) <==>
      && Connects(s, ans) && ParentsCome(d, Norm(t), ans) && !(s.resume > 0 && Norm(t) in ans.unseen)
      && TargetOpens(s, d, Norm(t), ans)
      && (s.mode.Compressed? ==> ans.zlibOk && ans.inflateOk)
    ensures StoreAt(s, d, t, ans).reply != Code(552)
    ensures StoreAt(s, d, t, ans).reply == Code(425) <==> !Connects(s, ans)
  {
    hide Norm, Accepts, Connects, CannotMakeAncestors, ParentsCome, MakeAncestors, AncestorsLeft;
    hide AfterAccept, StoredContent, ModeAt, OpensForUpdate, OpensTruncated, TargetOpens;
    ConnectsExactly(s, ans);
    ParentsComeExactly(d, Norm(t), ans);
    OpensExactly(s, d, Norm(t), ans);
  }

  // STOR ends with 226 exactly when it passes its checks, its parents come about,
  // the target opens, and a compressed stream inflates; 552 means the quota.
  lemma StorReply(cfg: Config, s: State, d: Tree, arg: string, ans: Answers)
    ensures var o, k := Step(cfg, s, d, STOR(arg), ans), Target(s, arg);
      && (o.reply == Code(226) <==>
            && UploadPasses(cfg, s, arg, ans)
            && Connects(s, ans) && ParentsCome(d, k, ans) && !(s.resume > 0 && k in ans.unseen)
            && TargetOpens(s, d, k, ans)
            && (s.mode.Compressed? ==> ans.zlibOk && ans.inflateOk))
      && (o.reply == Code(552) <==> Allowed(s, "write", arg) && QuotaUsedUp(s, ans))
      && (o.reply == Code(425) <==> UploadPasses(cfg, s, arg, ans) && !Connects(s, ans))
  {
    hide Norm, Resolve, May, Valid, StoreAt, OverQuota, QuotaUsedUp, Connects, ParentsCome, TargetOpens, DoOther;
    OverQuotaExactly(s, ans);
    StoreReply(s, d, Resolve(s, arg), ans);
  }

  // STOU takes the lowest number that is free, out of ten thousand.
  lemma {:induction false} LowestFree(s: State, d: Tree, base: string, from: nat, ans: Answers)
    requires from <= 10000
    ensures match FirstUnused(s, d, base, from, ans)
      case None => forall i :: from <= i < 10000 ==> Taken(s, d, base, i, ans)
      case Some(n) =>
        && from <= n < 10000 && !Taken(s, d, base, n, ans)
        && forall i :: from <= i < n ==> Taken(s, d, base, i, ans)
    decreases 10000 - from
  {
    hide Taken;
    if from < 10000 && Taken(s, d, base, from, ans) {
      LowestFree(s, d, base, from + 1, ans);
    }
  }

  // The numbers follow the last component of the argument, or "ftpd".
  lemma UniqueBaseIsLast(names: Path)
    requires names != [] && forall c :: c in names ==> IsName(c)
    ensures UniqueBase(Join(names, '/')) == Last(names) && UniqueBase("") == "ftpd"
  {
    hide Split;
    SplitJoin(names, '/');
    SplitNoDelimiter("", '/');
    assert names[0] in names;
  }

  // And stores under it as STOR from the beginning would.
  lemma StouEffect(cfg: Config, s: State, d: Tree, arg: string, ans: Answers)
    requires s.authenticated
    ensures match FirstUnused(s, d, UniqueBase(arg), 0, ans)
      case None => Step(cfg, s, d, STOU(arg), ans) == Say(s, d, 452)
      case Some(n) =>
        var name := UniqueBase(arg) + "." + ToDecimal(n);
        Step(cfg, s, d, STOU(arg), ans) == Step(cfg, s.(resume := 0), d, STOR(name), ans)
  {
    hide DoStor, FirstUnused, UniqueBase, DoOther;
  }

  // APPE ends with 226 exactly when the file opens at its end.
  lemma AppeReply(cfg: Config, s: State, d: Tree, arg: string, ans: Answers)
    ensures var o, k := Step(cfg, s, d, APPE(arg), ans), Target(s, arg);
      && (o.reply == Code(226) <==>
            && Ready(s, "write", arg, ans) && s.mode.Stream? && Connects(s, ans)
            && ans.openForWrite && !IsDirectory(d, k)
            && (k in d || (|k| > 1 ==> IsDirectory(d, Front(k)))))
      && SameElsewhere(d, o.d, k)
      && (o.reply != Code(226) ==> o.d == d)
  {
    hide Norm, Resolve, May, Valid, Accepts, Connects, AfterAccept, ModeAt, ContentAt, Kept, Flatten, DoOther;
    ConnectsExactly(s, ans);
  }

  // ----- The data channel -----

  // Six numbers, as PORT takes them.
  function PortArgument(h: seq<nat>): string
    requires |h| == 6
  {
    Join([ToDecimal(h[0]), ToDecimal(h[1]), ToDecimal(h[2]), ToDecimal(h[3]), ToDecimal(h[4]), ToDecimal(h[5])], ',')
  }

  lemma {:induction false} ParseDecimals(texts: seq<string>, h: seq<nat>)
    requires |texts| == |h| && forall i :: 0 <= i < |h| ==> h[i] < TWO_31 && texts[i] == ToDecimal(h[i])
    ensures ParseAll(texts).Some? && |ParseAll(texts).value| == |h|
    ensures forall i :: 0 <= i < |h| ==> ParseAll(texts).value[i] == h[i]
  {
    hide ToDecimal, Stoi;
    if h != [] {
      ParseDecimals(Front(texts), Front(h));
      StoiOfDecimal(Last(h));
    }
  }

  lemma PortNumbers(h: seq<nat>)
    requires |h| == 6 && forall i :: 0 <= i < 6 ==> h[i] < TWO_31
    ensures var p := ParseAll(Lines(PortArgument(h), ','));
      p.Some? && |p.value| == 6 && forall i :: 0 <= i < 6 ==> p.value[i] == h[i]
  {
    hide ToDecimal, ParseAll, Join, Split;
    var texts :=
      [ToDecimal(h[0]), ToDecimal(h[1]), ToDecimal(h[2]), ToDecimal(h[3]), ToDecimal(h[4]), ToDecimal(h[5])];
    forall t | t in texts ensures ',' !in t && t != "" {
      var i :| 0 <= i < 6 && texts[i] == t;
      DecimalHasNo(h[i], ',');
    }
    SplitJoin(texts, ',');
    assert Last(texts) in texts;
    ParseDecimals(texts, h);
  }

  // PORT h1,h2,h3,h4,p1,p2 aims active mode at h1.h2.h3.h4, port 256 * p1 + p2,
  // in place of any listener, when the port is one a client may name.
  lemma PortEffect(cfg: Config, s: State, d: Tree, h: seq<nat>, ans: Answers)
    requires s.authenticated && !s.data.epsvAll
    requires |h| == 6 && forall i :: 0 <= i < 6 ==> h[i] < TWO_31
    ensures var o, port := Step(cfg, s, d, PORT(PortArgument(h)), ans), 256 * h[4] + h[5];
      && (o.reply == Code(200) <==> 1024 <= port <= 65535)
      && (o.reply == Code(200) ==> o.s == s.(data := DataState(
            Join([ToDecimal(h[0]), ToDecimal(h[1]), ToDecimal(h[2]), ToDecimal(h[3])], '.'), port, true, false, false)))
  {
    hide ToDecimal, ParseAll, Lines, PortArgument, DoWrite;
    PortNumbers(h);
    var p := ParseAll(Lines(PortArgument(h), ',')).value;
    DottedIsJoin(h, p);
  }

  lemma DottedIsJoin(h: seq<nat>, p: seq<int>)
    requires |h| == |p| == 6 && forall i :: 0 <= i < 6 ==> p[i] == h[i]
    ensures Dotted(p) == Join([ToDecimal(h[0]), ToDecimal(h[1]), ToDecimal(h[2]), ToDecimal(h[3])], '.')
  {
    hide ToDecimal;
    var texts := [ToDecimal(h[0]), ToDecimal(h[1]), ToDecimal(h[2]), ToDecimal(h[3])];
    assert texts[1..] == [texts[1], texts[2], texts[3]];
    assert [texts[1], texts[2], texts[3]][1..] == [texts[2], texts[3]];
    assert [texts[2], texts[3]][1..] == [texts[3]];
    assert Join([texts[2], texts[3]], '.') == texts[2] + "." + texts[3];
    assert Dotted(p) == texts[0] + ['.'] + (texts[1] + ['.'] + (texts[2] + ['.'] + texts[3]));
  }

  // EPRT |1|address|port| aims active mode at that address and port.
  lemma EprtEffect(cfg: Config, s: State, d: Tree, delimiter: char, address: string, port: nat, ans: Answers)
    requires s.authenticated && !s.data.epsvAll
    requires delimiter !in address && !('0' <= delimiter <= '9') && port < TWO_31 && |address| + |ToDecimal(port)| >= 2
    ensures var arg := [delimiter] + "1" + [delimiter] + address + [delimiter] + ToDecimal(port) + [delimiter];
      var o := Step(cfg, s, d, EPRT(arg), ans);
      && (o.reply == Code(200) <==> 1024 <= port <= 65535)
      && (o.reply == Code(200) ==> o.s == s.(data := DataState(address, port, true, false, false)))
  {
    hide ToDecimal, Split, Stoi, DoWrite;
    var arg := [delimiter] + "1" + [delimiter] + address + [delimiter] + ToDecimal(port) + [delimiter];
    EprtParts(delimiter, address, port);
    StoiOfDecimal(port);
  }

  lemma EprtParts(delimiter: char, address: string, port: nat)
    requires delimiter !in address && !('0' <= delimiter <= '9') && |address| + |ToDecimal(port)| >= 2
    ensures var arg := [delimiter] + "1" + [delimiter] + address + [delimiter] + ToDecimal(port) + [delimiter];
      EprtFields(arg) == Some(["1", address, ToDecimal(port)])
  {
    hide ToDecimal, Split;
    var arg := [delimiter] + "1" + [delimiter] + address + [delimiter] + ToDecimal(port) + [delimiter];
    var last := ToDecimal(port) + [delimiter] + "";
    var middle := address + [delimiter] + last;
    assert arg[1..] == "1" + [delimiter] + middle;
    DecimalHasNo(port, delimiter);
    SplitConcat("1", delimiter, middle);
    SplitConcat(address, delimiter, last);
    SplitConcat(ToDecimal(port), delimiter, "");
    SplitNoDelimiter("1", delimiter);
    SplitNoDelimiter(address, delimiter);
    SplitNoDelimiter(ToDecimal(port), delimiter);
    SplitNoDelimiter("", delimiter);
    assert Split(arg[1..], delimiter) == ["1", address, ToDecimal(port), ""];
    assert Front(["1", address, ToDecimal(port), ""]) == ["1", address, ToDecimal(port)];
  }

  // Some port of the configured range is free.
  predicate PortFree(cfg: Config, ans: Answers) {
    exists p :: p in ans.bindable && cfg.portRangeStart <= p <= cfg.portRangeEnd
  }

  // The listener takes the lowest such port.
  lemma {:induction false} LowestPort(start: int, end: int, bindable: set<int>)
    ensures match FirstBindable(start, end, bindable)
      case None => forall p :: p in bindable ==> !(start <= p <= end)
      case Some(n) => start <= n <= end && n in bindable && forall p :: p in bindable && start <= p <= end ==> n <= p
    decreases end - start
  {
    if start <= end && start !in bindable {
      LowestPort(start + 1, end, bindable);
    }
  }

  // PASV, and EPSV with no argument or a protocol number, leave a listener and
  // no active mode, exactly when a socket and a port can be had.
  lemma PassiveEffect(cfg: Config, s: State, d: Tree, cmd: Command, ans: Answers)
    requires s.authenticated
    requires (cmd.PASV? && !s.data.epsvAll) || (cmd.EPSV? && cmd.arg in {"", "1", "2"})
    ensures var o, listens := Step(cfg, s, d, cmd, ans), ans.socketOk && PortFree(cfg, ans);
      && o.reply == Code(if !listens then 425 else if cmd.PASV? then 227 else 229)
      && o.s == s.(data := s.data.(activeEnabled := false, listening := listens)) && o.d == d
  {
    hide DoWrite, FirstBindable;
    LowestPort(cfg.portRangeStart, cfg.portRangeEnd, ans.bindable);
    if cmd.EPSV? {
      assert |cmd.arg| < 3 && |Upper(cmd.arg)| < 3;
    }
  }

  // EPSV ALL is accepted at any time and only sets the flag.
  lemma EpsvAllEffect(cfg: Config, s: State, d: Tree, ans: Answers)
    requires s.authenticated
    ensures Step(cfg, s, d, EPSV("ALL"), ans) == Say(s.(data := s.data.(epsvAll := true)), d, 200)
  {
    hide DoWrite, Upper;
    UpperAll();
  }

  lemma UpperAll()
    ensures Upper("ALL") == "ALL"
  {
  }

  // MODE S and MODE Z do what they say, from either mode and in either case.
  lemma ModeEffect(cfg: Config, s: State, d: Tree, ans: Answers)
    requires s.authenticated
    ensures Step(cfg, s, d, MODE("S"), ans) == Say(s.(mode := Stream), d, 200)
    ensures Step(cfg, s, d, MODE("z"), ans) == Step(cfg, s, d, MODE("Z"), ans)
         == if cfg.compression then Say(s.(mode := Compressed), d, 200) else Say(s, d, 504)
  {
    hide DoWrite, Upper;
    UpperModes();
  }

  lemma UpperModes()
    ensures Upper("S") == "S" && Upper("Z") == "Z" && Upper("z") == "Z"
  {
  }

  // QUIT ends the session, ABOR the listener.
  lemma EndEffect(cfg: Config, s: State, d: Tree, ans: Answers)
    ensures Step(cfg, s, d, QUIT, ans) == Say(s.(active := false), d, 221)
    ensures var o := Step(cfg, s, d, ABOR, ans);
      !o.s.data.listening && o.s == s.(data := o.s.data) && o.s.data == s.data.(listening := false) && o.d == d
  {
    hide DoWrite;
  }
}

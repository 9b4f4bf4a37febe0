/**
 IP allow and deny lists, `ip_access_control.cpp`: the byte-and-mask comparison
 of a CIDR entry against the prefix arithmetic of section 3.1 of RFC 4632, and
 the two list scans.
 */
module AccessControl {
  import opened Bits
  import opened Text

  // What comparing an address with an entry ends in: `std::stoi` may throw, and
  // a prefix of 40 or more makes the loop read past its four bytes.
  datatype Verdict = Matches | Differs | Throws | Undefined

  // ----- Parsing -----

  // The i-th reading of `std::getline` up to a dot. Once the text has run out
  // the last piece stays in place.
  function Part(s: string, i: nat): string {
    var pieces := Split(s, '.');
    if i < |pieces| then pieces[i] else pieces[|pieces| - 1]
  }

  function Parts(s: string, n: nat): (r: Option<seq<int>>)
    ensures r.Some? ==> |r.value| == n
  {
    if n == 0 then Some([])
    else
      var before, last := Parts(s, n - 1), Stoi(Part(s, n - 1));
      if before.None? || last.None? then None else Some(before.value + [last.value])
  }

  // ----- Comparison -----

  // The low byte of `x` with all but its leading `bits` bits cleared.
  function Masked(x: int, bits: nat): int
    requires bits <= 8
  {
    x % 256 - x % 256 % Power(8 - bits)
  }

  // C++ division, rounding toward zero.
  function Quotient(x: int): int {
    if x >= 0 then x / 8 else -(-x / 8)
  }

  function Least(x: int, y: int): int {
    if x <= y then x else y
  }

  function Compare(a: seq<int>, b: seq<int>, prefix: int): Verdict
    requires |a| == |b| == 4
  {
    var bytes := Quotient(prefix);
    var bits := prefix - 8 * bytes;
    if exists i :: 0 <= i < Least(bytes, 4) && a[i] != b[i] then Differs
    else if bytes > 4 then Undefined
    else if bits > 0 && bytes < 4 && Masked(a[bytes], bits) != Masked(b[bytes], bits) then Differs
    else Matches
  }

  function Match(ip: string, entry: string): Verdict {
    match Find(entry, '/')
    case None => if ip == entry then Matches else Differs
    case Some(slash) =>
      var prefix := Stoi(entry[slash + 1..]);
      var a, b := Parts(ip, 4), Parts(entry[..slash], 4);
      if prefix.None? || a.None? || b.None? then Throws
      else Compare(a.value, b.value, prefix.value)
  }

  method MatchesCIDR(ip: string, cidr: string) returns (v: Verdict)
    ensures v == Match(ip, cidr)
  {
    hide Masked, Stoi, Part;
    var slash := Find(cidr, '/');
    if slash.None? {
      return if ip == cidr then Matches else Differs;
    }
    var network := cidr[..slash.value];
    var prefix := Stoi(cidr[slash.value + 1..]);
    if prefix.None? {
      return Throws;
    }
    var ipBytes, netBytes: seq<int> := [], [];
    for i := 0 to 4
      invariant Parts(ip, i) == Some(ipBytes) && Parts(network, i) == Some(netBytes)
    {
      var x, y := Stoi(Part(ip, i)), Stoi(Part(network, i));
      if x.None? || y.None? {
        if x.None? {
          PartsFail(ip, i, 4);
        } else {
          PartsFail(network, i, 4);
        }
        return Throws;
      }
      ipBytes, netBytes := ipBytes + [x.value], netBytes + [y.value];
    }
    v := CompareBytes(ipBytes, netBytes, prefix.value);
  }

  // The comparison loop; a fifth reading is past the arrays.
  method CompareBytes(a: seq<int>, b: seq<int>, prefix: int) returns (v: Verdict)
    requires |a| == |b| == 4
    ensures v == Compare(a, b, prefix)
  {
    hide Masked;
    var maskBytes := Quotient(prefix);
    var maskBits := prefix - 8 * maskBytes;
    var i := 0;
    while i < maskBytes
      invariant 0 <= i <= 4
      invariant forall k :: 0 <= k < i ==> a[k] == b[k]
      decreases maskBytes - i
    {
      if i == 4 {
        return Undefined;
      }
      if a[i] != b[i] {
        return Differs;
      }
      i := i + 1;
    }
    if maskBits > 0 && maskBytes < 4 {
      if Masked(a[maskBytes], maskBits) != Masked(b[maskBytes], maskBits) {
        return Differs;
      }
    }
    return Matches;
  }

  lemma {:induction false} PartsFail(s: string, i: nat, n: nat)
    requires i < n && Stoi(Part(s, i)).None?
    ensures Parts(s, n).None?
  {
    if i < n - 1 {
      PartsFail(s, i, n - 1);
    }
  }

  // ----- Prefix arithmetic -----

  predicate IsAddress(a: seq<int>) {
    |a| == 4 && forall i :: 0 <= i < 4 ==> 0 <= a[i] < 256
  }

  // A byte sequence as a base-256 number, most significant byte first.
  function ToNat(a: seq<int>): (n: nat)
    requires forall i :: 0 <= i < |a| ==> 0 <= a[i] < 256
  {
    if a == [] then 0 else ToNat(a[..|a| - 1]) * 256 + a[|a| - 1]
  }

  // Division by a power of two.
  function Shift(x: int, k: nat): int {
    x / Power(k)
  }

  // The network part: the leading `p` bits of an address.
  function Network(a: seq<int>, p: nat): int
    requires IsAddress(a) && p <= 32
  {
    Shift(ToNat(a), 32 - p)
  }

  lemma {:induction false} ToNatInjective(a: seq<int>, b: seq<int>)
    requires |a| == |b|
    requires forall i :: 0 <= i < |a| ==> 0 <= a[i] < 256 && 0 <= b[i] < 256
    ensures ToNat(a) == ToNat(b) <==> a == b
  {
    if a != [] {
      hide ToNat;
      var n := |a| - 1;
      LastDigit(a);
      LastDigit(b);
      ToNatInjective(a[..n], b[..n]);
      assert a == a[..n] + [a[n]] && b == b[..n] + [b[n]];
    }
  }

  lemma DivisionIsUnique(x: int, m: int, q: int, r: int)
    requires m > 0 && 0 <= r < m && x == m * q + r
    ensures x / m == q
  {
    var d := x / m - q;
    assert m * d == r - x % m by {
      assert x == m * (x / m) + x % m;
      assert m * d == m * (x / m) - m * q;
    }
    if d >= 1 {
      MulAtLeast(m, d);
    } else if d <= -1 {
      MulAtLeast(m, -d);
    }
  }

  lemma MulAtLeast(m: int, d: int)
    requires m > 0 && d >= 1
    ensures m * d >= m
  {
  }

  // Dividing by 256 * d drops the last byte and divides the rest by d.
  lemma DropByte(f: nat, l: nat, d: nat)
    requires l < 256 && d > 0
    ensures (f * 256 + l) / (256 * d) == f / d
  {
    var q, r := f / d, f % d;
    assert f == d * q + r;
    assert 256 * d * q == 256 * (d * q);
    DivisionIsUnique(f * 256 + l, 256 * d, q, 256 * r + l);
  }

  lemma PowerByte(k: nat)
    ensures Power(k + 8) == 256 * Power(k)
  {
    assert Power(k + 8) == 2 * Power(k + 7) && Power(k + 7) == 2 * Power(k + 6);
    assert Power(k + 6) == 2 * Power(k + 5) && Power(k + 5) == 2 * Power(k + 4);
    assert Power(k + 4) == 2 * Power(k + 3) && Power(k + 3) == 2 * Power(k + 2);
    assert Power(k + 2) == 2 * Power(k + 1) && Power(k + 1) == 2 * Power(k);
  }

  // Shifting out whole trailing bytes.
  lemma {:induction false} DropBytes(a: seq<int>, n: nat, s: nat)
    requires n <= |a| && forall i :: 0 <= i < |a| ==> 0 <= a[i] < 256
    ensures Shift(ToNat(a), 8 * (|a| - n) + s) == Shift(ToNat(a[..n]), s)
    decreases |a|
  {
    hide Power;
    if n < |a| {
      var m := |a| - 1;
      var k := 8 * (m - n) + s;
      PowerByte(k);
      DropByte(ToNat(a[..m]), a[m], Power(k));
      DropBytes(a[..m], n, s);
      assert a[..m][..n] == a[..n];
    } else {
      assert a[..n] == a;
    }
  }

  lemma Powers()
    ensures Power(0) == 1 && Power(1) == 2 && Power(2) == 4 && Power(3) == 8 && Power(4) == 16
    ensures Power(5) == 32 && Power(6) == 64 && Power(7) == 128 && Power(8) == 256
  {
    assert Power(2) == 4;
    assert Power(4) == 16;
    assert Power(6) == 64;
  }

  lemma PowerSplit(s: nat)
    requires s <= 8
    ensures Power(s) * Power(8 - s) == 256
  {
    hide Power;
    Powers();
  }

  // Splitting off the last, partly kept byte.
  lemma ByteDivision(f: nat, l: nat, d: nat, e: nat)
    requires l < 256 && d * e == 256 && d > 0
    ensures (f * 256 + l) / d == f * e + l / d && 0 <= l / d < e
  {
    var q, r := l / d, l % d;
    assert l == d * q + r;
    assert d * (f * e + q) == f * (d * e) + d * q;
    DivisionIsUnique(f * 256 + l, d, f * e + q, r);
    if q >= e {
      assert d * q == d * e + d * (q - e);
      if q > e {
        MulAtLeast(d, q - e);
      }
    }
    if q < 0 {
      MulAtLeast(d, -q);
    }
  }

  lemma DigitsUnique(f: int, g: int, e: int, u: int, v: int)
    requires 0 <= u < e && 0 <= v < e
    ensures f * e + u == g * e + v <==> f == g && u == v
  {
    if f * e + u == g * e + v {
      DivisionIsUnique(f * e + u, e, f, u);
      DivisionIsUnique(g * e + v, e, g, v);
    }
  }

  lemma LastByte(f: nat, g: nat, l: nat, m: nat, s: nat)
    requires l < 256 && m < 256 && s < 8
    ensures Shift(f * 256 + l, s) == Shift(g * 256 + m, s) <==> f == g && Shift(l, s) == Shift(m, s)
  {
    hide Power;
    PowerSplit(s);
    ByteDivision(f, l, Power(s), Power(8 - s));
    ByteDivision(g, m, Power(s), Power(8 - s));
    DigitsUnique(f, g, Power(8 - s), l / Power(s), m / Power(s));
  }

  lemma MaskedByte(l: nat, m: nat, s: nat)
    requires l < 256 && m < 256 && s < 8
    ensures Masked(l, 8 - s) == Masked(m, 8 - s) <==> Shift(l, s) == Shift(m, s)
  {
    hide Power, Masked;
    MaskedIs(l, s);
    MaskedIs(m, s);
    SameMultiple(Power(s), l, m);
  }

  lemma MaskedIs(l: nat, s: nat)
    requires l < 256 && s < 8
    ensures Masked(l, 8 - s) == l - l % Power(s)
  {
    hide Power;
    assert l % 256 == l && 8 - (8 - s) == s;
  }

  lemma SameMultiple(d: nat, l: nat, m: nat)
    requires d > 0
    ensures l - l % d == m - m % d <==> l / d == m / d
  {
    assert l - l % d == d * (l / d) && m - m % d == d * (m / d);
    if l - l % d == m - m % d {
      DivisionIsUnique(l - l % d, d, l / d, 0);
      DivisionIsUnique(m - m % d, d, m / d, 0);
    }
  }

  // Two addresses share their leading p bits exactly when they share the whole
  // bytes before the last one touched and the kept bits of that one.
  lemma NetworkBytes(a: seq<int>, b: seq<int>, p: nat)
    requires IsAddress(a) && IsAddress(b) && 1 <= p <= 32
    ensures var n := (p + 7) / 8;
      var s := 8 * n - p;
      Network(a, p) == Network(b, p) <==> a[..n - 1] == b[..n - 1] && Shift(a[n - 1], s) == Shift(b[n - 1], s)
  {
    hide Shift, ToNat;
    var n := (p + 7) / 8;
    var s := 8 * n - p;
    assert 8 * (4 - n) + s == 32 - p;
    SharedBytes(a, b, n, s);
  }

  lemma SharedBytes(a: seq<int>, b: seq<int>, n: nat, s: nat)
    requires IsAddress(a) && IsAddress(b) && 1 <= n <= 4 && s < 8
    ensures Shift(ToNat(a), 8 * (4 - n) + s) == Shift(ToNat(b), 8 * (4 - n) + s) <==>
      a[..n - 1] == b[..n - 1] && Shift(a[n - 1], s) == Shift(b[n - 1], s)
  {
    hide Shift, ToNat;
    DropBytes(a, n, s);
    DropBytes(b, n, s);
    LastDigit(a[..n]);
    LastDigit(b[..n]);
    assert a[..n][..n - 1] == a[..n - 1] && b[..n][..n - 1] == b[..n - 1];
    LastByte(ToNat(a[..n - 1]), ToNat(b[..n - 1]), a[n - 1], b[n - 1], s);
    ToNatInjective(a[..n - 1], b[..n - 1]);
  }

  lemma LastDigit(a: seq<int>)
    requires a != [] && forall i :: 0 <= i < |a| ==> 0 <= a[i] < 256
    ensures ToNat(a) == ToNat(a[..|a| - 1]) * 256 + a[|a| - 1]
  {
  }

  // The byte loop decides the prefix arithmetic.
  lemma CompareIsPrefix(a: seq<int>, b: seq<int>, p: nat)
    requires IsAddress(a) && IsAddress(b) && p <= 32
    ensures Compare(a, b, p) == if Network(a, p) == Network(b, p) then Matches else Differs
  {
    hide Masked, Power, ToNat, Shift;
    if p == 0 {
      NoNetworkBits(a);
      NoNetworkBits(b);
    } else {
      var n := (p + 7) / 8;
      var s := 8 * n - p;
      NetworkBytes(a, b, p);
      MaskedByte(a[n - 1], b[n - 1], s);
      assert Shift(a[n - 1], 0) == a[n - 1] && Shift(b[n - 1], 0) == b[n - 1] by {
        ShiftNothing(a[n - 1]);
        ShiftNothing(b[n - 1]);
      }
      assert a[..n - 1] == b[..n - 1] <==> forall i :: 0 <= i < n - 1 ==> a[i] == b[i];
      if s == 0 {
        assert Quotient(p) == n;
      } else {
        assert Quotient(p) == n - 1 && p - 8 * (n - 1) == 8 - s;
      }
    }
  }

  lemma ShiftNothing(x: int)
    ensures Shift(x, 0) == x
  {
  }

  lemma NoNetworkBits(a: seq<int>)
    requires IsAddress(a)
    ensures Network(a, 0) == 0
  {
    hide Shift;
    DropBytes(a, 0, 0);
    ShiftNothing(0);
  }

  // Prefixes outside 0..32 are not refused: a negative one matches every
  // address, 33 to 39 act as 32, and from 40 on equal addresses make the loop
  // read past its arrays.
  lemma OddPrefixes(a: seq<int>, b: seq<int>, p: int)
    requires IsAddress(a) && IsAddress(b)
    ensures p < 0 ==> Compare(a, b, p) == Matches
    ensures 33 <= p < 40 ==> Compare(a, b, p) == Compare(a, b, 32)
    ensures p >= 40 ==> Compare(a, b, p) == if a == b then Undefined else Differs
  {
    hide Masked;
  }

  // So for each p matching is an equivalence on addresses.
  lemma MatchIsEquivalence(a: seq<int>, b: seq<int>, c: seq<int>, p: nat)
    requires IsAddress(a) && IsAddress(b) && IsAddress(c) && p <= 32
    ensures Compare(a, a, p) == Matches
    ensures Compare(a, b, p) == Matches ==> Compare(b, a, p) == Matches
    ensures Compare(a, b, p) == Matches && Compare(b, c, p) == Matches ==> Compare(a, c, p) == Matches
  {
    hide Compare, Network;
    CompareIsPrefix(a, a, p);
    CompareIsPrefix(a, b, p);
    CompareIsPrefix(b, a, p);
    CompareIsPrefix(b, c, p);
    CompareIsPrefix(a, c, p);
  }

  // A longer prefix is a finer relation.
  lemma ShorterPrefix(a: seq<int>, b: seq<int>, p: nat, q: nat)
    requires IsAddress(a) && IsAddress(b) && q <= p <= 32
    requires Compare(a, b, p) == Matches
    ensures Compare(a, b, q) == Matches
  {
    hide Compare, Power, ToNat;
    CompareIsPrefix(a, b, p);
    CompareIsPrefix(a, b, q);
    CoarserNetwork(a, p, q);
    CoarserNetwork(b, p, q);
  }

  lemma {:induction false} CoarserNetwork(a: seq<int>, p: nat, q: nat)
    requires IsAddress(a) && q <= p <= 32
    ensures Network(a, q) == Network(a, p) / Power(p - q)
    decreases p - q
  {
    hide ToNat;
    if q < p {
      CoarserNetwork(a, p, q + 1);
      HalveAgain(ToNat(a), Power(32 - q - 1));
      HalveAgain(Network(a, p), Power(p - q - 1));
    }
  }

  lemma HalveAgain(x: int, d: nat)
    requires d > 0
    ensures x / (2 * d) == x / d / 2
  {
    var q, r := x / d / 2, x / d % 2;
    assert x / d == 2 * q + r;
    assert x == d * (x / d) + x % d;
    assert d * (2 * q + r) == 2 * d * q + d * r;
    assert d * r == if r == 0 then 0 else d;
    DivisionIsUnique(x, 2 * d, q, d * r + x % d);
  }

  // ----- Texts -----

  function Dotted(a: seq<int>): string
    requires IsAddress(a)
  {
    Join([ToDecimal(a[0]), ToDecimal(a[1]), ToDecimal(a[2]), ToDecimal(a[3])], '.')
  }

  lemma SplitDotted(a: seq<int>)
    requires IsAddress(a)
    ensures Split(Dotted(a), '.') == [ToDecimal(a[0]), ToDecimal(a[1]), ToDecimal(a[2]), ToDecimal(a[3])]
  {
    hide ToDecimal, Join, Split;
    var parts := [ToDecimal(a[0]), ToDecimal(a[1]), ToDecimal(a[2]), ToDecimal(a[3])];
    forall p | p in parts ensures '.' !in p {
      var i :| 0 <= i < 4 && parts[i] == p;
      DecimalHasNo(a[i], '.');
    }
    SplitJoin(parts, '.');
  }

  lemma PartsOfDotted(a: seq<int>)
    requires IsAddress(a)
    ensures Parts(Dotted(a), 4) == Some(a)
  {
    hide Dotted, Stoi, ToDecimal;
    SplitDotted(a);
    var s := Dotted(a);
    forall i: nat | i < 4 ensures Stoi(Part(s, i)) == Some(a[i]) {
      StoiOfDecimal(a[i]);
    }
    PartsAre(s, a, 4);
    assert a[..4] == a;
  }

  lemma {:induction false} PartsAre(s: string, a: seq<int>, n: nat)
    requires n <= |a| && forall i: nat :: i < n ==> Stoi(Part(s, i)) == Some(a[i])
    ensures Parts(s, n) == Some(a[..n])
  {
    hide Stoi, Part;
    if n > 0 {
      PartsAre(s, a, n - 1);
      assert a[..n] == a[..n - 1] + [a[n - 1]];
    }
  }

  lemma {:induction false} JoinHasNo(parts: seq<string>, d: char, c: char)
    requires c != d && forall p :: p in parts ==> c !in p
    ensures c !in Join(parts, d)
  {
    if parts != [] {
      assert parts[0] in parts;
      JoinHasNo(parts[1..], d, c);
    }
  }

  lemma NoSlashInDotted(a: seq<int>)
    requires IsAddress(a)
    ensures '/' !in Dotted(a)
  {
    hide ToDecimal, Join;
    var parts := [ToDecimal(a[0]), ToDecimal(a[1]), ToDecimal(a[2]), ToDecimal(a[3])];
    forall p | p in parts ensures '/' !in p {
      var i :| 0 <= i < 4 && parts[i] == p;
      DecimalHasNo(a[i], '/');
    }
    JoinHasNo(parts, '.', '/');
  }

  // On printed addresses and entries "network/p", matching is agreement of the
  // leading p bits as 32-bit numbers.
  lemma MatchDotted(a: seq<int>, b: seq<int>, p: nat)
    requires IsAddress(a) && IsAddress(b) && p <= 32
    ensures Match(Dotted(a), Dotted(b) + ['/'] + ToDecimal(p)) ==
      if ToNat(a) / Power(32 - p) == ToNat(b) / Power(32 - p) then Matches else Differs
  {
    hide Dotted, ToDecimal, Stoi, Parts, Compare, Power, ToNat;
    var entry := Dotted(b) + ['/'] + ToDecimal(p);
    NoSlashInDotted(b);
    FindAt(Dotted(b), '/', ToDecimal(p));
    assert entry[..|Dotted(b)|] == Dotted(b) && entry[|Dotted(b)| + 1..] == ToDecimal(p);
    StoiOfDecimal(p);
    PartsOfDotted(a);
    PartsOfDotted(b);
    CompareIsPrefix(a, b, p);
  }

  // ----- The lists -----

  // The first entry that does not merely differ decides.
  function FirstDecision(ip: string, list: seq<string>): Verdict {
    if list == [] then Differs
    else if Match(ip, list[0]) != Differs then Match(ip, list[0])
    else if ip == list[0] then Matches
    else FirstDecision(ip, list[1..])
  }

  datatype Decision = Allowed | Denied | Failed | Unknown

  // Deny list first; a non-empty allow list must then match.
  function Decide(ip: string, blacklist: seq<string>, whitelist: seq<string>): Decision {
    match FirstDecision(ip, blacklist)
    case Matches => Denied
    case Throws => Failed
    case Undefined => Unknown
    case Differs =>
      if whitelist == [] then Allowed
      else match FirstDecision(ip, whitelist)
        case Matches => Allowed
        case Differs => Denied
        case Throws => Failed
        case Undefined => Unknown
  }

  class IPAccessControl {
    var whitelist: seq<string>
    var blacklist: seq<string>

    constructor ()
      ensures whitelist == [] && blacklist == []
    {
      whitelist, blacklist := [], [];
    }

    method AddWhitelist(ip: string)
      modifies `whitelist
      ensures whitelist == old(whitelist) + [ip]
    {
      whitelist := whitelist + [ip];
    }

    method AddBlacklist(ip: string)
      modifies `blacklist
      ensures blacklist == old(blacklist) + [ip]
    {
      blacklist := blacklist + [ip];
    }

    method ClearWhitelist()
      modifies `whitelist
      ensures whitelist == []
    {
      whitelist := [];
    }

    method ClearBlacklist()
      modifies `blacklist
      ensures blacklist == []
    {
      blacklist := [];
    }

    method IsAllowed(ip: string) returns (d: Decision)
      ensures d == Decide(ip, blacklist, whitelist)
      // Over entries that give a verdict, in terms of membership.
      ensures (forall e :: e in blacklist || e in whitelist ==> Definite(ip, e)) ==>
                d == if exists e :: e in blacklist && Names(ip, e) then Denied
                     else if whitelist == [] || exists e :: e in whitelist && Names(ip, e) then Allowed
                     else Denied
    {
      hide Match, Definite, Names, FirstDecision;
      if forall e :: e in blacklist || e in whitelist ==> Definite(ip, e) {
        DecidesByMembership(ip, blacklist, whitelist);
      }
      var denied := ScanList(ip, blacklist);
      if denied == Matches {
        return Denied;
      }
      if denied == Throws {
        return Failed;
      }
      if denied == Undefined {
        return Unknown;
      }
      if whitelist == [] {
        return Allowed;
      }
      var allowed := ScanList(ip, whitelist);
      match allowed
      case Matches => return Allowed;
      case Differs => return Denied;
      case Throws => return Failed;
      case Undefined => return Unknown;
    }

    // The loop over one list; it ends at the first match or failure.
    method ScanList(ip: string, list: seq<string>) returns (v: Verdict)
      ensures v == FirstDecision(ip, list)
    {
      hide Match;
      var i := 0;
      assert list[0..] == list;
      while i < |list|
        invariant i <= |list| && FirstDecision(ip, list) == FirstDecision(ip, list[i..])
      {
        assert list[i..][1..] == list[i + 1..];
        v := MatchesCIDR(ip, list[i]);
        if v != Differs {
          return;
        }
        if ip == list[i] {
          return Matches;
        }
        i := i + 1;
      }
      return Differs;
    }
  }

  // What one entry contributes to a scan.
  function Contribution(ip: string, entry: string): Verdict {
    if Match(ip, entry) != Differs then Match(ip, entry) else if ip == entry then Matches else Differs
  }

  lemma {:induction false} DecisionOutcome(ip: string, list: seq<string>)
    ensures FirstDecision(ip, list) == Differs <==> forall e :: e in list ==> Contribution(ip, e) == Differs
    ensures FirstDecision(ip, list) != Differs ==>
              exists e :: e in list && Contribution(ip, e) == FirstDecision(ip, list)
  {
    hide Match;
    if list != [] {
      DecisionOutcome(ip, list[1..]);
      assert list == [list[0]] + list[1..];
      var first := Contribution(ip, list[0]);
      assert FirstDecision(ip, list) == if first != Differs then first else FirstDecision(ip, list[1..]);
    }
  }

  // No two entries decide the scan differently.
  ghost predicate Agree(ip: string, list: seq<string>) {
    forall e, f :: e in list && f in list && Contribution(ip, e) != Differs && Contribution(ip, f) != Differs ==>
      Contribution(ip, e) == Contribution(ip, f)
  }

  lemma DecisionOfSame(ip: string, list: seq<string>, other: seq<string>)
    requires Agree(ip, list) && multiset(list) == multiset(other)
    ensures FirstDecision(ip, list) == FirstDecision(ip, other)
  {
    hide Contribution, FirstDecision;
    DecisionOutcome(ip, list);
    DecisionOutcome(ip, other);
    assert forall e :: e in list <==> e in multiset(list);
    assert forall e :: e in other <==> e in multiset(other);
  }

  function ToFront(list: seq<string>, i: nat): seq<string>
    requires i < |list|
  {
    [list[i]] + list[..i] + list[i + 1..]
  }

  lemma ToFrontPermutes(list: seq<string>, i: nat)
    requires i < |list|
    ensures multiset(ToFront(list, i)) == multiset(list)
  {
    assert list == list[..i] + [list[i]] + list[i + 1..];
  }

  ghost predicate OrderFree(ip: string, list: seq<string>) {
    forall other :: multiset(other) == multiset(list) ==> FirstDecision(ip, other) == FirstDecision(ip, list)
  }

  // The order of a list does not matter exactly when its deciding entries
  // agree; in particular always when no entry throws or is undefined.
  lemma OrderIndependent(ip: string, list: seq<string>)
    ensures OrderFree(ip, list) <==> Agree(ip, list)
    ensures (forall e :: e in list ==> Match(ip, e) in {Matches, Differs}) ==> OrderFree(ip, list)
  {
    if Agree(ip, list) {
      forall other | multiset(other) == multiset(list) ensures FirstDecision(ip, other) == FirstDecision(ip, list) {
        DecisionOfSame(ip, list, other);
      }
    }
    if OrderFree(ip, list) {
      forall e, f | e in list && f in list && Contribution(ip, e) != Differs && Contribution(ip, f) != Differs
        ensures Contribution(ip, e) == Contribution(ip, f)
      {
        FrontDecides(ip, list, e);
        FrontDecides(ip, list, f);
      }
    }
  }

  lemma FrontDecides(ip: string, list: seq<string>, e: string)
    requires OrderFree(ip, list) && e in list && Contribution(ip, e) != Differs
    ensures FirstDecision(ip, list) == Contribution(ip, e)
  {
    hide Match;
    var i :| 0 <= i < |list| && list[i] == e;
    ToFrontPermutes(list, i);
    var other := ToFront(list, i);
    assert FirstDecision(ip, other) == FirstDecision(ip, list);
    assert other != [] && other[0] == e;
  }

  // No order of the two lists makes a difference to the decision.
  ghost predicate DecisionOrderFree(ip: string, blacklist: seq<string>, whitelist: seq<string>) {
    forall black, white :: multiset(black) == multiset(blacklist) && multiset(white) == multiset(whitelist) ==>
      Decide(ip, black, white) == Decide(ip, blacklist, whitelist)
  }

  // That is so exactly when the entries of the deny list agree and, unless
  // one of them decides, those of the allow list do.
  lemma DecisionOrderIndependent(ip: string, blacklist: seq<string>, whitelist: seq<string>)
    ensures DecisionOrderFree(ip, blacklist, whitelist) <==>
      Agree(ip, blacklist) && (FirstDecision(ip, blacklist) != Differs || Agree(ip, whitelist))
  {
    hide DecisionOrderFree, OrderFree, FirstDecision, Agree;
    OrderIndependent(ip, blacklist);
    OrderIndependent(ip, whitelist);
    if DecisionOrderFree(ip, blacklist, whitelist) {
      BlacklistFree(ip, blacklist, whitelist);
      if FirstDecision(ip, blacklist) == Differs {
        WhitelistFree(ip, blacklist, whitelist);
      }
    }
    if OrderFree(ip, blacklist) && (FirstDecision(ip, blacklist) != Differs || OrderFree(ip, whitelist)) {
      ListsFree(ip, blacklist, whitelist);
    }
  }

  lemma SameDiffers(ip: string, list: seq<string>, other: seq<string>)
    requires multiset(list) == multiset(other)
    ensures FirstDecision(ip, list) == Differs <==> FirstDecision(ip, other) == Differs
  {
    hide FirstDecision, Contribution;
    DecisionOutcome(ip, list);
    DecisionOutcome(ip, other);
    assert forall e :: e in list <==> e in multiset(list);
    assert forall e :: e in other <==> e in multiset(other);
  }

  lemma BlacklistFree(ip: string, blacklist: seq<string>, whitelist: seq<string>)
    requires DecisionOrderFree(ip, blacklist, whitelist)
    ensures OrderFree(ip, blacklist)
  {
    hide FirstDecision;
    forall black | multiset(black) == multiset(blacklist)
      ensures FirstDecision(ip, black) == FirstDecision(ip, blacklist)
    {
      assert Decide(ip, black, whitelist) == Decide(ip, blacklist, whitelist);
      SameDiffers(ip, black, blacklist);
    }
  }

  lemma WhitelistFree(ip: string, blacklist: seq<string>, whitelist: seq<string>)
    requires DecisionOrderFree(ip, blacklist, whitelist) && FirstDecision(ip, blacklist) == Differs
    ensures OrderFree(ip, whitelist)
  {
    hide FirstDecision;
    forall white | multiset(white) == multiset(whitelist)
      ensures FirstDecision(ip, white) == FirstDecision(ip, whitelist)
    {
      assert Decide(ip, blacklist, white) == Decide(ip, blacklist, whitelist);
      SameEmptiness(white, whitelist);
    }
  }

  lemma ListsFree(ip: string, blacklist: seq<string>, whitelist: seq<string>)
    requires OrderFree(ip, blacklist) && (FirstDecision(ip, blacklist) != Differs || OrderFree(ip, whitelist))
    ensures DecisionOrderFree(ip, blacklist, whitelist)
  {
    hide FirstDecision;
    forall black, white | multiset(black) == multiset(blacklist) && multiset(white) == multiset(whitelist)
      ensures Decide(ip, black, white) == Decide(ip, blacklist, whitelist)
    {
      SameEmptiness(white, whitelist);
    }
  }

  lemma SameEmptiness<T>(a: seq<T>, b: seq<T>)
    requires multiset(a) == multiset(b)
    ensures a == [] <==> b == []
  {
    assert |multiset(a)| == |a| && |multiset(b)| == |b|;
  }

  // ----- What the decision means -----

  // An entry without a prefix length matches itself and nothing else.
  lemma MatchPlain(ip: string, entry: string)
    requires '/' !in entry
    ensures Match(ip, entry) == if ip == entry then Matches else Differs
  {
  }

  // The entry names the address, as text or by its prefix.
  predicate Names(ip: string, entry: string) {
    ip == entry || Match(ip, entry) == Matches
  }

  // Comparing the address with the entry gives a verdict.
  predicate Definite(ip: string, entry: string) {
    Match(ip, entry) == Matches || Match(ip, entry) == Differs
  }

  lemma DefiniteContribution(ip: string, entry: string)
    requires Definite(ip, entry)
    ensures Contribution(ip, entry) == if Names(ip, entry) then Matches else Differs
  {
    hide Match;
  }

  // Over entries that give a verdict a scan says whether some entry names the
  // address.
  lemma DefiniteScan(ip: string, list: seq<string>)
    requires forall e :: e in list ==> Definite(ip, e)
    ensures FirstDecision(ip, list) == if exists e :: e in list && Names(ip, e) then Matches else Differs
  {
    hide Contribution, FirstDecision, Definite, Names;
    DecisionOutcome(ip, list);
    forall e | e in list ensures Contribution(ip, e) == if Names(ip, e) then Matches else Differs {
      DefiniteContribution(ip, e);
    }
  }

  // When every entry gives a verdict: an address that a deny entry names is
  // denied; any other is allowed exactly when the allow list is empty or one of
  // its entries names it.
  lemma DecidesByMembership(ip: string, blacklist: seq<string>, whitelist: seq<string>)
    requires forall e :: e in blacklist || e in whitelist ==> Definite(ip, e)
    ensures Decide(ip, blacklist, whitelist) ==
      if exists e :: e in blacklist && Names(ip, e) then Denied
      else if whitelist == [] || exists e :: e in whitelist && Names(ip, e) then Allowed
      else Denied
  {
    hide FirstDecision, Definite, Names;
    DefiniteScan(ip, blacklist);
    DefiniteScan(ip, whitelist);
  }

  // Some entry comes out as `v`, and none before it has named the address or
  // failed to give a verdict.
  predicate FirstIs(ip: string, list: seq<string>, v: Verdict) {
    exists i :: 0 <= i < |list| && Match(ip, list[i]) == v &&
      forall j :: 0 <= j < i ==> Match(ip, list[j]) == Differs && ip != list[j]
  }

  // No entry names the address or fails to give a verdict.
  predicate NoneDecides(ip: string, list: seq<string>) {
    forall e :: e in list ==> Match(ip, e) == Differs && ip != e
  }

  lemma FirstIsLater(ip: string, list: seq<string>, v: Verdict)
    requires list != [] && Match(ip, list[0]) == Differs && ip != list[0] && FirstIs(ip, list[1..], v)
    ensures FirstIs(ip, list, v)
  {
    hide Match;
    var rest := list[1..];
    var i :| 0 <= i < |rest| && Match(ip, rest[i]) == v &&
      forall j :: 0 <= j < i ==> Match(ip, rest[j]) == Differs && ip != rest[j];
    assert Match(ip, list[i + 1]) == v;
    assert forall j :: 0 < j < i + 1 ==> list[j] == rest[j - 1];
  }

  lemma FirstIsAhead(ip: string, list: seq<string>, v: Verdict)
    requires v != Differs && FirstIs(ip, list, v)
    ensures Match(ip, list[0]) == v ||
      (Match(ip, list[0]) == Differs && ip != list[0] && FirstIs(ip, list[1..], v))
  {
    hide Match;
    var i :| 0 <= i < |list| && Match(ip, list[i]) == v &&
      forall j :: 0 <= j < i ==> Match(ip, list[j]) == Differs && ip != list[j];
    if i > 0 {
      assert Match(ip, list[1..][i - 1]) == v;
      assert forall j :: 0 <= j < i - 1 ==> list[1..][j] == list[j + 1];
    }
  }

  lemma {:induction false} FailureScan(ip: string, list: seq<string>, v: Verdict)
    requires v == Throws || v == Undefined
    ensures FirstDecision(ip, list) == v <==> FirstIs(ip, list, v)
  {
    if list != [] {
      hide Match;
      FailureScan(ip, list[1..], v);
      if Match(ip, list[0]) == v {
        assert FirstIs(ip, list, v);
      }
      hide FirstIs;
      if Match(ip, list[0]) == Differs && ip != list[0] && FirstIs(ip, list[1..], v) {
        FirstIsLater(ip, list, v);
      }
      if FirstIs(ip, list, v) {
        FirstIsAhead(ip, list, v);
      }
    }
  }

  lemma NoneScan(ip: string, list: seq<string>)
    ensures FirstDecision(ip, list) == Differs <==> NoneDecides(ip, list)
  {
    hide Match, FirstDecision;
    DecisionOutcome(ip, list);
  }

  // The decision fails, by an exception or by undefined behaviour, exactly when
  // such an entry comes before any that names the address: in the deny list, or
  // in the allow list after a deny list that decides nothing.
  lemma FailsExactly(ip: string, blacklist: seq<string>, whitelist: seq<string>)
    ensures Decide(ip, blacklist, whitelist) == Failed <==>
      FirstIs(ip, blacklist, Throws) || (NoneDecides(ip, blacklist) && FirstIs(ip, whitelist, Throws))
    ensures Decide(ip, blacklist, whitelist) == Unknown <==>
      FirstIs(ip, blacklist, Undefined) || (NoneDecides(ip, blacklist) && FirstIs(ip, whitelist, Undefined))
  {
    hide FirstDecision, FirstIs, NoneDecides;
    FailureScan(ip, blacklist, Throws);
    FailureScan(ip, blacklist, Undefined);
    FailureScan(ip, whitelist, Throws);
    FailureScan(ip, whitelist, Undefined);
    NoneScan(ip, blacklist);
    NothingScanned(ip);
  }

  lemma NothingScanned(ip: string)
    ensures FirstDecision(ip, []) == Differs
  {
  }
}

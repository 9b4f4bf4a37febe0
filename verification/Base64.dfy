/**
 Base64 as in section 4 of RFC 4648: the encoder and decoder of `password.cpp`,
 with the bit shifts written as arithmetic on the 24-bit groups.
 */
module Base64 {
  import opened Text

  function Digit(v: nat): (c: char)
    requires v < 64
    ensures Value(c) == v && c != '='
  {
    if v < 26 then 'A' + v as char
    else if v < 52 then 'a' + (v - 26) as char
    else if v < 62 then '0' + (v - 52) as char
    else if v == 62 then '+' else '/'
  }

  // The value of an alphabet character, or -1.
  function Value(c: char): (v: int)
    ensures -1 <= v < 64
  {
    if 'A' <= c <= 'Z' then (c - 'A') as int
    else if 'a' <= c <= 'z' then (c - 'a') as int + 26
    else if '0' <= c <= '9' then (c - '0') as int + 52
    else if c == '+' then 62
    else if c == '/' then 63
    else -1
  }

  lemma DigitOfValue(c: char)
    requires Value(c) >= 0
    ensures Digit(Value(c)) == c
  {
  }

  // ----- Groups of 24 bits -----

  function Triple(a: Byte, b: Byte, c: Byte): (t: nat)
    ensures t < 0x100_0000
  {
    a as int * 65536 + b as int * 256 + c as int
  }

  function Join4(a: int, b: int, c: int, d: int): int {
    a * 262144 + b * 4096 + c * 64 + d
  }

  lemma SplitIn64(t: nat)
    requires t < 0x100_0000
    ensures t / 262144 < 64 && t == Join4(t / 262144, t / 4096 % 64, t / 64 % 64, t % 64)
  {
    assert t / 4096 == t / 64 / 64 && t / 262144 == t / 4096 / 64;
  }

  lemma JoinedIn64(a: nat, b: nat, c: nat, d: nat)
    requires a < 64 && b < 64 && c < 64 && d < 64
    ensures var t := Join4(a, b, c, d);
      && 0 <= t < 0x100_0000
      && t / 262144 == a && t / 4096 % 64 == b && t / 64 % 64 == c && t % 64 == d
  {
    var t := Join4(a, b, c, d);
    assert t / 64 == a * 4096 + b * 64 + c;
    assert t / 4096 == a * 64 + b;
  }

  lemma SplitIn256(a: Byte, b: Byte, c: Byte)
    ensures var t := Triple(a, b, c);
      t / 65536 == a as int && t / 256 % 256 == b as int && t % 256 == c as int
  {
    var t := Triple(a, b, c);
    assert t / 256 == a as int * 256 + b as int;
  }

  lemma JoinedIn256(t: nat)
    requires t < 0x100_0000
    ensures t / 65536 < 256
    ensures Triple((t / 65536) as Byte, (t / 256 % 256) as Byte, (t % 256) as Byte) == t
  {
    assert t / 65536 == t / 256 / 256;
  }

  // ----- Encoding -----

  function Quad(t: nat): (s: string)
    requires t < 0x100_0000
    ensures |s| == 4
  {
    [Digit(t / 262144), Digit(t / 4096 % 64), Digit(t / 64 % 64), Digit(t % 64)]
  }

  function Encode(data: seq<Byte>): string {
    if data == [] then ""
    else if |data| == 1 then Quad(Triple(data[0], 0, 0))[..2] + "=="
    else if |data| == 2 then Quad(Triple(data[0], data[1], 0))[..3] + "="
    else Quad(Triple(data[0], data[1], data[2])) + Encode(data[3..])
  }

  lemma EncodeStep(data: seq<Byte>, i: nat)
    requires i + 2 < |data|
    ensures Encode(data[i..]) == Quad(Triple(data[i], data[i + 1], data[i + 2])) + Encode(data[i + 3..])
  {
    hide Quad;
    assert data[i..][3..] == data[i + 3..];
  }

  method Base64Encode(data: seq<Byte>) returns (out: string)
    ensures out == Encode(data)
  {
    hide Digit, Triple, Encode;
    out := "";
    var i := 0;
    assert data[0..] == data;
    while i + 2 < |data|
      invariant i <= |data|
      invariant Encode(data) == out + Encode(data[i..])
    {
      EncodeStep(data, i);
      var triple := Triple(data[i], data[i + 1], data[i + 2]);
      ghost var before := out;
      out := out + [Digit(triple / 262144)];
      out := out + [Digit(triple / 4096 % 64)];
      out := out + [Digit(triple / 64 % 64)];
      out := out + [Digit(triple % 64)];
      assert out == before + Quad(triple);
      i := i + 3;
      assert before + (Quad(triple) + Encode(data[i..])) == out + Encode(data[i..]);
    }
    out := out + EncodeTail(data[i..]);
  }

  // The last one or two bytes, padded; nothing is left over otherwise.
  function EncodeTail(rest: seq<Byte>): (s: string)
    requires |rest| <= 2
    ensures s == Encode(rest)
  {
    if |rest| == 1 then
      var triple := Triple(rest[0], 0, 0);
      [Digit(triple / 262144), Digit(triple / 4096 % 64), '=', '=']
    else if |rest| == 2 then
      var triple := Triple(rest[0], rest[1], 0);
      [Digit(triple / 262144), Digit(triple / 4096 % 64), Digit(triple / 64 % 64), '=']
    else ""
  }

  lemma {:induction false} EncodedLength(data: seq<Byte>)
    ensures |Encode(data)| == (|data| + 2) / 3 * 4
  {
    hide Triple, Quad;
    if |data| > 2 {
      EncodedLength(data[3..]);
    }
  }

  // ----- Decoding -----

  // A group of four characters: its 24 bits, and the number of '=' at its end,
  // which stand for zero bits. Everything before them is in the alphabet.
  datatype Group = Group(bits: nat, padding: nat)

  function ParseQuad(s: string): (r: Option<Group>)
    requires |s| == 4
    ensures r.Some? ==> r.value.bits < 0x100_0000
  {
    var a, b, c, d := Value(s[0]), Value(s[1]), Value(s[2]), Value(s[3]);
    if s[3] != '=' then
      if a >= 0 && b >= 0 && c >= 0 && d >= 0 then Some(Group(Join4(a, b, c, d), 0)) else None
    else if s[2] != '=' then
      if a >= 0 && b >= 0 && c >= 0 then Some(Group(Join4(a, b, c, 0), 1)) else None
    else if s[1] != '=' then
      if a >= 0 && b >= 0 then Some(Group(Join4(a, b, 0, 0), 2)) else None
    else if s[0] != '=' then
      if a >= 0 then Some(Group(Join4(a, 0, 0, 0), 3)) else None
    else Some(Group(0, 4))
  }

  // The bytes of a group: three, less one for each '=' up to two.
  function GroupBytes(g: Group): (bytes: seq<Byte>)
    requires g.bits < 0x100_0000
  {
    [(g.bits / 65536) as Byte] +
    (if g.padding < 2 then [(g.bits / 256 % 256) as Byte] else []) +
    (if g.padding < 1 then [(g.bits % 256) as Byte] else [])
  }

  function Decode(text: string): Option<seq<Byte>> {
    if text == "" then Some([])
    else if |text| < 4 then None
    else
      var g := ParseQuad(text[..4]);
      var rest := Decode(text[4..]);
      if g.None? || rest.None? then None else Some(GroupBytes(g.value) + rest.value)
  }

  // The character loop of the decoder: '=' may only be followed by '='.
  method DecodeQuad(text: string, i: nat) returns (g: Option<Group>)
    requires i + 4 <= |text|
    ensures g == ParseQuad(text[i..i + 4])
  {
    hide Value;
    EqualsIsNoDigit();
    ghost var s := text[i..i + 4];
    var quad: seq<int> := [];
    var padding := 0;
    for j := 0 to 4
      invariant |quad| == j && padding <= j
      invariant forall m :: 0 <= m < j - padding ==> s[m] != '=' && quad[m] == Value(s[m]) >= 0
      invariant forall m :: j - padding <= m < j ==> s[m] == '=' && quad[m] == 0
    {
      var c := text[i + j];
      assert c == s[j];
      if c == '=' {
        quad := quad + [0];
        padding := padding + 1;
      } else if padding > 0 {
        assert s[j - 1] == '=';
        return None;
      } else {
        quad := quad + [Value(c)];
        if quad[j] < 0 {
          return None;
        }
      }
    }
    return Some(Group(Join4(quad[0], quad[1], quad[2], quad[3]), padding));
  }

  lemma DecodeStep(text: string, i: nat)
    requires i + 4 <= |text|
    ensures Decode(text[i..]) ==
      var g := ParseQuad(text[i..i + 4]);
      var rest := Decode(text[i + 4..]);
      if g.None? || rest.None? then None else Some(GroupBytes(g.value) + rest.value)
  {
    hide ParseQuad, GroupBytes;
    assert text[i..][..4] == text[i..i + 4] && text[i..][4..] == text[i + 4..];
  }

  function Prepend(bytes: seq<Byte>, rest: Option<seq<Byte>>): Option<seq<Byte>> {
    if rest.None? then None else Some(bytes + rest.value)
  }

  method Base64Decode(text: string) returns (out: Option<seq<Byte>>)
    ensures out == Decode(text)
  {
    hide ParseQuad, GroupBytes;
    if |text| % 4 != 0 {
      DecodeLength(text);
      return None;
    }
    var bytes: seq<Byte> := [];
    var i := 0;
    assert text[0..] == text;
    assert Prepend(bytes, Decode(text)) == Decode(text) by { PrependNothing(Decode(text)); }
    while i < |text|
      invariant i <= |text| && i % 4 == 0
      invariant Decode(text) == Prepend(bytes, Decode(text[i..]))
    {
      DecodeStep(text, i);
      var g := DecodeQuad(text, i);
      if g.None? {
        return None;
      }
      PrependTwice(bytes, GroupBytes(g.value), Decode(text[i + 4..]));
      bytes := bytes + GroupBytes(g.value);
      i := i + 4;
    }
    assert text[i..] == "" && bytes + [] == bytes;
    return Some(bytes);
  }

  lemma PrependNothing(rest: Option<seq<Byte>>)
    ensures Prepend([], rest) == rest
  {
    if rest.Some? {
      assert [] + rest.value == rest.value;
    }
  }

  lemma PrependTwice(a: seq<Byte>, b: seq<Byte>, rest: Option<seq<Byte>>)
    ensures Prepend(a + b, rest) == Prepend(a, Prepend(b, rest))
  {
    if rest.Some? {
      assert (a + b) + rest.value == a + (b + rest.value);
    }
  }

  lemma {:induction false} DecodeLength(text: string)
    ensures Decode(text).Some? ==> |text| % 4 == 0
  {
    hide ParseQuad, GroupBytes;
    if |text| >= 4 {
      DecodeLength(text[4..]);
    }
  }

  // ----- Decoding undoes encoding -----

  // Quad and padding as the encoder writes them.
  function Padded(t: nat, padding: nat): (s: string)
    requires t < 0x100_0000 && padding <= 2
    ensures |s| == 4
  {
    Quad(t)[..4 - padding] + "=="[..padding]
  }

  lemma ParsePadded(t: nat, padding: nat)
    requires t < 0x100_0000 && padding <= 2
    requires padding == 1 ==> t % 64 == 0
    requires padding == 2 ==> t / 64 % 64 == 0 && t % 64 == 0
    ensures ParseQuad(Padded(t, padding)) == Some(Group(t, padding))
  {
    hide Digit, Value;
    SplitIn64(t);
    assert Value('=') == -1 by { EqualsIsNoDigit(); }
  }

  lemma EqualsIsNoDigit()
    ensures Value('=') == -1
  {
  }

  lemma TailBits(a: Byte, b: Byte)
    ensures Triple(a, 0, 0) / 64 % 64 == 0 && Triple(a, 0, 0) % 64 == 0
    ensures Triple(a, b, 0) % 64 == 0
  {
    MultipleOf64(a as int * 1024);
    MultipleOf64(a as int * 16);
    MultipleOf64(a as int * 1024 + b as int * 4);
  }

  lemma MultipleOf64(k: nat)
    ensures 64 * k % 64 == 0 && 64 * k / 64 == k
  {
  }

  lemma BytesOfTriple(a: Byte, b: Byte, c: Byte, padding: nat)
    requires padding <= 2
    ensures GroupBytes(Group(Triple(a, b, c), padding)) == [a, b, c][..3 - padding]
  {
    hide Triple;
    SplitIn256(a, b, c);
  }

  lemma EncodeShort(data: seq<Byte>)
    requires 1 <= |data| <= 2
    ensures Encode(data) == Padded(Triple(data[0], if |data| == 2 then data[1] else 0, 0), 3 - |data|)
  {
    hide Triple, Quad;
  }

  lemma DecodeOne(s: string)
    requires |s| == 4
    ensures Decode(s) == if ParseQuad(s).None? then None else Some(GroupBytes(ParseQuad(s).value))
  {
    hide ParseQuad, GroupBytes;
    assert s[..4] == s && s[4..] == "";
    if ParseQuad(s).Some? {
      assert GroupBytes(ParseQuad(s).value) + [] == GroupBytes(ParseQuad(s).value);
    }
  }

  lemma {:induction false} DecodeEncode(data: seq<Byte>)
    ensures Decode(Encode(data)) == Some(data)
  {
    hide Triple, Quad, ParseQuad, GroupBytes, Padded;
    if 1 <= |data| <= 2 {
      var b := if |data| == 2 then data[1] else 0;
      var t := Triple(data[0], b, 0);
      TailBits(data[0], b);
      ParsePadded(t, 3 - |data|);
      EncodeShort(data);
      DecodeOne(Encode(data));
      BytesOfTriple(data[0], b, 0, 3 - |data|);
      assert [data[0], b, 0][..|data|] == data;
    } else if |data| > 2 {
      var t := Triple(data[0], data[1], data[2]);
      var s := Encode(data);
      ParsePadded(t, 0);
      assert Padded(t, 0) == Quad(t) by { PaddedNothing(t); }
      BytesOfTriple(data[0], data[1], data[2], 0);
      EncodeStep(data, 0);
      assert data[0..] == data && s == Quad(t) + Encode(data[3..]);
      DecodeStep(s, 0);
      assert s[0..] == s && s[0..4] == Quad(t) && s[4..] == Encode(data[3..]);
      DecodeEncode(data[3..]);
      assert data == [data[0], data[1], data[2]] + data[3..];
      assert [data[0], data[1], data[2]][..3] == [data[0], data[1], data[2]];
    }
  }

  lemma PaddedNothing(t: nat)
    requires t < 0x100_0000
    ensures Padded(t, 0) == Quad(t)
  {
  }

  // ----- Encoding undoes decoding, on canonical text -----

  // The group is what an encoder writes: at most two '=', no stray bits under
  // them.
  predicate CanonicalGroup(g: Group) {
    g.padding == 0 || (g.padding == 1 && g.bits % 256 == 0) || (g.padding == 2 && g.bits % 65536 == 0)
  }

  // Accepted text whose groups are unpadded except for a canonical last one.
  predicate Canonical(text: string)
    requires Decode(text).Some?
  {
    text == "" ||
    (var g := ParseQuad(text[..4]).value;
     if |text| == 4 then CanonicalGroup(g) else g.padding == 0 && Canonical(text[4..]))
  }

  lemma QuadOfParsed(s: string)
    requires |s| == 4 && ParseQuad(s).Some?
    ensures var g := ParseQuad(s).value;
      && g.padding <= 4
      && (g.padding <= 2 ==> s == Padded(g.bits, g.padding))
      && (g.padding > 2 ==> s[1] == '=')
      && (g.padding == 1 ==> g.bits % 64 == 0)
      && (g.padding == 2 ==> g.bits % 4096 == 0)
  {
    hide Digit, Value;
    var g := ParseQuad(s).value;
    var v := [Value(s[0]), Value(s[1]), Value(s[2]), Value(s[3])];
    if g.padding <= 2 {
      var c := if g.padding < 2 then v[2] else 0;
      var d := if g.padding < 1 then v[3] else 0;
      DigitsOfText(s, g.padding);
      JoinedIn64(v[0], v[1], c, d);
    }
  }

  lemma DigitsOfText(s: string, padding: nat)
    requires |s| == 4 && padding <= 2 && ParseQuad(s).Some? && ParseQuad(s).value.padding == padding
    ensures forall i :: 0 <= i < 4 - padding ==> 0 <= Value(s[i]) < 64 && Digit(Value(s[i])) == s[i]
    ensures forall i :: 4 - padding <= i < 4 ==> s[i] == '='
  {
    hide Digit;
    forall i | 0 <= i < 4 - padding ensures 0 <= Value(s[i]) < 64 && Digit(Value(s[i])) == s[i] {
      DigitOfValue(s[i]);
    }
  }

  lemma {:induction false} EncodeIsCanonical(data: seq<Byte>)
    ensures Decode(Encode(data)).Some? && Canonical(Encode(data))
  {
    hide Triple, Quad, ParseQuad, GroupBytes, Padded, Decode;
    DecodeEncode(data);
    var s := Encode(data);
    if 1 <= |data| <= 2 {
      var b := if |data| == 2 then data[1] else 0;
      TailBits(data[0], b);
      TailBytes(data[0], b);
      ParsePadded(Triple(data[0], b, 0), 3 - |data|);
      EncodeShort(data);
      assert s[..4] == s;
    } else if |data| > 2 {
      var t := Triple(data[0], data[1], data[2]);
      ParsePadded(t, 0);
      PaddedNothing(t);
      assert s[..4] == Quad(t) && s[4..] == Encode(data[3..]);
      EncodedLength(data[3..]);
      EncodeIsCanonical(data[3..]);
    }
  }

  lemma TailBytes(a: Byte, b: Byte)
    ensures Triple(a, 0, 0) % 65536 == 0 && Triple(a, b, 0) % 256 == 0
  {
    MultipleOf256(a as int * 256 + b as int);
    MultipleOf65536(a as int);
  }

  lemma MultipleOf256(k: nat)
    ensures 256 * k % 256 == 0 && 256 * k / 256 == k
  {
  }

  lemma MultipleOf65536(k: nat)
    ensures 65536 * k % 65536 == 0
  {
  }

  // A canonical group is the encoding of its own bytes.
  lemma EncodeGroup(g: Group)
    requires g.bits < 0x100_0000 && CanonicalGroup(g)
    ensures |GroupBytes(g)| == 3 - g.padding && Encode(GroupBytes(g)) == Padded(g.bits, g.padding)
  {
    hide Triple, Quad, Padded;
    JoinedIn256(g.bits);
    var bytes := GroupBytes(g);
    if g.padding == 0 {
      PaddedNothing(g.bits);
      assert bytes[3..] == [] && Encode(bytes[3..]) == "";
    } else {
      LowBytes(g.bits);
      EncodeShort(bytes);
    }
  }

  lemma LowBytes(t: nat)
    ensures t % 65536 == 0 ==> t / 256 % 256 == 0 && t % 256 == 0
  {
    if t % 65536 == 0 {
      var k := t / 65536;
      MultipleOf256(k);
      MultipleOf256(256 * k);
    }
  }

  lemma EncodeAppend(three: seq<Byte>, rest: seq<Byte>)
    requires |three| == 3
    ensures Encode(three + rest) == Encode(three) + Encode(rest)
  {
    hide Triple, Quad;
    assert (three + rest)[3..] == rest && three[3..] == [] && Encode(three[3..]) == "";
  }

  lemma {:induction false} CanonicalReencodes(text: string)
    requires Decode(text).Some? && Canonical(text)
    ensures Encode(Decode(text).value) == text
  {
    hide Triple, Quad, ParseQuad, GroupBytes, Padded, Encode;
    if text == "" {
      assert Encode([]) == "" by { EncodeNothing(); }
    } else {
      var s := text[..4];
      var g := ParseQuad(s).value;
      QuadOfParsed(s);
      EncodeGroup(g);
      if |text| == 4 {
        assert s == text;
        DecodeOne(text);
      } else {
        CanonicalReencodes(text[4..]);
        EncodeAppend(GroupBytes(g), Decode(text[4..]).value);
        assert text == s + text[4..];
      }
    }
  }

  lemma EncodeNothing()
    ensures Encode([]) == ""
  {
  }

  // Re-encoding accepted text gives it back exactly when the text is canonical.
  lemma EncodeDecode(text: string)
    requires Decode(text).Some?
    ensures Encode(Decode(text).value) == text <==> Canonical(text)
  {
    if Encode(Decode(text).value) == text {
      EncodeIsCanonical(Decode(text).value);
    }
    if Canonical(text) {
      CanonicalReencodes(text);
    }
  }

  // Accepted text without '=' is canonical, so it survives decoding.
  lemma {:induction false} UnpaddedText(text: string)
    requires Decode(text).Some? && '=' !in text
    ensures Encode(Decode(text).value) == text
  {
    UnpaddedCanonical(text);
    CanonicalReencodes(text);
  }

  lemma {:induction false} UnpaddedCanonical(text: string)
    requires Decode(text).Some? && '=' !in text
    ensures Canonical(text)
  {
    if text != "" {
      var s := text[..4];
      assert s[3] == text[3] && ParseQuad(s).value.padding == 0;
      if |text| > 4 {
        UnpaddedCanonical(text[4..]);
      }
    }
  }

  // The decoder also takes text that no encoder writes: stray bits under the
  // padding, a group with no byte of its own, and padding in mid-text.
  lemma NonCanonicalAccepted()
    ensures Decode("AB==") == Decode("AA==") == Decode("====") == Some([0])
    ensures Decode("AA==AA==") == Some([0, 0])
  {
    hide Decode, ParseQuad;
    ParseZero("AB==");
    ParseZero("AA==");
    ParseZero("====");
    DecodeZero("AB==", Group(4096, 2));
    DecodeZero("AA==", Group(0, 2));
    DecodeZero("====", Group(0, 4));
    var s := "AA==AA==";
    assert s[0..] == s && s[0..4] == "AA==" && s[4..] == "AA==";
    DecodeStep(s, 0);
    assert GroupBytes(Group(0, 2)) + [0] == [0, 0];
  }

  lemma ParseZero(s: string)
    requires |s| == 4 && s[2] == s[3] == '='
    ensures s[0] == 'A' && s[1] == 'A' ==> ParseQuad(s) == Some(Group(0, 2))
    ensures s[0] == 'A' && s[1] == 'B' ==> ParseQuad(s) == Some(Group(4096, 2))
    ensures s[0] == '=' && s[1] == '=' ==> ParseQuad(s) == Some(Group(0, 4))
  {
  }

  lemma DecodeZero(s: string, g: Group)
    requires |s| == 4 && ParseQuad(s) == Some(g) && g.bits < 65536 && g.padding >= 2
    ensures Decode(s) == Some([0])
  {
    hide ParseQuad;
    DecodeOne(s);
    assert GroupBytes(g) == [0];
  }

  // ----- The alphabet -----

  const UPPER: string := "ABCDEFGHIJKLMNOPQRSTUVWXYZ"
  const LOWER: string := "abcdefghijklmnopqrstuvwxyz"
  const DECIMALS: string := "0123456789"
  const ALPHABET: string := UPPER + LOWER + DECIMALS + "+/"

  lemma UpperAt(i: nat)
    requires i < 26
    ensures |UPPER| == 26 && UPPER[i] == 'A' + i as char
  {
  }

  lemma LowerAt(i: nat)
    requires i < 26
    ensures |LOWER| == 26 && LOWER[i] == 'a' + i as char
  {
  }

  lemma DecimalAt(i: nat)
    requires i < 10
    ensures |DECIMALS| == 10 && DECIMALS[i] == '0' + i as char
  {
  }

  lemma AlphabetSizes()
    ensures |UPPER| == |LOWER| == 26 && |DECIMALS| == 10
  {
  }

  // Each six-bit value is written as its character of the alphabet.
  lemma DigitIsAlphabet(v: nat)
    requires v < 64
    ensures |ALPHABET| == 64 && Digit(v) == ALPHABET[v]
  {
    hide UPPER, LOWER, DECIMALS;
    AlphabetSizes();
    if v < 26 {
      UpperAt(v);
    } else if v < 52 {
      LowerAt(v - 26);
    } else if v < 62 {
      DecimalAt(v - 52);
    }
  }

  lemma QuadOf(t: nat, a: nat, b: nat, c: nat, d: nat)
    requires a < 64 && b < 64 && c < 64 && d < 64 && t == Join4(a, b, c, d)
    ensures t < 0x100_0000 && Quad(t) == [Digit(a), Digit(b), Digit(c), Digit(d)]
  {
    hide Digit;
    JoinedIn64(a, b, c, d);
  }

  // Three of the encodings in section 10 of RFC 4648.
  lemma TestVectors()
    ensures Encode([0x66]) == "Zg=="
    ensures Encode([0x66, 0x6F]) == "Zm8="
    ensures Encode([0x66, 0x6F, 0x6F]) == "Zm9v"
  {
    hide Quad;
    QuadOf(0x66_0000, 25, 32, 0, 0);
    QuadOf(0x66_6F00, 25, 38, 60, 0);
    QuadOf(0x66_6F6F, 25, 38, 61, 47);
    assert [0x66, 0x6F, 0x6F][3..] == [];
  }
}

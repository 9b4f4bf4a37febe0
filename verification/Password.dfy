/**
 Password records, `password.cpp`: a record prints as
 "$pbkdf2-sha256$<iterations>$<base64 salt>$<base64 digest>". The key derivation
 is a parameter, and the random salt is an argument (None when the generator
 fails). Anything without the prefix is a legacy plaintext entry.
 */
module Password {
  import opened Text
  import opened Bits
  import opened Base64

  const PREFIX := "$pbkdf2-sha256$"
  const DEFAULT_ITERATIONS: nat := 210000
  const MAX_ITERATIONS: nat := 100000000
  const SALT_BYTES: nat := 16
  const DIGEST_BYTES: nat := 32

  type Digest = d: seq<Byte> | |d| == DIGEST_BYTES witness seq(DIGEST_BYTES, _ => 0)
  type Salt = d: seq<Byte> | |d| == SALT_BYTES witness seq(SALT_BYTES, _ => 0)

  // Plaintext, salt and iteration count (a signed 32-bit argument) to a key.
  type Kdf = (string, seq<Byte>, int) -> Option<Digest>

  // ----- Comparison -----

  // C++ characters are single bytes.
  predicate Octets(s: string) {
    forall c :: c in s ==> c as int < 256
  }

  // The cast of a character to `unsigned char`, NUL past the end.
  function ByteAt(s: string, i: nat): (b: nat)
    ensures b < 256
  {
    if i < |s| then s[i] as int % 256 else 0
  }

  function Longer(a: string, b: string): nat {
    if |a| >= |b| then |a| else |b|
  }

  // Equal once padded with NULs to a common length, the lengths agreeing in
  // their low eight bits.
  predicate SameText(a: string, b: string) {
    && |a| % 256 == |b| % 256
    && forall i :: 0 <= i < Longer(a, b) ==> ByteAt(a, i) == ByteAt(b, i)
  }

  method ConstantTimeEquals(a: string, b: string) returns (same: bool)
    ensures same == SameText(a, b)
  {
    hide ByteAt, Xor, Or, Low;
    var maxLength := Longer(a, b);
    var difference := Xor(|a|, |b|, 8);
    XorIsZero(|a|, |b|, 8);
    LowOfXor(|a|, |b|, 8);
    LowByte(difference);
    LowByte(|a|);
    LowByte(|b|);
    for i := 0 to maxLength
      invariant difference < 256
      invariant difference == 0 <==>
        (|a| % 256 == |b| % 256 && forall k :: 0 <= k < i ==> ByteAt(a, k) == ByteAt(b, k))
    {
      var left, right := ByteAt(a, i), ByteAt(b, i);
      FoldIsZero(difference, left, right);
      difference := Or(difference, Xor(left, right, 8), 8);
    }
    return difference == 0;
  }

  lemma ByteAtEqual(a: string, b: string, i: nat)
    requires Octets(a) && Octets(b) && i < |a| && i < |b| && ByteAt(a, i) == ByteAt(b, i)
    ensures a[i] == b[i]
  {
    assert a[i] in a && b[i] in b;
  }

  lemma ByteAtZero(a: string, i: nat)
    requires Octets(a) && i < |a| && ByteAt(a, i) == 0
    ensures a[i] == '\0'
  {
    assert a[i] in a;
  }

  function Nuls(n: nat): (s: string)
    ensures |s| == n && forall i :: 0 <= i < n ==> s[i] == '\0'
  {
    seq(n, _ => '\0')
  }

  // Exactly what the comparison accepts: the longer text is the shorter one
  // followed by a multiple of 256 NULs.
  lemma SameTextExactly(a: string, b: string)
    requires Octets(a) && Octets(b) && |a| <= |b|
    ensures SameText(a, b) <==> b == a + Nuls(|b| - |a|) && (|b| - |a|) % 256 == 0
  {
    if SameText(a, b) {
      forall i | 0 <= i < |b| ensures b[i] == (a + Nuls(|b| - |a|))[i] {
        assert ByteAt(a, i) == ByteAt(b, i);
        if i < |a| {
          ByteAtEqual(a, b, i);
        } else {
          ByteAtZero(b, i);
        }
      }
    }
  }

  lemma SameTextSymmetric(a: string, b: string)
    ensures SameText(a, b) <==> SameText(b, a)
  {
  }

  // On texts without NUL it decides equality.
  lemma SameTextOnNulFree(a: string, b: string)
    requires Octets(a) && Octets(b) && '\0' !in a && '\0' !in b
    ensures SameText(a, b) <==> a == b
  {
    if SameText(a, b) {
      if |a| > |b| {
        SameTextSymmetric(a, b);
        SameTextExactly(b, a);
        EndsInNul(b, |a| - |b|);
      } else {
        SameTextExactly(a, b);
        if |b| > |a| {
          EndsInNul(a, |b| - |a|);
        }
        assert b == a + [];
      }
    }
  }

  lemma EndsInNul(a: string, n: nat)
    requires n > 0
    ensures '\0' in a + Nuls(n)
  {
    assert (a + Nuls(n))[|a|] == '\0';
  }

  // The low eight bits of the length difference are all that is compared.
  lemma NulPaddingAccepted(a: string)
    requires Octets(a)
    ensures a != a + Nuls(256) && SameText(a, a + Nuls(256))
  {
    SameTextExactly(a, a + Nuls(256));
  }

  // ----- Records -----

  predicate IsHashed(stored: string) {
    PREFIX <= stored
  }

  datatype Record = Record(iterations: nat, salt: seq<Byte>, digest: Digest)

  function Print(r: Record): (s: string)
    ensures IsHashed(s)
  {
    PREFIX + (ToDecimal(r.iterations) + ['$'] + (Encode(r.salt) + ['$'] + Encode(r.digest)))
  }

  // The record a hashed entry holds; None where `verify` gives up before
  // deriving a key.
  function Parse(stored: string): (r: Option<Record>)
    requires IsHashed(stored)
    ensures r.Some? ==> 1 <= r.value.iterations <= MAX_ITERATIONS && r.value.salt != []
  {
    var body := stored[|PREFIX|..];
    match Find(body, '$')
    case None => None
    case Some(first) => ParseFields(body[..first], body[first + 1..])
  }

  function ParseFields(count: string, rest: string): (r: Option<Record>)
    ensures r.Some? ==> 1 <= r.value.iterations <= MAX_ITERATIONS && r.value.salt != []
  {
    match Find(rest, '$')
    case None => None
    case Some(k) =>
      var parsed := Stoull(count, 10);
      if parsed.None? || parsed.value == 0 || parsed.value > MAX_ITERATIONS then None
      else
        var salt, digest := Decode(rest[..k]), Decode(rest[k + 1..]);
        if salt.None? || digest.None? || salt.value == [] || |digest.value| != DIGEST_BYTES then None
        else Some(Record(parsed.value, salt.value, digest.value))
  }

  // A 32-bit unsigned count as the signed argument of the key derivation.
  function AsInt(n: nat): int {
    if n % 0x1_0000_0000 < TWO_31 then n % 0x1_0000_0000 else n % 0x1_0000_0000 - 0x1_0000_0000
  }

  function Effective(iterations: nat): nat {
    if iterations == 0 then DEFAULT_ITERATIONS else iterations
  }

  // The stored form of a new password; empty when the salt or the key fails.
  function HashOf(kdf: Kdf, plaintext: string, salt: Option<Salt>, iterations: nat): string {
    var n := Effective(iterations);
    if salt.None? then ""
    else
      var digest := kdf(plaintext, salt.value, AsInt(n));
      if digest.None? then "" else Print(Record(n, salt.value, digest.value))
  }

  predicate Verifies(kdf: Kdf, plaintext: string, stored: string) {
    if !IsHashed(stored) then SameText(plaintext, stored)
    else
      var r := Parse(stored);
      r.Some? && kdf(plaintext, r.value.salt, AsInt(r.value.iterations)) == Some(r.value.digest)
  }

  method Hash(kdf: Kdf, plaintext: string, salt: Option<Salt>, iterations: nat) returns (out: string)
    requires iterations < 0x1_0000_0000
    ensures out == HashOf(kdf, plaintext, salt, iterations)
  {
    hide Encode, ToDecimal, AsInt;
    var n := iterations;
    if n == 0 {
      n := DEFAULT_ITERATIONS;
    }
    if salt.None? {
      return "";
    }
    var digest := kdf(plaintext, salt.value, AsInt(n));
    if digest.None? {
      return "";
    }
    var encodedSalt := Base64Encode(salt.value);
    var encodedDigest := Base64Encode(digest.value);
    return PREFIX + (ToDecimal(n) + ['$'] + (encodedSalt + ['$'] + encodedDigest));
  }

  method Verify(kdf: Kdf, plaintext: string, stored: string) returns (ok: bool)
    ensures ok == Verifies(kdf, plaintext, stored)
  {
    hide Decode, Stoull, AsInt, SameText;
    if !IsHashed(stored) {
      ok := ConstantTimeEquals(plaintext, stored);
      return;
    }
    var body := stored[|PREFIX|..];
    var first := Find(body, '$');
    if first.None? {
      return false;
    }
    var count, rest := body[..first.value], body[first.value + 1..];
    var second := Find(rest, '$');
    if second.None? {
      return false;
    }
    var parsed := Stoull(count, 10);
    if parsed.None? || parsed.value == 0 || parsed.value > MAX_ITERATIONS {
      return false;
    }
    var salt := Base64Decode(rest[..second.value]);
    var expected := Base64Decode(rest[second.value + 1..]);
    if salt.None? || expected.None? || salt.value == [] || |expected.value| != DIGEST_BYTES {
      return false;
    }
    var actual := kdf(plaintext, salt.value, AsInt(parsed.value));
    return actual.Some? && actual.value == expected.value;
  }

  // ----- Printing and parsing -----

  lemma {:induction false} EncodeHasNoDollar(data: seq<Byte>)
    ensures '$' !in Encode(data)
  {
    hide Triple, Digit;
    if 1 <= |data| <= 2 {
      var t := Triple(data[0], if |data| == 2 then data[1] else 0, 0);
      QuadHasNoDollar(t);
    } else if |data| > 2 {
      QuadHasNoDollar(Triple(data[0], data[1], data[2]));
      EncodeHasNoDollar(data[3..]);
    }
  }

  lemma QuadHasNoDollar(t: nat)
    requires t < 0x100_0000
    ensures '$' !in Quad(t)
  {
    DigitIsNoDollar(t / 262144);
    DigitIsNoDollar(t / 4096 % 64);
    DigitIsNoDollar(t / 64 % 64);
    DigitIsNoDollar(t % 64);
  }

  lemma DigitIsNoDollar(v: nat)
    requires v < 64
    ensures Digit(v) != '$'
  {
  }

  lemma StoullOfDecimal(n: nat)
    requires n < TWO_64
    ensures Stoull(ToDecimal(n), 10) == Some(n)
  {
    hide ToDecimal, Scan;
    ScanDecimal(n);
  }

  lemma SplitAt(a: string, c: char, b: string)
    requires c !in a
    ensures var s := a + [c] + b;
      Find(s, c) == Some(|a|) && s[..|a|] == a && s[|a| + 1..] == b
  {
    FindAt(a, c, b);
  }

  lemma FieldsOfPrint(r: Record)
    requires r.iterations < TWO_64
    ensures ParseFields(ToDecimal(r.iterations), Encode(r.salt) + ['$'] + Encode(r.digest)) ==
      if 1 <= r.iterations <= MAX_ITERATIONS && r.salt != [] then Some(r) else None
  {
    hide ToDecimal, Encode, Decode, Stoull, Find;
    EncodeHasNoDollar(r.salt);
    SplitAt(Encode(r.salt), '$', Encode(r.digest));
    StoullOfDecimal(r.iterations);
    DecodeEncode(r.salt);
    DecodeEncode(r.digest);
  }

  // What is printed is read back, provided the iteration count is one that the
  // reader accepts.
  lemma ParsePrint(r: Record)
    requires r.iterations < TWO_64
    ensures Parse(Print(r)) ==
      if 1 <= r.iterations <= MAX_ITERATIONS && r.salt != [] then Some(r) else None
  {
    hide ToDecimal, Encode, ParseFields, Find;
    var count, rest := ToDecimal(r.iterations), Encode(r.salt) + ['$'] + Encode(r.digest);
    assert Print(r)[|PREFIX|..] == count + ['$'] + rest;
    DecimalHasNo(r.iterations, '$');
    SplitAt(count, '$', rest);
    FieldsOfPrint(r);
  }

  // The central law, for every plaintext, salt and count: another plaintext
  // verifies against a new hash exactly when its derived key is the same and
  // the count is one that `verify` accepts.
  lemma VerifyHash(kdf: Kdf, p: string, q: string, salt: Salt, iterations: nat)
    requires iterations < 0x1_0000_0000
    requires kdf(p, salt, AsInt(Effective(iterations))).Some?
    ensures IsHashed(HashOf(kdf, p, Some(salt), iterations))
    ensures var n := if iterations == 0 then 210000 else iterations;
      Verifies(kdf, q, HashOf(kdf, p, Some(salt), iterations)) <==>
        n <= 100000000 && kdf(q, salt, n) == kdf(p, salt, n)
  {
    hide Parse, Print;
    var n := Effective(iterations);
    ParsePrint(Record(n, salt, kdf(p, salt, AsInt(n)).value));
  }

  // The printed record, split at its dollar signs: the scheme, the count in
  // decimal, the salt and the digest in Base64, in this order.
  lemma PrintedFields(r: Record)
    ensures Split(Print(r), '$') ==
      ["", "pbkdf2-sha256", ToDecimal(r.iterations), Encode(r.salt), Encode(r.digest)]
  {
    hide ToDecimal, Encode, Split;
    var count, salt, digest := ToDecimal(r.iterations), Encode(r.salt), Encode(r.digest);
    DecimalHasNo(r.iterations, '$');
    EncodeHasNoDollar(r.salt);
    EncodeHasNoDollar(r.digest);
    var last := salt + ['$'] + digest;
    var middle := count + ['$'] + last;
    assert Print(r) == "" + ['$'] + ("pbkdf2-sha256" + ['$'] + middle);
    SplitConcat("", '$', "pbkdf2-sha256" + ['$'] + middle);
    SplitConcat("pbkdf2-sha256", '$', middle);
    SplitConcat(count, '$', last);
    SplitConcat(salt, '$', digest);
    SplitNoDelimiter("", '$');
    SplitNoDelimiter("pbkdf2-sha256", '$');
    SplitNoDelimiter(count, '$');
    SplitNoDelimiter(salt, '$');
    SplitNoDelimiter(digest, '$');
    assert [""] + (["pbkdf2-sha256"] + ([count] + ([salt] + [digest])))
        == ["", "pbkdf2-sha256", count, salt, digest];
  }

  // A new hash records the count asked for, 210000 if none is, the salt, and the
  // key derived with both; it is empty exactly when the generator or the
  // derivation fails.
  lemma HashRecords(kdf: Kdf, plaintext: string, salt: Option<Salt>, iterations: nat)
    requires iterations < 0x1_0000_0000
    ensures var n := if iterations == 0 then 210000 else iterations;
      var stored := HashOf(kdf, plaintext, salt, iterations);
      if salt.Some? && kdf(plaintext, salt.value, AsInt(n)).Some? then
        Split(stored, '$') == ["", "pbkdf2-sha256", ToDecimal(n), Encode(salt.value),
                               Encode(kdf(plaintext, salt.value, AsInt(n)).value)]
      else stored == ""
  {
    hide Print, Split, ToDecimal, Encode, AsInt;
    var n := Effective(iterations);
    if salt.Some? && kdf(plaintext, salt.value, AsInt(n)).Some? {
      PrintedFields(Record(n, salt.value, kdf(plaintext, salt.value, AsInt(n)).value));
    }
  }

  // What `verify` says of text that is no record: the plaintext rule without the
  // prefix, and no with it.
  lemma VerifyMalformed(kdf: Kdf, plaintext: string, stored: string)
    ensures !(PREFIX <= stored) ==> (Verifies(kdf, plaintext, stored) <==> SameText(plaintext, stored))
    ensures PREFIX <= stored && |Split(stored, '$')| < 5 ==> !Verifies(kdf, plaintext, stored)
  {
    hide SameText, Split, Decode, Stoull, Find;
    if PREFIX <= stored && Parse(stored).Some? {
      ParsedHasFields(stored);
    }
  }

  lemma SplitAtFirst(s: string, c: char)
    requires Find(s, c).Some?
    ensures var k := Find(s, c).value;
      |Split(s, c)| == |Split(s[..k], c)| + |Split(s[k + 1..], c)|
  {
    hide Split, Find;
    var k := Find(s, c).value;
    assert s == s[..k] + [c] + s[k + 1..];
    SplitConcat(s[..k], c, s[k + 1..]);
  }

  lemma SplitAfterPrefix(body: string)
    ensures |Split(PREFIX + body, '$')| >= 2 + |Split(body, '$')|
  {
    hide Split;
    var scheme := "pbkdf2-sha256";
    assert PREFIX == "" + ['$'] + (scheme + ['$']);
    assert PREFIX + body == "" + ['$'] + (scheme + ['$'] + body);
    SplitConcat(scheme, '$', body);
    SplitConcat("", '$', scheme + ['$'] + body);
  }

  lemma ParsedHasDollars(body: string)
    requires Parse(PREFIX + body).Some?
    ensures Find(body, '$').Some? && Find(body[Find(body, '$').value + 1..], '$').Some?
  {
    hide PREFIX, Decode, Stoull, Find;
    assert (PREFIX + body)[|PREFIX|..] == body;
  }

  lemma ParsedHasFields(stored: string)
    requires PREFIX <= stored && Parse(stored).Some?
    ensures |Split(stored, '$')| >= 5
  {
    hide PREFIX, Parse, Split, Find;
    var body := stored[|PREFIX|..];
    assert stored == PREFIX + body;
    ParsedHasDollars(body);
    SplitAtFirst(body[Find(body, '$').value + 1..], '$');
    SplitAtFirst(body, '$');
    SplitAfterPrefix(body);
  }
}

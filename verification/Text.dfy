/**
 Text handling shared by the components: splitting on a delimiter, decimal
 printing, and the number scanners `std::stoi`, `std::stoul` and `std::stoull`.
 A C++ string is modelled as a sequence of characters.
 */
module Text {

  datatype Option<+T> = None | Some(value: T)

  newtype Byte = x: int | 0 <= x < 256

  // ----- Splitting and joining -----

  // The pieces of `s` between occurrences of `d`; one more piece than delimiters.
  function Split(s: string, d: char): (parts: seq<string>)
    ensures |parts| > 0
    ensures forall p :: p in parts ==> d !in p
  {
    if s == [] then [[]]
    else if s[0] == d then [[]] + Split(s[1..], d)
    else
      var rest := Split(s[1..], d);
      [[s[0]] + rest[0]] + rest[1..]
  }

  function Join(parts: seq<string>, d: char): string {
    if parts == [] then []
    else if |parts| == 1 then parts[0]
    else parts[0] + [d] + Join(parts[1..], d)
  }

  lemma {:induction false} SplitNoDelimiter(s: string, d: char)
    requires d !in s
    ensures Split(s, d) == [s]
  {
    if s != [] {
      SplitNoDelimiter(s[1..], d);
      assert s == [s[0]] + s[1..];
    }
  }

  // Splitting at a delimiter splits the two sides independently.
  lemma {:induction false} SplitConcat(a: string, d: char, b: string)
    ensures Split(a + [d] + b, d) == Split(a, d) + Split(b, d)
  {
    var whole := a + [d] + b;
    if a == [] {
      assert whole[1..] == b;
    } else {
      assert whole[1..] == a[1..] + [d] + b;
      SplitConcat(a[1..], d, b);
    }
  }

  lemma {:induction false} SplitJoin(parts: seq<string>, d: char)
    requires parts != []
    requires forall p :: p in parts ==> d !in p
    ensures Split(Join(parts, d), d) == parts
  {
    SplitNoDelimiter(parts[0], d);
    if |parts| > 1 {
      SplitConcat(parts[0], d, Join(parts[1..], d));
      SplitJoin(parts[1..], d);
      assert parts == [parts[0]] + parts[1..];
    }
  }

  // Position of the first `c`, as `std::string::find` reports it.
  function Find(s: string, c: char): (r: Option<nat>)
    ensures r.None? <==> c !in s
    ensures r.Some? ==> r.value < |s| && s[r.value] == c && c !in s[..r.value]
  {
    if s == [] then None
    else if s[0] == c then Some(0)
    else match Find(s[1..], c)
         case None => None
         case Some(k) =>
           assert s[..k + 1] == [s[0]] + s[1..][..k];
           Some(k + 1)
  }

  lemma {:induction false} FindAt(a: string, c: char, b: string)
    requires c !in a
    ensures Find(a + [c] + b, c) == Some(|a|)
  {
    if a != [] {
      assert (a + [c] + b)[1..] == a[1..] + [c] + b;
      FindAt(a[1..], c, b);
    }
  }

  function Upper(s: string): (r: string)
    ensures |r| == |s|
  {
    seq(|s|, i requires 0 <= i < |s| => if 'a' <= s[i] <= 'z' then s[i] - 'a' + 'A' else s[i])
  }

  // ----- Numbers -----

  predicate IsDigit(c: char, base: nat) {
    '0' <= c <= '9' && (c as int - '0' as int) < base
  }

  predicate AllDigits(s: string, base: nat) {
    forall c :: c in s ==> IsDigit(c, base)
  }

  function DigitValue(c: char): nat
    requires '0' <= c <= '9'
  {
    c as int - '0' as int
  }

  // The number a digit string denotes, most significant digit first.
  function Number(s: string, base: nat): nat
    requires base <= 10 && AllDigits(s, base)
  {
    if s == [] then 0
    else
      var last := s[|s| - 1];
      assert IsDigit(last, base) by { assert last in s; }
      Number(s[..|s| - 1], base) * base + DigitValue(last)
  }

  // `std::to_string` on an unsigned value.
  function ToDecimal(n: nat): (s: string)
    ensures s != [] && AllDigits(s, 10)
  {
    if n < 10 then [('0' as int + n) as char]
    else ToDecimal(n / 10) + [('0' as int + n % 10) as char]
  }

  lemma DecimalHasNo(n: nat, c: char)
    requires !IsDigit(c, 10)
    ensures c !in ToDecimal(n)
  {
  }

  lemma {:induction false} NumberOfDecimal(n: nat)
    ensures Number(ToDecimal(n), 10) == n
  {
    var s := ToDecimal(n);
    if n >= 10 {
      NumberOfDecimal(n / 10);
      assert s[..|s| - 1] == ToDecimal(n / 10);
    } else {
      assert s[..|s| - 1] == [];
    }
  }

  // How many characters at the front of `s` are digits.
  function DigitRun(s: string, base: nat): (k: nat)
    ensures k <= |s|
    ensures AllDigits(s[..k], base)
    ensures k < |s| ==> !IsDigit(s[k], base)
  {
    if s == [] || !IsDigit(s[0], base) then 0
    else
      var k := DigitRun(s[1..], base);
      assert s[..k + 1] == [s[0]] + s[1..][..k];
      k + 1
  }

  function SkipSpace(s: string): string {
    if s != [] && (s[0] == ' ' || '\t' <= s[0] <= '\r') then SkipSpace(s[1..]) else s
  }

  // The conversion under `strtol`/`strtoull`: white space, an optional sign,
  // the longest run of digits. None when there is no digit.
  function Scan(s: string, base: nat): Option<int>
    requires base <= 10
  {
    var t := SkipSpace(s);
    var negative := t != [] && t[0] == '-';
    var digits := if t != [] && (t[0] == '-' || t[0] == '+') then t[1..] else t;
    var k := DigitRun(digits, base);
    if k == 0 then None
    else
      var magnitude: int := Number(digits[..k], base);
      Some(if negative then -magnitude else magnitude)
  }

  const TWO_31: int := 0x8000_0000
  const TWO_63: int := 0x8000_0000_0000_0000
  const TWO_64: int := 0x1_0000_0000_0000_0000

  // `std::stoi`: None where it throws.
  function Stoi(s: string): (r: Option<int>)
    ensures r.Some? ==> -TWO_31 <= r.value < TWO_31
  {
    match Scan(s, 10)
    case None => None
    case Some(v) => if -TWO_31 <= v < TWO_31 then Some(v) else None
  }

  // `std::stoul` and `std::stoull` on a 64-bit platform: a leading minus sign
  // wraps around rather than being refused. None where they throw.
  function Stoull(s: string, base: nat): (r: Option<nat>)
    requires base <= 10
    ensures r.Some? ==> r.value < TWO_64
  {
    match Scan(s, base)
    case None => None
    case Some(v) =>
      if v >= TWO_64 || v <= -TWO_64 then None
      else if v < 0 then Some(v + TWO_64) else Some(v)
  }

  // Text of digits only is read to its end.
  lemma ScanDigits(s: string, base: nat)
    requires base <= 10 && s != [] && AllDigits(s, base)
    ensures Scan(s, base) == Some(Number(s, base))
  {
    hide Number;
    assert IsDigit(s[0], base);
    assert SkipSpace(s) == s;
    var k := DigitRun(s, base);
    assert forall i :: 0 <= i < |s| ==> s[i] in s;
    assert s[..k] == s;
  }

  // What `to_string` prints is what the scanners read back.
  lemma ScanDecimal(n: nat)
    ensures Scan(ToDecimal(n), 10) == Some(n)
  {
    hide ToDecimal, Scan;
    ScanDigits(ToDecimal(n), 10);
    NumberOfDecimal(n);
  }

  lemma StoiOfDecimal(n: nat)
    requires n < TWO_31
    ensures Stoi(ToDecimal(n)) == Some(n)
  {
    hide ToDecimal, Scan;
    ScanDecimal(n);
  }

  // Decimal text reads from the most significant digit on.
  lemma DecimalExamples()
    ensures ToDecimal(0) == "0" && ToDecimal(9) == "9" && ToDecimal(10) == "10" && ToDecimal(210000) == "210000"
  {
    assert ToDecimal(21) == "21";
    assert ToDecimal(2100) == "2100";
  }
}

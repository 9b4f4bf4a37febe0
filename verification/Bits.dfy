/**
 Bitwise operations of C++ on unsigned values, kept to their low bits: what the
 cast to `unsigned char` keeps, and when an accumulated difference is zero.
 */
module Bits {

  function Half(x: nat): nat {
    x / 2
  }

  function Bit(x: nat): nat {
    x % 2
  }

  // The low k bits.
  function Low(x: nat, k: nat): nat
    decreases k
  {
    if k == 0 then 0 else Bit(x) + 2 * Low(Half(x), k - 1)
  }

  // The low k bits of `x ^ y`.
  function Xor(x: nat, y: nat, k: nat): nat
    decreases k
  {
    if k == 0 then 0 else (if Bit(x) == Bit(y) then 0 else 1) + 2 * Xor(Half(x), Half(y), k - 1)
  }

  // The low k bits of `x | y`.
  function Or(x: nat, y: nat, k: nat): nat
    decreases k
  {
    if k == 0 then 0 else (if Bit(x) == Bit(y) == 0 then 0 else 1) + 2 * Or(Half(x), Half(y), k - 1)
  }

  lemma HalfAndBit(x: nat)
    ensures x == 2 * Half(x) + Bit(x) && Bit(x) < 2
  {
  }

  lemma Append(b: nat, r: nat)
    requires b < 2
    ensures Bit(b + 2 * r) == b && Half(b + 2 * r) == r
  {
  }

  lemma {:induction false} XorIsZero(x: nat, y: nat, k: nat)
    ensures Xor(x, y, k) == 0 <==> Low(x, k) == Low(y, k)
    decreases k
  {
    hide Half, Bit;
    if k > 0 {
      HalfAndBit(x);
      HalfAndBit(y);
      XorIsZero(Half(x), Half(y), k - 1);
    }
  }

  lemma {:induction false} OrIsZero(x: nat, y: nat, k: nat)
    ensures Or(x, y, k) == 0 <==> Low(x, k) == 0 && Low(y, k) == 0
    decreases k
  {
    hide Half, Bit;
    if k > 0 {
      HalfAndBit(x);
      HalfAndBit(y);
      OrIsZero(Half(x), Half(y), k - 1);
    }
  }

  lemma {:induction false} LowOfXor(x: nat, y: nat, k: nat)
    ensures Low(Xor(x, y, k), k) == Xor(x, y, k)
    decreases k
  {
    hide Half, Bit;
    if k > 0 {
      LowOfXor(Half(x), Half(y), k - 1);
      Append(if Bit(x) == Bit(y) then 0 else 1, Xor(Half(x), Half(y), k - 1));
    }
  }

  lemma {:induction false} LowOfOr(x: nat, y: nat, k: nat)
    ensures Low(Or(x, y, k), k) == Or(x, y, k)
    decreases k
  {
    hide Half, Bit;
    if k > 0 {
      LowOfOr(Half(x), Half(y), k - 1);
      Append(if Bit(x) == Bit(y) == 0 then 0 else 1, Or(Half(x), Half(y), k - 1));
    }
  }

  function Power(k: nat): (p: nat)
    ensures p > 0
  {
    if k == 0 then 1 else 2 * Power(k - 1)
  }

  // The quotient by 2^k.
  function High(x: nat, k: nat): nat
    decreases k
  {
    if k == 0 then x else High(Half(x), k - 1)
  }

  lemma {:induction false} LowAndHigh(x: nat, k: nat)
    ensures x == Power(k) * High(x, k) + Low(x, k) && Low(x, k) < Power(k)
    decreases k
  {
    if k > 0 {
      hide Half, Bit, Power, Low, High;
      HalfAndBit(x);
      LowAndHigh(Half(x), k - 1);
      Unfold(x, k);
      Associate(Power(k - 1), High(Half(x), k - 1));
    }
  }

  lemma Unfold(x: nat, k: nat)
    requires k > 0
    ensures Low(x, k) == Bit(x) + 2 * Low(Half(x), k - 1) && High(x, k) == High(Half(x), k - 1)
    ensures Power(k) == 2 * Power(k - 1)
  {
    hide Half, Bit;
  }

  lemma Associate(p: nat, h: nat)
    ensures 2 * (p * h) == 2 * p * h
  {
  }

  lemma Remainder(x: nat, q: nat, r: nat)
    requires x == 256 * q + r && r < 256
    ensures x % 256 == r
  {
  }

  // The cast to `unsigned char` is the remainder by 256.
  lemma LowByte(x: nat)
    ensures Low(x, 8) == x % 256
  {
    hide Low, High;
    LowAndHigh(x, 8);
    assert Power(4) == 16;
    assert Power(8) == 16 * Power(4);
    Remainder(x, High(x, 8), Low(x, 8));
  }

  // What `difference |= left ^ right` does to a difference being zero.
  lemma FoldIsZero(difference: nat, x: nat, y: nat)
    requires difference < 256 && x < 256 && y < 256
    ensures Or(difference, Xor(x, y, 8), 8) < 256
    ensures Or(difference, Xor(x, y, 8), 8) == 0 <==> difference == 0 && x == y
  {
    hide Low, Or, Xor;
    XorIsZero(x, y, 8);
    OrIsZero(difference, Xor(x, y, 8), 8);
    LowOfXor(x, y, 8);
    LowOfOr(difference, Xor(x, y, 8), 8);
    LowByte(Or(difference, Xor(x, y, 8), 8));
    LowByte(difference);
    LowByte(x);
    LowByte(y);
  }
}

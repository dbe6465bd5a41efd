/**
 * Non-negative integers seen as bit strings: the arithmetic behind Python's
 * `^` operator and the 8-bit byte values the fault operators work on.
 * Bit 0 is the least-significant bit.
 */
module Bits {

  /** A byte as Python's bytearray holds it: an int in 0..255. */
  type Byte = x: int | 0 <= x < 256

  /** 2 to the power k. */
  function Pow2(k: nat): (r: nat)
    ensures r >= 1
  {
    if k == 0 then 1 else 2 * Pow2(k - 1)
  }

  /** Bit k of x, where bit 0 is the least significant one. */
  function Bit(x: nat, k: nat): (r: nat)
    ensures r < 2
  {
    if k == 0 then x % 2 else Bit(x / 2, k - 1)
  }

  /** Python's `a ^ b` on non-negative integers, one binary digit at a time. */
  function Xor(a: nat, b: nat): nat
    decreases a + b
  {
    if a == 0 && b == 0 then 0 else 2 * Xor(a / 2, b / 2) + (a % 2 + b % 2) % 2
  }

  lemma Pow2Byte()
    ensures Pow2(8) == 256
  {
  }

  lemma {:induction false} BitOfZero(k: nat)
    ensures Bit(0, k) == 0
  {
    if k > 0 {
      BitOfZero(k - 1);
    }
  }

  /** Every bit at or above the width n of x is 0. */
  lemma {:induction false} BitAboveWidth(x: nat, n: nat, k: nat)
    requires x < Pow2(n) && n <= k
    ensures Bit(x, k) == 0
  {
    if n == 0 {
      BitOfZero(k);
    } else {
      BitAboveWidth(x / 2, n - 1, k - 1);
    }
  }

  /** Bit k of 2 * q + d (d a single digit): d at k = 0, else bit k - 1 of q. */
  lemma ShiftBit(q: nat, d: nat, k: nat)
    requires d < 2
    ensures Bit(2 * q + d, k) == if k == 0 then d else Bit(q, k - 1)
  {
    assert (2 * q + d) / 2 == q;
  }

  /** Two numbers below 2^n with the same n low bits are equal. */
  lemma {:induction false} BitsDetermine(a: nat, b: nat, n: nat)
    requires a < Pow2(n) && b < Pow2(n)
    requires forall k :: 0 <= k < n ==> Bit(a, k) == Bit(b, k)
    ensures a == b
  {
    if n > 0 {
      assert Bit(a, 0) == Bit(b, 0);
      forall k | 0 <= k < n - 1
        ensures Bit(a / 2, k) == Bit(b / 2, k)
      {
        assert Bit(a, k + 1) == Bit(b, k + 1);
      }
      BitsDetermine(a / 2, b / 2, n - 1);
    }
  }

  /** Each bit of a ^ b is the sum of the operands' bits modulo 2. */
  lemma {:induction false} XorBit(a: nat, b: nat, k: nat)
    ensures Bit(Xor(a, b), k) == (Bit(a, k) + Bit(b, k)) % 2
  {
    if a == 0 && b == 0 {
      BitOfZero(k);
    } else {
      var d := (a % 2 + b % 2) % 2;
      ShiftBit(Xor(a / 2, b / 2), d, k);
      if k > 0 {
        XorBit(a / 2, b / 2, k - 1);
      }
    }
  }

  /** a ^ b stays below 2^n when both operands do. */
  lemma {:induction false} XorBound(a: nat, b: nat, n: nat)
    requires a < Pow2(n) && b < Pow2(n)
    ensures Xor(a, b) < Pow2(n)
  {
    if n > 0 && !(a == 0 && b == 0) {
      XorBound(a / 2, b / 2, n - 1);
    }
  }

  /** The single set bit of 2^j is bit j. */
  lemma {:induction false} BitOfPow2(j: nat, k: nat)
    ensures Bit(Pow2(j), k) == if k == j then 1 else 0
  {
    if j == 0 {
      if k > 0 {
        BitOfZero(k - 1);
      }
    } else {
      ShiftBit(Pow2(j - 1), 0, k);
      if k > 0 {
        BitOfPow2(j - 1, k - 1);
      }
    }
  }

  /** 2^n - 1 - x has exactly the low n bits of x inverted. */
  lemma {:induction false} ComplementBit(x: nat, n: nat, k: nat)
    requires x < Pow2(n) && k < n
    ensures Bit(Pow2(n) - 1 - x, k) == 1 - Bit(x, k)
  {
    var q := Pow2(n - 1) - 1 - x / 2;
    assert Pow2(n) - 1 - x == 2 * q + (1 - x % 2);
    ShiftBit(q, 1 - x % 2, k);
    if k > 0 {
      ComplementBit(x / 2, n - 1, k - 1);
    }
  }

  /** Each of the low eight bits of 0xFF is 1. */
  lemma AllOnesBit(k: nat)
    requires k < 8
    ensures Bit(0xFF, k) == 1
  {
    Pow2Byte();
    ComplementBit(0, 8, k);
    BitOfZero(k);
  }

  /** One bit of `x ^ 0xFF` for a byte x: it is the inverted bit of x, and so is that bit of 0xFF - x. */
  lemma XorAllOnesBit(x: nat, k: nat)
    requires x < 256 && k < 8
    ensures Bit(Xor(x, 0xFF), k) == 1 - Bit(x, k)
    ensures Bit(0xFF - x, k) == 1 - Bit(x, k)
  {
    Pow2Byte();
    AllOnesBit(k);
    ComplementBit(x, 8, k);
    XorBit(x, 0xFF, k);
    var v := Bit(x, k);
    assert Bit(Xor(x, 0xFF), k) == (v + 1) % 2;
    if v == 0 {
      assert (v + 1) % 2 == 1;
    } else {
      assert (v + 1) % 2 == 0;
    }
  }

  /** `x ^ 0xFF` of a byte is 0xFF - x, and it inverts every one of the eight bits. */
  lemma XorAllOnes(x: nat)
    requires x < 256
    ensures Xor(x, 0xFF) == 0xFF - x
    ensures forall k :: 0 <= k < 8 ==> Bit(Xor(x, 0xFF), k) == 1 - Bit(x, k)
  {
    Pow2Byte();
    XorBound(x, 0xFF, 8);
    forall k | 0 <= k < 8
      ensures Bit(Xor(x, 0xFF), k) == 1 - Bit(x, k) == Bit(0xFF - x, k)
    {
      XorAllOnesBit(x, k);
    }
    BitsDetermine(Xor(x, 0xFF), 0xFF - x, 8);
  }

  /** `x ^ 2^j` toggles bit j of x and keeps every other bit. */
  lemma XorPow2Bit(x: nat, j: nat, k: nat)
    ensures Bit(Xor(x, Pow2(j)), k) == if k == j then 1 - Bit(x, k) else Bit(x, k)
  {
    XorBit(x, Pow2(j), k);
    BitOfPow2(j, k);
  }
}

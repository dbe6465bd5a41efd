/**
 * The text form of a byte that the bit-level fault operators edit: Python's
 * `bin(x)[2:]`, `str.zfill` and `int(s, 2)`, over strings of '0' and '1'.
 * String position 0 holds the most significant digit.
 */
module BinaryText {
  import opened Bits

  /** The character for a single binary digit. */
  function Digit(v: nat): char
    requires v < 2
  {
    if v == 1 then '1' else '0'
  }

  /** The value of a binary digit character. */
  function DigitValue(c: char): nat
  {
    if c == '1' then 1 else 0
  }

  predicate IsBinaryDigits(s: seq<char>)
  {
    forall i :: 0 <= i < |s| ==> s[i] == '0' || s[i] == '1'
  }

  /** `bin(x)[2:]`: the shortest base-2 numeral of x ("0" for zero). */
  function BinDigits(x: nat): (s: seq<char>)
    ensures |s| >= 1 && IsBinaryDigits(s)
  {
    if x < 2 then [Digit(x)] else BinDigits(x / 2) + [Digit(x % 2)]
  }

  /** `s.zfill(width)` for an unsigned numeral: left-pad with '0' up to width. */
  function ZFill(s: seq<char>, width: nat): (r: seq<char>)
    ensures |r| == if |s| >= width then |s| else width
    ensures forall i :: 0 <= i < |r| ==> r[i] == if i < |r| - |s| then '0' else s[i - (|r| - |s|)]
  {
    if |s| >= width then s else seq(width - |s|, _ => '0') + s
  }

  /** `int(s, 2)` for a non-empty string of binary digits. */
  function ParseBinary(s: seq<char>): (r: nat)
    requires |s| >= 1 && IsBinaryDigits(s)
    ensures r < Pow2(|s|)
  {
    if |s| == 1 then DigitValue(s[0])
    else 2 * ParseBinary(s[..|s| - 1]) + DigitValue(s[|s| - 1])
  }

  /** The numeral bin(x)[2:] is exactly as long as x needs. */
  lemma {:induction false} BinDigitsWidth(x: nat)
    ensures x < Pow2(|BinDigits(x)|)
  {
    if x >= 2 {
      BinDigitsWidth(x / 2);
    }
  }

  /** bin(x)[2:] fits in n digits when x < 2^n. */
  lemma {:induction false} BinDigitsFit(x: nat, n: nat)
    requires 1 <= n && x < Pow2(n)
    ensures |BinDigits(x)| <= n
  {
    if x >= 2 {
      BinDigitsFit(x / 2, n - 1);
    }
  }

  /** Digit i of bin(x)[2:] is bit (length - 1 - i) of x. */
  lemma {:induction false} BinDigitsAt(x: nat, i: nat)
    requires i < |BinDigits(x)|
    ensures BinDigits(x)[i] == Digit(Bit(x, |BinDigits(x)| - 1 - i))
  {
    if x >= 2 {
      var s := BinDigits(x / 2);
      ShiftBit(x / 2, x % 2, |BinDigits(x)| - 1 - i);
      assert x == 2 * (x / 2) + x % 2;
      if i < |s| {
        BinDigitsAt(x / 2, i);
      }
    }
  }

  /** Digit i of the n-digit zero-padded numeral of x is bit n - 1 - i of x. */
  lemma ZFilledAt(x: nat, n: nat, i: nat)
    requires 1 <= n && x < Pow2(n) && i < n
    ensures |ZFill(BinDigits(x), n)| == n
    ensures ZFill(BinDigits(x), n)[i] == Digit(Bit(x, n - 1 - i))
  {
    var s := BinDigits(x);
    BinDigitsFit(x, n);
    if i < n - |s| {
      BinDigitsWidth(x);
      BitAboveWidth(x, |s|, n - 1 - i);
    } else {
      BinDigitsAt(x, i - (n - |s|));
    }
  }

  /** The digits of a binary numeral are the bits of its value, most significant first. */
  lemma {:induction false} ParseBinaryBits(s: seq<char>)
    requires |s| >= 1 && IsBinaryDigits(s)
    ensures ParseBinary(s) < Pow2(|s|)
    ensures forall k :: 0 <= k < |s| ==> Bit(ParseBinary(s), k) == DigitValue(s[|s| - 1 - k])
  {
    if |s| > 1 {
      var init := s[..|s| - 1];
      ParseBinaryBits(init);
      forall k | 0 <= k < |s|
        ensures Bit(ParseBinary(s), k) == DigitValue(s[|s| - 1 - k])
      {
        ShiftBit(ParseBinary(init), DigitValue(s[|s| - 1]), k);
      }
    }
  }

  /** `bin(x)[2:].zfill(8)` (rando.py:44): eight digits, string position i holding bit 7 - i. */
  function Binary8(x: Byte): (s: seq<char>)
    ensures |s| == 8 && IsBinaryDigits(s)
    ensures forall i :: 0 <= i < 8 ==> s[i] == Digit(Bit(x, 7 - i))
  {
    Pow2Byte();
    forall i | 0 <= i < 8
      ensures ZFill(BinDigits(x), 8)[i] == Digit(Bit(x, 7 - i))
    {
      ZFilledAt(x, 8, i);
    }
    ZFilledAt(x, 8, 0);
    ZFill(BinDigits(x), 8)
  }

  /** The digit at string position i of a byte's eight-digit text has the value of bit 7 - i. */
  lemma Binary8Digit(x: Byte, i: nat)
    requires i < 8
    ensures DigitValue(Binary8(x)[i]) == Bit(x, 7 - i)
  {
    var v := Bit(x, 7 - i);
    assert Binary8(x)[i] == Digit(v);
    if v == 0 {
      assert Digit(v) == '0';
    } else {
      assert Digit(v) == '1';
    }
  }

  /** Parsing the eight-digit text of a byte gives the byte back. */
  lemma ParseBinary8(x: Byte)
    ensures ParseBinary(Binary8(x)) == x
  {
    var s := Binary8(x);
    Pow2Byte();
    ParseBinaryBits(s);
    BitsDetermine(ParseBinary(s), x, 8);
  }

  /** Printing the value of an eight-digit binary string gives the string back. */
  lemma Binary8Parse(s: seq<char>)
    requires |s| == 8 && IsBinaryDigits(s)
    ensures ParseBinary(s) < 256
    ensures Binary8(ParseBinary(s)) == s
  {
    Pow2Byte();
    ParseBinaryBits(s);
    var t := Binary8(ParseBinary(s));
    forall i | 0 <= i < 8
      ensures t[i] == s[i]
    {
      assert Bit(ParseBinary(s), 7 - i) == DigitValue(s[i]);
    }
  }
}

/**
 * The six fault operators of rando.py:34-63 and the dispatch on the fault
 * model that selects one of them (rando.py:135-146). Every operator is total
 * on bytes 0..255 and, for the bit-level ones, on string positions 0..7,
 * where position 0 is the most significant bit of the `zfill(8)` text.
 */
module FaultOps {
  import opened Wrappers
  import opened Bits
  import opened BinaryText

  /** A position in the eight-character binary text of a byte. */
  type BitPos = b: int | 0 <= b < 8

  /** The six fault models, in the order rando.py:135-146 tests their names. */
  datatype FaultModel = ByteFlip | ByteSet | ByteReset | BitFlip | BitSet | BitReset
  {
    /** Whether the model corrupts a single bit rather than a whole byte. */
    predicate IsBitLevel()
    {
      BitFlip? || BitSet? || BitReset?
    }
  }

  /** `fault_byte_set` (rando.py:34-35). */
  function FaultByteSet(x: Byte): (r: Byte)
    ensures forall k :: 0 <= k < 8 ==> Bit(r, k) == 1
  {
    Pow2Byte();
    forall k | 0 <= k < 8
      ensures Bit(0xFF, k) == 1
    {
      ComplementBit(0, 8, k);
      BitOfZero(k);
    }
    0xFF
  }

  /** `fault_byte_reset` (rando.py:37-38). */
  function FaultByteReset(x: Byte): (r: Byte)
    ensures forall k :: 0 <= k < 8 ==> Bit(r, k) == 0
  {
    forall k | 0 <= k < 8
      ensures Bit(0x00, k) == 0
    {
      BitOfZero(k);
    }
    0x00
  }

  /** `fault_byte_flip` (rando.py:40-41): `x ^ 0xFF`, the complement of every bit. */
  function FaultByteFlip(x: Byte): (r: Byte)
    ensures r == 0xFF - x
    ensures forall k :: 0 <= k < 8 ==> Bit(r, k) == 1 - Bit(x, k)
  {
    XorAllOnes(x);
    Xor(x, 0xFF)
  }

  /**
   * Write digit c at string position b of the byte's eight-digit text and
   * parse the text back (rando.py:44-49): bit 7 - b becomes c, the rest stay.
   */
  function OverwriteDigit(x: Byte, b: BitPos, c: char): (r: Byte)
    requires c == '0' || c == '1'
    ensures forall k :: 0 <= k < 8 ==> Bit(r, k) == if k == 7 - b then DigitValue(c) else Bit(x, k)
  {
    var t := Binary8(x);
    var s := t[b := c];
    Pow2Byte();
    ParseBinaryBits(s);
    forall k | 0 <= k < 8 && k != 7 - b
      ensures DigitValue(s[7 - k]) == Bit(x, k)
    {
      var v := Bit(x, k);
      assert s[7 - k] == t[7 - k] == Digit(v);
      if v == 0 {
        assert s[7 - k] == '0';
      } else {
        assert s[7 - k] == '1';
      }
    }
    ParseBinary(s)
  }

  /** `str(int(c) ^ 1)` for a binary digit c. */
  function FlipDigit(c: char): (r: char)
    ensures r == '0' || r == '1'
    ensures DigitValue(r) == 1 - DigitValue(c)
  {
    Digit((DigitValue(c) + 1) % 2)
  }

  /** `fault_bit_flip` (rando.py:43-49): toggle the digit at string position b. */
  function FaultBitFlip(x: Byte, b: BitPos): (r: Byte)
    ensures forall k :: 0 <= k < 8 ==> Bit(r, k) == if k == 7 - b then 1 - Bit(x, k) else Bit(x, k)
  {
    var c := Binary8(x)[b];
    Binary8Digit(x, b);
    OverwriteDigit(x, b, FlipDigit(c))
  }

  /*
   * DEFECT in rando.py:54 and rando.py:61: `fault_bit_set` and
   * `fault_bit_reset` store the int 1 or 0 into a list of one-character
   * strings, so the `"".join` on the next line raises TypeError for every
   * byte and position. FaultBitSetAsWritten and FaultBitResetAsWritten
   * below model that code; FaultBitSet and FaultBitReset model the evident
   * intent (the digit '1' or '0' at string position b), which the rest of
   * the model uses.
   */

  /** Evident intent of `fault_bit_set` (rando.py:51-56): force the digit at string position b to 1. */
  function FaultBitSet(x: Byte, b: BitPos): (r: Byte)
    ensures Bit(r, 7 - b) == 1
    ensures forall k :: 0 <= k < 8 && k != 7 - b ==> Bit(r, k) == Bit(x, k)
  {
    OverwriteDigit(x, b, '1')
  }

  /** Evident intent of `fault_bit_reset` (rando.py:58-63): force the digit at string position b to 0. */
  function FaultBitReset(x: Byte, b: BitPos): (r: Byte)
    ensures Bit(r, 7 - b) == 0
    ensures forall k :: 0 <= k < 8 && k != 7 - b ==> Bit(r, k) == Bit(x, k)
  {
    OverwriteDigit(x, b, '0')
  }

  /**
   * The operator the fault model selects, applied to one byte
   * (rando.py:135-146). At the chosen position every model does its action;
   * the bit-level models keep the other seven bits, and the byte-level models
   * do their action on all eight.
   */
  function Fault(m: FaultModel, x: Byte, b: BitPos): (r: Byte)
    ensures (m == ByteSet || m == BitSet) ==> Bit(r, 7 - b) == 1
    ensures (m == ByteReset || m == BitReset) ==> Bit(r, 7 - b) == 0
    ensures (m == ByteFlip || m == BitFlip) ==> Bit(r, 7 - b) == 1 - Bit(x, 7 - b)
    ensures m.IsBitLevel() ==> forall k :: 0 <= k < 8 && k != 7 - b ==> Bit(r, k) == Bit(x, k)
    ensures !m.IsBitLevel() ==> forall k :: 0 <= k < 8 ==>
      Bit(r, k) == if m == ByteSet then 1 else if m == ByteReset then 0 else 1 - Bit(x, k)
  {
    match m
    case ByteFlip => FaultByteFlip(x)
    case ByteSet => FaultByteSet(x)
    case ByteReset => FaultByteReset(x)
    case BitFlip => FaultBitFlip(x, b)
    case BitSet => FaultBitSet(x, b)
    case BitReset => FaultBitReset(x, b)
  }

  // ----- Properties of the operators -----

  /** Flipping a byte twice restores it. */
  lemma ByteFlipInvolution(x: Byte)
    ensures FaultByteFlip(FaultByteFlip(x)) == x
  {
  }

  /** `fault_bit_flip(x, b)` is `x ^ (1 << (7 - b))`: position 0 is the most significant bit. */
  lemma BitFlipIsXor(x: Byte, b: BitPos)
    ensures FaultBitFlip(x, b) == Xor(x, Pow2(7 - b))
  {
    Pow2Byte();
    var r := FaultBitFlip(x, b);
    forall k | 0 <= k < 8
      ensures Bit(r, k) == Bit(Xor(x, Pow2(7 - b)), k)
    {
      XorPow2Bit(x, 7 - b, k);
    }
    Pow2Below(7 - b, 8);
    XorBound(x, Pow2(7 - b), 8);
    BitsDetermine(r, Xor(x, Pow2(7 - b)), 8);
  }

  lemma {:induction false} Pow2Below(j: nat, n: nat)
    requires j < n
    ensures Pow2(j) < Pow2(n)
  {
    if j < n - 1 {
      Pow2Below(j, n - 1);
    }
  }

  /** Flipping the same bit twice restores the byte. */
  lemma BitFlipInvolution(x: Byte, b: BitPos)
    ensures FaultBitFlip(FaultBitFlip(x, b), b) == x
  {
    Pow2Byte();
    BitsDetermine(FaultBitFlip(FaultBitFlip(x, b), b), x, 8);
  }

  /** Both flip models undo themselves at a fixed position. */
  lemma FlipInvolution(m: FaultModel, x: Byte, b: BitPos)
    requires m == ByteFlip || m == BitFlip
    ensures Fault(m, Fault(m, x, b), b) == x
  {
    if m == ByteFlip {
      ByteFlipInvolution(x);
    } else {
      BitFlipInvolution(x, b);
    }
  }

  /** Setting a bit that is already set changes nothing. */
  lemma BitSetIdempotent(x: Byte, b: BitPos)
    ensures FaultBitSet(FaultBitSet(x, b), b) == FaultBitSet(x, b)
  {
    Pow2Byte();
    BitsDetermine(FaultBitSet(FaultBitSet(x, b), b), FaultBitSet(x, b), 8);
  }

  /** Set then reset, or reset then set, at one position: the second operator's value wins. */
  lemma SetResetLastWins(x: Byte, b: BitPos)
    ensures FaultBitReset(FaultBitSet(x, b), b) == FaultBitReset(x, b)
    ensures FaultBitSet(FaultBitReset(x, b), b) == FaultBitSet(x, b)
  {
    Pow2Byte();
    BitsDetermine(FaultBitReset(FaultBitSet(x, b), b), FaultBitReset(x, b), 8);
    BitsDetermine(FaultBitSet(FaultBitReset(x, b), b), FaultBitSet(x, b), 8);
  }

  /** A bit-level model applied at string positions 0 .. n - 1 in turn. */
  function AtEveryPosition(m: FaultModel, x: Byte, n: nat): Byte
    requires n <= 8
  {
    if n == 0 then x else Fault(m, AtEveryPosition(m, x, n - 1), n - 1)
  }

  /** After positions 0 .. n - 1, the bits 7 .. 8 - n carry the operator's effect and the rest are untouched. */
  lemma {:induction false} AtEveryPositionBits(m: FaultModel, x: Byte, n: nat, k: nat)
    requires m.IsBitLevel() && n <= 8 && k < 8
    ensures Bit(AtEveryPosition(m, x, n), k) ==
      if 7 - k >= n then Bit(x, k)
      else if m == BitSet then 1
      else if m == BitReset then 0
      else 1 - Bit(x, k)
  {
    if n > 0 {
      AtEveryPositionBits(m, x, n - 1, k);
    }
  }

  /** Byte-level operators are their bit-level counterparts applied at all eight positions. */
  lemma ByteOpsAreAllBits(x: Byte)
    ensures AtEveryPosition(BitSet, x, 8) == FaultByteSet(x)
    ensures AtEveryPosition(BitReset, x, 8) == FaultByteReset(x)
    ensures AtEveryPosition(BitFlip, x, 8) == FaultByteFlip(x)
  {
    Pow2Byte();
    forall k | 0 <= k < 8
      ensures Bit(AtEveryPosition(BitSet, x, 8), k) == 1
      ensures Bit(AtEveryPosition(BitReset, x, 8), k) == 0
      ensures Bit(AtEveryPosition(BitFlip, x, 8), k) == 1 - Bit(x, k)
    {
      AtEveryPositionBits(BitSet, x, 8, k);
      AtEveryPositionBits(BitReset, x, 8, k);
      AtEveryPositionBits(BitFlip, x, 8, k);
    }
    BitsDetermine(AtEveryPosition(BitSet, x, 8), FaultByteSet(x), 8);
    BitsDetermine(AtEveryPosition(BitReset, x, 8), FaultByteReset(x), 8);
    BitsDetermine(AtEveryPosition(BitFlip, x, 8), FaultByteFlip(x), 8);
  }

  // ----- fault_bit_set and fault_bit_reset as written -----

  /** The Python exceptions the operators can raise. */
  datatype PyError = TypeError | ValueError

  /** An element of a Python list that should hold one-character strings. */
  datatype Item = Str(c: char) | Int(n: int)

  /** `"".join(items)`: TypeError as soon as an element is not a string. */
  function Join(items: seq<Item>): (r: Result<seq<char>, PyError>)
    ensures r.Failure? <==> exists i :: 0 <= i < |items| && items[i].Int?
    ensures r.Failure? ==> r.error == TypeError
    ensures r.Success? ==> |r.value| == |items| && forall i :: 0 <= i < |items| ==> items[i] == Str(r.value[i])
  {
    if items == [] then Success([])
    else
      match items[0]
      case Int(_) => Failure(TypeError)
      case Str(c) =>
        match Join(items[1..])
        case Failure(e) => Failure(e)
        case Success(rest) => Success([c] + rest)
  }

  /**
   * `int(s, 2)` on the strings the bit operators build: a non-empty string of
   * binary digits parses; any other string raises ValueError here. Python's
   * own `int` accepts more (a sign, spaces, a "0b" prefix, underscores), but
   * the join only ever yields eight binary digits.
   */
  function IntBase2(s: seq<char>): Result<nat, PyError>
  {
    if |s| >= 1 && IsBinaryDigits(s) then Success(ParseBinary(s)) else Failure(ValueError)
  }

  /**
   * The steps the bit-level operators share (rando.py:44-49, 52-56, 59-63): the list of
   * `bin(x)[2:].zfill(8)`, `item` stored at position b, then `"".join` and
   * `int(…, 2)`.
   */
  function StoreAndParse(x: Byte, b: BitPos, item: Item): Result<nat, PyError>
  {
    var s := Binary8(x);
    var items := seq(8, i requires 0 <= i < 8 => Str(s[i]));
    match Join(items[b := item])
    case Failure(e) => Failure(e)
    case Success(t) => IntBase2(t)
  }

  /** The join meets the stored int and raises TypeError, whatever the byte, the position and the int. */
  lemma StoreIntRaises(x: Byte, b: BitPos, v: int)
    ensures StoreAndParse(x, b, Int(v)) == Failure(TypeError)
  {
    var s := Binary8(x);
    var items: seq<Item> := seq(8, i requires 0 <= i < 8 => Str(s[i]));
    var stored: seq<Item> := items[b := Int(v)];
    assert stored[b].Int?;
  }

  /** `fault_bit_set` exactly as rando.py:51-56 writes it (stores the int 1). */
  function FaultBitSetAsWritten(x: Byte, b: BitPos): (r: Result<nat, PyError>)
    ensures r == Failure(TypeError)
  {
    StoreIntRaises(x, b, 1);
    StoreAndParse(x, b, Int(1))
  }

  /** `fault_bit_reset` exactly as rando.py:58-63 writes it (stores the int 0). */
  function FaultBitResetAsWritten(x: Byte, b: BitPos): (r: Result<nat, PyError>)
    ensures r == Failure(TypeError)
  {
    StoreIntRaises(x, b, 0);
    StoreAndParse(x, b, Int(0))
  }

  /**
   * Storing the digit as a string is the repair: the join then succeeds and
   * the parse gives OverwriteDigit, which FaultBitSet and FaultBitReset are.
   */
  lemma StoreDigitRepairs(x: Byte, b: BitPos, c: char)
    requires c == '0' || c == '1'
    ensures StoreAndParse(x, b, Str(c)) == Success(OverwriteDigit(x, b, c))
  {
    var s := Binary8(x);
    var items: seq<Item> := seq(8, i requires 0 <= i < 8 => Str(s[i]));
    var stored: seq<Item> := items[b := Str(c)];
    var t := s[b := c];
    forall i | 0 <= i < 8
      ensures stored[i] == Str(t[i])
    {
    }
    var joined := Join(stored);
    assert joined.Success?;
    assert joined.value == t;
  }

  /** Concrete case: bit-set at position 0 of 0x00 gives 0x80, where the code as written raises. */
  lemma BitSetScenario()
    ensures FaultBitSet(0x00, 0) == 0x80
    ensures FaultBitSetAsWritten(0x00, 0) == Failure(TypeError)
  {
    var r := FaultBitSet(0x00, 0);
    Pow2Byte();
    forall k | 0 <= k < 8
      ensures Bit(r, k) == Bit(0x80, k)
    {
      BitOfZero(k);
      BitOfPow2(7, k);
    }
    BitsDetermine(r, 0x80, 8);
  }
}

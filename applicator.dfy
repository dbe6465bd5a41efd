/**
 * The apply loop of rando.py:126-151: copy the image, then for each site in
 * list order read the CURRENT byte at its offset, run the fault operator the
 * model name selects, and write the result back. Repeated offsets therefore
 * compose.
 */
module Applicator {
  import opened Wrappers
  import opened SiteLists
  import opened Bits
  import opened FaultOps
  import opened FaultNames

  /** A fault operator: the new value of a byte, given its current value and a bit position. */
  type Operator = (Byte, BitPos) -> Byte

  /** The operator a fault model selects in the dispatch of rando.py:135-146. */
  function OperatorOf(m: FaultModel): Operator
  {
    (x: Byte, b: BitPos) => Fault(m, x, b)
  }

  /** One iteration of the apply loop: the byte at `offset` replaced by its fault. */
  function ApplySite(buf: seq<Byte>, offset: nat, bit: nat, op: Operator): (r: seq<Byte>)
    requires offset < |buf| && bit < 8
    ensures |r| == |buf| && r[offset] == op(buf[offset], bit)
    ensures forall i :: 0 <= i < |buf| && i != offset ==> r[i] == buf[i]
  {
    buf[offset := op(buf[offset], bit)]
  }

  /** The buffer after every site has been applied, in list order. */
  function ApplyAll(buf: seq<Byte>, offsets: seq<nat>, bits: seq<nat>, op: Operator): (r: seq<Byte>)
    requires SitesFit(|buf|, offsets, bits)
    ensures |r| == |buf|
    decreases |offsets|
  {
    if offsets == [] then buf
    else
      var n := |offsets| - 1;
      ApplySite(ApplyAll(buf, offsets[..n], bits[..n], op), offsets[n], bits[n], op)
  }

  /** Bytes at offsets that no site names keep their original value. */
  lemma ApplyAllFrame(buf: seq<Byte>, offsets: seq<nat>, bits: seq<nat>, op: Operator)
    requires SitesFit(|buf|, offsets, bits)
    ensures forall i :: 0 <= i < |buf| && i !in offsets ==> ApplyAll(buf, offsets, bits, op)[i] == buf[i]
  {
    forall i | 0 <= i < |buf| && i !in offsets
      ensures ApplyAll(buf, offsets, bits, op)[i] == buf[i]
    {
      ApplyAllAt(buf, offsets, bits, op, i);
      assert i !in multiset(offsets);
    }
  }

  /** The bit positions of the sites that name offset i, in list order. */
  function BitsAt(offsets: seq<nat>, bits: seq<nat>, i: nat): (r: seq<nat>)
    requires |offsets| == |bits|
    ensures |r| == multiset(offsets)[i]
    ensures (forall j :: 0 <= j < |bits| ==> bits[j] < 8) ==> forall k :: 0 <= k < |r| ==> r[k] < 8
  {
    if offsets == [] then []
    else
      var n := |offsets| - 1;
      assert offsets == offsets[..n] + [offsets[n]];
      BitsAt(offsets[..n], bits[..n], i) + (if offsets[n] == i then [bits[n]] else [])
  }

  /** A byte pushed through the model's operator once per bit position, in order. */
  function FoldFaults(v: Byte, bs: seq<nat>, op: Operator): Byte
    requires forall k :: 0 <= k < |bs| ==> bs[k] < 8
  {
    if bs == [] then v
    else op(FoldFaults(v, bs[..|bs| - 1], op), bs[|bs| - 1])
  }

  /**
   * Byte i of the mutant is the original byte i with the operator applied once
   * for each site naming offset i, in list order: later sites act on the
   * result of earlier ones, never on the original.
   */
  lemma {:induction false} ApplyAllAt(buf: seq<Byte>, offsets: seq<nat>, bits: seq<nat>, op: Operator, i: nat)
    requires SitesFit(|buf|, offsets, bits) && i < |buf|
    ensures ApplyAll(buf, offsets, bits, op)[i] == FoldFaults(buf[i], BitsAt(offsets, bits, i), op)
    decreases |offsets|
  {
    if offsets != [] {
      var n := |offsets| - 1;
      ApplyAllAt(buf, offsets[..n], bits[..n], op, i);
      var bs := BitsAt(offsets[..n], bits[..n], i);
      if offsets[n] == i {
        assert (bs + [bits[n]])[..|bs|] == bs;
      } else {
        assert bs + [] == bs;
      }
    }
  }

  /** Applying two site lists one after the other is applying their concatenation. */
  lemma {:induction false} ApplyAllAppend(buf: seq<Byte>, o1: seq<nat>, b1: seq<nat>, o2: seq<nat>, b2: seq<nat>, op: Operator)
    requires SitesFit(|buf|, o1, b1) && SitesFit(|buf|, o2, b2)
    ensures SitesFit(|buf|, o1 + o2, b1 + b2)
    ensures ApplyAll(buf, o1 + o2, b1 + b2, op) == ApplyAll(ApplyAll(buf, o1, b1, op), o2, b2, op)
    decreases |o2|
  {
    SitesFitAppend(|buf|, o1, b1, o2, b2);
    if o2 == [] {
      assert o1 + o2 == o1 && b1 + b2 == b1;
    } else {
      var n := |o2| - 1;
      var o, b := o1 + o2, b1 + b2;
      SitesFitPrefix(|buf|, o2, b2, n);
      ApplyAllAppend(buf, o1, b1, o2[..n], b2[..n], op);
      var k := |o| - 1;
      assert o[..k] == o1 + o2[..n] && o[k] == o2[n];
      assert b[..k] == b1 + b2[..n] && b[k] == b2[n];
      var mid := ApplyAll(buf, o1, b1, op);
      var before := ApplyAll(buf, o[..k], b[..k], op);
      assert before == ApplyAll(mid, o2[..n], b2[..n], op);
      ApplyAllLast(buf, o, b, op);
      ApplyAllLast(mid, o2, b2, op);
    }
  }

  /** The last site is applied to the buffer the earlier sites left. */
  lemma ApplyAllLast(buf: seq<Byte>, offsets: seq<nat>, bits: seq<nat>, op: Operator)
    requires SitesFit(|buf|, offsets, bits) && |offsets| >= 1
    ensures var n := |offsets| - 1;
      SitesFit(|buf|, offsets[..n], bits[..n]) &&
      ApplyAll(buf, offsets, bits, op) == ApplySite(ApplyAll(buf, offsets[..n], bits[..n], op), offsets[n], bits[n], op)
  {
  }

  /** Only offset i is listed at site j, so nothing else touches byte i. */
  lemma {:induction false} BitsAtUnique(offsets: seq<nat>, bits: seq<nat>, j: nat)
    requires |offsets| == |bits| && j < |offsets|
    requires forall k :: 0 <= k < |offsets| && k != j ==> offsets[k] != offsets[j]
    ensures BitsAt(offsets, bits, offsets[j]) == [bits[j]]
    decreases |offsets|
  {
    var n := |offsets| - 1;
    var i := offsets[j];
    if j < n {
      BitsAtUnique(offsets[..n], bits[..n], j);
    } else {
      assert i !in offsets[..n];
      assert multiset(offsets[..n])[i] == 0;
    }
  }

  /** With distinct offsets, each listed byte is the operator applied to the ORIGINAL byte, every other byte is unchanged. */
  lemma DistinctSites(buf: seq<Byte>, offsets: seq<nat>, bits: seq<nat>, op: Operator)
    requires SitesFit(|buf|, offsets, bits)
    requires forall j, k :: 0 <= j < k < |offsets| ==> offsets[j] != offsets[k]
    ensures forall j :: 0 <= j < |offsets| ==>
      ApplyAll(buf, offsets, bits, op)[offsets[j]] == op(buf[offsets[j]], bits[j])
    ensures forall i :: 0 <= i < |buf| && i !in offsets ==> ApplyAll(buf, offsets, bits, op)[i] == buf[i]
  {
    forall j | 0 <= j < |offsets|
      ensures ApplyAll(buf, offsets, bits, op)[offsets[j]] == op(buf[offsets[j]], bits[j])
    {
      BitsAtUnique(offsets, bits, j);
      ApplyAllAt(buf, offsets, bits, op, offsets[j]);
      assert [bits[j]][..0] == [];
    }
  }

  /** byte-set at a list of offsets that covers the whole image gives an image of 0xFF bytes. */
  lemma ByteSetCoversAll(buf: seq<Byte>, offsets: seq<nat>, bits: seq<nat>)
    requires SitesFit(|buf|, offsets, bits)
    requires forall i :: 0 <= i < |buf| ==> i in offsets
    ensures forall i :: 0 <= i < |buf| ==> ApplyAll(buf, offsets, bits, OperatorOf(ByteSet))[i] == 0xFF
  {
    forall i | 0 <= i < |buf|
      ensures ApplyAll(buf, offsets, bits, OperatorOf(ByteSet))[i] == 0xFF
    {
      ApplyAllAt(buf, offsets, bits, OperatorOf(ByteSet), i);
      assert i in offsets;
      assert i in multiset(offsets);
    }
  }

  /** An operator that undoes itself at a byte, listed twice at that byte's site, leaves the buffer unchanged. */
  lemma SelfInverseTwice(buf: seq<Byte>, i: nat, b: nat, op: Operator)
    requires i < |buf| && b < 8
    requires op(op(buf[i], b), b) == buf[i]
    ensures ApplyAll(buf, [i, i], [b, b], op) == buf
  {
    assert [i, i][..1] == [i] && [b, b][..1] == [b];
    assert [i][..0] == [] && [b][..0] == [];
    ApplyAllLast(buf, [i], [b], op);
    ApplyAllLast(buf, [i, i], [b, b], op);
    var once := ApplySite(buf, i, b, op);
    assert ApplySite(once, i, b, op) == buf;
  }

  /** A flip applied twice at the same site restores the image. */
  lemma FlipTwiceRestores(buf: seq<Byte>, i: nat, b: nat, m: FaultModel)
    requires i < |buf| && b < 8
    requires m == ByteFlip || m == BitFlip
    ensures ApplyAll(buf, [i, i], [b, b], OperatorOf(m)) == buf
  {
    FlipInvolution(m, buf[i], b);
    SelfInverseTwice(buf, i, b, OperatorOf(m));
  }

  /**
   * The mutant for a named fault model (rando.py:126-151). An unknown name
   * raises at the first site, before any write; with no sites the loop body
   * never runs and the copy comes back unchanged.
   */
  function Mutate(orig: seq<Byte>, offsets: seq<nat>, bits: seq<nat>, name: string): (r: Result<seq<Byte>, RandoError>)
    requires SitesFit(|orig|, offsets, bits)
    ensures r.Failure? <==> ParseFaultModel(name).None? && |offsets| > 0
    ensures r.Failure? ==> r.error == FaultModelError
    ensures r.Success? ==> |r.value| == |orig|
    ensures r.Success? ==> forall i :: 0 <= i < |orig| && i !in offsets ==> r.value[i] == orig[i]
  {
    match ParseFaultModel(name)
    case Some(m) =>
      ApplyAllFrame(orig, offsets, bits, OperatorOf(m));
      Success(ApplyAll(orig, offsets, bits, OperatorOf(m)))
    case None => if offsets == [] then Success(orig) else Failure(FaultModelError)
  }

  /** `bytearray.copy()`: a fresh array with the image's bytes. */
  method CopyImage(image: array<Byte>) returns (copy: array<Byte>)
    ensures fresh(copy) && copy[..] == image[..]
  {
    copy := new Byte[image.Length];
    forall i | 0 <= i < image.Length {
      copy[i] := image[i];
    }
  }

  /** One pass of the apply loop body: rewrite the byte at `index` with its fault. */
  method ApplySiteInPlace(buf: array<Byte>, index: nat, bit: nat, m: FaultModel)
    requires index < buf.Length && bit < 8
    modifies buf
    ensures buf[..] == ApplySite(old(buf[..]), index, bit, OperatorOf(m))
  {
    var originalByte := buf[index];
    buf[index] := Fault(m, originalByte, bit);
  }

  /** The loop of rando.py:128-151 under a known model: every site, in list order, rewritten in place. */
  method ApplySitesInPlace(buf: array<Byte>, offsets: seq<nat>, bits: seq<nat>, m: FaultModel)
    requires SitesFit(buf.Length, offsets, bits)
    modifies buf
    ensures buf[..] == ApplyAll(old(buf[..]), offsets, bits, OperatorOf(m))
  {
    ghost var orig := buf[..];
    var x := 0;
    while x < |offsets|
      invariant 0 <= x <= |offsets|
      invariant buf[..] == ApplyAll(orig, offsets[..x], bits[..x], OperatorOf(m))
    {
      ApplySiteInPlace(buf, offsets[x], bits[x], m);
      ApplyAllLast(orig, offsets[..x + 1], bits[..x + 1], OperatorOf(m));
      assert offsets[..x + 1][..x] == offsets[..x];
      assert bits[..x + 1][..x] == bits[..x];
      x := x + 1;
    }
    assert offsets[..x] == offsets && bits[..x] == bits;
  }

  /**
   * The apply loop itself: `bytearray.copy()` of the image, then the sites
   * rewritten in place. The image array is not modified. The name is matched
   * against the six models on every pass; matching it once before the loop
   * gives the same answer each time, and an unknown name raises on the first
   * pass, before any byte is written.
   */
  method MutateCopy(image: array<Byte>, offsets: seq<nat>, bits: seq<nat>, name: string)
    returns (r: Result<seq<Byte>, RandoError>)
    requires SitesFit(image.Length, offsets, bits)
    ensures r == Mutate(image[..], offsets, bits, name)
  {
    var copy := CopyImage(image);
    var model := ParseFaultModel(name);
    if model.None? {
      if |offsets| == 0 {
        return Success(copy[..]);
      }
      return Failure(FaultModelError);
    }
    ApplySitesInPlace(copy, offsets, bits, model.value);
    r := Success(copy[..]);
  }

  /** Concrete case: byte-flip at offset 2 of [0x00, 0x0F, 0xF0, 0xFF]. */
  lemma ByteFlipScenario()
    ensures Mutate([0x00, 0x0F, 0xF0, 0xFF], [2], [0], "byte-flip") == Success([0x00, 0x0F, 0x0F, 0xFF])
  {
    var image: seq<Byte> := [0x00, 0x0F, 0xF0, 0xFF];
    assert ParseFaultModel("byte-flip") == Some(ByteFlip);
    assert [2][..0] == [] && [0][..0] == [];
    var op := OperatorOf(ByteFlip);
    assert ApplyAll(image, [2], [0], op) == ApplySite(ApplyAll(image, [], [], op), 2, 0, op);
    assert FaultByteFlip(0xF0) == 0x0F;
    var mutant: seq<Byte> := [0x00, 0x0F, 0x0F, 0xFF];
    assert image[2 := 0x0F] == mutant;
    assert Mutate(image, [2], [0], "byte-flip") == Success(ApplyAll(image, [2], [0], op));
  }
}

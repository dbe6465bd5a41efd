/**
 * The fault-model names the program accepts on its command line and the two
 * string tests it applies to them: equality with one of the six names
 * (rando.py:135-146) and the substring test `"bit" in fault_model`
 * (rando.py:119).
 */
module FaultNames {
  import opened Wrappers
  import opened FaultOps

  /** The command-line name of each fault model. */
  function Name(m: FaultModel): string
  {
    match m
    case ByteFlip => "byte-flip"
    case ByteSet => "byte-set"
    case ByteReset => "byte-reset"
    case BitFlip => "bit-flip"
    case BitSet => "bit-set"
    case BitReset => "bit-reset"
  }

  /** The model a name selects in the chain of comparisons at rando.py:135-146, if any. */
  function ParseFaultModel(name: string): (r: Option<FaultModel>)
    ensures r.Some? ==> Name(r.value) == name
  {
    if name == "byte-flip" then Some(ByteFlip)
    else if name == "byte-set" then Some(ByteSet)
    else if name == "byte-reset" then Some(ByteReset)
    else if name == "bit-flip" then Some(BitFlip)
    else if name == "bit-set" then Some(BitSet)
    else if name == "bit-reset" then Some(BitReset)
    else None
  }

  /** The len characters of hay that start at position i. */
  function Window(hay: string, i: nat, len: nat): (w: string)
    requires i + len <= |hay|
    ensures |w| == len && forall k :: 0 <= k < len ==> w[k] == hay[i + k]
  {
    hay[i..i + len]
  }

  /** Python's `needle in hay` for strings: some window of hay spells needle. */
  predicate Contains(needle: string, hay: string): (r: bool)
    ensures r ==> |needle| <= |hay|
    ensures |needle| <= |hay| && hay[..|needle|] == needle ==> r
  {
    assert |needle| <= |hay| ==> Window(hay, 0, |needle|) == hay[..|needle|];
    exists i: nat :: i <= |hay| - |needle| && Window(hay, i, |needle|) == needle
  }

  /** Whether the sampler draws bit positions for this name (rando.py:119). */
  predicate DrawsBits(name: string): (r: bool)
    ensures r ==> |name| >= 3
    ensures |name| >= 3 && name[..3] == "bit" ==> r
  {
    Contains("bit", name)
  }

  /** Every model's name parses back to that model. */
  lemma NameRoundTrip(m: FaultModel)
    ensures ParseFaultModel(Name(m)) == Some(m)
  {
  }

  /** For the six valid names, the substring test agrees with the model's granularity. */
  lemma DrawsBitsMatchesGranularity(name: string, m: FaultModel)
    requires ParseFaultModel(name) == Some(m)
    ensures DrawsBits(name) <==> m.IsBitLevel()
  {
    match m
    case ByteFlip =>
      NoBitIn("byte-flip");
    case ByteSet =>
      NoBitIn("byte-set");
    case ByteReset =>
      NoBitIn("byte-reset");
    case BitFlip =>
      assert Window("bit-flip", 0, 3) == "bit";
    case BitSet =>
      assert Window("bit-set", 0, 3) == "bit";
    case BitReset =>
      assert Window("bit-reset", 0, 3) == "bit";
  }

  /** "bit" is not part of a name whose only 'b' is its first letter, followed by 'y'. */
  lemma NoBitIn(name: string)
    requires |name| >= 2 && name[0] == 'b' && name[1] == 'y'
    requires forall i :: 1 <= i < |name| ==> name[i] != 'b'
    ensures !Contains("bit", name)
  {
    if Contains("bit", name) {
      var i: nat :| i <= |name| - 3 && Window(name, i, 3) == "bit";
      WindowSpells(name, i, "bit");
      assert false;
    }
  }

  /** A window that spells needle holds needle's characters. */
  lemma WindowSpells(hay: string, i: nat, needle: string)
    requires i + |needle| <= |hay| && Window(hay, i, |needle|) == needle
    ensures forall k :: 0 <= k < |needle| ==> hay[i + k] == needle[k]
    ensures |needle| >= 2 ==> hay[i] == needle[0] && hay[i + 1] == needle[1]
  {
    forall k | 0 <= k < |needle|
      ensures hay[i + k] == needle[k]
    {
      assert Window(hay, i, |needle|)[k] == needle[k];
    }
  }
}

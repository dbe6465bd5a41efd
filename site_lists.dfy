/**
 * The error values `main` raises and the shape of a sample's site lists.
 * Both the sampler (rando.py:109-123) and the apply loop (rando.py:126-151)
 * use them.
 */
module SiteLists {
  /** The ValueErrors `main` raises (rando.py:101, 105, 115 and 149). */
  datatype RandoError =
    | MutationCountError  // mutation_count < 1 (rando.py:99-101)
    | SampleSizeError     // sample_size < 1 (rando.py:103-105)
    | EmptyRangeError     // randrange(0, 0) on an empty image (rando.py:115)
    | FaultModelError     // unknown fault-model name (rando.py:147-149)

  /** Parallel site lists whose offsets lie inside a buffer of `size` bytes and whose bit positions are 0..7. */
  predicate SitesFit(size: nat, offsets: seq<nat>, bits: seq<nat>)
  {
    |offsets| == |bits| &&
    (forall j :: 0 <= j < |offsets| ==> offsets[j] < size) &&
    (forall j :: 0 <= j < |bits| ==> bits[j] < 8)
  }

  lemma SitesFitPrefix(size: nat, offsets: seq<nat>, bits: seq<nat>, n: nat)
    requires SitesFit(size, offsets, bits) && n <= |offsets|
    ensures SitesFit(size, offsets[..n], bits[..n])
  {
  }

  lemma SitesFitAppend(size: nat, o1: seq<nat>, b1: seq<nat>, o2: seq<nat>, b2: seq<nat>)
    requires SitesFit(size, o1, b1) && SitesFit(size, o2, b2)
    ensures SitesFit(size, o1 + o2, b1 + b2)
  {
    var o, b := o1 + o2, b1 + b2;
    forall j | 0 <= j < |o|
      ensures o[j] < size && b[j] < 8
    {
      if j < |o1| {
        assert o[j] == o1[j] && b[j] == b1[j];
      } else {
        assert o[j] == o2[j - |o1|] && b[j] == b2[j - |o1|];
      }
    }
  }
}

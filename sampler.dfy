/**
 * The per-sample site sampler of rando.py:109-123. Randomness is injected:
 * `draws` is the stream of raw values the random source produces and
 * `at` the cursor into it, so the draws consumed by one sample and the
 * cursor handed on to the next are explicit.
 */
module Sampler {
  import opened FaultNames
  import opened SiteLists

  /** Index of the first draw of site c: one draw per site, two when bit positions are drawn. */
  function DrawIndex(at: nat, c: nat, drawBits: bool): nat
  {
    if drawBits then at + 2 * c else at + c
  }

  /**
   * `random.randrange(0, n)` on the supplied stream: the draw at the cursor,
   * reduced into [0, n). Python raises ValueError for n == 0, so n >= 1 here.
   */
  function RandRange(draws: seq<nat>, at: nat, n: nat): (r: nat)
    requires at < |draws| && n >= 1
    ensures r < n
  {
    draws[at] % n
  }

  /** The lists `indexes_to_mutate` and `bit_positions_to_mutate`, and the cursor after them. */
  datatype Sites = Sites(offsets: seq<nat>, bits: seq<nat>, next: nat)

  /**
   * The first `count` sites drawn from cursor `at` for an image of `size`
   * bytes: an offset in [0, size), then a bit position in [0, 8) when
   * `drawBits`, else the placeholder 0.
   */
  function DrawSites(size: nat, count: nat, drawBits: bool, draws: seq<nat>, at: nat): (s: Sites)
    requires size >= 1 && DrawIndex(at, count, drawBits) <= |draws|
    ensures |s.offsets| == count && SitesFit(size, s.offsets, s.bits)
    ensures s.next == DrawIndex(at, count, drawBits)
    ensures !drawBits ==> forall c :: 0 <= c < count ==> s.bits[c] == 0
  {
    if count == 0 then Sites([], [], at)
    else
      var prev := DrawSites(size, count - 1, drawBits, draws, at);
      var offset := RandRange(draws, prev.next, size);
      if drawBits then
        Sites(prev.offsets + [offset], prev.bits + [RandRange(draws, prev.next + 1, 8)], prev.next + 2)
      else
        Sites(prev.offsets + [offset], prev.bits + [0], prev.next + 1)
  }

  /** Site c takes its offset from draw DrawIndex(at, c) and, for bit models, its bit position from the draw after it. */
  lemma {:induction false} DrawSitesAt(size: nat, count: nat, drawBits: bool, draws: seq<nat>, at: nat, c: nat)
    requires size >= 1 && DrawIndex(at, count, drawBits) <= |draws| && c < count
    ensures DrawSites(size, count, drawBits, draws, at).offsets[c] == draws[DrawIndex(at, c, drawBits)] % size
    ensures drawBits ==> DrawSites(size, count, drawBits, draws, at).bits[c] == draws[DrawIndex(at, c, drawBits) + 1] % 8
  {
    if c < count - 1 {
      DrawSitesAt(size, count - 1, drawBits, draws, at, c);
    }
  }

  /**
   * The sampling loop (rando.py:110-123): append `mutation_count` offsets and
   * bit positions, testing `"bit" in fault_model` at every site.
   */
  method SampleSites(size: nat, count: nat, name: string, draws: seq<nat>, at: nat)
    returns (offsets: seq<nat>, bits: seq<nat>, next: nat)
    requires size >= 1 && DrawIndex(at, count, DrawsBits(name)) <= |draws|
    ensures Sites(offsets, bits, next) == DrawSites(size, count, DrawsBits(name), draws, at)
  {
    offsets, bits, next := [], [], at;
    var c := 0;
    while c < count
      invariant 0 <= c <= count
      invariant Sites(offsets, bits, next) == DrawSites(size, c, DrawsBits(name), draws, at)
    {
      var index := RandRange(draws, next, size);
      next := next + 1;
      offsets := offsets + [index];
      if DrawsBits(name) {
        var bitPosition := RandRange(draws, next, 8);
        next := next + 1;
        bits := bits + [bitPosition];
      } else {
        bits := bits + [0];
      }
      c := c + 1;
    }
  }
}

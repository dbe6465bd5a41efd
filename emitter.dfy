/**
 * The sample loop of `main` (rando.py:99-164): the parameter checks, then
 * for each sample index i the sampler, the applicator and the two files the
 * sample leaves behind, the mutant `<base><i><ext>` and the descriptor
 * `<base><i>.json`. A raised error ends the whole run; files written by
 * earlier samples stay.
 */
module Emitter {
  import opened Wrappers
  import opened SiteLists
  import opened Bits
  import opened FaultNames
  import opened Applicator
  import opened Sampler

  /** The metadata dict of rando.py:160-164. */
  datatype Descriptor = Descriptor(faultModel: string, byteIndexes: seq<nat>, bitPositions: seq<nat>)

  /** The two files sample `index` writes: the mutant bytes and its descriptor. */
  datatype Artifact = Artifact(index: nat, mutant: seq<Byte>, descriptor: Descriptor)

  /** What a whole run leaves behind: the files of every completed sample, and the error that stopped it. */
  datatype Outcome = Outcome(artifacts: seq<Artifact>, error: Option<RandoError>)

  /** Draws one sample consumes. */
  function PerSample(name: string, count: nat): nat
  {
    DrawIndex(0, count, DrawsBits(name))
  }

  /** The draw cursor at the start of sample j: every earlier sample consumed PerSample draws. */
  function SampleStart(name: string, count: nat, j: nat): nat
  {
    if j == 0 then 0 else SampleStart(name, count, j - 1) + PerSample(name, count)
  }

  lemma {:induction false} SampleStartMono(name: string, count: nat, i: nat, j: nat)
    requires i <= j
    ensures SampleStart(name, count, i) <= SampleStart(name, count, j)
  {
    if i < j {
      SampleStartMono(name, count, i, j - 1);
    }
  }

  /** Draws a whole run may consume. */
  function RunDraws(name: string, mutationCount: int, sampleSize: int): nat
  {
    if mutationCount < 1 || sampleSize < 1 then 0 else SampleStart(name, mutationCount, sampleSize)
  }

  /** The outcome of one sample: its artifact or the error it raised, and the draw cursor after it. */
  datatype Step = Step(result: Result<Artifact, RandoError>, next: nat)

  /**
   * Sample i, drawing from cursor `at` (rando.py:110-164): the sites, the
   * mutant of a fresh copy of the image, and the descriptor of exactly those
   * sites. An empty image fails in randrange before anything is drawn.
   * The loop is reached only once mutation_count >= 1 (rando.py:99-101).
   */
  function SampleAt(image: seq<Byte>, name: string, count: nat, draws: seq<nat>, at: nat, i: nat): (r: Step)
    requires count >= 1 && DrawIndex(at, count, DrawsBits(name)) <= |draws|
    ensures r.result.Failure? ==> r.result.error == EmptyRangeError || r.result.error == FaultModelError
    ensures r.result.Success? ==> |image| >= 1 && r.next == DrawIndex(at, count, DrawsBits(name))
    ensures r.result.Success? ==> r.result.value.index == i && Reproducible(image, name, count, r.result.value)
    ensures r.result.Success? ==>
      var s := DrawSites(|image|, count, DrawsBits(name), draws, at);
      r.result.value.descriptor == Descriptor(name, s.offsets, s.bits)
  {
    if |image| == 0 then Step(Failure(EmptyRangeError), at)
    else
      var s := DrawSites(|image|, count, DrawsBits(name), draws, at);
      match Mutate(image, s.offsets, s.bits, name)
      case Failure(e) => Step(Failure(e), s.next)
      case Success(mutant) => Step(Success(Artifact(i, mutant, Descriptor(name, s.offsets, s.bits))), s.next)
  }

  /**
   * The result of every sample of a run of n samples. Sample j draws from
   * SampleStart(j): when it is reached, each earlier sample has completed and
   * consumed exactly PerSample draws.
   */
  function Samples(image: seq<Byte>, name: string, count: nat, draws: seq<nat>, n: nat): (rs: seq<Result<Artifact, RandoError>>)
    requires count >= 1 && SampleStart(name, count, n) <= |draws|
    ensures |rs| == n
  {
    seq(n, j requires 0 <= j < n =>
      SampleStartMono(name, count, j + 1, n);
      SampleAt(image, name, count, draws, SampleStart(name, count, j), j).result)
  }

  /** Sample j of n is the one SampleAt draws from the cursor SampleStart(j). */
  lemma SampleOf(image: seq<Byte>, name: string, count: nat, draws: seq<nat>, n: nat, j: nat)
    requires count >= 1 && SampleStart(name, count, n) <= |draws| && j < n
    ensures DrawIndex(SampleStart(name, count, j), count, DrawsBits(name)) == SampleStart(name, count, j + 1) <= |draws|
    ensures Samples(image, name, count, draws, n)[j] == SampleAt(image, name, count, draws, SampleStart(name, count, j), j).result
  {
    SampleStartMono(name, count, j + 1, n);
  }

  /**
   * The files left by samples run in order until the first one that raises:
   * the artifacts of the leading successful samples, and the error of the
   * first failing sample, if any.
   */
  function Collect(rs: seq<Result<Artifact, RandoError>>): (r: Outcome)
    ensures |r.artifacts| <= |rs|
    ensures forall j :: 0 <= j < |r.artifacts| ==> rs[j] == Success(r.artifacts[j])
    ensures r.error.None? <==> |r.artifacts| == |rs|
    ensures r.error.Some? ==> rs[|r.artifacts|] == Failure(r.error.value)
  {
    if |rs| == 0 then Outcome([], None)
    else
      match rs[0]
      case Failure(e) => Outcome([], Some(e))
      case Success(a) =>
        var rest := Collect(rs[1..]);
        Outcome([a] + rest.artifacts, rest.error)
  }

  /**
   * The outcome is fixed by where the first failure sits: when the leading
   * samples succeed with vals and the next one (if any) fails, the run
   * leaves exactly vals and that error.
   */
  lemma CollectStopsAt(rs: seq<Result<Artifact, RandoError>>, vals: seq<Artifact>)
    requires |vals| <= |rs| && forall j :: 0 <= j < |vals| ==> rs[j] == Success(vals[j])
    requires |vals| < |rs| ==> rs[|vals|].Failure?
    ensures Collect(rs) == Outcome(vals, if |vals| < |rs| then Some(rs[|vals|].error) else None)
  {
    var r := Collect(rs);
    if |r.artifacts| != |vals| {
      assert false;
    }
    assert r.artifacts == vals;
  }

  /** One more successful sample extends the leading successes by its artifact. */
  lemma CollectExtend(rs: seq<Result<Artifact, RandoError>>, vals: seq<Artifact>, a: Artifact)
    requires |vals| < |rs| && forall j :: 0 <= j < |vals| ==> rs[j] == Success(vals[j])
    requires rs[|vals|] == Success(a)
    ensures forall j :: 0 <= j < |vals| + 1 ==> rs[j] == Success((vals + [a])[j])
  {
  }

  /**
   * A run of `main` after the parameters are parsed and the image is loaded.
   * `mutation_count` is checked before `sample_size`, and both before any draw.
   */
  function Run(image: seq<Byte>, name: string, mutationCount: int, sampleSize: int, draws: seq<nat>): (r: Outcome)
    requires RunDraws(name, mutationCount, sampleSize) <= |draws|
    ensures mutationCount < 1 ==> r == Outcome([], Some(MutationCountError))
    ensures mutationCount >= 1 && sampleSize < 1 ==> r == Outcome([], Some(SampleSizeError))
    ensures r.error.None? ==> |r.artifacts| == sampleSize
    ensures r.error.Some? ==> r.error.value != FaultModelError || ParseFaultModel(name).None?
  {
    if mutationCount < 1 then Outcome([], Some(MutationCountError))
    else if sampleSize < 1 then Outcome([], Some(SampleSizeError))
    else Collect(Samples(image, name, mutationCount, draws, sampleSize))
  }

  /**
   * What the descriptor promises of its mutant: it names the run's fault
   * model, holds `count` sites that fit the image (bit positions 0 for byte
   * models), and replaying it on the original image reproduces the mutant.
   */
  predicate Reproducible(image: seq<Byte>, name: string, count: nat, a: Artifact)
  {
    var d := a.descriptor;
    d.faultModel == name &&
    |d.byteIndexes| == count &&
    SitesFit(|image|, d.byteIndexes, d.bitPositions) &&
    (!DrawsBits(name) ==> forall c :: 0 <= c < |d.bitPositions| ==> d.bitPositions[c] == 0) &&
    Mutate(image, d.byteIndexes, d.bitPositions, d.faultModel) == Success(a.mutant)
  }

  /**
   * Sample j of a run writes the files numbered j, records exactly the lists
   * its sampler drew from the cursor the previous samples left, and its
   * descriptor reproduces its mutant.
   */
  lemma RunArtifacts(image: seq<Byte>, name: string, mutationCount: int, sampleSize: int, draws: seq<nat>, j: nat)
    requires mutationCount >= 1 && RunDraws(name, mutationCount, sampleSize) <= |draws|
    requires j < |Run(image, name, mutationCount, sampleSize, draws).artifacts|
    ensures |image| >= 1 && SampleStart(name, mutationCount, j + 1) <= |draws|
    ensures var a := Run(image, name, mutationCount, sampleSize, draws).artifacts[j];
      var s := DrawSites(|image|, mutationCount, DrawsBits(name), draws, SampleStart(name, mutationCount, j));
      a.index == j && a.descriptor == Descriptor(name, s.offsets, s.bits) && Reproducible(image, name, mutationCount, a)
  {
    var rs := Samples(image, name, mutationCount, draws, sampleSize);
    SampleOf(image, name, mutationCount, draws, sampleSize, j);
    assert rs[j] == Success(Collect(rs).artifacts[j]);
  }

  /** A run on an empty image (the file was missing) fails at the first draw and writes nothing. */
  lemma EmptyImageWritesNothing(name: string, mutationCount: int, sampleSize: int, draws: seq<nat>)
    requires mutationCount >= 1 && sampleSize >= 1
    requires RunDraws(name, mutationCount, sampleSize) <= |draws|
    ensures Run([], name, mutationCount, sampleSize, draws) == Outcome([], Some(EmptyRangeError))
  {
    SampleOf([], name, mutationCount, draws, sampleSize, 0);
  }

  /** A run with an unknown fault-model name raises at the first site of sample 0 and writes no file. */
  lemma UnknownModelWritesNothing(image: seq<Byte>, name: string, mutationCount: int, sampleSize: int, draws: seq<nat>)
    requires mutationCount >= 1 && sampleSize >= 1 && |image| >= 1
    requires ParseFaultModel(name).None?
    requires RunDraws(name, mutationCount, sampleSize) <= |draws|
    ensures Run(image, name, mutationCount, sampleSize, draws) == Outcome([], Some(FaultModelError))
  {
    SampleOf(image, name, mutationCount, draws, sampleSize, 0);
  }

  /**
   * A run with valid parameters, a non-empty image and one of the six model
   * names writes sample_size mutants, numbered 0 .. sample_size - 1, each
   * reproduced from its descriptor.
   */
  lemma RunComplete(image: seq<Byte>, name: string, mutationCount: int, sampleSize: int, draws: seq<nat>)
    requires mutationCount >= 1 && sampleSize >= 1 && |image| >= 1
    requires ParseFaultModel(name).Some?
    requires RunDraws(name, mutationCount, sampleSize) <= |draws|
    ensures var r := Run(image, name, mutationCount, sampleSize, draws);
      r.error.None? && |r.artifacts| == sampleSize &&
      forall j :: 0 <= j < sampleSize ==>
        r.artifacts[j].index == j && Reproducible(image, name, mutationCount, r.artifacts[j])
  {
    var r := Run(image, name, mutationCount, sampleSize, draws);
    forall k | 0 <= k < sampleSize
      ensures Samples(image, name, mutationCount, draws, sampleSize)[k].Success?
    {
      SampleOf(image, name, mutationCount, draws, sampleSize, k);
    }
    forall j | 0 <= j < sampleSize
      ensures r.artifacts[j].index == j && Reproducible(image, name, mutationCount, r.artifacts[j])
    {
      RunArtifacts(image, name, mutationCount, sampleSize, draws, j);
    }
  }

  /** One site without bit positions: the offset is the draw reduced modulo the size, and the bit position is 0. */
  lemma OneSiteDraw(size: nat, d: nat)
    requires size >= 1
    ensures DrawSites(size, 1, false, [d], 0) == Sites([d % size], [0], 1)
  {
    assert DrawSites(size, 0, false, [d], 0) == Sites([], [], 0);
  }

  /** That single sample, when the mutation succeeds: index 0, the mutant, and a descriptor of the one site. */
  lemma OneSiteSample(image: seq<Byte>, name: string, d: nat)
    requires |image| >= 1 && !DrawsBits(name)
    requires Mutate(image, [d % |image|], [0], name).Success?
    ensures SampleAt(image, name, 1, [d], 0, 0).result ==
      Success(Artifact(0, Mutate(image, [d % |image|], [0], name).value, Descriptor(name, [d % |image|], [0])))
  {
    OneSiteDraw(|image|, d);
  }

  /** A run of one sample of one site under a name without "bit" is that single sample. */
  lemma OneSiteRun(image: seq<Byte>, name: string, d: nat)
    requires |image| >= 1 && !DrawsBits(name)
    ensures RunDraws(name, 1, 1) == 1
    ensures Run(image, name, 1, 1, [d]) == Collect([SampleAt(image, name, 1, [d], 0, 0).result])
  {
    assert SampleStart(name, 1, 1) == 1;
    SampleOf(image, name, 1, [d], 1, 0);
    var rs := Samples(image, name, 1, [d], 1);
    assert rs == [rs[0]];
  }

  /**
   * Concrete run: byte-flip with one site per sample and one sample, on the
   * image [0x00, 0x0F, 0xF0, 0xFF], with the offset draw 2. It writes sample
   * 0, whose mutant has byte 2 flipped and whose descriptor records offset 2
   * and the bit-position placeholder 0.
   */
  lemma ByteFlipRunScenario()
    ensures RunDraws("byte-flip", 1, 1) == 1
    ensures Run([0x00, 0x0F, 0xF0, 0xFF], "byte-flip", 1, 1, [2]) ==
      Outcome([Artifact(0, [0x00, 0x0F, 0x0F, 0xFF], Descriptor("byte-flip", [2], [0]))], None)
  {
    var image: seq<Byte> := [0x00, 0x0F, 0xF0, 0xFF];
    NoBitIn("byte-flip");
    OneSiteRun(image, "byte-flip", 2);
    ByteFlipScenario();
    assert 2 % |image| == 2;
    OneSiteSample(image, "byte-flip", 2);
    var a := Artifact(0, [0x00, 0x0F, 0x0F, 0xFF], Descriptor("byte-flip", [2], [0]));
    var rs: seq<Result<Artifact, RandoError>> := [Success(a)];
    assert rs[1..] == [];
  }


  /**
   * One pass of the sample loop body (rando.py:110-164): draw the sites,
   * mutate a copy of the image, and pair the mutant with its descriptor.
   */
  method EmitSample(image: array<Byte>, name: string, count: nat, draws: seq<nat>, at: nat, i: nat)
    returns (step: Step)
    requires count >= 1 && DrawIndex(at, count, DrawsBits(name)) <= |draws|
    ensures step == SampleAt(image[..], name, count, draws, at, i)
  {
    if image.Length == 0 {
      return Step(Failure(EmptyRangeError), at);
    }
    var offsets, bits, after := SampleSites(image.Length, count, name, draws, at);
    var mutant := MutateCopy(image, offsets, bits, name);
    match mutant
    case Failure(e) =>
      step := Step(Failure(e), after);
    case Success(m) =>
      step := Step(Success(Artifact(i, m, Descriptor(name, offsets, bits))), after);
  }

  /**
   * The sample loop of `main` (rando.py:109-164): run the samples in index
   * order, each drawing from where the previous one stopped, and stop at the
   * first error.
   */
  method EmitSamples(image: array<Byte>, name: string, count: nat, sampleSize: nat, draws: seq<nat>)
    returns (r: Outcome)
    requires count >= 1 && SampleStart(name, count, sampleSize) <= |draws|
    ensures r == Collect(Samples(image[..], name, count, draws, sampleSize))
  {
    ghost var rs := Samples(image[..], name, count, draws, sampleSize);
    var artifacts: seq<Artifact> := [];
    var next := 0;
    var i := 0;
    while i < sampleSize
      invariant 0 <= i <= sampleSize
      invariant next == SampleStart(name, count, i)
      invariant |artifacts| == i
      invariant forall j :: 0 <= j < i ==> rs[j] == Success(artifacts[j])
    {
      SampleStartMono(name, count, i + 1, sampleSize);
      var step := EmitSample(image, name, count, draws, next, i);
      if step.result.Failure? {
        CollectStopsAt(rs, artifacts);
        return Outcome(artifacts, Some(step.result.error));
      }
      CollectExtend(rs, artifacts, step.result.value);
      artifacts := artifacts + [step.result.value];
      next := step.next;
      i := i + 1;
    }
    CollectStopsAt(rs, artifacts);
    r := Outcome(artifacts, None);
  }

  /**
   * `main` after the image is loaded: check `mutation_count`, then
   * `sample_size` (rando.py:99-105), then run the samples.
   */
  method Rando(image: array<Byte>, name: string, mutationCount: int, sampleSize: int, draws: seq<nat>)
    returns (r: Outcome)
    requires RunDraws(name, mutationCount, sampleSize) <= |draws|
    ensures r == Run(image[..], name, mutationCount, sampleSize, draws)
  {
    if mutationCount < 1 {
      return Outcome([], Some(MutationCountError));
    }
    if sampleSize < 1 {
      return Outcome([], Some(SampleSizeError));
    }
    r := EmitSamples(image, name, mutationCount, sampleSize, draws);
  }
}

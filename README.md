# FaultRando fault-injection core in Dafny

`rando.py` is a tool for simulating faults on binaries. It loads a binary image and writes
`sample_size` mutants of it. For each sample it:

- draws `mutation_count` sites, each a byte offset and, for the bit-level models, a bit position;
- applies one of six fault operators at each site, in list order, to a copy of the image;
- writes the mutant next to a JSON descriptor that records the model name and the two site lists.

This project models that core:

- the six fault operators, including the text round trip `bin(x)[2:].zfill(8)` / `int(s, 2)`
  that the bit-level operators go through;
- the parameter checks;
- the per-sample sampler, with the random source injected as a stream of draws;
- the apply loop, as a pure specification function plus an in-place loop over an array copy;
- the descriptor, and the sample loop that stops at the first raised error.

Modules, in dependency order:

- `Wrappers`: `Option` and `Result`.
- `Bits`: bytes as ints 0..255, `Bit(x, k)`, and Python's `^` as `Xor`.
- `BinaryText`: `bin(x)[2:]`, `zfill`, and `int(s, 2)` over strings of `'0'`/`'1'`.
- `FaultOps`: the six operators, their algebra, and `fault_bit_set`/`fault_bit_reset` as written.
- `FaultNames`: the six command-line names and the `"bit" in fault_model` test.
- `SiteLists`: the errors `main` raises and the shape of a sample's two site lists, shared by the sampler and the apply loop.
- `Applicator`: the apply loop, `ApplyAll` and `Mutate` as functions, and `MutateCopy` with `ApplySitesInPlace` as methods on an array.
- `Sampler`: `randrange` on an injected draw stream, `DrawSites` as a function, and `SampleSites` as a method.
- `Emitter`: one sample (`SampleAt`, `EmitSample`), the run (`Run`, `Rando`), and the descriptor's guarantees.

Conventions:

- A byte is an `int` in 0..255, as in a Python `bytearray`.
- Bit k of x is `(x / 2^k) % 2`.
- String position b of the eight-digit text holds bit `7 - b`, so position 0 is the most significant bit.
- Randomness is a `seq<nat>` of raw draws and a cursor. `random.randrange(0, n)` is the draw at the cursor, reduced modulo n.
- A sample consumes one draw per site, or two when the model name contains `"bit"`.
- Sample j starts at the cursor the earlier samples left.

## Model

| member | source | states |
|---|---|---|
| FaultOps.FaultByteSet | rando.py:34-35 | every bit of the result is 1 (the result is 0xFF) whatever the input |
| FaultOps.FaultByteReset | rando.py:37-38 | every bit of the result is 0 whatever the input |
| Bits.XorBit | rando.py:41 | bit k of `a ^ b` is 1 exactly when bit k of a and bit k of b differ |
| Bits.XorBound | rando.py:41 | `a ^ b` of two values below 2^n is below 2^n |
| Bits.XorAllOnes | rando.py:41 | for a byte x, `x ^ 0xFF` equals 0xFF - x and inverts each of the eight bits |
| FaultOps.FaultByteFlip | rando.py:40-41 | `x ^ 0xFF` equals `0xFF - x`, stays a byte, and inverts each of the eight bits |
| FaultOps.ByteFlipInvolution | rando.py:40-41 | flipping a byte twice gives the byte back |
| BinaryText.BinDigits | rando.py:44 | `bin(x)[2:]` is a non-empty string of binary digits |
| BinaryText.BinDigitsWidth | rando.py:44 | x is below 2^len(bin(x)[2:]), so the numeral has every digit x needs |
| BinaryText.BinDigitsFit | rando.py:44 | a value below 2^n has a numeral of at most n digits, so `zfill(8)` of a byte's numeral only pads |
| BinaryText.BinDigitsAt | rando.py:44 | digit i of `bin(x)[2:]` is bit len - 1 - i of x |
| BinaryText.ZFill | rando.py:44 | `s.zfill(width)` has length max(len(s), width), with '0' in the padding and s after it |
| BinaryText.ZFilledAt | rando.py:44 | for x below 2^n, `bin(x)[2:].zfill(n)` has n characters and position i holds bit n - 1 - i |
| BinaryText.ParseBinary | rando.py:49 | `int(s, 2)` of a numeral of len(s) digits is below 2^len(s) |
| BinaryText.Binary8 | rando.py:44 | `bin(x)[2:].zfill(8)` has exactly eight binary digits, and string position i holds bit 7 - i of x |
| BinaryText.Binary8Digit | rando.py:44-46 | the digit read at string position b of the eight-digit text has the value of bit 7 - b |
| BinaryText.ParseBinaryBits | rando.py:49 | `int(s, 2)` is below 2^len(s), and its bit k is the digit at string position len(s) - 1 - k |
| BinaryText.ParseBinary8 | rando.py:44-49 | parsing the eight-digit text of a byte gives the byte back |
| BinaryText.Binary8Parse | rando.py:44-49 | any eight-digit binary string is the text of the byte it parses to |
| FaultOps.OverwriteDigit | rando.py:44-49 | writing digit c at string position b and parsing sets bit 7 - b to c and keeps the other seven bits |
| FaultOps.FlipDigit | rando.py:46-47 | `str(int(temp) ^ 1)` is a binary digit of the opposite value |
| FaultOps.FaultBitFlip | rando.py:43-49 | toggles bit 7 - b and keeps every other bit |
| FaultOps.BitFlipIsXor | rando.py:43-49 | `fault_bit_flip(x, b)` equals `x ^ (1 << (7 - b))` |
| FaultOps.BitFlipInvolution | rando.py:43-49 | flipping the same bit position twice gives the byte back |
| FaultOps.Fault | rando.py:135-146 | the dispatched operator sets bit 7 - b for byte-set and bit-set, clears it for byte-reset and bit-reset, and toggles it for byte-flip and bit-flip; the three bit-level models keep the other seven bits, while byte-set sets all eight bits (0xFF), byte-reset clears all eight (0x00) and byte-flip inverts all eight (`x ^ 0xFF`) |
| FaultOps.FlipInvolution | rando.py:40-49 | under both flip models, the dispatched operator applied twice at one position is the identity |
| FaultOps.FaultBitSet | rando.py:51-56 | the intended operator forces bit 7 - b to 1 and keeps the other bits |
| FaultOps.FaultBitReset | rando.py:58-63 | the intended operator forces bit 7 - b to 0 and keeps the other bits |
| FaultOps.BitSetIdempotent | rando.py:51-56 | setting an already-set position changes nothing |
| FaultOps.SetResetLastWins | rando.py:51-63 | set then reset (or reset then set) at one position equals the second operator alone |
| FaultOps.AtEveryPositionBits | rando.py:43-63 | a bit-level operator applied at positions 0..n-1 affects exactly bits 7..8-n, in the operator's way |
| FaultOps.ByteOpsAreAllBits | rando.py:34-63 | byte-set, byte-reset and byte-flip equal bit-set, bit-reset and bit-flip applied at all eight positions |
| FaultOps.Join | rando.py:55 | `"".join` fails with TypeError exactly when some element is not a string; otherwise its result holds the elements in order |
| FaultOps.StoreIntRaises | rando.py:51-63 | storing any int into the digit list makes the join raise TypeError, for every byte and position |
| FaultOps.FaultBitSetAsWritten | rando.py:51-56 | as written, `fault_bit_set` raises TypeError for every byte and every position |
| FaultOps.FaultBitResetAsWritten | rando.py:58-63 | as written, `fault_bit_reset` raises TypeError for every byte and every position |
| FaultOps.StoreDigitRepairs | rando.py:51-63 | the same steps with the digit stored as a one-character string succeed and give the forced-bit result |
| FaultOps.BitSetScenario | rando.py:51-56 | bit-set at position 0 of 0x00 is intended to give 0x80, but the code as written raises |
| FaultNames.ParseFaultModel | rando.py:135-149 | a name selects a model only if it is that model's command-line name; any other name selects none |
| FaultNames.NameRoundTrip | rando.py:135-146 | each of the six names selects its own model |
| FaultNames.Contains | rando.py:119 | `needle in hay` holds only when needle is no longer than hay, and holds whenever hay starts with needle |
| FaultNames.DrawsBits | rando.py:119 | a name that draws bit positions has at least three characters, and every name starting with "bit" draws them |
| FaultNames.NoBitIn | rando.py:119 | a name starting "by" with no later 'b' does not contain "bit" |
| FaultNames.DrawsBitsMatchesGranularity | rando.py:119 | for the six valid names, `"bit" in fault_model` holds exactly for the bit-level models |
| Sampler.RandRange | rando.py:115 | a draw for `randrange(0, n)` lies in [0, n) |
| Sampler.DrawSites | rando.py:109-123 | the two lists have `mutation_count` entries each; every offset lies in [0, size) and every bit position in [0, 8); without "bit" in the name every bit position is 0; the cursor advances one draw per site, or two with "bit" |
| Sampler.DrawSitesAt | rando.py:111-123 | site c takes its offset from draw at + c (at + 2c for bit models) and its bit position from the draw after it |
| Sampler.SampleSites | rando.py:110-123 | the append loop builds exactly the lists and cursor of DrawSites |
| Applicator.ApplySite | rando.py:129-151 | one pass replaces the byte at the site's offset by the operator applied to the current byte and leaves every other byte |
| Applicator.ApplyAll | rando.py:126-151 | the mutant has the length of the image |
| Applicator.ApplyAllFrame | rando.py:126-151 | a byte at an offset that no site names keeps its original value |
| Applicator.ApplyAllAt | rando.py:128-151 | byte i of the mutant is the original byte i pushed through the operator once per site naming i, in list order |
| Applicator.ApplyAllAppend | rando.py:128-151 | applying two site lists one after the other equals applying their concatenation |
| Applicator.DistinctSites | rando.py:128-151 | with distinct offsets, each named byte is the operator applied to the original byte, and every other byte is unchanged |
| Applicator.SelfInverseTwice | rando.py:128-151 | an operator that undoes itself at a byte, listed twice at that byte's site, leaves the buffer unchanged |
| Applicator.FlipTwiceRestores | rando.py:128-151 | a flip model listing the same site twice leaves the image unchanged |
| Applicator.ByteSetCoversAll | rando.py:128-151 | byte-set at offsets that cover the image gives an image of 0xFF bytes |
| Applicator.Mutate | rando.py:126-151 | fails, with the fault-model error, exactly when the name is unknown and there is at least one site; otherwise the mutant has the image's length and unnamed bytes are unchanged |
| Applicator.ApplySiteInPlace | rando.py:130-151 | one loop pass rewrites the byte at the site's offset with its fault, computed from the current byte |
| Applicator.CopyImage | rando.py:126 | `bytearray.copy()` is a fresh array with the image's bytes |
| Applicator.ApplySitesInPlace | rando.py:128-151 | the in-place loop over the sites under a known model leaves exactly ApplyAll of the buffer it started from |
| Applicator.MutateCopy | rando.py:126-151 | the in-place loop on a copy returns exactly Mutate of the image, and the image array is not written |
| Applicator.ByteFlipScenario | rando.py:126-151 | byte-flip at offset 2 of [0x00, 0x0F, 0xF0, 0xFF] gives [0x00, 0x0F, 0x0F, 0xFF] |
| Emitter.SampleAt | rando.py:110-164 | with the intended bit-set and bit-reset, a sample fails only with the empty-range or the fault-model error; a successful one has index i, records exactly the drawn lists, and is Reproducible |
| Emitter.Samples | rando.py:109-164 | a run of n samples has n per-sample results |
| Emitter.SampleOf | rando.py:109-123 | sample j draws from cursor SampleStart(j), and the next sample starts where it stopped |
| Emitter.Collect | rando.py:109-164 | the run keeps the artifacts of the leading successful samples and stops at the first failing one, whose error it reports |
| Emitter.CollectStopsAt | rando.py:109-164 | the outcome is determined by where the first failure sits |
| Emitter.Run | rando.py:99-105 | `mutation_count < 1` fails before `sample_size < 1` is checked, both before any draw; a run without error writes `sample_size` samples; the fault-model error needs an unknown name |
| Emitter.RunArtifacts | rando.py:109-164 | the j-th written sample is numbered j, its descriptor holds exactly the lists drawn at cursor SampleStart(j), and replaying the descriptor on the original reproduces the mutant |
| Emitter.EmptyImageWritesNothing | rando.py:88-115 | a run on an empty image (a missing file) raises at the first `randrange(0, 0)` and writes no file |
| Emitter.UnknownModelWritesNothing | rando.py:109-149 | a run with an unknown model name raises at the first site of sample 0 and writes no file |
| Emitter.RunComplete | rando.py:99-164 | with the intended bit-set and bit-reset, valid parameters, a non-empty image and a known name give `sample_size` samples numbered 0.., each reproduced from its descriptor |
| Emitter.OneSiteDraw | rando.py:113-123 | one site under a name without "bit" takes the first draw modulo the image size as its offset and 0 as its bit position, and consumes one draw |
| Emitter.OneSiteSample | rando.py:109-164 | that sample, when its mutation succeeds, is artifact 0 holding the mutant and a descriptor of the one site |
| Emitter.OneSiteRun | rando.py:99-164 | a run of one sample of one site under a name without "bit" consumes one draw and is that single sample |
| Emitter.ByteFlipRunScenario | rando.py:99-164 | byte-flip, one site, one sample, draw 2, on [0x00, 0x0F, 0xF0, 0xFF] writes exactly sample 0 with mutant [0x00, 0x0F, 0x0F, 0xFF] and descriptor ("byte-flip", [2], [0]) |
| Emitter.EmitSample | rando.py:110-164 | one pass of the sample loop body computes exactly SampleAt |
| Emitter.EmitSamples | rando.py:109-164 | the sample loop, which threads the cursor from sample to sample, computes exactly Collect of the per-sample results |
| Emitter.Rando | rando.py:99-164 | the parameter checks followed by the sample loop compute exactly Run |

## Left out

- Argument parsing (rando.py:68-80) and logging setup (rando.py:15-29) are configuration only. The parsed values are parameters here.
- File I/O is left out: the mmap load (rando.py:89-97), writing the mutant and the JSON file (rando.py:154-169), and path construction. The loaded bytes are an input sequence or array. An artifact stands for the two files of one sample.
- A missing file is only logged and leaves `size = 0`. This is modelled as an empty image, which then fails with the `randrange(0, 0)` error. An existing but empty file is not this case: `mmap.mmap` of a zero-length file raises an uncaught ValueError at rando.py:91, before the parameter checks, and is left out with the rest of the file I/O.
- `json.dumps` text formatting (rando.py:167) is left out. The descriptor is a datatype.
- The visualization (rando.py:172-209) uses floating point, numpy and matplotlib for presentation only. The tqdm progress bar (rando.py:107, 211-212) is left out too.
- Sampler.RandRange: the model does not capture the distribution of `random.randrange`. It only promises a value in [0, n), taken as a supplied draw reduced modulo n.
- Sampler.DrawSites: requires a draw stream long enough for the sample. Python's generator never runs out. Emitter.Run requires enough draws for every sample (`RunDraws`) for the same reason.
- Applicator.Mutate, Emitter.SampleAt, Emitter.Run: for "bit-set" and "bit-reset" they apply the intended FaultBitSet and FaultBitReset. The program as written raises TypeError at the first site of sample 0 for those two names (rando.py:54-55, 61-62) and writes no file. RandoError does not model that TypeError; FaultBitSetAsWritten and FaultBitResetAsWritten state it, and "## Findings" records it.
- Applicator.MutateCopy: matches the model name once before the apply loop instead of on every pass. The name does not change inside the loop, so every pass gets the same answer.
- Logging calls on the error paths (rando.py:97, 100, 104, 148) are left out. The error values stand for the raised ValueErrors.

## Findings

| source | as written | input that shows it | evidently intended | confidence | as-written member | corrected member |
|---|---|---|---|---|---|---|
| rando.py:54-55 | `binary_list[bit_position] = 1` stores an int in a list of one-character strings, so the `"".join` on the next line raises TypeError | `fault_bit_set(0x00, 0)` | store the digit `'1'`, forcing bit 7 - b to 1 (0x00 at position 0 gives 0x80) | not executed | FaultOps.FaultBitSetAsWritten | FaultOps.FaultBitSet |
| rando.py:61-62 | `binary_list[bit_position] = 0` stores an int in a list of one-character strings, so the `"".join` on the next line raises TypeError | `fault_bit_reset(0xFF, 0)` | store the digit `'0'`, forcing bit 7 - b to 0 | not executed | FaultOps.FaultBitResetAsWritten | FaultOps.FaultBitReset |

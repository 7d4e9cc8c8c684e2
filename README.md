# audio-painter core in Dafny

audio-painter is a concatenative resynthesiser. It rebuilds a *target*
recording out of pieces of a *paint* recording. This project models its
integer core and proves properties of that model:

- **Chunk matcher** (`ChunkMatching`, `chunk_matching.dfy`). The target is
  split into `chunk_size` chunks. For each chunk, the paint is scanned at
  stride `search_jump`. Each candidate window is scored by its sum of
  squared differences in an `i128`. The first strictly smallest score wins,
  and one `SampleSpan` is emitted per chunk.
- **Renderer** (`Render`, `render.dfy`). A zeroed buffer as long as all the
  spans together is built. Each span's paint samples are added ("stamped")
  at a running cursor. Each span's faded lead-in is stamped a crossfade
  (`chunk_size / 4`) before the cursor, except for the first span. Its faded
  lead-out is stamped right after it, except for the last span. The buffer
  is then mixed with the target and normalised.
- **Crossfade windows** (`Crossfade`, `crossfade_generator.dfy`). The
  lead-in window is clamped at sample 0. The lead-out window is the whole
  crossfade or nothing.
- **`SampleSpan`** (`Spans`, `sample_span.dfy`). A position and a length,
  with their index range.
- **Tidy stage** (`Tidy`, `tidy.dfy`). `flatten` averages interleaved
  channels to mono. `normalize` finds a peak and applies one gain to every
  sample. `src/steps/normalize.rs` is a copy of `normalize` and shares this
  model.
- **Validators** (`Extensions`, `extensions.dfy`). The inclusive range
  check for command-line numbers, the sample-rate and file-extension checks,
  the `tidy_samples` composition, and the rounding divisions.

Integer widths follow a release build of the Rust program, where overflow
checks are off (`ints.dfy`):

- `i16 +=` and `i16::abs` wrap.
- `usize` subtraction wraps in the lead-in position of the render loop.
  `SampleSpan::pull_back` and `From<Range>` are modelled only where their
  subtraction does not wrap (see Left out).
- `overflowing_sub` is modelled exactly.

The floating-point steps whose result depends on rounding are function
parameters:

- the normalisation gain, `scale(peak, x)`;
- the crossfade ramps, `Ramp.fadeIn` and `Ramp.fadeOut`;
- the dry/wet mix, `mix(wet, dry)`.

The proofs state what holds whatever those functions compute. Three
floating-point steps are modelled as exact integer arithmetic instead: the
division in `flatten` (`Tidy.TruncDiv`), `div_ceil` and `_div_floor`. Left
out says when each of them is exact.

The loops of the source are methods with loop invariants. Each method is
proved against a specification function: `Render.StampAll` against
`Render.Layout`, `Tidy.Flatten` against `Tidy.Flattened`,
`ChunkMatching.BestMatch` against `ChunkMatching.IsFirstBest`, and so on.
The lemmas then state what those functions mean: where each paint sample
lands in the output, which window wins, and what a frame's mono sample is.

`ChunkMatching.SearchRule`, `Tidy.PeakRule` and `Render.TailRule` choose
between the code as written (`AsWritten`) and the evidently intended code
(`Intended`). All three are described under Findings.

## Model

| member | source | states |
|---|---|---|
| `Ints.WrappingAdd16Wraps` | src/steps/render.rs:74 | the sample sum `+=` in a release build is the two's-complement reduction of the exact sum |
| `Ints.WrappingAbs16` | src/steps/tidy.rs:5 | `abs` is the magnitude for every sample but `i16::MIN`, which comes back unchanged |
| `Ints.OverflowingSub` | src/utils/crossfade_generator.rs:6 | reports an underflow exactly when the subtrahend is larger; otherwise the result is the exact difference |
| `Ints.WrappingSub` | src/steps/render.rs:37 | `usize` subtraction is exact whenever it does not underflow, and otherwise wraps to the difference plus 2^64 |
| `Spans.New` | src/utils/sample_span.rs:9-14 | the new span has the given start and length, and ends at their sum |
| `Spans.SampleSpan.Range` | src/utils/sample_span.rs:16-21 | the range runs from the span's start to its end, and its length is the span's length |
| `Spans.SampleSpan.PullBack` | src/utils/sample_span.rs:35-40 | start and end both move `back` samples earlier; the length is kept; `back` may not exceed the position |
| `Spans.SampleSpan.Truncate` | src/utils/sample_span.rs:42-47 | the start is kept and the length replaced, so the end moves with it |
| `Spans.FromRange` | src/utils/sample_span.rs:50-56 | an ordered range becomes the span with the same start and end |
| `Spans.RangeRoundTrip` | src/utils/sample_span.rs:16-21 | a span converted to its range and back is the same span |
| `Spans.FromRangeRoundTrip` | src/utils/sample_span.rs:50-56 | an ordered range converted to a span and back is the same range |
| `Spans.PullBackTruncateCommute` | src/utils/sample_span.rs:35-47 | pulling back and truncating commute |
| `Crossfade.HeadPosition` | src/utils/crossfade_generator.rs:6-10 | the lead-in starts `min(start, crossfade)` samples before the span, snapped to 0 on underflow |
| `Crossfade.RampedAt` | src/utils/crossfade_generator.rs:44-47 | the enumerate-and-map keeps the window's length, and output `i` is the ramp applied to input `i` with index `i` |
| `Crossfade.HeadFade` | src/utils/crossfade_generator.rs:20-26 | the lead-in is `min(start, crossfade)` long |
| `Crossfade.TailFade` | src/utils/crossfade_generator.rs:14-27 | the lead-out is the whole crossfade when the span ends more than a crossfade before the end of the samples, and empty otherwise |
| `Crossfade.GenerateFades` | src/utils/crossfade_generator.rs:3-30 | the lengths of both windows, for any span within the samples |
| `Crossfade.HeadSample` | src/utils/crossfade_generator.rs:20-26 | lead-in sample `i` is the `i`-th sample of the window ending at the span's start, faded in over the window's length |
| `Crossfade.TailSample` | src/utils/crossfade_generator.rs:21-27 | lead-out sample `i` is the `i`-th sample after the span's end, faded out over the crossfade |
| `Crossfade.GenerateFadesWindows` | src/utils/crossfade_generator.rs:23-38 | every sample of both returned windows is the ramp applied to the paint sample at the matching index |
| `Crossfade.FadesEmptyAtBoundaries` | src/utils/crossfade_generator.rs:14-20 | a span at sample 0 has no lead-in; one ending within a crossfade of the end has no lead-out |
| `Crossfade.FadeLengths` | src/utils/crossfade_generator.rs:6-24 | the lead-in is never longer than the crossfade and is shorter only when clamped at 0; the lead-out is all or nothing |
| `ChunkMatching.Chunks` | src/steps/chunk_matching.rs:8 | every chunk is non-empty and at most `chunk_size` long |
| `ChunkMatching.ChunksConcat` | src/steps/chunk_matching.rs:8 | the chunks, joined in order, are the target |
| `ChunkMatching.ChunksAreFull` | src/steps/chunk_matching.rs:8 | every chunk but the last is exactly `chunk_size` long |
| `ChunkMatching.ChunkCount` | src/steps/chunk_matching.rs:6-8 | there are `div_ceil(target_len, chunk_size)` chunks, the count the progress report uses |
| `ChunkMatching.Sse` | src/steps/chunk_matching.rs:30-38 | the score is non-negative and at most the chunk length times (2^16 - 1)^2 |
| `ChunkMatching.SseFitsI128` | src/steps/chunk_matching.rs:30-38 | the `i128` accumulator can never overflow for chunks shorter than 2^64 |
| `ChunkMatching.CopyScoresZero` | src/steps/chunk_matching.rs:30-38 | a window that is a copy of the chunk scores 0 |
| `ChunkMatching.ZeroScoreIsCopy` | src/steps/chunk_matching.rs:30-38 | only a copy of the chunk scores 0 |
| `ChunkMatching.SquaredError` | src/steps/chunk_matching.rs:30-38 | the inner loop computes the score without overflowing `i128` |
| `ChunkMatching.BestMatch` | src/steps/chunk_matching.rs:20-43 | the kept position is the first candidate whose score is no greater than any other's (0 when there is none), and the kept score is its score (`i128::MAX` when there is none) |
| `ChunkMatching.CandidateCountFits` | src/steps/chunk_matching.rs:22-28 | under either search rule every candidate window lies within the paint, so slicing the paint never panics |
| `ChunkMatching.AsWrittenCandidateFits` | src/steps/chunk_matching.rs:22-28 | the read range of candidate `i < div_floor(paint_len, jump) - chunk_len` ends within the paint |
| `ChunkMatching.RulesAgreeForUnitStride` | src/steps/chunk_matching.rs:22 | with stride 1 the written and intended search ranges coincide |
| `ChunkMatching.AsWrittenSkipsAlignedOffsets` | src/steps/chunk_matching.rs:22 | as written, a 1000-sample paint at stride 10 with a 100-sample chunk has no candidate, while 91 aligned windows fit (offsets 0 to 900) and the intended rule scans the 90 offsets below `paint_len - chunk_len` |
| `ChunkMatching.IntendedCandidatesAreAlignedOffsets` | src/steps/chunk_matching.rs:22-25 | the intended candidates are exactly the stride-aligned offsets below `paint_len - chunk_len` (both directions) |
| `ChunkMatching.EarlierTieWins` | src/steps/chunk_matching.rs:40-42 | of two candidates scoring alike, the later is never chosen |
| `ChunkMatching.FirstBestUnique` | src/steps/chunk_matching.rs:20-43 | the candidate loop's result is determined by its inputs |
| `ChunkMatching.ExactCopyIsFound` | src/steps/chunk_matching.rs:20-43 | if some candidate window is an exact copy of the chunk, so is the chosen window |
| `ChunkMatching.MakeChunkMatches` | src/steps/chunk_matching.rs:5-45 | one span per chunk, in chunk order, each as long as its chunk and at the offset the candidate loop keeps |
| `ChunkMatching.ChunkMatchWithinPaint` | src/steps/chunk_matching.rs:20-45 | every emitted span lies within the paint, including the fallback position 0 |
| `ChunkMatching.IntendedMatchIsBestAligned` | src/steps/chunk_matching.rs:22-42 | under the intended range, the chosen window scores no worse than any aligned window |
| `Render.CountOutputSamples` | src/steps/render.rs:78-86 | the count is the sum of all span lengths |
| `Render.Cursor` | src/steps/render.rs:29-41 | the cursor starts at 0 and never passes the buffer's end |
| `Render.CursorStep` | src/steps/render.rs:41 | each iteration moves the cursor by the span's length |
| `Render.CursorEnd` | src/steps/render.rs:24-41 | after the last span the cursor is at the buffer's end |
| `Render.CursorMono` | src/steps/render.rs:41 | the cursor never moves backwards |
| `Render.StampedAt` | src/steps/render.rs:72-76 | after `stamp`, each index in `[at, at + len)` holds the old sample plus the input's, and every other index is unchanged |
| `Render.Stamp` | src/steps/render.rs:72-76 | the in-place loop leaves exactly what `Stamped` describes |
| `Render.StampsInOrder` | src/steps/render.rs:36-45 | one iteration is the lead-in, span and lead-out stamps in sequence, with the lead-in at `progress - crossfade` |
| `Render.StampMatchOwn` | src/steps/render.rs:40 | over its own region a span's samples are added once |
| `Render.StampMatchHead` | src/steps/render.rs:36-38 | the lead-in is added from `progress - crossfade` for every span but the first |
| `Render.StampMatchTail` | src/steps/render.rs:43-45 | the lead-out is added right after the span for every span but the last |
| `Render.StampMatchAbove` | src/steps/render.rs:31-46 | an iteration changes nothing beyond its lead-out |
| `Render.StampMatchBelow` | src/steps/render.rs:31-46 | an iteration changes nothing before its lead-in |
| `Render.StampIteration` | src/steps/render.rs:32-45 | the body of the stamping loop, in place on the output buffer |
| `Render.AllFadesFit` | src/steps/render.rs:31-46 | when the loop's bounds hold, every stamp of every iteration fits the buffer |
| `Render.LayoutNext` | src/steps/render.rs:31-46 | iteration `j` stamps span `j` and its fades at `Cursor(j)` over the buffer left by the earlier iterations |
| `Render.StampSpan` | src/steps/render.rs:31-45 | one loop iteration advances the buffer by one layout step and the cursor by the span's length, stamping the lead-out the rule keeps |
| `Render.LeadOut` | src/steps/render.rs:43-45 | the stamped lead-out is a prefix of the generated one, all of it as written or when it fits, and under the intended rule exactly as much as fits in the buffer |
| `Render.StampedTail` | src/steps/render.rs:43-45 | after every span but the last, the lead-out the rule keeps at the cursor past the span; under the intended rule it ends within the buffer |
| `Render.RuleFadesAt` | src/steps/render.rs:34-45 | span `k`'s fades under a rule are its generated lead-in and its generated lead-out as the rule stamps it |
| `Render.RuleFadesFit` | src/steps/render.rs:31-46 | renderable spans and the fades the rule stamps fit the buffer; under the intended rule that holds for any spans within the paint whose lead-ins fit |
| `Render.IntendedAgreesInBounds` | src/steps/render.rs:31-46 | where the source's loop stays in bounds, the intended rule stamps the same fades and lays out the same buffer |
| `Render.StampAll` | src/steps/render.rs:24-46 | a fresh zeroed buffer of the output length, left as `Layout` describes under the lead-out rule |
| `Render.MixWithTarget` | src/steps/render.rs:48-57 | one mixed sample per buffer sample, paired with the target sample at the same index |
| `Render.Render` | src/steps/render.rs:6-70 | the samples written are the normalised mix of the buffer laid out under the lead-out rule, one per output sample |
| `Render.LayoutUntouchedBefore` | src/steps/render.rs:31-46 | no earlier iteration reaches a span's region beyond the lead-out before it |
| `Render.LayoutSettled` | src/steps/render.rs:31-46 | once the cursor has moved more than a crossfade past a sample, later iterations leave it alone |
| `Render.InteriorReproducesPaint` | src/steps/render.rs:31-46 | away from the crossfades, the output at each index is exactly the paint sample its span points at |
| `Render.SeamAfter` | src/steps/render.rs:40-45 | just after a seam, the output is the faded-out paint that followed the earlier span, added to the later span's first samples |
| `Render.SeamBefore` | src/steps/render.rs:36-40 | just before a seam, the output is the earlier span's samples with the faded-in paint that precedes the later span added on top |
| `Render.MatchLengthsSumToTarget` | src/steps/render.rs:24-28 | when the spans are the chunk matcher's, the output buffer is exactly as long as the target |
| `Render.FullChunksRenderable` | src/steps/render.rs:36-45 | full `chunk_size` spans within the paint, the last at least a crossfade long, keep every stamp in bounds |
| `Render.ShortFinalChunkOverruns` | src/steps/render.rs:43-45 | a final span shorter than the crossfade, after a non-empty lead-out, makes the loop index past the buffer's end |
| `Render.MatchesRenderable` | src/steps/render.rs:31-46 | the chunk matcher's output renders in bounds whenever the last chunk is at least a crossfade long, and its length is the target's |
| `Render.IntendedMatchesRenderable` | src/steps/render.rs:31-46 | under the intended rule the chunk matcher's output always renders, however short the last chunk, and its length is the target's |
| `Render.EmptyMatchesRenderNothing` | src/steps/render.rs:28-31 | no spans, no iterations, empty output, under either rule |
| `Tidy.Normalize` | src/steps/tidy.rs:1-19 | the output is as long as the input, and sample `k` is the input sample `k` scaled with the one gain derived from the peak |
| `Tidy.PeakIsZeroOrSample` | src/steps/normalize.rs:2-8 | as written, the peak is 0 or one of the samples |
| `Tidy.PeakOfNonNegativeIsMax` | src/steps/tidy.rs:4-7 | for non-negative samples the peak is their maximum |
| `Tidy.PeakForgetsLouderNegative` | src/steps/tidy.rs:5-6 | as written, a louder negative sample is forgotten once a quieter positive one follows it |
| `Tidy.PeakMagnitude` | src/steps/tidy.rs:2-8 | the largest magnitude of any sample, the peak a gain should be derived from |
| `Tidy.IntendedPeakIsMagnitude` | src/steps/tidy.rs:5-6 | keeping the absolute value finds the largest magnitude whenever no sample is `i16::MIN` |
| `Tidy.WrappedSumIsWrapOfSum` | src/steps/tidy.rs:26-30 | the wrapping running sum of a frame is the two's-complement reduction of its exact sum |
| `Tidy.WrappedSumExact` | src/steps/tidy.rs:26-30 | when the exact frame sum fits in 16 bits, the wrapping running sum ends at it, even if an intermediate sum wrapped |
| `Tidy.TruncDivBrackets` | src/steps/tidy.rs:32 | the division truncates toward zero |
| `Tidy.TruncDivIsSample` | src/steps/tidy.rs:32 | the mean of a frame is a sample |
| `Tidy.FramesLength` | src/steps/tidy.rs:25 | one mono sample per whole frame |
| `Tidy.FramesSnoc` | src/steps/tidy.rs:25-33 | one more frame of input appends its mean to the output |
| `Tidy.FrameAt` | src/steps/tidy.rs:25-33 | mono sample `k` is the mean of input samples `[k*c, k*c + c)`, the channels of one frame |
| `Tidy.FlattenedIsTruncatedMean` | src/steps/tidy.rs:21-33 | without overflow of the running sum, each mono sample is the frame's channel sum divided by the channel count, truncated toward zero |
| `Tidy.Flatten` | src/steps/tidy.rs:21-39 | mono input comes back unchanged; interleaved input gives one mean per frame |
| `Extensions.DivCeil` | src/utils/extensions.rs:134-137 | the least `q` with `q * b >= a` |
| `Extensions.DivFloor` | src/utils/extensions.rs:139-142 | the greatest `q` with `q * b <= a` |
| `Extensions.DivExact` | src/utils/extensions.rs:134-142 | both divisions are exact on multiples of the divisor |
| `Extensions.CeilIsFloorPlusRemainder` | src/utils/extensions.rs:134-142 | ceiling and floor differ by one exactly when the division is inexact |
| `Extensions.GetNumber` | src/utils/extensions.rs:44-59 | `Ok(input)` unchanged iff `min <= input <= max`; otherwise an `InvalidValue` error naming the range |
| `Extensions.GetNumberAcceptsBounds` | src/utils/extensions.rs:51 | both ends of the range are accepted |
| `Extensions.ThrowIfSampleRateMismatch` | src/utils/extensions.rs:120-132 | a `ValueValidation` error iff the sample rates differ; the other fields are ignored |
| `Extensions.LastDot` | src/utils/extensions.rs:37 | finds the last '.' of the file name, or reports that there is none |
| `Extensions.VerifyFileExtension` | src/utils/extensions.rs:33-42 | accepts the name unchanged or refuses it with an `InvalidValue` error |
| `Extensions.VerifyFileExtensionAcceptsWavSuffix` | src/utils/extensions.rs:37-41 | a file name passes iff it is a non-empty stem followed by ".wav", case-sensitively |
| `Extensions.VerifyFileExtensionExamples` | src/utils/extensions.rs:37 | "take.wav" passes; "take", ".wav" and "take.WAV" do not |
| `Extensions.TidySamples` | src/utils/extensions.rs:23-31 | flatten, then normalise exactly when asked; the output has one sample per frame |

## Left out

- WAV reading and writing through hound (`src/steps/render.rs:15-22, 61-67`
  and the readers in `src/utils/extensions.rs:12-21, 61-118`). These are
  foreign library I/O. `Render.Render` returns the samples it would write.
- The console output and the timing: the ETA and realtime report of the
  chunk matcher, the "wrote to output" message and the flattening warning.
  src/debug/stopwatch.rs and src/debug/time_average.rs are not part of this
  model.
- src/main.rs (command-line parsing and orchestration) and src/utils/mod.rs
  (re-exports) are not part of this model. The `chunk_size` bounds 200–10000
  and `search_jump` bounds 1–1000 that main.rs enforces are not needed: the
  model only asks for positive values. The fifth argument that main.rs
  passes to `make_chunk_matches` is ignored.
- `chunk_matching.rs:22` calls `utils::div_floor`, but extensions.rs only
  defines `_div_floor`. The model uses the integer floor division that
  `_div_floor` documents.
- Floating-point arithmetic. The normalisation gain, the crossfade ramps and
  the dry/wet mix are function parameters. The silent-input gain (a division
  by a zero peak) is therefore not modelled either.
- Extensions.DivCeil: modelled as exact integer ceiling division. The source
  goes through `f32`. That is exact for dividends below 2^24, but above
  2^24 the dividend itself is rounded, and the quotient can be off.
- Extensions.DivFloor: modelled as exact integer floor division, for the
  same reason as `DivCeil`.
- Extensions.GetNumber: modelled for integers only. The source is generic
  over any `PartialOrd` type, and main.rs also uses it on `f32`.
- Extensions.VerifyFileExtension: works on the final component of the path,
  as a string. Directory components and non-UTF-8 names are not modelled.
- Render.TailRule: the intended rule clips only the lead-outs. A
  lead-in whose `progress - crossfade_length` wraps is still excluded by
  `LeadInsFit`. That needs a span that does not start at 0 after spans
  adding up to less than the crossfade. The chunk matcher never produces
  one, since every chunk but the last is `chunk_size` long.
- Render.CountOutputSamples: the `usize` sum is unbounded in the model. A
  total past 2^64 samples, which would wrap, is not modelled.
- Panics are preconditions, not error results:
  - `Render.Render` requires `Renderable` and a target at least as long as
    the output. Under `AsWritten` that is `RenderInBounds` (every stamp
    within the buffer). Under `Intended` it is spans within the paint whose
    lead-ins fit.
  - `ChunkMatching.MakeChunkMatches` requires that the search range does not
    underflow.
  - `Tidy.Flatten` and `Extensions.TidySamples` require whole frames.
  - `Crossfade.HeadFade`, `Crossfade.TailFade` and `Crossfade.GenerateFades`
    require the span to end within the samples, or slicing them panics.
- Spans.SampleSpan.PullBack: requires `back <= position`. In a release
  build `position - back` wraps otherwise. No code of the core calls
  `pull_back`, so the wrapped span is not modelled.
- Spans.FromRange: requires `start <= end`. In a release build
  `end - start` wraps otherwise. The core only converts ordered ranges, so
  the wrapped span is not modelled.
- Tidy.TruncDiv: models `(sum as f32 / channels as f32) as i16` as exact
  division truncated toward zero. Both operands are integers below 2^24 in
  magnitude, so `f32` holds them exactly. The quotient `q` is at most 2^15,
  so half an ulp of `q` is below `|sum| / (channels * 2^24)`. That is less
  than `1 / channels`, the least distance from a non-integer quotient to an
  integer. So the one rounding never reaches or crosses an integer, and the
  truncating cast gives the exact truncated quotient.
- Debug builds panic on integer overflow where the model wraps, as a
  release build does.
- The render loop is split into the methods `StampAll`, `StampSpan` and
  `StampIteration`, and the chunk matcher's inner loops into `BestMatch` and
  `SquaredError`. The loop structure and the order of updates are the
  source's.

## Findings

| source | as written | input that shows it | evidently intended | confidence | as-written member | corrected member |
|---|---|---|---|---|---|---|
| src/steps/chunk_matching.rs:22 | scans `div_floor(paint_len, search_jump) - chunk_len` candidates: the chunk length is subtracted from a count of strides rather than from a length of samples | paint of 1000 samples, `search_jump` 10, chunk of 100: no candidate is scanned, although 91 aligned windows fit (the intended range scans the 90 offsets below `paint_len - chunk_len`); with a chunk of 101 the subtraction underflows | scan every aligned offset below `paint_len - chunk_len` (`div_ceil(paint_len - chunk_len, search_jump)` candidates), which is what the written count gives at stride 1 | not executed | `ChunkMatching.AsWrittenSkipsAlignedOffsets` | `ChunkMatching.IntendedMatchIsBestAligned` |
| src/steps/tidy.rs:5-6 | keeps the signed sample after comparing its absolute value (the same at src/steps/normalize.rs:5-6) | samples [-5, 3] leave a peak of 3 instead of 5; samples [-5] leave -5, so the gain turns negative | keep the absolute value, so the peak is the largest magnitude | not executed | `Tidy.PeakForgetsLouderNegative` | `Tidy.IntendedPeakIsMagnitude` |
| src/steps/render.rs:43-45 | stamps the lead-out of every span but the last, even when the following spans are shorter than the lead-out | with the default `chunk_size` 500 the crossfade is 125; a target of 1001 samples gives a final chunk of 1 sample, and when the paint has more than 125 (at least 126) samples after the second-to-last match, its lead-out of 125 samples runs 124 samples past the output buffer, which panics | clip every lead-out to the room left in the output buffer (`Render.TailRule.Intended`), so the loop stays in bounds for any spans within the paint whose lead-ins fit, and renders the same buffer where the source stays in bounds | not executed | `Render.ShortFinalChunkOverruns` | `Render.IntendedMatchesRenderable` |

Both searches, both peak scans and both lead-out rules are modelled
behind a rule parameter.
`ChunkMatching.MakeChunkMatches`, `Tidy.Normalize`,
`Extensions.TidySamples` and `Render.Render` each take `AsWritten` or
`Intended`, and their contracts hold under either rule.

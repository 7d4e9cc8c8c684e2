/**
 * `render`: lay the matched paint spans end to end into one buffer, adding
 * ("stamping") into it each span's samples, the faded-in lead-in before it
 * and the faded-out lead-out after it, then mix the buffer with the target
 * and normalise it. The sample arithmetic of stamping is `i16 +=`, which
 * wraps in a release build. The floating-point dry/wet mix is abstracted:
 * `mix(wet, dry)` stands for
 * `(wet as f32 * (1 - dry_wet_mix) + dry as f32 * dry_wet_mix) as i16`.
 * Writing the WAV file is left out; the model returns the samples written.
 */
module Render {
  import opened Ints
  import opened Spans
  import Crossfade
  import Tidy
  import ChunkMatching

  // ---------------------------------------------------------------------
  // Output length and the write cursor

  /** Total length of the matched spans, summed front to back. */
  function SumLengths(matches: seq<SampleSpan>): nat
    decreases |matches|
  {
    if matches == [] then 0
    else SumLengths(matches[..|matches| - 1]) + matches[|matches| - 1].Length()
  }

  /** `count_number_of_output_samples`. */
  method CountOutputSamples(chunks: seq<SampleSpan>) returns (sum: nat)
    ensures sum == SumLengths(chunks)
  {
    sum := 0;
    for k := 0 to |chunks|
      invariant sum == SumLengths(chunks[..k])
    {
      assert chunks[..k + 1][..k] == chunks[..k];
      sum := sum + chunks[k].Length();
    }
    assert chunks[..|chunks|] == chunks;
  }

  /** The lengths of a prefix add up to no more than the whole. */
  lemma {:induction false} PrefixLengths(matches: seq<SampleSpan>, k: nat)
    requires k <= |matches|
    ensures SumLengths(matches[..k]) <= SumLengths(matches)
    decreases |matches|
  {
    if k < |matches| {
      var n := |matches| - 1;
      PrefixLengths(matches[..n], k);
      assert matches[..n][..k] == matches[..k];
    } else {
      assert matches[..k] == matches;
    }
  }

  /** The value of `progress` when span `k` is reached. */
  function Cursor(matches: seq<SampleSpan>, k: nat): (c: nat)
    requires k <= |matches|
    ensures c <= SumLengths(matches)
    ensures k == 0 ==> c == 0
  {
    PrefixLengths(matches, k);
    SumLengths(matches[..k])
  }

  lemma CursorStep(matches: seq<SampleSpan>, k: nat)
    requires k < |matches|
    ensures Cursor(matches, k + 1) == Cursor(matches, k) + matches[k].length
  {
    assert matches[..k + 1][..k] == matches[..k];
  }

  lemma CursorEnd(matches: seq<SampleSpan>)
    ensures Cursor(matches, |matches|) == SumLengths(matches)
  {
    assert matches[..|matches|] == matches;
  }

  lemma {:induction false} CursorMono(matches: seq<SampleSpan>, j: nat, k: nat)
    requires j <= k <= |matches|
    ensures Cursor(matches, j) <= Cursor(matches, k)
    decreases k
  {
    if j < k {
      CursorMono(matches, j, k - 1);
      CursorStep(matches, k - 1);
    }
  }

  // ---------------------------------------------------------------------
  // Stamping

  /** What `stamp` leaves in `buf`: each sample of `input` added, with
      wrap-around, at its own index from `at` on; every other sample
      unchanged. An empty input touches nothing; a non-empty one must fit,
      or the source indexes past the end. */
  function Stamped(buf: seq<I16>, input: seq<I16>, at: nat): (r: seq<I16>)
    requires |input| == 0 || at + |input| <= |buf|
    ensures |r| == |buf|
    decreases |input|
  {
    if input == [] then buf
    else
      var n := |input| - 1;
      var prev := Stamped(buf, input[..n], at);
      prev[at + n := WrappingAdd16(prev[at + n], input[n])]
  }

  /** Sample `x` after a stamp: the input sample for index `x` added when
      `x` is in the input's range, the old sample otherwise. */
  lemma {:induction false} StampedAt(buf: seq<I16>, input: seq<I16>, at: nat, x: nat)
    requires |input| == 0 || at + |input| <= |buf|
    requires x < |buf|
    ensures Stamped(buf, input, at)[x]
         == if at <= x < at + |input| then WrappingAdd16(buf[x], input[x - at]) else buf[x]
    decreases |input|
  {
    if input != [] {
      var n := |input| - 1;
      StampedAt(buf, input[..n], at, x);
    }
  }

  /** `stamp` on the output buffer in place. */
  method Stamp(out: array<I16>, input: seq<I16>, at: nat)
    requires |input| == 0 || at + |input| <= out.Length
    modifies out
    ensures out[..] == Stamped(old(out[..]), input, at)
  {
    for i := 0 to |input|
      invariant out[..] == Stamped(old(out[..]), input[..i], at)
    {
      assert input[..i + 1][..i] == input[..i];
      out[at + i] := WrappingAdd16(out[at + i], input[i]);
    }
    assert input[..|input|] == input;
  }

  /** The three stamps of one iteration fit the buffer: the span's samples
      at `cursor`; the lead-in, at most a crossfade long, ending no later
      than `cursor` unless this is the first span; the lead-out right after
      the span's samples unless this is the last. A lead-in that is not
      empty needs `cursor >= crossfade`, or `progress - crossfade_length`
      wraps and the stamp indexes past the end. */
  predicate StampsFit(bufLength: nat, head: nat, chunk: nat, tail: nat, crossfade: nat,
                      cursor: nat, first: bool, last: bool)
  {
    head <= crossfade &&
    cursor + chunk <= bufLength &&
    (!first && head > 0 ==> crossfade <= cursor) &&
    (!last && tail > 0 ==> cursor + chunk + tail <= bufLength)
  }

  /** One iteration of the stamping loop, given the span's samples and the
      fades made for it, sample by sample: the lead-in (not for the first
      span) is added from `cursor - crossfade`, then the span's samples from
      `cursor`, then the lead-out (not for the last span) right after them.
      `StampsInOrder` shows this is the three stamps in sequence. */
  function StampMatch(buf: seq<I16>, head: seq<I16>, chunk: seq<I16>, tail: seq<I16>, crossfade: nat,
                      cursor: nat, first: bool, last: bool): (r: seq<I16>)
    requires StampsFit(|buf|, |head|, |chunk|, |tail|, crossfade, cursor, first, last)
    ensures |r| == |buf|
  {
    seq(|buf|, x requires 0 <= x < |buf| => SampleAfterMatch(buf, head, chunk, tail, crossfade, cursor, first, last, x))
  }

  /** Sample `x` after one iteration of the stamping loop. The lead-in
      covers [cursor - crossfade, cursor - crossfade + |head|); when it is
      not empty `StampsFit` keeps `cursor - crossfade` from wrapping. */
  function SampleAfterMatch(buf: seq<I16>, head: seq<I16>, chunk: seq<I16>, tail: seq<I16>, crossfade: nat,
                            cursor: nat, first: bool, last: bool, x: nat): I16
    requires StampsFit(|buf|, |head|, |chunk|, |tail|, crossfade, cursor, first, last) && x < |buf|
  {
    var withHead := if !first && cursor <= x + crossfade < cursor + |head|
                    then WrappingAdd16(buf[x], head[x + crossfade - cursor]) else buf[x];
    var withChunk := if cursor <= x < cursor + |chunk| then WrappingAdd16(withHead, chunk[x - cursor]) else withHead;
    var tailAt := cursor + |chunk|;
    if !last && tailAt <= x < tailAt + |tail| then WrappingAdd16(withChunk, tail[x - tailAt]) else withChunk
  }

  /** `StampMatch` is the lead-in, the span and the lead-out stamped one
      after the other, as the loop body does. */
  lemma StampsInOrder(buf: seq<I16>, head: seq<I16>, chunk: seq<I16>, tail: seq<I16>, crossfade: nat,
                      cursor: nat, first: bool, last: bool)
    requires StampsFit(|buf|, |head|, |chunk|, |tail|, crossfade, cursor, first, last)
    ensures !first ==> |head| == 0 || WrappingSub(cursor, crossfade) + |head| <= |buf|
    ensures var withHead := if first then buf else Stamped(buf, head, WrappingSub(cursor, crossfade));
            var withChunk := Stamped(withHead, chunk, cursor);
            (if last then withChunk else Stamped(withChunk, tail, cursor + |chunk|))
              == StampMatch(buf, head, chunk, tail, crossfade, cursor, first, last)
  {
    var withHead := if first then buf else Stamped(buf, head, WrappingSub(cursor, crossfade));
    var withChunk := Stamped(withHead, chunk, cursor);
    var stamped := if last then withChunk else Stamped(withChunk, tail, cursor + |chunk|);
    forall x | 0 <= x < |buf|
      ensures stamped[x] == StampMatch(buf, head, chunk, tail, crossfade, cursor, first, last)[x]
    {
      StampsInOrderAt(buf, withHead, withChunk, stamped, head, chunk, tail, crossfade, cursor, first, last, x);
    }
  }

  /** `StampsInOrder` at one sample, with the buffer after each stamp named. */
  lemma StampsInOrderAt(buf: seq<I16>, withHead: seq<I16>, withChunk: seq<I16>, stamped: seq<I16>,
                        head: seq<I16>, chunk: seq<I16>, tail: seq<I16>, crossfade: nat,
                        cursor: nat, first: bool, last: bool, x: nat)
    requires StampsFit(|buf|, |head|, |chunk|, |tail|, crossfade, cursor, first, last) && x < |buf|
    requires !first ==> |head| == 0 || WrappingSub(cursor, crossfade) + |head| <= |buf|
    requires withHead == if first then buf else Stamped(buf, head, WrappingSub(cursor, crossfade))
    requires withChunk == Stamped(withHead, chunk, cursor)
    requires stamped == if last then withChunk else Stamped(withChunk, tail, cursor + |chunk|)
    ensures stamped[x] == SampleAfterMatch(buf, head, chunk, tail, crossfade, cursor, first, last, x)
  {
    if !first { StampedAt(buf, head, WrappingSub(cursor, crossfade), x); }
    StampedAt(withHead, chunk, cursor, x);
    if !last { StampedAt(withChunk, tail, cursor + |chunk|, x); }
    StagesCompose(buf, withHead, withChunk, stamped, head, chunk, tail, crossfade, cursor, first, last, x);
  }

  /** The three stages of `SampleAfterMatch`, each given as the sample one
      stamp leaves at `x`, compose to it. */
  lemma StagesCompose(buf: seq<I16>, withHead: seq<I16>, withChunk: seq<I16>, stamped: seq<I16>,
                      head: seq<I16>, chunk: seq<I16>, tail: seq<I16>, crossfade: nat,
                      cursor: nat, first: bool, last: bool, x: nat)
    requires StampsFit(|buf|, |head|, |chunk|, |tail|, crossfade, cursor, first, last) && x < |buf|
    requires x < |withHead| && x < |withChunk| && x < |stamped|
    requires withHead[x] == if !first && WrappingSub(cursor, crossfade) <= x < WrappingSub(cursor, crossfade) + |head|
                            then WrappingAdd16(buf[x], head[x - WrappingSub(cursor, crossfade)]) else buf[x]
    requires withChunk[x] == if cursor <= x < cursor + |chunk|
                             then WrappingAdd16(withHead[x], chunk[x - cursor]) else withHead[x]
    requires stamped[x] == if !last && cursor + |chunk| <= x < cursor + |chunk| + |tail|
                           then WrappingAdd16(withChunk[x], tail[x - (cursor + |chunk|)]) else withChunk[x]
    ensures stamped[x] == SampleAfterMatch(buf, head, chunk, tail, crossfade, cursor, first, last, x)
  {
  }

  /** Within its own region a span's samples are added once, and nothing
      else of this iteration lands there. */
  lemma StampMatchOwn(buf: seq<I16>, head: seq<I16>, chunk: seq<I16>, tail: seq<I16>, crossfade: nat,
                      cursor: nat, first: bool, last: bool, x: nat)
    requires StampsFit(|buf|, |head|, |chunk|, |tail|, crossfade, cursor, first, last)
    requires cursor <= x < cursor + |chunk|
    ensures StampMatch(buf, head, chunk, tail, crossfade, cursor, first, last)[x]
         == WrappingAdd16(buf[x], chunk[x - cursor])
  {
  }

  /** Past the lead-out (or past the span, for the last one) nothing changes. */
  lemma StampMatchAbove(buf: seq<I16>, head: seq<I16>, chunk: seq<I16>, tail: seq<I16>, crossfade: nat,
                        cursor: nat, first: bool, last: bool, x: nat)
    requires StampsFit(|buf|, |head|, |chunk|, |tail|, crossfade, cursor, first, last)
    requires x < |buf| && cursor + |chunk| + (if last then 0 else |tail|) <= x
    ensures StampMatch(buf, head, chunk, tail, crossfade, cursor, first, last)[x] == buf[x]
  {
  }

  /** Before the lead-in (or before the span, for the first one) nothing
      changes. */
  lemma StampMatchBelow(buf: seq<I16>, head: seq<I16>, chunk: seq<I16>, tail: seq<I16>, crossfade: nat,
                        cursor: nat, first: bool, last: bool, x: nat)
    requires StampsFit(|buf|, |head|, |chunk|, |tail|, crossfade, cursor, first, last)
    requires x < cursor && (!first ==> x + crossfade < cursor)
    ensures StampMatch(buf, head, chunk, tail, crossfade, cursor, first, last)[x] == buf[x]
  {
  }

  /** The lead-in is added from `cursor - crossfade`, whatever its own
      length, and nothing else of this iteration lands there. */
  lemma StampMatchHead(buf: seq<I16>, head: seq<I16>, chunk: seq<I16>, tail: seq<I16>, crossfade: nat,
                       cursor: nat, first: bool, last: bool, x: nat)
    requires StampsFit(|buf|, |head|, |chunk|, |tail|, crossfade, cursor, first, last)
    requires !first && cursor <= x + crossfade < cursor + |head|
    ensures StampMatch(buf, head, chunk, tail, crossfade, cursor, first, last)[x]
         == WrappingAdd16(buf[x], head[x + crossfade - cursor])
  {
  }

  /** The lead-out is added right after the span's samples, and nothing
      else of this iteration lands there. */
  lemma StampMatchTail(buf: seq<I16>, head: seq<I16>, chunk: seq<I16>, tail: seq<I16>, crossfade: nat,
                       cursor: nat, first: bool, last: bool, x: nat)
    requires StampsFit(|buf|, |head|, |chunk|, |tail|, crossfade, cursor, first, last)
    requires !last && cursor + |chunk| <= x < cursor + |chunk| + |tail|
    ensures StampMatch(buf, head, chunk, tail, crossfade, cursor, first, last)[x]
         == WrappingAdd16(buf[x], tail[x - cursor - |chunk|])
  {
  }

  /** One iteration of the stamping loop on the output buffer in place:
      the lead-in (skipped for the first span) ending `crossfade` samples
      after `progress - crossfade_length`, the span's samples at the cursor,
      then the lead-out (skipped for the last span). */
  method StampIteration(out: array<I16>, head: seq<I16>, chunk: seq<I16>, tail: seq<I16>, crossfade: nat,
                        cursor: nat, first: bool, last: bool)
    requires StampsFit(out.Length, |head|, |chunk|, |tail|, crossfade, cursor, first, last)
    modifies out
    ensures out[..] == StampMatch(old(out[..]), head, chunk, tail, crossfade, cursor, first, last)
  {
    StampsInOrder(out[..], head, chunk, tail, crossfade, cursor, first, last);
    if !first {
      Stamp(out, head, WrappingSub(cursor, crossfade));
    }
    Stamp(out, chunk, cursor);
    if !last {
      Stamp(out, tail, cursor + |chunk|);
    }
  }

  // ---------------------------------------------------------------------
  // The laid-out buffer

  /** Span `k` of the list fits where the stamping loop puts it. */
  predicate MatchInBounds(matches: seq<SampleSpan>, paintLength: nat, crossfade: nat, k: nat)
    requires k < |matches|
  {
    matches[k].End() <= paintLength &&
    (k > 0 && Min(matches[k].Start(), crossfade) > 0 ==> crossfade <= Cursor(matches, k)) &&
    (k < |matches| - 1 && Crossfade.TailLength(matches[k].End(), crossfade, paintLength) > 0 ==>
       Cursor(matches, k + 1) + crossfade <= SumLengths(matches))
  }

  /** The stamping loop runs without indexing past either buffer. */
  predicate RenderInBounds(matches: seq<SampleSpan>, paintLength: nat, crossfade: nat) {
    forall k :: 0 <= k < |matches| ==> MatchInBounds(matches, paintLength, crossfade, k)
  }

  /** Every span lies within the paint. */
  predicate WithinPaint(matches: seq<SampleSpan>, paintLength: nat) {
    forall k :: 0 <= k < |matches| ==> matches[k].End() <= paintLength
  }

  lemma InBoundsWithinPaint(matches: seq<SampleSpan>, paintLength: nat, crossfade: nat)
    requires RenderInBounds(matches, paintLength, crossfade)
    ensures WithinPaint(matches, paintLength)
  {
    forall k | 0 <= k < |matches|
      ensures matches[k].End() <= paintLength
    {
      assert MatchInBounds(matches, paintLength, crossfade, k);
    }
  }

  /** The fades of every span, in order, as the loop generates them. */
  function AllFades(matches: seq<SampleSpan>, paint: seq<I16>, crossfade: nat, ramp: Crossfade.Ramp)
    : (fades: seq<(seq<I16>, seq<I16>)>)
    requires WithinPaint(matches, |paint|)
    ensures |fades| == |matches|
    decreases |matches|
  {
    if matches == [] then []
    else
      var n := |matches| - 1;
      assert WithinPaint(matches[..n], |paint|);
      AllFades(matches[..n], paint, crossfade, ramp) + [Crossfade.GenerateFades(paint, matches[n], crossfade, ramp)]
  }

  lemma {:induction false} AllFadesAt(matches: seq<SampleSpan>, paint: seq<I16>, crossfade: nat,
                                      ramp: Crossfade.Ramp, k: nat)
    requires WithinPaint(matches, |paint|) && k < |matches|
    ensures matches[k].End() <= |paint|
    ensures AllFades(matches, paint, crossfade, ramp)[k] == Crossfade.GenerateFades(paint, matches[k], crossfade, ramp)
    decreases |matches|
  {
    var n := |matches| - 1;
    if k < n {
      assert WithinPaint(matches[..n], |paint|);
      AllFadesAt(matches[..n], paint, crossfade, ramp, k);
    }
  }

  /** How the stamping loop treats the lead-out of every span but the last.
      `AsWritten` stamps it whole, as `render` does, which indexes past the
      end of the buffer when the spans after it are shorter than the
      crossfade. `Intended` clips it to the room left in the buffer. */
  datatype TailRule = AsWritten | Intended

  /** The lead-out the loop stamps at `at` into a buffer `bufLength` long:
      a prefix of the generated one, all of it when it fits, and under
      `Intended` exactly as much of it as fits. */
  function LeadOut(rule: TailRule, tail: seq<I16>, at: nat, bufLength: nat): (r: seq<I16>)
    ensures r <= tail
    ensures rule == AsWritten || at + |tail| <= bufLength ==> r == tail
    ensures rule == Intended && at <= bufLength ==> at + |r| == Min(at + |tail|, bufLength)
  {
    if rule == AsWritten || at + |tail| <= bufLength then tail
    else if at <= bufLength then tail[..bufLength - at]
    else []
  }

  /** The lead-out stamped after span `k` under `rule`, at the cursor past
      the span. The last span's lead-out is never stamped and is left as
      generated. */
  function StampedTail(rule: TailRule, matches: seq<SampleSpan>, k: nat, tail: seq<I16>): (r: seq<I16>)
    requires k < |matches|
    ensures r <= tail
    ensures rule == AsWritten ==> r == tail
    ensures rule == Intended && k + 1 < |matches| ==> Cursor(matches, k + 1) + |r| <= SumLengths(matches)
  {
    if k + 1 < |matches| then LeadOut(rule, tail, Cursor(matches, k + 1), SumLengths(matches)) else tail
  }

  /** The fades the stamping loop uses for every span under `rule`. */
  function RuleFades(rule: TailRule, matches: seq<SampleSpan>, paint: seq<I16>, crossfade: nat,
                     ramp: Crossfade.Ramp): (fades: seq<(seq<I16>, seq<I16>)>)
    requires WithinPaint(matches, |paint|)
    ensures |fades| == |matches|
  {
    var all := AllFades(matches, paint, crossfade, ramp);
    if rule == AsWritten then all
    else seq(|matches|, k requires 0 <= k < |matches| => (all[k].0, StampedTail(rule, matches, k, all[k].1)))
  }

  /** Span `k`'s fades under `rule`: the generated lead-in, and the
      generated lead-out as the rule stamps it after the span. */
  lemma RuleFadesAt(rule: TailRule, matches: seq<SampleSpan>, paint: seq<I16>, crossfade: nat,
                    ramp: Crossfade.Ramp, k: nat)
    requires WithinPaint(matches, |paint|) && k < |matches|
    ensures matches[k].End() <= |paint|
    ensures RuleFades(rule, matches, paint, crossfade, ramp)[k].0
         == Crossfade.GenerateFades(paint, matches[k], crossfade, ramp).0
    ensures RuleFades(rule, matches, paint, crossfade, ramp)[k].1
         == StampedTail(rule, matches, k, Crossfade.GenerateFades(paint, matches[k], crossfade, ramp).1)
  {
    AllFadesAt(matches, paint, crossfade, ramp, k);
  }

  /** Every lead-in that is not empty starts at or after sample 0: the
      cursor has passed a whole crossfade when it reaches that span. */
  predicate LeadInsFit(matches: seq<SampleSpan>, crossfade: nat) {
    forall k :: 0 < k < |matches| && Min(matches[k].Start(), crossfade) > 0 ==> crossfade <= Cursor(matches, k)
  }

  /** The stamping loop runs without indexing past either buffer under
      `rule`. Clipping the lead-outs leaves only the spans and the lead-ins
      to fit. */
  predicate Renderable(rule: TailRule, matches: seq<SampleSpan>, paintLength: nat, crossfade: nat) {
    if rule == AsWritten then RenderInBounds(matches, paintLength, crossfade)
    else WithinPaint(matches, paintLength) && LeadInsFit(matches, crossfade)
  }

  /** Renderable spans and the fades the rule stamps for them fit the
      buffer: under `Intended` every list of spans within the paint whose
      lead-ins fit, however short its later spans are. */
  lemma RuleFadesFit(rule: TailRule, matches: seq<SampleSpan>, paint: seq<I16>, crossfade: nat,
                     ramp: Crossfade.Ramp)
    requires Renderable(rule, matches, |paint|, crossfade)
    ensures WithinPaint(matches, |paint|)
    ensures AllFit(matches, |paint|, crossfade, RuleFades(rule, matches, paint, crossfade, ramp))
  {
    if rule == AsWritten {
      AllFadesFit(matches, paint, crossfade, ramp);
    } else {
      var fades := RuleFades(rule, matches, paint, crossfade, ramp);
      forall k | 0 <= k < |matches|
        ensures FitsAt(matches, |paint|, crossfade, fades, k)
      {
        IntendedFitsAt(matches, paint, crossfade, ramp, k);
      }
    }
  }

  lemma IntendedFitsAt(matches: seq<SampleSpan>, paint: seq<I16>, crossfade: nat,
                       ramp: Crossfade.Ramp, k: nat)
    requires Renderable(Intended, matches, |paint|, crossfade) && k < |matches|
    ensures FitsAt(matches, |paint|, crossfade, RuleFades(Intended, matches, paint, crossfade, ramp), k)
  {
    RuleFadesAt(Intended, matches, paint, crossfade, ramp, k);
    CursorStep(matches, k);
    CursorMono(matches, k + 1, |matches|);
    CursorEnd(matches);
  }

  /** Where the source's loop stays in bounds, clipping changes nothing:
      the intended rule renders the same buffer. */
  lemma IntendedAgreesInBounds(matches: seq<SampleSpan>, paint: seq<I16>, crossfade: nat,
                               ramp: Crossfade.Ramp)
    requires RenderInBounds(matches, |paint|, crossfade)
    ensures Renderable(Intended, matches, |paint|, crossfade)
    ensures RuleFades(Intended, matches, paint, crossfade, ramp) == AllFades(matches, paint, crossfade, ramp)
    ensures Layout(Intended, matches, paint, crossfade, ramp) == Layout(AsWritten, matches, paint, crossfade, ramp)
  {
    InBoundsWithinPaint(matches, |paint|, crossfade);
    InBoundsLeadInsFit(matches, |paint|, crossfade);
    var all := AllFades(matches, paint, crossfade, ramp);
    var fades := RuleFades(Intended, matches, paint, crossfade, ramp);
    forall k | 0 <= k < |matches|
      ensures fades[k] == all[k]
    {
      IntendedTailInBounds(matches, paint, crossfade, ramp, k);
    }
  }

  lemma InBoundsLeadInsFit(matches: seq<SampleSpan>, paintLength: nat, crossfade: nat)
    requires RenderInBounds(matches, paintLength, crossfade)
    ensures LeadInsFit(matches, crossfade)
  {
    forall k | 0 < k < |matches| && Min(matches[k].Start(), crossfade) > 0
      ensures crossfade <= Cursor(matches, k)
    {
      assert MatchInBounds(matches, paintLength, crossfade, k);
    }
  }

  /** An in-bounds lead-out is stamped whole under the intended rule. */
  lemma IntendedTailInBounds(matches: seq<SampleSpan>, paint: seq<I16>, crossfade: nat,
                             ramp: Crossfade.Ramp, k: nat)
    requires RenderInBounds(matches, |paint|, crossfade) && k < |matches|
    ensures WithinPaint(matches, |paint|)
    ensures RuleFades(Intended, matches, paint, crossfade, ramp)[k] == AllFades(matches, paint, crossfade, ramp)[k]
  {
    InBoundsWithinPaint(matches, |paint|, crossfade);
    assert MatchInBounds(matches, |paint|, crossfade, k);
    AllFadesAt(matches, paint, crossfade, ramp, k);
    CursorStep(matches, k);
  }

  /** Iteration `k` can stamp span `k` and the given fades. */
  predicate FitsAt(matches: seq<SampleSpan>, paintLength: nat, crossfade: nat,
                   fades: seq<(seq<I16>, seq<I16>)>, k: nat)
    requires k < |matches| && |fades| == |matches|
  {
    matches[k].End() <= paintLength && |fades[k].1| <= crossfade &&
    StampsFit(SumLengths(matches), |fades[k].0|, matches[k].length, |fades[k].1|, crossfade,
              Cursor(matches, k), k == 0, k == |matches| - 1)
  }

  predicate AllFit(matches: seq<SampleSpan>, paintLength: nat, crossfade: nat,
                   fades: seq<(seq<I16>, seq<I16>)>)
  {
    |fades| == |matches| &&
    forall k :: 0 <= k < |matches| ==> FitsAt(matches, paintLength, crossfade, fades, k)
  }

  /** In-bounds spans and the fades generated for them fit the buffer. */
  lemma AllFadesFit(matches: seq<SampleSpan>, paint: seq<I16>, crossfade: nat, ramp: Crossfade.Ramp)
    requires RenderInBounds(matches, |paint|, crossfade)
    ensures WithinPaint(matches, |paint|)
    ensures AllFit(matches, |paint|, crossfade, AllFades(matches, paint, crossfade, ramp))
  {
    InBoundsWithinPaint(matches, |paint|, crossfade);
    var fades := AllFades(matches, paint, crossfade, ramp);
    forall k | 0 <= k < |matches|
      ensures FitsAt(matches, |paint|, crossfade, fades, k)
    {
      assert MatchInBounds(matches, |paint|, crossfade, k);
      AllFadesAt(matches, paint, crossfade, ramp, k);
      CursorStep(matches, k);
      CursorMono(matches, k + 1, |matches|);
      CursorEnd(matches);
    }
  }

  /** The buffer after the first `j` iterations of the stamping loop, from
      `vec![0; number_of_samples]`. */
  function LayoutUpTo(matches: seq<SampleSpan>, paint: seq<I16>, crossfade: nat,
                      fades: seq<(seq<I16>, seq<I16>)>, j: nat): (r: seq<I16>)
    requires AllFit(matches, |paint|, crossfade, fades) && j <= |matches|
    ensures |r| == SumLengths(matches)
    decreases j
  {
    if j == 0 then seq<I16>(SumLengths(matches), _ => 0)
    else
      var k := j - 1;
      assert FitsAt(matches, |paint|, crossfade, fades, k);
      StampMatch(LayoutUpTo(matches, paint, crossfade, fades, k), fades[k].0,
                 paint[matches[k].Start()..matches[k].End()], fades[k].1, crossfade,
                 Cursor(matches, k), k == 0, k == |matches| - 1)
  }

  /** Iteration `j` stamps span `j` and its fades over the buffer left by
      the iterations before it. */
  lemma LayoutNext(matches: seq<SampleSpan>, paint: seq<I16>, crossfade: nat,
                   fades: seq<(seq<I16>, seq<I16>)>, j: nat)
    requires AllFit(matches, |paint|, crossfade, fades) && j < |matches|
    ensures matches[j].End() <= |paint|
    ensures StampsFit(SumLengths(matches), |fades[j].0|, matches[j].length, |fades[j].1|, crossfade,
                      Cursor(matches, j), j == 0, j == |matches| - 1)
    ensures LayoutUpTo(matches, paint, crossfade, fades, j + 1)
         == StampMatch(LayoutUpTo(matches, paint, crossfade, fades, j), fades[j].0,
                       paint[matches[j].Start()..matches[j].End()], fades[j].1, crossfade,
                       Cursor(matches, j), j == 0, j == |matches| - 1)
  {
    assert FitsAt(matches, |paint|, crossfade, fades, j);
  }

  /** The buffer when the stamping loop ends, under `rule`. */
  function Layout(rule: TailRule, matches: seq<SampleSpan>, paint: seq<I16>, crossfade: nat,
                  ramp: Crossfade.Ramp): (r: seq<I16>)
    requires Renderable(rule, matches, |paint|, crossfade)
    ensures |r| == SumLengths(matches)
  {
    RuleFadesFit(rule, matches, paint, crossfade, ramp);
    LayoutUpTo(matches, paint, crossfade, RuleFades(rule, matches, paint, crossfade, ramp), |matches|)
  }

  /** The mix loop: one mixed sample per laid-out sample, paired with the
      target sample at the same index. */
  function Mixed(result: seq<I16>, target: seq<I16>, mix: (I16, I16) -> I16): (r: seq<I16>)
    requires |result| <= |target|
    ensures |r| == |result|
  {
    seq<I16>(|result|, k requires 0 <= k < |result| => mix(result[k], target[k]))
  }

  /** The stamping loop of `render`: a zeroed buffer of the output length,
      and one iteration per span, the cursor advancing by the span's length. */
  method StampAll(rule: TailRule, matches: seq<SampleSpan>, paint: seq<I16>, crossfadeLength: nat,
                  ramp: Crossfade.Ramp)
    returns (result: array<I16>)
    requires Renderable(rule, matches, |paint|, crossfadeLength)
    ensures fresh(result)
    ensures result[..] == Layout(rule, matches, paint, crossfadeLength, ramp)
  {
    var numberOfSamples := CountOutputSamples(matches);
    RuleFadesFit(rule, matches, paint, crossfadeLength, ramp);
    ghost var allFades := RuleFades(rule, matches, paint, crossfadeLength, ramp);
    result := new I16[numberOfSamples](_ => 0);
    var progress: nat := 0;
    for i := 0 to |matches|
      invariant progress == Cursor(matches, i)
      invariant result[..] == LayoutUpTo(matches, paint, crossfadeLength, allFades, i)
    {
      RuleFadesAt(rule, matches, paint, crossfadeLength, ramp, i);
      progress := StampSpan(result, rule, matches, paint, crossfadeLength, ramp, allFades, i, progress);
    }
  }

  /** One step of the stamping loop, in the loop body's own terms: the
      cursor moves past span `i`, and stamping the span's samples, its
      lead-in and the lead-out the rule keeps at `progress` fits the buffer
      and gives the layout after `i + 1` iterations. */
  lemma StampSpanStep(rule: TailRule, matches: seq<SampleSpan>, paint: seq<I16>, crossfadeLength: nat,
                      allFades: seq<(seq<I16>, seq<I16>)>, i: nat, progress: nat, next: nat, bufLength: nat,
                      chunkSamples: seq<I16>, head: seq<I16>, generated: seq<I16>, tail: seq<I16>)
    requires AllFit(matches, |paint|, crossfadeLength, allFades) && i < |matches|
    requires matches[i].End() <= |paint|
    requires chunkSamples == paint[matches[i].Start()..matches[i].End()]
    requires head == allFades[i].0 && allFades[i].1 == StampedTail(rule, matches, i, generated)
    requires progress == Cursor(matches, i) && next == progress + |chunkSamples|
    requires bufLength == SumLengths(matches)
    requires tail == if i < |matches| - 1 then LeadOut(rule, generated, next, bufLength) else generated
    ensures next == Cursor(matches, i + 1)
    ensures StampsFit(bufLength, |head|, |chunkSamples|, |tail|, crossfadeLength, progress, i == 0, i == |matches| - 1)
    ensures LayoutUpTo(matches, paint, crossfadeLength, allFades, i + 1)
         == StampMatch(LayoutUpTo(matches, paint, crossfadeLength, allFades, i), head, chunkSamples, tail,
                       crossfadeLength, progress, i == 0, i == |matches| - 1)
  {
    CursorStep(matches, i);
    assert tail == allFades[i].1;
    LayoutNext(matches, paint, crossfadeLength, allFades, i);
  }

  /** The body of the stamping loop for span `i`: the span's samples and
      fades are stamped at `progress`, which then moves past the span. The
      lead-out is stamped as the rule keeps it. */
  method StampSpan(result: array<I16>, rule: TailRule, matches: seq<SampleSpan>, paint: seq<I16>,
                   crossfadeLength: nat, ramp: Crossfade.Ramp, ghost allFades: seq<(seq<I16>, seq<I16>)>,
                   i: nat, progress: nat)
    returns (next: nat)
    requires AllFit(matches, |paint|, crossfadeLength, allFades) && i < |matches|
    requires matches[i].End() <= |paint|
    requires allFades[i].0 == Crossfade.GenerateFades(paint, matches[i], crossfadeLength, ramp).0
    requires allFades[i].1
          == StampedTail(rule, matches, i, Crossfade.GenerateFades(paint, matches[i], crossfadeLength, ramp).1)
    requires progress == Cursor(matches, i)
    requires result[..] == LayoutUpTo(matches, paint, crossfadeLength, allFades, i)
    modifies result
    ensures next == Cursor(matches, i + 1)
    ensures result[..] == LayoutUpTo(matches, paint, crossfadeLength, allFades, i + 1)
  {
    var chunk := matches[i];
    var range := chunk.Range();
    var chunkSamples := paint[range.start..range.end];
    var fades := Crossfade.GenerateFades(paint, chunk, crossfadeLength, ramp);
    next := progress + |chunkSamples|;
    var tail := if i < |matches| - 1 then LeadOut(rule, fades.1, next, result.Length) else fades.1;
    StampSpanStep(rule, matches, paint, crossfadeLength, allFades, i, progress, next, result.Length,
                  chunkSamples, fades.0, fades.1, tail);
    StampIteration(result, fades.0, chunkSamples, tail, crossfadeLength, progress, i == 0, i == |matches| - 1);
  }

  /** The mix loop of `render`. */
  method MixWithTarget(result: array<I16>, target: seq<I16>, mix: (I16, I16) -> I16)
    returns (mixedResult: seq<I16>)
    requires result.Length <= |target|
    ensures mixedResult == Mixed(result[..], target, mix)
  {
    mixedResult := [];
    for i := 0 to result.Length
      invariant |mixedResult| == i
      invariant forall k :: 0 <= k < i ==> mixedResult[k] == mix(result[k], target[k])
    {
      mixedResult := mixedResult + [mix(result[i], target[i])];
    }
  }

  /** `render`, less the WAV writer. `target` must be at least as long as
      the output, or the mix loop indexes past its end. */
  method Render(matches: seq<SampleSpan>, target: seq<I16>, paint: seq<I16>, chunkSize: nat,
                ramp: Crossfade.Ramp, mix: (I16, I16) -> I16, scale: (I16, I16) -> I16,
                tailRule: TailRule, peakRule: Tidy.PeakRule)
    returns (written: seq<I16>)
    requires Renderable(tailRule, matches, |paint|, chunkSize / 4)
    requires SumLengths(matches) <= |target|
    ensures |written| == SumLengths(matches)
    ensures written == Tidy.Normalized(Mixed(Layout(tailRule, matches, paint, chunkSize / 4, ramp), target, mix),
                                       scale, peakRule)
  {
    var result := StampAll(tailRule, matches, paint, chunkSize / 4, ramp);
    var mixedResult := MixWithTarget(result, target, mix);
    written := Tidy.Normalize(mixedResult, scale, peakRule);
  }

  // ---------------------------------------------------------------------
  // What the laid-out buffer holds

  /** Iteration `j` adds span `j`'s paint samples over its own region. */
  lemma LayoutStepOwn(matches: seq<SampleSpan>, paint: seq<I16>, crossfade: nat,
                      fades: seq<(seq<I16>, seq<I16>)>, j: nat, x: nat)
    requires AllFit(matches, |paint|, crossfade, fades) && j < |matches|
    requires Cursor(matches, j) <= x < Cursor(matches, j) + matches[j].length
    ensures x < SumLengths(matches) && matches[j].Start() + x - Cursor(matches, j) < |paint|
    ensures LayoutUpTo(matches, paint, crossfade, fades, j + 1)[x]
         == WrappingAdd16(LayoutUpTo(matches, paint, crossfade, fades, j)[x],
                          paint[matches[j].Start() + x - Cursor(matches, j)])
  {
    LayoutNext(matches, paint, crossfade, fades, j);
    var chunk := paint[matches[j].Start()..matches[j].End()];
    assert chunk[x - Cursor(matches, j)] == paint[matches[j].Start() + x - Cursor(matches, j)];
    StampMatchOwn(LayoutUpTo(matches, paint, crossfade, fades, j), fades[j].0, chunk, fades[j].1,
                  crossfade, Cursor(matches, j), j == 0, j == |matches| - 1, x);
  }

  /** Iteration `j` changes nothing past the span's lead-out (past the span
      itself, for the last one). */
  lemma LayoutStepAbove(matches: seq<SampleSpan>, paint: seq<I16>, crossfade: nat,
                        fades: seq<(seq<I16>, seq<I16>)>, j: nat, x: nat)
    requires AllFit(matches, |paint|, crossfade, fades) && j < |matches|
    requires Cursor(matches, j) + matches[j].length + (if j == |matches| - 1 then 0 else crossfade) <= x
    requires x < SumLengths(matches)
    ensures LayoutUpTo(matches, paint, crossfade, fades, j + 1)[x]
         == LayoutUpTo(matches, paint, crossfade, fades, j)[x]
  {
    assert FitsAt(matches, |paint|, crossfade, fades, j);
    StampMatchAbove(LayoutUpTo(matches, paint, crossfade, fades, j), fades[j].0,
                    paint[matches[j].Start()..matches[j].End()], fades[j].1, crossfade,
                    Cursor(matches, j), j == 0, j == |matches| - 1, x);
  }

  /** Iteration `j` changes nothing before the span's lead-in (before the
      span itself, for the first one). */
  lemma LayoutStepBelow(matches: seq<SampleSpan>, paint: seq<I16>, crossfade: nat,
                        fades: seq<(seq<I16>, seq<I16>)>, j: nat, x: nat)
    requires AllFit(matches, |paint|, crossfade, fades) && j < |matches|
    requires x < Cursor(matches, j) && (j > 0 ==> x + crossfade < Cursor(matches, j))
    ensures LayoutUpTo(matches, paint, crossfade, fades, j + 1)[x]
         == LayoutUpTo(matches, paint, crossfade, fades, j)[x]
  {
    assert FitsAt(matches, |paint|, crossfade, fades, j);
    StampMatchBelow(LayoutUpTo(matches, paint, crossfade, fades, j), fades[j].0,
                    paint[matches[j].Start()..matches[j].End()], fades[j].1, crossfade,
                    Cursor(matches, j), j == 0, j == |matches| - 1, x);
  }

  /** Iteration `j` adds the span's lead-in from `cursor - crossfade` on. */
  lemma LayoutStepHead(matches: seq<SampleSpan>, paint: seq<I16>, crossfade: nat,
                       fades: seq<(seq<I16>, seq<I16>)>, j: nat, x: nat)
    requires AllFit(matches, |paint|, crossfade, fades) && 0 < j < |matches|
    requires Cursor(matches, j) <= x + crossfade < Cursor(matches, j) + |fades[j].0|
    ensures x < SumLengths(matches)
    ensures LayoutUpTo(matches, paint, crossfade, fades, j + 1)[x]
         == WrappingAdd16(LayoutUpTo(matches, paint, crossfade, fades, j)[x],
                          fades[j].0[x + crossfade - Cursor(matches, j)])
  {
    assert FitsAt(matches, |paint|, crossfade, fades, j);
    StampMatchHead(LayoutUpTo(matches, paint, crossfade, fades, j), fades[j].0,
                   paint[matches[j].Start()..matches[j].End()], fades[j].1, crossfade,
                   Cursor(matches, j), j == 0, j == |matches| - 1, x);
  }

  /** Iteration `j` adds the span's lead-out right after the span. */
  lemma LayoutStepTail(matches: seq<SampleSpan>, paint: seq<I16>, crossfade: nat,
                       fades: seq<(seq<I16>, seq<I16>)>, j: nat, x: nat)
    requires AllFit(matches, |paint|, crossfade, fades) && j < |matches| - 1
    requires Cursor(matches, j + 1) <= x < Cursor(matches, j + 1) + |fades[j].1|
    ensures x < SumLengths(matches)
    ensures LayoutUpTo(matches, paint, crossfade, fades, j + 1)[x]
         == WrappingAdd16(LayoutUpTo(matches, paint, crossfade, fades, j)[x],
                          fades[j].1[x - Cursor(matches, j + 1)])
  {
    LayoutNext(matches, paint, crossfade, fades, j);
    CursorStep(matches, j);
    var chunk := paint[matches[j].Start()..matches[j].End()];
    assert x - Cursor(matches, j) - |chunk| == x - Cursor(matches, j + 1);
    StampMatchTail(LayoutUpTo(matches, paint, crossfade, fades, j), fades[j].0, chunk, fades[j].1,
                   crossfade, Cursor(matches, j), j == 0, j == |matches| - 1, x);
  }

  /** No iteration before span `k`'s reaches past that span's start, beyond
      the reach of the lead-out before it. */
  lemma {:induction false} LayoutUntouchedBefore(matches: seq<SampleSpan>, paint: seq<I16>, crossfade: nat,
                                                 fades: seq<(seq<I16>, seq<I16>)>, k: nat, x: nat, j: nat)
    requires AllFit(matches, |paint|, crossfade, fades) && k < |matches| && j <= k
    requires Cursor(matches, k) <= x < SumLengths(matches)
    requires k > 0 ==> Cursor(matches, k) + crossfade <= x
    ensures LayoutUpTo(matches, paint, crossfade, fades, j)[x] == 0
    decreases j
  {
    if j > 0 {
      var i := j - 1;
      LayoutUntouchedBefore(matches, paint, crossfade, fades, k, x, i);
      CursorStep(matches, i);
      CursorMono(matches, i + 1, k);
      LayoutStepAbove(matches, paint, crossfade, fades, i, x);
      assert i + 1 == j;
    }
  }

  /** Once the iterations have moved more than a crossfade past a sample,
      it no longer changes. */
  lemma {:induction false} LayoutSettled(matches: seq<SampleSpan>, paint: seq<I16>, crossfade: nat,
                                         fades: seq<(seq<I16>, seq<I16>)>, x: nat, j: nat, j': nat)
    requires AllFit(matches, |paint|, crossfade, fades) && j <= j' <= |matches|
    requires x < SumLengths(matches)
    requires j < j' ==> x < Cursor(matches, j) && (j > 0 ==> x + crossfade < Cursor(matches, j))
    ensures LayoutUpTo(matches, paint, crossfade, fades, j')[x]
         == LayoutUpTo(matches, paint, crossfade, fades, j)[x]
    decreases j' - j
  {
    if j < j' {
      LayoutStepBelow(matches, paint, crossfade, fades, j, x);
      CursorStep(matches, j);
      LayoutSettled(matches, paint, crossfade, fades, x, j + 1, j');
    }
  }

  /** Away from the crossfades, the output reproduces the matched paint
      exactly: sample `x` of span `k`'s region, at least a crossfade past
      its start (unless it is the first span) and more than a crossfade
      before its end (unless it is the last), is the paint sample the span
      points at. */
  lemma InteriorReproducesPaint(matches: seq<SampleSpan>, paint: seq<I16>, crossfade: nat,
                                  ramp: Crossfade.Ramp, k: nat, x: nat)
    requires RenderInBounds(matches, |paint|, crossfade) && k < |matches|
    requires Cursor(matches, k) <= x < Cursor(matches, k + 1)
    requires k > 0 ==> Cursor(matches, k) + crossfade <= x
    requires k < |matches| - 1 ==> x + crossfade < Cursor(matches, k + 1)
    ensures x < |Layout(AsWritten, matches, paint, crossfade, ramp)|
    ensures matches[k].Start() + x - Cursor(matches, k) < |paint|
    ensures Layout(AsWritten, matches, paint, crossfade, ramp)[x] == paint[matches[k].Start() + x - Cursor(matches, k)]
  {
    AllFadesFit(matches, paint, crossfade, ramp);
    var fades := AllFades(matches, paint, crossfade, ramp);
    OwnAfterStep(matches, paint, crossfade, fades, k, x);
    LayoutSettled(matches, paint, crossfade, fades, x, k + 1, |matches|);
  }

  /** Just after the seam between spans `k` and `k + 1`, the output is the
      samples that followed span `k` in the paint, faded out, added to the
      first samples of span `k + 1`: the lead-out of span `k` overlaps the
      start of span `k + 1`. Sample `x` is the `i`-th after the seam. */
  lemma SeamAfter(matches: seq<SampleSpan>, paint: seq<I16>, crossfade: nat,
                  ramp: Crossfade.Ramp, k: nat, x: nat, i: nat)
    requires RenderInBounds(matches, |paint|, crossfade) && k + 1 < |matches|
    requires x == Cursor(matches, k + 1) + i && x < Cursor(matches, k + 2)
    requires i < Crossfade.TailLength(matches[k].End(), crossfade, |paint|)
    requires k > 0 ==> Cursor(matches, k) + crossfade <= x
    requires k + 2 < |matches| ==> x + crossfade < Cursor(matches, k + 2)
    ensures x < |Layout(AsWritten, matches, paint, crossfade, ramp)|
    ensures matches[k].End() + i < |paint| && matches[k + 1].Start() + i < |paint|
    ensures Layout(AsWritten, matches, paint, crossfade, ramp)[x]
         == WrappingAdd16(ramp.fadeOut(paint[matches[k].End() + i], i, crossfade),
                          paint[matches[k + 1].Start() + i])
  {
    InBoundsWithinPaint(matches, |paint|, crossfade);
    TailOfAllFades(matches, paint, crossfade, ramp, k, i);
    LaidOutAfterSeam(matches, paint, crossfade, ramp, k, x, i);
  }

  /** `SeamAfter` in terms of the generated lead-out. */
  lemma LaidOutAfterSeam(matches: seq<SampleSpan>, paint: seq<I16>, crossfade: nat,
                         ramp: Crossfade.Ramp, k: nat, x: nat, i: nat)
    requires RenderInBounds(matches, |paint|, crossfade) && k + 1 < |matches|
    requires x == Cursor(matches, k + 1) + i && x < Cursor(matches, k + 2)
    requires i < Crossfade.TailLength(matches[k].End(), crossfade, |paint|)
    requires k > 0 ==> Cursor(matches, k) + crossfade <= x
    requires k + 2 < |matches| ==> x + crossfade < Cursor(matches, k + 2)
    ensures WithinPaint(matches, |paint|)
    ensures x < |Layout(AsWritten, matches, paint, crossfade, ramp)|
    ensures matches[k + 1].Start() + i < |paint|
    ensures i < |AllFades(matches, paint, crossfade, ramp)[k].1|
    ensures Layout(AsWritten, matches, paint, crossfade, ramp)[x]
         == WrappingAdd16(AllFades(matches, paint, crossfade, ramp)[k].1[i], paint[matches[k + 1].Start() + i])
  {
    LayoutIsLaidOut(matches, paint, crossfade, ramp);
    TailOfAllFades(matches, paint, crossfade, ramp, k, i);
    LaidAfterSeam(matches, paint, crossfade, AllFades(matches, paint, crossfade, ramp), k, x, i);
  }

  /** `Layout` is the stamping of all the generated fades. */
  lemma LayoutIsLaidOut(matches: seq<SampleSpan>, paint: seq<I16>, crossfade: nat, ramp: Crossfade.Ramp)
    requires RenderInBounds(matches, |paint|, crossfade)
    ensures WithinPaint(matches, |paint|)
    ensures AllFit(matches, |paint|, crossfade, AllFades(matches, paint, crossfade, ramp))
    ensures Layout(AsWritten, matches, paint, crossfade, ramp)
         == LayoutUpTo(matches, paint, crossfade, AllFades(matches, paint, crossfade, ramp), |matches|)
  {
    AllFadesFit(matches, paint, crossfade, ramp);
  }

  /** Sample `i` of span `k`'s generated lead-out. */
  lemma TailOfAllFades(matches: seq<SampleSpan>, paint: seq<I16>, crossfade: nat, ramp: Crossfade.Ramp,
                       k: nat, i: nat)
    requires WithinPaint(matches, |paint|) && k < |matches|
    requires i < Crossfade.TailLength(matches[k].End(), crossfade, |paint|)
    ensures matches[k].End() + i < |paint|
    ensures |AllFades(matches, paint, crossfade, ramp)[k].1| == crossfade
    ensures AllFades(matches, paint, crossfade, ramp)[k].1[i]
         == ramp.fadeOut(paint[matches[k].End() + i], i, crossfade)
  {
    AllFadesAt(matches, paint, crossfade, ramp, k);
    assert AllFades(matches, paint, crossfade, ramp)[k].1 == Crossfade.TailFade(paint, matches[k], crossfade, ramp);
    Crossfade.TailSample(paint, matches[k], crossfade, ramp, i);
  }

  /** Sample `i` of span `k`'s generated lead-in. */
  lemma HeadOfAllFades(matches: seq<SampleSpan>, paint: seq<I16>, crossfade: nat, ramp: Crossfade.Ramp,
                       k: nat, i: nat)
    requires WithinPaint(matches, |paint|) && k < |matches|
    requires i < Min(matches[k].Start(), crossfade)
    ensures matches[k].Start() - Min(matches[k].Start(), crossfade) + i < |paint|
    ensures |AllFades(matches, paint, crossfade, ramp)[k].0| == Min(matches[k].Start(), crossfade)
    ensures AllFades(matches, paint, crossfade, ramp)[k].0[i]
         == ramp.fadeIn(paint[matches[k].Start() - Min(matches[k].Start(), crossfade) + i], i,
                        Min(matches[k].Start(), crossfade))
  {
    AllFadesAt(matches, paint, crossfade, ramp, k);
    assert AllFades(matches, paint, crossfade, ramp)[k].0 == Crossfade.HeadFade(paint, matches[k], crossfade, ramp);
    Crossfade.HeadSample(paint, matches[k], crossfade, ramp, i);
  }

  /** `SeamAfter` for any fades that fit. */
  lemma LaidAfterSeam(matches: seq<SampleSpan>, paint: seq<I16>, crossfade: nat,
                      fades: seq<(seq<I16>, seq<I16>)>, k: nat, x: nat, i: nat)
    requires AllFit(matches, |paint|, crossfade, fades) && k + 1 < |matches|
    requires x == Cursor(matches, k + 1) + i && x < Cursor(matches, k + 2)
    requires i < |fades[k].1|
    requires k > 0 ==> Cursor(matches, k) + crossfade <= x
    requires k + 2 < |matches| ==> x + crossfade < Cursor(matches, k + 2)
    ensures x < SumLengths(matches) && matches[k + 1].Start() + i < |paint|
    ensures LayoutUpTo(matches, paint, crossfade, fades, |matches|)[x]
         == WrappingAdd16(fades[k].1[i], paint[matches[k + 1].Start() + i])
  {
    OwnOverTail(matches, paint, crossfade, fades, k, x, i);
    LayoutSettled(matches, paint, crossfade, fades, x, k + 2, |matches|);
  }

  /** After iteration `k + 1`, a sample of span `k + 1`'s region in reach of
      span `k`'s lead-out holds the two added together. */
  lemma OwnOverTail(matches: seq<SampleSpan>, paint: seq<I16>, crossfade: nat,
                    fades: seq<(seq<I16>, seq<I16>)>, k: nat, x: nat, i: nat)
    requires AllFit(matches, |paint|, crossfade, fades) && k + 1 < |matches|
    requires x == Cursor(matches, k + 1) + i && x < Cursor(matches, k + 2)
    requires i < |fades[k].1|
    requires k > 0 ==> Cursor(matches, k) + crossfade <= x
    ensures x < SumLengths(matches) && matches[k + 1].Start() + i < |paint|
    ensures LayoutUpTo(matches, paint, crossfade, fades, k + 2)[x]
         == WrappingAdd16(fades[k].1[i], paint[matches[k + 1].Start() + i])
  {
    var j, v := k + 1, fades[k].1[i];
    assert x < SumLengths(matches) && LayoutUpTo(matches, paint, crossfade, fades, j)[x] == v by {
      TailOverUntouched(matches, paint, crossfade, fades, k, x, i);
    }
    OwnOver(matches, paint, crossfade, fades, j, x, v);
    assert x - Cursor(matches, j) == i;
  }

  /** Iteration `j` adds span `j`'s paint sample to whatever the sample
      held before it. */
  lemma OwnOver(matches: seq<SampleSpan>, paint: seq<I16>, crossfade: nat,
                fades: seq<(seq<I16>, seq<I16>)>, j: nat, x: nat, v: I16)
    requires AllFit(matches, |paint|, crossfade, fades) && j < |matches|
    requires Cursor(matches, j) <= x < Cursor(matches, j + 1)
    requires x < SumLengths(matches) && LayoutUpTo(matches, paint, crossfade, fades, j)[x] == v
    ensures matches[j].Start() + (x - Cursor(matches, j)) < |paint|
    ensures LayoutUpTo(matches, paint, crossfade, fades, j + 1)[x]
         == WrappingAdd16(v, paint[matches[j].Start() + (x - Cursor(matches, j))])
  {
    CursorStep(matches, j);
    LayoutStepOwn(matches, paint, crossfade, fades, j, x);
  }

  /** After iteration `k`, a sample past span `k` within its lead-out holds
      the lead-out sample alone. */
  lemma TailOverUntouched(matches: seq<SampleSpan>, paint: seq<I16>, crossfade: nat,
                          fades: seq<(seq<I16>, seq<I16>)>, k: nat, x: nat, i: nat)
    requires AllFit(matches, |paint|, crossfade, fades) && k + 1 < |matches|
    requires x == Cursor(matches, k + 1) + i && x < Cursor(matches, k + 2)
    requires i < |fades[k].1|
    requires k > 0 ==> Cursor(matches, k) + crossfade <= x
    ensures x < SumLengths(matches)
    ensures LayoutUpTo(matches, paint, crossfade, fades, k + 1)[x] == fades[k].1[i]
  {
    CursorStep(matches, k);
    CursorStep(matches, k + 1);
    CursorEnd(matches);
    CursorMono(matches, k + 2, |matches|);
    assert x - Cursor(matches, k + 1) == i;
    LayoutUntouchedBefore(matches, paint, crossfade, fades, k, x, k);
    LayoutStepTail(matches, paint, crossfade, fades, k, x);
  }

  /** Just before the seam between spans `k - 1` and `k`, from
      `crossfade` samples before it, the output is span `k - 1`'s samples
      with the samples that precede span `k` in the paint, faded in, added
      on top; sample `x` is the `i`-th of that stretch. A lead-in shorter
      than the crossfade (a span starting near the paint's start) still
      begins `crossfade` samples before the seam, so it stops short of it. */
  lemma SeamBefore(matches: seq<SampleSpan>, paint: seq<I16>, crossfade: nat,
                   ramp: Crossfade.Ramp, k: nat, x: nat, i: nat)
    requires RenderInBounds(matches, |paint|, crossfade) && 0 < k < |matches|
    requires x + crossfade == Cursor(matches, k) + i && i < Min(matches[k].Start(), crossfade)
    requires Cursor(matches, k - 1) <= x
    requires k > 1 ==> Cursor(matches, k - 1) + crossfade <= x
    requires k + 1 < |matches| ==> x + crossfade < Cursor(matches, k + 1)
    ensures x < |Layout(AsWritten, matches, paint, crossfade, ramp)|
    ensures x < Cursor(matches, k) && matches[k - 1].Start() + (x - Cursor(matches, k - 1)) < |paint|
    ensures matches[k].Start() - Min(matches[k].Start(), crossfade) + i < |paint|
    ensures Layout(AsWritten, matches, paint, crossfade, ramp)[x]
         == WrappingAdd16(paint[matches[k - 1].Start() + (x - Cursor(matches, k - 1))],
                          ramp.fadeIn(paint[matches[k].Start() - Min(matches[k].Start(), crossfade) + i],
                                      i, Min(matches[k].Start(), crossfade)))
  {
    InBoundsWithinPaint(matches, |paint|, crossfade);
    HeadOfAllFades(matches, paint, crossfade, ramp, k, i);
    LaidOutBeforeSeam(matches, paint, crossfade, ramp, k, x, i);
  }

  /** `SeamBefore` in terms of the generated lead-in. */
  lemma LaidOutBeforeSeam(matches: seq<SampleSpan>, paint: seq<I16>, crossfade: nat,
                          ramp: Crossfade.Ramp, k: nat, x: nat, i: nat)
    requires RenderInBounds(matches, |paint|, crossfade) && 0 < k < |matches|
    requires x + crossfade == Cursor(matches, k) + i && i < Min(matches[k].Start(), crossfade)
    requires Cursor(matches, k - 1) <= x
    requires k > 1 ==> Cursor(matches, k - 1) + crossfade <= x
    requires k + 1 < |matches| ==> x + crossfade < Cursor(matches, k + 1)
    ensures WithinPaint(matches, |paint|)
    ensures x < |Layout(AsWritten, matches, paint, crossfade, ramp)|
    ensures x < Cursor(matches, k) && matches[k - 1].Start() + (x - Cursor(matches, k - 1)) < |paint|
    ensures i < |AllFades(matches, paint, crossfade, ramp)[k].0|
    ensures Layout(AsWritten, matches, paint, crossfade, ramp)[x]
         == WrappingAdd16(paint[matches[k - 1].Start() + (x - Cursor(matches, k - 1))],
                          AllFades(matches, paint, crossfade, ramp)[k].0[i])
  {
    LayoutIsLaidOut(matches, paint, crossfade, ramp);
    HeadOfAllFades(matches, paint, crossfade, ramp, k, i);
    LaidBeforeSeam(matches, paint, crossfade, AllFades(matches, paint, crossfade, ramp), k, x, i);
  }

  /** `SeamBefore` for any fades that fit. */
  lemma LaidBeforeSeam(matches: seq<SampleSpan>, paint: seq<I16>, crossfade: nat,
                       fades: seq<(seq<I16>, seq<I16>)>, k: nat, x: nat, i: nat)
    requires AllFit(matches, |paint|, crossfade, fades) && 0 < k < |matches|
    requires x + crossfade == Cursor(matches, k) + i && i < |fades[k].0|
    requires Cursor(matches, k - 1) <= x
    requires k > 1 ==> Cursor(matches, k - 1) + crossfade <= x
    requires k + 1 < |matches| ==> x + crossfade < Cursor(matches, k + 1)
    ensures x < SumLengths(matches)
    ensures x < Cursor(matches, k) && matches[k - 1].Start() + (x - Cursor(matches, k - 1)) < |paint|
    ensures LayoutUpTo(matches, paint, crossfade, fades, |matches|)[x]
         == WrappingAdd16(paint[matches[k - 1].Start() + (x - Cursor(matches, k - 1))], fades[k].0[i])
  {
    HeadOverPrevious(matches, paint, crossfade, fades, k, x, i);
    CursorStep(matches, k);
    LayoutSettled(matches, paint, crossfade, fades, x, k + 1, |matches|);
  }

  /** After iteration `k`, a sample of span `k - 1`'s region in reach of
      span `k`'s lead-in, the `i`-th of that lead-in, holds the two added
      together. */
  lemma HeadOverPrevious(matches: seq<SampleSpan>, paint: seq<I16>, crossfade: nat,
                         fades: seq<(seq<I16>, seq<I16>)>, k: nat, x: nat, i: nat)
    requires AllFit(matches, |paint|, crossfade, fades) && 0 < k < |matches|
    requires Cursor(matches, k - 1) <= x
    requires x + crossfade == Cursor(matches, k) + i && i < |fades[k].0|
    requires k > 1 ==> Cursor(matches, k - 1) + crossfade <= x
    ensures x < SumLengths(matches)
    ensures x < Cursor(matches, k) && matches[k - 1].Start() + (x - Cursor(matches, k - 1)) < |paint|
    ensures LayoutUpTo(matches, paint, crossfade, fades, k + 1)[x]
         == WrappingAdd16(paint[matches[k - 1].Start() + (x - Cursor(matches, k - 1))], fades[k].0[i])
  {
    OwnBeforeHead(matches, paint, crossfade, fades, k, x);
    LayoutStepHead(matches, paint, crossfade, fades, k, x);
    assert x + crossfade - Cursor(matches, k) == i;
  }

  /** After iteration `k - 1`, a sample of span `k - 1`'s region past the
      lead-out before it holds that span's paint sample. */
  lemma OwnBeforeHead(matches: seq<SampleSpan>, paint: seq<I16>, crossfade: nat,
                      fades: seq<(seq<I16>, seq<I16>)>, k: nat, x: nat)
    requires AllFit(matches, |paint|, crossfade, fades) && 0 < k < |matches|
    requires Cursor(matches, k - 1) <= x
    requires Cursor(matches, k) <= x + crossfade < Cursor(matches, k) + |fades[k].0|
    requires k > 1 ==> Cursor(matches, k - 1) + crossfade <= x
    ensures x < Cursor(matches, k) && matches[k - 1].Start() + (x - Cursor(matches, k - 1)) < |paint|
    ensures LayoutUpTo(matches, paint, crossfade, fades, k)[x]
         == paint[matches[k - 1].Start() + (x - Cursor(matches, k - 1))]
  {
    assert FitsAt(matches, |paint|, crossfade, fades, k);
    var j := k - 1;
    assert j + 1 == k;
    OwnAfterStep(matches, paint, crossfade, fades, j, x);
  }

  /** After iteration `j`, a sample of span `j`'s region that no earlier
      lead-out reaches holds that span's paint sample. */
  lemma OwnAfterStep(matches: seq<SampleSpan>, paint: seq<I16>, crossfade: nat,
                     fades: seq<(seq<I16>, seq<I16>)>, j: nat, x: nat)
    requires AllFit(matches, |paint|, crossfade, fades) && j < |matches|
    requires Cursor(matches, j) <= x < Cursor(matches, j + 1)
    requires j > 0 ==> Cursor(matches, j) + crossfade <= x
    ensures x < SumLengths(matches) && matches[j].Start() + (x - Cursor(matches, j)) < |paint|
    ensures LayoutUpTo(matches, paint, crossfade, fades, j + 1)[x]
         == paint[matches[j].Start() + (x - Cursor(matches, j))]
  {
    CursorStep(matches, j);
    CursorEnd(matches);
    CursorMono(matches, j + 1, |matches|);
    LayoutUntouchedBefore(matches, paint, crossfade, fades, j, x, j);
    LayoutStepOwn(matches, paint, crossfade, fades, j, x);
  }

  // ---------------------------------------------------------------------
  // The matcher's output and the stamping loop

  /** Spans whose lengths are the chunk lengths add up to the target. */
  lemma {:induction false} LengthsOfChunks(matches: seq<SampleSpan>, chunks: seq<seq<I16>>)
    requires |matches| == |chunks|
    requires forall k :: 0 <= k < |matches| ==> matches[k].length == |chunks[k]|
    ensures SumLengths(matches) == |ChunkMatching.Concat(chunks)|
    decreases |matches|
  {
    if matches != [] {
      var n := |matches| - 1;
      LengthsOfChunks(matches[..n], chunks[..n]);
      ConcatSnoc(chunks);
    }
  }

  lemma {:induction false} ConcatSnoc(cs: seq<seq<I16>>)
    requires cs != []
    ensures ChunkMatching.Concat(cs) == ChunkMatching.Concat(cs[..|cs| - 1]) + cs[|cs| - 1]
    decreases |cs|
  {
    if |cs| > 1 {
      ConcatSnoc(cs[1..]);
      assert cs[1..][..|cs| - 2] == cs[..|cs| - 1][1..];
    } else {
      assert cs[..0] == [];
    }
  }

  /** The output is exactly as long as the target when the spans are the
      chunk matcher's. */
  lemma MatchLengthsSumToTarget(matches: seq<SampleSpan>, target: seq<I16>, chunkSize: nat)
    requires chunkSize > 0
    requires |matches| == |ChunkMatching.Chunks(target, chunkSize)|
    requires forall k :: 0 <= k < |matches| ==>
               matches[k].length == |ChunkMatching.Chunks(target, chunkSize)[k]|
    ensures SumLengths(matches) == |target|
  {
    LengthsOfChunks(matches, ChunkMatching.Chunks(target, chunkSize));
    ChunkMatching.ChunksConcat(target, chunkSize);
  }

  /** Spans of `chunk_size` samples, the last possibly shorter but no
      shorter than the crossfade, lying within the paint, can be rendered. */
  lemma FullChunksRenderable(matches: seq<SampleSpan>, paintLength: nat, chunkSize: nat)
    requires forall k :: 0 <= k < |matches| - 1 ==> matches[k].length == chunkSize
    requires forall k :: 0 <= k < |matches| ==> matches[k].End() <= paintLength
    requires |matches| > 0 ==> matches[|matches| - 1].length >= chunkSize / 4
    ensures RenderInBounds(matches, paintLength, chunkSize / 4)
  {
    forall k | 0 <= k < |matches|
      ensures MatchInBounds(matches, paintLength, chunkSize / 4, k)
    {
      if k > 0 {
        CursorStep(matches, 0);
        CursorMono(matches, 1, k);
      }
      if k < |matches| - 1 {
        CursorStep(matches, k + 1);
        CursorMono(matches, k + 2, |matches|);
        CursorEnd(matches);
      }
    }
  }

  /** A final span shorter than the crossfade, after a span whose lead-out
      is not empty, makes the stamping loop index past the end of the
      output buffer. */
  lemma ShortFinalChunkOverruns(matches: seq<SampleSpan>, paintLength: nat, chunkSize: nat)
    requires |matches| >= 2
    requires matches[|matches| - 1].length < chunkSize / 4
    requires Crossfade.TailLength(matches[|matches| - 2].End(), chunkSize / 4, paintLength) > 0
    ensures !RenderInBounds(matches, paintLength, chunkSize / 4)
  {
    var n := |matches|;
    CursorStep(matches, n - 1);
    CursorEnd(matches);
    assert !MatchInBounds(matches, paintLength, chunkSize / 4, n - 2);
  }

  /** The chunk matcher's spans can be rendered whenever the last chunk of
      the target is no shorter than the crossfade. */
  lemma MatchesRenderable(target: seq<I16>, paint: seq<I16>, chunkSize: nat, jump: nat,
                          rule: ChunkMatching.SearchRule, matches: seq<SampleSpan>)
    requires 0 < chunkSize && jump > 0
    requires ChunkMatching.SearchDefined(rule, |paint|, jump, Min(chunkSize, |target|))
    requires |matches| == |ChunkMatching.Chunks(target, chunkSize)|
    requires forall k :: 0 <= k < |matches| ==>
               ChunkMatching.IsChunkMatch(matches[k], ChunkMatching.Chunks(target, chunkSize)[k], paint, jump, rule)
    requires |matches| > 0 ==> |ChunkMatching.Chunks(target, chunkSize)[|matches| - 1]| >= chunkSize / 4
    ensures RenderInBounds(matches, |paint|, chunkSize / 4)
    ensures SumLengths(matches) == |target|
  {
    var cs := ChunkMatching.Chunks(target, chunkSize);
    ChunkMatching.ChunksAreFull(target, chunkSize);
    forall k | 0 <= k < |matches|
      ensures matches[k].End() <= |paint|
    {
      ChunkMatching.ChunkMatchWithinPaint(matches[k], cs[k], paint, jump, rule);
    }
    FullChunksRenderable(matches, |paint|, chunkSize);
    MatchLengthsSumToTarget(matches, target, chunkSize);
  }

  /** Under the intended rule the chunk matcher's spans can always be
      rendered, however short the last chunk of the target is: every chunk
      but the last is `chunk_size` long, so every lead-in fits. */
  lemma IntendedMatchesRenderable(target: seq<I16>, paint: seq<I16>, chunkSize: nat, jump: nat,
                                  rule: ChunkMatching.SearchRule, matches: seq<SampleSpan>)
    requires 0 < chunkSize && jump > 0
    requires ChunkMatching.SearchDefined(rule, |paint|, jump, Min(chunkSize, |target|))
    requires |matches| == |ChunkMatching.Chunks(target, chunkSize)|
    requires forall k :: 0 <= k < |matches| ==>
               ChunkMatching.IsChunkMatch(matches[k], ChunkMatching.Chunks(target, chunkSize)[k], paint, jump, rule)
    ensures Renderable(Intended, matches, |paint|, chunkSize / 4)
    ensures SumLengths(matches) == |target|
  {
    var cs := ChunkMatching.Chunks(target, chunkSize);
    ChunkMatching.ChunksAreFull(target, chunkSize);
    forall k | 0 <= k < |matches|
      ensures matches[k].End() <= |paint|
    {
      ChunkMatching.ChunkMatchWithinPaint(matches[k], cs[k], paint, jump, rule);
    }
    forall k | 0 < k < |matches|
      ensures chunkSize / 4 <= Cursor(matches, k)
    {
      assert matches[0].length == chunkSize;
      CursorStep(matches, 0);
      CursorMono(matches, 1, k);
    }
    MatchLengthsSumToTarget(matches, target, chunkSize);
  }

  /** No spans, no output. */
  lemma EmptyMatchesRenderNothing(rule: TailRule, paint: seq<I16>, crossfade: nat, ramp: Crossfade.Ramp)
    ensures Renderable(rule, [], |paint|, crossfade)
    ensures Layout(rule, [], paint, crossfade, ramp) == []
  {
  }
}

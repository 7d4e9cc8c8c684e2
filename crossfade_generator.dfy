/**
 * `generate_fades`: the lead-in ("head") and lead-out ("tail") windows of
 * paint samples around a matched span. The index arithmetic is modelled
 * exactly; the floating-point ramp is abstracted by `Ramp`:
 * `fadeIn(x, i, n)` stands for `apply(x, fade(i, n))` and `fadeOut(x, i, n)`
 * for `apply(x, 1 - fade(i, n))`, with `fade(i, n) = i / n` in `f32` and
 * `apply` a multiplication followed by a saturating cast to `i16`.
 */
module Crossfade {
  import opened Ints
  import opened Spans

  datatype Ramp = Ramp(fadeIn: (I16, nat, nat) -> I16, fadeOut: (I16, nat, nat) -> I16)

  /** Start of the head window: `crossfadeLength` samples before the span,
      snapped to 0 when `overflowing_sub` reports an underflow. */
  function HeadPosition(start: nat, crossfadeLength: nat): (p: nat)
    ensures p <= start
    ensures start - p == Min(start, crossfadeLength)
  {
    var (position, overflowed) := OverflowingSub(start, crossfadeLength);
    if !overflowed then position else 0
  }

  /** Length of the tail window: the whole crossfade when it ends strictly
      before the end of the samples, nothing otherwise. */
  function TailLength(end: nat, crossfadeLength: nat, available: nat): nat {
    if end + crossfadeLength < available then crossfadeLength else 0
  }

  /** `window.iter().enumerate().map(|(i, &s)| f(s, i, n)).collect()`. */
  function Ramped(window: seq<I16>, f: (I16, nat, nat) -> I16, n: nat): (r: seq<I16>)
    ensures |r| == |window|
    decreases |window|
  {
    if window == [] then []
    else Ramped(window[..|window| - 1], f, n) + [f(window[|window| - 1], |window| - 1, n)]
  }

  /** Each sample of the window is passed through the ramp with its own
      index. */
  lemma {:induction false} RampedAt(window: seq<I16>, f: (I16, nat, nat) -> I16, n: nat, i: nat)
    requires i < |window|
    ensures Ramped(window, f, n)[i] == f(window[i], i, n)
    decreases |window|
  {
    if i < |window| - 1 {
      RampedAt(window[..|window| - 1], f, n, i);
    }
  }

  /** The head half of `generate_fades`: the window before the span, from
      `head_position` up to the span's start, faded in. */
  function HeadFade(samples: seq<I16>, clip: SampleSpan, crossfadeLength: nat, ramp: Ramp): (head: seq<I16>)
    requires clip.End() <= |samples|
    ensures |head| == Min(clip.Start(), crossfadeLength)
  {
    var headPosition := HeadPosition(clip.Start(), crossfadeLength);
    var headRange := New(headPosition, clip.Start() - headPosition).Range();
    Ramped(samples[headRange.start..headRange.end], ramp.fadeIn, headRange.Len())
  }

  /** The tail half of `generate_fades`: the window right after the span,
      faded out. */
  function TailFade(samples: seq<I16>, clip: SampleSpan, crossfadeLength: nat, ramp: Ramp): (tail: seq<I16>)
    requires clip.End() <= |samples|
    ensures |tail| == (if clip.End() + crossfadeLength < |samples| then crossfadeLength else 0)
  {
    var tailLength := TailLength(clip.End(), crossfadeLength, |samples|);
    var tailRange := New(clip.End(), tailLength).Range();
    Ramped(samples[tailRange.start..tailRange.end], ramp.fadeOut, tailRange.Len())
  }

  /** `generate_fades`. The caller guarantees that the span lies within the
      samples (`render` has already sliced them by the span's range). The
      samples the two windows hold are stated by `GenerateFadesWindows`. */
  function GenerateFades(samples: seq<I16>, clip: SampleSpan, crossfadeLength: nat, ramp: Ramp)
    : (fades: (seq<I16>, seq<I16>))
    requires clip.End() <= |samples|
    // the head is as long as the crossfade, clamped at sample 0
    ensures |fades.0| == Min(clip.Start(), crossfadeLength)
    // the tail is the whole crossfade or nothing
    ensures |fades.1| == (if clip.End() + crossfadeLength < |samples| then crossfadeLength else 0)
  {
    (HeadFade(samples, clip, crossfadeLength, ramp), TailFade(samples, clip, crossfadeLength, ramp))
  }

  /** Sample `i` of a non-empty tail: the `i`-th sample after the span,
      faded out over the whole crossfade. */
  lemma TailSample(samples: seq<I16>, clip: SampleSpan, crossfadeLength: nat, ramp: Ramp, i: nat)
    requires clip.End() <= |samples|
    requires i < TailLength(clip.End(), crossfadeLength, |samples|)
    ensures clip.End() + i < |samples|
    ensures |TailFade(samples, clip, crossfadeLength, ramp)| == crossfadeLength
    ensures TailFade(samples, clip, crossfadeLength, ramp)[i]
         == ramp.fadeOut(samples[clip.End() + i], i, crossfadeLength)
  {
    var tailRange := New(clip.End(), crossfadeLength).Range();
    var window := samples[tailRange.start..tailRange.end];
    RampedAt(window, ramp.fadeOut, crossfadeLength, i);
    assert window[i] == samples[clip.End() + i];
  }

  /** Sample `i` of the head: the sample `|head| - i` before the span,
      faded in over the head's length. */
  lemma HeadSample(samples: seq<I16>, clip: SampleSpan, crossfadeLength: nat, ramp: Ramp, i: nat)
    requires clip.End() <= |samples|
    requires i < Min(clip.Start(), crossfadeLength)
    ensures clip.Start() - Min(clip.Start(), crossfadeLength) + i < |samples|
    ensures |HeadFade(samples, clip, crossfadeLength, ramp)| == Min(clip.Start(), crossfadeLength)
    ensures HeadFade(samples, clip, crossfadeLength, ramp)[i]
         == ramp.fadeIn(samples[clip.Start() - Min(clip.Start(), crossfadeLength) + i], i,
                        Min(clip.Start(), crossfadeLength))
  {
    var headPosition := HeadPosition(clip.Start(), crossfadeLength);
    var headRange := New(headPosition, clip.Start() - headPosition).Range();
    var window := samples[headRange.start..headRange.end];
    RampedAt(window, ramp.fadeIn, headRange.Len(), i);
    assert window[i] == samples[headPosition + i];
  }

  /** The two windows `generate_fades` returns: the head holds the samples
      immediately before the span, faded in over its own length; the tail
      holds the samples immediately after it, faded out. */
  lemma GenerateFadesWindows(samples: seq<I16>, clip: SampleSpan, crossfadeLength: nat, ramp: Ramp)
    requires clip.End() <= |samples|
    ensures var fades := GenerateFades(samples, clip, crossfadeLength, ramp);
            forall k :: 0 <= k < |fades.0| ==>
              fades.0[k] == ramp.fadeIn(samples[clip.Start() - |fades.0| + k], k, |fades.0|)
    ensures var fades := GenerateFades(samples, clip, crossfadeLength, ramp);
            forall k :: 0 <= k < |fades.1| ==>
              fades.1[k] == ramp.fadeOut(samples[clip.End() + k], k, |fades.1|)
  {
    forall k | 0 <= k < Min(clip.Start(), crossfadeLength) {
      HeadSample(samples, clip, crossfadeLength, ramp, k);
    }
    forall k | 0 <= k < TailLength(clip.End(), crossfadeLength, |samples|) {
      TailSample(samples, clip, crossfadeLength, ramp, k);
    }
  }

  /** A span that starts at sample 0 has no head; one that ends within the
      crossfade length of the end of the samples has no tail. */
  lemma FadesEmptyAtBoundaries(samples: seq<I16>, clip: SampleSpan, crossfadeLength: nat, ramp: Ramp)
    requires clip.End() <= |samples|
    ensures clip.Start() == 0 ==> GenerateFades(samples, clip, crossfadeLength, ramp).0 == []
    ensures clip.End() + crossfadeLength >= |samples| ==>
              GenerateFades(samples, clip, crossfadeLength, ramp).1 == []
  {
  }

  /** The head is never longer than the crossfade, and shorter only when the
      span starts closer than that to sample 0; the tail has either the full
      crossfade length or none. */
  lemma FadeLengths(samples: seq<I16>, clip: SampleSpan, crossfadeLength: nat, ramp: Ramp)
    requires clip.End() <= |samples|
    ensures |GenerateFades(samples, clip, crossfadeLength, ramp).0| <= crossfadeLength
    ensures |GenerateFades(samples, clip, crossfadeLength, ramp).0| < crossfadeLength ==>
              |GenerateFades(samples, clip, crossfadeLength, ramp).0| == clip.Start()
    ensures |GenerateFades(samples, clip, crossfadeLength, ramp).1| in {0, crossfadeLength}
  {
  }
}

/**
 * The "tidy" stage applied to each input before matching, and to the
 * mixed output before it is written: channel flattening and peak
 * normalisation. The floating-point gain is abstracted: `scale(peak, x)`
 * stands for `(x as f32 * (i16::MAX as f32 / peak as f32)) as i16`, and the
 * model states what is fixed independently of that arithmetic.
 */
module Tidy {
  import opened Ints
  import Arith

  // ---------------------------------------------------------------------
  // Peak scan

  /** Which value the peak scan keeps when a sample's absolute value
      exceeds the one kept so far: `AsWritten` keeps the signed sample, as
      the source does; `Intended` keeps its absolute value. */
  datatype PeakRule = AsWritten | Intended

  /** The value `normalize`'s first loop leaves in `highest_value`: start
      at 0 and keep a sample whenever its (wrapping) absolute value exceeds
      the value kept so far. */
  function Peak(rule: PeakRule, s: seq<I16>): I16
    decreases |s|
  {
    if s == [] then 0
    else
      var kept := Peak(rule, s[..|s| - 1]);
      var x := s[|s| - 1];
      if WrappingAbs16(x) > kept then (if rule == AsWritten then x else WrappingAbs16(x)) else kept
  }

  /** As written, the peak scan only ever assigns a sample, so the result
      is the initial 0 or one of the samples. */
  lemma {:induction false} PeakIsZeroOrSample(s: seq<I16>)
    ensures Peak(AsWritten, s) == 0 || Peak(AsWritten, s) in s
  {
    if s != [] {
      var init := s[..|s| - 1];
      PeakIsZeroOrSample(init);
      assert forall x :: x in init ==> x in s;
    }
  }

  /** For non-negative samples either rule finds their maximum (0 when
      empty). */
  lemma {:induction false} PeakOfNonNegativeIsMax(rule: PeakRule, s: seq<I16>)
    requires forall k :: 0 <= k < |s| ==> s[k] >= 0
    ensures forall k :: 0 <= k < |s| ==> s[k] <= Peak(rule, s)
    ensures Peak(rule, s) == 0 || Peak(rule, s) in s
  {
    if s != [] {
      var init := s[..|s| - 1];
      PeakOfNonNegativeIsMax(rule, init);
      assert forall x :: x in init ==> x in s;
      assert forall k :: 0 <= k < |init| ==> init[k] == s[k];
    }
  }

  /** As written, the scan keeps a signed sample, so a loud negative sample
      is forgotten as soon as a quieter positive one follows it; the
      intended scan keeps its magnitude. */
  lemma PeakForgetsLouderNegative()
    ensures Peak(AsWritten, [-5, 3]) == 3
    ensures Peak(AsWritten, [-5]) == -5
    ensures Peak(Intended, [-5, 3]) == 5
  {
    assert [-5, 3][..1] == [-5];
    assert [-5][..0] == [];
  }

  /** The intended scan finds the largest magnitude of the samples, as long
      as none is `i16::MIN`, whose magnitude an `i16` cannot hold. */
  lemma {:induction false} IntendedPeakIsMagnitude(s: seq<I16>)
    requires forall k :: 0 <= k < |s| ==> s[k] != I16_MIN
    ensures Peak(Intended, s) == PeakMagnitude(s)
  {
    if s != [] {
      var init := s[..|s| - 1];
      assert forall k :: 0 <= k < |init| ==> init[k] == s[k];
      IntendedPeakIsMagnitude(init);
    }
  }

  /** The evidently intended peak: the largest magnitude of any sample. */
  function PeakMagnitude(s: seq<I16>): (m: nat)
    ensures forall k :: 0 <= k < |s| ==> s[k] <= m && -(s[k] as int) <= m
    ensures m == 0 || exists k :: 0 <= k < |s| && (s[k] == m || -(s[k] as int) == m)
    decreases |s|
  {
    if s == [] then 0
    else
      var rest := PeakMagnitude(s[..|s| - 1]);
      var x := s[|s| - 1];
      var mag: nat := if x < 0 then -(x as int) else x;
      if mag > rest then mag else rest
  }

  /** The gain-applying map of `normalize`: every sample is scaled with the
      one gain derived from the peak. */
  function Normalized(s: seq<I16>, scale: (I16, I16) -> I16, rule: PeakRule): seq<I16> {
    seq<I16>(|s|, k requires 0 <= k < |s| => scale(Peak(rule, s), s[k]))
  }

  /** `normalize`: the peak scan, then one scaled sample pushed per input
      sample. */
  method Normalize(samples: seq<I16>, scale: (I16, I16) -> I16, rule: PeakRule) returns (out: seq<I16>)
    ensures |out| == |samples|
    ensures forall k :: 0 <= k < |samples| ==> out[k] == scale(Peak(rule, samples), samples[k])
    ensures out == Normalized(samples, scale, rule)
  {
    var highest: I16 := 0;
    for i := 0 to |samples|
      invariant highest == Peak(rule, samples[..i])
    {
      assert samples[..i + 1][..i] == samples[..i];
      if WrappingAbs16(samples[i]) > highest {
        highest := if rule == AsWritten then samples[i] else WrappingAbs16(samples[i]);
      }
    }
    assert samples[..|samples|] == samples;
    out := [];
    for i := 0 to |samples|
      invariant |out| == i
      invariant forall k :: 0 <= k < i ==> out[k] == scale(highest, samples[k])
    {
      out := out + [scale(highest, samples[i])];
    }
  }

  // ---------------------------------------------------------------------
  // Flattening interleaved channels

  /** The exact sum of a frame. */
  function Sum(frame: seq<I16>): int
    decreases |frame|
  {
    if frame == [] then 0 else Sum(frame[..|frame| - 1]) + frame[|frame| - 1]
  }

  /** The frame sum as `flatten` accumulates it, in an `i16` that wraps. */
  function WrappedSum(frame: seq<I16>): I16
    decreases |frame|
  {
    if frame == [] then 0
    else WrappingAdd16(WrappedSum(frame[..|frame| - 1]), frame[|frame| - 1])
  }

  /** Wrapping at every step is wrapping the exact sum once. */
  lemma {:induction false} WrappedSumIsWrapOfSum(frame: seq<I16>)
    ensures WrappedSum(frame) == Wrap16(Sum(frame))
  {
    if frame != [] {
      var init := frame[..|frame| - 1];
      WrappedSumIsWrapOfSum(init);
      WrappingAdd16Wraps(WrappedSum(init), frame[|frame| - 1]);
      Wrap16Add(Sum(init), frame[|frame| - 1]);
    }
  }

  /** When the exact frame sum fits in 16 bits, so does the running sum's
      result, whatever the intermediate sums did. */
  lemma WrappedSumExact(frame: seq<I16>)
    requires I16_MIN <= Sum(frame) <= I16_MAX
    ensures WrappedSum(frame) == Sum(frame)
  {
    WrappedSumIsWrapOfSum(frame);
  }

  /** Division truncating toward zero. In `flatten` this is
      `(sum as f32 / channels as f32) as i16`, which is exact: both operands
      are below 2^24 in magnitude, so the single rounding of the quotient
      cannot cross an integer. */
  function TruncDiv(a: int, b: nat): int
    requires b > 0
  {
    if a >= 0 then a / b else -((-a) / b)
  }

  /** The truncated quotient is the multiple of `b` nearest to `a` on the
      side of zero. */
  lemma TruncDivBrackets(a: int, b: nat)
    requires b > 0
    ensures a >= 0 ==> 0 <= TruncDiv(a, b) * b <= a < (TruncDiv(a, b) + 1) * b
    ensures a < 0 ==> (TruncDiv(a, b) - 1) * b < a <= TruncDiv(a, b) * b <= 0
  {
    if a >= 0 {
      Arith.DivBounds(a, b);
    } else {
      Arith.DivBounds(-a, b);
      var d := (-a) / b;
      assert (-d - 1) * b == -(d * b) - b && -d * b == -(d * b);
    }
  }

  lemma TruncDivIsSample(a: I16, b: nat)
    requires b > 0
    ensures I16_MIN <= TruncDiv(a, b) <= I16_MAX
  {
    if a >= 0 { Arith.DivLe(a, b); } else { Arith.DivLe(-(a as int), b); }
  }

  /** The mono sample of one interleaved frame. */
  function FrameMean(frame: seq<I16>): (r: I16)
    requires |frame| > 0
  {
    TruncDivIsSample(WrappedSum(frame), |frame|);
    TruncDiv(WrappedSum(frame), |frame|)
  }

  /** One mono sample per whole frame of `c` interleaved channels. */
  function Frames(s: seq<I16>, c: nat): seq<I16>
    requires c > 0
    decreases |s|
  {
    if |s| < c then [] else [FrameMean(s[..c])] + Frames(s[c..], c)
  }

  /** What `flatten` returns: the samples themselves for mono input, the
      frame means for interleaved input. */
  function Flattened(s: seq<I16>, channels: nat): seq<I16>
    requires channels > 1 ==> |s| % channels == 0
  {
    if channels > 1 then Frames(s, channels) else s
  }

  /** There are as many mono samples as whole frames. */
  lemma {:induction false} FramesLength(s: seq<I16>, c: nat)
    requires c > 0
    ensures |Frames(s, c)| == |s| / c
    decreases |s|
  {
    if |s| < c {
      Arith.DivUnique(0, |s|, c);
    } else {
      FramesLength(s[c..], c);
      Arith.DivStep(|s| - c, c);
    }
  }

  /** Appending one whole frame to whole frames appends its mean. */
  lemma {:induction false} FramesSnoc(s: seq<I16>, frame: seq<I16>, c: nat)
    requires c > 0 && |s| % c == 0 && |frame| == c
    ensures Frames(s + frame, c) == Frames(s, c) + [FrameMean(frame)]
    decreases |s|
  {
    if |s| < c {
      Arith.DivUnique(0, |s|, c);
      assert s + frame == frame;
      assert frame[..c] == frame && frame[c..] == [];
    } else {
      Arith.DropFrame(|s|, c);
      assert (s + frame)[..c] == s[..c];
      assert (s + frame)[c..] == s[c..] + frame;
      FramesSnoc(s[c..], frame, c);
    }
  }

  /** Frame `k` of the output is the mean of input samples
      [k*c, k*c + c): the channels of one frame, never of two. */
  lemma FrameAt(s: seq<I16>, c: nat, k: nat)
    requires c > 0 && k < |Frames(s, c)|
    ensures k * c + c <= |s|
    ensures Frames(s, c)[k] == FrameMean(s[k * c..k * c + c])
  {
    FrameFrom(s, c, k);
    FrameStartIsProduct(k, c);
  }

  /** Index of the first sample of frame `k`, counted frame by frame. */
  function FrameStart(k: nat, c: nat): nat {
    if k == 0 then 0 else FrameStart(k - 1, c) + c
  }

  lemma {:induction false} FrameStartIsProduct(k: nat, c: nat)
    ensures FrameStart(k, c) == k * c
  {
    if k > 0 {
      FrameStartIsProduct(k - 1, c);
      Arith.MulPred(k, c);
    }
  }

  /** `FrameAt` with the frame's first sample counted by `FrameStart`. */
  lemma {:induction false} FrameFrom(s: seq<I16>, c: nat, k: nat)
    requires c > 0 && k < |Frames(s, c)|
    ensures FrameStart(k, c) + c <= |s|
    ensures Frames(s, c)[k] == FrameMean(s[FrameStart(k, c)..FrameStart(k, c) + c])
    decreases k
  {
    if k > 0 {
      var rest := s[c..];
      assert Frames(s, c)[k] == Frames(rest, c)[k - 1];
      FrameFrom(rest, c, k - 1);
      SliceOfSuffix(s, c, FrameStart(k - 1, c), c);
    } else {
      assert s[0..c] == s[..c];
    }
  }

  /** A slice of a suffix is a slice of the whole, shifted. */
  lemma SliceOfSuffix(s: seq<I16>, drop: nat, lo: nat, n: nat)
    requires drop + lo + n <= |s|
    ensures s[drop..][lo..lo + n] == s[drop + lo..drop + lo + n]
  {
  }

  /** Without overflow of the running sum, each mono sample is the frame's
      channel sum divided by the channel count, truncated toward zero. */
  lemma FlattenedIsTruncatedMean(s: seq<I16>, c: nat, k: nat)
    requires c > 1 && |s| % c == 0 && k < |Flattened(s, c)|
    ensures k * c + c <= |s|
    ensures I16_MIN <= Sum(s[k * c..k * c + c]) <= I16_MAX ==>
              Flattened(s, c)[k] == TruncDiv(Sum(s[k * c..k * c + c]), c)
  {
    FrameAt(s, c, k);
    var frame := s[k * c..k * c + c];
    assert |frame| == c;
    if I16_MIN <= Sum(frame) <= I16_MAX {
      WrappedSumExact(frame);
    }
  }

  /** The whole frames up to the next frame start are those before it and
      the mean of the frame that starts there. */
  lemma NextFrame(s: seq<I16>, i: nat, c: nat)
    requires c > 0 && i < |s| && i % c == 0 && |s| % c == 0
    ensures i + c <= |s| && (i + c) % c == 0
    ensures Frames(s[..i + c], c) == Frames(s[..i], c) + [FrameMean(s[i..i + c])]
  {
    Arith.NextFrameFits(i, |s|, c);
    Arith.AddFrame(i, c);
    FramesSnoc(s[..i], s[i..i + c], c);
    assert s[..i] + s[i..i + c] == s[..i + c];
  }

  /** `flatten`. Interleaved input must hold whole frames: otherwise the
      inner loop indexes past the end on the last frame start. */
  method Flatten(samples: seq<I16>, channels: nat) returns (out: seq<I16>)
    requires channels < 0x1_0000
    requires channels > 1 ==> |samples| % channels == 0
    ensures channels <= 1 ==> out == samples
    ensures channels > 1 ==> |out| == |samples| / channels
    ensures out == Flattened(samples, channels)
  {
    if channels > 1 {
      var newSamples: seq<I16> := [];
      var i := 0;
      while i < |samples|
        invariant i <= |samples| && i % channels == 0
        invariant newSamples == Frames(samples[..i], channels)
        decreases |samples| - i
      {
        Arith.NextFrameFits(i, |samples|, channels);
        var sum: I16 := 0;
        for j := 0 to channels
          invariant sum == WrappedSum(samples[i..i + j])
        {
          assert samples[i..i + j + 1][..j] == samples[i..i + j];
          sum := WrappingAdd16(sum, samples[i + j]);
        }
        TruncDivIsSample(sum, channels);
        var mono: I16 := TruncDiv(sum, channels);
        NextFrame(samples, i, channels);
        newSamples := newSamples + [mono];
        i := i + channels;
      }
      assert samples[..i] == samples;
      FramesLength(samples, channels);
      out := newSamples;
    } else {
      out := samples;
    }
  }
}

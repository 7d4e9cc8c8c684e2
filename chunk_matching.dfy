/**
 * `make_chunk_matches`: split the target into chunks and, for each chunk,
 * scan the paint samples at a fixed stride for the offset whose window has
 * the least sum of squared differences, keeping the first such offset.
 *
 * The number of candidates scanned is modelled both as written,
 * `div_floor(paint_len, search_jump) - chunk_len`, and as evidently
 * intended, every stride-aligned offset in [0, paint_len - chunk_len); see
 * `SearchRule`.
 */
module ChunkMatching {
  import opened Ints
  import opened Spans
  import Extensions
  import Arith

  /** The largest squared difference of two samples, (2^16 - 1)^2. */
  const MAX_SQUARED_DELTA: int := 0xffff * 0xffff

  // ---------------------------------------------------------------------
  // Chunking the target

  /** `<[i16]>::chunks(size)`: consecutive pieces of `size` samples, the
      last one holding the remainder; none for an empty target. */
  function Chunks(s: seq<I16>, size: nat): (cs: seq<seq<I16>>)
    requires size > 0
    ensures forall k :: 0 <= k < |cs| ==> 0 < |cs[k]| <= size && |cs[k]| <= |s|
    decreases |s|
  {
    if s == [] then []
    else if |s| <= size then [s]
    else [s[..size]] + Chunks(s[size..], size)
  }

  function Concat(cs: seq<seq<I16>>): seq<I16>
    decreases |cs|
  {
    if cs == [] then [] else cs[0] + Concat(cs[1..])
  }

  /** The chunks, in order, are the target. */
  lemma {:induction false} ChunksConcat(s: seq<I16>, size: nat)
    requires size > 0
    ensures Concat(Chunks(s, size)) == s
    decreases |s|
  {
    if |s| > size {
      ChunksConcat(s[size..], size);
      var cs := Chunks(s, size);
      assert cs[0] == s[..size] && cs[1..] == Chunks(s[size..], size);
      assert s == s[..size] + s[size..];
    } else if s != [] {
      assert Chunks(s, size)[1..] == [];
      assert s + [] == s;
    }
  }

  /** Every chunk but the last holds exactly `size` samples. */
  lemma {:induction false} ChunksAreFull(s: seq<I16>, size: nat)
    requires size > 0
    ensures forall k :: 0 <= k < |Chunks(s, size)| - 1 ==> |Chunks(s, size)[k]| == size
    decreases |s|
  {
    if |s| > size {
      ChunksAreFull(s[size..], size);
      var cs := Chunks(s, size);
      assert forall k :: 1 <= k < |cs| ==> cs[k] == Chunks(s[size..], size)[k - 1];
    }
  }

  /** There are `div_ceil(len, size)` chunks, the count the progress
      report uses. */
  lemma {:induction false} ChunkCount(s: seq<I16>, size: nat)
    requires size > 0
    ensures |Chunks(s, size)| == Extensions.DivCeil(|s|, size)
    decreases |s|
  {
    if s == [] {
      Arith.DivUnique(0, size - 1, size);
    } else if |s| <= size {
      Arith.DivUnique(1, |s| - 1, size);
      assert |s| + size - 1 == 1 * size + (|s| - 1);
    } else {
      ChunkCount(s[size..], size);
      var a := |s| - 1;
      Arith.DivUnique(a / size, a % size, size);
      Arith.DivUnique(a / size + 1, a % size, size);
      assert a == (a / size) * size + a % size;
      assert a + size == (a / size + 1) * size + a % size;
    }
  }

  // ---------------------------------------------------------------------
  // Scoring a candidate

  lemma SquareBound(d: int)
    requires -0xffff <= d <= 0xffff
    ensures 0 <= d * d <= MAX_SQUARED_DELTA
  {
    var m := if d < 0 then -d else d;
    assert d * d == m * m;
    Arith.MulMono(0, m, m);
    Arith.MulMono(m, 0xffff, m);
    Arith.MulMono(m, 0xffff, 0xffff);
  }

  /** Sum over `j` of `(paint[offset + j] - chunk[j])^2`, accumulated in
      the order of the source's inner loop. */
  function Sse(paint: seq<I16>, offset: nat, chunk: seq<I16>): (r: nat)
    requires offset + |chunk| <= |paint|
    ensures r <= |chunk| * MAX_SQUARED_DELTA
    decreases |chunk|
  {
    if chunk == [] then 0
    else
      var j := |chunk| - 1;
      var delta := paint[offset + j] as int - chunk[j] as int;
      SquareBound(delta);
      Sse(paint, offset, chunk[..j]) + delta * delta
  }

  /** The `i128` accumulator cannot overflow: a chunk holds fewer than 2^64
      samples, each contributing less than 2^32. */
  lemma SseFitsI128(paint: seq<I16>, offset: nat, chunk: seq<I16>)
    requires offset + |chunk| <= |paint| && |chunk| < USIZE_LIMIT
    ensures Sse(paint, offset, chunk) < I128_MAX
  {
  }

  lemma SquareZero(d: int)
    requires d * d == 0
    ensures d == 0
  {
    if d != 0 {
      var m := if d < 0 then -d else d;
      assert d * d == m * m;
      Arith.MulMono(1, m, m);
    }
  }

  /** A window that is a copy of the chunk scores 0. */
  lemma {:induction false} CopyScoresZero(paint: seq<I16>, offset: nat, chunk: seq<I16>)
    requires offset + |chunk| <= |paint| && paint[offset..offset + |chunk|] == chunk
    ensures Sse(paint, offset, chunk) == 0
    decreases |chunk|
  {
    if chunk != [] {
      var j := |chunk| - 1;
      assert paint[offset..offset + j] == chunk[..j];
      CopyScoresZero(paint, offset, chunk[..j]);
      assert paint[offset + j] == chunk[j];
    }
  }

  /** Only a copy of the chunk scores 0. */
  lemma {:induction false} ZeroScoreIsCopy(paint: seq<I16>, offset: nat, chunk: seq<I16>)
    requires offset + |chunk| <= |paint| && Sse(paint, offset, chunk) == 0
    ensures paint[offset..offset + |chunk|] == chunk
    decreases |chunk|
  {
    if chunk != [] {
      var j := |chunk| - 1;
      var delta := paint[offset + j] as int - chunk[j] as int;
      SquareBound(delta);
      SquareZero(delta);
      ZeroScoreIsCopy(paint, offset, chunk[..j]);
      forall k | 0 <= k < |chunk|
        ensures paint[offset..offset + |chunk|][k] == chunk[k]
      {
        if k < j { assert paint[offset..offset + j][k] == chunk[..j][k]; }
      }
    }
  }

  // ---------------------------------------------------------------------
  // Candidates and the best match

  /** The paint offset of candidate `i`: `i * search_jump`. */
  function Offset(i: nat, jump: nat): nat {
    Arith.MulMono(0, i, jump);
    i * jump
  }

  lemma OffsetInjective(a: nat, b: nat, jump: nat)
    requires jump > 0 && Offset(a, jump) == Offset(b, jump)
    ensures a == b
  {
    if a < b { Arith.MulMono(a + 1, b, jump); }
    if a > b { Arith.MulMono(b + 1, a, jump); }
  }

  /** Every candidate window of `count` lies within the paint samples. */
  predicate CandidatesFit(chunkLength: nat, paintLength: nat, jump: nat, count: nat) {
    forall i :: 0 <= i < count ==> Offset(i, jump) + chunkLength <= paintLength
  }

  /** `pos` is what the candidate loop keeps: 0 when there is no candidate,
      otherwise the first candidate whose score is no greater than any
      other's. */
  ghost predicate IsFirstBest(pos: nat, chunk: seq<I16>, paint: seq<I16>, jump: nat, count: nat)
    requires CandidatesFit(|chunk|, |paint|, jump, count)
  {
    if count == 0 then pos == 0
    else
      exists i :: 0 <= i < count && pos == Offset(i, jump) &&
        (forall j :: 0 <= j < count ==> Sse(paint, pos, chunk) <= Sse(paint, Offset(j, jump), chunk)) &&
        (forall j :: 0 <= j < i ==> Sse(paint, pos, chunk) < Sse(paint, Offset(j, jump), chunk))
  }

  /** The sum-of-squares loop over one candidate window. */
  method SquaredError(paint: seq<I16>, offset: nat, chunk: seq<I16>) returns (sum: I128)
    requires offset + |chunk| <= |paint| && |chunk| < USIZE_LIMIT
    ensures sum == Sse(paint, offset, chunk)
  {
    sum := 0;
    for j := 0 to |chunk|
      invariant sum == Sse(paint, offset, chunk[..j])
    {
      assert chunk[..j + 1][..j] == chunk[..j];
      SseFitsI128(paint, offset, chunk[..j + 1]);
      var a: I128 := paint[offset + j];
      var b: I128 := chunk[j];
      var delta: I128 := a - b;
      SquareBound(delta);
      sum := sum + delta * delta;
    }
    assert chunk[..|chunk|] == chunk;
  }

  /** The candidate loop: `best_match` starts at (0, i128::MAX) and is
      replaced only on a strictly smaller score. */
  method BestMatch(chunk: seq<I16>, paint: seq<I16>, jump: nat, count: nat)
    returns (position: nat, score: I128)
    requires jump > 0 && |chunk| < USIZE_LIMIT
    requires CandidatesFit(|chunk|, |paint|, jump, count)
    ensures IsFirstBest(position, chunk, paint, jump, count)
    ensures count == 0 ==> score == I128_MAX
    ensures count > 0 ==> score == Sse(paint, position, chunk)
  {
    position, score := 0, I128_MAX;
    ghost var best: nat := 0;
    for i := 0 to count
      invariant i == 0 ==> position == 0 && score == I128_MAX
      invariant best <= i
      invariant i > 0 ==> best < i && position == Offset(best, jump)
      invariant i > 0 ==> score == Sse(paint, position, chunk)
      invariant forall j :: 0 <= j < i ==> score <= Sse(paint, Offset(j, jump), chunk)
      invariant forall j :: 0 <= j < best ==> score < Sse(paint, Offset(j, jump), chunk)
    {
      var offset := i * jump;
      assert offset == Offset(i, jump);
      var sum := SquaredError(paint, offset, chunk);
      SseFitsI128(paint, offset, chunk);
      if sum < score {
        position, score, best := offset, sum, i;
      }
    }
    if count > 0 {
      assert best < count && position == Offset(best, jump);
    }
  }

  // ---------------------------------------------------------------------
  // How many candidates are scanned

  /** `AsWritten` is the source's `div_floor(paint_len, search_jump) -
      chunk_len`; `Intended` scans every aligned offset below
      `paint_len - chunk_len`, that is `div_ceil(paint_len - chunk_len,
      search_jump)` candidates. */
  datatype SearchRule = AsWritten | Intended

  /** The candidate count is computed without `usize` underflow. */
  predicate SearchDefined(rule: SearchRule, paintLength: nat, jump: nat, chunkLength: nat)
    requires jump > 0
  {
    match rule
    case AsWritten => chunkLength <= Extensions.DivFloor(paintLength, jump)
    case Intended => chunkLength <= paintLength
  }

  function CandidateCount(rule: SearchRule, paintLength: nat, jump: nat, chunkLength: nat): nat
    requires jump > 0 && SearchDefined(rule, paintLength, jump, chunkLength)
  {
    match rule
    case AsWritten => Extensions.DivFloor(paintLength, jump) - chunkLength
    case Intended => Extensions.DivCeil(paintLength - chunkLength, jump)
  }

  /** Under either rule every candidate window is in bounds, so the paint
      slice never panics. */
  lemma CandidateCountFits(rule: SearchRule, paintLength: nat, jump: nat, chunkLength: nat)
    requires jump > 0 && SearchDefined(rule, paintLength, jump, chunkLength)
    ensures CandidatesFit(chunkLength, paintLength, jump, CandidateCount(rule, paintLength, jump, chunkLength))
  {
    var count := CandidateCount(rule, paintLength, jump, chunkLength);
    forall i | 0 <= i < count
      ensures Offset(i, jump) + chunkLength <= paintLength
    {
      match rule {
        case AsWritten =>
          AsWrittenCandidateFits(Extensions.DivFloor(paintLength, jump), chunkLength, jump, i, paintLength);
        case Intended =>
          Arith.MulMono(i, count - 1, jump);
      }
    }
  }

  /** Candidate `i` of `f - chunkLength`, with `f * jump <= paintLength`,
      ends within the paint: the stride is at least 1, so the subtracted
      `chunkLength` strides cover the chunk itself. */
  lemma AsWrittenCandidateFits(f: nat, chunkLength: nat, jump: nat, i: nat, paintLength: nat)
    requires jump > 0 && f * jump <= paintLength && i + chunkLength < f
    ensures i * jump + chunkLength <= paintLength
  {
    Arith.MulMono(i + chunkLength + 1, f, jump);
    Arith.MulMono(1, jump, chunkLength);
    assert (i + chunkLength + 1) * jump == i * jump + chunkLength * jump + jump;
  }

  /** With a stride of 1 the two rules agree. */
  lemma RulesAgreeForUnitStride(paintLength: nat, chunkLength: nat)
    requires chunkLength <= paintLength
    ensures SearchDefined(AsWritten, paintLength, 1, chunkLength)
    ensures CandidateCount(AsWritten, paintLength, 1, chunkLength)
         == CandidateCount(Intended, paintLength, 1, chunkLength)
  {
  }

  /** As written, a 1000-sample paint scanned at stride 10 for a 100-sample
      chunk has no candidate at all, while 91 aligned windows fit; the
      intended rule scans the 90 aligned offsets below `1000 - 100`. */
  lemma AsWrittenSkipsAlignedOffsets()
    ensures SearchDefined(AsWritten, 1000, 10, 100)
    ensures CandidateCount(AsWritten, 1000, 10, 100) == 0
    ensures CandidateCount(Intended, 1000, 10, 100) == 90
  {
  }

  /** The intended candidates are exactly the aligned offsets whose window
      starts before `paint_len - chunk_len`. */
  lemma IntendedCandidatesAreAlignedOffsets(paintLength: nat, jump: nat, chunkLength: nat, o: nat)
    requires jump > 0 && chunkLength <= paintLength
    ensures o % jump == 0 && o + chunkLength < paintLength <==>
              exists i :: 0 <= i < CandidateCount(Intended, paintLength, jump, chunkLength) && Offset(i, jump) == o
  {
    var count := CandidateCount(Intended, paintLength, jump, chunkLength);
    if o % jump == 0 && o + chunkLength < paintLength {
      var i := o / jump;
      Arith.MultipleOf(o, jump);
      if i >= count { Arith.MulMono(count, i, jump); }
      assert Offset(i, jump) == o;
    }
    if i :| 0 <= i < count && Offset(i, jump) == o {
      Arith.MultipleDiv(i, jump);
      Arith.MulMono(i, count - 1, jump);
    }
  }

  // ---------------------------------------------------------------------
  // Properties of the chosen offset

  /** Of two candidates that score alike, the later is never chosen. */
  lemma EarlierTieWins(pos: nat, chunk: seq<I16>, paint: seq<I16>, jump: nat, count: nat, i: nat, j: nat)
    requires jump > 0 && CandidatesFit(|chunk|, |paint|, jump, count)
    requires IsFirstBest(pos, chunk, paint, jump, count)
    requires i < j < count
    requires Sse(paint, Offset(i, jump), chunk) <= Sse(paint, Offset(j, jump), chunk)
    ensures pos != Offset(j, jump)
  {
    if pos == Offset(j, jump) {
      var b :| 0 <= b < count && pos == Offset(b, jump) &&
        (forall k :: 0 <= k < count ==> Sse(paint, pos, chunk) <= Sse(paint, Offset(k, jump), chunk)) &&
        (forall k :: 0 <= k < b ==> Sse(paint, pos, chunk) < Sse(paint, Offset(k, jump), chunk));
      OffsetInjective(b, j, jump);
    }
  }

  /** The candidate loop's result is determined by its inputs. */
  lemma FirstBestUnique(p: nat, q: nat, chunk: seq<I16>, paint: seq<I16>, jump: nat, count: nat)
    requires jump > 0 && CandidatesFit(|chunk|, |paint|, jump, count)
    requires IsFirstBest(p, chunk, paint, jump, count)
    requires IsFirstBest(q, chunk, paint, jump, count)
    ensures p == q
  {
    if count > 0 {
      var a :| 0 <= a < count && p == Offset(a, jump) &&
        (forall k :: 0 <= k < count ==> Sse(paint, p, chunk) <= Sse(paint, Offset(k, jump), chunk)) &&
        (forall k :: 0 <= k < a ==> Sse(paint, p, chunk) < Sse(paint, Offset(k, jump), chunk));
      var b :| 0 <= b < count && q == Offset(b, jump) &&
        (forall k :: 0 <= k < count ==> Sse(paint, q, chunk) <= Sse(paint, Offset(k, jump), chunk)) &&
        (forall k :: 0 <= k < b ==> Sse(paint, q, chunk) < Sse(paint, Offset(k, jump), chunk));
      assert a == b;
    }
  }

  /** When some candidate window is an exact copy of the chunk, the chosen
      window is one too. */
  lemma ExactCopyIsFound(pos: nat, chunk: seq<I16>, paint: seq<I16>, jump: nat, count: nat, i: nat)
    requires jump > 0 && CandidatesFit(|chunk|, |paint|, jump, count)
    requires IsFirstBest(pos, chunk, paint, jump, count)
    requires i < count && paint[Offset(i, jump)..Offset(i, jump) + |chunk|] == chunk
    ensures pos + |chunk| <= |paint| && paint[pos..pos + |chunk|] == chunk
  {
    CopyScoresZero(paint, Offset(i, jump), chunk);
    ZeroScoreIsCopy(paint, pos, chunk);
  }

  // ---------------------------------------------------------------------
  // The chunk matcher

  /** `span` is the match the source emits for `chunk`: the chunk's length at
      the offset the candidate loop keeps. */
  ghost predicate IsChunkMatch(span: SampleSpan, chunk: seq<I16>, paint: seq<I16>, jump: nat, rule: SearchRule)
    requires jump > 0 && SearchDefined(rule, |paint|, jump, |chunk|)
  {
    CandidateCountFits(rule, |paint|, jump, |chunk|);
    span.length == |chunk| &&
    IsFirstBest(span.position, chunk, paint, jump, CandidateCount(rule, |paint|, jump, |chunk|))
  }

  /** `make_chunk_matches` under the given candidate count. The source's
      count underflows (a panic) when a chunk is longer than
      `paint_len / search_jump`; the longest chunk is the first. */
  method MakeChunkMatches(target: seq<I16>, paint: seq<I16>, chunkSize: nat, searchJump: nat, rule: SearchRule)
    returns (matches: seq<SampleSpan>)
    requires 0 < chunkSize < USIZE_LIMIT && searchJump > 0
    requires SearchDefined(rule, |paint|, searchJump, Min(chunkSize, |target|))
    ensures |matches| == |Chunks(target, chunkSize)|
    ensures forall k :: 0 <= k < |matches| ==> matches[k].length == |Chunks(target, chunkSize)[k]|
    ensures forall k :: 0 <= k < |matches| ==>
              IsChunkMatch(matches[k], Chunks(target, chunkSize)[k], paint, searchJump, rule)
  {
    var targetChunks := Chunks(target, chunkSize);
    matches := [];
    for k := 0 to |targetChunks|
      invariant |matches| == k
      invariant forall j :: 0 <= j < k ==> matches[j].length == |targetChunks[j]|
      invariant forall j :: 0 <= j < k ==> IsChunkMatch(matches[j], targetChunks[j], paint, searchJump, rule)
    {
      var chunk := targetChunks[k];
      var chunkLength := |chunk|;
      var paintSearchRange := CandidateCount(rule, |paint|, searchJump, chunkLength);
      CandidateCountFits(rule, |paint|, searchJump, chunkLength);
      var position, _ := BestMatch(chunk, paint, searchJump, paintSearchRange);
      matches := matches + [New(position, chunkLength)];
    }
  }

  /** Every emitted span lies within the paint samples, as `render` needs. */
  lemma ChunkMatchWithinPaint(span: SampleSpan, chunk: seq<I16>, paint: seq<I16>, jump: nat, rule: SearchRule)
    requires jump > 0 && SearchDefined(rule, |paint|, jump, |chunk|)
    requires IsChunkMatch(span, chunk, paint, jump, rule)
    ensures span.End() <= |paint|
  {
    CandidateCountFits(rule, |paint|, jump, |chunk|);
    if CandidateCount(rule, |paint|, jump, |chunk|) == 0 {
      Arith.DivLe(|paint|, jump);
    }
  }

  /** Under the intended rule the chosen offset scores no worse than any
      aligned offset of the searchable extent [0, paint_len - chunk_len). */
  lemma IntendedMatchIsBestAligned(span: SampleSpan, chunk: seq<I16>, paint: seq<I16>, jump: nat, o: nat)
    requires jump > 0 && |chunk| <= |paint|
    requires IsChunkMatch(span, chunk, paint, jump, Intended)
    requires o % jump == 0 && o + |chunk| < |paint|
    ensures span.End() <= |paint|
    ensures Sse(paint, span.position, chunk) <= Sse(paint, o, chunk)
  {
    ChunkMatchWithinPaint(span, chunk, paint, jump, Intended);
    IntendedCandidatesAreAlignedOffsets(|paint|, jump, |chunk|, o);
    CandidateCountFits(Intended, |paint|, jump, |chunk|);
  }
}

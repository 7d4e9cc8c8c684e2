/**
 * `SampleSpan`: a context-free description of the half-open region
 * [position, position + length) of some sample buffer. It knows nothing
 * of the buffer it will index; callers check the bounds.
 */
module Spans {

  /** `std::ops::Range<usize>`: the half-open interval [start, end). */
  datatype IndexRange = IndexRange(start: nat, end: nat) {
    /** `ExactSizeIterator::len`: zero for an empty or reversed range. */
    function Len(): nat {
      if start <= end then end - start else 0
    }
  }

  datatype SampleSpan = SampleSpan(position: nat, length: nat) {

    function Start(): nat { position }

    function End(): nat { position + length }

    function Length(): nat { length }

    /** The samples the span covers, as an index range. */
    function Range(): (r: IndexRange)
      ensures r.start == Start() && r.end == End()
      ensures r.Len() == Length()
    {
      IndexRange(Start(), End())
    }

    /** The same span moved `back` samples earlier; the caller guarantees
        that it does not reach below zero. */
    function PullBack(back: nat): (s: SampleSpan)
      requires back <= position
      ensures s.Start() + back == Start()
      ensures s.End() + back == End()
      ensures s.Length() == Length()
    {
      SampleSpan(position - back, length)
    }

    /** The span with the same start and a new length. */
    function Truncate(newLength: nat): (s: SampleSpan)
      ensures s.Start() == Start()
      ensures s.Length() == newLength
      ensures s.End() == Start() + newLength
    {
      this.(length := newLength)
    }
  }

  /** `SampleSpan::new`. */
  function New(position: nat, length: nat): (s: SampleSpan)
    ensures s.Start() == position && s.Length() == length
    ensures s.End() == position + length
  {
    SampleSpan(position, length)
  }

  /** `From<Range<usize>>`: the subtraction `end - start` demands an
      ordered range. */
  function FromRange(r: IndexRange): (s: SampleSpan)
    requires r.start <= r.end
    ensures s.Start() == r.start && s.End() == r.end
    ensures s.Length() == r.Len()
  {
    SampleSpan(r.start, r.end - r.start)
  }

  /** A span survives the trip through its range. */
  lemma RangeRoundTrip(s: SampleSpan)
    ensures FromRange(s.Range()) == s
  {
  }

  /** An ordered range survives the trip through a span. */
  lemma FromRangeRoundTrip(r: IndexRange)
    requires r.start <= r.end
    ensures FromRange(r).Range() == r
  {
  }

  /** Pulling a span back and truncating it commute. */
  lemma PullBackTruncateCommute(s: SampleSpan, back: nat, newLength: nat)
    requires back <= s.position
    ensures s.PullBack(back).Truncate(newLength) == s.Truncate(newLength).PullBack(back)
  {
  }
}

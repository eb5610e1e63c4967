/**
 * The transcript data the providers return and the subtitle renderer reads
 * (`TranscriptionSegment` and `TranscriptionResult`). Times are seconds.
 */
module Transcript {
  import opened Base
  import opened Text

  /** A word-level timing span. */
  datatype Word = Word(word: string, start: real, end: real)

  /** A timed span of transcript text; `words` is absent unless word timing was requested. */
  datatype Segment = Segment(id: int, start: real, end: real, text: string, words: Option<seq<Word>>)

  datatype TranscriptionResult = TranscriptionResult(
    language: string,
    duration: real,
    text: string,
    segments: seq<Segment>)

  /** Segment ids are the positions 0..n-1. */
  predicate NumberedByPosition(segs: seq<Segment>)
  {
    forall i :: 0 <= i < |segs| ==> segs[i].id == i
  }

  /** Every segment lies in [0, duration] and starts no earlier than the one before. */
  predicate Ordered(segs: seq<Segment>, duration: real)
  {
    && (forall i :: 0 <= i < |segs| ==> 0.0 <= segs[i].start <= segs[i].end <= duration)
    && (forall i :: 0 < i < |segs| ==> segs[i - 1].start <= segs[i].start)
  }

  /** A segment as a backend returns it: times, and text that may be missing. */
  datatype RawSegment = RawSegment(start: real, end: real, text: Option<string>)

  /** `seg.text?.trim() || ""`. */
  function SegmentText(s: RawSegment): (r: string)
    ensures Clean(r)
    ensures s.text.None? ==> r == ""
  {
    Trim(s.text.GetOr(""))
  }

  /** The backend segments numbered by position, with trimmed text and no word timings. */
  function NumberSegments(raws: seq<RawSegment>): (r: seq<Segment>)
    ensures |r| == |raws| && NumberedByPosition(r)
    ensures forall i :: 0 <= i < |r| ==> r[i].words.None?
    ensures forall i :: 0 <= i < |raws| ==>
      r[i] == Segment(i, raws[i].start, raws[i].end, SegmentText(raws[i]), None)
  {
    seq(|raws|, i requires 0 <= i < |raws| => Segment(i, raws[i].start, raws[i].end, SegmentText(raws[i]), None))
  }
}

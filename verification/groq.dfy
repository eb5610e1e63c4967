/**
 * The Groq Whisper backend: routing by file size, the request it sends, the
 * bounded retry on rate limits, normalisation of the verbose JSON response,
 * and the fold that merges per-chunk transcripts. The backend itself is a
 * scripted outcome per call; the sleeps between retries are recorded as a
 * list of delays.
 */
module Groq {
  import opened Base
  import opened Text
  import opened Transcript
  import opened FileManager
  import opened Ffmpeg

  /** Files strictly larger than this many megabytes are split first. */
  const MaxFileSizeMB: nat := 25

  /** The splitter's target size, one megabyte under the limit. */
  const ChunkTargetMB: nat := MaxFileSizeMB - 1

  const Model: string := "whisper-large-v3-turbo"

  /** How many times a rate-limited call is repeated. */
  const MaxRetries: nat := 2

  const RateLimitSuggestion: string := "Rate limited. Try again in a few seconds or switch to replicate provider."

  // ---------------------------------------------------------------------------
  // Request
  // ---------------------------------------------------------------------------

  /** The parameters of every transcription call (the file stream aside). */
  datatype GroqRequest = GroqRequest(model: string, responseFormat: string, granularities: seq<string>,
                                     language: Option<string>)

  /** The language hint is sent only when it is non-empty and not "auto"; word
      granularity is asked for only when word timestamps are wanted. */
  function RequestFor(hint: Option<string>, wordTimestamps: bool): (q: GroqRequest)
    ensures q.model == Model && q.responseFormat == "verbose_json"
    ensures q.language.Some? <==> Truthy(hint) && hint.value != "auto"
    ensures q.language.Some? ==> q.language == hint
    ensures "segment" in q.granularities
    ensures "word" in q.granularities <==> wordTimestamps
  {
    GroqRequest(Model, "verbose_json", if wordTimestamps then ["word", "segment"] else ["segment"],
                if Truthy(hint) && hint.value != "auto" then hint else None)
  }

  // ---------------------------------------------------------------------------
  // Response normalisation
  // ---------------------------------------------------------------------------

  /** The fields of the verbose JSON response that are read; any may be missing. */
  datatype RawResponse = RawResponse(
    language: Option<string>, duration: Option<real>, text: Option<string>,
    segments: Option<seq<RawSegment>>, words: Option<seq<Word>>)

  /** The word lies inside the segment's time span. */
  predicate Within(w: Word, seg: RawSegment)
  {
    w.start >= seg.start && w.end <= seg.end
  }

  /** `words.filter(w => w.start >= seg.start && w.end <= seg.end)`. */
  function WordsWithin(words: seq<Word>, seg: RawSegment): (r: seq<Word>)
    ensures |r| <= |words|
    ensures forall k :: 0 <= k < |r| ==> r[k] in words && Within(r[k], seg)
    ensures forall m :: 0 <= m < |words| && Within(words[m], seg) ==> words[m] in r
  {
    if words == [] then []
    else (if Within(words[0], seg) then [words[0]] else []) + WordsWithin(words[1..], seg)
  }

  /** Filtering distributes over concatenation, so kept words stay in response order. */
  lemma {:induction false} WordsWithinConcat(a: seq<Word>, b: seq<Word>, seg: RawSegment)
    ensures WordsWithin(a + b, seg) == WordsWithin(a, seg) + WordsWithin(b, seg)
    decreases |a|
  {
    if a == [] {
      assert a + b == b;
    } else {
      assert (a + b)[1..] == a[1..] + b;
      WordsWithinConcat(a[1..], b, seg);
    }
  }

  function NormalizeSegment(i: nat, s: RawSegment, words: Option<seq<Word>>): Segment
  {
    Segment(i, s.start, s.end, SegmentText(s), if words.Some? then Some(WordsWithin(words.value, s)) else None)
  }

  /** `transcribeSingle`'s mapping of a response to a `TranscriptionResult`. */
  function Normalize(resp: RawResponse, hint: Option<string>, wordTimestamps: bool): (r: TranscriptionResult)
    ensures var raws := resp.segments.GetOr([]);
      && |r.segments| == |raws| && NumberedByPosition(r.segments)
      && (forall i :: 0 <= i < |raws| ==>
            r.segments[i].start == raws[i].start && r.segments[i].end == raws[i].end
            && r.segments[i].text == SegmentText(raws[i]))
    ensures forall i :: 0 <= i < |r.segments| ==>
      (r.segments[i].words.Some? <==> wordTimestamps && resp.words.Some?)
    ensures forall i :: 0 <= i < |r.segments| && r.segments[i].words.Some? ==>
      r.segments[i].words.value == WordsWithin(resp.words.value, resp.segments.value[i])
    ensures forall i, k :: 0 <= i < |r.segments| && r.segments[i].words.Some? && 0 <= k < |r.segments[i].words.value| ==>
      var w := r.segments[i].words.value[k];
      w in resp.words.value && r.segments[i].start <= w.start && w.end <= r.segments[i].end
    ensures r.language == FirstTruthy(resp.language, hint, "unknown")
    ensures r.duration == resp.duration.GetOr(0.0)
    ensures r.text == resp.text.GetOr("")
  {
    var raws := resp.segments.GetOr([]);
    var words := if wordTimestamps && resp.words.Some? then resp.words else None;
    var segs := seq(|raws|, i requires 0 <= i < |raws| => NormalizeSegment(i, raws[i], words));
    TranscriptionResult(FirstTruthy(resp.language, hint, "unknown"), resp.duration.GetOr(0.0),
                        resp.text.GetOr(""), segs)
  }

  /** Without word timestamps the segments are exactly the positional numbering that
      both backends share. */
  lemma NormalizeWithoutWords(resp: RawResponse, hint: Option<string>)
    ensures Normalize(resp, hint, false).segments == NumberSegments(resp.segments.GetOr([]))
  {
  }

  /** What a result looks like when read back as a response: every field present. */
  function AsResponse(t: TranscriptionResult): RawResponse
  {
    RawResponse(Some(t.language), Some(t.duration), Some(t.text),
                Some(seq(|t.segments|, i requires 0 <= i < |t.segments| =>
                  RawSegment(t.segments[i].start, t.segments[i].end, Some(t.segments[i].text)))),
                None)
  }

  /** A result that is already in normal form (known language, positional ids, trimmed
      texts, no word timings) comes back unchanged: normalisation is idempotent. */
  lemma NormalFormIsFixed(t: TranscriptionResult, hint: Option<string>, wordTimestamps: bool)
    requires t.language != "" && NumberedByPosition(t.segments)
    requires forall i :: 0 <= i < |t.segments| ==> Clean(t.segments[i].text) && t.segments[i].words.None?
    ensures Normalize(AsResponse(t), hint, wordTimestamps) == t
  {
    var r := Normalize(AsResponse(t), hint, wordTimestamps);
    forall i | 0 <= i < |t.segments|
      ensures r.segments[i] == t.segments[i]
    {
      TrimClean(t.segments[i].text);
    }
  }

  // ---------------------------------------------------------------------------
  // Bounded retry
  // ---------------------------------------------------------------------------

  /** One backend call's outcome: a response, or an error with an optional HTTP status
      and the text it renders as (`err?.message || err`). */
  datatype Outcome = Success(resp: RawResponse) | Failure(status: Option<int>, message: string)

  predicate RateLimited(o: Outcome)
  {
    o.Failure? && o.status == Some(429)
  }

  /** The error a failed call is reported as. */
  function GroqFailure(status: Option<int>, message: string): (e: ErrorInfo)
    ensures status == Some(429) ==> e.code == ProviderRateLimited && e.suggestion == Some(RateLimitSuggestion)
    ensures status != Some(429) ==> e.code == ProviderError && e.suggestion.None?
    ensures e.message == "Groq transcription failed: " + message
  {
    var limited := status == Some(429);
    ErrorInfo(if limited then ProviderRateLimited else ProviderError,
              "Groq transcription failed: " + message,
              if limited then Some(RateLimitSuggestion) else None)
  }

  /** The calls made: the final result, how many calls, and the delays slept before each retry. */
  datatype Attempts = Attempts(result: Result<RawResponse, ErrorInfo>, calls: nat, delays: seq<nat>)

  /** The delays before retries 1 and 2: `2^retries * 1000` ms. */
  const Backoff: seq<nat> := [2000, 4000]

  /** The loop from call `retries` on; `outcomes(k)` is what call `k` returns. */
  function RetryFrom(outcomes: nat -> Outcome, retries: nat, delays: seq<nat>): (r: Attempts)
    requires retries <= MaxRetries && delays == Backoff[..retries]
    requires forall k :: 0 <= k < retries ==> RateLimited(outcomes(k))
    ensures retries < r.calls <= MaxRetries + 1
    ensures r.delays == Backoff[..r.calls - 1]
    ensures forall k :: 0 <= k < r.calls - 1 ==> RateLimited(outcomes(k))
    ensures r.result.Ok? <==> outcomes(r.calls - 1).Success?
    ensures r.result.Ok? ==> r.result.value == outcomes(r.calls - 1).resp
    ensures r.result.Err? ==>
      && r.result.error == GroqFailure(outcomes(r.calls - 1).status, outcomes(r.calls - 1).message)
      && (!RateLimited(outcomes(r.calls - 1)) || r.calls == MaxRetries + 1)
    decreases MaxRetries - retries
  {
    match outcomes(retries)
    case Success(resp) => Attempts(Ok(resp), retries + 1, delays)
    case Failure(status, message) =>
      if status == Some(429) && retries < MaxRetries then
        assert Backoff[..retries + 1] == delays + [Backoff[retries]];
        RetryFrom(outcomes, retries + 1, delays + [Backoff[retries]])
      else
        Attempts(Err(GroqFailure(status, message)), retries + 1, delays)
  }

  /** The retry loop of `transcribeSingle`: only rate-limited calls are repeated, at most
      twice, after 2000 ms and then 4000 ms; the first other outcome ends the loop. */
  function Retry(outcomes: nat -> Outcome): (r: Attempts)
    ensures 1 <= r.calls <= 3
    ensures r.delays == Backoff[..r.calls - 1]
    ensures forall k :: 0 <= k < r.calls - 1 ==> RateLimited(outcomes(k))
    ensures r.result.Ok? <==> outcomes(r.calls - 1).Success?
    ensures r.result.Ok? ==> r.result.value == outcomes(r.calls - 1).resp
    ensures r.result.Err? ==>
      && r.result.error == GroqFailure(outcomes(r.calls - 1).status, outcomes(r.calls - 1).message)
      && (!RateLimited(outcomes(r.calls - 1)) || r.calls == 3)
  {
    RetryFrom(outcomes, 0, [])
  }

  /** Two rate limits and then a response: three calls, 2000 ms and 4000 ms apart. */
  lemma TwoRateLimitsThenSuccess(outcomes: nat -> Outcome)
    requires RateLimited(outcomes(0)) && RateLimited(outcomes(1)) && outcomes(2).Success?
    ensures Retry(outcomes) == Attempts(Ok(outcomes(2).resp), 3, [2000, 4000])
  {
    var r := Retry(outcomes);
    assert r.calls == 3;
    assert Backoff[..2] == [2000, 4000];
  }

  /** A failure that is not a rate limit ends the loop at once as PROVIDER_ERROR, without suggestion. */
  lemma OtherFailureNotRetried(outcomes: nat -> Outcome)
    requires outcomes(0).Failure? && !RateLimited(outcomes(0))
    ensures Retry(outcomes).calls == 1 && Retry(outcomes).delays == []
    ensures Retry(outcomes).result == Err(ErrorInfo(ProviderError, "Groq transcription failed: " + outcomes(0).message, None))
  {
  }

  /** Three rate limits in a row: the third surfaces as PROVIDER_RATE_LIMITED with the suggestion. */
  lemma RateLimitExhausted(outcomes: nat -> Outcome)
    requires RateLimited(outcomes(0)) && RateLimited(outcomes(1)) && RateLimited(outcomes(2))
    ensures Retry(outcomes).calls == 3
    ensures Retry(outcomes).result.Err?
    ensures Retry(outcomes).result.error.code == ProviderRateLimited
    ensures Retry(outcomes).result.error.suggestion == Some(RateLimitSuggestion)
    ensures Retry(outcomes).result.error.message == "Groq transcription failed: " + outcomes(2).message
  {
  }

  /** One transcription call with its retries: the request sent, the calls and delays,
      and the normalised result or the error. */
  datatype SingleRun = SingleRun(request: GroqRequest, calls: nat, delays: seq<nat>,
                                 result: Result<TranscriptionResult, ErrorInfo>)

  /** `transcribeSingle`. */
  function TranscribeSingle(outcomes: nat -> Outcome, hint: Option<string>, wordTimestamps: bool): (r: SingleRun)
    ensures r.request == RequestFor(hint, wordTimestamps)
    ensures 1 <= r.calls <= 3 && |r.delays| == r.calls - 1
    ensures r.result.Ok? <==> outcomes(r.calls - 1).Success?
    ensures r.result.Ok? ==> r.result.value == Normalize(outcomes(r.calls - 1).resp, hint, wordTimestamps)
    ensures r.delays == Backoff[..r.calls - 1]
    ensures forall k :: 0 <= k < r.calls - 1 ==> RateLimited(outcomes(k))
    ensures r.result.Err? ==>
      && r.result.error == GroqFailure(outcomes(r.calls - 1).status, outcomes(r.calls - 1).message)
      && (!RateLimited(outcomes(r.calls - 1)) || r.calls == MaxRetries + 1)
    ensures r.result.Err? ==> r.result.error.code in {ProviderError, ProviderRateLimited}
  {
    var a := Retry(outcomes);
    SingleRun(RequestFor(hint, wordTimestamps), a.calls, a.delays,
              match a.result
              case Ok(resp) => Ok(Normalize(resp, hint, wordTimestamps))
              case Err(e) => Err(e))
  }

  // ---------------------------------------------------------------------------
  // Merging chunk transcripts
  // ---------------------------------------------------------------------------

  /** The accumulator of `transcribeChunked`'s loop. */
  datatype MergeState = MergeState(text: string, segments: seq<Segment>, duration: real,
                                   language: string, nextId: int)

  const MergeStart: MergeState := MergeState("", [], 0.0, "unknown", 0)

  /** A chunk's segments with ids moved up by `idOffset` and times by `t` seconds;
      text and word timings are kept as they are. */
  function Rebase(segs: seq<Segment>, idOffset: int, t: real): (r: seq<Segment>)
    ensures |r| == |segs|
    ensures forall k :: 0 <= k < |segs| ==>
      r[k] == segs[k].(id := idOffset + segs[k].id, start := t + segs[k].start, end := t + segs[k].end)
  {
    seq(|segs|, k requires 0 <= k < |segs| =>
      segs[k].(id := idOffset + segs[k].id, start := t + segs[k].start, end := t + segs[k].end))
  }

  /** One loop iteration for the chunk at position `i`. */
  function MergeStep(acc: MergeState, i: nat, c: TranscriptionResult): MergeState
  {
    MergeState(acc.text + (if acc.text != "" then " " else "") + c.text,
               acc.segments + Rebase(c.segments, acc.nextId, acc.duration),
               acc.duration + c.duration,
               if i == 0 then c.language else acc.language,
               acc.nextId + |c.segments|)
  }

  /** The loop over all chunks, as a fold on the last one. */
  function MergeAll(chunks: seq<TranscriptionResult>): MergeState
  {
    if chunks == [] then MergeStart
    else MergeStep(MergeAll(chunks[..|chunks| - 1]), |chunks| - 1, chunks[|chunks| - 1])
  }

  function Merge(chunks: seq<TranscriptionResult>): TranscriptionResult
  {
    var st := MergeAll(chunks);
    TranscriptionResult(st.language, st.duration, st.text, st.segments)
  }

  /** The number of segments in all chunks. */
  function SegmentCount(chunks: seq<TranscriptionResult>): nat
  {
    if chunks == [] then 0 else SegmentCount(chunks[..|chunks| - 1]) + |chunks[|chunks| - 1].segments|
  }

  /** The sum of the chunks' reported durations. */
  function DurationSum(chunks: seq<TranscriptionResult>): real
  {
    if chunks == [] then 0.0 else DurationSum(chunks[..|chunks| - 1]) + chunks[|chunks| - 1].duration
  }

  /** The merged transcript holds every chunk's segments, the duration is the sum of the
      reported durations, and the language is the first chunk's. */
  lemma {:induction false} MergeTotals(chunks: seq<TranscriptionResult>)
    ensures |MergeAll(chunks).segments| == SegmentCount(chunks)
    ensures MergeAll(chunks).nextId == SegmentCount(chunks)
    ensures MergeAll(chunks).duration == DurationSum(chunks)
    ensures MergeAll(chunks).language == if chunks == [] then "unknown" else chunks[0].language
  {
    if chunks != [] {
      var init := chunks[..|chunks| - 1];
      MergeTotals(init);
      if init != [] {
        assert init[0] == chunks[0];
      }
    }
  }

  /** Segment `j` of chunk `i` sits at index `SegmentCount(chunks[..i]) + j` of the merged
      list, with that count added to its id and the earlier chunks' durations added to
      its times; nothing else about it changes. */
  lemma {:induction false} MergePlacement(chunks: seq<TranscriptionResult>, i: nat, j: nat)
    requires i < |chunks| && j < |chunks[i].segments|
    ensures var before := SegmentCount(chunks[..i]);
      var t := DurationSum(chunks[..i]);
      var s := chunks[i].segments[j];
      before + j < |MergeAll(chunks).segments|
      && MergeAll(chunks).segments[before + j] == s.(id := before + s.id, start := t + s.start, end := t + s.end)
    decreases |chunks|
  {
    var n := |chunks|;
    var init := chunks[..n - 1];
    if i < n - 1 {
      MergeSnoc(chunks);
      assert init[..i] == chunks[..i];
      assert init[i] == chunks[i];
      MergePlacement(init, i, j);
      var front := MergeAll(init).segments;
      var k := SegmentCount(chunks[..i]) + j;
      assert k < |front|;
      assert MergeAll(chunks).segments == front + Rebase(chunks[n - 1].segments, SegmentCount(init), DurationSum(init));
      assert MergeAll(chunks).segments[k] == front[k];
    } else {
      PlacedInLast(chunks, j);
    }
  }

  lemma PlacedInLast(chunks: seq<TranscriptionResult>, j: nat)
    requires chunks != [] && j < |chunks[|chunks| - 1].segments|
    ensures var i := |chunks| - 1;
      var before := SegmentCount(chunks[..i]);
      var t := DurationSum(chunks[..i]);
      var s := chunks[i].segments[j];
      before + j < |MergeAll(chunks).segments|
      && MergeAll(chunks).segments[before + j] == s.(id := before + s.id, start := t + s.start, end := t + s.end)
  {
    MergeSnoc(chunks);
  }

  /** The last chunk's segments are appended, rebased past everything merged before it. */
  lemma MergeSnoc(chunks: seq<TranscriptionResult>)
    requires chunks != []
    ensures var init := chunks[..|chunks| - 1];
      MergeAll(chunks).segments
        == MergeAll(init).segments + Rebase(chunks[|chunks| - 1].segments, SegmentCount(init), DurationSum(init))
      && |MergeAll(init).segments| == SegmentCount(init)
  {
    MergeTotals(chunks[..|chunks| - 1]);
  }

  /** Chunks numbered by position merge into one list numbered by position. */
  lemma MergeNumbersByPosition(chunks: seq<TranscriptionResult>)
    requires forall i :: 0 <= i < |chunks| ==> NumberedByPosition(chunks[i].segments)
    ensures NumberedByPosition(MergeAll(chunks).segments)
    ensures |MergeAll(chunks).segments| == SegmentCount(chunks)
  {
    MergeTotals(chunks);
    forall m | 0 <= m < |MergeAll(chunks).segments|
      ensures MergeAll(chunks).segments[m].id == m
    {
      var i, j := Locate(chunks, m);
      MergePlacement(chunks, i, j);
    }
  }

  /** Chunks whose segments are ordered within their own durations merge into one
      ordered transcript: starts never decrease across chunk boundaries, and every
      segment lies within the summed duration. */
  lemma {:induction false} MergeOrdered(chunks: seq<TranscriptionResult>)
    requires forall i :: 0 <= i < |chunks| ==>
      chunks[i].duration >= 0.0 && Ordered(chunks[i].segments, chunks[i].duration)
    ensures Merge(chunks).duration >= 0.0
    ensures Ordered(Merge(chunks).segments, Merge(chunks).duration)
    decreases |chunks|
  {
    if chunks != [] {
      var n := |chunks|;
      var init := chunks[..n - 1];
      assert forall i :: 0 <= i < n - 1 ==> init[i] == chunks[i];
      MergeOrdered(init);
      MergeStepOrdered(chunks);
    }
  }

  /** Appending one ordered chunk to an ordered merge keeps it ordered. */
  lemma MergeStepOrdered(chunks: seq<TranscriptionResult>)
    requires chunks != []
    requires var c := chunks[|chunks| - 1]; c.duration >= 0.0 && Ordered(c.segments, c.duration)
    requires var m := MergeAll(chunks[..|chunks| - 1]); m.duration >= 0.0 && Ordered(m.segments, m.duration)
    ensures MergeAll(chunks).duration >= 0.0
    ensures Ordered(MergeAll(chunks).segments, MergeAll(chunks).duration)
  {
    var init := chunks[..|chunks| - 1];
    var c := chunks[|chunks| - 1];
    MergeSnoc(chunks);
    MergeTotals(init);
    var d := MergeAll(init).duration;
    assert MergeAll(chunks).duration == d + c.duration;
    RebasedOrdered(c.segments, SegmentCount(init), d, c.duration);
    OrderedConcat(MergeAll(init).segments, Rebase(c.segments, SegmentCount(init), DurationSum(init)), d, d + c.duration);
  }

  /** A chunk's segments shifted by `t >= 0` lie in `[t, t + duration]`, still in order. */
  lemma RebasedOrdered(segs: seq<Segment>, idOffset: int, t: real, duration: real)
    requires t >= 0.0 && Ordered(segs, duration)
    ensures var r := Rebase(segs, idOffset, t);
      && (forall i :: 0 <= i < |r| ==> t <= r[i].start <= r[i].end <= t + duration)
      && (forall i :: 0 < i < |r| ==> r[i - 1].start <= r[i].start)
  {
  }

  /** An ordered list within `[0, d]` followed by an ordered list within `[d, e]` is ordered within `[0, e]`. */
  lemma OrderedConcat(a: seq<Segment>, b: seq<Segment>, d: real, e: real)
    requires d >= 0.0 && d <= e && Ordered(a, d)
    requires forall i :: 0 <= i < |b| ==> d <= b[i].start <= b[i].end <= e
    requires forall i :: 0 < i < |b| ==> b[i - 1].start <= b[i].start
    ensures Ordered(a + b, e)
  {
    var ab := a + b;
    forall i | 0 < i < |ab|
      ensures ab[i - 1].start <= ab[i].start
    {
      if i > |a| {
        assert ab[i - 1] == b[i - 1 - |a|] && ab[i] == b[i - |a|];
      } else if i == |a| {
        assert ab[i] == b[0];
      }
    }
  }

  /** Which chunk, and which segment in it, merged position `m` comes from. */
  lemma {:induction false} Locate(chunks: seq<TranscriptionResult>, m: nat) returns (i: nat, j: nat)
    requires m < SegmentCount(chunks)
    ensures i < |chunks| && j < |chunks[i].segments| && m == SegmentCount(chunks[..i]) + j
    decreases |chunks|
  {
    var n := |chunks|;
    var init := chunks[..n - 1];
    if m < SegmentCount(init) {
      i, j := Locate(init, m);
      assert init[..i] == chunks[..i];
    } else {
      i, j := n - 1, m - SegmentCount(init);
    }
  }

  /** The texts of the chunks, in order. */
  function Texts(chunks: seq<TranscriptionResult>): (r: seq<string>)
    ensures |r| == |chunks| && forall k :: 0 <= k < |chunks| ==> r[k] == chunks[k].text
  {
    seq(|chunks|, k requires 0 <= k < |chunks| => chunks[k].text)
  }

  /** The texts from the first non-empty one on. */
  function DropLeadingEmpty(ts: seq<string>): (r: seq<string>)
    ensures r == [] || r[0] != ""
  {
    if ts == [] then [] else if ts[0] == "" then DropLeadingEmpty(ts[1..]) else ts
  }

  lemma {:induction false} DropLeadingEmptySnoc(ts: seq<string>, t: string)
    ensures DropLeadingEmpty(ts + [t]) ==
      if DropLeadingEmpty(ts) == [] then (if t == "" then [] else [t]) else DropLeadingEmpty(ts) + [t]
    decreases |ts|
  {
    if ts == [] {
      assert ts + [t] == [t];
      assert [t][1..] == [];
    } else {
      assert (ts + [t])[1..] == ts[1..] + [t];
      DropLeadingEmptySnoc(ts[1..], t);
    }
  }

  /** The merged text is the chunk texts joined by single spaces, once the first
      non-empty text has been reached: an empty chunk after that still adds a space. */
  lemma {:induction false} MergeText(chunks: seq<TranscriptionResult>)
    ensures MergeAll(chunks).text == Join(DropLeadingEmpty(Texts(chunks)), " ")
  {
    if chunks != [] {
      var n := |chunks|;
      var init := chunks[..n - 1];
      var t := chunks[n - 1].text;
      MergeText(init);
      assert Texts(chunks) == Texts(init) + [t];
      DropLeadingEmptySnoc(Texts(init), t);
      var d := DropLeadingEmpty(Texts(init));
      JoinSnoc(d, t, " ");
      if d != [] {
        JoinHead(d, " ");
      }
    }
  }

  lemma {:induction false} JoinHead(parts: seq<string>, sep: string)
    requires parts != [] && parts[0] != ""
    ensures Join(parts, sep) != ""
  {
    assert |Join(parts, sep)| >= |parts[0]|;
  }

  // ---------------------------------------------------------------------------
  // Chunked and routed transcription
  // ---------------------------------------------------------------------------

  /** `run(i)` is the first failure among `run(0)`, ..., `run(n - 1)`. */
  predicate FirstFailureAt<T>(run: nat -> Result<T, ErrorInfo>, n: nat, i: nat)
  {
    && i < n && run(i).Err?
    && forall k :: 0 <= k < i ==> run(k).Ok?
  }

  /** Runs `run(0)`, ..., `run(n - 1)` in order and stops at the first failure. */
  function RunInOrder<T>(n: nat, run: nat -> Result<T, ErrorInfo>): (r: Result<seq<T>, ErrorInfo>)
    ensures r.Ok? <==> forall i :: 0 <= i < n ==> run(i).Ok?
    ensures r.Ok? ==> |r.value| == n
    ensures r.Ok? ==> forall i :: 0 <= i < n ==> r.value[i] == run(i).value
    ensures r.Err? ==> exists i :: FirstFailureAt(run, n, i) && r.error == run(i).error
  {
    if n == 0 then Ok([])
    else
      match RunInOrder(n - 1, run)
      case Err(e) =>
        var i :| FirstFailureAt(run, n - 1, i) && e == run(i).error;
        assert FirstFailureAt(run, n, i);
        Err(e)
      case Ok(done) =>
        match run(n - 1)
        case Err(e) =>
          assert FirstFailureAt(run, n, n - 1);
          Err(e)
        case Ok(res) => Ok(done + [res])
  }

  /** What transcribing chunk `i` gives. */
  function ChunkResult(outcomes: nat -> nat -> Outcome, hint: Option<string>, wordTimestamps: bool): nat -> Result<TranscriptionResult, ErrorInfo>
  {
    (i: nat) => TranscribeSingle(outcomes(i), hint, wordTimestamps).result
  }

  /** The first `n` chunks transcribed in order; `outcomes(i)` scripts chunk `i`'s calls.
      The first failure aborts the whole run. */
  function TranscribeChunks(n: nat, outcomes: nat -> nat -> Outcome, hint: Option<string>, wordTimestamps: bool)
    : (r: Result<seq<TranscriptionResult>, ErrorInfo>)
  {
    RunInOrder(n, ChunkResult(outcomes, hint, wordTimestamps))
  }

  /** `t` is the merge of `results`, which is what transcribing the first `|results|` chunks gave. */
  predicate MergedFrom(t: TranscriptionResult, results: seq<TranscriptionResult>, outcomes: nat -> nat -> Outcome,
                       hint: Option<string>, wordTimestamps: bool)
  {
    t == Merge(results) && TranscribeChunks(|results|, outcomes, hint, wordTimestamps) == Ok(results)
  }

  /** `transcribeChunked`: split at the 24 MB target, transcribe each chunk, merge. When
      the split succeeds, the result is the merge of all `NumChunks` chunk transcripts if
      every chunk succeeds, and otherwise the first failing chunk's error; nothing partial
      is returned. */
  function TranscribeChunked(audioPath: string, audioBytes: nat, probe: Result<real, ProcessFailure>,
                             cutFails: seq<string> -> Option<ProcessFailure>, tempDir: string, chunkIds: nat -> string,
                             outcomes: nat -> nat -> Outcome, hint: Option<string>, wordTimestamps: bool)
    : (r: Result<TranscriptionResult, ErrorInfo>)
    ensures SplitAudioBySize(audioPath, audioBytes, ChunkTargetMB, probe, cutFails, tempDir, chunkIds).Err? ==>
      r == Err(SplitAudioBySize(audioPath, audioBytes, ChunkTargetMB, probe, cutFails, tempDir, chunkIds).error)
    ensures SplitAudioBySize(audioPath, audioBytes, ChunkTargetMB, probe, cutFails, tempDir, chunkIds).Ok? ==>
      var n := NumChunks(audioBytes, ChunkTargetMB);
      && (r.Ok? <==> forall i :: 0 <= i < n ==> ChunkResult(outcomes, hint, wordTimestamps)(i).Ok?)
      && (r.Ok? ==> exists results: seq<TranscriptionResult> ::
            && |results| == n
            && (forall i :: 0 <= i < n ==> ChunkResult(outcomes, hint, wordTimestamps)(i) == Ok(results[i]))
            && r.value == Merge(results))
      && (r.Err? ==> exists i :: FirstFailureAt(ChunkResult(outcomes, hint, wordTimestamps), n, i)
                                 && r.error == ChunkResult(outcomes, hint, wordTimestamps)(i).error)
    ensures r.Ok? ==> exists results :: MergedFrom(r.value, results, outcomes, hint, wordTimestamps)
  {
    match SplitAudioBySize(audioPath, audioBytes, ChunkTargetMB, probe, cutFails, tempDir, chunkIds)
    case Err(e) => Err(e)
    case Ok(paths) =>
      assert |paths| == NumChunks(audioBytes, ChunkTargetMB);
      match TranscribeChunks(|paths|, outcomes, hint, wordTimestamps)
      case Err(e) => Err(e)
      case Ok(results) =>
        assert MergedFrom(Merge(results), results, outcomes, hint, wordTimestamps);
        Ok(Merge(results))
  }

  /** Which path a file of `bytes` bytes takes. */
  datatype Route = SingleCall | ChunkedCalls

  function RouteFor(bytes: nat): (r: Route)
    ensures r == ChunkedCalls <==> bytes > MaxFileSizeMB * BytesPerMB
  {
    if bytes > MaxFileSizeMB * BytesPerMB then ChunkedCalls else SingleCall
  }

  /** Exactly 25 MB still goes in one call; one byte more is split. */
  lemma RouteBoundary()
    ensures RouteFor(25 * 1048576) == SingleCall
    ensures RouteFor(25 * 1048576 + 1) == ChunkedCalls
  {
  }

  const MissingKey: ErrorInfo := ErrorInfo(ProviderError, "GROQ_API_KEY is not configured.",
    Some("Set the GROQ_API_KEY environment variable. Get a free key at console.groq.com"))

  /** Everything `transcribeWithGroq` depends on besides its arguments: the configured key,
      the extraction outcome and id, the size of the audio that is sent, the splitter's
      probe and cut outcomes and ids, and the scripted backend calls (for the single call,
      and per chunk). */
  datatype GroqEnv = GroqEnv(
    apiKey: string, tempDir: string, extractId: string, extraction: Option<ProcessFailure>,
    audioBytes: nat, probe: Result<real, ProcessFailure>, cutFails: seq<string> -> Option<ProcessFailure>,
    chunkIds: nat -> string, single: nat -> Outcome, chunks: nat -> nat -> Outcome)

  /** The audio that is sent: the extracted track of a video file, the file itself otherwise. */
  function AudioSource(filePath: string, env: GroqEnv): Result<(seq<string>, string), ErrorInfo>
  {
    if IsVideoFile(filePath) then ExtractFromVideo(filePath, env.tempDir, env.extractId, env.extraction)
    else Ok(([], filePath))
  }

  /** `transcribeWithGroq`: no key fails before anything else; video input is first
      reduced to 16 kHz mono audio; then the size decides between one call and chunks. */
  function TranscribeWithGroq(filePath: string, hint: Option<string>, wordTimestamps: bool, env: GroqEnv)
    : (r: Result<TranscriptionResult, ErrorInfo>)
    ensures env.apiKey == "" ==> r == Err(MissingKey)
    ensures env.apiKey != "" && IsVideoFile(filePath) && env.extraction.Some? ==>
      r == Err(FfmpegFailed(env.extraction.value))
    ensures env.apiKey != "" && (!IsVideoFile(filePath) || env.extraction.None?) && RouteFor(env.audioBytes) == SingleCall ==>
      r == TranscribeSingle(env.single, hint, wordTimestamps).result
    ensures env.apiKey != "" && (!IsVideoFile(filePath) || env.extraction.None?) && RouteFor(env.audioBytes) == ChunkedCalls ==>
      r.Ok? ==> exists results :: MergedFrom(r.value, results, env.chunks, hint, wordTimestamps)
    ensures env.apiKey != "" && AudioSource(filePath, env).Ok? && RouteFor(env.audioBytes) == ChunkedCalls ==>
      r == TranscribeChunked(AudioSource(filePath, env).value.1, env.audioBytes, env.probe, env.cutFails,
                             env.tempDir, env.chunkIds, env.chunks, hint, wordTimestamps)
  {
    if env.apiKey == "" then Err(MissingKey)
    else
      match AudioSource(filePath, env)
      case Err(e) => Err(e)
      case Ok((_, audioPath)) =>
        match RouteFor(env.audioBytes)
        case ChunkedCalls =>
          TranscribeChunked(audioPath, env.audioBytes, env.probe, env.cutFails, env.tempDir, env.chunkIds,
                            env.chunks, hint, wordTimestamps)
        case SingleCall => TranscribeSingle(env.single, hint, wordTimestamps).result
  }
}

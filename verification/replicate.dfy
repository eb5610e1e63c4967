/**
 * The Replicate Whisper backend: the token check, the request it sends,
 * normalisation of the model's output and the error every remote failure
 * becomes. The remote call is its outcome, given as a parameter.
 */
module Replicate {
  import opened Base
  import opened Text
  import opened Transcript

  const MissingToken: ErrorInfo := ErrorInfo(ProviderError, "REPLICATE_API_TOKEN is not configured.",
    Some("Set the REPLICATE_API_TOKEN environment variable."))

  /** The `input` object of the prediction request. */
  datatype ReplicateRequest = ReplicateRequest(audio: string, model: string, language: Option<string>,
                                               translate: bool, transcription: string)

  /** The file is passed as a `file://` URL; the language hint only when it is non-empty
      and not "auto". */
  function RequestFor(filePath: string, hint: Option<string>): (q: ReplicateRequest)
    ensures |q.audio| == 7 + |filePath| && q.audio[7..] == filePath
    ensures q.language.Some? <==> Truthy(hint) && hint.value != "auto"
    ensures q.language.Some? ==> q.language == hint
    ensures !q.translate
  {
    ReplicateRequest("file://" + filePath, "large-v3",
                     if Truthy(hint) && hint.value != "auto" then hint else None, false, "srt")
  }

  /** The fields of the model's output that are read; any may be missing. */
  datatype RawOutput = RawOutput(detectedLanguage: Option<string>, transcription: Option<string>,
                                 segments: Option<seq<RawSegment>>)

  /** The output as a `TranscriptionResult`: positional ids, trimmed texts, no word
      timings, and the last segment's end as the duration. */
  function NormalizeOutput(out: RawOutput, hint: Option<string>): (r: TranscriptionResult)
    ensures r.segments == NumberSegments(out.segments.GetOr([]))
    ensures r.segments == [] ==> r.duration == 0.0
    ensures r.segments != [] ==> r.duration == r.segments[|r.segments| - 1].end
    ensures r.language == FirstTruthy(out.detectedLanguage, hint, "unknown")
    ensures r.text == out.transcription.GetOr("")
  {
    var segs := NumberSegments(out.segments.GetOr([]));
    TranscriptionResult(FirstTruthy(out.detectedLanguage, hint, "unknown"),
                        if |segs| > 0 then segs[|segs| - 1].end else 0.0,
                        out.transcription.GetOr(""), segs)
  }

  /** The duration is the end of the last segment the model returned. */
  lemma DurationIsLastEnd(out: RawOutput, hint: Option<string>)
    requires out.segments.Some? && out.segments.value != []
    ensures NormalizeOutput(out, hint).duration == out.segments.value[|out.segments.value| - 1].end
  {
  }

  /** What one call of `transcribeWithReplicate` did: the request, if one was made, and its result. */
  datatype ReplicateRun = ReplicateRun(request: Option<ReplicateRequest>, result: Result<TranscriptionResult, ErrorInfo>)

  /** `transcribeWithReplicate`: without a token it fails before any request; a remote
      failure (rendered as `err?.message || err`) is always PROVIDER_ERROR, never a rate limit. */
  function TranscribeWithReplicate(token: string, filePath: string, hint: Option<string>,
                                   remote: Result<RawOutput, string>): (r: ReplicateRun)
    ensures token == "" <==> r.request.None?
    ensures token == "" ==> r.result == Err(MissingToken)
    ensures token != "" ==> r.request == Some(RequestFor(filePath, hint))
    ensures token != "" && remote.Ok? ==> r.result == Ok(NormalizeOutput(remote.value, hint))
    ensures token != "" && remote.Err? ==>
      r.result == Err(ErrorInfo(ProviderError, "Replicate transcription failed: " + remote.error, None))
    ensures r.result.Err? ==> r.result.error.code == ProviderError
  {
    if token == "" then ReplicateRun(None, Err(MissingToken))
    else
      ReplicateRun(Some(RequestFor(filePath, hint)),
                   match remote
                   case Ok(out) => Ok(NormalizeOutput(out, hint))
                   case Err(message) => Err(ErrorInfo(ProviderError, "Replicate transcription failed: " + message, None)))
  }
}

/**
 * Provider selection for transcription: the configured provider is called,
 * and a Groq failure that is a provider error or a rate limit falls back to
 * Replicate once, when a Replicate token is configured. The log of backend
 * calls makes "which backends ran, with what" part of the result.
 */
module BaseProvider {
  import opened Base
  import opened Transcript
  import opened FileManager
  import opened Ffmpeg
  import opened Groq
  import opened Replicate

  /** A call into a backend, with the arguments it was given. */
  datatype Call =
    | GroqCall(path: string, hint: Option<string>, wordTimestamps: bool)
    | ReplicateCall(path: string, hint: Option<string>)

  /** The calls made and the result (or the error thrown). */
  datatype Dispatch = Dispatch(calls: seq<Call>, result: Result<TranscriptionResult, ErrorInfo>)

  /** The Groq errors that trigger the fallback. */
  predicate FallsBack(e: ErrorInfo)
  {
    e.code == ProviderRateLimited || e.code == ProviderError
  }

  function Unsupported(provider: string): ErrorInfo
  {
    ErrorInfo(ProviderError, "Unsupported transcription provider: " + provider, None)
  }

  /** What the backend behind `c` returns. */
  function ResultOf(c: Call, groq: Result<TranscriptionResult, ErrorInfo>, token: string, remote: Result<RawOutput, string>)
    : Result<TranscriptionResult, ErrorInfo>
  {
    match c
    case GroqCall(_, _, _) => groq
    case ReplicateCall(path, hint) => TranscribeWithReplicate(token, path, hint, remote).result
  }

  /** `transcribe`. `groq` is what the Groq backend returns for this request (the `Groq`
      module models it: `TranscribeWithGroq`), `token` the configured Replicate token and
      `remote` the outcome of the Replicate request. At most Groq and then Replicate are
      called, each with the caller's file and hint, and the caller receives what the last
      backend called returned. */
  function Transcribe(provider: string, token: string, filePath: string, hint: Option<string>, wordTimestamps: bool,
                      groq: Result<TranscriptionResult, ErrorInfo>, remote: Result<RawOutput, string>): (d: Dispatch)
    ensures |d.calls| <= 2
    ensures d.calls == [] <==> provider != "groq" && provider != "replicate"
    ensures d.calls == [] ==> d.result == Err(Unsupported(provider))
    ensures d.calls != [] ==> (d.calls[0].GroqCall? <==> provider == "groq")
    ensures |d.calls| == 2 ==> d.calls[0].GroqCall? && d.calls[1].ReplicateCall?
    ensures forall k :: 0 <= k < |d.calls| ==>
      d.calls[k] == GroqCall(filePath, hint, wordTimestamps) || d.calls[k] == ReplicateCall(filePath, hint)
    ensures d.calls != [] ==> d.result == ResultOf(d.calls[|d.calls| - 1], groq, token, remote)
  {
    if provider == "groq" then
      var first := GroqCall(filePath, hint, wordTimestamps);
      if groq.Err? && FallsBack(groq.error) && token != "" then
        Dispatch([first, ReplicateCall(filePath, hint)], TranscribeWithReplicate(token, filePath, hint, remote).result)
      else Dispatch([first], groq)
    else if provider == "replicate" then
      Dispatch([ReplicateCall(filePath, hint)], TranscribeWithReplicate(token, filePath, hint, remote).result)
    else
      Dispatch([], Err(Unsupported(provider)))
  }

  /** With Groq selected, Replicate is called exactly when Groq failed with a rate limit or
      a provider error and a Replicate token is configured. */
  lemma FallbackExactly(token: string, filePath: string, hint: Option<string>, wordTimestamps: bool,
                        groq: Result<TranscriptionResult, ErrorInfo>, remote: Result<RawOutput, string>)
    ensures |Transcribe("groq", token, filePath, hint, wordTimestamps, groq, remote).calls| == 2
      <==> groq.Err? && FallsBack(groq.error) && token != ""
  {
  }

  /** With Replicate selected, Groq is never called. */
  lemma ReplicateOnly(token: string, filePath: string, hint: Option<string>, wordTimestamps: bool,
                      groq: Result<TranscriptionResult, ErrorInfo>, remote: Result<RawOutput, string>)
    ensures var d := Transcribe("replicate", token, filePath, hint, wordTimestamps, groq, remote);
      d.calls == [ReplicateCall(filePath, hint)] && d.result == TranscribeWithReplicate(token, filePath, hint, remote).result
  {
  }

  /** With Groq selected, a Groq success is returned as is and Replicate is never called. */
  lemma GroqSuccessIsFinal(token: string, filePath: string, hint: Option<string>, wordTimestamps: bool,
                           groq: Result<TranscriptionResult, ErrorInfo>, remote: Result<RawOutput, string>)
    requires groq.Ok?
    ensures var d := Transcribe("groq", token, filePath, hint, wordTimestamps, groq, remote);
      d.result == groq && forall k :: 0 <= k < |d.calls| ==> d.calls[k].GroqCall?
  {
  }

  /** A failed extraction or split (FFMPEG_ERROR) is rethrown unchanged, without fallback,
      whatever the Replicate token. */
  lemma FfmpegFailureIsRethrown(token: string, filePath: string, hint: Option<string>, wordTimestamps: bool,
                                groq: Result<TranscriptionResult, ErrorInfo>, remote: Result<RawOutput, string>)
    requires groq.Err? && groq.error.code == FfmpegError
    ensures Transcribe("groq", token, filePath, hint, wordTimestamps, groq, remote)
      == Dispatch([GroqCall(filePath, hint, wordTimestamps)], groq)
  {
  }

  /** A missing Groq key is itself a PROVIDER_ERROR, so with a Replicate token the request
      goes to Replicate; the fallback never passes the word-timestamp flag on. */
  lemma MissingGroqKeyFallsBack(token: string, filePath: string, hint: Option<string>, wordTimestamps: bool,
                                env: GroqEnv, remote: Result<RawOutput, string>)
    requires env.apiKey == "" && token != ""
    ensures var d := Transcribe("groq", token, filePath, hint, wordTimestamps,
                                TranscribeWithGroq(filePath, hint, wordTimestamps, env), remote);
      d.calls == [GroqCall(filePath, hint, wordTimestamps), ReplicateCall(filePath, hint)]
      && d.result == TranscribeWithReplicate(token, filePath, hint, remote).result
  {
  }

  /** Without a Replicate token the Groq error is rethrown unchanged. */
  lemma NoTokenRethrows(filePath: string, hint: Option<string>, wordTimestamps: bool,
                        groq: Result<TranscriptionResult, ErrorInfo>, remote: Result<RawOutput, string>)
    requires groq.Err?
    ensures Transcribe("groq", "", filePath, hint, wordTimestamps, groq, remote)
      == Dispatch([GroqCall(filePath, hint, wordTimestamps)], groq)
  {
  }

  /** Whichever backend answers, an error the caller sees is never a rate limit once the
      fallback has run: Replicate reports every failure as PROVIDER_ERROR. */
  lemma FallbackErrorsAreProviderErrors(token: string, filePath: string, hint: Option<string>, wordTimestamps: bool,
                                        groq: Result<TranscriptionResult, ErrorInfo>, remote: Result<RawOutput, string>)
    requires |Transcribe("groq", token, filePath, hint, wordTimestamps, groq, remote).calls| == 2
    ensures var d := Transcribe("groq", token, filePath, hint, wordTimestamps, groq, remote);
      d.result.Err? ==> d.result.error.code == ProviderError
  {
  }

  /** Both backends number, time and trim segments alike when no word timings are asked for. */
  lemma BackendsAgreeOnSegments(segs: Option<seq<RawSegment>>, language: Option<string>, text: Option<string>,
                                duration: Option<real>, words: Option<seq<Word>>, hint: Option<string>)
    ensures Normalize(RawResponse(language, duration, text, segs, words), hint, false).segments
      == NormalizeOutput(RawOutput(language, text, segs), hint).segments
  {
    NormalizeWithoutWords(RawResponse(language, duration, text, segs, words), hint);
  }
}

# mediaforge-mcp transcription and media core, in Dafny

This project models the core of mediaforge-mcp, an MCP server that transcribes audio and video and renders subtitles.
The model covers:

- **Transcription backends.** The Groq Whisper backend routes a file by size, retries on HTTP 429, normalises
  responses and splits oversized audio into chunks whose transcripts it merges. The Replicate Whisper backend
  normalises its output and classifies errors. A provider router falls back from Groq to Replicate.
- **The ffmpeg layer.** It builds command lines for extraction, track export, subtitle burn-in and chunk cuts. It
  derives error messages from a failed process, maps colours to ASS, escapes the subtitle path, and selects streams
  from an ffprobe record.
- **Subtitle writers.** SubRip and WebVTT output, including the greedy two-line wrap.
- **Tool-input validators.**
- **File helpers.** Extension classification, the size check and temporary file names.

Everything outside the process is a parameter. That includes what ffmpeg or ffprobe reports, what each backend call
returns, the file size on disk, the configured keys and the random ids. So every operation is a pure function of its
inputs, and a failure is a `Result.Err` carrying the `{code, message, suggestion}` record that the source throws.
The provider router takes each backend's outcome the same way: `BaseProvider.Transcribe` is given what the Groq backend
returned, and `Groq.TranscribeWithGroq` models how that outcome comes about.

Modules, one per file: `Base` (Option, Result, error codes), `Text` (the JavaScript string and number operations the
source relies on), `Transcript` (segments and results), `FormatConverter`, `FileManager`, `Validators`, `Ffmpeg`,
`Groq`, `Replicate` and `BaseProvider`.

Points where the model follows the code rather than the prose description of the system:

- **The error detail of a failed ffmpeg run is the text after the last newline of stderr.** ffmpeg usually ends stderr
  with a newline, and then that text is empty, so the message falls back to the process error's own message. The model
  keeps this rule (`Ffmpeg.FailureDetail`).
- **A subtitle line can exceed the width.** A single word longer than the width is placed alone on its line.
  `FormatConverter.SplitTextLineWidth` states the bound with that exception.
- **Falling back to Replicate is not limited to rate limits.** Any Groq `PROVIDER_ERROR` also falls back, and that
  includes a missing Groq key.

## Model

| member | source | states |
|---|---|---|
| FormatConverter.Pad | src/utils/format-converter.ts:19-21 | below 100 the result is exactly two digits, zero-filled; from 100 on it is the plain decimal rendering |
| FormatConverter.Pad3 | src/utils/format-converter.ts:23-25 | below 1000 the result is exactly three digits, zero-filled; from 1000 on it is the plain decimal rendering |
| FormatConverter.FormatTime | src/utils/format-converter.ts:3-17 | below 100 hours a timestamp is 12 characters, with ':' at positions 2 and 5 and the separator at position 8 |
| FormatConverter.TimestampRoundTrip | src/utils/format-converter.ts:3-25 | below 100 hours, reading a rendered timestamp back gives the millisecond count it was rendered from |
| FormatConverter.SrtVttTimestampsDiffer | src/utils/format-converter.ts:8-16 | the SubRip and WebVTT timestamps of one time have equal length and differ only at the separator, ',' versus '.' |
| FormatConverter.ToMillis | src/utils/format-converter.ts:7 | a non-negative time in seconds becomes the nearest whole millisecond count, within half a millisecond |
| FormatConverter.FormatTimeAsWritten | src/utils/format-converter.ts:3-9 | the as-written rendering (floored fields, rounded fraction) is always at least 12 characters |
| FormatConverter.AsWrittenMillisOverflow | src/utils/format-converter.ts:7-8 | as written, 0.9996 s renders as "00:00:00,1000"; the corrected rendering gives "00:00:01,000" |
| FormatConverter.AsWrittenAgrees | src/utils/format-converter.ts:3-17 | for a non-negative time whose rounded fraction stays below 1000 ms, the as-written rendering equals the rendering of the whole rounded millisecond count |
| FormatConverter.Words | src/utils/format-converter.ts:28 | the trimmed text split on whitespace gives at least one piece, and no piece contains whitespace |
| FormatConverter.WordsShape | src/utils/format-converter.ts:28 | blank text gives the single empty word; other text gives only non-empty words |
| FormatConverter.SplitText | src/utils/format-converter.ts:27-43 | at most two lines are kept; the width test counts JavaScript string length in UTF-16 code units, two for a character beyond U+FFFF |
| FormatConverter.AllLinesAreGroups | src/utils/format-converter.ts:32-40 | the greedy loop's lines are the joins of word groups that partition the words in order; each group is non-empty and its join is at most the width in UTF-16 code units, or it is a single word |
| FormatConverter.PackMatchesGroups | src/utils/format-converter.ts:32-40 | the string-building loop agrees with the reference loop over word groups |
| FormatConverter.GroupLoopProps | src/utils/format-converter.ts:32-39 | the reference loop forms non-empty acceptable groups whose concatenation is exactly the input words |
| FormatConverter.SplitTextLineWidth | src/utils/format-converter.ts:27-43 | every emitted line is at most the width in UTF-16 code units, or is one of the text's words, too long to fit, placed alone |
| FormatConverter.SurrogatePairsCountTwice | src/utils/format-converter.ts:33 | a character beyond U+FFFF counts as two units: beside a one-emoji line, "ab" does not fit within 4 and starts a new line |
| FormatConverter.EmptyTextNoLines | src/utils/format-converter.ts:27-43 | a text wraps to no lines exactly when it is empty or all whitespace |
| FormatConverter.SplitTextKeepsWordPrefix | src/utils/format-converter.ts:27-43 | the kept lines joined by spaces are an in-order prefix of the words; with at most two lines nothing is dropped |
| FormatConverter.EntryNumberedByPosition | src/utils/format-converter.ts:49-53 | cue i is numbered i + 1 by position, whatever the segment's own id |
| FormatConverter.EntryLengthSameInBothDialects | src/utils/format-converter.ts:52-65 | one cue has the same length in SubRip and WebVTT |
| FormatConverter.SrtAppend | src/utils/format-converter.ts:45-55 | appending a segment appends exactly one cue, numbered by position, after a blank line; the rest of the document is unchanged |
| FormatConverter.VttAppend | src/utils/format-converter.ts:57-69 | the same for WebVTT, with the header kept in front |
| FormatConverter.EmptyDocuments | src/utils/format-converter.ts:45-69 | no segments give "\n" for SubRip and "WEBVTT\n\n\n" for WebVTT |
| FormatConverter.VttLength | src/utils/format-converter.ts:57-69 | a WebVTT document is exactly 8 characters (its header) longer than the SubRip one for the same segments |
| FormatConverter.SingleSegmentDocuments | src/utils/format-converter.ts:45-69 | a one-segment document is its single cue between the header and the final newline |
| FormatConverter.HelloWorldExample | src/utils/format-converter.ts:45-69 | a 0–2.5 s "hello world" segment renders as "1\n00:00:00,000 --> 00:00:02,500\nhello world\n", and as the WebVTT equivalent |
| FileManager.ExtName | src/utils/file-manager.ts:42 | Node's extname: either empty, or a suffix of the last path component that starts with its only '.' and has no '/' |
| FileManager.ExtNameOfName | src/utils/file-manager.ts:17-21 | a name `stem + ext` under a directory has extension `ext` |
| FileManager.ExtNameToLower | src/utils/file-manager.ts:64 | lower-casing commutes with taking the extension |
| FileManager.OnlyWebmOnBothLists | src/utils/file-manager.ts:7-8 | ".webm" is the one extension on both the video and the audio list |
| FileManager.WebmIsBoth | src/utils/file-manager.ts:63-69 | a path is both video and audio exactly when its lower-cased extension is ".webm" |
| FileManager.ClassificationIgnoresCase | src/utils/file-manager.ts:63-69 | a path and its lower-cased form are classified alike |
| FileManager.UpperCaseMp4IsVideo | src/utils/file-manager.ts:63-65 | a name ending in ".MP4" is a video file |
| FileManager.KelvinSignMkv | src/utils/file-manager.ts:52-65 | a name ending in ".M" + U+212A (Kelvin sign) + "V" lower-cases to ".mkv", so it is a video file and passes the video check |
| FileManager.ValidateMediaFormat | src/utils/file-manager.ts:41-50 | passes exactly on video or audio files (extension lower-cased, A–Z and the Kelvin sign folded); otherwise UNSUPPORTED_FORMAT, with the lower-cased extension and the joined list of supported extensions |
| FileManager.ValidateVideoFormat | src/utils/file-manager.ts:52-61 | passes exactly on video files (extension lower-cased as above); otherwise UNSUPPORTED_FORMAT, with the extension and the video list |
| FileManager.VideoCheckIsStricter | src/utils/file-manager.ts:41-61 | every path that passes the video check also passes the media check |
| FileManager.ValidateFileSize | src/utils/file-manager.ts:29-39 | passes exactly when the size is at most the limit in MiB; otherwise FILE_TOO_LARGE with the message "File is X.YMB, max is NMB" (X.Y the one-decimal rendering of the size, N the limit) and the trim suggestion |
| FileManager.SizeLimitBoundary | src/utils/file-manager.ts:32 | a file of exactly the limit passes and one byte more fails |
| FileManager.MegabytesText | src/utils/file-manager.ts:31-35 | `toFixed(1)` of the size in MiB: digits, '.', one digit, reading back as the tenths t with t/10 − 1/20 ≤ size < t/10 + 1/20 (half rounds up) |
| FileManager.ShortId | src/utils/file-manager.ts:19 | the first eight characters of the id, or all of it when shorter |
| FileManager.JoinPath | src/utils/file-manager.ts:20 | the name is kept as the last component, after a '/' when the directory is non-empty |
| FileManager.TempPathShape | src/utils/file-manager.ts:17-21 | a temporary path is the directory joined with `prefix_id + ext`, and its extension is `ext` |
| Validators.RequireString | src/utils/validators.ts:15-20 | accepts exactly the strings that are not blank and returns them trimmed; otherwise INVALID_PARAMS with the "is required" message |
| Validators.OptionalString | src/utils/validators.ts:22-28 | absent gives none, a string gives its trimmed form, anything else fails with "must be a string." |
| Validators.OptionalEnum | src/utils/validators.ts:30-44 | absent gives the default; otherwise it accepts exactly a string on the allowed list, returned unchanged; failures list the allowed values and the value given |
| Validators.OptionalBoolean | src/utils/validators.ts:46-52 | absent gives the default, a boolean is returned as is, anything else fails |
| Validators.OptionalNumber | src/utils/validators.ts:54-72 | absent gives the default; otherwise it accepts exactly a number within the inclusive bounds; the type check comes first, then the minimum, then the maximum |
| Validators.FailuresAreInvalidParams | src/utils/validators.ts:3-72 | every validator failure is INVALID_PARAMS without a suggestion |
| Validators.RequireStringIdempotent | src/utils/validators.ts:15-20 | feeding an accepted value back in returns the same value |
| Validators.OptionalAgreesWithRequired | src/utils/validators.ts:15-28 | on an acceptable string the optional and the required validators return the same text |
| Validators.TypeCheckBeforeRange | src/utils/validators.ts:62-64 | a non-number fails with "must be a number." whatever the bounds |
| Validators.BoundsAreInclusive | src/utils/validators.ts:65-70 | values equal to either bound are accepted |
| Ffmpeg.FailureDetail | src/providers/ffmpeg.ts:20-23 | the detail is the text after the last newline of stderr when that text is non-empty, and the error's message otherwise |
| Ffmpeg.FfmpegFailed | src/providers/ffmpeg.ts:20-23 | FFMPEG_ERROR, with the message prefixed "FFmpeg failed: " |
| Ffmpeg.FfprobeFailed | src/providers/ffmpeg.ts:33-36 | FFMPEG_ERROR, with the message prefixed "ffprobe failed: " |
| Ffmpeg.ExtractFromVideo | src/providers/ffmpeg.ts:40-51 | fails exactly when the run fails, and then with that run's error; otherwise writes the "audio_extract" ".wav" temporary path with the exact argument list: drop the video, 16-bit PCM, 16 kHz, one channel, overwrite |
| Ffmpeg.ExtractedAudioIsNotVideo | src/providers/ffmpeg.ts:40-41 | for an id without '/', the extraction output path has extension ".wav" and is not a video file |
| Ffmpeg.CodecFor | src/providers/ffmpeg.ts:63-69 | the codec mapped for the format, or "libmp3lame" when it is not in the map |
| Ffmpeg.ExtractArgsRoundTrip | src/providers/ffmpeg.ts:71-80 | the argument list decodes back to its settings: the non-empty cut points, the codec, the bitrate, "1" or "2" channels and the output |
| Ffmpeg.ExtractAudioTrack | src/providers/ffmpeg.ts:53-84 | fails exactly when the run fails, with that run's error; otherwise the arguments decode to the input, the truthy cut points, the format's codec, the bitrate, "1" channel for mono and "2" otherwise, and a fresh "audio" temporary path with the format's extension |
| Ffmpeg.ColorToAss | src/providers/ffmpeg.ts:179-190 | a colour containing '@' maps to black; every result is one of the six table colours |
| Ffmpeg.NamedColour | src/providers/ffmpeg.ts:180-189 | each of the six names maps to its own ASS value |
| Ffmpeg.ColourIgnoresCase | src/providers/ffmpeg.ts:188-189 | a colour and its lower-cased form map alike |
| Ffmpeg.UnknownColourIsWhite | src/providers/ffmpeg.ts:189 | a name off the table and without '@' maps to white |
| Ffmpeg.KelvinSignBlack | src/providers/ffmpeg.ts:188-189 | "BLAC" followed by the Kelvin sign lower-cases to "black" and maps to black |
| Ffmpeg.EscapeMatchesReference | src/providers/ffmpeg.ts:165 | the two global replacements equal escaping each character on its own |
| Ffmpeg.UnescapeEscape | src/providers/ffmpeg.ts:165 | escaping loses nothing: unescaping gives back the original path |
| Ffmpeg.EscapedColons | src/providers/ffmpeg.ts:165-167 | every ':' left in the escaped path is preceded by '\' |
| Ffmpeg.ResolveLayout | src/providers/ffmpeg.ts:158-163 | gives the font size or 24, the font name or Arial, colours through the colour map (white and black by default), and margin 40/alignment 6 only for "top" |
| Ffmpeg.DefaultLayout | src/providers/ffmpeg.ts:158-163 | with no style the text is 24-point Arial, white on black, at the bottom |
| Ffmpeg.BurnSubtitles | src/providers/ffmpeg.ts:145-177 | fails exactly when the run fails; otherwise 8 arguments whose filter is built from the escaped path and the resolved style, writing a ".mp4" file |
| Ffmpeg.FirstOfKind | src/providers/ffmpeg.ts:109-118 | the index of the first stream of a kind, with no earlier stream of that kind |
| Ffmpeg.ScanMatchesSummary | src/providers/ffmpeg.ts:104-128 | the stream loop describes the first video and the first audio stream, lists every subtitle label in order, and reports subtitles exactly when there is a label |
| Ffmpeg.MediaFormat | src/providers/ffmpeg.ts:130-137 | the extension without its dot when that leaves something; otherwise (no extension, or a bare ".") the first name of format_name |
| Ffmpeg.TrailingDotFormat | src/providers/ffmpeg.ts:130-137 | "song." has extension "." and so takes "mp3" from the format name "mp3,mp2" |
| Ffmpeg.NumChunks | src/providers/ffmpeg.ts:208-209 | the fewest chunks of at most the given MiB each that cover the file |
| Ffmpeg.ChunkPlan | src/providers/ffmpeg.ts:210-215 | n chunks numbered 0 to n-1; chunk k starts at k·d, lasts d = duration/n, and has its own temporary path |
| Ffmpeg.ChunksTileDuration | src/providers/ffmpeg.ts:210-214 | the chunks start at 0, have equal length, each ends where the next starts, and the last ends at the duration |
| Ffmpeg.ThirtyMegabyteExample | src/providers/ffmpeg.ts:209-214 | 30 MiB at a 24 MiB target for 600 s gives two 300 s chunks, at 0 s and at 300 s |
| Ffmpeg.CutAll | src/providers/ffmpeg.ts:213-226 | runs the cut command of each planned chunk in order; succeeds exactly when no cut fails, returning the chunk paths in order; otherwise reports the first failing cut |
| Ffmpeg.CutCommand | src/providers/ffmpeg.ts:213-224 | chunk k of n is cut with "-ss" k·(duration/n) and "-t" duration/n, as 16 kHz mono PCM, into its own ".wav" temporary path |
| Ffmpeg.SplitAudioBySize | src/providers/ffmpeg.ts:203-228 | a probe failure is an ffprobe error; otherwise it succeeds exactly when every planned chunk's cut command succeeds, returning one path per planned chunk in order, and otherwise fails with the first failing cut's error as FFMPEG_ERROR |
| Transcript.NumberSegments | src/providers/replicate.ts:39-46 | one segment per raw segment, numbered by position, with the raw times, the trimmed text ("" when missing) and no words |
| Groq.RequestFor | src/providers/groq.ts:52-61 | model and verbose_json format; word granularity exactly when word timings are wanted; the language only when the hint is non-empty and not "auto" |
| Groq.WordsWithin | src/providers/groq.ts:80-82 | keeps exactly the words that lie within the segment's span |
| Groq.WordsWithinConcat | src/providers/groq.ts:80-82 | the filter distributes over concatenation, so kept words stay in response order |
| Groq.Normalize | src/providers/groq.ts:72-93 | segments are numbered by position with the raw times and trimmed texts; words are attached exactly when wanted and present, and then they are exactly the response's words within the segment, in response order |
| Groq.NormalizeWithoutWords | src/providers/groq.ts:72-86 | without word timings the segments are those the Replicate path builds |
| Groq.NormalFormIsFixed | src/providers/groq.ts:72-93 | a result already in normal form comes back unchanged |
| Groq.GroqFailure | src/providers/groq.ts:103-110 | the message is "Groq transcription failed: " and the error's text; a 429 becomes PROVIDER_RATE_LIMITED with the suggestion; anything else becomes PROVIDER_ERROR without one |
| Groq.Retry | src/providers/groq.ts:64-111 | one to three calls; each retry follows a rate limit, after 2000 ms and then 4000 ms; the result is the last call's response or its classified failure |
| Groq.TwoRateLimitsThenSuccess | src/providers/groq.ts:95-101 | two rate limits and then a response make three calls, with delays 2000 and 4000 |
| Groq.OtherFailureNotRetried | src/providers/groq.ts:95-110 | a failure other than a rate limit ends after one call, as PROVIDER_ERROR |
| Groq.RateLimitExhausted | src/providers/groq.ts:95-110 | three rate limits surface after three calls as PROVIDER_RATE_LIMITED with the suggestion, and with the third call's message after "Groq transcription failed: " |
| Groq.TranscribeSingle | src/providers/groq.ts:46-113 | sends the request for the hint and flag; every call but the last was rate limited, the delays are 2000 and 4000 ms in turn, and a rate limit stops the retries only at the third call; succeeds exactly when the last call does, with the normalised response, and otherwise fails with the last call's classified error |
| Groq.Rebase | src/providers/groq.ts:136-143 | each segment's id is offset and its times shifted, nothing else changes |
| Groq.MergeTotals | src/providers/groq.ts:124-154 | the merge holds every chunk's segments, its duration is the sum of the chunk durations, and its language is the first chunk's ("unknown" with no chunks) |
| Groq.MergePlacement | src/providers/groq.ts:136-146 | segment j of chunk i sits at its chunk's offset plus j, with its id offset and its times shifted by the preceding chunks' total duration |
| Groq.MergeNumbersByPosition | src/providers/groq.ts:136-145 | chunks numbered by position merge into one list numbered by position |
| Groq.MergeOrdered | src/providers/groq.ts:136-146 | chunks whose segments are ordered within their own non-negative durations merge into segments ordered within the summed duration |
| Groq.MergeText | src/providers/groq.ts:134 | the merged text is the chunk texts joined by spaces, from the first non-empty one on |
| Groq.RunInOrder | src/providers/groq.ts:130-131 | succeeds exactly when every chunk does, with the results in order; otherwise it reports the first failing chunk |
| Groq.TranscribeChunked | src/providers/groq.ts:115-155 | a splitting failure is returned as is; after a split it succeeds exactly when all NumChunks chunk transcriptions succeed, with the merge of all their results in order, and otherwise fails with the first failing chunk's error |
| Groq.RouteFor | src/providers/groq.ts:36-43 | chunked exactly when the size exceeds 25 MiB |
| Groq.RouteBoundary | src/providers/groq.ts:38 | exactly 25 MiB goes in one call; one byte more is split |
| Groq.TranscribeWithGroq | src/providers/groq.ts:12-44 | a missing key fails first; a failed video extraction is returned; otherwise a size up to 25 MiB is one call, and a larger one is exactly the chunked transcription of the (extracted) audio |
| Replicate.RequestFor | src/providers/replicate.ts:29-35 | the file as a file:// URL; the language only when the hint is non-empty and not "auto"; never translating |
| Replicate.NormalizeOutput | src/providers/replicate.ts:39-53 | positional trimmed segments; the duration is the last segment's end or 0; the language is detected, then the hint, then "unknown" |
| Replicate.DurationIsLastEnd | src/providers/replicate.ts:50 | with segments, the duration is the end of the last one |
| Replicate.TranscribeWithReplicate | src/providers/replicate.ts:6-60 | no request without a token; a remote failure is always PROVIDER_ERROR, never a rate limit |
| BaseProvider.Transcribe | src/providers/base-provider.ts:7-36 | at most Groq then Replicate are called, each with the caller's file and hint; no call at all exactly for an unknown provider, which fails with PROVIDER_ERROR; the caller gets what the last backend called returned |
| BaseProvider.FallbackExactly | src/providers/base-provider.ts:17-24 | with Groq selected, Replicate is called if and only if Groq failed with PROVIDER_RATE_LIMITED or PROVIDER_ERROR and a Replicate token is set |
| BaseProvider.ReplicateOnly | src/providers/base-provider.ts:27-29 | with Replicate selected, only Replicate is called and its result returned |
| BaseProvider.GroqSuccessIsFinal | src/providers/base-provider.ts:14-16 | a Groq success is returned and Replicate is never called |
| BaseProvider.FfmpegFailureIsRethrown | src/providers/base-provider.ts:17-24 | an FFMPEG_ERROR from Groq is rethrown without fallback, whatever the token |
| BaseProvider.MissingGroqKeyFallsBack | src/providers/base-provider.ts:17-22 | a missing Groq key (Groq's own PROVIDER_ERROR) falls back to Replicate when a token is set, and the word-timing flag is not passed on |
| BaseProvider.NoTokenRethrows | src/providers/base-provider.ts:17-24 | without a Replicate token the Groq error is rethrown unchanged |
| BaseProvider.FallbackErrorsAreProviderErrors | src/providers/base-provider.ts:18-21 | after a fallback every error is PROVIDER_ERROR |
| BaseProvider.BackendsAgreeOnSegments | src/providers/base-provider.ts:14-30 | without word timings both backends build identical segments from the same raw segments |

## Left out

- Process execution, the Groq and Replicate SDKs, file statistics, sleeps, UUID generation and logging are left out.
  Their results are parameters: process outcomes, scripted call outcomes, byte counts, ids.
  `getAudioDuration` is the `probe` parameter of `Ffmpeg.SplitAudioBySize`.
- Reading the configuration is left out. The provider name, keys, temporary directory and size limit are arguments.
- The source's remote errors are rendered as `err?.message || err`. The model takes that rendering as a given string.
- Numbers are exact reals and integers, not IEEE doubles. A chunk start `i * chunkDuration` is exact, so the model
  does not reproduce floating-point rounding in the cut arguments.
- Numbers never print in exponent notation.
- Infinity and NaN are left out. With a zero frame-rate denominator the source yields Infinity or NaN; the model
  yields no rate.
- `parseInt`/`parseFloat` of malformed ffprobe strings are left out. Bit rate, sample rate, width and height arrive as
  numbers, or are absent.
- The non-stream fields of `getMediaInfo` are left out: `file_name`, `file_size_mb`, `duration_seconds` and
  `duration_formatted`. They are display-only roundings.
- Ffmpeg.CodecFor and Ffmpeg.ColorToAss: do not model lookups of `Object.prototype` keys such as "constructor".
  The source's plain-object maps return inherited members for those keys.
- Text.ToLower: folds only 'A'–'Z' and the Kelvin sign U+212A, the characters JavaScript's `toLowerCase` maps onto
  ASCII letters. Other upper-case characters stay as they are, and U+0130 is not expanded into two characters. No
  extension or colour name on the source's lists is affected, so classification and colour lookup are exact.
- FileManager.ValidateMediaFormat and FileManager.ValidateVideoFormat: the extension quoted in the error message
  keeps non-ASCII capitals other than the Kelvin sign upper-case, where JavaScript would lower-case them.
- Font sizes are natural numbers. Non-integral font sizes are not modelled.
- FileManager.JoinPath: does not normalise "." and ".." components or doubled slashes ("a//b" joined with "x" stays
  "a//b/x") in the temporary directory, as Node's `join` does.
- `ensureTempDir`, `validateFileExists`, `getFileName`, `getFileSizeMB` and `cleanupOldFiles` are not modelled.
  They are file-system effects outside the core.
- Ffmpeg.CutArgs, Ffmpeg.SubtitleFilter and Ffmpeg.ExtractTrackArgs: carry no contract of their own. They are
  argument builders; `Ffmpeg.CutCommand`, `Ffmpeg.ExtractArgsRoundTrip`, `Ffmpeg.BurnSubtitles` and
  `Ffmpeg.EscapeMatchesReference` state their properties.
- The outcome of each chunk cut is a function of its command line, so `Ffmpeg.SplitAudioBySize` states which cut
  command failed and with what. Two cuts with identical command lines would share one outcome.
- FormatConverter.ToMillis: clamps a negative time to 0 ms. The source floors and rounds the negative fields as they
  are and renders -0.5 s as "-1:-1:-1,-500". The model promises nothing for negative times.
- FormatConverter.FormatTime: works on whole milliseconds. Real seconds are first rounded by
  `FormatConverter.ToMillis`; see Findings.

## Findings

| source | as written | input that shows it | evidently intended | confidence | as-written member | corrected member |
|---|---|---|---|---|---|---|
| src/utils/format-converter.ts:7 | the fraction of a second is rounded to milliseconds on its own, after the seconds field was floored | 0.9996 s renders as "00:00:00,1000" (and "00:00:00.1000" in WebVTT) | round the whole time to milliseconds first, then split into fields: "00:00:01,000" | high (proved; not executed) | FormatConverter.AsWrittenMillisOverflow | FormatConverter.TimestampRoundTrip |

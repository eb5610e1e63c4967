/**
 * The ffmpeg/ffprobe layer, with process execution replaced by its outcome:
 * how a failed run becomes an FFMPEG_ERROR, the argument lists for audio
 * extraction, subtitle burn-in and chunk cutting, the ASS colour table,
 * subtitle-path escaping for the filter graph, the choice of streams
 * reported from a parsed ffprobe record, and the size-based chunk plan.
 */
module Ffmpeg {
  import opened Base
  import opened Text
  import opened FileManager

  // ---------------------------------------------------------------------------
  // Failed runs
  // ---------------------------------------------------------------------------

  /** What a failed ffmpeg or ffprobe run reports: its captured standard error, if any,
      and the error's own message. */
  datatype ProcessFailure = ProcessFailure(stderr: Option<string>, message: string)

  /** `error.stderr?.split("\n").pop() || error.message`: the text after the last line
      feed of stderr, or the error's message when that text is empty or stderr is absent. */
  function FailureDetail(f: ProcessFailure): (r: string)
    ensures f.stderr.None? ==> r == f.message
    ensures f.stderr.Some? && (f.stderr.value == "" || f.stderr.value[|f.stderr.value| - 1] == '\n') ==> r == f.message
    ensures f.stderr.Some? && f.stderr.value != "" && f.stderr.value[|f.stderr.value| - 1] != '\n' ==>
      var e := f.stderr.value;
      && r != "" && '\n' !in r && |r| <= |e| && r == e[|e| - |r|..]
      && (|r| == |e| || e[|e| - |r| - 1] == '\n')
  {
    match f.stderr
    case None => f.message
    case Some(e) =>
      var last := LastLine(e);
      if last != "" then last else f.message
  }

  /** The error `runFfmpeg` throws for a failed run. */
  function FfmpegFailed(f: ProcessFailure): (e: ErrorInfo)
    ensures e.code == FfmpegError && e.suggestion.None?
    ensures |e.message| >= 15 && e.message[..15] == "FFmpeg failed: "
  {
    ErrorInfo(FfmpegError, "FFmpeg failed: " + FailureDetail(f), None)
  }

  /** The error `runFfprobe` throws for a failed run. */
  function FfprobeFailed(f: ProcessFailure): (e: ErrorInfo)
    ensures e.code == FfmpegError && e.suggestion.None?
    ensures |e.message| >= 16 && e.message[..16] == "ffprobe failed: "
  {
    ErrorInfo(FfmpegError, "ffprobe failed: " + FailureDetail(f), None)
  }

  // ---------------------------------------------------------------------------
  // Audio extraction
  // ---------------------------------------------------------------------------

  /** `extractAudioFromVideo`: 16 kHz mono PCM into a fresh ".wav" temporary file. */
  function ExtractFromVideo(video: string, tempDir: string, uuid: string, run: Option<ProcessFailure>)
    : (r: Result<(seq<string>, string), ErrorInfo>)
    ensures run.Some? <==> r.Err?
    ensures r.Err? ==> r.error == FfmpegFailed(run.value)
    ensures r.Ok? ==> r.value.1 == TempPath(tempDir, "audio_extract", uuid, ".wav")
    ensures r.Ok? ==>
      r.value.0 == ["-i", video, "-vn", "-acodec", "pcm_s16le", "-ar", "16000", "-ac", "1", "-y", r.value.1]
    ensures r.Ok? && '/' !in uuid ==> ExtName(r.value.1) == ".wav" && !IsVideoFile(r.value.1)
  {
    var out := TempPath(tempDir, "audio_extract", uuid, ".wav");
    var args := ["-i", video, "-vn", "-acodec", "pcm_s16le", "-ar", "16000", "-ac", "1", "-y", out];
    ExtractedAudioIsNotVideo(tempDir, uuid);
    ExtractResult(args, out, run)
  }

  /** The extracted track is written to a ".wav" file, which is not classified as a video. */
  lemma ExtractedAudioIsNotVideo(tempDir: string, uuid: string)
    ensures var out := TempPath(tempDir, "audio_extract", uuid, ".wav");
      '/' !in uuid ==> ExtName(out) == ".wav" && !IsVideoFile(out)
  {
    var out := TempPath(tempDir, "audio_extract", uuid, ".wav");
    TempExtension(tempDir, "audio_extract", uuid, ".wav");
    if '/' !in uuid {
      WavIsNotVideo(out);
    }
  }

  /** The outcome of one ffmpeg run that writes `out`. */
  function ExtractResult(args: seq<string>, out: string, run: Option<ProcessFailure>)
    : (r: Result<(seq<string>, string), ErrorInfo>)
    ensures run.Some? ==> r == Err(FfmpegFailed(run.value))
    ensures run.None? ==> r == Ok((args, out))
  {
    if run.Some? then Err(FfmpegFailed(run.value)) else Ok((args, out))
  }

  /** A temporary file keeps the extension it was asked for, given an id without '/'. */
  lemma TempExtension(tempDir: string, prefix: string, uuid: string, ext: string)
    requires '/' !in prefix
    requires |ext| >= 2 && ext[0] == '.' && '.' !in ext[1..] && '/' !in ext
    ensures '/' !in uuid ==> ExtName(TempPath(tempDir, prefix, uuid, ext)) == ext
  {
    if '/' !in uuid {
      TempPathShape(tempDir, prefix, uuid, ext);
    }
  }

  lemma WavIsNotVideo(p: string)
    requires ExtName(p) == ".wav"
    ensures !IsVideoFile(p)
  {
    WavNotVideo();
  }

  lemma WavNotVideo()
    ensures ToLower(".wav") !in VideoExtensions
  {
    var u := ToLower(".wav");
    assert u[2] == 'a';
    assert forall i :: 0 <= i < |VideoExtensions| ==> VideoExtensions[i][2] != 'a';
  }

  datatype Channels = Mono | Stereo

  /** The output codec for each format the extraction tool offers. */
  const CodecTable: seq<(string, string)> :=
    [("mp3", "libmp3lame"), ("wav", "pcm_s16le"), ("aac", "aac"), ("flac", "flac"), ("ogg", "libvorbis")]

  /** The value stored under `key` in an association list, first match wins. */
  function Lookup(table: seq<(string, string)>, key: string): (r: Option<string>)
    ensures r.Some? ==> exists k :: 0 <= k < |table| && table[k] == (key, r.value)
    ensures r.None? ==> forall k :: 0 <= k < |table| ==> table[k].0 != key
  {
    if table == [] then None
    else if table[0].0 == key then Some(table[0].1)
    else
      var r := Lookup(table[1..], key);
      assert r.Some? ==> exists k :: 0 <= k < |table[1..]| && table[1..][k] == (key, r.value);
      assert forall k :: 1 <= k < |table| ==> table[k] == table[1..][k - 1];
      r
  }

  /** `codecMap[format] || "libmp3lame"`. */
  function CodecFor(format: string): (codec: string)
    ensures Lookup(CodecTable, format).Some? ==> codec == Lookup(CodecTable, format).value
    ensures Lookup(CodecTable, format).None? ==> codec == "libmp3lame"
  {
    Lookup(CodecTable, format).GetOr("libmp3lame")
  }

  /** `extractAudioTrack`'s argument list. The optional cut points appear only when
      they are non-empty strings. */
  function ExtractTrackArgs(input: string, format: string, bitrate: string, channels: Channels,
                            start: Option<string>, end: Option<string>, out: string): seq<string>
  {
    ["-i", input]
    + (if Truthy(start) then ["-ss", start.value] else [])
    + (if Truthy(end) then ["-to", end.value] else [])
    + ["-vn", "-acodec", CodecFor(format), "-b:a", bitrate, "-ac", if channels == Mono then "1" else "2", "-y", out]
  }

  /** The settings an extraction command line carries. */
  datatype ExtractRequest = ExtractRequest(
    input: string, start: Option<string>, end: Option<string>,
    codec: string, bitrate: string, channelCount: string, out: string)

  /** Reads an extraction command line back: `-i` and the input, optional `-ss` and
      `-to`, then the fixed tail with codec, bitrate, channel count and output path. */
  function ParseExtractArgs(a: seq<string>): Option<ExtractRequest>
  {
    if |a| < 2 || a[0] != "-i" then None else ParseCuts(a[1], a[2..])
  }

  function ParseCuts(input: string, a: seq<string>): Option<ExtractRequest>
  {
    if |a| >= 2 && a[0] == "-ss" then ParseEnd(input, Some(a[1]), a[2..]) else ParseEnd(input, None, a)
  }

  function ParseEnd(input: string, start: Option<string>, a: seq<string>): Option<ExtractRequest>
  {
    if |a| >= 2 && a[0] == "-to" then ParseTail(input, start, Some(a[1]), a[2..]) else ParseTail(input, start, None, a)
  }

  function ParseTail(input: string, start: Option<string>, end: Option<string>, a: seq<string>): Option<ExtractRequest>
  {
    if |a| == 9 && a[0] == "-vn" && a[1] == "-acodec" && a[3] == "-b:a" && a[5] == "-ac" && a[7] == "-y"
    then Some(ExtractRequest(input, start, end, a[2], a[4], a[6], a[8]))
    else None
  }

  /** The fixed tail of an extraction command line. */
  function ExtractTail(codec: string, bitrate: string, count: string, out: string): seq<string>
  {
    ["-vn", "-acodec", codec, "-b:a", bitrate, "-ac", count, "-y", out]
  }

  /** The extraction command line encodes exactly its settings: the cut points that
      were given (non-empty), the mapped codec, the bitrate, 1 or 2 channels, the output. */
  lemma ExtractArgsRoundTrip(input: string, format: string, bitrate: string, channels: Channels,
                             start: Option<string>, end: Option<string>, out: string)
    ensures ParseExtractArgs(ExtractTrackArgs(input, format, bitrate, channels, start, end, out))
      == Some(ExtractRequest(input,
                             if Truthy(start) then start else None,
                             if Truthy(end) then end else None,
                             CodecFor(format), bitrate, if channels == Mono then "1" else "2", out))
  {
    var e := if Truthy(end) then ["-to", end.value] else [];
    var count := if channels == Mono then "1" else "2";
    var tail := ExtractTail(CodecFor(format), bitrate, count, out);
    var st := if Truthy(start) then start else None;
    var en := if Truthy(end) then end else None;
    ExtractArgsShape(input, format, bitrate, channels, start, end, out);
    ParseTailOf(input, st, en, CodecFor(format), bitrate, count, out);
    ParseEndOf(input, st, end, tail);
    ParseCutsOf(input, start, e + tail);
  }

  /** `-i` and the input, then the optional cuts, then the fixed tail. */
  lemma ExtractArgsShape(input: string, format: string, bitrate: string, channels: Channels,
                         start: Option<string>, end: Option<string>, out: string)
    ensures var a := ExtractTrackArgs(input, format, bitrate, channels, start, end, out);
      var s := if Truthy(start) then ["-ss", start.value] else [];
      var e := if Truthy(end) then ["-to", end.value] else [];
      var tail := ExtractTail(CodecFor(format), bitrate, if channels == Mono then "1" else "2", out);
      |a| >= 2 && a[0] == "-i" && a[1] == input && a[2..] == s + (e + tail)
  {
    var a := ExtractTrackArgs(input, format, bitrate, channels, start, end, out);
    var s := if Truthy(start) then ["-ss", start.value] else [];
    var e := if Truthy(end) then ["-to", end.value] else [];
    var tail := ExtractTail(CodecFor(format), bitrate, if channels == Mono then "1" else "2", out);
    assert a == ["-i", input] + (s + (e + tail));
  }

  lemma ParseTailOf(input: string, start: Option<string>, end: Option<string>,
                    codec: string, bitrate: string, count: string, out: string)
    ensures ParseTail(input, start, end, ExtractTail(codec, bitrate, count, out))
      == Some(ExtractRequest(input, start, end, codec, bitrate, count, out))
  {
  }

  lemma ParseEndOf(input: string, start: Option<string>, end: Option<string>, tail: seq<string>)
    requires |tail| > 0 && tail[0] == "-vn"
    ensures var e := if Truthy(end) then ["-to", end.value] else [];
      ParseEnd(input, start, e + tail) == ParseTail(input, start, if Truthy(end) then end else None, tail)
  {
    FlagsDiffer();
    if Truthy(end) {
      assert (["-to", end.value] + tail)[2..] == tail;
    } else {
      assert [] + tail == tail;
    }
  }

  lemma ParseCutsOf(input: string, start: Option<string>, rest: seq<string>)
    requires |rest| > 0 && (rest[0] == "-vn" || rest[0] == "-to")
    ensures var s := if Truthy(start) then ["-ss", start.value] else [];
      ParseCuts(input, s + rest) == ParseEnd(input, if Truthy(start) then start else None, rest)
  {
    FlagsDiffer();
    if Truthy(start) {
      assert (["-ss", start.value] + rest)[2..] == rest;
    } else {
      assert [] + rest == rest;
    }
  }

  lemma FlagsDiffer()
    ensures "-vn" != "-ss" && "-vn" != "-to" && "-to" != "-ss"
  {
    assert "-vn"[1] != "-ss"[1];
    assert "-vn"[1] != "-to"[1];
    assert "-to"[1] != "-ss"[1];
  }

  /** The extraction writes to a fresh temporary file named after the format. */
  function ExtractAudioTrack(input: string, format: string, bitrate: string, channels: Channels,
                             start: Option<string>, end: Option<string>,
                             tempDir: string, uuid: string, run: Option<ProcessFailure>)
    : (r: Result<(seq<string>, string), ErrorInfo>)
    ensures run.Some? <==> r.Err?
    ensures r.Err? ==> r.error == FfmpegFailed(run.value)
    ensures r.Ok? ==> r.value.1 == TempPath(tempDir, "audio", uuid, "." + format)
    ensures r.Ok? ==>
      ParseExtractArgs(r.value.0)
        == Some(ExtractRequest(input,
                               if Truthy(start) then start else None,
                               if Truthy(end) then end else None,
                               CodecFor(format), bitrate, if channels == Mono then "1" else "2", r.value.1))
  {
    var out := TempPath(tempDir, "audio", uuid, "." + format);
    var args := ExtractTrackArgs(input, format, bitrate, channels, start, end, out);
    ExtractArgsRoundTrip(input, format, bitrate, channels, start, end, out);
    ExtractResult(args, out, run)
  }

  // ---------------------------------------------------------------------------
  // Subtitle burn-in
  // ---------------------------------------------------------------------------

  const AssWhite: string := "&H00FFFFFF"
  const AssBlack: string := "&H00000000"

  /** The named colours and their ASS `&HAABBGGRR` values. */
  const AssColours: seq<(string, string)> := [
    ("white", AssWhite), ("black", AssBlack), ("red", "&H000000FF"),
    ("yellow", "&H0000FFFF"), ("green", "&H0000FF00"), ("blue", "&H00FF0000")]

  /** `colorToASS`: anything with an '@' (an alpha suffix such as "black@0.5") is black;
      otherwise a case-insensitive lookup of the six names, white when unknown. */
  function ColorToAss(color: string): (r: string)
    ensures '@' in color ==> r == AssBlack
    ensures exists k :: 0 <= k < |AssColours| && AssColours[k].1 == r
  {
    if '@' in color then
      assert AssColours[1].1 == AssBlack;
      AssBlack
    else
      match Lookup(AssColours, ToLower(color))
      case Some(v) => v
      case None =>
        assert AssColours[0].1 == AssWhite;
        AssWhite
  }

  /** Each of the six names maps to its table entry. */
  lemma NamedColour(k: nat)
    requires k < |AssColours|
    ensures ColorToAss(AssColours[k].0) == AssColours[k].1
  {
    var name := AssColours[k].0;
    assert '@' !in name;
    ToLowerOfLower(name);
    assert forall m :: 0 <= m < k ==> AssColours[m].0 != name;
    LookupFirst(AssColours, k);
  }

  lemma LookupFirst(table: seq<(string, string)>, k: nat)
    requires k < |table|
    requires forall m :: 0 <= m < k ==> table[m].0 != table[k].0
    ensures Lookup(table, table[k].0) == Some(table[k].1)
  {
    if k > 0 {
      LookupFirst(table[1..], k - 1);
    }
  }

  lemma ToLowerOfLower(s: string)
    requires forall i :: 0 <= i < |s| ==> !('A' <= s[i] <= 'Z') && s[i] != KelvinSign
    ensures ToLower(s) == s
  {
  }

  /** Letter case does not matter: a colour and its lower-cased form map alike. */
  lemma ColourIgnoresCase(color: string)
    ensures ColorToAss(ToLower(color)) == ColorToAss(color)
  {
    assert '@' in ToLower(color) <==> '@' in color by {
      forall i | 0 <= i < |color|
        ensures ToLower(color)[i] == '@' <==> color[i] == '@'
      {
      }
    }
    ToLowerIdempotent(color);
  }

  /** Unknown names (without '@') fall back to white. */
  lemma UnknownColourIsWhite(color: string)
    requires '@' !in color
    requires forall k :: 0 <= k < |AssColours| ==> AssColours[k].0 != ToLower(color)
    ensures ColorToAss(color) == AssWhite
  {
  }

  /** "BLAC\U{212A}", ending in the Kelvin sign, lower-cases to "black". */
  lemma KelvinSignBlack()
    ensures ColorToAss("BLAC" + [KelvinSign]) == AssBlack
  {
    var c := "BLAC" + [KelvinSign];
    BlacKelvinLowers();
    assert '@' !in c;
    NamedColour(1);
    ToLowerOfLower(AssColours[1].0);
  }

  lemma BlacKelvinLowers()
    ensures ToLower("BLAC" + [KelvinSign]) == AssColours[1].0
  {
    var u := ToLower("BLAC" + [KelvinSign]);
    assert u[0] == 'b' && u[1] == 'l' && u[2] == 'a' && u[3] == 'c' && u[4] == 'k';
    assert AssColours[1].0 == "black";
  }

  /** The escape for one character of the subtitle path inside the filter graph. */
  function EscapeChar(c: char): string
  {
    if c == ':' then "\\:" else if c == '\'' then "'\\''" else [c]
  }

  /** The path with every character escaped on its own: the reference for the two
      global replacements. */
  function EscapeEach(p: string): string
  {
    if p == "" then "" else EscapeChar(p[0]) + EscapeEach(p[1..])
  }

  /** `srtPath.replace(/:/g, "\\:").replace(/'/g, "'\\''")`. */
  function EscapeSubtitlePath(p: string): string
  {
    ReplaceChar(ReplaceChar(p, ':', "\\:"), '\'', "'\\''")
  }

  /** The two global replacements escape each character independently. */
  lemma {:induction false} EscapeMatchesReference(p: string)
    ensures EscapeSubtitlePath(p) == EscapeEach(p)
    decreases |p|
  {
    if p != "" {
      var head := if p[0] == ':' then "\\:" else [p[0]];
      var rest := ReplaceChar(p[1..], ':', "\\:");
      assert ReplaceChar(p, ':', "\\:") == head + rest;
      ReplaceCharConcat(head, rest, '\'', "'\\''");
      EscapeMatchesReference(p[1..]);
      if p[0] == ':' {
        assert '\'' !in head by {
          assert head[0] == '\\' && head[1] == ':' && |head| == 2;
        }
      } else {
        assert ReplaceChar(head, '\'', "'\\''") == EscapeChar(p[0]) by {
          assert head[1..] == "";
        }
      }
    }
  }

  /** Undoes the filter-graph escaping, reading left to right. */
  function Unescape(s: string): string
  {
    if s == "" then ""
    else if |s| >= 2 && s[0] == '\\' && s[1] == ':' then ":" + Unescape(s[2..])
    else if |s| >= 4 && s[0] == '\'' && s[1] == '\\' && s[2] == '\'' && s[3] == '\'' then "'" + Unescape(s[4..])
    else [s[0]] + Unescape(s[1..])
  }

  /** Escaping loses nothing: unescaping gives back the original path. */
  lemma {:induction false} UnescapeEscape(p: string)
    ensures Unescape(EscapeSubtitlePath(p)) == p
  {
    EscapeMatchesReference(p);
    UnescapeEach(p);
  }

  lemma {:induction false} UnescapeEach(p: string)
    ensures Unescape(EscapeEach(p)) == p
    decreases |p|
  {
    if p != "" {
      var c := p[0];
      var rest := EscapeEach(p[1..]);
      var s := EscapeChar(c) + rest;
      assert EscapeEach(p) == s;
      UnescapeEach(p[1..]);
      EscapeEachStart(p[1..]);
      if c == ':' {
        assert s[2..] == rest;
      } else if c == '\'' {
        assert s[4..] == rest;
      } else {
        assert s[1..] == rest;
        assert s[0] == c;
      }
      assert p == [c] + p[1..];
    }
  }

  /** An escaped path never starts with ':' (so a preceding '\' is never taken for an escape). */
  lemma EscapeEachStart(p: string)
    ensures EscapeEach(p) == "" || EscapeEach(p)[0] != ':'
  {
  }

  /** Every ':' left in the escaped path is preceded by '\', so the filter parser never
      reads it as an option separator. */
  predicate ColonsEscaped(s: string)
  {
    forall i :: 0 <= i < |s| && s[i] == ':' ==> i > 0 && s[i - 1] == '\\'
  }

  lemma {:induction false} EscapedColons(p: string)
    ensures ColonsEscaped(EscapeSubtitlePath(p))
  {
    EscapeMatchesReference(p);
    EscapeEachColons(p);
  }

  lemma {:induction false} EscapeEachColons(p: string)
    ensures ColonsEscaped(EscapeEach(p))
    decreases |p|
  {
    if p != "" {
      var head := EscapeChar(p[0]);
      var rest := EscapeEach(p[1..]);
      EscapeEachColons(p[1..]);
      EscapeEachStart(p[1..]);
      var s := head + rest;
      forall i | 0 <= i < |s| && s[i] == ':'
        ensures i > 0 && s[i - 1] == '\\'
      {
        if i >= |head| {
          assert rest[i - |head|] == ':';
          assert i - |head| > 0;
          assert s[i - 1] == rest[i - |head| - 1];
        }
      }
    }
  }

  /** The optional style of the burn-in tool. */
  datatype BurnStyle = BurnStyle(
    fontSize: Option<nat>, fontColor: Option<string>, backgroundColor: Option<string>,
    position: Option<string>, fontName: Option<string>)

  /** The resolved ASS style: defaults applied, colours mapped, placement chosen. */
  datatype Layout = Layout(fontSize: nat, fontName: string, primary: string, back: string,
                           marginV: nat, alignment: nat)

  /** Burn-in layout: falsy size and name fall back to 24 and Arial, colours default to
      white on black, and only position "top" moves the text up. */
  function ResolveLayout(style: BurnStyle): (l: Layout)
    ensures l.fontSize > 0 && l.fontName != ""
    ensures style.fontSize.Some? && style.fontSize.value > 0 ==> l.fontSize == style.fontSize.value
    ensures style.fontSize.None? || style.fontSize.value == 0 ==> l.fontSize == 24
    ensures Truthy(style.fontName) ==> l.fontName == style.fontName.value
    ensures !Truthy(style.fontName) ==> l.fontName == "Arial"
    ensures style.position == Some("top") ==> l.marginV == 40 && l.alignment == 6
    ensures style.position != Some("top") ==> l.marginV == 20 && l.alignment == 2
    ensures l.primary == ColorToAss(FirstTruthy(style.fontColor, None, "white"))
    ensures l.back == ColorToAss(FirstTruthy(style.backgroundColor, None, "black"))
  {
    var size := if style.fontSize.Some? && style.fontSize.value != 0 then style.fontSize.value else 24;
    var top := style.position == Some("top");
    Layout(size, FirstTruthy(style.fontName, None, "Arial"),
           ColorToAss(FirstTruthy(style.fontColor, None, "white")),
           ColorToAss(FirstTruthy(style.backgroundColor, None, "black")),
           if top then 40 else 20, if top then 6 else 2)
  }

  /** With no style at all, the text is 24-point Arial, white on black, at the bottom. */
  lemma DefaultLayout()
    ensures ResolveLayout(BurnStyle(None, None, None, None, None))
      == Layout(24, "Arial", AssWhite, AssBlack, 20, 2)
  {
    NamedColour(0);
    NamedColour(1);
  }

  function ForceStyle(l: Layout): string
  {
    "FontSize=" + NatToString(l.fontSize) + ",FontName=" + l.fontName
    + ",PrimaryColour=" + l.primary + ",BackColour=" + l.back
    + ",MarginV=" + NatToString(l.marginV) + ",Alignment=" + NatToString(l.alignment)
  }

  /** The `-vf` filter: the escaped subtitle path, then the forced style. */
  function SubtitleFilter(srtPath: string, style: BurnStyle): string
  {
    "subtitles='" + EscapeSubtitlePath(srtPath) + "':force_style='" + ForceStyle(ResolveLayout(style)) + "'"
  }

  /** `burnSubtitles`: the ffmpeg command and the ".mp4" file it writes. */
  function BurnSubtitles(video: string, srtPath: string, style: BurnStyle,
                         tempDir: string, uuid: string, run: Option<ProcessFailure>)
    : (r: Result<(seq<string>, string), ErrorInfo>)
    ensures run.Some? <==> r.Err?
    ensures r.Err? ==> r.error == FfmpegFailed(run.value)
    ensures r.Ok? ==> |r.value.0| == 8 && r.value.0[1] == video && r.value.0[7] == r.value.1
    ensures r.Ok? ==> r.value.0[3] == SubtitleFilter(srtPath, style)
    ensures r.Ok? && '/' !in uuid ==> ExtName(r.value.1) == ".mp4"
  {
    var out := TempPath(tempDir, "subtitled", uuid, ".mp4");
    TempExtension(tempDir, "subtitled", uuid, ".mp4");
    ExtractResult(["-i", video, "-vf", SubtitleFilter(srtPath, style), "-c:a", "copy", "-y", out], out, run)
  }

  // ---------------------------------------------------------------------------
  // Stream selection in a parsed ffprobe record
  // ---------------------------------------------------------------------------

  datatype StreamKind = VideoStream | AudioStream | SubtitleStream | OtherStream

  /** One entry of ffprobe's `streams`, with numeric strings already read as numbers. */
  datatype Stream = Stream(
    kind: StreamKind, codecName: string,
    width: Option<nat>, height: Option<nat>,
    frameRate: Option<string>, bitRate: Option<nat>, sampleRate: Option<nat>,
    channels: Option<nat>, language: Option<string>)

  /** The description of a reported stream. */
  datatype StreamInfo = StreamInfo(
    codec: string, resolution: Option<string>, fps: Option<nat>,
    bitrateKbps: Option<nat>, sampleRate: Option<nat>, channels: Option<nat>)

  /** The stream part of `getMediaInfo`'s result. */
  datatype StreamSummary = StreamSummary(
    video: Option<StreamInfo>, audio: Option<StreamInfo>, hasSubtitles: bool, subtitleTracks: seq<string>)

  /** `Math.round(x / 1000)` for a non-negative integer `x`. */
  function RoundKilo(x: nat): nat
  {
    (x + 500) / 1000
  }

  /** The index of the first '/' in `s`, or `|s|`. */
  function SlashIndex(s: string): (i: nat)
    ensures i <= |s| && '/' !in s[..i]
    ensures i < |s| ==> s[i] == '/'
  {
    if s == "" then 0 else if s[0] == '/' then 0 else 1 + SlashIndex(s[1..])
  }

  predicate AllDigits(s: string)
  {
    forall i :: 0 <= i < |s| ==> IsDigit(s[i])
  }

  /** `r_frame_rate` against `^(\d+)\/(\d+)$`, as `Math.round(num / den)`; a zero
      denominator gives no rate. */
  function FrameRate(rate: string): Option<nat>
  {
    var i := SlashIndex(rate);
    if i == |rate| then None
    else
      var num := rate[..i];
      var den := rate[i + 1..];
      if num == "" || den == "" || !AllDigits(num) || !AllDigits(den) then None
      else
        var d := DigitsValue(den);
        if d == 0 then None else Some(RoundedRatio(DigitsValue(num), d))
  }

  /** `Math.round(n / d)` for natural numbers, halves rounded up. */
  function RoundedRatio(n: nat, d: nat): nat
    requires d > 0
  {
    (2 * n + d) / (2 * d)
  }

  function DescribeVideo(s: Stream): StreamInfo
  {
    var res := if s.width.Some? && s.width.value != 0 && s.height.Some? && s.height.value != 0
               then Some(NatToString(s.width.value) + "x" + NatToString(s.height.value)) else None;
    var fps := if s.frameRate.Some? then FrameRate(s.frameRate.value) else None;
    StreamInfo(s.codecName, res, fps, if s.bitRate.Some? then Some(RoundKilo(s.bitRate.value)) else None, None, None)
  }

  function DescribeAudio(s: Stream): StreamInfo
  {
    StreamInfo(s.codecName, None, None, if s.bitRate.Some? then Some(RoundKilo(s.bitRate.value)) else None,
               s.sampleRate, s.channels)
  }

  /** A subtitle track's label: `tags.language || codec_name`. */
  function TrackLabel(s: Stream): string
  {
    FirstTruthy(s.language, None, s.codecName)
  }

  /** The loop over the streams: the first video and the first audio stream are
      described, every subtitle stream adds its label. */
  function ScanStreams(streams: seq<Stream>, video: Option<StreamInfo>, audio: Option<StreamInfo>, tracks: seq<string>)
    : StreamSummary
    decreases |streams|
  {
    if streams == [] then StreamSummary(video, audio, |tracks| > 0, tracks)
    else
      var s := streams[0];
      if s.kind == VideoStream && video.None? then ScanStreams(streams[1..], Some(DescribeVideo(s)), audio, tracks)
      else if s.kind == AudioStream && audio.None? then ScanStreams(streams[1..], video, Some(DescribeAudio(s)), tracks)
      else if s.kind == SubtitleStream then ScanStreams(streams[1..], video, audio, tracks + [TrackLabel(s)])
      else ScanStreams(streams[1..], video, audio, tracks)
  }

  /** The index of the first stream of `kind`, if any. */
  function FirstOfKind(streams: seq<Stream>, kind: StreamKind): (r: Option<nat>)
    ensures r.Some? ==> r.value < |streams| && streams[r.value].kind == kind
    ensures r.Some? ==> forall k :: 0 <= k < r.value ==> streams[k].kind != kind
    ensures r.None? ==> forall k :: 0 <= k < |streams| ==> streams[k].kind != kind
  {
    if streams == [] then None
    else if streams[0].kind == kind then Some(0)
    else
      var r := FirstOfKind(streams[1..], kind);
      if r.Some? then Some(r.value + 1) else None
  }

  /** The labels of all subtitle streams, in order. */
  function SubtitleLabels(streams: seq<Stream>): seq<string>
  {
    if streams == [] then []
    else (if streams[0].kind == SubtitleStream then [TrackLabel(streams[0])] else []) + SubtitleLabels(streams[1..])
  }

  /** The reference summary: the first stream of each kind described, every subtitle labelled. */
  function SummaryOf(streams: seq<Stream>): StreamSummary
  {
    var v := FirstOfKind(streams, VideoStream);
    var a := FirstOfKind(streams, AudioStream);
    var labels := SubtitleLabels(streams);
    StreamSummary(if v.Some? then Some(DescribeVideo(streams[v.value])) else None,
                  if a.Some? then Some(DescribeAudio(streams[a.value])) else None,
                  |labels| > 0, labels)
  }

  /** `getMediaInfo`'s loop reports exactly the first video and first audio stream and
      all subtitle labels in order; `has_subtitles` holds iff there is a label. */
  lemma ScanMatchesSummary(streams: seq<Stream>)
    ensures ScanStreams(streams, None, None, []) == SummaryOf(streams)
  {
    ScanFrom(streams, None, None, []);
    assert [] + SubtitleLabels(streams) == SubtitleLabels(streams);
  }

  lemma {:induction false} ScanFrom(streams: seq<Stream>, video: Option<StreamInfo>, audio: Option<StreamInfo>, tracks: seq<string>)
    ensures var v := FirstOfKind(streams, VideoStream);
      var a := FirstOfKind(streams, AudioStream);
      var labels := tracks + SubtitleLabels(streams);
      ScanStreams(streams, video, audio, tracks) == StreamSummary(
        if video.Some? then video else if v.Some? then Some(DescribeVideo(streams[v.value])) else None,
        if audio.Some? then audio else if a.Some? then Some(DescribeAudio(streams[a.value])) else None,
        |labels| > 0, labels)
    decreases |streams|
  {
    if streams == [] {
      assert tracks + [] == tracks;
    } else {
      var s := streams[0];
      var tail := streams[1..];
      var own := if s.kind == SubtitleStream then [TrackLabel(s)] else [];
      assert SubtitleLabels(streams) == own + SubtitleLabels(tail);
      assert tracks + SubtitleLabels(streams) == (tracks + own) + SubtitleLabels(tail);
      if s.kind == VideoStream && video.None? {
        ScanFrom(tail, Some(DescribeVideo(s)), audio, tracks);
      } else if s.kind == AudioStream && audio.None? {
        ScanFrom(tail, video, Some(DescribeAudio(s)), tracks);
      } else if s.kind == SubtitleStream {
        ScanFrom(tail, video, audio, tracks + [TrackLabel(s)]);
      } else {
        ScanFrom(tail, video, audio, tracks);
      }
    }
  }

  /** The text before the first ',' of `s` (`s.split(",")[0]`). */
  function FirstField(s: string): (r: string)
    ensures |r| <= |s| && r == s[..|r|] && ',' !in r
    ensures |r| < |s| ==> s[|r|] == ','
  {
    if s == "" || s[0] == ',' then "" else [s[0]] + FirstField(s[1..])
  }

  /** The `format` field: the file's extension without its dot, or the first name in
      ffprobe's `format_name` when that leaves nothing (no extension, or a bare "."). */
  function MediaFormat(path: string, formatName: string): (r: string)
    ensures |ExtName(path)| > 1 ==> "." + r == ExtName(path)
    ensures |ExtName(path)| <= 1 ==> r == FirstField(formatName)
  {
    FormatFrom(ExtName(path), formatName)
  }

  function FormatFrom(ext: string, formatName: string): (r: string)
    requires ext == "" || ext[0] == '.'
    ensures |ext| > 1 ==> "." + r == ext
    ensures |ext| <= 1 ==> r == FirstField(formatName)
  {
    if |ext| > 1 then
      assert ext == [ext[0]] + ext[1..];
      ext[1..]
    else FirstField(formatName)
  }

  /** A name ending in "." takes its format from ffprobe, as an empty extension does. */
  lemma TrailingDotFormat()
    ensures MediaFormat("song.", "mp3,mp2") == "mp3"
  {
    TrailingDotExtension();
    FirstFieldMp3();
  }

  lemma FirstFieldMp3()
    ensures FirstField("mp3,mp2") == "mp3"
  {
    var s := "mp3,mp2";
    assert s[1..] == "p3,mp2" && s[2..] == "3,mp2" && s[3..] == ",mp2";
    assert FirstField(s[3..]) == "";
  }

  lemma TrailingDotExtension()
    ensures ExtName("song.") == "."
  {
    assert "" + "song." == "song." && "song" + "." == "song.";
    BaseNameOfName("", "song.");
    LastDotOfName("song", ".");
  }

  // ---------------------------------------------------------------------------
  // Chunk plan
  // ---------------------------------------------------------------------------

  /** One planned chunk: its index, start and length in seconds, and output file. */
  datatype Chunk = Chunk(index: nat, start: real, length: real, path: string)

  /** `n` chunks of `m` bytes are the fewest that hold `bytes` bytes. */
  predicate FewestChunks(n: nat, bytes: nat, m: nat)
  {
    bytes <= n * m && (n == 0 || (n - 1) * m < bytes)
  }

  /** `Math.ceil((bytes / 2^20) / maxMB)`. */
  function NumChunks(bytes: nat, maxMB: nat): (n: nat)
    requires maxMB > 0
    ensures FewestChunks(n, bytes, maxMB * BytesPerMB)
  {
    var m := maxMB * BytesPerMB;
    var n := (bytes + m - 1) / m;
    DivModUnique(bytes + m - 1, m, n, (bytes + m - 1) % m);
    n
  }

  /** The chunk files: `chunk_<i>_<id>.wav` under the temporary directory. */
  function ChunkPath(tempDir: string, i: nat, uuidFor: nat -> string): string
  {
    TempPath(tempDir, "chunk_" + NatToString(i), uuidFor(i), ".wav")
  }

  /** The length of each of `n` chunks of a `duration`-second file. */
  function ChunkLength(n: nat, duration: real): real
  {
    if n == 0 then 0.0 else duration / n as real
  }

  /** Where chunk `k` starts when every chunk lasts `d`. */
  function Offset(k: nat, d: real): real
  {
    k as real * d
  }

  /** `splitAudioBySize`'s plan for `n` chunks: chunk `k` starts at `k * d` and lasts
      `d = duration / n` seconds. */
  function ChunkPlan(n: nat, duration: real, tempDir: string, uuidFor: nat -> string): (r: seq<Chunk>)
    ensures |r| == n
    ensures forall k :: 0 <= k < n ==> r[k].index == k && r[k].path == ChunkPath(tempDir, k, uuidFor)
    ensures forall k :: 0 <= k < n ==>
      r[k].start == Offset(k, ChunkLength(n, duration)) && r[k].length == ChunkLength(n, duration)
  {
    var d := ChunkLength(n, duration);
    seq(n, k requires 0 <= k < n => Chunk(k, Offset(k, d), d, ChunkPath(tempDir, k, uuidFor)))
  }

  /** Consecutive chunks abut, the first starts at 0, all have one length, and together
      they cover exactly `[0, duration]`. */
  lemma ChunksTileDuration(n: nat, duration: real, tempDir: string, uuidFor: nat -> string)
    ensures var r := ChunkPlan(n, duration, tempDir, uuidFor);
      && (n > 0 ==> r[0].start == 0.0)
      && (forall k :: 0 <= k < n ==> r[k].length == r[0].length)
      && (forall k :: 0 <= k < n - 1 ==> r[k].start + r[k].length == r[k + 1].start)
      && (n > 0 ==> r[n - 1].start + r[n - 1].length == duration)
  {
    var r := ChunkPlan(n, duration, tempDir, uuidFor);
    var d := ChunkLength(n, duration);
    forall k | 0 <= k < n - 1
      ensures r[k].start + r[k].length == r[k + 1].start
    {
      OffsetNext(k, d);
    }
    if n > 0 {
      OffsetNext(n - 1, d);
      OffsetWhole(n, duration);
    }
  }

  lemma OffsetNext(k: nat, d: real)
    ensures Offset(k, d) + d == Offset(k + 1, d)
  {
  }

  lemma OffsetWhole(n: nat, duration: real)
    requires n > 0
    ensures Offset(n, ChunkLength(n, duration)) == duration
  {
  }

  /** Thirty megabytes at a 24 MB target and 600 s make two 300 s chunks, at 0 s and 300 s. */
  lemma ThirtyMegabyteExample(tempDir: string, uuidFor: nat -> string)
    ensures NumChunks(30 * BytesPerMB, 24) == 2
    ensures var r := ChunkPlan(2, 600.0, tempDir, uuidFor);
      r[0].start == 0.0 && r[1].start == 300.0 && r[0].length == 300.0 && r[1].length == 300.0
  {
    var m := 24 * BytesPerMB;
    DivModUnique(30 * BytesPerMB + m - 1, m, 2, 30 * BytesPerMB + m - 1 - 2 * m);
  }

  /** The cut command for one chunk: start and length as JavaScript prints them. */
  function CutArgs(input: string, c: Chunk): seq<string>
  {
    ["-i", input, "-ss", NumberToString(c.start), "-t", NumberToString(c.length),
     "-acodec", "pcm_s16le", "-ar", "16000", "-ac", "1", "-y", c.path]
  }

  /** Cut `k` is the first one that fails; `cutFails(args)` is what running ffmpeg with
      the argument list `args` gives. */
  predicate FirstFailure(input: string, plan: seq<Chunk>, cutFails: seq<string> -> Option<ProcessFailure>, k: int)
  {
    && 0 <= k < |plan| && cutFails(CutArgs(input, plan[k])).Some?
    && forall m :: 0 <= m < k ==> cutFails(CutArgs(input, plan[m])).None?
  }

  /** Runs the cut of every planned chunk in order and stops at the first failure, which
      it reports. */
  function CutAll(input: string, plan: seq<Chunk>, cutFails: seq<string> -> Option<ProcessFailure>)
    : (r: Result<seq<string>, ProcessFailure>)
    ensures r.Ok? <==> forall k :: 0 <= k < |plan| ==> cutFails(CutArgs(input, plan[k])).None?
    ensures r.Ok? ==> |r.value| == |plan| && forall k :: 0 <= k < |plan| ==> r.value[k] == plan[k].path
    ensures r.Err? ==> exists k :: FirstFailure(input, plan, cutFails, k) && r.error == cutFails(CutArgs(input, plan[k])).value
  {
    if plan == [] then Ok([])
    else
      var f := cutFails(CutArgs(input, plan[0]));
      if f.Some? then
        assert FirstFailure(input, plan, cutFails, 0);
        Err(f.value)
      else
        var rest := CutAll(input, plan[1..], cutFails);
        CutsAfterFirst(input, plan, cutFails);
        if rest.Err? then
          var k :| FirstFailure(input, plan[1..], cutFails, k) && rest.error == cutFails(CutArgs(input, plan[1..][k])).value;
          FirstFailureAfterFirst(input, plan, cutFails, k);
          Err(rest.error)
        else
          assert forall k :: 1 <= k < |plan| ==> plan[k] == plan[1..][k - 1];
          Ok([plan[0].path] + rest.value)
  }

  /** After a first cut that succeeds, all cuts succeed iff the remaining ones do. */
  lemma CutsAfterFirst(input: string, plan: seq<Chunk>, cutFails: seq<string> -> Option<ProcessFailure>)
    requires plan != [] && cutFails(CutArgs(input, plan[0])).None?
    ensures (forall k :: 0 <= k < |plan| ==> cutFails(CutArgs(input, plan[k])).None?)
        <==> (forall k :: 0 <= k < |plan[1..]| ==> cutFails(CutArgs(input, plan[1..][k])).None?)
  {
    assert forall k :: 1 <= k < |plan| ==> plan[k] == plan[1..][k - 1];
  }

  lemma FirstFailureAfterFirst(input: string, plan: seq<Chunk>, cutFails: seq<string> -> Option<ProcessFailure>, k: int)
    requires plan != [] && cutFails(CutArgs(input, plan[0])).None?
    requires FirstFailure(input, plan[1..], cutFails, k)
    ensures FirstFailure(input, plan, cutFails, k + 1)
  {
    assert forall m :: 1 <= m < |plan| ==> plan[m] == plan[1..][m - 1];
  }

  /** Chunk `k` of `n` is cut from `k * d` for `d = duration / n` seconds into its own file. */
  lemma CutCommand(input: string, n: nat, duration: real, tempDir: string, uuidFor: nat -> string, k: nat)
    requires k < n
    ensures CutArgs(input, ChunkPlan(n, duration, tempDir, uuidFor)[k])
      == ["-i", input,
          "-ss", NumberToString(k as real * (duration / n as real)),
          "-t", NumberToString(duration / n as real),
          "-acodec", "pcm_s16le", "-ar", "16000", "-ac", "1",
          "-y", ChunkPath(tempDir, k, uuidFor)]
  {
    var c := ChunkPlan(n, duration, tempDir, uuidFor)[k];
    assert ChunkLength(n, duration) == duration / n as real;
    assert c.start == k as real * (duration / n as real) && c.length == duration / n as real;
  }

  /** `splitAudioBySize`: probe the duration, then cut the chunks in order. */
  function SplitAudioBySize(input: string, bytes: nat, maxMB: nat, probe: Result<real, ProcessFailure>,
                            cutFails: seq<string> -> Option<ProcessFailure>, tempDir: string, uuidFor: nat -> string)
    : (r: Result<seq<string>, ErrorInfo>)
    requires maxMB > 0
    ensures probe.Err? ==> r == Err(FfprobeFailed(probe.error))
    ensures probe.Ok? && r.Ok? ==> |r.value| == NumChunks(bytes, maxMB)
    ensures probe.Ok? && r.Ok? ==> forall k :: 0 <= k < |r.value| ==> r.value[k] == ChunkPath(tempDir, k, uuidFor)
    ensures probe.Ok? ==>
      var plan := ChunkPlan(NumChunks(bytes, maxMB), probe.value, tempDir, uuidFor);
      && (r.Ok? <==> forall k :: 0 <= k < |plan| ==> cutFails(CutArgs(input, plan[k])).None?)
      && (r.Err? ==> exists k :: FirstFailure(input, plan, cutFails, k)
                                 && r.error == FfmpegFailed(cutFails(CutArgs(input, plan[k])).value))
    ensures r.Err? ==> r.error.code == FfmpegError
  {
    match probe
    case Err(f) => Err(FfprobeFailed(f))
    case Ok(duration) =>
      var n := NumChunks(bytes, maxMB);
      var plan := ChunkPlan(n, duration, tempDir, uuidFor);
      match CutAll(input, plan, cutFails)
      case Ok(paths) => Ok(paths)
      case Err(f) => Err(FfmpegFailed(f))
  }
}

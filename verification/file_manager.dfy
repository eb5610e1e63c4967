/**
 * Media-file classification and checks: Node's POSIX `path.extname`, the
 * supported video and audio extension lists, the format and size checks that
 * raise structured errors, and the shape of temporary file names.
 *
 * The filesystem (`existsSync`, `statSync`) is replaced by its answers: a
 * size check takes the byte count, and a temporary path takes the temporary
 * directory and the random UUID as inputs.
 */
module FileManager {
  import opened Base
  import opened Text

  // ---------------------------------------------------------------------------
  // Paths
  // ---------------------------------------------------------------------------

  /** `p` without its trailing '/' characters. */
  function TrimTrailingSlashes(p: string): (r: string)
    ensures |r| <= |p| && r == p[..|r|]
    ensures r == "" || r[|r| - 1] != '/'
    ensures forall i :: |r| <= i < |p| ==> p[i] == '/'
  {
    if p != [] && p[|p| - 1] == '/' then TrimTrailingSlashes(p[..|p| - 1]) else p
  }

  /** The part of `p` after its last '/', or all of `p` when it has none. */
  function AfterLastSlash(p: string): (r: string)
    ensures |r| <= |p| && r == p[|p| - |r|..]
    ensures '/' !in r
    ensures |r| < |p| ==> p[|p| - |r| - 1] == '/'
  {
    if p == [] then []
    else if p[|p| - 1] == '/' then []
    else
      var r := AfterLastSlash(p[..|p| - 1]) + [p[|p| - 1]];
      assert r == p[|p| - |r|..];
      r
  }

  /** The index of the last `c` in `s`, if any. */
  function LastIndexOf(s: string, c: char): (r: Option<nat>)
    ensures r.None? ==> c !in s
    ensures r.Some? ==> r.value < |s| && s[r.value] == c && c !in s[r.value + 1..]
  {
    if s == [] then None
    else if s[|s| - 1] == c then Some(|s| - 1)
    else
      var r := LastIndexOf(s[..|s| - 1], c);
      assert r.Some? ==> s[r.value + 1..] == s[..|s| - 1][r.value + 1..] + [s[|s| - 1]];
      r
  }

  /** The last path component, trailing slashes ignored (the part `extname` inspects). */
  function BaseName(p: string): string
  {
    AfterLastSlash(TrimTrailingSlashes(p))
  }

  /** Node's POSIX `path.extname`: from the last '.' of the base name to its end; "" when
      the base name has no '.', starts with its only '.', or is "..". */
  function ExtName(p: string): (r: string)
    ensures r == "" || (r[0] == '.' && '.' !in r[1..] && '/' !in r)
    ensures |r| <= |BaseName(p)| && r == BaseName(p)[|BaseName(p)| - |r|..]
  {
    BaseExtension(BaseName(p))
  }

  /** The extension of a single path component `b` (one with no '/'). */
  function BaseExtension(b: string): (r: string)
    ensures r == "" || (r[0] == '.' && '.' !in r[1..])
    ensures '/' !in b ==> '/' !in r
    ensures |r| <= |b| && r == b[|b| - |r|..]
  {
    match LastIndexOf(b, '.')
    case None => ""
    case Some(d) =>
      if d == 0 || b == ".." then ""
      else
        assert b[d..][1..] == b[d + 1..];
        b[d..]
  }

  /** A name ending in `ext` (a '.' and at least one further character, none of them '.'
      or '/') after a non-empty stem has exactly `ext` as its extension, whatever
      directory it sits in. */
  lemma ExtNameOfName(dir: string, stem: string, ext: string)
    requires dir == "" || dir[|dir| - 1] == '/'
    requires stem != "" && '/' !in stem
    requires |ext| >= 2 && ext[0] == '.' && '.' !in ext[1..] && '/' !in ext
    ensures ExtName(dir + (stem + ext)) == ext
  {
    var name := stem + ext;
    NoSlashConcat(stem, ext);
    BaseNameOfName(dir, name);
    LastDotOfName(stem, ext);
    assert |name| > 2;
  }

  lemma NoSlashConcat(a: string, b: string)
    requires '/' !in a && '/' !in b
    ensures '/' !in a + b
  {
    assert forall k :: |a| <= k < |a + b| ==> (a + b)[k] == b[k - |a|];
  }

  lemma BaseNameOfName(dir: string, name: string)
    requires dir == "" || dir[|dir| - 1] == '/'
    requires name != "" && '/' !in name
    ensures BaseName(dir + name) == name
  {
    var p := dir + name;
    assert p[|p| - 1] == name[|name| - 1];
    assert TrimTrailingSlashes(p) == p;
    AfterLastSlashSuffix(dir, name);
  }

  /** The last component is pinned down by its characterisation: a '/'-free suffix that is
      either the whole path or preceded by '/'. */
  lemma AfterLastSlashSuffix(dir: string, name: string)
    requires dir == "" || dir[|dir| - 1] == '/'
    requires '/' !in name
    ensures AfterLastSlash(dir + name) == name
  {
    var p := dir + name;
    var r := AfterLastSlash(p);
    assert p[|dir|..] == name;
    assert |r| == |name|;
  }

  lemma LastDotOfName(stem: string, ext: string)
    requires stem != ""
    requires |ext| >= 1 && ext[0] == '.' && '.' !in ext[1..]
    ensures LastIndexOf(stem + ext, '.') == Some(|stem|)
  {
    var s := stem + ext;
    var r := LastIndexOf(s, '.');
    assert s[|stem|] == '.';
    assert s[|stem| + 1..] == ext[1..];
    assert r.Some?;
    assert forall k :: |stem| < k < |s| ==> s[k] == ext[k - |stem|];
  }

  /** Lower-casing a path lower-cases its extension and nothing else: '.' and '/' are
      left where they are. */
  lemma ExtNameToLower(p: string)
    ensures ExtName(ToLower(p)) == ToLower(ExtName(p))
  {
    TrimTrailingSlashesToLower(p);
    AfterLastSlashToLower(TrimTrailingSlashes(p));
    BaseExtensionToLower(BaseName(p));
  }

  lemma BaseExtensionToLower(b: string)
    ensures BaseExtension(ToLower(b)) == ToLower(BaseExtension(b))
  {
    LastIndexOfToLower(b, '.');
    LowerDotDot(b);
    match LastIndexOf(b, '.')
    case None =>
    case Some(d) =>
      ToLowerSlice(b, d);
  }

  lemma LowerDotDot(b: string)
    ensures ToLower(b) == ".." <==> b == ".."
  {
    if b == ".." {
      assert ToLower(b)[0] == '.' && ToLower(b)[1] == '.';
    }
    if ToLower(b) == ".." {
      assert b[0] == '.' && b[1] == '.';
    }
  }

  lemma ToLowerSlice(s: string, i: nat)
    requires i <= |s|
    ensures ToLower(s)[i..] == ToLower(s[i..])
  {
  }

  lemma {:induction false} TrimTrailingSlashesToLower(p: string)
    ensures TrimTrailingSlashes(ToLower(p)) == ToLower(TrimTrailingSlashes(p))
    decreases |p|
  {
    if p != [] {
      var q := ToLower(p);
      assert q[..|q| - 1] == ToLower(p[..|p| - 1]);
      if p[|p| - 1] == '/' {
        TrimTrailingSlashesToLower(p[..|p| - 1]);
      } else {
        assert q[|q| - 1] != '/';
      }
    }
  }

  lemma {:induction false} AfterLastSlashToLower(p: string)
    ensures AfterLastSlash(ToLower(p)) == ToLower(AfterLastSlash(p))
    decreases |p|
  {
    if p != [] {
      var init := p[..|p| - 1];
      var c := p[|p| - 1];
      ToLowerSnoc(init, c);
      assert init + [c] == p;
      LowerCharSlash(c);
      if c != '/' {
        AfterLastSlashToLower(init);
        AfterLastSlashSnoc(ToLower(init), LowerChar(c));
        AfterLastSlashSnoc(init, c);
        ToLowerSnoc(AfterLastSlash(init), c);
      } else {
        AfterLastSlashSlash(ToLower(init));
      }
    }
  }

  lemma ToLowerSnoc(a: string, c: char)
    ensures ToLower(a + [c]) == ToLower(a) + [LowerChar(c)]
  {
  }

  lemma AfterLastSlashSnoc(a: string, c: char)
    requires c != '/'
    ensures AfterLastSlash(a + [c]) == AfterLastSlash(a) + [c]
  {
    assert (a + [c])[..|a|] == a;
  }

  lemma AfterLastSlashSlash(a: string)
    ensures AfterLastSlash(a + ['/']) == []
  {
  }

  lemma LowerCharSlash(c: char)
    ensures LowerChar(c) == '/' <==> c == '/'
  {
  }

  lemma {:induction false} LastIndexOfToLower(s: string, c: char)
    requires c == '.'
    ensures LastIndexOf(ToLower(s), c) == LastIndexOf(s, c)
    decreases |s|
  {
    if s != [] {
      var q := ToLower(s);
      assert q[..|q| - 1] == ToLower(s[..|s| - 1]);
      LastIndexOfToLower(s[..|s| - 1], c);
    }
  }

  /** `path.join(dir, name)` for a single file name: one '/' between them, trailing
      slashes of `dir` dropped. */
  function JoinPath(dir: string, name: string): (r: string)
    ensures dir == "" ==> r == name
    ensures dir != "" ==> |r| > |name| && r[|r| - |name| - 1] == '/' && r[|r| - |name|..] == name
  {
    if dir == "" then name else TrimTrailingSlashes(dir) + "/" + name
  }

  // ---------------------------------------------------------------------------
  // Extension classification
  // ---------------------------------------------------------------------------

  const VideoExtensions: seq<string> := [".mp4", ".mkv", ".mov", ".avi", ".webm", ".flv", ".wmv", ".m4v"]
  const AudioExtensions: seq<string> := [".mp3", ".wav", ".m4a", ".ogg", ".flac", ".aac", ".wma", ".webm"]
  const MediaExtensions: seq<string> := VideoExtensions + AudioExtensions

  /** The lower-cased extension, the key every classification uses. */
  function Extension(p: string): string
  {
    ToLower(ExtName(p))
  }

  predicate IsVideoFile(p: string)
  {
    Extension(p) in VideoExtensions
  }

  predicate IsAudioFile(p: string)
  {
    Extension(p) in AudioExtensions
  }

  /** ".webm" is the one extension on both lists. */
  lemma OnlyWebmOnBothLists(e: string)
    ensures e in VideoExtensions && e in AudioExtensions <==> e == ".webm"
  {
    if e in VideoExtensions && e in AudioExtensions {
      var i :| 0 <= i < |VideoExtensions| && VideoExtensions[i] == e;
      var j :| 0 <= j < |AudioExtensions| && AudioExtensions[j] == e;
    }
  }

  /** A path is classified as both video and audio exactly when its extension is ".webm". */
  lemma WebmIsBoth(p: string)
    ensures IsVideoFile(p) && IsAudioFile(p) <==> Extension(p) == ".webm"
  {
    OnlyWebmOnBothLists(Extension(p));
  }

  /** Classification ignores letter case: a path and its lower-cased form agree. */
  lemma ClassificationIgnoresCase(p: string)
    ensures IsVideoFile(ToLower(p)) == IsVideoFile(p)
    ensures IsAudioFile(ToLower(p)) == IsAudioFile(p)
  {
    ExtNameToLower(p);
    ToLowerIdempotent(ExtName(p));
  }

  lemma ToLowerIdempotent(s: string)
    ensures ToLower(ToLower(s)) == ToLower(s)
  {
  }

  /** An upper-case ".MP4" name is a video file. */
  lemma UpperCaseMp4IsVideo(dir: string, stem: string)
    requires dir == "" || dir[|dir| - 1] == '/'
    requires stem != "" && '/' !in stem
    ensures IsVideoFile(dir + (stem + ".MP4"))
  {
    UpperCaseMp4Extension(dir, stem);
    LowerMp4();
    assert VideoExtensions[0] == ".mp4";
  }

  lemma UpperCaseMp4Extension(dir: string, stem: string)
    requires dir == "" || dir[|dir| - 1] == '/'
    requires stem != "" && '/' !in stem
    ensures ExtName(dir + (stem + ".MP4")) == ".MP4"
  {
    var ext := ".MP4";
    assert ext[1..] == "MP4";
    assert '.' !in ext[1..] && '/' !in ext;
    ExtNameOfName(dir, stem, ext);
  }

  lemma LowerMp4()
    ensures ToLower(".MP4") == ".mp4"
  {
    var u := ToLower(".MP4");
    assert u[0] == '.' && u[1] == 'm' && u[2] == 'p' && u[3] == '4';
  }

  /** The Kelvin sign lower-cases to 'k', so a ".M\U{212A}V" name is a Matroska video and
      passes the video check. */
  lemma KelvinSignMkv(dir: string, stem: string)
    requires dir == "" || dir[|dir| - 1] == '/'
    requires stem != "" && '/' !in stem
    ensures IsVideoFile(dir + (stem + ".M\U{212A}V"))
    ensures ValidateVideoFormat(dir + (stem + ".M\U{212A}V")).None?
  {
    KelvinSignExtension(dir, stem);
    LowerMkv();
    MkvIsVideo();
  }

  lemma MkvIsVideo()
    ensures ".mkv" in VideoExtensions
  {
    assert VideoExtensions[1] == ".mkv";
  }

  lemma KelvinSignExtension(dir: string, stem: string)
    requires dir == "" || dir[|dir| - 1] == '/'
    requires stem != "" && '/' !in stem
    ensures ExtName(dir + (stem + ".M\U{212A}V")) == ".M\U{212A}V"
  {
    var ext := ".M\U{212A}V";
    assert ext[1..] == "M\U{212A}V";
    assert '.' !in ext[1..] && '/' !in ext;
    ExtNameOfName(dir, stem, ext);
  }

  lemma LowerMkv()
    ensures ToLower(".M\U{212A}V") == ".mkv"
  {
    var u := ToLower(".M\U{212A}V");
    assert ".M\U{212A}V"[2] == KelvinSign;
    assert u[0] == '.' && u[1] == 'm' && u[2] == 'k' && u[3] == 'v';
  }

  // ---------------------------------------------------------------------------
  // Checks that raise errors
  // ---------------------------------------------------------------------------

  /** `validateMediaFormat`: the error it throws, if any. */
  function ValidateMediaFormat(p: string): (r: Option<ErrorInfo>)
    ensures r.None? <==> IsVideoFile(p) || IsAudioFile(p)
    ensures r.Some? ==> r.value.code == UnsupportedFormat
    ensures r.Some? ==> r.value.message == "Unsupported format: " + Extension(p)
    ensures r.Some? ==> r.value.suggestion == Some("Supported formats: " + Join(MediaExtensions, ", "))
  {
    if Extension(p) in MediaExtensions then None
    else Some(ErrorInfo(UnsupportedFormat, "Unsupported format: " + Extension(p),
                        Some("Supported formats: " + Join(MediaExtensions, ", "))))
  }

  /** `validateVideoFormat`: the error it throws, if any. */
  function ValidateVideoFormat(p: string): (r: Option<ErrorInfo>)
    ensures r.None? <==> IsVideoFile(p)
    ensures r.Some? ==> r.value.code == UnsupportedFormat
    ensures r.Some? ==> r.value.message == "Expected a video file, got: " + Extension(p)
    ensures r.Some? ==> r.value.suggestion == Some("Supported video formats: " + Join(VideoExtensions, ", "))
  {
    if Extension(p) in VideoExtensions then None
    else Some(ErrorInfo(UnsupportedFormat, "Expected a video file, got: " + Extension(p),
                        Some("Supported video formats: " + Join(VideoExtensions, ", "))))
  }

  /** Every video file passes the general media check too. */
  lemma VideoCheckIsStricter(p: string)
    ensures ValidateVideoFormat(p).None? ==> ValidateMediaFormat(p).None?
  {
  }

  const BytesPerMB: nat := 1024 * 1024

  /** The number of tenths a one-decimal rendering such as "12.3" stands for. */
  function TenthsOf(r: string): nat
    requires |r| >= 3 && r[|r| - 2] == '.'
    requires forall i :: 0 <= i < |r| && i != |r| - 2 ==> IsDigit(r[i])
  {
    DigitsValue(r[..|r| - 2] + [r[|r| - 1]])
  }

  /** `x.toFixed(1)` for `x = bytes / 2^20`: the digits, a '.', and one more digit, standing
      for the tenths `t` nearest to `x`, the larger one on a tie (`t / 10 - 1/20 <= x < t / 10 + 1/20`). */
  function MegabytesText(bytes: nat): (r: string)
    ensures |r| >= 3 && r[|r| - 2] == '.'
    ensures forall i :: 0 <= i < |r| && i != |r| - 2 ==> IsDigit(r[i])
    ensures 2 * TenthsOf(r) * BytesPerMB <= 20 * bytes + BytesPerMB < 2 * TenthsOf(r) * BytesPerMB + 2 * BytesPerMB
  {
    var tenths := (10 * bytes + BytesPerMB / 2) / BytesPerMB;
    var whole := NatToString(tenths / 10);
    var r := whole + "." + [DigitChar(tenths % 10)];
    assert r[..|r| - 2] == whole && r[|r| - 1] == DigitChar(tenths % 10);
    TenthsRendered(whole, tenths);
    RoundedTenths(bytes, tenths);
    r
  }

  lemma TenthsRendered(whole: string, tenths: nat)
    requires whole == NatToString(tenths / 10)
    ensures DigitsValue(whole + [DigitChar(tenths % 10)]) == tenths
  {
    var s := whole + [DigitChar(tenths % 10)];
    assert s[..|s| - 1] == whole;
    NatToStringValue(tenths / 10);
    DigitRoundTrip(tenths % 10);
  }

  lemma RoundedTenths(bytes: nat, tenths: nat)
    requires tenths == (10 * bytes + BytesPerMB / 2) / BytesPerMB
    ensures 2 * tenths * BytesPerMB <= 20 * bytes + BytesPerMB < 2 * tenths * BytesPerMB + 2 * BytesPerMB
  {
    var x := 10 * bytes + BytesPerMB / 2;
    assert tenths * BytesPerMB <= x < tenths * BytesPerMB + BytesPerMB;
  }

  /** `validateFileSize` over the file's byte count and the configured limit in MB. */
  function ValidateFileSize(bytes: nat, maxMB: int): (r: Option<ErrorInfo>)
    ensures r.None? <==> bytes <= maxMB * BytesPerMB
    ensures r.Some? ==> r.value.code == FileTooLarge
    ensures r.Some? ==> r.value.suggestion == Some("Use video_clip to trim the file first.")
    ensures r.Some? ==> r.value.message == "File is " + MegabytesText(bytes) + "MB, max is " + IntToString(maxMB) + "MB"
  {
    if bytes > maxMB * BytesPerMB then
      Some(ErrorInfo(FileTooLarge,
                     "File is " + MegabytesText(bytes) + "MB, max is " + IntToString(maxMB) + "MB",
                     Some("Use video_clip to trim the file first.")))
    else None
  }

  /** A file of exactly the limit passes and one byte more fails. */
  lemma SizeLimitBoundary(maxMB: nat)
    ensures ValidateFileSize(maxMB * BytesPerMB, maxMB).None?
    ensures ValidateFileSize(maxMB * BytesPerMB + 1, maxMB).Some?
  {
  }

  // ---------------------------------------------------------------------------
  // Temporary files
  // ---------------------------------------------------------------------------

  /** `uuid.slice(0, 8)`. */
  function ShortId(uuid: string): (id: string)
    ensures |id| == if |uuid| >= 8 then 8 else |uuid|
    ensures id == uuid[..|id|]
  {
    if |uuid| >= 8 then uuid[..8] else uuid
  }

  /** `tempPath`: `<tempDir>/<prefix>_<first 8 characters of the UUID><ext>`. */
  function TempPath(tempDir: string, prefix: string, uuid: string, ext: string): string
  {
    JoinPath(tempDir, TempName(prefix, uuid, ext))
  }

  /** The file name part of a temporary path: `<prefix>_<id><ext>`. */
  function TempName(prefix: string, uuid: string, ext: string): string
  {
    prefix + "_" + ShortId(uuid) + ext
  }

  lemma TempStemHasNoSlash(prefix: string, uuid: string)
    requires '/' !in prefix && '/' !in uuid
    ensures '/' !in prefix + "_" + ShortId(uuid)
  {
    var id := ShortId(uuid);
    var stem := prefix + "_" + id;
    assert forall k :: 0 <= k < |id| ==> id[k] == uuid[k];
    assert forall k :: 0 <= k < |stem| ==> stem[k] == if k < |prefix| then prefix[k] else if k == |prefix| then '_' else id[k - |prefix| - 1];
  }

  /** A temporary path is `<tempDir>/<prefix>_<id><ext>` (just the name when there is no
      directory), and its extension reads back as `ext`. */
  lemma TempPathShape(tempDir: string, prefix: string, uuid: string, ext: string)
    requires '/' !in prefix && '/' !in uuid
    requires |ext| >= 2 && ext[0] == '.' && '.' !in ext[1..] && '/' !in ext
    ensures tempDir == "" ==> TempPath(tempDir, prefix, uuid, ext) == TempName(prefix, uuid, ext)
    ensures tempDir != "" ==>
      TempPath(tempDir, prefix, uuid, ext) == TrimTrailingSlashes(tempDir) + "/" + TempName(prefix, uuid, ext)
    ensures ExtName(TempPath(tempDir, prefix, uuid, ext)) == ext
  {
    var stem := prefix + "_" + ShortId(uuid);
    var name := TempName(prefix, uuid, ext);
    TempStemHasNoSlash(prefix, uuid);
    assert name == stem + ext;
    if tempDir == "" {
      ExtNameOfName("", stem, ext);
      assert "" + name == name;
    } else {
      var d := TrimTrailingSlashes(tempDir) + "/";
      ExtNameOfName(d, stem, ext);
      assert TempPath(tempDir, prefix, uuid, ext) == d + name;
    }
  }
}

/**
 * The subtitle renderer: greedy two-line word wrap, zero-padded
 * `HH:MM:SS,mmm` / `HH:MM:SS.mmm` timestamps, and the SubRip and WebVTT
 * documents built from a segment list.
 *
 * Timestamps are rendered from whole milliseconds. The source renders from
 * floating-point seconds and rounds only the sub-second part, which can
 * produce a four-digit millisecond field; `FormatTimeAsWritten` keeps that
 * arithmetic (over exact reals) to exhibit it, and the documents use the
 * corrected `FormatTime`.
 */
module FormatConverter {
  import opened Base
  import opened Text
  import opened Transcript

  const MsPerSecond: nat := 1000
  const MsPerMinute: nat := 60000
  const MsPerHour: nat := 3600000

  /** Timestamps below this bound have a two-digit hour field. */
  const HundredHours: nat := 100 * MsPerHour

  // ---------------------------------------------------------------------------
  // Padding and timestamps
  // ---------------------------------------------------------------------------

  /** `pad`: at least two digits, zero-filled on the left. */
  function Pad(n: nat): (r: string)
    ensures n < 100 ==> r == [DigitChar(n / 10), DigitChar(n % 10)]
    ensures n >= 100 ==> r == NatToString(n)
  {
    var d := NatToString(n);
    if n < 10 then
      assert d == [DigitChar(n)];
      PadStart(d, 2, '0')
    else
      assert n < 100 ==> d == NatToString(n / 10) + [DigitChar(n % 10)];
      PadStart(d, 2, '0')
  }

  /** `pad3`: at least three digits, zero-filled on the left. */
  function Pad3(n: nat): (r: string)
    ensures n < 1000 ==> r == [DigitChar(n / 100), DigitChar(n / 10 % 10), DigitChar(n % 10)]
    ensures n >= 1000 ==> r == NatToString(n)
  {
    var d := NatToString(n);
    if n < 10 then
      assert d == [DigitChar(n)];
      PadStart(d, 3, '0')
    else if n < 100 then
      assert d == NatToString(n / 10) + [DigitChar(n % 10)];
      PadStart(d, 3, '0')
    else
      assert n < 1000 ==> d == NatToString(n / 10) + [DigitChar(n % 10)];
      assert n < 1000 ==> NatToString(n / 10) == NatToString(n / 100) + [DigitChar(n / 10 % 10)];
      PadStart(d, 3, '0')
  }

  /** Whole milliseconds to `HH:MM:SS<sep>mmm`, hours unbounded. */
  function FormatTime(t: nat, sep: char): (r: string)
    ensures t < HundredHours ==> |r| == 12 && r[2] == ':' && r[5] == ':' && r[8] == sep
  {
    var h := t / MsPerHour;
    var m := t % MsPerHour / MsPerMinute;
    var s := t % MsPerMinute / MsPerSecond;
    var ms := t % MsPerSecond;
    Pad(h) + ":" + Pad(m) + ":" + Pad(s) + [sep] + Pad3(ms)
  }

  /** `formatTimeSRT`: the SubRip timestamp, comma before the milliseconds. */
  function FormatTimeSRT(t: nat): string
  {
    FormatTime(t, ',')
  }

  /** `formatTimeVTT`: the WebVTT timestamp, full stop before the milliseconds. */
  function FormatTimeVTT(t: nat): string
  {
    FormatTime(t, '.')
  }

  /** Reads back a `HH:MM:SS<sep>mmm` timestamp; None for anything else. */
  function ParseTimestamp(s: string, sep: char): (r: Option<nat>)
  {
    if |s| == 12 && s[2] == ':' && s[5] == ':' && s[8] == sep
       && (forall i :: 0 <= i < 12 && i != 2 && i != 5 && i != 8 ==> IsDigit(s[i]))
    then
      var h := DigitsValue(s[0..2]);
      var m := DigitsValue(s[3..5]);
      var sec := DigitsValue(s[6..8]);
      var ms := DigitsValue(s[9..12]);
      if m < 60 && sec < 60 then Some(Millis(h, m, sec, ms)) else None
    else None
  }

  /** The time the four fields of a timestamp denote. */
  function Millis(h: nat, m: nat, s: nat, ms: nat): nat
  {
    h * MsPerHour + m * MsPerMinute + s * MsPerSecond + ms
  }

  lemma TwoDigitsValue(n: nat)
    requires n < 100
    ensures DigitsValue([DigitChar(n / 10), DigitChar(n % 10)]) == n
  {
    var s := [DigitChar(n / 10), DigitChar(n % 10)];
    assert s[..1] == [DigitChar(n / 10)];
    assert s[..1][..0] == "";
    DigitRoundTrip(n / 10);
    DigitRoundTrip(n % 10);
    assert DigitsValue(s[..1]) == 10 * DigitsValue("") + DigitValue(s[0]) == n / 10;
    assert DigitsValue(s) == 10 * DigitsValue(s[..1]) + DigitValue(s[1]);
  }

  lemma ThreeDigitsValue(n: nat)
    requires n < 1000
    ensures DigitsValue([DigitChar(n / 100), DigitChar(n / 10 % 10), DigitChar(n % 10)]) == n
  {
    var s := [DigitChar(n / 100), DigitChar(n / 10 % 10), DigitChar(n % 10)];
    assert s[..2] == [DigitChar(n / 100), DigitChar(n / 10 % 10)];
    assert n / 10 / 10 == n / 100;
    TwoDigitsValue(n / 10);
    DigitRoundTrip(n % 10);
  }

  /** Hours, minutes, seconds and milliseconds put back together give the time. */
  lemma Decompose(t: nat)
    ensures t == Millis(t / MsPerHour, t % MsPerHour / MsPerMinute, t % MsPerMinute / MsPerSecond, t % MsPerSecond)
    ensures t % MsPerHour / MsPerMinute < 60 && t % MsPerMinute / MsPerSecond < 60
  {
    var a := t / 3600000;
    var r1 := t % 3600000;
    var b := r1 / 60000;
    var r2 := r1 % 60000;
    var c := r2 / 1000;
    var ms := r2 % 1000;
    DivModUnique(t, 60000, a * 60 + b, r2);
    DivModUnique(t, 1000, a * 3600 + b * 60 + c, ms);
  }

  /** Below 100 hours a rendered timestamp reads back as the time it renders. */
  lemma TimestampRoundTrip(t: nat, sep: char)
    requires t < HundredHours
    ensures ParseTimestamp(FormatTime(t, sep), sep) == Some(t)
  {
    var h := t / MsPerHour;
    var m := t % MsPerHour / MsPerMinute;
    var s := t % MsPerMinute / MsPerSecond;
    var ms := t % MsPerSecond;
    Decompose(t);
    ReadFields(h, m, s, ms, sep);
  }

  /** Fields in range, rendered and read back, give the time they denote. */
  lemma ReadFields(h: nat, m: nat, s: nat, ms: nat, sep: char)
    requires h < 100 && m < 60 && s < 60 && ms < 1000
    ensures ParseTimestamp(Pad(h) + ":" + Pad(m) + ":" + Pad(s) + [sep] + Pad3(ms), sep) == Some(Millis(h, m, s, ms))
  {
    var r := Pad(h) + ":" + Pad(m) + ":" + Pad(s) + [sep] + Pad3(ms);
    TwoDigitsValue(h);
    TwoDigitsValue(m);
    TwoDigitsValue(s);
    ThreeDigitsValue(ms);
    assert r[0..2] == Pad(h);
    assert r[3..5] == Pad(m);
    assert r[6..8] == Pad(s);
    assert r[9..12] == Pad3(ms);
    assert forall i :: 0 <= i < 12 && i != 2 && i != 5 && i != 8 ==> IsDigit(r[i]);
  }

  /** The SubRip and WebVTT timestamps of one time differ only in the separator character. */
  lemma SrtVttTimestampsDiffer(t: nat)
    ensures |FormatTimeSRT(t)| == |FormatTimeVTT(t)| >= 4
    ensures FormatTimeSRT(t)[|FormatTimeSRT(t)| - 4] == ','
    ensures FormatTimeVTT(t)[|FormatTimeVTT(t)| - 4] == '.'
    ensures forall i :: 0 <= i < |FormatTimeSRT(t)| && i != |FormatTimeSRT(t)| - 4 ==>
      FormatTimeSRT(t)[i] == FormatTimeVTT(t)[i]
  {
    var h := t / MsPerHour;
    var m := t % MsPerHour / MsPerMinute;
    var s := t % MsPerMinute / MsPerSecond;
    var ms := t % MsPerSecond;
    var prefix := Pad(h) + ":" + Pad(m) + ":" + Pad(s);
    assert FormatTimeSRT(t) == prefix + [','] + Pad3(ms);
    assert FormatTimeVTT(t) == prefix + ['.'] + Pad3(ms);
  }

  /** Seconds to whole milliseconds, rounding half up (`Math.round`); negative times render as 0. */
  function ToMillis(seconds: real): (t: nat)
    ensures seconds >= 0.0 ==> seconds * 1000.0 - 0.5 < t as real <= seconds * 1000.0 + 0.5
  {
    if seconds <= 0.0 then 0 else (seconds * 1000.0 + 0.5).Floor
  }

  /** JavaScript `x % d` for a non-negative `x` and positive `d`. */
  function RealMod(x: real, d: real): (r: real)
    requires x >= 0.0 && d > 0.0
    ensures 0.0 <= r < d
  {
    RealModBounds(x, d);
    x - d * ((x / d).Floor as real)
  }

  lemma RealModBounds(x: real, d: real)
    requires x >= 0.0 && d > 0.0
    ensures 0.0 <= x - d * ((x / d).Floor as real) < d
  {
    var q := x / d;
    var f := q.Floor as real;
    var e := q - f;
    assert 0.0 <= e < 1.0;
    assert x == d * q;
    assert x - d * f == d * e;
    assert 0.0 <= d * e;
    assert d - d * e == d * (1.0 - e);
    assert d * (1.0 - e) > 0.0;
    assert x - d * f < d;
  }

  /** `formatTimeSRT` / `formatTimeVTT` as written, over exact non-negative seconds: the hour, minute and
      second fields are floored, and only the fractional part is rounded to milliseconds. */
  function FormatTimeAsWritten(seconds: real, sep: char): (r: string)
    requires seconds >= 0.0
    ensures |r| >= 12
  {
    var h := (seconds / 3600.0).Floor;
    var m := (RealMod(seconds, 3600.0) / 60.0).Floor;
    var s := RealMod(seconds, 60.0).Floor;
    var ms := (RealMod(seconds, 1.0) * 1000.0 + 0.5).Floor;
    Pad(h) + ":" + Pad(m) + ":" + Pad(s) + [sep] + Pad3(ms)
  }

  /** Whenever the rounded fraction stays below 1000 the two renderings agree: on
      non-negative times the as-written fields are exactly those of the whole
      milliseconds `Math.round` gives. */
  lemma AsWrittenAgrees(seconds: real, sep: char)
    requires seconds >= 0.0
    requires (RealMod(seconds, 1.0) * 1000.0 + 0.5).Floor < 1000
    ensures FormatTimeAsWritten(seconds, sep) == FormatTime(ToMillis(seconds), sep)
  {
    var whole := seconds.Floor;
    var ms := (RealMod(seconds, 1.0) * 1000.0 + 0.5).Floor;
    var t := ToMillis(seconds);
    RoundedMillis(seconds);
    assert t == whole * 1000 + ms;
    TimeFields(whole, ms);
    FloorDiv(seconds, 3600);
    assert (seconds / 3600.0).Floor == t / MsPerHour;
    RealModWhole(seconds, 3600);
    FloorDiv(RealMod(seconds, 3600.0), 60);
    assert (RealMod(seconds, 3600.0) / 60.0).Floor == t % MsPerHour / MsPerMinute;
    RealModWhole(seconds, 60);
    assert RealMod(seconds, 60.0).Floor == t % MsPerMinute / MsPerSecond;
    assert ms == t % MsPerSecond;
  }

  /** Adding a whole number commutes with taking the floor. */
  lemma FloorShift(n: int, y: real)
    ensures (n as real + y).Floor == n + y.Floor
  {
    var k := y.Floor;
    assert (n + k) as real <= n as real + y < (n + k + 1) as real;
  }

  /** `Math.floor(x / d) == Math.floor(Math.floor(x) / d)` for a whole divisor `d`. */
  lemma FloorDiv(x: real, d: nat)
    requires x >= 0.0 && d > 0
    ensures (x / d as real).Floor == x.Floor / d
  {
    var whole := x.Floor;
    var q := whole / d;
    assert q * d <= whole < q * d + d;
    assert (q * d) as real == q as real * d as real;
    assert (q * d + d) as real == (q as real + 1.0) * d as real;
    QuotientFloor(x, q, d as real);
  }

  /** From `q * d <= x < (q + 1) * d` with `d > 0`, `x / d` lies in `[q, q + 1)`. */
  lemma QuotientFloor(x: real, q: int, d: real)
    requires d > 0.0
    requires q as real * d <= x < (q as real + 1.0) * d
    ensures (x / d).Floor == q
  {
    var y := x / d;
    ScaleOrder(q as real, y, d);
    ScaleOrder(q as real + 1.0, y, d);
  }

  /** Multiplying by a positive factor keeps the order. */
  lemma ScaleOrder(a: real, b: real, d: real)
    requires d > 0.0
    ensures a <= b <==> a * d <= b * d
  {
  }

  /** `x % d` for a whole divisor `d`: the whole part's remainder plus the fraction. */
  lemma RealModWhole(x: real, d: nat)
    requires x >= 0.0 && d > 0
    ensures RealMod(x, d as real) == (x.Floor % d) as real + (x - x.Floor as real)
    ensures RealMod(x, d as real).Floor == x.Floor % d
  {
    FloorDiv(x, d);
    var whole := x.Floor;
    assert whole == (whole / d) * d + whole % d;
    assert (whole / d * d) as real == (whole / d) as real * d as real;
    FloorShift(whole % d, x - whole as real);
  }

  /** Rounding a non-negative time to milliseconds: the whole seconds, then the rounded fraction. */
  lemma RoundedMillis(seconds: real)
    requires seconds >= 0.0
    ensures ToMillis(seconds) == seconds.Floor * 1000 + (RealMod(seconds, 1.0) * 1000.0 + 0.5).Floor
  {
    RealModWhole(seconds, 1);
    var whole := seconds.Floor;
    var f := seconds - whole as real;
    assert seconds * 1000.0 + 0.5 == (whole * 1000) as real + (f * 1000.0 + 0.5);
    FloorShift(whole * 1000, f * 1000.0 + 0.5);
  }

  /** The fields of `whole * 1000 + ms` milliseconds, from the whole seconds. */
  lemma TimeFields(whole: nat, ms: nat)
    requires ms < 1000
    ensures var t := whole * 1000 + ms;
      && t / MsPerHour == whole / 3600
      && t % MsPerHour / MsPerMinute == whole % 3600 / 60
      && t % MsPerMinute / MsPerSecond == whole % 60
      && t % MsPerSecond == ms
  {
    var t := whole * 1000 + ms;
    DivModUnique(t, 1000, whole, ms);
    DivModUnique(t, MsPerHour, whole / 3600, whole % 3600 * 1000 + ms);
    DivModUnique(t, MsPerMinute, whole / 60, whole % 60 * 1000 + ms);
    DivModUnique(t % MsPerHour, MsPerMinute, whole % 3600 / 60, whole % 3600 % 60 * 1000 + ms);
    DivModUnique(t % MsPerMinute, MsPerSecond, whole % 60, ms);
  }

  /** As written, 0.9996 s rounds its fraction up to 1000 and renders a four-digit millisecond field. */
  lemma AsWrittenMillisOverflow()
    ensures FormatTimeAsWritten(0.9996, ',') == "00:00:00,1000"
    ensures FormatTimeSRT(ToMillis(0.9996)) == "00:00:01,000"
  {
    AsWrittenOverflowText();
    RoundedOverflowText();
  }

  lemma AsWrittenOverflowText()
    ensures FormatTimeAsWritten(0.9996, ',') == "00:00:00,1000"
  {
    OverflowFields();
    ThousandText();
    assert Pad(0) == "00";
  }

  lemma RoundedOverflowText()
    ensures FormatTimeSRT(ToMillis(0.9996)) == "00:00:01,000"
  {
    assert ToMillis(0.9996) == 1000;
    assert Pad(0) == "00" && Pad(1) == "01" && Pad3(0) == "000";
  }

  lemma OverflowFields()
    ensures (0.9996 / 3600.0).Floor == 0
    ensures (RealMod(0.9996, 3600.0) / 60.0).Floor == 0 && RealMod(0.9996, 60.0).Floor == 0
    ensures (RealMod(0.9996, 1.0) * 1000.0 + 0.5).Floor == 1000
  {
    assert RealMod(0.9996, 3600.0) == 0.9996 && RealMod(0.9996, 60.0) == 0.9996 && RealMod(0.9996, 1.0) == 0.9996;
  }

  lemma ThousandText()
    ensures NatToString(1000) == "1000"
  {
    assert NatToString(1) == "1";
    assert NatToString(10) == NatToString(1) + "0";
    assert NatToString(100) == NatToString(10) + "0";
  }

  // ---------------------------------------------------------------------------
  // Greedy line wrap
  // ---------------------------------------------------------------------------

  /** The words of `text`: `text.trim().split(/\s+/)`. */
  function Words(text: string): (ws: seq<string>)
    ensures |ws| >= 1
    ensures forall k :: 0 <= k < |ws| ==> NoSpace(ws[k])
  {
    SplitWs(Trim(text))
  }

  lemma WordsShape(text: string)
    ensures Trim(text) == "" ==> Words(text) == [""]
    ensures Trim(text) != "" ==> forall k :: 0 <= k < |Words(text)| ==> Words(text)[k] != ""
  {
    if Trim(text) != "" {
      SplitWsCleanPieces(Trim(text));
    }
  }

  /** One iteration of the packing loop: close the current line when the word would overflow it.
      Widths are JavaScript string lengths, in UTF-16 code units. */
  function PackStep(lines: seq<string>, current: string, word: string, maxChars: int): (seq<string>, string)
  {
    if Utf16Length(current) + Utf16Length(word) + 1 > maxChars && Utf16Length(current) > 0 then (lines + [Trim(current)], word)
    else (lines, current + (if current != "" then " " else "") + word)
  }

  /** The packing loop over the remaining words. */
  function PackLoop(words: seq<string>, maxChars: int, lines: seq<string>, current: string): (seq<string>, string)
    decreases |words|
  {
    if words == [] then (lines, current)
    else
      var (lines', current') := PackStep(lines, current, words[0], maxChars);
      PackLoop(words[1..], maxChars, lines', current')
  }

  /** A character outside the Basic Multilingual Plane is two units wide: a line holding
      one emoji has width 2, so "ab" no longer fits beside it within 4. */
  lemma SurrogatePairsCountTwice()
    ensures PackStep([], "\U{1F600}", "ab", 4) == (["\U{1F600}"], "ab")
  {
    var e := "\U{1F600}";
    Utf16OfBmp("ab");
    assert e[..0] == "" && CodeUnits(e[0]) == 2;
    assert Utf16Length(e) == 2;
    assert Clean(e);
    TrimClean(e);
    var none: seq<string> := [];
    assert none + [Trim(e)] == [e];
    assert PackStep(none, e, "ab", 4) == (none + [Trim(e)], "ab");
  }

  /** Every line the loop produces, before the two-line cut. */
  function AllLines(text: string, maxChars: int): seq<string>
  {
    var (lines, current) := PackLoop(Words(text), maxChars, [], "");
    if current != "" then lines + [Trim(current)] else lines
  }

  /** `splitText`: the first two wrapped lines. */
  function SplitText(text: string, maxChars: int): (r: seq<string>)
    ensures |r| <= 2
  {
    var all := AllLines(text, maxChars);
    if |all| <= 2 then all else all[..2]
  }

  /** Reference definition of the packing: the same greedy rule over groups of words. */
  function GroupLoop(words: seq<string>, maxChars: int, done: seq<seq<string>>, current: seq<string>)
    : seq<seq<string>>
    decreases |words|
  {
    if words == [] then (if current != [] then done + [current] else done)
    else
      var w := words[0];
      var width := Utf16Length(Join(current, " "));
      if width + Utf16Length(w) + 1 > maxChars && width > 0 then GroupLoop(words[1..], maxChars, done + [current], [w])
      else GroupLoop(words[1..], maxChars, done, current + [w])
  }

  function Flatten(groups: seq<seq<string>>): seq<string>
  {
    if groups == [] then [] else groups[0] + Flatten(groups[1..])
  }

  function JoinEach(groups: seq<seq<string>>): (r: seq<string>)
    ensures |r| == |groups|
    ensures forall k :: 0 <= k < |groups| ==> r[k] == Join(groups[k], " ")
  {
    if groups == [] then [] else [Join(groups[0], " ")] + JoinEach(groups[1..])
  }

  predicate NonEmptyWords(ws: seq<string>)
  {
    forall k :: 0 <= k < |ws| ==> ws[k] != "" && NoSpace(ws[k])
  }

  /** A group is acceptable when it is one word or fits within the width. */
  predicate FitsOrSingle(g: seq<string>, maxChars: int)
  {
    |g| == 1 || Utf16Length(Join(g, " ")) <= maxChars
  }

  /** Every group is non-empty and acceptable. */
  predicate AcceptableGroups(gs: seq<seq<string>>, maxChars: int)
  {
    forall k :: 0 <= k < |gs| ==> gs[k] != [] && FitsOrSingle(gs[k], maxChars)
  }

  lemma {:induction false} FlattenSnoc(gs: seq<seq<string>>, g: seq<string>)
    ensures Flatten(gs + [g]) == Flatten(gs) + g
    decreases |gs|
  {
    if gs == [] {
      assert [g][1..] == [];
    } else {
      assert (gs + [g])[1..] == gs[1..] + [g];
      FlattenSnoc(gs[1..], g);
    }
  }

  lemma {:induction false} FlattenPrefix(gs: seq<seq<string>>, c: nat)
    requires c <= |gs|
    ensures Flatten(gs) == Flatten(gs[..c]) + Flatten(gs[c..])
    decreases c
  {
    if c > 0 {
      assert gs[..c][1..] == gs[1..][..c - 1];
      assert gs[c..] == gs[1..][c - 1..];
      FlattenPrefix(gs[1..], c - 1);
    }
  }

  lemma {:induction false} JoinEachSnoc(gs: seq<seq<string>>, g: seq<string>)
    ensures JoinEach(gs + [g]) == JoinEach(gs) + [Join(g, " ")]
  {
  }

  /** Joining the joined groups equals joining their words, for non-empty groups. */
  lemma {:induction false} JoinFlatten(gs: seq<seq<string>>)
    requires forall k :: 0 <= k < |gs| ==> gs[k] != []
    ensures Join(JoinEach(gs), " ") == Join(Flatten(gs), " ")
    decreases |gs|
  {
    if |gs| > 1 {
      JoinFlatten(gs[1..]);
      assert JoinEach(gs) == [Join(gs[0], " ")] + JoinEach(gs[1..]);
      JoinConcat([Join(gs[0], " ")], JoinEach(gs[1..]), " ");
      assert Flatten(gs[1..]) != [] by {
        assert Flatten(gs[1..]) == gs[1] + Flatten(gs[2..]);
      }
      JoinConcat(gs[0], Flatten(gs[1..]), " ");
    } else if |gs| == 1 {
      assert JoinEach(gs) == [Join(gs[0], " ")];
      assert Flatten(gs) == gs[0] + Flatten([]);
      assert Flatten(gs) == gs[0];
    }
  }

  /** A non-empty group of non-empty, space-free words joins to a string that trimming leaves alone. */
  lemma JoinGroupClean(g: seq<string>)
    requires g != [] && NonEmptyWords(g)
    ensures Clean(Join(g, " "))
    ensures Trim(Join(g, " ")) == Join(g, " ")
  {
    JoinEnds(g, " ");
    var j := Join(g, " ");
    assert j[0] == g[0][0];
    assert !IsSpace(g[0][0]);
    var last := g[|g| - 1];
    assert !IsSpace(last[|last| - 1]);
    TrimClean(j);
  }

  /** The string loop and the group loop agree: each line is the join of its group. */
  lemma {:induction false} PackMatchesGroups(
    words: seq<string>, maxChars: int, done: seq<seq<string>>, current: seq<string>)
    requires NonEmptyWords(words) && NonEmptyWords(current)
    requires forall k :: 0 <= k < |done| ==> done[k] != [] && NonEmptyWords(done[k])
    ensures var (lines, cur) := PackLoop(words, maxChars, JoinEach(done), Join(current, " "));
      (if cur != "" then lines + [Trim(cur)] else lines) == JoinEach(GroupLoop(words, maxChars, done, current))
    decreases |words|
  {
    var cs := Join(current, " ");
    if current != [] {
      JoinEnds(current, " ");
      JoinGroupClean(current);
    }
    if words == [] {
      if current != [] {
        JoinEachSnoc(done, current);
      }
    } else {
      var w := words[0];
      if Utf16Length(cs) + Utf16Length(w) + 1 > maxChars && Utf16Length(cs) > 0 {
        JoinEachSnoc(done, current);
        assert Join([w], " ") == w;
        PackMatchesGroups(words[1..], maxChars, done + [current], [w]);
      } else {
        JoinSnoc(current, w, " ");
        assert cs + (if cs != "" then " " else "") + w == Join(current + [w], " ");
        PackMatchesGroups(words[1..], maxChars, done, current + [w]);
      }
    }
  }

  /** What the group loop guarantees: groups are non-empty, acceptable, and partition the words in order. */
  lemma GroupLoopProps(words: seq<string>, maxChars: int, done: seq<seq<string>>, current: seq<string>)
    requires AcceptableGroups(done, maxChars)
    requires current == [] || FitsOrSingle(current, maxChars)
    requires NonEmptyWords(words) && NonEmptyWords(current)
    ensures AcceptableGroups(GroupLoop(words, maxChars, done, current), maxChars)
    ensures Flatten(GroupLoop(words, maxChars, done, current)) == Flatten(done) + current + words
    ensures words != [] || current != [] ==> |GroupLoop(words, maxChars, done, current)| > |done|
  {
    GroupLoopAcceptable(words, maxChars, done, current);
    GroupLoopFlatten(words, maxChars, done, current);
    GroupLoopGrows(words, maxChars, done, current);
  }

  lemma {:induction false} GroupLoopAcceptable(words: seq<string>, maxChars: int, done: seq<seq<string>>, current: seq<string>)
    requires AcceptableGroups(done, maxChars)
    requires current == [] || FitsOrSingle(current, maxChars)
    requires NonEmptyWords(words) && NonEmptyWords(current)
    ensures AcceptableGroups(GroupLoop(words, maxChars, done, current), maxChars)
    decreases |words|
  {
    if words == [] {
      if current != [] {
        AcceptableSnoc(done, current, maxChars);
      }
    } else {
      var w := words[0];
      var width := Utf16Length(Join(current, " "));
      assert NonEmptyWords(words[1..]) && NonEmptyWords([w]);
      if width + Utf16Length(w) + 1 > maxChars && width > 0 {
        assert current != [];
        AcceptableSnoc(done, current, maxChars);
        GroupLoopAcceptable(words[1..], maxChars, done + [current], [w]);
        assert GroupLoop(words, maxChars, done, current) == GroupLoop(words[1..], maxChars, done + [current], [w]);
      } else {
        if current != [] {
          JoinEnds(current, " ");
        }
        AppendFits(current, w, maxChars);
        assert NonEmptyWords(current + [w]);
        GroupLoopAcceptable(words[1..], maxChars, done, current + [w]);
        assert GroupLoop(words, maxChars, done, current) == GroupLoop(words[1..], maxChars, done, current + [w]);
      }
    }
  }

  lemma AcceptableSnoc(done: seq<seq<string>>, g: seq<string>, maxChars: int)
    requires AcceptableGroups(done, maxChars) && g != [] && FitsOrSingle(g, maxChars)
    ensures AcceptableGroups(done + [g], maxChars)
  {
  }

  /** A word that fits beside the current line keeps the group within the width. */
  lemma AppendFits(current: seq<string>, w: string, maxChars: int)
    requires current == [] || Utf16Length(Join(current, " ")) + Utf16Length(w) + 1 <= maxChars
    ensures FitsOrSingle(current + [w], maxChars)
  {
    JoinSnoc(current, w, " ");
    if current == [] {
      assert current + [w] == [w];
    } else {
      var j := Join(current, " ");
      Utf16Concat(j + " ", w);
      Utf16Concat(j, " ");
      assert Utf16Length(" ") == 1 by {
        assert " "[..0] == "";
      }
    }
  }

  lemma {:induction false} GroupLoopFlatten(words: seq<string>, maxChars: int, done: seq<seq<string>>, current: seq<string>)
    ensures Flatten(GroupLoop(words, maxChars, done, current)) == Flatten(done) + current + words
    decreases |words|
  {
    if words == [] {
      if current != [] {
        FlattenSnoc(done, current);
      }
    } else {
      var w := words[0];
      var width := Utf16Length(Join(current, " "));
      if width + Utf16Length(w) + 1 > maxChars && width > 0 {
        assert GroupLoop(words, maxChars, done, current) == GroupLoop(words[1..], maxChars, done + [current], [w]);
        FlattenSnoc(done, current);
        GroupLoopFlatten(words[1..], maxChars, done + [current], [w]);
        SplitFirst(Flatten(done) + current, words);
      } else {
        assert GroupLoop(words, maxChars, done, current) == GroupLoop(words[1..], maxChars, done, current + [w]);
        GroupLoopFlatten(words[1..], maxChars, done, current + [w]);
        SplitFirst(Flatten(done) + current, words);
      }
    }
  }

  lemma SplitFirst(front: seq<string>, words: seq<string>)
    requires words != []
    ensures front + [words[0]] + words[1..] == front + words
  {
    assert [words[0]] + words[1..] == words;
  }

  /** The loop only appends groups: those already closed stay in front. */
  lemma {:induction false} GroupLoopGrows(words: seq<string>, maxChars: int, done: seq<seq<string>>, current: seq<string>)
    ensures |GroupLoop(words, maxChars, done, current)| >= |done|
    ensures words != [] || current != [] ==> |GroupLoop(words, maxChars, done, current)| > |done|
    ensures GroupLoop(words, maxChars, done, current)[..|done|] == done
    decreases |words|
  {
    if words != [] {
      var w := words[0];
      var width := Utf16Length(Join(current, " "));
      if width + Utf16Length(w) + 1 > maxChars && width > 0 {
        GroupLoopGrows(words[1..], maxChars, done + [current], [w]);
        var gs := GroupLoop(words[1..], maxChars, done + [current], [w]);
        assert gs[..|done|] == (gs[..|done| + 1])[..|done|];
      } else {
        GroupLoopGrows(words[1..], maxChars, done, current + [w]);
      }
    }
  }

  /** The wrapped lines are the joins of the groups the reference packing forms over the words. */
  lemma AllLinesAreGroups(text: string, maxChars: int)
    requires Trim(text) != ""
    ensures var gs := GroupLoop(Words(text), maxChars, [], []);
      && AllLines(text, maxChars) == JoinEach(gs)
      && AcceptableGroups(gs, maxChars)
      && Flatten(gs) == Words(text)
      && |gs| >= 1
  {
    WordsShape(text);
    var ws := Words(text);
    assert NonEmptyWords(ws);
    PackMatchesGroups(ws, maxChars, [], []);
    assert JoinEach([]) == [] && Join([], " ") == "";
    GroupLoopProps(ws, maxChars, [], []);
  }

  /** The kept lines are the joins of the first (at most two) groups of the reference packing. */
  lemma SplitTextIsFirstGroups(text: string, maxChars: int) returns (gs: seq<seq<string>>, c: nat)
    requires Trim(text) != ""
    ensures AcceptableGroups(gs, maxChars) && Flatten(gs) == Words(text) && |gs| >= 1
    ensures c == if |gs| <= 2 then |gs| else 2
    ensures |AllLines(text, maxChars)| == |gs|
    ensures SplitText(text, maxChars) == JoinEach(gs[..c])
  {
    AllLinesAreGroups(text, maxChars);
    gs := GroupLoop(Words(text), maxChars, [], []);
    c := if |gs| <= 2 then |gs| else 2;
    JoinEachPrefix(gs, c);
    assert JoinEach(gs)[..|gs|] == JoinEach(gs);
  }

  lemma JoinEachPrefix(gs: seq<seq<string>>, c: nat)
    requires c <= |gs|
    ensures JoinEach(gs)[..c] == JoinEach(gs[..c])
  {
  }

  /** Joining the lines of the first `c` groups joins a prefix of the words; all of them when `c` covers every group. */
  lemma GroupsPrefixJoin(gs: seq<seq<string>>, c: nat, words: seq<string>) returns (k: nat)
    requires c <= |gs| && Flatten(gs) == words
    requires forall i :: 0 <= i < |gs| ==> gs[i] != []
    ensures k <= |words|
    ensures Join(JoinEach(gs[..c]), " ") == Join(words[..k], " ")
    ensures c == |gs| ==> k == |words|
  {
    var prefix := gs[..c];
    JoinFlatten(prefix);
    FlattenPrefix(gs, c);
    k := |Flatten(prefix)|;
    assert words[..k] == Flatten(prefix);
    if c == |gs| {
      assert prefix == gs;
    }
  }

  /** A line built from an acceptable group fits the width or is one of the packed words. */
  lemma LineOfGroup(gs: seq<seq<string>>, k: nat, maxChars: int)
    requires k < |gs| && AcceptableGroups(gs, maxChars)
    ensures Utf16Length(Join(gs[k], " ")) <= maxChars || Join(gs[k], " ") in Flatten(gs)
  {
    if |gs[k]| == 1 {
      InFlatten(gs, k, 0);
    }
  }

  lemma {:induction false} InFlatten(gs: seq<seq<string>>, k: nat, j: nat)
    requires k < |gs| && j < |gs[k]|
    ensures gs[k][j] in Flatten(gs)
    decreases k
  {
    if k == 0 {
      assert Flatten(gs) == gs[0] + Flatten(gs[1..]);
    } else {
      InFlatten(gs[1..], k - 1, j);
      assert Flatten(gs) == gs[0] + Flatten(gs[1..]);
    }
  }

  /** Every wrapped line fits the width, or is a single word too long to fit anywhere, placed alone. */
  lemma SplitTextLineWidth(text: string, maxChars: int)
    ensures forall k :: 0 <= k < |SplitText(text, maxChars)| ==>
      Utf16Length(SplitText(text, maxChars)[k]) <= maxChars || SplitText(text, maxChars)[k] in Words(text)
  {
    if Trim(text) == "" {
      EmptyTextNoLines(text, maxChars);
    } else {
      var gs, c := SplitTextIsFirstGroups(text, maxChars);
      forall k | 0 <= k < c
        ensures Utf16Length(JoinEach(gs[..c])[k]) <= maxChars || JoinEach(gs[..c])[k] in Words(text)
      {
        LineOfGroup(gs, k, maxChars);
      }
    }
  }

  /** Empty or whitespace-only text wraps to no lines, and any other text to at least one. */
  lemma EmptyTextNoLines(text: string, maxChars: int)
    ensures SplitText(text, maxChars) == [] <==> Trim(text) == ""
  {
    WordsShape(text);
    if Trim(text) == "" {
      assert Words(text) == [""];
      assert "" + "" + "" == "";
      assert PackStep([], "", "", maxChars) == ([], "");
      assert PackLoop([""], maxChars, [], "") == PackLoop([], maxChars, [], "");
    } else {
      AllLinesAreGroups(text, maxChars);
    }
  }

  /** Joined with single spaces, the lines are an in-order prefix of the words joined with single spaces;
      when the text wraps to at most two lines nothing is dropped. */
  lemma SplitTextKeepsWordPrefix(text: string, maxChars: int) returns (k: nat)
    ensures k <= |Words(text)|
    ensures Join(SplitText(text, maxChars), " ") == Join(Words(text)[..k], " ")
    ensures |AllLines(text, maxChars)| <= 2 ==> Join(SplitText(text, maxChars), " ") == Join(Words(text), " ")
  {
    if Trim(text) == "" {
      EmptyTextNoLines(text, maxChars);
      WordsShape(text);
      k := 1;
      assert Words(text)[..1] == [""];
    } else {
      var gs, c := SplitTextIsFirstGroups(text, maxChars);
      k := GroupsPrefixJoin(gs, c, Words(text));
      if c == |gs| {
        assert Words(text)[..k] == Words(text);
      }
    }
  }

  // ---------------------------------------------------------------------------
  // Documents
  // ---------------------------------------------------------------------------

  /** The timing line of a cue: `start --> end`. */
  function TimingLine(seg: Segment, sep: char): string
  {
    FormatTime(ToMillis(seg.start), sep) + " --> " + FormatTime(ToMillis(seg.end), sep)
  }

  /** One numbered cue: index line, timing line, then the wrapped text lines. */
  function Entry(index: nat, seg: Segment, maxChars: int, sep: char): string
  {
    NatToString(index) + "\n" + TimingLine(seg, sep) + "\n" + Join(SplitText(seg.text, maxChars), "\n")
  }

  /** The cues of a segment list in order, the i-th numbered i + 1. */
  function Entries(segs: seq<Segment>, maxChars: int, sep: char): (r: seq<string>)
    ensures |r| == |segs|
  {
    if segs == [] then []
    else Entries(segs[..|segs| - 1], maxChars, sep) + [Entry(|segs|, segs[|segs| - 1], maxChars, sep)]
  }

  /** Cues are numbered 1..n by position, whatever the segments' own ids are. */
  lemma {:induction false} EntryNumberedByPosition(segs: seq<Segment>, maxChars: int, sep: char, i: nat)
    requires i < |segs|
    ensures Entries(segs, maxChars, sep)[i] == Entry(i + 1, segs[i], maxChars, sep)
    decreases |segs|
  {
    if i < |segs| - 1 {
      var init := segs[..|segs| - 1];
      EntryNumberedByPosition(init, maxChars, sep, i);
      assert init[i] == segs[i];
    }
  }

  /** A cue has the same length in both dialects. */
  lemma EntryLengthSameInBothDialects(index: nat, seg: Segment, maxChars: int)
    ensures |Entry(index, seg, maxChars, ',')| == |Entry(index, seg, maxChars, '.')|
  {
    SrtVttTimestampsDiffer(ToMillis(seg.start));
    SrtVttTimestampsDiffer(ToMillis(seg.end));
    assert |TimingLine(seg, ',')| == |TimingLine(seg, '.')|;
  }

  /** The cues separated by blank lines. */
  function Body(segs: seq<Segment>, maxChars: int, sep: char): string
  {
    Join(Entries(segs, maxChars, sep), "\n\n")
  }

  /** The WebVTT file signature followed by a blank line. */
  const VttHeader: string := "WEBVTT\n\n"

  /** `segmentsToSRT`. */
  function SegmentsToSRT(segs: seq<Segment>, maxChars: int): string
  {
    Body(segs, maxChars, ',') + "\n"
  }

  /** `segmentsToVTT`: the WEBVTT signature, a blank line, then the cues with full-stop timestamps. */
  function SegmentsToVTT(segs: seq<Segment>, maxChars: int): string
  {
    VttHeader + Body(segs, maxChars, '.') + "\n"
  }

  lemma EntriesSnoc(segs: seq<Segment>, seg: Segment, maxChars: int, sep: char)
    ensures Entries(segs + [seg], maxChars, sep) == Entries(segs, maxChars, sep) + [Entry(|segs| + 1, seg, maxChars, sep)]
  {
    assert (segs + [seg])[..|segs|] == segs;
  }

  lemma BodyAppend(segs: seq<Segment>, seg: Segment, maxChars: int, sep: char)
    ensures Body(segs + [seg], maxChars, sep) ==
      (if segs == [] then "" else Body(segs, maxChars, sep) + "\n\n") + Entry(|segs| + 1, seg, maxChars, sep)
  {
    EntriesSnoc(segs, seg, maxChars, sep);
    JoinSnoc(Entries(segs, maxChars, sep), Entry(|segs| + 1, seg, maxChars, sep), "\n\n");
  }

  /** Regrouping of the concatenations that appending a cue performs, for arbitrary strings. */
  lemma AppendRegroup(header: string, body: string, e: string)
    ensures header + (body + "\n\n" + e) + "\n" == (header + body + "\n") + "\n" + e + "\n"
  {
  }

  /** Appending a segment appends one cue, numbered by its position, after a blank line. */
  lemma SrtAppend(segs: seq<Segment>, seg: Segment, maxChars: int)
    ensures SegmentsToSRT(segs + [seg], maxChars) ==
      if segs == [] then Entry(1, seg, maxChars, ',') + "\n"
      else SegmentsToSRT(segs, maxChars) + "\n" + Entry(|segs| + 1, seg, maxChars, ',') + "\n"
  {
    BodyAppend(segs, seg, maxChars, ',');
    if segs != [] {
      SrtRegroup(Body(segs, maxChars, ','), Entry(|segs| + 1, seg, maxChars, ','));
    }
  }

  lemma SrtRegroup(body: string, e: string)
    ensures (body + "\n\n" + e) + "\n" == (body + "\n") + "\n" + e + "\n"
  {
  }

  /** Appending a segment to a WebVTT document appends one cue in the same way. */
  lemma VttAppend(segs: seq<Segment>, seg: Segment, maxChars: int)
    ensures SegmentsToVTT(segs + [seg], maxChars) ==
      (if segs == [] then VttHeader else SegmentsToVTT(segs, maxChars) + "\n") + Entry(|segs| + 1, seg, maxChars, '.') + "\n"
  {
    BodyAppend(segs, seg, maxChars, '.');
    if segs != [] {
      AppendRegroup(VttHeader, Body(segs, maxChars, '.'), Entry(|segs| + 1, seg, maxChars, '.'));
    }
  }

  /** No segments give a lone newline (SubRip) or the signature, a blank line and a newline (WebVTT). */
  lemma EmptyDocuments(maxChars: int)
    ensures SegmentsToSRT([], maxChars) == "\n"
    ensures SegmentsToVTT([], maxChars) == "WEBVTT\n\n\n"
  {
  }

  lemma {:induction false} BodyLengthSameInBothDialects(segs: seq<Segment>, maxChars: int)
    ensures |Join(Entries(segs, maxChars, ','), "\n\n")| == |Join(Entries(segs, maxChars, '.'), "\n\n")|
  {
    if segs != [] {
      var init := segs[..|segs| - 1];
      var last := segs[|segs| - 1];
      BodyLengthSameInBothDialects(init, maxChars);
      EntryLengthSameInBothDialects(|segs|, last, maxChars);
      JoinSnoc(Entries(init, maxChars, ','), Entry(|segs|, last, maxChars, ','), "\n\n");
      JoinSnoc(Entries(init, maxChars, '.'), Entry(|segs|, last, maxChars, '.'), "\n\n");
    }
  }

  /** A WebVTT document is exactly eight characters (its signature block) longer than the SubRip one. */
  lemma VttLength(segs: seq<Segment>, maxChars: int)
    ensures |SegmentsToVTT(segs, maxChars)| == |SegmentsToSRT(segs, maxChars)| + 8
  {
    BodyLengthSameInBothDialects(segs, maxChars);
  }

  lemma WorldHasNoSpace()
    ensures FirstSpace("world") == 5
  {
    var w := "world";
    assert !IsSpace(w[0]) && !IsSpace(w[1]) && !IsSpace(w[2]) && !IsSpace(w[3]) && !IsSpace(w[4]);
    assert FirstSpace(w[5..]) == 0;
    assert FirstSpace(w[4..]) == 1;
    assert FirstSpace(w[3..]) == 2;
    assert FirstSpace(w[2..]) == 3;
    assert FirstSpace(w[1..]) == 4;
  }

  lemma HelloWorldFirstSpace()
    ensures FirstSpace("hello world") == 5
  {
    var s := "hello world";
    assert IsSpace(s[5]);
    assert !IsSpace(s[0]) && !IsSpace(s[1]) && !IsSpace(s[2]) && !IsSpace(s[3]) && !IsSpace(s[4]);
    assert FirstSpace(s[5..]) == 0;
    assert FirstSpace(s[4..]) == 1;
    assert FirstSpace(s[3..]) == 2;
    assert FirstSpace(s[2..]) == 3;
    assert FirstSpace(s[1..]) == 4;
  }

  lemma HelloWorldSplit()
    ensures Trim("hello world") == "hello world"
    ensures SplitWs("hello world") == ["hello", "world"]
  {
    TrimClean("hello world");
    HelloWorldPieces();
  }

  lemma HelloWorldPieces()
    ensures SplitWs("hello world") == ["hello", "world"]
  {
    var s := "hello world";
    HelloWorldFirstSpace();
    HelloWorldRun();
    assert s[6..] == "world";
    assert s[..5] == "hello";
    WorldAlone();
  }

  lemma HelloWorldRun()
    ensures SpaceRunEnd("hello world", 5) == 6
  {
    var s := "hello world";
    assert !IsSpace(s[6]);
    assert SpaceRunEnd(s, 6) == 6;
  }

  lemma WorldAlone()
    ensures SplitWs("world") == ["world"]
  {
    WorldHasNoSpace();
  }

  lemma HelloWorldPack()
    ensures PackLoop(["hello", "world"], 42, [], "") == ([], "hello world")
  {
    var none: seq<string> := [];
    var p1 := PackStep(none, "", "hello", 42);
    assert |"" + "hello"| == 5;
    assert p1.1 == "" + "" + "hello";
    assert p1.1 == "hello";
    assert p1.0 == none;
    var p2 := PackStep(none, "hello", "world", 42);
    assert p2.1 == "hello" + " " + "world";
    assert p2.0 == none;
    assert p2.1 == "hello world";
    assert p2 == (none, "hello world");
    assert ["hello", "world"][1..] == ["world"];
    assert ["world"][1..] == [];
    assert PackLoop([], 42, none, "hello world") == (none, "hello world");
    assert PackLoop(["world"], 42, none, "hello") == (none, "hello world");
  }

  lemma HelloWorldLines()
    ensures SplitText("hello world", 42) == ["hello world"]
  {
    HelloWorldSplit();
    HelloWorldPack();
    assert Words("hello world") == ["hello", "world"];
    TrimClean("hello world");
  }

  lemma HelloWorldTiming(sep: char)
    ensures TimingLine(Segment(0, 0.0, 2.5, "hello world", None), sep)
      == "00:00:00" + [sep] + "000 --> 00:00:02" + [sep] + "500"
  {
    MillisExamples();
    TimingLineOf(Segment(0, 0.0, 2.5, "hello world", None), sep, 0, 2500);
    TimeZero(sep);
    TimeTwoAndAHalf(sep);
    TimingText(sep);
  }

  lemma TimingText(sep: char)
    ensures ("00:00:00" + [sep] + "000") + " --> " + ("00:00:02" + [sep] + "500")
      == "00:00:00" + [sep] + "000 --> 00:00:02" + [sep] + "500"
  {
    assert "000 --> 00:00:02" == "000" + " --> " + "00:00:02";
  }

  lemma TimingLineOf(seg: Segment, sep: char, a: nat, b: nat)
    requires ToMillis(seg.start) == a && ToMillis(seg.end) == b
    ensures TimingLine(seg, sep) == FormatTime(a, sep) + " --> " + FormatTime(b, sep)
  {
  }

  lemma MillisExamples()
    ensures ToMillis(0.0) == 0 && ToMillis(2.5) == 2500
  {
    assert (2.5 * 1000.0 + 0.5).Floor == 2500;
  }

  lemma TimeZero(sep: char)
    ensures FormatTime(0, sep) == "00:00:00" + [sep] + "000"
  {
    assert Pad(0) == "00";
    assert Pad3(0) == "000";
  }

  lemma TimeTwoAndAHalf(sep: char)
    ensures FormatTime(2500, sep) == "00:00:02" + [sep] + "500"
  {
    assert Pad(0) == "00";
    assert Pad(2) == "02";
    assert Pad3(500) == "500";
    DivModUnique(2500, MsPerHour, 0, 2500);
    DivModUnique(2500, MsPerMinute, 0, 2500);
    DivModUnique(2500, MsPerSecond, 2, 500);
  }

  lemma HelloWorldEntry(sep: char)
    ensures Entry(1, Segment(0, 0.0, 2.5, "hello world", None), 42, sep)
      == "1" + "\n" + ("00:00:00" + [sep] + "000 --> 00:00:02" + [sep] + "500") + "\n" + "hello world"
  {
    HelloWorldLines();
    HelloWorldTiming(sep);
    assert NatToString(1) == "1";
    assert Join(["hello world"], "\n") == "hello world";
  }

  lemma HelloWorldText(sep: char)
    ensures "1" + "\n" + ("00:00:00" + [sep] + "000 --> 00:00:02" + [sep] + "500") + "\n" + "hello world" + "\n"
      == "1\n00:00:00" + [sep] + "000 --> 00:00:02" + [sep] + "500\nhello world\n"
  {
  }

  /** A one-segment document is its single entry, framed by the document's header and final newline. */
  lemma SingleSegmentDocuments(seg: Segment, maxChars: int)
    ensures SegmentsToSRT([seg], maxChars) == Entry(1, seg, maxChars, ',') + "\n"
    ensures SegmentsToVTT([seg], maxChars) == VttHeader + Entry(1, seg, maxChars, '.') + "\n"
  {
    SrtAppend([], seg, maxChars);
    VttAppend([], seg, maxChars);
    assert [] + [seg] == [seg];
  }

  lemma HelloWorldSrt(e: string)
    requires e == "1" + "\n" + ("00:00:00" + [','] + "000 --> 00:00:02" + [','] + "500") + "\n" + "hello world"
    ensures e + "\n" == "1\n00:00:00,000 --> 00:00:02,500\nhello world\n"
  {
    HelloWorldText(',');
    SrtLiteral();
  }

  lemma SrtLiteral()
    ensures "1\n00:00:00" + [','] + "000 --> 00:00:02" + [','] + "500\nhello world\n"
      == "1\n00:00:00,000 --> 00:00:02,500\nhello world\n"
  {
  }

  lemma HelloWorldVtt(e: string)
    requires e == "1" + "\n" + ("00:00:00" + ['.'] + "000 --> 00:00:02" + ['.'] + "500") + "\n" + "hello world"
    ensures VttHeader + e + "\n" == "WEBVTT\n\n" + "1\n00:00:00.000 --> 00:00:02.500\nhello world\n"
  {
    HelloWorldText('.');
    VttLiteral();
    assert VttHeader + e + "\n" == VttHeader + (e + "\n");
  }

  lemma VttLiteral()
    ensures "1\n00:00:00" + ['.'] + "000 --> 00:00:02" + ['.'] + "500\nhello world\n"
      == "1\n00:00:00.000 --> 00:00:02.500\nhello world\n"
  {
  }

  /** The one-segment example: 0 s to 2.5 s, "hello world", 42 characters per line. */
  lemma HelloWorldExample()
    ensures SegmentsToSRT([Segment(0, 0.0, 2.5, "hello world", None)], 42)
      == "1\n00:00:00,000 --> 00:00:02,500\nhello world\n"
    ensures SegmentsToVTT([Segment(0, 0.0, 2.5, "hello world", None)], 42)
      == "WEBVTT\n\n" + "1\n00:00:00.000 --> 00:00:02.500\nhello world\n"
  {
    var seg := Segment(0, 0.0, 2.5, "hello world", None);
    SingleSegmentDocuments(seg, 42);
    HelloWorldEntry(',');
    HelloWorldEntry('.');
    HelloWorldSrt(Entry(1, seg, 42, ','));
    HelloWorldVtt(Entry(1, seg, 42, '.'));
  }
}

/**
 * The JavaScript string operations the server relies on, over `seq<char>`:
 * `trim`, `split(/\s+/)`, `Array.prototype.join`, ASCII lower-casing,
 * decimal rendering of naturals, `padStart`, `split("\n").pop()` and
 * global single-character replacement.
 */
module Text {

  /** ECMAScript WhiteSpace and LineTerminator characters: what `trim` strips and `\s` matches. */
  predicate IsSpace(c: char)
  {
    || c == ' ' || c == '\t' || c == '\n' || c == '\r'
    || c == '\U{000B}' || c == '\U{000C}' || c == '\U{00A0}' || c == '\U{1680}'
    || ('\U{2000}' <= c <= '\U{200A}')
    || c == '\U{2028}' || c == '\U{2029}' || c == '\U{202F}' || c == '\U{205F}'
    || c == '\U{3000}' || c == '\U{FEFF}'
  }

  predicate NoSpace(s: string)
  {
    forall i :: 0 <= i < |s| ==> !IsSpace(s[i])
  }

  /** Neither end of `s` is whitespace (vacuous for ""). */
  predicate Clean(s: string)
  {
    s == "" || (!IsSpace(s[0]) && !IsSpace(s[|s| - 1]))
  }

  function TrimStart(s: string): (r: string)
    ensures |r| <= |s| && r == s[|s| - |r|..]
    ensures forall i :: 0 <= i < |s| - |r| ==> IsSpace(s[i])
    ensures r == "" || !IsSpace(r[0])
  {
    if |s| > 0 && IsSpace(s[0]) then TrimStart(s[1..]) else s
  }

  function TrimEnd(s: string): (r: string)
    ensures |r| <= |s| && r == s[..|r|]
    ensures forall i :: |r| <= i < |s| ==> IsSpace(s[i])
    ensures r == "" || !IsSpace(r[|r| - 1])
  {
    if |s| > 0 && IsSpace(s[|s| - 1]) then TrimEnd(s[..|s| - 1]) else s
  }

  /** `String.prototype.trim`: the longest infix with no whitespace at either end. */
  function Trim(s: string): (r: string)
    ensures Clean(r)
    ensures |r| <= |s|
  {
    TrimEnd(TrimStart(s))
  }

  lemma TrimClean(s: string)
    requires Clean(s)
    ensures Trim(s) == s
  {
  }

  /** Trimming gives "" exactly when every character is whitespace. */
  lemma TrimEmptyIffAllSpace(s: string)
    ensures Trim(s) == "" <==> forall i :: 0 <= i < |s| ==> IsSpace(s[i])
  {
  }

  /** Index of the first whitespace character of `s`, or `|s|` when there is none. */
  function FirstSpace(s: string): (i: nat)
    ensures i <= |s|
    ensures NoSpace(s[..i])
    ensures i < |s| ==> IsSpace(s[i])
  {
    if |s| == 0 then 0
    else if IsSpace(s[0]) then 0
    else 1 + FirstSpace(s[1..])
  }

  /** Index just past the run of whitespace that starts at `i`. */
  function SpaceRunEnd(s: string, i: nat): (j: nat)
    requires i <= |s|
    ensures i <= j <= |s|
    ensures forall k :: i <= k < j ==> IsSpace(s[k])
    ensures j < |s| ==> !IsSpace(s[j])
    decreases |s| - i
  {
    if i < |s| && IsSpace(s[i]) then SpaceRunEnd(s, i + 1) else i
  }

  /** `s.split(/\s+/)`: the pieces between maximal whitespace runs, keeping the empty
      pieces that a leading or trailing run produces ("" gives [""]). */
  function SplitWs(s: string): (r: seq<string>)
    ensures |r| >= 1
    ensures forall k :: 0 <= k < |r| ==> NoSpace(r[k])
    decreases |s|
  {
    var i := FirstSpace(s);
    if i == |s| then [s]
    else
      var j := SpaceRunEnd(s, i);
      [s[..i]] + SplitWs(s[j..])
  }

  /** A string with no whitespace at either end splits into non-empty pieces, unless it is "". */
  lemma {:induction false} SplitWsCleanPieces(s: string)
    requires Clean(s) && s != ""
    ensures forall k :: 0 <= k < |SplitWs(s)| ==> SplitWs(s)[k] != ""
    decreases |s|
  {
    var i := FirstSpace(s);
    if i < |s| {
      var j := SpaceRunEnd(s, i);
      assert i > 0;
      assert j < |s|;
      var rest := s[j..];
      assert rest[|rest| - 1] == s[|s| - 1];
      SplitWsCleanPieces(rest);
      assert SplitWs(s) == [s[..i]] + SplitWs(rest);
    }
  }

  /** `parts.join(sep)`. */
  function Join(parts: seq<string>, sep: string): string
  {
    if |parts| == 0 then ""
    else if |parts| == 1 then parts[0]
    else parts[0] + sep + Join(parts[1..], sep)
  }

  lemma {:induction false} JoinConcat(a: seq<string>, b: seq<string>, sep: string)
    requires |a| > 0 && |b| > 0
    ensures Join(a + b, sep) == Join(a, sep) + sep + Join(b, sep)
    decreases |a|
  {
    if |a| == 1 {
      assert (a + b)[1..] == b;
    } else {
      assert (a + b)[1..] == a[1..] + b;
      JoinConcat(a[1..], b, sep);
    }
  }

  lemma JoinSnoc(a: seq<string>, x: string, sep: string)
    ensures Join(a + [x], sep) == if a == [] then x else Join(a, sep) + sep + x
  {
    if a != [] {
      JoinConcat(a, [x], sep);
    }
  }

  /** Every part of `parts` non-empty makes their join non-empty with the ends of the outer parts. */
  lemma {:induction false} JoinEnds(parts: seq<string>, sep: string)
    requires |parts| > 0
    requires forall k :: 0 <= k < |parts| ==> parts[k] != ""
    ensures Join(parts, sep) != ""
    ensures Join(parts, sep)[0] == parts[0][0]
    ensures Join(parts, sep)[|Join(parts, sep)| - 1] == parts[|parts| - 1][|parts[|parts| - 1]| - 1]
    decreases |parts|
  {
    if |parts| > 1 {
      JoinEnds(parts[1..], sep);
    }
  }

  /** The same number of parts with pairwise equal lengths join to equal lengths. */
  lemma {:induction false} JoinLength(a: seq<string>, b: seq<string>, sep: string)
    requires |a| == |b|
    requires forall k :: 0 <= k < |a| ==> |a[k]| == |b[k]|
    ensures |Join(a, sep)| == |Join(b, sep)|
    decreases |a|
  {
    if |a| > 1 {
      JoinLength(a[1..], b[1..], sep);
    }
  }

  /** How many UTF-16 code units encode `c`: two for a character beyond the Basic
      Multilingual Plane (a surrogate pair), one otherwise. */
  function CodeUnits(c: char): nat
  {
    if c as int >= 0x1_0000 then 2 else 1
  }

  /** JavaScript's `s.length`: the number of UTF-16 code units of `s`. */
  function Utf16Length(s: string): (n: nat)
    ensures |s| <= n <= 2 * |s|
  {
    if s == "" then 0 else Utf16Length(s[..|s| - 1]) + CodeUnits(s[|s| - 1])
  }

  /** Code units add up over concatenation. */
  lemma {:induction false} Utf16Concat(a: string, b: string)
    ensures Utf16Length(a + b) == Utf16Length(a) + Utf16Length(b)
    decreases |b|
  {
    if b != "" {
      var ab := a + b;
      assert ab[..|ab| - 1] == a + b[..|b| - 1];
      Utf16Concat(a, b[..|b| - 1]);
    } else {
      assert a + b == a;
    }
  }

  /** Inside the Basic Multilingual Plane the code-unit count is the character count. */
  lemma {:induction false} Utf16OfBmp(s: string)
    requires forall i :: 0 <= i < |s| ==> s[i] as int < 0x1_0000
    ensures Utf16Length(s) == |s|
    decreases |s|
  {
    if s != "" {
      Utf16OfBmp(s[..|s| - 1]);
    }
  }

  /** U+212A KELVIN SIGN, which JavaScript lower-cases to the ASCII letter 'k'. */
  const KelvinSign: char := '\U{212A}'

  /** The characters whose lower-case form is a single ASCII letter are 'A'..'Z' and the
      Kelvin sign; every other character is kept as it is. */
  function LowerChar(c: char): char
  {
    if 'A' <= c <= 'Z' then (c as int + 32) as char
    else if c == KelvinSign then 'k'
    else c
  }

  /** `toLowerCase` on the characters it maps to ASCII letters. */
  function ToLower(s: string): (r: string)
    ensures |r| == |s|
    ensures forall i :: 0 <= i < |s| ==> r[i] == LowerChar(s[i])
  {
    seq(|s|, i requires 0 <= i < |s| => LowerChar(s[i]))
  }

  function DigitChar(d: nat): (c: char)
    requires d < 10
    ensures '0' <= c <= '9'
  {
    (48 + d) as char
  }

  predicate IsDigit(c: char)
  {
    '0' <= c <= '9'
  }

  function DigitValue(c: char): nat
    requires IsDigit(c)
  {
    c as int - 48
  }

  lemma DigitRoundTrip(d: nat)
    requires d < 10
    ensures DigitValue(DigitChar(d)) == d
  {
  }

  /** The value of a string of decimal digits (most significant first). */
  function DigitsValue(s: string): nat
    requires forall i :: 0 <= i < |s| ==> IsDigit(s[i])
  {
    if s == "" then 0 else 10 * DigitsValue(s[..|s| - 1]) + DigitValue(s[|s| - 1])
  }

  /** Quotient and remainder are unique: any `q`, `r` with `x == q * d + r` and
      `0 <= r < d` are `x / d` and `x % d`. */
  lemma DivModUnique(x: int, d: int, q: int, r: int)
    requires d > 0 && 0 <= r < d && x == q * d + r
    ensures x / d == q && x % d == r
  {
    var q' := x / d;
    var r' := x % d;
    assert (q - q') * d == r' - r;
    if q' < q {
      MulAtLeast(q - q', d);
      assert false;
    } else if q' > q {
      MulAtLeast(q' - q, d);
      assert false;
    }
  }

  lemma MulAtLeast(k: int, d: int)
    requires k >= 1 && d > 0
    ensures k * d >= d
  {
  }

  /** `n.toString()` for a natural number: the shortest decimal rendering. */
  function NatToString(n: nat): (r: string)
    ensures |r| >= 1
    ensures forall i :: 0 <= i < |r| ==> IsDigit(r[i])
    ensures n < 10 <==> |r| == 1
    ensures |r| > 1 ==> r[0] != '0'
  {
    if n < 10 then [DigitChar(n)] else NatToString(n / 10) + [DigitChar(n % 10)]
  }

  /** Decimal rendering is undone by reading the digits back. */
  lemma {:induction false} NatToStringValue(n: nat)
    ensures DigitsValue(NatToString(n)) == n
  {
    if n >= 10 {
      NatToStringValue(n / 10);
      var r := NatToString(n);
      assert r[..|r| - 1] == NatToString(n / 10);
    }
  }

  /** `String(i)` for an integer. */
  function IntToString(i: int): (r: string)
    ensures |r| >= 1
    ensures i >= 0 ==> r == NatToString(i)
    ensures i < 0 ==> r == "-" + NatToString(-i)
  {
    if i < 0 then "-" + NatToString(-i) else NatToString(i)
  }

  /** Up to `k` decimal digits of the fraction `x`, stopping early once the rest is zero. */
  function FractionDigits(x: real, k: nat): (r: string)
    requires 0.0 <= x < 1.0
    ensures |r| <= k
    ensures forall i :: 0 <= i < |r| ==> IsDigit(r[i])
    decreases k
  {
    if x == 0.0 || k == 0 then ""
    else
      var y := x * 10.0;
      var d := y.Floor;
      assert 0 <= d < 10;
      [DigitChar(d)] + FractionDigits(y - d as real, k - 1)
  }

  /** `String(n)` for a number, in plain decimal notation: sign, whole part, and the fraction when non-zero. */
  function NumberToString(n: real): (r: string)
    ensures r != ""
    ensures n.Floor as real == n ==> r == IntToString(n.Floor)
  {
    if n.Floor as real == n then IntToString(n.Floor)
    else if n < 0.0 then "-" + UnsignedText(-n)
    else UnsignedText(n)
  }

  function UnsignedText(n: real): string
    requires n >= 0.0
  {
    NatToString(n.Floor) + "." + FractionDigits(n - n.Floor as real, 20)
  }

  /** `s.padStart(width, fill)` with a one-character fill. */
  function PadStart(s: string, width: nat, fill: char): (r: string)
    ensures |s| >= width ==> r == s
    ensures |s| < width ==> |r| == width && r[width - |s|..] == s
    ensures forall i :: 0 <= i < |r| - |s| ==> r[i] == fill
  {
    if |s| >= width then s else seq(width - |s|, _ => fill) + s
  }

  /** `s.split("\n").pop()`: the text after the last line feed, or all of `s` when it has none. */
  function LastLine(s: string): (r: string)
    ensures |r| <= |s| && r == s[|s| - |r|..]
    ensures '\n' !in r
    ensures |r| < |s| ==> s[|s| - |r| - 1] == '\n'
  {
    if s == "" then ""
    else if s[|s| - 1] == '\n' then ""
    else
      var r := LastLine(s[..|s| - 1]) + [s[|s| - 1]];
      assert r == s[|s| - |r|..];
      r
  }

  /** `s.replace(/c/g, rep)` for a single literal character `c`. */
  function ReplaceChar(s: string, c: char, rep: string): (r: string)
    ensures c !in s ==> r == s
  {
    if s == "" then "" else (if s[0] == c then rep else [s[0]]) + ReplaceChar(s[1..], c, rep)
  }

  lemma {:induction false} ReplaceCharConcat(a: string, b: string, c: char, rep: string)
    ensures ReplaceChar(a + b, c, rep) == ReplaceChar(a, c, rep) + ReplaceChar(b, c, rep)
    decreases |a|
  {
    if a == "" {
      assert a + b == b;
    } else {
      var head := if a[0] == c then rep else [a[0]];
      var x := ReplaceChar(a[1..], c, rep);
      var y := ReplaceChar(b, c, rep);
      calc {
        ReplaceChar(a + b, c, rep);
      == { assert (a + b)[0] == a[0] && (a + b)[1..] == a[1..] + b; ReplaceCharCons(a + b, c, rep); }
        head + ReplaceChar(a[1..] + b, c, rep);
      == { ReplaceCharConcat(a[1..], b, c, rep); }
        head + (x + y);
      == (head + x) + y;
      == { ReplaceCharCons(a, c, rep); }
        ReplaceChar(a, c, rep) + y;
      }
    }
  }

  lemma ReplaceCharCons(s: string, c: char, rep: string)
    requires s != ""
    ensures ReplaceChar(s, c, rep) == (if s[0] == c then rep else [s[0]]) + ReplaceChar(s[1..], c, rep)
  {
  }

  lemma {:induction false} ReplaceCharAbsent(s: string, c: char, rep: string)
    requires c !in rep
    ensures c !in ReplaceChar(s, c, rep)
    decreases |s|
  {
    if s != "" {
      ReplaceCharAbsent(s[1..], c, rep);
    }
  }
}

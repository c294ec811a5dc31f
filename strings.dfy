/**
 * The pieces of the JavaScript runtime that the application's string
 * handling relies on: rendering an integer in a template literal,
 * `String.prototype.trim`, `replace(/\s+/g, …)` and `Array.prototype.join`.
 */
module Strings {

  // ---------------------------------------------------------------------
  // Decimal rendering of non-negative integers (`${n}`)
  // ---------------------------------------------------------------------

  predicate IsDigit(c: char)
  {
    '0' <= c <= '9'
  }

  predicate AllDigits(s: string)
  {
    forall i :: 0 <= i < |s| ==> IsDigit(s[i])
  }

  /** A decimal numeral as a template literal writes one: at least one
      digit, and no leading zero unless the number is zero itself. */
  predicate Canonical(d: string)
  {
    d != [] && AllDigits(d) && (d[0] == '0' ==> |d| == 1)
  }

  function DigitChar(d: nat): (c: char)
    requires d < 10
    ensures IsDigit(c)
  {
    ('0' as int + d) as char
  }

  function DigitValue(c: char): (d: nat)
    requires IsDigit(c)
    ensures d < 10
  {
    c as int - '0' as int
  }

  /** How a template literal renders a non-negative integer: its decimal
      digits, most significant first, without leading zeros. */
  function NatToString(n: nat): (r: string)
    ensures 1 <= |r|
    ensures AllDigits(r)
    ensures r[0] == '0' ==> n == 0
    ensures Canonical(r)
    decreases n
  {
    if n < 10 then [DigitChar(n)]
    else NatToString(n / 10) + [DigitChar(n % 10)]
  }

  /** Reads a string of decimal digits back as a number. */
  function ParseNat(s: string): nat
    requires AllDigits(s)
    decreases |s|
  {
    if s == [] then 0
    else ParseNat(s[..|s| - 1]) * 10 + DigitValue(s[|s| - 1])
  }

  /** Rendering a number and reading it back gives the number. */
  lemma {:induction false} ParseNatToString(n: nat)
    ensures ParseNat(NatToString(n)) == n
    decreases n
  {
    if n >= 10 {
      var p := NatToString(n / 10);
      var r := p + [DigitChar(n % 10)];
      assert r[..|r| - 1] == p;
      ParseNatToString(n / 10);
    }
  }

  /** A numeral that does not start with `0` stands for a positive number. */
  lemma {:induction false} ParseNatPositive(d: string)
    requires d != [] && AllDigits(d) && d[0] != '0'
    ensures ParseNat(d) >= 1
    decreases |d|
  {
    if |d| > 1 {
      var p := d[..|d| - 1];
      assert p[0] == d[0];
      ParseNatPositive(p);
    }
  }

  /** Every canonical numeral is the rendering of the number it stands for,
      so a canonical field determines its text. */
  lemma {:induction false} CanonicalReadsBack(d: string)
    requires Canonical(d)
    ensures NatToString(ParseNat(d)) == d
    decreases |d|
  {
    var c := d[|d| - 1];
    assert DigitChar(DigitValue(c)) == c;
    if |d| == 1 {
      assert d == [c];
    } else {
      var p := d[..|d| - 1];
      assert p[0] == d[0] && p[0] != '0';
      assert Canonical(p);
      ParseNatPositive(p);
      CanonicalReadsBack(p);
      var n := ParseNat(d);
      assert n / 10 == ParseNat(p) && n % 10 == DigitValue(c);
      assert d == p + [c];
    }
  }

  /** Distinct numbers render as distinct strings. */
  lemma NatToStringInjective(a: nat, b: nat)
    requires NatToString(a) == NatToString(b)
    ensures a == b
  {
    ParseNatToString(a);
    ParseNatToString(b);
  }

  // ---------------------------------------------------------------------
  // Whitespace, as JavaScript's `trim` and the regular expression `\s` see it
  // ---------------------------------------------------------------------

  /** WhiteSpace and LineTerminator code points of ECMAScript (the set both
      `String.prototype.trim` and `\s` use). */
  predicate IsWhitespace(c: char)
  {
    c == '\t' || c == '\n' || c == '\U{000B}' || c == '\U{000C}' || c == '\r' ||
    c == ' ' || c == '\U{00A0}' || c == '\U{1680}' ||
    ('\U{2000}' <= c <= '\U{200A}') ||
    c == '\U{2028}' || c == '\U{2029}' || c == '\U{202F}' || c == '\U{205F}' ||
    c == '\U{3000}' || c == '\U{FEFF}'
  }

  predicate NoWhitespace(s: string)
  {
    forall i :: 0 <= i < |s| ==> !IsWhitespace(s[i])
  }

  predicate IsBlank(s: string)
  {
    forall i :: 0 <= i < |s| ==> IsWhitespace(s[i])
  }

  /** Drops leading whitespace: the result is the suffix of `s` after
      its leading whitespace run. */
  function TrimStart(s: string): (r: string)
    ensures |r| <= |s| && r == s[|s| - |r|..]
    ensures IsBlank(s[..|s| - |r|])
    ensures r != [] ==> !IsWhitespace(r[0])
    decreases |s|
  {
    if s != [] && IsWhitespace(s[0]) then
      var r := TrimStart(s[1..]);
      assert s[..|s| - |r|] == [s[0]] + s[1..][..|s| - 1 - |r|];
      r
    else s
  }

  /** Drops trailing whitespace: the result is the prefix of `s` before
      its trailing whitespace run. */
  function TrimEnd(s: string): (r: string)
    ensures |r| <= |s| && r == s[..|r|]
    ensures IsBlank(s[|r|..])
    ensures r != [] ==> !IsWhitespace(r[|r| - 1])
    decreases |s|
  {
    if s != [] && IsWhitespace(s[|s| - 1]) then
      var r := TrimEnd(s[..|s| - 1]);
      assert s[|r|..] == s[..|s| - 1][|r|..] + [s[|s| - 1]];
      r
    else s
  }

  /** `r` is the slice of `s` at `k`, with whitespace only before and
      after it, and neither starts nor ends with whitespace. */
  predicate TrimmedAt(s: string, r: string, k: nat)
  {
    && k + |r| <= |s| && r == s[k..k + |r|]
    && IsBlank(s[..k]) && IsBlank(s[k + |r|..])
    && (r != [] ==> !IsWhitespace(r[0]) && !IsWhitespace(r[|r| - 1]))
  }

  /** `String.prototype.trim`: the slice of `s` left between its leading
      and its trailing whitespace runs. */
  function Trim(s: string): (r: string)
    ensures TrimmedAt(s, r, |s| - |TrimStart(s)|)
  {
    var t := TrimStart(s);
    var r := TrimEnd(t);
    TrimSlice(s, t, r);
    r
  }

  /** The part TrimEnd keeps of the part TrimStart keeps is trimmed. */
  lemma TrimSlice(s: string, t: string, r: string)
    requires |t| <= |s| && t == s[|s| - |t|..] && IsBlank(s[..|s| - |t|])
    requires |r| <= |t| && r == t[..|r|] && IsBlank(t[|r|..])
    requires t != [] ==> !IsWhitespace(t[0])
    requires r != [] ==> !IsWhitespace(r[|r| - 1])
    ensures TrimmedAt(s, r, |s| - |t|)
  {
    var k := |s| - |t|;
    assert r != [] ==> r[0] == t[0];
    assert s[k + |r|..] == t[|r|..];
  }

  /** `!s.trim()` holds exactly when `s` consists of whitespace only. */
  lemma TrimEmptyIffBlank(s: string)
    ensures Trim(s) == [] <==> IsBlank(s)
  {
    var t := TrimStart(s);
    var k := |s| - |t|;
    assert s == s[..k] + t;
    if Trim(s) == [] {
      assert t[0..] == t;
      assert t == [];
      assert s == s[..k];
    }
    if IsBlank(s) {
      assert t == [];
    }
  }


  /** `!s.trim()`: the trimmed string is empty, that is, falsy. */
  function TrimsToEmpty(s: string): (b: bool)
    ensures b <==> IsBlank(s)
  {
    TrimEmptyIffBlank(s);
    Trim(s) == []
  }


  /** `s.replace(/\s+/g, '_')`: every maximal whitespace run becomes one `_`. */
  function ReplaceWhitespaceRuns(s: string): (r: string)
    ensures |r| <= |s|
    ensures NoWhitespace(r)
    decreases |s|
  {
    if s == [] then []
    else if IsWhitespace(s[0]) then "_" + ReplaceWhitespaceRuns(TrimStart(s))
    else [s[0]] + ReplaceWhitespaceRuns(s[1..])
  }

  /** A string without whitespace is left as it is. */
  lemma {:induction false} ReplaceWhitespaceRunsNoWhitespace(s: string)
    requires NoWhitespace(s)
    ensures ReplaceWhitespaceRuns(s) == s
    decreases |s|
  {
    if s != [] {
      ReplaceWhitespaceRunsNoWhitespace(s[1..]);
    }
  }

  /** Leading whitespace followed by a non-whitespace character, or by
      nothing, is trimmed away exactly. */
  lemma {:induction false} TrimStartBlankPrefix(w: string, b: string)
    requires IsBlank(w)
    requires b == [] || !IsWhitespace(b[0])
    ensures TrimStart(w + b) == b
    decreases |w|
  {
    if w != [] {
      assert (w + b)[1..] == w[1..] + b;
      TrimStartBlankPrefix(w[1..], b);
    }
  }

  /** A whitespace run of any length, after a whitespace-free part and
      before a non-whitespace character (or the end), becomes one `_`;
      the characters before it are kept in order. */
  lemma {:induction false} ReplaceWhitespaceRunsRun(a: string, w: string, b: string)
    requires NoWhitespace(a)
    requires w != [] && IsBlank(w)
    requires b == [] || !IsWhitespace(b[0])
    ensures ReplaceWhitespaceRuns(a + w + b) == a + "_" + ReplaceWhitespaceRuns(b)
    decreases |a|
  {
    if a == [] {
      assert a + w + b == w + b;
      TrimStartBlankPrefix(w, b);
    } else {
      assert (a + w + b)[1..] == a[1..] + w + b;
      ReplaceWhitespaceRunsRun(a[1..], w, b);
    }
  }

  /** Two words separated by one space are joined by one underscore. */
  lemma ReplaceWhitespaceRunsOneSpace(a: string, b: string)
    requires NoWhitespace(a) && NoWhitespace(b)
    ensures ReplaceWhitespaceRuns(a + " " + b) == a + "_" + b
  {
    assert IsBlank(" ");
    ReplaceWhitespaceRunsRun(a, " ", b);
    ReplaceWhitespaceRunsNoWhitespace(b);
  }

  // ---------------------------------------------------------------------
  // Array.prototype.join
  // ---------------------------------------------------------------------

  /** The combined length of the parts. */
  function TotalLength(parts: seq<string>): nat
    decreases |parts|
  {
    if parts == [] then 0 else |parts[0]| + TotalLength(parts[1..])
  }

  /** `parts.join(sep)`: empty for no parts; otherwise it begins with the
      first part. */
  function Join(parts: seq<string>, sep: string): (r: string)
    ensures parts == [] ==> r == ""
    ensures parts != [] ==> |parts[0]| <= |r| && r[..|parts[0]|] == parts[0]
    decreases |parts|
  {
    if parts == [] then ""
    else if |parts| == 1 then parts[0]
    else parts[0] + sep + Join(parts[1..], sep)
  }

  /** The joined string holds every part and one separator between each
      two neighbours. */
  lemma {:induction false} JoinLength(parts: seq<string>, sep: string)
    requires parts != []
    ensures |Join(parts, sep)| == TotalLength(parts) + (|parts| - 1) * |sep|
    decreases |parts|
  {
    if |parts| >= 2 {
      JoinLength(parts[1..], sep);
      var n := |parts| - 1;
      assert (n - 1) * |sep| + |sep| == n * |sep|;
      assert |Join(parts, sep)| == |parts[0]| + |sep| + |Join(parts[1..], sep)|;
    }
  }

  /** Appending one more part appends the separator and that part. */
  lemma {:induction false} JoinSnoc(parts: seq<string>, p: string, sep: string)
    ensures Join(parts + [p], sep) == if parts == [] then p else Join(parts, sep) + sep + p
    decreases |parts|
  {
    if |parts| >= 2 {
      var q := parts + [p];
      assert q[0] == parts[0];
      assert q[1..] == parts[1..] + [p];
      JoinSnoc(parts[1..], p, sep);
      calc {
        Join(q, sep);
        q[0] + sep + Join(q[1..], sep);
        parts[0] + sep + (Join(parts[1..], sep) + sep + p);
        (parts[0] + sep + Join(parts[1..], sep)) + sep + p;
        Join(parts, sep) + sep + p;
      }
    } else if |parts| == 1 {
      var q := parts + [p];
      assert q[0] == parts[0] && q[1..] == [p];
      assert Join(q, sep) == parts[0] + sep + Join([p], sep);
    }
  }
  /** The joined string ends with the last part. */
  lemma JoinEndsWithLast(parts: seq<string>, sep: string)
    requires parts != []
    ensures var last := parts[|parts| - 1];
      |last| <= |Join(parts, sep)| && Join(parts, sep)[|Join(parts, sep)| - |last|..] == last
  {
    var init := parts[..|parts| - 1];
    assert parts == init + [parts[|parts| - 1]];
    JoinSnoc(init, parts[|parts| - 1], sep);
  }


}

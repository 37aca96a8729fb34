/**
 * The string operations the merge utility relies on: Python's `str.strip()`,
 * `str.split(sep)`, the `in` substring test, decimal rendering of integers
 * (`str(int)`) and the minimum-width padding of `str.format`.
 */
module Text {

  /**
   * The characters Python's `str.isspace()` accepts, which `str.strip()`
   * removes: tab to carriage return, the four information separators, the
   * space, and the Unicode spaces and line and paragraph separators.
   */
  predicate IsWhitespace(c: char) {
    ('\t' <= c <= '\r') || ('\U{1C}' <= c <= ' ') || c == '\U{85}' || c == '\U{A0}' || c == '\U{1680}'
    || ('\U{2000}' <= c <= '\U{200A}') || c == '\U{2028}' || c == '\U{2029}' || c == '\U{202F}'
    || c == '\U{205F}' || c == '\U{3000}'
  }

  predicate AllWhitespace(s: string) {
    forall k :: 0 <= k < |s| ==> IsWhitespace(s[k])
  }

  /** Neither end of `s` is whitespace. */
  predicate Bordered(s: string) {
    s == [] || (!IsWhitespace(s[0]) && !IsWhitespace(s[|s| - 1]))
  }

  /** Removes leading whitespace (see `TrimStartShape`). */
  function TrimStart(s: string): string {
    if |s| > 0 && IsWhitespace(s[0]) then TrimStart(s[1..]) else s
  }

  /** Removes trailing whitespace (see `TrimEndShape`). */
  function TrimEnd(s: string): string {
    if |s| > 0 && IsWhitespace(s[|s| - 1]) then TrimEnd(s[..|s| - 1]) else s
  }

  /** `TrimStart` keeps a suffix of `s` after a whitespace run, and that suffix does not start with whitespace. */
  lemma {:induction false} TrimStartShape(s: string)
    ensures var r := TrimStart(s);
      |r| <= |s| && r == s[|s| - |r|..] && AllWhitespace(s[..|s| - |r|])
      && (r == [] || !IsWhitespace(r[0]))
  {
    if |s| > 0 && IsWhitespace(s[0]) {
      TrimStartShape(s[1..]);
      var r := TrimStart(s[1..]);
      assert s[..|s| - |r|] == [s[0]] + s[1..][..|s| - 1 - |r|];
    }
  }

  /** `TrimEnd` keeps a prefix of `s` before a whitespace run, and that prefix does not end with whitespace. */
  lemma {:induction false} TrimEndShape(s: string)
    ensures var r := TrimEnd(s);
      |r| <= |s| && r == s[..|r|] && AllWhitespace(s[|r|..])
      && (r == [] || !IsWhitespace(r[|r| - 1]))
  {
    if |s| > 0 && IsWhitespace(s[|s| - 1]) {
      TrimEndShape(s[..|s| - 1]);
      var r := TrimEnd(s[..|s| - 1]);
      assert s[|r|..] == s[..|s| - 1][|r|..] + [s[|s| - 1]];
    }
  }

  /** Python's `str.strip()`: whitespace removed from both ends. */
  function Strip(s: string): string {
    TrimEnd(TrimStart(s))
  }

  /** The stripped string is no longer than `s` and has whitespace at neither end. */
  lemma StripShape(s: string)
    ensures |Strip(s)| <= |s| && Bordered(Strip(s))
  {
    TrimStartShape(s);
    TrimEndShape(TrimStart(s));
  }

  /** Only whitespace is cut: `s` is the stripped string between two whitespace runs. */
  lemma StripCutsWhitespace(s: string) returns (lead: string, trail: string)
    ensures s == lead + Strip(s) + trail
    ensures AllWhitespace(lead) && AllWhitespace(trail)
  {
    TrimStartShape(s);
    var t := TrimStart(s);
    TrimEndShape(t);
    lead, trail := s[..|s| - |t|], t[|Strip(s)|..];
    assert t == Strip(s) + trail;
    assert s == lead + t;
  }

  /** Leading whitespace in front of a string that does not start with whitespace is all cut. */
  lemma {:induction false} TrimStartLead(lead: string, u: string)
    requires AllWhitespace(lead)
    requires u == [] || !IsWhitespace(u[0])
    ensures TrimStart(lead + u) == u
  {
    if |lead| > 0 {
      TrimStartLead(lead[1..], u);
      assert (lead + u)[1..] == lead[1..] + u;
    } else {
      assert lead + u == u;
    }
  }

  /** Trailing whitespace after a string that does not end with whitespace is all cut. */
  lemma {:induction false} TrimEndTrail(u: string, trail: string)
    requires AllWhitespace(trail)
    requires u == [] || !IsWhitespace(u[|u| - 1])
    ensures TrimEnd(u + trail) == u
  {
    if |trail| > 0 {
      TrimEndTrail(u, trail[..|trail| - 1]);
      assert (u + trail)[..|u + trail| - 1] == u + trail[..|trail| - 1];
    } else {
      assert u + trail == u;
    }
  }

  /** Stripping whitespace from both sides of a bordered string gives that string back. */
  lemma StripPadded(lead: string, s: string, trail: string)
    requires AllWhitespace(lead) && AllWhitespace(trail)
    requires Bordered(s)
    ensures Strip(lead + s + trail) == s
  {
    if s == [] {
      assert lead + s + trail == (lead + trail) + "";
      TrimStartLead(lead + trail, "");
    } else {
      assert lead + s + trail == lead + (s + trail);
      TrimStartLead(lead, s + trail);
      TrimEndTrail(s, trail);
    }
  }

  /** Python's `s.split(sep)`: the maximal separator-free pieces, which join back to `s`. */
  function Split(s: string, sep: char): (r: seq<string>)
    ensures |r| >= 1
  {
    if |s| == 0 then
      [""]
    else
      var rest := Split(s[1..], sep);
      if s[0] == sep then [""] + rest else [[s[0]] + rest[0]] + rest[1..]
  }

  /** Python's `sep.join(parts)`. */
  function Join(parts: seq<string>, sep: char): string
  {
    if |parts| == 0 then ""
    else if |parts| == 1 then parts[0]
    else parts[0] + [sep] + Join(parts[1..], sep)
  }

  lemma JoinTwo(a: string, b: string, sep: char)
    ensures Join([a, b], sep) == a + [sep] + b
  {
    assert [a, b][1..] == [b];
  }

  lemma JoinThree(a: string, b: string, c: string, sep: char)
    ensures Join([a, b, c], sep) == a + [sep] + b + [sep] + c
  {
    assert [a, b, c][1..] == [b, c];
    JoinTwo(b, c, sep);
  }

  /** The pieces of a split are free of the separator and join back to the string split. */
  lemma {:induction false} SplitShape(s: string, sep: char)
    ensures var r := Split(s, sep);
      (forall k :: 0 <= k < |r| ==> sep !in r[k]) && Join(r, sep) == s
  {
    if |s| > 0 {
      SplitShape(s[1..], sep);
      var rest := Split(s[1..], sep);
      var r := Split(s, sep);
      assert s == [s[0]] + s[1..];
      if s[0] != sep {
        assert r[1..] == rest[1..];
        assert |rest| > 1 ==> Join(rest, sep) == rest[0] + [sep] + Join(rest[1..], sep);
      }
    }
  }

  /** A separator-free prefix is glued onto the first piece of what follows it. */
  lemma {:induction false} SplitPrefix(a: string, t: string, sep: char)
    requires sep !in a
    ensures Split(a + t, sep) == [a + Split(t, sep)[0]] + Split(t, sep)[1..]
  {
    if |a| > 0 {
      SplitPrefix(a[1..], t, sep);
      assert (a + t)[1..] == a[1..] + t;
      assert (a + t)[0] == a[0];
      assert [a[0]] + (a[1..] + Split(t, sep)[0]) == a + Split(t, sep)[0];
    } else {
      var r := Split(t, sep);
      assert a + t == t && a + r[0] == r[0];
      assert r == [r[0]] + r[1..];
    }
  }

  /** Splitting undoes joining separator-free pieces. */
  lemma {:induction false} SplitJoin(parts: seq<string>, sep: char)
    requires |parts| >= 1
    requires forall k :: 0 <= k < |parts| ==> sep !in parts[k]
    ensures Split(Join(parts, sep), sep) == parts
  {
    if |parts| == 1 {
      SplitPrefix(parts[0], "", sep);
      assert parts[0] + "" == parts[0];
    } else {
      var tail := Join(parts[1..], sep);
      SplitJoin(parts[1..], sep);
      SplitPrefix(parts[0], [sep] + tail, sep);
      assert ([sep] + tail)[1..] == tail;
      assert Split([sep] + tail, sep) == [""] + parts[1..];
      assert parts[0] + [sep] + tail == parts[0] + ([sep] + tail);
      assert parts[0] + "" == parts[0];
    }
  }

  /** `pat` is a prefix of `s`. */
  predicate StartsWith(s: string, pat: string) {
    |pat| <= |s| && s[..|pat|] == pat
  }

  /** Python's `pat in s`. */
  function Contains(s: string, pat: string): bool
  {
    StartsWith(s, pat) || (|s| > 0 && Contains(s[1..], pat))
  }

  /** `pat` occurs in `s` starting at position `i`. */
  predicate OccursAt(pat: string, s: string, i: nat) {
    i + |pat| <= |s| && s[i..i + |pat|] == pat
  }

  /** `pat` occurs in `s` at some position. */
  ghost predicate Occurs(pat: string, s: string) {
    exists i: nat :: OccursAt(pat, s, i)
  }

  lemma {:induction false} ContainsOccurs(s: string, pat: string)
    ensures Contains(s, pat) <==> Occurs(pat, s)
  {
    if StartsWith(s, pat) {
      assert OccursAt(pat, s, 0);
    } else if |s| == 0 {
    } else {
      ContainsOccurs(s[1..], pat);
      if Occurs(pat, s[1..]) {
        var i: nat :| OccursAt(pat, s[1..], i);
        assert s[i + 1..i + 1 + |pat|] == s[1..][i..i + |pat|];
        assert OccursAt(pat, s, i + 1);
      }
      if Occurs(pat, s) {
        var i: nat :| OccursAt(pat, s, i);
        assert i != 0;
        assert s[1..][i - 1..i - 1 + |pat|] == s[i..i + |pat|];
        assert OccursAt(pat, s[1..], i - 1);
      }
    }
  }

  predicate IsDigit(c: char) {
    '0' <= c <= '9'
  }

  predicate AllDigits(s: string) {
    forall k :: 0 <= k < |s| ==> IsDigit(s[k])
  }

  /** A non-empty run of decimal digits. */
  predicate IsDigits(s: string) {
    |s| > 0 && AllDigits(s)
  }

  function DigitValue(c: char): (d: nat)
    requires IsDigit(c)
    ensures d < 10
  {
    (c as int) - ('0' as int)
  }

  function DigitChar(d: nat): (c: char)
    requires d < 10
    ensures IsDigit(c) && DigitValue(c) == d
  {
    ('0' as int + d) as char
  }

  /** The value of a decimal digit string (the empty string reads as 0). */
  function DigitsValue(s: string): nat
    requires AllDigits(s)
  {
    if |s| == 0 then 0 else DigitsValue(s[..|s| - 1]) * 10 + DigitValue(s[|s| - 1])
  }

  /** `str(n)` for a natural number (see `NatToStringDigits`). */
  function NatToString(n: nat): string
    decreases n
  {
    if n < 10 then [DigitChar(n)] else NatToString(n / 10) + [DigitChar(n % 10)]
  }

  /** `str(n)` is canonical: digits whose value is `n`, with no leading zero. */
  lemma {:induction false} NatToStringDigits(n: nat)
    ensures var r := NatToString(n);
      IsDigits(r) && DigitsValue(r) == n && (r[0] != '0' || r == "0")
    decreases n
  {
    if n >= 10 {
      NatToStringDigits(n / 10);
      var r := NatToString(n);
      assert r[..|r| - 1] == NatToString(n / 10);
    }
  }

  /** `str(i)` for an integer: a minus sign for negatives, then the digits of the magnitude. */
  function IntToString(i: int): string {
    if i < 0 then "-" + NatToString(-i) else NatToString(i)
  }

  /** `str(i)` is non-empty, has no whitespace at its ends and holds no comma. */
  lemma IntToStringShape(i: int)
    ensures var r := IntToString(i);
      |r| > 0 && Bordered(r) && ',' !in r
  {
    var n := if i < 0 then -i else i;
    NatToStringDigits(n);
  }

  /** A digit string with no leading zero is the rendering of its own value. */
  lemma {:induction false} NatToStringOfDigits(s: string)
    requires IsDigits(s) && (s[0] != '0' || |s| == 1)
    ensures NatToString(DigitsValue(s)) == s
  {
    if |s| > 1 {
      var p := s[..|s| - 1];
      LeadingDigitPositive(p);
      NatToStringOfDigits(p);
      assert DigitsValue(s) / 10 == DigitsValue(p);
      assert DigitChar(DigitsValue(s) % 10) == s[|s| - 1];
      assert p + [s[|s| - 1]] == s;
    }
  }

  lemma {:induction false} LeadingDigitPositive(s: string)
    requires IsDigits(s) && s[0] != '0'
    ensures DigitsValue(s) >= 1
  {
    if |s| > 1 {
      LeadingDigitPositive(s[..|s| - 1]);
    }
  }

  function Spaces(n: nat): string {
    seq(n, _ => ' ')
  }

  lemma SpacesShape(n: nat)
    ensures |Spaces(n)| == n && AllWhitespace(Spaces(n))
    ensures forall k :: 0 <= k < n ==> Spaces(n)[k] == ' '
  {
  }

  /** `'{:w}'.format(...)` of a number: right-aligned in a field of at least `w` characters. */
  function PadLeft(s: string, w: nat): string {
    if |s| < w then Spaces(w - |s|) + s else s
  }

  /** Padding on the left keeps `s` at the end and fills the field to width `w` with spaces. */
  lemma PadLeftShape(s: string, w: nat)
    ensures var r := PadLeft(s, w);
      |r| == (if |s| < w then w else |s|)
      && r[|r| - |s|..] == s
      && AllWhitespace(r[..|r| - |s|])
      && (forall k :: 0 <= k < |r| - |s| ==> r[k] == ' ')
  {
    SpacesShape(if |s| < w then w - |s| else 0);
  }

  /** `'{:ws}'.format(...)` of a string: left-aligned in a field of at least `w` characters. */
  function PadRight(s: string, w: nat): string {
    if |s| < w then s + Spaces(w - |s|) else s
  }

  /** Padding on the right keeps `s` at the start and fills the field to width `w` with spaces. */
  lemma PadRightShape(s: string, w: nat)
    ensures var r := PadRight(s, w);
      |r| == (if |s| < w then w else |s|)
      && r[..|s|] == s
      && (forall k :: |s| <= k < |r| ==> r[k] == ' ')
  {
    SpacesShape(if |s| < w then w - |s| else 0);
  }
}

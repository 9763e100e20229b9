/** The handful of Python `str` operations the parser relies on: `strip`,
    `rstrip(chars)`, `startswith`, `endswith`, the `in` substring test and
    `int` of a string of decimal digits. Whitespace is the set Python's
    `str.strip()` and `\s` share; digits are ASCII. */
module Strings {

  /** Python's whitespace (`str.isspace`): tab to carriage return, the four
      information separators U+001C to U+001F, space, and the Unicode spaces
      and line and paragraph separators. */
  predicate IsSpace(ch: char) {
    ('\t' <= ch <= '\r') || ('\U{001C}' <= ch <= ' ')
    || ch == '\U{0085}' || ch == '\U{00A0}' || ch == '\U{1680}'
    || ('\U{2000}' <= ch <= '\U{200A}') || ch == '\U{2028}' || ch == '\U{2029}'
    || ch == '\U{202F}' || ch == '\U{205F}' || ch == '\U{3000}'
  }

  predicate IsDigit(ch: char) {
    '0' <= ch <= '9'
  }

  predicate IsLetter(ch: char) {
    ('a' <= ch <= 'z') || ('A' <= ch <= 'Z')
  }

  /** A character of `[_a-zA-Z0-9]`. */
  predicate IsIdentChar(ch: char) {
    IsLetter(ch) || IsDigit(ch) || ch == '_'
  }

  predicate AllDigits(s: string) {
    forall i :: 0 <= i < |s| ==> IsDigit(s[i])
  }

  predicate NoNewline(s: string) {
    forall i :: 0 <= i < |s| ==> s[i] != '\n'
  }

  /** `s` matches `[a-zA-Z][_a-zA-Z0-9]*` as a whole. */
  predicate IsIdentifier(s: string) {
    |s| > 0 && IsLetter(s[0]) && forall i :: 1 <= i < |s| ==> IsIdentChar(s[i])
  }

  predicate StartsWith(s: string, prefix: string) {
    |prefix| <= |s| && s[..|prefix|] == prefix
  }

  predicate EndsWith(s: string, suffix: string) {
    |suffix| <= |s| && s[|s| - |suffix|..] == suffix
  }

  /** Python's `needle in s`. */
  predicate Contains(s: string, needle: string) {
    StartsWith(s, needle) || (|s| > 0 && Contains(s[1..], needle))
  }

  /** Python's `needle in s` holds when `needle` occurs at position `i`. */
  lemma {:induction false} ContainsAt(s: string, needle: string, i: nat)
    requires i + |needle| <= |s| && s[i..i + |needle|] == needle
    ensures Contains(s, needle)
  {
    if i > 0 {
      assert s[1..][i - 1..i - 1 + |needle|] == s[i..i + |needle|];
      ContainsAt(s[1..], needle, i - 1);
    }
  }

  /** `[a, b] in s` holds exactly when `a` is followed by `b` somewhere in `s`. */
  lemma {:induction false} ContainsPair(s: string, a: char, b: char)
    ensures Contains(s, [a, b]) <==> exists i :: 0 <= i < |s| - 1 && s[i] == a && s[i + 1] == b
  {
    if |s| >= 2 {
      assert s[..2] == [a, b] <==> s[0] == a && s[1] == b;
    }
    if |s| > 0 {
      ContainsPair(s[1..], a, b);
      if exists i :: 0 <= i < |s[1..]| - 1 && s[1..][i] == a && s[1..][i + 1] == b {
        var i :| 0 <= i < |s[1..]| - 1 && s[1..][i] == a && s[1..][i + 1] == b;
        assert s[i + 1] == a && s[i + 2] == b;
      }
      if exists i :: 0 <= i < |s| - 1 && s[i] == a && s[i + 1] == b {
        var i :| 0 <= i < |s| - 1 && s[i] == a && s[i + 1] == b;
        if i > 0 {
          assert s[1..][i - 1] == a && s[1..][i] == b;
        }
      }
    }
  }

  /** Python's `s.rstrip(chars)`: drop the longest suffix made of `cs`. */
  function TrimEnd(s: string, cs: set<char>): (r: string)
    ensures |r| <= |s| && r == s[..|r|]
    ensures forall i :: |r| <= i < |s| ==> s[i] in cs
    ensures |r| > 0 ==> r[|r| - 1] !in cs
  {
    if |s| > 0 && s[|s| - 1] in cs then TrimEnd(s[..|s| - 1], cs) else s
  }

  /** `TrimEnd` for whitespace: drop the longest suffix of `IsSpace`
      characters. */
  function TrimSpaceEnd(s: string): (r: string)
    ensures |r| <= |s| && r == s[..|r|]
    ensures forall i :: |r| <= i < |s| ==> IsSpace(s[i])
    ensures |r| > 0 ==> !IsSpace(r[|r| - 1])
  {
    if |s| > 0 && IsSpace(s[|s| - 1]) then TrimSpaceEnd(s[..|s| - 1]) else s
  }

  /** Python's `s.strip()`. */
  function Strip(s: string): (r: string)
    ensures SpaceRun(s) + |r| <= |s| && r == s[SpaceRun(s)..SpaceRun(s) + |r|]
    ensures forall i :: SpaceRun(s) + |r| <= i < |s| ==> IsSpace(s[i])
    ensures |r| > 0 ==> !IsSpace(r[0]) && !IsSpace(r[|r| - 1])
  {
    var k := SpaceRun(s);
    TrimSpaceEnd(s[k..])
  }

  /** Stripping a string that does not start or end with whitespace gives it back. */
  lemma StripUnchanged(s: string)
    requires |s| > 0 ==> !IsSpace(s[0]) && !IsSpace(s[|s| - 1])
    ensures Strip(s) == s
  {
  }

  /** The number of `IsSpace` characters at the front of `s`. */
  function SpaceRun(s: string): (n: nat)
    ensures n <= |s|
    ensures forall i :: 0 <= i < n ==> IsSpace(s[i])
    ensures n < |s| ==> !IsSpace(s[n])
  {
    if |s| > 0 && IsSpace(s[0]) then 1 + SpaceRun(s[1..]) else 0
  }

  /** The number of `IsIdentChar` characters at the front of `s`. */
  function IdentRun(s: string): (n: nat)
    ensures n <= |s|
    ensures forall i :: 0 <= i < n ==> IsIdentChar(s[i])
    ensures n < |s| ==> !IsIdentChar(s[n])
  {
    if |s| > 0 && IsIdentChar(s[0]) then 1 + IdentRun(s[1..]) else 0
  }

  /** The text of `s` before its first line feed (all of `s` if it has none). */
  function TakeLine(s: string): (r: string)
    ensures StartsWith(s, r) && NoNewline(r)
    ensures |r| < |s| ==> s[|r|] == '\n'
  {
    if |s| == 0 || s[0] == '\n' then "" else [s[0]] + TakeLine(s[1..])
  }

  /** The index of the last character of `s` that is not a line feed. */
  function LastNonNewline(s: string): (r: Option<nat>)
    ensures r.Some? ==> r.value < |s| && s[r.value] != '\n'
    ensures r.Some? ==> forall i :: r.value < i < |s| ==> s[i] == '\n'
    ensures r.None? ==> forall i :: 0 <= i < |s| ==> s[i] == '\n'
  {
    if |s| == 0 then None
    else if s[|s| - 1] != '\n' then Some(|s| - 1)
    else LastNonNewline(s[..|s| - 1])
  }

  datatype Option<T> = None | Some(value: T)

  function DigitValue(ch: char): (d: nat)
    requires IsDigit(ch)
    ensures d < 10
  {
    (ch as int) - ('0' as int)
  }

  function DigitChar(d: nat): (ch: char)
    requires d < 10
    ensures IsDigit(ch) && DigitValue(ch) == d
  {
    (('0' as int) + d) as char
  }

  /** Python's `int(s)` on a string of ASCII decimal digits (leading zeros allowed). */
  function DecimalValue(s: string): nat
    requires AllDigits(s)
  {
    if |s| == 0 then 0 else 10 * DecimalValue(s[..|s| - 1]) + DigitValue(s[|s| - 1])
  }

  /** Python's `str(n)` for a natural number. */
  function DecimalText(n: nat): (s: string)
    ensures |s| > 0 && AllDigits(s)
  {
    if n < 10 then [DigitChar(n)] else DecimalText(n / 10) + [DigitChar(n % 10)]
  }

  /** Reading back the decimal text of a number gives that number. */
  lemma {:induction false} DecimalRoundTrip(n: nat)
    ensures DecimalValue(DecimalText(n)) == n
  {
    var s := DecimalText(n);
    if n >= 10 {
      DecimalRoundTrip(n / 10);
      assert s[..|s| - 1] == DecimalText(n / 10);
    }
  }
}

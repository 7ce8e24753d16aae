/**
 * The few JavaScript string operations the booking pages rely on:
 * number-to-string conversion in template literals and `String(n)`,
 * `String.prototype.trim` and `String.prototype.toUpperCase`.
 */
module JsText {

  predicate IsDigit(c: char) {
    '0' <= c <= '9'
  }

  function DigitChar(d: nat): (c: char)
    requires d < 10
    ensures IsDigit(c) && c as int - '0' as int == d
  {
    ('0' as int + d) as char
  }

  /** Decimal rendering of a non-negative integer, as `${n}` produces it. */
  function NatToString(n: nat): (s: string)
    ensures |s| >= 1
    ensures forall i :: 0 <= i < |s| ==> IsDigit(s[i])
    ensures s[0] == '0' <==> n == 0
    decreases n
  {
    if n < 10 then [DigitChar(n)] else NatToString(n / 10) + [DigitChar(n % 10)]
  }

  /** Decimal rendering of an integer, with a leading '-' when it is negative. */
  function IntToString(i: int): (s: string)
    ensures |s| >= 1
    ensures s[0] == '-' <==> i < 0
  {
    if i < 0 then "-" + NatToString(-i) else NatToString(i)
  }

  /** The string a template literal builds: its pieces, concatenated in order. */
  function Concat(parts: seq<string>): string
    decreases |parts|
  {
    if parts == [] then "" else parts[0] + Concat(parts[1..])
  }

  lemma ConcatFour(a: string, b: string, c: string, d: string)
    ensures Concat([a, b, c, d]) == a + b + c + d
  {
    assert Concat([d]) == d by {
      assert [d][1..] == [];
    }
    assert Concat([c, d]) == c + d by {
      assert [c, d][1..] == [d];
    }
    assert Concat([b, c, d]) == b + (c + d) by {
      assert [b, c, d][1..] == [c, d];
    }
    assert [a, b, c, d][1..] == [b, c, d];
  }

  /** After the sign come the decimal digits of |i|, which read back as |i|. */
  lemma IntToStringRoundTrip(i: int)
    ensures var s := IntToString(i);
            && (forall k :: (if i < 0 then 1 else 0) <= k < |s| ==> IsDigit(s[k]))
            && ParseNat(if i < 0 then s[1..] else s) == (if i < 0 then -i else i)
  {
    if i < 0 {
      NatToStringRoundTrip(-i);
      assert IntToString(i)[1..] == NatToString(-i);
    } else {
      NatToStringRoundTrip(i);
    }
  }

  /** The number of decimal digits at the end of a string. */
  function TrailingDigits(s: string): (n: nat)
    ensures n <= |s|
    decreases |s|
  {
    if s == [] || !IsDigit(s[|s| - 1]) then 0 else 1 + TrailingDigits(s[..|s| - 1])
  }

  lemma {:induction false} TrailingDigitsAfterDash(x: string, d: string)
    requires forall i :: 0 <= i < |d| ==> IsDigit(d[i])
    ensures TrailingDigits(x + "-" + d) == |d|
    decreases |d|
  {
    var s := x + "-" + d;
    if d == [] {
      assert s[|s| - 1] == '-';
    } else {
      assert s[..|s| - 1] == x + "-" + d[..|d| - 1];
      assert s[|s| - 1] == d[|d| - 1];
      TrailingDigitsAfterDash(x, d[..|d| - 1]);
    }
  }

  /**
   * A string `${x}-${t}` determines both x and t: the digits after the last dash
   * are exactly those of t.
   */
  lemma DashNumberInjective(x: string, t: nat, y: string, u: nat)
    requires x + "-" + NatToString(t) == y + "-" + NatToString(u)
    ensures x == y && t == u
  {
    var s := x + "-" + NatToString(t);
    TrailingDigitsAfterDash(x, NatToString(t));
    TrailingDigitsAfterDash(y, NatToString(u));
    var k := |s| - |NatToString(t)|;
    assert NatToString(t) == s[k..] == NatToString(u);
    assert x + "-" == s[..k] == y + "-";
    assert x == (x + "-")[..|x|] && y == (y + "-")[..|y|];
    NatToStringRoundTrip(t);
    NatToStringRoundTrip(u);
  }

  /** Reads back a string of decimal digits; the reference against which NatToString is checked. */
  function ParseNat(s: string): nat
    requires forall i :: 0 <= i < |s| ==> IsDigit(s[i])
    decreases |s|
  {
    if s == [] then 0
    else
      var last := s[|s| - 1];
      assert IsDigit(last);
      ParseNat(s[..|s| - 1]) * 10 + (last as int - '0' as int)
  }

  lemma {:induction false} NatToStringRoundTrip(n: nat)
    ensures ParseNat(NatToString(n)) == n
    decreases n
  {
    if n >= 10 {
      var s := NatToString(n);
      assert s[..|s| - 1] == NatToString(n / 10);
      NatToStringRoundTrip(n / 10);
    }
  }

  /** The characters JavaScript's `trim` removes: WhiteSpace and LineTerminator of ECMA-262. */
  predicate IsJsWhitespace(c: char) {
    || c == '\t' || c == '\n' || c == '\U{B}' || c == '\U{C}' || c == '\r' || c == ' '
    || c == '\U{A0}' || c == '\U{1680}' || ('\U{2000}' <= c <= '\U{200A}')
    || c == '\U{2028}' || c == '\U{2029}' || c == '\U{202F}' || c == '\U{205F}'
    || c == '\U{3000}' || c == '\U{FEFF}'
  }

  /** True when `s.trim()` is the empty string, which JavaScript treats as false. */
  ghost predicate IsBlank(s: string) {
    forall i :: 0 <= i < |s| ==> IsJsWhitespace(s[i])
  }

  function TrimStart(s: string): (r: string)
    ensures |r| <= |s| && r == s[|s| - |r|..]
    ensures forall i :: 0 <= i < |s| - |r| ==> IsJsWhitespace(s[i])
    ensures r != [] ==> !IsJsWhitespace(r[0])
    decreases |s|
  {
    if s != [] && IsJsWhitespace(s[0]) then TrimStart(s[1..]) else s
  }

  function TrimEnd(s: string): (r: string)
    ensures |r| <= |s| && r == s[..|r|]
    ensures forall i :: |r| <= i < |s| ==> IsJsWhitespace(s[i])
    ensures r != [] ==> !IsJsWhitespace(r[|r| - 1])
    decreases |s|
  {
    if s != [] && IsJsWhitespace(s[|s| - 1]) then TrimEnd(s[..|s| - 1]) else s
  }

  /** `s.trim()`: the longest infix of s that neither starts nor ends with whitespace. */
  function Trim(s: string): (r: string)
    ensures |r| <= |s|
    ensures r == [] <==> IsBlank(s)
    ensures r != [] ==> !IsJsWhitespace(r[0]) && !IsJsWhitespace(r[|r| - 1])
    ensures IsTrimmedInfix(s, r)
  {
    TrimEmptyIffBlank(s);
    TrimNoWhitespaceAtEnds(s);
    TrimIsInfix(s);
    TrimEnd(TrimStart(s))
  }

  lemma {:induction false} TrimNoWhitespaceAtEnds(s: string)
    ensures var r := TrimEnd(TrimStart(s));
            r != [] ==> !IsJsWhitespace(r[0]) && !IsJsWhitespace(r[|r| - 1])
  {
    var t := TrimStart(s);
    var r := TrimEnd(t);
    if r != [] {
      assert r[0] == t[0];
    }
  }

  /** Trimming cuts whitespace off both ends and keeps the rest as it stands. */
  lemma {:induction false} TrimIsInfix(s: string)
    ensures IsTrimmedInfix(s, TrimEnd(TrimStart(s)))
  {
    var t := TrimStart(s);
    var u := TrimEnd(t);
    var i := |s| - |t|;
    assert WhitespaceBefore(s, i);
    assert WhitespaceFrom(t, |u|);
    WhitespaceFromSuffix(s, i, |u|);
    assert u == s[i..i + |u|];
  }

  /** Whitespace at the end of a suffix of s is whitespace at the end of s. */
  lemma WhitespaceFromSuffix(s: string, i: nat, n: nat)
    requires i + n <= |s| && WhitespaceFrom(s[i..], n)
    ensures WhitespaceFrom(s, i + n)
  {
    forall k | i + n <= k < |s|
      ensures IsJsWhitespace(s[k])
    {
      assert s[k] == s[i..][k - i];
    }
  }

  /** r is s[i..j] for some i and j with only whitespace before i and from j on. */
  ghost predicate IsTrimmedInfix(s: string, r: string) {
    exists i, j :: 0 <= i <= j <= |s| && r == s[i..j] && WhitespaceBefore(s, i) && WhitespaceFrom(s, j)
  }

  /** Every character before position i is whitespace. */
  ghost predicate WhitespaceBefore(s: string, i: int) {
    forall k :: 0 <= k < i && k < |s| ==> IsJsWhitespace(s[k])
  }

  /** Every character from position j on is whitespace. */
  ghost predicate WhitespaceFrom(s: string, j: int) {
    forall k :: 0 <= k && j <= k < |s| ==> IsJsWhitespace(s[k])
  }

  lemma TrimEmptyIffBlank(s: string)
    ensures TrimEnd(TrimStart(s)) == [] <==> IsBlank(s)
  {
  }

  /** Upper-cases one character; only the ASCII letters a-z are mapped. */
  function UpperChar(c: char): char {
    if IsAsciiLower(c) then (c as int - 32) as char else c
  }

  predicate IsAsciiLower(c: char) {
    'a' <= c <= 'z'
  }

  /** `s.toUpperCase()`, restricted to ASCII letters. */
  function ToUpper(s: string): (r: string)
    ensures |r| == |s|
    ensures forall i :: 0 <= i < |s| ==> !IsAsciiLower(r[i])
    ensures forall i :: 0 <= i < |s| && !IsAsciiLower(s[i]) ==> r[i] == s[i]
    ensures forall i :: 0 <= i < |s| && IsAsciiLower(s[i]) ==> r[i] as int == s[i] as int - 32
    decreases |s|
  {
    if s == [] then [] else [UpperChar(s[0])] + ToUpper(s[1..])
  }

  lemma ToUpperIdempotent(s: string)
    ensures ToUpper(ToUpper(s)) == ToUpper(s)
  {
  }

  /** No whitespace character is an ASCII letter. */
  lemma WhitespaceIsNotALetter(c: char)
    ensures IsJsWhitespace(c) ==> !IsAsciiLower(c) && !('A' <= c <= 'Z')
  {
  }

  /** Upper-casing maps no character into or out of whitespace, so it keeps a string blank or non-blank. */
  lemma ToUpperKeepsBlankness(s: string)
    ensures Trim(ToUpper(s)) == [] <==> Trim(s) == []
  {
    var u := ToUpper(s);
    forall i | 0 <= i < |s|
      ensures IsJsWhitespace(u[i]) <==> IsJsWhitespace(s[i])
    {
      WhitespaceIsNotALetter(s[i]);
      WhitespaceIsNotALetter(u[i]);
    }
    assert IsBlank(u) <==> IsBlank(s);
  }
}

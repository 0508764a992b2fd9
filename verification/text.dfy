/**
  String primitives of the JavaScript runtime that the application relies on:
  decimal rendering (`String(n)`, template literals), `padStart`, `startsWith`,
  `includes`, `toLowerCase`, `trim` and the UTF-16 `length` of a string.
 */
module Text {

  predicate IsDigit(c: char) {
    '0' <= c <= '9'
  }

  predicate AllDigits(s: string) {
    forall i :: 0 <= i < |s| ==> IsDigit(s[i])
  }

  function DigitChar(d: nat): (c: char)
    requires d < 10
    ensures IsDigit(c)
  {
    (48 + d) as char
  }

  function DigitValue(c: char): (d: nat)
    requires IsDigit(c)
    ensures d < 10 && DigitChar(d) == c
  {
    (c as int) - 48
  }

  /** `String(n)` for a non-negative integer: its decimal digits, most significant first. */
  function DecimalString(n: nat): (s: string)
    ensures 1 <= |s|
    ensures AllDigits(s)
    decreases n
  {
    if n < 10 then [DigitChar(n)] else DecimalString(n / 10) + [DigitChar(n % 10)]
  }

  /** The value of a string of decimal digits (the inverse of `DecimalString`). */
  function ParseDecimal(s: string): nat
    requires AllDigits(s)
  {
    if |s| == 0 then 0 else ParseDecimal(s[..|s| - 1]) * 10 + DigitValue(s[|s| - 1])
  }

  lemma {:induction false} DecimalRoundTrip(n: nat)
    ensures ParseDecimal(DecimalString(n)) == n
    decreases n
  {
    if n >= 10 {
      DecimalRoundTrip(n / 10);
      var s := DecimalString(n);
      assert s[..|s| - 1] == DecimalString(n / 10);
    }
  }

  /** A four-digit number renders as exactly four characters. */
  lemma FourDigitLength(n: nat)
    requires 1000 <= n < 10000
    ensures |DecimalString(n)| == 4
  {
    assert |DecimalString(n / 1000)| == 1;
    assert DecimalString(n / 100) == DecimalString(n / 100 / 10) + [DigitChar(n / 100 % 10)];
    assert n / 100 / 10 == n / 1000;
    assert DecimalString(n / 10) == DecimalString(n / 10 / 10) + [DigitChar(n / 10 % 10)];
    assert n / 10 / 10 == n / 100;
  }

  /** Template-literal rendering of an integer (`${y}`): a minus sign before negative values. */
  function IntString(i: int): (s: string)
    ensures 1 <= |s|
    ensures 0 <= i ==> AllDigits(s)
    ensures i < 0 ==> s[0] == '-'
  {
    if i < 0 then "-" + DecimalString(-i) else DecimalString(i)
  }

  /** `s.padStart(width, fill)`: left-fill up to `width` characters; a longer string is unchanged. */
  function PadStart(s: string, width: nat, fill: char): (r: string)
    ensures |r| == if |s| >= width then |s| else width
    ensures r[|r| - |s|..] == s
    ensures forall i :: 0 <= i < |r| - |s| ==> r[i] == fill
  {
    if |s| >= width then s else seq(width - |s|, _ => fill) + s
  }

  /** `s.startsWith(prefix)`. */
  predicate StartsWith(s: string, prefix: string) {
    |prefix| <= |s| && s[..|prefix|] == prefix
  }

  /** `s.includes(t)`: `t` occurs as a contiguous block of `s` (the empty string occurs everywhere). */
  predicate Contains(s: string, t: string) {
    exists i | 0 <= i <= |s| - |t| :: OccursAt(s, t, i)
  }

  /** `t` occurs in `s` starting at index `i`. */
  predicate OccursAt(s: string, t: string, i: int) {
    0 <= i <= |s| - |t| && s[i..i + |t|] == t
  }

  /** `toLowerCase` restricted to the ASCII letters. */
  function LowerChar(c: char): (l: char)
    ensures 'A' <= c <= 'Z' ==> l as int == c as int + 32
    ensures !('A' <= c <= 'Z') ==> l == c
  {
    if 'A' <= c <= 'Z' then (c as int + 32) as char else c
  }

  function Lower(s: string): (r: string)
    ensures |r| == |s|
    ensures forall i :: 0 <= i < |s| ==> r[i] == LowerChar(s[i])
  {
    seq(|s|, i requires 0 <= i < |s| => LowerChar(s[i]))
  }

  /** Lower-casing twice is lower-casing once. */
  lemma LowerIdempotent(s: string)
    ensures Lower(Lower(s)) == Lower(s)
  {
  }

  /** The characters `String.prototype.trim` removes: ECMAScript WhiteSpace and LineTerminator. */
  predicate IsJsSpace(c: char) {
    || c == ' ' || c == '\t' || c == '\n' || c == '\r'
    || c == '\U{000B}' || c == '\U{000C}' || c == '\U{00A0}' || c == '\U{1680}'
    || ('\U{2000}' <= c <= '\U{200A}')
    || c == '\U{2028}' || c == '\U{2029}' || c == '\U{202F}' || c == '\U{205F}'
    || c == '\U{3000}' || c == '\U{FEFF}'
  }

  /** A string with nothing but white space in it. */
  predicate Blank(s: string) {
    forall i :: 0 <= i < |s| ==> IsJsSpace(s[i])
  }

  function TrimStart(s: string): (r: string)
    ensures |r| <= |s| && r == s[|s| - |r|..]
    ensures |r| > 0 ==> !IsJsSpace(r[0])
    ensures Blank(s[..|s| - |r|])
  {
    if |s| > 0 && IsJsSpace(s[0]) then TrimStart(s[1..]) else s
  }

  function TrimEnd(s: string): (r: string)
    ensures |r| <= |s| && r == s[..|r|]
    ensures |r| > 0 ==> !IsJsSpace(r[|r| - 1])
    ensures Blank(s[|r|..])
  {
    if |s| > 0 && IsJsSpace(s[|s| - 1]) then TrimEnd(s[..|s| - 1]) else s
  }

  /** `s.trim()`. */
  function Trim(s: string): string {
    TrimEnd(TrimStart(s))
  }

  /** `!s.trim()` holds exactly for the strings made only of white space. */
  lemma TrimEmptyIffBlank(s: string)
    ensures Trim(s) == "" <==> Blank(s)
  {
    var t := TrimStart(s);
    if Trim(s) == "" {
      assert Blank(t[0..]);
      assert s == s[..|s| - |t|] + t;
    } else {
      var r := Trim(s);
      assert r[0] == t[0];
      assert !IsJsSpace(s[|s| - |t|]);
    }
  }

  /** `s.length`: JavaScript counts UTF-16 code units, so a character outside the BMP counts twice. */
  function Utf16Length(s: string): (n: nat)
    ensures |s| <= n <= 2 * |s|
  {
    if |s| == 0 then 0 else Utf16Length(s[..|s| - 1]) + (if s[|s| - 1] as int > 0xFFFF then 2 else 1)
  }

  /** Inside the Basic Multilingual Plane every character is one code unit. */
  lemma {:induction false} Utf16LengthBmp(s: string)
    requires forall i :: 0 <= i < |s| ==> s[i] as int <= 0xFFFF
    ensures Utf16Length(s) == |s|
  {
    if |s| > 0 {
      Utf16LengthBmp(s[..|s| - 1]);
    }
  }

  /** Outside it every character is a surrogate pair, two code units. */
  lemma {:induction false} Utf16LengthAstral(s: string)
    requires forall i :: 0 <= i < |s| ==> s[i] as int > 0xFFFF
    ensures Utf16Length(s) == 2 * |s|
  {
    if |s| > 0 {
      Utf16LengthAstral(s[..|s| - 1]);
    }
  }
}

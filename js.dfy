/** The few JavaScript runtime behaviours the display code relies on: optional
    values and the truthiness of `||`, the conversion of integers to decimal
    text, `Math.round` of a quotient, the `%` operator, `substring(0, k)` and
    `padStart(2, '0')`. Each is written out, since Dafny's own integer
    division and remainder differ from JavaScript's. */
module Js {

  /** A field that may be `undefined`. */
  datatype Option<T> = None | Some(value: T)

  /** JavaScript truthiness of an optional string: `undefined` and `""` are falsy. */
  predicate Truthy(o: Option<string>) {
    o.Some? && o.value != ""
  }

  /** `a || b` for two optional strings. */
  function Or(a: Option<string>, b: Option<string>): Option<string> {
    if Truthy(a) then a else b
  }

  /** `a || fallback` where the fallback is a plain string. */
  function OrElse(a: Option<string>, fallback: string): string {
    if Truthy(a) then a.value else fallback
  }

  // ----- decimal text -----

  predicate IsDigit(c: char) {
    '0' <= c <= '9'
  }

  predicate IsDigits(s: string) {
    forall i :: 0 <= i < |s| ==> IsDigit(s[i])
  }

  function DigitChar(d: nat): (c: char)
    requires d < 10
  {
    (('0' as int) + d) as char
  }

  function DigitValue(c: char): nat
    requires IsDigit(c)
  {
    (c as int) - ('0' as int)
  }

  /** The number a string of decimal digits denotes (most significant first).
      This reads text back and is the partner of NatToString. */
  function DecimalValue(s: string): nat
    requires IsDigits(s)
  {
    if s == [] then 0 else 10 * DecimalValue(s[..|s| - 1]) + DigitValue(s[|s| - 1])
  }

  /** `String(n)` for a non-negative integer: its shortest decimal representation. */
  function NatToString(n: nat): (s: string)
    ensures |s| >= 1 && IsDigits(s)
    ensures DecimalValue(s) == n
    ensures n > 0 ==> s[0] != '0'
    ensures n < 10 <==> |s| == 1
  {
    if n < 10 then [DigitChar(n)]
    else
      var prefix := NatToString(n / 10);
      var s := prefix + [DigitChar(n % 10)];
      assert s[..|s| - 1] == prefix;
      s
  }

  /** The number a possibly signed decimal string denotes. */
  function SignedValue(s: string): int
    requires |s| >= 1
    requires if s[0] == '-' then IsDigits(s[1..]) else IsDigits(s)
  {
    if s[0] == '-' then -(DecimalValue(s[1..]) as int) else DecimalValue(s)
  }

  /** `String(i)` for any integer: a minus sign before the digits of a negative value. */
  function IntToString(i: int): (s: string)
    ensures |s| >= 1
    ensures s[0] == '-' <==> i < 0
    ensures if i < 0 then IsDigits(s[1..]) else IsDigits(s)
    ensures SignedValue(s) == i
    ensures var digits := if i < 0 then s[1..] else s;
      |digits| >= 1 && (|digits| > 1 ==> digits[0] != '0') && (i < 0 ==> digits[0] != '0')
  {
    if i < 0 then
      var s := "-" + NatToString(-i);
      assert s[1..] == NatToString(-i);
      s
    else NatToString(i)
  }

  // ----- arithmetic -----

  /** `Math.round(a / b)` for a positive divisor: the integer nearest to a/b,
      halves rounded towards +infinity, i.e. floor(a/b + 1/2). */
  function RoundDiv(a: int, b: int): (r: int)
    requires b > 0
    ensures 2 * b * r - b <= 2 * a < 2 * b * r + b
  {
    (2 * a + b) / (2 * b)
  }

  /** JavaScript's `a % b` for a positive divisor: the remainder of division
      truncated towards zero, so it takes the sign of the dividend. */
  function JsRem(a: int, b: int): (r: int)
    requires b > 0
    ensures 0 <= a ==> r == a % b && 0 <= r < b
    ensures a < 0 ==> -b < r <= 0 && r == -((-a) % b)
  {
    if a >= 0 then a % b else -((-a) % b)
  }

  function Min(a: int, b: int): int {
    if a <= b then a else b
  }

  // ----- strings -----

  /** `s.substring(0, k)`: the first k characters, or all of s when it is shorter. */
  function Prefix(s: string, k: nat): (r: string)
    ensures |r| == Min(k, |s|)
    ensures r == s[..|r|]
  {
    s[..Min(k, |s|)]
  }

  /** `s.padStart(2, '0')`. */
  function PadStart2(s: string): (r: string)
    ensures |r| == if |s| < 2 then 2 else |s|
    ensures r[|r| - |s|..] == s
    ensures forall i :: 0 <= i < |r| - |s| ==> r[i] == '0'
  {
    if |s| == 0 then "00" else if |s| == 1 then "0" + s else s
  }

  /** Reading back the last part of a prefix: when r starts with pre + part,
      it starts with pre, and part follows. */
  lemma Piece(r: string, pre: string, part: string)
    requires |pre| + |part| <= |r| && r[..|pre| + |part|] == pre + part
    ensures r[..|pre|] == pre && r[|pre|..|pre| + |part|] == part
  {
    assert r[..|pre|] == (pre + part)[..|pre|];
    assert r[|pre|..|pre| + |part|] == (pre + part)[|pre|..];
  }
}

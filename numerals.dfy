/**
 * Digit strings in a radix, as JavaScript reads them (parseInt) and prints them
 * (Number.prototype.toString on a non-negative integer).
 */
module Numerals {

  predicate IsDigit(c: char) {
    '0' <= c <= '9'
  }

  /** The value of an ASCII letter or digit as a digit in radix 36, or 36 for any other char. */
  function DigitValue(c: char): (d: nat)
    ensures d <= 36
    ensures d < 10 <==> IsDigit(c)
  {
    if '0' <= c <= '9' then (c - '0') as nat
    else if 'a' <= c <= 'z' then (c - 'a') as nat + 10
    else if 'A' <= c <= 'Z' then (c - 'A') as nat + 10
    else 36
  }

  predicate IsRadixDigit(c: char, radix: nat) {
    DigitValue(c) < radix
  }

  predicate AllRadixDigits(s: string, radix: nat) {
    forall i :: 0 <= i < |s| ==> IsRadixDigit(s[i], radix)
  }

  predicate AllDigits(s: string) {
    forall i :: 0 <= i < |s| ==> IsDigit(s[i])
  }

  /** The decimal digits of \d and the radix-10 digits of parseInt are the same strings. */
  lemma DecimalDigits(s: string)
    ensures AllDigits(s) <==> AllRadixDigits(s, 10)
  {
  }

  /** The value of a digit string, most significant digit first. */
  function Value(s: string, radix: nat): (v: nat)
    requires AllRadixDigits(s, radix)
    ensures v < Power(radix, |s|)
  {
    if s == [] then 0
    else
      var init := s[..|s| - 1];
      assert forall i :: 0 <= i < |init| ==> init[i] == s[i];
      var high, low := Value(init, radix), DigitValue(s[|s| - 1]);
      var p := Power(radix, |init|);
      assert Power(radix, |s|) == p * radix;
      ShiftDigit(high, low, p, radix);
      high * radix + low
  }

  function Power(b: nat, e: nat): nat {
    if e == 0 then 1 else Power(b, e - 1) * b
  }

  /** Appending a digit below radix to a number below p gives a number below p * radix. */
  lemma ShiftDigit(high: nat, low: nat, p: nat, radix: nat)
    requires high < p && low < radix
    ensures 0 <= high * radix + low < p * radix
  {
    assert (high + 1) * radix == high * radix + radix;
    assert (high + 1) * radix <= p * radix by {
      var d := p - (high + 1);
      assert p * radix == (high + 1) * radix + d * radix;
    }
  }

  /** The longest prefix of s made of radix digits: what parseInt consumes. */
  function LeadingDigits(s: string, radix: nat): (p: string)
    ensures p <= s && AllRadixDigits(p, radix)
    ensures |p| < |s| ==> !IsRadixDigit(s[|p|], radix)
  {
    if s != [] && IsRadixDigit(s[0], radix) then [s[0]] + LeadingDigits(s[1..], radix)
    else []
  }

  /** The leading digits of a digit string followed by a non-digit are exactly that string. */
  lemma {:induction false} LeadingDigitsOf(d: string, rest: string, radix: nat)
    requires AllRadixDigits(d, radix)
    requires rest == [] || !IsRadixDigit(rest[0], radix)
    ensures LeadingDigits(d + rest, radix) == d
  {
    if d != [] {
      assert (d + rest)[1..] == d[1..] + rest;
      LeadingDigitsOf(d[1..], rest, radix);
    } else {
      assert d + rest == rest;
    }
  }

  function DigitChar(d: nat): (c: char)
    requires d < 10
    ensures IsDigit(c) && DigitValue(c) == d
  {
    '0' + d as char
  }

  /** Decimal rendering of a non-negative integer, as JavaScript's String(n) gives it. */
  function ToDecimal(n: nat): (s: string)
    ensures |s| > 0 && AllDigits(s) && AllRadixDigits(s, 10)
    ensures n > 0 ==> s[0] != '0'
  {
    if n < 10 then [DigitChar(n)]
    else ToDecimal(n / 10) + [DigitChar(n % 10)]
  }

  /** Reading the decimal rendering back gives the number: ToDecimal and Value are inverses. */
  lemma {:induction false} ValueOfToDecimal(n: nat)
    ensures Value(ToDecimal(n), 10) == n
  {
    var s := ToDecimal(n);
    if n >= 10 {
      ValueOfToDecimal(n / 10);
      assert s[..|s| - 1] == ToDecimal(n / 10);
    }
  }

  /** The number of decimal digits of n. */
  function DigitCount(n: nat): (k: nat)
    ensures k >= 1
  {
    if n < 10 then 1 else 1 + DigitCount(n / 10)
  }

  lemma {:induction false} ToDecimalLength(n: nat)
    ensures |ToDecimal(n)| == DigitCount(n)
  {
    if n >= 10 {
      ToDecimalLength(n / 10);
    }
  }
}

/**
 * The duration parser `timeToMs` of the reactive runtime (sketches/runtime.ts): a
 * string is a number of seconds when a digit run followed by "s" occurs in it, a
 * number of milliseconds when a digit run followed by "ms" occurs in it, and is
 * refused otherwise; the number itself is whatever JavaScript's parseInt reads.
 */
module Durations {
  import opened Wrappers
  import opened Numerals

  /** A JavaScript number as far as timeToMs can produce one. */
  datatype Num = Finite(n: int) | NaN

  datatype TimeError = UnsupportedTimeFormat(time: string)

  /** JavaScript's StrWhiteSpaceChar: the WhiteSpace and LineTerminator code points. */
  predicate IsJsWhiteSpace(c: char) {
    c == '\t' || c == '\n' || c == '\U{0b}' || c == '\U{0c}' || c == '\r' || c == ' '
    || c == '\U{a0}' || c == '\U{1680}' || ('\U{2000}' <= c <= '\U{200a}')
    || c == '\U{2028}' || c == '\U{2029}' || c == '\U{202f}' || c == '\U{205f}'
    || c == '\U{3000}' || c == '\U{feff}'
  }

  /** s without its leading white space. */
  function TrimStart(s: string): (t: string)
    ensures |t| <= |s| && t == s[|s| - |t|..]
    ensures forall j :: 0 <= j < |s| - |t| ==> IsJsWhiteSpace(s[j])
    ensures t != [] ==> !IsJsWhiteSpace(t[0])
  {
    if s != [] && IsJsWhiteSpace(s[0]) then TrimStart(s[1..]) else s
  }

  function Signed(negative: bool, m: nat): int {
    if negative then -(m as int) else m
  }

  /**
   * parseInt(s) with no radix argument: skip leading white space, take an optional
   * sign, read "0x"/"0X" as a hexadecimal prefix, then read the longest run of digits;
   * no digit at all gives NaN.
   */
  function ParseInt(s: string): (r: Num)
    ensures StartsWithDecimal(TrimStart(s)) ==> r.Finite? && r.n >= 0
    ensures TrimStart(s) == [] || (!IsDigit(TrimStart(s)[0]) && TrimStart(s)[0] != '-' && TrimStart(s)[0] != '+') ==> r == NaN
  {
    var t := TrimStart(s);
    var negative := t != [] && t[0] == '-';
    var u := if t != [] && (t[0] == '-' || t[0] == '+') then t[1..] else t;
    var hex := |u| >= 2 && u[0] == '0' && (u[1] == 'x' || u[1] == 'X');
    var radix := if hex then 16 else 10;
    var z := LeadingDigits(if hex then u[2..] else u, radix);
    assert StartsWithDecimal(t) ==> u == t && !hex && IsRadixDigit(u[0], 10) && z != [];
    if z == [] then NaN else Finite(Signed(negative, Value(z, radix)))
  }

  /** s starts with a decimal digit that does not open a "0x" / "0X" prefix. */
  predicate StartsWithDecimal(s: string) {
    s != [] && IsDigit(s[0]) && !(|s| >= 2 && s[0] == '0' && (s[1] == 'x' || s[1] == 'X'))
  }

  /** parseInt of a decimal digit string followed by a non-digit reads exactly that string. */
  lemma ParseIntLeadingDigits(d: string, rest: string)
    requires d != [] && AllDigits(d)
    requires rest == [] || (!IsDigit(rest[0]) && rest[0] != 'x' && rest[0] != 'X')
    ensures ParseInt(d + rest) == Finite(Value(d, 10))
  {
    var s := d + rest;
    assert s[0] == d[0] && IsDigit(s[0]);
    assert !IsJsWhiteSpace(s[0]);
    assert TrimStart(s) == s;
    assert !(|s| >= 2 && (s[1] == 'x' || s[1] == 'X')) by {
      if |s| >= 2 {
        if |d| >= 2 { assert s[1] == d[1]; } else { assert s[1] == rest[0]; }
      }
    }
    DecimalDigits(d);
    LeadingDigitsOf(d, rest, 10);
    assert LeadingDigits(s, 10) == d;
    assert s[0] != '-' && s[0] != '+' && StartsWithDecimal(s);
    assert ParseInt(s) == Finite(Signed(false, Value(d, 10)));
  }

  /**
   * The regular expression /\d+<lit>/ finds a match in s: a non-empty run of decimal
   * digits immediately followed by lit, anywhere in s.
   */
  ghost predicate MatchesDigitsThen(s: string, lit: string) {
    exists i, j :: 0 <= i < j && j + |lit| <= |s| && AllDigits(s[i..j]) && s[j..j + |lit|] == lit
  }

  /** The scan that decides MatchesDigitsThen: some digit stands right before lit. */
  predicate DigitThen(s: string, lit: string)
    decreases |s|
  {
    if |s| < 1 + |lit| then false
    else (IsDigit(s[0]) && s[1..1 + |lit|] == lit) || DigitThen(s[1..], lit)
  }

  /** lit occurs at position k of s, right after a digit. */
  predicate DigitThenAtPos(s: string, lit: string, k: int) {
    1 <= k && k + |lit| <= |s| && IsDigit(s[k - 1]) && s[k..k + |lit|] == lit
  }

  lemma {:induction false} DigitThenAt(s: string, lit: string, k: int)
    requires DigitThenAtPos(s, lit, k)
    ensures DigitThen(s, lit)
  {
    if k > 1 {
      assert s[1..][k - 1..k - 1 + |lit|] == s[k..k + |lit|];
      DigitThenAt(s[1..], lit, k - 1);
    }
  }

  lemma {:induction false} DigitThenWitness(s: string, lit: string) returns (k: int)
    requires DigitThen(s, lit)
    ensures DigitThenAtPos(s, lit, k)
  {
    if IsDigit(s[0]) && s[1..1 + |lit|] == lit {
      k := 1;
    } else {
      var k' := DigitThenWitness(s[1..], lit);
      k := k' + 1;
      assert s[k..k + |lit|] == s[1..][k'..k' + |lit|];
    }
  }

  lemma {:induction false} DigitThenNone(s: string, lit: string)
    requires forall k :: !DigitThenAtPos(s, lit, k)
    ensures !DigitThen(s, lit)
  {
    if |s| >= 1 + |lit| {
      assert !DigitThenAtPos(s, lit, 1);
      forall k ensures !DigitThenAtPos(s[1..], lit, k) {
        if 1 <= k && k + |lit| <= |s[1..]| {
          assert s[1..][k..k + |lit|] == s[k + 1..k + 1 + |lit|];
          assert !DigitThenAtPos(s, lit, k + 1);
        }
      }
      DigitThenNone(s[1..], lit);
    }
  }

  /** The scan agrees with the regular expression, in both directions. */
  lemma DigitThenMatches(s: string, lit: string)
    ensures DigitThen(s, lit) <==> MatchesDigitsThen(s, lit)
  {
    if DigitThen(s, lit) {
      var k := DigitThenWitness(s, lit);
      assert AllDigits(s[k - 1..k]);
      assert s[k..k + |lit|] == lit;
    }
    if MatchesDigitsThen(s, lit) {
      var i, j :| 0 <= i < j && j + |lit| <= |s| && AllDigits(s[i..j]) && s[j..j + |lit|] == lit;
      assert s[j - 1] == s[i..j][j - 1 - i];
      assert DigitThenAtPos(s, lit, j);
      DigitThenAt(s, lit, j);
    }
  }

  function Times1000(x: Num): Num {
    match x
    case Finite(n) => Finite(n * 1000)
    case NaN => NaN
  }

  /** timeToMs: seconds are tried first, then milliseconds, else the format is refused. */
  function TimeToMs(time: string): (r: Result<Num, TimeError>)
    ensures r.Err? ==> r.error == UnsupportedTimeFormat(time)
  {
    if DigitThen(time, "s") then Ok(Times1000(ParseInt(time)))
    else if DigitThen(time, "ms") then Ok(ParseInt(time))
    else Err(UnsupportedTimeFormat(time))
  }

  /** A string is refused exactly when neither /\d+s/ nor /\d+ms/ finds a match in it. */
  lemma TimeToMsRefuses(time: string)
    ensures TimeToMs(time).Err? <==> !MatchesDigitsThen(time, "s") && !MatchesDigitsThen(time, "ms")
  {
    DigitThenMatches(time, "s");
    DigitThenMatches(time, "ms");
  }

  /** "<digits>s" is that many seconds, in milliseconds. */
  lemma Seconds(d: string)
    requires d != [] && AllDigits(d)
    ensures TimeToMs(d + "s") == Ok(Finite(Value(d, 10) * 1000))
  {
    var s := d + "s";
    assert s[|d| - 1] == d[|d| - 1] && s[|d|..|d| + 1] == "s";
    assert DigitThenAtPos(s, "s", |d|);
    DigitThenAt(s, "s", |d|);
    ParseIntLeadingDigits(d, "s");
  }

  /** "<digits>ms" is that many milliseconds: no digit stands right before its "s". */
  lemma Milliseconds(d: string)
    requires d != [] && AllDigits(d)
    ensures TimeToMs(d + "ms") == Ok(Finite(Value(d, 10)))
  {
    var s := d + "ms";
    forall k ensures !DigitThenAtPos(s, "s", k) {
      if 1 <= k < |s| {
        assert s[k..k + 1][0] == s[k];
        if k < |d| {
          assert s[k] == d[k] && IsDigit(s[k]);
        } else if k == |d| {
          assert s[k] == 'm';
        } else {
          assert s[k - 1] == 'm';
        }
      }
    }
    DigitThenNone(s, "s");
    assert s[|d| - 1] == d[|d| - 1] && s[|d|..|d| + 2] == "ms";
    assert DigitThenAtPos(s, "ms", |d|);
    DigitThenAt(s, "ms", |d|);
    ParseIntLeadingDigits(d, "ms");
  }

  /** The cases 5s, 250ms, and two refused strings. */
  lemma ExampleSeconds()
    ensures TimeToMs("5s") == Ok(Finite(5000))
  {
    assert "5" + "s" == "5s" && Value("5", 10) == 5;
    Seconds("5");
  }

  lemma ExampleMilliseconds()
    ensures TimeToMs("250ms") == Ok(Finite(250))
  {
    assert "250" + "ms" == "250ms";
    var d := "250";
    assert d[..2] == "25" && d[..2][..1] == "2" && d[..2][..1][..0] == "";
    assert Value("2", 10) == 2;
    assert Value("25", 10) == 25;
    assert Value(d, 10) == 250;
    Milliseconds(d);
  }

  lemma ExampleRefused()
    ensures TimeToMs("5").Err? && TimeToMs("5m").Err?
  {
    var five, fiveM := "5", "5m";
    assert !DigitThen(five, "s") && !DigitThen(five, "ms");
    assert fiveM[1..2] == "m" && fiveM[1..] == "m";
    assert !DigitThen(fiveM[1..], "s");
    assert !DigitThen(fiveM, "s") && !DigitThen(fiveM, "ms");
  }
}

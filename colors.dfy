/**
 * The ANSI colour helpers of utils/colors.js: `ansi(n)` is the SGR control sequence
 * ESC [ n m (ECMA-48 section 8.3.117), and `color(m1, ..., mk)` is the colourer that
 * writes the sequences of its modifiers, in argument order, then the text, then the
 * reset sequence ESC [ 0 m.
 */
module Colors {
  import opened Wrappers
  import opened Numerals

  const ESC: char := '\U{1b}'

  /** ansi(n): the Select Graphic Rendition sequence for parameter n. */
  function Ansi(n: nat): string {
    [ESC, '['] + ToDecimal(n) + "m"
  }

  /** The reset sequence ansi(0) that closes every coloured string. */
  const RESET: string := Ansi(0)

  /** mods.map(ansi).join(''). */
  function SgrPrefix(mods: seq<nat>): string {
    if mods == [] then "" else Ansi(mods[0]) + SgrPrefix(mods[1..])
  }

  /** The summed length of the modifiers' sequences: 3 + the digit count of each. */
  function SgrLength(mods: seq<nat>): nat {
    if mods == [] then 0 else 3 + DigitCount(mods[0]) + SgrLength(mods[1..])
  }

  /** color(...mods): the colourer for the given modifiers. */
  function Color(mods: seq<nat>): string -> string {
    txt => SgrPrefix(mods) + txt + RESET
  }

  const BRIGHT: nat := 1
  const BLACK: nat := 30
  const RED: nat := 31
  const GREEN: nat := 32
  const YELLOW: nat := 33
  const BLUE: nat := 34
  const MAGENTA: nat := 35
  const CYAN: nat := 36
  const WHITE: nat := 37

  /** red .. white: the text behind ESC [ 3 k m, k being the colour's offset from black. */
  function Red(txt: string): (s: string)
    ensures s == [ESC, '[', '3', '1', 'm'] + txt + RESET
  {
    assert DigitChar(1) == '1';
    ForegroundLayout(RED, txt);
    Color([RED])(txt)
  }

  function Green(txt: string): (s: string)
    ensures s == [ESC, '[', '3', '2', 'm'] + txt + RESET
  {
    assert DigitChar(2) == '2';
    ForegroundLayout(GREEN, txt);
    Color([GREEN])(txt)
  }

  function Yellow(txt: string): (s: string)
    ensures s == [ESC, '[', '3', '3', 'm'] + txt + RESET
  {
    assert DigitChar(3) == '3';
    ForegroundLayout(YELLOW, txt);
    Color([YELLOW])(txt)
  }

  function Blue(txt: string): (s: string)
    ensures s == [ESC, '[', '3', '4', 'm'] + txt + RESET
  {
    assert DigitChar(4) == '4';
    ForegroundLayout(BLUE, txt);
    Color([BLUE])(txt)
  }

  function Magenta(txt: string): (s: string)
    ensures s == [ESC, '[', '3', '5', 'm'] + txt + RESET
  {
    assert DigitChar(5) == '5';
    ForegroundLayout(MAGENTA, txt);
    Color([MAGENTA])(txt)
  }

  function Cyan(txt: string): (s: string)
    ensures s == [ESC, '[', '3', '6', 'm'] + txt + RESET
  {
    assert DigitChar(6) == '6';
    ForegroundLayout(CYAN, txt);
    Color([CYAN])(txt)
  }

  function White(txt: string): (s: string)
    ensures s == [ESC, '[', '3', '7', 'm'] + txt + RESET
  {
    assert DigitChar(7) == '7';
    ForegroundLayout(WHITE, txt);
    Color([WHITE])(txt)
  }

  /** grey: bright, then black. */
  function Grey(txt: string): (s: string)
    ensures s == [ESC, '[', '1', 'm'] + [ESC, '[', '3', '0', 'm'] + txt + RESET
  {
    UsedSequences();
    SgrPrefixTwo(BRIGHT, BLACK);
    Color([BRIGHT, BLACK])(txt)
  }

  /** bright: the text behind ESC [ 1 m. */
  function Bright(txt: string): (s: string)
    ensures s == [ESC, '[', '1', 'm'] + txt + RESET
  {
    assert ToDecimal(1) == ['1'];
    assert [BRIGHT][1..] == [];
    assert SgrPrefix([BRIGHT]) == Ansi(BRIGHT) + "";
    Color([BRIGHT])(txt)
  }

  /** plus, minus, invert, master and slave: bright white on the background of a colour (its code + 10). */
  function Plus(txt: string): (s: string)
    ensures s == [ESC, '[', '1', 'm'] + [ESC, '[', '3', '7', 'm'] + [ESC, '[', '4', '2', 'm'] + txt + RESET
  {
    assert DigitChar(4) == '4' && DigitChar(2) == '2';
    BrightWhiteOn(GREEN + 10, txt);
    Color([BRIGHT, WHITE, GREEN + 10])(txt)
  }

  function Minus(txt: string): (s: string)
    ensures s == [ESC, '[', '1', 'm'] + [ESC, '[', '3', '7', 'm'] + [ESC, '[', '4', '1', 'm'] + txt + RESET
  {
    assert DigitChar(4) == '4' && DigitChar(1) == '1';
    BrightWhiteOn(RED + 10, txt);
    Color([BRIGHT, WHITE, RED + 10])(txt)
  }

  function Invert(txt: string): (s: string)
    ensures s == [ESC, '[', '1', 'm'] + [ESC, '[', '3', '7', 'm'] + [ESC, '[', '4', '6', 'm'] + txt + RESET
  {
    assert DigitChar(4) == '4' && DigitChar(6) == '6';
    BrightWhiteOn(CYAN + 10, txt);
    Color([BRIGHT, WHITE, CYAN + 10])(txt)
  }

  function Master(txt: string): (s: string)
    ensures s == [ESC, '[', '1', 'm'] + [ESC, '[', '3', '7', 'm'] + [ESC, '[', '4', '6', 'm'] + txt + RESET
  {
    assert DigitChar(4) == '4' && DigitChar(6) == '6';
    BrightWhiteOn(CYAN + 10, txt);
    Color([BRIGHT, WHITE, CYAN + 10])(txt)
  }

  function Slave(txt: string): (s: string)
    ensures s == [ESC, '[', '1', 'm'] + [ESC, '[', '3', '7', 'm'] + [ESC, '[', '4', '5', 'm'] + txt + RESET
  {
    assert DigitChar(4) == '4' && DigitChar(5) == '5';
    BrightWhiteOn(MAGENTA + 10, txt);
    Color([BRIGHT, WHITE, MAGENTA + 10])(txt)
  }

  /** The decoder that partners Ansi: one SGR sequence at the front of s, and what follows it. */
  function ParseSgr(s: string): (r: Option<(nat, string)>)
    ensures r.Some? ==> |r.value.1| < |s|
  {
    if |s| < 2 || s[0] != ESC || s[1] != '[' then None
    else
      var digits := LeadingDigits(s[2..], 10);
      var after := s[2 + |digits|..];
      if digits == [] || after == [] || after[0] != 'm' then None
      else Some((Value(digits, 10), after[1..]))
  }

  /** The decoder that partners SgrPrefix: the parameters of a run of SGR sequences. */
  function ParseSgrs(s: string): seq<nat>
    decreases |s|
  {
    match ParseSgr(s)
    case None => []
    case Some((n, rest)) => [n] + ParseSgrs(rest)
  }

  /** ansi(n) is ESC, '[', the decimal digits of n, then 'm', and it can be read back. */
  lemma AnsiRoundTrip(n: nat, rest: string)
    ensures Ansi(n) == [ESC, '['] + ToDecimal(n) + ['m']
    ensures |Ansi(n)| == 3 + DigitCount(n)
    ensures ParseSgr(Ansi(n) + rest) == Some((n, rest))
  {
    ToDecimalLength(n);
    var d := ToDecimal(n);
    var s := [ESC, '['] + (d + (['m'] + rest));
    assert Ansi(n) + rest == s;
    ParseDecimal(d, n, rest);
  }

  /** ESC [ followed by n's digits, 'm' and rest is read back as n, leaving rest. */
  lemma ParseDecimal(d: string, n: nat, rest: string)
    requires d == ToDecimal(n)
    ensures ParseSgr([ESC, '['] + (d + (['m'] + rest))) == Some((n, rest))
  {
    var s := [ESC, '['] + (d + (['m'] + rest));
    assert s[2..] == d + (['m'] + rest);
    LeadingDigitsOf(d, ['m'] + rest, 10);
    assert s[2 + |d|..] == ['m'] + rest;
    ValueOfToDecimal(n);
  }

  /** The modifiers' sequences come in argument order: the prefix of a concatenation is the concatenation of prefixes. */
  lemma {:induction false} SgrPrefixAppend(a: seq<nat>, b: seq<nat>)
    ensures SgrPrefix(a + b) == SgrPrefix(a) + SgrPrefix(b)
  {
    if a != [] {
      assert (a + b)[1..] == a[1..] + b;
      SgrPrefixAppend(a[1..], b);
    } else {
      assert a + b == b;
    }
  }

  /** One SGR sequence in front of a string is read back as its parameter. */
  lemma ParseSgrsAnsi(n: nat, rest: string)
    ensures ParseSgrs(Ansi(n) + rest) == [n] + ParseSgrs(rest)
  {
    AnsiRoundTrip(n, rest);
  }

  /** The modifiers can be read back, in order, from the start of any coloured string. */
  lemma {:induction false} SgrPrefixRoundTrip(mods: seq<nat>, rest: string)
    ensures ParseSgrs(SgrPrefix(mods) + rest) == mods + ParseSgrs(rest)
  {
    if mods != [] {
      var a, p := Ansi(mods[0]), SgrPrefix(mods[1..]);
      assert SgrPrefix(mods) == a + p;
      assert (a + p) + rest == a + (p + rest);
      ParseSgrsAnsi(mods[0], p + rest);
      SgrPrefixRoundTrip(mods[1..], rest);
      assert mods == [mods[0]] + mods[1..];
    } else {
      assert SgrPrefix(mods) + rest == rest;
    }
  }

  lemma {:induction false} SgrPrefixLength(mods: seq<nat>)
    ensures |SgrPrefix(mods)| == SgrLength(mods)
  {
    if mods != [] {
      AnsiRoundTrip(mods[0], []);
      SgrPrefixLength(mods[1..]);
    }
  }

  /** The reset sequence is ESC [ 0 m, so color()(txt) is txt followed by it. */
  lemma ColorNoModifiers(txt: string)
    ensures RESET == [ESC, '[', '0', 'm']
    ensures Color([])(txt) == txt + [ESC, '[', '0', 'm']
  {
    assert ToDecimal(0) == ['0'];
  }

  /** color(m1..mk)(txt) is ansi(m1) + ... + ansi(mk) + txt + ansi(0), and no longer than that. */
  lemma ColorLayout(mods: seq<nat>, txt: string)
    ensures var out := Color(mods)(txt);
      |out| == SgrLength(mods) + |txt| + 4
      && out[..|out| - 4 - |txt|] == SgrPrefix(mods)
      && out[|out| - 4 - |txt|..|out| - 4] == txt
      && out[|out| - 4..] == RESET
  {
    SgrPrefixLength(mods);
    var p, r := SgrPrefix(mods), RESET;
    assert |r| == 4 by { assert DigitCount(0) == 1; }
    var out := Color(mods)(txt);
    assert out == p + txt + r;
    assert out[..|p|] == p && out[|p|..|p| + |txt|] == txt && out[|p| + |txt|..] == r;
  }

  /** color(m, ...rest)(txt) is ansi(m) in front of color(...rest)(txt). */
  lemma ColorCons(m: nat, rest: seq<nat>, txt: string)
    ensures Color([m] + rest)(txt) == Ansi(m) + Color(rest)(txt)
  {
    assert ([m] + rest)[1..] == rest;
  }

  /** The modifiers are recovered, in argument order, from any coloured string. */
  lemma ColorDecodes(mods: seq<nat>, txt: string)
    ensures ParseSgrs(Color(mods)(txt)) == mods + ParseSgrs(txt + RESET)
    ensures txt != [] && txt[0] != ESC ==> ParseSgrs(Color(mods)(txt)) == mods
  {
    assert Color(mods)(txt) == SgrPrefix(mods) + (txt + RESET);
    SgrPrefixRoundTrip(mods, txt + RESET);
    if txt != [] && txt[0] != ESC {
      assert (txt + RESET)[0] != ESC;
      assert ParseSgrs(txt + RESET) == [];
    }
  }

  /** The foreground codes BLACK..WHITE are the consecutive codes 30..37, and BRIGHT is 1. */
  lemma ForegroundCodes()
    ensures [BLACK, RED, GREEN, YELLOW, BLUE, MAGENTA, CYAN, WHITE] == seq(8, i => 30 + i)
    ensures BRIGHT == 1
  {
  }

  /** The SGR sequence of a two-digit code. */
  lemma AnsiTwoDigits(n: nat)
    requires 10 <= n < 100
    ensures Ansi(n) == [ESC, '[', DigitChar(n / 10), DigitChar(n % 10), 'm']
  {
    assert ToDecimal(n / 10) == [DigitChar(n / 10)];
    assert ToDecimal(n) == [DigitChar(n / 10), DigitChar(n % 10)];
  }

  /** The prefix of three modifiers is their three sequences in order. */
  lemma SgrPrefixThree(a: nat, b: nat, c: nat)
    ensures SgrPrefix([a, b, c]) == Ansi(a) + Ansi(b) + Ansi(c)
  {
    assert [a, b, c][1..] == [b, c] && [b, c][1..] == [c] && [c][1..] == [];
    assert SgrPrefix([c]) == Ansi(c) + "" == Ansi(c);
  }

  /** The prefix of two modifiers is their two sequences in order. */
  lemma SgrPrefixTwo(a: nat, b: nat)
    ensures SgrPrefix([a, b]) == Ansi(a) + Ansi(b)
  {
    assert [a, b][1..] == [b] && [b][1..] == [];
    assert SgrPrefix([b]) == Ansi(b) + "" == Ansi(b);
  }

  /** The sequences of the codes the derived colourers use. */
  lemma UsedSequences()
    ensures Ansi(BRIGHT) == [ESC, '[', '1', 'm']
    ensures Ansi(BLACK) == [ESC, '[', '3', '0', 'm']
    ensures Ansi(WHITE) == [ESC, '[', '3', '7', 'm']
    ensures Ansi(RED + 10) == [ESC, '[', '4', '1', 'm']
    ensures Ansi(GREEN + 10) == [ESC, '[', '4', '2', 'm']
    ensures Ansi(CYAN + 10) == [ESC, '[', '4', '6', 'm']
  {
    assert ToDecimal(1) == ['1'];
    assert DigitChar(3) == '3' && DigitChar(0) == '0' && DigitChar(7) == '7';
    assert DigitChar(4) == '4' && DigitChar(1) == '1' && DigitChar(2) == '2' && DigitChar(6) == '6';
    AnsiTwoDigits(30);
    AnsiTwoDigits(37);
    AnsiTwoDigits(41);
    AnsiTwoDigits(42);
    AnsiTwoDigits(46);
  }

  /** Bright white on a two-digit background code. */
  lemma BrightWhiteOn(bg: nat, txt: string)
    requires 10 <= bg < 100
    ensures Color([BRIGHT, WHITE, bg])(txt)
      == [ESC, '[', '1', 'm'] + [ESC, '[', '3', '7', 'm'] + [ESC, '[', DigitChar(bg / 10), DigitChar(bg % 10), 'm'] + txt + RESET
  {
    UsedSequences();
    AnsiTwoDigits(bg);
    SgrPrefixThree(BRIGHT, WHITE, bg);
  }

  /**
   * The single-colour colourers red .. white (codes 30 .. 37) put ESC [ 3 <k> m in front
   * of the text, k being the colour's offset from black.
   */
  lemma ForegroundLayout(code: nat, txt: string)
    requires BLACK <= code <= WHITE
    ensures Color([code])(txt) == [ESC, '[', '3', DigitChar(code - BLACK), 'm'] + txt + RESET
  {
    AnsiTwoDigits(code);
    assert DigitChar(code / 10) == '3' && code % 10 == code - BLACK;
    assert [code][1..] == [];
    assert SgrPrefix([code]) == Ansi(code) + "";
  }

  /** master is the same colourer as invert. */
  lemma MasterIsInvert(txt: string)
    ensures Master(txt) == Invert(txt)
  {
  }
}

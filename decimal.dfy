/**
 * Decimal text for the settings file: the subset of Java's Double.parseDouble
 * that plain decimal notation uses, and DecimalFormat with the pattern "0.0#"
 * (at least one integer digit, one forced fraction digit, an optional second
 * one, HALF_EVEN rounding). Values are exact reals.
 */
module Decimal {
  import opened Wrappers

  predicate IsDigit(c: char) { '0' <= c <= '9' }

  predicate AllDigits(s: string) { forall i :: 0 <= i < |s| ==> IsDigit(s[i]) }

  function DigitValue(c: char): (d: nat)
    requires IsDigit(c)
    ensures d < 10
  {
    c as int - '0' as int
  }

  function DigitChar(d: nat): (c: char)
    requires d < 10
    ensures IsDigit(c) && DigitValue(c) == d
  {
    ('0' as int + d) as char
  }

  /** The value of the fraction digits f that follow a decimal point: 0.d1d2... */
  function FractionValue(f: string): (r: real)
    requires AllDigits(f)
    ensures 0.0 <= r <= 1.0
  {
    if f == [] then 0.0 else (DigitValue(f[0]) as real + FractionValue(f[1..])) / 10.0
  }

  /** The number a run of digits denotes, most significant digit first; the empty run is 0. */
  function DigitsValue(s: string): nat
    requires AllDigits(s)
  {
    if s == [] then 0 else DigitsValue(s[..|s| - 1]) * 10 + DigitValue(s[|s| - 1])
  }

  /** The shortest decimal numeral of n (no leading zeros, "0" for zero). */
  function NatToDigits(n: nat): (s: string)
    ensures |s| > 0 && AllDigits(s)
    ensures |s| > 1 ==> s[0] != '0'
  {
    if n < 10 then [DigitChar(n)] else NatToDigits(n / 10) + [DigitChar(n % 10)]
  }

  lemma {:induction false} NatToDigitsRoundTrip(n: nat)
    ensures DigitsValue(NatToDigits(n)) == n
  {
    if n >= 10 {
      var s := NatToDigits(n / 10);
      var t := s + [DigitChar(n % 10)];
      assert t[..|t| - 1] == s;
      NatToDigitsRoundTrip(n / 10);
    }
  }

  /** Length of the longest prefix of s made of digits. */
  function DigitRunLength(s: string): (n: nat)
    ensures n <= |s| && AllDigits(s[..n])
    ensures n < |s| ==> !IsDigit(s[n])
  {
    if s == [] || !IsDigit(s[0]) then 0
    else
      var n := 1 + DigitRunLength(s[1..]);
      assert s[..n] == [s[0]] + s[1..][..n - 1];
      n
  }

  lemma {:induction false} DigitRunOfPrefix(d: string, rest: string)
    requires AllDigits(d)
    requires rest == [] || !IsDigit(rest[0])
    ensures DigitRunLength(d + rest) == |d|
  {
    if d != [] {
      assert (d + rest)[1..] == d[1..] + rest;
      DigitRunOfPrefix(d[1..], rest);
    } else {
      assert d + rest == rest;
    }
  }

  // String.trim: drops characters up to and including ' ' at both ends.

  function TrimStart(s: string): string
  {
    if s != [] && s[0] <= ' ' then TrimStart(s[1..]) else s
  }

  function TrimEnd(s: string): string
  {
    if s != [] && s[|s| - 1] <= ' ' then TrimEnd(s[..|s| - 1]) else s
  }

  function Trim(s: string): string { TrimEnd(TrimStart(s)) }

  /** An unsigned decimal: digits, or digits '.' digits, with at least one digit in all. */
  function ParseUnsigned(s: string): (r: Option<real>)
    ensures r.Some? ==> r.value >= 0.0
  {
    var n := DigitRunLength(s);
    var whole := DigitsValue(s[..n]) as real;
    if n == |s| then
      if n > 0 then Some(whole) else None
    else if s[n] == '.' && AllDigits(s[n + 1..]) && (n > 0 || n + 1 < |s|) then
      Some(whole + FractionValue(s[n + 1..]))
    else None
  }

  /** Double.parseDouble, restricted to plain decimal notation; None stands for NumberFormatException. */
  function ParseDouble(s: string): Option<real>
  {
    var t := Trim(s);
    if t != [] && (t[0] == '+' || t[0] == '-') then
      match ParseUnsigned(t[1..])
      case Some(v) => Some(if t[0] == '-' then -v else v)
      case None => None
    else ParseUnsigned(t)
  }

  /** Rounding to the nearest integer, ties to the even neighbour (RoundingMode.HALF_EVEN). */
  function RoundHalfEven(x: real): (n: int)
    ensures x - 0.5 <= n as real <= x + 0.5
    ensures (n as real == x - 0.5 || n as real == x + 0.5) ==> n % 2 == 0
    ensures x >= 0.0 ==> n >= 0
  {
    var f := x.Floor;
    var d := x - f as real;
    if d < 0.5 then f
    else if d > 0.5 then f + 1
    else if f % 2 == 0 then f else f + 1
  }

  /** The value in hundredths that "0.0#" keeps of v. */
  function Hundredths(v: real): (h: nat)
    requires v >= 0.0
  {
    RoundHalfEven(v * 100.0)
  }

  /** The value that formatting v with "0.0#" denotes. */
  function Rounded(v: real): real
    requires v >= 0.0
  {
    Hundredths(v) as real / 100.0
  }

  /** v has at most two decimals, so "0.0#" keeps it exactly. */
  predicate TwoDecimals(v: real) { (v * 100.0).Floor as real == v * 100.0 }

  /**
   * The numeral "0.0#" writes for h hundredths in a locale whose decimal
   * separator is sep: the integer part, sep, the tenths digit, and the
   * hundredths digit when it is not zero.
   */
  function Numeral(h: nat, sep: char): (r: string)
    ensures r != [] && IsDigit(r[0]) && IsDigit(r[|r| - 1])
  {
    NatToDigits(h / 100) + [sep] + FractionOf(h)
  }

  function FractionOf(h: nat): (f: string)
    ensures 1 <= |f| <= 2 && AllDigits(f)
  {
    FractionDigitsOf(h % 100 / 10, h % 10)
  }

  function FractionDigitsOf(tenths: nat, hundredths: nat): (f: string)
    requires tenths < 10 && hundredths < 10
    ensures 1 <= |f| <= 2 && AllDigits(f)
  {
    [DigitChar(tenths)] + (if hundredths == 0 then [] else [DigitChar(hundredths)])
  }

  /** DecimalFormat("0.0#") in a locale whose decimal separator is sep. */
  function FormatIn(v: real, sep: char): (r: string)
    requires v >= 0.0
    ensures r != [] && IsDigit(r[0])
  {
    Numeral(Hundredths(v), sep)
  }

  /** "0.0#" with '.' as the decimal separator, which is what Double.parseDouble reads. */
  function Format(v: real): string
    requires v >= 0.0
  {
    FormatIn(v, '.')
  }

  lemma RoundedOfTwoDecimals(v: real)
    requires v >= 0.0 && TwoDecimals(v)
    ensures Rounded(v) == v
  {
  }

  lemma RoundedIsTwoDecimals(v: real)
    requires v >= 0.0
    ensures Rounded(v) >= 0.0 && TwoDecimals(Rounded(v)) && Rounded(Rounded(v)) == Rounded(v)
  {
    var h := Hundredths(v);
    var r := Rounded(v);
    assert r * 100.0 == h as real;
    assert (h as real).Floor == h;
    assert RoundHalfEven(h as real) == h;
  }

  /** Formatting a value already rounded to hundredths writes the same text. */
  lemma FormatRounded(v: real, sep: char)
    requires v >= 0.0
    ensures FormatIn(Rounded(v), sep) == FormatIn(v, sep)
  {
    RoundedIsTwoDecimals(v);
    assert Hundredths(Rounded(v)) as real / 100.0 == Hundredths(v) as real / 100.0;
  }

  /** A value never drifts out of a whole-number range by being rounded to hundredths. */
  lemma RoundedInRange(v: real, lo: int, hi: int)
    requires 0 <= lo <= hi && lo as real <= v <= hi as real
    ensures lo as real <= Rounded(v) <= hi as real
  {
    var h := Hundredths(v);
    assert 100 * lo <= h <= 100 * hi;
  }

  lemma TrimKeeps(s: string)
    requires s != [] && s[0] > ' ' && s[|s| - 1] > ' '
    ensures Trim(s) == s
  {
    assert TrimStart(s) == s;
  }

  /** Splitting s = whole + rest where the digits stop at the start of rest. */
  lemma DigitRunSplit(whole: string, rest: string)
    requires whole != [] && AllDigits(whole) && rest != [] && !IsDigit(rest[0])
    ensures var s := whole + rest; var n := DigitRunLength(s);
      n == |whole| && n < |s| && s[..n] == whole && s[n] == rest[0] && s[n + 1..] == rest[1..]
  {
    DigitRunOfPrefix(whole, rest);
    var s := whole + rest;
    assert s[..|whole|] == whole;
    assert s[|whole| + 1..] == rest[1..];
  }

  /** ParseUnsigned on a digit run whole followed by '.' and the fraction digits frac. */
  lemma ParseUnsignedPoint(s: string, whole: string, frac: string)
    requires AllDigits(frac) && frac != []
    requires |whole| == DigitRunLength(s) && |whole| + 1 < |s| && s[|whole|] == '.'
    requires s[..|whole|] == whole && s[|whole| + 1..] == frac
    ensures ParseUnsigned(s) == Some(DigitsValue(whole) as real + FractionValue(frac))
  {
  }

  /** Text that starts with a digit and ends in a printable character is parsed as it stands. */
  lemma ParseDoubleUnsigned(s: string)
    requires s != [] && IsDigit(s[0]) && s[|s| - 1] > ' '
    ensures ParseDouble(s) == ParseUnsigned(s)
  {
    TrimKeeps(s);
  }

  /** In "whole.frac" the digit run is whole, and the point is followed by frac. */
  lemma DecimalShape(whole: string, frac: string)
    requires whole != [] && AllDigits(whole) && frac != []
    ensures var s := whole + ['.'] + frac; var n := |whole|;
      n == DigitRunLength(s) && n + 1 < |s| && s[n] == '.' && s[..n] == whole && s[n + 1..] == frac
  {
    var rest := ['.'] + frac;
    assert whole + ['.'] + frac == whole + rest && rest[1..] == frac;
    DigitRunSplit(whole, rest);
  }

  lemma DecimalUnsigned(whole: string, frac: string)
    requires whole != [] && AllDigits(whole) && frac != [] && AllDigits(frac)
    ensures ParseUnsigned(whole + ['.'] + frac) == Some(DigitsValue(whole) as real + FractionValue(frac))
  {
    DecimalShape(whole, frac);
    ParseUnsignedPoint(whole + ['.'] + frac, whole, frac);
  }

  lemma DecimalEnds(whole: string, frac: string)
    requires whole != [] && AllDigits(whole) && frac != [] && AllDigits(frac)
    ensures var s := whole + ['.'] + frac; IsDigit(s[0]) && s[|s| - 1] > ' '
  {
    var s := whole + ['.'] + frac;
    assert s[0] == whole[0] && s[|s| - 1] == frac[|frac| - 1];
  }

  /** A plain decimal "whole.frac" reads as whole + 0.frac. */
  lemma ParseDecimal(whole: string, frac: string)
    requires whole != [] && AllDigits(whole) && frac != [] && AllDigits(frac)
    ensures ParseDouble(whole + ['.'] + frac)
         == Some(DigitsValue(whole) as real + FractionValue(frac))
  {
    DecimalEnds(whole, frac);
    ParseDoubleUnsigned(whole + ['.'] + frac);
    DecimalUnsigned(whole, frac);
  }

  /** "whole" followed by a separator other than '.' is not a Java double literal. */
  lemma ParseRejectsSeparator(whole: string, sep: char, frac: string)
    requires whole != [] && AllDigits(whole) && sep != '.' && !IsDigit(sep)
    requires frac != [] && frac[|frac| - 1] > ' '
    ensures ParseDouble(whole + [sep] + frac) == None
  {
    var rest := [sep] + frac;
    var s := whole + rest;
    assert whole + [sep] + frac == s;
    assert Trim(s) == s by {
      TrimKeeps(s);
    }
    assert ParseDouble(s) == ParseUnsigned(s);
    DigitRunSplit(whole, rest);
  }

  lemma FractionDigitsValue(d1: nat, d2: nat)
    requires d1 < 10 && d2 < 10
    ensures FractionValue(FractionDigitsOf(d1, d2)) == (10 * d1 + d2) as real / 100.0
  {
    var frac := FractionDigitsOf(d1, d2);
    if d2 == 0 {
      assert frac[1..] == [];
    } else {
      var tail := frac[1..];
      assert tail == [DigitChar(d2)] && tail[1..] == [];
      assert FractionValue(tail) == d2 as real / 10.0;
    }
  }

  lemma HundredthsDigits(h: nat)
    ensures h == 100 * (h / 100) + 10 * (h % 100 / 10) + h % 10
  {
    var q, r := h / 100, h % 100;
    var t, u := r / 10, r % 10;
    assert h == 100 * q + r && 0 <= r < 100;
    assert r == 10 * t + u && 0 <= u < 10;
    var w := 10 * q + t;
    assert h == 10 * w + u;
    ModOfMultiple(h, w, u);
  }

  /** h % 10 is the u of any decomposition h == 10 * w + u with 0 <= u < 10. */
  lemma ModOfMultiple(h: nat, w: int, u: int)
    requires h == 10 * w + u && 0 <= u < 10
    ensures h % 10 == u
  {
  }

  /** The fraction digits "0.0#" writes for h hundredths denote h % 100 hundredths. */
  lemma FractionDigits(h: nat)
    ensures FractionValue(FractionOf(h)) == (h - 100 * (h / 100)) as real / 100.0
  {
    HundredthsDigits(h);
    FractionDigitsValue(h % 100 / 10, h % 10);
  }

  lemma ParseNumeral(h: nat)
    ensures ParseDouble(Numeral(h, '.')) == Some(h as real / 100.0)
  {
    ParseDecimal(NatToDigits(h / 100), FractionOf(h));
    FractionDigits(h);
    NatToDigitsRoundTrip(h / 100);
  }

  /** Reading back what "0.0#" wrote gives the value rounded to hundredths. */
  lemma ParseFormat(v: real)
    requires v >= 0.0
    ensures ParseDouble(Format(v)) == Some(Rounded(v))
  {
    var h := Hundredths(v);
    assert Format(v) == Numeral(h, '.');
    assert Rounded(v) == h as real / 100.0;
    ParseNumeral(h);
  }

  /** A numeral written with any separator other than '.' is not a Java double literal. */
  lemma ParseNumeralRejects(h: nat, sep: char)
    requires sep != '.' && !IsDigit(sep)
    ensures ParseDouble(Numeral(h, sep)) == None
  {
    ParseRejectsSeparator(NatToDigits(h / 100), sep, FractionOf(h));
  }

  lemma ParseFormatInRejects(v: real, sep: char)
    requires v >= 0.0 && sep != '.' && !IsDigit(sep)
    ensures ParseDouble(FormatIn(v, sep)) == None
  {
    ParseNumeralRejects(Hundredths(v), sep);
  }

  /** Three readings: "0.5" and "15.0" are numbers, "abc" is not. */
  lemma ParseExamples()
    ensures ParseDouble("0.5") == Some(0.5)
    ensures ParseDouble("15.0") == Some(15.0)
    ensures ParseDouble("abc") == None
  {
    ParseHalf();
    ParseFifteen();
    assert TrimStart("abc") == "abc" && TrimEnd("abc") == "abc";
  }

  lemma ParseHalf()
    ensures ParseDouble("0.5") == Some(0.5)
  {
    ParseDecimal("0", "5");
    assert "0" + ['.'] + "5" == "0.5";
    assert DigitsValue("0") == 0 by {
      assert "0"[..0] == [];
    }
    assert FractionValue("5") == 0.5 by {
      assert "5"[1..] == [];
    }
  }

  lemma ParseFifteen()
    ensures ParseDouble("15.0") == Some(15.0)
  {
    ParseDecimal("15", "0");
    assert "15" + ['.'] + "0" == "15.0";
    assert DigitsValue("15") == 15 by {
      assert "15"[..1] == "1" && "1"[..0] == [];
    }
    assert FractionValue("0") == 0.0 by {
      assert "0"[1..] == [];
    }
  }
}

/** Numbers as `strtod` reads them in the C locale behind a digit or a point: decimal or
    hexadecimal digits, a point, an exponent. (Infinities and NaNs start with a letter.) */
module Numerals {
  import opened Basics

  predicate IsDigit(c: char) { '0' <= c <= '9' }

  predicate IsAlpha(c: char) { 'a' <= c <= 'z' || 'A' <= c <= 'Z' }

  predicate AllDigits(s: string) { forall i :: 0 <= i < |s| ==> IsDigit(s[i]) }

  function DigitValue(c: char): nat
    requires IsDigit(c)
  {
    c as int - '0' as int
  }

  function DigitChar(d: nat): (c: char)
    requires d < 10
    ensures IsDigit(c) && DigitValue(c) == d
  {
    ('0' as int + d) as char
  }

  /** A digit of the base: sixteen or ten. */
  predicate DigitOf(hex: bool, c: char) { IsDigit(c) || (hex && ('a' <= c <= 'f' || 'A' <= c <= 'F')) }

  predicate AllOf(hex: bool, s: string) { forall i :: 0 <= i < |s| ==> DigitOf(hex, s[i]) }

  predicate IsMark(hex: bool, c: char) { if hex then c == 'p' || c == 'P' else c == 'e' || c == 'E' }

  predicate IsSign(c: char) { c == '+' || c == '-' }

  // ---------------------------------------------------------------- what a numeral means

  /** `prefix` is empty or announces base sixteen; `exponent` is the whole exponent part with
      its letter, or empty. */
  datatype Numeral = Numeral(prefix: string, whole: string, fraction: Option<string>, exponent: string) {
    predicate Hex() { prefix != "" }
  }

  predicate ValidMantissa(hex: bool, whole: string, fraction: Option<string>) {
    && AllOf(hex, whole) && (fraction.Some? ==> AllOf(hex, fraction.value))
    && (whole != "" || (fraction.Some? && fraction.value != ""))
  }

  predicate ValidExponent(hex: bool, e: string) {
    e == "" ||
    (|e| >= 2 && IsMark(hex, e[0]) &&
     (AllDigits(e[1..]) || (|e| >= 3 && IsSign(e[1]) && AllDigits(e[2..]))))
  }

  predicate ValidNumeral(n: Numeral) {
    && (n.prefix == "" || n.prefix == "0x" || n.prefix == "0X")
    && ValidMantissa(n.Hex(), n.whole, n.fraction) && ValidExponent(n.Hex(), n.exponent)
  }

  function FractionText(f: Option<string>): string { if f.Some? then "." + f.value else "" }

  function NumeralText(n: Numeral): string { n.prefix + (n.whole + (FractionText(n.fraction) + n.exponent)) }

  /** The number a run of digits denotes. */
  function Natural(s: string): nat
    requires AllDigits(s)
  {
    if s == "" then 0 else 10 * Natural(s[..|s| - 1]) + DigitValue(s[|s| - 1])
  }

  function HexNatural(s: string): nat
    requires AllOf(true, s)
  {
    if s == "" then 0
    else
      var c := s[|s| - 1];
      16 * HexNatural(s[..|s| - 1]) +
      if IsDigit(c) then DigitValue(c) else if c >= 'a' then c as int - 'a' as int + 10 else c as int - 'A' as int + 10
  }

  function Power(base: nat, k: nat): (p: nat)
    requires base > 0
    ensures p > 0
  {
    if k == 0 then 1 else base * Power(base, k - 1)
  }

  function Pow10(k: nat): (p: nat)
    ensures p > 0
  {
    if k == 0 then 1 else 10 * Pow10(k - 1)
  }

  /** The value of the digits after a decimal point. */
  function Fraction(s: string): real
    requires AllDigits(s)
  {
    Natural(s) as real / Pow10(|s|) as real
  }

  /** What an exponent part multiplies by: a power of ten, or of two in base sixteen. */
  function Scale(hex: bool, e: string): real
    requires ValidExponent(hex, e)
  {
    if e == "" then 1.0
    else
      var base := if hex then 2 else 10;
      if e[1] == '-' then 1.0 / Power(base, Natural(e[2..])) as real
      else Power(base, Natural(if e[1] == '+' then e[2..] else e[1..])) as real
  }

  function MantissaValue(hex: bool, whole: string, fraction: Option<string>): real
    requires ValidMantissa(hex, whole, fraction)
  {
    if hex then
      HexNatural(whole) as real +
      (if fraction.Some? then HexNatural(fraction.value) as real / Power(16, |fraction.value|) as real else 0.0)
    else
      TenDigits(whole, fraction);
      Natural(whole) as real + (if fraction.Some? then Fraction(fraction.value) else 0.0)
  }

  lemma TenDigits(whole: string, fraction: Option<string>)
    requires ValidMantissa(false, whole, fraction)
    ensures AllDigits(whole) && (fraction.Some? ==> AllDigits(fraction.value))
  {
  }

  function NumeralValue(n: Numeral): real
    requires ValidNumeral(n)
  {
    MantissaValue(n.Hex(), n.whole, n.fraction) * Scale(n.Hex(), n.exponent)
  }

  // ---------------------------------------------------------------- reading one

  /** The longest run of digits `s` starts with. */
  function Run(hex: bool, s: string): (d: string)
    ensures d <= s && AllOf(hex, d)
    ensures |d| < |s| ==> !DigitOf(hex, s[|d|])
  {
    if s != "" && DigitOf(hex, s[0]) then [s[0]] + Run(hex, s[1..]) else ""
  }

  lemma Dropped(a: string, b: string)
    ensures (a + b)[|a|..] == b && (a + b)[..|a|] == a && a <= a + b
  {
    assert (a + b)[..|a|] == a;
  }

  lemma Regroup(a: string, b: string, c: string)
    ensures a + (b + c) == (a + b) + c
  {
  }

  function ReadFraction(hex: bool, t: string): (f: Option<string>)
    ensures f.Some? ==> AllOf(hex, f.value)
    ensures FractionText(f) <= t
  {
    if t != "" && t[0] == '.' then
      var f := Run(hex, t[1..]);
      assert t == "." + t[1..];
      Some(f)
    else None
  }

  function ReadMantissa(hex: bool, s: string): (m: Option<(string, Option<string>)>)
    ensures m.Some? ==> ValidMantissa(hex, m.value.0, m.value.1) && m.value.0 + FractionText(m.value.1) <= s
  {
    var whole := Run(hex, s);
    var fraction := ReadFraction(hex, s[|whole|..]);
    if whole == "" && (fraction.None? || fraction.value == "") then None
    else
      MantissaFits(s, whole, FractionText(fraction));
      Some((whole, fraction))
  }

  lemma MantissaFits(s: string, whole: string, text: string)
    requires whole <= s && text <= s[|whole|..]
    ensures whole + text <= s
  {
    assert s == whole + s[|whole|..];
  }

  /** The exponent part, if the letter is followed by a number. */
  function ReadExponent(hex: bool, s: string): (e: string)
    ensures e <= s && ValidExponent(hex, e)
  {
    if s == "" || !IsMark(hex, s[0]) then ""
    else
      var k := if |s| >= 2 && IsSign(s[1]) then 2 else 1;
      var d := Run(false, s[k..]);
      if d == "" then ""
      else
        var e := s[..k + |d|];
        assert e[k..] == d;
        e
  }

  /** The announcement of base sixteen counts only before a hexadecimal number. */
  function ReadPrefix(s: string): (p: string)
    ensures p <= s && (p == "" || p == "0x" || p == "0X")
  {
    if |s| >= 2 && s[0] == '0' && (s[1] == 'x' || s[1] == 'X') && ReadMantissa(true, s[2..]).Some? then
      assert s[..2] == ['0', s[1]];
      s[..2]
    else ""
  }

  function ReadAfter(prefix: string, t: string): Option<Numeral> {
    match ReadMantissa(prefix != "", t)
    case None => None
    case Some((whole, fraction)) =>
      Some(Numeral(prefix, whole, fraction, ReadExponent(prefix != "", t[|whole + FractionText(fraction)|..])))
  }

  /** The numeral `strtod` consumes; None when it consumes nothing. */
  function ReadNumeral(s: string): Option<Numeral> { ReadAfter(ReadPrefix(s), s[|ReadPrefix(s)|..]) }

  lemma AfterFits(prefix: string, t: string)
    requires ReadAfter(prefix, t).Some?
    ensures var n := ReadAfter(prefix, t).value;
            && n.prefix == prefix && ValidMantissa(n.Hex(), n.whole, n.fraction) && ValidExponent(n.Hex(), n.exponent)
            && n.whole + (FractionText(n.fraction) + n.exponent) <= t
  {
    var n := ReadAfter(prefix, t).value;
    var m := n.whole + FractionText(n.fraction);
    MantissaFits(t, m, n.exponent);
    Regroup(n.whole, FractionText(n.fraction), n.exponent);
  }

  /** What is read is a numeral, and stands at the start of the text. */
  lemma NumeralFits(s: string)
    requires ReadNumeral(s).Some?
    ensures ValidNumeral(ReadNumeral(s).value) && NumeralText(ReadNumeral(s).value) <= s
  {
    var prefix := ReadPrefix(s);
    AfterFits(prefix, s[|prefix|..]);
    var n := ReadNumeral(s).value;
    MantissaFits(s, prefix, n.whole + (FractionText(n.fraction) + n.exponent));
  }

  lemma NumeralStarts(n: Numeral)
    requires ValidNumeral(n)
    ensures NumeralText(n) != "" && (IsDigit(NumeralText(n)[0]) || NumeralText(n)[0] == '.')
  {
    if n.prefix == "" && n.whole == "" { assert NumeralText(n)[0] == '.'; }
    if n.prefix == "" && n.whole != "" { assert NumeralText(n)[0] == n.whole[0]; }
    if n.prefix != "" { assert NumeralText(n)[0] == n.prefix[0]; }
  }

  /** Only a digit or a point can start one. */
  lemma NumeralFirst(s: string)
    requires s != ""
    ensures ReadNumeral(s).Some? ==> IsDigit(s[0]) || s[0] == '.'
  {
    if ReadNumeral(s).Some? {
      NumeralFits(s);
      NumeralStarts(ReadNumeral(s).value);
    }
  }

  // ---------------------------------------------------------------- where a numeral ends

  lemma {:induction false} RunStop(hex: bool, d: string, rest: string)
    requires AllOf(hex, d) && (rest == "" || !DigitOf(hex, rest[0]))
    ensures Run(hex, d + rest) == d
    decreases |d|
  {
    if d == "" {
      assert d + rest == rest;
    } else {
      assert (d + rest)[1..] == d[1..] + rest;
      RunStop(hex, d[1..], rest);
    }
  }

  lemma FractionStop(hex: bool, f: Option<string>, tail: string)
    requires f.Some? ==> AllOf(hex, f.value)
    requires tail == "" || (!DigitOf(hex, tail[0]) && tail[0] != '.')
    ensures ReadFraction(hex, FractionText(f) + tail) == f
  {
    if f.Some? {
      var t := FractionText(f) + tail;
      assert t[0] == '.' && t[1..] == f.value + tail;
      RunStop(hex, f.value, tail);
    } else {
      assert FractionText(f) + tail == tail;
    }
  }

  lemma MantissaStop(hex: bool, whole: string, fraction: Option<string>, tail: string)
    requires ValidMantissa(hex, whole, fraction)
    requires tail == "" || (!DigitOf(hex, tail[0]) && tail[0] != '.')
    ensures ReadMantissa(hex, whole + (FractionText(fraction) + tail)) == Some((whole, fraction))
  {
    var rest := FractionText(fraction) + tail;
    FractionStop(hex, fraction, tail);
    FractionStarts(hex, fraction, tail);
    RunStop(hex, whole, rest);
    Dropped(whole, rest);
  }

  lemma FractionStarts(hex: bool, f: Option<string>, tail: string)
    requires tail == "" || !DigitOf(hex, tail[0])
    ensures var rest := FractionText(f) + tail; rest == "" || !DigitOf(hex, rest[0])
  {
  }

  lemma ExponentStop(hex: bool, e: string, tail: string)
    requires ValidExponent(hex, e) && (tail == "" || (!IsDigit(tail[0]) && !IsMark(hex, tail[0])))
    ensures ReadExponent(hex, e + tail) == e
  {
    if e == "" {
      assert e + tail == tail;
    } else {
      var k := if IsSign(e[1]) then 2 else 1;
      Dropped(e[..k], e[k..] + tail);
      assert e + tail == e[..k] + (e[k..] + tail);
      RunStop(false, e[k..], tail);
      Dropped(e, tail);
    }
  }

  /** No text that starts so goes on with a numeral. */
  predicate Ends(tail: string) {
    tail == "" ||
    (!DigitOf(true, tail[0]) && tail[0] != '.' && tail[0] != 'p' && tail[0] != 'P' && tail[0] != 'x' && tail[0] != 'X')
  }

  /** The text behind the prefix, and what follows it. */
  function Body(n: Numeral, tail: string): string { n.whole + (FractionText(n.fraction) + (n.exponent + tail)) }

  lemma RestStarts(n: Numeral, tail: string)
    requires ValidNumeral(n) && Ends(tail)
    ensures var rest := n.exponent + tail; rest == "" || (!DigitOf(n.Hex(), rest[0]) && rest[0] != '.')
    ensures tail == "" || (!IsDigit(tail[0]) && !IsMark(n.Hex(), tail[0]))
  {
    assert n.exponent != "" ==> (n.exponent + tail)[0] == n.exponent[0];
  }

  lemma BehindMantissa(n: Numeral, tail: string)
    ensures Body(n, tail)[|n.whole + FractionText(n.fraction)|..] == n.exponent + tail
  {
    Regroup(n.whole, FractionText(n.fraction), n.exponent + tail);
    Dropped(n.whole + FractionText(n.fraction), n.exponent + tail);
  }

  lemma BodyMantissa(n: Numeral, tail: string)
    requires ValidNumeral(n) && Ends(tail)
    ensures ReadMantissa(n.Hex(), Body(n, tail)) == Some((n.whole, n.fraction))
  {
    RestStarts(n, tail);
    MantissaStop(n.Hex(), n.whole, n.fraction, n.exponent + tail);
  }

  lemma AfterStop(n: Numeral, tail: string)
    requires ValidNumeral(n) && Ends(tail)
    ensures ReadAfter(n.prefix, Body(n, tail)) == Some(n)
  {
    BodyMantissa(n, tail);
    RestStarts(n, tail);
    ExponentStop(n.Hex(), n.exponent, tail);
    BehindMantissa(n, tail);
  }

  /** A decimal numeral is not taken for a hexadecimal one. */
  lemma NoPrefix(n: Numeral, tail: string)
    requires ValidNumeral(n) && !n.Hex() && Ends(tail)
    ensures ReadPrefix(Body(n, tail)) == ""
  {
    var rest := FractionText(n.fraction) + (n.exponent + tail);
    var s := Body(n, tail);
    if |n.whole| >= 2 {
      assert s[1] == n.whole[1];
    } else if |n.whole| == 1 && |s| >= 2 {
      assert s[1] == rest[0];
      NoCross(n, tail);
    }
  }

  lemma NoCross(n: Numeral, tail: string)
    requires ValidNumeral(n) && !n.Hex() && Ends(tail)
    ensures var rest := FractionText(n.fraction) + (n.exponent + tail); rest != "" ==> rest[0] != 'x' && rest[0] != 'X'
  {
  }

  lemma HasPrefix(prefix: string, body: string)
    requires (prefix == "0x" || prefix == "0X") && ReadMantissa(true, body).Some?
    ensures ReadPrefix(prefix + body) == prefix
  {
    Dropped(prefix, body);
    assert (prefix + body)[..2] == prefix;
  }

  /** A numeral is read back whole before any text that does not go on with it. */
  lemma NumeralStop(n: Numeral, tail: string)
    requires ValidNumeral(n) && Ends(tail)
    ensures ReadNumeral(NumeralText(n) + tail) == Some(n)
  {
    var body := Body(n, tail);
    AfterStop(n, tail);
    BodyMantissa(n, tail);
    if n.Hex() { HasPrefix(n.prefix, body); } else { NoPrefix(n, tail); }
    TextThenTail(n, tail);
    assert n.prefix == "" ==> n.prefix + body == body;
    Dropped(n.prefix, body);
  }

  lemma TextThenTail(n: Numeral, tail: string)
    ensures NumeralText(n) + tail == n.prefix + Body(n, tail)
  {
    var f, e := FractionText(n.fraction), n.exponent;
    assert n.prefix + (n.whole + (f + e)) + tail == n.prefix + (n.whole + (f + (e + tail)));
  }

  // ---------------------------------------------------------------- digits and exponents

  /** A value below sixteen as a hexadecimal digit in either case. */
  function HexChar(d: nat, large: bool): char
    requires d < 16
  {
    if d < 10 then ('0' as int + d) as char else ((if large then 'A' as int else 'a' as int) + (d - 10)) as char
  }

  function HexText(n: nat, large: bool): (s: string)
    ensures AllOf(true, s) && s != ""
  {
    if n < 16 then [HexChar(n, large)] else HexText(n / 16, large) + [HexChar(n % 16, large)]
  }

  /** Hexadecimal digits denote the number they are written for. */
  lemma {:induction false} HexDenotes(n: nat, large: bool)
    ensures HexNatural(HexText(n, large)) == n
  {
    var s := HexText(n, large);
    if n >= 16 {
      HexDenotes(n / 16, large);
      assert s[..|s| - 1] == HexText(n / 16, large);
    } else {
      assert s[..0] == "";
    }
  }

  /** The exponent part behind a mantissa of this base. */
  predicate ExponentParts(hex: bool, mark: char, sign: string, digits: string) {
    && (if hex then mark == 'p' || mark == 'P' else mark == 'e' || mark == 'E')
    && digits != "" && AllDigits(digits) && (sign == "" || sign == "+" || sign == "-")
  }

  /** An exponent multiplies by a power of ten behind decimal digits and of two behind hexadecimal
      ones, or divides by it. */
  lemma ScaleMeans(hex: bool, mark: char, sign: string, digits: string)
    requires ExponentParts(hex, mark, sign, digits)
    ensures var e := [mark] + sign + digits;
            var factor := Power(if hex then 2 else 10, Natural(digits)) as real;
            ValidExponent(hex, e) && Scale(hex, e) == if sign == "-" then 1.0 / factor else factor
  {
    var e := [mark] + sign + digits;
    if sign == "" {
      assert e[1..] == digits && e[1] == digits[0];
    } else {
      assert e[1] == sign[0] && e[2..] == digits;
    }
  }

  /** The digits of a base as one number. */
  function DigitsOf(hex: bool, s: string): nat
    requires AllOf(hex, s)
  {
    if hex then HexNatural(s)
    else
      TenDigits("0", Some(s));
      Natural(s)
  }

  lemma {:induction false} DigitsConcat(hex: bool, a: string, b: string)
    requires AllOf(hex, a) && AllOf(hex, b)
    ensures AllOf(hex, a + b) && DigitsOf(hex, a + b) == DigitsOf(hex, a) * Power(if hex then 16 else 10, |b|) + DigitsOf(hex, b)
    decreases |b|
  {
    var base := if hex then 16 else 10;
    if b == "" {
      assert a + b == a;
    } else {
      var init := b[..|b| - 1];
      assert (a + b)[..|a + b| - 1] == a + init;
      DigitsConcat(hex, a, init);
      Longer(DigitsOf(hex, a), Power(base, |init|), base);
    }
  }

  lemma Longer(x: nat, p: nat, base: nat)
    ensures base * (x * p) == x * (base * p)
  {
  }

  lemma {:induction false} TensAgree(k: nat)
    ensures Power(10, k) == Pow10(k)
  {
    if k > 0 { TensAgree(k - 1); }
  }

  lemma WholeAndPoint(hex: bool, whole: string, f: string)
    requires ValidMantissa(hex, whole, Some(f)) && AllOf(hex, whole) && AllOf(hex, f)
    ensures MantissaValue(hex, whole, Some(f)) ==
            DigitsOf(hex, whole) as real + DigitsOf(hex, f) as real / Power(if hex then 16 else 10, |f|) as real
  {
    if !hex { TensAgree(|f|); }
  }

  /** A point before the last `k` digits divides the number they all form by the base to the power
      of `k`. */
  lemma PointMeans(hex: bool, whole: string, f: string)
    requires ValidMantissa(hex, whole, Some(f))
    ensures AllOf(hex, whole + f)
    ensures MantissaValue(hex, whole, Some(f)) == DigitsOf(hex, whole + f) as real / Power(if hex then 16 else 10, |f|) as real
  {
    DigitsConcat(hex, whole, f);
    WholeAndPoint(hex, whole, f);
    OverPower(MantissaValue(hex, whole, Some(f)), DigitsOf(hex, whole + f), DigitsOf(hex, whole), DigitsOf(hex, f),
              Power(if hex then 16 else 10, |f|));
  }

  lemma OverPower(value: real, all: nat, a: nat, b: nat, p: nat)
    requires p > 0 && value == a as real + b as real / p as real && all == a * p + b
    ensures value == all as real / p as real
  {
    assert (a * p) as real == a as real * p as real;
  }
}

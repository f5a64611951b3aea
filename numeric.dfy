/**
 * The number <-> text conversions the ledger relies on, over exact reals:
 * JavaScript's parseFloat (NaN is None), Number.prototype.toFixed(2), and the
 * text of Python's Decimal.quantize(Decimal('1.00')).
 */
module Numeric {
  import opened Wrappers

  predicate IsDigit(c: char) { '0' <= c <= '9' }

  predicate AllDigits(s: string) { forall i :: 0 <= i < |s| ==> IsDigit(s[i]) }

  function DigitValue(c: char): nat
    requires IsDigit(c)
  {
    c as int - '0' as int
  }

  function DigitChar(d: nat): (c: char)
    requires d < 10
    ensures IsDigit(c) && DigitValue(c) == d
  {
    (('0' as int) + d) as char
  }

  function Abs(x: real): real { if x < 0.0 then -x else x }

  /** The number a string of decimal digits denotes, most significant digit first. */
  function DigitsValue(s: string): nat
    requires AllDigits(s)
  {
    if s == [] then 0 else DigitsValue(s[..|s| - 1]) * 10 + DigitValue(s[|s| - 1])
  }

  /** The decimal representation of n, without leading zeros. */
  function NatDigits(n: nat): (s: string)
    ensures 1 <= |s| && AllDigits(s)
  {
    if n < 10 then [DigitChar(n)] else NatDigits(n / 10) + [DigitChar(n % 10)]
  }

  lemma {:induction false} NatDigitsValue(n: nat)
    ensures DigitsValue(NatDigits(n)) == n
  {
    if n >= 10 {
      NatDigitsValue(n / 10);
      var s := NatDigits(n);
      assert s[..|s| - 1] == NatDigits(n / 10);
    }
  }

  function Pow10(k: nat): (p: nat)
    ensures p >= 1
  {
    if k == 0 then 1 else 10 * Pow10(k - 1)
  }

  /** The length of the longest prefix of s made of decimal digits. */
  function DigitRun(s: string): (n: nat)
    ensures n <= |s| && AllDigits(s[..n])
    ensures n < |s| ==> !IsDigit(s[n])
  {
    if s != [] && IsDigit(s[0]) then
      var m := DigitRun(s[1..]);
      assert s[..1 + m] == [s[0]] + s[1..][..m];
      1 + m
    else 0
  }

  lemma {:induction false} DigitRunOfDigitsThen(d: string, rest: string)
    requires AllDigits(d)
    requires rest == [] || !IsDigit(rest[0])
    ensures DigitRun(d + rest) == |d|
  {
    if d != [] {
      assert (d + rest)[1..] == d[1..] + rest;
      DigitRunOfDigitsThen(d[1..], rest);
    }
  }

  /**
   * JavaScript's WhiteSpace and LineTerminator code points (sections 12.2 and
   * 12.3 of ECMA-262), which parseFloat skips at the start of its argument.
   */
  predicate IsJsSpace(c: char)
  {
    || c == '\t' || c == '\U{000B}' || c == '\U{000C}' || c == ' ' || c == '\U{00A0}'
    || c == '\U{FEFF}' || c == '\U{1680}' || ('\U{2000}' <= c <= '\U{200A}')
    || c == '\U{202F}' || c == '\U{205F}' || c == '\U{3000}'
    || c == '\n' || c == '\r' || c == '\U{2028}' || c == '\U{2029}'
  }

  /** s without its leading JavaScript white space. */
  function TrimStart(s: string): (t: string)
    ensures |t| <= |s| && t == s[|s| - |t|..]
    ensures t == [] || !IsJsSpace(t[0])
  {
    if s != [] && IsJsSpace(s[0]) then TrimStart(s[1..]) else s
  }

  /** m * 10^k, by steps of one decimal place. */
  function Shift(m: real, k: int): real
    decreases if k < 0 then -k else k
  {
    if k == 0 then m else if k > 0 then Shift(m * 10.0, k - 1) else Shift(m / 10.0, k + 1)
  }

  /** The power of ten an exponent part "e[+|-]digits" at the head of s denotes; 0 when there is none. */
  function Exponent(s: string): int
  {
    if |s| >= 2 && (s[0] == 'e' || s[0] == 'E') then
      var digits := if s[1] == '+' || s[1] == '-' then s[2..] else s[1..];
      var k := DigitRun(digits);
      if k == 0 then 0
      else if s[1] == '-' then -(DigitsValue(digits[..k]) as int)
      else DigitsValue(digits[..k])
    else 0
  }

  /**
   * The value of the longest prefix of s that is an unsigned decimal literal
   * (digits, an optional point and fraction digits, at least one digit in all,
   * and an optional exponent); None when s has no such prefix.
   */
  function ParseUnsigned(s: string): (r: Option<real>)
    ensures r.Some? ==> s != [] && (IsDigit(s[0]) || s[0] == '.')
  {
    var i := DigitRun(s);
    var hasPoint := i < |s| && s[i] == '.';
    var f := if hasPoint then DigitRun(s[i + 1..]) else 0;
    if i == 0 && f == 0 then None
    else
      var fraction := if hasPoint then s[i + 1..][..f] else "";
      var rest := if hasPoint then s[i + 1 + f..] else s[i..];
      assert AllDigits(s[..i] + fraction);
      Some(Shift(DigitsValue(s[..i] + fraction) as real, Exponent(rest) - f))
  }

  /**
   * JavaScript's parseFloat: skip leading white space, then read an optional
   * sign and the longest unsigned decimal literal; None stands for NaN.
   */
  function ParseFloat(s: string): (r: Option<real>)
    ensures r.Some? ==>
      var t := TrimStart(s);
      t != [] && (IsDigit(t[0]) || t[0] == '.' || t[0] == '+' || t[0] == '-')
  {
    var t := TrimStart(s);
    if t != [] && (t[0] == '+' || t[0] == '-') then
      match ParseUnsigned(t[1..])
      case None => None
      case Some(v) => Some(if t[0] == '-' then -v else v)
    else ParseUnsigned(t)
  }

  /** A string parseFloat reads as NaN: its first non-blank character cannot start a number. */
  lemma NotNumberStart(s: string)
    requires s != [] && !IsJsSpace(s[0])
    requires !IsDigit(s[0]) && s[0] != '.' && s[0] != '+' && s[0] != '-'
    ensures ParseFloat(s) == None
  {
    assert TrimStart(s) == s;
  }

  /** The nearest whole number of hundredths to y >= 0, ties away from zero. */
  function HalfUpCents(y: real): (n: nat)
    requires y >= 0.0
    ensures -0.005 <= (n as real) / 100.0 - y <= 0.005
    ensures y * 100.0 - 0.5 < n as real <= y * 100.0 + 0.5
  {
    (y * 100.0 + 0.5).Floor
  }

  /** The value of n hundredths. */
  function Cents(n: nat): real
  {
    (n as real) / 100.0
  }

  /** n hundredths, negated when negative is set. */
  function SignedCents(negative: bool, n: nat): real
  {
    if negative then -Cents(n) else Cents(n)
  }

  /** The value toFixed(2) denotes: x rounded to hundredths, ties away from zero. */
  function Round2(x: real): (r: real)
    ensures -0.005 <= r - x <= 0.005
  {
    SignedCents(x < 0.0, HalfUpCents(Abs(x)))
  }

  /** The text "q.dd" of n hundredths. */
  function CentsText(n: nat): (s: string)
    ensures |s| >= 4 && IsDigit(s[0])
  {
    NatDigits(n / 100) + "." + [DigitChar(n % 100 / 10), DigitChar(n % 10)]
  }

  /** The text of n hundredths, with a leading "-" when negative is set. */
  function SignedCentsText(negative: bool, n: nat): (s: string)
  {
    if negative then "-" + CentsText(n) else CentsText(n)
  }

  /** Number.prototype.toFixed(2) of a finite number below 10^21. */
  function ToFixed2(x: real): (s: string)
  {
    SignedCentsText(x < 0.0, HalfUpCents(Abs(x)))
  }

  /** A literal "d.ab" reads as the digits of d, a and b, shifted two places right. */
  lemma ParsePointTwo(d: string, a: char, b: char)
    requires d != [] && AllDigits(d) && IsDigit(a) && IsDigit(b)
    ensures AllDigits(d + [a, b])
    ensures ParseUnsigned(d + "." + [a, b]) == Some(Shift(DigitsValue(d + [a, b]) as real, -2))
  {
    var s := d + "." + [a, b];
    assert s == d + ("." + [a, b]);
    DigitRunOfDigitsThen(d, "." + [a, b]);
    assert s[..|d|] == d;
    assert s[|d| + 1..] == [a, b] + [];
    DigitRunOfDigitsThen([a, b], []);
    assert s[|d| + 1..][..2] == [a, b];
    assert s[|d| + 3..] == [];
  }

  lemma CentsDigitsValue(n: nat)
    ensures AllDigits(NatDigits(n / 100) + [DigitChar(n % 100 / 10), DigitChar(n % 10)])
    ensures DigitsValue(NatDigits(n / 100) + [DigitChar(n % 100 / 10), DigitChar(n % 10)]) == n
  {
    var q, t, u := n / 100, n % 100 / 10, n % 10;
    assert n == q * 100 + t * 10 + u;
    var d := NatDigits(q);
    var a, b := DigitChar(t), DigitChar(u);
    var digits := d + [a, b];
    assert digits[..|digits| - 1] == d + [a];
    assert (d + [a])[..|d|] == d;
    NatDigitsValue(q);
    assert DigitsValue(d + [a]) == q * 10 + t;
  }

  lemma ShiftTwoRight(m: real)
    ensures Shift(m, -2) == m / 100.0
  {
  }

  lemma CentsTextParses(n: nat)
    ensures ParseUnsigned(CentsText(n)) == Some(Cents(n))
  {
    var d := NatDigits(n / 100);
    var a, b := DigitChar(n % 100 / 10), DigitChar(n % 10);
    assert CentsText(n) == d + "." + [a, b];
    ParsePointTwo(d, a, b);
    CentsDigitsValue(n);
    ShiftTwoRight(n as real);
  }

  lemma ParseFloatOfDigitHead(s: string)
    requires s != [] && IsDigit(s[0])
    ensures ParseFloat(s) == ParseUnsigned(s)
  {
    assert TrimStart(s) == s;
  }

  /** parseFloat("0") is 0. */
  lemma ParseFloatOfZero()
    ensures ParseFloat("0") == Some(0.0)
  {
    ParseFloatOfDigitHead("0");
    assert DigitRun("0") == 1;
    assert "0"[..1] == "0";
    assert DigitsValue("0") == 0;
  }

  lemma ParseFloatOfMinus(u: string, v: real)
    requires u != [] && IsDigit(u[0])
    requires ParseUnsigned(u) == Some(v)
    ensures ParseFloat("-" + u) == Some(-v)
  {
    var s := "-" + u;
    assert TrimStart(s) == s;
    assert s[1..] == u;
  }

  lemma ParseSigned(negative: bool, u: string, v: real)
    requires u != [] && IsDigit(u[0]) && ParseUnsigned(u) == Some(v)
    ensures ParseFloat(if negative then "-" + u else u) == Some(if negative then -v else v)
  {
    if negative {
      ParseFloatOfMinus(u, v);
    } else {
      ParseFloatOfDigitHead(u);
    }
  }

  lemma ParseSignedCentsText(negative: bool, n: nat, text: string, value: real)
    requires text == SignedCentsText(negative, n) && value == SignedCents(negative, n)
    ensures ParseFloat(text) == Some(value)
  {
    CentsTextParses(n);
    ParseSigned(negative, CentsText(n), Cents(n));
  }

  /** parseFloat reads back exactly the rounded value that toFixed(2) wrote. */
  lemma ParseToFixed2(x: real)
    ensures ParseFloat(ToFixed2(x)) == Some(Round2(x))
  {
    ParseSignedCentsText(x < 0.0, HalfUpCents(Abs(x)), ToFixed2(x), Round2(x));
  }

  /**
   * The nearest whole number of hundredths to y >= 0, ties to the even one:
   * the rounding Python's Decimal.quantize uses under the default context.
   */
  function HalfEvenCents(y: real): (n: nat)
    requires y >= 0.0
    ensures -0.005 <= (n as real) / 100.0 - y <= 0.005
    ensures y * 100.0 - 0.5 <= n as real <= y * 100.0 + 0.5
    ensures (n as real) == y * 100.0 + 0.5 || (n as real) == y * 100.0 - 0.5 ==> n % 2 == 0
  {
    var f := (y * 100.0).Floor;
    var frac := y * 100.0 - f as real;
    if frac > 0.5 then f + 1
    else if frac < 0.5 then f
    else if f % 2 == 0 then f
    else f + 1
  }
}

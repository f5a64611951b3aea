/**
 * The cell-value helpers of the dashboard front end: reading a cell's text
 * as an amount (a number or an "=" formula), and rendering an amount as
 * currency. Where the source's `!value` test treats undefined and "" alike,
 * an absent string is represented by ""; isPastDate, whose older version
 * tells the two apart, takes an Option instead.
 */
module Values {
  import opened Wrappers
  import opened Numeric
  import opened Calendar

  /**
   * What `eval` made of a formula: it threw, it produced a value that
   * isNaN reports as NaN, or it produced a number.
   */
  datatype EvalOutcome = Threw | NotANumber | Number(value: real)

  /** formula.slice(1): the text after the first character. */
  function AfterFirst(s: string): (t: string)
    ensures s == [] ==> t == []
    ensures s != [] ==> s == [s[0]] + t
  {
    if s == [] then [] else s[1..]
  }

  /** The value of a formula "=expr": the number eval gives for expr, or 0 when it throws or gives NaN. */
  function EvaluateFormula(ev: string -> EvalOutcome, formula: string): (r: real)
    ensures ev(AfterFirst(formula)).Number? ==> r == ev(AfterFirst(formula)).value
    ensures !ev(AfterFirst(formula)).Number? ==> r == 0.0
  {
    match ev(AfterFirst(formula))
    case Number(v) => v
    case _ => 0.0
  }

  /** The amount a cell's text stands for; every text that is neither a formula nor a number counts as 0. */
  function ParseValue(ev: string -> EvalOutcome, value: string): (r: real)
    ensures value == [] ==> r == 0.0
    ensures value != [] && value[0] == '=' ==> r == EvaluateFormula(ev, value)
    ensures value != [] && value[0] != '=' && ParseFloat(value).Some? ==> r == ParseFloat(value).value
    ensures value != [] && value[0] != '=' && ParseFloat(value).None? ==> r == 0.0
  {
    if value == [] then 0.0
    else if value[0] == '=' then EvaluateFormula(ev, value)
    else
      match ParseFloat(value)
      case None => 0.0
      case Some(n) => n
  }

  /** `value || '0'`: the text "0" in place of an absent or empty one. */
  function OrZero(value: string): (r: string)
    ensures r != []
    ensures value != [] ==> r == value
  {
    if value == [] then "0" else value
  }

  /** Wherever parseFloat reads a number, ParseValue reads the same number. */
  lemma ParseValueOfNumber(ev: string -> EvalOutcome, s: string, x: real)
    requires ParseFloat(s) == Some(x)
    ensures ParseValue(ev, s) == x
  {
    if s != [] && s[0] == '=' {
      NotNumberStart(s);
    }
  }

  /** Writing `parseValue(t || '0')` or `parseValue(t)` makes no difference. */
  lemma ParseValueOrZero(ev: string -> EvalOutcome, s: string)
    ensures ParseValue(ev, OrZero(s)) == ParseValue(ev, s)
  {
    if s == [] {
      ParseFloatOfZero();
    }
  }

  /** The text toFixed(2) writes reads back, through ParseValue, as the rounded amount. */
  lemma ParseValueOfToFixed2(ev: string -> EvalOutcome, x: real)
    ensures ParseValue(ev, ToFixed2(x)) == Round2(x)
  {
    ParseToFixed2(x);
    ParseValueOfNumber(ev, ToFixed2(x), Round2(x));
  }

  /** An amount as currency: a sign, the symbol, then the magnitude to two decimals. */
  function SignedAmount(num: real, currency: string): (r: string)
    ensures num < 0.0 ==> r == "-" + currency + ToFixed2(-num)
    ensures num >= 0.0 ==> r == currency + ToFixed2(num)
  {
    if num < 0.0 then "-" + currency + ToFixed2(Abs(num)) else currency + ToFixed2(num)
  }

  /** currencyFormatter on a string: "" for an empty text, for "0" and for text that is not a number. */
  function CurrencyFormatter(value: string, currency: string): (r: string)
  {
    if value == [] || value == "0" then ""
    else
      match ParseFloat(value)
      case None => ""
      case Some(num) => SignedAmount(num, currency)
  }

  /**
   * currencyFormatter on a number, as formulaFormatter calls it: 0 is falsy
   * and renders as "". The number is turned into text and read back with
   * parseFloat, which gives the same number for every finite value.
   */
  function CurrencyOfNumber(num: real, currency: string): (r: string)
  {
    if num == 0.0 then "" else SignedAmount(num, currency)
  }

  /** The text shown for a transaction cell: its amount as currency, or "" when there is none. */
  function FormulaFormatter(ev: string -> EvalOutcome, value: string): (r: string)
  {
    if value == [] then "" else CurrencyOfNumber(ParseValue(ev, value), "$")
  }

  /**
   * isPastDate: the date sorts, as a string, before today's "YYYY-MM-DD";
   * an absent (None) or empty date never does, as `!date` returns false first.
   */
  function IsPastDate(date: Option<string>, today: string): (r: bool)
    ensures date.None? || date == Some([]) ==> !r
    ensures date.Some? && date.value != [] ==> (r <==> LexLess(date.value, today))
  {
    match date
    case None => false
    case Some(s) => s != [] && LexLess(s, today)
  }

  /**
   * The older isPastDate, without the guard: `undefined < today` is false,
   * but `"" < today` holds for every non-empty today.
   */
  function LegacyIsPastDate(date: Option<string>, today: string): (r: bool)
    ensures date.None? ==> !r
    ensures r != IsPastDate(date, today) <==> date == Some([]) && today != []
  {
    match date
    case None => false
    case Some(s) => LexLess(s, today)
  }

  /** currencyFormatter renders nothing exactly for empty text, "0", and text that is not a number. */
  lemma CurrencyFormatterEmpty(value: string, currency: string)
    ensures CurrencyFormatter(value, currency) == "" <==> value == [] || value == "0" || ParseFloat(value).None?
  {
  }

  /**
   * A rendered amount is a sign exactly when the number is negative, then
   * the currency, then text that parseFloat reads back as the magnitude
   * rounded to hundredths.
   */
  lemma CurrencyFormatterReadsBack(value: string, currency: string)
    requires CurrencyFormatter(value, currency) != ""
    ensures ParseFloat(value).Some?
    ensures var num := ParseFloat(value).value;
      var r := CurrencyFormatter(value, currency);
      var k := if num < 0.0 then |currency| + 1 else |currency|;
      k <= |r| && r[..k] == (if num < 0.0 then "-" + currency else currency) &&
      ParseFloat(r[k..]) == Some(Round2(Abs(num)))
  {
    var num := ParseFloat(value).value;
    var r := CurrencyFormatter(value, currency);
    if num < 0.0 {
      assert r == ("-" + currency) + ToFixed2(Abs(num));
      assert r[|currency| + 1..] == ToFixed2(Abs(num));
    } else {
      assert r == currency + ToFixed2(Abs(num));
      assert r[|currency|..] == ToFixed2(Abs(num));
    }
    ParseToFixed2(Abs(num));
  }

  /** formulaFormatter renders nothing exactly when the cell's amount is 0, a non-number included. */
  lemma FormulaFormatterEmpty(ev: string -> EvalOutcome, value: string)
    ensures FormulaFormatter(ev, value) == "" <==> ParseValue(ev, value) == 0.0
  {
  }

  /** A past date, by text, is a past date by the calendar. */
  lemma IsPastDateOfIso(d: Date, today: Date)
    requires Valid(d) && Valid(today)
    ensures IsPastDate(Some(Iso(d)), Iso(today)) <==> Before(d, today)
    ensures LegacyIsPastDate(Some(Iso(d)), Iso(today)) <==> Before(d, today)
  {
    IsoOrder(d, today);
  }
}

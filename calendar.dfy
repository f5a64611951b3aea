/**
 * Calendar dates as the dashboard spells them: "YYYY-MM-DD" strings, the
 * date-only form of ISO 8601 that Date.prototype.toISOString starts with
 * and that `new Date(...)` reads as UTC midnight. Also JavaScript's `<` on
 * strings, which the dashboard uses to compare such dates.
 */
module Calendar {
  import opened Wrappers
  import opened Numeric

  datatype Date = Date(year: int, month: int, day: int)

  predicate IsLeapYear(y: int)
  {
    y % 4 == 0 && (y % 100 != 0 || y % 400 == 0)
  }

  function DaysInMonth(y: int, m: int): (n: int)
    requires 1 <= m <= 12
    ensures 28 <= n <= 31
  {
    if m == 2 then (if IsLeapYear(y) then 29 else 28)
    else if m == 4 || m == 6 || m == 9 || m == 11 then 30
    else 31
  }

  /** A day of the proleptic Gregorian calendar. */
  predicate WellFormed(d: Date)
  {
    1 <= d.month <= 12 && 1 <= d.day <= DaysInMonth(d.year, d.month)
  }

  /** A day that the four-digit-year form "YYYY-MM-DD" can spell. */
  predicate Valid(d: Date)
  {
    0 <= d.year <= 9999 && WellFormed(d)
  }

  /** Chronological order. */
  predicate Before(a: Date, b: Date)
  {
    a.year < b.year || (a.year == b.year && (a.month < b.month || (a.month == b.month && a.day < b.day)))
  }

  /** The calendar day after d. */
  function NextDay(d: Date): (r: Date)
    requires WellFormed(d)
    ensures WellFormed(r) && Before(d, r)
    ensures r.year == d.year || (r.year == d.year + 1 && r.month == 1 && r.day == 1)
  {
    if d.day < DaysInMonth(d.year, d.month) then d.(day := d.day + 1)
    else if d.month < 12 then Date(d.year, d.month + 1, 1)
    else Date(d.year + 1, 1, 1)
  }

  /** No day lies strictly between d and NextDay(d). */
  lemma NextDayIsSuccessor(d: Date, e: Date)
    requires WellFormed(d) && WellFormed(e) && Before(d, e)
    ensures e == NextDay(d) || Before(NextDay(d), e)
  {
  }

  /** The last w decimal digits of n, with leading zeros. */
  function Pad(n: nat, w: nat): (s: string)
    ensures |s| == w && AllDigits(s)
  {
    if w == 0 then [] else Pad(n / 10, w - 1) + [DigitChar(n % 10)]
  }

  lemma {:induction false} PadValue(n: nat, w: nat)
    requires n < Pow10(w)
    ensures DigitsValue(Pad(n, w)) == n
  {
    if w > 0 {
      var s := Pad(n, w);
      assert s[..|s| - 1] == Pad(n / 10, w - 1);
      PadValue(n / 10, w - 1);
    }
  }

  lemma {:induction false} PadOfDigits(s: string)
    requires AllDigits(s)
    ensures Pad(DigitsValue(s), |s|) == s
  {
    if s != [] {
      var p := s[..|s| - 1];
      assert AllDigits(p);
      PadOfDigits(p);
      var n := DigitsValue(s);
      assert n / 10 == DigitsValue(p) && n % 10 == DigitValue(s[|s| - 1]);
      assert s == p + [s[|s| - 1]];
    }
  }

  /**
   * JavaScript's `<` on two strings: the first differing character decides,
   * and a proper prefix sorts first.
   */
  predicate LexLess(a: string, b: string)
  {
    if a == [] then b != []
    else if b == [] then false
    else if a[0] != b[0] then a[0] < b[0]
    else LexLess(a[1..], b[1..])
  }

  lemma {:induction false} LexLessIrreflexive(a: string)
    ensures !LexLess(a, a)
  {
    if a != [] {
      LexLessIrreflexive(a[1..]);
    }
  }

  /** Comparing two concatenations whose heads have the same length. */
  lemma {:induction false} LexLessConcat(x: string, y: string, u: string, v: string)
    requires |x| == |y|
    ensures LexLess(x + u, y + v) <==> LexLess(x, y) || (x == y && LexLess(u, v))
  {
    if x == [] {
      assert x + u == u && y + v == v;
    } else {
      assert (x + u)[1..] == x[1..] + u && (y + v)[1..] == y[1..] + v;
      assert (x + u)[0] == x[0] && (y + v)[0] == y[0];
      LexLessConcat(x[1..], y[1..], u, v);
      if x[0] == y[0] {
        assert x == y <==> x[1..] == y[1..];
      } else {
        assert x != y;
      }
    }
  }

  lemma PadInjective(n: nat, m: nat, w: nat)
    requires n < Pow10(w) && m < Pow10(w)
    ensures Pad(n, w) == Pad(m, w) <==> n == m
  {
    PadValue(n, w);
    PadValue(m, w);
  }

  /** Zero-padded numbers of one width sort as strings as they do as numbers. */
  lemma {:induction false} PadLess(n: nat, m: nat, w: nat)
    requires n < Pow10(w) && m < Pow10(w)
    ensures LexLess(Pad(n, w), Pad(m, w)) <==> n < m
  {
    if w == 0 {
      assert n == 0 && m == 0;
    } else {
      PadLess(n / 10, m / 10, w - 1);
      PadInjective(n / 10, m / 10, w - 1);
      LexLessConcat(Pad(n / 10, w - 1), Pad(m / 10, w - 1), [DigitChar(n % 10)], [DigitChar(m % 10)]);
    }
  }

  /** The "YYYY-MM-DD" text of a date, as toISOString().split("T")[0] yields it. */
  function Iso(d: Date): (s: string)
    requires Valid(d)
    ensures |s| == 10 && s[4] == '-' && s[7] == '-'
  {
    Pad(d.year, 4) + "-" + Pad(d.month, 2) + "-" + Pad(d.day, 2)
  }

  /** The date a "YYYY-MM-DD" string names; None where `new Date(s)` is an invalid date. */
  function ParseIso(s: string): (r: Option<Date>)
    ensures r.Some? ==> Valid(r.value)
  {
    if |s| == 10 && s[4] == '-' && s[7] == '-' && AllDigits(s[..4]) && AllDigits(s[5..7]) && AllDigits(s[8..]) then
      var d := Date(DigitsValue(s[..4]), DigitsValue(s[5..7]), DigitsValue(s[8..]));
      if Valid(d) then Some(d) else None
    else None
  }

  lemma IsoParts(d: Date)
    requires Valid(d)
    ensures Iso(d)[..4] == Pad(d.year, 4)
    ensures Iso(d)[5..7] == Pad(d.month, 2)
    ensures Iso(d)[8..] == Pad(d.day, 2)
  {
    var s := Iso(d);
    assert s == Pad(d.year, 4) + ("-" + Pad(d.month, 2)) + ("-" + Pad(d.day, 2));
  }

  /** Reading back the text of a date gives the date. */
  lemma ParseIsoOfIso(d: Date)
    requires Valid(d)
    ensures ParseIso(Iso(d)) == Some(d)
  {
    IsoParts(d);
    PadValue(d.year, 4);
    PadValue(d.month, 2);
    PadValue(d.day, 2);
  }

  /** A string that reads as a date is that date's text: the two are a bijection. */
  lemma IsoOfParseIso(s: string)
    requires ParseIso(s).Some?
    ensures Iso(ParseIso(s).value) == s
  {
    var d := ParseIso(s).value;
    PadOfDigits(s[..4]);
    PadOfDigits(s[5..7]);
    PadOfDigits(s[8..]);
    var t := Iso(d);
    IsoParts(d);
    assert t[..4] == s[..4] && t[5..7] == s[5..7] && t[8..] == s[8..];
    assert forall i | 0 <= i < 10 :: t[i] == s[i] by {
      forall i | 0 <= i < 10
        ensures t[i] == s[i]
      {
        if i < 4 {
          assert t[i] == t[..4][i];
        } else if 5 <= i < 7 {
          assert t[i] == t[5..7][i - 5] && s[i] == s[5..7][i - 5];
        } else if 8 <= i {
          assert t[i] == t[8..][i - 8] && s[i] == s[8..][i - 8];
        }
      }
    }
  }

  /** The text order of two dates is their chronological order. */
  lemma IsoOrder(a: Date, b: Date)
    requires Valid(a) && Valid(b)
    ensures LexLess(Iso(a), Iso(b)) <==> Before(a, b)
  {
    var ya, yb := Pad(a.year, 4), Pad(b.year, 4);
    var ma, mb := Pad(a.month, 2), Pad(b.month, 2);
    var da, db := Pad(a.day, 2), Pad(b.day, 2);
    assert Iso(a) == ya + ("-" + ma + "-" + da);
    assert Iso(b) == yb + ("-" + mb + "-" + db);
    assert "-" + ma + "-" + da == ("-" + ma) + ("-" + da);
    assert "-" + mb + "-" + db == ("-" + mb) + ("-" + db);
    assert "-" + ma == ['-'] + ma && "-" + mb == ['-'] + mb;
    assert "-" + da == ['-'] + da && "-" + db == ['-'] + db;
    LexLessConcat(ya, yb, "-" + ma + "-" + da, "-" + mb + "-" + db);
    LexLessConcat("-" + ma, "-" + mb, "-" + da, "-" + db);
    LexLessConcat(['-'], ['-'], ma, mb);
    LexLessConcat(['-'], ['-'], da, db);
    LexLessIrreflexive(['-']);
    PadLess(a.year, b.year, 4);
    PadInjective(a.year, b.year, 4);
    PadLess(a.month, b.month, 2);
    PadInjective(a.month, b.month, 2);
    PadLess(a.day, b.day, 2);
  }
}

/**
 * The dashboard page's data loading. A poll reads the date range shown on
 * the page; an unchanged range is not fetched again. A fetched table gets
 * an extra month: 31 copies of its last row, one per following day, with
 * transactions and notes cleared and the balances carried over.
 */
module App {
  import opened Wrappers
  import opened Numeric
  import opened Calendar
  import opened Values
  import opened Ledger
  import opened Edits

  /** The JSON document the server answers with. */
  datatype DashboardData = DashboardData(rows: seq<Row>, accounts: seq<string>, userTransactions: seq<UserTransaction>)

  /** The date range of the last fetch; null (None) before the first. */
  datatype CachedDates = CachedDates(startDate: Option<string>, endDate: Option<string>)

  /** What a poll does: nothing, for want of the date elements or for an unchanged range, or a fetch of a new range. */
  datatype Gate = NoDateElements | SameRange | Refetch(startDate: string, endDate: string)

  /**
   * The poll's gate. The page's start and end elements' texts are given,
   * None when an element is missing.
   */
  function FetchGate(startEl: Option<string>, endEl: Option<string>, cached: CachedDates): (g: Gate)
    ensures g == NoDateElements <==> startEl.None? || endEl.None?
    ensures g == SameRange <==> startEl.Some? && endEl.Some? && cached == CachedDates(startEl, endEl)
    ensures g.Refetch? ==> g.startDate == startEl.value && g.endDate == endEl.value
  {
    if startEl.None? || endEl.None? then NoDateElements
    else if cached == CachedDates(startEl, endEl) then SameRange
    else Refetch(startEl.value, endEl.value)
  }

  /** Once a range has been cached, polling the same range again fetches nothing. */
  lemma FetchGateSettles(startEl: Option<string>, endEl: Option<string>, cached: CachedDates)
    requires FetchGate(startEl, endEl, cached).Refetch?
    ensures var g := FetchGate(startEl, endEl, cached);
      FetchGate(startEl, endEl, CachedDates(Some(g.startDate), Some(g.endDate))) == SameRange
  {
  }

  /** How a request ends: the request itself fails, or a response arrives, with a body that JSON.parse reads or rejects (None). */
  datatype Response = NetworkFailure | Received(ok: bool, status: nat, body: Option<DashboardData>)

  /** Why a fetch ends in the error state. */
  datatype FetchError = FetchFailed | HttpError(status: nat) | SyntaxError | Thrown(error: JsError)

  /** The text of the error thrown for a response whose status is not ok. */
  function HttpErrorMessage(status: nat): (m: string)
  {
    "HTTP error! status: " + NatDigits(status)
  }

  /** The message names the status: its tail after the fixed text is the status in decimal. */
  lemma HttpErrorMessageStatus(status: nat)
    ensures var m := HttpErrorMessage(status);
      |m| > 20 && m[..20] == "HTTP error! status: " && AllDigits(m[20..]) && DigitsValue(m[20..]) == status
  {
    var m := HttpErrorMessage(status);
    assert m[20..] == NatDigits(status);
    NatDigitsValue(status);
  }

  /** d advanced by n calendar days. */
  function AddDays(d: Date, n: nat): (r: Date)
    requires WellFormed(d)
    ensures WellFormed(r) && d.year <= r.year <= d.year + n
    ensures n > 0 ==> Before(d, r)
  {
    if n == 0 then d else NextDay(AddDays(d, n - 1))
  }

  /** Later is later: advancing by more days gives a later date. */
  lemma {:induction false} AddDaysAscending(d: Date, m: nat, n: nat)
    requires WellFormed(d) && m < n
    ensures Before(AddDays(d, m), AddDays(d, n))
    decreases n
  {
    if m < n - 1 {
      AddDaysAscending(d, m, n - 1);
    }
  }

  /**
   * The date part of toISOString(): "YYYY-MM-DD" for years 0 to 9999, and
   * the expanded form "+YYYYYY-MM-DD" beyond.
   */
  function IsoDatePart(d: Date): (s: string)
    requires WellFormed(d) && 0 <= d.year <= 999999
    ensures d.year <= 9999 ==> s == Iso(d)
  {
    if d.year <= 9999 then Iso(d) else "+" + Pad(d.year, 6) + "-" + Pad(d.month, 2) + "-" + Pad(d.day, 2)
  }

  /** A cell as the extra month shows it: balance kept, transaction and note cleared. */
  function Cleared(c: Cell): Cell
  {
    c.(transaction := "", description := "")
  }

  /** The last row's accounts, every one cleared. */
  function ClearedCells(cells: map<string, Cell>): (r: map<string, Cell>)
    ensures r.Keys == cells.Keys
    ensures forall k :: k in cells ==> r[k] == Cleared(cells[k])
  {
    map k | k in cells :: Cleared(cells[k])
  }

  /** The number of rows the extra month adds. */
  const ExtraDays := 31

  /** The j-th row of the extra month after a last row dated d with these accounts (j from 0). */
  function ExtraRow(d: Date, cells: map<string, Cell>, j: nat): Row
    requires WellFormed(d) && 0 <= d.year <= 9999 && j < ExtraDays
  {
    Row(IsoDatePart(AddDays(d, j + 1)), ClearedCells(cells))
  }

  /** The extra month: the rows for the 31 days after d. */
  function ExtraMonth(d: Date, cells: map<string, Cell>): (m: seq<Row>)
    requires WellFormed(d) && 0 <= d.year <= 9999
    ensures |m| == ExtraDays && forall j :: 0 <= j < ExtraDays ==> m[j] == ExtraRow(d, cells, j)
  {
    seq(ExtraDays, j requires 0 <= j < ExtraDays => ExtraRow(d, cells, j))
  }

  /**
   * The fetched rows followed by the extra month. An empty table has no
   * last row to copy and throws a TypeError; a last date that is not a
   * calendar date gives an invalid Date, and toISOString throws a
   * RangeError.
   */
  function Extrapolated(rows: seq<Row>): (r: Result<seq<Row>, JsError>)
    ensures r.Err? <==> rows == [] || ParseIso(rows[|rows| - 1].date).None?
    ensures r.Err? ==> r.error == (if rows == [] then TypeError else RangeError)
    ensures r.Ok? ==> |r.value| == |rows| + ExtraDays && r.value[..|rows|] == rows
    ensures r.Ok? ==> forall j :: 0 <= j < |rows| ==> r.value[j] == rows[j]
    ensures r.Ok? ==> forall j :: |rows| <= j < |r.value| ==> r.value[j].cells.Keys == rows[|rows| - 1].cells.Keys
  {
    if rows == [] then Err(TypeError)
    else
      var last := rows[|rows| - 1];
      match ParseIso(last.date)
      case None => Err(RangeError)
      case Some(d) => Ok(rows + ExtraMonth(d, last.cells))
  }

  /** The last row's accounts cleared as the page does it, key by key. */
  method ClearRow(row: Row) returns (cells: map<string, Cell>)
    ensures cells == ClearedCells(row.cells)
  {
    cells := row.cells;
    var todo := cells.Keys;
    while todo != {}
      invariant todo <= row.cells.Keys && cells.Keys == row.cells.Keys
      invariant forall k :: k in cells ==> cells[k] == if k in todo then row.cells[k] else Cleared(row.cells[k])
      decreases todo
    {
      var k :| k in todo;
      cells := cells[k := cells[k].(transaction := "", description := "")];
      todo := todo - {k};
    }
  }

  /** The 31 rows appended one by one, the date moving one day on before each. */
  method AppendMonth(rows: seq<Row>, start: Date, cells: map<string, Cell>) returns (out: seq<Row>)
    requires WellFormed(start) && 0 <= start.year <= 9999
    ensures out == rows + ExtraMonth(start, cells)
  {
    var cleared := ClearedCells(cells);
    var date := start;
    out := rows;
    var i := 0;
    while i < ExtraDays
      invariant i <= ExtraDays && date == AddDays(start, i)
      invariant out == rows + ExtraMonth(start, cells)[..i]
    {
      ghost var month := ExtraMonth(start, cells);
      assert month[..i + 1] == month[..i] + [month[i]];
      date := NextDay(date);
      out := out + [Row(IsoDatePart(date), cleared)];
      i := i + 1;
    }
    assert ExtraMonth(start, cells)[..ExtraDays] == ExtraMonth(start, cells);
  }

  /**
   * The extra month as the page builds it: the last row is copied and
   * cleared, then 31 times the date moves one day on and a copy is
   * appended.
   */
  method Extrapolate(rows: seq<Row>) returns (r: Result<seq<Row>, JsError>)
    ensures r == Extrapolated(rows)
  {
    if rows == [] {
      return Err(TypeError);
    }
    var lastRow := rows[|rows| - 1];
    var cells := ClearRow(lastRow);
    var parsed := ParseIso(lastRow.date);
    if parsed.None? {
      return Err(RangeError);
    }
    var out := AppendMonth(rows, parsed.value, lastRow.cells);
    return Ok(out);
  }

  /** Every added row has the last row's accounts, each with its balance and with transaction and note cleared. */
  lemma ExtrapolatedCells(rows: seq<Row>, j: nat, a: string)
    requires Extrapolated(rows).Ok?
    requires |rows| <= j < |rows| + ExtraDays
    ensures var r := Extrapolated(rows).value; var last := rows[|rows| - 1];
      r[j].cells.Keys == last.cells.Keys &&
      (a in last.cells ==> r[j].cells[a].balance == last.cells[a].balance &&
                           r[j].cells[a].transaction == "" && r[j].cells[a].description == "")
  {
    var last := rows[|rows| - 1];
    var d := ParseIso(last.date).value;
    assert Extrapolated(rows).value[j] == ExtraMonth(d, last.cells)[j - |rows|];
  }

  /**
   * The added rows carry the days after the last row's date, one by one,
   * so the dates stay strictly ascending; while the later date is before
   * the year 10000 the date texts also ascend under JavaScript's `<`.
   */
  lemma ExtrapolatedDatesAscending(rows: seq<Row>, i: nat)
    requires Extrapolated(rows).Ok?
    requires |rows| - 1 <= i < |rows| + ExtraDays - 1
    ensures var r := Extrapolated(rows).value; var d := ParseIso(rows[|rows| - 1].date).value;
      var later := AddDays(d, i + 2 - |rows|);
      Before(AddDays(d, i + 1 - |rows|), later) && r[i + 1].date == IsoDatePart(later) &&
      (later.year <= 9999 ==> LexLess(r[i].date, r[i + 1].date))
  {
    var r := Extrapolated(rows).value;
    var last := rows[|rows| - 1];
    var d := ParseIso(last.date).value;
    var n := i + 1 - |rows|;
    var earlier, later := AddDays(d, n), AddDays(d, n + 1);
    assert r[i + 1] == ExtraMonth(d, last.cells)[n];
    if i == |rows| - 1 {
      assert r[i] == last;
      if later.year <= 9999 {
        IsoOfParseIso(last.date);
        IsoOrder(d, later);
      }
    } else {
      assert r[i] == ExtraMonth(d, last.cells)[n - 1];
      if later.year <= 9999 {
        IsoOrder(earlier, later);
      }
    }
  }

  /**
   * The first added row draws the integrity warning exactly when the last
   * fetched row's transaction is more than a cent: its balance is the last
   * row's balance, not that balance plus the transaction. The cell texts
   * are read with parse; the check reads them with parseFloat.
   */
  lemma ExtrapolatedFirstWarns(parse: string -> Option<real>, rows: seq<Row>, a: string)
    requires Extrapolated(rows).Ok? && a in rows[|rows| - 1].cells
    ensures var r := Extrapolated(rows).value; var c := rows[|rows| - 1].cells[a];
      var b := parse(c.balance); var t := parse(OrZero(c.transaction));
      a in r[|rows|].cells &&
      (WarnsAt(parse, r, a, |rows|) <==> b.Some? && t.Some? && Abs(t.value) > 0.01)
  {
    var r := Extrapolated(rows).value;
    ExtrapolatedCells(rows, |rows|, a);
    assert r[|rows| - 1] == rows[|rows| - 1];
  }

  /** The later added rows never draw the warning: each repeats the previous balance after a cleared transaction. */
  lemma ExtrapolatedLaterQuiet(parse: string -> Option<real>, rows: seq<Row>, a: string, j: nat)
    requires Extrapolated(rows).Ok? && a in rows[|rows| - 1].cells
    requires parse("0") == Some(0.0)
    requires |rows| < j < |rows| + ExtraDays
    ensures var r := Extrapolated(rows).value;
      a in r[j - 1].cells && a in r[j].cells && !WarnsAt(parse, r, a, j)
  {
    ExtrapolatedCells(rows, j - 1, a);
    ExtrapolatedCells(rows, j, a);
  }

  /** parseFloat reads "0" as 0, so the later added rows never draw the page's warning. */
  lemma ExtrapolatedLaterQuietForParseFloat(rows: seq<Row>, a: string, j: nat)
    requires Extrapolated(rows).Ok? && a in rows[|rows| - 1].cells
    requires |rows| < j < |rows| + ExtraDays
    ensures var r := Extrapolated(rows).value;
      a in r[j - 1].cells && a in r[j].cells && !WarnsAt(ParseFloat, r, a, j)
  {
    ParseFloatOfZero();
    ExtrapolatedLaterQuiet(ParseFloat, rows, a, j);
  }

  /** Minutes in a day. */
  const MinutesPerDay := 1440

  /**
   * The day, counted from the last row's date, that the page's Date object
   * shows in UTC after i steps of setDate(getDate() + 1). Each step moves
   * the local wall clock one day on. Times are in minutes from UTC
   * midnight of the last row's date: start is the wall-clock reading at
   * that instant, and offset(w) is the zone's offset from UTC in force at
   * wall-clock reading w.
   */
  function WallClockDay(start: int, offset: int -> int, i: nat): int
  {
    var w := start + MinutesPerDay * i;
    (w - offset(w)) / MinutesPerDay
  }

  /** The dates the extra month gets as the loop is written: the UTC date part after each wall-clock step. */
  function WallClockDates(d: Date, start: int, offset: int -> int): (r: seq<string>)
    requires Valid(d)
    requires forall i: nat :: 1 <= i <= ExtraDays ==> 0 <= WallClockDay(start, offset, i) <= 2 * ExtraDays
    ensures |r| == ExtraDays
  {
    seq(ExtraDays, j requires 0 <= j < ExtraDays => IsoDatePart(AddDays(d, WallClockDay(start, offset, j + 1))))
  }

  /**
   * In any zone: start, the wall-clock reading at UTC midnight of the last
   * row's date, is the offset in force then. When the offset is still that
   * after i - 1 steps and has moved forward, by less than a day, after i
   * steps, steps i - 1 and i show the same UTC day, and every later row is
   * a day behind.
   */
  lemma {:induction false} WallClockForwardRepeats(start: int, offset: int -> int, i: nat)
    requires 1 <= i
    requires offset(start + MinutesPerDay * (i - 1)) == start
    requires start < offset(start + MinutesPerDay * i) <= start + MinutesPerDay
    ensures WallClockDay(start, offset, i - 1) == WallClockDay(start, offset, i) == i - 1
  {
  }

  /**
   * In a zone five hours behind UTC that moves its clocks on by an hour at
   * 02:00 on 10 March 2024, a last row dated 2024-03-09 gets two added rows
   * dated 2024-03-10: the second step lands at 19:00 local, 23:00 UTC, on
   * the same UTC day as the first.
   */
  lemma WallClockDatesRepeat()
    ensures var offset := (w: int) => if w < 1560 then -300 else -240;
      var r := WallClockDates(Date(2024, 3, 9), -300, offset);
      r[0] == r[1] == "2024-03-10"
  {
    var offset := (w: int) => if w < 1560 then -300 else -240;
    var d := Date(2024, 3, 9);
    forall i: nat | 1 <= i <= ExtraDays
      ensures 0 <= WallClockDay(-300, offset, i) <= 2 * ExtraDays
    {
      var w := -300 + MinutesPerDay * i;
      if i == 1 {
        assert w - offset(w) == MinutesPerDay;
      } else {
        assert w - offset(w) == MinutesPerDay * (i - 1) + 1380;
      }
    }
    assert WallClockDay(-300, offset, 1) == 1;
    assert WallClockDay(-300, offset, 2) == 1;
    var r := WallClockDates(d, -300, offset);
    assert r[0] == IsoDatePart(AddDays(d, 1)) == r[1];
    MarchTenth();
  }

  /** The text of the day after 2024-03-09. */
  lemma MarchTenth()
    ensures IsoDatePart(AddDays(Date(2024, 3, 9), 1)) == "2024-03-10"
  {
    var d := AddDays(Date(2024, 3, 9), 1);
    assert d == NextDay(Date(2024, 3, 9));
    assert d == Date(2024, 3, 10);
    PadYear2024();
    PadMonthDay();
    assert Iso(d) == Pad(2024, 4) + "-" + Pad(3, 2) + "-" + Pad(10, 2);
  }

  lemma PadYear2024()
    ensures Pad(2024, 4) == "2024"
  {
    assert Pad(2, 1) == "2";
    assert Pad(20, 2) == "20";
    assert Pad(202, 3) == "202";
  }

  lemma PadMonthDay()
    ensures Pad(3, 2) == "03" && Pad(10, 2) == "10"
  {
    assert Pad(0, 1) == "0";
    assert Pad(1, 1) == "1";
  }

  /** The page's state. */
  class Dashboard {
    /** The table on display. */
    var data: DashboardData
    /** Whether the page shows its loading text. */
    var isLoading: bool
    /** The error message on display, by its cause. */
    var error: Option<FetchError>
    /** The range of the last fetch. */
    var cached: CachedDates

    /** The page before its first poll. */
    constructor ()
      ensures data == DashboardData([], [], []) && isLoading && error == None && cached == CachedDates(None, None)
    {
      data := DashboardData([], [], []);
      isLoading := true;
      error := None;
      cached := CachedDates(None, None);
    }

    /**
     * fetchData: a poll with the page's date element texts and the answer
     * the server gives. A new range is cached before the request; a
     * response that is not ok, a body JSON.parse rejects or a throw while
     * extrapolating sets the error and keeps the table; a good response
     * replaces the table. Every poll ends with loading off, the early
     * returns included.
     */
    method FetchData(startEl: Option<string>, endEl: Option<string>, response: Response)
      modifies this
      ensures !isLoading
      ensures match FetchGate(startEl, endEl, old(cached))
        case Refetch(s, e) =>
          cached == CachedDates(Some(s), Some(e)) &&
          (match Fetched(response)
           case Ok(d) => data == d && error == old(error)
           case Err(x) => data == old(data) && error == Some(x))
        case _ => cached == old(cached) && data == old(data) && error == old(error)
    {
      if startEl.None? || endEl.None? {
        isLoading := false;
        return;
      }
      var startDate, endDate := startEl.value, endEl.value;
      if Some(startDate) == cached.startDate && Some(endDate) == cached.endDate {
        isLoading := false;
        return;
      }
      cached := CachedDates(Some(startDate), Some(endDate));
      isLoading := true;
      match response {
        case NetworkFailure =>
          error := Some(FetchFailed);
        case Received(ok, status, body) =>
          if !ok {
            error := Some(HttpError(status));
          } else if body.None? {
            error := Some(SyntaxError);
          } else {
            var r := Extrapolate(body.value.rows);
            if r.Err? {
              error := Some(Thrown(r.error));
            } else {
              data := body.value.(rows := r.value);
            }
          }
      }
      isLoading := false;
    }
  }

  /** What a fetch of a new range yields: the table to show, or why the page shows an error. */
  function Fetched(response: Response): (r: Result<DashboardData, FetchError>)
    ensures r.Ok? ==> response.Received? && response.ok && response.body.Some? &&
                      r.value.accounts == response.body.value.accounts &&
                      |r.value.rows| == |response.body.value.rows| + ExtraDays
  {
    match response
    case NetworkFailure => Err(FetchFailed)
    case Received(ok, status, body) =>
      if !ok then Err(HttpError(status))
      else if body.None? then Err(SyntaxError)
      else
        match Extrapolated(body.value.rows)
        case Err(e) => Err(Thrown(e))
        case Ok(rows) => Ok(body.value.(rows := rows))
  }
}

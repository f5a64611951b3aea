/**
 * The dashboard's daily ledger: one row per date, and per account a cell
 * holding the day's closing balance, the day's transaction and a note. The
 * balance of a day is the previous day's balance plus the previous day's
 * transaction. This module states the balance recalculation and the
 * integrity check as functions over the row sequence.
 */
module Ledger {
  import opened Wrappers
  import opened Numeric
  import opened Values

  /** One account's figures on one day; an absent transaction or description is "". */
  datatype Cell = Cell(balance: string, transaction: string, description: string)

  /** One day of the table: its date and a cell per account. */
  datatype Row = Row(date: string, cells: map<string, Cell>)

  /** The errors a front-end operation can throw. */
  datatype JsError = TypeError | RangeError

  /** Which of the two versions of the table component an operation follows. */
  datatype Variant = Current | Legacy

  /** Every row has the same accounts. */
  predicate Rectangular(rows: seq<Row>)
  {
    forall i, j :: 0 <= i < |rows| && 0 <= j < |rows| ==> rows[i].cells.Keys == rows[j].cells.Keys
  }

  /** Every row has a cell for account a. */
  predicate HasColumn(rows: seq<Row>, a: string)
  {
    forall i :: 0 <= i < |rows| ==> a in rows[i].cells
  }

  /** rows.findIndex(row => row.date === date), with -1 for no match. */
  function FindRow(rows: seq<Row>, date: string): (r: int)
    ensures -1 <= r < |rows|
    ensures r == -1 <==> forall i :: 0 <= i < |rows| ==> rows[i].date != date
    ensures r >= 0 ==> rows[r].date == date && forall i :: 0 <= i < r ==> rows[i].date != date
  {
    if rows == [] then -1
    else if rows[0].date == date then 0
    else
      var r := FindRow(rows[1..], date);
      assert forall i :: 1 <= i < |rows| ==> rows[i] == rows[1..][i - 1];
      if r == -1 then -1 else r + 1
  }

  /**
   * How the balance loop reads a cell's text as an amount: parseValue, with
   * eval fixed. The recurrence below is stated for any reader `read` and
   * any formatter `fmt`; the dashboard's are this reader and toFixed(2).
   */
  function Reader(ev: string -> EvalOutcome): (read: string -> real)
    ensures forall s :: read(s) == ParseValue(ev, s)
  {
    s => ParseValue(ev, s)
  }

  /** Account a's cells, top to bottom. */
  function Column(rows: seq<Row>, a: string): (c: seq<Cell>)
    requires HasColumn(rows, a)
    ensures |c| == |rows| && forall i :: 0 <= i < |rows| ==> c[i] == rows[i].cells[a]
  {
    seq(|rows|, i requires 0 <= i < |rows| => rows[i].cells[a])
  }

  /** rows with account a's cells replaced by col, row for row. */
  function WithColumn(rows: seq<Row>, a: string, col: seq<Cell>): (r: seq<Row>)
    requires |col| == |rows|
    ensures |r| == |rows| && HasColumn(r, a)
    ensures forall i :: 0 <= i < |rows| ==> r[i] == rows[i].(cells := rows[i].cells[a := col[i]])
  {
    seq(|rows|, i requires 0 <= i < |rows| => rows[i].(cells := rows[i].cells[a := col[i]]))
  }

  /** The balance a cell's day hands on to the next: its balance plus its transaction, formatted. */
  function NextBalance(read: string -> real, fmt: real -> string, prev: Cell): string
  {
    fmt(read(prev.balance) + read(OrZero(prev.transaction)))
  }

  /**
   * The balance loop from cell i on, with prevBalance pb and prevTransaction
   * pt carried from cell i - 1: each cell's balance becomes pb + pt,
   * formatted, and then that cell's new balance and its transaction are
   * read as the next pb and pt.
   */
  function Propagate(read: string -> real, fmt: real -> string, col: seq<Cell>, i: nat, pb: real, pt: real): (r: seq<Cell>)
    requires i <= |col|
    ensures |r| == |col|
    decreases |col| - i
  {
    if i == |col| then col
    else
      var s := fmt(pb + pt);
      Propagate(read, fmt, col[i := col[i].(balance := s)], i + 1, read(s), read(OrZero(col[i].transaction)))
  }

  /** One step of the balance loop: cell i gets its balance, and the loop goes on from cell i + 1. */
  lemma PropagateStep(read: string -> real, fmt: real -> string, col: seq<Cell>, i: nat, pb: real, pt: real)
    requires i < |col|
    ensures Propagate(read, fmt, col, i, pb, pt) ==
      Propagate(read, fmt, col[i := col[i].(balance := fmt(pb + pt))], i + 1, read(fmt(pb + pt)), read(OrZero(col[i].transaction)))
  {
  }

  lemma RectangularHasColumn(rows: seq<Row>, a: string, k: nat)
    requires Rectangular(rows) && k < |rows| && a in rows[k].cells
    ensures HasColumn(rows, a)
  {
    assert forall i :: 0 <= i < |rows| ==> rows[i].cells.Keys == rows[k].cells.Keys;
  }

  /**
   * recalculateBalances(rows, a, k) over account a's column. Cell k - 1
   * supplies the first prevBalance and prevTransaction. At k = 0 the
   * current version reads row -1 and throws, and the older version starts
   * from 0 and 0.
   */
  function Recalculated(v: Variant, read: string -> real, rows: seq<Row>, a: string, k: nat): (r: Result<seq<Row>, JsError>)
    requires Rectangular(rows) && k < |rows|
    ensures r.Ok? ==> |r.value| == |rows| && HasColumn(rows, a)
  {
    if a !in rows[k].cells then Err(TypeError)
    else if k == 0 && v == Current then Err(TypeError)
    else
      RectangularHasColumn(rows, a, k);
      Ok(WithColumn(rows, a, Balanced(read, Column(rows, a), k)))
  }

  /** Account a's column after the loop from k; k = 0 starts from 0 and 0. */
  function Balanced(read: string -> real, col: seq<Cell>, k: nat): (r: seq<Cell>)
    requires k < |col|
    ensures |r| == |col|
  {
    if k == 0 then Propagate(read, ToFixed2, col, 0, 0.0, 0.0)
    else Propagate(read, ToFixed2, col, k, read(col[k - 1].balance), read(OrZero(col[k - 1].transaction)))
  }

  /** r is col with at most the balances of cells k and later changed. */
  predicate OnlyBalancesFrom(col: seq<Cell>, r: seq<Cell>, k: nat)
  {
    |r| == |col| &&
    (forall i :: 0 <= i < |col| && i < k ==> r[i] == col[i]) &&
    (forall i :: 0 <= i < |col| ==> r[i].transaction == col[i].transaction && r[i].description == col[i].description)
  }

  /** Cell i's balance is its predecessor's NextBalance. */
  predicate FollowsAt(read: string -> real, fmt: real -> string, col: seq<Cell>, i: nat)
    requires 1 <= i < |col|
  {
    col[i].balance == NextBalance(read, fmt, col[i - 1])
  }

  /** Balances from cell `from` on follow the recurrence: each is its predecessor's NextBalance. */
  predicate Follows(read: string -> real, fmt: real -> string, col: seq<Cell>, from: nat)
  {
    forall i :: from <= i < |col| && 1 <= i ==> FollowsAt(read, fmt, col, i)
  }

  lemma {:induction false} PropagateFrame(read: string -> real, fmt: real -> string, col: seq<Cell>, i: nat, pb: real, pt: real)
    requires i <= |col|
    ensures OnlyBalancesFrom(col, Propagate(read, fmt, col, i, pb, pt), i)
    decreases |col| - i
  {
    if i < |col| {
      var s := fmt(pb + pt);
      PropagateFrame(read, fmt, col[i := col[i].(balance := s)], i + 1, read(s), read(OrZero(col[i].transaction)));
    }
  }

  /** One more cell at the front that follows the recurrence. */
  lemma FollowsExtend(read: string -> real, fmt: real -> string, col: seq<Cell>, k: nat)
    requires 1 <= k < |col|
    requires Follows(read, fmt, col, k + 1) && FollowsAt(read, fmt, col, k)
    ensures Follows(read, fmt, col, k)
  {
  }

  /**
   * What the loop computes: the first cell it writes gets pb + pt, and every
   * later cell follows the recurrence from its freshly written predecessor.
   */
  lemma {:induction false} PropagateValues(read: string -> real, fmt: real -> string, col: seq<Cell>, i: nat, pb: real, pt: real)
    requires i < |col|
    ensures var r := Propagate(read, fmt, col, i, pb, pt);
      r[i].balance == fmt(pb + pt) && Follows(read, fmt, r, i + 1)
    decreases |col| - i
  {
    var s := fmt(pb + pt);
    var col' := col[i := col[i].(balance := s)];
    var pb', pt' := read(s), read(OrZero(col[i].transaction));
    var r := Propagate(read, fmt, col', i + 1, pb', pt');
    PropagateFrame(read, fmt, col', i + 1, pb', pt');
    assert r[i] == col[i].(balance := s);
    if i + 1 < |col| {
      PropagateValues(read, fmt, col', i + 1, pb', pt');
      assert FollowsAt(read, fmt, r, i + 1);
      FollowsExtend(read, fmt, r, i + 1);
    }
  }

  /** Propagating over cells whose balances already follow the recurrence changes nothing. */
  lemma {:induction false} PropagateFixed(read: string -> real, fmt: real -> string, col: seq<Cell>, i: nat, pb: real, pt: real)
    requires 1 <= i <= |col|
    requires pb == read(col[i - 1].balance) && pt == read(OrZero(col[i - 1].transaction))
    requires Follows(read, fmt, col, i)
    ensures Propagate(read, fmt, col, i, pb, pt) == col
    decreases |col| - i
  {
    if i < |col| {
      var s := fmt(pb + pt);
      assert FollowsAt(read, fmt, col, i);
      assert col[i := col[i].(balance := s)] == col;
      PropagateFixed(read, fmt, col, i + 1, read(s), read(OrZero(col[i].transaction)));
    }
  }

  /** The balanced column follows the recurrence from max(k, 1) on, and the older start writes "0.00" first. */
  lemma BalancedFollows(read: string -> real, col: seq<Cell>, k: nat)
    requires k < |col|
    ensures var r := Balanced(read, col, k);
      OnlyBalancesFrom(col, r, k) && Follows(read, ToFixed2, r, k) &&
      (k == 0 ==> r[0].balance == ToFixed2(0.0 + 0.0))
  {
    var r := Balanced(read, col, k);
    if k == 0 {
      PropagateValues(read, ToFixed2, col, 0, 0.0, 0.0);
      PropagateFrame(read, ToFixed2, col, 0, 0.0, 0.0);
    } else {
      var pb, pt := read(col[k - 1].balance), read(OrZero(col[k - 1].transaction));
      PropagateValues(read, ToFixed2, col, k, pb, pt);
      PropagateFrame(read, ToFixed2, col, k, pb, pt);
      assert r[k - 1] == col[k - 1];
      assert FollowsAt(read, ToFixed2, r, k);
      FollowsExtend(read, ToFixed2, r, k);
    }
  }

  /** Balancing an already balanced column again from the same cell changes nothing. */
  lemma BalancedIdempotent(read: string -> real, col: seq<Cell>, k: nat)
    requires k < |col|
    ensures Balanced(read, Balanced(read, col, k), k) == Balanced(read, col, k)
  {
    var r := Balanced(read, col, k);
    BalancedFollows(read, col, k);
    if k == 0 {
      var s := ToFixed2(0.0 + 0.0);
      assert r[0 := r[0].(balance := s)] == r;
      PropagateFixed(read, ToFixed2, r, 1, read(s), read(OrZero(r[0].transaction)));
    } else {
      PropagateFixed(read, ToFixed2, r, k, read(r[k - 1].balance), read(OrZero(r[k - 1].transaction)));
    }
  }

  /** Replacing a column that every row has keeps the table rectangular and every row's accounts. */
  lemma WithColumnKeys(rows: seq<Row>, a: string, col: seq<Cell>)
    requires Rectangular(rows) && HasColumn(rows, a) && |col| == |rows|
    ensures var r := WithColumn(rows, a, col);
      Rectangular(r) && forall i :: 0 <= i < |rows| ==> r[i].cells.Keys == rows[i].cells.Keys
  {
    var r := WithColumn(rows, a, col);
    assert forall i :: 0 <= i < |rows| ==> r[i].cells.Keys == rows[i].cells.Keys;
  }

  lemma ColumnOfWithColumn(rows: seq<Row>, a: string, col: seq<Cell>)
    requires |col| == |rows|
    ensures Column(WithColumn(rows, a, col), a) == col
  {
  }

  /**
   * After a recalculation from row k, account a's balance on every row from
   * max(k, 1) on is the previous row's balance plus its transaction, read
   * with the reader and written to two decimals, reading the already
   * rewritten previous row; the older version's start at row 0 writes
   * "0.00" there.
   */
  lemma RecalculatedFollows(v: Variant, read: string -> real, rows: seq<Row>, a: string, k: nat)
    requires Rectangular(rows) && k < |rows|
    requires Recalculated(v, read, rows, a, k).Ok?
    ensures var r := Recalculated(v, read, rows, a, k).value;
      HasColumn(r, a) && Follows(read, ToFixed2, Column(r, a), k) &&
      (k == 0 ==> r[0].cells[a].balance == ToFixed2(0.0 + 0.0))
  {
    var col := Column(rows, a);
    ColumnOfWithColumn(rows, a, Balanced(read, col, k));
    BalancedFollows(read, col, k);
  }

  /**
   * A recalculation rewrites only account a's balances in row k and later:
   * the row count, earlier rows, every date, transaction and description and
   * every other account stay as they were.
   */
  lemma RecalculatedFrame(v: Variant, read: string -> real, rows: seq<Row>, a: string, k: nat)
    requires Rectangular(rows) && k < |rows|
    requires Recalculated(v, read, rows, a, k).Ok?
    ensures var r := Recalculated(v, read, rows, a, k).value;
      Rectangular(r) &&
      (forall i :: 0 <= i < k ==> r[i] == rows[i]) &&
      (forall i :: 0 <= i < |rows| ==> r[i].date == rows[i].date && r[i].cells.Keys == rows[i].cells.Keys) &&
      (forall i, b :: 0 <= i < |rows| && b in rows[i].cells && b != a ==> r[i].cells[b] == rows[i].cells[b]) &&
      (forall i :: 0 <= i < |rows| ==>
        r[i].cells[a].transaction == rows[i].cells[a].transaction &&
        r[i].cells[a].description == rows[i].cells[a].description)
  {
    var col := Column(rows, a);
    var b := Balanced(read, col, k);
    var r := WithColumn(rows, a, b);
    assert Recalculated(v, read, rows, a, k) == Ok(r);
    BalancedFollows(read, col, k);
    WithColumnKeys(rows, a, b);
    forall i | 0 <= i < k
      ensures r[i] == rows[i]
    {
      assert rows[i].cells[a := col[i]] == rows[i].cells;
    }
  }

  /** The current version throws for k = 0 and for an account the rows lack, the older one only for the latter. */
  lemma RecalculatedErrors(v: Variant, read: string -> real, rows: seq<Row>, a: string, k: nat)
    requires Rectangular(rows) && k < |rows|
    ensures Recalculated(v, read, rows, a, k).Err? <==> a !in rows[k].cells || (k == 0 && v == Current)
  {
  }

  /** Writing the same column twice is writing it once. */
  lemma WithColumnTwice(rows: seq<Row>, a: string, col: seq<Cell>)
    requires |col| == |rows|
    ensures WithColumn(WithColumn(rows, a, col), a, col) == WithColumn(rows, a, col)
  {
    var r := WithColumn(rows, a, col);
    forall i | 0 <= i < |r|
      ensures WithColumn(r, a, col)[i] == r[i]
    {
      assert r[i].cells[a := col[i]] == r[i].cells;
    }
  }

  /** Recalculating again from the same row changes nothing further. */
  lemma RecalculatedIdempotent(v: Variant, read: string -> real, rows: seq<Row>, a: string, k: nat)
    requires Rectangular(rows) && k < |rows|
    requires Recalculated(v, read, rows, a, k).Ok?
    ensures var r := Recalculated(v, read, rows, a, k).value;
      Rectangular(r) && Recalculated(v, read, r, a, k) == Ok(r)
  {
    var b := Balanced(read, Column(rows, a), k);
    var r := WithColumn(rows, a, b);
    assert Recalculated(v, read, rows, a, k) == Ok(r);
    RecalculatedFrame(v, read, rows, a, k);
    ColumnOfWithColumn(rows, a, b);
    BalancedIdempotent(read, Column(rows, a), k);
    assert Balanced(read, Column(r, a), k) == b;
    WithColumnTwice(rows, a, b);
  }

  /** One integrity warning: the account and the date of the row whose balance is off. */
  datatype Warning = Warning(account: string, date: string)

  /**
   * The integrity check's verdict for row j > 0 of account a: the previous
   * row's balance plus its transaction differs from this row's balance by
   * more than 0.01. Each is read with parse, which the check instantiates
   * with parseFloat (ParseFloat), and a NaN among them makes the comparison
   * false.
   */
  predicate WarnsAt(parse: string -> Option<real>, rows: seq<Row>, a: string, j: nat)
    requires 1 <= j < |rows| && a in rows[j - 1].cells && a in rows[j].cells
  {
    Discrepant(parse(rows[j - 1].cells[a].balance), parse(OrZero(rows[j - 1].cells[a].transaction)),
               parse(rows[j].cells[a].balance))
  }

  /** prevBalance + prevTransaction and the balance, all numbers, more than a cent apart. */
  predicate Discrepant(pb: Option<real>, pt: Option<real>, b: Option<real>)
  {
    pb.Some? && pt.Some? && b.Some? && Abs(pb.value + pt.value - b.value) > 0.01
  }

  /** Rounding x to cents with toFixed(2) and reading it back moves it by at most 0.005. */
  lemma RoundedReadsBack(x: real, s: string)
    requires s == ToFixed2(x)
    ensures ParseFloat(s).Some? && Abs(x - ParseFloat(s).value) <= 0.005
  {
    ParseToFixed2(x);
  }

  /** The check on one row, with its parsed inputs abstracted: a sum rounded to cents is within a cent of the sum. */
  lemma NoWarningCore(x: real, s: string, fb: Option<real>, ft: Option<real>)
    requires s == ToFixed2(x)
    requires fb.Some? && ft.Some? ==> x == fb.value + ft.value
    ensures !Discrepant(fb, ft, ParseFloat(s))
  {
    RoundedReadsBack(x, s);
  }

  /** Wherever parseFloat reads a number, the reader built on parseValue reads the same number. */
  lemma ReaderAgrees(ev: string -> EvalOutcome, s: string)
    ensures ParseFloat(s).Some? ==> Reader(ev)(s) == ParseFloat(s).value
  {
    if ParseFloat(s).Some? {
      ParseValueOfNumber(ev, s, ParseFloat(s).value);
    }
  }

  /** A balance written from the previous cell never draws a warning against that cell. */
  lemma NoWarningCell(ev: string -> EvalOutcome, prev: Cell, cur: string)
    requires cur == NextBalance(Reader(ev), ToFixed2, prev)
    ensures !Discrepant(ParseFloat(prev.balance), ParseFloat(OrZero(prev.transaction)), ParseFloat(cur))
  {
    var t := OrZero(prev.transaction);
    var x := Reader(ev)(prev.balance) + Reader(ev)(t);
    assert cur == ToFixed2(x);
    assert ParseFloat(prev.balance).Some? && ParseFloat(t).Some? ==> x == ParseFloat(prev.balance).value + ParseFloat(t).value by {
      ReaderAgrees(ev, prev.balance);
      ReaderAgrees(ev, t);
    }
    NoWarningCore(x, cur, ParseFloat(prev.balance), ParseFloat(t));
  }

  /** A freshly recalculated balance never draws a warning: rounding to cents moves it by at most 0.005. */
  lemma NoWarningAt(ev: string -> EvalOutcome, r: seq<Row>, a: string, j: nat)
    requires 1 <= j < |r| && HasColumn(r, a)
    requires FollowsAt(Reader(ev), ToFixed2, Column(r, a), j)
    ensures !WarnsAt(ParseFloat, r, a, j)
  {
    NoWarningCell(ev, r[j - 1].cells[a], r[j].cells[a].balance);
  }

  /**
   * After a recalculation from row k, the integrity check finds nothing to
   * report for account a on any row from max(k, 1) on.
   */
  lemma RecalculatedHasNoWarnings(v: Variant, ev: string -> EvalOutcome, rows: seq<Row>, a: string, k: nat)
    requires Rectangular(rows) && k < |rows|
    requires Recalculated(v, Reader(ev), rows, a, k).Ok?
    ensures var r := Recalculated(v, Reader(ev), rows, a, k).value;
      HasColumn(r, a) && forall j :: k <= j < |r| && 1 <= j ==> !WarnsAt(ParseFloat, r, a, j)
  {
    var r := Recalculated(v, Reader(ev), rows, a, k).value;
    RecalculatedFollows(v, Reader(ev), rows, a, k);
    forall j | k <= j < |r| && 1 <= j
      ensures !WarnsAt(ParseFloat, r, a, j)
    {
      NoWarningAt(ev, r, a, j);
    }
  }
}

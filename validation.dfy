/**
 * The table's data integrity check. For every listed account it walks the
 * rows in order, keeping the previous row's balance and transaction as read
 * by parseFloat, and logs a warning for each row after the first whose
 * balance is off by more than a cent. A row without the account makes the
 * check throw a TypeError there, after the warnings already logged; an empty
 * table is not checked at all. The reading of a cell's text is the
 * parameter parse; the table passes parseFloat (ParseFloat).
 */
module Validation {
  import opened Wrappers
  import opened Numeric
  import opened Values
  import opened Ledger

  /** What the check leaves behind: the warnings it logged, in order, and the error it stopped with, if any. */
  datatype Log = Log(warnings: seq<Warning>, error: Option<JsError>)

  /** Every row before n has account a. */
  predicate ColumnUpTo(rows: seq<Row>, a: string, n: nat)
  {
    n <= |rows| && forall i :: 0 <= i < n ==> a in rows[i].cells
  }

  /** The warnings logged for account a over rows 1 to n - 1, in row order. */
  function ScanWarnings(parse: string -> Option<real>, rows: seq<Row>, a: string, n: nat): (w: seq<Warning>)
    requires ColumnUpTo(rows, a, n)
    ensures forall x :: x in w ==> x.account == a
    decreases n
  {
    if n <= 1 then []
    else
      var w := ScanWarnings(parse, rows, a, n - 1);
      if WarnsAt(parse, rows, a, n - 1) then w + [Warning(a, rows[n - 1].date)] else w
  }

  /** The first row without account a, if there is one. */
  function FirstMissing(rows: seq<Row>, a: string): (r: Option<nat>)
    ensures r.None? <==> HasColumn(rows, a)
    ensures r.Some? ==> r.value < |rows| && a !in rows[r.value].cells && ColumnUpTo(rows, a, r.value)
  {
    if rows == [] then None
    else if a !in rows[0].cells then Some(0)
    else
      match FirstMissing(rows[1..], a)
      case None => None
      case Some(i) => assert forall j :: 1 <= j <= i ==> rows[j] == rows[1..][j - 1]; Some(i + 1)
  }

  /** One more row scanned: a warning is added exactly when that row's balance is off. */
  lemma ScanStep(parse: string -> Option<real>, rows: seq<Row>, a: string, i: nat, pb: Option<real>, pt: Option<real>, b: Option<real>)
    requires 1 <= i && ColumnUpTo(rows, a, i + 1)
    requires pb == parse(rows[i - 1].cells[a].balance) && pt == parse(OrZero(rows[i - 1].cells[a].transaction))
    requires b == parse(rows[i].cells[a].balance)
    ensures ScanWarnings(parse, rows, a, i + 1) ==
      ScanWarnings(parse, rows, a, i) + if Discrepant(pb, pt, b) then [Warning(a, rows[i].date)] else []
  {
  }

  /** The first row without the account is the one before which every row has it. */
  lemma {:induction false} FirstMissingAt(rows: seq<Row>, a: string, i: nat)
    requires i < |rows| && ColumnUpTo(rows, a, i) && a !in rows[i].cells
    ensures FirstMissing(rows, a) == Some(i)
  {
    if i > 0 {
      var tail := rows[1..];
      assert forall j :: 0 <= j < i - 1 ==> tail[j] == rows[j + 1];
      FirstMissingAt(tail, a, i - 1);
    }
  }

  /** The check for one account: its warnings up to the first row without it, and a TypeError there. */
  function AccountLog(parse: string -> Option<real>, rows: seq<Row>, a: string): Log
  {
    match FirstMissing(rows, a)
    case None => Log(ScanWarnings(parse, rows, a, |rows|), None)
    case Some(m) => Log(ScanWarnings(parse, rows, a, m), Some(TypeError))
  }

  /** The whole check: accounts in order, stopping at the first one that throws; nothing for an empty table. */
  function Checked(parse: string -> Option<real>, rows: seq<Row>, accounts: seq<string>): Log
  {
    if rows == [] || accounts == [] then Log([], None)
    else
      var l := Checked(parse, rows, accounts[..|accounts| - 1]);
      if l.error.Some? then l
      else
        var m := AccountLog(parse, rows, accounts[|accounts| - 1]);
        Log(l.warnings + m.warnings, m.error)
  }

  /** x is the warning for row i of account a: the row follows the first and its balance is off. */
  predicate WarningFor(parse: string -> Option<real>, rows: seq<Row>, a: string, i: int, x: Warning)
  {
    1 <= i < |rows| && a in rows[i - 1].cells && a in rows[i].cells && WarnsAt(parse, rows, a, i) && x == Warning(a, rows[i].date)
  }

  /** ScanWarnings names exactly the rows from 1 to n - 1 where the balance is off. */
  lemma {:induction false} ScanWarningsExactly(parse: string -> Option<real>, rows: seq<Row>, a: string, n: nat, x: Warning)
    requires ColumnUpTo(rows, a, n)
    ensures x in ScanWarnings(parse, rows, a, n) <==> exists i :: i < n && WarningFor(parse, rows, a, i, x)
    decreases n
  {
    if n > 1 {
      ScanWarningsExactly(parse, rows, a, n - 1, x);
      if WarningFor(parse, rows, a, n - 1, x) {
        assert x in ScanWarnings(parse, rows, a, n);
      }
    }
  }

  /** The check throws exactly when the table is not empty and a listed account lacks a row. */
  lemma {:induction false} CheckedErrors(parse: string -> Option<real>, rows: seq<Row>, accounts: seq<string>)
    ensures Checked(parse, rows, accounts).error.Some? <==> rows != [] && exists a :: a in accounts && !HasColumn(rows, a)
    ensures Checked(parse, rows, accounts).error.Some? ==> Checked(parse, rows, accounts).error == Some(TypeError)
  {
    if rows != [] && accounts != [] {
      var init := accounts[..|accounts| - 1];
      var last := accounts[|accounts| - 1];
      CheckedErrors(parse, rows, init);
      assert accounts == init + [last];
    }
  }

  /** Every warning the check logs names a row, after the first, of a listed account whose balance is off. */
  lemma {:induction false} CheckedSound(parse: string -> Option<real>, rows: seq<Row>, accounts: seq<string>, x: Warning)
    requires x in Checked(parse, rows, accounts).warnings
    ensures exists a, i :: a in accounts && WarningFor(parse, rows, a, i, x)
  {
    var init := accounts[..|accounts| - 1];
    var last := accounts[|accounts| - 1];
    var l := Checked(parse, rows, init);
    assert accounts == init + [last];
    if x in l.warnings {
      CheckedSound(parse, rows, init, x);
      var a, i :| a in init && WarningFor(parse, rows, a, i, x);
      assert a in accounts;
    } else {
      var n := match FirstMissing(rows, last) case None => |rows| case Some(m) => m;
      ScanWarningsExactly(parse, rows, last, n, x);
    }
  }

  /** When the check does not throw, it warns about every row, after the first, of a listed account whose balance is off. */
  lemma {:induction false} CheckedComplete(parse: string -> Option<real>, rows: seq<Row>, accounts: seq<string>, a: string, i: nat)
    requires Checked(parse, rows, accounts).error.None?
    requires a in accounts && 1 <= i < |rows|
    ensures HasColumn(rows, a)
    ensures WarnsAt(parse, rows, a, i) ==> Warning(a, rows[i].date) in Checked(parse, rows, accounts).warnings
  {
    var init := accounts[..|accounts| - 1];
    var last := accounts[|accounts| - 1];
    assert accounts == init + [last];
    if a in init {
      CheckedComplete(parse, rows, init, a, i);
    } else {
      var x := Warning(a, rows[i].date);
      ScanWarningsExactly(parse, rows, last, |rows|, x);
      if WarnsAt(parse, rows, a, i) {
        assert WarningFor(parse, rows, a, i, x);
      }
    }
  }

  /** A recalculation from the first row leaves the check nothing to report for that account. */
  lemma RecalculatedFromStartChecks(ev: string -> EvalOutcome, rows: seq<Row>, a: string)
    requires Rectangular(rows) && rows != []
    requires Recalculated(Legacy, Reader(ev), rows, a, 0).Ok?
    ensures AccountLog(ParseFloat, Recalculated(Legacy, Reader(ev), rows, a, 0).value, a) == Log([], None)
  {
    var r := Recalculated(Legacy, Reader(ev), rows, a, 0).value;
    RecalculatedHasNoWarnings(Legacy, ev, rows, a, 0);
    if ScanWarnings(ParseFloat, r, a, |r|) != [] {
      var x := ScanWarnings(ParseFloat, r, a, |r|)[0];
      ScanWarningsExactly(ParseFloat, r, a, |r|, x);
    }
  }

  /** Once the check has thrown on some account, the accounts after it change nothing. */
  lemma {:induction false} CheckedStops(parse: string -> Option<real>, rows: seq<Row>, accounts: seq<string>, n: nat)
    requires n <= |accounts|
    requires Checked(parse, rows, accounts[..n]).error.Some?
    ensures Checked(parse, rows, accounts) == Checked(parse, rows, accounts[..n])
    decreases |accounts|
  {
    if n < |accounts| {
      var init := accounts[..|accounts| - 1];
      assert init[..n] == accounts[..n];
      CheckedStops(parse, rows, init, n);
    } else {
      assert accounts[..n] == accounts;
    }
  }
}

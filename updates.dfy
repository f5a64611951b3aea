/**
 * The two ways the table's rows change, stated as functions: seeding the
 * rows with the transactions and notes the server remembers users entered,
 * and committing an edited transaction cell. Both write into one account's
 * cell of the row with the given date and then rerun the balance loop from
 * that row. A write into a row that lacks the account throws a TypeError
 * before anything changes; a throw from the balance loop leaves the write in
 * place.
 */
module Updates {
  import opened Wrappers
  import opened Numeric
  import opened Values
  import opened Ledger
  import opened Edits

  /** The rows after an operation, and the error it threw, if any. */
  datatype Outcome = Outcome(rows: seq<Row>, error: Option<JsError>)

  /** Same number of rows, and every row keeps its date. */
  predicate SameDates(rows: seq<Row>, r: seq<Row>)
  {
    |r| == |rows| && forall i :: 0 <= i < |rows| ==> r[i].date == rows[i].date
  }

  /** Same number of rows, and every row keeps its date and its accounts. */
  predicate SameShape(rows: seq<Row>, r: seq<Row>)
  {
    SameDates(rows, r) && forall i :: 0 <= i < |rows| ==> r[i].cells.Keys == rows[i].cells.Keys
  }

  /** rows with account a's cell of row idx replaced by c. */
  function SetCell(rows: seq<Row>, idx: nat, a: string, c: Cell): (r: seq<Row>)
    requires idx < |rows|
    ensures |r| == |rows|
  {
    rows[idx := rows[idx].(cells := rows[idx].cells[a := c])]
  }

  /** The field named by an edit: "transaction" names the transaction, anything else the description. */
  function FieldOf(c: Cell, f: string): string
  {
    if f == "transaction" then c.transaction else c.description
  }

  /** The two field names differ (they have the same length, so this takes a look at a letter). */
  lemma FieldNamesDiffer()
    ensures "transaction" != "description"
  {
    assert "transaction"[0] != "description"[0];
  }

  /** A cell with the non-empty parts of a user transaction written into it. */
  function Filled(c: Cell, t: UserTransaction): (r: Cell)
    ensures r.balance == c.balance
    ensures r.transaction == (if t.transaction != "" then t.transaction else c.transaction)
    ensures r.description == (if t.description != "" then t.description else c.description)
  {
    c.(transaction := if t.transaction != "" then t.transaction else c.transaction,
       description := if t.description != "" then t.description else c.description)
  }

  /**
   * Account a's cell of row idx becomes c, and, when recalc holds, the
   * balance loop runs from row idx; a throw from the loop keeps the written
   * cell.
   */
  function Written(v: Variant, read: string -> real, rows: seq<Row>, idx: nat, a: string, c: Cell, recalc: bool): (o: Outcome)
    requires Rectangular(rows) && idx < |rows| && a in rows[idx].cells
    ensures Rectangular(o.rows) && |o.rows| == |rows|
  {
    var w := SetCell(rows, idx, a, c);
    assert Rectangular(w) by {
      assert w[idx].cells.Keys == rows[idx].cells.Keys;
    }
    if !recalc then Outcome(w, None)
    else
      match Recalculated(v, read, w, a, idx)
      case Err(e) => Outcome(w, Some(e))
      case Ok(r) =>
        RecalculatedFrame(v, read, w, a, idx);
        Outcome(r, None)
  }

  /**
   * One user transaction applied to the rows: an unknown date, or nothing
   * to write, changes nothing; a row without the account throws; otherwise
   * its non-empty transaction and description are written and, when it
   * has a transaction, the balances are recalculated from its row.
   */
  function SeedRow(v: Variant, read: string -> real, rows: seq<Row>, t: UserTransaction): (o: Outcome)
    requires Rectangular(rows)
    ensures Rectangular(o.rows) && |o.rows| == |rows|
  {
    var idx := FindRow(rows, t.date);
    if idx == -1 || (t.transaction == "" && t.description == "") then Outcome(rows, None)
    else if t.account !in rows[idx].cells then Outcome(rows, Some(TypeError))
    else Written(v, read, rows, idx, t.account, Filled(rows[idx].cells[t.account], t), t.transaction != "")
  }

  /** The user transactions applied in order; the first throw ends the seeding. */
  function Seeded(v: Variant, read: string -> real, rows: seq<Row>, ts: seq<UserTransaction>): (o: Outcome)
    requires Rectangular(rows)
    ensures Rectangular(o.rows) && |o.rows| == |rows|
  {
    if ts == [] then Outcome(rows, None)
    else
      var o := Seeded(v, read, rows, ts[..|ts| - 1]);
      if o.error.Some? then o else SeedRow(v, read, o.rows, ts[|ts| - 1])
  }

  /**
   * A committed transaction edit: a date without a row changes nothing; a
   * row without the account throws; otherwise the transaction is written
   * and the balances are recalculated from its row.
   */
  function Committed(v: Variant, read: string -> real, rows: seq<Row>, date: string, a: string, value: string): (o: Outcome)
    requires Rectangular(rows)
    ensures Rectangular(o.rows) && |o.rows| == |rows|
  {
    var idx := FindRow(rows, date);
    if idx == -1 then Outcome(rows, None)
    else if a !in rows[idx].cells then Outcome(rows, Some(TypeError))
    else Written(v, read, rows, idx, a, rows[idx].cells[a].(transaction := value), true)
  }

  /** The texts other than balances, row by row and account by account, are the same except in account a's cell of row idx. */
  predicate TextsKeptExcept(rows: seq<Row>, r: seq<Row>, idx: int, a: string)
    requires |r| == |rows|
  {
    forall i, b :: 0 <= i < |rows| && b in rows[i].cells && (i != idx || b != a) ==>
      b in r[i].cells && r[i].cells[b].transaction == rows[i].cells[b].transaction && r[i].cells[b].description == rows[i].cells[b].description
  }

  /** No cell's balance changes. */
  predicate BalancesKept(rows: seq<Row>, r: seq<Row>)
    requires |r| == |rows|
  {
    forall i, b :: 0 <= i < |rows| && b in rows[i].cells ==>
      b in r[i].cells && r[i].cells[b].balance == rows[i].cells[b].balance
  }

  /** The rows before idx, and every cell of an account other than a, are as they were. */
  predicate KeptOutside(rows: seq<Row>, r: seq<Row>, idx: int, a: string)
    requires |r| == |rows|
  {
    (forall i :: 0 <= i < |rows| && i < idx ==> r[i] == rows[i]) &&
    (forall i, b :: 0 <= i < |rows| && b in rows[i].cells && b != a ==> b in r[i].cells && r[i].cells[b] == rows[i].cells[b])
  }

  /** Setting one cell keeps the shape, puts c in place and leaves every other cell as it was. */
  lemma SetCellEffect(rows: seq<Row>, idx: nat, a: string, c: Cell)
    requires idx < |rows| && a in rows[idx].cells
    ensures var w := SetCell(rows, idx, a, c);
      SameShape(rows, w) && w[idx].cells[a] == c && TextsKeptExcept(rows, w, idx, a) &&
      (forall i :: 0 <= i < |rows| && i != idx ==> w[i] == rows[i])
  {
    var w := SetCell(rows, idx, a, c);
    assert w[idx].cells.Keys == rows[idx].cells.Keys;
  }

  /** A write throws exactly when it reruns the balance loop from row 0 in the current version, and then with a TypeError. */
  lemma WrittenErrors(v: Variant, read: string -> real, rows: seq<Row>, idx: nat, a: string, c: Cell, recalc: bool)
    requires Rectangular(rows) && idx < |rows| && a in rows[idx].cells
    ensures var o := Written(v, read, rows, idx, a, c, recalc);
      (o.error.Some? <==> recalc && idx == 0 && v == Current) &&
      (o.error.Some? ==> o.error == Some(TypeError))
  {
    SetCellEffect(rows, idx, a, c);
    RecalculatedErrors(v, read, SetCell(rows, idx, a, c), a, idx);
  }

  /**
   * After a write the cell holds c's transaction and description, no other
   * transaction or description changes, and the rows before idx are as
   * they were.
   */
  lemma WrittenTexts(v: Variant, read: string -> real, rows: seq<Row>, idx: nat, a: string, c: Cell, recalc: bool)
    requires Rectangular(rows) && idx < |rows| && a in rows[idx].cells
    ensures var o := Written(v, read, rows, idx, a, c, recalc);
      SameShape(rows, o.rows) &&
      o.rows[idx].cells[a].transaction == c.transaction && o.rows[idx].cells[a].description == c.description &&
      TextsKeptExcept(rows, o.rows, idx, a) &&
      (forall i :: 0 <= i < idx ==> o.rows[i] == rows[i])
  {
    var w := SetCell(rows, idx, a, c);
    SetCellEffect(rows, idx, a, c);
    if recalc && Recalculated(v, read, w, a, idx).Ok? {
      var r := Recalculated(v, read, w, a, idx).value;
      assert Written(v, read, rows, idx, a, c, recalc).rows == r;
      RecalculatedFrame(v, read, w, a, idx);
      WriteThenRecalc(rows, idx, a, c, r);
    }
  }

  /**
   * Rows that a recalculation of account a from row idx made out of the
   * rows with cell (idx, a) set to c keep the shape and every other cell's
   * texts, hold c's texts in that cell, and keep the rows before idx and
   * the other accounts' cells.
   */
  lemma {:induction false} WriteThenRecalc(rows: seq<Row>, idx: nat, a: string, c: Cell, r: seq<Row>)
    requires idx < |rows| && a in rows[idx].cells && |r| == |rows|
    requires var w := SetCell(rows, idx, a, c);
      (forall i :: 0 <= i < idx ==> r[i] == w[i]) &&
      (forall i :: 0 <= i < |rows| ==> r[i].date == w[i].date && r[i].cells.Keys == w[i].cells.Keys) &&
      (forall i, b :: 0 <= i < |rows| && b in w[i].cells && b != a ==> r[i].cells[b] == w[i].cells[b]) &&
      (forall i :: 0 <= i < |rows| && a in w[i].cells ==>
        r[i].cells[a].transaction == w[i].cells[a].transaction && r[i].cells[a].description == w[i].cells[a].description)
    ensures SameShape(rows, r) && TextsKeptExcept(rows, r, idx, a) && KeptOutside(rows, r, idx, a)
    ensures r[idx].cells[a].transaction == c.transaction && r[idx].cells[a].description == c.description
  {
    var w := SetCell(rows, idx, a, c);
    SetCellEffect(rows, idx, a, c);
  }

  /**
   * A write changes nothing before row idx and nothing in another account's
   * cells; one that does not rerun the loop, of a cell that keeps its
   * balance, changes no balance at all.
   */
  lemma {:induction false} WrittenOutside(v: Variant, read: string -> real, rows: seq<Row>, idx: nat, a: string, c: Cell, recalc: bool)
    requires Rectangular(rows) && idx < |rows| && a in rows[idx].cells
    ensures var o := Written(v, read, rows, idx, a, c, recalc);
      KeptOutside(rows, o.rows, idx, a) &&
      (!recalc && c.balance == rows[idx].cells[a].balance ==> BalancesKept(rows, o.rows))
  {
    var w := SetCell(rows, idx, a, c);
    SetCellEffect(rows, idx, a, c);
    assert KeptOutside(rows, w, idx, a);
    if recalc && Recalculated(v, read, w, a, idx).Ok? {
      var r := Recalculated(v, read, w, a, idx).value;
      assert Written(v, read, rows, idx, a, c, recalc).rows == r;
      RecalculatedFrame(v, read, w, a, idx);
      WriteThenRecalc(rows, idx, a, c, r);
    }
  }

  /** One cell after a write: the written cell's texts are c's, any other cell's are as before. */
  lemma WrittenCell(v: Variant, read: string -> real, rows: seq<Row>, idx: nat, a: string, c: Cell, recalc: bool, j: nat, b: string)
    requires Rectangular(rows) && idx < |rows| && a in rows[idx].cells && j < |rows| && b in rows[j].cells
    ensures var o := Written(v, read, rows, idx, a, c, recalc);
      var y := if j == idx && b == a then c else rows[j].cells[b];
      b in o.rows[j].cells && o.rows[j].cells[b].transaction == y.transaction && o.rows[j].cells[b].description == y.description
  {
    WrittenTexts(v, read, rows, idx, a, c, recalc);
  }

  /** A write that reruns the balance loop without a throw leaves the column following the recurrence from row idx. */
  lemma WrittenFollows(v: Variant, read: string -> real, rows: seq<Row>, idx: nat, a: string, c: Cell)
    requires Rectangular(rows) && idx < |rows| && a in rows[idx].cells
    requires Written(v, read, rows, idx, a, c, true).error.None?
    ensures var o := Written(v, read, rows, idx, a, c, true);
      HasColumn(o.rows, a) && Follows(read, ToFixed2, Column(o.rows, a), idx)
  {
    var w := SetCell(rows, idx, a, c);
    assert Rectangular(w) by {
      assert w[idx].cells.Keys == rows[idx].cells.Keys;
    }
    RecalculatedFollows(v, read, w, a, idx);
  }

  /**
   * A committed edit on a date without a row changes nothing. Otherwise it
   * throws exactly when the row lacks the account or, in the current
   * version, is the first row; it leaves the rows before its row and every
   * other account's cells as they were; when the account is there the cell
   * holds the new transaction, no other transaction or description changes,
   * and without a throw the balances from that row on follow the recurrence.
   */
  lemma CommittedEffect(v: Variant, read: string -> real, rows: seq<Row>, date: string, a: string, value: string)
    requires Rectangular(rows)
    ensures var o := Committed(v, read, rows, date, a, value);
      var idx := FindRow(rows, date);
      SameShape(rows, o.rows) &&
      (idx == -1 ==> o == Outcome(rows, None)) &&
      (o.error.Some? <==> idx != -1 && (a !in rows[idx].cells || (idx == 0 && v == Current))) &&
      (idx != -1 ==> KeptOutside(rows, o.rows, idx, a)) &&
      (idx != -1 && a in rows[idx].cells ==>
        o.rows[idx].cells[a].transaction == value && TextsKeptExcept(rows, o.rows, idx, a) &&
        (o.error.None? ==> Follows(read, ToFixed2, Column(o.rows, a), idx)))
  {
    var idx := FindRow(rows, date);
    if idx != -1 && a in rows[idx].cells {
      var c := rows[idx].cells[a].(transaction := value);
      WrittenErrors(v, read, rows, idx, a, c, true);
      WrittenTexts(v, read, rows, idx, a, c, true);
      WrittenOutside(v, read, rows, idx, a, c, true);
      if Written(v, read, rows, idx, a, c, true).error.None? {
        WrittenFollows(v, read, rows, idx, a, c);
      }
    }
  }

  /** Rows with the same dates are searched alike. */
  lemma {:induction false} FindRowSameDates(rows: seq<Row>, r: seq<Row>, date: string)
    requires SameDates(rows, r)
    ensures FindRow(r, date) == FindRow(rows, date)
  {
    if rows != [] {
      FindRowSameDates(rows[1..], r[1..], date);
    }
  }

  /**
   * A seeding step that does not throw writes the transaction's non-empty
   * transaction or description into its account's cell of the first row
   * with its date, and changes no other transaction or description.
   */
  lemma SeedRowField(v: Variant, read: string -> real, rows: seq<Row>, t: UserTransaction, j: nat, a: string, f: string)
    requires Rectangular(rows) && j < |rows| && a in rows[j].cells
    requires f == "transaction" || f == "description"
    requires SeedRow(v, read, rows, t).error.None?
    ensures a in SeedRow(v, read, rows, t).rows[j].cells
    ensures FieldOf(SeedRow(v, read, rows, t).rows[j].cells[a], f) ==
      if Supplies(t, rows[j].date, a, f) && j == FindRow(rows, rows[j].date) then Supplied(t, f) else FieldOf(rows[j].cells[a], f)
  {
    var idx := FindRow(rows, t.date);
    if idx != -1 && (t.transaction != "" || t.description != "") {
      var c := Filled(rows[idx].cells[t.account], t);
      FieldNamesDiffer();
      WrittenCell(v, read, rows, idx, t.account, c, t.transaction != "", j, a);
    }
  }

  /** A seeding step throws exactly when its row lacks its account, or, in the current version, it recalculates from row 0. */
  lemma SeedRowErrors(v: Variant, read: string -> real, rows: seq<Row>, t: UserTransaction)
    requires Rectangular(rows)
    ensures var idx := FindRow(rows, t.date);
      SeedRow(v, read, rows, t).error.Some? <==>
        idx != -1 && (t.transaction != "" || t.description != "") &&
        (t.account !in rows[idx].cells || (t.transaction != "" && idx == 0 && v == Current))
  {
    var idx := FindRow(rows, t.date);
    if idx != -1 && (t.transaction != "" || t.description != "") && t.account in rows[idx].cells {
      WrittenErrors(v, read, rows, idx, t.account, Filled(rows[idx].cells[t.account], t), t.transaction != "");
    }
  }

  /** A seeding step keeps every row's date and accounts. */
  lemma SeedRowShape(v: Variant, read: string -> real, rows: seq<Row>, t: UserTransaction)
    requires Rectangular(rows)
    ensures SameShape(rows, SeedRow(v, read, rows, t).rows)
  {
    var idx := FindRow(rows, t.date);
    if idx != -1 && (t.transaction != "" || t.description != "") && t.account in rows[idx].cells {
      WrittenTexts(v, read, rows, idx, t.account, Filled(rows[idx].cells[t.account], t), t.transaction != "");
    }
  }

  /**
   * What a seeding step does to balances: one with no row for its date, or
   * with no transaction, changes no balance; one with a row leaves the rows
   * before it and every other account's cells as they were; and one that
   * writes a transaction without a throw leaves its account's balances
   * following the recurrence from its row.
   */
  lemma {:induction false} SeedRowBalances(v: Variant, read: string -> real, rows: seq<Row>, t: UserTransaction)
    requires Rectangular(rows)
    ensures var o := SeedRow(v, read, rows, t);
      var idx := FindRow(rows, t.date);
      (idx == -1 || t.transaction == "" ==> BalancesKept(rows, o.rows)) &&
      (idx != -1 ==> KeptOutside(rows, o.rows, idx, t.account)) &&
      (idx != -1 && t.transaction != "" && o.error.None? ==>
        HasColumn(o.rows, t.account) && Follows(read, ToFixed2, Column(o.rows, t.account), idx))
  {
    var idx := FindRow(rows, t.date);
    if idx != -1 && (t.transaction != "" || t.description != "") && t.account in rows[idx].cells {
      var c := Filled(rows[idx].cells[t.account], t);
      WrittenOutside(v, read, rows, idx, t.account, c, t.transaction != "");
      if t.transaction != "" && Written(v, read, rows, idx, t.account, c, true).error.None? {
        WrittenFollows(v, read, rows, idx, t.account, c);
      }
    }
  }

  /** The user transaction writes a transaction for account a into a row that exists. */
  predicate SeedsBalance(rows: seq<Row>, t: UserTransaction, a: string)
  {
    t.account == a && t.transaction != "" && FindRow(rows, t.date) != -1
  }

  /**
   * The row from which seeding recalculates account a: the earliest row
   * that a user transaction writes a transaction of a into, or the row
   * count when there is none.
   */
  function SeedFrom(rows: seq<Row>, ts: seq<UserTransaction>, a: string): (k: nat)
    ensures k <= |rows|
    ensures forall j :: 0 <= j < |ts| && SeedsBalance(rows, ts[j], a) ==> k <= FindRow(rows, ts[j].date)
    ensures k < |rows| ==> exists j :: 0 <= j < |ts| && SeedsBalance(rows, ts[j], a) && k == FindRow(rows, ts[j].date)
  {
    if ts == [] then |rows|
    else
      var init := ts[..|ts| - 1];
      var k := SeedFrom(rows, init, a);
      assert forall j :: 0 <= j < |init| ==> init[j] == ts[j];
      var t := ts[|ts| - 1];
      if SeedsBalance(rows, t, a) && FindRow(rows, t.date) < k then FindRow(rows, t.date) else k
  }

  /** A seeding step that does not write a transaction of a keeps a's balances and transactions. */
  lemma {:induction false} SeedRowColumnKept(v: Variant, read: string -> real, rows: seq<Row>, t: UserTransaction, a: string)
    requires Rectangular(rows) && HasColumn(rows, a) && !SeedsBalance(rows, t, a)
    ensures var o := SeedRow(v, read, rows, t).rows;
      forall i :: 0 <= i < |rows| ==>
        a in o[i].cells && o[i].cells[a].balance == rows[i].cells[a].balance &&
        o[i].cells[a].transaction == rows[i].cells[a].transaction
  {
    var idx := FindRow(rows, t.date);
    if idx != -1 && (t.transaction != "" || t.description != "") && t.account in rows[idx].cells {
      var c := Filled(rows[idx].cells[t.account], t);
      WrittenOutside(v, read, rows, idx, t.account, c, t.transaction != "");
      WrittenTexts(v, read, rows, idx, t.account, c, t.transaction != "");
    }
  }

  /**
   * A seeding step that writes a transaction of a keeps a's balances
   * following the recurrence from k0, or from its own row when that is
   * earlier, and keeps a's balances before that row.
   */
  lemma {:induction false} SeedStepWrites(v: Variant, read: string -> real, rows: seq<Row>, t: UserTransaction, a: string, k0: nat)
    requires Rectangular(rows) && HasColumn(rows, a) && k0 <= |rows| && SeedsBalance(rows, t, a)
    requires SeedRow(v, read, rows, t).error.None?
    requires Follows(read, ToFixed2, Column(rows, a), k0)
    ensures var o := SeedRow(v, read, rows, t).rows;
      var idx := FindRow(rows, t.date);
      var k := if idx < k0 then idx else k0;
      HasColumn(o, a) && Follows(read, ToFixed2, Column(o, a), k) &&
      (forall i :: 0 <= i < |rows| && i < k ==> o[i].cells[a].balance == rows[i].cells[a].balance)
  {
    SeedRowBalances(v, read, rows, t);
    FollowsJoin(read, rows, SeedRow(v, read, rows, t).rows, a, k0, FindRow(rows, t.date));
  }

  /**
   * Rows that agree with the old ones before idx, and whose column a follows
   * the recurrence from idx, follow it from wherever the old column did,
   * when that is earlier, and keep the balances before that row.
   */
  lemma {:induction false} FollowsJoin(read: string -> real, rows: seq<Row>, o: seq<Row>, a: string, k0: nat, idx: nat)
    requires |o| == |rows| && HasColumn(rows, a) && HasColumn(o, a)
    requires Follows(read, ToFixed2, Column(rows, a), k0) && Follows(read, ToFixed2, Column(o, a), idx)
    requires forall i :: 0 <= i < |rows| && i < idx ==> o[i] == rows[i]
    ensures var k := if idx < k0 then idx else k0;
      Follows(read, ToFixed2, Column(o, a), k) &&
      (forall i :: 0 <= i < |rows| && i < k ==> o[i].cells[a].balance == rows[i].cells[a].balance)
  {
    var c0 := Column(rows, a);
    var c := Column(o, a);
    forall i | k0 <= i < idx && i < |c| && 1 <= i
      ensures FollowsAt(read, ToFixed2, c, i)
    {
      assert c[i] == c0[i] && c[i - 1] == c0[i - 1];
      assert FollowsAt(read, ToFixed2, c0, i);
    }
  }

  /** A seeding step that writes no transaction of a keeps a's balances following the recurrence from k0. */
  lemma {:induction false} SeedStepKeeps(v: Variant, read: string -> real, rows: seq<Row>, t: UserTransaction, a: string, k0: nat)
    requires Rectangular(rows) && HasColumn(rows, a) && !SeedsBalance(rows, t, a)
    requires Follows(read, ToFixed2, Column(rows, a), k0)
    ensures var o := SeedRow(v, read, rows, t).rows;
      HasColumn(o, a) && Follows(read, ToFixed2, Column(o, a), k0) &&
      (forall i :: 0 <= i < |rows| ==> o[i].cells[a].balance == rows[i].cells[a].balance)
  {
    SeedRowColumnKept(v, read, rows, t, a);
    ColumnKeptFollows(read, rows, SeedRow(v, read, rows, t).rows, a, k0);
  }

  /** Rows whose column a keeps its balances and transactions keep following the recurrence from k0. */
  lemma {:induction false} ColumnKeptFollows(read: string -> real, rows: seq<Row>, o: seq<Row>, a: string, k0: nat)
    requires |o| == |rows| && HasColumn(rows, a) && Follows(read, ToFixed2, Column(rows, a), k0)
    requires forall i :: 0 <= i < |rows| ==>
      a in o[i].cells && o[i].cells[a].balance == rows[i].cells[a].balance &&
      o[i].cells[a].transaction == rows[i].cells[a].transaction
    ensures HasColumn(o, a) && Follows(read, ToFixed2, Column(o, a), k0)
  {
    var c0 := Column(rows, a);
    var c := Column(o, a);
    forall i | k0 <= i < |c| && 1 <= i
      ensures FollowsAt(read, ToFixed2, c, i)
    {
      assert NextBalance(read, ToFixed2, c[i - 1]) == NextBalance(read, ToFixed2, c0[i - 1]);
      assert FollowsAt(read, ToFixed2, c0, i);
    }
  }

  /**
   * After a seeding without a throw, account a's balances follow the
   * recurrence from the earliest row a user transaction wrote a transaction
   * of a into, and the balances before that row are as they were.
   */
  lemma {:induction false} SeededBalances(v: Variant, read: string -> real, rows: seq<Row>, ts: seq<UserTransaction>, a: string)
    requires Rectangular(rows) && HasColumn(rows, a)
    requires Seeded(v, read, rows, ts).error.None?
    ensures var o := Seeded(v, read, rows, ts).rows;
      var k := SeedFrom(rows, ts, a);
      HasColumn(o, a) && Follows(read, ToFixed2, Column(o, a), k) &&
      (forall i :: 0 <= i < |rows| && i < k ==> o[i].cells[a].balance == rows[i].cells[a].balance)
  {
    if ts != [] {
      var n := |ts| - 1;
      var init := ts[..n];
      var t := ts[n];
      var o0 := Seeded(v, read, rows, init).rows;
      assert Seeded(v, read, rows, ts) == SeedRow(v, read, o0, t);
      SeededBalances(v, read, rows, init, a);
      SeededDates(v, read, rows, init);
      FindRowSameDates(rows, o0, t.date);
      assert SeedsBalance(o0, t, a) == SeedsBalance(rows, t, a);
      if SeedsBalance(o0, t, a) {
        SeedStepWrites(v, read, o0, t, a, SeedFrom(rows, init, a));
      } else {
        SeedStepKeeps(v, read, o0, t, a, SeedFrom(rows, init, a));
      }
    }
  }

  /** Seeding keeps every row's date and accounts. */
  lemma {:induction false} SeededShape(v: Variant, read: string -> real, rows: seq<Row>, ts: seq<UserTransaction>)
    requires Rectangular(rows)
    ensures SameShape(rows, Seeded(v, read, rows, ts).rows)
  {
    if ts != [] {
      var init := ts[..|ts| - 1];
      var o := Seeded(v, read, rows, init);
      SeededShape(v, read, rows, init);
      if o.error.None? {
        SeedRowShape(v, read, o.rows, ts[|ts| - 1]);
      }
    }
  }

  /** Seeding keeps every row's date. */
  lemma SeededDates(v: Variant, read: string -> real, rows: seq<Row>, ts: seq<UserTransaction>)
    requires Rectangular(rows)
    ensures SameDates(rows, Seeded(v, read, rows, ts).rows)
  {
    SeededShape(v, read, rows, ts);
  }

  /**
   * After a seeding without a throw, each transaction and description of
   * the first row with its date holds the value of the last user
   * transaction that supplies it, and every other one is as before.
   */
  lemma {:induction false} SeededField(v: Variant, read: string -> real, rows: seq<Row>, ts: seq<UserTransaction>, j: nat, a: string, f: string)
    requires Rectangular(rows) && j < |rows| && a in rows[j].cells
    requires f == "transaction" || f == "description"
    requires Seeded(v, read, rows, ts).error.None?
    ensures a in Seeded(v, read, rows, ts).rows[j].cells
    ensures FieldOf(Seeded(v, read, rows, ts).rows[j].cells[a], f) ==
      if j != FindRow(rows, rows[j].date) then FieldOf(rows[j].cells[a], f)
      else match LastSupplier(ts, rows[j].date, a, f)
        case None => FieldOf(rows[j].cells[a], f)
        case Some(m) => Supplied(ts[m], f)
  {
    if ts != [] {
      var n := |ts| - 1;
      var init := ts[..n];
      var o := Seeded(v, read, rows, init);
      FieldNamesDiffer();
      assert Seeded(v, read, rows, ts) == SeedRow(v, read, o.rows, ts[n]);
      SeededField(v, read, rows, init, j, a, f);
      SeededDates(v, read, rows, init);
      FindRowSameDates(rows, o.rows, rows[j].date);
      SeedRowField(v, read, o.rows, ts[n], j, a, f);
      if !Supplies(ts[n], rows[j].date, a, f) {
        var m := LastSupplier(init, rows[j].date, a, f);
        if m.Some? {
          assert init[m.value] == ts[m.value];
        }
      }
    }
  }

  /**
   * Seeding the rows and seeding an empty edit record from the same user
   * transactions agree: wherever the record holds an edit of a transaction
   * or description, the first row with that date shows the edit's value.
   */
  lemma SeededRowsShowEdits(v: Variant, read: string -> real, rows: seq<Row>, ts: seq<UserTransaction>, now: string,
                            j: nat, a: string, f: string)
    requires Rectangular(rows) && j < |rows| && a in rows[j].cells && j == FindRow(rows, rows[j].date)
    requires f == "transaction" || f == "description"
    requires Seeded(v, read, rows, ts).error.None?
    requires Has(SeededEdits(map[], ts, now), rows[j].date, a, f)
    ensures a in Seeded(v, read, rows, ts).rows[j].cells
    ensures Get(SeededEdits(map[], ts, now), rows[j].date, a, f) == Some(Edit(FieldOf(Seeded(v, read, rows, ts).rows[j].cells[a], f), now))
  {
    SeededEditsExactly(map[], ts, now, rows[j].date, a, f);
    SeededField(v, read, rows, ts, j, a, f);
  }

  /** Once a seeding step has thrown, the user transactions after it change nothing. */
  lemma {:induction false} SeededStops(v: Variant, read: string -> real, rows: seq<Row>, ts: seq<UserTransaction>, n: nat)
    requires Rectangular(rows) && n <= |ts|
    requires Seeded(v, read, rows, ts[..n]).error.Some?
    ensures Seeded(v, read, rows, ts) == Seeded(v, read, rows, ts[..n])
    decreases |ts|
  {
    if n < |ts| {
      var init := ts[..|ts| - 1];
      assert init[..n] == ts[..n];
      SeededStops(v, read, rows, init, n);
    } else {
      assert ts[..n] == ts;
    }
  }
}

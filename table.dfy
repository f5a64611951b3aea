/**
 * The table component's state and its handlers. The rows and the edit
 * record are fields that the handlers update in place: the balance loop
 * rewrites balances row by row, seeding walks the user transactions the
 * server remembers, a committed transaction edit records the edit and
 * reruns the balance loop, and the integrity check walks every account's
 * rows. Each method is proved against the function that states what it
 * computes.
 */
module Table {
  import opened Wrappers
  import opened Numeric
  import opened Values
  import opened Ledger
  import opened Edits
  import opened Updates
  import opened Validation

  /** field.split(".")[0]: the column field's text before its first ".". */
  function AccountOfField(field: string): (r: string)
    ensures |r| <= |field| && r == field[..|r|] && '.' !in r
    ensures |r| < |field| ==> field[|r|] == '.'
  {
    if field == [] || field[0] == '.' then [] else [field[0]] + AccountOfField(field[1..])
  }

  /** The account of a column whose field is the account name, a "." and the cell part is that account, when its name has no ".". */
  lemma {:induction false} AccountOfColumnField(account: string, part: string)
    requires '.' !in account
    ensures AccountOfField(account + "." + part) == account
  {
    if account != [] {
      assert (account + "." + part)[1..] == account[1..] + "." + part;
      AccountOfColumnField(account[1..], part);
    }
  }

  /**
   * The for loop of recalculateBalances over account a's rows from k on,
   * with prevBalance pb and prevTransaction pt carried in: each balance is
   * rewritten in place.
   */
  method BalanceLoop(read: string -> real, fmt: real -> string, rows: seq<Row>, a: string, k: nat, pb: real, pt: real) returns (out: seq<Row>)
    requires HasColumn(rows, a) && k <= |rows|
    ensures out == WithColumn(rows, a, Propagate(read, fmt, Column(rows, a), k, pb, pt))
  {
    ghost var col := Column(rows, a);
    ghost var target := Propagate(read, fmt, col, k, pb, pt);
    out := rows;
    var prevBalance, prevTransaction := pb, pt;
    var i := k;
    while i < |out|
      invariant k <= i <= |out| == |rows| == |col|
      invariant forall j :: 0 <= j < |out| ==> out[j] == rows[j].(cells := rows[j].cells[a := col[j]])
      invariant Propagate(read, fmt, col, i, prevBalance, prevTransaction) == target
      decreases |out| - i
    {
      PropagateStep(read, fmt, col, i, prevBalance, prevTransaction);
      var cell := out[i].cells[a];
      var balance := fmt(prevBalance + prevTransaction);
      out := out[i := out[i].(cells := out[i].cells[a := cell.(balance := balance)])];
      col := col[i := cell.(balance := balance)];
      prevBalance := read(balance);
      prevTransaction := read(OrZero(cell.transaction));
      i := i + 1;
    }
    assert col == target;
  }

  /** The table: the rows on display and the record of user edits. */
  class AgTable {
    /** Which version of the component this is. */
    const variant: Variant
    /** How a cell's text is read as an amount: parseValue with the page's eval. */
    const read: string -> real
    /** The rows, one per day. */
    var rows: seq<Row>
    /** The user edit record. */
    var edits: EditMap

    /** Every row has the same accounts. */
    predicate Valid()
      reads this
    {
      Rectangular(rows)
    }

    /** The table over the server's rows, before seeding; the edit record starts empty. */
    constructor (variant: Variant, ev: string -> EvalOutcome, rows: seq<Row>)
      requires Rectangular(rows)
      ensures Valid()
      ensures this.variant == variant && read == Reader(ev) && this.rows == rows && edits == map[]
    {
      this.variant := variant;
      this.read := Reader(ev);
      this.rows := rows;
      this.edits := map[];
    }

    /**
     * recalculateBalances: from row k on, each balance of account a becomes
     * the previous row's balance plus its transaction, to two decimals.
     */
    method RecalculateBalances(a: string, k: nat) returns (err: Option<JsError>)
      requires Valid() && k < |rows|
      modifies this
      ensures Valid() && edits == old(edits)
      ensures match Recalculated(variant, read, old(rows), a, k)
        case Ok(r) => rows == r && err == None
        case Err(e) => rows == old(rows) && err == Some(e)
    {
      if a !in rows[k].cells || (k == 0 && variant == Current) {
        return Some(TypeError);
      }
      RectangularHasColumn(rows, a, k);
      ghost var rows0 := rows;
      var prevBalance, prevTransaction := 0.0, 0.0;
      if k > 0 {
        prevBalance := read(rows[k - 1].cells[a].balance);
        prevTransaction := read(OrZero(rows[k - 1].cells[a].transaction));
      }
      rows := BalanceLoop(read, ToFixed2, rows, a, k, prevBalance, prevTransaction);
      assert Recalculated(variant, read, rows0, a, k) == Ok(rows);
      WithColumnKeys(rows0, a, Balanced(read, Column(rows0, a), k));
      return None;
    }

    /**
     * One user transaction applied to the rows: written into the row of its
     * date, and a transaction reruns the balance loop from there.
     */
    method SeedRow(t: UserTransaction) returns (err: Option<JsError>)
      requires Valid()
      modifies this
      ensures Valid() && edits == old(edits)
      ensures Outcome(rows, err) == Updates.SeedRow(variant, read, old(rows), t)
    {
      var idx := FindRow(rows, t.date);
      if idx == -1 || (t.transaction == "" && t.description == "") {
        return None;
      }
      if t.account !in rows[idx].cells {
        return Some(TypeError);
      }
      ghost var before := rows;
      var cell := rows[idx].cells[t.account];
      if t.transaction != "" {
        cell := cell.(transaction := t.transaction);
      }
      if t.description != "" {
        cell := cell.(description := t.description);
      }
      rows := SetCell(rows, idx, t.account, cell);
      assert rows[idx].cells.Keys == before[idx].cells.Keys;
      if t.transaction != "" {
        err := RecalculateBalances(t.account, idx);
      } else {
        err := None;
      }
    }

    /**
     * The row state's initialiser: the user transactions the server
     * remembers are applied in order; the first throw ends it.
     */
    method SeedRows(uts: seq<UserTransaction>) returns (err: Option<JsError>)
      requires Valid()
      modifies this
      ensures Valid() && edits == old(edits)
      ensures Outcome(rows, err) == Seeded(variant, read, old(rows), uts)
    {
      ghost var rows0 := rows;
      var n := 0;
      while n < |uts|
        invariant n <= |uts| && Valid() && edits == old(edits)
        invariant Seeded(variant, read, rows0, uts[..n]) == Outcome(rows, None)
      {
        assert uts[..n + 1][..n] == uts[..n] && uts[..n + 1][n] == uts[n];
        err := SeedRow(uts[n]);
        if err.Some? {
          SeededStops(variant, read, rows0, uts, n + 1);
          return;
        }
        n := n + 1;
      }
      assert uts[..n] == uts;
      return None;
    }

    /**
     * The edit record's initialiser: each user transaction gets a field map
     * for its date and account, holding its non-empty transaction and
     * description stamped now.
     */
    method SeedEdits(uts: seq<UserTransaction>, now: string)
      modifies this
      ensures rows == old(rows)
      ensures edits == SeededEdits(map[], uts, now)
    {
      edits := map[];
      var n := 0;
      while n < |uts|
        invariant n <= |uts| && rows == old(rows)
        invariant edits == SeededEdits(map[], uts[..n], now)
      {
        var t := uts[n];
        assert uts[..n + 1][..n] == uts[..n] && uts[..n + 1][n] == t;
        var accounts := if t.date in edits then edits[t.date] else map[];
        var fields := if t.account in accounts then accounts[t.account] else map[];
        if t.transaction != "" {
          fields := fields["transaction" := Edit(t.transaction, now)];
        }
        if t.description != "" {
          fields := fields["description" := Edit(t.description, now)];
        }
        SeedEditAt(edits, t, now);
        edits := edits[t.date := accounts[t.account := fields]];
        n := n + 1;
      }
      assert uts[..n] == uts;
    }

    /**
     * handleEditUpdate: the field gets the value stamped now; the current
     * version also keeps a given style under "format", while the older one
     * takes no style.
     */
    method HandleEditUpdate(date: string, account: string, field: string, value: string, now: string, format: Option<Style>)
      modifies this
      ensures rows == old(rows)
      ensures edits == EditUpdated(old(edits), date, account, field, value, now, if variant == Legacy then None else format)
    {
      var accounts := if date in edits then edits[date] else map[];
      var fields := if account in accounts then accounts[account] else map[];
      fields := fields[field := Edit(value, now)];
      if variant == Current && format.Some? {
        fields := fields["format" := FormatOf(field, format.value)];
      }
      EditUpdatedAt(edits, date, account, field, value, now, if variant == Legacy then None else format);
      edits := edits[date := accounts[account := fields]];
    }

    /**
     * A transaction cell's edit committed: the account is the column
     * field's text before its first "."; a date without a row changes
     * nothing; otherwise the edit is recorded, the transaction is written
     * and the balances are recalculated from that row, and a row without
     * the account throws after the edit is recorded.
     */
    method CommitTransaction(field: string, date: string, newValue: string, now: string) returns (err: Option<JsError>)
      requires Valid()
      modifies this
      ensures Valid()
      ensures Outcome(rows, err) == Committed(variant, read, old(rows), date, AccountOfField(field), newValue)
      ensures edits == if FindRow(old(rows), date) == -1 then old(edits)
                       else EditUpdated(old(edits), date, AccountOfField(field), "transaction", newValue, now, None)
    {
      var account := AccountOfField(field);
      var idx := FindRow(rows, date);
      if idx == -1 {
        return None;
      }
      HandleEditUpdate(date, account, "transaction", newValue, now, None);
      if account !in rows[idx].cells {
        return Some(TypeError);
      }
      ghost var before := rows;
      rows := SetCell(rows, idx, account, rows[idx].cells[account].(transaction := newValue));
      assert rows[idx].cells.Keys == before[idx].cells.Keys;
      err := RecalculateBalances(account, idx);
    }

    /** A note cell's edit committed: the edit is recorded and the rows stay as they are. */
    method CommitDescription(date: string, account: string, newValue: string, now: string)
      modifies this
      ensures rows == old(rows)
      ensures edits == EditUpdated(old(edits), date, account, "description", newValue, now, None)
    {
      HandleEditUpdate(date, account, "description", newValue, now, None);
    }

    /**
     * The integrity check for one account: each row's balance read by
     * parseFloat is compared with the previous row's balance plus its
     * transaction; a row without the account throws.
     */
    method CheckAccount(a: string) returns (log: Log)
      ensures log == AccountLog(ParseFloat, rows, a)
    {
      var warnings: seq<Warning> := [];
      var prevBalance, prevTransaction := Some(0.0), Some(0.0);
      var i := 0;
      while i < |rows|
        invariant ColumnUpTo(rows, a, i)
        invariant warnings == ScanWarnings(ParseFloat, rows, a, i)
        invariant i > 0 ==> prevBalance == ParseFloat(rows[i - 1].cells[a].balance) &&
                            prevTransaction == ParseFloat(OrZero(rows[i - 1].cells[a].transaction))
      {
        if a !in rows[i].cells {
          FirstMissingAt(rows, a, i);
          return Log(warnings, Some(TypeError));
        }
        var balance := ParseFloat(rows[i].cells[a].balance);
        var current := ParseFloat(OrZero(rows[i].cells[a].transaction));
        if i > 0 {
          ScanStep(ParseFloat, rows, a, i, prevBalance, prevTransaction, balance);
          if Discrepant(prevBalance, prevTransaction, balance) {
            warnings := warnings + [Warning(a, rows[i].date)];
          }
        }
        prevBalance, prevTransaction := balance, current;
        i := i + 1;
      }
      return Log(warnings, None);
    }

    /**
     * The data integrity check over the rows as they stand after seeding:
     * the accounts in turn, up to the first that throws; an empty table is
     * not checked.
     */
    method Validate(accounts: seq<string>) returns (log: Log)
      ensures log == Checked(ParseFloat, rows, accounts)
    {
      if rows == [] {
        return Log([], None);
      }
      var warnings: seq<Warning> := [];
      var n := 0;
      while n < |accounts|
        invariant n <= |accounts|
        invariant Checked(ParseFloat, rows, accounts[..n]) == Log(warnings, None)
      {
        assert accounts[..n + 1][..n] == accounts[..n] && accounts[..n + 1][n] == accounts[n];
        var l := CheckAccount(accounts[n]);
        warnings := warnings + l.warnings;
        if l.error.Some? {
          CheckedStops(ParseFloat, rows, accounts, n + 1);
          return Log(warnings, l.error);
        }
        n := n + 1;
      }
      assert accounts[..n] == accounts;
      return Log(warnings, None);
    }
  }
}

/**
 * The server side of the dashboard, the Fava extension's bootstrap: one row
 * per calendar day from the ledger's first transaction to its last
 * transaction or price; each tracked account's balance on a day is the
 * amount of its last journal entry on or before that day; each posting is
 * booked on the row of the day before it, with the first two words of its
 * payee as a description; amounts are rendered as "$1234.50" / "-$3.20".
 *
 * Days are day numbers (a Python date counted in days, so date +
 * timedelta(days=1) is day + 1); amounts are exact decimals. The ledger
 * queries are inputs: each account's journal and the rows of the postings
 * query.
 */
module Server {
  import opened Wrappers
  import opened Numeric

  type Day = int

  /** The exceptions bootstrap lets through. */
  datatype PyError = FavaAPIError | IndexError | KeyError | AttributeError | TypeError

  /** A ledger directive, as far as the duration scan looks at it. */
  datatype Directive = Transaction(date: Day) | Price(date: Day) | Other(date: Day)

  predicate Dated(e: Directive) { e.Transaction? || e.Price? }

  // ---------------------------------------------------------------- duration

  /** The index of the first transaction at or after position i. */
  function FirstTransactionFrom(entries: seq<Directive>, i: nat): (r: Option<nat>)
    requires i <= |entries|
    ensures r.Some? ==> i <= r.value < |entries| && entries[r.value].Transaction?
    ensures r.Some? ==> forall k :: i <= k < r.value ==> !entries[k].Transaction?
    ensures r.None? ==> forall k :: i <= k < |entries| ==> !entries[k].Transaction?
    decreases |entries| - i
  {
    if i == |entries| then None
    else if entries[i].Transaction? then Some(i)
    else FirstTransactionFrom(entries, i + 1)
  }

  /** The index of the last transaction or price before position n. */
  function LastDatedBefore(entries: seq<Directive>, n: nat): (r: Option<nat>)
    requires n <= |entries|
    ensures r.Some? ==> r.value < n && Dated(entries[r.value])
    ensures r.Some? ==> forall k :: r.value < k < n ==> !Dated(entries[k])
    ensures r.None? ==> forall k :: 0 <= k < n ==> !Dated(entries[k])
  {
    if n == 0 then None
    else if Dated(entries[n - 1]) then Some(n - 1)
    else LastDatedBefore(entries, n - 1)
  }

  /**
   * The ledger's first and last day: the first transaction's date and the
   * last transaction-or-price's date; FavaAPIError when there is none.
   */
  function LedgerDuration(entries: seq<Directive>): (r: Result<(Day, Day), PyError>)
    ensures r.Err? <==> forall k :: 0 <= k < |entries| ==> !entries[k].Transaction?
    ensures r.Err? ==> r.error == FavaAPIError
  {
    match (FirstTransactionFrom(entries, 0), LastDatedBefore(entries, |entries|))
    case (Some(i), Some(j)) => Ok((entries[i].date, entries[j].date))
    case _ => Err(FavaAPIError)
  }

  /** get_ledger_duration: a forward scan for the first transaction and a backward one for the last dated entry. */
  method GetLedgerDuration(entries: seq<Directive>) returns (r: Result<(Day, Day), PyError>)
    ensures r == LedgerDuration(entries)
  {
    var first: Option<Day> := None;
    var i := 0;
    while i < |entries|
      invariant i <= |entries|
      invariant FirstTransactionFrom(entries, i) == FirstTransactionFrom(entries, 0)
      invariant first == None
    {
      if entries[i].Transaction? {
        first := Some(entries[i].date);
        break;
      }
      i := i + 1;
    }
    var last: Option<Day> := None;
    var n: nat := |entries|;
    while n > 0
      invariant n <= |entries|
      invariant LastDatedBefore(entries, n) == LastDatedBefore(entries, |entries|)
      invariant last == None
    {
      if Dated(entries[n - 1]) {
        last := Some(entries[n - 1].date);
        break;
      }
      n := n - 1;
    }
    if first.None? || last.None? {
      return Err(FavaAPIError);
    }
    return Ok((first.value, last.value));
  }

  predicate SortedEntries(entries: seq<Directive>)
  {
    forall i, j :: 0 <= i < j < |entries| ==> entries[i].date <= entries[j].date
  }

  /**
   * On a ledger in date order the duration spans every transaction and
   * every price, and starts no later than it ends.
   */
  lemma LedgerDurationSpans(entries: seq<Directive>)
    requires SortedEntries(entries)
    ensures LedgerDuration(entries).Ok? ==>
      var (first, last) := LedgerDuration(entries).value;
      first <= last &&
      (forall k :: 0 <= k < |entries| && entries[k].Transaction? ==> first <= entries[k].date) &&
      (forall k :: 0 <= k < |entries| && Dated(entries[k]) ==> entries[k].date <= last)
  {
    if LedgerDuration(entries).Ok? {
      var i := FirstTransactionFrom(entries, 0).value;
      var j := LastDatedBefore(entries, |entries|).value;
      assert i <= j;
    }
  }

  // ---------------------------------------------------------------- accounts

  predicate StartsWith(s: string, prefix: string)
  {
    |prefix| <= |s| && s[..|prefix|] == prefix
  }

  /** The accounts the dashboard tracks: checking and savings accounts, by name prefix. */
  predicate IsTracked(account: string)
  {
    StartsWith(account, "Assets:Checking") || StartsWith(account, "Assets:Saving")
  }

  /** The ledger's account names, filtered to the tracked ones, in ledger order. */
  function TrackedAccounts(keys: seq<string>): (r: seq<string>)
    ensures forall a :: a in r <==> a in keys && IsTracked(a)
    ensures |r| <= |keys|
  {
    if keys == [] then []
    else
      var init, a := keys[..|keys| - 1], keys[|keys| - 1];
      assert keys == init + [a];
      var rest := TrackedAccounts(init);
      if IsTracked(a) then rest + [a] else rest
  }

  // ---------------------------------------------------------------- balances

  /** One entry of an account's journal: its date and the USD balance after it. */
  datatype JournalEntry = JournalEntry(date: Day, amount: real)

  /** Where the balance scan for day stops, from position i on: at the first entry dated after day. */
  function ScanEnd(journal: seq<JournalEntry>, day: Day, i: nat): (n: nat)
    requires i <= |journal|
    ensures i <= n <= |journal|
    ensures forall k :: i <= k < n ==> journal[k].date <= day
    ensures n < |journal| ==> journal[n].date > day
    decreases |journal| - i
  {
    if i == |journal| || journal[i].date > day then i else ScanEnd(journal, day, i + 1)
  }

  /** The balance the scan leaves for day: the entry just before where it stops, 0 when that is the start. */
  function BalanceOn(journal: seq<JournalEntry>, day: Day): real
  {
    var n := ScanEnd(journal, day, 0);
    if n == 0 then 0.0 else journal[n - 1].amount
  }

  /** The inner balance loop of bootstrap: keep the amount of each entry on or before day, stop at the first later one. */
  method ScanBalance(journal: seq<JournalEntry>, day: Day) returns (b: real)
    ensures b == BalanceOn(journal, day)
  {
    b := 0.0;
    var i := 0;
    while i < |journal|
      invariant i <= |journal|
      invariant ScanEnd(journal, day, i) == ScanEnd(journal, day, 0)
      invariant b == if i == 0 then 0.0 else journal[i - 1].amount
    {
      if journal[i].date <= day {
        b := journal[i].amount;
      } else {
        break;
      }
      i := i + 1;
    }
  }

  predicate SortedJournal(journal: seq<JournalEntry>)
  {
    forall i, j :: 0 <= i < j < |journal| ==> journal[i].date <= journal[j].date
  }

  /**
   * On a journal in date order the balance on a day is the amount of the
   * last entry dated on or before it, and 0 before the first entry.
   */
  lemma BalanceOnSorted(journal: seq<JournalEntry>, day: Day)
    requires SortedJournal(journal)
    ensures (forall k :: 0 <= k < |journal| ==> journal[k].date > day) ==> BalanceOn(journal, day) == 0.0
    ensures forall k :: 0 <= k < |journal| && journal[k].date <= day && (k + 1 == |journal| || journal[k + 1].date > day) ==>
      BalanceOn(journal, day) == journal[k].amount
  {
    var n := ScanEnd(journal, day, 0);
    forall k | 0 <= k < |journal| && journal[k].date <= day && (k + 1 == |journal| || journal[k + 1].date > day)
      ensures n == k + 1
    {
    }
  }

  // ---------------------------------------------------------------- the grid

  /** An account's cell in a row before formatting: Decimal balance and transaction, and the description set. */
  datatype GridCell = GridCell(balance: real, transaction: real, description: set<string>)

  datatype GridRow = GridRow(date: Day, cells: map<string, GridCell>)

  /** The cell a new row holds for an account: its balance on that day, no transaction, no description. */
  function FreshCell(journal: string -> seq<JournalEntry>, account: string, day: Day): GridCell
  {
    GridCell(BalanceOn(journal(account), day), 0.0, {})
  }

  /** The cells of the row for day: one fresh cell per tracked account. */
  function FreshCells(accounts: seq<string>, journal: string -> seq<JournalEntry>, day: Day): (m: map<string, GridCell>)
    ensures forall a :: a in m <==> a in accounts
    ensures forall a :: a in m ==> m[a] == FreshCell(journal, a, day)
  {
    if accounts == [] then map[]
    else
      var init, a := accounts[..|accounts| - 1], accounts[|accounts| - 1];
      assert accounts == init + [a];
      FreshCells(init, journal, day)[a := FreshCell(journal, a, day)]
  }

  /** The row for day before any posting is booked. */
  function FreshRowOn(accounts: seq<string>, journal: string -> seq<JournalEntry>, day: Day): GridRow
  {
    GridRow(day, FreshCells(accounts, journal, day))
  }

  /** The number of days from first to last inclusive. */
  function DayCount(first: Day, last: Day): nat
  {
    if first <= last then last - first + 1 else 0
  }

  /** The grid bootstrap builds before booking postings: the row for first + i at position i. */
  function Grid(accounts: seq<string>, journal: string -> seq<JournalEntry>, first: Day, last: Day): (rows: seq<GridRow>)
    ensures |rows| == DayCount(first, last)
    ensures forall i :: 0 <= i < |rows| ==> rows[i] == FreshRowOn(accounts, journal, first + i)
  {
    seq(DayCount(first, last), i requires 0 <= i => FreshRowOn(accounts, journal, first + i))
  }

  /** The grid has one row per day, strictly ascending, from first to last. */
  lemma GridDays(accounts: seq<string>, journal: string -> seq<JournalEntry>, first: Day, last: Day)
    ensures var rows := Grid(accounts, journal, first, last);
      (rows != [] <==> first <= last) &&
      (rows != [] ==> rows[0].date == first && rows[|rows| - 1].date == last) &&
      (forall i :: 0 <= i < |rows| - 1 ==> rows[i + 1].date == rows[i].date + 1)
  {
  }

  /** The row loop's body: one fresh cell per account, each balance found by the scan. */
  method FreshRow(accounts: seq<string>, journal: string -> seq<JournalEntry>, day: Day) returns (cells: map<string, GridCell>)
    ensures cells == FreshCells(accounts, journal, day)
  {
    cells := map[];
    for k := 0 to |accounts|
      invariant cells == FreshCells(accounts[..k], journal, day)
    {
      var b := ScanBalance(journal(accounts[k]), day);
      cells := cells[accounts[k] := GridCell(b, 0.0, {})];
      assert accounts[..k + 1][..k] == accounts[..k];
    }
    assert accounts[..|accounts|] == accounts;
  }

  /** The grid up to one more day is the grid up to the day before, and that day's row. */
  lemma GridExtend(accounts: seq<string>, journal: string -> seq<JournalEntry>, first: Day, day: Day)
    requires first <= day
    ensures Grid(accounts, journal, first, day) == Grid(accounts, journal, first, day - 1) + [FreshRowOn(accounts, journal, day)]
  {
  }

  /** The while loop over current_date, from the first day to the last. */
  method BuildGrid(accounts: seq<string>, journal: string -> seq<JournalEntry>, first: Day, last: Day) returns (rows: seq<GridRow>)
    ensures rows == Grid(accounts, journal, first, last)
  {
    rows := [];
    var current := first;
    while current <= last
      invariant first <= current && (first <= last ==> current <= last + 1) && (last < first ==> current == first)
      invariant rows == Grid(accounts, journal, first, current - 1)
      decreases last - current
    {
      var cells := FreshRow(accounts, journal, current);
      GridExtend(accounts, journal, first, current);
      rows := rows + [GridRow(current, cells)];
      current := current + 1;
    }
  }

  // ---------------------------------------------------------------- postings

  /** One row of the postings query: account, date, payee (None when the transaction has none) and units. */
  datatype Posting = Posting(account: string, date: Day, payee: Option<string>, units: real)

  /** The characters Python's str.split() separates words at. */
  predicate IsPySpace(c: char)
  {
    || ('\t' <= c <= '\r') || ('\U{001C}' <= c <= '\U{001F}') || c == ' '
    || c == '\U{0085}' || c == '\U{00A0}' || c == '\U{1680}' || ('\U{2000}' <= c <= '\U{200A}')
    || c == '\U{2028}' || c == '\U{2029}' || c == '\U{202F}' || c == '\U{205F}' || c == '\U{3000}'
  }

  predicate IsWord(w: string)
  {
    w != [] && forall k :: 0 <= k < |w| ==> !IsPySpace(w[k])
  }

  /** The end of the word that starts at position i. */
  function WordEnd(s: string, i: nat): (n: nat)
    requires i <= |s|
    ensures i <= n <= |s|
    ensures forall k :: i <= k < n ==> !IsPySpace(s[k])
    ensures n < |s| ==> IsPySpace(s[n])
    decreases |s| - i
  {
    if i == |s| || IsPySpace(s[i]) then i else WordEnd(s, i + 1)
  }

  /** str.split() without arguments: the maximal runs of non-space characters. */
  function Words(s: string): (r: seq<string>)
    ensures forall k :: 0 <= k < |r| ==> IsWord(r[k])
    decreases |s|
  {
    if s == [] then []
    else if IsPySpace(s[0]) then Words(s[1..])
    else
      var n := WordEnd(s, 0);
      [s[..n]] + Words(s[n..])
  }

  /** The description a payee contributes: its first two words joined by a space, or its only word. */
  function Label(payee: string): set<string>
  {
    var w := Words(payee);
    if |w| >= 2 then {w[0] + " " + w[1]}
    else if |w| == 1 then {w[0]}
    else {}
  }

  /** A word followed by white space or nothing is the first word. */
  lemma WordsOfWordThen(w: string, rest: string)
    requires IsWord(w) && (rest == [] || IsPySpace(rest[0]))
    ensures Words(w + rest) == [w] + Words(rest)
  {
    var s := w + rest;
    var n := WordEnd(s, 0);
    assert forall k :: 0 <= k < |w| ==> s[k] == w[k];
    assert rest != [] ==> s[|w|] == rest[0];
    assert s[..n] == w;
    assert s[n..] == rest;
  }

  lemma WordsOfWord(w: string)
    requires IsWord(w)
    ensures Words(w) == [w]
  {
    WordsOfWordThen(w, []);
    assert w + [] == w;
  }

  /** Splitting a description again gives back the payee words it was made of. */
  lemma LabelWords(payee: string)
    ensures Label(payee) == {} <==> Words(payee) == []
    ensures forall l :: l in Label(payee) ==>
      var w := Words(payee);
      Words(l) == w[..if |w| < 2 then |w| else 2]
  {
    var w := Words(payee);
    if |w| >= 2 {
      var l := w[0] + " " + w[1];
      assert l == w[0] + (" " + w[1]);
      WordsOfWordThen(w[0], " " + w[1]);
      assert (" " + w[1])[1..] == w[1];
      WordsOfWord(w[1]);
      assert Words(l) == [w[0], w[1]];
    } else if |w| == 1 {
      WordsOfWord(w[0]);
    }
  }

  /** A posting can be booked: it falls before the grid's first booking day, or on a row that has its account, and it has a payee. */
  predicate Bookable(rows: seq<GridRow>, first: Day, p: Posting)
  {
    var index := p.date - first - 1;
    index < 0 || (index < |rows| && p.account in rows[index].cells && p.payee.Some?)
  }

  /**
   * One iteration of the posting loop: a posting dated d goes to the row at
   * index d - first - 1 (the previous day's row), is skipped when that is
   * negative, and adds its units and its payee's label to the account's cell.
   */
  function PostOne(rows: seq<GridRow>, first: Day, p: Posting): (r: Result<seq<GridRow>, PyError>)
    ensures r.Ok? <==> Bookable(rows, first, p)
  {
    var index := p.date - first - 1;
    if index < 0 then Ok(rows)
    else if index >= |rows| then Err(IndexError)
    else if p.account !in rows[index].cells then Err(KeyError)
    else if p.payee.None? then Err(AttributeError)
    else
      var c := rows[index].cells[p.account];
      var c' := c.(transaction := c.transaction + p.units, description := c.description + Label(p.payee.value));
      Ok(rows[index := rows[index].(cells := rows[index].cells[p.account := c'])])
  }

  /** The rows after the posting loop over postings, or the error of the first posting it cannot book. */
  function Posted(rows: seq<GridRow>, first: Day, postings: seq<Posting>): Result<seq<GridRow>, PyError>
  {
    if postings == [] then Ok(rows)
    else
      match Posted(rows, first, postings[..|postings| - 1])
      case Err(e) => Err(e)
      case Ok(r) => PostOne(r, first, postings[|postings| - 1])
  }

  /** Once a prefix of the postings fails, the whole loop fails the same way. */
  lemma {:induction false} PostedStops(rows: seq<GridRow>, first: Day, postings: seq<Posting>, k: nat)
    requires k <= |postings| && Posted(rows, first, postings[..k]).Err?
    ensures Posted(rows, first, postings) == Posted(rows, first, postings[..k])
    decreases |postings| - k
  {
    if k < |postings| {
      assert postings[..|postings| - 1][..k] == postings[..k];
      PostedStops(rows, first, postings[..|postings| - 1], k);
    } else {
      assert postings[..k] == postings;
    }
  }

  /** The posting loop of bootstrap, which raises on the first posting it cannot book. */
  method ApplyPostings(rows: seq<GridRow>, first: Day, postings: seq<Posting>) returns (r: Result<seq<GridRow>, PyError>)
    ensures r == Posted(rows, first, postings)
  {
    var current := rows;
    for k := 0 to |postings|
      invariant Posted(rows, first, postings[..k]) == Ok(current)
    {
      var p := postings[k];
      assert postings[..k + 1][..k] == postings[..k];
      var index := p.date - first - 1;
      if index >= 0 {
        if index >= |current| {
          PostedStops(rows, first, postings, k + 1);
          return Err(IndexError);
        }
        if p.account !in current[index].cells {
          PostedStops(rows, first, postings, k + 1);
          return Err(KeyError);
        }
        var cell := current[index].cells[p.account];
        cell := cell.(transaction := cell.transaction + p.units);
        if p.payee.None? {
          PostedStops(rows, first, postings, k + 1);
          return Err(AttributeError);
        }
        cell := cell.(description := cell.description + Label(p.payee.value));
        current := current[index := current[index].(cells := current[index].cells[p.account := cell])];
      }
    }
    assert postings[..|postings|] == postings;
    return Ok(current);
  }

  /** The total units of the postings for account dated day. */
  function UnitsOn(postings: seq<Posting>, account: string, day: Day): real
  {
    if postings == [] then 0.0
    else
      var p := postings[|postings| - 1];
      UnitsOn(postings[..|postings| - 1], account, day) + (if p.account == account && p.date == day then p.units else 0.0)
  }

  /** The labels of the postings for account dated day. */
  function LabelsOn(postings: seq<Posting>, account: string, day: Day): set<string>
  {
    if postings == [] then {}
    else
      var p := postings[|postings| - 1];
      LabelsOn(postings[..|postings| - 1], account, day) +
        (if p.account == account && p.date == day && p.payee.Some? then Label(p.payee.value) else {})
  }

  /** The rows hold the same days, accounts and balances. */
  predicate SameShape(rows: seq<GridRow>, r: seq<GridRow>)
  {
    |r| == |rows| &&
    forall i :: 0 <= i < |rows| ==>
      r[i].date == rows[i].date && r[i].cells.Keys == rows[i].cells.Keys &&
      forall a :: a in rows[i].cells ==> r[i].cells[a].balance == rows[i].cells[a].balance
  }

  /**
   * After the posting loop each row keeps its day, accounts and balances,
   * and each cell's transaction has grown by the units and its description
   * by the labels of the postings dated the next day.
   */
  lemma {:induction false} PostedTotals(rows: seq<GridRow>, first: Day, postings: seq<Posting>)
    ensures Posted(rows, first, postings).Ok? ==>
      var r := Posted(rows, first, postings).value;
      SameShape(rows, r) &&
      forall i, a :: 0 <= i < |rows| && a in rows[i].cells ==>
        r[i].cells[a].transaction == rows[i].cells[a].transaction + UnitsOn(postings, a, first + i + 1) &&
        r[i].cells[a].description == rows[i].cells[a].description + LabelsOn(postings, a, first + i + 1)
  {
    if postings != [] {
      var init, p := postings[..|postings| - 1], postings[|postings| - 1];
      PostedTotals(rows, first, init);
      if Posted(rows, first, postings).Ok? {
        var r0 := Posted(rows, first, init).value;
        assert Posted(rows, first, postings) == PostOne(r0, first, p);
        var r := PostOne(r0, first, p).value;
        PostOneTotals(r0, first, p);
        forall i, a | 0 <= i < |rows| && a in rows[i].cells
          ensures r[i].cells[a].transaction == rows[i].cells[a].transaction + UnitsOn(postings, a, first + i + 1)
          ensures r[i].cells[a].description == rows[i].cells[a].description + LabelsOn(postings, a, first + i + 1)
        {
          assert a in r0[i].cells;
        }
      }
    }
  }

  /** One posting adds its units and label to its own cell and changes nothing else. */
  lemma PostOneTotals(rows: seq<GridRow>, first: Day, p: Posting)
    ensures PostOne(rows, first, p).Ok? ==>
      var r := PostOne(rows, first, p).value;
      SameShape(rows, r) &&
      forall i, a :: 0 <= i < |rows| && a in rows[i].cells ==>
        var booked := p.account == a && p.date == first + i + 1;
        r[i].cells[a].transaction == rows[i].cells[a].transaction + (if booked then p.units else 0.0) &&
        r[i].cells[a].description == rows[i].cells[a].description + (if booked && p.payee.Some? then Label(p.payee.value) else {})
  {
  }

  /** The posting loop succeeds exactly when every posting can be booked on the grid it starts from. */
  lemma {:induction false} PostedExactlyWhenBookable(rows: seq<GridRow>, first: Day, postings: seq<Posting>)
    ensures Posted(rows, first, postings).Ok? <==> forall k :: 0 <= k < |postings| ==> Bookable(rows, first, postings[k])
  {
    if postings != [] {
      var init, p := postings[..|postings| - 1], postings[|postings| - 1];
      PostedExactlyWhenBookable(rows, first, init);
      PostedTotals(rows, first, init);
      assert forall k :: 0 <= k < |init| ==> init[k] == postings[k];
      if Posted(rows, first, init).Ok? {
        var r0 := Posted(rows, first, init).value;
        assert Bookable(r0, first, p) <==> Bookable(rows, first, p);
      }
    }
  }

  /**
   * When an account's journal moves from one day to the next by exactly the
   * units posted on the next day, the booked grid keeps the table's
   * recurrence: a row's balance plus its transaction is the next row's
   * balance.
   */
  lemma GridFollowsJournal(accounts: seq<string>, journal: string -> seq<JournalEntry>, first: Day, last: Day,
                           postings: seq<Posting>, r: seq<GridRow>, a: string, i: nat)
    requires Posted(Grid(accounts, journal, first, last), first, postings) == Ok(r)
    requires a in accounts && i + 1 < DayCount(first, last)
    requires BalanceOn(journal(a), first + i + 1) == BalanceOn(journal(a), first + i) + UnitsOn(postings, a, first + i + 1)
    ensures |r| == DayCount(first, last) && a in r[i].cells && a in r[i + 1].cells
    ensures r[i + 1].cells[a].balance == r[i].cells[a].balance + r[i].cells[a].transaction
  {
    PostedTotals(Grid(accounts, journal, first, last), first, postings);
  }

  // ---------------------------------------------------------------- output

  /**
   * formatCurrency: "-$" and the magnitude for a negative amount, "$" and
   * the amount otherwise, quantized to hundredths with ties to even.
   */
  function FormatCurrency(x: real): string
  {
    if x < 0.0 then "-$" + CentsText(HalfEvenCents(-x)) else "$" + CentsText(HalfEvenCents(x))
  }

  /**
   * The text after the sign and the dollar sign reads back as the magnitude
   * rounded to hundredths, within half a cent of it; the whole text starts
   * with "$" or "-$", which JavaScript's parseFloat reads as NaN.
   */
  lemma FormatCurrencyReadsBack(x: real)
    ensures var s := FormatCurrency(x);
      var k := if x < 0.0 then 2 else 1;
      |s| > k && s[..k] == (if x < 0.0 then "-$" else "$") &&
      ParseUnsigned(s[k..]) == Some(Cents(HalfEvenCents(Abs(x)))) &&
      Abs(Cents(HalfEvenCents(Abs(x))) - Abs(x)) <= 0.005 &&
      ParseFloat(s) == None
  {
    var n := HalfEvenCents(Abs(x));
    var sign := if x < 0.0 then "-$" else "$";
    assert FormatCurrency(x) == sign + CentsText(n);
    CentsTextParses(n);
    SignedDollarText(sign, CentsText(n));
  }

  /** A text that starts with "$" or "-$" splits at the dollar sign, and parseFloat reads it as NaN. */
  lemma SignedDollarText(sign: string, t: string)
    requires sign == "$" || sign == "-$"
    ensures (sign + t)[..|sign|] == sign && (sign + t)[|sign|..] == t
    ensures ParseFloat(sign + t) == None
  {
    var s := sign + t;
    if sign == "-$" {
      assert TrimStart(s) == s;
      assert s[1..][0] == '$';
    } else {
      NotNumberStart(s);
    }
  }

  /** A cell as bootstrap returns it: both amounts as currency text, and the description labels. */
  datatype OutCell = OutCell(balance: string, transaction: string, description: set<string>)

  datatype OutRow = OutRow(date: Day, cells: map<string, OutCell>)

  /** What bootstrap returns: the tracked accounts and the formatted rows. */
  datatype Dashboard = Dashboard(accounts: seq<string>, rows: seq<OutRow>)

  function FormatCell(c: GridCell): OutCell
  {
    OutCell(FormatCurrency(c.balance), FormatCurrency(c.transaction), c.description)
  }

  function FormatRow(row: GridRow): OutRow
  {
    OutRow(row.date, map a | a in row.cells :: FormatCell(row.cells[a]))
  }

  /** The clean-up loop's result: every row with every cell formatted. */
  function CleanedUp(rows: seq<GridRow>): (out: seq<OutRow>)
    ensures |out| == |rows|
    ensures forall i :: 0 <= i < |rows| ==> out[i] == FormatRow(rows[i])
  {
    seq(|rows|, i requires 0 <= i < |rows| => FormatRow(rows[i]))
  }

  /**
   * The clean-up loop, with formatCurrency called as the one-argument
   * function it is declared as (every grid row holds exactly the tracked
   * accounts, so formatting each row's cells formats each tracked account).
   */
  method CleanUp(rows: seq<GridRow>) returns (out: seq<OutRow>)
    ensures out == CleanedUp(rows)
  {
    out := [];
    for i := 0 to |rows|
      invariant |out| == i
      invariant forall j :: 0 <= j < i ==> out[j] == FormatRow(rows[j])
    {
      out := out + [FormatRow(rows[i])];
    }
  }

  /**
   * The clean-up loop as written: formatCurrency is declared without self,
   * so self.formatCurrency(balance) passes two arguments to a one-parameter
   * function and raises TypeError at the first cell it reaches.
   */
  function CleanUpAsWritten(rows: seq<GridRow>, accounts: seq<string>): Result<seq<OutRow>, PyError>
  {
    if rows != [] && accounts != [] then Err(TypeError) else Ok(CleanedUp(rows))
  }

  /** bootstrap, up to the clean-up step, which clean is given. */
  function BootstrapWith(keys: seq<string>, journal: string -> seq<JournalEntry>, entries: seq<Directive>, postings: seq<Posting>,
                         clean: (seq<GridRow>, seq<string>) -> Result<seq<OutRow>, PyError>): Result<Dashboard, PyError>
  {
    var accounts := TrackedAccounts(keys);
    match LedgerDuration(entries)
    case Err(e) => Err(e)
    case Ok((first, last)) =>
      match Posted(Grid(accounts, journal, first, last), first, postings)
      case Err(e) => Err(e)
      case Ok(rows) =>
        match clean(rows, accounts)
        case Err(e) => Err(e)
        case Ok(out) => Ok(Dashboard(accounts, out))
  }

  /** bootstrap with the clean-up formatting as intended. */
  function Bootstrapped(keys: seq<string>, journal: string -> seq<JournalEntry>, entries: seq<Directive>, postings: seq<Posting>): Result<Dashboard, PyError>
  {
    BootstrapWith(keys, journal, entries, postings, (rows, accounts) => Ok(CleanedUp(rows)))
  }

  /** bootstrap as written. */
  function BootstrappedAsWritten(keys: seq<string>, journal: string -> seq<JournalEntry>, entries: seq<Directive>, postings: seq<Posting>): Result<Dashboard, PyError>
  {
    BootstrapWith(keys, journal, entries, postings, CleanUpAsWritten)
  }

  /** bootstrap: tracked accounts, duration, grid, postings, clean-up. */
  method Bootstrap(keys: seq<string>, journal: string -> seq<JournalEntry>, entries: seq<Directive>, postings: seq<Posting>)
    returns (r: Result<Dashboard, PyError>)
    ensures r == Bootstrapped(keys, journal, entries, postings)
  {
    var accounts := TrackedAccounts(keys);
    var duration := GetLedgerDuration(entries);
    if duration.Err? {
      return Err(duration.error);
    }
    var (first, last) := duration.value;
    var rows := BuildGrid(accounts, journal, first, last);
    var posted := ApplyPostings(rows, first, postings);
    if posted.Err? {
      return Err(posted.error);
    }
    var out := CleanUp(posted.value);
    return Ok(Dashboard(accounts, out));
  }

  /**
   * The booked grid: one row per day from first to last; each row holds
   * exactly the tracked accounts; a cell's balance is the account's balance
   * on that day, its transaction the units and its description the labels
   * of the postings dated the next day.
   */
  lemma BookedGrid(accounts: seq<string>, journal: string -> seq<JournalEntry>, first: Day, last: Day,
                   postings: seq<Posting>, r: seq<GridRow>)
    requires Posted(Grid(accounts, journal, first, last), first, postings) == Ok(r)
    ensures |r| == DayCount(first, last)
    ensures forall i :: 0 <= i < |r| ==>
      r[i].date == first + i &&
      (forall a :: a in r[i].cells <==> a in accounts) &&
      forall a :: a in r[i].cells ==> r[i].cells[a] == GridCell(
        BalanceOn(journal(a), first + i), UnitsOn(postings, a, first + i + 1), LabelsOn(postings, a, first + i + 1))
  {
    PostedTotals(Grid(accounts, journal, first, last), first, postings);
  }

  /**
   * What bootstrap returns: the tracked accounts, and one row per day from
   * the first day to the last whose cells format the booked grid's.
   */
  lemma BootstrappedRows(keys: seq<string>, journal: string -> seq<JournalEntry>, entries: seq<Directive>, postings: seq<Posting>,
                         first: Day, last: Day, d: Dashboard)
    requires LedgerDuration(entries) == Ok((first, last))
    requires Bootstrapped(keys, journal, entries, postings) == Ok(d)
    ensures d.accounts == TrackedAccounts(keys)
    ensures |d.rows| == DayCount(first, last)
    ensures forall i :: 0 <= i < |d.rows| ==>
      d.rows[i].date == first + i &&
      (forall a :: a in d.rows[i].cells <==> a in d.accounts) &&
      forall a :: a in d.rows[i].cells ==> d.rows[i].cells[a] == OutCell(
        FormatCurrency(BalanceOn(journal(a), first + i)),
        FormatCurrency(UnitsOn(postings, a, first + i + 1)),
        LabelsOn(postings, a, first + i + 1))
  {
    var accounts := TrackedAccounts(keys);
    var r := Posted(Grid(accounts, journal, first, last), first, postings).value;
    BookedGrid(accounts, journal, first, last, postings, r);
    assert d == Dashboard(accounts, CleanedUp(r));
    forall i | 0 <= i < |d.rows|
      ensures d.rows[i].date == first + i && (forall a :: a in d.rows[i].cells <==> a in accounts)
      ensures forall a :: a in d.rows[i].cells ==> d.rows[i].cells[a] == OutCell(
        FormatCurrency(BalanceOn(journal(a), first + i)),
        FormatCurrency(UnitsOn(postings, a, first + i + 1)),
        LabelsOn(postings, a, first + i + 1))
    {
      assert d.rows[i] == FormatRow(r[i]);
    }
  }

  /**
   * As written, bootstrap raises TypeError on every ledger in date order
   * that has a tracked account and whose postings can all be booked, where
   * the intended bootstrap returns the dashboard.
   */
  lemma BootstrapAsWrittenRaises(keys: seq<string>, journal: string -> seq<JournalEntry>, entries: seq<Directive>, postings: seq<Posting>)
    requires SortedEntries(entries) && LedgerDuration(entries).Ok?
    requires exists a :: a in keys && IsTracked(a)
    requires Bootstrapped(keys, journal, entries, postings).Ok?
    ensures BootstrappedAsWritten(keys, journal, entries, postings) == Err(TypeError)
  {
    LedgerDurationSpans(entries);
    var (first, last) := LedgerDuration(entries).value;
    var accounts := TrackedAccounts(keys);
    var a :| a in keys && IsTracked(a);
    assert a in accounts;
    var grid := Grid(accounts, journal, first, last);
    PostedTotals(grid, first, postings);
  }
}

/**
 * The table's record of user edits: a map from date to account to field to
 * the latest entry for that field. Writing a field again replaces its entry
 * (last write wins); every other entry stays as it was. Under the field key
 * "format" the current table version keeps the style of one field.
 */
module Edits {
  import opened Wrappers
  import opened Ledger

  /** The bold and italic choices of the format menu; an unset choice is None. */
  datatype Style = Style(bold: Option<bool>, italic: Option<bool>)

  /**
   * What one field key holds: an edit, with the edited value and the time
   * stamp of the edit, or, under "format", the style chosen for one field.
   */
  datatype Entry = Edit(value: string, timestamp: string) | FormatOf(field: string, style: Style)

  /** date -> account -> field -> entry. */
  type EditMap = map<string, map<string, map<string, Entry>>>

  /** A transaction the server remembers a user entered; an absent part is "". */
  datatype UserTransaction = UserTransaction(date: string, account: string, transaction: string, description: string)

  /** The entry for this date, account and field, if any. */
  function Get(e: EditMap, date: string, account: string, field: string): Option<Entry>
  {
    if date in e && account in e[date] && field in e[date][account] then Some(e[date][account][field]) else None
  }

  /** The record has an entry for this date, account and field. */
  predicate Has(e: EditMap, date: string, account: string, field: string)
  {
    Get(e, date, account, field).Some?
  }

  /** The record has a (possibly empty) field map for this date and account. */
  predicate HasAccount(e: EditMap, date: string, account: string)
  {
    date in e && account in e[date]
  }

  /** The record's account map for a date, empty when it has none. */
  function Accounts(e: EditMap, date: string): map<string, map<string, Entry>>
  {
    if date in e then e[date] else map[]
  }

  /** The record's field map for a date and account, empty when it has none. */
  function Fields(e: EditMap, date: string, account: string): map<string, Entry>
  {
    var accounts := Accounts(e, date);
    if account in accounts then accounts[account] else map[]
  }

  /** The record with a field map for (date, account), created empty when missing. */
  function WithAccount(e: EditMap, date: string, account: string): (r: EditMap)
    ensures forall d, a :: HasAccount(r, d, a) <==> HasAccount(e, d, a) || (d == date && a == account)
    ensures forall d, a, f :: Get(r, d, a, f) == Get(e, d, a, f)
  {
    e[date := Accounts(e, date)[account := Fields(e, date, account)]]
  }

  /** Set one entry, creating the inner maps when they are missing; nothing else changes. */
  function Put(e: EditMap, date: string, account: string, field: string, x: Entry): (r: EditMap)
    ensures forall d, a :: HasAccount(r, d, a) <==> HasAccount(e, d, a) || (d == date && a == account)
    ensures forall d, a, f :: Get(r, d, a, f) == if d == date && a == account && f == field then Some(x) else Get(e, d, a, f)
  {
    var e1 := WithAccount(e, date, account);
    e1[date := e1[date][account := e1[date][account][field := x]]]
  }

  /** Put as one write of the date's account map, holding the account's field map with the entry set. */
  lemma PutAt(e: EditMap, date: string, account: string, field: string, x: Entry)
    ensures Put(e, date, account, field, x) == e[date := Accounts(e, date)[account := Fields(e, date, account)[field := x]]]
  {
    var e1 := WithAccount(e, date, account);
    assert e1[date][account := e1[date][account][field := x]] == Accounts(e, date)[account := Fields(e, date, account)[field := x]];
  }

  /**
   * handleEditUpdate on the record: the field gets the value and the time
   * stamp `now`; when a style is given (the current version only), the
   * account's "format" entry is replaced by that style for this field.
   */
  function EditUpdated(e: EditMap, date: string, account: string, field: string, value: string, now: string, format: Option<Style>): EditMap
  {
    var e1 := Put(e, date, account, field, Edit(value, now));
    match format
    case None => e1
    case Some(style) => Put(e1, date, account, "format", FormatOf(field, style))
  }

  /**
   * After an update the edited field holds the new value (unless the field
   * is "format" itself and a style was given), the "format" entry holds the
   * style when one was given, and every other entry is as before.
   */
  lemma EditUpdatedEffect(e: EditMap, date: string, account: string, field: string, value: string, now: string, format: Option<Style>)
    ensures var r := EditUpdated(e, date, account, field, value, now, format);
      Has(r, date, account, field) &&
      (format.None? || field != "format" ==> Get(r, date, account, field) == Some(Edit(value, now))) &&
      (format.Some? ==> Get(r, date, account, "format") == Some(FormatOf(field, format.value))) &&
      (forall d, a, f :: !(d == date && a == account && (f == field || (format.Some? && f == "format"))) ==>
        Get(r, d, a, f) == Get(e, d, a, f))
  {
  }

  /** An update as one write of the date's account map, whose field map for the account gets the value and, when given, the style. */
  lemma EditUpdatedAt(e: EditMap, date: string, account: string, field: string, value: string, now: string, format: Option<Style>)
    ensures var f1 := Fields(e, date, account)[field := Edit(value, now)];
      var f2 := if format.Some? then f1["format" := FormatOf(field, format.value)] else f1;
      EditUpdated(e, date, account, field, value, now, format) == e[date := Accounts(e, date)[account := f2]]
  {
    var f1 := Fields(e, date, account)[field := Edit(value, now)];
    var e1 := e[date := Accounts(e, date)[account := f1]];
    PutAt(e, date, account, field, Edit(value, now));
    if format.Some? {
      var f2 := f1["format" := FormatOf(field, format.value)];
      PutAt(e1, date, account, "format", FormatOf(field, format.value));
      assert Accounts(e1, date)[account := f2] == Accounts(e, date)[account := f2];
    }
  }

  /** Two updates of the same field without a style: every entry reads as if only the later one happened. */
  lemma EditUpdatedLastWins(e: EditMap, date: string, account: string, field: string, v1: string, t1: string, v2: string, t2: string,
                            d: string, a: string, f: string)
    ensures Get(EditUpdated(EditUpdated(e, date, account, field, v1, t1, None), date, account, field, v2, t2, None), d, a, f)
         == Get(EditUpdated(e, date, account, field, v2, t2, None), d, a, f)
  {
  }

  /** isUserEdited: the record has the field; the current version first rejects an absent date. */
  function IsUserEdited(v: Variant, e: EditMap, date: string, account: string, field: string): bool
  {
    (v == Legacy || date != "") && Has(e, date, account, field)
  }

  /** A field just updated reads as user-edited, except for an absent date in the current version. */
  lemma IsUserEditedAfterUpdate(v: Variant, e: EditMap, date: string, account: string, field: string, value: string, now: string, format: Option<Style>)
    ensures IsUserEdited(v, EditUpdated(e, date, account, field, value, now, format), date, account, field) <==>
      v == Legacy || date != ""
  {
    EditUpdatedEffect(e, date, account, field, value, now, format);
  }

  /** Whether a user transaction supplies a value for this field of this date and account. */
  predicate Supplies(t: UserTransaction, date: string, account: string, field: string)
  {
    t.date == date && t.account == account &&
    ((field == "transaction" && t.transaction != "") || (field == "description" && t.description != ""))
  }

  /** The value a user transaction supplies for "transaction" or "description". */
  function Supplied(t: UserTransaction, field: string): string
  {
    if field == "transaction" then t.transaction else t.description
  }

  /**
   * One step of seeding the record: the field map for the transaction's date
   * and account is created even when it will stay empty, then a non-empty
   * transaction and a non-empty description are recorded with time stamp
   * now.
   */
  function SeedEdit(e: EditMap, t: UserTransaction, now: string): EditMap
  {
    var e1 := WithAccount(e, t.date, t.account);
    var e2 := if t.transaction != "" then Put(e1, t.date, t.account, "transaction", Edit(t.transaction, now)) else e1;
    if t.description != "" then Put(e2, t.date, t.account, "description", Edit(t.description, now)) else e2
  }

  /** Putting an entry into a field map just written for (date, account) writes that field map with the entry set. */
  lemma PutOverWrite(e: EditMap, date: string, account: string, g: map<string, Entry>, field: string, x: Entry)
    ensures Put(e[date := Accounts(e, date)[account := g]], date, account, field, x) ==
      e[date := Accounts(e, date)[account := g[field := x]]]
  {
    var e1 := e[date := Accounts(e, date)[account := g]];
    PutAt(e1, date, account, field, x);
    assert Accounts(e1, date) == Accounts(e, date)[account := g];
    assert Fields(e1, date, account) == g;
    assert Accounts(e1, date)[account := g[field := x]] == Accounts(e, date)[account := g[field := x]];
  }

  /** A seeding step as one write of the date's account map, whose field map for the account gets what the transaction supplies. */
  lemma SeedEditAt(e: EditMap, t: UserTransaction, now: string)
    ensures var f0 := Fields(e, t.date, t.account);
      var f1 := if t.transaction != "" then f0["transaction" := Edit(t.transaction, now)] else f0;
      var f2 := if t.description != "" then f1["description" := Edit(t.description, now)] else f1;
      SeedEdit(e, t, now) == e[t.date := Accounts(e, t.date)[t.account := f2]]
  {
    var f0 := Fields(e, t.date, t.account);
    var f1 := if t.transaction != "" then f0["transaction" := Edit(t.transaction, now)] else f0;
    var e0 := WithAccount(e, t.date, t.account);
    var e1 := if t.transaction != "" then Put(e0, t.date, t.account, "transaction", Edit(t.transaction, now)) else e0;
    assert e0 == e[t.date := Accounts(e, t.date)[t.account := f0]];
    if t.transaction != "" {
      PutOverWrite(e, t.date, t.account, f0, "transaction", Edit(t.transaction, now));
    }
    assert e1 == e[t.date := Accounts(e, t.date)[t.account := f1]];
    if t.description != "" {
      PutOverWrite(e, t.date, t.account, f1, "description", Edit(t.description, now));
    }
  }

  /** The record after seeding from ts in order. */
  function SeededEdits(e: EditMap, ts: seq<UserTransaction>, now: string): EditMap
  {
    if ts == [] then e else SeedEdit(SeededEdits(e, ts[..|ts| - 1], now), ts[|ts| - 1], now)
  }

  /** What one seeding step does to a single entry. */
  lemma SeedEditEffect(e: EditMap, t: UserTransaction, now: string, d: string, a: string, f: string)
    ensures Get(SeedEdit(e, t, now), d, a, f) == (if Supplies(t, d, a, f) then Some(Edit(Supplied(t, f), now)) else Get(e, d, a, f))
  {
  }

  /** One seeding step adds the field map of its own date and account, and no other. */
  lemma SeedEditAccounts(e: EditMap, t: UserTransaction, now: string, d: string, a: string)
    ensures HasAccount(SeedEdit(e, t, now), d, a) <==> HasAccount(e, d, a) || (t.date == d && t.account == a)
  {
  }

  /** The last of ts that supplies (d, a, f), if any. */
  function LastSupplier(ts: seq<UserTransaction>, d: string, a: string, f: string): (r: Option<nat>)
    ensures r.None? <==> forall i :: 0 <= i < |ts| ==> !Supplies(ts[i], d, a, f)
    ensures r.Some? ==> r.value < |ts| && Supplies(ts[r.value], d, a, f) &&
                        (forall k :: r.value < k < |ts| ==> !Supplies(ts[k], d, a, f))
  {
    if ts == [] then None
    else if Supplies(ts[|ts| - 1], d, a, f) then Some(|ts| - 1)
    else
      var r := LastSupplier(ts[..|ts| - 1], d, a, f);
      assert forall i :: 0 <= i < |ts| - 1 ==> ts[..|ts| - 1][i] == ts[i];
      r
  }

  /**
   * After seeding, a field holds the value of the last user transaction that
   * supplies it, with time stamp now, and whatever it held before when none
   * does.
   */
  lemma {:induction false} SeededEditsExactly(e: EditMap, ts: seq<UserTransaction>, now: string, d: string, a: string, f: string)
    ensures Get(SeededEdits(e, ts, now), d, a, f) ==
      match LastSupplier(ts, d, a, f)
      case None => Get(e, d, a, f)
      case Some(j) => Some(Edit(Supplied(ts[j], f), now))
  {
    if ts != [] {
      var n := |ts| - 1;
      var init := ts[..n];
      SeededEditsExactly(e, init, now, d, a, f);
      assert SeededEdits(e, ts, now) == SeedEdit(SeededEdits(e, init, now), ts[n], now);
      SeedEditEffect(SeededEdits(e, init, now), ts[n], now, d, a, f);
      if !Supplies(ts[n], d, a, f) {
        var j := LastSupplier(init, d, a, f);
        assert LastSupplier(ts, d, a, f) == j;
        if j.Some? {
          assert init[j.value] == ts[j.value];
        }
      }
    }
  }

  /** After seeding, a field map exists for exactly the date and account pairs some user transaction names, or that existed before. */
  lemma {:induction false} SeededEditsAccounts(e: EditMap, ts: seq<UserTransaction>, now: string, d: string, a: string)
    ensures HasAccount(SeededEdits(e, ts, now), d, a) <==>
      HasAccount(e, d, a) || exists i :: 0 <= i < |ts| && ts[i].date == d && ts[i].account == a
  {
    if ts != [] {
      var n := |ts| - 1;
      var init := ts[..n];
      SeededEditsAccounts(e, init, now, d, a);
      assert SeededEdits(e, ts, now) == SeedEdit(SeededEdits(e, init, now), ts[n], now);
      SeedEditAccounts(SeededEdits(e, init, now), ts[n], now, d, a);
      if exists i :: 0 <= i < |ts| && ts[i].date == d && ts[i].account == a {
        var i :| 0 <= i < |ts| && ts[i].date == d && ts[i].account == a;
        if i < n {
          assert init[i] == ts[i];
        }
      }
      if exists i :: 0 <= i < |init| && init[i].date == d && init[i].account == a {
        var i :| 0 <= i < |init| && init[i].date == d && init[i].account == a;
        assert ts[i] == init[i];
      }
    }
  }
}

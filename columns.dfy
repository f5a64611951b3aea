/**
 * How the table decides which accounts get columns and what their headers
 * say: an account has data when some row has a transaction or a non-zero
 * balance for it; its short name drops the "Assets:Saving:" or
 * "Assets:Checking:" prefix, and its style class also turns the next ":"
 * into "-" and lower-cases the result.
 */
module Columns {
  import opened Wrappers
  import opened Numeric
  import opened Values
  import opened Ledger

  /** pat occurs in s at position i. */
  predicate OccursAt(s: string, pat: string, i: nat)
  {
    i + |pat| <= |s| && s[i..i + |pat|] == pat
  }

  /** The first position at which pat occurs in s, looking from position i on. */
  function IndexOf(s: string, pat: string, i: nat): (r: Option<nat>)
    requires i <= |s|
    ensures r.Some? ==> i <= r.value && OccursAt(s, pat, r.value) && forall j :: i <= j < r.value ==> !OccursAt(s, pat, j)
    ensures r.None? ==> forall j :: i <= j ==> !OccursAt(s, pat, j)
    decreases |s| - i
  {
    if OccursAt(s, pat, i) then Some(i)
    else if i == |s| then None
    else IndexOf(s, pat, i + 1)
  }

  /** String.prototype.replace with a string pattern: only the first occurrence is replaced. */
  function ReplaceFirst(s: string, pat: string, rep: string): string
  {
    match IndexOf(s, pat, 0)
    case None => s
    case Some(i) => s[..i] + rep + s[i + |pat|..]
  }

  /** A string without the pattern is left alone. */
  lemma ReplaceFirstAbsent(s: string, pat: string, rep: string)
    requires forall j: nat :: !OccursAt(s, pat, j)
    ensures ReplaceFirst(s, pat, rep) == s
  {
    var r := IndexOf(s, pat, 0);
    if r.Some? {
      assert false;
    }
  }

  /** Replacing a leading pattern by "" strips that prefix. */
  lemma ReplaceFirstPrefix(pat: string, rest: string)
    ensures ReplaceFirst(pat + rest, pat, "") == rest
  {
    var s := pat + rest;
    assert OccursAt(s, pat, 0) by {
      assert s[..|pat|] == pat;
    }
    assert s[|pat|..] == rest;
  }

  /** The account's header text. */
  function AccountShort(account: string): string
  {
    ReplaceFirst(ReplaceFirst(account, "Assets:Saving:", ""), "Assets:Checking:", "")
  }

  /** toLowerCase on the ASCII letters. */
  function Lower(s: string): (r: string)
    ensures |r| == |s|
    ensures forall i :: 0 <= i < |s| ==> r[i] == (if 'A' <= s[i] <= 'Z' then (s[i] as int + 32) as char else s[i])
  {
    if s == [] then [] else [if 'A' <= s[0] <= 'Z' then (s[0] as int + 32) as char else s[0]] + Lower(s[1..])
  }

  /** The account's header style class, without its "header-bank-" prefix. */
  function AccountClass(account: string): (r: string)
    ensures forall i :: 0 <= i < |r| ==> !('A' <= r[i] <= 'Z')
  {
    Lower(ReplaceFirst(ReplaceFirst(ReplaceFirst(account, "Assets:Checking:", ""), "Assets:Saving:", ""), ":", "-"))
  }

  /** Neither prefix text contains the other, so at most one of the two replacements applies to a prefixed name. */
  lemma SavingNotInChecking(rest: string)
    ensures forall j: nat :: !OccursAt("Assets:Checking:" + rest, "Assets:Saving:", j) || 16 <= j
  {
    var s := "Assets:Checking:" + rest;
    forall j: nat | j < 16
      ensures !OccursAt(s, "Assets:Saving:", j)
    {
      if j + 14 <= |s| {
        var k := if j <= 6 then j + 7 else j;
        assert s[j..j + 14][k - j] == s[k];
      }
    }
  }

  /** The short name of a checking or savings account is the rest of its name after the prefix. */
  lemma AccountShortOfPrefixed(prefix: string, rest: string)
    requires prefix == "Assets:Checking:" || prefix == "Assets:Saving:"
    requires forall j: nat :: !OccursAt(rest, "Assets:Checking:", j) && !OccursAt(rest, "Assets:Saving:", j)
    ensures AccountShort(prefix + rest) == rest
  {
    ReplaceFirstPrefix(prefix, rest);
    if prefix == "Assets:Saving:" {
      ReplaceFirstAbsent(rest, "Assets:Checking:", "");
    } else {
      SavingNotInChecking(rest);
      var s := prefix + rest;
      forall j: nat | 16 <= j
        ensures !OccursAt(s, "Assets:Saving:", j)
      {
        if j + 14 <= |s| {
          assert s[j..j + 14] == rest[j - 16..j - 2];
          assert !OccursAt(rest, "Assets:Saving:", j - 16);
        }
      }
      ReplaceFirstAbsent(s, "Assets:Saving:", "");
    }
  }

  /**
   * The test one row makes for an account: a transaction, or a balance that
   * is non-empty and not parsed as 0 (NaN !== 0 holds, so text that is not
   * a number counts).
   */
  predicate CellHasData(c: Cell)
  {
    c.transaction != "" || (c.balance != "" && ParseFloat(c.balance) != Some(0.0))
  }

  /**
   * rows.some(...) for one account: stops at the first row with data; a row
   * reached without the account throws a TypeError.
   */
  function HasData(rows: seq<Row>, a: string): (r: Result<bool, JsError>)
  {
    if rows == [] then Ok(false)
    else if a !in rows[0].cells then Err(TypeError)
    else if CellHasData(rows[0].cells[a]) then Ok(true)
    else HasData(rows[1..], a)
  }

  /** Row i has data for account a, and every row up to it has the account. */
  predicate DataFoundAt(rows: seq<Row>, a: string, i: int)
  {
    0 <= i < |rows| && (forall j :: 0 <= j <= i ==> a in rows[j].cells) && CellHasData(rows[i].cells[a])
  }

  /** HasData answers true exactly when some row has data and every row up to it has the account. */
  lemma {:induction false} HasDataTrueExactly(rows: seq<Row>, a: string)
    ensures HasData(rows, a) == Ok(true) <==> exists i :: DataFoundAt(rows, a, i)
  {
    if rows != [] && a in rows[0].cells {
      if CellHasData(rows[0].cells[a]) {
        assert DataFoundAt(rows, a, 0);
      } else {
        var tail := rows[1..];
        HasDataTrueExactly(tail, a);
        assert HasData(rows, a) == HasData(tail, a);
        forall i | DataFoundAt(rows, a, i)
          ensures DataFoundAt(tail, a, i - 1)
        {
          assert forall j :: 0 <= j <= i - 1 ==> tail[j] == rows[j + 1];
        }
        forall i | DataFoundAt(tail, a, i)
          ensures DataFoundAt(rows, a, i + 1)
        {
          assert forall j :: 1 <= j <= i + 1 ==> rows[j] == tail[j - 1];
        }
      }
    }
  }

  /** HasData answers false exactly when every row has the account and none has data. */
  lemma {:induction false} HasDataFalseExactly(rows: seq<Row>, a: string)
    ensures HasData(rows, a) == Ok(false) <==>
      HasColumn(rows, a) && forall j :: 0 <= j < |rows| ==> !CellHasData(rows[j].cells[a])
  {
    if rows != [] && a in rows[0].cells && !CellHasData(rows[0].cells[a]) {
      var tail := rows[1..];
      HasDataFalseExactly(tail, a);
      assert forall j :: 1 <= j < |rows| ==> rows[j] == tail[j - 1];
    }
  }
}

# Mars Dashboard, modelled in Dafny

Mars Dashboard is a Fava extension that shows a day-by-day cash-flow table for a Beancount ledger's checking and savings accounts. It has two parts.

- **The server** (`src/mars_dashboard/__init__.py`) builds the table. It has one row per calendar day, from the ledger's first transaction to its last transaction or price. Each tracked account's cell holds:
  - the balance from the account's journal;
  - the units posted on the next day, as the transaction;
  - the first two words of each payee, as the description.

  Amounts are meant to be rendered as `$1234.50` and `-$3.20`. As written, bootstrap raises TypeError before it renders any amount, because `formatCurrency` is declared without `self` (see "## Findings").
- **The front end** shows that table. The page polls the date range the Fava page shows. On a new range it fetches the table and appends an extra month of 31 rows, copied from the last row with transactions and notes cleared. The table component (`AGTable.tsx`, and the older `AGTable.jsx`) does the following:
  - It applies the transactions the server remembers users entered.
  - It keeps a record of user edits: date → account → field → value and time stamp.
  - It reruns the balance recurrence when a transaction cell is edited. Each balance is the previous row's balance plus the previous row's transaction, written with `toFixed(2)`.
  - It logs a warning for every row whose balance is off by more than a cent.
  - It shows an account's columns only when the account has data.

The model has one module per concern:

| file | contents |
|---|---|
| `wrappers.dfy` | Option and Result |
| `numeric.dfy` | JavaScript's `parseFloat`, `toFixed(2)`, half-even quantizing to cents |
| `calendar.dfy` | Gregorian dates, the `YYYY-MM-DD` text and JavaScript's string `<` |
| `values.dfy` | the cell-value helpers of `utils/data.tsx` |
| `ledger.dfy` | rows and cells, and the balance recurrence as a function of a column |
| `edits.dfy` | the user-edit record |
| `columns.dfy` | `hasData`, the header name and the style class |
| `updates.dfy` | seeding and committing, as functions over the rows |
| `validation.dfy` | the integrity check |
| `table.dfy` | the component's state, as class `AgTable`, whose methods are proved against those functions |
| `app.dfy` | the page's poll and the extra month, with class `Dashboard` |
| `server.dfy` | `bootstrap` |

Several things are parameters rather than part of the model:
- the `eval` of formulas;
- the current time;
- the page's date elements;
- the server's response;
- each account's journal and the rows of the postings query.

The current and the older table component differ in small ways, so the operations take a `Variant`:
- `Current` follows `AGTable.tsx`;
- `Legacy` follows `AGTable.jsx`.

## Model

| member | source | states |
|---|---|---|
| Numeric.TrimStart | frontend/src/utils/data.tsx:11 | parseFloat's leading white-space skip leaves a suffix of the text that starts with no white space |
| Numeric.ParseUnsigned | frontend/src/utils/data.tsx:11 | a decimal literal is read only from a text that starts with a digit or a point |
| Numeric.ParseFloat | frontend/src/utils/data.tsx:11-12 | parseFloat gives a number only when the first non-blank character is a digit, a point or a sign; otherwise NaN (None) |
| Numeric.NotNumberStart | frontend/src/utils/data.tsx:11-12 | a text whose first character cannot start a number, such as "=" or "$", parses as NaN |
| Numeric.HalfUpCents | frontend/src/utils/data.tsx:12 | toFixed(2)'s cents are within half a cent of the amount, with ties rounded up |
| Numeric.Round2 | frontend/src/utils/data.tsx:12 | the amount toFixed(2) denotes is within 0.005 of the input |
| Numeric.CentsTextParses | frontend/src/utils/data.tsx:12 | the "q.dd" text of n cents reads back as n/100 |
| Numeric.ParseFloatOfZero | frontend/src/components/AGTable.tsx:67 | parseFloat('0'), the `|| '0'` default, is 0 |
| Numeric.ParseToFixed2 | frontend/src/components/AGTable.tsx:72-75 | parseFloat reads back from toFixed(2)'s text exactly the rounded amount |
| Numeric.HalfEvenCents | src/mars_dashboard/__init__.py:61-64 | quantize(Decimal('1.00')) gives cents within half a cent of the amount, and an exact tie goes to the even cent |
| Calendar.DaysInMonth | frontend/src/App.tsx:53 | every month has 28 to 31 days |
| Calendar.NextDay | frontend/src/App.tsx:53 | the next day is a valid date after d, in the same year or on 1 January of the next |
| Calendar.NextDayIsSuccessor | frontend/src/App.tsx:53 | no date lies strictly between d and the next day |
| Calendar.Iso | frontend/src/utils/data.tsx:3 | the date part of toISOString() is ten characters with dashes at 4 and 7 |
| Calendar.IsoParts | frontend/src/utils/data.tsx:3 | the text is the zero-padded year, month and day |
| Calendar.ParseIso | frontend/src/App.tsx:51 | a text that `new Date` reads as a date gives a valid date |
| Calendar.ParseIsoOfIso | frontend/src/App.tsx:51-54 | reading back a date's text gives the date |
| Calendar.IsoOfParseIso | frontend/src/App.tsx:51-54 | a text that reads as a date is that date's text, so the two are inverse |
| Calendar.IsoOrder | frontend/src/utils/data.tsx:4 | string `<` on date texts is chronological order, both ways |
| Values.AfterFirst | frontend/src/utils/data.tsx:17 | formula.slice(1) is the text after the first character |
| Values.EvaluateFormula | frontend/src/utils/data.tsx:15-23 | the formula's value is eval's number, and 0 when eval throws or gives NaN (results that are strings or infinite are not modelled) |
| Values.ParseValue | frontend/src/utils/data.tsx:25-34 | an empty text is 0; an "=" text is a formula; otherwise it is parseFloat's number, and 0 for NaN |
| Values.OrZero | frontend/src/components/AGTable.tsx:67 | `t || '0'` is never empty, and is t when t is not empty |
| Values.ParseValueOfNumber | frontend/src/utils/data.tsx:25-34 | wherever parseFloat reads a number, parseValue reads the same |
| Values.ParseValueOrZero | frontend/src/components/AGTable.jsx:43-52 | parseValue(t) and parseValue(t \|\| '0') agree, so the two versions' balance loops read transactions alike |
| Values.ParseValueOfToFixed2 | frontend/src/components/AGTable.tsx:72-75 | parseValue reads a written balance back as the rounded amount |
| Values.SignedAmount | frontend/src/utils/data.tsx:12 | a negative amount gets "-", then the currency, then the magnitude; otherwise the currency and the amount |
| Values.CurrencyFormatter | frontend/src/utils/data.tsx:7-13 | currencyFormatter on a text: "" for an empty text, for "0" and for text parseFloat reads as NaN; otherwise the number parseFloat reads, as the currency sign and two decimals, with a leading "-" when negative |
| Values.CurrencyOfNumber | frontend/src/utils/data.tsx:36-39 | currencyFormatter on the number formulaFormatter passes it: "" for 0, which is falsy; otherwise the signed amount with two decimals |
| Values.FormulaFormatter | frontend/src/utils/data.tsx:36-39 | formulaFormatter: "" for an empty cell; otherwise the cell's value (parseValue) rendered as dollars, "" when that value is 0 |
| Values.IsPastDate | frontend/src/utils/data.tsx:1-5 | an undefined or empty date is never past; any other date is past exactly when it sorts before today |
| Values.LegacyIsPastDate | frontend/src/components/AGTable.jsx:319-322 | an undefined date is never past (`undefined < today` is false); the unguarded version differs from the guarded one exactly for the empty date, which sorts before every non-empty today |
| Values.CurrencyFormatterEmpty | frontend/src/utils/data.tsx:7-13 | currencyFormatter gives "" exactly for "", for "0" and for text that is not a number |
| Values.CurrencyFormatterReadsBack | frontend/src/utils/data.tsx:7-13 | a rendered amount is the sign when negative, then the currency, then text that reads back as the magnitude rounded to cents |
| Values.FormulaFormatterEmpty | frontend/src/utils/data.tsx:36-39 | formulaFormatter gives "" exactly when the cell's amount is 0 |
| Values.IsPastDateOfIso | frontend/src/utils/data.tsx:1-5 | on date texts, isPastDate and the older version both mean "before today" |
| Ledger.FindRow | frontend/src/components/AGTable.tsx:91 | findIndex gives the first row with the date, or -1 exactly when no row has it |
| Ledger.Reader | frontend/src/components/AGTable.tsx:66-67 | the balance loop reads every text with parseValue |
| Ledger.Propagate | frontend/src/components/AGTable.tsx:69-77 | the balance loop from row i on: each balance becomes the previous balance plus the previous transaction, formatted, and the loop carries that new balance and the row's transaction (0 when empty) read back as numbers; the column keeps its length |
| Ledger.PropagateStep | frontend/src/components/AGTable.tsx:69-77 | one pass of the loop sets cell i's balance to prevBalance + prevTransaction, then carries cell i's new balance and transaction on |
| Ledger.Recalculated | frontend/src/components/AGTable.tsx:61-80 | recalculateBalances keeps the row count and needs the account in the start row |
| Ledger.Balanced | frontend/src/components/AGTable.jsx:41-55 | the loop over a column from k keeps the column's length |
| Ledger.PropagateFrame | frontend/src/components/AGTable.tsx:69-77 | the loop changes only balances, and only in cells k and later |
| Ledger.PropagateValues | frontend/src/components/AGTable.tsx:69-77 | the first written balance is prevBalance + prevTransaction, and every later one follows from its freshly written predecessor |
| Ledger.PropagateFixed | frontend/src/components/AGTable.tsx:69-77 | on a column that already follows the recurrence, the loop changes nothing |
| Ledger.BalancedFollows | frontend/src/components/AGTable.jsx:41-55 | after the loop the column follows the recurrence, and the older version's start at row 0 writes "0.00" |
| Ledger.BalancedIdempotent | frontend/src/components/AGTable.jsx:41-55 | running the loop twice from the same row is running it once |
| Ledger.RecalculatedFollows | frontend/src/components/AGTable.tsx:61-80 | after recalculateBalances every balance from the start row on is the previous row's balance plus transaction, to two decimals |
| Ledger.RecalculatedFrame | frontend/src/components/AGTable.tsx:61-80 | only account a's balances from row k on change; dates, texts, other accounts and earlier rows stay |
| Ledger.RecalculatedErrors | frontend/src/components/AGTable.tsx:64-67 | for formulas whose value is a number or NaN, the current version throws exactly at start row 0 or for a missing account, and the older one only for a missing account |
| Ledger.RecalculatedIdempotent | frontend/src/components/AGTable.tsx:61-80 | recalculating again from the same row changes nothing |
| Ledger.RoundedReadsBack | frontend/src/components/AGTable.tsx:168 | parseFloat reads a toFixed(2) balance within 0.005 of the sum it was written from |
| Ledger.NoWarningCore | frontend/src/components/AGTable.tsx:179-182 | a balance rounded to cents is never more than a cent from the expected sum |
| Ledger.WarnsAt | frontend/src/components/AGTable.tsx:178-191 | the integrity check warns at row j > 0 exactly when the previous balance, the previous transaction (0 when empty) and this balance all parse as numbers and the first two sum to more than 0.01 away from the third |
| Ledger.ReaderAgrees | frontend/src/components/AGTable.tsx:168-169 | where the check's parseFloat reads a number, the loop's parseValue reads the same |
| Ledger.NoWarningCell | frontend/src/components/AGTable.tsx:178-191 | a balance the loop wrote from the previous cell never draws the integrity warning |
| Ledger.NoWarningAt | frontend/src/components/AGTable.tsx:178-191 | a row whose balance follows the recurrence draws no warning |
| Ledger.RecalculatedHasNoWarnings | frontend/src/components/AGTable.tsx:166-194 | after a recalculation the check finds nothing to report for that account from the start row on |
| Edits.WithAccount | frontend/src/components/AGTable.tsx:126-131 | creating the nested maps adds exactly this date and account's field map, and no entry |
| Edits.Put | frontend/src/components/AGTable.tsx:205-215 | setting a field changes that entry only and creates its maps |
| Edits.EditUpdated | frontend/src/components/AGTable.tsx:201-222 | handleEditUpdate: the field of the account on the date gets the new value and the time of the edit, creating the date and account entries when absent; with a style, the account's "format" entry is replaced by that style for this field |
| Edits.EditUpdatedEffect | frontend/src/components/AGTable.tsx:201-222 | after handleEditUpdate the field holds the value and time stamp, "format" holds the style when one is given, and every other entry is unchanged |
| Edits.EditUpdatedAt | frontend/src/components/AGTable.tsx:203-221 | an update is one write of the date's account map, with the field (and the format) set |
| Edits.EditUpdatedLastWins | frontend/src/components/AGTable.tsx:212-215 | two updates of one field without a style read as the later one alone |
| Edits.IsUserEditedAfterUpdate | frontend/src/components/AGTable.tsx:237-242 | a field just updated is user-edited, except for an absent date in the current version |
| Edits.IsUserEdited | frontend/src/components/AGTable.tsx:237-242 | isUserEdited: the field of the account on the date has an edit record; the current version also answers false for an empty date, the legacy one does not check it |
| Edits.SeedEditAt | frontend/src/components/AGTable.tsx:122-147 | one seeding step writes the transaction's date and account's field map with its non-empty parts |
| Edits.SeedEdit | frontend/src/components/AGTable.tsx:122-147 | one user transaction's seeding of the edits: its date and account entries exist afterwards; a non-empty amount is recorded as a transaction edit and a non-empty description as a description edit |
| Edits.SeededEdits | frontend/src/components/AGTable.tsx:115-151 | the seeding of the edits: every user transaction in order, each one's records written after the earlier ones' |
| Edits.SeedEditEffect | frontend/src/components/AGTable.tsx:122-147 | one seeding step sets exactly the fields the transaction supplies |
| Edits.SeedEditAccounts | frontend/src/components/AGTable.tsx:126-131 | one seeding step adds the field map of its own date and account, even when nothing is supplied |
| Edits.LastSupplier | frontend/src/components/AGTable.tsx:122-147 | gives the last user transaction that supplies a field, or None exactly when none does |
| Edits.SeededEditsExactly | frontend/src/components/AGTable.tsx:115-151 | after seeding, each field holds the value of the last user transaction supplying it, stamped now |
| Edits.SeededEditsAccounts | frontend/src/components/AGTable.tsx:115-151 | after seeding, a field map exists exactly for the date and account pairs the user transactions name |
| Columns.IndexOf | frontend/src/components/AGTable.tsx:315 | replace finds the first occurrence of the pattern |
| Columns.ReplaceFirstAbsent | frontend/src/components/AGTable.tsx:315 | replacing an absent pattern changes nothing |
| Columns.ReplaceFirstPrefix | frontend/src/components/AGTable.tsx:315 | replacing a leading pattern by "" strips it |
| Columns.Lower | frontend/src/components/AGTable.tsx:320 | toLowerCase maps each ASCII capital to its small letter and keeps every other character (non-ASCII case mapping is not modelled) |
| Columns.AccountClass | frontend/src/components/AGTable.tsx:316-320 | the header class has no ASCII capital letter |
| Columns.SavingNotInChecking | frontend/src/components/AGTable.tsx:315-318 | the savings prefix cannot occur inside the checking prefix |
| Columns.AccountShortOfPrefixed | frontend/src/components/AGTable.tsx:315 | the header of "Assets:Checking:X" or "Assets:Saving:X" is X |
| Columns.AccountShort | frontend/src/components/AGTable.tsx:315 | accountShort: the first "Assets:Saving:" and then the first "Assets:Checking:" in the account name removed |
| Columns.HasDataTrueExactly | frontend/src/components/AGTable.tsx:308-311 | hasData is true exactly when some row has a transaction or a balance that is not parsed as 0, and every row before it has the account |
| Columns.HasData | frontend/src/components/AGTable.tsx:308-311 | hasData for one account: true at the first row whose cell has a transaction or a balance that is neither empty nor 0; a TypeError at a row reached first without the account; false when no row has data |
| Columns.HasDataFalseExactly | frontend/src/components/AGTable.tsx:308-311 | hasData is false exactly when every row has the account and none has data |
| Updates.Filled | frontend/src/components/AGTable.tsx:95-101 | only a non-empty transaction and a non-empty description overwrite the cell |
| Updates.Written | frontend/src/components/AGTable.tsx:364-367 | writing a cell and rerunning the loop keeps every row's accounts and the row count |
| Updates.SeedRow | frontend/src/components/AGTable.tsx:89-107 | one user transaction keeps the rows rectangular and their count |
| Updates.Seeded | frontend/src/components/AGTable.tsx:83-112 | seeding keeps the rows rectangular and their count |
| Updates.Committed | frontend/src/components/AGTable.tsx:347-369 | a committed edit keeps the rows rectangular and their count |
| Updates.SetCellEffect | frontend/src/components/AGTable.tsx:364-366 | writing a cell puts it in place and leaves every other cell as it was |
| Updates.WrittenErrors | frontend/src/components/AGTable.tsx:364-367 | a write throws exactly when it reruns the loop from row 0 in the current version |
| Updates.WrittenTexts | frontend/src/components/AGTable.tsx:364-367 | after a write the cell holds the new texts, no other text changes, and earlier rows stay |
| Updates.WrittenOutside | frontend/src/components/AGTable.tsx:364-367 | a write keeps the rows before its row and every other account's cells; without a rerun of the loop no balance changes |
| Updates.WrittenCell | frontend/src/components/AGTable.tsx:364-367 | any one cell after a write holds the written texts or its old ones |
| Updates.WrittenFollows | frontend/src/components/AGTable.tsx:364-367 | a write that reruns the loop without a throw leaves the column following the recurrence from that row |
| Updates.CommittedEffect | frontend/src/components/AGTable.tsx:347-369 | an unknown date changes nothing; otherwise the edit throws exactly for a missing account or row 0 (current version), keeps the rows before its row and every other account's cells, and else the cell holds the value, no other text changes and the column follows the recurrence |
| Updates.FindRowSameDates | frontend/src/components/AGTable.tsx:91 | rows with the same dates are searched alike |
| Updates.SeedRowField | frontend/src/components/AGTable.tsx:91-101 | a seeding step writes its non-empty parts into the first row of its date, and nothing else |
| Updates.SeedRowErrors | frontend/src/components/AGTable.tsx:91-106 | a seeding step throws exactly when its date has a row, the transaction has an amount or a description, and either that row lacks the account or, in the current version, it recalculates from row 0; a step with neither an amount nor a description never throws, even when the row lacks the account |
| Updates.SeedRowShape | frontend/src/components/AGTable.tsx:89-107 | a seeding step keeps dates and accounts |
| Updates.SeedRowBalances | frontend/src/components/AGTable.tsx:89-107 | a step with no row or no transaction changes no balance; one with a row keeps earlier rows and other accounts' cells; one writing a transaction without a throw leaves its account following the recurrence from its row |
| Updates.SeedFrom | frontend/src/components/AGTable.tsx:83-107 | the row seeding recalculates an account from is the earliest row a user transaction writes a transaction of it into, or the row count when none does |
| Updates.SeedRowColumnKept | frontend/src/components/AGTable.tsx:95-106 | a step that writes no transaction of an account keeps that account's balances and transactions |
| Updates.SeedStepWrites | frontend/src/components/AGTable.tsx:89-107 | a step writing a transaction of an account keeps its balances following the recurrence from the earlier of its row and the previous start, and keeps the balances before that |
| Updates.SeedStepKeeps | frontend/src/components/AGTable.tsx:89-107 | any other step keeps the account following the recurrence from the previous start, and keeps its balances |
| Updates.SeededBalances | frontend/src/components/AGTable.tsx:83-112 | after seeding without a throw, each account's balances follow the recurrence from the earliest row a user transaction wrote its transaction into, and are unchanged before that row |
| Updates.SeededShape | frontend/src/components/AGTable.tsx:83-112 | seeding keeps dates and accounts |
| Updates.SeededDates | frontend/src/components/AGTable.tsx:83-112 | seeding keeps dates |
| Updates.SeededField | frontend/src/components/AGTable.tsx:83-112 | after seeding, each text holds the last supplying user transaction's value, or its old value |
| Updates.SeededRowsShowEdits | frontend/src/components/AGTable.tsx:83-151 | the seeded rows and the seeded edit record agree on every recorded transaction and description |
| Updates.SeededStops | frontend/src/components/AGTable.tsx:89-108 | once a seeding step has thrown, later user transactions change nothing |
| Validation.ScanWarnings | frontend/src/components/AGTable.tsx:166-195 | every warning of an account's scan names that account |
| Validation.FirstMissing | frontend/src/components/AGTable.tsx:167-168 | gives the first row without the account, or None exactly when every row has it |
| Validation.ScanStep | frontend/src/components/AGTable.tsx:178-194 | scanning one more row adds a warning exactly when its balance is off |
| Validation.FirstMissingAt | frontend/src/components/AGTable.tsx:167-168 | the first row without the account is the one where the scan stops |
| Validation.ScanWarningsExactly | frontend/src/components/AGTable.tsx:166-195 | the scan warns about exactly the rows after the first whose balance is off by more than a cent |
| Validation.CheckedErrors | frontend/src/components/AGTable.tsx:157-196 | the check throws a TypeError exactly when the table is not empty and a listed account lacks a row |
| Validation.AccountLog | frontend/src/components/AGTable.tsx:160-195 | one account's pass of the check: the warnings of its rows up to the first row without the account, and a TypeError at that row; no error when every row has it |
| Validation.Checked | frontend/src/components/AGTable.tsx:154-198 | validateDataIntegrity: no warning and no error for an empty table or no accounts; otherwise the accounts in order, each adding the warnings of its rows up to the first row without the account, and the first such row throwing a TypeError that ends the check |
| Validation.CheckedSound | frontend/src/components/AGTable.tsx:157-196 | every warning names a listed account and a row after the first whose balance is off |
| Validation.CheckedComplete | frontend/src/components/AGTable.tsx:157-196 | without a throw, every such row of every listed account is warned about |
| Validation.RecalculatedFromStartChecks | frontend/src/components/AGTable.jsx:41-55 | after the older version's recalculation from row 0 the check logs nothing for that account |
| Validation.CheckedStops | frontend/src/components/AGTable.tsx:160-196 | once an account has thrown, later accounts change nothing |
| Table.AccountOfField | frontend/src/components/AGTable.tsx:348-349 | field.split(".")[0] is the longest prefix without ".", followed by "." or the end |
| Table.AccountOfColumnField | frontend/src/components/AGTable.tsx:325-349 | the account of the column "account.transaction" is the account, for a name without "." |
| Table.BalanceLoop | frontend/src/components/AGTable.tsx:69-77 | the in-place loop leaves the rows with the column the recurrence computes |
| Table.AgTable.constructor | frontend/src/components/AGTable.tsx:86 | the table starts from the server's rows and an empty record |
| Table.AgTable.RecalculateBalances | frontend/src/components/AGTable.tsx:61-80 | the rows become the recalculated rows, or stay, with the error, when recalculateBalances throws |
| Table.AgTable.SeedRow | frontend/src/components/AGTable.tsx:89-107 | one step of the row initialiser changes the rows as the seeding function states |
| Table.AgTable.SeedRows | frontend/src/components/AGTable.tsx:83-112 | the row initialiser leaves the seeded rows, stopping at the first throw |
| Table.AgTable.SeedEdits | frontend/src/components/AGTable.tsx:115-151 | the edit record initialiser leaves the seeded record |
| Table.AgTable.HandleEditUpdate | frontend/src/components/AGTable.tsx:201-222 | the record becomes the updated record; the older version takes no style |
| Table.AgTable.CommitTransaction | frontend/src/components/AGTable.tsx:347-369 | an unknown date changes nothing; otherwise the edit is recorded and the rows become the committed rows |
| Table.AgTable.CommitDescription | frontend/src/components/AGTable.tsx:382-389 | a note edit is recorded and the rows stay |
| Table.AgTable.CheckAccount | frontend/src/components/AGTable.tsx:160-195 | the loop over one account's rows gives that account's log |
| Table.AgTable.Validate | frontend/src/components/AGTable.tsx:154-198 | the check over all accounts gives the check's log, with nothing for an empty table |
| App.FetchGate | frontend/src/App.tsx:16-25 | a poll does nothing when a date element is missing or the range is the cached one; otherwise it fetches that range |
| App.FetchGateSettles | frontend/src/App.tsx:23-27 | after caching a range, polling it again fetches nothing |
| App.HttpErrorMessageStatus | frontend/src/App.tsx:35-37 | the error text is "HTTP error! status: " followed by the status in decimal |
| App.HttpErrorMessage | frontend/src/App.tsx:36 | the error thrown for a response that is not ok: "HTTP error! status: " and the status code in decimal |
| App.AddDays | frontend/src/App.tsx:52-53 | n steps of the date land on a valid, later date |
| App.AddDaysAscending | frontend/src/App.tsx:52-53 | more steps give a later date |
| App.IsoDatePart | frontend/src/App.tsx:54 | for years up to 9999 the date part is the "YYYY-MM-DD" text |
| App.ClearedCells | frontend/src/App.tsx:43-50 | clearing keeps every account, and clears its transaction and note |
| App.ExtraMonth | frontend/src/App.tsx:51-58 | the extra month has 31 rows, the j-th dated j + 1 days after the last row |
| App.Extrapolated | frontend/src/App.tsx:39-58 | it throws a TypeError for no rows and a RangeError for a last date that is not a date; otherwise it adds 31 rows with the last row's accounts and keeps the fetched rows |
| App.ClearRow | frontend/src/App.tsx:43-50 | the key-by-key loop gives the cleared cells |
| App.AppendMonth | frontend/src/App.tsx:51-58 | the 31-step loop appends exactly the extra month |
| App.Extrapolate | frontend/src/App.tsx:43-58 | the page's copying and appending gives the extrapolated table |
| App.ExtrapolatedCells | frontend/src/App.tsx:43-57 | every added row keeps the last row's accounts and balances, with transaction and note cleared |
| App.ExtrapolatedDatesAscending | frontend/src/App.tsx:51-58 | the added dates are the following days, one by one, ascending both as dates and as text |
| App.ExtrapolatedFirstWarns | frontend/src/App.tsx:43-57 | the first added row draws the integrity warning exactly when the last fetched transaction is more than a cent |
| App.ExtrapolatedLaterQuiet | frontend/src/App.tsx:43-57 | the later added rows never draw it |
| App.ExtrapolatedLaterQuietForParseFloat | frontend/src/App.tsx:43-57 | the same with the check's parseFloat |
| App.WallClockDates | frontend/src/App.tsx:51-54 | the loop as written yields 31 dates |
| App.WallClockDay | frontend/src/App.tsx:51-53 | the UTC day the date shows after i steps of setDate(getDate() + 1): i wall-clock days past the start, less the zone's offset in force at that reading, rounded down to whole days |
| App.WallClockDatesRepeat | frontend/src/App.tsx:51-54 | when the zone's clocks move forward during the 31 days, in any zone, the loop as written dates two rows alike and the month ends a day early; the lemma shows a zone five hours behind UTC on 2024-03-10 |
| App.WallClockForwardRepeats | frontend/src/App.tsx:51-54 | in any zone, a forward clock change of less than a day between step i - 1 and step i makes both steps show UTC day i - 1, so every row from step i on is a day behind |
| App.Dashboard.constructor | frontend/src/App.tsx:6-9 | the page starts empty, loading, without error or cached range |
| App.Dashboard.FetchData | frontend/src/App.tsx:11-69 | each poll ends with loading off; a new range is cached and either replaces the table or sets the error; otherwise nothing changes |
| App.Fetched | frontend/src/App.tsx:31-61 | a fetch succeeds only for an ok response with a parsed body, keeping its accounts and adding 31 rows |
| Server.FirstTransactionFrom | src/mars_dashboard/__init__.py:22-25 | the forward scan finds the first transaction, or None when there is none |
| Server.LastDatedBefore | src/mars_dashboard/__init__.py:26-29 | the backward scan finds the last transaction or price, or None when there is none |
| Server.LedgerDuration | src/mars_dashboard/__init__.py:19-32 | FavaAPIError exactly when the ledger has no transaction |
| Server.GetLedgerDuration | src/mars_dashboard/__init__.py:19-32 | the two scans give the duration |
| Server.LedgerDurationSpans | src/mars_dashboard/__init__.py:19-32 | on a ledger in date order the duration starts no later than it ends, and spans every transaction and every price |
| Server.TrackedAccounts | src/mars_dashboard/__init__.py:67-71 | the accounts kept are exactly the ledger's checking and savings accounts |
| Server.ScanEnd | src/mars_dashboard/__init__.py:93-97 | the balance scan stops at the first entry after the day |
| Server.BalanceOn | src/mars_dashboard/__init__.py:93-97 | the balance the inner loop leaves for a day: the amount of the last journal entry before the first entry dated after the day, 0 when the first entry is already later |
| Server.ScanBalance | src/mars_dashboard/__init__.py:88-97 | the inner loop gives the balance on the day |
| Server.BalanceOnSorted | src/mars_dashboard/__init__.py:88-97 | on a journal in date order the balance is the last entry on or before the day, and 0 before the first |
| Server.FreshCells | src/mars_dashboard/__init__.py:85-97 | a new row has one cell per tracked account, with the day's balance, no transaction and no description |
| Server.Grid | src/mars_dashboard/__init__.py:79-99 | the grid's row i is the fresh row for first + i |
| Server.GridDays | src/mars_dashboard/__init__.py:81-99 | the grid has one row per day from first to last, consecutive, and none when first is after last |
| Server.FreshRow | src/mars_dashboard/__init__.py:84-97 | the loop over accounts builds the fresh cells |
| Server.GridExtend | src/mars_dashboard/__init__.py:83-99 | one more day appends that day's row |
| Server.BuildGrid | src/mars_dashboard/__init__.py:79-99 | the while loop over current_date builds the grid |
| Server.WordEnd | src/mars_dashboard/__init__.py:115 | a word ends at the first white space or at the end |
| Server.Words | src/mars_dashboard/__init__.py:115 | split() gives non-empty words without white space |
| Server.LabelWords | src/mars_dashboard/__init__.py:115-119 | the description is empty exactly for a blank payee, and splits back into the payee's first one or two words |
| Server.PostOne | src/mars_dashboard/__init__.py:105-119 | a posting is booked exactly when it falls before the first booking day or on a row with its account, and has a payee |
| Server.Label | src/mars_dashboard/__init__.py:115-119 | the description a payee adds: its first two words joined by a space, its only word, or nothing for a payee without words |
| Server.Posted | src/mars_dashboard/__init__.py:105-119 | the posting loop: each posting booked in order onto the grid, the whole loop failing with the error of the first posting that cannot be booked |
| Server.PostedStops | src/mars_dashboard/__init__.py:105-119 | after the first posting that raises, later postings change nothing |
| Server.ApplyPostings | src/mars_dashboard/__init__.py:105-119 | the posting loop gives the booked rows or the first error |
| Server.PostedTotals | src/mars_dashboard/__init__.py:105-119 | after the loop every cell's transaction is the sum of the units, and its description the labels, of the postings dated the next day |
| Server.PostOneTotals | src/mars_dashboard/__init__.py:109-119 | one posting adds to its own cell only |
| Server.PostedExactlyWhenBookable | src/mars_dashboard/__init__.py:105-119 | the loop succeeds exactly when every posting can be booked on the grid |
| Server.GridFollowsJournal | src/mars_dashboard/__init__.py:88-113 | where the journal moves by the next day's postings, the booked grid keeps the front end's recurrence |
| Server.FormatCurrencyReadsBack | src/mars_dashboard/__init__.py:61-64 | the text is "$" or "-$" followed by the magnitude to the cent, within half a cent; parseFloat reads it as NaN |
| Server.FormatCurrency | src/mars_dashboard/__init__.py:61-64 | formatCurrency: "$" and the amount rounded half-to-even to two decimals, with "-" before the "$" for a negative amount |
| Server.CleanedUp | src/mars_dashboard/__init__.py:121-130 | every row is formatted cell by cell |
| Server.CleanUpAsWritten | src/mars_dashboard/__init__.py:122-130 | the clean-up loop as written: TypeError at the first cell when there are rows and tracked accounts, since self.formatCurrency passes two arguments; otherwise the rows unchanged |
| Server.CleanUp | src/mars_dashboard/__init__.py:121-130 | the clean-up loop gives the formatted rows |
| Server.Bootstrap | src/mars_dashboard/__init__.py:66-135 | the method returns Bootstrapped, bootstrap with the formatting as intended; the code as written raises TypeError instead (Server.BootstrappedAsWritten) |
| Server.Bootstrapped | src/mars_dashboard/__init__.py:66-135 | bootstrap as intended: the tracked accounts, the ledger's duration, the grid with the postings booked, each balance and transaction formatted as currency; the first error among these steps is the result |
| Server.BootstrappedAsWritten | src/mars_dashboard/__init__.py:66-135 | bootstrap as written: the same steps, with the clean-up step calling formatCurrency with one argument too many |
| Server.BookedGrid | src/mars_dashboard/__init__.py:79-119 | the booked grid's cells are the balance on the day, and the units and labels of the next day's postings |
| Server.BootstrappedRows | src/mars_dashboard/__init__.py:66-135 | bootstrap returns the tracked accounts, and one row per day whose cells format the booked grid's |
| Server.BootstrapAsWrittenRaises | src/mars_dashboard/__init__.py:124-129 | as written, bootstrap raises TypeError on every ordered ledger with a tracked account whose postings can all be booked |

## Left out

- Network requests are not modelled: the POST of every edit and the GET of the table. The server's answer is a parameter of `App.Dashboard.FetchData`.
- The poll timer, console output and render counters are left out. So are the rendering (cell styles and the date column's weekday text), `CellFormatMenu`, `MainTable` and the browser extension.
- `new Date()` is not modelled: the current time is a parameter (`today`, `now`).
- `eval` is a parameter.
- `Values.EvaluateFormula`: an eval result that is neither a number nor NaN is not modelled. One case is a string such as `'5'`, which isNaN lets through; the balance loop then concatenates texts and `.toFixed` throws a TypeError. The other is Infinity, which the loop writes as "Infinity". The error conditions of `Ledger.RecalculatedErrors`, `Updates.WrittenErrors` and `Updates.SeedRowErrors` hold only for formulas that give a number or NaN.
- `Columns.Lower`: only the ASCII capitals are mapped. JavaScript's toLowerCase also lowers non-ASCII capitals (É becomes é, İ becomes i̇). So `Columns.AccountClass` promises no ASCII capital, not no capital at all.
- `exec_query`, `get_account_entries` and `account_journal` are ledger queries. Their results are inputs: each account's journal, and the postings query's rows.
- `Numeric.ParseFloat`: amounts are exact rationals. IEEE double rounding, `Infinity` and overflow are not modelled.
- `Numeric.Round2`: toFixed(2) rounds the exact decimal half up. The binary rounding of doubles and the exponent form above 10^21 are not modelled.
- `Server.FormatCurrencyReadsBack`: Decimal's precision limit and InvalidOperation are not modelled. Neither is the negative zero that renders as "$-0.00".
- `Server.CleanedUp`: a description is kept as the set of labels. The order in which `", ".join` lists a Python set is not modelled.
- `Server.ApplyPostings`: the `if not entry` skip is omitted. A query row is a non-empty named tuple and is never falsy.
- `Calendar.ParseIso`: `new Date(text)` is modelled for "YYYY-MM-DD" only. Every other text is an invalid date.
- `Table.AgTable.RecalculateBalances`: it requires every row to have the same accounts (`Valid`). Every table the server and the page build has this property. Ragged tables are not modelled.
- The rows are values, not shared objects. The source seeds and recalculates cell objects that `dashboardData.rows` shares, so the integrity check and `hasData` see the seeded rows. The model states this by running `Validate` on the class's rows after seeding.
- Each edit record entry holds a single time stamp `now`. The source reads the clock once per entry.

## Findings

| source | as written | input that shows it | evidently intended | confidence | as-written member | corrected member |
|---|---|---|---|---|---|---|
| frontend/src/App.tsx:51-54 | the loop steps the local wall-clock date with setDate, then takes the UTC date part; when the clocks move forward during the 31 days, in any zone, two rows get the same date and every later row is a day behind | last row 2024-03-09, in a zone five hours behind UTC that moves its clocks on 2024-03-10: the first two added rows are both dated 2024-03-10 | the 31 calendar days after the last row | not executed | App.WallClockDatesRepeat | App.ExtrapolatedDatesAscending |
| frontend/src/components/AGTable.tsx:64-67 | row startIndex - 1 is read before the startIndex > 0 guard | a remembered user transaction, or an edited transaction, on the first row's date: rows[-1] is undefined and the handler throws a TypeError | start from 0 and 0, as the guard on line 66 and the older component do; this treats row 0's balance as recomputed, overwriting its opening balance with "0.00" | not executed | Ledger.RecalculatedErrors | Validation.RecalculatedFromStartChecks |
| src/mars_dashboard/__init__.py:61-64 | formatCurrency is declared without self and called as self.formatCurrency | any ledger with a checking or savings account whose postings can all be booked: the first clean-up call passes two arguments to a one-parameter function and raises TypeError | format each balance and transaction as "$x.xx" / "-$x.xx" | not executed | Server.BootstrapAsWrittenRaises | Server.BootstrappedRows |

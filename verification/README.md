# Expense tracker ledger, modelled in Dafny

The expense tracker's Flask backend (`backend/app.py`) keeps a small ledger in
SQLite. It has an `expenses` table of rows (id, amount, type, date, description),
a one-row `balance` table, and the counter that SQLite's AUTOINCREMENT keeps for
`expenses`. Three handlers change the ledger: `init_db` seeds the balance,
`add_expense` inserts a row and adjusts the balance, and `delete_expense` removes
a row and undoes its effect. Three handlers read it: `current_balance`,
`monthly_summary` and `transactions` (rows in a date range).

This project models that ledger as an immutable value with pure transitions and
queries. Each handler returns the database afterwards together with a status
tag (201, 200, 404, 400 or the 500 of an uncaught exception). The project proves
the ledger invariant: the balance row always holds the credits minus the debits
of the stored rows. It also proves what each handler promises on its own.

Files and modules:

- `text.dfy` (`Text`): string order under SQLite's BINARY collation, prefixes,
  and zero-padded decimal fields with their order and round-trip lemmas.
- `calendar.dfy` (`Calendar`): dates, the clock, the `%Y-%m-%d %H:%M:%S` text
  the backend stores, and Python's `strptime(s, '%Y-%m-%d')`. The strptime model
  follows CPython's field patterns: four-digit year, month `1[0-2]|0[1-9]|[1-9]`,
  day `3[01]|[12]\d|0[1-9]|[1-9]| [1-9]`, nothing left over, and a date that
  exists (year at least 1, day within the month, leap years Gregorian).
- `ledger.dfy` (`Ledger`): the tables, the six handlers and the invariant.
- `session.dfy` (`Session`): any sequence of requests after start-up. The
  invariant holds throughout, and ids are never reused.
- `findings.dfy` (`Findings`): the `transactions` handler exactly as written,
  and the input on which it goes wrong (see Findings).

Modelling choices:

- Amounts are exact `real`s, not SQLite `REAL` floats.
- The clock (`datetime.now()`) is a parameter of type `Instant`, a valid date
  and time with a four-digit year. The month of the summary is taken from it.
- A JSON key the handler reads with `data['…']` (or a date passed on to
  `strptime`) may be missing, modelled as `None`. The handler then raises
  before touching the database, which shows as `ServerError` with nothing changed.
- The `type` column is free text: rows of any other type are stored but move
  neither the balance nor the sums. The code checks neither the type nor the
  sign of the amount, and the model follows the code.
- The new id follows SQLite's AUTOINCREMENT rule: one more than the larger of
  the largest stored id and the largest id ever handed out.

## Model

| member | source | states |
|---|---|---|
| Ledger.InitDb | backend/app.py:14-28 | init_db puts balance 0 in place only when the balance row is absent; an existing balance, the rows and the id counter stay as they were |
| Ledger.InitIdempotent | backend/app.py:27 | running init_db twice is the same as once, and on a consistent ledger it changes nothing |
| Ledger.InitEstablishes | backend/app.py:14-28 | on freshly created tables init_db gives a consistent ledger whose current balance is 0 |
| Ledger.NextId | backend/app.py:17 | the AUTOINCREMENT id is greater than every stored id and every id handed out before |
| Ledger.AddExpense | backend/app.py:30-46 | add_expense appends exactly one row with a fresh id, the given amount and type, the clock's timestamp and the description or '' when absent, leaving earlier rows as they were; a debit lowers the balance by the amount, a credit raises it, any other type leaves it; a missing amount or type changes nothing and fails with 500 |
| Ledger.Adjust | backend/app.py:41-43 | the balance UPDATE (also at lines 59-61) shifts the balance by the delta when row 1 exists and does nothing while it is absent |
| Ledger.NetAppend | backend/app.py:39-43 | the balance change paired with an insert equals the change the new row makes to credits minus debits |
| Ledger.AddPreserves | backend/app.py:38-44 | add_expense keeps the balance equal to credits minus debits, the ids increasing and within the counter |
| Ledger.Find | backend/app.py:54 | the lookup by id returns a stored row with that id, and nothing exactly when no stored row has it |
| Ledger.Remove | backend/app.py:57 | DELETE keeps exactly the rows whose id differs from the given one |
| Ledger.RemoveStored | backend/app.py:57 | with distinct ids, deleting a stored row's id removes one row and takes exactly that row out of every sum |
| Ledger.DeleteExpense | backend/app.py:48-65 | delete_expense on a stored id answers 200, keeps exactly the other rows and reverses the row's balance effect; on an id not stored it answers 404 and changes nothing; a missing id changes nothing and fails with 500 |
| Ledger.NetRemove | backend/app.py:57-61 | the reversing balance update of a delete equals the change the removal makes to credits minus debits |
| Ledger.DeletePreserves | backend/app.py:53-63 | delete_expense keeps the balance equal to credits minus debits, the ids increasing and within the counter |
| Ledger.DeleteRemovesOne | backend/app.py:57 | on a consistent ledger, deleting a stored id removes exactly one row |
| Ledger.AddThenDelete | backend/app.py:30-65 | adding an expense then deleting its new id restores the rows and the balance exactly; only the id counter has moved on |
| Ledger.CurrentBalance | backend/app.py:67-71 | current_balance fails with 500 when the balance row is absent, and on a consistent ledger returns credits minus debits |
| Ledger.TotalNone | backend/app.py:77-78 | a sum over no matching rows is 0 |
| Ledger.TotalAppend | backend/app.py:77-78 | one more row raises the sum by its amount exactly when its type and month match, and leaves it otherwise |
| Ledger.TotalWhenAllMatch | backend/app.py:75-78 | when every stored row is from the current month, the month's sum equals the sum over all rows of that type |
| Ledger.MonthlySummary | backend/app.py:73-79 | income is 0 when no credit row is from the current month, and expenditure is 0 when no debit row is |
| Ledger.SummaryOfOneMonthIsBalance | backend/app.py:73-79 | when all stored rows are from the current month, income minus expenditure equals the current balance |
| Ledger.AddShowsInSummary | backend/app.py:75-78 | an expense added now raises this month's income by its amount when it is a credit, the expenditure when it is a debit, and neither for any other type |
| Ledger.Between | backend/app.py:98 | the range query returns exactly the stored rows whose date part lies between the two bounds as text, inclusive, and no row more often than it is stored |
| Ledger.NormalisedBoundsMatchRange | backend/app.py:94-98 | comparing the stored date text against zero-padded bounds selects exactly the rows whose calendar date lies in the range |
| Ledger.Transactions | backend/app.py:81-101 | the corrected handler (line 98 as written compares the raw bound text, see Findings): a missing bound fails with 500, an unparseable bound with 400, start after end with 400, start checked before end; otherwise exactly the stored rows dated within the range, inclusive, field for field, each listed no more often than it is stored |
| Ledger.DeletedIsNotListed | backend/app.py:48-101 | after delete_expense by an id, whatever the outcome, no range query lists a row with that id |
| Ledger.AddListDelete | backend/app.py:81-101 | for the corrected handler (line 98 as written compares the raw bound text, see Findings): an expense added now is listed by every range that covers today, and no longer listed by any range once it is deleted |
| Ledger.HttpCode | backend/app.py:92-95 | both refusals of a bad date range are sent as 400 and no other outcome is; only an uncaught exception is a 500 |
| Text.StrLeOrder | backend/app.py:98 | in the BINARY text comparison BETWEEN uses, any two texts compare, texts that compare both ways are equal, and a prefix sorts first |
| Text.StrLeTrans | backend/app.py:98 | the BINARY text comparison is transitive, so with Text.StrLeOrder it is a total order |
| Calendar.MonthToken | backend/app.py:89-90 | an accepted month field has a value from 1 to 12 |
| Calendar.DayToken | backend/app.py:89-90 | an accepted day field has a value from 1 to 31 |
| Calendar.ParseDate | backend/app.py:88-92 | a date strptime accepts exists in the calendar and its text is 8 to 10 characters long |
| Calendar.ParseFormatDate | backend/app.py:35 | strptime reads back the date of a zero-padded date text unchanged |
| Calendar.TimestampText | backend/app.py:35 | the stored timestamp is well formed, and SQLite's date() of it is the clock's zero-padded date |
| Calendar.SqlDate | backend/app.py:98 | date() of a stored timestamp is a zero-padded date that starts the timestamp |
| Calendar.FormatDateOrder | backend/app.py:94-98 | on zero-padded dates the text order SQLite compares with is the calendar order Python compares with |
| Calendar.MonthPrefixMatches | backend/app.py:75-77 | a stored timestamp matches the current month's LIKE pattern exactly when it has the same year and month |
| Session.RunPreserves | backend/app.py:14-65 | every sequence of init, add and delete requests keeps a consistent ledger consistent |
| Session.BalanceIsCreditsMinusDebits | backend/app.py:27 | from start-up on, whatever requests arrive, current_balance returns credits minus debits of the stored rows |
| Session.IssuedWithinCounter | backend/app.py:17 | every id handed out during a run lies above the starting counter and at or below the final one |
| Session.IdsNeverReused | backend/app.py:17 | an insert after any run gets an id no insert of that run received, even for rows since deleted |
| Findings.TransactionsAsWritten | backend/app.py:81-101 | the handler as written returns exactly the rows whose date part lies between the raw bound texts, none more often than it is stored, and refuses any request with a missing or unparseable bound |
| Findings.AsWrittenAgreesOnPaddedBounds | backend/app.py:88-98 | with zero-padded bounds the handler as written and the corrected one give the same answer |
| Findings.AsWrittenRefusesAlike | backend/app.py:88-95 | the handler as written and the corrected one refuse the same requests with the same status |
| Findings.AsWrittenListsAddedOnPaddedBounds | backend/app.py:81-101 | with zero-padded bounds the handler as written does list an expense added now whenever the range covers today |
| Findings.SpacedBoundsAddRows | backend/app.py:89-98 | with bounds `2024-01- 5` and 2024-01-09, a debit stamped 2024-01-02 is listed by the handler as written but not by the corrected one |
| Findings.UnpaddedBoundsLoseRows | backend/app.py:89-98 | with bounds 2024-1-5 and 2024-1-9, a credit stamped 2024-01-07 is missing from the handler as written but listed by the corrected one |

## Left out

- The React client (`ui/expense-tracker-ui/src/App.js`): rendering, HTTP calls, alert prompts, its two empty-field guards and the spreadsheet export, which is a direct call into the `xlsx` library.
- Flask routing, CORS, `app.run`, and JSON parsing other than a missing key: a body that is not JSON, JSON `null` in a field (SQLite refuses NULL amount or type with an IntegrityError and stores a NULL description), and an amount or id that is not a number are not modelled.
- The SQLite connection and engine: the tables are in-memory values, and each handler is one atomic step. In `add_expense` the INSERT and its UPDATE commit together. In `delete_expense` the SELECT lookup (app.py:54) runs before Python's sqlite3 opens its implicit transaction at the DELETE (app.py:57), so the lookup is not in the transaction; the model still treats the handler as one step.
- Calls before `init_db` creates the tables. `init_db` runs only when the file is started as a script (app.py:103-104); a run in the model starts from `InitDb(Fresh())`, and a server started another way (for example `flask run`) without the tables is not modelled.
- Float rounding of `REAL`: amounts are exact. With floats, `Ledger.AddThenDelete` and the balance invariant can be off by rounding.
- Ledger.Transactions: promises which rows are listed but not their order, because the query has no ORDER BY (the model keeps rowid order).
- Calendar.ParseDate: reads ASCII digits only. Python's `\d` also accepts other Unicode decimal digits.
- Calendar.SqlDate: covers the stored clock timestamps only. SQLite's `date()` accepts other time formats, which never reach the table.
- The clock: `datetime.now()` is a parameter. Its year is taken to have four digits, so `%Y` writes exactly four.
- AUTOINCREMENT's failure once the largest 64-bit id has been used.
- Concurrent requests. Under the threaded development server (app.py:106), two deletes of one id can both find the row at app.py:54-55; the second DELETE removes nothing but its UPDATE (app.py:59 or 61) reverses the balance a second time, breaking the invariant that the balance is credits minus debits. The model runs requests one after another.
- Integers outside SQLite's 64-bit range: Python's sqlite3 raises OverflowError when it binds such an id (app.py:54) or amount (app.py:39), which answers 500 and stores nothing. The model treats them as any other number, so it answers 404 or 201 there.

## Findings

| source | as written | input that shows it | evidently intended | confidence | as-written member | corrected member |
|---|---|---|---|---|---|---|
| backend/app.py:89-98 | `strptime` accepts a month or day without its leading zero, and the raw bound text then goes into `date(date) BETWEEN ? AND ?`, which compares text | start `2024-1-5`, end `2024-1-9`, one credit stamped `2024-01-07 12:00:00`: the text `2024-01-07` sorts before `2024-1-5`, so the row is not listed (Findings.UnpaddedBoundsLoseRows). The day field also accepts a space before one digit, and a space sorts before every digit: start `2024-01- 5`, end `2024-01-09`, one debit stamped `2024-01-02 12:00:00` is listed although it lies before the range (Findings.SpacedBoundsAddRows). The shipped client sends `<input type="date">` values (ui/expense-tracker-ui/src/App.js:121-131), which are always zero-padded, so only callers of the API itself reach either case | every row dated within the validated range is listed; the corrected handler compares against the zero-padded form of the parsed bounds | high; not executed | Findings.TransactionsAsWritten | Ledger.Transactions |

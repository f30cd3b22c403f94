/**
 The expense ledger of the Flask backend (backend/app.py): the `expenses`
 table, the one-row `balance` table and AUTOINCREMENT's counter, with each
 HTTP handler as a pure transition (add, delete, init) or query (balance,
 monthly summary, transactions in a date range).
 */
module Ledger {
  import opened Text
  import opened Calendar

  /** One row of the `expenses` table; `kind` is the free-text `type` column. */
  datatype Expense = Expense(id: int, amount: real, kind: string, date: string, description: string)

  /** The database: `expenses` rows in rowid order, `total_balance` of balance row 1
      (`None` while that row is absent), and the largest id AUTOINCREMENT has handed out. */
  datatype Db = Db(rows: seq<Expense>, balance: Option<real>, lastId: nat)

  /** How a handler ends: its HTTP status, or the 500 of an uncaught exception. */
  datatype Status = Created | Done | NotFound | InvalidDateFormat | StartAfterEnd | ServerError

  /** The HTTP status code each outcome is sent with: both refusals of a bad date
      range are a 400, and only an uncaught exception is a 500. */
  function HttpCode(s: Status): (code: int)
    ensures code == 400 <==> s == InvalidDateFormat || s == StartAfterEnd
    ensures code == 500 <==> s == ServerError
    ensures 200 <= code < 600
  {
    match s
    case Created => 201
    case Done => 200
    case NotFound => 404
    case InvalidDateFormat => 400
    case StartAfterEnd => 400
    case ServerError => 500
  }

  /** The outcome of a mutating handler: the database afterwards and the status. */
  datatype Step = Step(db: Db, status: Status)

  /** The outcome of a query: a 200 body, or the status it failed with. */
  datatype Reply<+T> = Ok(value: T) | Refused(status: Status)

  /** The JSON body of `POST /add_expense`; a `None` field is a missing key. */
  datatype AddRequest = AddRequest(amount: Option<real>, kind: Option<string>, description: Option<string>)

  datatype Summary = Summary(income: real, expenditure: real)

  const Debit: string := "debit"
  const Credit: string := "credit"

  /** What one row adds to `SUM(amount) ... WHERE type = kind AND date LIKE 'prefix%'`. */
  function Counted(e: Expense, kind: string, prefix: string): real
  {
    if e.kind == kind && StartsWith(e.date, prefix) then e.amount else 0.0
  }

  /** `SELECT SUM(amount) FROM expenses WHERE type = kind AND date LIKE 'prefix%'`,
      with the NULL of an empty sum read as 0 (the `or 0` of the handler). */
  function Total(rows: seq<Expense>, kind: string, prefix: string): real
  {
    if rows == [] then 0.0 else Counted(rows[0], kind, prefix) + Total(rows[1..], kind, prefix)
  }

  /** Credits minus debits over the stored rows; other types count for nothing. */
  function Net(rows: seq<Expense>): real
  {
    Total(rows, Credit, "") - Total(rows, Debit, "")
  }

  /** The change to `total_balance` the UPDATE paired with an insert makes. */
  function Effect(kind: string, amount: real): real
  {
    if kind == Debit then -amount else if kind == Credit then amount else 0.0
  }

  /** `UPDATE balance SET total_balance = total_balance + delta WHERE id = 1`,
      which touches nothing while row 1 is absent. */
  function Adjust(balance: Option<real>, delta: real): (r: Option<real>)
    ensures r.Some? <==> balance.Some?
    ensures r.Some? ==> r.value == balance.value + delta
  {
    match balance
    case Some(b) => Some(b + delta)
    case None => None
  }

  /** Ids strictly increase in rowid order, so no two rows share one. */
  predicate IdsIncreasing(rows: seq<Expense>)
  {
    rows == [] || ((forall x :: x in rows[1..] ==> rows[0].id < x.id) && IdsIncreasing(rows[1..]))
  }

  /** What every reachable database satisfies: the balance row holds credits minus
      debits, ids increase in rowid order, and none exceeds the counter. */
  predicate WellFormed(db: Db)
  {
    && db.balance == Some(Net(db.rows))
    && IdsIncreasing(db.rows)
    && (forall e :: e in db.rows ==> 1 <= e.id <= db.lastId)
  }

  /** Both tables just created and still empty. */
  function Fresh(): Db
  {
    Db([], None, 0)
  }

  /** `init_db`: `INSERT OR IGNORE INTO balance VALUES (1, 0)`. The CREATE TABLE IF
      NOT EXISTS statements change nothing once the tables exist. */
  function InitDb(db: Db): (r: Db)
    ensures r.rows == db.rows && r.lastId == db.lastId
    ensures r.balance.Some?
    ensures db.balance.Some? ==> r.balance == db.balance
    ensures db.balance.None? ==> r.balance == Some(0.0)
  {
    if db.balance.Some? then db else db.(balance := Some(0.0))
  }

  function MaxId(rows: seq<Expense>): (m: int)
    ensures m >= 0
    ensures forall e :: e in rows ==> e.id <= m
  {
    if rows == [] then 0
    else
      var rest := MaxId(rows[1..]);
      assert forall e :: e in rows ==> e == rows[0] || e in rows[1..];
      if rows[0].id > rest then rows[0].id else rest
  }

  /** AUTOINCREMENT: one more than the largest of the stored ids and every id
      handed out before, so an id is never reused. */
  function NextId(db: Db): (id: nat)
    ensures id > db.lastId
    ensures forall e :: e in db.rows ==> e.id < id
  {
    (if db.lastId >= MaxId(db.rows) then db.lastId else MaxId(db.rows)) + 1
  }

  function DescriptionOrDefault(description: Option<string>): string
  {
    match description
    case Some(d) => d
    case None => ""
  }

  /** The INSERT of a row together with its paired balance UPDATE; the row's id
      becomes the AUTOINCREMENT counter. */
  function Insert(db: Db, e: Expense): Db
    requires e.id >= 0
  {
    Db(db.rows + [e], Adjust(db.balance, Effect(e.kind, e.amount)), e.id)
  }

  /** `POST /add_expense`: stamp the row with the clock, insert it, then lower the
      balance for a debit, raise it for a credit, leave it for any other type.
      A missing `amount` or `type` raises KeyError before the database is touched. */
  function AddExpense(db: Db, req: AddRequest, now: Instant): (r: Step)
    ensures req.amount.None? || req.kind.None? ==> r == Step(db, ServerError)
    ensures req.amount.Some? && req.kind.Some? ==>
      && r.status == Created
      && |r.db.rows| == |db.rows| + 1
      && r.db.rows[..|db.rows|] == db.rows
      && var e := r.db.rows[|db.rows|];
      && e.id == r.db.lastId > db.lastId
      && (forall x :: x in db.rows ==> x.id < e.id)
      && e.amount == req.amount.value && e.kind == req.kind.value
      && e.date == FormatTimestamp(now)
      && (req.description.None? ==> e.description == "")
      && (req.description.Some? ==> e.description == req.description.value)
      && (r.db.balance.Some? <==> db.balance.Some?)
      && (db.balance.Some? && e.kind == Debit ==> r.db.balance.value == db.balance.value - e.amount)
      && (db.balance.Some? && e.kind == Credit ==> r.db.balance.value == db.balance.value + e.amount)
      && (e.kind != Debit && e.kind != Credit ==> r.db.balance == db.balance)
  {
    match (req.amount, req.kind)
    case (Some(amount), Some(kind)) =>
      Step(Insert(db, Expense(NextId(db), amount, kind, FormatTimestamp(now), DescriptionOrDefault(req.description))), Created)
    case _ => Step(db, ServerError)
  }

  /** `SELECT amount, type FROM expenses WHERE id = ?` with `fetchone()`. */
  function Find(rows: seq<Expense>, id: int): (r: Option<Expense>)
    ensures r.Some? ==> r.value in rows && r.value.id == id
    ensures r.None? <==> forall e :: e in rows ==> e.id != id
  {
    if rows == [] then None
    else if rows[0].id == id then Some(rows[0])
    else
      assert forall e :: e in rows ==> e == rows[0] || e in rows[1..];
      Find(rows[1..], id)
  }

  /** `DELETE FROM expenses WHERE id = ?`: every row with that id goes, the rest keep their order. */
  function Remove(rows: seq<Expense>, id: int): (r: seq<Expense>)
    ensures |r| <= |rows|
    ensures forall e :: e in r <==> e in rows && e.id != id
  {
    if rows == [] then []
    else
      assert forall e :: e in rows ==> e == rows[0] || e in rows[1..];
      if rows[0].id == id then Remove(rows[1..], id) else [rows[0]] + Remove(rows[1..], id)
  }

  /** `DELETE /delete_expense`: remove the row with the given id and undo its effect
      on the balance, or answer 404 and change nothing. A missing `id` raises KeyError. */
  function DeleteExpense(db: Db, id: Option<int>): (r: Step)
    ensures id.None? ==> r == Step(db, ServerError)
    ensures id.Some? && (forall e :: e in db.rows ==> e.id != id.value) ==> r == Step(db, NotFound)
    ensures id.Some? && (exists e :: e in db.rows && e.id == id.value) ==>
      && r.status == Done
      && r.db.lastId == db.lastId
      && (forall x :: x in r.db.rows <==> x in db.rows && x.id != id.value)
      && (r.db.balance.Some? <==> db.balance.Some?)
      && var e := Find(db.rows, id.value).value;
      && e in db.rows && e.id == id.value
      && (db.balance.Some? && e.kind == Debit ==> r.db.balance.value == db.balance.value + e.amount)
      && (db.balance.Some? && e.kind == Credit ==> r.db.balance.value == db.balance.value - e.amount)
      && (e.kind != Debit && e.kind != Credit ==> r.db.balance == db.balance)
  {
    match id
    case None => Step(db, ServerError)
    case Some(k) =>
      match Find(db.rows, k)
      case None => Step(db, NotFound)
      case Some(e) => Step(Db(Remove(db.rows, k), Adjust(db.balance, -Effect(e.kind, e.amount)), db.lastId), Done)
  }

  /** `GET /current_balance`: `fetchone()[0]` fails with a TypeError when row 1 is absent. */
  function CurrentBalance(db: Db): (r: Reply<real>)
    ensures db.balance.None? ==> r == Refused(ServerError)
    ensures WellFormed(db) ==> r == Ok(Net(db.rows))
  {
    match db.balance
    case Some(b) => Ok(b)
    case None => Refused(ServerError)
  }

  /** `GET /monthly_summary`: credits and debits whose timestamp begins with the
      current `YYYY-MM`. */
  function MonthlySummary(db: Db, now: Instant): (r: Summary)
    ensures (forall e :: e in db.rows && e.kind == Credit ==> !StartsWith(e.date, MonthPrefix(now))) ==> r.income == 0.0
    ensures (forall e :: e in db.rows && e.kind == Debit ==> !StartsWith(e.date, MonthPrefix(now))) ==> r.expenditure == 0.0
  {
    TotalNone(db.rows, Credit, MonthPrefix(now));
    TotalNone(db.rows, Debit, MonthPrefix(now));
    Summary(Total(db.rows, Credit, MonthPrefix(now)), Total(db.rows, Debit, MonthPrefix(now)))
  }

  /** `date(date) BETWEEN lo AND hi` on one row, compared as text. */
  predicate InText(e: Expense, lo: string, hi: string)
  {
    match SqlDate(e.date)
    case Some(p) => StrLe(lo, p) && StrLe(p, hi)
    case None => false
  }

  /** `SELECT * FROM expenses WHERE date(date) BETWEEN lo AND hi`. No order is
      promised by the query; this keeps rowid order. */
  function Between(rows: seq<Expense>, lo: string, hi: string): (r: seq<Expense>)
    ensures multiset(r) <= multiset(rows)
    ensures forall e :: e in r <==> e in rows && InText(e, lo, hi)
  {
    if rows == [] then []
    else
      assert rows == [rows[0]] + rows[1..];
      assert forall e :: e in rows ==> e == rows[0] || e in rows[1..];
      if InText(rows[0], lo, hi) then [rows[0]] + Between(rows[1..], lo, hi) else Between(rows[1..], lo, hi)
  }

  /** The calendar date of a stored timestamp. */
  function RowDate(e: Expense): (d: Date)
    requires IsTimestampText(e.date)
    ensures ValidDate(d) && FormatDate(d) == e.date[..10]
  {
    ParseDate(e.date[..10]).value
  }

  /** A row whose timestamp falls on a day from `lo` to `hi`, both included. */
  predicate InRange(e: Expense, lo: Date, hi: Date)
  {
    IsTimestampText(e.date) && DateLe(lo, RowDate(e)) && DateLe(RowDate(e), hi)
  }

  /** `POST /transactions`: both bounds must parse as `%Y-%m-%d` (400 otherwise;
      a missing one is a TypeError, 500), start must not come after end (400),
      and the rows are those dated within the range, inclusive. The bounds are
      compared in their zero-padded form; the handler compares the raw text
      (see Findings). */
  function Transactions(db: Db, start: Option<string>, end: Option<string>): (r: Reply<seq<Expense>>)
    ensures start.None? ==> r == Refused(ServerError)
    ensures start.Some? && ParseDate(start.value).None? ==> r == Refused(InvalidDateFormat)
    ensures start.Some? && ParseDate(start.value).Some? && end.None? ==> r == Refused(ServerError)
    ensures start.Some? && ParseDate(start.value).Some? && end.Some? && ParseDate(end.value).None?
            ==> r == Refused(InvalidDateFormat)
    ensures start.Some? && end.Some? && ParseDate(start.value).Some? && ParseDate(end.value).Some? ==>
      var lo, hi := ParseDate(start.value).value, ParseDate(end.value).value;
      && (!DateLe(lo, hi) ==> r == Refused(StartAfterEnd))
      && (DateLe(lo, hi) ==> r.Ok? && forall e :: e in r.value <==> e in db.rows && InRange(e, lo, hi))
    ensures r.Ok? ==> multiset(r.value) <= multiset(db.rows)
  {
    match start
    case None => Refused(ServerError)
    case Some(s) =>
      match ParseDate(s)
      case None => Refused(InvalidDateFormat)
      case Some(lo) =>
        match end
        case None => Refused(ServerError)
        case Some(t) =>
          match ParseDate(t)
          case None => Refused(InvalidDateFormat)
          case Some(hi) =>
            if !DateLe(lo, hi) then Refused(StartAfterEnd)
            else
              NormalisedBoundsMatchRange(db.rows, lo, hi);
              Ok(Between(db.rows, FormatDate(lo), FormatDate(hi)))
  }

  // ---------------------------------------------------------------------------
  // Lemmas about the sums and the row operations
  // ---------------------------------------------------------------------------

  lemma {:induction false} TotalNone(rows: seq<Expense>, kind: string, prefix: string)
    ensures (forall e :: e in rows && e.kind == kind ==> !StartsWith(e.date, prefix)) ==> Total(rows, kind, prefix) == 0.0
  {
    if rows != [] && forall e :: e in rows && e.kind == kind ==> !StartsWith(e.date, prefix) {
      assert rows[0] in rows;
      assert forall e :: e in rows[1..] ==> e in rows;
      TotalNone(rows[1..], kind, prefix);
    }
  }

  lemma {:induction false} TotalAppend(rows: seq<Expense>, e: Expense, kind: string, prefix: string)
    ensures Total(rows + [e], kind, prefix) == Total(rows, kind, prefix) + Counted(e, kind, prefix)
  {
    if rows == [] {
      assert rows + [e] == [e];
      assert [e][1..] == [];
    } else {
      assert (rows + [e])[0] == rows[0];
      assert (rows + [e])[1..] == rows[1..] + [e];
      TotalAppend(rows[1..], e, kind, prefix);
    }
  }

  /** The paired UPDATE of an insert keeps the balance equal to credits minus debits. */
  lemma NetAppend(rows: seq<Expense>, e: Expense)
    ensures Net(rows + [e]) == Net(rows) + Effect(e.kind, e.amount)
  {
    TotalAppend(rows, e, Credit, "");
    TotalAppend(rows, e, Debit, "");
    assert StartsWith(e.date, "");
  }

  lemma {:induction false} TotalWhenAllMatch(rows: seq<Expense>, kind: string, prefix: string)
    requires forall e :: e in rows ==> StartsWith(e.date, prefix)
    ensures Total(rows, kind, prefix) == Total(rows, kind, "")
  {
    if rows != [] {
      assert rows[0] in rows;
      assert StartsWith(rows[0].date, "");
      assert forall e :: e in rows[1..] ==> e in rows;
      TotalWhenAllMatch(rows[1..], kind, prefix);
    }
  }

  lemma RemoveAbsent(rows: seq<Expense>, id: int)
    requires forall e :: e in rows ==> e.id != id
    ensures Remove(rows, id) == rows
  {
  }

  lemma {:induction false} RemoveKeepsOrder(rows: seq<Expense>, id: int)
    requires IdsIncreasing(rows)
    ensures IdsIncreasing(Remove(rows, id))
  {
    if rows != [] {
      var tail := Remove(rows[1..], id);
      RemoveKeepsOrder(rows[1..], id);
      if rows[0].id != id {
        assert ([rows[0]] + tail)[1..] == tail;
      }
    }
  }

  lemma {:induction false} AppendKeepsOrder(rows: seq<Expense>, e: Expense)
    requires IdsIncreasing(rows)
    requires forall x :: x in rows ==> x.id < e.id
    ensures IdsIncreasing(rows + [e])
  {
    if rows == [] {
      assert [e][1..] == [];
    } else {
      assert (rows + [e])[1..] == rows[1..] + [e];
      assert rows[0] in rows;
      assert forall x :: x in rows[1..] ==> x in rows;
      AppendKeepsOrder(rows[1..], e);
    }
  }

  /** With distinct ids, deleting a stored row's id takes away exactly that row. */
  lemma {:induction false} RemoveStored(rows: seq<Expense>, e: Expense, kind: string, prefix: string)
    requires IdsIncreasing(rows) && e in rows
    ensures |Remove(rows, e.id)| == |rows| - 1
    ensures Total(Remove(rows, e.id), kind, prefix) == Total(rows, kind, prefix) - Counted(e, kind, prefix)
  {
    var h, t := rows[0], rows[1..];
    assert rows == [h] + t;
    assert e == h || e in t;
    if h.id == e.id {
      RemoveAbsent(t, e.id);
    } else {
      assert e in t;
      RemoveStored(t, e, kind, prefix);
      assert Remove(rows, e.id) == [h] + Remove(t, e.id);
      assert ([h] + Remove(t, e.id))[1..] == Remove(t, e.id);
    }
  }

  /** The reversing UPDATE of a delete keeps the balance equal to credits minus debits. */
  lemma NetRemove(rows: seq<Expense>, e: Expense)
    requires IdsIncreasing(rows) && e in rows
    ensures Net(Remove(rows, e.id)) == Net(rows) - Effect(e.kind, e.amount)
  {
    RemoveStored(rows, e, Credit, "");
    RemoveStored(rows, e, Debit, "");
    assert StartsWith(e.date, "");
  }

  /** Comparing the stored date text with the zero-padded bounds selects exactly the
      rows whose calendar date lies in the range. */
  lemma NormalisedBoundsMatchRange(rows: seq<Expense>, lo: Date, hi: Date)
    requires ValidDate(lo) && ValidDate(hi)
    ensures forall e :: e in rows ==> (InText(e, FormatDate(lo), FormatDate(hi)) <==> InRange(e, lo, hi))
  {
    forall e | e in rows
      ensures InText(e, FormatDate(lo), FormatDate(hi)) <==> InRange(e, lo, hi)
    {
      if IsTimestampText(e.date) {
        FormatDateOrder(lo, RowDate(e));
        FormatDateOrder(RowDate(e), hi);
      }
    }
  }

  // ---------------------------------------------------------------------------
  // The ledger invariant
  // ---------------------------------------------------------------------------

  /** `init_db` on the freshly created tables yields a consistent ledger. */
  lemma InitEstablishes()
    ensures WellFormed(InitDb(Fresh()))
    ensures CurrentBalance(InitDb(Fresh())) == Ok(0.0)
  {
  }

  /** `init_db` never overwrites an existing balance, so running it again changes nothing. */
  lemma InitIdempotent(db: Db)
    ensures InitDb(InitDb(db)) == InitDb(db)
    ensures WellFormed(db) ==> InitDb(db) == db
  {
  }

  lemma AddPreserves(db: Db, req: AddRequest, now: Instant)
    requires WellFormed(db)
    ensures WellFormed(AddExpense(db, req, now).db)
  {
    if req.amount.Some? && req.kind.Some? {
      var e := Expense(NextId(db), req.amount.value, req.kind.value, FormatTimestamp(now), DescriptionOrDefault(req.description));
      assert AddExpense(db, req, now).db == Insert(db, e);
      InsertPreserves(db, e);
    }
  }

  lemma InsertPreserves(db: Db, e: Expense)
    requires WellFormed(db) && e.id > db.lastId
    ensures WellFormed(Insert(db, e))
  {
    NetAppend(db.rows, e);
    AppendKeepsOrder(db.rows, e);
    assert forall x :: x in db.rows + [e] ==> x in db.rows || x == e;
  }

  lemma DeletePreserves(db: Db, id: Option<int>)
    requires WellFormed(db)
    ensures WellFormed(DeleteExpense(db, id).db)
  {
    if id.Some? && Find(db.rows, id.value).Some? {
      var e := Find(db.rows, id.value).value;
      NetRemove(db.rows, e);
      RemoveKeepsOrder(db.rows, id.value);
    }
  }

  /** Deleting a stored row removes exactly one row. */
  lemma DeleteRemovesOne(db: Db, id: int)
    requires WellFormed(db)
    requires exists e :: e in db.rows && e.id == id
    ensures |DeleteExpense(db, Some(id)).db.rows| == |db.rows| - 1
  {
    var e := Find(db.rows, id).value;
    RemoveStored(db.rows, e, Credit, "");
  }

  /** Adding an expense and deleting the new id gives back the rows and the balance;
      only the AUTOINCREMENT counter remembers the id. */
  lemma AddThenDelete(db: Db, req: AddRequest, now: Instant)
    requires req.amount.Some? && req.kind.Some?
    ensures var added := AddExpense(db, req, now).db;
            DeleteExpense(added, Some(added.lastId)) == Step(db.(lastId := added.lastId), Done)
  {
    var e := Expense(NextId(db), req.amount.value, req.kind.value, FormatTimestamp(now), DescriptionOrDefault(req.description));
    assert AddExpense(db, req, now).db == Insert(db, e);
    DeleteAppended(db, e);
  }

  /** Deleting the row just appended undoes the append and its balance update. */
  lemma DeleteAppended(db: Db, e: Expense)
    requires forall x :: x in db.rows ==> x.id != e.id
    requires e.id >= 0
    ensures DeleteExpense(Insert(db, e), Some(e.id)) == Step(db.(lastId := e.id), Done)
  {
    FindAppended(db.rows, e);
    RemoveAppended(db.rows, e);
    assert Adjust(Adjust(db.balance, Effect(e.kind, e.amount)), -Effect(e.kind, e.amount)) == db.balance;
  }

  lemma FindAppended(rows: seq<Expense>, e: Expense)
    requires forall x :: x in rows ==> x.id != e.id
    ensures Find(rows + [e], e.id) == Some(e)
  {
  }

  lemma {:induction false} RemoveAppended(rows: seq<Expense>, e: Expense)
    requires forall x :: x in rows ==> x.id != e.id
    ensures Remove(rows + [e], e.id) == rows
  {
    if rows == [] {
      assert [e][1..] == [];
      assert rows + [e] == [e];
    } else {
      var h, t, r := rows[0], rows[1..], rows + [e];
      assert h in rows && h.id != e.id;
      assert r[0] == h && r[1..] == t + [e];
      assert forall x :: x in t ==> x in rows;
      RemoveAppended(t, e);
      assert Remove(r, e.id) == [h] + t;
      assert rows == [h] + t;
    }
  }

  // ---------------------------------------------------------------------------
  // Queries against the invariant
  // ---------------------------------------------------------------------------

  /** When every stored row is from the current month, income minus expenditure is the balance. */
  lemma SummaryOfOneMonthIsBalance(db: Db, now: Instant)
    requires WellFormed(db)
    requires forall e :: e in db.rows ==> StartsWith(e.date, MonthPrefix(now))
    ensures MonthlySummary(db, now).income - MonthlySummary(db, now).expenditure == CurrentBalance(db).value
  {
    TotalWhenAllMatch(db.rows, Credit, MonthPrefix(now));
    TotalWhenAllMatch(db.rows, Debit, MonthPrefix(now));
  }

  /** An expense added now shows in this month's summary: a credit raises income,
      a debit raises expenditure, any other type neither. */
  lemma AddShowsInSummary(db: Db, req: AddRequest, now: Instant)
    requires req.amount.Some? && req.kind.Some?
    ensures var before, after := MonthlySummary(db, now), MonthlySummary(AddExpense(db, req, now).db, now);
      && (req.kind.value == Credit ==> after == Summary(before.income + req.amount.value, before.expenditure))
      && (req.kind.value == Debit ==> after == Summary(before.income, before.expenditure + req.amount.value))
      && (req.kind.value != Credit && req.kind.value != Debit ==> after == before)
  {
    var added := AddExpense(db, req, now).db;
    var e := added.rows[|db.rows|];
    assert added.rows == db.rows + [e];
    MonthPrefixMatches(now, now);
    TotalAppend(db.rows, e, Credit, MonthPrefix(now));
    TotalAppend(db.rows, e, Debit, MonthPrefix(now));
  }

  /** An expense added now is listed by every range that covers today. */
  lemma AddIsListed(db: Db, req: AddRequest, now: Instant, start: string, end: string)
    requires req.amount.Some? && req.kind.Some?
    requires ParseDate(start).Some? && ParseDate(end).Some?
    requires DateLe(ParseDate(start).value, now.date) && DateLe(now.date, ParseDate(end).value)
    ensures var added := AddExpense(db, req, now).db;
            added.rows[|db.rows|] in Transactions(added, Some(start), Some(end)).value
  {
    var added := AddExpense(db, req, now).db;
    var e := added.rows[|db.rows|];
    TimestampText(now);
    ParseFormatDate(now.date);
    assert RowDate(e) == now.date;
    assert InRange(e, ParseDate(start).value, ParseDate(end).value);
    assert e in added.rows;
  }

  /** After a delete by id, no range lists a row with that id. */
  lemma DeletedIsNotListed(db: Db, id: int, start: Option<string>, end: Option<string>)
    ensures var r := Transactions(DeleteExpense(db, Some(id)).db, start, end);
            r.Ok? ==> forall x :: x in r.value ==> x.id != id
  {
  }

  /** Adding an expense now and then deleting it: listed in between, gone afterwards. */
  lemma AddListDelete(db: Db, req: AddRequest, now: Instant, start: string, end: string)
    requires req.amount.Some? && req.kind.Some?
    requires ParseDate(start).Some? && ParseDate(end).Some?
    requires DateLe(ParseDate(start).value, now.date) && DateLe(now.date, ParseDate(end).value)
    ensures var added := AddExpense(db, req, now).db;
            var e := added.rows[|db.rows|];
            var removed := DeleteExpense(added, Some(e.id)).db;
            && e in Transactions(added, Some(start), Some(end)).value
            && forall x :: x in Transactions(removed, Some(start), Some(end)).value ==> x.id != e.id
  {
    var added := AddExpense(db, req, now).db;
    var e := added.rows[|db.rows|];
    AddIsListed(db, req, now, start, end);
    assert e in added.rows;
    var removed := DeleteExpense(added, Some(e.id)).db;
    assert Transactions(removed, Some(start), Some(end)).Ok?;
    DeletedIsNotListed(added, e.id, Some(start), Some(end));
  }
}

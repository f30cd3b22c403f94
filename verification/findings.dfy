/**
 The `transactions` handler exactly as written: it validates both bounds with
 strptime, which also accepts a month or day without its leading zero, and then
 hands the raw bound text to `date(date) BETWEEN ? AND ?`, a text comparison
 against the zero-padded stored dates.
 */
module Findings {
  import opened Text
  import opened Calendar
  import opened Ledger

  function TransactionsAsWritten(db: Db, start: Option<string>, end: Option<string>): (r: Reply<seq<Expense>>)
    ensures start.Some? && end.Some? && ParseDate(start.value).Some? && ParseDate(end.value).Some?
            && DateLe(ParseDate(start.value).value, ParseDate(end.value).value) ==>
            r.Ok? && forall e :: e in r.value <==> e in db.rows && InText(e, start.value, end.value)
    ensures (start.None? || end.None? || ParseDate(start.value).None? || ParseDate(end.value).None?) ==> r.Refused?
    ensures r.Ok? ==> multiset(r.value) <= multiset(db.rows)
  {
    match start
    case None => Refused(ServerError)
    case Some(s) =>
      match ParseDate(s)
      case None => Refused(InvalidDateFormat)
      case Some(lo) =>
        match end
        case None => Refused(ServerError)
        case Some(t) =>
          match ParseDate(t)
          case None => Refused(InvalidDateFormat)
          case Some(hi) =>
            if !DateLe(lo, hi) then Refused(StartAfterEnd) else Ok(Between(db.rows, s, t))
  }

  /** With zero-padded bounds, the form the error message asks for, the handler as
      written and the corrected one answer alike. */
  lemma AsWrittenAgreesOnPaddedBounds(db: Db, start: string, end: string)
    requires IsCanonicalDate(start) && IsCanonicalDate(end)
    ensures TransactionsAsWritten(db, Some(start), Some(end)) == Transactions(db, Some(start), Some(end))
  {
  }

  /** Both handlers refuse exactly the same requests, with the same status. */
  lemma AsWrittenRefusesAlike(db: Db, start: Option<string>, end: Option<string>)
    ensures TransactionsAsWritten(db, start, end).Refused? <==> Transactions(db, start, end).Refused?
    ensures TransactionsAsWritten(db, start, end).Refused? ==>
            TransactionsAsWritten(db, start, end) == Transactions(db, start, end)
  {
  }

  lemma FormatSample()
    ensures FormatDate(Date(2024, 1, 7)) == "2024-01-07"
  {
  }

  lemma ParseUnpadded()
    ensures ParseDate("2024-1-5") == Some(Date(2024, 1, 5))
    ensures ParseDate("2024-1-9") == Some(Date(2024, 1, 9))
  {
    assert "2024-1-5"[..4] == "2024" && "2024-1-9"[..4] == "2024";
    assert Val("2024") == 2024 by {
      assert "2024"[..3] == "202" && "202"[..2] == "20" && "20"[..1] == "2" && "2"[..0] == "";
    }
    assert "2024-1-5"[5..] == "1-5" && "1-5"[..1] == "1" && "1-5"[2..] == "5";
    assert "2024-1-9"[5..] == "1-9" && "1-9"[..1] == "1" && "1-9"[2..] == "9";
  }

  lemma UnpaddedSortsAfter()
    ensures !StrLe("2024-1-5", "2024-01-07")
  {
  }

  /** The one stored row of the counterexample: a credit written on 2024-01-07. */
  lemma SampleLedger(now: Instant)
    requires now == Clock(Date(2024, 1, 7), 12, 0, 0)
    ensures var db := AddExpense(InitDb(Fresh()), AddRequest(Some(100.0), Some(Credit), Some("salary")), now).db;
            |db.rows| == 1 && SqlDate(db.rows[0].date) == Some("2024-01-07")
            && IsTimestampText(db.rows[0].date) && RowDate(db.rows[0]) == Date(2024, 1, 7)
  {
    TimestampText(now);
    FormatSample();
    ParseFormatDate(now.date);
  }

  lemma NotInTextBelow(e: Expense, lo: string, hi: string, p: string)
    requires SqlDate(e.date) == Some(p) && !StrLe(lo, p)
    ensures !InText(e, lo, hi)
  {
  }

  lemma BetweenOfExcluded(e: Expense, lo: string, hi: string)
    requires !InText(e, lo, hi)
    ensures Between([e], lo, hi) == []
  {
    assert [e][1..] == [];
  }

  /** With the unpadded bounds, the handler as written lists nothing from the sample ledger. */
  lemma AsWrittenListsNothing(db: Db)
    requires |db.rows| == 1 && SqlDate(db.rows[0].date) == Some("2024-01-07")
    ensures TransactionsAsWritten(db, Some("2024-1-5"), Some("2024-1-9")) == Ok([])
  {
    var e := db.rows[0];
    assert db.rows == [e];
    UnpaddedSortsAfter();
    NotInTextBelow(e, "2024-1-5", "2024-1-9", "2024-01-07");
    BetweenOfExcluded(e, "2024-1-5", "2024-1-9");
    AsWrittenPassesUnpadded(db);
  }

  /** The unpadded bounds pass validation, so the handler as written runs its query. */
  lemma AsWrittenPassesUnpadded(db: Db)
    ensures TransactionsAsWritten(db, Some("2024-1-5"), Some("2024-1-9")) == Ok(Between(db.rows, "2024-1-5", "2024-1-9"))
  {
    ParseUnpadded();
  }

  /** With the unpadded bounds, the corrected handler lists the sample ledger's row. */
  lemma CorrectedListsRow(db: Db)
    requires |db.rows| == 1 && IsTimestampText(db.rows[0].date) && RowDate(db.rows[0]) == Date(2024, 1, 7)
    ensures Transactions(db, Some("2024-1-5"), Some("2024-1-9")) == Ok(db.rows)
  {
    ParseUnpadded();
    var e := db.rows[0];
    assert db.rows == [e];
    assert InRange(e, Date(2024, 1, 5), Date(2024, 1, 9));
    var listed := Transactions(db, Some("2024-1-5"), Some("2024-1-9")).value;
    assert e in listed;
    assert |listed| <= 1;
    assert listed == [e] by {
      assert |listed| == 1 && listed[0] in listed;
    }
  }

  /** A credit stamped 2024-01-07 lies in the range 2024-1-5 to 2024-1-9, which
      strptime accepts; the handler as written still lists nothing, because the text
      "2024-01-07" sorts before "2024-1-5". The corrected handler lists the row. */
  lemma UnpaddedBoundsLoseRows()
    ensures var now := Clock(Date(2024, 1, 7), 12, 0, 0);
            var db := AddExpense(InitDb(Fresh()), AddRequest(Some(100.0), Some(Credit), Some("salary")), now).db;
            && TransactionsAsWritten(db, Some("2024-1-5"), Some("2024-1-9")) == Ok([])
            && Transactions(db, Some("2024-1-5"), Some("2024-1-9")) == Ok(db.rows)
  {
    var now: Instant := Clock(Date(2024, 1, 7), 12, 0, 0);
    var db := AddExpense(InitDb(Fresh()), AddRequest(Some(100.0), Some(Credit), Some("salary")), now).db;
    SampleLedger(now);
    AsWrittenListsNothing(db);
    CorrectedListsRow(db);
  }

  /** With zero-padded bounds, the form the error message asks for, the handler as
      written does list an expense added now whenever the range covers today. */
  lemma AsWrittenListsAddedOnPaddedBounds(db: Db, req: AddRequest, now: Instant, start: string, end: string)
    requires req.amount.Some? && req.kind.Some?
    requires IsCanonicalDate(start) && IsCanonicalDate(end)
    requires DateLe(ParseDate(start).value, now.date) && DateLe(now.date, ParseDate(end).value)
    ensures var added := AddExpense(db, req, now).db;
            added.rows[|db.rows|] in TransactionsAsWritten(added, Some(start), Some(end)).value
  {
    var added := AddExpense(db, req, now).db;
    AddIsListed(db, req, now, start, end);
    AsWrittenAgreesOnPaddedBounds(added, start, end);
  }

  // The day field also accepts a space before a single digit, and a space sorts
  // before every digit, so a space-padded start admits rows dated before it.

  lemma ParseSpaced()
    ensures ParseDate("2024-01- 5") == Some(Date(2024, 1, 5))
    ensures ParseDate("2024-01-09") == Some(Date(2024, 1, 9))
  {
    ParseSpacedStart();
    ParsePaddedEnd();
  }

  lemma ParseSpacedStart()
    ensures ParseDate("2024-01- 5") == Some(Date(2024, 1, 5))
  {
    assert "2024-01- 5"[..4] == "2024";
    Year2024();
    assert "2024-01- 5"[5..] == "01- 5" && "01- 5"[..2] == "01" && "01- 5"[3..] == " 5";
  }

  lemma ParsePaddedEnd()
    ensures ParseDate("2024-01-09") == Some(Date(2024, 1, 9))
  {
    assert FormatDate(Date(2024, 1, 9)) == "2024-01-09";
    ParseFormatDate(Date(2024, 1, 9));
  }

  lemma Year2024()
    ensures Val("2024") == 2024
  {
    assert "2024"[..3] == "202" && "202"[..2] == "20" && "20"[..1] == "2" && "2"[..0] == "";
  }

  lemma SpacedSortsBefore()
    ensures StrLe("2024-01- 5", "2024-01-02") && StrLe("2024-01-02", "2024-01-09")
  {
  }

  lemma FormatEarlier()
    ensures FormatDate(Date(2024, 1, 2)) == "2024-01-02"
  {
  }

  lemma InTextWithin(e: Expense, lo: string, hi: string, p: string)
    requires SqlDate(e.date) == Some(p) && StrLe(lo, p) && StrLe(p, hi)
    ensures InText(e, lo, hi)
  {
  }

  lemma BetweenOfIncluded(e: Expense, lo: string, hi: string)
    requires InText(e, lo, hi)
    ensures Between([e], lo, hi) == [e]
  {
    assert [e][1..] == [];
  }

  /** The one stored row of the second counterexample: a debit written on 2024-01-02. */
  lemma EarlierLedger(now: Instant)
    requires now == Clock(Date(2024, 1, 2), 12, 0, 0)
    ensures var db := AddExpense(InitDb(Fresh()), AddRequest(Some(30.0), Some(Debit), Some("lunch")), now).db;
            |db.rows| == 1 && SqlDate(db.rows[0].date) == Some("2024-01-02")
            && IsTimestampText(db.rows[0].date) && RowDate(db.rows[0]) == Date(2024, 1, 2)
  {
    TimestampText(now);
    FormatEarlier();
    ParseFormatDate(now.date);
  }

  /** With the space-padded start, the handler as written lists the 2024-01-02 row. */
  lemma AsWrittenListsEarlierRow(db: Db)
    requires |db.rows| == 1 && SqlDate(db.rows[0].date) == Some("2024-01-02")
    ensures TransactionsAsWritten(db, Some("2024-01- 5"), Some("2024-01-09")) == Ok(db.rows)
  {
    var e := db.rows[0];
    assert db.rows == [e];
    SpacedSortsBefore();
    InTextWithin(e, "2024-01- 5", "2024-01-09", "2024-01-02");
    BetweenOfIncluded(e, "2024-01- 5", "2024-01-09");
    AsWrittenPassesSpaced(db);
  }

  /** The space-padded start passes validation, so the handler as written runs its query. */
  lemma AsWrittenPassesSpaced(db: Db)
    ensures TransactionsAsWritten(db, Some("2024-01- 5"), Some("2024-01-09")) == Ok(Between(db.rows, "2024-01- 5", "2024-01-09"))
  {
    ParseSpaced();
  }

  /** With the space-padded start, the corrected handler lists nothing from the second ledger. */
  lemma CorrectedListsNothing(db: Db)
    requires |db.rows| == 1 && IsTimestampText(db.rows[0].date) && RowDate(db.rows[0]) == Date(2024, 1, 2)
    ensures Transactions(db, Some("2024-01- 5"), Some("2024-01-09")) == Ok([])
  {
    var e, lo, hi := db.rows[0], Date(2024, 1, 5), Date(2024, 1, 9);
    assert db.rows == [e];
    ParseSpaced();
    assert Transactions(db, Some("2024-01- 5"), Some("2024-01-09")) == Ok(Between(db.rows, FormatDate(lo), FormatDate(hi)));
    NormalisedBoundsMatchRange(db.rows, lo, hi);
    assert !InRange(e, lo, hi);
    BetweenOfExcluded(e, FormatDate(lo), FormatDate(hi));
  }

  /** A debit stamped 2024-01-02 lies before the range 2024-01- 5 to 2024-01-09, which
      strptime accepts; the handler as written still lists it, because the text
      "2024-01- 5" sorts before "2024-01-02". The corrected handler does not. */
  lemma SpacedBoundsAddRows()
    ensures var now := Clock(Date(2024, 1, 2), 12, 0, 0);
            var db := AddExpense(InitDb(Fresh()), AddRequest(Some(30.0), Some(Debit), Some("lunch")), now).db;
            && TransactionsAsWritten(db, Some("2024-01- 5"), Some("2024-01-09")) == Ok(db.rows)
            && Transactions(db, Some("2024-01- 5"), Some("2024-01-09")) == Ok([])
  {
    var now: Instant := Clock(Date(2024, 1, 2), 12, 0, 0);
    var db := AddExpense(InitDb(Fresh()), AddRequest(Some(30.0), Some(Debit), Some("lunch")), now).db;
    EarlierLedger(now);
    AsWrittenListsEarlierRow(db);
    CorrectedListsNothing(db);
  }
}

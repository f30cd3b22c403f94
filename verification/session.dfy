/**
 The backend over its lifetime: `init_db` at start-up, then any sequence of
 add, delete and repeated init requests. Queries change nothing and are
 read off the database a run reaches.
 */
module Session {
  import opened Text
  import opened Calendar
  import opened Ledger

  /** A request that may change the database. */
  datatype Call = Init | Add(req: AddRequest, now: Instant) | Delete(id: Option<int>)

  function Apply(db: Db, c: Call): Db
  {
    match c
    case Init => InitDb(db)
    case Add(req, now) => AddExpense(db, req, now).db
    case Delete(id) => DeleteExpense(db, id).db
  }

  function Run(db: Db, calls: seq<Call>): Db
    decreases |calls|
  {
    if calls == [] then db else Run(Apply(db, calls[0]), calls[1..])
  }

  /** An add request that reaches the INSERT. */
  predicate Inserts(c: Call)
  {
    c.Add? && c.req.amount.Some? && c.req.kind.Some?
  }

  /** The ids the inserts of a run hand out. */
  function Issued(db: Db, calls: seq<Call>): set<int>
    decreases |calls|
  {
    if calls == [] then {}
    else
      var next := Apply(db, calls[0]);
      (if Inserts(calls[0]) then {next.lastId} else {}) + Issued(next, calls[1..])
  }

  lemma ApplyPreserves(db: Db, c: Call)
    requires WellFormed(db)
    ensures WellFormed(Apply(db, c))
  {
    match c
    case Init => InitIdempotent(db);
    case Add(req, now) => AddPreserves(db, req, now);
    case Delete(id) => DeletePreserves(db, id);
  }

  lemma {:induction false} RunPreserves(db: Db, calls: seq<Call>)
    requires WellFormed(db)
    ensures WellFormed(Run(db, calls))
    decreases |calls|
  {
    if calls != [] {
      ApplyPreserves(db, calls[0]);
      RunPreserves(Apply(db, calls[0]), calls[1..]);
    }
  }

  /** From start-up on, whatever requests arrive, the balance row holds the credits
      minus the debits of the stored rows. */
  lemma BalanceIsCreditsMinusDebits(calls: seq<Call>)
    ensures WellFormed(Run(InitDb(Fresh()), calls))
    ensures CurrentBalance(Run(InitDb(Fresh()), calls)) == Ok(Net(Run(InitDb(Fresh()), calls).rows))
  {
    InitEstablishes();
    RunPreserves(InitDb(Fresh()), calls);
  }

  /** Every id a run hands out lies above the counter it started from and at or
      below the counter it ends with. */
  lemma {:induction false} IssuedWithinCounter(db: Db, calls: seq<Call>)
    ensures Run(db, calls).lastId >= db.lastId
    ensures forall i :: i in Issued(db, calls) ==> db.lastId < i <= Run(db, calls).lastId
    decreases |calls|
  {
    if calls != [] {
      IssuedWithinCounter(Apply(db, calls[0]), calls[1..]);
    }
  }

  /** AUTOINCREMENT never reuses an id: an insert after any run gets an id that no
      insert of that run received, even if those rows were deleted since. */
  lemma IdsNeverReused(db: Db, calls: seq<Call>, req: AddRequest, now: Instant)
    requires req.amount.Some? && req.kind.Some?
    ensures AddExpense(Run(db, calls), req, now).db.lastId !in Issued(db, calls)
  {
    IssuedWithinCounter(db, calls);
  }
}

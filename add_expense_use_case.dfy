/**
 * Recording one expense: in the free flavour, count today's rows and refuse
 * once the daily limit is reached; then insert. Any store failure becomes an
 * `Error` carrying the failure's message.
 *
 * The clock is read twice (for the start and for the end of today), so both
 * readings are parameters; so is the zone offset. Store failures are injected
 * per call: `countFault` for the count query and `insertFault` for the insert.
 */
module AddExpense {
  import opened Wrappers
  import opened Expenses
  import opened ExpenseStore
  import opened Repository
  import opened DateUtils
  import opened BuildConfigHelper

  /** The use case's `Result` sealed class (named apart from `Wrappers.Result`). */
  datatype Outcome = Success(expenseId: Long) | DailyLimitReached | Error(message: string)

  /** The message used when the exception carries none. */
  const UnknownError: string := "Unknown error occurred"

  /** `e.message ?: "Unknown error occurred"`. */
  function MessageOf(f: Fault): (r: string)
    ensures f.message.Some? ==> r == f.message.value
    ensures f.message.None? ==> r == UnknownError
  {
    f.message.GetOr(UnknownError)
  }

  /** Today's window: start of the day of the first reading, end of the day of the second. */
  function TodayWindow(firstClock: int, secondClock: int, offset: int): (w: (int, int)) {
    (StartOfDay(firstClock, offset), EndOfDay(secondClock, offset))
  }

  /** The insert and the outcome it leads to, with the table it leaves. */
  function InsertStep(t: Table, x: Expense, insertFault: Option<Fault>): (r: (Outcome, Table))
    requires WellFormed(t)
  {
    match insertFault
    case Some(f) => (Error(MessageOf(f)), t)
    case None =>
      match InsertRow(t, x)
      case Ok((t', id)) => (Success(id), t')
      case Err(f) => (Error(MessageOf(f)), t)
  }

  /** What `execute` returns and the table it leaves, from the table it starts on. */
  function Decide(flavor: Flavor, t: Table, x: Expense, firstClock: int, secondClock: int, offset: int,
                  countFault: Option<Fault>, insertFault: Option<Fault>): (r: (Outcome, Table))
    requires WellFormed(t)
    ensures WellFormed(r.1)
    ensures !r.0.Success? ==> r.1 == t
    ensures r.0.Success? ==>
              && ExpenseById(r.1.rows, r.0.expenseId) == Some(x.(id := r.0.expenseId))
              && r.1.rows.Keys == t.rows.Keys + {r.0.expenseId}
    ensures r.0.DailyLimitReached? ==> !flavor.isPaidVersion
  {
    if flavor.isPaidVersion then
      InsertStep(t, x, insertFault)
    else
      var (today, tomorrow) := TodayWindow(firstClock, secondClock, offset);
      match countFault
      case Some(f) => (Error(MessageOf(f)), t)
      case None =>
        if !CanAddMoreEntries(flavor, ExpenseCountByDateRange(t.rows, today, tomorrow)) then
          (DailyLimitReached, t)
        else
          InsertStep(t, x, insertFault)
  }

  class AddExpenseUseCase {
    const repository: ExpenseRepository
    const flavor: Flavor

    constructor (repository: ExpenseRepository, flavor: Flavor)
      ensures this.repository == repository && this.flavor == flavor
    {
      this.repository := repository;
      this.flavor := flavor;
    }

    /** execute: check today's count (free flavour only), then insert. */
    method Execute(x: Expense, firstClock: int, secondClock: int, offset: int,
                   countFault: Option<Fault>, insertFault: Option<Fault>) returns (r: Outcome)
      requires repository.Valid()
      modifies repository.dao
      ensures repository.Valid()
      ensures (r, repository.dao.State())
              == Decide(flavor, old(repository.dao.State()), x, firstClock, secondClock, offset, countFault, insertFault)
    {
      if !flavor.isPaidVersion {
        var today := StartOfDay(firstClock, offset);
        var tomorrow := EndOfDay(secondClock, offset);
        var counted := repository.GetExpenseCountByDateRange(today, tomorrow, countFault);
        match counted
        case Err(f) =>
          return Error(MessageOf(f));
        case Ok(todayCount) =>
          if !CanAddMoreEntries(flavor, todayCount) {
            return DailyLimitReached;
          }
      }
      var inserted := repository.InsertExpense(x, insertFault);
      match inserted
      case Ok(id) =>
        r := Success(id);
      case Err(f) =>
        r := Error(MessageOf(f));
    }
  }

  // ---------------------------------------------------------------------------
  // Properties of the decision

  /** Paid flavour: no count is taken, so neither the clock nor a count failure matters; the row is inserted. */
  lemma PaidTierInserts(flavor: Flavor, t: Table, x: Expense, c1: int, c2: int, offset: int,
                        countFault: Option<Fault>, c1': int, c2': int, offset': int, countFault': Option<Fault>)
    requires WellFormed(t) && flavor.isPaidVersion
    ensures Decide(flavor, t, x, c1, c2, offset, countFault, None)
            == Decide(flavor, t, x, c1', c2', offset', countFault', None)
    ensures match InsertRow(t, x)
            case Ok((t', id)) => Decide(flavor, t, x, c1, c2, offset, countFault, None) == (Success(id), t')
            case Err(f) => Decide(flavor, t, x, c1, c2, offset, countFault, None) == (Error(MessageOf(f)), t)
  {
  }

  /** Free flavour, today's count at or above the limit: refused, and the table is untouched. */
  lemma FreeTierAtLimit(flavor: Flavor, t: Table, x: Expense, c1: int, c2: int, offset: int, insertFault: Option<Fault>)
    requires WellFormed(t) && !flavor.isPaidVersion
    requires ExpenseCountByDateRange(t.rows, StartOfDay(c1, offset), EndOfDay(c2, offset)) >= flavor.maxDailyEntries
    ensures Decide(flavor, t, x, c1, c2, offset, None, insertFault) == (DailyLimitReached, t)
  {
  }

  /** Free flavour, today's count below the limit and no failure: the row is stored under the returned id. */
  lemma FreeTierBelowLimit(flavor: Flavor, t: Table, x: Expense, c1: int, c2: int, offset: int)
    requires WellFormed(t) && !flavor.isPaidVersion
    requires ExpenseCountByDateRange(t.rows, StartOfDay(c1, offset), EndOfDay(c2, offset)) < flavor.maxDailyEntries
    requires InsertRow(t, x).Ok?
    ensures var (outcome, t') := Decide(flavor, t, x, c1, c2, offset, None, None);
            && outcome == Success(InsertRow(t, x).value.1)
            && t' == InsertRow(t, x).value.0
            && ExpenseById(t'.rows, outcome.expenseId) == Some(x.(id := outcome.expenseId))
  {
  }

  /** Whether the free flavour refuses depends on the rows stored in the clock's day, never on the expense's own date. */
  lemma QuotaIgnoresExpenseDate(flavor: Flavor, t: Table, x: Expense, date: Long, c1: int, c2: int, offset: int,
                                countFault: Option<Fault>, insertFault: Option<Fault>)
    requires WellFormed(t)
    ensures Decide(flavor, t, x, c1, c2, offset, countFault, insertFault).0.DailyLimitReached?
            <==> Decide(flavor, t, x.(date := date), c1, c2, offset, countFault, insertFault).0.DailyLimitReached?
  {
  }

  /** A failure of the count or of the insert becomes Error with its message, or the fallback text; the table is untouched. */
  lemma FailuresBecomeErrors(flavor: Flavor, t: Table, x: Expense, c1: int, c2: int, offset: int, f: Fault)
    requires WellFormed(t)
    ensures !flavor.isPaidVersion ==>
              Decide(flavor, t, x, c1, c2, offset, Some(f), None) == (Error(MessageOf(f)), t)
    ensures (flavor.isPaidVersion
             || ExpenseCountByDateRange(t.rows, StartOfDay(c1, offset), EndOfDay(c2, offset)) < flavor.maxDailyEntries) ==>
              Decide(flavor, t, x, c1, c2, offset, None, Some(f)) == (Error(MessageOf(f)), t)
    ensures f.message.None? ==> MessageOf(f) == "Unknown error occurred"
    ensures x.id == 0 && t.sequence == MaxLong ==>
              Decide(Paid, t, x, c1, c2, offset, None, None) == (Error("database or disk is full"), t)
  {
  }

  /** When both clock readings fall on the same local day, the counted window is exactly that day. */
  lemma TodayWindowIsToday(c1: int, c2: int, offset: int, u: int)
    requires DayNumber(c1, offset) == DayNumber(c2, offset)
    ensures var (today, tomorrow) := TodayWindow(c1, c2, offset);
            today <= u <= tomorrow <==> DayNumber(u, offset) == DayNumber(c1, offset)
  {
    assert EndOfDay(c2, offset) == EndOfDay(c1, offset);
    SameDayIff(c1, u, offset);
  }
}

/**
 * The repository in front of the DAO. Every call forwards to the DAO; the one
 * rule of its own is that a range without rows totals 0 instead of null.
 * The live `Flow` queries are modelled as snapshots of the table.
 */
module Repository {
  import opened Wrappers
  import opened Expenses
  import opened ExpenseStore

  /** `getTotalAmountByDateRange(...) ?: 0.0`: the range's total, 0 for an empty range. */
  function TotalOrZero(rows: map<int, Expense>, start: int, end: int): (r: int)
    requires WellKeyed(rows)
    ensures r == TotalOf(ExpensesByDateRange(rows, start, end))
    ensures (forall x :: !(Stored(rows, x) && start <= x.date <= end)) ==> r == 0
  {
    var q := ExpensesByDateRange(rows, start, end);
    assert q != [] ==> q[0] in q;
    TotalAmountByDateRange(rows, start, end).GetOr(0)
  }

  class ExpenseRepository {
    const dao: ExpenseDao

    ghost predicate Valid()
      reads dao
    {
      dao.Valid()
    }

    constructor (dao: ExpenseDao)
      ensures this.dao == dao
    {
      this.dao := dao;
    }

    /** getAllExpenses: the DAO's query unchanged. */
    function GetAllExpenses(): (r: seq<Expense>)
      reads dao
      requires Valid()
      ensures r == AllExpenses(dao.rows)
      ensures SortedByDateDesc(r) && forall x :: x in r <==> Stored(dao.rows, x)
    {
      AllExpenses(dao.rows)
    }

    /** getExpensesByDateRange: the DAO's query unchanged. */
    function GetExpensesByDateRange(start: int, end: int): (r: seq<Expense>)
      reads dao
      requires Valid()
      ensures r == ExpensesByDateRange(dao.rows, start, end)
      ensures SortedByDateDesc(r) && forall x :: x in r <==> Stored(dao.rows, x) && start <= x.date <= end
    {
      ExpensesByDateRange(dao.rows, start, end)
    }

    /** getExpensesByCategory: the DAO's query unchanged. */
    function GetExpensesByCategory(category: string): (r: seq<Expense>)
      reads dao
      requires Valid()
      ensures r == ExpensesByCategory(dao.rows, category)
      ensures SortedByDateDesc(r) && forall x :: x in r <==> Stored(dao.rows, x) && x.category == category
    {
      ExpensesByCategory(dao.rows, category)
    }

    /** getExpenseById: null exactly when no row has that id. */
    method GetExpenseById(id: int, fault: Option<Fault>) returns (r: Result<Option<Expense>, Fault>)
      requires Valid()
      ensures r == Attempt(fault, ExpenseById(dao.rows, id))
      ensures r.Ok? ==> (r.value.None? <==> id !in dao.rows)
    {
      r := dao.GetExpenseById(id, fault);
    }

    /** getTotalAmountByDateRange: the DAO's sum, with null turned into 0. */
    method GetTotalAmountByDateRange(start: int, end: int, fault: Option<Fault>) returns (r: Result<int, Fault>)
      requires Valid()
      ensures r.Err? <==> fault.Some?
      ensures r.Err? ==> r.error == fault.value
      ensures r.Ok? ==> r.value == TotalOf(ExpensesByDateRange(dao.rows, start, end))
      ensures r.Ok? && TotalAmountByDateRange(dao.rows, start, end).Some? ==>
                r.value == TotalAmountByDateRange(dao.rows, start, end).value
      ensures r.Ok? && ExpensesByDateRange(dao.rows, start, end) == [] ==> r.value == 0
    {
      var sum := dao.GetTotalAmountByDateRange(start, end, fault);
      match sum
      case Ok(total) =>
        r := Ok(total.GetOr(0));
        assert r.value == TotalOrZero(dao.rows, start, end);
      case Err(f) =>
        r := Err(f);
    }

    /** getExpenseCountByDateRange: the DAO's count unchanged. */
    method GetExpenseCountByDateRange(start: int, end: int, fault: Option<Fault>) returns (r: Result<int, Fault>)
      requires Valid()
      ensures r == Attempt(fault, ExpenseCountByDateRange(dao.rows, start, end))
      ensures r.Ok? ==> r.value == |ExpensesByDateRange(dao.rows, start, end)|
    {
      r := dao.GetExpenseCountByDateRange(start, end, fault);
    }

    /** insertExpense: the DAO's insert, returning the id it assigned unchanged. */
    method InsertExpense(x: Expense, fault: Option<Fault>) returns (r: Result<Long, Fault>)
      requires Valid()
      modifies dao
      ensures Valid()
      ensures fault.Some? ==> r == Err(fault.value) && dao.State() == old(dao.State())
      ensures fault.None? ==>
        match InsertRow(old(dao.State()), x)
        case Ok((t, id)) => r == Ok(id) && dao.State() == t
        case Err(f) => r == Err(f) && dao.State() == old(dao.State())
    {
      r := dao.InsertExpense(x, fault);
    }

    /** updateExpense: the DAO's update. */
    method UpdateExpense(x: Expense, fault: Option<Fault>) returns (r: Result<(), Fault>)
      requires Valid()
      modifies dao
      ensures Valid() && dao.sequence == old(dao.sequence)
      ensures r == Attempt(fault, ())
      ensures dao.rows == if fault.Some? then old(dao.rows) else UpdateRow(old(dao.rows), x)
    {
      r := dao.UpdateExpense(x, fault);
    }

    /** deleteExpense: the DAO's delete of the row with that primary key. */
    method DeleteExpense(x: Expense, fault: Option<Fault>) returns (r: Result<(), Fault>)
      requires Valid()
      modifies dao
      ensures Valid() && dao.sequence == old(dao.sequence)
      ensures r == Attempt(fault, ())
      ensures dao.rows == if fault.Some? then old(dao.rows) else DeleteMatching(old(dao.rows), x)
    {
      r := dao.DeleteExpense(x, fault);
    }

    /** deleteExpenseById: the DAO's delete by id. */
    method DeleteExpenseById(id: int, fault: Option<Fault>) returns (r: Result<(), Fault>)
      requires Valid()
      modifies dao
      ensures Valid() && dao.sequence == old(dao.sequence)
      ensures r == Attempt(fault, ())
      ensures dao.rows == if fault.Some? then old(dao.rows) else DeleteRow(old(dao.rows), id)
    {
      r := dao.DeleteExpenseById(id, fault);
    }

    /** deleteAllExpenses: the DAO's delete of every row. */
    method DeleteAllExpenses(fault: Option<Fault>) returns (r: Result<(), Fault>)
      requires Valid()
      modifies dao
      ensures Valid() && dao.sequence == old(dao.sequence)
      ensures r == Attempt(fault, ())
      ensures dao.rows == if fault.Some? then old(dao.rows) else map[]
    {
      r := dao.DeleteAllExpenses(fault);
    }
  }
}

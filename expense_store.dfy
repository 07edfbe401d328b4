/**
 * The `expenses` table behind the Room DAO, one table keyed by `id`.
 *
 * The table is a map from id to row plus the AUTOINCREMENT counter that
 * SQLite keeps for it (`autoGenerate = true` makes the key AUTOINCREMENT):
 * a new row gets one more than the largest id the table has ever held, so
 * ids are never reused, even after a delete-all. The SELECT queries are pure
 * functions of the rows; the mutations are functions from table to table, and
 * the class `ExpenseDao` applies them in place.
 */
module ExpenseStore {
  import opened Wrappers
  import opened Expenses

  /** A storage error raised by the database; a Kotlin exception's message may be null. */
  datatype Fault = Fault(message: Option<string>)

  /** SQLITE_FULL, raised when AUTOINCREMENT has no larger id left to hand out. */
  const DatabaseFull: Fault := Fault(Some("database or disk is full"))

  /** The WHERE clauses of the table's SELECT queries. */
  datatype Where = Everything | DateBetween(start: int, end: int) | CategoryIs(category: string)

  predicate Matches(x: Expense, w: Where) {
    match w
    case Everything => true
    case DateBetween(s, e) => s <= x.date <= e
    case CategoryIs(c) => x.category == c
  }

  /** Row `x` is stored under its own id. */
  predicate Stored(rows: map<int, Expense>, x: Expense) {
    x.id in rows && rows[x.id] == x
  }

  /** Every row is stored under its own id. */
  predicate WellKeyed(rows: map<int, Expense>) {
    forall k :: k in rows ==> rows[k].id == k
  }

  /** Rows keyed by id and the table's AUTOINCREMENT counter (its sqlite_sequence entry). */
  datatype Table = Table(rows: map<int, Expense>, sequence: int)

  predicate WellFormed(t: Table) {
    0 <= t.sequence <= MaxLong
    && WellKeyed(t.rows)
    && forall k :: k in t.rows ==> k <= t.sequence
  }

  const EmptyTable: Table := Table(map[], 0)

  // ---------------------------------------------------------------------------
  // Reading the table

  /** A non-empty set of ids has an element (set extensionality). */
  lemma KeySetHasElement(s: set<int>)
    ensures s != {} ==> exists y :: y in s
  {
    if forall y :: y !in s {
      var e: set<int> := {};
      assert forall y :: y in s <==> y in e;
    }
  }

  lemma MinExists(s: set<int>)
    requires s != {}
    ensures exists k :: k in s && forall j :: j in s ==> k <= j
    decreases |s|
  {
    KeySetHasElement(s);
    var x :| x in s;
    if s != {x} {
      var rest := s - {x};
      MinExists(rest);
      var m :| m in rest && forall j :: j in rest ==> m <= j;
      var k := if x < m then x else m;
      forall j | j in s ensures k <= j {
        if j != x { assert j in rest; }
      }
    } else {
      forall j | j in s ensures x <= j { assert j == x; }
    }
  }

  function MinKey(s: set<int>): (k: int)
    requires s != {}
    ensures k in s && forall j :: j in s ==> k <= j
  {
    MinExists(s);
    var k :| k in s && forall j :: j in s ==> k <= j; k
  }

  /** A full table scan in primary-key order; each stored row appears exactly once. */
  function Scan(rows: map<int, Expense>): (r: seq<Expense>)
    requires WellKeyed(rows)
    ensures forall x :: multiset(r)[x] == if Stored(rows, x) then 1 else 0
    decreases |rows|
  {
    if |rows| == 0 then []
    else
      var k := MinKey(rows.Keys);
      var rest := rows - {k};
      assert rest.Keys == rows.Keys - {k};
      [rows[k]] + Scan(rest)
  }

  /** The rows of `xs` that satisfy the WHERE clause, in their order. */
  function Filter(xs: seq<Expense>, w: Where): seq<Expense> {
    if xs == [] then []
    else if Matches(xs[0], w) then [xs[0]] + Filter(xs[1..], w)
    else Filter(xs[1..], w)
  }

  /** Filtering keeps every copy of a matching row and drops every other row. */
  lemma {:induction false} FilterCount(xs: seq<Expense>, w: Where)
    ensures forall x :: multiset(Filter(xs, w))[x] == if Matches(x, w) then multiset(xs)[x] else 0
  {
    if xs != [] {
      assert xs == [xs[0]] + xs[1..];
      FilterCount(xs[1..], w);
    }
  }

  /** Prepending a row no earlier than any in a latest-first list keeps it latest-first. */
  lemma SortedCons(h: Expense, xs: seq<Expense>)
    requires SortedByDateDesc(xs)
    requires xs != [] ==> xs[0].date <= h.date
    ensures SortedByDateDesc([h] + xs)
  {
    var r := [h] + xs;
    forall i, j | 0 <= i < j < |r| ensures r[i].date >= r[j].date {
      if i == 0 { assert r[j] == xs[j - 1]; } else { assert r[i] == xs[i - 1] && r[j] == xs[j - 1]; }
    }
  }

  /** What is inserted behind the first row of a latest-first list is no later than that row. */
  lemma BehindFirst(x: Expense, xs: seq<Expense>, tail: seq<Expense>)
    requires SortedByDateDesc(xs) && xs != [] && x.date < xs[0].date
    requires multiset(tail) == multiset(xs[1..]) + multiset{x}
    ensures forall y :: y in tail ==> y.date <= xs[0].date
  {
    forall y | y in tail ensures y.date <= xs[0].date {
      assert y in multiset(tail);
      if y != x {
        var j :| 0 <= j < |xs[1..]| && xs[1..][j] == y;
        assert xs[j + 1] == y;
      }
    }
  }

  /** Places `x` before the first row that is not later than it. */
  function InsertByDate(x: Expense, xs: seq<Expense>): (r: seq<Expense>)
    requires SortedByDateDesc(xs)
    ensures SortedByDateDesc(r)
    ensures multiset(r) == multiset(xs) + multiset{x}
  {
    if xs == [] then [x]
    else if x.date >= xs[0].date then
      SortedCons(x, xs);
      [x] + xs
    else
      var tail := InsertByDate(x, xs[1..]);
      assert xs == [xs[0]] + xs[1..];
      BehindFirst(x, xs, tail);
      SortedCons(xs[0], tail);
      [xs[0]] + tail
  }

  /** ORDER BY date DESC: a permutation of the rows with no later row after an earlier one. */
  function SortByDateDesc(xs: seq<Expense>): (r: seq<Expense>)
    ensures SortedByDateDesc(r)
    ensures multiset(r) == multiset(xs)
  {
    if xs == [] then []
    else
      assert xs == [xs[0]] + xs[1..];
      InsertByDate(xs[0], SortByDateDesc(xs[1..]))
  }

  /**
   * SELECT * FROM expenses WHERE <w> ORDER BY date DESC. SQL leaves the order
   * of rows with equal dates open; this one keeps them in primary-key order.
   */
  function Select(rows: map<int, Expense>, w: Where): (r: seq<Expense>)
    requires WellKeyed(rows)
    ensures SortedByDateDesc(r)
    ensures forall x :: multiset(r)[x] == if Stored(rows, x) && Matches(x, w) then 1 else 0
  {
    FilterCount(Scan(rows), w);
    SortByDateDesc(Filter(Scan(rows), w))
  }

  /** getAllExpenses: every row, latest date first. */
  function AllExpenses(rows: map<int, Expense>): (r: seq<Expense>)
    requires WellKeyed(rows)
    ensures SortedByDateDesc(r)
    ensures forall x :: x in r <==> Stored(rows, x)
    ensures forall x :: multiset(r)[x] <= 1
  {
    Select(rows, Everything)
  }

  /** getExpenseById: the row with that id, or null. */
  function ExpenseById(rows: map<int, Expense>, id: int): (r: Option<Expense>)
    ensures r.None? <==> id !in rows
    ensures r.Some? ==> r.value == rows[id]
  {
    if id in rows then Some(rows[id]) else None
  }

  /** getExpensesByDateRange: the rows with start <= date <= end, both bounds included, latest first. */
  function ExpensesByDateRange(rows: map<int, Expense>, start: int, end: int): (r: seq<Expense>)
    requires WellKeyed(rows)
    ensures SortedByDateDesc(r)
    ensures forall x :: x in r <==> Stored(rows, x) && start <= x.date <= end
    ensures forall x :: multiset(r)[x] <= 1
  {
    Select(rows, DateBetween(start, end))
  }

  /** getExpensesByCategory: the rows whose category is exactly `category`, latest first. */
  function ExpensesByCategory(rows: map<int, Expense>, category: string): (r: seq<Expense>)
    requires WellKeyed(rows)
    ensures SortedByDateDesc(r)
    ensures forall x :: x in r <==> Stored(rows, x) && x.category == category
    ensures forall x :: multiset(r)[x] <= 1
  {
    Select(rows, CategoryIs(category))
  }

  /** getTotalAmountByDateRange: SQL SUM over the range, which is NULL when no row is in range. */
  function TotalAmountByDateRange(rows: map<int, Expense>, start: int, end: int): (r: Option<int>)
    requires WellKeyed(rows)
    ensures r.None? <==> ExpensesByDateRange(rows, start, end) == []
    ensures r.Some? ==> r.value == TotalOf(ExpensesByDateRange(rows, start, end))
  {
    var inRange := Filter(Scan(rows), DateBetween(start, end));
    FilterCount(Scan(rows), DateBetween(start, end));
    TotalOfPermutation(inRange, ExpensesByDateRange(rows, start, end));
    if inRange == [] then None else Some(TotalOf(inRange))
  }

  /** getExpenseCountByDateRange: COUNT(*) over the range. */
  function ExpenseCountByDateRange(rows: map<int, Expense>, start: int, end: int): (r: int)
    requires WellKeyed(rows)
    ensures r == |ExpensesByDateRange(rows, start, end)|
    ensures r == 0 <==> forall x :: !(Stored(rows, x) && start <= x.date <= end)
  {
    var inRange := Filter(Scan(rows), DateBetween(start, end));
    FilterCount(Scan(rows), DateBetween(start, end));
    assert |multiset(inRange)| == |multiset(ExpensesByDateRange(rows, start, end))|;
    |inRange|
  }

  // ---------------------------------------------------------------------------
  // Changing the table

  /**
   * insertExpense with OnConflictStrategy.REPLACE. Id 0 asks for a new id one
   * above the AUTOINCREMENT counter (SQLITE_FULL when the counter is at the
   * largest Long); any other id replaces the whole row stored under it, if
   * any. The result is the stored row's id.
   */
  function InsertRow(t: Table, x: Expense): (r: Result<(Table, Long), Fault>)
    requires WellFormed(t)
    ensures r.Err? <==> x.id == 0 && t.sequence == MaxLong
    ensures r.Err? ==> r.error == DatabaseFull
    ensures r.Ok? ==>
      var (t', id) := r.value;
      && WellFormed(t')
      && ExpenseById(t'.rows, id) == Some(x.(id := id))
      && (x.id != 0 ==> id == x.id)
      && (x.id == 0 ==> id !in t.rows && id > t.sequence)
      && t'.rows.Keys == t.rows.Keys + {id}
      && (forall k :: k != id ==> ExpenseById(t'.rows, k) == ExpenseById(t.rows, k))
      && t'.sequence == (if id > t.sequence then id else t.sequence)
  {
    if x.id != 0 then
      Ok((Table(t.rows[x.id := x], if x.id > t.sequence then x.id else t.sequence), x.id))
    else if t.sequence == MaxLong then
      Err(DatabaseFull)
    else
      var id: Long := t.sequence + 1;
      Ok((Table(t.rows[id := x.(id := id)], id), id))
  }

  /**
   * Ids are never reused: the counter never goes down, every id in the table
   * is at most the counter, and an assigned id is above it. So after the rows
   * are deleted (which keeps the counter), a new id exceeds every id the
   * table held before.
   */
  lemma IdsNeverReused(t: Table, x: Expense)
    requires WellFormed(t) && x.id == 0 && t.sequence < MaxLong
    ensures var cleared := Table(map[], t.sequence);
            && WellFormed(cleared)
            && InsertRow(cleared, x).Ok?
            && var (t', id) := InsertRow(cleared, x).value;
               && t.sequence <= t'.sequence
               && forall k :: k in t.rows ==> k < id
  {
  }

  /** updateExpense: replaces the row with `x`'s id; no row with that id means no change. */
  function UpdateRow(rows: map<int, Expense>, x: Expense): (r: map<int, Expense>)
    requires WellKeyed(rows)
    ensures WellKeyed(r) && r.Keys == rows.Keys
    ensures x.id in rows ==> ExpenseById(r, x.id) == Some(x)
    ensures x.id !in rows ==> r == rows
    ensures forall k :: k != x.id ==> ExpenseById(r, k) == ExpenseById(rows, k)
  {
    if x.id in rows then rows[x.id := x] else rows
  }

  /** deleteExpenseById: removes the row with that id, if any, and nothing else. */
  function DeleteRow(rows: map<int, Expense>, id: int): (r: map<int, Expense>)
    requires WellKeyed(rows)
    ensures WellKeyed(r) && r.Keys == rows.Keys - {id}
    ensures ExpenseById(r, id) == None
    ensures forall k :: k != id ==> ExpenseById(r, k) == ExpenseById(rows, k)
  {
    rows - {id}
  }

  /** deleteExpense: Room's @Delete matches on the primary key alone. */
  function DeleteMatching(rows: map<int, Expense>, x: Expense): (r: map<int, Expense>)
    requires WellKeyed(rows)
    ensures r == DeleteRow(rows, x.id)
    ensures !Stored(r, x)
  {
    rows - {x.id}
  }

  /** A store call either raises the database's fault or yields its value. */
  function Attempt<T>(fault: Option<Fault>, value: T): Result<T, Fault> {
    match fault
    case Some(f) => Err(f)
    case None => Ok(value)
  }

  /** The DAO over one table, changed in place. */
  class ExpenseDao {
    var rows: map<int, Expense>
    var sequence: int

    function State(): Table
      reads this
    {
      Table(rows, sequence)
    }

    ghost predicate Valid()
      reads this
    {
      WellFormed(State())
    }

    constructor ()
      ensures Valid() && State() == EmptyTable
    {
      rows := map[];
      sequence := 0;
    }

    method GetExpenseById(id: int, fault: Option<Fault>) returns (r: Result<Option<Expense>, Fault>)
      requires Valid()
      ensures r == Attempt(fault, ExpenseById(rows, id))
    {
      r := Attempt(fault, ExpenseById(rows, id));
    }

    method GetTotalAmountByDateRange(start: int, end: int, fault: Option<Fault>) returns (r: Result<Option<int>, Fault>)
      requires Valid()
      ensures r == Attempt(fault, TotalAmountByDateRange(rows, start, end))
    {
      r := Attempt(fault, TotalAmountByDateRange(rows, start, end));
    }

    method GetExpenseCountByDateRange(start: int, end: int, fault: Option<Fault>) returns (r: Result<int, Fault>)
      requires Valid()
      ensures r == Attempt(fault, ExpenseCountByDateRange(rows, start, end))
    {
      r := Attempt(fault, ExpenseCountByDateRange(rows, start, end));
    }

    method InsertExpense(x: Expense, fault: Option<Fault>) returns (r: Result<Long, Fault>)
      requires Valid()
      modifies this
      ensures Valid()
      ensures fault.Some? ==> r == Err(fault.value) && State() == old(State())
      ensures fault.None? ==>
        match InsertRow(old(State()), x)
        case Ok((t, id)) => r == Ok(id) && State() == t
        case Err(f) => r == Err(f) && State() == old(State())
    {
      if fault.Some? {
        return Err(fault.value);
      }
      var inserted := InsertRow(State(), x);
      match inserted
      case Ok((t, id)) =>
        rows, sequence := t.rows, t.sequence;
        r := Ok(id);
      case Err(f) =>
        r := Err(f);
    }

    method UpdateExpense(x: Expense, fault: Option<Fault>) returns (r: Result<(), Fault>)
      requires Valid()
      modifies this
      ensures Valid() && sequence == old(sequence)
      ensures r == Attempt(fault, ())
      ensures rows == if fault.Some? then old(rows) else UpdateRow(old(rows), x)
    {
      r := Attempt(fault, ());
      if fault.None? {
        rows := UpdateRow(rows, x);
      }
    }

    method DeleteExpense(x: Expense, fault: Option<Fault>) returns (r: Result<(), Fault>)
      requires Valid()
      modifies this
      ensures Valid() && sequence == old(sequence)
      ensures r == Attempt(fault, ())
      ensures rows == if fault.Some? then old(rows) else DeleteMatching(old(rows), x)
    {
      r := Attempt(fault, ());
      if fault.None? {
        rows := DeleteMatching(rows, x);
      }
    }

    method DeleteExpenseById(id: int, fault: Option<Fault>) returns (r: Result<(), Fault>)
      requires Valid()
      modifies this
      ensures Valid() && sequence == old(sequence)
      ensures r == Attempt(fault, ())
      ensures rows == if fault.Some? then old(rows) else DeleteRow(old(rows), id)
    {
      r := Attempt(fault, ());
      if fault.None? {
        rows := DeleteRow(rows, id);
      }
    }

    /** deleteAllExpenses: empties the table; the AUTOINCREMENT counter is kept. */
    method DeleteAllExpenses(fault: Option<Fault>) returns (r: Result<(), Fault>)
      requires Valid()
      modifies this
      ensures Valid() && sequence == old(sequence)
      ensures r == Attempt(fault, ())
      ensures rows == if fault.Some? then old(rows) else map[]
    {
      r := Attempt(fault, ());
      if fault.None? {
        rows := map[];
      }
    }
  }
}

/**
 * The monthly overview: for one snapshot of the month's range query, the
 * month key, the total, the number of rows, the rows themselves and the
 * total per category.
 *
 * Kotlin's `groupBy` builds a LinkedHashMap whose keys come in the order in
 * which each category first occurs; `SummaryKeys` is that order, so the
 * per-category totals can be added up in the order the map presents them.
 */
module GetMonthlyOverview {
  import opened Expenses
  import opened ExpenseStore
  import opened Repository
  import opened DateUtils

  datatype MonthlyOverview = MonthlyOverview(
    month: string,
    totalAmount: int,
    totalExpenses: int,
    expenses: seq<Expense>,
    categorySummary: map<string, int>)

  /** The categories that occur in `xs`. */
  function Categories(xs: seq<Expense>): set<string> {
    set x | x in xs :: x.category
  }

  predicate Distinct(cs: seq<string>) {
    forall i, j :: 0 <= i < j < |cs| ==> cs[i] != cs[j]
  }

  // ---------------------------------------------------------------------------
  // Filtering one row at a time

  lemma {:induction false} FilterSnoc(xs: seq<Expense>, y: Expense, w: Where)
    ensures Filter(xs + [y], w) == Filter(xs, w) + (if Matches(y, w) then [y] else [])
  {
    if xs == [] {
      assert [y][1..] == [];
    } else {
      assert (xs + [y])[1..] == xs[1..] + [y];
      FilterSnoc(xs[1..], y, w);
    }
  }

  lemma {:induction false} FilterNoMatch(xs: seq<Expense>, w: Where)
    requires forall x :: x in xs ==> !Matches(x, w)
    ensures Filter(xs, w) == []
  {
    if xs != [] {
      assert xs[0] in xs;
      FilterNoMatch(xs[1..], w);
    }
  }

  // ---------------------------------------------------------------------------
  // groupBy { it.category }

  /** Each category's rows, in their order in `xs`. */
  function GroupByCategory(xs: seq<Expense>): (g: map<string, seq<Expense>>)
    ensures g.Keys == Categories(xs)
    ensures forall c :: c in g ==> g[c] == Filter(xs, CategoryIs(c))
    decreases |xs|
  {
    if xs == [] then map[]
    else
      var init, last := xs[..|xs| - 1], xs[|xs| - 1];
      assert xs == init + [last];
      var g := GroupByCategory(init);
      var c := last.category;
      assert Categories(xs) == Categories(init) + {c};
      assert c !in g ==> Filter(init, CategoryIs(c)) == [] by {
        if c !in g { FilterNoMatch(init, CategoryIs(c)); }
      }
      forall k ensures Filter(xs, CategoryIs(k)) == Filter(init, CategoryIs(k)) + (if k == c then [last] else []) {
        FilterSnoc(init, last, CategoryIs(k));
      }
      g[c := (if c in g then g[c] else []) + [last]]
  }

  /** The index of the first row of category `c` in `xs`, or `|xs|` when there is none. */
  function FirstIndex(xs: seq<Expense>, c: string): (i: nat)
    ensures i <= |xs|
  {
    if xs == [] then 0
    else if xs[0].category == c then 0
    else 1 + FirstIndex(xs[1..], c)
  }

  /** The first index holds a row of that category (when inside the list), and no earlier row does. */
  lemma {:induction false} FirstIndexLeast(xs: seq<Expense>, c: string)
    ensures var i := FirstIndex(xs, c);
            && (i < |xs| ==> xs[i].category == c)
            && forall k :: 0 <= k < i ==> xs[k].category != c
  {
    if xs != [] && xs[0].category != c {
      FirstIndexLeast(xs[1..], c);
      assert forall k :: 1 <= k < |xs| ==> xs[k] == xs[1..][k - 1];
    }
  }

  /** A category occurs exactly when its first index lies inside the list. */
  lemma FirstIndexFound(xs: seq<Expense>, c: string)
    ensures FirstIndex(xs, c) < |xs| <==> c in Categories(xs)
  {
    var i := FirstIndex(xs, c);
    FirstIndexLeast(xs, c);
    if i < |xs| {
      assert xs[i] in xs;
    }
    if c in Categories(xs) {
      var x :| x in xs && x.category == c;
      var k :| 0 <= k < |xs| && xs[k] == x;
      assert xs[k].category == c;
    }
  }

  /** Appending a row leaves the first index of a category that already occurs unchanged. */
  lemma FirstIndexSnoc(init: seq<Expense>, last: Expense, c: string)
    ensures FirstIndex(init, c) < |init| ==> FirstIndex(init + [last], c) == FirstIndex(init, c)
    ensures FirstIndex(init, c) == |init| && last.category == c ==> FirstIndex(init + [last], c) == |init|
  {
    var xs := init + [last];
    var i, j := FirstIndex(init, c), FirstIndex(xs, c);
    FirstIndexLeast(init, c);
    FirstIndexLeast(xs, c);
    assert forall k :: 0 <= k < |init| ==> xs[k] == init[k];
    if i < |init| {
      assert xs[i].category == c;
    } else if last.category == c {
      assert xs[|init|].category == c;
    }
  }

  /** Appending a row keeps the first index of every category already present. */
  lemma KeysKeepFirstIndex(init: seq<Expense>, last: Expense, ks: seq<string>)
    requires forall c :: c in ks ==> c in Categories(init)
    ensures forall c :: c in ks ==> FirstIndex(init + [last], c) == FirstIndex(init, c) < |init|
  {
    forall c | c in ks ensures FirstIndex(init + [last], c) == FirstIndex(init, c) < |init| {
      FirstIndexFound(init, c);
      FirstIndexSnoc(init, last, c);
    }
  }

  /** Keys of `init` in first-occurrence order, extended by the category of one more row. */
  lemma KeysSnoc(init: seq<Expense>, last: Expense, ks: seq<string>)
    requires Distinct(ks)
    requires forall c :: c in ks <==> c in Categories(init)
    requires forall i, j :: 0 <= i < j < |ks| ==> FirstIndex(init, ks[i]) < FirstIndex(init, ks[j])
    ensures var xs, ks' := init + [last], if last.category in ks then ks else ks + [last.category];
            && Distinct(ks')
            && (forall i, j :: 0 <= i < j < |ks'| ==> FirstIndex(xs, ks'[i]) < FirstIndex(xs, ks'[j]))
  {
    var xs := init + [last];
    KeysKeepFirstIndex(init, last, ks);
    if last.category !in ks {
      var c := last.category;
      FirstIndexFound(init, c);
      FirstIndexSnoc(init, last, c);
      var ks' := ks + [c];
      forall i, j | 0 <= i < j < |ks'| ensures FirstIndex(xs, ks'[i]) < FirstIndex(xs, ks'[j]) {
        assert ks'[i] == ks[i] && ks[i] in ks;
        if j < |ks| {
          assert ks'[j] == ks[j] && ks[j] in ks;
        }
      }
    }
  }

  /**
   * The categories in the order in which each first occurs: the key order of
   * `groupBy`. Each key is a category of `xs`, each category is a key once,
   * and a key comes before another exactly when its first row comes first.
   */
  function SummaryKeys(xs: seq<Expense>): (ks: seq<string>)
    ensures Distinct(ks)
    ensures forall c :: c in ks <==> c in Categories(xs)
    ensures forall i, j :: 0 <= i < j < |ks| ==> FirstIndex(xs, ks[i]) < FirstIndex(xs, ks[j])
    decreases |xs|
  {
    if xs == [] then []
    else
      var init, last := xs[..|xs| - 1], xs[|xs| - 1];
      assert xs == init + [last];
      assert Categories(xs) == Categories(init) + {last.category};
      var ks := SummaryKeys(init);
      KeysSnoc(init, last, ks);
      if last.category in ks then ks else ks + [last.category]
  }

  /** groupBy { it.category }.mapValues { sumOf { it.amount } }: the total per category that occurs. */
  function CategorySummary(xs: seq<Expense>): (m: map<string, int>)
    ensures m.Keys == Categories(xs)
    ensures forall c :: c in m ==> m[c] == TotalOf(Filter(xs, CategoryIs(c)))
  {
    var g := GroupByCategory(xs);
    map c | c in g :: TotalOf(g[c])
  }

  /** The values of `m` added up in the key order `ks` (a key `m` lacks adds nothing). */
  function SumInOrder(m: map<string, int>, ks: seq<string>): int {
    if ks == [] then 0 else (if ks[0] in m then m[ks[0]] else 0) + SumInOrder(m, ks[1..])
  }

  // ---------------------------------------------------------------------------
  // The category totals add up to the total

  /** Each category's total over the rows `xs`, added up over `cs`. */
  function SumOverCategories(xs: seq<Expense>, cs: seq<string>): int {
    if cs == [] then 0 else TotalOf(Filter(xs, CategoryIs(cs[0]))) + SumOverCategories(xs, cs[1..])
  }

  /** Row `h`'s amount, counted once for every entry of `cs` equal to its category. */
  function CountedAmount(h: Expense, cs: seq<string>): int {
    if cs == [] then 0 else (if cs[0] == h.category then h.amount else 0) + CountedAmount(h, cs[1..])
  }

  lemma {:induction false} CountedOnce(h: Expense, cs: seq<string>)
    requires Distinct(cs)
    ensures CountedAmount(h, cs) == if h.category in cs then h.amount else 0
  {
    if cs != [] {
      assert Distinct(cs[1..]) by {
        forall i, j | 0 <= i < j < |cs[1..]| ensures cs[1..][i] != cs[1..][j] {
          assert cs[1..][i] == cs[i + 1] && cs[1..][j] == cs[j + 1];
        }
      }
      CountedOnce(h, cs[1..]);
      if cs[0] == h.category {
        assert h.category !in cs[1..] by {
          forall i | 0 <= i < |cs[1..]| ensures cs[1..][i] != h.category {
            assert cs[1..][i] == cs[i + 1];
          }
        }
      } else {
        assert h.category in cs <==> h.category in cs[1..] by {
          assert cs == [cs[0]] + cs[1..];
        }
      }
    }
  }

  lemma {:induction false} SumOverCategoriesCons(xs: seq<Expense>, cs: seq<string>)
    requires xs != []
    ensures SumOverCategories(xs, cs) == CountedAmount(xs[0], cs) + SumOverCategories(xs[1..], cs)
  {
    if cs != [] {
      SumOverCategoriesCons(xs, cs[1..]);
    }
  }

  lemma {:induction false} SumOverCategoriesEmpty(cs: seq<string>)
    ensures SumOverCategories([], cs) == 0
  {
    if cs != [] {
      SumOverCategoriesEmpty(cs[1..]);
    }
  }

  /** Over distinct categories that cover every row, the per-category totals add up to the total. */
  lemma {:induction false} CategoryTotalsAddUp(xs: seq<Expense>, cs: seq<string>)
    requires Distinct(cs)
    requires forall x :: x in xs ==> x.category in cs
    ensures SumOverCategories(xs, cs) == TotalOf(xs)
  {
    if xs == [] {
      SumOverCategoriesEmpty(cs);
    } else {
      assert xs[0] in xs;
      SumOverCategoriesCons(xs, cs);
      CountedOnce(xs[0], cs);
      forall x | x in xs[1..] ensures x.category in cs {
        assert x in xs;
      }
      CategoryTotalsAddUp(xs[1..], cs);
    }
  }

  lemma {:induction false} SumInOrderOfSummary(xs: seq<Expense>, cs: seq<string>)
    requires forall c :: c in cs ==> c in Categories(xs)
    ensures SumInOrder(CategorySummary(xs), cs) == SumOverCategories(xs, cs)
  {
    if cs != [] {
      SumInOrderOfSummary(xs, cs[1..]);
    }
  }

  /** The summary's values, taken in the map's key order, add up to the total of the rows. */
  lemma SummaryAddsUp(xs: seq<Expense>)
    ensures SumInOrder(CategorySummary(xs), SummaryKeys(xs)) == TotalOf(xs)
  {
    var ks := SummaryKeys(xs);
    forall x | x in xs ensures x.category in ks {
      assert x.category in Categories(xs);
    }
    SumInOrderOfSummary(xs, ks);
    CategoryTotalsAddUp(xs, ks);
  }

  // ---------------------------------------------------------------------------
  // The use case

  /** The mapping body of execute, over one emitted list of rows. */
  function Summarize(month: int, offset: int, expenses: seq<Expense>): (r: MonthlyOverview)
    ensures r.expenses == expenses && r.totalExpenses == |expenses|
    ensures r.totalAmount == TotalOf(expenses)
    ensures r.month == FormatMonth(month, offset)
    ensures r.categorySummary.Keys == Categories(expenses)
    ensures forall c :: c in r.categorySummary ==> r.categorySummary[c] == TotalOf(Filter(expenses, CategoryIs(c)))
    ensures SumInOrder(r.categorySummary, SummaryKeys(expenses)) == r.totalAmount
  {
    SummaryAddsUp(expenses);
    MonthlyOverview(
      FormatMonth(month, offset),
      TotalOf(expenses),
      |expenses|,
      expenses,
      CategorySummary(expenses))
  }

  /** The month's range query holds exactly the stored rows of that local month. */
  lemma MonthQuery(rows: map<int, Expense>, month: int, offset: int)
    requires WellKeyed(rows)
    ensures var q := ExpensesByDateRange(rows, StartOfMonth(month, offset), EndOfMonth(month, offset));
            forall x :: x in q <==> Stored(rows, x) && YearMonth(x.date, offset) == YearMonth(month, offset)
  {
    MonthRangeIsMonth(month, offset);
  }

  /** The overview of any range query agrees with the DAO's count and the repository's total. */
  lemma RangeOverview(rows: map<int, Expense>, month: int, offset: int, s: int, e: int)
    requires WellKeyed(rows)
    ensures var r := Summarize(month, offset, ExpensesByDateRange(rows, s, e));
            && r.totalExpenses == ExpenseCountByDateRange(rows, s, e)
            && r.totalAmount == TotalOrZero(rows, s, e)
            && (r.expenses == [] ==> r.totalAmount == 0 && r.categorySummary == map[])
  {
    var expenses := ExpensesByDateRange(rows, s, e);
    if expenses == [] {
      assert Categories(expenses) == {};
    }
  }

  class GetMonthlyOverviewUseCase {
    const repository: ExpenseRepository

    constructor (repository: ExpenseRepository)
      ensures this.repository == repository
    {
      this.repository := repository;
    }

    /**
     * execute(month), as the overview the flow emits for the current table:
     * the rows of the local month of `month`, latest first, summarised.
     */
    function Execute(month: int, offset: int): (r: MonthlyOverview)
      reads repository.dao
      requires repository.Valid()
      ensures var rows := repository.dao.rows;
              var (s, e) := (StartOfMonth(month, offset), EndOfMonth(month, offset));
              && r == Summarize(month, offset, ExpensesByDateRange(rows, s, e))
              && SortedByDateDesc(r.expenses)
              && (forall x :: x in r.expenses <==> Stored(rows, x) && YearMonth(x.date, offset) == YearMonth(month, offset))
              && r.totalExpenses == ExpenseCountByDateRange(rows, s, e)
              && r.totalAmount == TotalOrZero(rows, s, e)
              && (r.expenses == [] ==> r.totalAmount == 0 && r.categorySummary == map[])
              && r.month == FormatMonth(month, offset)
              && SumInOrder(r.categorySummary, SummaryKeys(r.expenses)) == r.totalAmount
    {
      var s, e := StartOfMonth(month, offset), EndOfMonth(month, offset);
      MonthQuery(repository.dao.rows, month, offset);
      RangeOverview(repository.dao.rows, month, offset, s, e);
      Summarize(month, offset, repository.GetExpensesByDateRange(s, e))
    }

    /** getCurrentMonthOverview with the clock reading `now` passed in. */
    function CurrentMonthOverview(now: int, offset: int): (r: MonthlyOverview)
      reads repository.dao
      requires repository.Valid()
      ensures r == Execute(now, offset)
      ensures forall x :: x in r.expenses ==>
                CurrentMonthStartEnd(now, offset).0 <= x.date <= CurrentMonthStartEnd(now, offset).1
    {
      Execute(now, offset)
    }
  }
}

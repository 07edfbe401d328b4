/** The `expenses` row type and sums over lists of rows. */
module Expenses {
  import opened Wrappers

  const MinLong: int := -0x8000_0000_0000_0000
  const MaxLong: int := 0x7FFF_FFFF_FFFF_FFFF

  /** Kotlin's `Long`. */
  type Long = x: int | MinLong <= x <= MaxLong

  /**
   * One row of the `expenses` table. `id` 0 means "not yet stored, assign one".
   * `amount` is in whole cents; `date` is the user-assigned expense time and
   * `createdAt`/`updatedAt` are bookkeeping times, all in epoch milliseconds.
   */
  datatype Expense = Expense(
    id: Long,
    title: string,
    amount: int,
    category: string,
    description: Option<string>,
    date: Long,
    createdAt: Long,
    updatedAt: Long)

  /**
   * `sumOf { it.amount }`. When no amount is negative, neither is the total.
   */
  function TotalOf(xs: seq<Expense>): (r: int)
    ensures (forall x :: x in xs ==> x.amount >= 0) ==> r >= 0
  {
    if xs == [] then 0
    else
      assert forall x :: x in xs[1..] ==> x in xs;
      xs[0].amount + TotalOf(xs[1..])
  }

  /** The library adds the amounts one by one from the front: the total is the total of all but the last row plus the last amount. */
  lemma {:induction false} TotalOfSnoc(xs: seq<Expense>)
    requires xs != []
    ensures TotalOf(xs) == TotalOf(xs[..|xs| - 1]) + xs[|xs| - 1].amount
  {
    if |xs| >= 2 {
      assert xs[1..][..|xs| - 2] == xs[..|xs| - 1][1..];
      TotalOfSnoc(xs[1..]);
    }
  }

  lemma {:induction false} TotalOfConcat(a: seq<Expense>, b: seq<Expense>)
    ensures TotalOf(a + b) == TotalOf(a) + TotalOf(b)
  {
    if a != [] {
      assert (a + b)[1..] == a[1..] + b;
      TotalOfConcat(a[1..], b);
    } else {
      assert a + b == b;
    }
  }

  /** Taking out the row at index j removes one copy of it. */
  lemma RemoveAtMultiset(b: seq<Expense>, j: int)
    requires 0 <= j < |b|
    ensures multiset(b) == multiset(b[..j] + b[j + 1..]) + multiset{b[j]}
  {
    assert b == b[..j] + [b[j]] + b[j + 1..];
  }

  /** Taking out the row at index j removes its amount from the total. */
  lemma {:induction false} RemoveAtTotal(b: seq<Expense>, j: int)
    requires 0 <= j < |b|
    ensures TotalOf(b) == TotalOf(b[..j] + b[j + 1..]) + b[j].amount
  {
    var rest := b[..j] + b[j + 1..];
    if j == 0 {
      assert rest == b[1..];
    } else {
      var tail := b[1..];
      assert rest[0] == b[0];
      assert rest[1..] == tail[..j - 1] + tail[j..];
      assert tail[j - 1] == b[j];
      RemoveAtTotal(tail, j - 1);
    }
  }

  lemma MultisetCancel(p: multiset<Expense>, q: multiset<Expense>, x: Expense)
    requires p + multiset{x} == q + multiset{x}
    ensures p == q
  {
    forall y ensures p[y] == q[y] {
      assert (p + multiset{x})[y] == (q + multiset{x})[y];
    }
  }

  /** The total does not depend on the order of the rows. */
  lemma {:induction false} TotalOfPermutation(a: seq<Expense>, b: seq<Expense>)
    requires multiset(a) == multiset(b)
    ensures TotalOf(a) == TotalOf(b)
    decreases |a|
  {
    if a == [] {
      assert |b| == |multiset(b)| == 0;
    } else {
      var x := a[0];
      assert x in multiset(b);
      var j :| 0 <= j < |b| && b[j] == x;
      var rest := b[..j] + b[j + 1..];
      RemoveAtMultiset(b, j);
      RemoveAtTotal(b, j);
      assert a == [x] + a[1..];
      assert multiset(a) == multiset(a[1..]) + multiset{x};
      MultisetCancel(multiset(a[1..]), multiset(rest), x);
      TotalOfPermutation(a[1..], rest);
    }
  }

  /** ORDER BY date DESC. */
  predicate SortedByDateDesc(xs: seq<Expense>) {
    forall i, j :: 0 <= i < j < |xs| ==> xs[i].date >= xs[j].date
  }
}

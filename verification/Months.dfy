/**
 * Figures that are taken month by month.  A window of days has a whole count n
 * and a figure g; when counts of adjoining windows add up and every figure is
 * its count at one rate, then the months of a range add up to the whole range.
 */
module Months {
  import opened Calendar

  type Window = (int, int)

  /** Counts of the months a to b added up, for month starts f. */
  function CountMonths(f: int -> int, n: Window -> nat, a: int, b: int): nat
    decreases b - a
  {
    if b < a then 0 else CountMonths(f, n, a, b - 1) + n((f(b), f(b + 1) - 1))
  }

  /** Figures of the months a to b added up. */
  function SumMonths(f: int -> int, g: Window -> real, a: int, b: int): real
    decreases b - a
  {
    if b < a then 0.0 else SumMonths(f, g, a, b - 1) + g((f(b), f(b + 1) - 1))
  }

  /** Cutting a window in two before day mid cuts its count in two. */
  ghost predicate Joins(n: Window -> nat, first: int, mid: int, last: int) {
    first < mid <= last ==> n((first, last)) == n((first, mid - 1)) + n((mid, last))
  }

  ghost predicate Additive(n: Window -> nat) {
    forall first, mid, last :: Joins(n, first, mid, last)
  }

  ghost predicate ScaledAt(n: Window -> nat, g: Window -> real, rate: real, first: int, last: int) {
    first <= last ==> g((first, last)) == n((first, last)) as real * rate
  }

  ghost predicate Scaled(n: Window -> nat, g: Window -> real, rate: real) {
    forall first, last :: ScaledAt(n, g, rate, first, last)
  }

  /** Consecutive months share out the count of their whole range. */
  lemma {:induction false} MonthsPartition(f: int -> int, n: Window -> nat, a: int, b: int)
    requires forall m :: Grows(f, m)
    requires Additive(n) && a <= b
    ensures CountMonths(f, n, a, b) == n((f(a), f(b + 1) - 1))
    decreases b - a
  {
    assert Grows(f, b);
    if a == b {
      assert CountMonths(f, n, a, b - 1) == 0;
    } else {
      MonthsPartition(f, n, a, b - 1);
      StartsIncrease(f, a, b);
      assert Joins(n, f(a), f(b), f(b + 1) - 1);
    }
  }

  lemma {:induction false} SumScales(f: int -> int, n: Window -> nat, g: Window -> real, rate: real, a: int, b: int)
    requires forall m :: Grows(f, m)
    requires Scaled(n, g, rate)
    ensures SumMonths(f, g, a, b) == CountMonths(f, n, a, b) as real * rate
    decreases b - a
  {
    if b < a {
    } else {
      SumScales(f, n, g, rate, a, b - 1);
      assert Grows(f, b);
      assert ScaledAt(n, g, rate, f(b), f(b + 1) - 1);
    }
  }

  /** The figure of a range is the sum of its monthly figures. */
  lemma RangeIsSum(f: int -> int, n: Window -> nat, g: Window -> real, rate: real, a: int, b: int)
    requires forall m :: Grows(f, m)
    requires Additive(n) && Scaled(n, g, rate) && a <= b
    ensures g((f(a), f(b + 1) - 1)) == SumMonths(f, g, a, b)
  {
    MonthsPartition(f, n, a, b);
    SumScales(f, n, g, rate, a, b);
    StartsIncrease(f, a, b + 1);
    assert ScaledAt(n, g, rate, f(a), f(b + 1) - 1);
  }

  /** The months a to b reach over the days from start to end. */
  ghost predicate Covers(f: int -> int, a: int, b: int, start: int, end: int) {
    a <= b && f(a) <= start && end < f(b + 1)
  }

  lemma CoversByMonths(f: int -> int, a: int, b: int, start: int, end: int, ms: int, me: int)
    requires forall m :: Grows(f, m)
    requires start <= end && Holds(f, ms, start) && Holds(f, me, end)
    requires a <= ms && me <= b
    ensures Covers(f, a, b, start, end)
  {
    if me + 1 < ms { StartsIncrease(f, me + 1, ms); }
    if a < ms { StartsIncrease(f, a, ms); }
    if me + 1 < b + 1 { StartsIncrease(f, me + 1, b + 1); }
  }
}

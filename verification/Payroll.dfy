/**
 * Absent days per month as the payroll loop counts them, and the law that ties
 * the months of a leave to the days it was booked for.
 */
module Payroll {
  import opened Basics
  import opened Calendar
  import opened Months
  import opened Totals

  /** A leave joined with its type, as the payroll query selects it. */
  datatype Absence = Absence(start: int, end: int, days: real, approved: bool, paid: bool, early: bool)

  datatype Summary = Summary(paidDays: real, unpaidDays: real, earlyLeaves: real)

  function Max(a: int, b: int): int { if a < b then b else a }
  function Min(a: int, b: int): int { if a < b then a else b }

  /** Working days that a leave and a window share. */
  function Overlap(l: Absence, first: int, last: int, holidays: set<int>): nat {
    WorkDays(Max(l.start, first), Min(l.end, last), holidays)
  }

  predicate Touches(l: Absence, first: int, last: int) {
    l.start <= last && l.end >= first
  }

  /** What one working day of the leave counts for: a single half day keeps its half. */
  function DayValue(l: Absence): real {
    if l.start == l.end && l.days < 1.0 then l.days else 1.0
  }

  /** Absent days of one leave in a window. */
  function AbsentIn(l: Absence, first: int, last: int, holidays: set<int>): real {
    Overlap(l, first, last, holidays) as real * DayValue(l)
  }

  function SumAbsent(leaves: seq<Absence>, paid: bool, first: int, last: int, holidays: set<int>): real {
    if leaves == [] then 0.0
    else
      var l := leaves[|leaves| - 1];
      SumAbsent(leaves[..|leaves| - 1], paid, first, last, holidays) +
      if l.approved && !l.early && l.paid == paid then AbsentIn(l, first, last, holidays) else 0.0
  }

  /** Early leaves are summed whole in every month they touch. */
  function SumEarly(leaves: seq<Absence>, first: int, last: int): real {
    if leaves == [] then 0.0
    else
      var l := leaves[|leaves| - 1];
      SumEarly(leaves[..|leaves| - 1], first, last) +
      if l.approved && l.early && Touches(l, first, last) then l.days else 0.0
  }

  method DaysInMonth(l: Absence, first: int, last: int, holidayMap: set<int>) returns (days: real)
    ensures days == AbsentIn(l, first, last, holidayMap)
  {
    var overlapStart := l.start;
    if overlapStart < first {
      overlapStart := first;
    }
    var overlapEnd := l.end;
    if overlapEnd > last {
      overlapEnd := last;
    }
    days := 0.0;
    ghost var n := 0;
    var d := overlapStart;
    while d <= overlapEnd
      invariant overlapStart <= d
      invariant d <= overlapEnd + 1 || d == overlapStart
      invariant n == WorkDays(overlapStart, d - 1, holidayMap)
      invariant days == n as real * DayValue(l)
    {
      if d % 7 == 6 || d % 7 == 0 || d in holidayMap {
        d := d + 1;
        continue;
      }
      if l.start == l.end && l.days < 1.0 {
        days := days + l.days;
      } else {
        days := days + 1.0;
      }
      n := n + 1;
      d := d + 1;
    }
  }

  /** The leaves of one employee in one month; only approved ones that touch it are selected. */
  method CalculateAbsentDaysForMonth(leaves: seq<Absence>, month: int, holidays: set<int>)
    returns (summary: Summary)
    ensures var first, last := MonthStart(month), MonthEnd(month);
            summary == Summary(SumAbsent(leaves, true, first, last, holidays),
                               SumAbsent(leaves, false, first, last, holidays),
                               SumEarly(leaves, first, last))
  {
    var first, last := MonthStart(month), MonthEnd(month);
    var holidayMap := HolidaysBetween(first, last, holidays);
    summary := Summary(0.0, 0.0, 0.0);
    for i := 0 to |leaves|
      invariant summary == Summary(SumAbsent(leaves[..i], true, first, last, holidays),
                                   SumAbsent(leaves[..i], false, first, last, holidays),
                                   SumEarly(leaves[..i], first, last))
    {
      var l := leaves[i];
      assert leaves[..i + 1][..i] == leaves[..i] && leaves[..i + 1][i] == l;
      if !l.approved || !Touches(l, first, last) {
        assert Overlap(l, first, last, holidays) == 0 || !l.approved;
        continue;
      }
      if l.early {
        summary := summary.(earlyLeaves := summary.earlyLeaves + l.days);
        continue;
      }
      WorkDaysLocal(Max(l.start, first), Min(l.end, last), first, last, holidays);
      var actual := DaysInMonth(l, first, last, holidayMap);
      if l.paid {
        summary := summary.(paidDays := summary.paidDays + actual);
      } else {
        summary := summary.(unpaidDays := summary.unpaidDays + actual);
      }
    }
    assert leaves[..|leaves|] == leaves;
  }

  // --------------------------------------------------------------- what is counted

  predicate On(d: int, start: int, end: int) {
    start <= d <= end
  }

  /** The days on which the employee misses work because of the leave, in a window. */
  function MissedDays(l: Absence, first: int, last: int, holidays: set<int>): set<int> {
    set d | l.start <= d <= l.end && On(d, first, last) && !Weekend(d) && d !in holidays
  }

  lemma MissedDaysOverlap(l: Absence, first: int, last: int, holidays: set<int>)
    ensures |MissedDays(l, first, last, holidays)| == Overlap(l, first, last, holidays)
  {
    var a, b := Max(l.start, first), Min(l.end, last);
    WorkDaysCounts(a, b, holidays);
    assert MissedDays(l, first, last, holidays) == set d | a <= d <= b && WorkingDay(d, holidays);
  }

  /** An approved leave of the paid or the unpaid kind counts its missed days, each whole unless it
      is a single half day; any other leave counts nothing. */
  function AbsentTerm(l: Absence, paid: bool, first: int, last: int, holidays: set<int>): real {
    if l.approved && !l.early && l.paid == paid
    then |MissedDays(l, first, last, holidays)| as real * (if l.start == l.end && l.days < 1.0 then l.days else 1.0)
    else 0.0
  }

  function AbsentTerms(leaves: seq<Absence>, paid: bool, first: int, last: int, holidays: set<int>): seq<real> {
    seq(|leaves|, i requires 0 <= i < |leaves| => AbsentTerm(leaves[i], paid, first, last, holidays))
  }

  /** An approved early leave counts its booked days in every window with a day of it. */
  ghost function EarlyTerm(l: Absence, first: int, last: int): real {
    if l.approved && l.early && exists d :: On(d, l.start, l.end) && On(d, first, last) then l.days else 0.0
  }

  ghost function EarlyTerms(leaves: seq<Absence>, first: int, last: int): seq<real> {
    seq(|leaves|, i requires 0 <= i < |leaves| => EarlyTerm(leaves[i], first, last))
  }

  lemma {:induction false} SumAbsentIsTotal(leaves: seq<Absence>, paid: bool, first: int, last: int, holidays: set<int>)
    ensures SumAbsent(leaves, paid, first, last, holidays) == Total(AbsentTerms(leaves, paid, first, last, holidays))
  {
    if leaves == [] {
    } else {
      var n, xs := |leaves| - 1, AbsentTerms(leaves, paid, first, last, holidays);
      SumAbsentIsTotal(leaves[..n], paid, first, last, holidays);
      MissedDaysOverlap(leaves[n], first, last, holidays);
      TotalGrows(xs, n);
      assert xs[..n] == AbsentTerms(leaves[..n], paid, first, last, holidays) && xs[..n + 1] == xs;
    }
  }

  lemma {:induction false} SumEarlyIsTotal(leaves: seq<Absence>, first: int, last: int)
    requires first <= last && forall l :: l in leaves ==> l.start <= l.end
    ensures SumEarly(leaves, first, last) == Total(EarlyTerms(leaves, first, last))
  {
    if leaves == [] {
    } else {
      var n, xs := |leaves| - 1, EarlyTerms(leaves, first, last);
      SumEarlyIsTotal(leaves[..n], first, last);
      var l := leaves[n];
      assert l in leaves;
      var d := Max(l.start, first);
      assert Touches(l, first, last) ==> On(d, l.start, l.end) && On(d, first, last);
      TotalGrows(xs, n);
      assert xs[..n] == EarlyTerms(leaves[..n], first, last) && xs[..n + 1] == xs;
    }
  }

  /** The three figures of a month, leave by leave. */
  lemma SummaryIsTotal(leaves: seq<Absence>, month: int, holidays: set<int>)
    requires forall l :: l in leaves ==> l.start <= l.end
    ensures var first, last := MonthStart(month), MonthEnd(month);
            && (forall paid :: SumAbsent(leaves, paid, first, last, holidays)
                               == Total(AbsentTerms(leaves, paid, first, last, holidays)))
            && SumEarly(leaves, first, last) == Total(EarlyTerms(leaves, first, last))
  {
    MonthLength(month);
    SumAbsentIsTotal(leaves, true, MonthStart(month), MonthEnd(month), holidays);
    SumAbsentIsTotal(leaves, false, MonthStart(month), MonthEnd(month), holidays);
    SumEarlyIsTotal(leaves, MonthStart(month), MonthEnd(month));
  }

  // ----------------------------------------------------------- splitting by month

  lemma WindowsJoin(l: Absence, first: int, mid: int, last: int, holidays: set<int>)
    requires first < mid <= last && l.start <= l.end
    ensures Overlap(l, first, last, holidays)
            == Overlap(l, first, mid - 1, holidays) + Overlap(l, mid, last, holidays)
  {
    var a, b := Max(l.start, first), Min(l.end, last);
    if mid <= a {
      assert Overlap(l, first, mid - 1, holidays) == 0;
    } else if b < mid {
      assert Overlap(l, mid, last, holidays) == 0;
    } else {
      WorkDaysSplit(a, mid - 1, b, holidays);
    }
  }

  /** Overlap as a count of windows. */
  function Overlaps(l: Absence, holidays: set<int>): Window -> nat {
    (w: Window) => Overlap(l, w.0, w.1, holidays)
  }

  lemma OverlapsAdd(l: Absence, holidays: set<int>)
    requires l.start <= l.end
    ensures Additive(Overlaps(l, holidays))
  {
    forall first, mid, last ensures Joins(Overlaps(l, holidays), first, mid, last) {
      if first < mid <= last {
        WindowsJoin(l, first, mid, last, holidays);
      }
    }
  }

  /** Months that cover a leave see all of its working days. */
  lemma CoverIsWhole(f: int -> int, l: Absence, a: int, b: int, holidays: set<int>)
    requires forall m :: Grows(f, m)
    requires l.start <= l.end && Covers(f, a, b, l.start, l.end)
    ensures CountMonths(f, Overlaps(l, holidays), a, b) == WorkDays(l.start, l.end, holidays)
  {
    OverlapsAdd(l, holidays);
    MonthsPartition(f, Overlaps(l, holidays), a, b);
  }

  /** The payroll count of one leave as a figure of windows. */
  function AbsentDays(l: Absence, holidays: set<int>): Window -> real {
    (w: Window) => AbsentIn(l, w.0, w.1, holidays)
  }

  /** Payroll days of a leave summed over the months a to b. */
  function MonthlyAbsent(f: int -> int, l: Absence, a: int, b: int, holidays: set<int>): real {
    SumMonths(f, AbsentDays(l, holidays), a, b)
  }

  lemma MonthlyAbsentIsWhole(f: int -> int, l: Absence, a: int, b: int, holidays: set<int>)
    requires forall m :: Grows(f, m)
    requires l.start <= l.end && Covers(f, a, b, l.start, l.end)
    ensures MonthlyAbsent(f, l, a, b, holidays) == WorkDays(l.start, l.end, holidays) as real * DayValue(l)
  {
    CoverIsWhole(f, l, a, b, holidays);
    forall first, last
      ensures ScaledAt(Overlaps(l, holidays), AbsentDays(l, holidays), DayValue(l), first, last)
    {}
    SumScales(f, Overlaps(l, holidays), AbsentDays(l, holidays), DayValue(l), a, b);
  }

  /** Summed over any months that cover it, payroll counts the booked days of a full-day or
      one-day leave exactly, and twice the booked days of a half-day leave of several days. */
  lemma MonthsCountBookedDays(f: int -> int, l: Absence, a: int, b: int, holidays: set<int>,
                              timingId: int, clock: bool)
    requires forall m :: Grows(f, m)
    requires Covers(f, a, b, l.start, l.end)
    requires RequestDays(l.start, l.end, holidays, timingId, clock) == Some(l.days)
    ensures var total := MonthlyAbsent(f, l, a, b, holidays);
            if clock || timingId == 3 || l.start == l.end then total == l.days else total == 2.0 * l.days
  {
    MonthlyAbsentIsWhole(f, l, a, b, holidays);
    var whole := WorkDays(l.start, l.end, holidays);
    if l.start == l.end {
      assert whole == WorkDays(l.start, l.end - 1, holidays) + if WorkingDay(l.end, holidays) then 1 else 0;
      assert whole == 0 || whole == 1;
    }
  }

  /** The same for the months of the calendar. */
  lemma GregorianMonthsCountBookedDays(l: Absence, a: int, b: int, holidays: set<int>, timingId: int, clock: bool)
    requires a <= MonthOf(l.start) && MonthOf(l.end) <= b
    requires RequestDays(l.start, l.end, holidays, timingId, clock) == Some(l.days)
    ensures var total := MonthlyAbsent(MonthStart, l, a, b, holidays);
            if clock || timingId == 3 || l.start == l.end then total == l.days else total == 2.0 * l.days
  {
    MonthsGrow();
    MonthOfHolds(l.start);
    MonthOfHolds(l.end);
    CoversByMonths(MonthStart, a, b, l.start, l.end, MonthOf(l.start), MonthOf(l.end));
    MonthsCountBookedDays(MonthStart, l, a, b, holidays, timingId, clock);
  }

  /** A first-half leave on Monday and Tuesday, 1 and 2 January of year 1, is booked for one day
      and counted for two. */
  lemma HalfDaysCountTwice()
    ensures RequestDays(1, 2, {}, 1, false) == Some(1.0)
    ensures SumAbsent([Absence(1, 2, 1.0, true, true, false)], true, MonthStart(12), MonthEnd(12), {}) == 2.0
  {
    var l := Absence(1, 2, 1.0, true, true, false);
    assert MonthStart(12) == 1 && MonthEnd(12) == 31;
    assert WorkDays(1, 0, {}) == 0 && WorkDays(1, 1, {}) == 1 && WorkDays(1, 2, {}) == 2;
    assert [l][..0] == [];
  }
}

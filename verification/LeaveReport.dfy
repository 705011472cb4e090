/**
 * The leave report: days prorated to a window of months by the share of working
 * days, its sums per employee, and their agreement with payroll.
 */
module LeaveReport {
  import opened Calendar
  import opened Months
  import opened Payroll
  import opened Totals
  import Books

  /** The share of a leave that falls in the window, as the query computes it. */
  function Prorated(l: Absence, first: int, last: int, holidays: set<int>): real {
    var total := WorkDays(l.start, l.end, holidays);
    var overlap := Overlap(l, first, last, holidays);
    if !l.approved || !Touches(l, first, last) || overlap <= 0 then 0.0
    else if total == overlap then l.days
    else if total == 0 then 0.0
    else overlap as real / total as real * l.days
  }

  /** Days per working day of an approved leave. */
  function Rate(l: Absence, holidays: set<int>): real {
    var total := WorkDays(l.start, l.end, holidays);
    if !l.approved || total == 0 then 0.0 else l.days / total as real
  }

  /** Every case is the same share: the overlapping working days at the daily rate. */
  lemma ProratedIsShare(l: Absence, first: int, last: int, holidays: set<int>)
    requires l.start <= l.end && first <= last
    ensures Prorated(l, first, last, holidays) == Overlap(l, first, last, holidays) as real * Rate(l, holidays)
  {}

  lemma WholeRate(t: real, d: real)
    requires t != 0.0
    ensures t * (d / t) == d
  {}

  lemma OverlapAtMostTotal(l: Absence, first: int, last: int, holidays: set<int>)
    requires l.start <= l.end && first <= last
    ensures Overlap(l, first, last, holidays) <= WorkDays(l.start, l.end, holidays)
  {
    var a, b := Max(l.start, first), Min(l.end, last);
    if a <= b {
      WorkDaysSplit(l.start, a - 1, l.end, holidays);
      WorkDaysSplit(a, b, l.end, holidays);
    }
  }

  /** The share of one leave as a figure of windows. */
  function Shares(l: Absence, holidays: set<int>): Window -> real {
    (w: Window) => Prorated(l, w.0, w.1, holidays)
  }

  lemma SharesScale(l: Absence, holidays: set<int>)
    requires l.start <= l.end
    ensures Scaled(Overlaps(l, holidays), Shares(l, holidays), Rate(l, holidays))
  {}

  /** Monthly figures of a leave summed over the months a to b, for month starts f. */
  function MonthlyProrated(f: int -> int, l: Absence, a: int, b: int, holidays: set<int>): real {
    SumMonths(f, Shares(l, holidays), a, b)
  }

  /** A report over a range of months says what its monthly reports say together. */
  lemma RangeIsSumOfMonths(f: int -> int, l: Absence, a: int, b: int, holidays: set<int>)
    requires forall m :: Grows(f, m)
    requires l.start <= l.end && a <= b
    ensures Prorated(l, f(a), f(b + 1) - 1, holidays) == MonthlyProrated(f, l, a, b, holidays)
  {
    OverlapsAdd(l, holidays);
    SharesScale(l, holidays);
    RangeIsSum(f, Overlaps(l, holidays), Shares(l, holidays), Rate(l, holidays), a, b);
  }

  /** Over months that cover an approved leave the shares add up to its days; a leave without
      working days vanishes. */
  lemma SharesAddUp(f: int -> int, l: Absence, a: int, b: int, holidays: set<int>)
    requires forall m :: Grows(f, m)
    requires l.approved && l.start <= l.end && Covers(f, a, b, l.start, l.end)
    ensures MonthlyProrated(f, l, a, b, holidays)
            == if WorkDays(l.start, l.end, holidays) > 0 then l.days else 0.0
  {
    CoverIsWhole(f, l, a, b, holidays);
    SharesScale(l, holidays);
    SumScales(f, Overlaps(l, holidays), Shares(l, holidays), Rate(l, holidays), a, b);
    var total := WorkDays(l.start, l.end, holidays);
    if total > 0 {
      WholeRate(total as real, l.days);
    }
  }

  /** For a full-day leave the report and the payroll loop give the same figure in any window. */
  lemma ReportAgreesWithPayroll(l: Absence, first: int, last: int, holidays: set<int>)
    requires l.approved && l.start <= l.end && first <= last
    requires l.days == WorkDays(l.start, l.end, holidays) as real
    ensures Prorated(l, first, last, holidays) == AbsentIn(l, first, last, holidays)
  {
    ProratedIsShare(l, first, last, holidays);
    OverlapAtMostTotal(l, first, last, holidays);
    var total := WorkDays(l.start, l.end, holidays);
    if total > 0 {
      UnitRate(total as real, l.days);
      assert DayValue(l) == 1.0;
    }
  }

  lemma UnitRate(t: real, d: real)
    requires t != 0.0 && t == d
    ensures d / t == 1.0
  {}

  // -------------------------------------------------------------- sums per employee

  datatype Line = Line(paid: real, unpaid: real, early: real, used: real, total: real)

  function Add(a: Line, b: Line): Line {
    Line(a.paid + b.paid, a.unpaid + b.unpaid, a.early + b.early, a.used + b.used, a.total + b.total)
  }

  function Zero(): Line { Line(0.0, 0.0, 0.0, 0.0, 0.0) }

  /** What one leave adds to each column. */
  function Contribution(l: Absence, days: real): Line {
    Line(if l.paid && !l.early then days else 0.0,
         if !l.paid && !l.early then days else 0.0,
         if l.early then days else 0.0,
         if !l.early then days else 0.0,
         days)
  }

  function Report(leaves: seq<Absence>, first: int, last: int, holidays: set<int>): Line {
    if leaves == [] then Zero()
    else Add(Report(leaves[1..], first, last, holidays),
             Contribution(leaves[0], Prorated(leaves[0], first, last, holidays)))
  }

  lemma {:induction false} ColumnsBalance(leaves: seq<Absence>, first: int, last: int, holidays: set<int>)
    ensures var r := Report(leaves, first, last, holidays);
            r.total == r.paid + r.unpaid + r.early && r.used == r.paid + r.unpaid
  {
    if leaves == [] {
    } else {
      ColumnsBalance(leaves[1..], first, last, holidays);
    }
  }

  /** The share of an approved leave is to its days as its missed days in the window are to all of
      them; an unapproved leave, or one without working days, has none. */
  lemma ShareInProportion(l: Absence, first: int, last: int, holidays: set<int>)
    requires l.start <= l.end && first <= last
    ensures var all := |MissedDays(l, l.start, l.end, holidays)|;
            var share := Prorated(l, first, last, holidays);
            if l.approved && all > 0
            then share * all as real == |MissedDays(l, first, last, holidays)| as real * l.days
            else share == 0.0
  {
    MissedDaysOverlap(l, l.start, l.end, holidays);
    MissedDaysOverlap(l, first, last, holidays);
    ProratedIsShare(l, first, last, holidays);
    var all := WorkDays(l.start, l.end, holidays);
    if l.approved && all > 0 {
      WholeRate(all as real, l.days);
    }
  }

  datatype Column = Paid | Unpaid | Early | Used | All

  predicate Counts(c: Column, l: Absence) {
    match c
    case Paid => l.paid && !l.early
    case Unpaid => !l.paid && !l.early
    case Early => l.early
    case Used => !l.early
    case All => true
  }

  function Entry(r: Line, c: Column): real {
    match c
    case Paid => r.paid
    case Unpaid => r.unpaid
    case Early => r.early
    case Used => r.used
    case All => r.total
  }

  /** The shares of the leaves that a column counts. */
  function ColumnTerms(c: Column, leaves: seq<Absence>, first: int, last: int, holidays: set<int>): seq<real> {
    seq(|leaves|, i requires 0 <= i < |leaves| =>
      if Counts(c, leaves[i]) then Prorated(leaves[i], first, last, holidays) else 0.0)
  }

  /** Every column is the sum of the shares of its kind of leaves. */
  lemma {:induction false} ColumnIsTotal(c: Column, leaves: seq<Absence>, first: int, last: int, holidays: set<int>)
    ensures Entry(Report(leaves, first, last, holidays), c) == Total(ColumnTerms(c, leaves, first, last, holidays))
  {
    if leaves == [] {
    } else {
      ColumnIsTotal(c, leaves[1..], first, last, holidays);
      assert ColumnTerms(c, leaves, first, last, holidays)[1..] == ColumnTerms(c, leaves[1..], first, last, holidays);
    }
  }

  /** Monthly reports added up over the months a to b, for month starts f. */
  function MonthlyReports(f: int -> int, leaves: seq<Absence>, a: int, b: int, holidays: set<int>): Line
    decreases b - a
  {
    if b < a then Zero()
    else Add(MonthlyReports(f, leaves, a, b - 1, holidays), Report(leaves, f(b), f(b + 1) - 1, holidays))
  }

  lemma AddExchanges(x: Line, y: Line, l: Absence, p: real, q: real)
    ensures Add(Add(x, Contribution(l, p)), Add(y, Contribution(l, q)))
            == Add(Add(x, y), Contribution(l, p + q))
  {}

  lemma {:induction false} MonthlyReportsSplit(f: int -> int, leaves: seq<Absence>, a: int, b: int, holidays: set<int>)
    requires leaves != []
    ensures MonthlyReports(f, leaves, a, b, holidays)
            == Add(MonthlyReports(f, leaves[1..], a, b, holidays),
                   Contribution(leaves[0], MonthlyProrated(f, leaves[0], a, b, holidays)))
    decreases b - a
  {
    if b < a {
    } else {
      MonthlyReportsSplit(f, leaves, a, b - 1, holidays);
      AddExchanges(MonthlyReports(f, leaves[1..], a, b - 1, holidays),
                   Report(leaves[1..], f(b), f(b + 1) - 1, holidays), leaves[0],
                   MonthlyProrated(f, leaves[0], a, b - 1, holidays),
                   Prorated(leaves[0], f(b), f(b + 1) - 1, holidays));
    }
  }

  lemma {:induction false} MonthlyReportsEmpty(f: int -> int, a: int, b: int, holidays: set<int>)
    ensures MonthlyReports(f, [], a, b, holidays) == Zero()
    decreases b - a
  {
    if b < a {
    } else {
      MonthlyReportsEmpty(f, a, b - 1, holidays);
    }
  }

  /** In every leave column the report of a range is the sum of its monthly reports. */
  lemma {:induction false} RangeReportIsSum(f: int -> int, leaves: seq<Absence>, a: int, b: int, holidays: set<int>)
    requires forall m :: Grows(f, m)
    requires a <= b && forall l :: l in leaves ==> l.start <= l.end
    ensures Report(leaves, f(a), f(b + 1) - 1, holidays) == MonthlyReports(f, leaves, a, b, holidays)
  {
    if leaves == [] {
      MonthlyReportsEmpty(f, a, b, holidays);
    } else {
      RangeReportIsSum(f, leaves[1..], a, b, holidays);
      RangeIsSumOfMonths(f, leaves[0], a, b, holidays);
      MonthlyReportsSplit(f, leaves, a, b, holidays);
    }
  }

  // ----------------------------------------------------------------- accrual window

  /** The year and month condition of the accrual summary. */
  predicate AccrualSelected(y: int, m: int, y1: int, m1: int, y2: int, m2: int) {
    || (y > y1 && y < y2)
    || (y == y1 && m >= m1 && (y < y2 || m <= m2))
    || (y == y2 && m <= m2 && (y > y1 || m >= m1))
  }

  /** For a range in order it selects exactly the months from the first to the last. */
  lemma AccrualWindow(y: int, m: int, y1: int, m1: int, y2: int, m2: int)
    requires 1 <= m <= 12 && 1 <= m1 <= 12 && 1 <= m2 <= 12
    requires 12 * y1 + m1 <= 12 * y2 + m2
    ensures AccrualSelected(y, m, y1, m1, y2, m2)
            <==> 12 * y1 + m1 <= 12 * y + m <= 12 * y2 + m2
  {}

  /** Days credited to an employee in the months a to b, as the summary selects them; month i is
      month i % 12 + 1 of year i / 12. */
  function Accrued(journal: seq<Books.Credit>, emp: nat, a: int, b: int): real {
    if journal == [] then 0.0
    else
      var c := journal[|journal| - 1];
      Accrued(journal[..|journal| - 1], emp, a, b) +
      if c.key.emp == emp && AccrualSelected(c.key.year, c.month, a / 12, a % 12 + 1, b / 12, b % 12 + 1)
      then c.days else 0.0
  }

  function MonthlyAccrued(journal: seq<Books.Credit>, emp: nat, a: int, b: int): real
    decreases b - a
  {
    if b < a then 0.0 else MonthlyAccrued(journal, emp, a, b - 1) + Accrued(journal, emp, b, b)
  }

  /** The three-way condition on months counted through. */
  lemma SelectedMonths(y: int, m: int, a: int, b: int)
    requires 1 <= m <= 12 && a <= b
    ensures AccrualSelected(y, m, a / 12, a % 12 + 1, b / 12, b % 12 + 1) <==> a <= 12 * y + m - 1 <= b
  {
    AccrualWindow(y, m, a / 12, a % 12 + 1, b / 12, b % 12 + 1);
  }

  lemma {:induction false} AccruedSplits(journal: seq<Books.Credit>, emp: nat, a: int, b: int)
    requires a < b && forall c :: c in journal ==> 1 <= c.month <= 12
    ensures Accrued(journal, emp, a, b) == Accrued(journal, emp, a, b - 1) + Accrued(journal, emp, b, b)
  {
    if journal == [] {
    } else {
      var c := journal[|journal| - 1];
      AccruedSplits(journal[..|journal| - 1], emp, a, b);
      assert c in journal;
      SelectedMonths(c.key.year, c.month, a, b);
      SelectedMonths(c.key.year, c.month, a, b - 1);
      SelectedMonths(c.key.year, c.month, b, b);
    }
  }

  /** The credits of the employee in the months a to b, counted through. */
  function CreditTerms(journal: seq<Books.Credit>, emp: nat, a: int, b: int): seq<real> {
    seq(|journal|, i requires 0 <= i < |journal| =>
      var c := journal[i];
      if c.key.emp == emp && a <= 12 * c.key.year + c.month - 1 <= b then c.days else 0.0)
  }

  lemma {:induction false} AccruedIsTotal(journal: seq<Books.Credit>, emp: nat, a: int, b: int)
    requires a <= b && forall c :: c in journal ==> 1 <= c.month <= 12
    ensures Accrued(journal, emp, a, b) == Total(CreditTerms(journal, emp, a, b))
  {
    if journal == [] {
    } else {
      var n, xs := |journal| - 1, CreditTerms(journal, emp, a, b);
      AccruedIsTotal(journal[..n], emp, a, b);
      assert journal[n] in journal;
      SelectedMonths(journal[n].key.year, journal[n].month, a, b);
      TotalGrows(xs, n);
      assert xs[..n] == CreditTerms(journal[..n], emp, a, b) && xs[..n + 1] == xs;
    }
  }

  /** The accrued column of a range is the sum of its months. */
  lemma {:induction false} AccruedRangeIsSum(journal: seq<Books.Credit>, emp: nat, a: int, b: int)
    requires a <= b && forall c :: c in journal ==> 1 <= c.month <= 12
    ensures Accrued(journal, emp, a, b) == MonthlyAccrued(journal, emp, a, b)
    decreases b - a
  {
    if a == b {
      assert MonthlyAccrued(journal, emp, a, b - 1) == 0.0;
    } else {
      AccruedSplits(journal, emp, a, b);
      AccruedRangeIsSum(journal, emp, a, b - 1);
    }
  }
}

/**
 * Dates are day numbers of the proleptic Gregorian calendar (day 1 is Monday,
 * 1 January of year 1); a month is numbered 12 * year + (0..11).  The working-day
 * loop of the original is proved to count a set of days, and the count is additive.
 */
module Calendar {
  import opened Basics

  // ------------------------------------------------------------- months and years

  predicate Leap(y: int) {
    y % 4 == 0 && (y % 100 != 0 || y % 400 == 0)
  }

  function DaysBeforeYear(y: int): int {
    365 * (y - 1) + (y - 1) / 4 - (y - 1) / 100 + (y - 1) / 400
  }

  const DAYS_BEFORE_MONTH: seq<int> := [0, 31, 59, 90, 120, 151, 181, 212, 243, 273, 304, 334]

  /** First day of the k-th month of a year, from 0. */
  function StartIn(y: int, k: nat): int
    requires k < 12
  {
    DaysBeforeYear(y) + DAYS_BEFORE_MONTH[k] + (if k >= 2 && Leap(y) then 1 else 0) + 1
  }

  function MonthStart(m: int): int {
    StartIn(m / 12, m % 12)
  }

  function MonthEnd(m: int): int {
    MonthStart(m + 1) - 1
  }

  lemma FourthYear(y: int)
    ensures y / 4 - (y - 1) / 4 == if y % 4 == 0 then 1 else 0
  {
    var q, r := y / 4, y % 4;
    if r == 0 {
      assert y - 1 == 4 * (q - 1) + 3;
    } else {
      assert y - 1 == 4 * q + (r - 1);
    }
  }

  lemma HundredthYear(y: int)
    ensures y / 100 - (y - 1) / 100 == if y % 100 == 0 then 1 else 0
  {
    var q, r := y / 100, y % 100;
    if r == 0 {
      assert y - 1 == 100 * (q - 1) + 99;
    } else {
      assert y - 1 == 100 * q + (r - 1);
    }
  }

  lemma FourHundredthYear(y: int)
    ensures y / 400 - (y - 1) / 400 == if y % 400 == 0 then 1 else 0
  {
    var q, r := y / 400, y % 400;
    if r == 0 {
      assert y - 1 == 400 * (q - 1) + 399;
    } else {
      assert y - 1 == 400 * q + (r - 1);
    }
  }

  lemma LeapRule(y: int)
    ensures y % 100 == 0 ==> y % 4 == 0
    ensures y % 400 == 0 ==> y % 100 == 0
  {
    if y % 100 == 0 { assert y == 4 * (25 * (y / 100)); }
    if y % 400 == 0 { assert y == 100 * (4 * (y / 400)); }
  }

  lemma YearLength(y: int)
    ensures DaysBeforeYear(y + 1) == DaysBeforeYear(y) + 365 + (if Leap(y) then 1 else 0)
  {
    FourthYear(y);
    HundredthYear(y);
    FourHundredthYear(y);
    LeapRule(y);
  }

  /** April, June, September and November have 30 days, February 28 or, in a leap year, 29, and all
      others 31. */
  function DaysIn(y: int, number: int): int {
    if number == 4 || number == 6 || number == 9 || number == 11 then 30
    else if number != 2 then 31
    else if y % 400 == 0 || (y % 4 == 0 && y % 100 != 0) then 29 else 28
  }

  lemma GapsInYear(k: nat, leap: int)
    requires k < 11
    ensures (DAYS_BEFORE_MONTH[k + 1] + if k + 1 >= 2 then leap else 0)
            - (DAYS_BEFORE_MONTH[k] + if k >= 2 then leap else 0)
            == if k == 3 || k == 5 || k == 8 || k == 10 then 30 else if k != 1 then 31 else 28 + leap
  {}

  lemma LengthInYear(y: int, k: nat)
    requires k < 11
    ensures StartIn(y, k + 1) - StartIn(y, k) == DaysIn(y, k + 1)
  {
    GapsInYear(k, if Leap(y) then 1 else 0);
  }

  lemma DecemberLength(y: int)
    ensures StartIn(y + 1, 0) - StartIn(y, 11) == DaysIn(y, 12)
  {
    YearLength(y);
  }

  lemma NextMonth(m: int)
    ensures (m + 1) / 12 == (if m % 12 == 11 then m / 12 + 1 else m / 12)
    ensures (m + 1) % 12 == (if m % 12 == 11 then 0 else m % 12 + 1)
  {}

  /** Months have the lengths of the calendar, and day 1 starts year 1: this determines them all. */
  lemma MonthLength(m: int)
    ensures MonthStart(m + 1) - MonthStart(m) == DaysIn(m / 12, m % 12 + 1)
    ensures MonthStart(12) == 1
  {
    NextMonth(m);
    if m % 12 == 11 {
      DecemberLength(m / 12);
    } else {
      LengthInYear(m / 12, m % 12);
    }
    assert MonthStart(12) == StartIn(1, 0);
  }

  /** A calendar's month starts, seen as any function that grows by at least one. */
  ghost predicate Grows(f: int -> int, m: int) {
    f(m) < f(m + 1)
  }

  lemma MonthsGrow()
    ensures forall m :: Grows(MonthStart, m)
  {
    forall m ensures Grows(MonthStart, m) {
      MonthLength(m);
    }
  }

  lemma {:induction false} StartsIncrease(f: int -> int, a: int, b: int)
    requires forall m :: Grows(f, m)
    requires a < b
    ensures f(a) < f(b)
    decreases b - a
  {
    assert Grows(f, b - 1);
    if a == b - 1 {
    } else {
      StartsIncrease(f, a, b - 1);
    }
  }

  /** The month m of f holds day d. */
  predicate Holds(f: int -> int, m: int, d: int) {
    f(m) <= d < f(m + 1)
  }

  /** The month of a day for the month starts f, looked for from month m. */
  function Seek(f: int -> int, d: int, m: int): int
    requires forall k :: Grows(f, k)
    decreases if f(m) <= d < f(m + 1) then 0 else if d < f(m) then f(m) - d else d - f(m)
  {
    assert Grows(f, m) && Grows(f, m - 1);
    if d < f(m) then Seek(f, d, m - 1)
    else if d >= f(m + 1) then Seek(f, d, m + 1)
    else m
  }

  lemma {:induction false} SeekFinds(f: int -> int, d: int, m: int)
    requires forall k :: Grows(f, k)
    ensures Holds(f, Seek(f, d, m), d)
    decreases if f(m) <= d < f(m + 1) then 0 else if d < f(m) then f(m) - d else d - f(m)
  {
    assert Grows(f, m) && Grows(f, m - 1);
    if d < f(m) {
      SeekFinds(f, d, m - 1);
    } else if d >= f(m + 1) {
      SeekFinds(f, d, m + 1);
    }
  }

  lemma SeekUnique(f: int -> int, d: int, m: int)
    requires forall k :: Grows(f, k)
    requires Holds(f, m, d)
    ensures Seek(f, d, 0) == m
  {
    var r := Seek(f, d, 0);
    SeekFinds(f, d, 0);
    if r < m && r + 1 < m { StartsIncrease(f, r + 1, m); }
    if m < r && m + 1 < r { StartsIncrease(f, m + 1, r); }
  }

  function MonthOf(d: int): int {
    MonthsGrow();
    Seek(MonthStart, d, 0)
  }

  lemma MonthOfHolds(d: int)
    ensures Holds(MonthStart, MonthOf(d), d)
  {
    MonthsGrow();
    SeekFinds(MonthStart, d, 0);
  }

  lemma MonthOfUnique(d: int, m: int)
    ensures MonthOf(d) == m <==> Holds(MonthStart, m, d)
  {
    MonthOfHolds(d);
    MonthsGrow();
    if Holds(MonthStart, m, d) { SeekUnique(MonthStart, d, m); }
  }

  function YearOf(d: int): int {
    MonthOf(d) / 12
  }

  /** 1 to 12. */
  function MonthNumber(d: int): (n: int)
    ensures 1 <= n <= 12
  {
    MonthOf(d) % 12 + 1
  }

  // ------------------------------------------------------------------ working days

  /** Saturday or Sunday. */
  predicate Weekend(d: int) {
    d % 7 == 6 || d % 7 == 0
  }

  /** From Monday, 3 January 2000, every week has five days and a weekend. */
  lemma Weeks(w: int, k: nat)
    requires k < 7
    ensures Weekend(MonthStart(12 * 2000) + 2 + 7 * w + k) <==> k >= 5
  {
    assert MonthStart(24000) == 730120;
  }

  predicate WorkingDay(d: int, holidays: set<int>) {
    !Weekend(d) && d !in holidays
  }

  /** Number of working days from a to b, both included. */
  function WorkDays(a: int, b: int, holidays: set<int>): nat
    decreases b - a
  {
    if b < a then 0
    else WorkDays(a, b - 1, holidays) + if WorkingDay(b, holidays) then 1 else 0
  }

  /** The count is the size of the set of working days in the range. */
  lemma {:induction false} WorkDaysCounts(a: int, b: int, holidays: set<int>)
    ensures WorkDays(a, b, holidays) == |set d | a <= d <= b && WorkingDay(d, holidays)|
    decreases b - a
  {
    var days := set d | a <= d <= b && WorkingDay(d, holidays);
    if b < a {
      assert days == {};
    } else {
      WorkDaysCounts(a, b - 1, holidays);
      var before := set d | a <= d <= b - 1 && WorkingDay(d, holidays);
      assert days == if WorkingDay(b, holidays) then before + {b} else before;
    }
  }

  /** Splitting a range after day c splits its working days. */
  lemma {:induction false} WorkDaysSplit(a: int, c: int, b: int, holidays: set<int>)
    requires a <= c + 1 && c <= b
    ensures WorkDays(a, b, holidays) == WorkDays(a, c, holidays) + WorkDays(c + 1, b, holidays)
    decreases b - c
  {
    if c == b {
    } else {
      WorkDaysSplit(a, c, b - 1, holidays);
    }
  }

  /** The holidays that the query between two dates returns. */
  function HolidaysBetween(a: int, b: int, holidays: set<int>): set<int> {
    set d | d in holidays && a <= d <= b
  }

  lemma {:induction false} WorkDaysLocal(a: int, b: int, lo: int, hi: int, holidays: set<int>)
    requires lo <= a && b <= hi
    ensures WorkDays(a, b, HolidaysBetween(lo, hi, holidays)) == WorkDays(a, b, holidays)
    decreases b - a
  {
    if b < a {
    } else {
      WorkDaysLocal(a, b - 1, lo, hi, holidays);
    }
  }

  /** The day loop; None when the range is the wrong way round. */
  method CalculateWorkingDays(start: int, end: int, holidays: set<int>) returns (days: Option<real>)
    ensures days.None? <==> end < start
    ensures days.Some? ==> days.value == WorkDays(start, end, holidays) as real
  {
    if end < start {
      return None;
    }
    var holidayMap := HolidaysBetween(start, end, holidays);
    var workingDays := 0;
    var d := start;
    while d <= end
      invariant start <= d <= end + 1
      invariant workingDays == WorkDays(start, d - 1, holidayMap)
    {
      if d % 7 == 6 || d % 7 == 0 {
        d := d + 1;
        continue;
      }
      if d in holidayMap {
        d := d + 1;
        continue;
      }
      workingDays := workingDays + 1;
      d := d + 1;
    }
    WorkDaysLocal(start, end, start, end, holidays);
    days := Some(workingDays as real);
  }

  /** 1 and 2 are the half days, 3 the full day. */
  function TimingFactor(timingId: int): Option<real> {
    if timingId == 1 || timingId == 2 then Some(0.5)
    else if timingId == 3 then Some(1.0)
    else None
  }

  /** The days a request is worth; a clock time for leaving early overrides the half days. */
  function RequestDays(start: int, end: int, holidays: set<int>, timingId: int, clock: bool): Option<real> {
    if end < start then None
    else if clock then Some(WorkDays(start, end, holidays) as real)
    else if TimingFactor(timingId).None? then None
    else Some(WorkDays(start, end, holidays) as real * TimingFactor(timingId).value)
  }

  method CalculateWorkingDaysWithTiming(start: int, end: int, holidays: set<int>, timingId: int, clock: bool)
    returns (days: Option<real>)
    ensures days == RequestDays(start, end, holidays, timingId, clock)
  {
    var base := CalculateWorkingDays(start, end, holidays);
    if base.None? {
      return None;
    }
    if clock {
      return base;
    }
    match timingId {
      case 1 => return Some(base.value * 0.5);
      case 2 => return Some(base.value * 0.5);
      case 3 => return base;
      case _ => return None;
    }
  }
}

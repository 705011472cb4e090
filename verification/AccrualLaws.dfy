/**
 * What the accrual job credits: which rows, how many days, and what its counters
 * count, over single jobs and over any sequence of them.
 */
module AccrualLaws {
  import opened Books
  import opened Accrual

  // ------------------------------------------------------------- what is credited

  /** An active employee and a paid type that is not early. */
  predicate Accrues(b: Books, emp: nat, typ: nat) {
    && emp < |b.staff| && b.staff[emp].active
    && typ < |b.types| && b.types[typ].paid && !b.types[typ].early
  }

  /** A day a month for interns, a day and a half for everybody else. */
  function MonthlyDays(b: Books, emp: nat): real
    requires emp < |b.staff|
  {
    if b.staff[emp].role.Intern? then 1.0 else 1.5
  }

  predicate IsCredited(b: Books, k: Key, month: int) {
    exists c :: c in b.credits && c.key == k && c.month == month
  }

  function AccruedOn(b: Books, k: Key): real {
    if k in b.rows then b.rows[k].accrued else 0.0
  }

  lemma CreditedEither(b: Books, k: Key, month: int)
    ensures AlreadyCredited(b, k, month) <==> IsCredited(b, k, month)
  {
    if AlreadyCredited(b, k, month) {
      var i :| 0 <= i < |b.credits| && b.credits[i].key == k && b.credits[i].month == month;
      assert b.credits[i] in b.credits;
    }
  }

  /** A credit as the job writes it for this month. */
  predicate WellCredited(b: Books, c: Credit, month: int, year: int) {
    && c.month == month && c.key.year == year
    && Accrues(b, c.key.emp, c.key.typ) && c.days == MonthlyDays(b, c.key.emp)
  }

  /** The credits of after that b does not have. */
  predicate NewCreditsAre(b: Books, after: Books, month: int, year: int) {
    && b.credits <= after.credits
    && forall i :: |b.credits| <= i < |after.credits| ==> WellCredited(b, after.credits[i], month, year)
  }

  lemma VisitCredits(j: Job, p: Pair, month: int, year: int, fault: Fault)
    requires Accruable(j.books, p.emp, p.typ)
    ensures var after := Visit(j, p, month, year, fault).books;
            && SameOffice(j.books, after) && NewCreditsAre(j.books, after, month, year)
            && forall k :: AccruedOn(after, k) == AccruedOn(j.books, k)
                 + if k == Key(p.emp, p.typ, year) && fault.NoFault? && !IsCredited(j.books, k, month)
                   then MonthlyDays(j.books, p.emp) else 0.0
  {
    CreditedEither(j.books, Key(p.emp, p.typ, year), month);
  }

  lemma CreditsChain(a: Books, b: Books, c: Books, month: int, year: int)
    requires SameOffice(a, b) && NewCreditsAre(a, b, month, year) && NewCreditsAre(b, c, month, year)
    ensures NewCreditsAre(a, c, month, year)
  {
    forall i | |a.credits| <= i < |c.credits| ensures WellCredited(a, c.credits[i], month, year) {
      assert i < |b.credits| ==> WellCredited(a, b.credits[i], month, year);
      assert i >= |b.credits| ==> WellCredited(b, c.credits[i], month, year);
    }
  }

  lemma {:induction false} VisitsCreditDays(j: Job, pairs: seq<Pair>, month: int, year: int, faults: Pair -> Fault)
    requires forall p :: p in pairs ==> Accruable(j.books, p.emp, p.typ)
    ensures NewCreditsAre(j.books, Visits(j, pairs, month, year, faults).books, month, year)
  {
    if pairs == [] {
    } else {
      var rest, p := pairs[..|pairs| - 1], pairs[|pairs| - 1];
      var before := Visits(j, rest, month, year, faults);
      VisitsCreditDays(j, rest, month, year, faults);
      VisitsKeepOffice(j, rest, month, year, faults);
      assert p in pairs;
      VisitCredits(before, p, month, year, faults(p));
      CreditsChain(j.books, before.books, Visits(j, pairs, month, year, faults).books, month, year);
    }
  }

  lemma {:induction false} VisitsAccrue(j: Job, pairs: seq<Pair>, month: int, year: int, faults: Pair -> Fault, k: Key)
    requires forall p :: p in pairs ==> Accruable(j.books, p.emp, p.typ)
    ensures Visited(pairs, k, year, faults) ==> k.emp < |j.books.staff|
    ensures AccruedOn(Visits(j, pairs, month, year, faults).books, k) == AccruedOn(j.books, k)
              + if Visited(pairs, k, year, faults) && !IsCredited(j.books, k, month)
                then MonthlyDays(j.books, k.emp) else 0.0
  {
    if pairs == [] {
    } else {
      var rest, p := pairs[..|pairs| - 1], pairs[|pairs| - 1];
      var before := Visits(j, rest, month, year, faults);
      VisitsAccrue(j, rest, month, year, faults, k);
      VisitsKeepOffice(j, rest, month, year, faults);
      VisitsCredit(j, rest, month, year, faults, k, month);
      CreditedEither(j.books, k, month);
      CreditedEither(before.books, k, month);
      VisitCredits(before, p, month, year, faults(p));
      VisitedGrows(pairs, k, year, faults);
    }
  }

  /** The credits of a job: who, for which month, and how much. */
  lemma JobCreditsDays(b: Books, month: int, year: int, f: Faults)
    ensures NewCreditsAre(b, RunJob(b, month, year, f).books, month, year)
  {
    AllPairsAccruable(b);
    VisitsCreditDays(Job(b, 0, 0, 0), AllPairs(b), month, year, f.at);
  }

  /** The job reaches the pair of the row. */
  predicate Reaches(b: Books, k: Key, year: int, f: Faults) {
    k.year == year && Accrues(b, k.emp, k.typ) && Fetched(f) && f.at(Pair(k.emp, k.typ)).NoFault?
  }

  /** A job adds the monthly days to the rows that it reaches and that have no credit for the month
      yet, and to no other. */
  lemma JobAccrues(b: Books, month: int, year: int, f: Faults, k: Key)
    ensures AccruedOn(RunJob(b, month, year, f).books, k) == AccruedOn(b, k)
              + if Reaches(b, k, year, f) && !IsCredited(b, k, month) then MonthlyDays(b, k.emp) else 0.0
    ensures IsCredited(RunJob(b, month, year, f).books, k, month) <==> IsCredited(b, k, month) || Reaches(b, k, year, f)
  {
    AllPairsAccruable(b);
    VisitsAccrue(Job(b, 0, 0, 0), AllPairs(b), month, year, f.at, k);
    assert Pair(k.emp, k.typ) in AllPairs(b) <==> Accruable(b, k.emp, k.typ);
    JobCredits(b, month, year, f, k, month);
    CreditedEither(b, k, month);
    CreditedEither(RunJob(b, month, year, f).books, k, month);
  }

  /** Jobs of one year for different months, none of which fails. */
  predicate AllRun(runs: seq<Trigger>, year: int, k: Key) {
    && (forall i :: 0 <= i < |runs| ==> runs[i].year == year && Fetched(runs[i].faults)
                                        && runs[i].faults.at(Pair(k.emp, k.typ)).NoFault?)
    && forall i, j :: 0 <= i < j < |runs| ==> runs[i].month != runs[j].month
  }

  lemma {:induction false} JobsKeepOffice(b: Books, runs: seq<Trigger>)
    ensures SameOffice(b, Jobs(b, runs))
  {
    if runs == [] {
    } else {
      var rest, last := runs[..|runs| - 1], runs[|runs| - 1];
      JobsKeepOffice(b, rest);
      VisitsKeepOffice(Job(Jobs(b, rest), 0, 0, 0), AllPairs(Jobs(b, rest)), last.month, last.year, last.faults.at);
    }
  }

  /** Some job of the list for the month reaches the pair of the row. */
  predicate ReachedIn(b: Books, runs: seq<Trigger>, k: Key, month: int) {
    exists i :: 0 <= i < |runs| && runs[i].month == month && Reaches(b, k, runs[i].year, runs[i].faults)
  }

  lemma ReachedInGrows(b: Books, runs: seq<Trigger>, k: Key, month: int)
    requires runs != []
    ensures var rest, last := runs[..|runs| - 1], runs[|runs| - 1];
            ReachedIn(b, runs, k, month)
            <==> ReachedIn(b, rest, k, month) || (last.month == month && Reaches(b, k, last.year, last.faults))
  {
    var rest := runs[..|runs| - 1];
    if i :| 0 <= i < |rest| && rest[i].month == month && Reaches(b, k, rest[i].year, rest[i].faults) {
      assert runs[i] == rest[i];
    }
  }

  /** Over any jobs, a month of a row is credited exactly if it was or some job for it reached it. */
  lemma {:induction false} JobsCredit(b: Books, runs: seq<Trigger>, k: Key, month: int)
    ensures IsCredited(Jobs(b, runs), k, month) <==> IsCredited(b, k, month) || ReachedIn(b, runs, k, month)
  {
    if runs == [] {
    } else {
      var rest, last := runs[..|runs| - 1], runs[|runs| - 1];
      var before := Jobs(b, rest);
      JobsCredit(b, rest, k, month);
      JobsKeepOffice(b, rest);
      ReachedInGrows(b, runs, k, month);
      JobCredits(before, last.month, last.year, last.faults, k, month);
      CreditedEither(before, k, month);
      CreditedEither(Jobs(b, runs), k, month);
    }
  }

  /** What n months of jobs come to for a row that had none of these months before: n days for an
      intern and three halves of that for anybody else. */
  lemma {:induction false} JobsAccrue(b: Books, runs: seq<Trigger>, k: Key)
    requires AllRun(runs, k.year, k) && Accrues(b, k.emp, k.typ)
    requires forall i :: 0 <= i < |runs| ==> !IsCredited(b, k, runs[i].month)
    ensures var n := |runs| as real;
            AccruedOn(Jobs(b, runs), k) - AccruedOn(b, k) == if b.staff[k.emp].role.Intern? then n else 3.0 * n / 2.0
  {
    if runs == [] {
    } else {
      var rest, last := runs[..|runs| - 1], runs[|runs| - 1];
      JobsAccrue(b, rest, k);
      JobsKeepOffice(b, rest);
      JobsCredit(b, rest, k, last.month);
      JobAccrues(Jobs(b, rest), last.month, last.year, last.faults, k);
    }
  }

  // -------------------------------------------------------------------- the counters

  /** A pair with a finished month, unless the check for it fails. */
  function Skipped(b: Books, month: int, year: int, faults: Pair -> Fault): Pair -> bool {
    (p: Pair) => !faults(p).BeginFails? && !faults(p).CheckFails? && IsCredited(b, Key(p.emp, p.typ, year), month)
  }

  function Gains(b: Books, month: int, year: int, faults: Pair -> Fault): Pair -> bool {
    (p: Pair) => faults(p).NoFault? && !IsCredited(b, Key(p.emp, p.typ, year), month)
  }

  function Chosen(all: set<Pair>, good: Pair -> bool): set<Pair> {
    set p | p in all && good(p)
  }

  predicate Unique<T(==)>(xs: seq<T>) {
    forall i, j :: 0 <= i < j < |xs| ==> xs[i] != xs[j]
  }

  function Elements(pairs: seq<Pair>): set<Pair> {
    set p | p in pairs
  }

  lemma ChosenGrow(pairs: seq<Pair>, good: Pair -> bool)
    requires pairs != [] && Unique(pairs)
    ensures var rest, p := pairs[..|pairs| - 1], pairs[|pairs| - 1];
            |Chosen(Elements(pairs), good)| == |Chosen(Elements(rest), good)| + if good(p) then 1 else 0
  {
    var rest, p := pairs[..|pairs| - 1], pairs[|pairs| - 1];
    assert pairs == rest + [p];
    assert p !in Elements(rest);
    assert Chosen(Elements(pairs), good)
           == if good(p) then Chosen(Elements(rest), good) + {p} else Chosen(Elements(rest), good);
  }

  lemma {:induction false} VisitsCounters(b: Books, pairs: seq<Pair>, month: int, year: int, faults: Pair -> Fault)
    requires Unique(pairs) && forall p :: p in pairs ==> Accruable(b, p.emp, p.typ)
    ensures var j := Visits(Job(b, 0, 0, 0), pairs, month, year, faults);
            && j.credited == |Chosen(Elements(pairs), Gains(b, month, year, faults))|
            && j.skipped == |Chosen(Elements(pairs), Skipped(b, month, year, faults))|
  {
    if pairs == [] {
      assert Elements(pairs) == {};
    } else {
      var rest, p := pairs[..|pairs| - 1], pairs[|pairs| - 1];
      VisitsCounters(b, rest, month, year, faults);
      VisitsCredit(Job(b, 0, 0, 0), rest, month, year, faults, Key(p.emp, p.typ, year), month);
      CreditedEither(b, Key(p.emp, p.typ, year), month);
      ChosenGrow(pairs, Gains(b, month, year, faults));
      ChosenGrow(pairs, Skipped(b, month, year, faults));
    }
  }

  lemma UniqueAppend<T>(xs: seq<T>, x: T)
    requires Unique(xs) && x !in xs
    ensures Unique(xs + [x])
  {}

  lemma {:induction false} StaffUnique(b: Books, n: nat)
    requires n <= |b.staff|
    ensures Unique(ActiveStaff(b, n))
  {
    if n == 0 {
    } else {
      StaffUnique(b, n - 1);
      UniqueAppend(ActiveStaff(b, n - 1), n - 1);
    }
  }

  lemma {:induction false} TypesUnique(b: Books, n: nat)
    requires n <= |b.types|
    ensures Unique(AccruableTypes(b, n))
  {
    if n == 0 {
    } else {
      TypesUnique(b, n - 1);
      UniqueAppend(AccruableTypes(b, n - 1), n - 1);
    }
  }

  lemma {:induction false} PairsUnique(staff: seq<nat>, types: seq<nat>)
    requires Unique(staff) && Unique(types)
    ensures Unique(Pairs(staff, types))
  {
    if staff == [] {
    } else {
      var rest, last := staff[..|staff| - 1], staff[|staff| - 1];
      PairsUnique(rest, types);
      PairsFacts(rest, types);
      assert last !in rest;
      forall i | 0 <= i < |Pairs(rest, types)| ensures Pairs(rest, types)[i].emp in rest {
        assert Pairs(rest, types)[i] in Pairs(rest, types);
      }
    }
  }

  /** The counters of a job that could fetch its lists: of all pairs of an active employee and a paid
      type that is not early, those that gained, those that were found finished, and the others. */
  lemma JobCounters(b: Books, month: int, year: int, f: Faults, all: set<Pair>)
    requires Fetched(f) && forall p :: p in all <==> Accrues(b, p.emp, p.typ)
    ensures var j := RunJob(b, month, year, f);
            && j.credited == |Chosen(all, Gains(b, month, year, f.at))|
            && j.skipped == |Chosen(all, Skipped(b, month, year, f.at))|
            && j.credited + j.skipped + j.failed == |all|
  {
    AllPairsAccruable(b);
    StaffUnique(b, |b.staff|);
    TypesUnique(b, |b.types|);
    PairsUnique(ActiveStaff(b, |b.staff|), AccruableTypes(b, |b.types|));
    VisitsCounters(b, AllPairs(b), month, year, f.at);
    VisitsCount(Job(b, 0, 0, 0), AllPairs(b), month, year, f.at);
    forall p ensures p in all <==> p in AllPairs(b) {
      assert Accruable(b, p.emp, p.typ) <==> Accrues(b, p.emp, p.typ);
    }
    assert all == Elements(AllPairs(b));
    ElementsCount(AllPairs(b));
  }

  lemma {:induction false} ElementsCount(pairs: seq<Pair>)
    requires Unique(pairs)
    ensures |Elements(pairs)| == |pairs|
  {
    if pairs == [] {
      assert Elements(pairs) == {};
    } else {
      var rest, p := pairs[..|pairs| - 1], pairs[|pairs| - 1];
      ElementsCount(rest);
      assert pairs == rest + [p] && p !in Elements(rest);
      assert Elements(pairs) == Elements(rest) + {p};
    }
  }
}

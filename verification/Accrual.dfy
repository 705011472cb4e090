/**
 * The monthly accrual job: one transaction per active employee and accruable
 * type, any of which may fail without stopping the others.
 */
module Accrual {
  import opened Books
  import opened BooksLaws

  /** What the database does to the transaction of one pair. */
  datatype Fault = NoFault | BeginFails | CheckFails | CreditFails | CommitFails

  /** What fails in a run of the job: a query it starts with, or transactions of pairs. */
  datatype Faults = Faults(types: bool, staff: bool, at: Pair -> Fault)

  datatype Pair = Pair(emp: nat, typ: nat)

  datatype Job = Job(books: Books, credited: nat, skipped: nat, failed: nat)

  // ------------------------------------------------------------------- the queries

  function ActiveStaff(b: Books, n: nat): (ids: seq<nat>)
    requires n <= |b.staff|
    ensures forall e: nat :: e in ids <==> e < n && b.staff[e].active
  {
    if n == 0 then [] else ActiveStaff(b, n - 1) + if b.staff[n - 1].active then [n - 1] else []
  }

  function AccruableTypes(b: Books, n: nat): (ids: seq<nat>)
    requires n <= |b.types|
    ensures forall t: nat :: t in ids <==> t < n && b.types[t].paid && !b.types[t].early
  {
    if n == 0 then []
    else AccruableTypes(b, n - 1) + if b.types[n - 1].paid && !b.types[n - 1].early then [n - 1] else []
  }

  function Row(e: nat, types: seq<nat>): (pairs: seq<Pair>)
    ensures |pairs| == |types|
  {
    seq(|types|, j requires 0 <= j < |types| => Pair(e, types[j]))
  }

  /** The pairs in the order of the two loops. */
  function Pairs(staff: seq<nat>, types: seq<nat>): seq<Pair> {
    if staff == [] then [] else Pairs(staff[..|staff| - 1], types) + Row(staff[|staff| - 1], types)
  }

  function AllPairs(b: Books): seq<Pair> {
    Pairs(ActiveStaff(b, |b.staff|), AccruableTypes(b, |b.types|))
  }

  lemma {:induction false} PairsFacts(staff: seq<nat>, types: seq<nat>)
    ensures |Pairs(staff, types)| == |staff| * |types|
    ensures forall p :: p in Pairs(staff, types) <==> p.emp in staff && p.typ in types
  {
    if staff == [] {
    } else {
      var rest, last := staff[..|staff| - 1], staff[|staff| - 1];
      PairsFacts(rest, types);
      assert |staff| * |types| == |rest| * |types| + |types|;
      forall p ensures p in Row(last, types) <==> p.emp == last && p.typ in types {
        if p.emp == last && p.typ in types {
          var j :| 0 <= j < |types| && types[j] == p.typ;
          assert Row(last, types)[j] == p;
        }
      }
      assert staff == rest + [last];
    }
  }

  /** The job visits exactly the accruable pairs. */
  lemma AllPairsAccruable(b: Books)
    ensures forall p :: p in AllPairs(b) <==> Accruable(b, p.emp, p.typ)
    ensures |AllPairs(b)| == |ActiveStaff(b, |b.staff|)| * |AccruableTypes(b, |b.types|)|
  {
    PairsFacts(ActiveStaff(b, |b.staff|), AccruableTypes(b, |b.types|));
  }

  // ----------------------------------------------------------------------- the job

  /** One pair: a check that fails loses the pair before a finished month is noticed. */
  function Visit(j: Job, p: Pair, month: int, year: int, fault: Fault): Job {
    if fault.BeginFails? || fault.CheckFails? then j.(failed := j.failed + 1)
    else if AlreadyCredited(j.books, Key(p.emp, p.typ, year), month) then j.(skipped := j.skipped + 1)
    else if fault.CreditFails? || fault.CommitFails? then j.(failed := j.failed + 1)
    else j.(books := AccrueOp(j.books, p.emp, p.typ, month, year), credited := j.credited + 1)
  }

  function Visits(j: Job, pairs: seq<Pair>, month: int, year: int, faults: Pair -> Fault): Job {
    if pairs == [] then j
    else
      var last := pairs[|pairs| - 1];
      Visit(Visits(j, pairs[..|pairs| - 1], month, year, faults), last, month, year, faults(last))
  }

  predicate Fetched(f: Faults) {
    !f.types && !f.staff
  }

  /** A run that cannot fetch the types or the employees ends with all counters at zero. */
  function RunJob(b: Books, month: int, year: int, f: Faults): Job {
    if Fetched(f) then Visits(Job(b, 0, 0, 0), AllPairs(b), month, year, f.at) else Job(b, 0, 0, 0)
  }

  /** What a job leaves alone, and the journal it only extends. */
  predicate SameOffice(b: Books, after: Books) {
    after == b.(rows := after.rows, credits := after.credits) && b.credits <= after.credits
  }

  lemma {:induction false} VisitsKeepOffice(j: Job, pairs: seq<Pair>, month: int, year: int, faults: Pair -> Fault)
    ensures SameOffice(j.books, Visits(j, pairs, month, year, faults).books)
  {
    if pairs == [] {
    } else {
      VisitsKeepOffice(j, pairs[..|pairs| - 1], month, year, faults);
    }
  }

  /** One more pair. */
  lemma VisitsGrow(b: Books, done: seq<Pair>, p: Pair, month: int, year: int, faults: Pair -> Fault)
    ensures var j := Visits(Job(b, 0, 0, 0), done, month, year, faults);
            && Visits(Job(b, 0, 0, 0), done + [p], month, year, faults) == Visit(j, p, month, year, faults(p))
            && (Accruable(j.books, p.emp, p.typ) <==> Accruable(b, p.emp, p.typ))
  {}

  lemma RowGrows(e: nat, types: seq<nat>, j: nat)
    requires j < |types|
    ensures Row(e, types[..j + 1]) == Row(e, types[..j]) + [Pair(e, types[j])]
  {}

  lemma PairsGrow(staff: seq<nat>, types: seq<nat>, i: nat)
    requires i < |staff|
    ensures Pairs(staff[..i + 1], types) == Pairs(staff[..i], types) + Row(staff[i], types)
  {
    assert staff[..i + 1][..i] == staff[..i];
  }

  /** The counters share out the pairs, and count the new entries of the journal. */
  lemma {:induction false} VisitsCount(j: Job, pairs: seq<Pair>, month: int, year: int, faults: Pair -> Fault)
    requires forall p :: p in pairs ==> Accruable(j.books, p.emp, p.typ)
    ensures var after := Visits(j, pairs, month, year, faults);
            && after.credited + after.skipped + after.failed == j.credited + j.skipped + j.failed + |pairs|
            && |after.books.credits| == |j.books.credits| + after.credited - j.credited
  {
    if pairs == [] {
    } else {
      VisitsCount(j, pairs[..|pairs| - 1], month, year, faults);
      VisitsKeepOffice(j, pairs[..|pairs| - 1], month, year, faults);
    }
  }

  lemma {:induction false} VisitsKeep(j: Job, pairs: seq<Pair>, month: int, year: int, faults: Pair -> Fault)
    requires BooksOk(j.books)
    ensures BooksOk(Visits(j, pairs, month, year, faults).books)
  {
    if pairs == [] {
    } else {
      var before := Visits(j, pairs[..|pairs| - 1], month, year, faults);
      VisitsKeep(j, pairs[..|pairs| - 1], month, year, faults);
      AccrueKeeps(before.books, pairs[|pairs| - 1].emp, pairs[|pairs| - 1].typ, month, year);
    }
  }

  predicate Visited(pairs: seq<Pair>, k: Key, year: int, faults: Pair -> Fault) {
    k.year == year && exists i :: 0 <= i < |pairs| && pairs[i] == Pair(k.emp, k.typ) && faults(pairs[i]).NoFault?
  }

  lemma AccrueCredits(b: Books, p: Pair, month: int, year: int, k: Key, m: int)
    requires Accruable(b, p.emp, p.typ)
    ensures AlreadyCredited(AccrueOp(b, p.emp, p.typ, month, year), k, m)
            <==> AlreadyCredited(b, k, m) || (k == Key(p.emp, p.typ, year) && m == month)
  {
    var after := AccrueOp(b, p.emp, p.typ, month, year);
    if AlreadyCredited(b, k, m) {
      var i :| 0 <= i < |b.credits| && b.credits[i].key == k && b.credits[i].month == m;
      assert after.credits[i] == b.credits[i];
    }
    if !AlreadyCredited(b, Key(p.emp, p.typ, year), month) {
      assert after.credits[|b.credits|].month == month;
    }
  }

  lemma VisitedGrows(pairs: seq<Pair>, k: Key, year: int, faults: Pair -> Fault)
    requires pairs != []
    ensures var rest, p := pairs[..|pairs| - 1], pairs[|pairs| - 1];
            Visited(pairs, k, year, faults)
            <==> Visited(rest, k, year, faults) || (k == Key(p.emp, p.typ, year) && faults(p).NoFault?)
  {
    var rest, p := pairs[..|pairs| - 1], pairs[|pairs| - 1];
    if Visited(rest, k, year, faults) {
      var i :| 0 <= i < |rest| && rest[i] == Pair(k.emp, k.typ) && faults(rest[i]).NoFault?;
      assert pairs[i] == rest[i];
    }
    if k == Key(p.emp, p.typ, year) && faults(p).NoFault? {
      assert pairs[|pairs| - 1] == Pair(k.emp, k.typ);
    }
  }

  /** A month of a pair is credited after a job exactly when it was before, or the job
      visited the pair in that month without a fault. */
  lemma {:induction false} VisitsCredit(j: Job, pairs: seq<Pair>, month: int, year: int, faults: Pair -> Fault,
                                        k: Key, m: int)
    requires forall p :: p in pairs ==> Accruable(j.books, p.emp, p.typ)
    ensures AlreadyCredited(Visits(j, pairs, month, year, faults).books, k, m)
            <==> AlreadyCredited(j.books, k, m) || (m == month && Visited(pairs, k, year, faults))
  {
    if pairs == [] {
    } else {
      var rest, p := pairs[..|pairs| - 1], pairs[|pairs| - 1];
      var before := Visits(j, rest, month, year, faults);
      VisitsCredit(j, rest, month, year, faults, k, m);
      VisitsKeepOffice(j, rest, month, year, faults);
      AccrueCredits(before.books, p, month, year, k, m);
      VisitedGrows(pairs, k, year, faults);
    }
  }

  /** Pairs that are all credited already: nothing changes and nothing is counted as credited. */
  lemma {:induction false} VisitsIdle(j: Job, pairs: seq<Pair>, month: int, year: int, faults: Pair -> Fault)
    requires forall p :: p in pairs ==> AlreadyCredited(j.books, Key(p.emp, p.typ, year), month)
    ensures var after := Visits(j, pairs, month, year, faults);
            after.books == j.books && after.credited == j.credited
  {
    if pairs == [] {
    } else {
      VisitsIdle(j, pairs[..|pairs| - 1], month, year, faults);
      assert pairs[|pairs| - 1] in pairs;
    }
  }

  // -------------------------------------------------------------------------- laws

  /** Whatever fails, the counters sum to employees times types, or to zero if these could not be
      fetched; the journal grows by what was credited, and the books stay in order: in particular
      nothing is credited twice. */
  lemma JobAccounts(b: Books, month: int, year: int, f: Faults)
    requires BooksOk(b)
    ensures var j := RunJob(b, month, year, f);
            && j.credited + j.skipped + j.failed
               == (if Fetched(f) then |ActiveStaff(b, |b.staff|)| * |AccruableTypes(b, |b.types|)| else 0)
            && |j.books.credits| == |b.credits| + j.credited
            && BooksOk(j.books) && SameOffice(b, j.books)
            && (!Fetched(f) ==> j.books == b)
  {
    AllPairsAccruable(b);
    VisitsCount(Job(b, 0, 0, 0), AllPairs(b), month, year, f.at);
    VisitsKeep(Job(b, 0, 0, 0), AllPairs(b), month, year, f.at);
    VisitsKeepOffice(Job(b, 0, 0, 0), AllPairs(b), month, year, f.at);
  }

  /** Which months are credited after a job. */
  lemma JobCredits(b: Books, month: int, year: int, f: Faults, k: Key, m: int)
    ensures AlreadyCredited(RunJob(b, month, year, f).books, k, m)
            <==> || AlreadyCredited(b, k, m)
                 || (m == month && k.year == year && Accruable(b, k.emp, k.typ)
                     && Fetched(f) && f.at(Pair(k.emp, k.typ)).NoFault?)
  {
    AllPairsAccruable(b);
    VisitsCredit(Job(b, 0, 0, 0), AllPairs(b), month, year, f.at, k, m);
    assert Pair(k.emp, k.typ) in AllPairs(b) <==> Accruable(b, k.emp, k.typ);
  }

  /** After a run without faults, running the month again credits nothing, whatever fails then. */
  lemma RepeatIsIdle(b: Books, month: int, year: int, first: Faults, again: Faults)
    requires Fetched(first) && forall p :: first.at(p).NoFault?
    ensures var after := RunJob(b, month, year, first).books;
            var j := RunJob(after, month, year, again);
            j.books == after && j.credited == 0
  {
    var after := RunJob(b, month, year, first).books;
    VisitsKeepOffice(Job(b, 0, 0, 0), AllPairs(b), month, year, first.at);
    assert after.staff == b.staff && after.types == b.types;
    AllPairsAccruable(after);
    forall p | p in AllPairs(after) ensures AlreadyCredited(after, Key(p.emp, p.typ, year), month) {
      JobCredits(b, month, year, first, Key(p.emp, p.typ, year), month);
      assert Accruable(b, p.emp, p.typ);
    }
    VisitsIdle(Job(after, 0, 0, 0), AllPairs(after), month, year, again.at);
  }

  datatype Trigger = Trigger(month: int, year: int, faults: Faults)

  function Jobs(b: Books, runs: seq<Trigger>): Books {
    if runs == [] then b
    else
      var last := runs[|runs| - 1];
      RunJob(Jobs(b, runs[..|runs| - 1]), last.month, last.year, last.faults).books
  }

  /** Any sequence of runs, of any months, with any faults: no month of a pair is credited
      twice, and accrued is what the journal says. */
  lemma {:induction false} JobsCreditOnce(b: Books, runs: seq<Trigger>)
    requires BooksOk(b)
    ensures CreditsUnique(Jobs(b, runs).credits)
    ensures BooksOk(Jobs(b, runs))
  {
    if runs == [] {
    } else {
      var last := runs[|runs| - 1];
      JobsCreditOnce(b, runs[..|runs| - 1]);
      JobAccounts(Jobs(b, runs[..|runs| - 1]), last.month, last.year, last.faults);
    }
  }

  /** Without employees or types there is nothing to visit. */
  lemma NothingToVisit(b: Books, month: int, year: int, f: Faults)
    requires ActiveStaff(b, |b.staff|) == [] || AccruableTypes(b, |b.types|) == []
    ensures RunJob(b, month, year, f) == Job(b, 0, 0, 0)
  {
    AllPairsAccruable(b);
    assert AllPairs(b) == [];
  }
}

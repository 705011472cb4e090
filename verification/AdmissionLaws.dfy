/**
 * Which leave requests are accepted and what they come to, told on the tables
 * alone: every condition in terms of days, rows and leaves.
 */
module AdmissionLaws {
  import opened Basics
  import opened Books
  import opened BooksLaws
  import opened Calendar
  import opened LeaveRecord
  import opened LeaveSystem
  import opened LedgerLaws
  import opened Totals
  import opened WorkflowLaws
  import Flow = ApprovalFlow
  import Log = ApprovalLog

  // -------------------------------------------------------------------------- sums

  /** What the employee still has of each type: nothing of unpaid and early ones. */
  function PaidClosings(b: Books, emp: nat): seq<real> {
    seq(|b.types|, t requires 0 <= t < |b.types| =>
      if b.types[t].paid && !b.types[t].early && Key(emp, t, b.year) in b.rows
      then b.rows[Key(emp, t, b.year)].closing else 0.0)
  }

  lemma {:induction false} PaidBalanceIsTotal(b: Books, emp: nat, n: nat)
    requires n <= |b.types|
    ensures PaidBalance(b, emp, n) == Total(PaidClosings(b, emp)[..n])
  {
    if n == 0 {
    } else {
      PaidBalanceIsTotal(b, emp, n - 1);
      TotalGrows(PaidClosings(b, emp), n - 1);
    }
  }

  /** The days of each pending leave of the employee that starts this year; of one type or, with
      none given, of the paid ones that are not early.  The leave at skip does not count. */
  function PendingTerm(s: State, emp: nat, typ: Option<nat>, skip: Option<nat>, i: nat): real
    requires i < |s.leaves|
  {
    var l := s.leaves[i];
    if l.emp == emp && l.status.Pending? && YearOf(l.start) == s.books.year && Some(i) != skip
       && (if typ.Some? then l.typ == typ.value
           else l.typ < |s.books.types| && s.books.types[l.typ].paid && !s.books.types[l.typ].early)
    then l.days else 0.0
  }

  function PendingTerms(s: State, emp: nat, typ: Option<nat>, skip: Option<nat>): seq<real> {
    seq(|s.leaves|, i requires 0 <= i < |s.leaves| => PendingTerm(s, emp, typ, skip, i))
  }

  lemma {:induction false} WeighIsTotal(leaves: seq<Leave>, w: Leave -> real, xs: seq<real>)
    requires |xs| == |leaves| && forall i :: 0 <= i < |xs| ==> xs[i] == w(leaves[i])
    ensures Weigh(leaves, w) == Total(xs)
  {
    if leaves == [] {
    } else {
      var n := |leaves| - 1;
      WeighIsTotal(leaves[..n], w, xs[..n]);
      TotalGrows(xs, n);
      assert xs[..n + 1] == xs;
    }
  }

  lemma TermsWithout(s: State, emp: nat, typ: nat, skip: Option<nat>)
    ensures var xs := PendingTerms(s, emp, Some(typ), None);
            PendingTerms(s, emp, Some(typ), skip)
            == if skip.Some? && skip.value < |s.leaves| then xs[skip.value := 0.0] else xs
  {
    var xs, ys := PendingTerms(s, emp, Some(typ), None), PendingTerms(s, emp, Some(typ), skip);
    forall i | 0 <= i < |s.leaves| ensures ys[i] == if skip == Some(i) then 0.0 else xs[i] {
      assert ys[i] == PendingTerm(s, emp, Some(typ), skip, i);
    }
  }

  lemma PendingDaysAreTotal(s: State, emp: nat, typ: nat, skip: Option<nat>)
    ensures PendingDays(s, emp, typ, skip) == Total(PendingTerms(s, emp, Some(typ), skip))
  {
    var w, xs := PendingWeight(emp, typ, s.books.year), PendingTerms(s, emp, Some(typ), None);
    WeighIsTotal(s.leaves, w, xs);
    if skip.Some? && skip.value < |s.leaves| {
      WeighWithout(s.leaves, skip.value, w);
      TotalUpdate(xs, skip.value, 0.0);
    }
    TermsWithout(s, emp, typ, skip);
  }

  /** An employee may take unpaid leave only with no paid balance left and no paid request waiting. */
  ghost predicate NothingPaidLeft(s: State, emp: nat) {
    && Total(PaidClosings(s.books, emp)) <= 0.0
    && forall i :: 0 <= i < |s.leaves| ==> !PaidRequestWaits(s, emp, s.leaves[i])
  }

  predicate PaidRequestWaits(s: State, emp: nat, l: Leave) {
    && l.emp == emp && l.status.Pending? && YearOf(l.start) == s.books.year
    && l.typ < |s.books.types| && s.books.types[l.typ].paid && !s.books.types[l.typ].early
  }

  lemma UnpaidExactly(s: State, emp: nat, typ: nat)
    requires LeavesOk(s) && typ < |s.books.types|
    ensures UnpaidAllowed(s, emp, typ)
            <==> (!s.books.types[typ].paid && !s.books.types[typ].early ==> NothingPaidLeft(s, emp))
  {
    var xs := PendingTerms(s, emp, None, None);
    PaidBalanceIsTotal(s.books, emp, |s.books.types|);
    assert PaidClosings(s.books, emp)[..|s.books.types|] == PaidClosings(s.books, emp);
    WeighIsTotal(s.leaves, PaidPendingWeight(s.books, emp), xs);
    forall i | 0 <= i < |xs|
      ensures xs[i] >= 0.0 && (xs[i] == 0.0 <==> !PaidRequestWaits(s, emp, s.leaves[i]))
    {
      assert LeaveOk(s, s.leaves[i], s.posted[i]);
    }
    TotalSign(xs);
  }

  // --------------------------------------------------------------------- admission

  /** The days that the request is worth: its working days, halved for half a day; leaving early
      and a clock time count whole. */
  function BookedDays(s: State, req: Request): real
    requires req.typ < |s.books.types|
  {
    var workingDays := set d | req.start <= d <= req.end && !Weekend(d) && d !in s.holidays;
    var half := (req.timing == Some(1) || req.timing == Some(2)) && req.clock.None? && !s.books.types[req.typ].early;
    |workingDays| as real * if half then 0.5 else 1.0
  }

  predicate SameMonth(a: int, b: int) {
    MonthOf(a) == MonthOf(b)
  }

  predicate On(d: int, start: int, end: int) {
    start <= d <= end
  }

  ghost predicate SharesDay(l: Leave, start: int, end: int) {
    exists d :: On(d, l.start, l.end) && On(d, start, end)
  }

  /** The fields of a request as such: known timing, a clock time from 10:00 to 19:00, a known type,
      dates in order with a working day among them. */
  predicate WellFormed(s: State, req: Request) {
    && (req.timing.Some? ==> req.timing.value == 1 || req.timing.value == 2 || req.timing.value == 3)
    && (req.clock.Some? ==> 10 * 60 <= req.clock.value <= 19 * 60)
    && req.typ < |s.books.types|
    && exists d :: req.start <= d <= req.end && !Weekend(d) && d !in s.holidays
  }

  /** For what is not early there must be balance beside what is pending; an edit may count on the
      days it had, whatever type they were of. */
  predicate BalanceCovers(s: State, emp: nat, req: Request, skip: Option<nat>)
    requires req.typ < |s.books.types|
  {
    var k := Key(emp, req.typ, s.books.year);
    var had := if skip.Some? && skip.value < |s.leaves| then s.leaves[skip.value].days else 0.0;
    Total(PendingTerms(s, emp, Some(req.typ), skip)) + BookedDays(s, req)
    <= had + if k in s.books.rows then s.books.rows[k].closing else 0.0
  }

  ghost predicate Admissible(s: State, emp: nat, req: Request, skip: Option<nat>) {
    && WellFormed(s, req)
    && var t := s.books.types[req.typ];
    && (!t.paid && !t.early ==> NothingPaidLeft(s, emp))
    && (!t.early ==> BalanceCovers(s, emp, req, skip))
    && (t.early ==> forall i :: 0 <= i < |s.leaves| && s.leaves[i].emp == emp && s.leaves[i].typ == req.typ
                                && (s.leaves[i].status.Pending? || s.leaves[i].status.Approved?)
                      ==> !SameMonth(s.leaves[i].start, req.start))
    && forall i :: 0 <= i < |s.leaves| && Some(i) != skip && s.leaves[i].emp == emp
                   && (s.leaves[i].status.Pending? || s.leaves[i].status.Approved?)
         ==> !SharesDay(s.leaves[i], req.start, req.end)
  }

  lemma DaysAreBooked(s: State, req: Request)
    ensures RequestedDays(s, req).Some? && RequestedDays(s, req).value > 0.0 <==> WellFormed(s, req)
    ensures WellFormed(s, req) ==> RequestedDays(s, req) == Some(BookedDays(s, req))
  {
    var workingDays := set d | req.start <= d <= req.end && !Weekend(d) && d !in s.holidays;
    WorkDaysCounts(req.start, req.end, s.holidays);
    assert workingDays == set d | req.start <= d <= req.end && WorkingDay(d, s.holidays);
    if d :| req.start <= d <= req.end && !Weekend(d) && d !in s.holidays {
      assert d in workingDays;
      assert |workingDays| >= 1;
    } else {
      assert workingDays == {};
    }
  }

  lemma OverlapIsSharedDay(l: Leave, start: int, end: int)
    requires l.start <= l.end && start <= end
    ensures Overlaps(l, start, end) <==> SharesDay(l, start, end)
  {
    if Overlaps(l, start, end) {
      var d := if l.start < start then start else l.start;
      assert On(d, l.start, l.end) && On(d, start, end);
    }
  }

  lemma DatesFreeExactly(s: State, emp: nat, start: int, end: int, skip: Option<nat>)
    requires LeavesOk(s) && start <= end
    ensures DatesFree(s, emp, start, end, skip)
            <==> forall i :: 0 <= i < |s.leaves| && Some(i) != skip && s.leaves[i].emp == emp
                             && (s.leaves[i].status.Pending? || s.leaves[i].status.Approved?)
                   ==> !SharesDay(s.leaves[i], start, end)
  {
    forall i | 0 <= i < |s.leaves|
      ensures Overlaps(s.leaves[i], start, end) <==> SharesDay(s.leaves[i], start, end)
    {
      assert LeaveOk(s, s.leaves[i], s.posted[i]);
      OverlapIsSharedDay(s.leaves[i], start, end);
    }
  }

  /** A request is accepted exactly if it is admissible, and for the days it books. */
  lemma AdmittedExactly(s: State, emp: nat, req: Request, skip: Option<nat>)
    requires LeavesOk(s)
    ensures Validated(s, emp, req, skip).Some? <==> Admissible(s, emp, req, skip)
    ensures Admissible(s, emp, req, skip) ==> Validated(s, emp, req, skip) == Some(BookedDays(s, req))
  {
    DaysAreBooked(s, req);
    if WellFormed(s, req) {
      UnpaidExactly(s, emp, req.typ);
      PendingDaysAreTotal(s, emp, req.typ, skip);
      DatesFreeExactly(s, emp, req.start, req.end, skip);
    }
  }

  // --------------------------------------------------------------- accepted requests

  /** The log holds, unstamped and waiting, exactly the stages whose role outranks the applicant. */
  ghost predicate Drawn(log: seq<Log.Stage>, stages: seq<Flow.FlowStage>, role: Role) {
    && (forall n, r :: Log.Stage(n, r, Log.Waiting, None) in log
                       <==> Flow.FlowStage(n, r) in stages && Level(r) > Level(role))
    && (forall e :: e in log ==> e.state.Waiting? && e.stamp.None?)
  }

  /** The stages configured for a type; none if it has no flow. */
  function StagesFor(b: Books, typ: nat): seq<Flow.FlowStage>
    requires FlowsOk(b) && typ < |b.types|
  {
    if b.types[typ].flow.Some? then b.flows[b.types[typ].flow.value] else []
  }

  lemma LogIsDrawn(b: Books, typ: nat, role: Role)
    requires FlowsOk(b) && typ < |b.types|
    ensures Drawn(GeneratedLog(b, typ, role), StagesFor(b, typ), role)
  {
    forall n, r
      ensures Log.Stage(n, r, Log.Waiting, None) in GeneratedLog(b, typ, role)
              <==> Flow.FlowStage(n, r) in StagesFor(b, typ) && Level(r) > Level(role)
    {
      Flow.GenerateSelects(StagesFor(b, typ), Level(role), n, r);
    }
    Flow.GenerateSelects(StagesFor(b, typ), Level(role), 0, role);
  }

  /** What a leave asks for. */
  predicate Asks(l: Leave, emp: nat, req: Request, days: real) {
    l.emp == emp && l.typ == req.typ && l.start == req.start && l.end == req.end && l.days == days
  }

  predicate SomeoneDecides(stages: seq<Flow.FlowStage>, role: Role) {
    exists i :: 0 <= i < |stages| && Level(stages[i].role) > Level(role)
  }

  /** A new request of an employee is taken exactly if it is admissible; it is then the last leave,
      pending, with the log that the flow of its type gives for the applicant. */
  lemma AppliedExactly(s: State, emp: nat, role: Role, req: Request)
    requires SystemOk(s)
    ensures var s' := Step(s, Apply(emp, role, req));
            if emp < |s.books.staff| && Admissible(s, emp, req, None) then
              && |s'.leaves| == |s.leaves| + 1
              && s' == s.(leaves := s.leaves + [s'.leaves[|s.leaves|]], posted := s.posted + [[]])
              && var l := s'.leaves[|s.leaves|];
              && Asks(l, emp, req, BookedDays(s, req))
              && l.status.Pending? && l.approvedBy.None?
              && var stages := StagesFor(s.books, req.typ);
              && (l.flow.Some? <==> SomeoneDecides(stages, role))
              && (l.flow.Some? ==> Drawn(l.flow.value, stages, role))
            else s' == s
  {
    AdmittedExactly(s, emp, req, None);
    if emp < |s.books.staff| && Admissible(s, emp, req, None) {
      LogIsDrawn(s.books, req.typ, role);
      DrawnIsEmpty(GeneratedLog(s.books, req.typ, role), StagesFor(s.books, req.typ), role);
    }
  }

  lemma DrawnIsEmpty(log: seq<Log.Stage>, stages: seq<Flow.FlowStage>, role: Role)
    requires Drawn(log, stages, role)
    ensures log != [] <==> SomeoneDecides(stages, role)
  {
    if log != [] {
      var e := log[0];
      assert e in log;
      assert e == Log.Stage(e.stageNo, e.role, Log.Waiting, None);
      var i :| 0 <= i < |stages| && stages[i] == Flow.FlowStage(e.stageNo, e.role);
      assert Level(stages[i].role) > Level(role);
    }
    if SomeoneDecides(stages, role) {
      var i :| 0 <= i < |stages| && Level(stages[i].role) > Level(role);
      assert stages[i] == Flow.FlowStage(stages[i].stageNo, stages[i].role);
      assert Log.Stage(stages[i].stageNo, stages[i].role, Log.Waiting, None) in log;
    }
  }

  /** An edit is taken exactly from the applicant, while the leave is pending, and if it is
      admissible; the log is then drawn anew for an EMPLOYEE, unless that leaves nobody to decide. */
  lemma EditedExactly(s: State, emp: nat, id: nat, req: Request)
    requires SystemOk(s)
    ensures var s' := Step(s, Edit(emp, id, req));
            if id < |s.leaves| && s.leaves[id].emp == emp && s.leaves[id].status.Pending?
               && Admissible(s, emp, req, Some(id)) then
              && |s'.leaves| == |s.leaves|
              && s' == s.(leaves := s.leaves[id := s'.leaves[id]])
              && var was, l := s.leaves[id], s'.leaves[id];
              && Asks(l, emp, req, BookedDays(s, req))
              && l.status.Pending? && l.approvedBy == was.approvedBy
              && var stages := StagesFor(s.books, req.typ);
              if was.flow.Some? && SomeoneDecides(stages, Role.Employee)
              then l.flow.Some? && Drawn(l.flow.value, stages, Role.Employee)
              else l.flow == was.flow
            else s' == s
  {
    AdmittedExactly(s, emp, req, Some(id));
    if Editable(s, emp, id) && Admissible(s, emp, req, Some(id)) {
      LogIsDrawn(s.books, req.typ, Role.Employee);
      DrawnIsEmpty(GeneratedLog(s.books, req.typ, Role.Employee), StagesFor(s.books, req.typ), Role.Employee);
    }
  }
}

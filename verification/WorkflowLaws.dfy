/**
 * Laws of the workflow over all runs: every leave stays consistent with its log
 * and its postings, and active leaves of an employee stay disjoint.
 */
module WorkflowLaws {
  import opened Basics
  import opened Books
  import opened BooksLaws
  import opened Calendar
  import opened LeaveRecord
  import opened LeaveSystem
  import Flow = ApprovalFlow
  import Log = ApprovalLog
  import Frontier = LogFrontier

  // ------------------------------------------------------------------ invariants

  /** A leave as stored: real references, dates in order, positive days, a log that fits its
      status, and exactly the postings that its shape implies. */
  ghost predicate LeaveOk(s: State, l: Leave, posted: seq<Posting>) {
    && l.emp < |s.books.staff| && l.typ < |s.books.types|
    && l.start <= l.end && l.days > 0.0
    && Consistent(l)
    && posted == Postings(l, IsEarly(s.books, l.typ))
  }

  ghost predicate LeavesOk(s: State) {
    && |s.posted| == |s.leaves|
    && forall i :: 0 <= i < |s.leaves| ==> LeaveOk(s, s.leaves[i], s.posted[i])
  }

  predicate Apart(a: Leave, b: Leave) {
    a.emp == b.emp && Active(a) && Active(b) ==> a.end < b.start || b.end < a.start
  }

  /** Pending and approved leaves of one employee never share a day. */
  predicate Disjoint(leaves: seq<Leave>) {
    forall i, j :: 0 <= i < j < |leaves| ==> Apart(leaves[i], leaves[j])
  }

  predicate MonthsDiffer(b: Books, x: Leave, y: Leave) {
    (x.emp == y.emp && x.typ == y.typ && IsEarly(b, x.typ) && Active(x) && Active(y))
    ==> MonthOf(x.start) != MonthOf(y.start)
  }

  /** At most one active leave per employee, early type and month. */
  predicate EarlyOnce(s: State) {
    forall i, j :: 0 <= i < j < |s.leaves| ==> MonthsDiffer(s.books, s.leaves[i], s.leaves[j])
  }

  ghost predicate SystemOk(s: State) {
    BooksOk(s.books) && LeavesOk(s) && Disjoint(s.leaves) && EarlyOnce(s)
  }

  // -------------------------------------------------------------------- new leaves

  /** Stored flows are valid, so a generated log is well formed and starts out pending. */
  lemma GeneratedLogOk(b: Books, typ: nat, role: Role)
    requires FlowsOk(b)
    ensures var log := GeneratedLog(b, typ, role);
            log != [] ==> Frontier.WellFormed(log) && PendingLog(log)
  {
    var flow := FlowOf(b, typ);
    var log := GeneratedLog(b, typ, role);
    if log != [] {
      assert Flow.ValidFlow(flow.value);
      Flow.GenerateUnique(flow.value, Level(role));
      Flow.GenerateSelects(flow.value, Level(role), 0, role);
      forall i | 0 <= i < |log| ensures log[i].stageNo > 0 && log[i].state.Waiting? {
        assert log[i] in log;
      }
      FreshLogIsPending(log);
    }
  }

  /** A validated request has its dates in order and a positive number of days. */
  lemma ValidatedFacts(s: State, emp: nat, req: Request, skip: Option<nat>)
    requires Validated(s, emp, req, skip).Some?
    ensures req.start <= req.end && req.typ < |s.books.types| && Validated(s, emp, req, skip).value > 0.0
    ensures DatesFree(s, emp, req.start, req.end, skip)
    ensures IsEarly(s.books, req.typ) ==> EarlyLimitAllows(s, emp, req.typ, req.start)
    ensures !IsEarly(s.books, req.typ)
            ==> BalanceAllows(s, emp, req.typ, Validated(s, emp, req, skip).value, skip)
  {}

  lemma ApplyKeepsLeaves(s: State, emp: nat, role: Role, req: Request)
    requires BooksOk(s.books) && LeavesOk(s)
    ensures LeavesOk(ApplyStep(s, emp, role, req))
  {
    if emp < |s.books.staff| && Validated(s, emp, req, None).Some? {
      ValidatedFacts(s, emp, req, None);
      GeneratedLogOk(s.books, req.typ, role);
      var s' := ApplyStep(s, emp, role, req);
      forall i | 0 <= i < |s'.leaves| ensures LeaveOk(s', s'.leaves[i], s'.posted[i]) {
        if i < |s.leaves| {
          assert LeaveOk(s, s.leaves[i], s.posted[i]);
        }
      }
    }
  }

  lemma EditedOk(s: State, id: nat, req: Request, days: real)
    requires BooksOk(s.books) && LeavesOk(s) && id < |s.leaves| && s.leaves[id].status.Pending?
    requires req.start <= req.end && req.typ < |s.books.types| && days > 0.0
    ensures LeaveOk(s, Edited(s, id, req, days), s.posted[id])
  {
    assert LeaveOk(s, s.leaves[id], s.posted[id]);
    GeneratedLogOk(s.books, req.typ, Role.Employee);
  }

  lemma EditKeepsLeaves(s: State, emp: nat, id: nat, req: Request)
    requires BooksOk(s.books) && LeavesOk(s)
    ensures LeavesOk(EditStep(s, emp, id, req))
  {
    if Editable(s, emp, id) && Validated(s, emp, req, Some(id)).Some? {
      ValidatedFacts(s, emp, req, Some(id));
      EditedOk(s, id, req, Validated(s, emp, req, Some(id)).value);
      var s' := EditStep(s, emp, id, req);
      forall i | 0 <= i < |s'.leaves| ensures LeaveOk(s', s'.leaves[i], s'.posted[i]) {
        assert LeaveOk(s, s.leaves[i], s.posted[i]);
      }
    }
  }

  lemma PostKeepsTables(b: Books, posted: seq<Posting>)
    ensures var b' := Post(b, posted);
            b'.staff == b.staff && b'.types == b.types && b'.year == b.year && b'.rows.Keys == b.rows.Keys
  {}

  lemma ProcessKeepsLeaves(s: State, id: nat, action: Action, role: Role, stamp: Log.Stamp)
    requires LeavesOk(s)
    ensures LeavesOk(ProcessStep(s, id, action, role, stamp))
  {
    var r := Outcome(s, id, action, role, stamp);
    if id < |s.leaves| && r.Done? {
      assert LeaveOk(s, s.leaves[id], s.posted[id]);
      ActPosts(s.leaves[id], IsEarly(s.books, s.leaves[id].typ), action, role, stamp);
      PostKeepsTables(s.books, r.posted);
      var s' := ProcessStep(s, id, action, role, stamp);
      forall i | 0 <= i < |s'.leaves| ensures LeaveOk(s', s'.leaves[i], s'.posted[i]) {
        assert LeaveOk(s, s.leaves[i], s.posted[i]);
      }
    }
  }

  lemma CancelKeepsLeaves(s: State, id: nat)
    requires LeavesOk(s)
    ensures LeavesOk(CancelStep(s, id))
  {}

  lemma OfficeKeepsLeaves(s: State, op: Op)
    requires BooksOk(s.books) && LeavesOk(s) && EarlyOnce(s)
    ensures LeavesOk(OfficeStep(s, op)) && EarlyOnce(OfficeStep(s, op))
  {
    PerformKeepsUsed(s.books, op);
    KeptEarlyFlags(s, OfficeStep(s, op));
  }

  lemma KeptEarlyFlags(s: State, s': State)
    requires LeavesOk(s) && EarlyOnce(s)
    requires s'.leaves == s.leaves && s'.posted == s.posted && UsedKept(s.books, s'.books)
    ensures LeavesOk(s') && EarlyOnce(s')
  {}

  // ---------------------------------------------------------------------- disjointness

  /** Replacing a leave by one that asks for the same and is active only if it was. */
  lemma ReplaceKeepsApart(s: State, i: nat, l: Leave, books: Books)
    requires Disjoint(s.leaves) && EarlyOnce(s) && i < |s.leaves|
    requires SameRequest(s.leaves[i], l) && (Active(l) ==> Active(s.leaves[i]))
    requires books.types == s.books.types
    ensures Disjoint(s.leaves[i := l])
    ensures EarlyOnce(s.(leaves := s.leaves[i := l], books := books))
  {}

  lemma ApplyKeepsApart(s: State, emp: nat, role: Role, req: Request)
    requires LeavesOk(s) && Disjoint(s.leaves) && EarlyOnce(s)
    ensures var s' := ApplyStep(s, emp, role, req); Disjoint(s'.leaves) && EarlyOnce(s')
  {}

  lemma EditKeepsApart(s: State, emp: nat, id: nat, req: Request)
    requires LeavesOk(s) && Disjoint(s.leaves) && EarlyOnce(s)
    ensures var s' := EditStep(s, emp, id, req); Disjoint(s'.leaves) && EarlyOnce(s')
  {
    if Editable(s, emp, id) && Validated(s, emp, req, Some(id)).Some? {
      ValidatedFacts(s, emp, req, Some(id));
      var l := Edited(s, id, req, Validated(s, emp, req, Some(id)).value);
      forall a | 0 <= a < |s.leaves| && a != id
        ensures Apart(s.leaves[a], l) && Apart(l, s.leaves[a])
        ensures MonthsDiffer(s.books, s.leaves[a], l) && MonthsDiffer(s.books, l, s.leaves[a])
      {}
      var leaves := s.leaves[id := l];
      forall a, b | 0 <= a < b < |leaves|
        ensures Apart(leaves[a], leaves[b]) && MonthsDiffer(s.books, leaves[a], leaves[b])
      {
        assert Apart(s.leaves[a], s.leaves[b]) && MonthsDiffer(s.books, s.leaves[a], s.leaves[b]);
      }
    }
  }

  lemma ProcessKeepsApart(s: State, id: nat, action: Action, role: Role, stamp: Log.Stamp)
    requires LeavesOk(s) && Disjoint(s.leaves) && EarlyOnce(s)
    ensures var s' := ProcessStep(s, id, action, role, stamp); Disjoint(s'.leaves) && EarlyOnce(s')
  {
    var r := Outcome(s, id, action, role, stamp);
    if id < |s.leaves| && r.Done? {
      assert LeaveOk(s, s.leaves[id], s.posted[id]);
      ActPosts(s.leaves[id], IsEarly(s.books, s.leaves[id].typ), action, role, stamp);
      ActAges(s.leaves[id], IsEarly(s.books, s.leaves[id].typ), action, role, stamp);
      PostKeepsTables(s.books, r.posted);
      ReplaceKeepsApart(s, id, r.leave, Post(s.books, r.posted));
    }
  }

  lemma CancelKeepsApart(s: State, id: nat)
    requires LeavesOk(s) && Disjoint(s.leaves) && EarlyOnce(s)
    ensures var s' := CancelStep(s, id); Disjoint(s'.leaves) && EarlyOnce(s')
  {}

  // ------------------------------------------------------------------------ all runs

  lemma PostKeeps(b: Books, posted: seq<Posting>)
    requires BooksOk(b)
    ensures BooksOk(Post(b, posted))
  {
    if posted != [] {
      match posted[0]
      case Debit(emp, typ, days) => StatementsKeep(b, emp, typ, days);
      case Refund(emp, typ, days) => StatementsKeep(b, emp, typ, days);
    }
  }

  lemma StepKeeps(s: State, e: Event)
    requires SystemOk(s)
    ensures SystemOk(Step(s, e))
  {
    match e
    case Apply(emp, role, req) =>
      ApplyKeepsLeaves(s, emp, role, req);
      ApplyKeepsApart(s, emp, role, req);
    case Edit(emp, id, req) =>
      EditKeepsLeaves(s, emp, id, req);
      EditKeepsApart(s, emp, id, req);
    case Process(id, action, role, stamp) =>
      ProcessKeepsLeaves(s, id, action, role, stamp);
      ProcessKeepsApart(s, id, action, role, stamp);
      var r := Outcome(s, id, action, role, stamp);
      if r.Done? { PostKeeps(s.books, r.posted); }
    case CancelLeave(id) =>
      CancelKeepsLeaves(s, id);
      CancelKeepsApart(s, id);
    case Office(op) =>
      OfficeKeepsLeaves(s, op);
      PerformKeeps(s.books, op);
  }

  /** Whatever requests arrive in whatever order, the system keeps its invariant. */
  lemma {:induction false} RunKeeps(year: int, holidays: set<int>, events: seq<Event>)
    ensures SystemOk(Run(Start(year, holidays), events))
  {
    if events == [] {
      OpenedOk(year);
    } else {
      RunKeeps(year, holidays, events[..|events| - 1]);
      StepKeeps(Run(Start(year, holidays), events[..|events| - 1]), events[|events| - 1]);
    }
  }
}

/**
 * When the balance of a leave moves, over all runs: a debit at most once, a refund
 * at most once and after it, and the exact histories in which a leave stays charged.
 */
module ChargeLaws {
  import opened Basics
  import opened Books
  import opened BooksLaws
  import opened LeaveRecord
  import opened LeaveSystem
  import opened WorkflowLaws
  import Log = ApprovalLog

  /** The statements of a leave, over every run: none; a debit; or a debit and its refund, both
      with the days and in the bucket that the leave still has.  Early leaves issue none. */
  lemma PostedOnce(year: int, holidays: set<int>, events: seq<Event>, id: nat)
    requires id < |Run(Start(year, holidays), events).leaves|
    ensures var s := Run(Start(year, holidays), events);
            var l := s.leaves[id];
            var debit, refund := Debit(l.emp, l.typ, l.days), Refund(l.emp, l.typ, l.days);
            && id < |s.posted|
            && (s.posted[id] == [] || s.posted[id] == [debit] || s.posted[id] == [debit, refund])
            && (IsEarly(s.books, l.typ) ==> s.posted[id] == [])
            && (!IsEarly(s.books, l.typ) ==> (s.posted[id] == [debit] <==> Charged(l)))
            && (!IsEarly(s.books, l.typ) && l.status.Withdrawn? ==> s.posted[id] == [debit, refund])
            && (l.status.Pending? ==> s.posted[id] == [])
  {
    RunKeeps(year, holidays, events);
    var s := Run(Start(year, holidays), events);
    assert LeaveOk(s, s.leaves[id], s.posted[id]);
    if s.leaves[id].status.Withdrawn? {
      assert ReleasedLog(s.leaves[id].flow.value);
    }
  }

  /** What an action posts by the status it leads to. */
  function Due(l: Leave, early: bool, status: Status): seq<Posting> {
    if early then []
    else if status.Approved? && !l.status.Approved? then [Debit(l.emp, l.typ, l.days)]
    else if status.Withdrawn? && !l.status.Withdrawn? then [Refund(l.emp, l.typ, l.days)]
    else []
  }

  lemma ActPostsDue(l: Leave, early: bool, a: Action, role: Role, stamp: Log.Stamp)
    requires Consistent(l) && Act(l, early, a, role, stamp).Done?
    ensures var r := Act(l, early, a, role, stamp); r.posted == Due(l, early, r.leave.status)
  {}

  /** A step is issued once, so what a step adds to the statements is what it posts: a debit
      exactly on becoming Approved, a refund exactly on becoming Withdrawn. */
  lemma StepPosts(s: State, e: Event, id: nat)
    requires SystemOk(s) && id < |s.leaves|
    ensures var s' := Step(s, e);
            && id < |s'.leaves| && id < |s.posted| && id < |s'.posted|
            && s'.posted[id] == s.posted[id]
               + Due(s.leaves[id], IsEarly(s.books, s.leaves[id].typ), s'.leaves[id].status)
  {
    var l := s.leaves[id];
    assert LeaveOk(s, l, s.posted[id]);
    assert s.posted[id] + [] == s.posted[id];
    if e.Process? && e.id == id && Outcome(s, id, e.action, e.role, e.stamp).Done? {
      ActPostsDue(l, IsEarly(s.books, l.typ), e.action, e.role, e.stamp);
    }
  }

  // ------------------------------------------------------------------ stranded charges

  /** The event rejects or cancels the leave in the middle of its withdrawal. */
  predicate CutsShort(s: State, e: Event, id: nat) {
    && id < |s.leaves| && s.leaves[id].status.WithdrawalPending?
    && match e
       case Process(i, action, role, stamp) => i == id && action.Reject? && Outcome(s, id, action, role, stamp).Done?
       case CancelLeave(i) => i == id
       case Apply(_, _, _) => false
       case Edit(_, _, _) => false
       case Office(_) => false
  }

  /** Some event of the run did that. */
  predicate WasCutShort(s: State, events: seq<Event>, id: nat) {
    events != []
    && (WasCutShort(s, events[..|events| - 1], id)
        || CutsShort(Run(s, events[..|events| - 1]), events[|events| - 1], id))
  }

  lemma StepStrands(s: State, e: Event, id: nat)
    requires SystemOk(s) && id < |s.leaves|
    ensures id < |Step(s, e).leaves|
    ensures Stranded(Step(s, e).leaves[id]) <==> Stranded(s.leaves[id]) || CutsShort(s, e, id)
  {
    var l := s.leaves[id];
    assert LeaveOk(s, l, s.posted[id]);
    match e
    case Process(i, action, role, stamp) =>
      if i == id && Outcome(s, id, action, role, stamp).Done? {
        StrandedByReject(l, IsEarly(s.books, l.typ), action, role, stamp);
      }
    case CancelLeave(i) =>
      if i == id && Cancel(l).Done? {
        StrandedByCancel(l);
      }
    case Apply(emp, role, req) =>
    case Edit(emp, i, req) =>
    case Office(op) =>
  }

  lemma NewLeaveNotStranded(s: State, e: Event, id: nat)
    requires id >= |s.leaves| && id < |Step(s, e).leaves|
    ensures Step(s, e).leaves[id].status.Pending?
  {}

  lemma {:induction false} StrandedExactly(year: int, holidays: set<int>, events: seq<Event>, id: nat)
    ensures var s := Run(Start(year, holidays), events);
            WasCutShort(Start(year, holidays), events, id) <==> id < |s.leaves| && Stranded(s.leaves[id])
  {
    if events == [] {
    } else {
      var s, e := Run(Start(year, holidays), events[..|events| - 1]), events[|events| - 1];
      StrandedExactly(year, holidays, events[..|events| - 1], id);
      RunKeeps(year, holidays, events[..|events| - 1]);
      if id < |s.leaves| {
        StepStrands(s, e, id);
      } else if id < |Step(s, e).leaves| {
        NewLeaveNotStranded(s, e, id);
      }
    }
  }

  /** A leave that is not early is charged exactly when it is Approved or WithdrawalPending, or
      was rejected or cancelled while its withdrawal was pending. */
  lemma ChargedExactly(year: int, holidays: set<int>, events: seq<Event>, id: nat)
    requires id < |Run(Start(year, holidays), events).leaves|
    ensures var s := Run(Start(year, holidays), events);
            var l := s.leaves[id];
            && id < |s.posted|
            && (!IsEarly(s.books, l.typ) ==>
                  (s.posted[id] == [Debit(l.emp, l.typ, l.days)]
                   <==> || l.status.Approved? || l.status.WithdrawalPending?
                        || WasCutShort(Start(year, holidays), events, id)))
  {
    PostedOnce(year, holidays, events, id);
    StrandedExactly(year, holidays, events, id);
  }

  // ---------------------------------------------------------------- what never goes back

  /** No step turns a leave back: statuses only advance, and what is asked for is frozen once
      the leave is no longer Pending. */
  lemma StepNeverGoesBack(s: State, e: Event, id: nat)
    requires SystemOk(s) && id < |s.leaves|
    ensures var s' := Step(s, e);
            && id < |s'.leaves|
            && Age(s.leaves[id].status) <= Age(s'.leaves[id].status)
            && (Active(s'.leaves[id]) ==> Active(s.leaves[id]))
            && s'.leaves[id].emp == s.leaves[id].emp
            && (!s.leaves[id].status.Pending? ==> SameRequest(s.leaves[id], s'.leaves[id]))
  {
    var l := s.leaves[id];
    assert LeaveOk(s, l, s.posted[id]);
    if e.Process? && e.id == id && Outcome(s, id, e.action, e.role, e.stamp).Done? {
      ActAges(l, IsEarly(s.books, l.typ), e.action, e.role, e.stamp);
      ActPosts(l, IsEarly(s.books, l.typ), e.action, e.role, e.stamp);
    }
  }

  lemma ActKeepsWithdrawn(l: Leave, early: bool, a: Action, role: Role, stamp: Log.Stamp, k: nat)
    requires Consistent(l) && Act(l, early, a, role, stamp).Done?
    requires l.flow.Some? && k < |l.flow.value| && l.flow.value[k].state.Withdrawn?
    ensures var l' := Act(l, early, a, role, stamp).leave;
            l'.flow.Some? && k < |l'.flow.value| && l'.flow.value[k].state.Withdrawn?
  {}

  /** A withdrawn entry of a log never changes its state again. */
  lemma WithdrawnEntriesStay(s: State, e: Event, id: nat, k: nat)
    requires SystemOk(s) && id < |s.leaves| && s.leaves[id].flow.Some?
    requires k < |s.leaves[id].flow.value| && s.leaves[id].flow.value[k].state.Withdrawn?
    ensures var l' := Step(s, e).leaves[id];
            l'.flow.Some? && k < |l'.flow.value| && l'.flow.value[k].state.Withdrawn?
  {
    var l := s.leaves[id];
    assert LeaveOk(s, l, s.posted[id]);
    assert HasWithdrawn(l.flow.value);
    if l.status.Pending? { PendingLogFacts(l.flow.value); }
    if e.Process? && e.id == id && Outcome(s, id, e.action, e.role, e.stamp).Done? {
      ActKeepsWithdrawn(l, IsEarly(s.books, l.typ), e.action, e.role, e.stamp, k);
    }
  }
}

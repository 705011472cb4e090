/**
 * Runs from an empty installation that show what the weaker guards let through:
 * rejected and cancelled leaves that stay charged, a withdrawal repeated without
 * end, an edit that overdraws, a debit that finds no row, and a row that opens with
 * nothing.
 */
module Scenarios {
  import opened Basics
  import opened Books
  import opened Calendar
  import opened LeaveRecord
  import opened LeaveSystem
  import opened LedgerLaws
  import opened ReservationLaws

  /** Employee 0 is an EMPLOYEE, 1 the MANAGER and 2 the SUPERADMIN. */
  const PEOPLE: seq<StaffMember> :=
    [StaffMember(Role.Employee, None, true), StaffMember(Manager, None, true), StaffMember(SuperAdmin, None, true)]

  const BY_MANAGER: Log.Stamp := Log.Stamp(1, "", 0)
  const BY_SUPER: Log.Stamp := Log.Stamp(2, "", 0)

  /** Day 1 is Monday, 1 January of year 1. */
  lemma FirstDays()
    ensures YearOf(1) == 1
    ensures WorkDays(1, 1, {}) == 1 && WorkDays(1, 2, {}) == 2
  {
    assert MonthStart(12) == 1 && MonthStart(13) == 32;
    MonthOfUnique(1, 12);
    assert WorkingDay(1, {}) && WorkingDay(2, {});
    assert WorkDays(1, 0, {}) == 0;
  }

  function Entry(n: int, r: Role, state: Log.StageState, stamp: Option<Log.Stamp>): Log.Stage {
    Log.Stage(n, r, state, stamp)
  }

  const WAITING_LOG: seq<Log.Stage> := [
    Entry(1, Manager, Log.Waiting, None), Entry(1, Admin, Log.Waiting, None),
    Entry(1, Hr, Log.Waiting, None), Entry(2, SuperAdmin, Log.Waiting, None)]

  const APPROVED_LOG: seq<Log.Stage> := [
    Entry(1, Manager, Log.Skipped, None), Entry(1, Admin, Log.Skipped, None),
    Entry(1, Hr, Log.Skipped, None), Entry(2, SuperAdmin, Log.StageState.Approved, Some(BY_SUPER))]

  const WITHDRAWING_LOG: seq<Log.Stage> := [
    Entry(1, Manager, Log.StageState.Withdrawn, Some(BY_MANAGER)), Entry(1, Admin, Log.Skipped, None),
    Entry(1, Hr, Log.Skipped, None), Entry(2, SuperAdmin, Log.Waiting, Some(BY_SUPER))]

  const STRANDED_LOG: seq<Log.Stage> := [
    Entry(1, Manager, Log.StageState.Withdrawn, Some(BY_MANAGER)), Entry(1, Admin, Log.Skipped, None),
    Entry(1, Hr, Log.Skipped, None), Entry(2, SuperAdmin, Log.StageState.Rejected, Some(BY_SUPER))]

  lemma DefaultLog()
    ensures Flow.Generate(Flow.DEFAULT_FLOW, 2) == WAITING_LOG
  {}

  lemma Positions(log: seq<Log.Stage>)
    requires |log| == 4
    requires log[0].role == Manager && log[1].role == Admin && log[2].role == Hr && log[3].role == SuperAdmin
    ensures Log.IndexOf(log, Manager) == 0 && Log.IndexOf(log, SuperAdmin) == 3
  {}

  lemma LogMoves()
    ensures Log.ApproveLog(WAITING_LOG, 3, BY_SUPER) == APPROVED_LOG
    ensures Log.WithdrawLog(APPROVED_LOG, 0, BY_MANAGER) == WITHDRAWING_LOG
    ensures Log.WithdrawLog(WITHDRAWING_LOG, 0, BY_MANAGER) == WITHDRAWING_LOG
    ensures Log.RejectLog(WITHDRAWING_LOG, 3, BY_SUPER) == STRANDED_LOG
  {}

  // --------------------------------------------------------------- a small company

  const POLICY: LeaveType := LeaveType(1, None, false, true, None)
  const ONE_DAY: Request := Request(0, None, None, 1, 1)
  const TWO_DAYS: Request := Request(0, None, None, 1, 2)

  const HIRING: seq<Event> :=
    [Office(Hire(Role.Employee, None))] + [Office(Hire(Manager, None))] + [Office(Hire(SuperAdmin, None))]
  const FOUNDING: seq<Event> := HIRING + [Office(CreatePolicy(POLICY))]

  const STAFFED: Books := Books(1, PEOPLE, [], [Flow.DEFAULT_FLOW], map[], [], [], {})

  /** Three employees, one type with a yearly entitlement of one day; row is the row of employee 0. */
  function Company(row: Row): Books {
    Books(1, PEOPLE, [POLICY.(flow := Some(0))], [Flow.DEFAULT_FLOW],
          map[Key(0, 0, 1) := row, Key(1, 0, 1) := Fresh(1.0), Key(2, 0, 1) := Fresh(1.0)], [], [],
          {Key(0, 0, 1), Key(1, 0, 1), Key(2, 0, 1)})
  }

  /** Office operations only touch the books. */
  lemma OneOp(events: seq<Event>, b: Books, op: Op)
    requires Run(Start(1, {}), events) == State([], [], b, {})
    ensures Run(Start(1, {}), events + [Office(op)]) == State([], [], Perform(b, op), {})
  {
    RunGrows(Start(1, {}), events, Office(op));
  }

  lemma Hired()
    ensures Run(Start(1, {}), HIRING) == State([], [], STAFFED, {})
  {
    var one := Opened(1).(staff := PEOPLE[..1]);
    var two := Opened(1).(staff := PEOPLE[..2]);
    assert HireOp(Opened(1), Role.Employee, None) == one;
    assert HireOp(one, Manager, None) == two;
    assert HireOp(two, SuperAdmin, None) == STAFFED;
    OneOp([], Opened(1), Hire(Role.Employee, None));
    assert [] + [Office(Hire(Role.Employee, None))] == [Office(Hire(Role.Employee, None))];
    OneOp([Office(Hire(Role.Employee, None))], one, Hire(Manager, None));
    OneOp([Office(Hire(Role.Employee, None))] + [Office(Hire(Manager, None))], two, Hire(SuperAdmin, None));
  }

  lemma PolicyAllocated()
    ensures CreatePolicyOp(STAFFED, POLICY) == Company(Fresh(1.0))
  {
    var added := PolicyRows(STAFFED, WithFlow(POLICY));
    assert forall k :: k in added <==> k in Company(Fresh(1.0)).rows;
  }

  lemma Founded()
    ensures Run(Start(1, {}), FOUNDING) == State([], [], Company(Fresh(1.0)), {})
  {
    Hired();
    PolicyAllocated();
    OneOp(HIRING, STAFFED, CreatePolicy(POLICY));
  }

  function Asked(days: real, end: int, status: Status, approver: Option<nat>, log: seq<Log.Stage>): Leave {
    Leave(0, 0, 1, end, days, status, approver, Some(log))
  }

  lemma AppliedForOneDay()
    ensures ApplyStep(State([], [], Company(Fresh(1.0)), {}), 0, Role.Employee, ONE_DAY)
            == State([Asked(1.0, 1, Pending, None, WAITING_LOG)], [[]], Company(Fresh(1.0)), {})
  {
    FirstDays();
    DefaultLog();
    var s := State([], [], Company(Fresh(1.0)), {});
    assert Without(s.leaves, None) == [];
    assert RequestedDays(s, ONE_DAY) == Some(1.0);
    assert BalanceAllows(s, 0, 0, 1.0, None);
    assert Validated(s, 0, ONE_DAY, None) == Some(1.0);
    assert GeneratedLog(s.books, 0, Role.Employee) == WAITING_LOG;
  }

  const USED_UP: Row := Row(1.0, 0.0, 1.0, 0.0, 0.0)

  function Holding(l: Leave, posted: seq<Posting>, row: Row): State {
    State([l], [posted], Company(row), {})
  }

  lemma ProcessHeld(l: Leave, posted: seq<Posting>, row: Row, a: Action, role: Role, stamp: Log.Stamp,
                    l': Leave, p: seq<Posting>, row': Row)
    requires stamp.actor < 3 && Act(l, false, a, role, stamp) == Done(l', p) && l.typ == 0
    requires Post(Company(row), p) == Company(row')
    ensures ProcessStep(Holding(l, posted, row), 0, a, role, stamp) == Holding(l', posted + p, row')
  {
    assert [l][0 := l'] == [l'] && [posted][0 := posted + p] == [posted + p];
  }

  lemma ApprovedAtOnce(days: real, end: int)
    ensures ProcessStep(Holding(Asked(days, end, Pending, None, WAITING_LOG), [], Fresh(1.0)),
                        0, Approve, SuperAdmin, BY_SUPER)
            == Holding(Asked(days, end, Status.Approved, Some(2), APPROVED_LOG), [Debit(0, 0, days)],
                       Row(1.0, 0.0, days, 0.0, 1.0 - days))
  {
    LogMoves();
    Positions(WAITING_LOG);
    var l := Asked(days, end, Pending, None, WAITING_LOG);
    var l' := Asked(days, end, Status.Approved, Some(2), APPROVED_LOG);
    assert Act(l, false, Approve, SuperAdmin, BY_SUPER) == Done(l', [Debit(0, 0, days)]);
    assert Post(Company(Fresh(1.0)), [Debit(0, 0, days)]) == Company(Row(1.0, 0.0, days, 0.0, 1.0 - days));
    ProcessHeld(l, [], Fresh(1.0), Approve, SuperAdmin, BY_SUPER, l', [Debit(0, 0, days)],
                Row(1.0, 0.0, days, 0.0, 1.0 - days));
    assert [] + [Debit(0, 0, days)] == [Debit(0, 0, days)];
  }

  /** The leave once its withdrawal has been opened by the manager. */
  const OPENED: State :=
    Holding(Asked(1.0, 1, WithdrawalPending, Some(1), WITHDRAWING_LOG), [Debit(0, 0, 1.0)], USED_UP)

  lemma WithdrawalOpened()
    ensures ProcessStep(Holding(Asked(1.0, 1, Status.Approved, Some(2), APPROVED_LOG), [Debit(0, 0, 1.0)], USED_UP),
                        0, Withdraw, Manager, BY_MANAGER) == OPENED
    ensures ProcessStep(OPENED, 0, Withdraw, Manager, BY_MANAGER) == OPENED
    ensures Outcome(OPENED, 0, Withdraw, Manager, BY_MANAGER).Done?
  {
    LogMoves();
    Positions(APPROVED_LOG);
    Positions(WITHDRAWING_LOG);
    assert !Log.WithdrawSettled(WITHDRAWING_LOG) by { assert WITHDRAWING_LOG[3].state.Waiting?; }
    var l := Asked(1.0, 1, Status.Approved, Some(2), APPROVED_LOG);
    var l' := Asked(1.0, 1, WithdrawalPending, Some(1), WITHDRAWING_LOG);
    assert Act(l, false, Withdraw, Manager, BY_MANAGER) == Done(l', []);
    assert Act(l', false, Withdraw, Manager, BY_MANAGER) == Done(l', []);
    ProcessHeld(l, [Debit(0, 0, 1.0)], USED_UP, Withdraw, Manager, BY_MANAGER, l', [], USED_UP);
    ProcessHeld(l', [Debit(0, 0, 1.0)], USED_UP, Withdraw, Manager, BY_MANAGER, l', [], USED_UP);
    assert [Debit(0, 0, 1.0)] + [] == [Debit(0, 0, 1.0)];
  }

  lemma RejectedMidway()
    ensures ProcessStep(OPENED, 0, Reject, SuperAdmin, BY_SUPER)
            == Holding(Asked(1.0, 1, Status.Rejected, Some(2), STRANDED_LOG), [Debit(0, 0, 1.0)], USED_UP)
    ensures Charged(Asked(1.0, 1, Status.Rejected, Some(2), STRANDED_LOG))
  {
    LogMoves();
    Positions(WITHDRAWING_LOG);
    var l := Asked(1.0, 1, WithdrawalPending, Some(1), WITHDRAWING_LOG);
    var l' := Asked(1.0, 1, Status.Rejected, Some(2), STRANDED_LOG);
    assert Act(l, false, Reject, SuperAdmin, BY_SUPER) == Done(l', []);
    ProcessHeld(l, [Debit(0, 0, 1.0)], USED_UP, Reject, SuperAdmin, BY_SUPER, l', [], USED_UP);
    assert [Debit(0, 0, 1.0)] + [] == [Debit(0, 0, 1.0)];
    assert STRANDED_LOG[0].state.Withdrawn? && STRANDED_LOG[3].state.Rejected?;
  }

  lemma CancelledMidway()
    ensures CancelStep(OPENED, 0)
            == Holding(Asked(1.0, 1, Cancelled, Some(1), WITHDRAWING_LOG), [Debit(0, 0, 1.0)], USED_UP)
    ensures Charged(Asked(1.0, 1, Cancelled, Some(1), WITHDRAWING_LOG))
  {
    assert WITHDRAWING_LOG[0].state.Withdrawn? && WITHDRAWING_LOG[3].state.Waiting?;
  }

  lemma EditedToTwoDays()
    ensures EditStep(Holding(Asked(1.0, 1, Pending, None, WAITING_LOG), [], Fresh(1.0)), 0, 0, TWO_DAYS)
            == Holding(Asked(2.0, 2, Pending, None, WAITING_LOG), [], Fresh(1.0))
  {
    FirstDays();
    DefaultLog();
    var s := Holding(Asked(1.0, 1, Pending, None, WAITING_LOG), [], Fresh(1.0));
    assert Without(s.leaves, Some(0)) == [];
    assert BalanceAllows(s, 0, 0, 2.0, Some(0));
    assert Validated(s, 0, TWO_DAYS, Some(0)) == Some(2.0);
  }

  const APPLY: Event := Apply(0, Role.Employee, ONE_DAY)
  const APPROVE: Event := Process(0, Approve, SuperAdmin, BY_SUPER)
  const WITHDRAW: Event := Process(0, Withdraw, Manager, BY_MANAGER)
  const REJECT: Event := Process(0, Reject, SuperAdmin, BY_SUPER)

  /** The run that opens the withdrawal. */
  const OPENING: seq<Event> := FOUNDING + [APPLY] + [APPROVE] + [WITHDRAW]

  lemma Applied()
    ensures Run(Start(1, {}), FOUNDING + [APPLY])
            == Holding(Asked(1.0, 1, Pending, None, WAITING_LOG), [], Fresh(1.0))
  {
    Founded();
    AppliedForOneDay();
    RunGrows(Start(1, {}), FOUNDING, APPLY);
  }

  lemma OpeningRuns()
    ensures Run(Start(1, {}), OPENING) == OPENED
  {
    Applied();
    ApprovedAtOnce(1.0, 1);
    WithdrawalOpened();
    RunGrows(Start(1, {}), FOUNDING + [APPLY], APPROVE);
    RunGrows(Start(1, {}), FOUNDING + [APPLY] + [APPROVE], WITHDRAW);
  }

  /** A rejection in the middle of a withdrawal closes the leave with its day still used. */
  lemma RejectedButCharged()
    ensures var s := Run(Start(1, {}), OPENING + [REJECT]);
            |s.leaves| == 1 && s.leaves[0].status.Rejected? && Charged(s.leaves[0]) && Used(s.books, 0, 0) == 1.0
  {
    OpeningRuns();
    RejectedMidway();
    RunGrows(Start(1, {}), OPENING, REJECT);
  }

  /** So does a cancellation. */
  lemma CancelledButCharged()
    ensures var s := Run(Start(1, {}), OPENING + [CancelLeave(0)]);
            |s.leaves| == 1 && s.leaves[0].status.Cancelled? && Charged(s.leaves[0]) && Used(s.books, 0, 0) == 1.0
  {
    OpeningRuns();
    CancelledMidway();
    RunGrows(Start(1, {}), OPENING, CancelLeave(0));
  }

  function Again(events: seq<Event>, e: Event, n: nat): seq<Event> {
    if n == 0 then events else Again(events, e, n - 1) + [e]
  }

  lemma {:induction false} StaysThere(start: State, events: seq<Event>, e: Event, n: nat, s: State)
    requires Run(start, events) == s && Step(s, e) == s
    ensures Run(start, Again(events, e, n)) == s && |Again(events, e, n)| == |events| + n
  {
    if n == 0 {
    } else {
      StaysThere(start, events, e, n - 1, s);
      RunGrows(start, Again(events, e, n - 1), e);
    }
  }

  /** The manager may repeat the withdrawal any number of times: each is accepted, and the leave
      stays where it is. */
  lemma WithdrawnWithoutEnd(n: nat)
    ensures var events := Again(OPENING, WITHDRAW, n);
            && |events| == |OPENING| + n
            && Run(Start(1, {}), events) == OPENED
            && Outcome(Run(Start(1, {}), events), 0, Withdraw, Manager, BY_MANAGER).Done?
  {
    OpeningRuns();
    WithdrawalOpened();
    StaysThere(Start(1, {}), OPENING, WITHDRAW, n, OPENED);
  }

  /** An edit may ask for more than the balance holds, because the days it had are added back
      although they were never taken: the final approval overdraws. */
  lemma EditOverdraws()
    ensures Closing(Run(Start(1, {}), FOUNDING + [APPLY] + [Edit(0, 0, TWO_DAYS)] + [APPROVE]).books, 0, 0) == -1.0
  {
    Applied();
    EditedToTwoDays();
    ApprovedAtOnce(2.0, 2);
    RunGrows(Start(1, {}), FOUNDING + [APPLY], Edit(0, 0, TWO_DAYS));
    RunGrows(Start(1, {}), FOUNDING + [APPLY] + [Edit(0, 0, TWO_DAYS)], APPROVE);
  }

  const TAKE_AWAY: Event := Office(Adjust(0, 0, -1.0))

  const TAKEN: Books :=
    Company(Row(1.0, 0.0, 0.0, -1.0, 0.0)).(adjustments := [Adjustment(Key(0, 0, 1), -1.0)])

  lemma AdjustmentTaken()
    ensures AdjustOp(Company(Fresh(1.0)), 0, 0, -1.0) == TAKEN
  {}

  lemma TakenAway()
    ensures Step(Holding(Asked(1.0, 1, Pending, None, WAITING_LOG), [], Fresh(1.0)), TAKE_AWAY) == AWAITING
  {
    AdjustmentTaken();
  }

  lemma ApprovedAfter()
    ensures Closing(ProcessStep(AWAITING, 0, Approve, SuperAdmin, BY_SUPER).books, 0, 0) == -1.0
  {
    LogMoves();
    Positions(WAITING_LOG);
    var l := Asked(1.0, 1, Pending, None, WAITING_LOG);
    assert Act(l, false, Approve, SuperAdmin, BY_SUPER)
        == Done(Asked(1.0, 1, Status.Approved, Some(2), APPROVED_LOG), [Debit(0, 0, 1.0)]);
    PostClosing(TAKEN, Debit(0, 0, 1.0), 0, 0);
  }

  lemma Follows(events: seq<Event>, s: State, e: Event)
    requires Run(Start(1, {}), events) == s
    ensures Run(Start(1, {}), events + [e]) == Step(s, e)
  {
    RunGrows(Start(1, {}), events, e);
  }

  const AWAITING: State := State([Asked(1.0, 1, Pending, None, WAITING_LOG)], [[]], TAKEN, {})

  lemma TakenRuns()
    ensures Run(Start(1, {}), FOUNDING + [APPLY] + [TAKE_AWAY]) == AWAITING
  {
    var before := Holding(Asked(1.0, 1, Pending, None, WAITING_LOG), [], Fresh(1.0));
    Applied();
    TakenAway();
    Follows(FOUNDING + [APPLY], before, TAKE_AWAY);
  }

  /** So may an adjustment that takes what is pending. */
  lemma AdjustmentOverdraws()
    ensures Closing(Run(Start(1, {}), FOUNDING + [APPLY] + [TAKE_AWAY] + [APPROVE]).books, 0, 0) == -1.0
  {
    TakenRuns();
    ApprovedAfter();
    Follows(FOUNDING + [APPLY] + [TAKE_AWAY], AWAITING, APPROVE);
  }

  // ------------------------------------------------------------- a debit with no row

  const EARLY: LeaveType := LeaveType(0, None, true, false, None)
  const LEAVE_EARLY: Request := Request(0, None, None, 1, 1)
  const TAKE_DAY: Request := Request(1, None, None, 1, 1)

  /** An employee who was inactive when the second type was created has no row for it. */
  const WITHOUT_ROW: Books :=
    Books(1, PEOPLE, [EARLY.(flow := Some(0)), POLICY.(flow := Some(0))], [Flow.DEFAULT_FLOW],
          map[Key(1, 1, 1) := Fresh(1.0), Key(2, 1, 1) := Fresh(1.0)], [], [], {Key(1, 1, 1), Key(2, 1, 1)})

  const FOUNDING_WITHOUT_ROW: seq<Event> :=
    FOUNDING_EARLY + [Office(CreatePolicy(POLICY))] + [Office(ToggleActive(0))]

  /** The employee is inactive while the second type is created. */
  lemma AllocatedToOthers()
    ensures CreatePolicyOp(STAFFED, EARLY) == STAFFED.(types := [EARLY.(flow := Some(0))])
    ensures ToggleOp(STAFFED.(types := [EARLY.(flow := Some(0))]), 0)
            == STAFFED.(staff := WITHOUT_FIRST, types := [EARLY.(flow := Some(0))])
    ensures CreatePolicyOp(STAFFED.(staff := WITHOUT_FIRST, types := [EARLY.(flow := Some(0))]), POLICY)
            == WITHOUT_ROW.(staff := WITHOUT_FIRST)
  {
    var b := STAFFED.(staff := WITHOUT_FIRST, types := [EARLY.(flow := Some(0))]);
    var added := PolicyRows(b, WithFlow(POLICY));
    assert forall k :: k in added <==> k in WITHOUT_ROW.rows;
  }

  const WITHOUT_FIRST: seq<StaffMember> := PEOPLE[0 := StaffMember(Role.Employee, None, false)]

  const FOUNDING_EARLY: seq<Event> := HIRING + [Office(CreatePolicy(EARLY))] + [Office(ToggleActive(0))]

  lemma FoundedEarly()
    ensures Run(Start(1, {}), FOUNDING_EARLY)
            == State([], [], STAFFED.(staff := WITHOUT_FIRST, types := [EARLY.(flow := Some(0))]), {})
  {
    Hired();
    AllocatedToOthers();
    OneOp(HIRING, STAFFED, CreatePolicy(EARLY));
    OneOp(HIRING + [Office(CreatePolicy(EARLY))], STAFFED.(types := [EARLY.(flow := Some(0))]), ToggleActive(0));
  }

  lemma FoundedWithoutRow()
    ensures Run(Start(1, {}), FOUNDING_WITHOUT_ROW) == State([], [], WITHOUT_ROW, {})
  {
    FoundedEarly();
    AllocatedToOthers();
    var off := WITHOUT_ROW.(staff := WITHOUT_FIRST);
    assert WITHOUT_FIRST[0 := PEOPLE[0]] == PEOPLE;
    assert ToggleOp(off, 0) == WITHOUT_ROW;
    OneOp(FOUNDING_EARLY, STAFFED.(staff := WITHOUT_FIRST, types := [EARLY.(flow := Some(0))]), CreatePolicy(POLICY));
    OneOp(FOUNDING_EARLY + [Office(CreatePolicy(POLICY))], off, ToggleActive(0));
  }

  function OnlyLeave(typ: nat, status: Status, approver: Option<nat>, log: seq<Log.Stage>,
                     posted: seq<Posting>): State
  {
    State([Leave(0, typ, 1, 1, 1.0, status, approver, Some(log))], [posted], WITHOUT_ROW, {})
  }

  lemma LeftEarly()
    ensures ApplyStep(State([], [], WITHOUT_ROW, {}), 0, Role.Employee, LEAVE_EARLY)
            == OnlyLeave(0, Pending, None, WAITING_LOG, [])
  {
    FirstDays();
    DefaultLog();
    var s := State([], [], WITHOUT_ROW, {});
    assert RequestedDays(s, LEAVE_EARLY) == Some(1.0);
    assert Validated(s, 0, LEAVE_EARLY, None) == Some(1.0);
    assert GeneratedLog(s.books, 0, Role.Employee) == WAITING_LOG;
  }

  lemma MovedToMissingRow()
    ensures EditStep(OnlyLeave(0, Pending, None, WAITING_LOG, []), 0, 0, TAKE_DAY)
            == OnlyLeave(1, Pending, None, WAITING_LOG, [])
  {
    FirstDays();
    DefaultLog();
    var s := OnlyLeave(0, Pending, None, WAITING_LOG, []);
    assert Without(s.leaves, Some(0)) == [];
    assert BalanceAllows(s, 0, 1, 1.0, Some(0));
    assert Validated(s, 0, TAKE_DAY, Some(0)) == Some(1.0);
    assert GeneratedLog(s.books, 1, Role.Employee) == WAITING_LOG;
  }

  lemma DebitedNothing()
    ensures ProcessStep(OnlyLeave(1, Pending, None, WAITING_LOG, []), 0, Approve, SuperAdmin, BY_SUPER)
            == OnlyLeave(1, Status.Approved, Some(2), APPROVED_LOG, [Debit(0, 1, 1.0)])
  {
    LogMoves();
    Positions(WAITING_LOG);
    var l := Leave(0, 1, 1, 1, 1.0, Pending, None, Some(WAITING_LOG));
    var l' := Leave(0, 1, 1, 1, 1.0, Status.Approved, Some(2), Some(APPROVED_LOG));
    assert Act(l, false, Approve, SuperAdmin, BY_SUPER) == Done(l', [Debit(0, 1, 1.0)]);
    assert Post(WITHOUT_ROW, [Debit(0, 1, 1.0)]) == WITHOUT_ROW;
    var none, once: seq<Posting> := [], [Debit(0, 1, 1.0)];
    assert none + once == once;
    assert [l][0 := l'] == [l'] && [none][0 := once] == [once];
  }

  /** A leave that was edited into a type without a balance row is approved and charged, but
      no balance shows it. */
  lemma LedgerCanDisagree()
    ensures !UsedAgrees(Run(Start(1, {}), FOUNDING_WITHOUT_ROW + [Apply(0, Role.Employee, LEAVE_EARLY)]
                                          + [Edit(0, 0, TAKE_DAY)] + [APPROVE]))
  {
    var s0 := Start(1, {});
    var apply, edit := Apply(0, Role.Employee, LEAVE_EARLY), Edit(0, 0, TAKE_DAY);
    FoundedWithoutRow();
    LeftEarly();
    MovedToMissingRow();
    DebitedNothing();
    RunGrows(s0, FOUNDING_WITHOUT_ROW, apply);
    RunGrows(s0, FOUNDING_WITHOUT_ROW + [apply], edit);
    RunGrows(s0, FOUNDING_WITHOUT_ROW + [apply] + [edit], APPROVE);
    ChargedForNothing();
  }

  lemma ChargedForNothing()
    ensures !UsedAgrees(OnlyLeave(1, Status.Approved, Some(2), APPROVED_LOG, [Debit(0, 1, 1.0)]))
  {
    var s := OnlyLeave(1, Status.Approved, Some(2), APPROVED_LOG, [Debit(0, 1, 1.0)]);
    WeighAppend([], s.leaves[0], ChargedWeight(0, 1));
    assert [] + [s.leaves[0]] == s.leaves;
    assert !BucketAgrees(s, 0, 1);
  }

  // ---------------------------------------------------------------- an upserted row

  const HIRED: Event := Office(Hire(Role.Employee, None))
  const TOGGLED: Event := Office(ToggleActive(0))
  const POLICY_MADE: Event := Office(CreatePolicy(POLICY))

  /** An employee who was inactive when a type was made has no row for it; the accrual job then
      makes one that opens with nothing instead of the entitlement. */
  lemma AccruedOpening(year: int, month: int)
    ensures var b := Run(Start(year, {}), [HIRED] + [TOGGLED] + [POLICY_MADE] + [TOGGLED]
                                          + [Office(Accrue(0, 0, month, year))]).books;
            && |b.staff| == 1 && |b.types| == 1
            && Key(0, 0, year) in b.rows
            && b.rows[Key(0, 0, year)].opening == 0.0
            && Opening(b.staff[0], b.types[0], year) == 1
  {
    var s0 := Start(year, {});
    RunGrows(s0, [], HIRED);
    RunGrows(s0, [HIRED], TOGGLED);
    RunGrows(s0, [HIRED] + [TOGGLED], POLICY_MADE);
    RunGrows(s0, [HIRED] + [TOGGLED] + [POLICY_MADE], TOGGLED);
    RunGrows(s0, [HIRED] + [TOGGLED] + [POLICY_MADE] + [TOGGLED], Office(Accrue(0, 0, month, year)));
    assert [] + [HIRED] == [HIRED];
    var made := Run(s0, [HIRED] + [TOGGLED] + [POLICY_MADE]).books;
    assert made.rows == map[];
  }
}

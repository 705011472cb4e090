/**
 * The system as an object whose methods update the tables the way the services
 * do: validation, the day and stage loops, the processors on an array of stages,
 * and the loops of the office operations.  Every method is proved to take the
 * state exactly one step of LeaveSystem, and so keeps its invariant.
 */
module LeaveDesk {
  import opened Basics
  import opened Books
  import opened Calendar
  import opened LeaveRecord
  import opened LeaveSystem
  import opened WorkflowLaws
  import opened ActingLaws
  import opened AdmissionLaws
  import opened BooksLaws
  import Flow = ApprovalFlow
  import Log = ApprovalLog
  import Accrual
  import OfficeLoops

  lemma NothingPosted(posted: seq<seq<Posting>>, id: nat)
    requires id < |posted|
    ensures posted[id := posted[id] + []] == posted
  {
    assert posted[id] + [] == posted[id];
  }

  class Desk {
    const year: int
    const holidays: set<int>
    var leaves: seq<Leave>
    var posted: seq<seq<Posting>>
    var staff: seq<StaffMember>
    var types: seq<LeaveType>
    var flows: seq<seq<Flow.FlowStage>>
    var rows: map<Key, Row>
    var adjustments: seq<Adjustment>
    var credits: seq<Credit>
    var grounded: set<Key>

    /** The requests taken so far. */
    ghost var events: seq<Event>

    function Tables(): Books
      reads this
    {
      Books(year, staff, types, flows, rows, adjustments, credits, grounded)
    }

    function Now(): State
      reads this
    {
      State(leaves, posted, Tables(), holidays)
    }

    ghost predicate Valid()
      reads this
    {
      Now() == Run(Start(year, holidays), events)
    }

    /** Every law about runs holds of a valid desk. */
    lemma Lawful()
      requires Valid()
      ensures SystemOk(Now())
    {
      RunKeeps(year, holidays, events);
    }

    lemma InShape()
      requires Valid()
      ensures |posted| == |leaves| && KeysOk(Tables())
    {
      Lawful();
    }

    constructor (year: int, holidays: set<int>)
      ensures Valid() && Now() == Start(year, holidays)
    {
      this.year := year;
      this.holidays := holidays;
      leaves, posted, staff, types, flows := [], [], [], [], [Flow.DEFAULT_FLOW];
      rows, adjustments, credits, grounded := map[], [], [], {};
      events := [];
    }

    // ---------------------------------------------------------------- validation

    method FindOverlapping(emp: nat, start: int, end: int, skip: Option<nat>) returns (free: bool)
      ensures free <==> DatesFree(Now(), emp, start, end, skip)
    {
      for i := 0 to |leaves|
        invariant forall k :: 0 <= k < i && Some(k) != skip && leaves[k].emp == emp && Active(leaves[k])
                    ==> !LeaveSystem.Overlaps(leaves[k], start, end)
      {
        var l := leaves[i];
        if l.emp == emp && Active(l) && l.start <= end && l.end >= start && Some(i) != skip {
          return false;
        }
      }
      return true;
    }

    method FindEarlyThisMonth(emp: nat, typ: nat, start: int) returns (none: bool)
      ensures none <==> EarlyLimitAllows(Now(), emp, typ, start)
    {
      var month := MonthOf(start);
      for i := 0 to |leaves|
        invariant forall k :: 0 <= k < i && leaves[k].emp == emp && leaves[k].typ == typ && Active(leaves[k])
                    ==> MonthOf(leaves[k].start) != month
      {
        var l := leaves[i];
        if l.emp == emp && l.typ == typ && Active(l) && MonthOf(l.start) == month {
          return false;
        }
      }
      return true;
    }

    method Validate(emp: nat, req: Request, skip: Option<nat>) returns (days: Option<real>)
      ensures days == Validated(Now(), emp, req, skip)
    {
      if req.timing.Some? && !(1 <= req.timing.value <= 3) {
        return None;
      }
      if req.clock.Some? && !(600 <= req.clock.value <= 1140) {
        return None;
      }
      if req.typ >= |types| {
        return None;
      }
      var timing := ResolvedTiming(types[req.typ], req.timing);
      days := CalculateWorkingDaysWithTiming(req.start, req.end, holidays, timing, req.clock.Some?);
      if days.None? || days.value <= 0.0 {
        return None;
      }
      if !UnpaidAllowed(Now(), emp, req.typ) {
        return None;
      }
      if types[req.typ].early {
        var none := FindEarlyThisMonth(emp, req.typ, req.start);
        if !none {
          return None;
        }
      } else {
        var balance := Closing(Tables(), emp, req.typ);
        var pending := PendingDays(Now(), emp, req.typ, skip);
        var original := DaysOf(Now(), skip);
        var effective := balance - pending + original;
        if effective < days.value {
          return None;
        }
      }
      var free := FindOverlapping(emp, req.start, req.end, skip);
      if !free {
        return None;
      }
    }

    // ------------------------------------------------------------ leave requests

    method Create(emp: nat, role: Role, req: Request) returns (ok: bool)
      requires Valid()
      modifies this
      ensures Valid() && Now() == Step(old(Now()), Apply(emp, role, req))
      ensures ok <==> emp < |old(staff)| && Admissible(old(Now()), emp, req, None)
    {
      Lawful();
      AdmittedExactly(Now(), emp, req, None);
      RunGrows(Start(year, holidays), events, Apply(emp, role, req));
      events := events + [Apply(emp, role, req)];
      if emp >= |staff| {
        return false;
      }
      var days := Validate(emp, req, None);
      if days.None? {
        return false;
      }
      var log := Flow.GenerateApprovalLog(FlowOf(Tables(), req.typ), role);
      leaves := leaves + [Leave(emp, req.typ, req.start, req.end, days.value, Pending, None,
                                if |log| == 0 then None else Some(log))];
      posted := posted + [[]];
      return true;
    }

    method UpdateLeave(emp: nat, id: nat, req: Request) returns (ok: bool)
      requires Valid()
      modifies this
      ensures Valid() && Now() == Step(old(Now()), Edit(emp, id, req))
      ensures ok <==> Editable(old(Now()), emp, id) && Admissible(old(Now()), emp, req, Some(id))
    {
      Lawful();
      AdmittedExactly(Now(), emp, req, Some(id));
      RunGrows(Start(year, holidays), events, Edit(emp, id, req));
      events := events + [Edit(emp, id, req)];
      var days := Validate(emp, req, Some(id));
      if days.None? {
        return false;
      }
      if !(id < |leaves| && leaves[id].emp == emp && leaves[id].status.Pending?) {
        return false;
      }
      var l := leaves[id].(typ := req.typ, start := req.start, end := req.end, days := days.value);
      var log := Flow.GenerateApprovalLog(FlowOf(Tables(), req.typ), Role.Employee);
      if |log| != 0 && l.flow.Some? {
        l := l.(flow := Some(log));
      }
      leaves := leaves[id := l];
      return true;
    }

    method Cancel(id: nat) returns (ok: bool)
      requires Valid()
      modifies this
      ensures Valid() && Now() == Step(old(Now()), CancelLeave(id))
      ensures ok <==> id < |old(leaves)| && (old(leaves)[id].status.Pending?
                      || old(leaves)[id].status.WithdrawalPending? || old(leaves)[id].status.Withdrawn?)
    {
      RunGrows(Start(year, holidays), events, CancelLeave(id));
      events := events + [CancelLeave(id)];
      if id >= |leaves| {
        return false;
      }
      match leaves[id].status {
        case Approved => return false;
        case Rejected => return false;
        case Cancelled => return false;
        case _ =>
          leaves := leaves[id := leaves[id].(status := Cancelled)];
          return true;
      }
    }

    // ------------------------------------------------------------------- actions

    method ActionValidator(l: Leave, action: Action, actor: nat, role: Role) returns (why: Option<Refusal>)
      ensures why == Guard(l, action, actor, role)
    {
      if l.emp == actor {
        return Some(OwnLeave);
      }
      if l.flow.None? {
        return Some(NoFlow);
      }
      var log := l.flow.value;
      var stage := -1;
      var i := 0;
      while i < |log|
        invariant 0 <= i <= |log|
        invariant stage == -1 && forall k :: 0 <= k < i ==> log[k].role != role
      {
        if log[i].role == role {
          stage := i;
          break;
        }
        i := i + 1;
      }
      if stage == -1 {
        return Some(RoleNotInFlow);
      }
      match action {
        case Approve =>
          if l.status != Pending {
            return Some(OnlyPending);
          }
          if log[stage].state != Log.Waiting {
            return Some(OnlyWaiting);
          }
          return None;
        case Reject =>
          if log[stage].state != Log.Waiting {
            return Some(OnlyWaiting);
          }
          return None;
        case Withdraw =>
          if l.status != Approved && l.status != WithdrawalPending {
            return Some(OnlyAfterApproval);
          }
          return None;
        case Unsupported =>
          return Some(InvalidAction);
      }
    }

    /** The tables after the leave at id went through an action with result r. */
    ghost predicate Took(before: State, id: nat, r: Result)
      reads this
      requires id < |before.leaves| && id < |before.posted| && r.Done?
    {
      Now() == before.(leaves := before.leaves[id := r.leave],
                       posted := before.posted[id := before.posted[id] + r.posted],
                       books := Post(before.books, r.posted))
    }

    method ApproveProcess(id: nat, log: array<Log.Stage>, role: Role, stamp: Log.Stamp)
      requires id < |leaves| && id < |posted| && leaves[id].flow == Some(log[..])
      requires Guard(leaves[id], Approve, stamp.actor, role).None?
      modifies `leaves, `posted, `rows, log
      ensures Took(old(Now()), id,
                   Act(old(leaves)[id], IsEarly(old(Tables()), old(leaves)[id].typ), Approve, role, stamp))
    {
      var l := leaves[id];
      var stage := Log.FindStage(log, role);
      var stageNo := log[stage].stageNo;
      Log.StampStage(log, stage, Log.StageState.Approved, stamp);
      Log.SkipStages(log, stageNo, role);
      leaves := leaves[id := l.(flow := Some(log[..]))];
      var settled := Log.AllStagesSettled(log);
      assert log[..] == Log.ApproveLog(l.flow.value, stage, stamp);
      if !settled {
        NothingPosted(old(posted), id);
        return;
      }
      leaves := leaves[id := leaves[id].(status := Approved, approvedBy := Some(stamp.actor))];
      if !IsEarly(Tables(), l.typ) {
        var k := Key(l.emp, l.typ, year);
        if k in rows {
          rows := rows[k := Debited(rows[k], l.days)];
        }
        posted := posted[id := posted[id] + [Debit(l.emp, l.typ, l.days)]];
      } else {
        NothingPosted(old(posted), id);
      }
    }

    method RejectProcess(id: nat, log: array<Log.Stage>, role: Role, stamp: Log.Stamp)
      requires id < |leaves| && id < |posted| && leaves[id].flow == Some(log[..])
      requires Guard(leaves[id], Reject, stamp.actor, role).None?
      modifies `leaves, `posted, `rows, log
      ensures Took(old(Now()), id,
                   Act(old(leaves)[id], IsEarly(old(Tables()), old(leaves)[id].typ), Reject, role, stamp))
    {
      var l := leaves[id];
      var stage := Log.FindStage(log, role);
      Log.StampStage(log, stage, Log.StageState.Rejected, stamp);
      Log.SkipAllWaitingStages(log, log[stage].stageNo);
      assert log[..] == Log.RejectLog(l.flow.value, stage, stamp);
      leaves := leaves[id := l.(flow := Some(log[..]))];
      leaves := leaves[id := leaves[id].(status := Rejected, approvedBy := Some(stamp.actor))];
      NothingPosted(old(posted), id);
    }

    method WithdrawProcess(id: nat, log: array<Log.Stage>, role: Role, stamp: Log.Stamp)
      requires id < |leaves| && id < |posted| && leaves[id].flow == Some(log[..])
      requires Guard(leaves[id], Withdraw, stamp.actor, role).None?
      modifies `leaves, `posted, `rows, log
      ensures Took(old(Now()), id,
                   Act(old(leaves)[id], IsEarly(old(Tables()), old(leaves)[id].typ), Withdraw, role, stamp))
    {
      var l := leaves[id];
      var stage := Log.FindStage(log, role);
      Log.ResetLogForWithdraw(log, log[stage].stageNo, role);
      assert log[stage] == l.flow.value[stage];
      Log.StampStage(log, stage, Log.StageState.Withdrawn, stamp);
      assert log[..] == Log.WithdrawLog(l.flow.value, stage, stamp);
      leaves := leaves[id := l.(flow := Some(log[..]))];
      var settled := Log.AllStagesSettledForWithdraw(log);
      if !settled {
        leaves := leaves[id := leaves[id].(status := WithdrawalPending, approvedBy := Some(stamp.actor))];
        NothingPosted(old(posted), id);
        return;
      }
      leaves := leaves[id := leaves[id].(status := Withdrawn, approvedBy := Some(stamp.actor))];
      if !IsEarly(Tables(), l.typ) {
        var k := Key(l.emp, l.typ, year);
        if k in rows {
          rows := rows[k := Restored(rows[k], l.days)];
        }
        posted := posted[id := posted[id] + [Refund(l.emp, l.typ, l.days)]];
      } else {
        NothingPosted(old(posted), id);
      }
    }

    method ActionLeave(id: nat, action: Action, role: Role, stamp: Log.Stamp) returns (why: Option<Refusal>)
      requires Valid()
      modifies this
      ensures Valid() && Now() == Step(old(Now()), Process(id, action, role, stamp))
      ensures why == var r := Outcome(old(Now()), id, action, role, stamp); if r.Done? then None else Some(r.why)
      ensures why.None? <==> MayAct(old(Now()), id, action, role, stamp.actor)
    {
      Lawful();
      ActsExactly(Now(), id, action, role, stamp);
      RunGrows(Start(year, holidays), events, Process(id, action, role, stamp));
      events := events + [Process(id, action, role, stamp)];
      if id >= |leaves| {
        return Some(NoSuchLeave);
      }
      if stamp.actor >= |staff| {
        return Some(NoSuchActor);
      }
      why := ActionValidator(leaves[id], action, stamp.actor, role);
      if why.Some? {
        return;
      }
      var flow := leaves[id].flow.value;
      var log := new Log.Stage[|flow|](i requires 0 <= i < |flow| => flow[i]);
      assert log[..] == flow;
      match action {
        case Approve => ApproveProcess(id, log, role, stamp);
        case Reject => RejectProcess(id, log, role, stamp);
        case Withdraw => WithdrawProcess(id, log, role, stamp);
      }
    }

    // -------------------------------------------------------------------- office

    method HireEmployee(role: Role, joined: Option<int>) returns (ok: bool)
      requires Valid()
      modifies this
      ensures Valid() && Now() == Step(old(Now()), Office(Hire(role, joined)))
      ensures ok <==> !role.Other?
    {
      InShape();
      RunGrows(Start(year, holidays), events, Office(Hire(role, joined)));
      events := events + [Office(Hire(role, joined))];
      ok := !role.Other?;
      if ok {
        var e := StaffMember(role, joined, true);
        var given := OfficeLoops.AllocateForHire(Tables(), e);
        grounded := grounded + HiredRows(Tables(), e).Keys;
        rows, staff := given, staff + [e];
      }
    }

    method CreateLeaveType(policy: LeaveType) returns (ok: bool)
      requires Valid()
      modifies this
      ensures Valid() && Now() == Step(old(Now()), Office(CreatePolicy(policy)))
      ensures ok <==> policy.entitlement >= 0 && (policy.flow.Some? ==> policy.flow.value < |old(flows)|)
    {
      InShape();
      RunGrows(Start(year, holidays), events, Office(CreatePolicy(policy)));
      events := events + [Office(CreatePolicy(policy))];
      ok := policy.entitlement >= 0 && (policy.flow.Some? ==> policy.flow.value < |flows|);
      if ok {
        var t := if policy.flow.None? then policy.(flow := Some(0)) else policy;
        var given := OfficeLoops.AllocateForPolicy(Tables(), t);
        grounded := grounded + PolicyRows(Tables(), t).Keys;
        rows, types := given, types + [t];
      }
    }

    method UpdateLeaveType(typ: nat, policy: LeaveType) returns (ok: bool)
      requires Valid()
      modifies this
      ensures Valid() && Now() == Step(old(Now()), Office(UpdatePolicy(typ, policy)))
      ensures ok <==> policy.entitlement >= 0 && (policy.flow.Some? ==> policy.flow.value < |old(flows)|)
                      && typ < |old(types)|
    {
      RunGrows(Start(year, holidays), events, Office(UpdatePolicy(typ, policy)));
      events := events + [Office(UpdatePolicy(typ, policy))];
      ok := policy.entitlement >= 0 && (policy.flow.Some? ==> policy.flow.value < |flows|) && typ < |types|;
      if ok {
        var t := if policy.flow.None? then policy.(flow := Some(0)) else policy;
        t := t.(early := types[typ].early);
        var reopened := OfficeLoops.ReopenPolicy(Tables(), typ, t);
        grounded := grounded + NotEarly(types, PolicySelection(Tables(), typ));
        rows, types := reopened, types[typ := t];
      }
    }

    method UpdateEmployeeRole(emp: nat, role: Role) returns (ok: bool)
      requires Valid()
      modifies this
      ensures Valid() && Now() == Step(old(Now()), Office(ChangeRole(emp, role)))
      ensures ok <==> emp < |old(staff)| && !role.Other? && old(staff)[emp].role != role
    {
      RunGrows(Start(year, holidays), events, Office(ChangeRole(emp, role)));
      events := events + [Office(ChangeRole(emp, role))];
      ok := emp < |staff| && !role.Other? && staff[emp].role != role;
      if ok {
        var was := staff[emp].role;
        var e := staff[emp].(role := role);
        if was.Intern? || role.Intern? {
          var after := OfficeLoops.ReopenStaff(Tables(), emp, e);
          staff, rows, grounded := after.staff, after.rows, after.grounded;
        } else {
          staff := staff[emp := e];
        }
      }
    }

    method UpdateJoiningDate(emp: nat, day: int) returns (ok: bool)
      requires Valid()
      modifies this
      ensures Valid() && Now() == Step(old(Now()), Office(ChangeJoining(emp, day)))
      ensures ok <==> emp < |old(staff)|
    {
      RunGrows(Start(year, holidays), events, Office(ChangeJoining(emp, day)));
      events := events + [Office(ChangeJoining(emp, day))];
      ok := emp < |staff|;
      if ok {
        var after := OfficeLoops.ReopenStaff(Tables(), emp, staff[emp].(joined := Some(day)));
        staff, rows, grounded := after.staff, after.rows, after.grounded;
      }
    }

    method AdjustLeaveBalance(emp: nat, typ: nat, quantity: real) returns (ok: bool)
      requires Valid()
      modifies this
      ensures Valid() && Now() == Step(old(Now()), Office(Adjust(emp, typ, quantity)))
      ensures ok <==> emp < |old(staff)| && typ < |old(types)|
    {
      RunGrows(Start(year, holidays), events, Office(Adjust(emp, typ, quantity)));
      events := events + [Office(Adjust(emp, typ, quantity))];
      ok := emp < |staff| && typ < |types|;
      if ok {
        var row := OfficeLoops.AdjustRow(Tables(), emp, typ, quantity);
        rows, adjustments := row, adjustments + [Adjustment(Key(emp, typ, year), quantity)];
      }
    }

    method CreateApprovalFlow(stages: seq<Flow.FlowStage>) returns (ok: bool)
      requires Valid()
      modifies this
      ensures Valid() && Now() == Step(old(Now()), Office(CreateFlow(stages)))
      ensures ok <==> Flow.ValidFlow(stages)
    {
      RunGrows(Start(year, holidays), events, Office(CreateFlow(stages)));
      events := events + [Office(CreateFlow(stages))];
      var verdict := Flow.AllowToCreateLeaveApprovalFlow(Some(stages));
      ok := verdict.Accepted?;
      if ok {
        flows := flows + [stages];
      }
    }

    /** The statement's condition leaves the shipped flow, at position 0, alone. */
    method UpdateApprovalFlow(id: nat, stages: seq<Flow.FlowStage>) returns (ok: bool)
      requires Valid()
      modifies this
      ensures Valid() && Now() == Step(old(Now()), Office(UpdateFlow(id, stages)))
      ensures ok <==> Flow.ValidFlow(stages) && 0 < id < |old(flows)|
    {
      RunGrows(Start(year, holidays), events, Office(UpdateFlow(id, stages)));
      events := events + [Office(UpdateFlow(id, stages))];
      var verdict := Flow.AllowToCreateLeaveApprovalFlow(Some(stages));
      ok := verdict.Accepted? && 0 < id < |flows|;
      if ok {
        flows := flows[id := stages];
      }
    }

    // ------------------------------------------------------------------- accrual

    /** Upserts the row, adds to accrued only, and logs the credit unless the month is in the log. */
    method CreditMonthlyAccrual(emp: nat, typ: nat, month: int, accrualYear: int, days: real) returns (ok: bool)
      modifies `rows, `credits
      ensures ok <==> emp < |staff| && typ < |types|
      ensures !ok ==> Tables() == old(Tables())
      ensures ok ==> var k := Key(emp, typ, accrualYear);
                     var before := EnsureRow(old(rows), k, 0.0);
                     Tables() == old(Tables()).(
                       rows := before[k := Credited(before[k], days)],
                       credits := if AlreadyCredited(old(Tables()), k, month) then old(credits)
                                  else old(credits) + [Credit(k, month, days)])
    {
      ok := emp < |staff| && typ < |types|;
      if ok {
        var k := Key(emp, typ, accrualYear);
        var logged := AlreadyCredited(Tables(), k, month);
        if k !in rows {
          rows := rows[k := Row(0.0, 0.0, 0.0, 0.0, 0.0)];
        }
        rows := rows[k := rows[k].(accrued := rows[k].accrued + days)];
        if !logged {
          credits := credits + [Credit(k, month, days)];
        }
      }
    }

    /** The transaction of one pair, and the counter it moves. */
    method AccruePair(p: Accrual.Pair, month: int, accrualYear: int, fault: Accrual.Fault, c: nat, s: nat, f: nat)
      returns (credited: nat, skipped: nat, failed: nat)
      requires Valid() && Accruable(Tables(), p.emp, p.typ)
      modifies this
      ensures Valid() && Now() == old(Now()).(books := Tables())
      ensures Accrual.Job(Tables(), credited, skipped, failed)
              == Accrual.Visit(Accrual.Job(old(Tables()), c, s, f), p, month, accrualYear, fault)
    {
      credited, skipped, failed := c, s, f;
      if fault.BeginFails? || fault.CheckFails? {
        failed := failed + 1;
      } else if AlreadyCredited(Tables(), Key(p.emp, p.typ, accrualYear), month) {
        skipped := skipped + 1;
      } else if fault.CreditFails? || fault.CommitFails? {
        failed := failed + 1;
      } else {
        RunGrows(Start(year, holidays), events, Office(Accrue(p.emp, p.typ, month, accrualYear)));
        var days := 1.5;
        if staff[p.emp].role.Intern? {
          days := 1.0;
        }
        var ok := CreditMonthlyAccrual(p.emp, p.typ, month, accrualYear, days);
        events := events + [Office(Accrue(p.emp, p.typ, month, accrualYear))];
        credited := credited + 1;
      }
    }

    /** The inner loop: every accruable type of one employee, after the pairs done before. */
    method AccrueEmployee(emp: nat, accruable: seq<nat>, month: int, accrualYear: int,
                          faults: Accrual.Pair -> Accrual.Fault, c: nat, s: nat, f: nat,
                          ghost b: Books, ghost done: seq<Accrual.Pair>)
      returns (credited: nat, skipped: nat, failed: nat)
      requires Valid()
      requires forall t :: t in accruable ==> Accruable(b, emp, t)
      requires Accrual.Job(Tables(), c, s, f)
               == Accrual.Visits(Accrual.Job(b, 0, 0, 0), done, month, accrualYear, faults)
      modifies this
      ensures Valid() && Now() == old(Now()).(books := Tables())
      ensures Accrual.Job(Tables(), credited, skipped, failed)
              == Accrual.Visits(Accrual.Job(b, 0, 0, 0), done + Accrual.Row(emp, accruable), month, accrualYear, faults)
    {
      credited, skipped, failed := c, s, f;
      ghost var now := done;
      for j := 0 to |accruable|
        invariant now == done + Accrual.Row(emp, accruable[..j])
        invariant Valid() && Now() == old(Now()).(books := Tables())
        invariant Accrual.Job(Tables(), credited, skipped, failed)
                  == Accrual.Visits(Accrual.Job(b, 0, 0, 0), now, month, accrualYear, faults)
      {
        var p := Accrual.Pair(emp, accruable[j]);
        Accrual.VisitsGrow(b, now, p, month, accrualYear, faults);
        Accrual.RowGrows(emp, accruable, j);
        credited, skipped, failed := AccruePair(p, month, accrualYear, faults(p), credited, skipped, failed);
        now := now + [p];
      }
      assert accruable[..|accruable|] == accruable;
    }

    /** The job, with what fails as its input. */
    method RunAccrual(month: int, accrualYear: int, faults: Accrual.Faults)
      returns (credited: nat, skipped: nat, failed: nat)
      requires Valid()
      modifies this
      ensures Valid() && Now() == old(Now()).(books := Tables())
      ensures Accrual.Job(Tables(), credited, skipped, failed)
              == Accrual.RunJob(old(Tables()), month, accrualYear, faults)
    {
      credited, skipped, failed := 0, 0, 0;
      if faults.types {
        return;
      }
      var accruable := Accrual.AccruableTypes(Tables(), |types|);
      if |accruable| == 0 {
        Accrual.NothingToVisit(Tables(), month, accrualYear, faults);
        return;
      }
      if faults.staff {
        return;
      }
      var active := Accrual.ActiveStaff(Tables(), |staff|);
      if |active| == 0 {
        Accrual.NothingToVisit(Tables(), month, accrualYear, faults);
        return;
      }
      credited, skipped, failed := AccrueAll(active, accruable, month, accrualYear, faults.at);
    }

    /** The nested loops. */
    method AccrueAll(active: seq<nat>, accruable: seq<nat>, month: int, accrualYear: int,
                     faults: Accrual.Pair -> Accrual.Fault)
      returns (credited: nat, skipped: nat, failed: nat)
      requires Valid()
      requires forall e, t :: e in active && t in accruable ==> Accruable(Tables(), e, t)
      modifies this
      ensures Valid() && Now() == old(Now()).(books := Tables())
      ensures Accrual.Job(Tables(), credited, skipped, failed)
              == Accrual.Visits(Accrual.Job(old(Tables()), 0, 0, 0), Accrual.Pairs(active, accruable),
                                month, accrualYear, faults)
    {
      credited, skipped, failed := 0, 0, 0;
      ghost var b := Tables();
      for i := 0 to |active|
        invariant Valid() && Now() == old(Now()).(books := Tables())
        invariant Accrual.Job(Tables(), credited, skipped, failed)
                  == Accrual.Visits(Accrual.Job(b, 0, 0, 0), Accrual.Pairs(active[..i], accruable),
                                    month, accrualYear, faults)
      {
        Accrual.PairsGrow(active, accruable, i);
        assert active[i] in active;
        credited, skipped, failed := AccrueEmployee(active[i], accruable, month, accrualYear, faults,
                                                    credited, skipped, failed,
                                                    b, Accrual.Pairs(active[..i], accruable));
      }
      assert active[..|active|] == active;
    }
  }
}

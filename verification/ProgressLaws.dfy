/**
 * How many approvals and withdrawals a leave can take, and at which stage they cut
 * its log, over all runs and whatever happens in between.
 */
module ProgressLaws {
  import opened Basics
  import opened Books
  import opened BooksLaws
  import opened LeaveRecord
  import opened LeaveSystem
  import opened WorkflowLaws

  /** The event is an accepted action of this kind on the leave at id. */
  predicate Takes(s: State, e: Event, id: nat, action: Action) {
    && e.Process? && e.id == id && e.action == action && id < |s.leaves|
    && Outcome(s, id, action, e.role, e.stamp).Done?
  }

  function LogOf(s: State, id: nat): seq<Log.Stage> {
    if id < |s.leaves| && s.leaves[id].flow.Some? then s.leaves[id].flow.value else []
  }

  // ------------------------------------------------------------------ withdrawals

  /** Accepted withdrawals of the leave along a run. */
  function Withdrawals(s: State, events: seq<Event>, id: nat): nat {
    if events == [] then 0
    else
      var rest, last := events[..|events| - 1], events[|events| - 1];
      Withdrawals(s, rest, id) + if Takes(Run(s, rest), last, id, Withdraw) then 1 else 0
  }

  /** The entry of the acting role has withdrawn already. */
  predicate Repeats(s: State, e: Event, id: nat) {
    && Takes(s, e, id, Withdraw)
    && var log := LogOf(s, id);
       var i := Log.IndexOf(log, e.role);
       i >= 0 && log[i].state.Withdrawn?
  }

  function Repetitions(s: State, events: seq<Event>, id: nat): nat {
    if events == [] then 0
    else
      var rest, last := events[..|events| - 1], events[|events| - 1];
      Repetitions(s, rest, id) + if Repeats(Run(s, rest), last, id) then 1 else 0
  }

  lemma SameReleased(a: seq<Log.Stage>, b: seq<Log.Stage>)
    requires |a| == |b| && forall k :: 0 <= k < |a| ==> (a[k].state.Withdrawn? <==> b[k].state.Withdrawn?)
    ensures Frontier.Released(a) == Frontier.Released(b)
  {}

  lemma NoneReleased(log: seq<Log.Stage>)
    requires !HasWithdrawn(log)
    ensures Frontier.Released(log) == {}
  {}

  lemma ApproveReleases(log: seq<Log.Stage>, i: nat, stamp: Log.Stamp)
    requires Frontier.WellFormed(log) && i < |log| && !log[i].state.Withdrawn?
    ensures Frontier.Released(Log.ApproveLog(log, i, stamp)) == Frontier.Released(log)
  {
    Frontier.ApproveDecides(log, i, stamp);
    SameReleased(log, Log.ApproveLog(log, i, stamp));
  }

  lemma RejectReleases(log: seq<Log.Stage>, i: nat, stamp: Log.Stamp)
    requires i < |log| && !log[i].state.Withdrawn?
    ensures Frontier.Released(Log.RejectLog(log, i, stamp)) == Frontier.Released(log)
  {
    SameReleased(log, Log.RejectLog(log, i, stamp));
  }

  /** Only withdrawals change which entries have withdrawn, and each by its own entry. */
  lemma ActReleases(l: Leave, early: bool, a: Action, role: Role, stamp: Log.Stamp)
    requires Consistent(l) && Act(l, early, a, role, stamp).Done?
    ensures l.flow.Some? && Act(l, early, a, role, stamp).leave.flow.Some?
    ensures var log, after := l.flow.value, Act(l, early, a, role, stamp).leave.flow.value;
            var i := Log.IndexOf(log, role);
            && i >= 0
            && |Frontier.Released(after)|
               == |Frontier.Released(log)| + if a.Withdraw? && !log[i].state.Withdrawn? then 1 else 0
  {
    var log := l.flow.value;
    var i := Log.IndexOf(log, role);
    match a
    case Approve => ApproveReleases(log, i, stamp);
    case Reject => RejectReleases(log, i, stamp);
    case Withdraw => Frontier.WithdrawAdds(log, i, stamp);
  }

  lemma EditReleases(s: State, emp: nat, id: nat, req: Request)
    requires SystemOk(s) && id < |s.leaves| && s.leaves[id].status.Pending?
    ensures Frontier.Released(LogOf(EditStep(s, emp, id, req), id)) == {} == Frontier.Released(LogOf(s, id))
  {
    EditKeepsLeaves(s, emp, id, req);
    var s' := EditStep(s, emp, id, req);
    assert LeaveOk(s, s.leaves[id], s.posted[id]) && LeaveOk(s', s'.leaves[id], s'.posted[id]);
    if s.leaves[id].flow.Some? {
      PendingLogFacts(s.leaves[id].flow.value);
      PendingLogFacts(s'.leaves[id].flow.value);
    }
    NoneReleased(LogOf(s, id));
    NoneReleased(LogOf(s', id));
  }

  lemma StepReleases(s: State, e: Event, id: nat)
    requires SystemOk(s) && id < |s.leaves|
    ensures |Frontier.Released(LogOf(Step(s, e), id))| == |Frontier.Released(LogOf(s, id))|
              + if Takes(s, e, id, Withdraw) && !Repeats(s, e, id) then 1 else 0
  {
    var l := s.leaves[id];
    assert LeaveOk(s, l, s.posted[id]);
    if e.Process? && e.id == id && Outcome(s, id, e.action, e.role, e.stamp).Done? {
      ActReleases(l, IsEarly(s.books, l.typ), e.action, e.role, e.stamp);
    }
    if e.Edit? && e.id == id && Editable(s, e.emp, id) {
      EditReleases(s, e.emp, id, e.req);
    }
  }

  lemma NewLogReleases(s: State, e: Event, id: nat)
    requires SystemOk(s) && id >= |s.leaves|
    ensures Frontier.Released(LogOf(Step(s, e), id)) == {}
  {
    StepKeeps(s, e);
    var s' := Step(s, e);
    if id < |s'.leaves| && s'.leaves[id].flow.Some? {
      assert LeaveOk(s', s'.leaves[id], s'.posted[id]);
      PendingLogFacts(s'.leaves[id].flow.value);
    }
    NoneReleased(LogOf(s', id));
  }

  /** Every accepted withdrawal of a run either adds a WITHDRAWN entry to the log or repeats one:
      so there are at most as many as the log has entries, exactly beyond repetitions. */
  lemma {:induction false} WithdrawalsOfRun(year: int, holidays: set<int>, events: seq<Event>, id: nat)
    ensures var s := Start(year, holidays);
            && Withdrawals(s, events, id)
               == |Frontier.Released(LogOf(Run(s, events), id))| + Repetitions(s, events, id)
            && Withdrawals(s, events, id) - Repetitions(s, events, id) <= |LogOf(Run(s, events), id)|
  {
    var s0 := Start(year, holidays);
    if events == [] {
      NoneReleased([]);
    } else {
      var s, e := Run(s0, events[..|events| - 1]), events[|events| - 1];
      WithdrawalsOfRun(year, holidays, events[..|events| - 1], id);
      RunKeeps(year, holidays, events[..|events| - 1]);
      if id < |s.leaves| {
        StepReleases(s, e, id);
      } else {
        NewLogReleases(s, e, id);
      }
    }
    Frontier.ReleasedFit(LogOf(Run(s0, events), id));
  }

  // -------------------------------------------------------------------- approvals

  /** An accepted edit that replaces the log. */
  predicate Regenerates(s: State, e: Event, id: nat) {
    && e.Edit? && e.id == id && Editable(s, e.emp, id) && Validated(s, e.emp, e.req, Some(id)).Some?
    && s.leaves[id].flow.Some? && GeneratedLog(s.books, e.req.typ, Role.Employee) != []
  }

  /** Accepted approvals of the leave since its log was last generated. */
  function Approvals(s: State, events: seq<Event>, id: nat): nat {
    if events == [] then 0
    else
      var rest, last := events[..|events| - 1], events[|events| - 1];
      if Regenerates(Run(s, rest), last, id) then 0
      else Approvals(s, rest, id) + if Takes(Run(s, rest), last, id, Approve) then 1 else 0
  }

  function Stages(log: seq<Log.Stage>): set<int> {
    set i | 0 <= i < |log| :: log[i].stageNo
  }

  function ApprovedStages(log: seq<Log.Stage>): set<int> {
    set i | 0 <= i < |log| && log[i].state.Approved? :: log[i].stageNo
  }

  lemma SameStages(a: seq<Log.Stage>, b: seq<Log.Stage>)
    requires Frontier.SameShape(a, b)
    ensures Stages(a) == Stages(b)
  {
    assert forall i :: 0 <= i < |a| ==> a[i].stageNo == b[i].stageNo;
  }

  lemma ApprovedFit(log: seq<Log.Stage>)
    ensures |ApprovedStages(log)| <= |Stages(log)|
  {
    Frontier.SubsetSize(ApprovedStages(log), Stages(log));
  }

  lemma ApprovedAtAdds(log: seq<Log.Stage>, after: seq<Log.Stage>, t: int, i: nat)
    requires Frontier.ApprovedUpTo(log, t) && i < |log| && t < log[i].stageNo && Frontier.ApprovedAt(log, after, i)
    ensures ApprovedStages(after) == ApprovedStages(log) + {log[i].stageNo}
    ensures log[i].stageNo !in ApprovedStages(log)
  {
    forall n ensures n in ApprovedStages(after) <==> n in ApprovedStages(log) || n == log[i].stageNo {
      if n in ApprovedStages(after) {
        var k :| 0 <= k < |after| && after[k].state.Approved? && after[k].stageNo == n;
        assert k == i || (log[k].state.Approved? && log[k].stageNo == n);
      }
      if n in ApprovedStages(log) {
        var k :| 0 <= k < |log| && log[k].state.Approved? && log[k].stageNo == n;
        assert after[k].state.Approved? && after[k].stageNo == n;
      }
      assert after[i].state.Approved? && after[i].stageNo == log[i].stageNo;
    }
  }

  /** An approval adds its own stage to those approved so far. */
  lemma ApproveAdds(log: seq<Log.Stage>, i: nat, stamp: Log.Stamp)
    requires Frontier.WellFormed(log) && PendingLog(log) && i < |log| && log[i].state.Waiting?
    ensures var after := Log.ApproveLog(log, i, stamp);
            |ApprovedStages(after)| == |ApprovedStages(log)| + 1 && Stages(after) == Stages(log)
  {
    var t :| Frontier.ApprovedUpTo(log, t) && t < Frontier.Top(log);
    var after := Log.ApproveLog(log, i, stamp);
    Frontier.ApproveAdvances(log, t, i, stamp);
    Frontier.ApproveDecides(log, i, stamp);
    ApprovedAtAdds(log, after, t, i);
    SameStages(log, after);
  }

  lemma OthersKeepStages(log: seq<Log.Stage>, i: nat, stamp: Log.Stamp)
    requires Frontier.WellFormed(log) && i < |log|
    ensures Stages(Log.RejectLog(log, i, stamp)) == Stages(log)
    ensures Stages(Log.WithdrawLog(log, i, stamp)) == Stages(log)
  {
    Frontier.WithdrawReleases(log, i, stamp);
    SameStages(log, Log.RejectLog(log, i, stamp));
    SameStages(log, Log.WithdrawLog(log, i, stamp));
  }

  /** While the leave is pending the approvals are the approved stages of its log; later they are
      still no more than its stages. */
  predicate Counted(s: State, id: nat, n: nat) {
    && n <= |Stages(LogOf(s, id))|
    && (id < |s.leaves| && s.leaves[id].status.Pending? ==> n == |ApprovedStages(LogOf(s, id))|)
  }

  lemma ActCounts(s: State, id: nat, a: Action, role: Role, stamp: Log.Stamp, n: nat)
    requires SystemOk(s) && id < |s.leaves| && Outcome(s, id, a, role, stamp).Done? && Counted(s, id, n)
    ensures Counted(ProcessStep(s, id, a, role, stamp), id, if a.Approve? then n + 1 else n)
  {
    var l := s.leaves[id];
    var log := l.flow.value;
    var i := Log.IndexOf(log, role);
    assert LeaveOk(s, l, s.posted[id]);
    assert LogOf(ProcessStep(s, id, a, role, stamp), id) == Outcome(s, id, a, role, stamp).leave.flow.value;
    if a.Approve? {
      ApproveAdds(log, i, stamp);
      ApprovedFit(Log.ApproveLog(log, i, stamp));
    } else {
      OthersKeepStages(log, i, stamp);
    }
  }

  lemma FreshCounts(log: seq<Log.Stage>)
    requires forall i :: 0 <= i < |log| ==> log[i].state.Waiting?
    ensures ApprovedStages(log) == {}
  {}

  lemma GeneratedWaits(b: Books, typ: nat, role: Role)
    ensures ApprovedStages(GeneratedLog(b, typ, role)) == {}
  {
    var flow, log := FlowOf(b, typ), GeneratedLog(b, typ, role);
    if flow.Some? {
      Flow.GenerateSelects(flow.value, Level(role), 0, role);
      forall i | 0 <= i < |log| ensures log[i].state.Waiting? { assert log[i] in log; }
    }
    FreshCounts(log);
  }

  lemma StepCounts(s: State, e: Event, id: nat, n: nat)
    requires SystemOk(s) && Counted(s, id, n) && (id >= |s.leaves| ==> n == 0)
    ensures Counted(Step(s, e), id,
                    if Regenerates(s, e, id) then 0 else if Takes(s, e, id, Approve) then n + 1 else n)
  {
    match e
    case Apply(emp, role, req) =>
      GeneratedWaits(s.books, req.typ, role);
      FreshCounts([]);
    case Edit(emp, i, req) =>
      GeneratedWaits(s.books, req.typ, Role.Employee);
    case Process(i, action, role, stamp) =>
      if i == id && id < |s.leaves| && Outcome(s, id, action, role, stamp).Done? {
        ActCounts(s, id, action, role, stamp, n);
      }
    case CancelLeave(i) =>
    case Office(op) =>
  }

  /** Along every run, whatever happens in between, the accepted approvals of a leave since its log
      was last generated are at most the distinct stage numbers of the log. */
  lemma {:induction false} ApprovalsOfRun(year: int, holidays: set<int>, events: seq<Event>, id: nat)
    ensures var s := Start(year, holidays);
            && Counted(Run(s, events), id, Approvals(s, events, id))
            && (id >= |Run(s, events).leaves| ==> Approvals(s, events, id) == 0)
  {
    var s0 := Start(year, holidays);
    if events == [] {
    } else {
      ApprovalsOfRun(year, holidays, events[..|events| - 1], id);
      RunKeeps(year, holidays, events[..|events| - 1]);
      StepCounts(Run(s0, events[..|events| - 1]), events[|events| - 1], id, Approvals(s0, events[..|events| - 1], id));
    }
  }

  // -------------------------------------------------------------------- frontiers

  /** The stage of the role in a log. */
  function StageOf(log: seq<Log.Stage>, role: Role): int {
    var i := Log.IndexOf(log, role);
    if i < 0 then 0 else log[i].stageNo
  }

  /** The stage at which the leave was withdrawn last along a run. */
  function LastWithdrawal(s: State, events: seq<Event>, id: nat): int {
    if events == [] then 0
    else
      var rest, last := events[..|events| - 1], events[|events| - 1];
      if Takes(Run(s, rest), last, id, Withdraw) then StageOf(LogOf(Run(s, rest), id), last.role)
      else LastWithdrawal(s, rest, id)
  }

  /** The stage at which it was approved last since its log was last generated. */
  function LastApproval(s: State, events: seq<Event>, id: nat): int {
    if events == [] then 0
    else
      var rest, last := events[..|events| - 1], events[|events| - 1];
      if Regenerates(Run(s, rest), last, id) then 0
      else if Takes(Run(s, rest), last, id, Approve) then StageOf(LogOf(Run(s, rest), id), last.role)
      else LastApproval(s, rest, id)
  }

  /** While the leave waits for its approvals, or for its confirmations, these stages cut its log. */
  predicate CutBy(l: Leave, approval: int, withdrawal: int) {
    l.flow.Some? && l.flow.value != []
    ==> && (l.status.Pending?
            ==> Frontier.ApprovedUpTo(l.flow.value, approval) && approval < Frontier.Top(l.flow.value))
        && (l.status.WithdrawalPending? ==> Frontier.WithdrawnUpTo(l.flow.value, withdrawal))
  }

  predicate CutAt(s: State, id: nat, approval: int, withdrawal: int) {
    if id < |s.leaves| then CutBy(s.leaves[id], approval, withdrawal) else approval == 0
  }

  lemma FreshCutAt(log: seq<Log.Stage>)
    requires log != [] && forall i :: 0 <= i < |log| ==> log[i].state.Waiting? && log[i].stageNo > 0
    ensures Frontier.ApprovedUpTo(log, 0) && 0 < Frontier.Top(log)
  {
    assert log[0].stageNo <= Frontier.Top(log);
  }

  lemma GeneratedCutAt(b: Books, typ: nat, role: Role)
    requires BooksOk(b) && GeneratedLog(b, typ, role) != []
    ensures var log := GeneratedLog(b, typ, role); Frontier.ApprovedUpTo(log, 0) && 0 < Frontier.Top(log)
  {
    var flow, log := FlowOf(b, typ), GeneratedLog(b, typ, role);
    Flow.GenerateSelects(flow.value, Level(role), 0, role);
    GeneratedLogOk(b, typ, role);
    forall i | 0 <= i < |log| ensures log[i].state.Waiting? && log[i].stageNo > 0 { assert log[i] in log; }
    FreshCutAt(log);
  }

  lemma ApproveCuts(l: Leave, early: bool, role: Role, stamp: Log.Stamp, approval: int, withdrawal: int)
    requires Consistent(l) && Act(l, early, Approve, role, stamp).Done? && CutBy(l, approval, withdrawal)
    ensures l.flow.Some? && CutBy(Act(l, early, Approve, role, stamp).leave, StageOf(l.flow.value, role), withdrawal)
  {
    var log := l.flow.value;
    var i := Log.IndexOf(log, role);
    Frontier.ApproveAdvances(log, approval, i, stamp);
    Frontier.ShapeKeeps(log, Log.ApproveLog(log, i, stamp));
  }

  lemma ActCuts(l: Leave, early: bool, a: Action, role: Role, stamp: Log.Stamp, approval: int, withdrawal: int)
    requires Consistent(l) && Act(l, early, a, role, stamp).Done? && CutBy(l, approval, withdrawal)
    ensures l.flow.Some?
    ensures CutBy(Act(l, early, a, role, stamp).leave,
                  if a.Approve? then StageOf(l.flow.value, role) else approval,
                  if a.Withdraw? then StageOf(l.flow.value, role) else withdrawal)
  {
    match a
    case Approve => ApproveCuts(l, early, role, stamp, approval, withdrawal);
    case Reject =>
    case Withdraw => WithdrawKeeps(l, early, role, stamp);
  }

  lemma EditCuts(s: State, id: nat, req: Request, days: real, approval: int, withdrawal: int)
    requires BooksOk(s.books) && id < |s.leaves| && s.leaves[id].status.Pending?
    requires CutBy(s.leaves[id], approval, withdrawal)
    ensures var replaced := s.leaves[id].flow.Some? && GeneratedLog(s.books, req.typ, Role.Employee) != [];
            CutBy(Edited(s, id, req, days), if replaced then 0 else approval, withdrawal)
  {
    if GeneratedLog(s.books, req.typ, Role.Employee) != [] {
      GeneratedCutAt(s.books, req.typ, Role.Employee);
    }
  }

  lemma ApplyCuts(s: State, emp: nat, role: Role, req: Request, id: nat, withdrawal: int)
    requires BooksOk(s.books) && id >= |s.leaves|
    ensures CutAt(ApplyStep(s, emp, role, req), id, 0, withdrawal)
  {
    if GeneratedLog(s.books, req.typ, role) != [] {
      GeneratedCutAt(s.books, req.typ, role);
    }
  }

  lemma StepCuts(s: State, e: Event, id: nat, approval: int, withdrawal: int)
    requires SystemOk(s) && CutAt(s, id, approval, withdrawal)
    ensures CutAt(Step(s, e), id,
                  if Regenerates(s, e, id) then 0
                  else if Takes(s, e, id, Approve) then StageOf(LogOf(s, id), e.role) else approval,
                  if Takes(s, e, id, Withdraw) then StageOf(LogOf(s, id), e.role) else withdrawal)
  {
    if id >= |s.leaves| {
      if e.Apply? { ApplyCuts(s, e.emp, e.role, e.req, id, withdrawal); }
    } else {
      assert LeaveOk(s, s.leaves[id], s.posted[id]);
      if e.Process? && e.id == id && Outcome(s, id, e.action, e.role, e.stamp).Done? {
        ActCuts(s.leaves[id], IsEarly(s.books, s.leaves[id].typ), e.action, e.role, e.stamp, approval, withdrawal);
      }
      var days := if e.Edit? then Validated(s, e.emp, e.req, Some(id)) else None;
      if e.Edit? && e.id == id && Editable(s, e.emp, id) && days.Some? {
        EditCuts(s, id, e.req, days.value, approval, withdrawal);
      }
    }
  }

  /** On every run the log of a pending leave is cut at the stage of its last approval, and that of
      a leave whose withdrawal is pending at the stage of its last withdrawal: whoever acts last
      decides, and what happened to other leaves or in the office does not matter. */
  lemma {:induction false} FrontiersOfRun(year: int, holidays: set<int>, events: seq<Event>, id: nat)
    ensures var s := Start(year, holidays);
            CutAt(Run(s, events), id, LastApproval(s, events, id), LastWithdrawal(s, events, id))
  {
    var s0 := Start(year, holidays);
    if events == [] {
    } else {
      var rest := events[..|events| - 1];
      FrontiersOfRun(year, holidays, rest, id);
      RunKeeps(year, holidays, rest);
      StepCuts(Run(s0, rest), events[|events| - 1], id, LastApproval(s0, rest, id), LastWithdrawal(s0, rest, id));
    }
  }
}

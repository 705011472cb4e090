/**
 * Who may act on a leave and what an accepted action leaves behind, told on the
 * tables alone; over all runs nobody has acted on a leave of their own.
 */
module ActingLaws {
  import opened Basics
  import opened Books
  import opened BooksLaws
  import opened LeaveRecord
  import opened LeaveSystem
  import opened WorkflowLaws
  import Flow = ApprovalFlow
  import Log = ApprovalLog
  import Frontier = LogFrontier

  /** The status of the leave and the state of an entry of its log allow the action. */
  predicate AllowedIn(status: Status, state: Log.StageState, action: Action) {
    match action
    case Approve => status.Pending? && state.Waiting?
    case Reject => state.Waiting?
    case Withdraw => status.Approved? || status.WithdrawalPending?
    case Unsupported => false
  }

  /** The role has an entry in the log that allows the action. */
  predicate Allows(l: Leave, action: Action, role: Role) {
    && l.flow.Some?
    && exists i :: 0 <= i < |l.flow.value| && l.flow.value[i].role == role
                   && AllowedIn(l.status, l.flow.value[i].state, action)
  }

  /** An employee, not the applicant, in a role that the log of the leave allows to act. */
  predicate MayAct(s: State, id: nat, action: Action, role: Role, actor: nat) {
    && id < |s.leaves| && actor < |s.books.staff|
    && actor != s.leaves[id].emp
    && Allows(s.leaves[id], action, role)
  }

  /** Every role is in a log at most once, so there is one entry to look at. */
  lemma TheEntry(log: seq<Log.Stage>, i: nat)
    requires Log.UniqueRoles(log) && i < |log|
    ensures Log.IndexOf(log, log[i].role) == i
  {}

  lemma GuardDecides(l: Leave, early: bool, action: Action, role: Role, stamp: Log.Stamp)
    ensures Act(l, early, action, role, stamp).Done? <==> Guard(l, action, stamp.actor, role).None?
  {}

  lemma GuardExactly(l: Leave, action: Action, role: Role, actor: nat)
    requires l.flow.Some? ==> Log.UniqueRoles(l.flow.value)
    ensures Guard(l, action, actor, role).None? <==> actor != l.emp && Allows(l, action, role)
  {
    if l.flow.Some? {
      TheAllowed(l, action, role);
    }
  }

  lemma TheAllowed(l: Leave, action: Action, role: Role)
    requires l.flow.Some? && Log.UniqueRoles(l.flow.value)
    ensures var i := Log.IndexOf(l.flow.value, role);
            Allows(l, action, role) <==> i >= 0 && AllowedIn(l.status, l.flow.value[i].state, action)
  {
    var log := l.flow.value;
    forall i | 0 <= i < |log| && log[i].role == role ensures Log.IndexOf(log, role) == i {
      TheEntry(log, i);
    }
  }

  /** An action is accepted exactly from those who may act, and otherwise changes nothing. */
  lemma ActsExactly(s: State, id: nat, action: Action, role: Role, stamp: Log.Stamp)
    requires SystemOk(s)
    ensures Outcome(s, id, action, role, stamp).Done? <==> MayAct(s, id, action, role, stamp.actor)
    ensures !MayAct(s, id, action, role, stamp.actor) ==> Step(s, Process(id, action, role, stamp)) == s
  {
    if id < |s.leaves| {
      assert LeaveOk(s, s.leaves[id], s.posted[id]);
      GuardExactly(s.leaves[id], action, role, stamp.actor);
      GuardDecides(s.leaves[id], IsEarly(s.books, s.leaves[id].typ), action, role, stamp);
    }
  }

  /** Nobody acts on a leave of their own. */
  lemma OwnLeaveUntouched(s: State, id: nat, action: Action, role: Role, stamp: Log.Stamp)
    requires SystemOk(s) && id < |s.leaves| && stamp.actor == s.leaves[id].emp
    ensures Step(s, Process(id, action, role, stamp)) == s
  {
    ActsExactly(s, id, action, role, stamp);
  }

  /** The states of a role's entries in the log. */
  predicate Stands(l: Leave, role: Role, state: Log.StageState) {
    && l.flow.Some?
    && exists i :: 0 <= i < |l.flow.value| && l.flow.value[i].role == role && l.flow.value[i].state == state
  }

  /** Each refusal tells the truth about the leave. */
  lemma RefusalIsTrue(l: Leave, early: bool, action: Action, role: Role, stamp: Log.Stamp)
    requires Consistent(l) && Act(l, early, action, role, stamp).Refused?
    ensures match Act(l, early, action, role, stamp).why
            case OwnLeave => stamp.actor == l.emp
            case NoFlow => l.flow.None?
            case RoleNotInFlow => l.flow.Some? && forall state :: !Stands(l, role, state)
            case OnlyPending => action.Approve? && !l.status.Pending?
            case OnlyWaiting => (action.Approve? || action.Reject?) && !Stands(l, role, Log.Waiting)
            case OnlyAfterApproval => action.Withdraw? && !l.status.Approved? && !l.status.WithdrawalPending?
            case InvalidAction => action.Unsupported?
            case _ => false
  {
    if l.flow.Some? {
      var log := l.flow.value;
      forall k | 0 <= k < |log| && log[k].role == role ensures Log.IndexOf(log, role) == k {
        TheEntry(log, k);
      }
    }
  }

  /** A leave is cancelled exactly while it is pending, withdrawn or being withdrawn, by nothing but
      its status. */
  lemma CancelExactly(s: State, id: nat)
    requires SystemOk(s)
    ensures var after := Step(s, CancelLeave(id));
            if id < |s.leaves| && (s.leaves[id].status.Pending? || s.leaves[id].status.WithdrawalPending?
                                   || s.leaves[id].status.Withdrawn?)
            then after == s.(leaves := s.leaves[id := s.leaves[id].(status := Cancelled)])
            else after == s
  {}

  // -------------------------------------------------------------------- footprints

  /** The state in which an action leaves the entry of its role. */
  function Mark(action: Action): Log.StageState {
    match action
    case Approve => Log.StageState.Approved
    case Reject => Log.StageState.Rejected
    case _ => Log.StageState.Withdrawn
  }

  /** An accepted action marks and stamps the one entry of its role and no other stamp changes; the
      actor becomes the approver of the leave, except by an approval that is not the last. */
  lemma ActMarks(l: Leave, early: bool, action: Action, role: Role, stamp: Log.Stamp, k: nat)
    requires Consistent(l) && Act(l, early, action, role, stamp).Done?
    requires l.flow.Some? && k < |l.flow.value|
    ensures var after := Act(l, early, action, role, stamp).leave;
            && SameRequest(l, after)
            && after.flow.Some? && |after.flow.value| == |l.flow.value|
            && var entry := after.flow.value[k];
            && entry.role == l.flow.value[k].role && entry.stageNo == l.flow.value[k].stageNo
            && (if entry.role == role then entry.state == Mark(action) && entry.stamp == Some(stamp)
                else entry.stamp == l.flow.value[k].stamp)
            && after.approvedBy == if after.status.Pending? then l.approvedBy else Some(stamp.actor)
  {
    var log, i := l.flow.value, Log.IndexOf(l.flow.value, role);
    LogMarks(log, i, stamp, k);
    match action
    case Approve => ApproveKeeps(l, early, role, stamp);
    case Reject =>
    case Withdraw =>
  }

  predicate Marked(log: seq<Log.Stage>, after: seq<Log.Stage>, i: nat, state: Log.StageState, stamp: Log.Stamp, k: nat)
    requires i < |log| && k < |log|
  {
    && |after| == |log|
    && after[k].role == log[k].role && after[k].stageNo == log[k].stageNo
    && if log[k].role == log[i].role then after[k].state == state && after[k].stamp == Some(stamp)
       else after[k].stamp == log[k].stamp
  }

  lemma LogMarks(log: seq<Log.Stage>, i: nat, stamp: Log.Stamp, k: nat)
    requires Log.UniqueRoles(log) && i < |log| && k < |log|
    ensures Marked(log, Log.ApproveLog(log, i, stamp), i, Log.Approved, stamp, k)
    ensures Marked(log, Log.RejectLog(log, i, stamp), i, Log.StageState.Rejected, stamp, k)
    ensures Marked(log, Log.WithdrawLog(log, i, stamp), i, Log.StageState.Withdrawn, stamp, k)
  {
    assert log[k].role == log[i].role ==> k == i;
  }

  /** Who left the stamps of a leave, and who is its approver. */
  ghost predicate Accounts(l: Leave, acted: (Role, Log.Stamp) -> bool) {
    && (l.flow.Some? ==> forall k :: 0 <= k < |l.flow.value| && l.flow.value[k].stamp.Some?
                           ==> acted(l.flow.value[k].role, l.flow.value[k].stamp.value))
    && (l.approvedBy.Some? ==> exists role, stamp :: acted(role, stamp) && stamp.actor == l.approvedBy.value)
  }

  /** The event is an action on the leave at id that was accepted. */
  predicate Acts(s: State, e: Event, id: nat, role: Role, stamp: Log.Stamp) {
    e.Process? && e.id == id && e.role == role && e.stamp == stamp && MayAct(s, id, e.action, role, stamp.actor)
  }

  predicate Acted(s: State, events: seq<Event>, id: nat, role: Role, stamp: Log.Stamp) {
    events != []
    && var rest := events[..|events| - 1];
       Acted(s, rest, id, role, stamp) || Acts(Run(s, rest), events[|events| - 1], id, role, stamp)
  }

  function ActedOn(s: State, events: seq<Event>, id: nat): (Role, Log.Stamp) -> bool {
    (role, stamp) => Acted(s, events, id, role, stamp)
  }

  lemma GeneratedUnstamped(b: Books, typ: nat, role: Role)
    ensures forall e :: e in GeneratedLog(b, typ, role) ==> e.stamp.None?
  {
    var flow := FlowOf(b, typ);
    if flow.Some? { Flow.GenerateSelects(flow.value, Level(role), 0, role); }
  }

  lemma EditUnstamps(s: State, id: nat, req: Request, days: real, acted: (Role, Log.Stamp) -> bool)
    requires id < |s.leaves| && Accounts(s.leaves[id], acted)
    ensures Accounts(Edited(s, id, req, days), acted)
  {
    var log := GeneratedLog(s.books, req.typ, Role.Employee);
    GeneratedUnstamped(s.books, req.typ, Role.Employee);
    forall k | 0 <= k < |log| ensures log[k].stamp.None? { assert log[k] in log; }
  }

  lemma ActAccounts(l: Leave, early: bool, action: Action, role: Role, stamp: Log.Stamp,
                    before: (Role, Log.Stamp) -> bool, acted: (Role, Log.Stamp) -> bool)
    requires Consistent(l) && Act(l, early, action, role, stamp).Done? && Accounts(l, before)
    requires acted(role, stamp) && forall r, st :: before(r, st) ==> acted(r, st)
    ensures Accounts(Act(l, early, action, role, stamp).leave, acted)
  {
    var after := Act(l, early, action, role, stamp).leave;
    ActMarks(l, early, action, role, stamp, 0);
    forall k | 0 <= k < |after.flow.value| && after.flow.value[k].stamp.Some?
      ensures acted(after.flow.value[k].role, after.flow.value[k].stamp.value)
    {
      ActMarks(l, early, action, role, stamp, k);
    }
  }

  lemma StepAccounts(s: State, e: Event, id: nat, before: (Role, Log.Stamp) -> bool, acted: (Role, Log.Stamp) -> bool)
    requires SystemOk(s) && id < |Step(s, e).leaves|
    requires id < |s.leaves| ==> Accounts(s.leaves[id], before)
    requires forall r, st :: acted(r, st) <==> before(r, st) || Acts(s, e, id, r, st)
    ensures Accounts(Step(s, e).leaves[id], acted)
  {
    if id >= |s.leaves| {
      var log := GeneratedLog(s.books, e.req.typ, e.role);
      GeneratedUnstamped(s.books, e.req.typ, e.role);
      forall k | 0 <= k < |log| ensures log[k].stamp.None? { assert log[k] in log; }
    } else {
      var l := s.leaves[id];
      assert LeaveOk(s, l, s.posted[id]);
      if e.Process? && e.id == id && Outcome(s, id, e.action, e.role, e.stamp).Done? {
        ActsExactly(s, id, e.action, e.role, e.stamp);
        ActAccounts(l, IsEarly(s.books, l.typ), e.action, e.role, e.stamp, before, acted);
      }
      if e.Edit? && e.id == id && Editable(s, e.emp, id) {
        var days := Validated(s, e.emp, e.req, Some(id));
        if days.Some? { EditUnstamps(s, id, e.req, days.value, acted); }
      }
    }
  }

  /** Over every run each stamp in a log was left by an accepted action of the run, in that role
      and by that actor, and the approver of a leave is the actor of one. */
  lemma {:induction false} StampsComeFromActs(year: int, holidays: set<int>, events: seq<Event>, id: nat)
    requires id < |Run(Start(year, holidays), events).leaves|
    ensures var s := Start(year, holidays);
            Accounts(Run(s, events).leaves[id], ActedOn(s, events, id))
  {
    var s0 := Start(year, holidays);
    if events == [] {
    } else {
      var rest := events[..|events| - 1];
      RunKeeps(year, holidays, rest);
      if id < |Run(s0, rest).leaves| { StampsComeFromActs(year, holidays, rest, id); }
      StepAccounts(Run(s0, rest), events[|events| - 1], id, ActedOn(s0, rest, id), ActedOn(s0, events, id));
    }
  }

  lemma StepKeepsOwner(s: State, e: Event)
    requires SystemOk(s)
    ensures |s.leaves| <= |Step(s, e).leaves| && |s.books.staff| <= |Step(s, e).books.staff|
    ensures forall i :: 0 <= i < |s.leaves| ==> Step(s, e).leaves[i].emp == s.leaves[i].emp
  {
    if e.Office? { PerformKeepsUsed(s.books, e.op); }
    if e.Process? && e.id < |s.leaves| && Outcome(s, e.id, e.action, e.role, e.stamp).Done? {
      assert LeaveOk(s, s.leaves[e.id], s.posted[e.id]);
      ActMarks(s.leaves[e.id], IsEarly(s.books, s.leaves[e.id].typ), e.action, e.role, e.stamp, 0);
      PostKeepsTables(s.books, Outcome(s, e.id, e.action, e.role, e.stamp).posted);
    }
  }

  /** Over every run, whoever acted on a leave is an employee other than the applicant. */
  lemma {:induction false} ActorsAreOthers(year: int, holidays: set<int>, events: seq<Event>, id: nat,
                                           role: Role, stamp: Log.Stamp)
    requires Acted(Start(year, holidays), events, id, role, stamp)
    ensures var s := Run(Start(year, holidays), events);
            id < |s.leaves| && stamp.actor < |s.books.staff| && stamp.actor != s.leaves[id].emp
  {
    var rest := events[..|events| - 1];
    RunKeeps(year, holidays, rest);
    StepKeepsOwner(Run(Start(year, holidays), rest), events[|events| - 1]);
    if Acted(Start(year, holidays), rest, id, role, stamp) {
      ActorsAreOthers(year, holidays, rest, id, role, stamp);
    }
  }

  /** So no stamp of a leave, and no approver, is the applicant. */
  lemma NobodyDecidesOwnLeave(year: int, holidays: set<int>, events: seq<Event>, id: nat)
    requires id < |Run(Start(year, holidays), events).leaves|
    ensures var l := Run(Start(year, holidays), events).leaves[id];
            && l.approvedBy != Some(l.emp)
            && (l.flow.Some? ==> forall k :: 0 <= k < |l.flow.value| && l.flow.value[k].stamp.Some?
                                   ==> l.flow.value[k].stamp.value.actor != l.emp)
  {
    var s0 := Start(year, holidays);
    var l := Run(s0, events).leaves[id];
    StampsComeFromActs(year, holidays, events, id);
    if l.flow.Some? {
      forall k | 0 <= k < |l.flow.value| && l.flow.value[k].stamp.Some?
        ensures l.flow.value[k].stamp.value.actor != l.emp
      {
        ActorsAreOthers(year, holidays, events, id, l.flow.value[k].role, l.flow.value[k].stamp.value);
      }
    }
    if l.approvedBy.Some? {
      var role, stamp :| Acted(s0, events, id, role, stamp) && stamp.actor == l.approvedBy.value;
      ActorsAreOthers(year, holidays, events, id, role, stamp);
    }
  }
}

/**
 * One leave request with its approval log, the guards in front of the three
 * actions, and what each action and a cancellation do to it.  The statements
 * that an action issues against the balance table are returned as postings.
 */
module LeaveRecord {
  import opened Basics
  import Log = ApprovalLog
  import Frontier = LogFrontier

  datatype Status = Pending | Approved | Rejected | Cancelled | WithdrawalPending | Withdrawn

  /** A leave joined with its flow row; None means that no flow row was written. */
  datatype Leave = Leave(
    emp: nat, typ: nat, start: int, end: int, days: real,
    status: Status, approvedBy: Option<nat>, flow: Option<seq<Log.Stage>>)

  /** A debit or refund statement against the balance row of (emp, typ) in the current year. */
  datatype Posting = Debit(emp: nat, typ: nat, days: real) | Refund(emp: nat, typ: nat, days: real)

  datatype Action = Approve | Reject | Withdraw | Unsupported

  datatype Refusal =
    | NoSuchLeave | NoSuchActor | OwnLeave | NoFlow | RoleNotInFlow | OnlyPending | OnlyWaiting
    | OnlyAfterApproval | InvalidAction | AlreadyClosed

  datatype Result = Refused(why: Refusal) | Done(leave: Leave, posted: seq<Posting>)

  // ------------------------------------------------------------------ the steps

  /** The guard in front of an action; None lets it through. */
  function Guard(l: Leave, a: Action, actor: nat, role: Role): Option<Refusal> {
    if l.emp == actor then Some(OwnLeave)
    else if l.flow.None? then Some(NoFlow)
    else
      var i := Log.IndexOf(l.flow.value, role);
      if i < 0 then Some(RoleNotInFlow)
      else match a
        case Approve =>
          if l.status != Pending then Some(OnlyPending)
          else if l.flow.value[i].state != Log.Waiting then Some(OnlyWaiting)
          else None
        case Reject =>
          if l.flow.value[i].state != Log.Waiting then Some(OnlyWaiting) else None
        case Withdraw =>
          if l.status != Approved && l.status != WithdrawalPending then Some(OnlyAfterApproval) else None
        case Unsupported => Some(InvalidAction)
  }

  function Act(l: Leave, early: bool, a: Action, role: Role, stamp: Log.Stamp): Result {
    var guard := Guard(l, a, stamp.actor, role);
    if guard.Some? then Refused(guard.value)
    else
      var log := l.flow.value;
      var i := Log.IndexOf(log, role);
      match a
      case Approve =>
        var after := Log.ApproveLog(log, i, stamp);
        if !Log.ApproveSettled(after) then Done(l.(flow := Some(after)), [])
        else Done(l.(flow := Some(after), status := Approved, approvedBy := Some(stamp.actor)),
                  if early then [] else [Debit(l.emp, l.typ, l.days)])
      case Reject =>
        Done(l.(flow := Some(Log.RejectLog(log, i, stamp)), status := Rejected, approvedBy := Some(stamp.actor)), [])
      case Withdraw =>
        var after := Log.WithdrawLog(log, i, stamp);
        if !Log.WithdrawSettled(after)
        then Done(l.(flow := Some(after), status := WithdrawalPending, approvedBy := Some(stamp.actor)), [])
        else Done(l.(flow := Some(after), status := Withdrawn, approvedBy := Some(stamp.actor)),
                  if early then [] else [Refund(l.emp, l.typ, l.days)])
  }

  function Cancel(l: Leave): Result {
    if l.status.Approved? || l.status.Rejected? || l.status.Cancelled? then Refused(AlreadyClosed)
    else Done(l.(status := Cancelled), [])
  }

  // -------------------------------------------------------------- the invariant

  predicate HasWithdrawn(log: seq<Log.Stage>) {
    exists i :: 0 <= i < |log| && log[i].state.Withdrawn?
  }

  predicate HasWaiting(log: seq<Log.Stage>) {
    exists i :: 0 <= i < |log| && log[i].state.Waiting?
  }

  /** Pending log: cut by an approval frontier below the top stage. */
  ghost predicate PendingLog(log: seq<Log.Stage>)
    requires log != []
  {
    exists t :: Frontier.ApprovedUpTo(log, t) && t < Frontier.Top(log)
  }

  ghost predicate WithdrawingLog(log: seq<Log.Stage>)
    requires log != []
  {
    exists w :: Frontier.WithdrawnUpTo(log, w)
  }

  predicate ReleasedLog(log: seq<Log.Stage>) {
    HasWithdrawn(log) && Log.WithdrawSettled(log)
  }

  /** A withdrawal that somebody cut short by rejecting. */
  predicate CutShortLog(log: seq<Log.Stage>) {
    HasWithdrawn(log) && !Log.WithdrawSettled(log) && !HasWaiting(log)
  }

  /** A plain rejection. */
  predicate RefusedLog(log: seq<Log.Stage>) {
    !HasWithdrawn(log) && !HasWaiting(log)
  }

  /** What the log of a leave looks like in each status. */
  ghost predicate Consistent(l: Leave) {
    match l.flow
    case None => l.status.Pending? || l.status.Cancelled?
    case Some(log) =>
      && Frontier.WellFormed(log)
      && match l.status
         case Pending => PendingLog(log)
         case Approved => Log.ApproveSettled(log)
         case WithdrawalPending => WithdrawingLog(log)
         case Withdrawn => ReleasedLog(log)
         case Rejected => RefusedLog(log) || CutShortLog(log)
         case Cancelled => PendingLog(log) || WithdrawingLog(log) || ReleasedLog(log)
  }

  /** A fresh log starts at frontier 0. */
  lemma FreshLogIsPending(log: seq<Log.Stage>)
    requires Frontier.WellFormed(log) && forall i :: 0 <= i < |log| ==> log[i].state.Waiting?
    ensures PendingLog(log)
  {
    assert Frontier.ApprovedUpTo(log, 0);
    assert log[0].stageNo <= Frontier.Top(log);
  }

  lemma PendingLogFacts(log: seq<Log.Stage>)
    requires Frontier.WellFormed(log) && PendingLog(log)
    ensures !HasWithdrawn(log) && HasWaiting(log)
  {}

  lemma WithdrawingLogFacts(log: seq<Log.Stage>)
    requires Frontier.WellFormed(log) && WithdrawingLog(log)
    ensures HasWithdrawn(log) && HasWaiting(log) && !Log.WithdrawSettled(log)
    ensures Frontier.TopNotWithdrawn(log)
  {}

  /** A rejection decides its own entry and skips everything that still waits. */
  predicate RejectedAt(log: seq<Log.Stage>, after: seq<Log.Stage>, i: nat)
    requires i < |log|
  {
    && |after| == |log|
    && forall k :: 0 <= k < |log| ==>
         after[k].state == (
           if k == i then Log.StageState.Rejected
           else if log[k].state.Waiting? then Log.Skipped
           else log[k].state)
  }

  lemma RejectedLogFacts(log: seq<Log.Stage>, i: nat, stamp: Log.Stamp)
    requires Frontier.WellFormed(log) && i < |log| && log[i].state.Waiting?
    ensures var after := Log.RejectLog(log, i, stamp);
            && Frontier.WellFormed(after)
            && RejectedAt(log, after, i)
            && !HasWaiting(after)
            && !Log.WithdrawSettled(after)
            && (HasWithdrawn(after) <==> HasWithdrawn(log))
  {}

  lemma WithdrawnLogFacts(log: seq<Log.Stage>, i: nat, stamp: Log.Stamp)
    requires Frontier.WellFormed(log) && Frontier.TopNotWithdrawn(log) && i < |log|
    ensures var after := Log.WithdrawLog(log, i, stamp);
            && Frontier.WellFormed(after)
            && (Log.WithdrawSettled(after) <==> log[i].stageNo == Frontier.Top(log))
            && (if Log.WithdrawSettled(after) then ReleasedLog(after)
                else WithdrawingLog(after) && Frontier.WithdrawnUpTo(after, log[i].stageNo))
  {
    var after := Log.WithdrawLog(log, i, stamp);
    Frontier.WithdrawMoves(log, i, stamp);
    Frontier.ShapeKeeps(log, after);
    assert after[i].state.Withdrawn?;
  }

  /** The actor's stage, if the actor is in the log at all. */
  predicate ActsAtTop(l: Leave, role: Role)
    requires l.flow.Some? && l.flow.value != []
  {
    var i := Log.IndexOf(l.flow.value, role);
    i >= 0 && l.flow.value[i].stageNo == Frontier.Top(l.flow.value)
  }

  /** An accepted approval keeps the invariant and makes the leave Approved exactly
      when the actor sits at the top stage. */
  lemma ApproveKeeps(l: Leave, early: bool, role: Role, stamp: Log.Stamp)
    requires Consistent(l) && Act(l, early, Approve, role, stamp).Done?
    ensures l.status.Pending? && l.flow.Some?
    ensures var after := Act(l, early, Approve, role, stamp).leave;
            && Consistent(after)
            && after.status == (if ActsAtTop(l, role) then Approved else Pending)
  {
    var log := l.flow.value;
    var i := Log.IndexOf(log, role);
    var t :| Frontier.ApprovedUpTo(log, t) && t < Frontier.Top(log);
    var after := Log.ApproveLog(log, i, stamp);
    Frontier.ApproveAdvances(log, t, i, stamp);
    Frontier.ShapeKeeps(log, after);
    assert Frontier.ApprovedUpTo(after, log[i].stageNo);
  }

  /** An accepted rejection closes the leave whatever its status was. */
  lemma RejectKeeps(l: Leave, early: bool, role: Role, stamp: Log.Stamp)
    requires Consistent(l) && Act(l, early, Reject, role, stamp).Done?
    ensures l.status.Pending? || l.status.WithdrawalPending? || l.status.Cancelled?
    ensures l.flow.Some?
    ensures var after := Act(l, early, Reject, role, stamp).leave;
            && Consistent(after)
            && after.status.Rejected?
            && (HasWithdrawn(after.flow.value) <==> HasWithdrawn(l.flow.value))
  {
    var log := l.flow.value;
    var i := Log.IndexOf(log, role);
    assert HasWaiting(log);
    RejectedLogFacts(log, i, stamp);
    if PendingLog(log) {
      PendingLogFacts(log);
    }
  }

  /** An accepted withdrawal finalises exactly when the actor sits at the top stage; otherwise the
      frontier is the actor's stage. */
  lemma WithdrawKeeps(l: Leave, early: bool, role: Role, stamp: Log.Stamp)
    requires Consistent(l) && Act(l, early, Withdraw, role, stamp).Done?
    ensures l.status.Approved? || l.status.WithdrawalPending?
    ensures l.flow.Some?
    ensures var after := Act(l, early, Withdraw, role, stamp).leave;
            && Consistent(after)
            && after.status == (if ActsAtTop(l, role) then Withdrawn else WithdrawalPending)
            && after.flow.Some? && after.flow.value != []
            && (after.status.WithdrawalPending?
                ==> Frontier.WithdrawnUpTo(after.flow.value, l.flow.value[Log.IndexOf(l.flow.value, role)].stageNo))
  {
    var log := l.flow.value;
    var i := Log.IndexOf(log, role);
    if l.status.WithdrawalPending? {
      WithdrawingLogFacts(log);
    }
    WithdrawnLogFacts(log, i, stamp);
  }

  lemma CancelKeeps(l: Leave)
    requires Consistent(l) && Cancel(l).Done?
    ensures Consistent(Cancel(l).leave) && Cancel(l).leave.status.Cancelled?
  {}

  // ------------------------------------------------------------------- charging

  /** A rejection or cancellation in the middle of a withdrawal leaves this mark in the log. */
  predicate Stranded(l: Leave) {
    && (l.status.Rejected? || l.status.Cancelled?)
    && l.flow.Some? && HasWithdrawn(l.flow.value) && !Log.WithdrawSettled(l.flow.value)
  }

  /** Leaves whose days the balance carries. */
  predicate Charged(l: Leave) {
    l.status.Approved? || l.status.WithdrawalPending? || Stranded(l)
  }

  /** Leaves whose days were given back. */
  predicate Refunded(l: Leave) {
    || l.status.Withdrawn?
    || (l.status.Cancelled? && l.flow.Some? && ReleasedLog(l.flow.value))
  }

  /** All the statements a leave in this shape has ever issued against the balance. */
  function Postings(l: Leave, early: bool): seq<Posting> {
    if early then []
    else if Charged(l) then [Debit(l.emp, l.typ, l.days)]
    else if Refunded(l) then [Debit(l.emp, l.typ, l.days), Refund(l.emp, l.typ, l.days)]
    else []
  }

  /** What an action leaves alone. */
  predicate SameRequest(a: Leave, b: Leave) {
    a.emp == b.emp && a.typ == b.typ && a.start == b.start && a.end == b.end && a.days == b.days
  }

  /** A result posts exactly what takes the leave from its old history to its new one. */
  ghost predicate PostsDifference(l: Leave, early: bool, r: Result) {
    && r.Done? && Consistent(r.leave) && SameRequest(l, r.leave)
    && Postings(r.leave, early) == Postings(l, early) + r.posted
  }

  /** A rejection posts nothing: it leaves a charged leave charged and any other uncharged. */
  lemma RejectPosts(l: Leave, early: bool, role: Role, stamp: Log.Stamp)
    requires Consistent(l) && Act(l, early, Reject, role, stamp).Done?
    ensures PostsDifference(l, early, Act(l, early, Reject, role, stamp))
  {
    RejectKeeps(l, early, role, stamp);
    var log := l.flow.value;
    if PendingLog(log) { PendingLogFacts(log); }
    if WithdrawingLog(log) { WithdrawingLogFacts(log); }
  }

  lemma ApprovePosts(l: Leave, early: bool, role: Role, stamp: Log.Stamp)
    requires Consistent(l) && Act(l, early, Approve, role, stamp).Done?
    ensures PostsDifference(l, early, Act(l, early, Approve, role, stamp))
  {
    ApproveKeeps(l, early, role, stamp);
    PendingLogFacts(l.flow.value);
  }

  lemma WithdrawPosts(l: Leave, early: bool, role: Role, stamp: Log.Stamp)
    requires Consistent(l) && Act(l, early, Withdraw, role, stamp).Done?
    ensures PostsDifference(l, early, Act(l, early, Withdraw, role, stamp))
  {
    WithdrawKeeps(l, early, role, stamp);
  }

  /** Every accepted action posts exactly what takes the leave from its old history to its
      new one; so a debit happens once, and a refund once and for the debited amount. */
  lemma ActPosts(l: Leave, early: bool, a: Action, role: Role, stamp: Log.Stamp)
    requires Consistent(l) && Act(l, early, a, role, stamp).Done?
    ensures PostsDifference(l, early, Act(l, early, a, role, stamp))
  {
    match a
    case Approve => ApprovePosts(l, early, role, stamp);
    case Reject => RejectPosts(l, early, role, stamp);
    case Withdraw => WithdrawPosts(l, early, role, stamp);
  }

  lemma CancelPosts(l: Leave, early: bool)
    requires Consistent(l) && Cancel(l).Done?
    ensures Postings(Cancel(l).leave, early) == Postings(l, early)
    ensures SameRequest(l, Cancel(l).leave)
  {}

  /** The only way to be charged outside Approved and WithdrawalPending is a rejection or a
      cancellation of a leave whose withdrawal was pending. */
  lemma StrandedByReject(l: Leave, early: bool, a: Action, role: Role, stamp: Log.Stamp)
    requires Consistent(l) && Act(l, early, a, role, stamp).Done?
    ensures Stranded(Act(l, early, a, role, stamp).leave)
            <==> Stranded(l) || (l.status.WithdrawalPending? && a.Reject?)
  {
    match a
    case Approve =>
      ApproveKeeps(l, early, role, stamp);
    case Reject =>
      RejectKeeps(l, early, role, stamp);
      var log := l.flow.value;
      RejectedLogFacts(log, Log.IndexOf(log, role), stamp);
      if PendingLog(log) { PendingLogFacts(log); }
      if WithdrawingLog(log) { WithdrawingLogFacts(log); }
    case Withdraw =>
      WithdrawKeeps(l, early, role, stamp);
  }

  lemma StrandedByCancel(l: Leave)
    requires Consistent(l) && Cancel(l).Done?
    ensures Stranded(Cancel(l).leave) <==> l.status.WithdrawalPending?
  {}

  // --------------------------------------------------------------------- statuses

  /** Pending and approved leaves occupy their dates. */
  predicate Active(l: Leave) {
    l.status.Pending? || l.status.Approved?
  }

  /** How far a leave is along its life; it never goes back. */
  function Age(s: Status): nat {
    match s
    case Pending => 0
    case Approved => 1
    case WithdrawalPending => 2
    case Withdrawn => 3
    case Cancelled => 4
    case Rejected => 5
  }

  lemma ActAges(l: Leave, early: bool, a: Action, role: Role, stamp: Log.Stamp)
    requires Consistent(l) && Act(l, early, a, role, stamp).Done?
    ensures var after := Act(l, early, a, role, stamp).leave;
            && Age(l.status) <= Age(after.status)
            && (after.status.Approved? ==> l.status.Pending?)
            && (Active(after) ==> Active(l))
  {}
}

/**
 * What the log algebra does to a leave: a log is always cut by a frontier.
 * While a leave is pending the frontier separates decided stages from waiting
 * ones; while a withdrawal is pending it separates released stages from those
 * that still have to confirm.  Whoever acts moves the frontier to their own
 * stage, and the leave is finalised exactly by an actor of the top stage.
 */
module LogFrontier {
  import opened Basics
  import opened ApprovalLog

  /** Logs as generated: nonempty, positive stages, every role once. */
  predicate WellFormed(log: seq<Stage>) {
    log != [] && UniqueRoles(log) && forall i :: 0 <= i < |log| ==> log[i].stageNo > 0
  }

  /** The largest stage number. */
  function Top(log: seq<Stage>): (n: int)
    requires log != []
    ensures forall i :: 0 <= i < |log| ==> log[i].stageNo <= n
    ensures exists i :: 0 <= i < |log| && log[i].stageNo == n
  {
    if |log| == 1 then log[0].stageNo
    else
      var rest := Top(log[1..]);
      var k :| 0 <= k < |log[1..]| && log[1..][k].stageNo == rest;
      assert log[k + 1].stageNo == rest;
      assert forall i :: 1 <= i < |log| ==> log[i] == log[1..][i - 1];
      if log[0].stageNo > rest then log[0].stageNo else rest
  }

  /** Same entries up to state and stamp. */
  predicate SameShape(a: seq<Stage>, b: seq<Stage>) {
    |a| == |b| && forall i :: 0 <= i < |a| ==> a[i].stageNo == b[i].stageNo && a[i].role == b[i].role
  }

  lemma ShapeKeeps(a: seq<Stage>, b: seq<Stage>)
    requires WellFormed(a) && SameShape(a, b)
    ensures WellFormed(b) && Top(b) == Top(a)
  {}

  // ------------------------------------------------------------------ approval

  /** Decided up to stage t, with one approval at t and at most one per stage; waiting above. */
  predicate ApprovedUpTo(log: seq<Stage>, t: int) {
    && 0 <= t
    && (forall i :: 0 <= i < |log| ==>
          if log[i].stageNo > t then log[i].state.Waiting? else log[i].state.Approved? || log[i].state.Skipped?)
    && (forall i, j :: 0 <= i < j < |log| && log[i].state.Approved? && log[j].state.Approved?
          ==> log[i].stageNo != log[j].stageNo)
    && (t > 0 ==> exists i :: 0 <= i < |log| && log[i].stageNo == t && log[i].state.Approved?)
  }

  /** With every role once, an approval decides its own entry and skips all others that wait
      at its stage or below. */
  predicate ApprovedAt(log: seq<Stage>, after: seq<Stage>, i: nat)
    requires i < |log|
  {
    && |after| == |log|
    && forall k :: 0 <= k < |log| ==>
         && after[k].stageNo == log[k].stageNo && after[k].role == log[k].role
         && after[k].state == (
              if k == i then Approved
              else if log[k].state.Waiting? && log[k].stageNo <= log[i].stageNo then Skipped
              else log[k].state)
  }

  lemma ApproveDecides(log: seq<Stage>, i: nat, stamp: Stamp)
    requires WellFormed(log) && i < |log|
    ensures ApprovedAt(log, ApproveLog(log, i, stamp), i)
  {}

  lemma ApprovedAtAdvances(log: seq<Stage>, after: seq<Stage>, t: int, i: nat)
    requires WellFormed(log) && ApprovedUpTo(log, t)
    requires i < |log| && log[i].state.Waiting? && ApprovedAt(log, after, i)
    ensures t < log[i].stageNo && ApprovedUpTo(after, log[i].stageNo)
  {}

  /** An approval by a waiting role moves the frontier up to its stage; it settles the log
      exactly when that stage is the top one. */
  lemma ApproveAdvances(log: seq<Stage>, t: int, i: nat, stamp: Stamp)
    requires WellFormed(log) && ApprovedUpTo(log, t)
    requires i < |log| && log[i].state.Waiting?
    ensures var after := ApproveLog(log, i, stamp);
            && t < log[i].stageNo
            && SameShape(log, after)
            && ApprovedUpTo(after, log[i].stageNo)
            && (ApproveSettled(after) <==> log[i].stageNo == Top(log))
  {
    var after := ApproveLog(log, i, stamp);
    ApproveDecides(log, i, stamp);
    ApprovedAtAdvances(log, after, t, i);
    var top :| 0 <= top < |log| && log[top].stageNo == Top(log);
    assert after[top].stageNo == Top(log);
  }

  /** The stage numbers still above the frontier. */
  function StagesAbove(log: seq<Stage>, t: int): set<int> {
    set i | 0 <= i < |log| && log[i].stageNo > t :: log[i].stageNo
  }

  lemma FewerAbove(log: seq<Stage>, t: int, i: nat)
    requires i < |log| && t < log[i].stageNo
    ensures |StagesAbove(log, log[i].stageNo)| < |StagesAbove(log, t)|
  {
    var above, below := StagesAbove(log, log[i].stageNo), StagesAbove(log, t);
    assert log[i].stageNo in below && log[i].stageNo !in above;
    assert above <= below - {log[i].stageNo};
    SubsetSize(above, below - {log[i].stageNo});
  }

  lemma SubsetSize(a: set<int>, b: set<int>)
    requires a <= b
    ensures |a| <= |b|
  {
    assert b == a + (b - a);
  }

  lemma SameStagesAbove(a: seq<Stage>, b: seq<Stage>, t: int)
    requires SameShape(a, b)
    ensures StagesAbove(a, t) == StagesAbove(b, t)
  {}

  datatype Approval = Approval(role: Role, stamp: Stamp)

  /** The log after a list of approvals, each by a role that is waiting then; None if one is not. */
  function ApproveAll(log: seq<Stage>, acts: seq<Approval>): Option<seq<Stage>>
    decreases acts
  {
    if acts == [] then Some(log)
    else
      var i := IndexOf(log, acts[0].role);
      if i < 0 || !log[i].state.Waiting? then None
      else ApproveAll(ApproveLog(log, i, acts[0].stamp), acts[1..])
  }

  /** No run of approvals is longer than the number of distinct stages above the frontier. */
  lemma {:induction false} ApprovalsBounded(log: seq<Stage>, t: int, acts: seq<Approval>)
    requires WellFormed(log) && ApprovedUpTo(log, t) && ApproveAll(log, acts).Some?
    ensures |acts| <= |StagesAbove(log, t)|
    decreases acts
  {
    if acts == [] {
    } else {
      var i := IndexOf(log, acts[0].role);
      var after := ApproveLog(log, i, acts[0].stamp);
      ApproveAdvances(log, t, i, acts[0].stamp);
      ShapeKeeps(log, after);
      ApprovalsBounded(after, log[i].stageNo, acts[1..]);
      SameStagesAbove(log, after, log[i].stageNo);
      FewerAbove(log, t, i);
    }
  }

  // ---------------------------------------------------------------- withdrawal

  /** Released up to stage w, the last actor's; still to confirm above; the whole top stage waits. */
  predicate WithdrawnUpTo(log: seq<Stage>, w: int)
    requires log != []
  {
    && w < Top(log)
    && (forall i :: 0 <= i < |log| ==>
          if log[i].stageNo > w then log[i].state.Waiting? || log[i].state.Withdrawn?
          else log[i].state.Skipped? || log[i].state.Withdrawn?)
    && (forall i :: 0 <= i < |log| && log[i].stageNo == Top(log) ==> log[i].state.Waiting?)
    && (exists i :: 0 <= i < |log| && log[i].stageNo == w && log[i].state.Withdrawn?)
  }

  /** Logs from which a withdrawal can start or go on: nobody of the top stage has withdrawn. */
  predicate TopNotWithdrawn(log: seq<Stage>)
    requires log != []
  {
    forall i :: 0 <= i < |log| && log[i].stageNo == Top(log) ==> !log[i].state.Withdrawn?
  }

  /** With every role once, a withdrawal stamps its own entry; all others that have not
      withdrawn are skipped up to its stage and asked to confirm above it. */
  predicate WithdrawnAt(log: seq<Stage>, after: seq<Stage>, i: nat)
    requires i < |log|
  {
    && |after| == |log|
    && forall k :: 0 <= k < |log| ==>
         && after[k].stageNo == log[k].stageNo && after[k].role == log[k].role
         && after[k].state == (
              if k == i || log[k].state.Withdrawn? then Withdrawn
              else if log[k].stageNo <= log[i].stageNo then Skipped
              else Waiting)
         && (k != i && log[k].state.Withdrawn? ==> after[k] == log[k])
  }

  lemma WithdrawReleases(log: seq<Stage>, i: nat, stamp: Stamp)
    requires WellFormed(log) && i < |log|
    ensures WithdrawnAt(log, WithdrawLog(log, i, stamp), i)
  {}

  lemma WithdrawnAtMoves(log: seq<Stage>, after: seq<Stage>, i: nat)
    requires WellFormed(log) && TopNotWithdrawn(log)
    requires i < |log| && WithdrawnAt(log, after, i)
    requires after != [] && Top(after) == Top(log)
    ensures WithdrawSettled(after) <==> log[i].stageNo == Top(log)
    ensures log[i].stageNo < Top(log) ==> WithdrawnUpTo(after, log[i].stageNo)
  {}

  /** A withdrawal by any role of the log, whatever its state: it finalises exactly from the
      top stage, otherwise the frontier is the actor's stage; and withdrawn entries stay. */
  lemma WithdrawMoves(log: seq<Stage>, i: nat, stamp: Stamp)
    requires WellFormed(log) && TopNotWithdrawn(log)
    requires i < |log|
    ensures var after := WithdrawLog(log, i, stamp);
            && SameShape(log, after)
            && Top(after) == Top(log)
            && (WithdrawSettled(after) <==> log[i].stageNo == Top(log))
            && (log[i].stageNo < Top(log) ==> WithdrawnUpTo(after, log[i].stageNo))
            && after[i].state.Withdrawn?
            && (forall k :: 0 <= k < |log| && log[k].state.Withdrawn? ==> after[k].state.Withdrawn?)
  {
    var after := WithdrawLog(log, i, stamp);
    WithdrawReleases(log, i, stamp);
    ShapeKeeps(log, after);
    WithdrawnAtMoves(log, after, i);
  }

  /** The log after a list of withdrawals by waiting roles (the documented rule). */
  function WithdrawAll(log: seq<Stage>, acts: seq<Approval>): Option<seq<Stage>>
    decreases acts
  {
    if acts == [] then Some(log)
    else
      var i := IndexOf(log, acts[0].role);
      if i < 0 || !log[i].state.Waiting? then None
      else WithdrawAll(WithdrawLog(log, i, acts[0].stamp), acts[1..])
  }

  /** Under the documented rule each confirmation raises the frontier, so they are bounded. */
  lemma {:induction false} ConfirmationsBounded(log: seq<Stage>, w: int, acts: seq<Approval>)
    requires WellFormed(log) && WithdrawnUpTo(log, w) && WithdrawAll(log, acts).Some?
    ensures |acts| <= |StagesAbove(log, w)|
    decreases acts
  {
    if acts == [] {
    } else {
      var i := IndexOf(log, acts[0].role);
      var after := WithdrawLog(log, i, acts[0].stamp);
      assert w < log[i].stageNo;
      WithdrawMoves(log, i, acts[0].stamp);
      ShapeKeeps(log, after);
      FewerAbove(log, w, i);
      if log[i].stageNo < Top(log) {
        ConfirmationsBounded(after, log[i].stageNo, acts[1..]);
        SameStagesAbove(log, after, log[i].stageNo);
      } else {
        NoneAfterSettled(after, acts[1..]);
      }
    }
  }

  lemma NoneAfterSettled(log: seq<Stage>, acts: seq<Approval>)
    requires WithdrawSettled(log) && WithdrawAll(log, acts).Some?
    ensures acts == []
  {}

  // ------------------------------------------------------- progress of withdrawals

  /** The entries that have withdrawn. */
  function Released(log: seq<Stage>): set<nat> {
    set i: nat | i < |log| && log[i].state.Withdrawn?
  }

  lemma ReleasedFit(log: seq<Stage>)
    ensures |Released(log)| <= |log|
  {
    IndexesCount(|log|);
    assert Released(log) <= Indexes(|log|);
    SubsetSize(Released(log), Indexes(|log|));
  }

  function Indexes(n: nat): set<nat> {
    if n == 0 then {} else Indexes(n - 1) + {n - 1}
  }

  lemma {:induction false} IndexesCount(n: nat)
    ensures |Indexes(n)| == n && forall i: nat :: i in Indexes(n) <==> i < n
  {
    if n == 0 {
    } else {
      IndexesCount(n - 1);
    }
  }

  /** A withdrawal adds its own entry to those that have withdrawn, and no other; so it makes
      progress exactly when that entry had not withdrawn before. */
  lemma WithdrawAdds(log: seq<Stage>, i: nat, stamp: Stamp)
    requires WellFormed(log) && i < |log|
    ensures Released(WithdrawLog(log, i, stamp)) == Released(log) + {i}
    ensures |Released(WithdrawLog(log, i, stamp))| == |Released(log)| + if log[i].state.Withdrawn? then 0 else 1
  {
    WithdrawReleases(log, i, stamp);
    assert Released(WithdrawLog(log, i, stamp)) == Released(log) + {i};
  }

  /** The log after a list of withdrawals by roles of the log, in whatever state, as the guard
      lets them through. */
  function WithdrawEach(log: seq<Stage>, acts: seq<Approval>): Option<seq<Stage>>
    decreases acts
  {
    if acts == [] then Some(log)
    else
      var i := IndexOf(log, acts[0].role);
      if i < 0 then None else WithdrawEach(WithdrawLog(log, i, acts[0].stamp), acts[1..])
  }

  /** How many of them are by a role that has withdrawn already. */
  function Repeats(log: seq<Stage>, acts: seq<Approval>): nat
    decreases acts
  {
    if acts == [] then 0
    else
      var i := IndexOf(log, acts[0].role);
      if i < 0 then 0
      else (if log[i].state.Withdrawn? then 1 else 0) + Repeats(WithdrawLog(log, i, acts[0].stamp), acts[1..])
  }

  lemma {:induction false} SameLength(log: seq<Stage>, acts: seq<Approval>)
    requires WithdrawEach(log, acts).Some?
    ensures |WithdrawEach(log, acts).value| == |log|
    decreases acts
  {
    if acts == [] {
    } else {
      SameLength(WithdrawLog(log, IndexOf(log, acts[0].role), acts[0].stamp), acts[1..]);
    }
  }

  /** Every withdrawal either makes progress or is a repetition: a list of them is as long as its
      progress exactly when nobody repeats, and then no longer than the log. */
  lemma {:induction false} WithdrawalsCounted(log: seq<Stage>, acts: seq<Approval>)
    requires WellFormed(log) && WithdrawEach(log, acts).Some?
    ensures var after := WithdrawEach(log, acts).value;
            && |acts| == |Released(after)| - |Released(log)| + Repeats(log, acts)
            && (Repeats(log, acts) == 0 <==> |acts| + |Released(log)| == |Released(after)|)
            && (Repeats(log, acts) == 0 ==> |acts| <= |log|)
    decreases acts
  {
    if acts == [] {
    } else {
      var i := IndexOf(log, acts[0].role);
      var after := WithdrawLog(log, i, acts[0].stamp);
      WithdrawReleases(log, i, acts[0].stamp);
      ShapeKeeps(log, after);
      WithdrawAdds(log, i, acts[0].stamp);
      WithdrawalsCounted(after, acts[1..]);
      ReleasedFit(WithdrawEach(log, acts).value);
      SameLength(log, acts);
    }
  }

  /** The guard is weaker than the documented rule: an actor below the top may repeat
      forever, because a second withdrawal by the same role leaves every state as it was. */
  lemma RepeatedWithdrawalStalls(log: seq<Stage>, i: nat, stamp: Stamp, again: Stamp)
    requires WellFormed(log) && TopNotWithdrawn(log) && i < |log|
    ensures var once := WithdrawLog(log, i, stamp);
            WithdrawLog(once, i, again) == once[i := Stamped(once[i], Withdrawn, again)]
  {}
}

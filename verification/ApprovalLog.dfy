/**
 * The approval log of one leave and the in-place algebra on it.  Each method
 * runs the loop of the original over an array and is proved against a function
 * on sequences; what those functions mean for a leave is in LogFrontier.
 */
module ApprovalLog {
  import opened Basics

  datatype StageState = Waiting | Approved | Rejected | Withdrawn | Skipped

  /** Who acted, with what remark and when; written only by StampStage. */
  datatype Stamp = Stamp(actor: nat, remarks: string, at: int)

  datatype Stage = Stage(stageNo: int, role: Role, state: StageState, stamp: Option<Stamp>)

  // ---------------------------------------------------------------- meanings

  predicate UniqueRoles(log: seq<Stage>) {
    forall i, j :: 0 <= i < j < |log| ==> log[i].role != log[j].role
  }

  /** Index of the first entry of the role, or -1. */
  function IndexOf(log: seq<Stage>, role: Role): (i: int)
    ensures -1 <= i < |log|
    ensures i >= 0 ==> log[i].role == role && forall k :: 0 <= k < i ==> log[k].role != role
    ensures i < 0 ==> forall k :: 0 <= k < |log| ==> log[k].role != role
  {
    if log == [] then -1
    else if log[0].role == role then 0
    else
      var rest := IndexOf(log[1..], role);
      assert forall k :: 1 <= k < |log| ==> log[k] == log[1..][k - 1];
      if rest < 0 then -1 else rest + 1
  }

  function Stamped(s: Stage, state: StageState, stamp: Stamp): Stage {
    s.(state := state, stamp := Some(stamp))
  }

  function SkipOne(s: Stage, stageNo: int, acting: Role): Stage {
    if s.state.Waiting? && (s.stageNo < stageNo || (s.stageNo == stageNo && s.role != acting))
    then s.(state := Skipped) else s
  }

  function SkipWaiting(s: Stage): Stage {
    if s.state.Waiting? then s.(state := Skipped) else s
  }

  function ResetOne(s: Stage, stageNo: int, acting: Role): Stage {
    if (s.stageNo == stageNo && s.role == acting) || s.state.Withdrawn? then s
    else s.(state := if s.stageNo <= stageNo then Skipped else Waiting)
  }

  function Skip(log: seq<Stage>, stageNo: int, acting: Role): seq<Stage> {
    seq(|log|, i requires 0 <= i < |log| => SkipOne(log[i], stageNo, acting))
  }

  function SkipAll(log: seq<Stage>): seq<Stage> {
    seq(|log|, i requires 0 <= i < |log| => SkipWaiting(log[i]))
  }

  function Reset(log: seq<Stage>, stageNo: int, acting: Role): seq<Stage> {
    seq(|log|, i requires 0 <= i < |log| => ResetOne(log[i], stageNo, acting))
  }

  predicate ApproveSettled(log: seq<Stage>) {
    forall i :: 0 <= i < |log| ==> log[i].state.Approved? || log[i].state.Skipped?
  }

  predicate WithdrawSettled(log: seq<Stage>) {
    forall i :: 0 <= i < |log| ==> log[i].state.Withdrawn? || log[i].state.Skipped?
  }

  /** The log after the entry at i approved, rejected or withdrew. */
  function ApproveLog(log: seq<Stage>, i: nat, stamp: Stamp): seq<Stage>
    requires i < |log|
  {
    Skip(log[i := Stamped(log[i], Approved, stamp)], log[i].stageNo, log[i].role)
  }

  function RejectLog(log: seq<Stage>, i: nat, stamp: Stamp): seq<Stage>
    requires i < |log|
  {
    SkipAll(log[i := Stamped(log[i], Rejected, stamp)])
  }

  function WithdrawLog(log: seq<Stage>, i: nat, stamp: Stamp): seq<Stage>
    requires i < |log|
  {
    Reset(log, log[i].stageNo, log[i].role)[i := Stamped(log[i], Withdrawn, stamp)]
  }

  // ------------------------------------------------------------ array versions

  method FindStage(log: array<Stage>, role: Role) returns (found: int)
    ensures found == IndexOf(log[..], role)
  {
    found := -1;
    var i := 0;
    while i < log.Length
      invariant 0 <= i <= log.Length
      invariant forall k :: 0 <= k < i ==> log[k].role != role
    {
      if log[i].role == role {
        return i;
      }
      i := i + 1;
    }
  }

  method StampStage(log: array<Stage>, i: nat, state: StageState, stamp: Stamp)
    requires i < log.Length
    modifies log
    ensures log[..] == old(log[..])[i := Stamped(old(log[i]), state, stamp)]
  {
    log[i] := log[i].(state := state);
    log[i] := log[i].(stamp := Some(stamp));
  }

  method SkipStages(log: array<Stage>, stageNo: int, acting: Role)
    modifies log
    ensures log[..] == Skip(old(log[..]), stageNo, acting)
  {
    for i := 0 to log.Length
      invariant forall k :: 0 <= k < i ==> log[k] == SkipOne(old(log[k]), stageNo, acting)
      invariant forall k :: i <= k < log.Length ==> log[k] == old(log[k])
    {
      if log[i].stageNo < stageNo && log[i].state == Waiting {
        log[i] := log[i].(state := Skipped);
      } else if log[i].stageNo == stageNo && log[i].role != acting && log[i].state == Waiting {
        log[i] := log[i].(state := Skipped);
      }
    }
  }

  /** The stage number is compared with both signs, so every waiting entry is skipped. */
  method SkipAllWaitingStages(log: array<Stage>, stageNo: int)
    modifies log
    ensures log[..] == SkipAll(old(log[..]))
  {
    for i := 0 to log.Length
      invariant forall k :: 0 <= k < i ==> log[k] == SkipWaiting(old(log[k]))
      invariant forall k :: i <= k < log.Length ==> log[k] == old(log[k])
    {
      if log[i].state == Waiting && (log[i].stageNo <= stageNo || log[i].stageNo >= stageNo) {
        log[i] := log[i].(state := Skipped);
      }
    }
  }

  method ResetLogForWithdraw(log: array<Stage>, stageNo: int, acting: Role)
    modifies log
    ensures log[..] == Reset(old(log[..]), stageNo, acting)
  {
    for i := 0 to log.Length
      invariant forall k :: 0 <= k < i ==> log[k] == ResetOne(old(log[k]), stageNo, acting)
      invariant forall k :: i <= k < log.Length ==> log[k] == old(log[k])
    {
      if log[i].stageNo == stageNo && log[i].role == acting {
        continue;
      }
      if log[i].stageNo <= stageNo && log[i].state != Withdrawn {
        log[i] := log[i].(state := Skipped);
      } else if log[i].state != Withdrawn {
        log[i] := log[i].(state := Waiting);
      }
    }
  }

  method AllStagesSettled(log: array<Stage>) returns (settled: bool)
    ensures settled <==> ApproveSettled(log[..])
  {
    for i := 0 to log.Length
      invariant ApproveSettled(log[..i])
    {
      if log[i].state != Approved && log[i].state != Skipped {
        assert log[..][i] == log[i];
        return false;
      }
    }
    assert log[..log.Length] == log[..];
    return true;
  }

  method AllStagesSettledForWithdraw(log: array<Stage>) returns (settled: bool)
    ensures settled <==> WithdrawSettled(log[..])
  {
    for i := 0 to log.Length
      invariant WithdrawSettled(log[..i])
    {
      if log[i].state != Withdrawn && log[i].state != Skipped {
        assert log[..][i] == log[i];
        return false;
      }
    }
    assert log[..log.Length] == log[..];
    return true;
  }
}

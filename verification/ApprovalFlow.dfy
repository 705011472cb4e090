/**
 * Configured approval flows: the validator that guards them and the approval
 * log that is generated from a flow for an applicant.
 */
module ApprovalFlow {
  import opened Basics
  import opened ApprovalLog

  datatype FlowStage = FlowStage(stageNo: int, role: Role)

  datatype Verdict =
    | Accepted
    | NilRequest
    | EmptyFlow
    | InvalidRole(role: Role)
    | DuplicateRole(role: Role)
    | InvalidStageNo(stageNo: int)
    | OutOfOrder(junior: Role, senior: Role)

  /** Entries that pass the first loop: approver roles, all different, positive stages. */
  predicate Clean(flow: seq<FlowStage>) {
    && (forall i :: 0 <= i < |flow| ==> IsApprover(flow[i].role) && flow[i].stageNo > 0)
    && (forall i, j :: 0 <= i < j < |flow| ==> flow[i].role != flow[j].role)
  }

  /** No junior role sits at a later stage than a senior one. */
  predicate Monotone(flow: seq<FlowStage>) {
    forall i, j :: 0 <= i < |flow| && 0 <= j < |flow| && Level(flow[i].role) < Level(flow[j].role)
      ==> flow[i].stageNo <= flow[j].stageNo
  }

  predicate ValidFlow(flow: seq<FlowStage>) {
    flow != [] && Clean(flow) && Monotone(flow)
  }

  predicate HasRole(flow: seq<FlowStage>, r: Role) {
    exists i :: 0 <= i < |flow| && flow[i].role == r
  }

  /** Why a verdict other than Accepted was given. */
  predicate Explains(flow: seq<FlowStage>, v: Verdict) {
    match v
    case Accepted => ValidFlow(flow)
    case NilRequest => false
    case EmptyFlow => flow == []
    case InvalidRole(r) =>
      !IsApprover(r) && exists i :: 0 <= i < |flow| && Clean(flow[..i]) && flow[i].role == r
    case DuplicateRole(r) =>
      exists i :: 0 <= i < |flow| && Clean(flow[..i]) && flow[i].role == r && HasRole(flow[..i], r)
    case InvalidStageNo(n) =>
      n <= 0 && exists i :: 0 <= i < |flow| && Clean(flow[..i]) && flow[i].stageNo == n
                            && IsApprover(flow[i].role) && !HasRole(flow[..i], flow[i].role)
    case OutOfOrder(a, b) =>
      Clean(flow) && Level(a) < Level(b) &&
      exists i, j :: 0 <= i < |flow| && 0 <= j < |flow| && flow[i].role == a && flow[j].role == b
                     && flow[i].stageNo > flow[j].stageNo
  }

  lemma CleanGrows(flow: seq<FlowStage>, i: nat)
    requires i < |flow| && Clean(flow[..i])
    requires IsApprover(flow[i].role) && flow[i].stageNo > 0 && !HasRole(flow[..i], flow[i].role)
    ensures Clean(flow[..i + 1])
  {}

  /** roleStages as the first loop leaves it: each role of the flow with its stage. */
  ghost predicate Tabulates(m: map<Role, int>, flow: seq<FlowStage>) {
    && (forall r :: r in m <==> HasRole(flow, r))
    && (forall i :: 0 <= i < |flow| ==> flow[i].role in m && m[flow[i].role] == flow[i].stageNo)
  }

  lemma TabulatesGrows(m: map<Role, int>, flow: seq<FlowStage>, i: nat)
    requires i < |flow| && Tabulates(m, flow[..i]) && flow[i].role !in m
    ensures Tabulates(m[flow[i].role := flow[i].stageNo], flow[..i + 1])
  {}

  const HIERARCHY: seq<Role> := [Manager, Hr, Admin, SuperAdmin]

  /** The pair at positions a, b of the hierarchy is in order where both are present. */
  predicate PairInOrder(m: map<Role, int>, a: nat, b: nat)
    requires a < 4 && b < 4
  {
    HIERARCHY[a] in m && HIERARCHY[b] in m ==> m[HIERARCHY[a]] <= m[HIERARCHY[b]]
  }

  lemma PairsGiveMonotone(m: map<Role, int>, flow: seq<FlowStage>)
    requires Clean(flow) && Tabulates(m, flow)
    requires forall a, b :: 0 <= a < b < 4 ==> PairInOrder(m, a, b)
    ensures Monotone(flow)
  {
    forall i, j | 0 <= i < |flow| && 0 <= j < |flow| && Level(flow[i].role) < Level(flow[j].role)
      ensures flow[i].stageNo <= flow[j].stageNo
    {
      var a, b := Level(flow[i].role) - 3, Level(flow[j].role) - 3;
      assert HIERARCHY[a] == flow[i].role && HIERARCHY[b] == flow[j].role;
      assert PairInOrder(m, a, b);
    }
  }

  /** First half of the validator: one pass that fills the role-to-stage map. */
  method CollectStages(flow: seq<FlowStage>) returns (v: Verdict, roleStages: map<Role, int>)
    ensures v.Accepted? <==> Clean(flow)
    ensures v.Accepted? ==> Tabulates(roleStages, flow)
    ensures !v.Accepted? ==> v.InvalidRole? || v.DuplicateRole? || v.InvalidStageNo?
    ensures !v.Accepted? ==> Explains(flow, v)
  {
    roleStages := map[];
    for i := 0 to |flow|
      invariant Clean(flow[..i]) && Tabulates(roleStages, flow[..i])
    {
      var stage := flow[i];
      if !IsApprover(stage.role) {
        return InvalidRole(stage.role), roleStages;
      }
      if stage.role in roleStages {
        var k :| 0 <= k < i && flow[..i][k].role == stage.role;
        assert flow[k].role == stage.role;
        return DuplicateRole(stage.role), roleStages;
      }
      if stage.stageNo <= 0 {
        return InvalidStageNo(stage.stageNo), roleStages;
      }
      CleanGrows(flow, i);
      TabulatesGrows(roleStages, flow, i);
      roleStages := roleStages[stage.role := stage.stageNo];
    }
    assert flow[..|flow|] == flow;
    v := Accepted;
  }

  /** Second half: every pair of the hierarchy; the first pair out of order, if any. */
  method CheckHierarchy(roleStages: map<Role, int>) returns (bad: Option<(nat, nat)>)
    ensures bad.None? ==> forall a, b :: 0 <= a < b < 4 ==> PairInOrder(roleStages, a, b)
    ensures bad.Some? ==> bad.value.0 < bad.value.1 < 4 && !PairInOrder(roleStages, bad.value.0, bad.value.1)
  {
    for i := 0 to |HIERARCHY| - 1
      invariant forall a, b :: 0 <= a < i && a < b < 4 ==> PairInOrder(roleStages, a, b)
    {
      if HIERARCHY[i] !in roleStages {
        continue;
      }
      for j := i + 1 to |HIERARCHY|
        invariant forall b :: i < b < j ==> PairInOrder(roleStages, i, b)
      {
        if HIERARCHY[j] !in roleStages {
          continue;
        }
        if roleStages[HIERARCHY[i]] > roleStages[HIERARCHY[j]] {
          return Some((i, j));
        }
      }
    }
    bad := None;
  }

  lemma BadPairExplains(m: map<Role, int>, flow: seq<FlowStage>, a: nat, b: nat)
    requires Clean(flow) && Tabulates(m, flow)
    requires a < b < 4 && !PairInOrder(m, a, b)
    ensures Explains(flow, OutOfOrder(HIERARCHY[a], HIERARCHY[b])) && !ValidFlow(flow)
  {}

  /** The validator accepts exactly the valid flows and says truly why it refuses one. */
  method AllowToCreateLeaveApprovalFlow(req: Option<seq<FlowStage>>) returns (v: Verdict)
    ensures req.None? <==> v.NilRequest?
    ensures req.Some? ==> Explains(req.value, v)
    ensures v.Accepted? <==> req.Some? && ValidFlow(req.value)
  {
    if req.None? {
      return NilRequest;
    }
    var flow := req.value;
    if |flow| == 0 {
      return EmptyFlow;
    }
    var roleStages;
    v, roleStages := CollectStages(flow);
    if !v.Accepted? {
      return;
    }
    var bad := CheckHierarchy(roleStages);
    if bad.Some? {
      BadPairExplains(roleStages, flow, bad.value.0, bad.value.1);
      return OutOfOrder(HIERARCHY[bad.value.0], HIERARCHY[bad.value.1]);
    }
    PairsGiveMonotone(roleStages, flow);
    return Accepted;
  }

  // ------------------------------------------------------------ log generation

  /** The fresh log of an applicant at a level: the strictly higher roles, waiting. */
  function Generate(flow: seq<FlowStage>, applicant: nat): seq<Stage> {
    if flow == [] then []
    else if Level(flow[0].role) <= applicant then Generate(flow[1..], applicant)
    else [Stage(flow[0].stageNo, flow[0].role, Waiting, None)] + Generate(flow[1..], applicant)
  }

  method GenerateApprovalLog(flow: Option<seq<FlowStage>>, role: Role) returns (log: seq<Stage>)
    ensures log == if flow.None? then [] else Generate(flow.value, Level(role))
  {
    if flow.None? {
      return [];
    }
    log := [];
    for i := 0 to |flow.value|
      invariant log == Generate(flow.value[..i], Level(role))
    {
      var stage := flow.value[i];
      assert flow.value[..i + 1] == flow.value[..i] + [stage];
      GenerateConcat(flow.value[..i], [stage], Level(role));
      if Level(stage.role) <= Level(role) {
        continue;
      }
      log := log + [Stage(stage.stageNo, stage.role, Waiting, None)];
    }
    assert flow.value[..|flow.value|] == flow.value;
  }

  /** The seniority of roles; a string that names none is below all. */
  lemma Seniority(name: string)
    ensures Level(Other(name)) < Level(Intern) < Level(Role.Employee) < Level(Manager) < Level(Hr) < Level(Admin)
            < Level(SuperAdmin)
  {}

  /** Generation is entry by entry and keeps the order of the flow. */
  lemma {:induction false} GenerateConcat(a: seq<FlowStage>, b: seq<FlowStage>, applicant: nat)
    ensures Generate(a + b, applicant) == Generate(a, applicant) + Generate(b, applicant)
  {
    if a == [] {
      assert a + b == b;
    } else {
      assert (a + b)[1..] == a[1..] + b;
      GenerateConcat(a[1..], b, applicant);
    }
  }

  /** An entry is in the log exactly if its role outranks the applicant; all wait unstamped. */
  lemma {:induction false} GenerateSelects(flow: seq<FlowStage>, applicant: nat, n: int, r: Role)
    ensures Stage(n, r, Waiting, None) in Generate(flow, applicant)
            <==> FlowStage(n, r) in flow && Level(r) > applicant
    ensures forall s :: s in Generate(flow, applicant) ==> s.state.Waiting? && s.stamp.None?
  {
    if flow == [] {
    } else {
      GenerateSelects(flow[1..], applicant, n, r);
      assert flow == [flow[0]] + flow[1..];
    }
  }

  lemma {:induction false} GenerateUnique(flow: seq<FlowStage>, applicant: nat)
    requires Clean(flow)
    ensures UniqueRoles(Generate(flow, applicant))
    ensures forall s :: s in Generate(flow, applicant) ==> s.stageNo > 0 && IsApprover(s.role)
  {
    if flow == [] {
    } else {
      var rest := flow[1..];
      assert Clean(rest) by {
        assert forall k :: 0 <= k < |rest| ==> rest[k] == flow[k + 1];
      }
      GenerateUnique(rest, applicant);
      var log := Generate(flow, applicant);
      if Level(flow[0].role) > applicant {
        forall j | 1 <= j < |log| ensures log[0].role != log[j].role {
          var s := log[j];
          assert s == Generate(rest, applicant)[j - 1];
          GenerateSelects(rest, applicant, s.stageNo, s.role);
          var k :| 0 <= k < |rest| && rest[k] == FlowStage(s.stageNo, s.role);
          assert flow[k + 1].role == s.role;
        }
      }
    }
  }

  /** The stage at which an accepted flow ends. */
  predicate IsLastStage(flow: seq<FlowStage>, n: int) {
    && (exists i :: 0 <= i < |flow| && flow[i].stageNo == n)
    && (forall i :: 0 <= i < |flow| ==> flow[i].stageNo <= n)
  }

  /** The final authority of an accepted flow survives the filter whenever anyone does. */
  lemma GenerateKeepsLastStage(flow: seq<FlowStage>, applicant: nat, n: int)
    requires ValidFlow(flow) && IsLastStage(flow, n)
    requires Generate(flow, applicant) != []
    ensures exists s :: s in Generate(flow, applicant) && s.stageNo == n
    ensures forall s :: s in Generate(flow, applicant) ==> s.stageNo <= n
  {
    forall s | s in Generate(flow, applicant) ensures s.stageNo <= n {
      GenerateSelects(flow, applicant, s.stageNo, s.role);
    }
    var i :| 0 <= i < |flow| && flow[i].stageNo == n;
    var s := Generate(flow, applicant)[0];
    GenerateSelects(flow, applicant, s.stageNo, s.role);
    var k :| 0 <= k < |flow| && flow[k] == FlowStage(s.stageNo, s.role);
    if Level(flow[i].role) > applicant {
      GenerateSelects(flow, applicant, n, flow[i].role);
      assert Stage(n, flow[i].role, Waiting, None) in Generate(flow, applicant);
    } else {
      assert Level(flow[i].role) < Level(flow[k].role);
      assert s.stageNo == n;
    }
  }

  /** The flow shipped with the migrations, and the one of the reference schema. */
  const DEFAULT_FLOW: seq<FlowStage> :=
    [FlowStage(1, Manager), FlowStage(1, Admin), FlowStage(1, Hr), FlowStage(2, SuperAdmin)]
  const SCHEMA_FLOW: seq<FlowStage> :=
    [FlowStage(1, Manager), FlowStage(2, Admin), FlowStage(3, Hr), FlowStage(4, SuperAdmin)]

  lemma ShippedFlows()
    ensures ValidFlow(DEFAULT_FLOW)
    ensures !ValidFlow(SCHEMA_FLOW)
  {
    assert Level(SCHEMA_FLOW[2].role) < Level(SCHEMA_FLOW[1].role);
  }
}

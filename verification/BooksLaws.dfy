/**
 * What every office operation and every leave statement keeps of the books:
 * the ledger identity with its journals, openings equal to their definition,
 * stored flows valid, and accrual at most once.
 */
module BooksLaws {
  import opened Basics
  import opened Books
  import opened Calendar
  import Flow = ApprovalFlow

  // ------------------------------------------------------------------ invariants

  predicate KeyOk(b: Books, k: Key) {
    k.emp < |b.staff| && k.typ < |b.types|
  }

  /** Balance rows belong to existing employees and types. */
  predicate KeysOk(b: Books) {
    forall k :: k in b.rows ==> KeyOk(b, k)
  }

  /** Only validated flows are stored, and types refer to stored flows. */
  predicate FlowsOk(b: Books) {
    && b.flows != []
    && (forall i :: 0 <= i < |b.flows| ==> Flow.ValidFlow(b.flows[i]))
    && (forall t :: 0 <= t < |b.types| && b.types[t].flow.Some? ==> b.types[t].flow.value < |b.flows|)
  }

  function SumAdjusted(journal: seq<Adjustment>, k: Key): real {
    if journal == [] then 0.0
    else
      var last := journal[|journal| - 1];
      SumAdjusted(journal[..|journal| - 1], k) + if last.key == k then last.quantity else 0.0
  }

  function SumCredited(credits: seq<Credit>, k: Key): real {
    if credits == [] then 0.0
    else
      var last := credits[|credits| - 1];
      SumCredited(credits[..|credits| - 1], k) + if last.key == k then last.days else 0.0
  }

  /** Closing = opening - used + adjusted; adjustments and accruals agree with their journals. */
  predicate RowOk(r: Row, adjusted: real, credited: real) {
    r.closing == r.opening - r.used + r.adjusted && r.adjusted == adjusted && r.accrued == credited
  }

  predicate RowsOk(rows: map<Key, Row>, adjustments: seq<Adjustment>, credits: seq<Credit>) {
    forall k :: k in rows ==> RowOk(rows[k], SumAdjusted(adjustments, k), SumCredited(credits, k))
  }

  predicate JournalsOk(rows: map<Key, Row>, adjustments: seq<Adjustment>, credits: seq<Credit>) {
    && (forall i :: 0 <= i < |adjustments| ==> adjustments[i].key in rows)
    && (forall i :: 0 <= i < |credits| ==> credits[i].key in rows)
  }

  /** The ledger identity of the whole table. */
  predicate LedgerOk(b: Books) {
    RowsOk(b.rows, b.adjustments, b.credits) && JournalsOk(b.rows, b.adjustments, b.credits)
  }

  /** No pair is credited twice for a month. */
  predicate CreditsUnique(credits: seq<Credit>) {
    forall i, j :: 0 <= i < j < |credits| ==> credits[i].key != credits[j].key || credits[i].month != credits[j].month
  }

  predicate Grounded(b: Books, k: Key) {
    && k in b.rows && KeyOk(b, k) && k.year == b.year && !b.types[k.typ].early
    && b.rows[k].opening == Opening(b.staff[k.emp], b.types[k.typ], b.year) as real
  }

  /** Grounded openings equal their definition for the present role, date and entitlement. */
  predicate OpeningsOk(b: Books) {
    forall k :: k in b.grounded ==> Grounded(b, k)
  }

  predicate BooksOk(b: Books) {
    KeysOk(b) && FlowsOk(b) && LedgerOk(b) && CreditsUnique(b.credits) && OpeningsOk(b)
  }

  lemma OpenedOk(year: int)
    ensures BooksOk(Opened(year))
  {}

  // ------------------------------------------------------------------- row lemmas

  lemma {:induction false} SilentJournals(adjustments: seq<Adjustment>, credits: seq<Credit>, k: Key)
    requires forall i :: 0 <= i < |adjustments| ==> adjustments[i].key != k
    requires forall i :: 0 <= i < |credits| ==> credits[i].key != k
    ensures SumAdjusted(adjustments, k) == 0.0 && SumCredited(credits, k) == 0.0
    decreases |adjustments| + |credits|
  {
    if adjustments == [] && credits == [] {
    } else if adjustments != [] {
      SilentJournals(adjustments[..|adjustments| - 1], credits, k);
    } else {
      SilentJournals(adjustments, credits[..|credits| - 1], k);
    }
  }

  /** Rows that were not there start in agreement with the journals. */
  lemma AddedRowsOk(b: Books, added: map<Key, Row>)
    requires LedgerOk(b)
    requires forall k :: k in added ==> k !in b.rows && added[k] == Fresh(added[k].opening)
    ensures RowsOk(b.rows + added, b.adjustments, b.credits)
    ensures JournalsOk(b.rows + added, b.adjustments, b.credits)
  {
    var rows := b.rows + added;
    forall k | k in rows
      ensures RowOk(rows[k], SumAdjusted(b.adjustments, k), SumCredited(b.credits, k))
    {
      if k in added {
        SilentJournals(b.adjustments, b.credits, k);
      }
    }
  }

  lemma RecalculatedOk(b: Books, sel: set<Key>, staff: seq<StaffMember>, types: seq<LeaveType>)
    requires LedgerOk(b)
    requires forall k :: k in sel ==> k.emp < |staff| && k.typ < |types|
    ensures var rows := Recalculated(b.rows, sel, staff, types, b.year);
            rows.Keys == b.rows.Keys && RowsOk(rows, b.adjustments, b.credits)
            && JournalsOk(rows, b.adjustments, b.credits)
  {}

  // ------------------------------------------------------------- operations, ledger

  lemma HireKeeps(b: Books, role: Role, joined: Option<int>)
    requires BooksOk(b)
    ensures BooksOk(HireOp(b, role, joined))
  {
    if !role.Other? {
      var e := StaffMember(role, joined, true);
      var added := HiredRows(b, e);
      forall k | k in added ensures k !in b.rows && k.emp == |b.staff| {
        assert k in b.rows ==> KeyOk(b, k);
      }
      AddedRowsOk(b, added);
      var b' := HireOp(b, role, joined);
      forall k | k in b'.rows ensures KeyOk(b', k) {
        if k in b.rows { assert KeyOk(b, k); }
      }
      forall k | k in b'.grounded ensures Grounded(b', k) {
        if k in b.grounded { assert Grounded(b, k); }
      }
    }
  }

  lemma CreatePolicyKeeps(b: Books, policy: LeaveType)
    requires BooksOk(b)
    ensures BooksOk(CreatePolicyOp(b, policy))
  {
    if PolicyAccepted(b, policy) {
      var t := WithFlow(policy);
      var added := PolicyRows(b, t);
      forall k | k in added ensures k !in b.rows && k.typ == |b.types| {
        assert k in b.rows ==> KeyOk(b, k);
      }
      AddedRowsOk(b, added);
      var b' := CreatePolicyOp(b, policy);
      forall k | k in b'.rows ensures KeyOk(b', k) {
        if k in b.rows { assert KeyOk(b, k); }
      }
      forall k | k in b'.grounded ensures Grounded(b', k) {
        if k in b.grounded { assert Grounded(b, k); }
      }
    }
  }

  lemma UpdatePolicyKeeps(b: Books, typ: nat, policy: LeaveType)
    requires BooksOk(b)
    ensures BooksOk(UpdatePolicyOp(b, typ, policy))
  {
    if PolicyAccepted(b, policy) && typ < |b.types| {
      var b' := UpdatePolicyOp(b, typ, policy);
      var sel := PolicySelection(b, typ);
      RecalculatedOk(b, sel, b.staff, b'.types);
      forall k | k in b'.rows ensures KeyOk(b', k) {
        assert KeyOk(b, k);
      }
      forall k | k in b'.grounded ensures Grounded(b', k) {
        if k in b.grounded { assert Grounded(b, k); }
      }
    }
  }

  lemma RecalculateStaffKeeps(b: Books, emp: nat, e: StaffMember)
    requires BooksOk(b) && emp < |b.staff|
    ensures BooksOk(RecalculateStaff(b, emp, b.staff[emp := e]))
  {}

  /** With no intern on either side the definition of every opening stays as it was. */
  lemma ChangeRoleKeeps(b: Books, emp: nat, role: Role)
    requires BooksOk(b)
    ensures BooksOk(ChangeRoleOp(b, emp, role))
  {
    if emp < |b.staff| && !role.Other? && b.staff[emp].role != role {
      var e := b.staff[emp].(role := role);
      if !b.staff[emp].role.Intern? && !role.Intern? {
        var b' := ChangeRoleOp(b, emp, role);
        forall k | k in b'.rows ensures KeyOk(b', k) {
          assert KeyOk(b, k);
        }
        forall k | k in b'.grounded ensures Grounded(b', k) {
          assert Grounded(b, k);
        }
      } else {
        RecalculateStaffKeeps(b, emp, e);
      }
    }
  }

  lemma ToggleKeeps(b: Books, emp: nat)
    requires BooksOk(b)
    ensures BooksOk(ToggleOp(b, emp))
  {}

  /** A row is made if it is missing and then rewritten by f, with one entry for the journals. */
  lemma UpsertOk(b: Books, k: Key, opening: real)
    requires LedgerOk(b)
    ensures RowsOk(EnsureRow(b.rows, k, opening), b.adjustments, b.credits)
    ensures JournalsOk(EnsureRow(b.rows, k, opening), b.adjustments, b.credits)
  {
    if k !in b.rows {
      AddedRowsOk(b, map[k := Fresh(opening)]);
      assert b.rows + map[k := Fresh(opening)] == EnsureRow(b.rows, k, opening);
    }
  }

  lemma AdjustKeeps(b: Books, emp: nat, typ: nat, quantity: real)
    requires BooksOk(b)
    ensures BooksOk(AdjustOp(b, emp, typ, quantity))
  {
    if emp < |b.staff| && typ < |b.types| {
      var k := Key(emp, typ, b.year);
      var opening := Entitlement(b.types[typ], b.staff[emp].role) as real;
      var b' := AdjustOp(b, emp, typ, quantity);
      UpsertOk(b, k, opening);
      AdjustedRowsOk(EnsureRow(b.rows, k, opening), b.adjustments, b.credits, Adjustment(k, quantity));
      SameOpeningsKeep(b, b');
    }
  }

  lemma AdjustedRowsOk(rows: map<Key, Row>, adjustments: seq<Adjustment>, credits: seq<Credit>, entry: Adjustment)
    requires RowsOk(rows, adjustments, credits) && JournalsOk(rows, adjustments, credits) && entry.key in rows
    ensures var rows' := rows[entry.key := Adjusted(rows[entry.key], entry.quantity)];
            RowsOk(rows', adjustments + [entry], credits) && JournalsOk(rows', adjustments + [entry], credits)
  {}

  lemma CreditedRowsOk(rows: map<Key, Row>, adjustments: seq<Adjustment>, credits: seq<Credit>, entry: Credit)
    requires RowsOk(rows, adjustments, credits) && JournalsOk(rows, adjustments, credits) && entry.key in rows
    ensures var rows' := rows[entry.key := Credited(rows[entry.key], entry.days)];
            RowsOk(rows', adjustments, credits + [entry]) && JournalsOk(rows', adjustments, credits + [entry])
  {}

  /** Nothing that defines an opening changed, and no opening either. */
  lemma SameOpeningsKeep(b: Books, b': Books)
    requires KeysOk(b) && OpeningsOk(b) && FlowsOk(b)
    requires b'.staff == b.staff && b'.types == b.types && b'.flows == b.flows && b'.year == b.year
    requires b'.grounded == b.grounded
    requires forall k :: k in b.rows ==> k in b'.rows && b'.rows[k].opening == b.rows[k].opening
    requires forall k :: k in b'.rows ==> k in b.rows || KeyOk(b, k)
    ensures KeysOk(b') && OpeningsOk(b') && FlowsOk(b')
  {}

  lemma UncreditedStaysUnique(b: Books, k: Key, month: int, days: real)
    requires CreditsUnique(b.credits) && !AlreadyCredited(b, k, month)
    ensures CreditsUnique(b.credits + [Credit(k, month, days)])
  {}

  lemma AccrueKeepsLedger(b: Books, emp: nat, typ: nat, month: int, accrualYear: int)
    requires LedgerOk(b) && CreditsUnique(b.credits)
    ensures LedgerOk(AccrueOp(b, emp, typ, month, accrualYear))
    ensures CreditsUnique(AccrueOp(b, emp, typ, month, accrualYear).credits)
  {
    var k := Key(emp, typ, accrualYear);
    if Accruable(b, emp, typ) && !AlreadyCredited(b, k, month) {
      var days := AccrualRate(b.staff[emp].role);
      UpsertOk(b, k, 0.0);
      CreditedRowsOk(EnsureRow(b.rows, k, 0.0), b.adjustments, b.credits, Credit(k, month, days));
      UncreditedStaysUnique(b, k, month, days);
    }
  }

  lemma AccrueKeeps(b: Books, emp: nat, typ: nat, month: int, accrualYear: int)
    requires BooksOk(b)
    ensures BooksOk(AccrueOp(b, emp, typ, month, accrualYear))
  {
    AccrueKeepsLedger(b, emp, typ, month, accrualYear);
    SameOpeningsKeep(b, AccrueOp(b, emp, typ, month, accrualYear));
  }

  lemma FlowOpsKeep(b: Books, id: nat, stages: seq<Flow.FlowStage>)
    requires BooksOk(b)
    ensures BooksOk(CreateFlowOp(b, stages))
    ensures BooksOk(UpdateFlowOp(b, id, stages))
    ensures BooksOk(DeleteFlowOp(b, id))
  {
    FlowChangeKeeps(b, CreateFlowOp(b, stages));
    FlowChangeKeeps(b, UpdateFlowOp(b, id, stages));
    FlowChangeKeeps(b, DeleteFlowOp(b, id));
  }

  /** Types that differ in their flow only define the same openings. */
  lemma FlowChangeKeeps(b: Books, b': Books)
    requires BooksOk(b) && FlowsOk(b')
    requires b' == b.(types := b'.types, flows := b'.flows) && |b'.types| == |b.types|
    requires forall t :: 0 <= t < |b.types| ==> b'.types[t].(flow := b.types[t].flow) == b.types[t]
    ensures BooksOk(b')
  {}

  /** Every office operation keeps the books. */
  lemma PerformKeeps(b: Books, op: Op)
    requires BooksOk(b)
    ensures BooksOk(Perform(b, op))
  {
    match op
    case Hire(role, joined) => HireKeeps(b, role, joined);
    case CreatePolicy(policy) => CreatePolicyKeeps(b, policy);
    case UpdatePolicy(typ, policy) => UpdatePolicyKeeps(b, typ, policy);
    case ChangeRole(emp, role) => ChangeRoleKeeps(b, emp, role);
    case ChangeJoining(emp, day) =>
      if emp < |b.staff| { RecalculateStaffKeeps(b, emp, b.staff[emp].(joined := Some(day))); }
    case ToggleActive(emp) => ToggleKeeps(b, emp);
    case Adjust(emp, typ, quantity) => AdjustKeeps(b, emp, typ, quantity);
    case Accrue(emp, typ, month, accrualYear) => AccrueKeeps(b, emp, typ, month, accrualYear);
    case CreateFlow(stages) => FlowOpsKeep(b, 0, stages);
    case UpdateFlow(id, stages) => FlowOpsKeep(b, id, stages);
    case DeleteFlow(id) => FlowOpsKeep(b, id, []);
  }

  /** Of the rows of this year and of types that are not early, only those that an adjustment or
      an accrual made are not grounded; and a grounded row stays grounded. */
  lemma GroundedUnlessUpserted(b: Books, op: Op, k: Key)
    requires BooksOk(b)
    requires k in Perform(b, op).rows && k.year == b.year
    requires k.typ < |Perform(b, op).types| && !Perform(b, op).types[k.typ].early
    ensures k in b.grounded ==> k in Perform(b, op).grounded
    ensures k !in b.rows && k !in Perform(b, op).grounded ==> op.Adjust? || op.Accrue?
  {}

  /** The two leave statements keep the books. */
  lemma StatementsKeep(b: Books, emp: nat, typ: nat, days: real)
    requires BooksOk(b)
    ensures BooksOk(DebitRow(b, emp, typ, days))
    ensures BooksOk(RefundRow(b, emp, typ, days))
  {
    SameOpeningsKeep(b, DebitRow(b, emp, typ, days));
    SameOpeningsKeep(b, RefundRow(b, emp, typ, days));
  }

  // --------------------------------------------------- what leaves see of the office

  /** No operation touches what leaves have used, forgets a row or changes an early flag;
      new rows start unused. */
  predicate UsedKept(b: Books, b': Books) {
    && b'.year == b.year
    && |b.staff| <= |b'.staff| && |b.types| <= |b'.types|
    && (forall t :: 0 <= t < |b.types| ==> b'.types[t].early == b.types[t].early)
    && (forall k :: k in b.rows ==> k in b'.rows && b'.rows[k].used == b.rows[k].used)
    && (forall k :: k in b'.rows && k !in b.rows ==> b'.rows[k].used == 0.0)
  }

  lemma PerformKeepsUsed(b: Books, op: Op)
    requires KeysOk(b)
    ensures UsedKept(b, Perform(b, op))
  {}
}

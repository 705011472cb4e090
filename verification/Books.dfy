/**
 * The office side of the system: employees, leave types, approval flows and the
 * balance table, with every operation that writes a balance row.  Operations
 * are functions on the whole state; their loops are in OfficeLoops.
 */
module Books {
  import opened Basics
  import opened Calendar
  import Flow = ApprovalFlow

  datatype Key = Key(emp: nat, typ: nat, year: int)

  datatype Row = Row(opening: real, accrued: real, used: real, adjusted: real, closing: real)

  datatype StaffMember = StaffMember(role: Role, joined: Option<int>, active: bool)

  datatype LeaveType = LeaveType(entitlement: int, intern: Option<int>, early: bool, paid: bool, flow: Option<nat>)

  datatype Adjustment = Adjustment(key: Key, quantity: real)

  datatype Credit = Credit(key: Key, month: int, days: real)

  /**
   * Tables keyed by position: employees and types are not deleted, and a deleted
   * flow keeps its position.
   * The year is the current one.  grounded is a history variable: the rows whose
   * opening was set by an allocation or a recalculation.
   */
  datatype Books = Books(
    year: int,
    staff: seq<StaffMember>,
    types: seq<LeaveType>,
    flows: seq<seq<Flow.FlowStage>>,
    rows: map<Key, Row>,
    adjustments: seq<Adjustment>,
    credits: seq<Credit>,
    grounded: set<Key>)

  /** A new installation: no staff, no types, the shipped approval flow. */
  function Opened(year: int): Books {
    Books(year, [], [], [Flow.DEFAULT_FLOW], map[], [], [], {})
  }

  // ----------------------------------------------------------------- entitlements

  function Entitlement(t: LeaveType, role: Role): int {
    if role.Intern? && t.intern.Some? then t.intern.value else t.entitlement
  }

  /** Proration as the balance repository computes it. */
  function ProratedLeave(yearly: int, joinMonth: int): int {
    if joinMonth < 1 || joinMonth > 12 then yearly else yearly * (12 - joinMonth + 1) / 12
  }

  /** Proration as the hiring service computes it. */
  function CalculateProratedLeave(yearly: int, joinMonth: int): int {
    if joinMonth < 1 || joinMonth > 12 then 0
    else
      var remaining := 12 - joinMonth + 1;
      yearly * remaining / 12
  }

  /** The two differ only on months that no date has. */
  lemma ProrationsAgree(yearly: int, joinMonth: int)
    ensures ProratedLeave(yearly, joinMonth) == CalculateProratedLeave(yearly, joinMonth)
            <==> 1 <= joinMonth <= 12 || yearly == 0
  {}

  predicate JoinedIn(e: StaffMember, year: int) {
    e.joined.Some? && YearOf(e.joined.value) == year
  }

  /** The defining formula of an opening balance. */
  function Opening(e: StaffMember, t: LeaveType, year: int): int {
    if JoinedIn(e, year) then ProratedLeave(Entitlement(t, e.role), MonthNumber(e.joined.value))
    else Entitlement(t, e.role)
  }

  // ------------------------------------------------------------------ row updates

  function Fresh(opening: real): Row {
    Row(opening, 0.0, 0.0, 0.0, opening)
  }

  function Reopened(r: Row, opening: real): Row {
    r.(opening := opening, closing := opening - r.used + r.adjusted)
  }

  function Debited(r: Row, days: real): Row {
    r.(used := r.used + days, closing := r.closing - days)
  }

  function Restored(r: Row, days: real): Row {
    r.(used := r.used - days, closing := r.closing + days)
  }

  function Adjusted(r: Row, quantity: real): Row {
    var adjusted := r.adjusted + quantity;
    r.(adjusted := adjusted, closing := r.opening - r.used + adjusted)
  }

  function Credited(r: Row, days: real): Row {
    r.(accrued := r.accrued + days)
  }

  /** An UPDATE on a row that does not exist changes nothing. */
  function UpdateRow(rows: map<Key, Row>, k: Key, f: Row -> Row): map<Key, Row> {
    if k in rows then rows[k := f(rows[k])] else rows
  }

  /** An INSERT that does nothing on conflict. */
  function EnsureRow(rows: map<Key, Row>, k: Key, opening: real): map<Key, Row> {
    if k in rows then rows else rows[k := Fresh(opening)]
  }

  /** The rows of sel get the opening that their definition gives for this staff and these types. */
  function Recalculated(rows: map<Key, Row>, sel: set<Key>, staff: seq<StaffMember>, types: seq<LeaveType>, year: int)
    : map<Key, Row>
    requires forall k :: k in sel ==> k.emp < |staff| && k.typ < |types|
  {
    map k | k in rows ::
      if k in sel then Reopened(rows[k], Opening(staff[k.emp], types[k.typ], year) as real) else rows[k]
  }

  // ------------------------------------------------------------------- operations

  datatype Op =
    | Hire(role: Role, joined: Option<int>)
    | CreatePolicy(policy: LeaveType)
    | UpdatePolicy(typ: nat, policy: LeaveType)
    | ChangeRole(emp: nat, role: Role)
    | ChangeJoining(emp: nat, day: int)
    | ToggleActive(emp: nat)
    | Adjust(emp: nat, typ: nat, quantity: real)
    | Accrue(emp: nat, typ: nat, month: int, accrualYear: int)
    | CreateFlow(stages: seq<Flow.FlowStage>)
    | UpdateFlow(id: nat, stages: seq<Flow.FlowStage>)
    | DeleteFlow(id: nat)

  /** The balance rows of a new employee: one for every type that is not early. */
  function HiredRows(b: Books, e: StaffMember): map<Key, Row> {
    map t | 0 <= t < |b.types| && !b.types[t].early
      :: Key(|b.staff|, t, b.year) := Fresh(Opening(e, b.types[t], b.year) as real)
  }

  /** The balance rows of a new type: one for every active employee, none for an early type. */
  function PolicyRows(b: Books, t: LeaveType): map<Key, Row> {
    map e | 0 <= e < |b.staff| && b.staff[e].active && !t.early
      :: Key(e, |b.types|, b.year) := Fresh(Opening(b.staff[e], t, b.year) as real)
  }

  /** Rows that a policy update rewrites: everybody's, or only the interns' for an early type. */
  function PolicySelection(b: Books, t: nat): set<Key>
    requires t < |b.types|
  {
    set k | k in b.rows && k.typ == t && k.year == b.year && k.emp < |b.staff|
            && (b.staff[k.emp].role.Intern? || !b.types[t].early)
  }

  /** Rows of one employee that a change of role or joining date rewrites. */
  function StaffSelection(b: Books, e: nat): set<Key> {
    set k | k in b.rows && k.emp == e && k.year == b.year && k.typ < |b.types| && !b.types[k.typ].early
  }

  function NotEarly(types: seq<LeaveType>, sel: set<Key>): set<Key> {
    set k | k in sel && k.typ < |types| && !types[k.typ].early
  }

  /** Input of a policy as the service accepts it; the early flag of a type never changes. */
  predicate PolicyAccepted(b: Books, t: LeaveType) {
    t.entitlement >= 0 && (t.flow.Some? ==> t.flow.value < |b.flows|)
  }

  /** A missing flow reads as the shipped one. */
  function WithFlow(t: LeaveType): LeaveType {
    if t.flow.None? then t.(flow := Some(0)) else t
  }

  function HireOp(b: Books, role: Role, joined: Option<int>): Books {
    if role.Other? then b
    else
      var e := StaffMember(role, joined, true);
      var added := HiredRows(b, e);
      b.(staff := b.staff + [e], rows := b.rows + added, grounded := b.grounded + added.Keys)
  }

  function CreatePolicyOp(b: Books, policy: LeaveType): Books {
    if !PolicyAccepted(b, policy) then b
    else
      var t := WithFlow(policy);
      var added := PolicyRows(b, t);
      b.(types := b.types + [t], rows := b.rows + added, grounded := b.grounded + added.Keys)
  }

  function UpdatePolicyOp(b: Books, typ: nat, policy: LeaveType): Books {
    if !PolicyAccepted(b, policy) || typ >= |b.types| then b
    else
      var t := WithFlow(policy).(early := b.types[typ].early);
      var types := b.types[typ := t];
      var sel := PolicySelection(b, typ);
      b.(types := types, rows := Recalculated(b.rows, sel, b.staff, types, b.year),
         grounded := b.grounded + NotEarly(b.types, sel))
  }

  function RecalculateStaff(b: Books, emp: nat, staff: seq<StaffMember>): Books
    requires emp < |staff|
  {
    var sel := StaffSelection(b, emp);
    b.(staff := staff, rows := Recalculated(b.rows, sel, staff, b.types, b.year), grounded := b.grounded + sel)
  }

  function ChangeRoleOp(b: Books, emp: nat, role: Role): Books {
    if emp >= |b.staff| || role.Other? || b.staff[emp].role == role then b
    else
      var staff := b.staff[emp := b.staff[emp].(role := role)];
      if !b.staff[emp].role.Intern? && !role.Intern? then b.(staff := staff)
      else RecalculateStaff(b, emp, staff)
  }

  function ChangeJoiningOp(b: Books, emp: nat, day: int): Books {
    if emp >= |b.staff| then b
    else RecalculateStaff(b, emp, b.staff[emp := b.staff[emp].(joined := Some(day))])
  }

  function AdjustOp(b: Books, emp: nat, typ: nat, quantity: real): Books {
    if emp >= |b.staff| || typ >= |b.types| then b
    else
      var k := Key(emp, typ, b.year);
      var rows := EnsureRow(b.rows, k, Entitlement(b.types[typ], b.staff[emp].role) as real);
      b.(rows := rows[k := Adjusted(rows[k], quantity)],
         adjustments := b.adjustments + [Adjustment(k, quantity)])
  }

  predicate AlreadyCredited(b: Books, k: Key, month: int) {
    exists i :: 0 <= i < |b.credits| && b.credits[i].key == k && b.credits[i].month == month
  }

  function AccrualRate(role: Role): real {
    if role.Intern? then 1.0 else 1.5
  }

  /** One pair of the accrual job: an active employee, a paid type that is not early. */
  predicate Accruable(b: Books, emp: nat, typ: nat) {
    emp < |b.staff| && typ < |b.types| && b.staff[emp].active && b.types[typ].paid && !b.types[typ].early
  }

  function AccrueOp(b: Books, emp: nat, typ: nat, month: int, accrualYear: int): Books {
    var k := Key(emp, typ, accrualYear);
    if !Accruable(b, emp, typ) || AlreadyCredited(b, k, month) then b
    else
      var days := AccrualRate(b.staff[emp].role);
      var rows := EnsureRow(b.rows, k, 0.0);
      b.(rows := rows[k := Credited(rows[k], days)], credits := b.credits + [Credit(k, month, days)])
  }

  function ToggleOp(b: Books, emp: nat): Books {
    if emp >= |b.staff| then b
    else b.(staff := b.staff[emp := b.staff[emp].(active := !b.staff[emp].active)])
  }

  function CreateFlowOp(b: Books, stages: seq<Flow.FlowStage>): Books {
    if Flow.ValidFlow(stages) then b.(flows := b.flows + [stages]) else b
  }

  /** The shipped flow cannot be changed or deleted. */
  function UpdateFlowOp(b: Books, id: nat, stages: seq<Flow.FlowStage>): Books {
    if Flow.ValidFlow(stages) && 0 < id < |b.flows| then b.(flows := b.flows[id := stages]) else b
  }

  function WithoutFlow(t: LeaveType, id: nat): LeaveType {
    if t.flow == Some(id) then t.(flow := None) else t
  }

  /** Types lose their reference to a deleted flow. */
  function DeleteFlowOp(b: Books, id: nat): Books {
    if 0 < id < |b.flows|
    then b.(types := seq(|b.types|, i requires 0 <= i < |b.types| => WithoutFlow(b.types[i], id)))
    else b
  }

  function Perform(b: Books, op: Op): Books {
    match op
    case Hire(role, joined) => HireOp(b, role, joined)
    case CreatePolicy(policy) => CreatePolicyOp(b, policy)
    case UpdatePolicy(typ, policy) => UpdatePolicyOp(b, typ, policy)
    case ChangeRole(emp, role) => ChangeRoleOp(b, emp, role)
    case ChangeJoining(emp, day) => ChangeJoiningOp(b, emp, day)
    case ToggleActive(emp) => ToggleOp(b, emp)
    case Adjust(emp, typ, quantity) => AdjustOp(b, emp, typ, quantity)
    case Accrue(emp, typ, month, accrualYear) => AccrueOp(b, emp, typ, month, accrualYear)
    case CreateFlow(stages) => CreateFlowOp(b, stages)
    case UpdateFlow(id, stages) => UpdateFlowOp(b, id, stages)
    case DeleteFlow(id) => DeleteFlowOp(b, id)
  }

  /** The two statements that leave actions issue. */
  function DebitRow(b: Books, emp: nat, typ: nat, days: real): Books {
    b.(rows := UpdateRow(b.rows, Key(emp, typ, b.year), r => Debited(r, days)))
  }

  function RefundRow(b: Books, emp: nat, typ: nat, days: real): Books {
    b.(rows := UpdateRow(b.rows, Key(emp, typ, b.year), r => Restored(r, days)))
  }
}

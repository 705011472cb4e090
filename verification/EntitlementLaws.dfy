/**
 * What employees are entitled to, and what each office operation makes of the
 * tables: the opening that is due by role, entitlement and joining date, the rows
 * that get it, and nothing else.
 */
module EntitlementLaws {
  import opened Basics
  import opened Books
  import opened BooksLaws
  import opened Calendar
  import Flow = ApprovalFlow

  // ---------------------------------------------------------------------- proration

  /** o is the whole part of the share of the year from the month on. */
  predicate Prorates(o: int, yearly: int, month: int) {
    12 * o <= yearly * (13 - month) < 12 * o + 12
  }

  /** Both implementations round the share of the remaining months down; who joins in January gets
      the whole entitlement.  On other numbers, which no date has, they differ. */
  lemma ProratedExactly(yearly: int, month: int, o: int)
    ensures 1 <= month <= 12 ==> (ProratedLeave(yearly, month) == o <==> Prorates(o, yearly, month))
    ensures 1 <= month <= 12 ==> (CalculateProratedLeave(yearly, month) == o <==> Prorates(o, yearly, month))
    ensures ProratedLeave(yearly, 1) == yearly == CalculateProratedLeave(yearly, 1)
    ensures !(1 <= month <= 12) ==> ProratedLeave(yearly, month) == yearly && CalculateProratedLeave(yearly, month) == 0
  {}

  /** Who joins later gets no more. */
  lemma ProratedFalls(yearly: int, m: int, n: int)
    requires yearly >= 0 && 1 <= m <= n <= 12
    ensures 0 <= ProratedLeave(yearly, n) <= ProratedLeave(yearly, m) <= yearly
  {
    ProratedExactly(yearly, m, ProratedLeave(yearly, m));
    ProratedExactly(yearly, n, ProratedLeave(yearly, n));
    TimesGrows(yearly, 13 - n, 13 - m);
    TimesGrows(yearly, 13 - m, 12);
    TimesGrows(yearly, 0, 13 - n);
  }

  lemma TimesGrows(a: int, b: int, c: int)
    requires a >= 0 && b <= c
    ensures a * b <= a * c
  {
    assert a * (c - b) >= 0;
  }

  /** The opening that is due: interns have their own entitlement if the type names one, and who
      joined in the year gets the share of the months that are left of it. */
  ghost predicate DueOpening(o: int, e: StaffMember, t: LeaveType, year: int) {
    var due := if e.role.Intern? && t.intern.Some? then t.intern.value else t.entitlement;
    && (e.joined.None? ==> o == due)
    && (e.joined.Some? ==> forall m :: Holds(MonthStart, m, e.joined.value)
                             ==> if m / 12 == year then Prorates(o, due, m % 12 + 1) else o == due)
  }

  lemma OpeningIsDue(e: StaffMember, t: LeaveType, year: int, o: int)
    ensures DueOpening(o, e, t, year) <==> o == Opening(e, t, year)
  {
    if e.joined.Some? {
      var m := MonthOf(e.joined.value);
      MonthOfHolds(e.joined.value);
      forall k | Holds(MonthStart, k, e.joined.value) ensures k == m { MonthOfUnique(e.joined.value, k); }
      ProratedExactly(Entitlement(t, e.role), m % 12 + 1, o);
    }
  }

  // ------------------------------------------------------------------- new and reopened

  /** A new row: it opens and closes with what is due. */
  ghost predicate NewRow(r: Row, e: StaffMember, t: LeaveType, year: int) {
    && r.accrued == 0.0 && r.used == 0.0 && r.adjusted == 0.0
    && r.closing == r.opening == r.opening.Floor as real
    && DueOpening(r.opening.Floor, e, t, year)
  }

  /** A recalculated row: only its opening and closing change. */
  ghost predicate ReopenedRow(was: Row, r: Row, e: StaffMember, t: LeaveType, year: int) {
    && r.accrued == was.accrued && r.used == was.used && r.adjusted == was.adjusted
    && r.closing == r.opening - r.used + r.adjusted
    && r.opening == r.opening.Floor as real
    && DueOpening(r.opening.Floor, e, t, year)
  }

  lemma HiredRowsAreNew(b: Books, e: StaffMember)
    ensures forall k :: k in HiredRows(b, e) ==> NewRow(HiredRows(b, e)[k], e, b.types[k.typ], b.year)
  {
    forall k | k in HiredRows(b, e) ensures NewRow(HiredRows(b, e)[k], e, b.types[k.typ], b.year) {
      OpeningIsDue(e, b.types[k.typ], b.year, Opening(e, b.types[k.typ], b.year));
    }
  }

  lemma PolicyRowsAreNew(b: Books, t: LeaveType)
    ensures forall k :: k in PolicyRows(b, t) ==> NewRow(PolicyRows(b, t)[k], b.staff[k.emp], t, b.year)
  {
    forall k | k in PolicyRows(b, t) ensures NewRow(PolicyRows(b, t)[k], b.staff[k.emp], t, b.year) {
      OpeningIsDue(b.staff[k.emp], t, b.year, Opening(b.staff[k.emp], t, b.year));
    }
  }

  /** A new employee gets a row for each type that is not early. */
  lemma HireExactly(b: Books, role: Role, joined: Option<int>)
    requires KeysOk(b)
    ensures var after, e := Perform(b, Hire(role, joined)), StaffMember(role, joined, true);
            if role.Other? then after == b
            else
              && after == b.(staff := b.staff + [e], rows := after.rows, grounded := after.grounded)
              && (forall k :: k in after.rows <==> k in b.rows || (k.emp == |b.staff| && k.year == b.year
                                                                 && k.typ < |b.types| && !b.types[k.typ].early))
              && forall k :: k in after.rows
                   ==> if k in b.rows then after.rows[k] == b.rows[k]
                       else NewRow(after.rows[k], e, b.types[k.typ], b.year)
  {
    HiredRowsAreNew(b, StaffMember(role, joined, true));
  }

  /** A type as stored; without a flow it gets the shipped one. */
  predicate Stored(t: LeaveType, policy: LeaveType, early: bool) {
    && t.entitlement == policy.entitlement && t.intern == policy.intern && t.paid == policy.paid && t.early == early
    && t.flow == Some(if policy.flow.Some? then policy.flow.value else 0)
  }

  /** A new type gives each active employee a row, unless it is early. */
  lemma CreatePolicyExactly(b: Books, policy: LeaveType)
    requires KeysOk(b)
    ensures var after := Perform(b, CreatePolicy(policy));
            if policy.entitlement < 0 || (policy.flow.Some? && policy.flow.value >= |b.flows|) then after == b
            else
              && |after.types| == |b.types| + 1 && Stored(after.types[|b.types|], policy, policy.early)
              && after == b.(types := b.types + [after.types[|b.types|]], rows := after.rows,
                             grounded := after.grounded)
              && (forall k :: k in after.rows <==> k in b.rows || (k.typ == |b.types| && k.year == b.year
                                                                 && !policy.early && k.emp < |b.staff|
                                                                 && b.staff[k.emp].active))
              && forall k :: k in after.rows
                   ==> if k in b.rows then after.rows[k] == b.rows[k]
                       else NewRow(after.rows[k], b.staff[k.emp], after.types[|b.types|], b.year)
  {
    PolicyRowsAreNew(b, WithFlow(policy));
  }

  /** The rows of a recalculation: those selected are reopened, all others stay. */
  ghost predicate Recalculation(b: Books, after: Books, selected: Key -> bool) {
    && after.rows.Keys == b.rows.Keys
    && forall k :: k in b.rows
         ==> if selected(k)
             then k.emp < |after.staff| && k.typ < |after.types|
                  && ReopenedRow(b.rows[k], after.rows[k], after.staff[k.emp], after.types[k.typ], b.year)
             else after.rows[k] == b.rows[k]
  }

  lemma RecalculatedExactly(b: Books, after: Books, sel: set<Key>, selected: Key -> bool)
    requires forall k :: k in sel ==> k.emp < |after.staff| && k.typ < |after.types|
    requires after.rows == Recalculated(b.rows, sel, after.staff, after.types, b.year)
    requires forall k :: k in b.rows ==> (k in sel <==> selected(k))
    ensures Recalculation(b, after, selected)
  {
    forall k | k in b.rows && k in sel
      ensures ReopenedRow(b.rows[k], after.rows[k], after.staff[k.emp], after.types[k.typ], b.year)
    {
      var o := Opening(after.staff[k.emp], after.types[k.typ], b.year);
      OpeningIsDue(after.staff[k.emp], after.types[k.typ], b.year, o);
      assert after.rows[k].opening.Floor == o;
    }
  }

  /** A policy update recalculates this year's rows of the type: of everybody, or only of interns if
      the type is early, which it stays. */
  lemma UpdatePolicyExactly(b: Books, typ: nat, policy: LeaveType)
    requires KeysOk(b)
    ensures var after := Perform(b, UpdatePolicy(typ, policy));
            if policy.entitlement < 0 || (policy.flow.Some? && policy.flow.value >= |b.flows|) || typ >= |b.types|
            then after == b
            else
              && |after.types| == |b.types| && Stored(after.types[typ], policy, b.types[typ].early)
              && after == b.(types := b.types[typ := after.types[typ]], rows := after.rows, grounded := after.grounded)
              && Recalculation(b, after, (k: Key) => k.typ == typ && k.year == b.year && k.emp < |b.staff|
                                                     && (b.staff[k.emp].role.Intern? || !b.types[typ].early))
  {
    if PolicyAccepted(b, policy) && typ < |b.types| {
      RecalculatedExactly(b, UpdatePolicyOp(b, typ, policy), PolicySelection(b, typ),
                          (k: Key) => k.typ == typ && k.year == b.year && k.emp < |b.staff|
                                      && (b.staff[k.emp].role.Intern? || !b.types[typ].early));
    }
  }

  /** This year's rows of one employee, for the types that are not early. */
  function RowsOfYear(b: Books, emp: nat): Key -> bool {
    (k: Key) => k.emp == emp && k.year == b.year && k.typ < |b.types| && !b.types[k.typ].early
  }

  lemma StaffExactly(b: Books, emp: nat, e: StaffMember)
    requires emp < |b.staff|
    ensures Recalculation(b, RecalculateStaff(b, emp, b.staff[emp := e]), RowsOfYear(b, emp))
  {
    RecalculatedExactly(b, RecalculateStaff(b, emp, b.staff[emp := e]), StaffSelection(b, emp), RowsOfYear(b, emp));
  }

  /** A new role recalculates the employee's rows if the old or the new one is INTERN. */
  lemma ChangeRoleExactly(b: Books, emp: nat, role: Role)
    ensures var after := Perform(b, ChangeRole(emp, role));
            if emp >= |b.staff| || role.Other? || role == b.staff[emp].role then after == b
            else
              && after == b.(staff := b.staff[emp := StaffMember(role, b.staff[emp].joined, b.staff[emp].active)],
                             rows := after.rows, grounded := after.grounded)
              && if b.staff[emp].role.Intern? || role.Intern? then Recalculation(b, after, RowsOfYear(b, emp))
                 else after.rows == b.rows
  {
    if emp < |b.staff| { StaffExactly(b, emp, b.staff[emp].(role := role)); }
  }

  lemma ChangeJoiningExactly(b: Books, emp: nat, day: int)
    ensures var after := Perform(b, ChangeJoining(emp, day));
            if emp >= |b.staff| then after == b
            else
              && after == b.(staff := b.staff[emp := StaffMember(b.staff[emp].role, Some(day), b.staff[emp].active)],
                             rows := after.rows, grounded := after.grounded)
              && Recalculation(b, after, RowsOfYear(b, emp))
  {
    if emp < |b.staff| { StaffExactly(b, emp, b.staff[emp].(joined := Some(day))); }
  }

  /** An adjustment moves adjusted and closing of this year's row by the quantity, after making it with
      the whole entitlement if it was missing, and is entered in the journal. */
  lemma AdjustExactly(b: Books, emp: nat, typ: nat, quantity: real)
    requires LedgerOk(b)
    ensures var after, k := Perform(b, Adjust(emp, typ, quantity)), Key(emp, typ, b.year);
            if emp >= |b.staff| || typ >= |b.types| then after == b
            else
              && k in after.rows
              && after == b.(rows := b.rows[k := after.rows[k]],
                             adjustments := b.adjustments + [Adjustment(k, quantity)])
              && var r := after.rows[k];
              if k in b.rows then r == b.rows[k].(adjusted := r.adjusted, closing := r.closing)
                                  && r.adjusted == b.rows[k].adjusted + quantity
                                  && r.closing == b.rows[k].closing + quantity
              else r.accrued == 0.0 && r.used == 0.0 && r.adjusted == quantity && r.closing == r.opening + quantity
                   && r.opening == r.opening.Floor as real
                   && DueOpening(r.opening.Floor, b.staff[emp].(joined := None), b.types[typ], b.year)
  {
    var k := Key(emp, typ, b.year);
    if k in b.rows {
      assert RowOk(b.rows[k], SumAdjusted(b.adjustments, k), SumCredited(b.credits, k));
    }
  }

  /** The operations that touch no row. */
  lemma OthersExactly(b: Books, emp: nat, id: nat, stages: seq<Flow.FlowStage>)
    ensures Perform(b, ToggleActive(emp))
            == if emp < |b.staff| then b.(staff := b.staff[emp := StaffMember(b.staff[emp].role, b.staff[emp].joined,
                                                                              !b.staff[emp].active)])
               else b
    ensures Perform(b, CreateFlow(stages)) == if Flow.ValidFlow(stages) then b.(flows := b.flows + [stages]) else b
    ensures var after := Perform(b, UpdateFlow(id, stages));
            && after == b.(flows := after.flows) && |after.flows| == |b.flows|
            && forall i :: 0 <= i < |b.flows|
                 ==> after.flows[i] == if i == id && id != 0 && Flow.ValidFlow(stages) then stages else b.flows[i]
    ensures var after := Perform(b, DeleteFlow(id));
            && after == b.(types := after.types) && |after.types| == |b.types|
            && forall t :: 0 <= t < |b.types|
                 ==> after.types[t] == if b.types[t].flow == Some(id) && 0 < id < |b.flows|
                                       then b.types[t].(flow := None) else b.types[t]
  {}
}

/**
 * The loops of the office operations, on a copy of the balance table that the
 * caller stores when its transaction commits.
 */
module OfficeLoops {
  import opened Books
  import opened Calendar
  import opened EntitlementLaws

  /** Rows with the opening that e is due for each type that is not early; a new employee has
      no row yet that an insert could conflict with. */
  method AllocateForHire(b: Books, e: StaffMember) returns (rows: map<Key, Row>)
    requires forall k :: k in b.rows ==> k.emp < |b.staff|
    ensures rows == b.rows + HiredRows(b, e)
    ensures forall k :: k in HiredRows(b, e) ==> NewRow(rows[k], e, b.types[k.typ], b.year)
  {
    rows := b.rows;
    var thisYear := JoinedIn(e, b.year);
    for t := 0 to |b.types|
      invariant rows.Keys == b.rows.Keys + set u | 0 <= u < t && !b.types[u].early :: Key(|b.staff|, u, b.year)
      invariant forall k :: k in b.rows ==> rows[k] == b.rows[k]
      invariant forall k :: k in rows && k !in b.rows
                  ==> k.typ < t && rows[k] == Fresh(Opening(e, b.types[k.typ], b.year) as real)
    {
      if !b.types[t].early {
        var entitlement := b.types[t].entitlement;
        if e.role.Intern? && b.types[t].intern.Some? {
          entitlement := b.types[t].intern.value;
        }
        if thisYear {
          ProrationsAgree(entitlement, MonthNumber(e.joined.value));
          entitlement := CalculateProratedLeave(entitlement, MonthNumber(e.joined.value));
        }
        rows := rows[Key(|b.staff|, t, b.year) := Fresh(entitlement as real)];
      }
    }
    assert rows == b.rows + HiredRows(b, e);
    HiredRowsAreNew(b, e);
  }

  /** Rows of a new type for every active employee; none for an early type. */
  method AllocateForPolicy(b: Books, policy: LeaveType) returns (rows: map<Key, Row>)
    requires forall k :: k in b.rows ==> k.typ < |b.types|
    ensures rows == b.rows + PolicyRows(b, policy)
    ensures forall k :: k in PolicyRows(b, policy) ==> NewRow(rows[k], b.staff[k.emp], policy, b.year)
  {
    rows := b.rows;
    if policy.early {
      assert PolicyRows(b, policy) == map[];
      return;
    }
    for e := 0 to |b.staff|
      invariant rows.Keys == b.rows.Keys + set u | 0 <= u < e && b.staff[u].active :: Key(u, |b.types|, b.year)
      invariant forall k :: k in b.rows ==> rows[k] == b.rows[k]
      invariant forall k :: k in rows && k !in b.rows
                  ==> k.emp < e && rows[k] == Fresh(Opening(b.staff[k.emp], policy, b.year) as real)
    {
      if b.staff[e].active {
        var entitlement := policy.entitlement;
        if b.staff[e].role.Intern? && policy.intern.Some? {
          entitlement := policy.intern.value;
        }
        if JoinedIn(b.staff[e], b.year) {
          entitlement := ProratedLeave(entitlement, MonthNumber(b.staff[e].joined.value));
        }
        rows := rows[Key(e, |b.types|, b.year) := Fresh(entitlement as real)];
      }
    }
    assert rows == b.rows + PolicyRows(b, policy);
    PolicyRowsAreNew(b, policy);
  }

  /** A table with the same rows, those of sel reopened with what is due. */
  ghost predicate Reopening(rows: map<Key, Row>, out: map<Key, Row>, sel: Key -> bool, due: Key -> int) {
    && out.Keys == rows.Keys
    && forall k :: k in rows ==> out[k] == if sel(k) then Reopened(rows[k], due(k) as real) else rows[k]
  }

  /** The definition of openings, for every key at once. */
  function Due(staff: seq<StaffMember>, types: seq<LeaveType>, year: int): Key -> int {
    (k: Key) => if k.emp < |staff| && k.typ < |types| then Opening(staff[k.emp], types[k.typ], year) else 0
  }

  /** One pass of a policy update over the interns, or over everybody else. */
  method ReopenType(rows: map<Key, Row>, typ: nat, interns: bool, entitlement: int, staff: seq<StaffMember>, year: int,
                    ghost due: Key -> int)
    returns (out: map<Key, Row>)
    requires forall e :: 0 <= e < |staff| && staff[e].role.Intern? == interns
               ==> due(Key(e, typ, year)) == (if JoinedIn(staff[e], year)
                                              then ProratedLeave(entitlement, MonthNumber(staff[e].joined.value))
                                              else entitlement)
    ensures Reopening(rows, out, (k: Key) => k.typ == typ && k.year == year && k.emp < |staff|
                                             && staff[k.emp].role.Intern? == interns, due)
  {
    out := rows;
    for e := 0 to |staff|
      invariant Reopening(rows, out, (k: Key) => k.typ == typ && k.year == year && k.emp < e && k.emp < |staff|
                                               && staff[k.emp].role.Intern? == interns, due)
    {
      if staff[e].role.Intern? == interns {
        var opening := entitlement;
        if JoinedIn(staff[e], year) {
          opening := ProratedLeave(entitlement, MonthNumber(staff[e].joined.value));
        }
        out := UpdateRow(out, Key(e, typ, year), r => Reopened(r, opening as real));
      }
    }
  }

  /** A policy update: everybody but the interns unless the type is early, then the interns. */
  method ReopenPolicy(b: Books, typ: nat, t: LeaveType) returns (out: map<Key, Row>)
    requires typ < |b.types| && t.early == b.types[typ].early
    ensures out == Recalculated(b.rows, PolicySelection(b, typ), b.staff, b.types[typ := t], b.year)
  {
    out := b.rows;
    ghost var due := Due(b.staff, b.types[typ := t], b.year);
    if !t.early {
      out := ReopenType(out, typ, false, t.entitlement, b.staff, b.year, due);
    }
    var intern := t.entitlement;
    if t.intern.Some? {
      intern := t.intern.value;
    }
    out := ReopenType(out, typ, true, intern, b.staff, b.year, due);
  }

  /** The pass over one employee's types that a change of role or of joining date makes. */
  method ReopenTypes(rows: map<Key, Row>, emp: nat, e: StaffMember, types: seq<LeaveType>, year: int,
                     ghost due: Key -> int)
    returns (out: map<Key, Row>)
    requires forall t :: 0 <= t < |types| ==> due(Key(emp, t, year)) == Opening(e, types[t], year)
    ensures Reopening(rows, out,
                      (k: Key) => k.emp == emp && k.year == year && k.typ < |types| && !types[k.typ].early, due)
  {
    out := rows;
    var thisYear := JoinedIn(e, year);
    for t := 0 to |types|
      invariant Reopening(rows, out, (k: Key) => k.emp == emp && k.year == year && k.typ < t && k.typ < |types|
                                               && !types[k.typ].early, due)
    {
      if !types[t].early {
        var opening := types[t].entitlement;
        if e.role.Intern? && types[t].intern.Some? {
          opening := types[t].intern.value;
        }
        if thisYear {
          opening := ProratedLeave(opening, MonthNumber(e.joined.value));
        }
        out := UpdateRow(out, Key(emp, t, year), r => Reopened(r, opening as real));
      }
    }
  }

  method ReopenStaff(b: Books, emp: nat, e: StaffMember) returns (after: Books)
    requires emp < |b.staff|
    ensures after == RecalculateStaff(b, emp, b.staff[emp := e])
  {
    var staff := b.staff[emp := e];
    var rows := ReopenTypes(b.rows, emp, e, b.types, b.year, Due(staff, b.types, b.year));
    assert rows == Recalculated(b.rows, StaffSelection(b, emp), staff, b.types, b.year);
    after := b.(staff := staff, rows := rows, grounded := b.grounded + StaffSelection(b, emp));
  }

  /** A manual adjustment of the current year's row, made first if it is missing. */
  method AdjustRow(b: Books, emp: nat, typ: nat, quantity: real) returns (rows: map<Key, Row>)
    requires emp < |b.staff| && typ < |b.types|
    ensures rows == AdjustOp(b, emp, typ, quantity).rows
  {
    rows := b.rows;
    var k := Key(emp, typ, b.year);
    if k !in rows {
      var entitlement := b.types[typ].entitlement;
      if b.staff[emp].role.Intern? && b.types[typ].intern.Some? {
        entitlement := b.types[typ].intern.value;
      }
      rows := rows[k := Row(entitlement as real, 0.0, 0.0, 0.0, entitlement as real)];
    }
    var balance := rows[k];
    var newAdjusted := balance.adjusted + quantity;
    var newClosing := balance.opening - balance.used + newAdjusted;
    rows := rows[k := balance.(adjusted := newAdjusted, closing := newClosing)];
  }
}

/**
 * Pending days are reserved: while requests start in the current year, a final
 * approval finds its row and leaves it at zero or more.  Requests, actions and
 * cancellations always keep that; an edit keeps it exactly if its days fit beside
 * the other pending ones, an office operation exactly if it leaves enough.
 */
module ReservationLaws {
  import opened Basics
  import opened Books
  import opened BooksLaws
  import opened Calendar
  import opened LeaveRecord
  import opened LeaveSystem
  import opened WorkflowLaws
  import opened LedgerLaws
  import Log = ApprovalLog

  function Pending(s: State, emp: nat, typ: nat): real {
    PendingDays(s, emp, typ, None)
  }

  ghost predicate BucketReserved(s: State, emp: nat, typ: nat) {
    !IsEarly(s.books, typ) ==> Pending(s, emp, typ) <= Closing(s.books, emp, typ)
  }

  ghost predicate Reserved(s: State) {
    forall emp, typ :: BucketReserved(s, emp, typ)
  }

  predicate StartsThisYear(s: State, l: Leave) {
    l.status.Pending? && !IsEarly(s.books, l.typ) ==> InYear(l.start, s.books.year)
  }

  /** Pending leaves that will be debited start in the year whose balance they are checked against. */
  predicate SameYear(s: State) {
    forall i :: 0 <= i < |s.leaves| ==> StartsThisYear(s, s.leaves[i])
  }

  ghost predicate ReservationOk(s: State) {
    SystemOk(s) && SameYear(s) && Reserved(s)
  }

  /** Requests for types that will be debited start in the current year. */
  predicate ThisYear(s: State, e: Event) {
    match e
    case Apply(_, _, req) => IsEarly(s.books, req.typ) || InYear(req.start, s.books.year)
    case Edit(_, _, req) => IsEarly(s.books, req.typ) || InYear(req.start, s.books.year)
    case Process(_, _, _, _) => true
    case CancelLeave(_) => true
    case Office(_) => true
  }

  predicate EditAccepted(s: State, emp: nat, id: nat, req: Request) {
    Editable(s, emp, id) && Validated(s, emp, req, Some(id)).Some?
  }

  /** A row with this opening would carry what is pending on it. */
  predicate RowFits(s: State, k: Key, opening: int)
    requires k in s.books.rows
  {
    Pending(s, k.emp, k.typ) <= opening as real - s.books.rows[k].used + s.books.rows[k].adjusted
  }

  /** Every row of the type, with the openings that the policy would give. */
  predicate PolicyFits(s: State, typ: nat, policy: LeaveType) {
    forall e :: 0 <= e < |s.books.staff| && HasRow(s.books, e, typ)
      ==> RowFits(s, Key(e, typ, s.books.year), Opening(s.books.staff[e], policy, s.books.year))
  }

  /** Every row of the employee, with the openings that e would have. */
  predicate StaffFits(s: State, emp: nat, e: StaffMember) {
    forall t :: 0 <= t < |s.books.types| && !s.books.types[t].early && HasRow(s.books, emp, t)
      ==> RowFits(s, Key(emp, t, s.books.year), Opening(e, s.books.types[t], s.books.year))
  }

  /** What to ask before an office operation, on the tables as they are. */
  predicate OfficeFits(s: State, op: Op) {
    var b := s.books;
    match op
    case Hire(role, joined) =>
      role.Other? || forall t :: 0 <= t < |b.types| && !b.types[t].early ==> Entitlement(b.types[t], role) >= 0
    case CreatePolicy(policy) =>
      PolicyAccepted(b, policy) && !policy.early
      ==> forall e :: 0 <= e < |b.staff| && b.staff[e].active ==> Entitlement(policy, b.staff[e].role) >= 0
    case UpdatePolicy(typ, policy) =>
      PolicyAccepted(b, policy) && typ < |b.types| && !b.types[typ].early ==> PolicyFits(s, typ, policy)
    case ChangeRole(emp, role) =>
      emp < |b.staff| && !role.Other? && b.staff[emp].role != role && (b.staff[emp].role.Intern? || role.Intern?)
      ==> StaffFits(s, emp, b.staff[emp].(role := role))
    case ChangeJoining(emp, day) =>
      emp < |b.staff| ==> StaffFits(s, emp, b.staff[emp].(joined := Some(day)))
    case Adjust(emp, typ, quantity) =>
      emp < |b.staff| && typ < |b.types| && !b.types[typ].early
      ==> Pending(s, emp, typ)
          <= quantity + if HasRow(b, emp, typ) then Closing(b, emp, typ)
                        else Entitlement(b.types[typ], b.staff[emp].role) as real
    case ToggleActive(_) => true
    case Accrue(_, _, _, _) => true
    case CreateFlow(_) => true
    case UpdateFlow(_, _) => true
    case DeleteFlow(_) => true
  }

  /** The new days of an accepted edit fit beside the other pending ones, and an office
      operation takes no balance below what is pending on it. */
  predicate Fits(s: State, e: Event) {
    match e
    case Apply(_, _, _) => true
    case Edit(emp, id, req) =>
      EditAccepted(s, emp, id, req) && !IsEarly(s.books, req.typ)
      ==> PendingDays(s, emp, req.typ, Some(id)) + Validated(s, emp, req, Some(id)).value
          <= Closing(s.books, emp, req.typ)
    case Process(_, _, _, _) => true
    case CancelLeave(_) => true
    case Office(op) => OfficeFits(s, op)
  }

  lemma WeightsNonNegative(s: State, emp: nat, typ: nat)
    requires LeavesOk(s)
    ensures forall l :: l in s.leaves ==> PendingWeight(emp, typ, s.books.year)(l) >= 0.0
  {}

  lemma ApplyReserves(s: State, emp: nat, role: Role, req: Request)
    requires ReservationOk(s) && ThisYear(s, Apply(emp, role, req))
    ensures SameYear(ApplyStep(s, emp, role, req)) && Reserved(ApplyStep(s, emp, role, req))
  {
    var s' := ApplyStep(s, emp, role, req);
    if s' != s {
      ValidatedFacts(s, emp, req, None);
      var l := s'.leaves[|s.leaves|];
      forall e, t ensures BucketReserved(s', e, t) {
        assert BucketReserved(s, e, t);
        WeighAppend(s.leaves, l, PendingWeight(e, t, s.books.year));
      }
    }
  }

  /** Closing balance after a posting. */
  lemma PostClosing(b: Books, p: Posting, emp: nat, typ: nat)
    ensures var hit := p.emp == emp && p.typ == typ && HasRow(b, emp, typ);
            Closing(Post(b, [p]), emp, typ) == Closing(b, emp, typ)
              + (if !hit then 0.0 else if p.Debit? then -p.days else p.days)
  {}

  /** A leave of a reserved bucket has its days there. */
  lemma ReservedCovers(s: State, id: nat)
    requires ReservationOk(s) && id < |s.leaves|
    requires s.leaves[id].status.Pending? && !IsEarly(s.books, s.leaves[id].typ)
    ensures HasRow(s.books, s.leaves[id].emp, s.leaves[id].typ)
    ensures Closing(s.books, s.leaves[id].emp, s.leaves[id].typ) >= s.leaves[id].days > 0.0
  {
    var l := s.leaves[id];
    assert LeaveOk(s, l, s.posted[id]);
    assert StartsThisYear(s, l);
    WeightsNonNegative(s, l.emp, l.typ);
    WeighAtLeast(s.leaves, id, PendingWeight(l.emp, l.typ, s.books.year));
    assert BucketReserved(s, l.emp, l.typ);
  }

  /** No action lets the pending days of a bucket outgrow its closing balance. */
  lemma ProcessBucketReserves(s: State, id: nat, r: Result, emp: nat, typ: nat)
    requires ReservationOk(s) && id < |s.leaves| && r.Done?
    requires SameRequest(s.leaves[id], r.leave) && |r.posted| <= 1
    requires r.leave.status.Pending? ==> s.leaves[id].status.Pending?
    requires var early := IsEarly(s.books, s.leaves[id].typ);
             Postings(r.leave, early) == Postings(s.leaves[id], early) + r.posted
    requires r.posted != [] && r.posted[0].Debit? ==> s.leaves[id].status.Pending? && !r.leave.status.Pending?
    ensures !IsEarly(s.books, typ)
            ==> Weigh(s.leaves[id := r.leave], PendingWeight(emp, typ, s.books.year))
                <= Closing(Post(s.books, r.posted), emp, typ)
  {
    var l := s.leaves[id];
    assert BucketReserved(s, emp, typ);
    assert LeaveOk(s, l, s.posted[id]);
    WeighReplace(s.leaves, id, r.leave, PendingWeight(emp, typ, s.books.year));
    if !IsEarly(s.books, l.typ) && r.posted != [] {
      PostingMeans(l, r.leave, r.posted);
      assert r.posted == [r.posted[0]];
      PostClosing(s.books, r.posted[0], emp, typ);
      if r.posted[0].Debit? {
        ReservedCovers(s, id);
        assert StartsThisYear(s, l);
      }
    } else if IsEarly(s.books, l.typ) {
      assert r.posted == [];
    }
  }

  lemma ProcessReserves(s: State, id: nat, action: Action, role: Role, stamp: Log.Stamp)
    requires ReservationOk(s)
    ensures SameYear(ProcessStep(s, id, action, role, stamp))
    ensures Reserved(ProcessStep(s, id, action, role, stamp))
  {
    var r := Outcome(s, id, action, role, stamp);
    StepKeepsYear(s, Process(id, action, role, stamp));
    if id < |s.leaves| && r.Done? {
      assert LeaveOk(s, s.leaves[id], s.posted[id]);
      ActAges(s.leaves[id], IsEarly(s.books, s.leaves[id].typ), action, role, stamp);
      ProcessPosts(s, id, action, role, stamp);
      PostKeepsTables(s.books, r.posted);
      forall emp, typ ensures BucketReserved(ProcessStep(s, id, action, role, stamp), emp, typ) {
        ProcessBucketReserves(s, id, r, emp, typ);
      }
    }
  }

  lemma CancelReserves(s: State, id: nat)
    requires ReservationOk(s)
    ensures SameYear(CancelStep(s, id)) && Reserved(CancelStep(s, id))
  {
    if id < |s.leaves| && Cancel(s.leaves[id]).Done? {
      assert LeaveOk(s, s.leaves[id], s.posted[id]);
      var s' := CancelStep(s, id);
      forall emp, typ ensures BucketReserved(s', emp, typ) {
        assert BucketReserved(s, emp, typ);
        WeighReplace(s.leaves, id, s'.leaves[id], PendingWeight(emp, typ, s.books.year));
      }
    }
  }

  // ---------------------------------------------------------------- office operations

  /** Balances b would carry what is pending on the bucket. */
  ghost predicate Carries(s: State, b: Books, emp: nat, typ: nat) {
    !IsEarly(b, typ) ==> Pending(s, emp, typ) <= Closing(b, emp, typ)
  }

  ghost predicate CarriesAll(s: State, b: Books) {
    forall emp, typ :: Carries(s, b, emp, typ)
  }

  lemma CarriesNow(s: State)
    requires ReservationOk(s)
    ensures CarriesAll(s, s.books)
  {
    forall emp: nat, typ: nat ensures Carries(s, s.books, emp, typ) {
      assert BucketReserved(s, emp, typ);
    }
  }

  /** An opening is negative exactly when its entitlement is. */
  lemma OpeningSign(e: StaffMember, t: LeaveType, year: int)
    ensures Opening(e, t, year) >= 0 <==> Entitlement(t, e.role) >= 0
  {
    if JoinedIn(e, year) { ProratedSign(Entitlement(t, e.role), MonthNumber(e.joined.value)); }
  }

  lemma ProratedSign(yearly: int, joinMonth: int)
    ensures ProratedLeave(yearly, joinMonth) >= 0 <==> yearly >= 0
  {
    if 1 <= joinMonth <= 12 {
      var k := 12 - joinMonth + 1;
      if yearly < 0 {
        assert yearly * k <= -1;
      } else {
        assert yearly * k >= 0;
      }
    }
  }

  /** Nothing is pending for employees and types that do not exist. */
  lemma {:induction false} NothingPending(s: State, leaves: seq<Leave>, emp: nat, typ: nat)
    requires LeavesOk(s) && leaves <= s.leaves && (emp >= |s.books.staff| || typ >= |s.books.types|)
    ensures Weigh(leaves, PendingWeight(emp, typ, s.books.year)) == 0.0
  {
    if leaves == [] {
    } else {
      var n := |leaves| - 1;
      assert LeaveOk(s, s.leaves[n], s.posted[n]);
      NothingPending(s, leaves[..n], emp, typ);
    }
  }

  lemma HireCarries(s: State, role: Role, joined: Option<int>)
    requires ReservationOk(s)
    ensures CarriesAll(s, HireOp(s.books, role, joined)) <==> OfficeFits(s, Hire(role, joined))
  {
    var b, after := s.books, HireOp(s.books, role, joined);
    var e, n := StaffMember(role, joined, true), |s.books.staff|;
    CarriesNow(s);
    if !role.Other? {
      forall t: nat | t < |b.types| && !b.types[t].early
        ensures Carries(s, after, n, t) <==> Entitlement(b.types[t], role) >= 0
      {
        assert Key(n, t, b.year) in HiredRows(b, e);
        OpeningSign(e, b.types[t], b.year);
        NothingPending(s, s.leaves, n, t);
      }
      forall emp: nat, typ: nat | emp != n || typ >= |b.types| ensures Carries(s, after, emp, typ) {
        assert BucketReserved(s, emp, typ);
        if emp >= n || typ >= |b.types| { NothingPending(s, s.leaves, emp, typ); }
        assert Key(emp, typ, b.year) in b.rows ==> KeyOk(b, Key(emp, typ, b.year));
      }
      if OfficeFits(s, Hire(role, joined)) {
        forall emp, typ ensures Carries(s, after, emp, typ) {}
      } else {
        var t :| 0 <= t < |b.types| && !b.types[t].early && Entitlement(b.types[t], role) < 0;
        assert !Carries(s, after, n, t);
      }
    }
  }

  lemma CreatePolicyCarries(s: State, policy: LeaveType)
    requires ReservationOk(s)
    ensures CarriesAll(s, CreatePolicyOp(s.books, policy)) <==> OfficeFits(s, CreatePolicy(policy))
  {
    var b, after := s.books, CreatePolicyOp(s.books, policy);
    var t, n := WithFlow(policy), |s.books.types|;
    CarriesNow(s);
    if PolicyAccepted(b, policy) {
      forall e: nat | e < |b.staff| && b.staff[e].active && !policy.early
        ensures Carries(s, after, e, n) <==> Entitlement(policy, b.staff[e].role) >= 0
      {
        assert Key(e, n, b.year) in PolicyRows(b, t);
        OpeningSign(b.staff[e], t, b.year);
        NothingPending(s, s.leaves, e, n);
      }
      forall emp: nat, typ: nat | typ != n || policy.early || emp >= |b.staff| || !b.staff[emp].active
        ensures Carries(s, after, emp, typ)
      {
        assert BucketReserved(s, emp, typ);
        if typ >= n || emp >= |b.staff| { NothingPending(s, s.leaves, emp, typ); }
        assert Key(emp, typ, b.year) in b.rows ==> KeyOk(b, Key(emp, typ, b.year));
      }
      if OfficeFits(s, CreatePolicy(policy)) {
        forall emp, typ ensures Carries(s, after, emp, typ) {}
      } else {
        var e :| 0 <= e < |b.staff| && b.staff[e].active && Entitlement(policy, b.staff[e].role) < 0;
        assert !Carries(s, after, e, n);
      }
    }
  }

  /** Reopened rows carry what is pending on them exactly if their new openings fit. */
  lemma ReopenedCarries(s: State, after: Books, sel: set<Key>)
    requires ReservationOk(s) && after.year == s.books.year && |after.types| == |s.books.types|
    requires forall t :: 0 <= t < |after.types| ==> after.types[t].early == s.books.types[t].early
    requires forall k :: k in sel ==> k in s.books.rows && k.emp < |after.staff| && k.typ < |after.types|
                                      && k.year == s.books.year
    requires after.rows == Recalculated(s.books.rows, sel, after.staff, after.types, after.year)
    ensures CarriesAll(s, after)
            <==> forall k :: k in sel && !after.types[k.typ].early
                   ==> RowFits(s, k, Opening(after.staff[k.emp], after.types[k.typ], after.year))
  {
    CarriesNow(s);
    forall k | k in sel && !after.types[k.typ].early
      ensures Carries(s, after, k.emp, k.typ)
              <==> RowFits(s, k, Opening(after.staff[k.emp], after.types[k.typ], after.year))
    {
      assert k == Key(k.emp, k.typ, after.year);
    }
    forall emp: nat, typ: nat | Key(emp, typ, after.year) !in sel ensures Carries(s, after, emp, typ) {
      assert BucketReserved(s, emp, typ);
    }
    if forall k :: k in sel && !after.types[k.typ].early
         ==> RowFits(s, k, Opening(after.staff[k.emp], after.types[k.typ], after.year))
    {
      forall emp: nat, typ: nat ensures Carries(s, after, emp, typ) {
        var k := Key(emp, typ, after.year);
        assert k in sel && !after.types[k.typ].early
               ==> RowFits(s, k, Opening(after.staff[emp], after.types[typ], after.year));
      }
    }
  }

  lemma UpdatePolicyCarries(s: State, typ: nat, policy: LeaveType)
    requires ReservationOk(s)
    ensures CarriesAll(s, UpdatePolicyOp(s.books, typ, policy)) <==> OfficeFits(s, UpdatePolicy(typ, policy))
  {
    var b, after := s.books, UpdatePolicyOp(s.books, typ, policy);
    CarriesNow(s);
    if PolicyAccepted(b, policy) && typ < |b.types| {
      ReopenedCarries(s, after, PolicySelection(b, typ));
      forall e: nat | e < |b.staff|
        ensures Opening(b.staff[e], after.types[typ], b.year) == Opening(b.staff[e], policy, b.year)
      {}
      forall k | k in PolicySelection(b, typ) ensures k == Key(k.emp, typ, b.year) {}
    }
  }

  lemma StaffCarries(s: State, emp: nat, e: StaffMember)
    requires ReservationOk(s) && emp < |s.books.staff|
    ensures CarriesAll(s, RecalculateStaff(s.books, emp, s.books.staff[emp := e])) <==> StaffFits(s, emp, e)
  {
    var after := RecalculateStaff(s.books, emp, s.books.staff[emp := e]);
    ReopenedCarries(s, after, StaffSelection(s.books, emp));
    forall k | k in StaffSelection(s.books, emp) ensures k == Key(emp, k.typ, s.books.year) {}
  }

  lemma ChangeRoleCarries(s: State, emp: nat, role: Role)
    requires ReservationOk(s)
    ensures CarriesAll(s, ChangeRoleOp(s.books, emp, role)) <==> OfficeFits(s, ChangeRole(emp, role))
  {
    CarriesNow(s);
    if emp < |s.books.staff| {
      var e := s.books.staff[emp].(role := role);
      StaffCarries(s, emp, e);
      var staffOnly := s.books.(staff := s.books.staff[emp := e]);
      forall x: nat, t: nat ensures Carries(s, staffOnly, x, t) {
        assert Carries(s, s.books, x, t);
      }
    }
  }

  lemma AdjustCarries(s: State, emp: nat, typ: nat, quantity: real)
    requires ReservationOk(s)
    ensures CarriesAll(s, AdjustOp(s.books, emp, typ, quantity)) <==> OfficeFits(s, Adjust(emp, typ, quantity))
  {
    var b, after := s.books, AdjustOp(s.books, emp, typ, quantity);
    var k := Key(emp, typ, b.year);
    CarriesNow(s);
    if emp < |b.staff| && typ < |b.types| {
      assert k in b.rows ==> RowOk(b.rows[k], SumAdjusted(b.adjustments, k), SumCredited(b.credits, k));
      forall e: nat, t: nat | e != emp || t != typ ensures Carries(s, after, e, t) {
        assert BucketReserved(s, e, t);
      }
      if OfficeFits(s, Adjust(emp, typ, quantity)) {
        forall e, t ensures Carries(s, after, e, t) {}
      } else {
        assert !Carries(s, after, emp, typ);
      }
    }
  }

  /** The other operations lower no balance. */
  lemma OthersCarry(s: State, op: Op)
    requires ReservationOk(s)
    requires op.ToggleActive? || op.Accrue? || op.CreateFlow? || op.UpdateFlow? || op.DeleteFlow?
    ensures CarriesAll(s, Perform(s.books, op))
  {
    PerformKeepsUsed(s.books, op);
    forall emp: nat, typ: nat ensures Carries(s, Perform(s.books, op), emp, typ) {
      assert BucketReserved(s, emp, typ);
    }
  }

  lemma OfficeCarries(s: State, op: Op)
    requires ReservationOk(s)
    ensures CarriesAll(s, Perform(s.books, op)) <==> OfficeFits(s, op)
  {
    match op
    case Hire(role, joined) => HireCarries(s, role, joined);
    case CreatePolicy(policy) => CreatePolicyCarries(s, policy);
    case UpdatePolicy(typ, policy) => UpdatePolicyCarries(s, typ, policy);
    case ChangeRole(emp, role) => ChangeRoleCarries(s, emp, role);
    case ChangeJoining(emp, day) =>
      CarriesNow(s);
      if emp < |s.books.staff| { StaffCarries(s, emp, s.books.staff[emp].(joined := Some(day))); }
    case Adjust(emp, typ, quantity) => AdjustCarries(s, emp, typ, quantity);
    case ToggleActive(_) => OthersCarry(s, op);
    case Accrue(_, _, _, _) => OthersCarry(s, op);
    case CreateFlow(_) => OthersCarry(s, op);
    case UpdateFlow(_, _) => OthersCarry(s, op);
    case DeleteFlow(_) => OthersCarry(s, op);
  }

  lemma ReservedIsCarried(s: State, b: Books)
    requires b.year == s.books.year
    ensures Reserved(s.(books := b)) <==> CarriesAll(s, b)
  {
    if CarriesAll(s, b) {
      forall emp: nat, typ: nat ensures BucketReserved(s.(books := b), emp, typ) {
        assert Carries(s, b, emp, typ);
      }
    }
    if Reserved(s.(books := b)) {
      forall emp: nat, typ: nat ensures Carries(s, b, emp, typ) {
        assert BucketReserved(s.(books := b), emp, typ);
      }
    }
  }

  lemma OfficeReserves(s: State, op: Op)
    requires ReservationOk(s)
    ensures SameYear(OfficeStep(s, op))
    ensures Reserved(OfficeStep(s, op)) <==> Fits(s, Office(op))
  {
    StepKeepsYear(s, Office(op));
    PerformKeepsUsed(s.books, op);
    OfficeCarries(s, op);
    ReservedIsCarried(s, Perform(s.books, op));
  }

  lemma EditReserves(s: State, emp: nat, id: nat, req: Request)
    requires ReservationOk(s) && ThisYear(s, Edit(emp, id, req))
    ensures SameYear(EditStep(s, emp, id, req))
    ensures Reserved(EditStep(s, emp, id, req)) <==> Fits(s, Edit(emp, id, req))
  {
    var s' := EditStep(s, emp, id, req);
    if EditAccepted(s, emp, id, req) {
      EditBound(s, emp, id, req);
      forall i | 0 <= i < |s'.leaves| ensures StartsThisYear(s', s'.leaves[i]) {
        assert StartsThisYear(s, s.leaves[i]);
      }
      if Fits(s, Edit(emp, id, req)) {
        forall e, t ensures BucketReserved(s', e, t) {
          assert Untouched(s', e, t, emp, req.typ);
        }
      } else {
        assert !BucketReserved(s', emp, req.typ);
      }
    }
  }

  /** From reserved pending days, an event keeps them reserved exactly if it fits. */
  lemma StepReservesExactly(s: State, e: Event)
    requires ReservationOk(s) && ThisYear(s, e)
    ensures SystemOk(Step(s, e)) && SameYear(Step(s, e))
    ensures Reserved(Step(s, e)) <==> Fits(s, e)
  {
    StepKeeps(s, e);
    match e
    case Apply(emp, role, req) => ApplyReserves(s, emp, role, req);
    case Edit(emp, id, req) => EditReserves(s, emp, id, req);
    case Process(id, action, role, stamp) => ProcessReserves(s, id, action, role, stamp);
    case CancelLeave(id) => CancelReserves(s, id);
    case Office(op) => OfficeReserves(s, op);
  }

  ghost predicate AlwaysReserved(s: State, events: seq<Event>) {
    Reserved(Run(s, events)) && (events == [] || AlwaysReserved(s, events[..|events| - 1]))
  }

  predicate RunThisYear(s: State, events: seq<Event>) {
    events == []
    || (RunThisYear(s, events[..|events| - 1]) && ThisYear(Run(s, events[..|events| - 1]), events[|events| - 1]))
  }

  predicate RunFits(s: State, events: seq<Event>) {
    events == []
    || (RunFits(s, events[..|events| - 1]) && Fits(Run(s, events[..|events| - 1]), events[|events| - 1]))
  }

  /** Whatever happens to reservations, later requests of this year stay this year's. */
  lemma StepKeepsYear(s: State, e: Event)
    requires SystemOk(s) && SameYear(s) && ThisYear(s, e)
    ensures SameYear(Step(s, e))
  {
    var s' := Step(s, e);
    if e.Office? { PerformKeepsUsed(s.books, e.op); }
    if e.Process? && e.id < |s.leaves| && Outcome(s, e.id, e.action, e.role, e.stamp).Done? {
      assert LeaveOk(s, s.leaves[e.id], s.posted[e.id]);
      ProcessPosts(s, e.id, e.action, e.role, e.stamp);
      ActAges(s.leaves[e.id], IsEarly(s.books, s.leaves[e.id].typ), e.action, e.role, e.stamp);
      PostKeepsTables(s.books, Outcome(s, e.id, e.action, e.role, e.stamp).posted);
    }
    forall i | 0 <= i < |s'.leaves| ensures StartsThisYear(s', s'.leaves[i]) {
      if i < |s.leaves| {
        assert LeaveOk(s, s.leaves[i], s.posted[i]) && StartsThisYear(s, s.leaves[i]);
      }
    }
  }

  /** On runs of this year's requests, pending days stay reserved all along exactly if every
      event fits. */
  lemma {:induction false} RunsReserveExactly(year: int, holidays: set<int>, events: seq<Event>)
    requires RunThisYear(Start(year, holidays), events)
    ensures SameYear(Run(Start(year, holidays), events))
    ensures AlwaysReserved(Start(year, holidays), events) <==> RunFits(Start(year, holidays), events)
  {
    var s0 := Start(year, holidays);
    if events == [] {
      forall emp, typ ensures BucketReserved(s0, emp, typ) {}
    } else {
      var s, e := Run(s0, events[..|events| - 1]), events[|events| - 1];
      RunsReserveExactly(year, holidays, events[..|events| - 1]);
      RunKeeps(year, holidays, events[..|events| - 1]);
      if AlwaysReserved(s0, events[..|events| - 1]) {
        StepReservesExactly(s, e);
      }
      StepKeepsYear(s, e);
    }
  }

  /** The request finally approves a leave that has a balance bucket. */
  predicate FinalApproval(s: State, id: nat, role: Role, stamp: Log.Stamp) {
    && id < |s.leaves| && !IsEarly(s.books, s.leaves[id].typ)
    && Outcome(s, id, Approve, role, stamp).Done?
    && Outcome(s, id, Approve, role, stamp).leave.status.Approved?
  }

  lemma ApprovalDebits(s: State, id: nat, role: Role, stamp: Log.Stamp)
    requires LeavesOk(s) && FinalApproval(s, id, role, stamp)
    ensures s.leaves[id].status.Pending?
    ensures var l := s.leaves[id];
            Closing(ProcessStep(s, id, Approve, role, stamp).books, l.emp, l.typ)
            == Closing(s.books, l.emp, l.typ) - if HasRow(s.books, l.emp, l.typ) then l.days else 0.0
  {
    var l := s.leaves[id];
    assert LeaveOk(s, l, s.posted[id]);
    ActAges(l, false, Approve, role, stamp);
    ProcessPosts(s, id, Approve, role, stamp);
    var r := Outcome(s, id, Approve, role, stamp);
    assert r.posted == [r.posted[0]];
    PostClosing(s.books, r.posted[0], l.emp, l.typ);
  }

  /** On every run, a final approval leaves the balance at zero or more exactly if the balance
      covers the days, or is at least zero because there is no row to take them from. */
  lemma OverdraftExactly(year: int, holidays: set<int>, events: seq<Event>, id: nat, role: Role, stamp: Log.Stamp)
    requires FinalApproval(Run(Start(year, holidays), events), id, role, stamp)
    ensures var s := Run(Start(year, holidays), events);
            var l := s.leaves[id];
            Closing(ProcessStep(s, id, Approve, role, stamp).books, l.emp, l.typ) >= 0.0
            <==> Closing(s.books, l.emp, l.typ) >= (if HasRow(s.books, l.emp, l.typ) then l.days else 0.0)
  {
    RunKeeps(year, holidays, events);
    ApprovalDebits(Run(Start(year, holidays), events), id, role, stamp);
  }

  /** After a run that fits, a final approval finds its balance row and does not overdraw it. */
  lemma NoOverdraft(year: int, holidays: set<int>, events: seq<Event>, id: nat, role: Role, stamp: Log.Stamp)
    requires RunThisYear(Start(year, holidays), events) && RunFits(Start(year, holidays), events)
    requires FinalApproval(Run(Start(year, holidays), events), id, role, stamp)
    ensures var s := Run(Start(year, holidays), events);
            var s' := ProcessStep(s, id, Approve, role, stamp);
            var l := s.leaves[id];
            && HasRow(s.books, l.emp, l.typ)
            && Closing(s'.books, l.emp, l.typ) == Closing(s.books, l.emp, l.typ) - l.days >= 0.0
  {
    RunsReserveExactly(year, holidays, events);
    RunKeeps(year, holidays, events);
    ApprovalDebits(Run(Start(year, holidays), events), id, role, stamp);
    ReservedCovers(Run(Start(year, holidays), events), id);
  }

  // ------------------------------------------------------------------------- edits

  /** Every bucket other than the one an edit moves its leave to. */
  ghost predicate Untouched(s: State, e: nat, t: nat, emp: nat, typ: nat) {
    (e != emp || t != typ) ==> BucketReserved(s, e, t)
  }

  /** An accepted edit bounds its new bucket by the closing balance plus the days the leave had
      before, keeps it reserved exactly when the new days fit beside the others, and cannot
      unreserve any other bucket. */
  lemma EditBound(s: State, emp: nat, id: nat, req: Request)
    requires ReservationOk(s) && EditAccepted(s, emp, id, req) && ThisYear(s, Edit(emp, id, req))
    ensures var s' := EditStep(s, emp, id, req);
            var days := Validated(s, emp, req, Some(id)).value;
            && (!IsEarly(s.books, req.typ)
                ==> Pending(s', emp, req.typ) <= Closing(s.books, emp, req.typ) + s.leaves[id].days
                    && (BucketReserved(s', emp, req.typ)
                        <==> PendingDays(s, emp, req.typ, Some(id)) + days <= Closing(s.books, emp, req.typ)))
            && (IsEarly(s.books, req.typ) ==> BucketReserved(s', emp, req.typ))
            && forall e, t :: Untouched(s', e, t, emp, req.typ)
  {
    var s' := EditStep(s, emp, id, req);
    var l := s'.leaves[id];
    assert LeaveOk(s, s.leaves[id], s.posted[id]);
    ValidatedFacts(s, emp, req, Some(id));
    var w := PendingWeight(emp, req.typ, s.books.year);
    WeighReplace(s.leaves, id, l, w);
    WeighWithout(s.leaves, id, w);
    forall e, t ensures Untouched(s', e, t, emp, req.typ) {
      assert BucketReserved(s, e, t);
      WeighReplace(s.leaves, id, l, PendingWeight(e, t, s.books.year));
    }
  }
}

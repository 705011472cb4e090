/**
 * Balances against leaves over all runs: used days are the days of the charged
 * leaves.  The law has one hole, a debit whose balance row does not exist, and
 * holds exactly on the runs that never reach it.
 */
module LedgerLaws {
  import opened Basics
  import opened Books
  import opened BooksLaws
  import opened Calendar
  import opened LeaveRecord
  import opened LeaveSystem
  import opened WorkflowLaws
  import Log = ApprovalLog

  // ------------------------------------------------------------------ sums of leaves

  lemma {:induction false} WeighReplace(leaves: seq<Leave>, i: nat, l: Leave, w: Leave -> real)
    requires i < |leaves|
    ensures Weigh(leaves[i := l], w) == Weigh(leaves, w) - w(leaves[i]) + w(l)
  {
    var n := |leaves| - 1;
    var changed := leaves[i := l];
    if i == n {
      assert changed[..n] == leaves[..n];
    } else {
      assert changed[..n] == leaves[..n][i := l];
      WeighReplace(leaves[..n], i, l, w);
    }
  }

  lemma WeighAppend(leaves: seq<Leave>, l: Leave, w: Leave -> real)
    ensures Weigh(leaves + [l], w) == Weigh(leaves, w) + w(l)
  {}

  lemma {:induction false} WeighWithout(leaves: seq<Leave>, i: nat, w: Leave -> real)
    requires i < |leaves|
    ensures Weigh(Without(leaves, Some(i)), w) == Weigh(leaves, w) - w(leaves[i])
  {
    var n := |leaves| - 1;
    var rest := Without(leaves, Some(i));
    if i == n {
      assert rest == leaves[..n];
    } else {
      WeighWithout(leaves[..n], i, w);
      assert rest == Without(leaves[..n], Some(i)) + [leaves[n]];
      WeighAppend(Without(leaves[..n], Some(i)), leaves[n], w);
    }
  }

  lemma {:induction false} WeighAtLeast(leaves: seq<Leave>, i: nat, w: Leave -> real)
    requires i < |leaves| && forall l :: l in leaves ==> w(l) >= 0.0
    ensures Weigh(leaves, w) >= w(leaves[i])
  {
    var n := |leaves| - 1;
    if i < n {
      WeighAtLeast(leaves[..n], i, w);
    } else {
      WeighNonNegative(leaves[..n], w);
    }
  }

  lemma {:induction false} WeighNonNegative(leaves: seq<Leave>, w: Leave -> real)
    requires forall l :: l in leaves ==> w(l) >= 0.0
    ensures Weigh(leaves, w) >= 0.0
  {
    if leaves == [] {
    } else {
      WeighNonNegative(leaves[..|leaves| - 1], w);
    }
  }

  // ---------------------------------------------------------------- used = charged

  function ChargedWeight(emp: nat, typ: nat): Leave -> real {
    (l: Leave) => if l.emp == emp && l.typ == typ && Charged(l) then l.days else 0.0
  }

  /** Days of the leaves of a bucket that are charged now. */
  function ChargedDays(leaves: seq<Leave>, emp: nat, typ: nat): real {
    Weigh(leaves, ChargedWeight(emp, typ))
  }

  function Used(b: Books, emp: nat, typ: nat): real {
    var k := Key(emp, typ, b.year);
    if k in b.rows then b.rows[k].used else 0.0
  }

  ghost predicate BucketAgrees(s: State, emp: nat, typ: nat) {
    !IsEarly(s.books, typ) ==> Used(s.books, emp, typ) == ChargedDays(s.leaves, emp, typ)
  }

  /** Every balance carries exactly the charged leaves of its bucket. */
  ghost predicate UsedAgrees(s: State) {
    forall emp, typ :: BucketAgrees(s, emp, typ)
  }

  predicate HasRow(b: Books, emp: nat, typ: nat) {
    Key(emp, typ, b.year) in b.rows
  }

  lemma PostUsed(b: Books, p: Posting, emp: nat, typ: nat)
    ensures var hit := p.emp == emp && p.typ == typ && HasRow(b, emp, typ);
            Used(Post(b, [p]), emp, typ) == Used(b, emp, typ)
              + (if !hit then 0.0 else if p.Debit? then p.days else -p.days)
  {}

  /** What a posting says of the leave that issued it. */
  lemma PostingMeans(l: Leave, l': Leave, posted: seq<Posting>)
    requires SameRequest(l, l') && |posted| <= 1
    requires Postings(l', false) == Postings(l, false) + posted
    ensures posted == [] ==> (Charged(l') <==> Charged(l))
    ensures posted != [] ==> posted[0].emp == l.emp && posted[0].typ == l.typ && posted[0].days == l.days
    ensures posted != [] ==> posted[0].Debit? == Charged(l') && posted[0].Debit? == !Charged(l)
  {
    if posted != [] {
      assert Postings(l', false)[|Postings(l, false)|] == posted[0];
    }
  }

  /** One action on one leave, and what it means for the charged days of any bucket. */
  lemma ActCharges(l: Leave, l': Leave, posted: seq<Posting>, emp: nat, typ: nat)
    requires SameRequest(l, l') && |posted| <= 1
    requires Postings(l', false) == Postings(l, false) + posted
    ensures ChargedWeight(emp, typ)(l') == ChargedWeight(emp, typ)(l)
              + if posted == [] || l.emp != emp || l.typ != typ then 0.0
                else if posted[0].Debit? then l.days else -l.days
  {
    PostingMeans(l, l', posted);
  }

  /** In agreement, a charged leave has its balance row. */
  lemma ChargedHasRow(s: State, id: nat)
    requires LeavesOk(s) && UsedAgrees(s) && id < |s.leaves|
    requires Charged(s.leaves[id]) && !IsEarly(s.books, s.leaves[id].typ)
    ensures HasRow(s.books, s.leaves[id].emp, s.leaves[id].typ)
  {
    var l := s.leaves[id];
    assert LeaveOk(s, l, s.posted[id]);
    forall x | x in s.leaves ensures ChargedWeight(l.emp, l.typ)(x) >= 0.0 {
      var i :| 0 <= i < |s.leaves| && s.leaves[i] == x;
      assert LeaveOk(s, s.leaves[i], s.posted[i]);
    }
    WeighAtLeast(s.leaves, id, ChargedWeight(l.emp, l.typ));
    assert BucketAgrees(s, l.emp, l.typ);
  }

  /** The bucket of one employee and type before and after an accepted action. */
  lemma ProcessBucket(s: State, id: nat, r: Result, emp: nat, typ: nat)
    requires id < |s.leaves| && r.Done?
    requires SameRequest(s.leaves[id], r.leave) && |r.posted| <= 1
    requires var early := IsEarly(s.books, s.leaves[id].typ);
             Postings(r.leave, early) == Postings(s.leaves[id], early) + r.posted
    requires BucketAgrees(s, emp, typ)
    requires r.posted != [] ==> HasRow(s.books, s.leaves[id].emp, s.leaves[id].typ)
    ensures !IsEarly(s.books, typ)
            ==> Used(Post(s.books, r.posted), emp, typ) == ChargedDays(s.leaves[id := r.leave], emp, typ)
  {
    var l := s.leaves[id];
    WeighReplace(s.leaves, id, r.leave, ChargedWeight(emp, typ));
    if !IsEarly(s.books, l.typ) {
      ActCharges(l, r.leave, r.posted, emp, typ);
      if r.posted != [] {
        PostingMeans(l, r.leave, r.posted);
        assert r.posted == [r.posted[0]];
        PostUsed(s.books, r.posted[0], emp, typ);
      }
    } else {
      assert r.posted == [];
    }
  }

  /** A leave that is not charged before and after leaves every sum of charged days alone. */
  lemma UnchargedReplace(s: State, id: nat, l: Leave, emp: nat, typ: nat)
    requires id < |s.leaves| && !Charged(l) && !Charged(s.leaves[id])
    ensures ChargedDays(s.leaves[id := l], emp, typ) == ChargedDays(s.leaves, emp, typ)
  {
    WeighReplace(s.leaves, id, l, ChargedWeight(emp, typ));
  }

  lemma ApplyAgrees(s: State, emp: nat, role: Role, req: Request)
    requires UsedAgrees(s)
    ensures UsedAgrees(ApplyStep(s, emp, role, req))
  {
    var s' := ApplyStep(s, emp, role, req);
    if s' != s {
      forall e, t ensures BucketAgrees(s', e, t) {
        assert BucketAgrees(s, e, t);
        WeighAppend(s.leaves, s'.leaves[|s.leaves|], ChargedWeight(e, t));
      }
    }
  }

  /** A new request that passes the balance check has a balance row. */
  lemma BalanceNeedsRow(s: State, emp: nat, typ: nat, days: real)
    requires LeavesOk(s) && days > 0.0 && BalanceAllows(s, emp, typ, days, None)
    ensures HasRow(s.books, emp, typ)
  {
    forall l | l in s.leaves ensures PendingWeight(emp, typ, s.books.year)(l) >= 0.0 {
      var i :| 0 <= i < |s.leaves| && s.leaves[i] == l;
      assert LeaveOk(s, s.leaves[i], s.posted[i]);
    }
    WeighNonNegative(s.leaves, PendingWeight(emp, typ, s.books.year));
  }

  lemma EditAgrees(s: State, emp: nat, id: nat, req: Request)
    requires UsedAgrees(s)
    ensures UsedAgrees(EditStep(s, emp, id, req))
  {
    var s' := EditStep(s, emp, id, req);
    if s' != s {
      forall e, t ensures BucketAgrees(s', e, t) {
        assert BucketAgrees(s, e, t);
        UnchargedReplace(s, id, s'.leaves[id], e, t);
      }
    }
  }

  lemma CancelAgrees(s: State, id: nat)
    requires LeavesOk(s) && UsedAgrees(s)
    ensures UsedAgrees(CancelStep(s, id))
  {
    if id < |s.leaves| && Cancel(s.leaves[id]).Done? {
      var l := s.leaves[id];
      assert LeaveOk(s, l, s.posted[id]);
      CancelPosts(l, false);
      forall emp, typ ensures BucketAgrees(CancelStep(s, id), emp, typ) {
        assert BucketAgrees(s, emp, typ);
        WeighReplace(s.leaves, id, Cancel(l).leave, ChargedWeight(emp, typ));
        assert Postings(Cancel(l).leave, false) == Postings(l, false) + [];
        ActCharges(l, Cancel(l).leave, [], emp, typ);
      }
    }
  }

  lemma OfficeAgrees(s: State, op: Op)
    requires KeysOk(s.books) && LeavesOk(s) && UsedAgrees(s)
    ensures UsedAgrees(OfficeStep(s, op))
  {
    PerformKeepsUsed(s.books, op);
    KeptUsedAgrees(s, OfficeStep(s, op));
  }

  lemma KeptUsedAgrees(s: State, s': State)
    requires LeavesOk(s) && UsedAgrees(s) && KeysOk(s.books)
    requires s'.leaves == s.leaves && UsedKept(s.books, s'.books)
    ensures UsedAgrees(s')
  {
    forall emp: nat, typ: nat ensures BucketAgrees(s', emp, typ) {
      assert BucketAgrees(s, emp, typ);
      if typ >= |s.books.types| {
        assert Key(emp, typ, s.books.year) in s.books.rows ==> KeyOk(s.books, Key(emp, typ, s.books.year));
        NoLeavesOfType(s, s.leaves, emp, typ);
      }
    }
  }

  /** No leave refers to a type that does not exist yet. */
  lemma {:induction false} NoLeavesOfType(s: State, leaves: seq<Leave>, emp: nat, typ: nat)
    requires LeavesOk(s) && leaves <= s.leaves && typ >= |s.books.types|
    ensures ChargedDays(leaves, emp, typ) == 0.0
  {
    if leaves == [] {
    } else {
      var n := |leaves| - 1;
      assert LeaveOk(s, s.leaves[n], s.posted[n]);
      NoLeavesOfType(s, leaves[..n], emp, typ);
    }
  }

  // ---------------------------------------------------------------- the exact law

  /** A final approval of a leave that is not early finds the balance row of its bucket. */
  predicate DebitFindsRow(s: State, e: Event) {
    e.Process? && e.id < |s.leaves| && !IsEarly(s.books, s.leaves[e.id].typ)
    && Outcome(s, e.id, e.action, e.role, e.stamp).Done?
    && Outcome(s, e.id, e.action, e.role, e.stamp).leave.status.Approved?
    && s.leaves[e.id].status.Pending?
    ==> HasRow(s.books, s.leaves[e.id].emp, s.leaves[e.id].typ)
  }

  /** What an action on one leave posts: a debit on becoming Approved, a refund only when charged. */
  lemma ProcessPosts(s: State, id: nat, action: Action, role: Role, stamp: Log.Stamp)
    requires LeavesOk(s) && id < |s.leaves| && Outcome(s, id, action, role, stamp).Done?
    ensures var l := s.leaves[id];
            var r := Outcome(s, id, action, role, stamp);
            && SameRequest(l, r.leave) && |r.posted| <= 1
            && Postings(r.leave, IsEarly(s.books, l.typ)) == Postings(l, IsEarly(s.books, l.typ)) + r.posted
            && (r.posted != [] ==> !IsEarly(s.books, l.typ) && NamesLeave(l, r.posted[0])
                                   && (r.posted[0].Debit? <==> r.leave.status.Approved?)
                                   && (r.posted[0].Debit? ==> l.status.Pending?)
                                   && (r.posted[0].Refund? ==> Charged(l)))
            && (!IsEarly(s.books, l.typ) && r.leave.status.Approved? && l.status.Pending? ==> r.posted != [])
  {
    var l := s.leaves[id];
    assert LeaveOk(s, l, s.posted[id]);
    ActPosts(l, IsEarly(s.books, l.typ), action, role, stamp);
    ActAges(l, IsEarly(s.books, l.typ), action, role, stamp);
    var r := Outcome(s, id, action, role, stamp);
    if r.posted != [] { PostingMeans(l, r.leave, r.posted); }
  }

  predicate NamesLeave(l: Leave, p: Posting) {
    p.emp == l.emp && p.typ == l.typ && p.days == l.days
  }

  lemma ProcessAgreesExactly(s: State, id: nat, action: Action, role: Role, stamp: Log.Stamp)
    requires LeavesOk(s) && UsedAgrees(s)
    ensures UsedAgrees(ProcessStep(s, id, action, role, stamp))
            <==> DebitFindsRow(s, Process(id, action, role, stamp))
  {
    var r := Outcome(s, id, action, role, stamp);
    if id < |s.leaves| && r.Done? {
      var l := s.leaves[id];
      ProcessPosts(s, id, action, role, stamp);
      PostKeepsTables(s.books, r.posted);
      if r.posted != [] && r.posted[0].Refund? { ChargedHasRow(s, id); }
      if r.posted != [] && !HasRow(s.books, l.emp, l.typ) {
        MissedDebit(s, id, r);
        assert !BucketAgrees(ProcessStep(s, id, action, role, stamp), l.emp, l.typ);
      } else {
        forall emp, typ ensures BucketAgrees(ProcessStep(s, id, action, role, stamp), emp, typ) {
          assert BucketAgrees(s, emp, typ);
          ProcessBucket(s, id, r, emp, typ);
        }
      }
    }
  }

  /** A debit without a row changes no balance but charges the leave. */
  lemma MissedDebit(s: State, id: nat, r: Result)
    requires UsedAgrees(s) && LeavesOk(s) && id < |s.leaves| && r.Done?
    requires var l := s.leaves[id];
             && SameRequest(l, r.leave) && !IsEarly(s.books, l.typ) && !HasRow(s.books, l.emp, l.typ)
             && |r.posted| == 1 && r.posted[0].Debit? && NamesLeave(l, r.posted[0])
             && Postings(r.leave, false) == Postings(l, false) + r.posted
    ensures var l := s.leaves[id];
            Used(Post(s.books, r.posted), l.emp, l.typ) != ChargedDays(s.leaves[id := r.leave], l.emp, l.typ)
  {
    var l := s.leaves[id];
    assert LeaveOk(s, l, s.posted[id]);
    assert BucketAgrees(s, l.emp, l.typ);
    WeighReplace(s.leaves, id, r.leave, ChargedWeight(l.emp, l.typ));
    ActCharges(l, r.leave, r.posted, l.emp, l.typ);
    assert r.posted == [r.posted[0]];
    PostUsed(s.books, r.posted[0], l.emp, l.typ);
  }

  /** From agreement, an event leads to agreement exactly if its debit, if any, finds its row. */
  lemma StepAgreesExactly(s: State, e: Event)
    requires SystemOk(s) && UsedAgrees(s)
    ensures UsedAgrees(Step(s, e)) <==> DebitFindsRow(s, e)
  {
    match e
    case Apply(emp, role, req) => ApplyAgrees(s, emp, role, req);
    case Edit(emp, id, req) => EditAgrees(s, emp, id, req);
    case Process(id, action, role, stamp) => ProcessAgreesExactly(s, id, action, role, stamp);
    case CancelLeave(id) => CancelAgrees(s, id);
    case Office(op) => OfficeAgrees(s, op);
  }

  /** Agreement after every event of a run. */
  ghost predicate AlwaysAgrees(s: State, events: seq<Event>) {
    UsedAgrees(Run(s, events)) && (events == [] || AlwaysAgrees(s, events[..|events| - 1]))
  }

  predicate DebitsFindRows(s: State, events: seq<Event>) {
    events == []
    || (DebitsFindRows(s, events[..|events| - 1])
        && DebitFindsRow(Run(s, events[..|events| - 1]), events[|events| - 1]))
  }

  /** Used days are the days of the charged leaves all along a run, exactly if every final
      approval of the run found its balance row. */
  lemma {:induction false} LedgerEqualsHistory(year: int, holidays: set<int>, events: seq<Event>)
    ensures AlwaysAgrees(Start(year, holidays), events) <==> DebitsFindRows(Start(year, holidays), events)
  {
    var s := Start(year, holidays);
    if events == [] {
      forall emp, typ ensures BucketAgrees(s, emp, typ) {}
    } else {
      LedgerEqualsHistory(year, holidays, events[..|events| - 1]);
      RunKeeps(year, holidays, events[..|events| - 1]);
      if AlwaysAgrees(s, events[..|events| - 1]) {
        StepAgreesExactly(Run(s, events[..|events| - 1]), events[|events| - 1]);
      }
    }
  }

  // -------------------------------------------------- where a row can come to be missing

  /** Every leave that needs a balance row has one. */
  predicate Covered(s: State) {
    forall i :: 0 <= i < |s.leaves| ==> LeaveCovered(s, s.leaves[i])
  }

  predicate LeaveCovered(s: State, l: Leave) {
    IsEarly(s.books, l.typ) || HasRow(s.books, l.emp, l.typ)
  }

  /** An accepted edit asks for an early type or for a type that has a balance row. */
  predicate RowReady(s: State, e: Event) {
    e.Edit? && Editable(s, e.emp, e.id) && Validated(s, e.emp, e.req, Some(e.id)).Some?
    ==> IsEarly(s.books, e.req.typ) || HasRow(s.books, e.emp, e.req.typ)
  }

  lemma ApplyCovers(s: State, emp: nat, role: Role, req: Request)
    requires LeavesOk(s) && Covered(s)
    ensures Covered(ApplyStep(s, emp, role, req))
  {
    var s' := ApplyStep(s, emp, role, req);
    if s' != s {
      ValidatedFacts(s, emp, req, None);
      if !IsEarly(s.books, req.typ) {
        BalanceNeedsRow(s, emp, req.typ, Validated(s, emp, req, None).value);
      }
      forall i | 0 <= i < |s'.leaves| ensures LeaveCovered(s', s'.leaves[i]) {
        if i < |s.leaves| { assert LeaveCovered(s, s.leaves[i]); }
      }
    }
  }

  lemma ProcessCovers(s: State, id: nat, action: Action, role: Role, stamp: Log.Stamp)
    requires LeavesOk(s) && Covered(s)
    ensures Covered(ProcessStep(s, id, action, role, stamp))
  {}

  lemma OfficeCovers(s: State, op: Op)
    requires KeysOk(s.books) && LeavesOk(s) && Covered(s)
    ensures Covered(OfficeStep(s, op))
  {}

  /** Only an edit can uncover a leave, and does so exactly when its new bucket has no row. */
  lemma StepCoversExactly(s: State, e: Event)
    requires SystemOk(s) && Covered(s)
    ensures Covered(Step(s, e)) <==> RowReady(s, e)
  {
    match e
    case Apply(emp, role, req) => ApplyCovers(s, emp, role, req);
    case Edit(emp, id, req) =>
      var s' := EditStep(s, emp, id, req);
      if s' != s && RowReady(s, e) {
        forall i | 0 <= i < |s'.leaves| ensures LeaveCovered(s', s'.leaves[i]) {
          assert LeaveCovered(s, s.leaves[i]);
        }
      }
      if Editable(s, emp, id) && Validated(s, emp, req, Some(id)).Some? && !RowReady(s, e) {
        assert !LeaveCovered(s', s'.leaves[id]);
      }
    case Process(id, action, role, stamp) => ProcessCovers(s, id, action, role, stamp);
    case CancelLeave(id) =>
      forall i | 0 <= i < |s.leaves| ensures LeaveCovered(s, Step(s, e).leaves[i]) {
        assert LeaveCovered(s, s.leaves[i]);
      }
    case Office(op) => OfficeCovers(s, op);
  }

  predicate RunReady(s: State, events: seq<Event>) {
    events == []
    || (RunReady(s, events[..|events| - 1]) && RowReady(Run(s, events[..|events| - 1]), events[|events| - 1]))
  }

  /** So the ledger agrees on every run whose edits only move leaves to buckets with a row. */
  lemma {:induction false} ReadyEditsSuffice(year: int, holidays: set<int>, events: seq<Event>)
    requires RunReady(Start(year, holidays), events)
    ensures Covered(Run(Start(year, holidays), events))
    ensures DebitsFindRows(Start(year, holidays), events)
    ensures UsedAgrees(Run(Start(year, holidays), events))
  {
    if events == [] {
    } else {
      var s, e := Run(Start(year, holidays), events[..|events| - 1]), events[|events| - 1];
      ReadyEditsSuffice(year, holidays, events[..|events| - 1]);
      RunKeeps(year, holidays, events[..|events| - 1]);
      StepCoversExactly(s, e);
      if e.Process? && e.id < |s.leaves| { assert LeaveCovered(s, s.leaves[e.id]); }
    }
    LedgerEqualsHistory(year, holidays, events);
  }
}

/**
 * The whole system as one sequential state machine: leave requests, the
 * statements they have issued, and the books.  An event is one request; a
 * refused request leaves the state as it was.
 */
module LeaveSystem {
  import opened Basics
  import opened Books
  import opened Calendar
  import opened LeaveRecord
  import Flow = ApprovalFlow
  import Log = ApprovalLog

  /**
   * Leaves are keyed by position, because they are never deleted.  posted[i] is a
   * history variable: the balance statements that leave i has issued so far.
   */
  datatype State = State(leaves: seq<Leave>, posted: seq<seq<Posting>>, books: Books, holidays: set<int>)

  /** A leave request; clock is a time of day in minutes for leaving early. */
  datatype Request = Request(typ: nat, timing: Option<int>, clock: Option<int>, start: int, end: int)

  datatype Event =
    | Apply(emp: nat, role: Role, req: Request)
    | Edit(emp: nat, id: nat, req: Request)
    | Process(id: nat, action: Action, role: Role, stamp: Log.Stamp)
    | CancelLeave(id: nat)
    | Office(op: Op)

  function Start(year: int, holidays: set<int>): State {
    State([], [], Opened(year), holidays)
  }

  // ---------------------------------------------------------------------- queries

  /** Sum of a weight over the leaves. */
  function Weigh(leaves: seq<Leave>, w: Leave -> real): real {
    if leaves == [] then 0.0
    else Weigh(leaves[..|leaves| - 1], w) + w(leaves[|leaves| - 1])
  }

  /** The leaves other than the one at skip. */
  function Without(leaves: seq<Leave>, skip: Option<nat>): seq<Leave> {
    if skip.Some? && skip.value < |leaves| then leaves[..skip.value] + leaves[skip.value + 1..] else leaves
  }

  predicate InYear(d: int, year: int) {
    YearOf(d) == year
  }

  /** A pending leave of the bucket that starts in the year counts with its days. */
  function PendingWeight(emp: nat, typ: nat, year: int): Leave -> real {
    (l: Leave) => if l.emp == emp && l.typ == typ && l.status.Pending? && InYear(l.start, year) then l.days else 0.0
  }

  function PendingDays(s: State, emp: nat, typ: nat, skip: Option<nat>): real {
    Weigh(Without(s.leaves, skip), PendingWeight(emp, typ, s.books.year))
  }

  /** Closing balance of the current year; a missing row reads as 0. */
  function Closing(b: Books, emp: nat, typ: nat): real {
    var k := Key(emp, typ, b.year);
    if k in b.rows then b.rows[k].closing else 0.0
  }

  function DaysOf(s: State, id: Option<nat>): real {
    if id.Some? && id.value < |s.leaves| then s.leaves[id.value].days else 0.0
  }

  predicate IsEarly(b: Books, typ: nat) {
    typ < |b.types| && b.types[typ].early
  }

  predicate PaidBucket(b: Books, typ: nat) {
    typ < |b.types| && b.types[typ].paid && !b.types[typ].early
  }

  /** Closing balances of the first n types, paid and not early ones only. */
  function PaidBalance(b: Books, emp: nat, n: nat): real
    requires n <= |b.types|
  {
    if n == 0 then 0.0
    else PaidBalance(b, emp, n - 1) + if PaidBucket(b, n - 1) then Closing(b, emp, n - 1) else 0.0
  }

  function PaidPendingWeight(b: Books, emp: nat): Leave -> real {
    (l: Leave) =>
      if l.emp == emp && PaidBucket(b, l.typ) && l.status.Pending? && InYear(l.start, b.year) then l.days else 0.0
  }

  // ------------------------------------------------------------------- validation

  /** An unpaid request needs every paid balance used up and no paid request waiting. */
  predicate UnpaidAllowed(s: State, emp: nat, typ: nat)
    requires typ < |s.books.types|
  {
    || s.books.types[typ].paid
    || s.books.types[typ].early
    || (PaidBalance(s.books, emp, |s.books.types|) <= 0.0 && Weigh(s.leaves, PaidPendingWeight(s.books, emp)) <= 0.0)
  }

  /** Enough balance beside what is pending; an edit gets the days of the edited leave added. */
  predicate BalanceAllows(s: State, emp: nat, typ: nat, days: real, skip: Option<nat>) {
    Closing(s.books, emp, typ) - PendingDays(s, emp, typ, skip) + DaysOf(s, skip) >= days
  }

  /** No active early leave of the type in the month; the edited leave itself is not excluded. */
  predicate EarlyLimitAllows(s: State, emp: nat, typ: nat, start: int) {
    forall i :: 0 <= i < |s.leaves| && s.leaves[i].emp == emp && s.leaves[i].typ == typ && Active(s.leaves[i])
      ==> MonthOf(s.leaves[i].start) != MonthOf(start)
  }

  predicate Overlaps(l: Leave, start: int, end: int) {
    l.start <= end && l.end >= start
  }

  predicate DatesFree(s: State, emp: nat, start: int, end: int, skip: Option<nat>) {
    forall i :: 0 <= i < |s.leaves| && Some(i) != skip && s.leaves[i].emp == emp && Active(s.leaves[i])
      ==> !Overlaps(s.leaves[i], start, end)
  }

  function ResolvedTiming(t: LeaveType, timing: Option<int>): int {
    if t.early || timing.None? then 3 else timing.value
  }

  /** The days of a request, if its own fields are acceptable. */
  function RequestedDays(s: State, req: Request): Option<real> {
    if req.timing.Some? && !(1 <= req.timing.value <= 3) then None
    else if req.clock.Some? && !(600 <= req.clock.value <= 1140) then None
    else if req.typ >= |s.books.types| then None
    else
      var timing := ResolvedTiming(s.books.types[req.typ], req.timing);
      RequestDays(req.start, req.end, s.holidays, timing, req.clock.Some?)
  }

  /** The days for which the request is accepted for this employee, if it is. */
  function Validated(s: State, emp: nat, req: Request, skip: Option<nat>): Option<real> {
    var days := RequestedDays(s, req);
    if days.None? || days.value <= 0.0 then None
    else if !UnpaidAllowed(s, emp, req.typ) then None
    else if IsEarly(s.books, req.typ) && !EarlyLimitAllows(s, emp, req.typ, req.start) then None
    else if !IsEarly(s.books, req.typ) && !BalanceAllows(s, emp, req.typ, days.value, skip) then None
    else if !DatesFree(s, emp, req.start, req.end, skip) then None
    else days
  }

  // ------------------------------------------------------------------------ steps

  /** The flow configured for a type. */
  function FlowOf(b: Books, typ: nat): Option<seq<Flow.FlowStage>> {
    if typ < |b.types| && b.types[typ].flow.Some? && b.types[typ].flow.value < |b.flows|
    then Some(b.flows[b.types[typ].flow.value]) else None
  }

  /** The log generated for an applicant of the role; empty without a flow. */
  function GeneratedLog(b: Books, typ: nat, role: Role): seq<Log.Stage> {
    var flow := FlowOf(b, typ);
    if flow.None? then [] else Flow.Generate(flow.value, Level(role))
  }

  function ApplyStep(s: State, emp: nat, role: Role, req: Request): State {
    var days := Validated(s, emp, req, None);
    if emp >= |s.books.staff| || days.None? then s
    else
      var log := GeneratedLog(s.books, req.typ, role);
      var l := Leave(emp, req.typ, req.start, req.end, days.value, Pending, None,
                     if log == [] then None else Some(log));
      s.(leaves := s.leaves + [l], posted := s.posted + [[]])
  }

  predicate Editable(s: State, emp: nat, id: nat) {
    id < |s.leaves| && s.leaves[id].emp == emp && s.leaves[id].status.Pending?
  }

  /** The edited leave; its log is regenerated as if the applicant were an EMPLOYEE, and
      kept when the new one would be empty or no flow row exists. */
  function Edited(s: State, id: nat, req: Request, days: real): Leave
    requires id < |s.leaves|
  {
    var l := s.leaves[id];
    var log := GeneratedLog(s.books, req.typ, Role.Employee);
    l.(typ := req.typ, start := req.start, end := req.end, days := days,
       flow := if log == [] || l.flow.None? then l.flow else Some(log))
  }

  function EditStep(s: State, emp: nat, id: nat, req: Request): State {
    var days := Validated(s, emp, req, Some(id));
    if !Editable(s, emp, id) || days.None? then s
    else s.(leaves := s.leaves[id := Edited(s, id, req, days.value)])
  }

  /** A posting against the balance table. */
  function Post(b: Books, posted: seq<Posting>): Books {
    if posted == [] then b
    else match posted[0]
      case Debit(emp, typ, days) => DebitRow(b, emp, typ, days)
      case Refund(emp, typ, days) => RefundRow(b, emp, typ, days)
  }

  /** The result of a request to act on a leave; the actor is an employee, which the approver
      column of the leave refers to. */
  function Outcome(s: State, id: nat, action: Action, role: Role, stamp: Log.Stamp): Result {
    if id >= |s.leaves| then LeaveRecord.Refused(NoSuchLeave)
    else if stamp.actor >= |s.books.staff| then LeaveRecord.Refused(NoSuchActor)
    else Act(s.leaves[id], IsEarly(s.books, s.leaves[id].typ), action, role, stamp)
  }

  function ProcessStep(s: State, id: nat, action: Action, role: Role, stamp: Log.Stamp): State {
    var r := Outcome(s, id, action, role, stamp);
    if r.Refused? || id >= |s.leaves| || id >= |s.posted| then s
    else s.(leaves := s.leaves[id := r.leave], posted := s.posted[id := s.posted[id] + r.posted],
            books := Post(s.books, r.posted))
  }

  function CancelStep(s: State, id: nat): State {
    if id >= |s.leaves| || Cancel(s.leaves[id]).Refused? then s
    else s.(leaves := s.leaves[id := Cancel(s.leaves[id]).leave])
  }

  function OfficeStep(s: State, op: Op): State {
    s.(books := Perform(s.books, op))
  }

  function Step(s: State, e: Event): State {
    match e
    case Apply(emp, role, req) => ApplyStep(s, emp, role, req)
    case Edit(emp, id, req) => EditStep(s, emp, id, req)
    case Process(id, action, role, stamp) => ProcessStep(s, id, action, role, stamp)
    case CancelLeave(id) => CancelStep(s, id)
    case Office(op) => OfficeStep(s, op)
  }

  /** The state after a run of events. */
  function Run(s: State, events: seq<Event>): State {
    if events == [] then s
    else Step(Run(s, events[..|events| - 1]), events[|events| - 1])
  }

  lemma RunGrows(s: State, events: seq<Event>, e: Event)
    ensures Run(s, events + [e]) == Step(Run(s, events), e)
  {}
}

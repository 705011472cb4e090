/**
 * Openings over all runs: whatever hiring, policies, role and date changes did, an
 * opening is the one that its definition gives now, unless an adjustment or the
 * accrual job made the row and nothing has recalculated it since; and then it is
 * the one that the row was made with.
 */
module OpeningLaws {
  import opened Basics
  import opened Books
  import opened BooksLaws
  import opened EntitlementLaws
  import opened LeaveSystem
  import opened WorkflowLaws

  /** An adjustment or an accrual that finds no row and makes it. */
  predicate Upserts(s: State, e: Event, k: Key) {
    e.Office? && (e.op.Adjust? || e.op.Accrue?) && k !in s.books.rows && k in Step(s, e).books.rows
  }

  /** A request that recalculates the opening of the row: a new policy for its type, or a new
      joining date, or a new role that makes or unmakes an intern, for its employee. */
  predicate Recalculates(s: State, e: Event, k: Key) {
    var b := s.books;
    && e.Office?
    && match e.op
       case UpdatePolicy(typ, policy) => PolicyAccepted(b, policy) && typ < |b.types| && k.typ == typ
       case ChangeRole(emp, role) =>
         && k.emp == emp && emp < |b.staff| && !role.Other? && b.staff[emp].role != role
         && (b.staff[emp].role.Intern? || role.Intern?)
       case ChangeJoining(emp, day) => k.emp == emp && emp < |b.staff|
       case _ => false
  }

  /** The row was made by an adjustment or an accrual and not recalculated since. */
  predicate OnlyUpserted(s: State, events: seq<Event>, k: Key) {
    events != []
    && var rest, last := events[..|events| - 1], events[|events| - 1];
       || Upserts(Run(s, rest), last, k)
       || (OnlyUpserted(s, rest, k) && !Recalculates(Run(s, rest), last, k))
  }

  /** An adjustment makes a row with the whole entitlement of that moment, the accrual job one
      with nothing. */
  function NewOpening(s: State, e: Event, k: Key): real
    requires Upserts(s, e, k)
  {
    if e.op.Adjust? then Entitlement(s.books.types[k.typ], s.books.staff[k.emp].role) as real else 0.0
  }

  function UpsertedOpening(s: State, events: seq<Event>, k: Key): real {
    if events == [] then 0.0
    else
      var rest, last := events[..|events| - 1], events[|events| - 1];
      if Upserts(Run(s, rest), last, k) then NewOpening(Run(s, rest), last, k) else UpsertedOpening(s, rest, k)
  }

  /** What the history of a row says about its opening. */
  predicate Explained(b: Books, k: Key, upserted: bool, opening: real)
    requires k in b.rows
  {
    if upserted then b.rows[k].opening == opening else k in b.grounded
  }

  /** A row of this year for a type that is not early. */
  predicate Dated(b: Books, k: Key) {
    k in b.rows && k.year == b.year && k.typ < |b.types| && !b.types[k.typ].early
  }

  /** A dated row is grounded when it is made, unless it is upserted, and when it is recalculated;
      and it stays so. */
  lemma StepGrounds(s: State, e: Event, k: Key)
    requires SystemOk(s) && Dated(Step(s, e).books, k)
    ensures Dated(s.books, k) || Upserts(s, e, k) || k in Step(s, e).books.grounded
    ensures k in s.books.grounded ==> k in Step(s, e).books.grounded
    ensures Dated(s.books, k) && Recalculates(s, e, k) ==> k in Step(s, e).books.grounded
  {
    if e.Office? {
      GroundedUnlessUpserted(s.books, e.op, k);
      PerformKeepsUsed(s.books, e.op);
      assert k in s.books.rows ==> KeyOk(s.books, k);
    }
    if e.Process? && e.id < |s.leaves| && Outcome(s, e.id, e.action, e.role, e.stamp).Done? {
      PostKeepsTables(s.books, Outcome(s, e.id, e.action, e.role, e.stamp).posted);
    }
  }

  lemma StepKeepsOpening(s: State, e: Event, k: Key)
    requires SystemOk(s) && Dated(s.books, k) && !Recalculates(s, e, k)
    ensures k in Step(s, e).books.rows
    ensures Step(s, e).books.rows[k].opening == s.books.rows[k].opening
  {
    assert KeyOk(s.books, k);
  }

  lemma UpsertOpens(s: State, e: Event, k: Key)
    requires Upserts(s, e, k)
    ensures Step(s, e).books.rows[k].opening == NewOpening(s, e, k)
  {}

  lemma StillDated(s: State, e: Event, k: Key)
    requires SystemOk(s) && k in s.books.rows && Dated(Step(s, e).books, k)
    ensures Dated(s.books, k)
  {
    assert KeyOk(s.books, k);
    if e.Office? {
      PerformKeepsUsed(s.books, e.op);
    }
  }

  lemma StepExplains(s: State, e: Event, k: Key, upserted: bool, opening: real)
    requires SystemOk(s) && Dated(Step(s, e).books, k)
    requires upserted ==> k in s.books.rows
    requires Dated(s.books, k) ==> Explained(s.books, k, upserted, opening)
    ensures Explained(Step(s, e).books, k, Upserts(s, e, k) || (upserted && !Recalculates(s, e, k)),
                      if Upserts(s, e, k) then NewOpening(s, e, k) else opening)
  {
    StepGrounds(s, e, k);
    if Upserts(s, e, k) {
      UpsertOpens(s, e, k);
    } else if k in s.books.rows {
      StillDated(s, e, k);
      if !Recalculates(s, e, k) { StepKeepsOpening(s, e, k); }
    }
  }

  /** Only rows are upserted. */
  lemma {:induction false} UpsertedHaveRows(year: int, holidays: set<int>, events: seq<Event>, k: Key)
    requires OnlyUpserted(Start(year, holidays), events, k)
    ensures k in Run(Start(year, holidays), events).books.rows
  {
    var s, e := Run(Start(year, holidays), events[..|events| - 1]), events[|events| - 1];
    if !Upserts(s, e, k) {
      UpsertedHaveRows(year, holidays, events[..|events| - 1], k);
      RunKeeps(year, holidays, events[..|events| - 1]);
      if e.Office? { PerformKeepsUsed(s.books, e.op); }
    }
  }

  lemma {:induction false} RowsAreExplained(year: int, holidays: set<int>, events: seq<Event>, k: Key)
    requires Dated(Run(Start(year, holidays), events).books, k)
    ensures var s := Start(year, holidays);
            Explained(Run(s, events).books, k, OnlyUpserted(s, events, k), UpsertedOpening(s, events, k))
  {
    if events == [] {
    } else {
      var s0, rest, e := Start(year, holidays), events[..|events| - 1], events[|events| - 1];
      var s := Run(s0, rest);
      RunKeeps(year, holidays, rest);
      if OnlyUpserted(s0, rest, k) {
        UpsertedHaveRows(year, holidays, rest, k);
      }
      if Dated(s.books, k) {
        RowsAreExplained(year, holidays, rest, k);
      }
      StepExplains(s, e, k, OnlyUpserted(s0, rest, k), UpsertedOpening(s0, rest, k));
    }
  }

  /** The law of openings. */
  lemma OpeningsEqualDefinition(year: int, holidays: set<int>, events: seq<Event>, k: Key)
    requires Dated(Run(Start(year, holidays), events).books, k)
    ensures var s, b := Start(year, holidays), Run(Start(year, holidays), events).books;
            && k.emp < |b.staff|
            && var opening := b.rows[k].opening;
               if OnlyUpserted(s, events, k) then opening == UpsertedOpening(s, events, k)
               else opening == opening.Floor as real
                    && DueOpening(opening.Floor, b.staff[k.emp], b.types[k.typ], b.year)
  {
    RunKeeps(year, holidays, events);
    RowsAreExplained(year, holidays, events, k);
    var b := Run(Start(year, holidays), events).books;
    assert KeyOk(b, k);
    if k in b.grounded {
      assert Grounded(b, k);
      OpeningIsDue(b.staff[k.emp], b.types[k.typ], b.year, b.rows[k].opening.Floor);
    }
  }
}

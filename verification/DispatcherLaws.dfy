/** Laws of the dispatcher over every interleaving. */
module DispatcherLaws {
  import opened Dispatcher

  // ------------------------------------------------------------------ conservation

  function Times(buffer: seq<nat>, e: nat): nat {
    if buffer == [] then 0 else Times(buffer[..|buffer| - 1], e) + if buffer[|buffer| - 1] == e then 1 else 0
  }

  function Carries(x: Worker, e: nat): nat {
    if Busy(x) && x.event == e then 1 else 0
  }

  function Holders(workers: seq<Worker>, e: nat): nat {
    if workers == [] then 0 else Holders(workers[..|workers| - 1], e) + Carries(workers[|workers| - 1], e)
  }

  /** In how many places an event is: the channel, a worker, a recorded fate. */
  function Places(s: State, e: nat): nat {
    Times(s.buffer, e) + Holders(s.workers, e) + if e in s.fates then 1 else 0
  }

  /** A published event is in exactly one place, any other in none. */
  predicate Placed(s: State, e: nat) {
    Places(s, e) == if e < s.published then 1 else 0
  }

  lemma {:induction false} TimesHead(buffer: seq<nat>, e: nat)
    requires buffer != []
    ensures Times(buffer[1..], e) == Times(buffer, e) - if buffer[0] == e then 1 else 0
  {
    var n := |buffer| - 1;
    if n == 0 {
      assert Times(buffer[..n], e) == 0;
    } else {
      TimesHead(buffer[..n], e);
      assert buffer[1..][..n - 1] == buffer[..n][1..];
    }
  }

  lemma {:induction false} HoldersMove(workers: seq<Worker>, w: nat, x: Worker, e: nat)
    requires w < |workers|
    ensures Holders(workers[w := x], e) + Carries(workers[w], e) == Holders(workers, e) + Carries(x, e)
    ensures Carries(workers[w], e) <= Holders(workers, e)
  {
    var n := |workers| - 1;
    if w == n {
      assert workers[w := x][..n] == workers[..n];
    } else {
      HoldersMove(workers[..n], w, x, e);
      assert workers[w := x][..n] == workers[..n][w := x];
    }
  }

  lemma {:induction false} NothingCarried(n: nat, e: nat)
    ensures Holders(seq(n, i => Waiting), e) == 0
  {
    if n == 0 {
    } else {
      NothingCarried(n - 1, e);
      assert seq(n, i => Waiting)[..n - 1] == seq(n - 1, i => Waiting);
    }
  }

  lemma MovedPlaces(s: State, w: nat, x: Worker, e: nat)
    requires Placed(s, e) && w < |s.workers| && Carries(x, e) == Carries(s.workers[w], e)
    ensures Placed(Moved(s, w, x), e)
  {
    HoldersMove(s.workers, w, x, e);
  }

  /** An event that a worker has got no fate yet, so recording one moves it there. */
  lemma SettledPlaces(s: State, w: nat, fate: Fate, x: Worker, e: nat)
    requires Placed(s, e) && w < |s.workers| && Carries(x, e) == 0
    requires Busy(s.workers[w])
    ensures Placed(Settled(s, w, fate, x), e)
  {
    HoldersMove(s.workers, w, x, e);
  }

  lemma AttemptPlaces(c: Config, s: State, w: nat, succeeds: bool, e: nat)
    requires Placed(s, e) && Enabled(s, Attempt(w, succeeds))
    ensures Placed(Do(c, s, Attempt(w, succeeds)), e)
  {
    var x := s.workers[w];
    SettledPlaces(s, w, Delivered(x.attempt, x.slept), Waiting, e);
    SettledPlaces(s, w, DroppedAfterRetries(x.attempt, x.slept), Waiting, e);
    MovedPlaces(s, w, Sleeping(x.event, x.attempt, x.delay, x.slept), e);
  }

  lemma CheckPlaces(c: Config, s: State, w: nat, e: nat)
    requires Placed(s, e) && Enabled(s, Check(w))
    ensures Placed(Do(c, s, Check(w)), e)
  {
    SettledPlaces(s, w, DroppedOnCancel(0, 0), Quit, e);
    SettledPlaces(s, w, Unattempted, Waiting, e);
    MovedPlaces(s, w, Trying(s.workers[w].event, 1, c.base, 0), e);
  }

  lemma PausePlaces(c: Config, s: State, w: nat, e: nat)
    requires Placed(s, e) && w < |s.workers| && s.workers[w].Sleeping?
    ensures Placed(Do(c, s, Wake(w)), e)
    ensures s.cancelled ==> Placed(Do(c, s, Abandon(w)), e)
  {
    var x := s.workers[w];
    MovedPlaces(s, w, Trying(x.event, x.attempt + 1, 2 * x.delay, x.slept + x.delay), e);
    SettledPlaces(s, w, DroppedOnCancel(x.attempt, x.slept), Waiting, e);
  }

  lemma PublishPlaces(c: Config, s: State, e: nat)
    requires Placed(s, e) && Enabled(s, Publish)
    ensures Placed(Do(c, s, Publish), e)
  {}

  lemma TakePlaces(c: Config, s: State, w: nat, e: nat)
    requires Placed(s, e) && Enabled(s, Take(w))
    ensures Placed(Do(c, s, Take(w)), e)
  {
    TimesHead(s.buffer, e);
    HoldersMove(s.workers, w, Received(s.buffer[0]), e);
  }

  /** No step loses an event or puts one in two places. */
  lemma StepPlaces(c: Config, s: State, step: Step, e: nat)
    requires Placed(s, e)
    ensures Placed(Next(c, s, step), e)
  {
    if Enabled(s, step) {
      match step
      case Publish => PublishPlaces(c, s, e);
      case Stop =>
      case Cancel =>
      case Take(w) => TakePlaces(c, s, w, e);
      case Exit(w) => MovedPlaces(s, w, Exited, e);
      case Check(w) => CheckPlaces(c, s, w, e);
      case Attempt(w, succeeds) => AttemptPlaces(c, s, w, succeeds, e);
      case Wake(w) => PausePlaces(c, s, w, e);
      case Abandon(w) => PausePlaces(c, s, w, e);
    }
  }

  /** Conservation over every interleaving. */
  lemma {:induction false} EventsConserved(c: Config, steps: seq<Step>, e: nat)
    ensures Placed(After(c, Start(c), steps), e)
  {
    if steps == [] {
      NothingCarried(c.workers, e);
    } else {
      EventsConserved(c, steps[..|steps| - 1], e);
      StepPlaces(c, After(c, Start(c), steps[..|steps| - 1]), steps[|steps| - 1], e);
    }
  }

  // --------------------------------------------------- the channel and the attempts

  /** First in, first out, and never more than the capacity. */
  predicate ChannelOk(c: Config, s: State) {
    s.accepted == s.taken + s.buffer && |s.buffer| <= c.capacity
  }

  predicate WorkerOk(c: Config, s: State, x: Worker) {
    match x
    case Waiting => true
    case Received(_) => true
    case Trying(_, k, delay, slept) =>
      1 <= k <= c.maxRetries && delay == c.base * Pow2(k - 1) && slept == BackOff(c.base, k)
    case Sleeping(_, k, delay, slept) =>
      1 <= k < c.maxRetries && delay == c.base * Pow2(k - 1) && slept == BackOff(c.base, k)
    case Exited => s.closed && s.buffer == []
    case Quit => s.cancelled
  }

  /** Attempts and pauses of an event by its fate. */
  predicate FateOk(c: Config, s: State, fate: Fate) {
    match fate
    case Delivered(k, slept) => 1 <= k <= c.maxRetries && slept == BackOff(c.base, k)
    case DroppedFull => true
    case DroppedAfterRetries(k, slept) => 1 <= k == c.maxRetries && slept == BackOff(c.base, k)
    case DroppedOnCancel(k, slept) =>
      s.cancelled && (if k == 0 then slept == 0 else k < c.maxRetries && slept == BackOff(c.base, k))
    case Unattempted => c.maxRetries < 1
  }

  predicate WorkersOk(c: Config, s: State) {
    forall w :: 0 <= w < |s.workers| ==> WorkerOk(c, s, s.workers[w])
  }

  predicate FatesOk(c: Config, s: State) {
    forall e :: e in s.fates ==> FateOk(c, s, s.fates[e])
  }

  predicate DispatcherOk(c: Config, s: State) {
    |s.workers| == c.workers && ChannelOk(c, s) && WorkersOk(c, s) && FatesOk(c, s)
  }

  lemma StepKeepsChannel(c: Config, s: State, step: Step)
    requires ChannelOk(c, s)
    ensures ChannelOk(c, Next(c, s, step))
    ensures |Next(c, s, step).workers| == |s.workers|
  {}

  /** The worker that a step moves. */
  lemma StepMoves(c: Config, s: State, step: Step, w: nat)
    requires WorkersOk(c, s) && Enabled(s, step) && !step.Publish? && !step.Stop? && !step.Cancel? && step.w == w
    ensures w < |s.workers| && WorkerOk(c, Do(c, s, step), Do(c, s, step).workers[w])
  {}

  lemma StepKeepsWorkers(c: Config, s: State, step: Step)
    requires WorkersOk(c, s)
    ensures WorkersOk(c, Next(c, s, step))
  {
    if Enabled(s, step) {
      var after := Do(c, s, step);
      forall v | 0 <= v < |after.workers| ensures WorkerOk(c, after, after.workers[v]) {
        assert WorkerOk(c, s, s.workers[v]);
        if !step.Publish? && !step.Stop? && !step.Cancel? && step.w == v {
          StepMoves(c, s, step, v);
        }
      }
    }
  }

  lemma StepKeepsFates(c: Config, s: State, step: Step)
    requires WorkersOk(c, s) && FatesOk(c, s)
    ensures FatesOk(c, Next(c, s, step))
  {}

  /** Every interleaving keeps the channel, the workers and the fates in order. */
  lemma {:induction false} AfterOk(c: Config, steps: seq<Step>)
    ensures DispatcherOk(c, After(c, Start(c), steps))
  {
    if steps == [] {
    } else {
      var s := After(c, Start(c), steps[..|steps| - 1]);
      AfterOk(c, steps[..|steps| - 1]);
      StepKeepsChannel(c, s, steps[|steps| - 1]);
      StepKeepsWorkers(c, s, steps[|steps| - 1]);
      StepKeepsFates(c, s, steps[|steps| - 1]);
    }
  }

  /** Until Stop, an event is accepted exactly while fewer than capacity accepted ones wait to be
      taken, and otherwise dropped at once. */
  lemma PublishDropsExactly(c: Config, steps: seq<Step>)
    ensures var s := After(c, Start(c), steps);
            var after := After(c, Start(c), steps + [Publish]);
            if s.closed then after == s
            else
              && after.published == s.published + 1 && after.taken == s.taken && after.workers == s.workers
              && if |s.accepted| - |s.taken| < c.capacity
                 then after.accepted == s.accepted + [s.published] && after.fates == s.fates
                 else after.accepted == s.accepted && after.fates == s.fates[s.published := DroppedFull]
  {
    AfterOk(c, steps);
    OneMore(c, Start(c), steps, Publish);
  }

  /** First in, first out, and never over capacity. */
  lemma ChannelIsFifo(c: Config, steps: seq<Step>)
    ensures var s := After(c, Start(c), steps);
            s.taken + s.buffer == s.accepted && |s.buffer| <= c.capacity
  {
    AfterOk(c, steps);
  }

  /** Attempts are within the limit, and the pauses within the doubling series. */
  lemma PausesBounded(c: Config, steps: seq<Step>, e: nat)
    requires c.maxRetries >= 1 && e in After(c, Start(c), steps).fates
    ensures var fate := After(c, Start(c), steps).fates[e];
            && !fate.Unattempted?
            && (fate.DroppedFull?
                || (fate.attempts <= c.maxRetries && fate.slept <= BackOff(c.base, c.maxRetries)))
  {
    AfterOk(c, steps);
    var s := After(c, Start(c), steps);
    assert FateOk(c, s, s.fates[e]);
    var fate := s.fates[e];
    if !fate.DroppedFull? && fate.attempts >= 1 {
      BackOffGrows(c.base, fate.attempts, c.maxRetries);
    }
  }

  /** The number of retries gets no default: without any, nothing is ever delivered. */
  lemma NoRetriesNoDelivery(c: Config, steps: seq<Step>, e: nat)
    requires c.maxRetries < 1 && e in After(c, Start(c), steps).fates
    ensures !After(c, Start(c), steps).fates[e].Delivered?
  {
    AfterOk(c, steps);
    var s := After(c, Start(c), steps);
    assert FateOk(c, s, s.fates[e]);
  }

  // ---------------------------------------------------------------- who was accepted

  /** Accepted events are numbered in order. */
  predicate Numbered(s: State) {
    && (forall i :: 0 <= i < |s.accepted| ==> s.accepted[i] < s.published)
    && (forall i, j :: 0 <= i < j < |s.accepted| ==> s.accepted[i] < s.accepted[j])
  }

  predicate Accepted(s: State, x: Worker) {
    Busy(x) ==> x.event in s.accepted
  }

  /** Workers only get accepted events. */
  predicate WorkersAccepted(s: State) {
    forall w :: 0 <= w < |s.workers| ==> Accepted(s, s.workers[w])
  }

  /** An event was dropped for a full channel exactly when it was not accepted. */
  predicate FullExactly(s: State) {
    forall e :: e in s.fates ==> (s.fates[e].DroppedFull? <==> e !in s.accepted)
  }

  predicate AcceptOk(s: State) {
    Numbered(s) && WorkersAccepted(s) && FullExactly(s)
  }

  lemma StepKeepsNumbers(c: Config, s: State, step: Step)
    requires Numbered(s)
    ensures Numbered(Next(c, s, step))
    ensures s.accepted <= Next(c, s, step).accepted
  {}

  lemma TakeKeepsAccepted(c: Config, s: State, w: nat)
    requires WorkersAccepted(s) && ChannelOk(c, s) && Enabled(s, Take(w))
    ensures WorkersAccepted(Do(c, s, Take(w)))
  {
    var after := Do(c, s, Take(w));
    assert s.accepted[|s.taken|] == s.buffer[0];
    forall v | 0 <= v < |after.workers| ensures Accepted(after, after.workers[v]) {
      assert Accepted(s, s.workers[v]);
    }
  }

  /** Workers get events only by taking them. */
  lemma EventStays(c: Config, s: State, step: Step, v: nat)
    requires v < |s.workers| && !(step.Take? && Enabled(s, step))
    ensures |Next(c, s, step).workers| == |s.workers|
    ensures var x := Next(c, s, step).workers[v];
            Busy(x) ==> Busy(s.workers[v]) && x.event == s.workers[v].event
  {}

  lemma StepKeepsWorkersAccepted(c: Config, s: State, step: Step)
    requires WorkersAccepted(s) && ChannelOk(c, s)
    ensures WorkersAccepted(Next(c, s, step))
  {
    if step.Take? && Enabled(s, step) {
      TakeKeepsAccepted(c, s, step.w);
    } else {
      StepAccepts(c, s, step);
      forall v | 0 <= v < |s.workers| ensures Accepted(Next(c, s, step), Next(c, s, step).workers[v]) {
        assert Accepted(s, s.workers[v]);
        EventStays(c, s, step, v);
      }
    }
  }

  lemma StepAccepts(c: Config, s: State, step: Step)
    ensures s.accepted <= Next(c, s, step).accepted
    ensures |Next(c, s, step).workers| == |s.workers|
  {}

  /** An accepted event that is settled otherwise, and a new event that finds the channel full. */
  lemma StepKeepsFull(c: Config, s: State, step: Step)
    requires AcceptOk(s) && Placed(s, s.published)
    ensures FullExactly(Next(c, s, step))
  {
    if Enabled(s, step) {
      var after := Next(c, s, step);
      if step.Publish? {
        PublishKeepsFull(c, s);
      } else if IsWork(step) {
        assert Accepted(s, s.workers[step.w]);
        assert after.accepted == s.accepted;
        forall e | e in after.fates ensures after.fates[e].DroppedFull? <==> e !in after.accepted {
          if e in s.fates { assert s.fates[e].DroppedFull? <==> e !in s.accepted; }
        }
      }
    }
  }

  lemma PublishKeepsFull(c: Config, s: State)
    requires Numbered(s) && FullExactly(s) && Placed(s, s.published) && Enabled(s, Publish)
    ensures FullExactly(Do(c, s, Publish))
  {}

  /** What a worker does, as opposed to publishers, Stop and cancellation. */
  predicate IsWork(step: Step) {
    !step.Publish? && !step.Stop? && !step.Cancel?
  }

  lemma {:induction false} AfterAccepted(c: Config, steps: seq<Step>)
    ensures AcceptOk(After(c, Start(c), steps))
  {
    if steps == [] {
    } else {
      AfterAccepted(c, steps[..|steps| - 1]);
      AfterOk(c, steps[..|steps| - 1]);
      var s := After(c, Start(c), steps[..|steps| - 1]);
      EventsConserved(c, steps[..|steps| - 1], s.published);
      StepKeepsNumbers(c, s, steps[|steps| - 1]);
      StepKeepsWorkersAccepted(c, s, steps[|steps| - 1]);
      StepKeepsFull(c, s, steps[|steps| - 1]);
    }
  }

  // --------------------------------------------------------------------- draining

  /** No worker can move. */
  ghost predicate Quiet(s: State) {
    forall step :: IsWork(step) ==> !Enabled(s, step)
  }

  /** The worker has returned. */
  predicate Gone(x: Worker) {
    x.Exited? || x.Quit?
  }

  predicate AllGone(s: State) {
    forall w :: 0 <= w < |s.workers| ==> Gone(s.workers[w])
  }

  /** After Stop no worker ever gets stuck before it has returned. */
  lemma QuietMeansGone(s: State)
    requires s.closed
    ensures Quiet(s) <==> AllGone(s)
  {
    if Quiet(s) {
      forall w | 0 <= w < |s.workers| ensures Gone(s.workers[w]) {
        assert !Enabled(s, Take(w)) && !Enabled(s, Exit(w)) && !Enabled(s, Check(w));
        assert !Enabled(s, Attempt(w, true)) && !Enabled(s, Wake(w));
      }
    }
  }

  function Rounds(c: Config): nat {
    if c.maxRetries < 0 then 0 else c.maxRetries
  }

  /** Steps that a worker may still take with what it has. */
  function Cost(c: Config, x: Worker): nat {
    match x
    case Exited => 0
    case Quit => 0
    case Waiting => 1
    case Received(_) => 2 * Rounds(c) + 3
    case Trying(_, k, _, _) => if k <= Rounds(c) then 2 * (Rounds(c) - k) + 3 else 0
    case Sleeping(_, k, _, _) => if k <= Rounds(c) then 2 * (Rounds(c) - k) + 2 else 0
  }

  function Costs(c: Config, workers: seq<Worker>): nat {
    if workers == [] then 0 else Costs(c, workers[..|workers| - 1]) + Cost(c, workers[|workers| - 1])
  }

  function Work(c: Config, s: State): nat {
    |s.buffer| * (2 * Rounds(c) + 4) + Costs(c, s.workers)
  }

  lemma {:induction false} CostsMove(c: Config, workers: seq<Worker>, w: nat, x: Worker)
    requires w < |workers|
    ensures Costs(c, workers[w := x]) == Costs(c, workers) - Cost(c, workers[w]) + Cost(c, x)
  {
    var n := |workers| - 1;
    if w == n {
      assert workers[w := x][..n] == workers[..n];
    } else {
      CostsMove(c, workers[..n], w, x);
      assert workers[w := x][..n] == workers[..n][w := x];
    }
  }

  lemma TakeShrinks(c: Config, s: State, w: nat)
    requires Enabled(s, Take(w))
    ensures Work(c, Do(c, s, Take(w))) < Work(c, s)
  {
    var unit := 2 * Rounds(c) + 4;
    CostsMove(c, s.workers, w, Received(s.buffer[0]));
    assert |s.buffer| * unit == (|s.buffer| - 1) * unit + unit;
  }

  lemma CostFalls(c: Config, s: State, step: Step)
    requires IsWork(step) && Enabled(s, step) && !step.Take? && WorkerOk(c, s, s.workers[step.w])
    ensures Cost(c, Do(c, s, step).workers[step.w]) < Cost(c, s.workers[step.w])
    ensures Do(c, s, step).buffer == s.buffer
  {}

  /** Every step of a worker uses up work. */
  lemma WorkShrinks(c: Config, s: State, step: Step)
    requires WorkersOk(c, s) && IsWork(step) && Enabled(s, step)
    ensures Work(c, Do(c, s, step)) < Work(c, s)
  {
    if step.Take? {
      TakeShrinks(c, s, step.w);
    } else {
      var after := Do(c, s, step);
      assert WorkerOk(c, s, s.workers[step.w]);
      CostFalls(c, s, step);
      CostsMove(c, s.workers, step.w, after.workers[step.w]);
      assert after.workers == s.workers[step.w := after.workers[step.w]];
    }
  }

  /** Workers only, each step enabled when its turn comes. */
  predicate Works(c: Config, s: State, steps: seq<Step>) {
    steps == []
    || (Works(c, s, steps[..|steps| - 1]) && IsWork(steps[|steps| - 1])
        && Enabled(After(c, s, steps[..|steps| - 1]), steps[|steps| - 1]))
  }

  /** Without new events the workers come to rest. */
  lemma {:induction false} WorkEnds(c: Config, s: State, steps: seq<Step>)
    requires DispatcherOk(c, s) && Works(c, s, steps)
    ensures WorkersOk(c, After(c, s, steps))
    ensures |steps| + Work(c, After(c, s, steps)) <= Work(c, s)
  {
    if steps == [] {
    } else {
      var before := After(c, s, steps[..|steps| - 1]);
      WorkEnds(c, s, steps[..|steps| - 1]);
      WorkShrinks(c, before, steps[|steps| - 1]);
      StepKeepsWorkers(c, before, steps[|steps| - 1]);
    }
  }

  lemma {:induction false} NobodyHolds(workers: seq<Worker>, e: nat)
    requires forall w :: 0 <= w < |workers| ==> Gone(workers[w])
    ensures Holders(workers, e) == 0
  {
    if workers == [] {
    } else {
      NobodyHolds(workers[..|workers| - 1], e);
    }
  }

  // ------------------------------------------------------------- rest after Stop

  /** Workers that noticed the cancellation while they had an event. */
  function Quits(workers: seq<Worker>): nat {
    if workers == [] then 0
    else Quits(workers[..|workers| - 1]) + if workers[|workers| - 1].Quit? then 1 else 0
  }

  /** The events that those workers had. */
  function Forsaken(fates: map<nat, Fate>): set<nat> {
    set e | e in fates && fates[e] == DroppedOnCancel(0, 0)
  }

  lemma {:induction false} QuitsMove(workers: seq<Worker>, w: nat, x: Worker)
    requires w < |workers|
    ensures Quits(workers[w := x]) + (if workers[w].Quit? then 1 else 0) == Quits(workers) + if x.Quit? then 1 else 0
  {
    var n := |workers| - 1;
    if w == n {
      assert workers[w := x][..n] == workers[..n];
    } else {
      QuitsMove(workers[..n], w, x);
      assert workers[w := x][..n] == workers[..n][w := x];
    }
  }

  lemma {:induction false} NobodyQuit(n: nat)
    ensures Quits(seq(n, i => Waiting)) == 0
  {
    if n == 0 {
    } else {
      NobodyQuit(n - 1);
      assert seq(n, i => Waiting)[..n - 1] == seq(n - 1, i => Waiting);
    }
  }

  /** A worker's event is settled: one more forsaken event exactly if the worker quit. */
  lemma SettledQuits(s: State, w: nat, fate: Fate, x: Worker)
    requires w < |s.workers| && Busy(s.workers[w]) && s.workers[w].event !in s.fates
    requires x.Quit? <==> fate == DroppedOnCancel(0, 0)
    requires Quits(s.workers) == |Forsaken(s.fates)|
    ensures Quits(Settled(s, w, fate, x).workers) == |Forsaken(Settled(s, w, fate, x).fates)|
  {
    var e := s.workers[w].event;
    QuitsMove(s.workers, w, x);
    assert Forsaken(s.fates[e := fate]) == Forsaken(s.fates) + if x.Quit? then {e} else {};
  }

  lemma BusyHasNoFate(s: State, w: nat)
    requires w < |s.workers| && Busy(s.workers[w]) && Placed(s, s.workers[w].event)
    ensures s.workers[w].event !in s.fates
  {
    HoldersMove(s.workers, w, Waiting, s.workers[w].event);
  }

  lemma AttemptQuits(c: Config, s: State, w: nat, succeeds: bool)
    requires Enabled(s, Attempt(w, succeeds)) && Placed(s, s.workers[w].event)
    requires Quits(s.workers) == |Forsaken(s.fates)|
    ensures Quits(Do(c, s, Attempt(w, succeeds)).workers) == |Forsaken(Do(c, s, Attempt(w, succeeds)).fates)|
  {
    var x := s.workers[w];
    BusyHasNoFate(s, w);
    SettledQuits(s, w, Delivered(x.attempt, x.slept), Waiting);
    SettledQuits(s, w, DroppedAfterRetries(x.attempt, x.slept), Waiting);
    QuitsMove(s.workers, w, Sleeping(x.event, x.attempt, x.delay, x.slept));
  }

  lemma CheckQuits(c: Config, s: State, w: nat)
    requires Enabled(s, Check(w)) && Placed(s, s.workers[w].event)
    requires Quits(s.workers) == |Forsaken(s.fates)|
    ensures Quits(Do(c, s, Check(w)).workers) == |Forsaken(Do(c, s, Check(w)).fates)|
  {
    BusyHasNoFate(s, w);
    SettledQuits(s, w, DroppedOnCancel(0, 0), Quit);
    SettledQuits(s, w, Unattempted, Waiting);
    QuitsMove(s.workers, w, Trying(s.workers[w].event, 1, c.base, 0));
  }

  lemma PauseQuits(c: Config, s: State, w: nat)
    requires w < |s.workers| && s.workers[w].Sleeping? && s.workers[w].attempt >= 1
    requires Placed(s, s.workers[w].event) && Quits(s.workers) == |Forsaken(s.fates)|
    ensures Quits(Do(c, s, Wake(w)).workers) == |Forsaken(Do(c, s, Wake(w)).fates)|
    ensures s.cancelled ==> Quits(Do(c, s, Abandon(w)).workers) == |Forsaken(Do(c, s, Abandon(w)).fates)|
  {
    var x := s.workers[w];
    BusyHasNoFate(s, w);
    SettledQuits(s, w, DroppedOnCancel(x.attempt, x.slept), Waiting);
    QuitsMove(s.workers, w, Trying(x.event, x.attempt + 1, 2 * x.delay, x.slept + x.delay));
  }

  lemma PublishQuits(c: Config, s: State)
    requires Enabled(s, Publish) && Placed(s, s.published)
    ensures Forsaken(Do(c, s, Publish).fates) == Forsaken(s.fates)
  {}

  lemma StepQuits(c: Config, s: State, step: Step)
    requires WorkersOk(c, s) && Quits(s.workers) == |Forsaken(s.fates)|
    requires forall e :: Placed(s, e)
    ensures Quits(Next(c, s, step).workers) == |Forsaken(Next(c, s, step).fates)|
  {
    if Enabled(s, step) {
      if IsWork(step) {
        assert WorkerOk(c, s, s.workers[step.w]);
      }
      match step
      case Publish => PublishQuits(c, s);
      case Stop =>
      case Cancel =>
      case Take(w) => QuitsMove(s.workers, w, Received(s.buffer[0]));
      case Exit(w) => QuitsMove(s.workers, w, Exited);
      case Check(w) => CheckQuits(c, s, w);
      case Attempt(w, succeeds) => AttemptQuits(c, s, w, succeeds);
      case Wake(w) => PauseQuits(c, s, w);
      case Abandon(w) => PauseQuits(c, s, w);
    }
  }

  /** As many workers quit as events were dropped before their first attempt. */
  lemma {:induction false} QuitsCounted(c: Config, steps: seq<Step>)
    ensures Quits(After(c, Start(c), steps).workers) == |Forsaken(After(c, Start(c), steps).fates)|
  {
    if steps == [] {
      NobodyQuit(c.workers);
      assert Forsaken(Start(c).fates) == {};
    } else {
      var s := After(c, Start(c), steps[..|steps| - 1]);
      QuitsCounted(c, steps[..|steps| - 1]);
      AfterOk(c, steps[..|steps| - 1]);
      forall e ensures Placed(s, e) { EventsConserved(c, steps[..|steps| - 1], e); }
      StepQuits(c, s, steps[|steps| - 1]);
    }
  }

  lemma {:induction false} AllQuit(workers: seq<Worker>)
    requires forall w :: 0 <= w < |workers| ==> Gone(workers[w])
    ensures Quits(workers) <= |workers|
    ensures Quits(workers) < |workers| ==> exists w :: 0 <= w < |workers| && workers[w].Exited?
  {
    if workers == [] {
    } else {
      AllQuit(workers[..|workers| - 1]);
    }
  }

  /** At rest after Stop, cancelled or not, the channel is empty unless every single worker
      quit, dropping an event it had not tried. */
  lemma RestIsEmptyUnlessAllQuit(c: Config, steps: seq<Step>)
    requires var s := After(c, Start(c), steps); s.closed && Quiet(s)
    ensures var s := After(c, Start(c), steps);
            s.buffer == [] || |Forsaken(s.fates)| == c.workers
  {
    var s := After(c, Start(c), steps);
    AfterOk(c, steps);
    QuitsCounted(c, steps);
    QuietMeansGone(s);
    AllQuit(s.workers);
    if Quits(s.workers) < |s.workers| {
      var w :| 0 <= w < |s.workers| && s.workers[w].Exited?;
      assert WorkerOk(c, s, s.workers[w]);
    }
  }

  /** What became of an accepted event. */
  predicate Handled(c: Config, s: State, fate: Fate) {
    || (fate.Delivered? && 1 <= fate.attempts <= c.maxRetries)
    || (fate.DroppedAfterRetries? && fate.attempts == c.maxRetries)
    || (fate.DroppedOnCancel? && s.cancelled)
  }

  /** Once stopped, the workers rest, unless all of them quit, only when the channel is empty and
      every published event has its fate: dropped when the channel was full, or else attempted
      between once and the limit, or dropped on a cancellation. */
  lemma RestDrains(c: Config, steps: seq<Step>, e: nat)
    requires c.maxRetries >= 1
    requires var s := After(c, Start(c), steps);
             s.closed && Quiet(s) && |Forsaken(s.fates)| != c.workers && e < s.published
    ensures var s := After(c, Start(c), steps);
            && s.buffer == [] && s.taken == s.accepted
            && e in s.fates
            && if e in s.accepted then Handled(c, s, s.fates[e]) else s.fates[e].DroppedFull?
  {
    var s := After(c, Start(c), steps);
    RestIsEmptyUnlessAllQuit(c, steps);
    AfterOk(c, steps);
    AfterAccepted(c, steps);
    QuietMeansGone(s);
    EventsConserved(c, steps, e);
    NobodyHolds(s.workers, e);
    assert FateOk(c, s, s.fates[e]);
  }

  /** In particular, never cancelled, every accepted event was attempted between once and the limit. */
  lemma StopDrains(c: Config, steps: seq<Step>, e: nat)
    requires c.workers >= 1 && c.maxRetries >= 1
    requires var s := After(c, Start(c), steps); s.closed && !s.cancelled && Quiet(s) && e < s.published
    ensures var s := After(c, Start(c), steps);
            && s.buffer == [] && s.taken == s.accepted
            && e in s.fates
            && if e in s.accepted
               then (s.fates[e].Delivered? && 1 <= s.fates[e].attempts <= c.maxRetries)
                    || (s.fates[e].DroppedAfterRetries? && s.fates[e].attempts == c.maxRetries)
               else s.fates[e].DroppedFull?
  {
    var s := After(c, Start(c), steps);
    AfterOk(c, steps);
    forall d | d in s.fates ensures s.fates[d] != DroppedOnCancel(0, 0) {
      assert FateOk(c, s, s.fates[d]);
    }
    assert Forsaken(s.fates) == {};
    RestDrains(c, steps, e);
  }

  // ------------------------------------------------------------- cancelled runs that strand

  lemma {:induction false} AfterSplit(c: Config, s: State, first: seq<Step>, rest: seq<Step>)
    ensures After(c, s, first + rest) == After(c, After(c, s, first), rest)
  {
    if rest == [] {
      assert first + rest == first;
    } else {
      assert (first + rest)[..|first + rest| - 1] == first + rest[..|rest| - 1];
      AfterSplit(c, s, first, rest[..|rest| - 1]);
    }
  }

  lemma OneMore(c: Config, s: State, steps: seq<Step>, step: Step)
    ensures After(c, s, steps + [step]) == Next(c, After(c, s, steps), step)
  {}

  /** The first n workers take an event each. */
  function TakeOneEach(n: nat): seq<Step> {
    if n == 0 then [] else TakeOneEach(n - 1) + [Publish] + [Take(n - 1)]
  }

  /** The first n workers look at what they took. */
  function CheckEach(n: nat): seq<Step> {
    if n == 0 then [] else CheckEach(n - 1) + [Check(n - 1)]
  }

  /** The first n workers have an event each and nothing else has happened. */
  predicate Loaded(c: Config, s: State, n: nat) {
    && s.published == n && s.buffer == [] && s.fates == map[] && !s.closed && !s.cancelled
    && |s.workers| == c.workers
    && forall w :: 0 <= w < c.workers ==> s.workers[w] == if w < n then Received(w) else Waiting
  }

  /** One more event is in the channel of the cancelled and stopped service, and the first n
      workers have left. */
  predicate Leaving(c: Config, s: State, n: nat) {
    && s.published == c.workers + 1 && s.buffer == [c.workers] && s.closed && s.cancelled
    && |s.workers| == c.workers && c.workers !in s.fates
    && forall w :: 0 <= w < c.workers ==> s.workers[w] == if w < n then Quit else Received(w)
  }

  lemma OneTakes(c: Config, s: State, n: nat)
    requires n < c.workers && c.capacity >= 1 && Loaded(c, s, n)
    ensures Loaded(c, Next(c, Next(c, s, Publish), Take(n)), n + 1)
  {}

  lemma {:induction false} AllTake(c: Config, n: nat)
    requires n <= c.workers && c.capacity >= 1
    ensures Loaded(c, After(c, Start(c), TakeOneEach(n)), n)
  {
    if n == 0 {
    } else {
      var before := TakeOneEach(n - 1);
      AllTake(c, n - 1);
      OneTakes(c, After(c, Start(c), before), n - 1);
      OneMore(c, Start(c), before, Publish);
      OneMore(c, Start(c), before + [Publish], Take(n - 1));
    }
  }

  lemma {:induction false} AllLeave(c: Config, s: State, n: nat)
    requires n <= c.workers && Leaving(c, s, 0)
    ensures Leaving(c, After(c, s, CheckEach(n)), n)
  {
    if n == 0 {
    } else {
      AllLeave(c, s, n - 1);
      OneMore(c, s, CheckEach(n - 1), Check(n - 1));
    }
  }

  function Stranding(c: Config): seq<Step> {
    TakeOneEach(c.workers) + [Publish] + [Cancel] + [Stop] + CheckEach(c.workers)
  }

  /** Every dispatcher with a channel has a run that a cancellation brings to rest with an event
      still in it: each worker has an event, notices the cancellation and leaves. */
  lemma CancelStrands(c: Config)
    requires c.capacity >= 1
    ensures var s := After(c, Start(c), Stranding(c));
            && s.closed && s.cancelled && Quiet(s)
            && s.buffer == [c.workers] && c.workers < s.published && c.workers !in s.fates
            && |Forsaken(s.fates)| == c.workers
  {
    var take := TakeOneEach(c.workers);
    AllTake(c, c.workers);
    OneMore(c, Start(c), take, Publish);
    OneMore(c, Start(c), take + [Publish], Cancel);
    OneMore(c, Start(c), take + [Publish] + [Cancel], Stop);
    var stopped := After(c, Start(c), take + [Publish] + [Cancel] + [Stop]);
    AllLeave(c, stopped, c.workers);
    AfterSplit(c, Start(c), take + [Publish] + [Cancel] + [Stop], CheckEach(c.workers));
    QuietMeansGone(After(c, stopped, CheckEach(c.workers)));
    RestIsEmptyUnlessAllQuit(c, Stranding(c));
  }

  // ------------------------------------------------------- the loop and the steps

  /** The steps that worker w takes. */
  function Mine(steps: seq<Step>, w: nat): seq<Step> {
    if steps == [] then []
    else (if IsWork(steps[0]) && steps[0].w == w then [steps[0]] else []) + Mine(steps[1..], w)
  }

  /** What worker w does from attempt k on, when attempt i succeeds if good(i) and the pause
      after it is cut short if cut(i). */
  function RetrySteps(c: Config, w: nat, good: nat -> bool, cut: nat -> bool, k: nat): seq<Step>
    requires 1 <= k <= c.maxRetries
    decreases c.maxRetries - k, 1
  {
    if good(k) || k == c.maxRetries then [Attempt(w, good(k))]
    else [Attempt(w, false)] + PauseSteps(c, w, good, cut, k)
  }

  /** What it does from the pause after attempt k on. */
  function PauseSteps(c: Config, w: nat, good: nat -> bool, cut: nat -> bool, k: nat): seq<Step>
    requires 1 <= k < c.maxRetries
    decreases c.maxRetries - k, 0
  {
    if cut(k) then [Abandon(w)] else [Wake(w)] + RetrySteps(c, w, good, cut, k + 1)
  }

  /** The event e of worker w is in one place, and that is the worker. */
  predicate Working(s: State, w: nat, e: nat) {
    w < |s.workers| && Busy(s.workers[w]) && s.workers[w].event == e && e < s.published && Placed(s, e)
  }

  /** Steps of others leave a worker's event to it. */
  lemma OthersLeave(c: Config, s: State, step: Step, w: nat, e: nat)
    requires Working(s, w, e) && !(IsWork(step) && step.w == w)
    ensures Working(Next(c, s, step), w, e) && Next(c, s, step).workers[w] == s.workers[w]
  {
    StepPlaces(c, s, step, e);
  }

  /** A worker's event has no fate yet. */
  lemma WorkingUnsettled(s: State, w: nat, e: nat)
    requires Placed(s, e) && w < |s.workers| && Busy(s.workers[w]) && s.workers[w].event == e
    ensures e !in s.fates
  {
    HoldersMove(s.workers, w, Waiting, e);
  }

  /** A recorded fate is final. */
  lemma FateStays(c: Config, s: State, step: Step, e: nat)
    requires Placed(s, e) && e in s.fates
    ensures e in Next(c, s, step).fates && Next(c, s, step).fates[e] == s.fates[e]
    ensures Placed(Next(c, s, step), e)
  {
    StepPlaces(c, s, step, e);
    if Enabled(s, step) && IsWork(step) && Busy(s.workers[step.w]) {
      HoldersMove(s.workers, step.w, Waiting, e);
    }
  }

  lemma {:induction false} FateIsFinal(c: Config, s: State, steps: seq<Step>, e: nat)
    requires Placed(s, e) && e in s.fates
    ensures e in After(c, s, steps).fates && After(c, s, steps).fates[e] == s.fates[e]
    ensures Placed(After(c, s, steps), e)
  {
    if steps == [] {
    } else {
      FateIsFinal(c, s, steps[..|steps| - 1], e);
      FateStays(c, After(c, s, steps[..|steps| - 1]), steps[|steps| - 1], e);
    }
  }

  lemma FirstStep(c: Config, s: State, steps: seq<Step>)
    requires steps != []
    ensures After(c, s, steps) == After(c, Next(c, s, steps[0]), steps[1..])
  {
    assert [steps[0]] + steps[1..] == steps;
    AfterSplit(c, s, [steps[0]], steps[1..]);
    OneMore(c, s, [], steps[0]);
  }

  /** A worker before attempt k. */
  predicate AtAttempt(c: Config, x: Worker, k: nat)
    requires 1 <= k
  {
    x.Trying? && x == Trying(x.event, k, c.base * Pow2(k - 1), BackOff(c.base, k))
  }

  predicate AtPause(c: Config, x: Worker, k: nat)
    requires 1 <= k
  {
    x.Sleeping? && x == Sleeping(x.event, k, c.base * Pow2(k - 1), BackOff(c.base, k))
  }

  /** The last attempt and the first success settle the event. */
  lemma AttemptSettles(c: Config, s: State, w: nat, e: nat, good: nat -> bool, cut: nat -> bool, k: nat)
    requires 1 <= k <= c.maxRetries && Working(s, w, e) && AtAttempt(c, s.workers[w], k)
    requires good(k) || k == c.maxRetries
    ensures var after := Next(c, s, Attempt(w, good(k)));
            Placed(after, e) && e in after.fates && after.fates[e] == FateFrom(c, good, cut, k)
  {
    StepPlaces(c, s, Attempt(w, good(k)), e);
  }

  lemma AttemptPauses(c: Config, s: State, w: nat, e: nat, k: nat)
    requires 1 <= k < c.maxRetries && Working(s, w, e) && AtAttempt(c, s.workers[w], k)
    ensures var after := Next(c, s, Attempt(w, false));
            Working(after, w, e) && AtPause(c, after.workers[w], k)
  {
    StepPlaces(c, s, Attempt(w, false), e);
  }

  lemma AbandonSettles(c: Config, s: State, w: nat, e: nat, k: nat)
    requires 1 <= k < c.maxRetries && Working(s, w, e) && AtPause(c, s.workers[w], k) && s.cancelled
    ensures var after := Next(c, s, Abandon(w));
            Placed(after, e) && e in after.fates && after.fates[e] == DroppedOnCancel(k, BackOff(c.base, k))
  {
    StepPlaces(c, s, Abandon(w), e);
  }

  lemma WakeRetries(c: Config, s: State, w: nat, e: nat, k: nat)
    requires 1 <= k < c.maxRetries && Working(s, w, e) && AtPause(c, s.workers[w], k)
    ensures var after := Next(c, s, Wake(w));
            Working(after, w, e) && AtAttempt(c, after.workers[w], k + 1)
  {
    BackOffDoubles(c.base, k);
    StepPlaces(c, s, Wake(w), e);
  }

  /** A pause is cut short only once the context is cancelled, whoever cancelled it and when. */
  predicate CutsAfterCancel(c: Config, s: State, w: nat, steps: seq<Step>) {
    forall p :: 0 <= p < |steps| && steps[p] == Abandon(w) ==> After(c, s, steps[..p]).cancelled
  }

  lemma CutsTail(c: Config, s: State, w: nat, steps: seq<Step>)
    requires steps != []
    ensures CutsAfterCancel(c, s, w, steps)
            <==> (steps[0] == Abandon(w) ==> s.cancelled) && CutsAfterCancel(c, Next(c, s, steps[0]), w, steps[1..])
  {
    var next, rest := Next(c, s, steps[0]), steps[1..];
    forall p | 0 <= p < |rest| ensures After(c, s, steps[..p + 1]) == After(c, next, rest[..p]) {
      FirstStep(c, s, steps[..p + 1]);
      assert steps[..p + 1][1..] == rest[..p];
    }
    assert forall p :: 0 <= p < |rest| ==> rest[p] == steps[p + 1];
    if CutsAfterCancel(c, s, w, steps) {
      assert steps[..0] == [];
    } else {
      var p :| 0 <= p < |steps| && steps[p] == Abandon(w) && !After(c, s, steps[..p]).cancelled;
      if p == 0 {
        assert steps[..0] == [];
      } else {
        assert rest[p - 1] == Abandon(w);
      }
    }
  }

  /** Without a step of its own a worker keeps its event. */
  lemma {:induction false} IdleKeeps(c: Config, s: State, w: nat, e: nat, steps: seq<Step>)
    requires Working(s, w, e) && Mine(steps, w) == []
    ensures Working(After(c, s, steps), w, e)
    decreases |steps|
  {
    if steps == [] {
    } else {
      FirstStep(c, s, steps);
      OthersLeave(c, s, steps[0], w, e);
      IdleKeeps(c, Next(c, s, steps[0]), w, e, steps[1..]);
    }
  }

  lemma {:induction false} NoCuts(c: Config, s: State, w: nat, steps: seq<Step>)
    requires Mine(steps, w) == []
    ensures CutsAfterCancel(c, s, w, steps)
    decreases |steps|
  {
    if steps == [] {
    } else {
      CutsTail(c, s, w, steps);
      NoCuts(c, Next(c, s, steps[0]), w, steps[1..]);
    }
  }

  /** The event e is settled with what the loop returns exactly if pauses were cut only after a
      cancellation; otherwise it is still with its worker. */
  predicate Follows(c: Config, s: State, w: nat, e: nat, steps: seq<Step>, fate: Fate) {
    var after := After(c, s, steps);
    if CutsAfterCancel(c, s, w, steps) then e in after.fates && after.fates[e] == fate
    else Working(after, w, e) && e !in after.fates
  }

  lemma FollowsTail(c: Config, s: State, w: nat, e: nat, steps: seq<Step>, fate: Fate)
    requires steps != [] && steps[0] != Abandon(w) && Follows(c, Next(c, s, steps[0]), w, e, steps[1..], fate)
    ensures Follows(c, s, w, e, steps, fate)
  {
    FirstStep(c, s, steps);
    CutsTail(c, s, w, steps);
  }

  /** The last step of the worker settles its event. */
  lemma SettledFollows(c: Config, s: State, w: nat, e: nat, steps: seq<Step>, fate: Fate)
    requires steps != [] && (steps[0] == Abandon(w) ==> s.cancelled) && Mine(steps[1..], w) == []
    requires var next := Next(c, s, steps[0]); Placed(next, e) && e in next.fates && next.fates[e] == fate
    ensures Follows(c, s, w, e, steps, fate)
  {
    var next := Next(c, s, steps[0]);
    FirstStep(c, s, steps);
    CutsTail(c, s, w, steps);
    NoCuts(c, next, w, steps[1..]);
    FateIsFinal(c, next, steps[1..], e);
  }

  /** A pause that is cut: without a cancellation it is not, and the worker sleeps on. */
  lemma AbandonFollows(c: Config, s: State, w: nat, e: nat, k: nat, steps: seq<Step>)
    requires 1 <= k < c.maxRetries && Working(s, w, e) && AtPause(c, s.workers[w], k)
    requires steps != [] && steps[0] == Abandon(w) && Mine(steps[1..], w) == []
    ensures Follows(c, s, w, e, steps, DroppedOnCancel(k, BackOff(c.base, k)))
  {
    if s.cancelled {
      AbandonSettles(c, s, w, e, k);
      SettledFollows(c, s, w, e, steps, DroppedOnCancel(k, BackOff(c.base, k)));
    } else {
      FirstStep(c, s, steps);
      CutsTail(c, s, w, steps);
      IdleKeeps(c, s, w, e, steps[1..]);
      WorkingUnsettled(After(c, s, steps), w, e);
    }
  }

  /** The retry loop and the steps agree, in every interleaving: a worker that takes the steps of
      the loop, among whatever others do, settles its event with the fate that the loop returns,
      exactly if each pause that is cut short is cut after a cancellation, even one among them. */
  lemma {:induction false} StepsFollowLoop(c: Config, s: State, w: nat, e: nat, good: nat -> bool, cut: nat -> bool,
                                           k: nat, steps: seq<Step>)
    requires 1 <= k <= c.maxRetries && Working(s, w, e) && AtAttempt(c, s.workers[w], k)
    requires Mine(steps, w) == RetrySteps(c, w, good, cut, k)
    ensures Follows(c, s, w, e, steps, FateFrom(c, good, cut, k))
    decreases |steps|
  {
    var step, rest := steps[0], steps[1..];
    if !(IsWork(step) && step.w == w) {
      OthersLeave(c, s, step, w, e);
      StepsFollowLoop(c, Next(c, s, step), w, e, good, cut, k, rest);
      FollowsTail(c, s, w, e, steps, FateFrom(c, good, cut, k));
    } else if good(k) || k == c.maxRetries {
      assert step == RetrySteps(c, w, good, cut, k)[0];
      AttemptSettles(c, s, w, e, good, cut, k);
      SettledFollows(c, s, w, e, steps, FateFrom(c, good, cut, k));
    } else {
      assert step == RetrySteps(c, w, good, cut, k)[0];
      assert Mine(rest, w) == RetrySteps(c, w, good, cut, k)[1..];
      AttemptPauses(c, s, w, e, k);
      PausesFollowLoop(c, Next(c, s, step), w, e, good, cut, k, rest);
      FollowsTail(c, s, w, e, steps, FateFrom(c, good, cut, k));
    }
  }

  lemma {:induction false} PausesFollowLoop(c: Config, s: State, w: nat, e: nat, good: nat -> bool, cut: nat -> bool,
                                            k: nat, steps: seq<Step>)
    requires 1 <= k < c.maxRetries && !good(k) && Working(s, w, e) && AtPause(c, s.workers[w], k)
    requires Mine(steps, w) == PauseSteps(c, w, good, cut, k)
    ensures Follows(c, s, w, e, steps, FateFrom(c, good, cut, k))
    decreases |steps|
  {
    var step, rest := steps[0], steps[1..];
    if !(IsWork(step) && step.w == w) {
      OthersLeave(c, s, step, w, e);
      PausesFollowLoop(c, Next(c, s, step), w, e, good, cut, k, rest);
      FollowsTail(c, s, w, e, steps, FateFrom(c, good, cut, k));
    } else if cut(k) {
      assert step == PauseSteps(c, w, good, cut, k)[0];
      AbandonFollows(c, s, w, e, k, steps);
    } else {
      assert step == PauseSteps(c, w, good, cut, k)[0];
      assert Mine(rest, w) == PauseSteps(c, w, good, cut, k)[1..];
      WakeRetries(c, s, w, e, k);
      StepsFollowLoop(c, Next(c, s, step), w, e, good, cut, k + 1, rest);
      FollowsTail(c, s, w, e, steps, FateFrom(c, good, cut, k));
    }
  }

  // ------------------------------------------------------- the fates and the loop

  /** The step is a successful k-th attempt at the event e. */
  predicate Succeeds(s: State, step: Step, e: nat, k: nat) {
    step.Attempt? && step.succeeds && Enabled(s, step)
    && s.workers[step.w].event == e && s.workers[step.w].attempt == k
  }

  /** The step cuts short the pause after the k-th attempt at e. */
  predicate Cuts(s: State, step: Step, e: nat, k: nat) {
    step.Abandon? && Enabled(s, step) && s.workers[step.w].event == e && s.workers[step.w].attempt == k
  }

  /** The run has a successful k-th attempt at e. */
  predicate Succeeded(c: Config, steps: seq<Step>, e: nat, k: nat) {
    steps != []
    && var rest := steps[..|steps| - 1];
       Succeeded(c, rest, e, k) || Succeeds(After(c, Start(c), rest), steps[|steps| - 1], e, k)
  }

  predicate WasCut(c: Config, steps: seq<Step>, e: nat, k: nat) {
    steps != []
    && var rest := steps[..|steps| - 1];
       WasCut(c, rest, e, k) || Cuts(After(c, Start(c), rest), steps[|steps| - 1], e, k)
  }

  /** The fate of e, if any, tells which attempt of the run succeeded and which pause was cut. */
  predicate Tells(s: State, e: nat, k: nat, good: bool, cut: bool) {
    && (good <==> e in s.fates && s.fates[e].Delivered? && s.fates[e].attempts == k)
    && (cut <==> k >= 1 && e in s.fates && s.fates[e].DroppedOnCancel? && s.fates[e].attempts == k)
  }

  lemma StepTells(c: Config, s: State, step: Step, e: nat, k: nat, good: bool, cut: bool)
    requires Placed(s, e) && WorkersOk(c, s) && Tells(s, e, k, good, cut)
    ensures Tells(Next(c, s, step), e, k, good || Succeeds(s, step, e, k), cut || Cuts(s, step, e, k))
  {
    if e in s.fates {
      FateStays(c, s, step, e);
    }
    if Enabled(s, step) && IsWork(step) && Busy(s.workers[step.w]) {
      assert WorkerOk(c, s, s.workers[step.w]);
      if s.workers[step.w].event == e {
        WorkingUnsettled(s, step.w, e);
      }
    }
  }

  lemma {:induction false} RunTells(c: Config, steps: seq<Step>, e: nat, k: nat)
    ensures Tells(After(c, Start(c), steps), e, k, Succeeded(c, steps, e, k), WasCut(c, steps, e, k))
  {
    if steps == [] {
    } else {
      var rest := steps[..|steps| - 1];
      RunTells(c, rest, e, k);
      EventsConserved(c, rest, e);
      AfterOk(c, rest);
      StepTells(c, After(c, Start(c), rest), steps[|steps| - 1], e, k, Succeeded(c, rest, e, k), WasCut(c, rest, e, k));
    }
  }

  /** Attempts that fail and are not cut short after lead to the next. */
  lemma {:induction false} FateSkips(c: Config, good: nat -> bool, cut: nat -> bool, j: nat, k: nat)
    requires 1 <= j <= k <= c.maxRetries && forall i :: j <= i < k ==> !good(i) && !cut(i)
    ensures FateFrom(c, good, cut, j) == FateFrom(c, good, cut, k)
    decreases k - j
  {
    if j == k {
    } else {
      FateSkips(c, good, cut, j + 1, k);
    }
  }

  /** The attempts at e that succeeded in the run, and the pauses that were cut. */
  function Goods(c: Config, steps: seq<Step>, e: nat): nat -> bool {
    (k: nat) => Succeeded(c, steps, e, k)
  }

  function CutPauses(c: Config, steps: seq<Step>, e: nat): nat -> bool {
    (k: nat) => WasCut(c, steps, e, k)
  }

  /** An event that was never tried: the channel was full, nothing is retried, or the worker
      noticed the cancellation first. */
  predicate Untried(fate: Fate) {
    fate.DroppedFull? || fate.Unattempted? || (fate.DroppedOnCancel? && fate.attempts == 0)
  }

  /** The converse, over all runs: the fate of every event that was tried is the one that the
      loop returns for the attempts of the run that succeeded and the pauses that were cut. */
  lemma FatesFollowLoop(c: Config, steps: seq<Step>, e: nat)
    requires e in After(c, Start(c), steps).fates
    ensures var fate := After(c, Start(c), steps).fates[e];
            if Untried(fate) then forall k: nat :: !Succeeded(c, steps, e, k) && !WasCut(c, steps, e, k)
            else c.maxRetries >= 1 && fate == FateFrom(c, Goods(c, steps, e), CutPauses(c, steps, e), 1)
  {
    var s := After(c, Start(c), steps);
    var fate := s.fates[e];
    AfterOk(c, steps);
    assert FateOk(c, s, fate);
    forall k: nat ensures Tells(s, e, k, Succeeded(c, steps, e, k), WasCut(c, steps, e, k)) {
      RunTells(c, steps, e, k);
    }
    if !Untried(fate) {
      FateSkips(c, Goods(c, steps, e), CutPauses(c, steps, e), 1, fate.attempts);
    }
  }
}

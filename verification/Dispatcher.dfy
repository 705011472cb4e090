/**
 * The notification dispatcher as interleaved steps of publishers, workers, Stop and
 * cancellation: a bounded channel, a pool of workers, retries with doubling delays.
 */
module Dispatcher {
  // ------------------------------------------------------------------------- state

  /** maxRetries and base are taken as configured; only the first two get defaults. */
  datatype Config = Config(workers: nat, capacity: nat, maxRetries: int, base: nat)

  /** Every service has workers and a channel, by default 3 and 256, but retries only if configured. */
  function NewConfig(workers: int, capacity: int, maxRetries: int, base: nat): (c: Config)
    ensures c.workers >= 1 && c.capacity >= 1
    ensures workers >= 1 ==> c.workers == workers
    ensures capacity >= 1 ==> c.capacity == capacity
    ensures workers < 1 ==> c.workers == 3
    ensures capacity < 1 ==> c.capacity == 256
    ensures c.maxRetries == maxRetries && c.base == base
  {
    Config(if workers <= 0 then 3 else workers, if capacity <= 0 then 256 else capacity, maxRetries, base)
  }

  /** A worker waits for the channel, holds an event it has not looked at yet, tries it for the
      attempt-th time, or sleeps after that attempt failed; delay is the next pause and slept
      the pauses so far.  Exited and Quit both have returned: the one because the channel was
      closed and empty, the other because it noticed the cancellation. */
  datatype Worker =
    | Waiting
    | Received(event: nat)
    | Trying(event: nat, attempt: nat, delay: nat, slept: nat)
    | Sleeping(event: nat, attempt: nat, delay: nat, slept: nat)
    | Exited
    | Quit

  /** A worker that has an event. */
  predicate Busy(x: Worker) {
    x.Received? || x.Trying? || x.Sleeping?
  }

  datatype Fate =
    | Delivered(attempts: nat, slept: nat)
    | DroppedFull
    | DroppedAfterRetries(attempts: nat, slept: nat)
    | DroppedOnCancel(attempts: nat, slept: nat)
    | Unattempted

  /** Events are numbered as they are published.  accepted and taken are history variables:
      what went into the channel and what came out of it, in order. */
  datatype State = State(
    published: nat, buffer: seq<nat>, workers: seq<Worker>, closed: bool, cancelled: bool,
    fates: map<nat, Fate>, accepted: seq<nat>, taken: seq<nat>)

  function Start(c: Config): State {
    State(0, [], seq(c.workers, i => Waiting), false, false, map[], [], [])
  }

  // ------------------------------------------------------------------------- steps

  datatype Step =
    | Publish
    | Stop
    | Cancel
    | Take(w: nat)
    | Exit(w: nat)
    | Check(w: nat)
    | Attempt(w: nat, succeeds: bool)
    | Wake(w: nat)
    | Abandon(w: nat)

  /** Publishing after Stop sends on a closed channel and panics in the caller. */
  predicate Enabled(s: State, step: Step) {
    match step
    case Publish => !s.closed
    case Stop => true
    case Cancel => true
    case Take(w) => w < |s.workers| && s.workers[w].Waiting? && s.buffer != []
    case Exit(w) => w < |s.workers| && s.workers[w].Waiting? && s.buffer == [] && s.closed
    case Check(w) => w < |s.workers| && s.workers[w].Received?
    case Attempt(w, _) => w < |s.workers| && s.workers[w].Trying?
    case Wake(w) => w < |s.workers| && s.workers[w].Sleeping?
    case Abandon(w) => w < |s.workers| && s.workers[w].Sleeping? && s.cancelled
  }

  /** The worker at w moves on to x; when the event it held is finished its fate is recorded. */
  function Moved(s: State, w: nat, x: Worker): State
    requires w < |s.workers|
  {
    s.(workers := s.workers[w := x])
  }

  function Settled(s: State, w: nat, fate: Fate, x: Worker): State
    requires w < |s.workers| && Busy(s.workers[w])
  {
    Moved(s, w, x).(fates := s.fates[s.workers[w].event := fate])
  }

  function Do(c: Config, s: State, step: Step): State
    requires Enabled(s, step)
  {
    match step
    case Publish =>
      if |s.buffer| < c.capacity
      then s.(published := s.published + 1, buffer := s.buffer + [s.published], accepted := s.accepted + [s.published])
      else s.(published := s.published + 1, fates := s.fates[s.published := DroppedFull])
    case Stop => s.(closed := true)
    case Cancel => s.(cancelled := true)
    case Take(w) =>
      Moved(s, w, Received(s.buffer[0])).(buffer := s.buffer[1..], taken := s.taken + [s.buffer[0]])
    case Exit(w) => Moved(s, w, Exited)
    case Check(w) =>
      if s.cancelled then Settled(s, w, DroppedOnCancel(0, 0), Quit)
      else if c.maxRetries < 1 then Settled(s, w, Unattempted, Waiting)
      else Moved(s, w, Trying(s.workers[w].event, 1, c.base, 0))
    case Attempt(w, succeeds) =>
      var x := s.workers[w];
      if succeeds then Settled(s, w, Delivered(x.attempt, x.slept), Waiting)
      else if x.attempt == c.maxRetries then Settled(s, w, DroppedAfterRetries(x.attempt, x.slept), Waiting)
      else Moved(s, w, Sleeping(x.event, x.attempt, x.delay, x.slept))
    case Wake(w) =>
      var x := s.workers[w];
      Moved(s, w, Trying(x.event, x.attempt + 1, 2 * x.delay, x.slept + x.delay))
    case Abandon(w) =>
      var x := s.workers[w];
      Settled(s, w, DroppedOnCancel(x.attempt, x.slept), Waiting)
  }

  /** A step that is not enabled does not happen. */
  function Next(c: Config, s: State, step: Step): State {
    if Enabled(s, step) then Do(c, s, step) else s
  }

  function After(c: Config, s: State, steps: seq<Step>): State {
    if steps == [] then s else Next(c, After(c, s, steps[..|steps| - 1]), steps[|steps| - 1])
  }

  // --------------------------------------------------------------- the retry loop

  function Pow2(n: nat): (p: nat)
    ensures p >= 1
  {
    if n == 0 then 1 else 2 * Pow2(n - 1)
  }

  /** Total pause before attempt k. */
  function BackOff(base: nat, k: nat): nat
    requires k >= 1
  {
    base * (Pow2(k - 1) - 1)
  }

  lemma BackOffDoubles(base: nat, k: nat)
    requires k >= 1
    ensures base * Pow2(k) == 2 * (base * Pow2(k - 1))
    ensures BackOff(base, k + 1) == BackOff(base, k) + base * Pow2(k - 1)
  {}

  lemma {:induction false} BackOffGrows(base: nat, j: nat, k: nat)
    requires 1 <= j <= k
    ensures BackOff(base, j) <= BackOff(base, k)
    decreases k
  {
    if j == k {
    } else {
      BackOffGrows(base, j, k - 1);
      BackOffDoubles(base, k - 1);
    }
  }

  function Sum(pauses: seq<nat>): nat {
    if pauses == [] then 0 else Sum(pauses[..|pauses| - 1]) + pauses[|pauses| - 1]
  }

  /** The first pause is base, each other twice the one before. */
  predicate Doubles(base: nat, pauses: seq<nat>, i: nat)
    requires i < |pauses|
  {
    pauses[i] == if i == 0 then base else 2 * pauses[i - 1]
  }

  /** It is the sum of k - 1 doubling pauses. */
  lemma {:induction false} BackOffSums(base: nat, k: nat, pauses: seq<nat>)
    requires k >= 1 && |pauses| == k - 1
    requires forall i :: 0 <= i < |pauses| ==> Doubles(base, pauses, i)
    ensures Sum(pauses) == BackOff(base, k)
    ensures k >= 2 ==> pauses[k - 2] == base * Pow2(k - 2)
  {
    if k == 1 {
    } else {
      var rest := pauses[..k - 2];
      forall i | 0 <= i < |rest| ensures Doubles(base, rest, i) {
        assert Doubles(base, pauses, i);
      }
      BackOffSums(base, k - 1, rest);
      BackOffDoubles(base, k - 1);
      if k == 2 {
        assert Doubles(base, pauses, 0);
      } else {
        BackOffDoubles(base, k - 2);
        assert Doubles(base, pauses, k - 2) && pauses[k - 3] == rest[k - 3];
      }
    }
  }

  /** The fate that the attempts k, k + 1, ... of an event come to, when attempt i succeeds if
      good(i) and the pause after attempt i is cut short by cancellation if cut(i). */
  function FateFrom(c: Config, good: nat -> bool, cut: nat -> bool, k: nat): Fate
    requires 1 <= k <= c.maxRetries
    decreases c.maxRetries - k
  {
    if good(k) then Delivered(k, BackOff(c.base, k))
    else if k == c.maxRetries then DroppedAfterRetries(k, BackOff(c.base, k))
    else if cut(k) then DroppedOnCancel(k, BackOff(c.base, k))
    else FateFrom(c, good, cut, k + 1)
  }

  /** The loop, with the doubled delay and the pauses summed up. */
  method ProcessWithRetry(c: Config, good: nat -> bool, cut: nat -> bool) returns (fate: Fate)
    ensures fate == if c.maxRetries < 1 then Unattempted else FateFrom(c, good, cut, 1)
  {
    var delay, slept := c.base, 0;
    var attempt := 1;
    while attempt <= c.maxRetries
      invariant 1 <= attempt
      invariant delay == c.base * Pow2(attempt - 1) && slept == BackOff(c.base, attempt)
      invariant c.maxRetries >= 1 ==> attempt <= c.maxRetries
      invariant c.maxRetries >= 1 ==> FateFrom(c, good, cut, 1) == FateFrom(c, good, cut, attempt)
    {
      if good(attempt) {
        return Delivered(attempt, slept);
      }
      if attempt == c.maxRetries {
        return DroppedAfterRetries(attempt, slept);
      }
      if cut(attempt) {
        return DroppedOnCancel(attempt, slept);
      }
      BackOffDoubles(c.base, attempt);
      slept := slept + delay;
      delay := 2 * delay;
      attempt := attempt + 1;
    }
    return Unattempted;
  }

  /** Delivered exactly when some attempt within the limit succeeds and no pause before the
      first such attempt is cut short; and it is that attempt that delivers. */
  lemma {:induction false} FateIsFirstSuccess(c: Config, good: nat -> bool, cut: nat -> bool, k: nat)
    requires 1 <= k <= c.maxRetries
    ensures var fate := FateFrom(c, good, cut, k);
            && (fate.Delivered? || fate.DroppedAfterRetries? || fate.DroppedOnCancel?)
            && k <= fate.attempts <= c.maxRetries
            && fate.slept == BackOff(c.base, fate.attempts)
            && (fate.Delivered? <==> good(fate.attempts))
            && (fate.DroppedOnCancel? ==> cut(fate.attempts))
            && (fate.DroppedAfterRetries? ==> fate.attempts == c.maxRetries)
            && forall i :: k <= i < fate.attempts ==> !good(i) && !cut(i)
    decreases c.maxRetries - k
  {
    if !good(k) && k < c.maxRetries && !cut(k) {
      FateIsFirstSuccess(c, good, cut, k + 1);
    }
  }
}

/**
 `ResilientRedis` of `backend/core/redis_resilient.py`: a circuit breaker shared by calls that are in flight together.
 Between two awaits a call runs alone, so every stretch of `_call` and `_reconnect` between awaits is one step.
 */
module CircuitBreaker {
  import opened Common

  datatype Circuit = Closed | Open | HalfOpen

  const FAIL_THRESHOLD: nat := 5
  const RESET_AFTER := 60.0
  const BACKOFF_BASE := 0.5
  const BACKOFF_CAP := 30.0

  /** The breaker's fields. */
  datatype Breaker = Breaker(state: Circuit, fails: nat, lastFailure: real)

  const FRESH := Breaker(Closed, 0, 0.0)

  predicate Admits(b: Breaker, now: real) {
    b.state == Open ==> now - b.lastFailure >= RESET_AFTER
  }

  function Checked(b: Breaker, now: real): Breaker {
    if b.state == Open && Admits(b, now) then b.(state := HalfOpen) else b
  }

  function Succeeded(b: Breaker): Breaker {
    b.(fails := 0, state := if b.state == HalfOpen then Closed else b.state)
  }

  function Failed(b: Breaker, now: real): Breaker {
    b.(fails := b.fails + 1, lastFailure := now,
       state := if b.fails + 1 >= FAIL_THRESHOLD then Open else b.state)
  }

  function Reconnected(b: Breaker): Breaker { b.(state := Closed, fails := 0) }

  function Pow2(n: nat): nat { if n == 0 then 1 else 2 * Pow2(n - 1) }

  /** The sleep before reconnect attempt `attempt`. */
  function Backoff(attempt: nat): real { Min(BACKOFF_CAP, BACKOFF_BASE * Pow2(attempt) as real) }

  class ResilientRedis {
    var state: Circuit
    var consecutiveFails: nat
    var lastFailureTs: real

    ghost function View(): Breaker
      reads this
    {
      Breaker(state, consecutiveFails, lastFailureTs)
    }

    constructor ()
      ensures View() == FRESH
    {
      state, consecutiveFails, lastFailureTs := Closed, 0, 0.0;
    }

    method CheckCircuit(now: real) returns (proceed: bool)
      modifies this
      ensures proceed == Admits(old(View()), now)
      ensures View() == Checked(old(View()), now)
    {
      if state == Closed {
        return true;
      }
      if state == Open {
        if now - lastFailureTs >= RESET_AFTER {
          state := HalfOpen;
          return true;
        }
        return false;
      }
      return true;
    }

    method RecordSuccess()
      modifies this
      ensures View() == Succeeded(old(View()))
    {
      consecutiveFails := 0;
      if state == HalfOpen {
        state := Closed;
      }
    }

    method RecordFailure(now: real)
      modifies this
      ensures View() == Failed(old(View()), now)
    {
      consecutiveFails := consecutiveFails + 1;
      lastFailureTs := now;
      if consecutiveFails >= FAIL_THRESHOLD {
        if state != Open {
          state := Open;
        }
      }
    }

    /**
     The retry loop, given the outcomes of its pings; `delays` are the sleeps. With no success among the outcomes
     the loop is still running.
     */
    method Reconnect(pings: seq<bool>) returns (delays: seq<real>, connected: bool)
      modifies this
      ensures connected <==> true in pings
      ensures connected ==> View() == Reconnected(old(View()))
      ensures !connected ==> View() == old(View()) && |delays| == |pings|
      ensures connected ==> 1 <= |delays| <= |pings| && pings[|delays| - 1] && true !in pings[..|delays| - 1]
      ensures forall k :: 0 <= k < |delays| ==> delays[k] == Backoff(k)
    {
      delays := [];
      var attempt := 0;
      while attempt < |pings|
        invariant 0 <= attempt <= |pings| && |delays| == attempt
        invariant true !in pings[..attempt]
        invariant forall k :: 0 <= k < |delays| ==> delays[k] == Backoff(k)
        invariant View() == old(View())
      {
        delays := delays + [Backoff(attempt)];
        if pings[attempt] {
          state := Closed;
          consecutiveFails := 0;
          return delays, true;
        }
        attempt := attempt + 1;
      }
      assert pings[..|pings|] == pings;
      connected := false;
    }

    /**
     `_call` from start to end, given how its command, the pings and the retry end. A call that gets through a reconnect
     leaves the circuit closed without failures, however its retry ends.
     */
    method Call(now: real, command: Ending, failedAt: real, pings: seq<bool>, retry: Ending) returns (r: CallResult)
      modifies this
      ensures View() == AfterCall(old(View()), now, command, failedAt, true in pings)
      ensures r == Rejected <==> !Admits(old(View()), now)
      ensures r == StillReconnecting <==> Admits(old(View()), now) && command == Disconnected && true !in pings
      ensures r == Returned
        <==> Admits(old(View()), now) && (command == Fine || (command == Disconnected && true in pings && retry == Fine))
      ensures r == Returned ==> state == Closed && consecutiveFails == 0
      ensures r == StillReconnecting ==> consecutiveFails == old(consecutiveFails) + 1 && lastFailureTs == failedAt
      ensures forall s: State, id: nat :: s.breaker == old(View()) && id !in InFlight(s) ==>
        RunsTo(s, CallSteps(s.breaker, id, now, command, failedAt, pings, retry), View())
    {
      forall s: State, id: nat | s.breaker == View() && id !in InFlight(s)
        ensures RunsTo(s, CallSteps(s.breaker, id, now, command, failedAt, pings, retry),
                       AfterCall(s.breaker, now, command, failedAt, true in pings))
      {
        CallIsRun(s, id, now, command, failedAt, pings, retry);
      }
      var proceed := CheckCircuit(now);
      if !proceed {
        return Rejected;
      }
      if command == OtherError {
        return Raised;
      }
      if command == Fine {
        RecordSuccess();
        return Returned;
      }
      RecordFailure(failedAt);
      var delays, connected := Reconnect(pings);
      if !connected {
        return StillReconnecting;
      }
      if retry == Fine {
        RecordSuccess();
        return Returned;
      }
      return Raised;
    }
  }

  /** How a Redis command ends; `Disconnected` stands for the exceptions that `_call` catches. */
  datatype Ending = Fine | Disconnected | OtherError

  datatype CallResult = Rejected | Returned | Raised | StillReconnecting

  /** What one call does to the breaker with nobody else at it. */
  function AfterCall(b: Breaker, now: real, command: Ending, failedAt: real, connected: bool): Breaker {
    if !Admits(b, now) then b
    else
      var checked := Checked(b, now);
      match command
      case Fine => Succeeded(checked)
      case OtherError => checked
      case Disconnected => if connected then Breaker(Closed, 0, failedAt) else Failed(checked, failedAt)
  }

  /** The sleeps never shrink, and from the seventh attempt on they are the cap. */
  lemma {:induction false} BackoffGrows(attempt: nat)
    ensures BACKOFF_BASE <= Backoff(attempt) <= Backoff(attempt + 1) <= BACKOFF_CAP
    ensures attempt >= 6 <==> Backoff(attempt) == BACKOFF_CAP
    ensures attempt < 6 ==> Backoff(attempt) == BACKOFF_BASE * Pow2(attempt) as real
    ensures Pow2(attempt) >= 1 && (attempt >= 6 ==> Pow2(attempt) >= 64) && (attempt < 6 ==> Pow2(attempt) <= 32)
  {
    if attempt > 0 {
      BackoffGrows(attempt - 1);
      if attempt == 6 {
        assert Pow2(6) == 2 * Pow2(5) && Pow2(5) == 2 * Pow2(4) && Pow2(4) == 2 * Pow2(3) && Pow2(3) == 2 * Pow2(2);
      } else if attempt < 6 {
        assert Pow2(5) == 2 * Pow2(4) && Pow2(4) == 2 * Pow2(3) && Pow2(3) == 2 * Pow2(2) && Pow2(2) == 2 * Pow2(1);
      }
    }
  }

  // ----- calls in flight together

  datatype Outcome = Failure | Reset

  /**
   Which calls await their command, are inside `_reconnect`, or await the retry. The rest is history: `outcomes` lists the
   failures and resets the breaker was told of; since the last reset, `recent` are the calls that failed and are still
   inside `_reconnect`, and `lost` counts those that were cancelled there.
   */
  datatype State = State(
    breaker: Breaker,
    commanding: set<nat>,
    reconnecting: set<nat>,
    retrying: set<nat>,
    outcomes: seq<Outcome>,
    recent: set<nat>,
    lost: nat)

  /** `Other` is any exception `_call` does not catch. `Cancel` abandons a call wherever it is. */
  datatype Step =
    | Start(id: nat, now: real)
    | CommandOk(id: nat)
    | CommandFails(id: nat, now: real)
    | CommandOther(id: nat)
    | PingFails(id: nat)
    | PingOk(id: nat)
    | RetryOk(id: nat)
    | RetryFails(id: nat)
    | Cancel(id: nat)

  const START := State(FRESH, {}, {}, {}, [], {}, 0)

  function InFlight(s: State): set<nat> { s.commanding + s.reconnecting + s.retrying }

  predicate Enabled(s: State, step: Step) {
    match step
    case Start(id, now) => id !in InFlight(s)
    case CommandOk(id) => id in s.commanding
    case CommandFails(id, now) => id in s.commanding
    case CommandOther(id) => id in s.commanding
    case PingFails(id) => id in s.reconnecting
    case PingOk(id) => id in s.reconnecting
    case RetryOk(id) => id in s.retrying
    case RetryFails(id) => id in s.retrying
    case Cancel(id) => id in InFlight(s)
  }

  /** A success or a reconnect, in the histories. */
  function WithReset(s: State): State { s.(outcomes := s.outcomes + [Reset], recent := {}, lost := 0) }

  function Apply(s: State, step: Step): State {
    var id := step.id;
    match step
    case Start(_, now) =>
      s.(breaker := Checked(s.breaker, now),
         commanding := if Admits(s.breaker, now) then s.commanding + {id} else s.commanding)
    case CommandOk(_) => WithReset(s.(breaker := Succeeded(s.breaker), commanding := s.commanding - {id}))
    case CommandFails(_, now) =>
      s.(breaker := Failed(s.breaker, now), commanding := s.commanding - {id},
         reconnecting := s.reconnecting + {id}, outcomes := s.outcomes + [Failure], recent := s.recent + {id})
    case CommandOther(_) => s.(commanding := s.commanding - {id})
    case PingFails(_) => s
    case PingOk(_) =>
      WithReset(s.(breaker := Reconnected(s.breaker), reconnecting := s.reconnecting - {id}, retrying := s.retrying + {id}))
    case RetryOk(_) => WithReset(s.(breaker := Succeeded(s.breaker), retrying := s.retrying - {id}))
    case RetryFails(_) => s.(retrying := s.retrying - {id})
    case Cancel(_) =>
      s.(commanding := s.commanding - {id}, reconnecting := s.reconnecting - {id}, retrying := s.retrying - {id},
         recent := s.recent - {id}, lost := if id in s.recent then s.lost + 1 else s.lost)
  }

  function Run(s: State, steps: seq<Step>): Option<State> {
    if steps == [] then Some(s)
    else
      var before := Run(s, steps[..|steps| - 1]);
      var step := steps[|steps| - 1];
      if before.Some? && Enabled(before.value, step) then Some(Apply(before.value, step)) else None
  }

  // ----- a call that runs alone

  /** The steps can be taken from `s`, and they leave this breaker. */
  predicate RunsTo(s: State, steps: seq<Step>, b: Breaker) { Run(s, steps).Some? && Run(s, steps).value.breaker == b }

  /** How many pings fail before the first that succeeds. */
  function FailedPings(pings: seq<bool>): nat { if pings == [] || pings[0] then 0 else 1 + FailedPings(pings[1..]) }

  function PingSteps(id: nat, n: nat): seq<Step> { if n == 0 then [] else PingSteps(id, n - 1) + [PingFails(id)] }

  /** The steps of one call, given how its command, its pings and its retry end. */
  function CallSteps(b: Breaker, id: nat, now: real, command: Ending, failedAt: real, pings: seq<bool>,
                     retry: Ending): seq<Step> {
    if b.state == Open && now - b.lastFailure < RESET_AFTER then [] + [Start(id, now)]
    else
      match command
      case Fine => [] + [Start(id, now)] + [CommandOk(id)]
      case OtherError => [] + [Start(id, now)] + [CommandOther(id)]
      case Disconnected =>
        var failed := [] + [Start(id, now)] + [CommandFails(id, failedAt)] + PingSteps(id, FailedPings(pings));
        if true !in pings then failed
        else failed + [PingOk(id)] + [if retry == Fine then RetryOk(id) else RetryFails(id)]
  }

  lemma NextStep(s: State, steps: seq<Step>, mid: State, step: Step)
    requires Run(s, steps) == Some(mid) && Enabled(mid, step)
    ensures Run(s, steps + [step]) == Some(Apply(mid, step))
  {
    assert (steps + [step])[..|steps|] == steps;
  }

  lemma {:induction false} PingsRun(s: State, steps: seq<Step>, mid: State, id: nat, n: nat)
    requires Run(s, steps) == Some(mid) && id in mid.reconnecting
    ensures Run(s, steps + PingSteps(id, n)) == Some(mid)
  {
    if n == 0 {
      assert steps + [] == steps;
    } else {
      PingsRun(s, steps, mid, id, n - 1);
      NextStep(s, steps + PingSteps(id, n - 1), mid, PingFails(id));
      assert steps + PingSteps(id, n - 1) + [PingFails(id)] == steps + PingSteps(id, n);
    }
  }

  lemma StartRuns(s: State, id: nat, now: real)
    requires id !in InFlight(s)
    ensures Run(s, [] + [Start(id, now)]) == Some(Apply(s, Start(id, now)))
    ensures Admits(s.breaker, now) ==> id in Apply(s, Start(id, now)).commanding
  {
    NextStep(s, [], s, Start(id, now));
  }

  lemma DisconnectedRuns(s: State, id: nat, now: real, failedAt: real, pings: seq<bool>)
    requires id !in InFlight(s) && Admits(s.breaker, now)
    ensures var s2 := Apply(Apply(s, Start(id, now)), CommandFails(id, failedAt));
      && Run(s, [] + [Start(id, now)] + [CommandFails(id, failedAt)] + PingSteps(id, FailedPings(pings))) == Some(s2)
      && id in s2.reconnecting && s2.breaker == Failed(Checked(s.breaker, now), failedAt)
  {
    StartRuns(s, id, now);
    var s1 := Apply(s, Start(id, now));
    NextStep(s, [] + [Start(id, now)], s1, CommandFails(id, failedAt));
    PingsRun(s, [] + [Start(id, now)] + [CommandFails(id, failedAt)], Apply(s1, CommandFails(id, failedAt)), id, FailedPings(pings));
  }

  /** Run alone, whoever else is waiting, a call is these steps of the machine, and they leave the breaker as `Call` does. */
  lemma CallIsRun(s: State, id: nat, now: real, command: Ending, failedAt: real, pings: seq<bool>, retry: Ending)
    requires id !in InFlight(s)
    ensures RunsTo(s, CallSteps(s.breaker, id, now, command, failedAt, pings, retry),
                   AfterCall(s.breaker, now, command, failedAt, true in pings))
  {
    StartRuns(s, id, now);
    var start, s1 := [] + [Start(id, now)], Apply(s, Start(id, now));
    if Admits(s.breaker, now) {
      match command
      case Fine => NextStep(s, start, s1, CommandOk(id));
      case OtherError => NextStep(s, start, s1, CommandOther(id));
      case Disconnected =>
        DisconnectedRuns(s, id, now, failedAt, pings);
        if true in pings {
          var failed, s2 := start + [CommandFails(id, failedAt)] + PingSteps(id, FailedPings(pings)), Apply(s1, CommandFails(id, failedAt));
          NextStep(s, failed, s2, PingOk(id));
          NextStep(s, failed + [PingOk(id)], Apply(s2, PingOk(id)), if retry == Fine then RetryOk(id) else RetryFails(id));
        }
    }
  }

  /** How many failures came since the last success or reconnect. */
  function Streak(outcomes: seq<Outcome>): nat {
    if outcomes == [] || outcomes[|outcomes| - 1] == Reset then 0
    else 1 + Streak(outcomes[..|outcomes| - 1])
  }

  lemma StreakNext(outcomes: seq<Outcome>, o: Outcome)
    ensures Streak(outcomes + [o]) == if o == Failure then Streak(outcomes) + 1 else 0
  {
    assert (outcomes + [o])[..|outcomes|] == outcomes;
  }

  function NextOutcomes(earlier: seq<Outcome>, step: Step): seq<Outcome> {
    if step.CommandFails? then earlier + [Failure]
    else if step.CommandOk? || step.PingOk? || step.RetryOk? then earlier + [Reset]
    else earlier
  }

  /** The failures and resets among the steps. */
  function OutcomesOf(steps: seq<Step>): seq<Outcome> {
    if steps == [] then [] else NextOutcomes(OutcomesOf(steps[..|steps| - 1]), steps[|steps| - 1])
  }

  /** When the last command failed; 0 before the first. */
  function LastFailureAt(steps: seq<Step>): real {
    if steps == [] then 0.0
    else if steps[|steps| - 1].CommandFails? then steps[|steps| - 1].now
    else LastFailureAt(steps[..|steps| - 1])
  }

  lemma StepRemembers(s: State, step: Step)
    requires Enabled(s, step)
    ensures Apply(s, step).outcomes == NextOutcomes(s.outcomes, step)
    ensures Apply(s, step).breaker.lastFailure == if step.CommandFails? then step.now else s.breaker.lastFailure
  {
  }

  lemma {:induction false} RunRemembers(steps: seq<Step>)
    requires Run(START, steps).Some?
    ensures Run(START, steps).value.outcomes == OutcomesOf(steps)
    ensures Run(START, steps).value.breaker.lastFailure == LastFailureAt(steps)
  {
    if steps != [] {
      RunRemembers(steps[..|steps| - 1]);
      StepRemembers(Run(START, steps[..|steps| - 1]).value, steps[|steps| - 1]);
    }
  }

  /** In every run the breaker has counted the failures since the last success or reconnect, and timed the last of all. */
  lemma BreakerRemembers(steps: seq<Step>)
    requires Run(START, steps).Some?
    ensures Run(START, steps).value.breaker.fails == Streak(OutcomesOf(steps))
    ensures Run(START, steps).value.breaker.lastFailure == LastFailureAt(steps)
  {
    CountingInvariant(steps);
    RunRemembers(steps);
  }

  /** A call is in one place at a time. */
  predicate Apart(s: State) {
    && (forall id :: id in s.reconnecting ==> id !in s.commanding && id !in s.retrying)
    && (forall id :: id in s.retrying ==> id !in s.commanding)
  }

  predicate Inv(s: State) {
    && Apart(s)
    && s.recent <= s.reconnecting
    && s.breaker.fails == Streak(s.outcomes) == |s.recent| + s.lost
    && (s.breaker.state == Closed ==> s.breaker.fails < FAIL_THRESHOLD)
  }

  lemma FailureInv(s: State, id: nat, now: real)
    requires Inv(s) && Enabled(s, CommandFails(id, now))
    ensures Inv(Apply(s, CommandFails(id, now)))
  {
    StreakNext(s.outcomes, Failure);
    assert id !in s.recent;
    assert |s.recent + {id}| == |s.recent| + 1;
  }

  lemma CancelInv(s: State, id: nat)
    requires Inv(s) && Enabled(s, Cancel(id))
    ensures Inv(Apply(s, Cancel(id)))
  {
    if id in s.recent {
      assert |s.recent - {id}| == |s.recent| - 1;
    } else {
      assert s.recent - {id} == s.recent;
    }
  }

  lemma StepInv(s: State, step: Step)
    requires Inv(s) && Enabled(s, step)
    ensures Inv(Apply(s, step))
  {
    StreakNext(s.outcomes, Reset);
    if step.CommandFails? { FailureInv(s, step.id, step.now); }
    if step.Cancel? { CancelInv(s, step.id); }
  }

  /**
   Over every interleaving of any number of calls, cancelled or not: the failure count is the current streak of failures,
   each of which is a call still inside `_reconnect` or lost there, and is below the threshold while the circuit is closed.
   */
  lemma {:induction false} CountingInvariant(steps: seq<Step>)
    requires Run(START, steps).Some?
    ensures Inv(Run(START, steps).value)
  {
    if steps != [] {
      CountingInvariant(steps[..|steps| - 1]);
      StepInv(Run(START, steps[..|steps| - 1]).value, steps[|steps| - 1]);
    }
  }

  lemma SplitCount(a: set<nat>, b: set<nat>)
    requires a <= b
    ensures |b| == |a| + |b - a|
  {
    assert b == a + (b - a);
  }

  /**
   The failure count never exceeds the calls inside `_reconnect` and those lost there; it is at most the number of calls
   inside `_reconnect` exactly when no more were lost than are still there from before the last reset.
   */
  lemma FailuresPending(steps: seq<Step>)
    requires Run(START, steps).Some?
    ensures var s := Run(START, steps).value;
      && s.breaker.fails <= |s.reconnecting| + s.lost
      && (s.breaker.fails <= |s.reconnecting| <==> s.lost <= |s.reconnecting - s.recent|)
  {
    CountingInvariant(steps);
    SplitCount(Run(START, steps).value.recent, Run(START, steps).value.reconnecting);
  }

  predicate NoCancellation(steps: seq<Step>) { forall i :: 0 <= i < |steps| ==> !steps[i].Cancel? }

  lemma {:induction false} NoneLost(steps: seq<Step>)
    requires NoCancellation(steps) && Run(START, steps).Some?
    ensures Run(START, steps).value.lost == 0
  {
    if steps != [] { NoneLost(steps[..|steps| - 1]); }
  }

  /** Without cancellation the failure count never exceeds the number of calls inside `_reconnect`. */
  lemma FailuresReconnecting(steps: seq<Step>)
    requires NoCancellation(steps) && Run(START, steps).Some?
    ensures Run(START, steps).value.breaker.fails <= |Run(START, steps).value.reconnecting|
  {
    NoneLost(steps);
    FailuresPending(steps);
  }

  /** At every moment of the run the breaker is closed. */
  predicate StaysClosed(steps: seq<Step>)
    requires Run(START, steps).Some?
  {
    Run(START, steps).value.breaker.state == Closed && (steps == [] || StaysClosed(steps[..|steps| - 1]))
  }

  /** At every moment of the run the current streak of failures is shorter than the threshold. */
  predicate ShortStreaks(steps: seq<Step>)
    requires Run(START, steps).Some?
  {
    Streak(Run(START, steps).value.outcomes) < FAIL_THRESHOLD && (steps == [] || ShortStreaks(steps[..|steps| - 1]))
  }

  lemma ClosedNext(s: State, step: Step)
    requires Inv(s) && Enabled(s, step) && s.breaker.state == Closed
    ensures Apply(s, step).breaker.state == Closed <==> Streak(Apply(s, step).outcomes) < FAIL_THRESHOLD
  {
    StepInv(s, step);
  }

  /** The breaker never leaves CLOSED exactly when there are never five failures in a row. */
  lemma {:induction false} ClosedIffShortStreaks(steps: seq<Step>)
    requires Run(START, steps).Some?
    ensures StaysClosed(steps) <==> ShortStreaks(steps)
  {
    if steps != [] {
      var s0 := steps[..|steps| - 1];
      ClosedIffShortStreaks(s0);
      if StaysClosed(s0) {
        CountingInvariant(s0);
        ClosedNext(Run(START, s0).value, steps[|steps| - 1]);
      }
    }
  }

  /** At every moment of the run fewer than `n` calls are inside `_reconnect` or lost there since the last reset. */
  predicate FewerPending(steps: seq<Step>, n: nat)
    requires Run(START, steps).Some?
  {
    var s := Run(START, steps).value;
    |s.reconnecting| + s.lost < n && (steps == [] || FewerPending(steps[..|steps| - 1], n))
  }

  lemma {:induction false} PendingBoundsStreaks(steps: seq<Step>)
    requires Run(START, steps).Some? && FewerPending(steps, FAIL_THRESHOLD)
    ensures ShortStreaks(steps)
  {
    CountingInvariant(steps);
    FailuresPending(steps);
    if steps != [] { PendingBoundsStreaks(steps[..|steps| - 1]); }
  }

  /** With fewer than five calls reconnecting or lost at a time the breaker never leaves CLOSED. */
  lemma FewCallersStayClosed(steps: seq<Step>)
    requires Run(START, steps).Some? && FewerPending(steps, FAIL_THRESHOLD)
    ensures StaysClosed(steps)
  {
    PendingBoundsStreaks(steps);
    ClosedIffShortStreaks(steps);
  }

  // ----- the three states, step by step

  /** A closed circuit opens exactly on the fifth failure in a row, whoever reports it. */
  lemma OpensOnFifthFailure(s: State, step: Step)
    requires Inv(s) && Enabled(s, step) && s.breaker.state == Closed
    ensures var s' := Apply(s, step);
      && (s'.breaker.state != Closed <==> step.CommandFails? && Streak(s.outcomes) == FAIL_THRESHOLD - 1)
      && (s'.breaker.state != Closed ==> s'.breaker.state == Open && |s'.reconnecting| + s'.lost >= FAIL_THRESHOLD)
  {
    StepInv(s, step);
    SplitCount(Apply(s, step).recent, Apply(s, step).reconnecting);
  }

  /** An open circuit turns a call away exactly within `RESET_AFTER` of the last failure, and only a probe or a reconnect ends that. */
  lemma OpenRejects(s: State, step: Step)
    requires Inv(s) && Enabled(s, step) && s.breaker.state == Open
    ensures var s' := Apply(s, step);
      && (step.Start? ==> (step.id in s'.commanding <==> step.now - s.breaker.lastFailure >= RESET_AFTER))
      && (s'.breaker.state == HalfOpen <==> step.Start? && step.id in s'.commanding)
      && (s'.breaker.state == Closed <==> step.PingOk?)
  {
  }

  /**
   A half-open circuit admits every call and is changed by none; it closes exactly on a success or a reconnect, and opens
   exactly on a failure that is at least the fifth in a row.
   */
  lemma HalfOpenSteps(s: State, step: Step)
    requires Inv(s) && Enabled(s, step) && s.breaker.state == HalfOpen
    ensures var s' := Apply(s, step);
      && (step.Start? ==> step.id in s'.commanding && s'.breaker == s.breaker)
      && (s'.breaker.state == Closed <==> step.CommandOk? || step.RetryOk? || step.PingOk?)
      && (s'.breaker.state == Open <==> step.CommandFails? && Streak(s.outcomes) >= FAIL_THRESHOLD - 1)
  {
  }

  // ----- probes

  /** At every moment of the run a half-open circuit has at most one command in flight. */
  predicate OneProbe(steps: seq<Step>)
    requires Run(START, steps).Some?
  {
    var s := Run(START, steps).value;
    && (s.breaker.state == HalfOpen ==> |s.commanding| <= 1)
    && (steps == [] || OneProbe(steps[..|steps| - 1]))
  }

  /** No call of the run that finds or makes the circuit half open starts while a command is in flight. */
  predicate NoOverlap(steps: seq<Step>)
    requires Run(START, steps).Some?
  {
    steps == []
    || (&& NoOverlap(steps[..|steps| - 1])
        && (steps[|steps| - 1].Start? && Run(START, steps).value.breaker.state == HalfOpen
            ==> Run(START, steps[..|steps| - 1]).value.commanding == {}))
  }

  lemma ProbeStep(s: State, step: Step)
    requires Inv(s) && Enabled(s, step) && Apply(s, step).breaker.state == HalfOpen
    ensures var s' := Apply(s, step);
      && (step.Start? ==> |s'.commanding| == |s.commanding| + 1)
      && (!step.Start? ==> s.breaker.state == HalfOpen && |s'.commanding| <= |s.commanding|)
  {
    if step.Start? {
      assert step.id !in s.commanding;
    } else {
      var s' := Apply(s, step);
      assert s'.commanding <= s.commanding;
      SplitCount(s'.commanding, s.commanding);
    }
  }

  /** HALF_OPEN means one probe if and only if no probe is started while a command is in flight: nothing enforces it. */
  lemma {:induction false} OneProbeIffNoOverlap(steps: seq<Step>)
    requires Run(START, steps).Some?
    ensures OneProbe(steps) <==> NoOverlap(steps)
  {
    if steps != [] {
      var s0 := steps[..|steps| - 1];
      OneProbeIffNoOverlap(s0);
      CountingInvariant(s0);
      if Run(START, steps).value.breaker.state == HalfOpen {
        ProbeStep(Run(START, s0).value, steps[|steps| - 1]);
        assert |Run(START, s0).value.commanding| == 0 <==> Run(START, s0).value.commanding == {};
      }
    }
  }

  // ----- runs that show what the comments do not say

  lemma Extend(steps: seq<Step>, step: Step)
    requires Run(START, steps).Some? && Enabled(Run(START, steps).value, step)
    ensures Run(START, steps + [step]) == Some(Apply(Run(START, steps).value, step))
  {
    assert (steps + [step])[..|steps|] == steps;
  }

  function Failures(n: nat): seq<Outcome> { if n == 0 then [] else Failures(n - 1) + [Failure] }

  function Ids(from: nat, n: nat): set<nat> { if n == 0 then {} else Ids(from, n - 1) + {from + n} }

  lemma {:induction false} IdsAre(from: nat, n: nat)
    ensures forall id :: id in Ids(from, n) <==> from < id <= from + n
    ensures |Ids(from, n)| == n
  {
    if n > 0 { IdsAre(from, n - 1); }
  }

  /** A fresh breaker after `n` failures at time 0. */
  function FailedAtZero(n: nat): Breaker { Breaker(if n >= FAIL_THRESHOLD then Open else Closed, n, 0.0) }

  /** `n` calls that were admitted and then all failed at time 0. */
  function Outage(n: nat): seq<Step> {
    if n == 0 then [] else Outage(n - 1) + [Start(n, 0.0)] + [CommandFails(n, 0.0)]
  }

  function AfterOutage(n: nat): State { State(FailedAtZero(n), {}, Ids(0, n), {}, Failures(n), Ids(0, n), 0) }

  lemma OutageStep(n: nat)
    requires 0 < n <= FAIL_THRESHOLD
    ensures var s := Apply(AfterOutage(n - 1), Start(n, 0.0));
      && Enabled(AfterOutage(n - 1), Start(n, 0.0)) && Enabled(s, CommandFails(n, 0.0))
      && Apply(s, CommandFails(n, 0.0)) == AfterOutage(n)
  {
    IdsAre(0, n - 1);
    assert {n} - {n} == {};
  }

  lemma {:induction false} OutageState(n: nat)
    requires n <= FAIL_THRESHOLD
    ensures Run(START, Outage(n)) == Some(AfterOutage(n))
  {
    if n > 0 {
      OutageState(n - 1);
      OutageStep(n);
      Extend(Outage(n - 1), Start(n, 0.0));
      Extend(Outage(n - 1) + [Start(n, 0.0)], CommandFails(n, 0.0));
    }
  }

  /** An outage, and `n` calls that start a minute later. */
  function Probing(n: nat): seq<Step> {
    if n == 0 then Outage(FAIL_THRESHOLD) else Probing(n - 1) + [Start(FAIL_THRESHOLD + n, 60.0)]
  }

  function AfterProbing(n: nat): State {
    AfterOutage(FAIL_THRESHOLD).(
      breaker := Breaker(if n == 0 then Open else HalfOpen, FAIL_THRESHOLD, 0.0),
      commanding := Ids(FAIL_THRESHOLD, n))
  }

  lemma {:induction false} NotAnId(from: nat, n: nat, id: nat)
    requires id <= from || from + n < id
    ensures id !in Ids(from, n)
  {
    if n > 0 { NotAnId(from, n - 1, id); }
  }

  lemma ProbeAdmitted(s: State, id: nat, now: real)
    requires id !in InFlight(s) && s.breaker.state != Closed && now - s.breaker.lastFailure >= RESET_AFTER
    ensures Enabled(s, Start(id, now))
    ensures Apply(s, Start(id, now)) == s.(breaker := s.breaker.(state := HalfOpen), commanding := s.commanding + {id})
  {
  }

  lemma ProbingStep(n: nat)
    requires n > 0
    ensures Enabled(AfterProbing(n - 1), Start(FAIL_THRESHOLD + n, 60.0))
    ensures Apply(AfterProbing(n - 1), Start(FAIL_THRESHOLD + n, 60.0)) == AfterProbing(n)
  {
    NotAnId(0, FAIL_THRESHOLD, FAIL_THRESHOLD + n);
    NotAnId(FAIL_THRESHOLD, n - 1, FAIL_THRESHOLD + n);
    ProbeAdmitted(AfterProbing(n - 1), FAIL_THRESHOLD + n, 60.0);
  }

  /** Any number of calls can probe at once: for every `n` a run has `n` commands in flight while the circuit is half open. */
  lemma {:induction false} ManyProbes(n: nat)
    ensures Run(START, Probing(n)) == Some(AfterProbing(n))
    ensures |AfterProbing(n).commanding| == n
  {
    IdsAre(FAIL_THRESHOLD, n);
    if n == 0 {
      OutageState(FAIL_THRESHOLD);
      assert Ids(FAIL_THRESHOLD, 0) == {};
    } else {
      ManyProbes(n - 1);
      ProbingStep(n);
      Extend(Probing(n - 1), Start(FAIL_THRESHOLD + n, 60.0));
    }
  }

  /** Two probes of which one fails and one succeeds, and a third that fails another minute later. */
  function ThirdProbeFails(): seq<Step> {
    Probing(2) + [CommandFails(6, 60.0)] + [CommandOk(7)] + [Start(8, 120.0)] + [CommandFails(8, 120.0)]
  }

  /** What the two probes leave: the success clears the failures, but the circuit is open by then and stays so. */
  lemma OpenWithoutFailures(s: State)
    requires s.breaker == Breaker(HalfOpen, FAIL_THRESHOLD, 0.0) && 6 in s.commanding && 7 in s.commanding
    requires 8 !in InFlight(s)
    ensures var s1 := Apply(s, CommandFails(6, 60.0)); var s2 := Apply(s1, CommandOk(7));
      var s3 := Apply(s2, Start(8, 120.0)); var s4 := Apply(s3, CommandFails(8, 120.0));
      && Enabled(s, CommandFails(6, 60.0)) && Enabled(s1, CommandOk(7))
      && Enabled(s2, Start(8, 120.0)) && Enabled(s3, CommandFails(8, 120.0))
      && s1.breaker.state == Open && s2.breaker == Breaker(Open, 0, 60.0)
      && s3.breaker.state == HalfOpen && s4.breaker == Breaker(HalfOpen, 1, 120.0)
  {
  }

  /** A failed probe need not open the circuit again: in this run the third one leaves it half open. */
  lemma FailedProbeStaysHalfOpen()
    ensures Run(START, ThirdProbeFails()).Some?
    ensures Run(START, ThirdProbeFails()).value.breaker == Breaker(HalfOpen, 1, 120.0)
  {
    ManyProbes(2);
    var s := AfterProbing(2);
    IdsAre(FAIL_THRESHOLD, 2);
    NotAnId(0, FAIL_THRESHOLD, 8);
    OpenWithoutFailures(s);
    var p := Probing(2);
    Extend(p, CommandFails(6, 60.0));
    Extend(p + [CommandFails(6, 60.0)], CommandOk(7));
    Extend(p + [CommandFails(6, 60.0)] + [CommandOk(7)], Start(8, 120.0));
    Extend(p + [CommandFails(6, 60.0)] + [CommandOk(7)] + [Start(8, 120.0)], CommandFails(8, 120.0));
  }

  /** `n` calls, one at a time, each cancelled while it reconnects. */
  function CancelledOutage(n: nat): seq<Step> {
    if n == 0 then [] else CancelledOutage(n - 1) + [Start(n, 0.0)] + [CommandFails(n, 0.0)] + [Cancel(n)]
  }

  function AfterCancelled(n: nat): State { State(FailedAtZero(n), {}, {}, {}, Failures(n), {}, n) }

  lemma CancelledStep(n: nat)
    requires 0 < n <= FAIL_THRESHOLD
    ensures var s := Apply(AfterCancelled(n - 1), Start(n, 0.0)); var s' := Apply(s, CommandFails(n, 0.0));
      && Enabled(AfterCancelled(n - 1), Start(n, 0.0)) && Enabled(s, CommandFails(n, 0.0)) && Enabled(s', Cancel(n))
      && Apply(s', Cancel(n)) == AfterCancelled(n)
  {
    assert {n} - {n} == {};
  }

  /** One caller at a time is enough to open the circuit, when each is cancelled: five are then lost and none reconnects. */
  lemma {:induction false} CancelledCallersOpen(n: nat)
    requires n <= FAIL_THRESHOLD
    ensures Run(START, CancelledOutage(n)) == Some(AfterCancelled(n))
    ensures AfterCancelled(FAIL_THRESHOLD).breaker.state == Open && InFlight(AfterCancelled(n)) == {}
  {
    if n > 0 {
      CancelledCallersOpen(n - 1);
      CancelledStep(n);
      var before := CancelledOutage(n - 1);
      Extend(before, Start(n, 0.0));
      Extend(before + [Start(n, 0.0)], CommandFails(n, 0.0));
      Extend(before + [Start(n, 0.0)] + [CommandFails(n, 0.0)], Cancel(n));
    }
  }
}

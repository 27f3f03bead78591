/** network/plugins/pool.rs's `CircuitBreaker`: its three-state machine is a function of the events it
    has seen. Instants are parameters and never run backwards. */
module CircuitBreaker {
  import opened Prelude

  datatype State = Closed | Open | HalfOpen

  datatype Event = Attempt(at: nat) | Success(at: nat) | Failure(at: nat)

  datatype Config = Config(maxFailures: nat, resetTimeout: nat)

  // ---------- What the history says ----------

  /** One failure opens a breaker configured with 0. */
  function Threshold(c: Config): nat {
    if c.maxFailures == 0 then 1 else c.maxFailures
  }

  ghost function FailuresSinceSuccess(h: seq<Event>): nat {
    if h == [] then 0
    else
      match h[|h| - 1]
      case Attempt(_) => FailuresSinceSuccess(h[..|h| - 1])
      case Success(_) => 0
      case Failure(_) => FailuresSinceSuccess(h[..|h| - 1]) + 1
  }

  ghost function LastFailure(h: seq<Event>): Option<nat> {
    if h == [] then None
    else if h[|h| - 1].Failure? then Some(h[|h| - 1].at)
    else LastFailure(h[..|h| - 1])
  }

  ghost function Clock(h: seq<Event>): nat {
    if h == [] then 0 else h[|h| - 1].at
  }

  ghost predicate Nondecreasing(h: seq<Event>) {
    forall i, j :: 0 <= i < j < |h| ==> h[i].at <= h[j].at
  }

  /** Attempts pass while the failures since the last success are below the threshold, and again once
      the reset timeout has gone by since the last failure. */
  ghost predicate Admits(c: Config, h: seq<Event>, now: nat) {
    || FailuresSinceSuccess(h) < Threshold(c)
    || (LastFailure(h).Some? && now - LastFailure(h).value >= c.resetTimeout)
  }

  // ---------- The machine ----------

  datatype Breaker = Breaker(state: State, failureCount: nat, lastFailure: Option<nat>)

  const NEW := Breaker(Closed, 0, None)

  function Attempted(c: Config, b: Breaker, now: nat): (Breaker, bool) {
    match b.state
    case Closed => (b, true)
    case Open =>
      if b.lastFailure.Some? && now - b.lastFailure.value >= c.resetTimeout then (b.(state := HalfOpen), true)
      else (b, false)
    case HalfOpen => (b, true)
  }

  function Succeeded(b: Breaker): Breaker {
    b.(state := Closed, failureCount := 0)
  }

  function Failed(c: Config, b: Breaker, now: nat): Breaker {
    var n := b.failureCount + 1;
    Breaker(if n >= c.maxFailures then Open else if b.state == HalfOpen then Open else b.state, n, Some(now))
  }

  ghost function Step(c: Config, b: Breaker, e: Event): Breaker {
    match e
    case Attempt(at) => Attempted(c, b, at).0
    case Success(_) => Succeeded(b)
    case Failure(at) => Failed(c, b, at)
  }

  ghost function After(c: Config, h: seq<Event>): Breaker {
    if h == [] then NEW else Step(c, After(c, h[..|h| - 1]), h[|h| - 1])
  }

  // ---------- The machine is its history ----------

  /** The fields as the history determines them. */
  ghost predicate Mirrors(c: Config, b: Breaker, h: seq<Event>) {
    && b.failureCount == FailuresSinceSuccess(h)
    && b.lastFailure == LastFailure(h)
    && (b.state == Closed <==> FailuresSinceSuccess(h) < Threshold(c))
    && (b.state == HalfOpen ==> b.lastFailure.Some? && Clock(h) - b.lastFailure.value >= c.resetTimeout)
    && (b.lastFailure.None? ==> b.failureCount == 0)
    && (b.lastFailure.Some? ==> b.lastFailure.value <= Clock(h))
  }

  lemma StepMirrors(c: Config, b: Breaker, h: seq<Event>, e: Event)
    requires Mirrors(c, b, h) && Clock(h) <= e.at
    ensures Mirrors(c, Step(c, b, e), h + [e])
  {
  }

  lemma {:induction false} BreakerIsItsHistory(c: Config, h: seq<Event>)
    requires Nondecreasing(h)
    ensures Mirrors(c, After(c, h), h)
  {
    if h != [] {
      var g := h[..|h| - 1];
      BreakerIsItsHistory(c, g);
      assert h == g + [h[|h| - 1]];
      StepMirrors(c, After(c, g), g, h[|h| - 1]);
    }
  }

  /** `can_attempt` answers what the history says. */
  lemma AdmissionIsItsHistory(c: Config, h: seq<Event>, now: nat)
    requires Nondecreasing(h) && Clock(h) <= now
    ensures Attempted(c, After(c, h), now).1 <==> Admits(c, h, now)
  {
    BreakerIsItsHistory(c, h);
  }

  /** An open breaker always knows its last failure, and a failure in the half-open state has already
      reached the limit, so the branch of `on_failure` that reopens below the limit is never taken. */
  lemma OpenKnowsFailureAndHalfOpenArmIsDead(c: Config, h: seq<Event>)
    requires Nondecreasing(h)
    ensures After(c, h).state == Open ==> After(c, h).lastFailure.Some?
    ensures After(c, h).state == HalfOpen ==> After(c, h).failureCount + 1 >= c.maxFailures
  {
    BreakerIsItsHistory(c, h);
  }

  // ---------- The object ----------

  class CircuitBreaker {
    var state: State
    var failureCount: nat
    const config: Config
    var lastFailure: Option<nat>
    var lastStateChange: nat
    ghost var history: seq<Event>

    ghost function Machine(): Breaker
      reads this
    {
      Breaker(state, failureCount, lastFailure)
    }

    ghost predicate Valid()
      reads this
    {
      Nondecreasing(history) && Mirrors(config, Machine(), history)
    }

    constructor (config: Config, now: nat)
      ensures Valid() && history == [] && this.config == config
    {
      state := Closed;
      failureCount := 0;
      this.config := config;
      lastFailure := None;
      lastStateChange := now;
      history := [];
    }

    method CanAttempt(now: nat) returns (ok: bool)
      requires Valid() && Clock(history) <= now
      modifies this
      ensures Valid() && history == old(history) + [Attempt(now)]
      ensures ok <==> Admits(config, old(history), now)
      ensures lastStateChange == if state != old(state) then now else old(lastStateChange)
    {
      StepMirrors(config, Machine(), history, Attempt(now));
      history := history + [Attempt(now)];
      match state {
        case Closed => ok := true;
        case Open =>
          if lastFailure.Some? {
            if now - lastFailure.value >= config.resetTimeout {
              state := HalfOpen;
              lastStateChange := now;
              ok := true;
            } else {
              ok := false;
            }
          } else {
            ok := false;
          }
        case HalfOpen => ok := true;
      }
    }

    method OnSuccess(now: nat)
      requires Valid() && Clock(history) <= now
      modifies this
      ensures Valid() && history == old(history) + [Success(now)] && lastStateChange == now
    {
      StepMirrors(config, Machine(), history, Success(now));
      history := history + [Success(now)];
      state := Closed;
      failureCount := 0;
      lastStateChange := now;
    }

    method OnFailure(now: nat)
      requires Valid() && Clock(history) <= now
      modifies this
      ensures Valid() && history == old(history) + [Failure(now)]
      ensures lastStateChange == if state == Open then now else old(lastStateChange)
    {
      StepMirrors(config, Machine(), history, Failure(now));
      history := history + [Failure(now)];
      failureCount := failureCount + 1;
      lastFailure := Some(now);
      if failureCount >= config.maxFailures {
        state := Open;
        lastStateChange := now;
      } else if state == HalfOpen {
        // the arm that reopens below the limit: a half-open breaker has already reached it
        assert false;
      }
    }
  }
}

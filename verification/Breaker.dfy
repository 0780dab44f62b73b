/** The circuit breaker: its atomic operations, the object that performs them, and the
    state machine over its events. */
module Breaker {
  import opened Basics

  datatype CircuitState = Closed | Open | HalfOpen

  datatype Config = Config(failureThreshold: nat, successThreshold: nat, openDuration: nat) {
    /** A threshold of zero acts as one: counts are compared after they are raised. */
    function Trip(): nat { Max(1, failureThreshold) }

    function Recovery(): nat { Max(1, successThreshold) }
  }

  datatype State = State(
    circuit: CircuitState,
    failures: nat,
    successes: nat,
    lastFailure: Option<nat>)

  const INIT := State(Closed, 0, 0, None)

  predicate Allows(cfg: Config, s: State, now: nat) {
    match s.circuit
    case Closed => true
    case HalfOpen => true
    case Open => s.lastFailure.Some? && s.lastFailure.value + cfg.openDuration <= now
  }

  function AllowRequest(cfg: Config, s: State, now: nat): State {
    if s.circuit.Open? && Allows(cfg, s, now) then s.(circuit := HalfOpen, successes := 0) else s
  }

  function RecordSuccess(cfg: Config, s: State): State {
    match s.circuit
    case Closed => s.(failures := 0)
    case Open => s
    case HalfOpen =>
      if s.successes + 1 >= cfg.successThreshold then s.(circuit := Closed, failures := 0, successes := 0)
      else s.(successes := s.successes + 1)
  }

  function RecordFailure(cfg: Config, s: State, now: nat): State {
    match s.circuit
    case Closed =>
      var s' := s.(failures := s.failures + 1);
      if s'.failures >= cfg.failureThreshold then s'.(circuit := Open, lastFailure := Some(now)) else s'
    case Open => s
    case HalfOpen => s.(circuit := Open, successes := 0, lastFailure := Some(now))
  }

  class CircuitBreaker {
    const config: Config
    var circuit: CircuitState
    var failureCount: nat
    var successCount: nat
    var lastFailureTime: Option<nat>

    ghost function Model(): State
      reads this
    {
      State(circuit, failureCount, successCount, lastFailureTime)
    }

    constructor (config: Config)
      ensures Model() == INIT && this.config == config
    {
      this.config := config;
      circuit, failureCount, successCount, lastFailureTime := Closed, 0, 0, None;
    }

    method Allow(now: nat) returns (allowed: bool)
      modifies this
      ensures Model() == AllowRequest(config, old(Model()), now)
      ensures allowed <==> Allows(config, old(Model()), now)
    {
      match circuit
      case Closed => allowed := true;
      case HalfOpen => allowed := true;
      case Open =>
        allowed := lastFailureTime.Some? && lastFailureTime.value + config.openDuration <= now;
        if allowed {
          circuit := HalfOpen;
          successCount := 0;
        }
    }

    method Success()
      modifies this
      ensures Model() == RecordSuccess(config, old(Model()))
    {
      match circuit
      case Closed => failureCount := 0;
      case Open =>
      case HalfOpen =>
        successCount := successCount + 1;
        if successCount >= config.successThreshold {
          circuit := Closed;
          failureCount := 0;
          successCount := 0;
        }
    }

    method Failure(now: nat)
      modifies this
      ensures Model() == RecordFailure(config, old(Model()), now)
    {
      match circuit
      case Closed =>
        failureCount := failureCount + 1;
        if failureCount >= config.failureThreshold {
          circuit := Open;
          lastFailureTime := Some(now);
        }
      case Open =>
      case HalfOpen =>
        circuit := Open;
        lastFailureTime := Some(now);
        successCount := 0;
    }

    method Reset()
      modifies this
      ensures Model() == INIT
    {
      circuit := Closed;
      failureCount := 0;
      successCount := 0;
      lastFailureTime := None;
    }
  }

  // ---------------------------------------------------------------- runs

  datatype Event =
    | Ask(at: nat)
    | Succeed(at: nat)
    | Fail(at: nat)
    | Reset(at: nat)

  function Step(cfg: Config, s: State, e: Event): State {
    match e
    case Ask(now) => AllowRequest(cfg, s, now)
    case Succeed(_) => RecordSuccess(cfg, s)
    case Fail(now) => RecordFailure(cfg, s, now)
    case Reset(_) => INIT
  }

  /** A run: events in the order of a monotone clock, and the states between them. */
  ghost predicate IsRun(cfg: Config, es: seq<Event>, ss: seq<State>) {
    && |ss| == |es| + 1
    && ss[0] == INIT
    && (forall i :: 0 <= i < |es| ==> ss[i + 1] == Step(cfg, ss[i], es[i]))
    && (forall i, j :: 0 <= i <= j < |es| ==> es[i].at <= es[j].at)
  }

  /** The i-th event opens the breaker. */
  ghost predicate Opens(es: seq<Event>, ss: seq<State>, i: nat)
    requires |ss| == |es| + 1 && i < |es|
  {
    !ss[i].circuit.Open? && ss[i + 1].circuit.Open?
  }

  ghost predicate NoReset(es: seq<Event>, i: nat, j: nat)
    requires i <= j <= |es|
  {
    forall m :: i <= m < j ==> !es[m].Reset?
  }
}

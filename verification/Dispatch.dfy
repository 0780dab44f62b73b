/** Dispatching to one outbound: ask the breaker, run the retry loop, record the outcome. */
module Dispatch {
  import opened Basics
  import opened Breaker
  import opened Retry

  /** The breaker after a dispatch whose retry loop ends with `connected` at `finish`. */
  function AfterDispatch(cfg: Config, s: State, connected: bool, start: nat, finish: nat): State {
    var s' := AllowRequest(cfg, s, start);
    if !Allows(cfg, s, start) then s'
    else if connected then RecordSuccess(cfg, s')
    else RecordFailure(cfg, s', finish)
  }

  /** `connect` gives the outcome of each connection attempt. */
  method Dispatch<T, E>(cb: CircuitBreaker, p: RetryPolicy, connect: nat -> Result<T, E>, start: nat, finish: nat)
    returns (stream: Option<T>, attempts: nat)
    requires start <= finish
    modifies cb
    ensures cb.Model() == AfterDispatch(cb.config, old(cb.Model()), stream.Some?, start, finish)
    ensures attempts == 0 <==> !Allows(cb.config, old(cb.Model()), start)
    ensures attempts <= p.maxRetries + 1
    ensures stream.Some? <==> attempts > 0 && connect(attempts - 1).Ok?
    ensures stream.Some? ==> Ok(stream.value) == connect(attempts - 1)
    ensures stream.None? ==> attempts == 0 || attempts == p.maxRetries + 1
    ensures forall i :: 0 <= i < attempts - 1 ==> connect(i).Err?
  {
    stream, attempts := None, 0;
    var allowed := cb.Allow(start);
    if allowed {
      var outcome, calls, slept := RetryWithBackoff(p, connect);
      attempts := calls;
      match outcome
      case Ok(v) =>
        cb.Success();
        stream := Some(v);
      case Err(_) =>
        cb.Failure(finish);
    }
  }

  // ---------------------------------------------------------------- an outbound that never connects

  datatype Request = Request(start: nat, finish: nat)

  /** Dispatches one after the other, none of which ever connects. */
  ghost predicate IsFailingRun(cfg: Config, rs: seq<Request>, ss: seq<State>) {
    && |ss| == |rs| + 1
    && ss[0] == INIT
    && (forall i :: 0 <= i < |rs| ==>
          && rs[i].start <= rs[i].finish
          && ss[i + 1] == AfterDispatch(cfg, ss[i], false, rs[i].start, rs[i].finish))
    && (forall i, j :: 0 <= i < j < |rs| ==> rs[i].finish <= rs[j].start)
  }

  ghost function Admitted(cfg: Config, rs: seq<Request>, ss: seq<State>, k: nat): nat
    requires |ss| == |rs| + 1 && k <= |rs|
  {
    if k == 0 then 0
    else Admitted(cfg, rs, ss, k - 1) + if Allows(cfg, ss[k - 1], rs[k - 1].start) then 1 else 0
  }

  /** Connection attempts of the first `k` dispatches: every admitted one uses up its retries. */
  ghost function Attempts(cfg: Config, p: RetryPolicy, rs: seq<Request>, ss: seq<State>, k: nat): nat
    requires |ss| == |rs| + 1 && k <= |rs|
  {
    if k == 0 then 0
    else Attempts(cfg, p, rs, ss, k - 1)
         + if Allows(cfg, ss[k - 1], rs[k - 1].start) then p.maxRetries + 1 else 0
  }

  /** When the breaker first opened, if it did among the first `k` dispatches. */
  ghost function FirstOpening(rs: seq<Request>, ss: seq<State>, k: nat): Option<nat>
    requires |ss| == |rs| + 1 && k <= |rs|
  {
    if k == 0 then None
    else if FirstOpening(rs, ss, k - 1).Some? then FirstOpening(rs, ss, k - 1)
    else if ss[k].circuit.Open? then Some(rs[k - 1].finish)
    else None
  }

  ghost predicate Shape(cfg: Config, rs: seq<Request>, ss: seq<State>, k: nat)
    requires |ss| == |rs| + 1 && k <= |rs|
  {
    var s, n, first := ss[k], Admitted(cfg, rs, ss, k), FirstOpening(rs, ss, k);
    match s.circuit
    case Closed => s.failures == n < cfg.Trip() && first.None?
    case HalfOpen => false
    case Open =>
      && cfg.Trip() <= n && first.Some? && s.lastFailure.Some?
      && first.value + cfg.openDuration * (n - cfg.Trip()) <= s.lastFailure.value
  }

  lemma {:induction false} FailingShape(cfg: Config, rs: seq<Request>, ss: seq<State>, k: nat)
    requires IsFailingRun(cfg, rs, ss) && k <= |rs|
    ensures Shape(cfg, rs, ss, k)
    decreases k
  {
    if k > 0 {
      FailingShape(cfg, rs, ss, k - 1);
      var s, r := ss[k - 1], rs[k - 1];
      assert ss[k] == AfterDispatch(cfg, s, false, r.start, r.finish);
      if s.circuit.Open? && Allows(cfg, s, r.start) {
        OneMoreWait(cfg.openDuration, Admitted(cfg, rs, ss, k - 1) - cfg.Trip(),
                    FirstOpening(rs, ss, k - 1).value, s.lastFailure.value, r.start);
      }
    }
  }

  /** Every admission beyond the tolerated failures waited out one more open duration. */
  lemma {:induction false} AdmissionsBounded(cfg: Config, rs: seq<Request>, ss: seq<State>, k: nat, elapsed: nat)
    requires IsFailingRun(cfg, rs, ss) && k <= |rs| && FirstOpening(rs, ss, k).Some?
    requires forall i :: 0 <= i < k ==> rs[i].start <= FirstOpening(rs, ss, k).value + elapsed
    ensures cfg.Trip() <= Admitted(cfg, rs, ss, k)
    ensures cfg.openDuration * (Admitted(cfg, rs, ss, k) - cfg.Trip()) <= elapsed
    decreases k
  {
    FailingShape(cfg, rs, ss, k - 1);
    FailingShape(cfg, rs, ss, k);
    var s, r := ss[k - 1], rs[k - 1];
    assert ss[k] == AfterDispatch(cfg, s, false, r.start, r.finish);
    assert r.start <= FirstOpening(rs, ss, k).value + elapsed;
    if s.circuit.Open? {
      if Allows(cfg, s, r.start) {
        OneMoreWait(cfg.openDuration, Admitted(cfg, rs, ss, k - 1) - cfg.Trip(),
                    FirstOpening(rs, ss, k - 1).value, s.lastFailure.value, r.start);
      } else {
        AdmissionsBounded(cfg, rs, ss, k - 1, elapsed);
      }
    }
  }

  lemma {:induction false} AttemptsAreAdmissions(cfg: Config, p: RetryPolicy, rs: seq<Request>, ss: seq<State>, k: nat)
    requires |ss| == |rs| + 1 && k <= |rs|
    ensures Attempts(cfg, p, rs, ss, k) == (p.maxRetries + 1) * Admitted(cfg, rs, ss, k)
    decreases k
  {
    if k > 0 {
      AttemptsAreAdmissions(cfg, p, rs, ss, k - 1);
      var n := Admitted(cfg, rs, ss, k - 1);
      assert (p.maxRetries + 1) * (n + 1) == (p.maxRetries + 1) * n + (p.maxRetries + 1);
    }
  }

  lemma Quotient(d: nat, n: nat, t: nat)
    requires 0 < d && d * n <= t
    ensures n <= t / d
  {
    assert t < d * (t / d + 1);
    ProductMonotone(d, t / d + 1, n);
  }

  /** Within `elapsed` of the first opening, an outbound that never connects sees at most
      (retries + 1) * (threshold + elapsed / open duration) connection attempts. */
  lemma AttemptsBounded(cfg: Config, p: RetryPolicy, rs: seq<Request>, ss: seq<State>, k: nat, elapsed: nat)
    requires IsFailingRun(cfg, rs, ss) && k <= |rs| && FirstOpening(rs, ss, k).Some? && 0 < cfg.openDuration
    requires forall i :: 0 <= i < k ==> rs[i].start <= FirstOpening(rs, ss, k).value + elapsed
    ensures Attempts(cfg, p, rs, ss, k) <= (p.maxRetries + 1) * (cfg.Trip() + elapsed / cfg.openDuration)
  {
    AdmissionsBounded(cfg, rs, ss, k, elapsed);
    Quotient(cfg.openDuration, Admitted(cfg, rs, ss, k) - cfg.Trip(), elapsed);
    AttemptsAreAdmissions(cfg, p, rs, ss, k);
    ProductMonotone(p.maxRetries + 1, Admitted(cfg, rs, ss, k), cfg.Trip() + elapsed / cfg.openDuration);
  }

  // ---------------------------------------------------------------- dispatches with any outcome

  /** A dispatch whose connection attempts, if it is admitted, end with `connected`. */
  datatype Outcome = Outcome(start: nat, finish: nat, connected: bool)

  /** Dispatches one after the other on one breaker. */
  ghost predicate IsDispatchRun(cfg: Config, ds: seq<Outcome>, ss: seq<State>) {
    && |ss| == |ds| + 1
    && ss[0] == INIT
    && (forall i :: 0 <= i < |ds| ==>
          && ds[i].start <= ds[i].finish
          && ss[i + 1] == AfterDispatch(cfg, ss[i], ds[i].connected, ds[i].start, ds[i].finish))
    && (forall i, j :: 0 <= i < j < |ds| ==> ds[i].finish <= ds[j].start)
  }

  /** The breaker sees a request and, if it lets it through, one success or one failure. */
  function EventsOf(cfg: Config, s: State, d: Outcome): seq<Event> {
    if !Allows(cfg, s, d.start) then [Ask(d.start)]
    else [Ask(d.start), if d.connected then Succeed(d.finish) else Fail(d.finish)]
  }

  lemma DispatchIsEvents(cfg: Config, s: State, d: Outcome)
    ensures var es, t := EventsOf(cfg, s, d), AfterDispatch(cfg, s, d.connected, d.start, d.finish);
            t == if |es| == 1 then Step(cfg, s, es[0]) else Step(cfg, Step(cfg, s, es[0]), es[1])
  {
  }

  /** All the breaker sees of the first `k` dispatches. */
  ghost function AllEvents(cfg: Config, ds: seq<Outcome>, ss: seq<State>, k: nat): seq<Event>
    requires k <= |ds| < |ss|
  {
    if k == 0 then [] else AllEvents(cfg, ds, ss, k - 1) + EventsOf(cfg, ss[k - 1], ds[k - 1])
  }

  lemma ExtendRun(cfg: Config, es: seq<Event>, ts: seq<State>, e: Event) returns (ts': seq<State>)
    requires IsRun(cfg, es, ts) && !e.Reset? && NoReset(es, 0, |es|)
    requires forall i :: 0 <= i < |es| ==> es[i].at <= e.at
    ensures IsRun(cfg, es + [e], ts') && NoReset(es + [e], 0, |es| + 1)
    ensures ts'[|es| + 1] == Step(cfg, ts[|es|], e)
  {
    ts' := ts + [Step(cfg, ts[|es|], e)];
  }

  /** Every run of dispatches is a run of the breaker, without resets, that ends in the same
      state: what holds of all breaker runs holds of all dispatches. */
  lemma {:induction false} DispatchesAreRuns(cfg: Config, ds: seq<Outcome>, ss: seq<State>, k: nat)
    returns (ts: seq<State>)
    requires IsDispatchRun(cfg, ds, ss) && k <= |ds|
    ensures var es := AllEvents(cfg, ds, ss, k);
            && IsRun(cfg, es, ts) && NoReset(es, 0, |es|) && ts[|es|] == ss[k]
            && forall i :: 0 <= i < |es| ==> k > 0 && es[i].at <= ds[k - 1].finish
    decreases k
  {
    if k == 0 {
      ts := [INIT];
    } else {
      ts := DispatchesAreRuns(cfg, ds, ss, k - 1);
      var before, s, d := AllEvents(cfg, ds, ss, k - 1), ss[k - 1], ds[k - 1];
      var news := EventsOf(cfg, s, d);
      DispatchIsEvents(cfg, s, d);
      ts := ExtendRun(cfg, before, ts, news[0]);
      if |news| == 2 {
        ts := ExtendRun(cfg, before + [news[0]], ts, news[1]);
        assert before + news == before + [news[0]] + [news[1]];
      } else {
        assert before + news == before + [news[0]];
      }
    }
  }

  /** An outbound that always connects keeps its breaker as new and is never refused. */
  lemma {:induction false} AlwaysConnected(cfg: Config, ds: seq<Outcome>, ss: seq<State>, k: nat, now: nat)
    requires IsDispatchRun(cfg, ds, ss) && k <= |ds|
    requires forall i :: 0 <= i < k ==> ds[i].connected
    ensures ss[k] == INIT && Allows(cfg, ss[k], now)
    decreases k
  {
    if k > 0 {
      AlwaysConnected(cfg, ds, ss, k - 1, now);
      assert ss[k] == AfterDispatch(cfg, ss[k - 1], ds[k - 1].connected, ds[k - 1].start, ds[k - 1].finish);
    }
  }
}

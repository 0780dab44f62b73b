/** What every run of the circuit breaker keeps. */
module BreakerLaws {
  import opened Basics
  import opened Breaker

  // ---------------------------------------------------------------- the history behind the fields

  /** Failures recorded among the first `k` events since the last success or reset. */
  function FailuresSince(es: seq<Event>, k: nat): nat
    requires k <= |es|
  {
    if k == 0 || es[k - 1].Succeed? || es[k - 1].Reset? then 0
    else FailuresSince(es, k - 1) + if es[k - 1].Fail? then 1 else 0
  }

  /** Successes recorded since the breaker was last seen open. */
  ghost function SuccessesSinceOpen(es: seq<Event>, ss: seq<State>, k: nat): nat
    requires |ss| == |es| + 1 && k <= |es|
  {
    if k == 0 || ss[k - 1].circuit.Open? then 0
    else SuccessesSinceOpen(es, ss, k - 1) + if es[k - 1].Succeed? then 1 else 0
  }

  /** When the breaker last opened, unless it was reset after that. */
  ghost function LastOpening(es: seq<Event>, ss: seq<State>, k: nat): Option<nat>
    requires |ss| == |es| + 1 && k <= |es|
  {
    if k == 0 || es[k - 1].Reset? then None
    else if Opens(es, ss, k - 1) then Some(es[k - 1].at)
    else LastOpening(es, ss, k - 1)
  }

  ghost predicate Refines(cfg: Config, es: seq<Event>, ss: seq<State>, k: nat)
    requires |ss| == |es| + 1 && k <= |es|
  {
    var s := ss[k];
    && s.lastFailure == LastOpening(es, ss, k)
    && match s.circuit
       case Closed => s.failures == FailuresSince(es, k) < cfg.Trip() && s.successes == 0
       case Open => s.failures == cfg.Trip() && s.successes == 0 && s.lastFailure.Some?
       case HalfOpen =>
         && s.failures == cfg.Trip() && s.lastFailure.Some?
         && s.successes == SuccessesSinceOpen(es, ss, k) < cfg.Recovery()
  }

  /** At every point of every run, each field is the function of the history it stands for. */
  lemma {:induction false} FieldsAreHistory(cfg: Config, es: seq<Event>, ss: seq<State>, k: nat)
    requires IsRun(cfg, es, ss) && k <= |es|
    ensures Refines(cfg, es, ss, k)
    decreases k
  {
    if k > 0 {
      FieldsAreHistory(cfg, es, ss, k - 1);
      assert ss[k] == Step(cfg, ss[k - 1], es[k - 1]);
    }
  }

  /** The breaker opens exactly at a failure that completes the tolerated streak or
      that answers a probe. */
  lemma OpensExactly(cfg: Config, es: seq<Event>, ss: seq<State>, i: nat)
    requires IsRun(cfg, es, ss) && i < |es|
    ensures Opens(es, ss, i) <==>
      && es[i].Fail?
      && (ss[i].circuit.HalfOpen? || (ss[i].circuit.Closed? && FailuresSince(es, i + 1) >= cfg.Trip()))
  {
    FieldsAreHistory(cfg, es, ss, i);
    FieldsAreHistory(cfg, es, ss, i + 1);
    assert ss[i + 1] == Step(cfg, ss[i], es[i]);
  }

  // ---------------------------------------------------------------- openings are spaced

  lemma {:induction false} LastOpeningIsLate(cfg: Config, es: seq<Event>, ss: seq<State>, i: nat, k: nat)
    requires IsRun(cfg, es, ss) && i < k <= |es| && Opens(es, ss, i) && NoReset(es, i, k)
    ensures LastOpening(es, ss, k).Some? && es[i].at <= LastOpening(es, ss, k).value
    decreases k
  {
    if i < k - 1 && !Opens(es, ss, k - 1) {
      LastOpeningIsLate(cfg, es, ss, i, k - 1);
    }
  }

  /** After an opening the breaker stays open until the open duration has passed. */
  lemma {:induction false} StaysOpen(cfg: Config, es: seq<Event>, ss: seq<State>, i: nat, k: nat)
    requires IsRun(cfg, es, ss) && i < k <= |es| && Opens(es, ss, i) && NoReset(es, i, k)
    ensures ss[k].circuit.Open? || es[i].at + cfg.openDuration <= es[k - 1].at
    decreases k
  {
    if i < k - 1 {
      StaysOpen(cfg, es, ss, i, k - 1);
      LastOpeningIsLate(cfg, es, ss, i, k - 1);
      FieldsAreHistory(cfg, es, ss, k - 1);
      assert ss[k] == Step(cfg, ss[k - 1], es[k - 1]);
      assert es[k - 2].at <= es[k - 1].at;
    }
  }

  /** No request is let through within the open duration of an opening. */
  lemma NoEarlyProbe(cfg: Config, es: seq<Event>, ss: seq<State>, i: nat, j: nat)
    requires IsRun(cfg, es, ss) && i < j < |es| && Opens(es, ss, i) && NoReset(es, i, j)
    requires es[j].Ask? && Allows(cfg, ss[j], es[j].at)
    ensures es[i].at + cfg.openDuration <= es[j].at
  {
    StaysOpen(cfg, es, ss, i, j);
    LastOpeningIsLate(cfg, es, ss, i, j);
    FieldsAreHistory(cfg, es, ss, j);
    assert es[j - 1].at <= es[j].at;
  }

  /** A request is refused exactly while the open duration since the last opening has not passed;
      otherwise an open breaker lets it through and turns half-open. */
  lemma AdmittedExactly(cfg: Config, es: seq<Event>, ss: seq<State>, j: nat)
    requires IsRun(cfg, es, ss) && j < |es| && es[j].Ask?
    ensures ss[j].circuit.Open? ==> LastOpening(es, ss, j).Some?
    ensures !Allows(cfg, ss[j], es[j].at)
            <==> ss[j].circuit.Open? && es[j].at < LastOpening(es, ss, j).value + cfg.openDuration
    ensures ss[j].circuit.Open? ==>
              ss[j + 1].circuit == if Allows(cfg, ss[j], es[j].at) then HalfOpen else Open
    ensures !ss[j].circuit.Open? ==> ss[j + 1] == ss[j]
  {
    FieldsAreHistory(cfg, es, ss, j);
    assert ss[j + 1] == Step(cfg, ss[j], es[j]);
  }

  ghost function OpeningsUpTo(es: seq<Event>, ss: seq<State>, k: nat): nat
    requires |ss| == |es| + 1 && k <= |es|
  {
    if k == 0 then 0 else OpeningsUpTo(es, ss, k - 1) + if Opens(es, ss, k - 1) then 1 else 0
  }

  lemma {:induction false} NoOpeningsBetween(es: seq<Event>, ss: seq<State>, i: nat, j: nat)
    requires |ss| == |es| + 1 && i <= j <= |es|
    requires forall m :: i <= m < j ==> !Opens(es, ss, m)
    ensures OpeningsUpTo(es, ss, i) == OpeningsUpTo(es, ss, j)
    decreases j
  {
    if i < j { NoOpeningsBetween(es, ss, i, j - 1); }
  }

  /** Between two openings with no reset between them, every opening costs one open duration. */
  lemma {:induction false} OpeningsAreSpaced(cfg: Config, es: seq<Event>, ss: seq<State>, i: nat, j: nat)
    requires IsRun(cfg, es, ss) && i <= j < |es| && Opens(es, ss, i) && Opens(es, ss, j) && NoReset(es, i, j)
    ensures OpeningsUpTo(es, ss, i) <= OpeningsUpTo(es, ss, j)
    ensures es[i].at + cfg.openDuration * (OpeningsUpTo(es, ss, j) - OpeningsUpTo(es, ss, i)) <= es[j].at
    decreases j
  {
    if i < j {
      var m := PreviousOpening(es, ss, i, j);
      OpeningsAreSpaced(cfg, es, ss, i, m);
      StaysOpen(cfg, es, ss, m, j);
      assert es[j - 1].at <= es[j].at;
      NoOpeningsBetween(es, ss, m + 1, j);
      OneMoreWait(cfg.openDuration, OpeningsUpTo(es, ss, m) - OpeningsUpTo(es, ss, i), es[i].at, es[m].at, es[j].at);
    }
  }

  lemma {:induction false} PreviousOpening(es: seq<Event>, ss: seq<State>, i: nat, j: nat) returns (m: nat)
    requires |ss| == |es| + 1 && i < j <= |es| && Opens(es, ss, i)
    ensures i <= m < j && Opens(es, ss, m) && forall n :: m < n < j ==> !Opens(es, ss, n)
    decreases j
  {
    if Opens(es, ss, j - 1) {
      m := j - 1;
    } else {
      m := PreviousOpening(es, ss, i, j - 1);
    }
  }

  // ---------------------------------------------------------------- recovery

  function CountSuccesses(es: seq<Event>, i: nat, j: nat): nat
    requires i <= j <= |es|
  {
    if i == j then 0 else CountSuccesses(es, i, j - 1) + if es[j - 1].Succeed? then 1 else 0
  }

  /** Events h .. c form a probe phase that starts from open at `h`: half-open throughout,
      and no failure recorded. */
  ghost predicate Probing(es: seq<Event>, ss: seq<State>, h: nat, c: nat)
    requires |ss| == |es| + 1 && h < c <= |es|
  {
    && es[h].Ask? && ss[h].circuit.Open?
    && (forall m :: h < m <= c ==> ss[m].circuit.HalfOpen?)
    && (forall m :: h < m < c ==> !es[m].Fail?)
  }

  lemma {:induction false} ProbeStarted(cfg: Config, es: seq<Event>, ss: seq<State>, i: nat, k: nat) returns (h: nat)
    requires IsRun(cfg, es, ss) && i < k <= |es| && NoReset(es, i, k)
    requires ss[i].circuit.Open? && ss[k].circuit.HalfOpen?
    ensures i <= h < k && Probing(es, ss, h, k) && ss[k].successes == CountSuccesses(es, h + 1, k)
    decreases k
  {
    assert ss[k] == Step(cfg, ss[k - 1], es[k - 1]);
    if ss[k - 1].circuit.Open? {
      h := k - 1;
    } else {
      h := ProbeStarted(cfg, es, ss, i, k - 1);
    }
  }

  /** An open breaker closes again only by a probe phase without a failure that records
      exactly the required number of successes. */
  lemma {:induction false} RecoveryNeedsSuccesses(cfg: Config, es: seq<Event>, ss: seq<State>, i: nat, j: nat)
    returns (h: nat, c: nat)
    requires IsRun(cfg, es, ss) && i < j <= |es| && NoReset(es, i, j)
    requires ss[i].circuit.Open? && ss[j].circuit.Closed?
    ensures i <= h < c < j && Probing(es, ss, h, c)
    ensures es[c].Succeed? && ss[c + 1].circuit.Closed?
    ensures CountSuccesses(es, h + 1, c + 1) == cfg.Recovery()
    decreases j
  {
    assert ss[j] == Step(cfg, ss[j - 1], es[j - 1]);
    if ss[j - 1].circuit.Closed? {
      h, c := RecoveryNeedsSuccesses(cfg, es, ss, i, j - 1);
    } else {
      c := j - 1;
      h := ProbeStarted(cfg, es, ss, i, c);
      FieldsAreHistory(cfg, es, ss, c);
    }
  }
}

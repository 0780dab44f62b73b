/** `reset` writes four fields one after the other and holds the state lock for the first
    only. Other operations, atomic under that lock, may run between the writes. */
module BreakerReset {
  import opened Basics
  import opened Breaker

  function Play(cfg: Config, s: State, es: seq<Event>): State
    decreases |es|
  {
    if es == [] then s else Play(cfg, Step(cfg, s, es[0]), es[1..])
  }

  /** The state right before the last write of a reset with `g1`, `g2`, `g3` running in the
      gaps between its writes. */
  function BeforeLastWrite(cfg: Config, s: State, g1: seq<Event>, g2: seq<Event>, g3: seq<Event>): State {
    var s1 := Play(cfg, s.(circuit := Closed), g1);
    var s2 := Play(cfg, s1.(failures := 0), g2);
    Play(cfg, s2.(successes := 0), g3)
  }

  function RacedReset(cfg: Config, s: State, g1: seq<Event>, g2: seq<Event>, g3: seq<Event>): State {
    BeforeLastWrite(cfg, s, g1, g2, g3).(lastFailure := None)
  }

  /** Open, but with no opening time from which the open duration could be counted. */
  predicate Stuck(s: State) {
    s.circuit.Open? && s.lastFailure.None?
  }

  /** A stuck breaker refuses every request for ever; only another reset helps. */
  lemma {:induction false} StuckForever(cfg: Config, s: State, es: seq<Event>, now: nat)
    requires Stuck(s) && NoReset(es, 0, |es|)
    ensures Play(cfg, s, es) == s && !Allows(cfg, Play(cfg, s, es), now)
    decreases |es|
  {
    if es != [] {
      assert Step(cfg, s, es[0]) == s;
      StuckForever(cfg, s, es[1..], now);
    }
  }

  predicate NoFailures(es: seq<Event>) {
    forall i :: 0 <= i < |es| ==> !es[i].Fail?
  }

  lemma {:induction false} ClosedWithoutFailures(cfg: Config, s: State, es: seq<Event>)
    requires s.circuit.Closed? && NoFailures(es) && NoReset(es, 0, |es|)
    ensures var t := Play(cfg, s, es);
            t.circuit.Closed? && t.successes == s.successes && (t.failures == s.failures || t.failures == 0)
    decreases |es|
  {
    if es != [] {
      ClosedWithoutFailures(cfg, Step(cfg, s, es[0]), es[1..]);
    }
  }

  /** Undisturbed, or disturbed by admissions and successes only, a reset gives the initial state. */
  lemma ResetWithoutFailures(cfg: Config, s: State, g1: seq<Event>, g2: seq<Event>, g3: seq<Event>)
    requires NoFailures(g1) && NoFailures(g2) && NoFailures(g3)
    requires NoReset(g1, 0, |g1|) && NoReset(g2, 0, |g2|) && NoReset(g3, 0, |g3|)
    ensures RacedReset(cfg, s, g1, g2, g3) == INIT
  {
    var s0 := s.(circuit := Closed);
    ClosedWithoutFailures(cfg, s0, g1);
    var s1 := Play(cfg, s0, g1).(failures := 0);
    ClosedWithoutFailures(cfg, s1, g2);
    var s2 := Play(cfg, s1, g2).(successes := 0);
    ClosedWithoutFailures(cfg, s2, g3);
  }

  // ---------------------------------------------------------------- when a reset sticks

  /** The failure streak after the events, for a breaker that stays closed. */
  function Streak(failures: nat, es: seq<Event>): nat
    decreases |es|
  {
    if es == [] then failures
    else if es[0].Fail? then Streak(failures + 1, es[1..])
    else Streak(if es[0].Succeed? then 0 else failures, es[1..])
  }

  /** Somewhere in the events a failure completes the tolerated streak. */
  predicate Trips(cfg: Config, failures: nat, es: seq<Event>)
    decreases |es|
  {
    && es != []
    && if es[0].Fail? then failures + 1 >= cfg.failureThreshold || Trips(cfg, failures + 1, es[1..])
       else Trips(cfg, if es[0].Succeed? then 0 else failures, es[1..])
  }

  /** No request asks as late as the open duration after `since`. */
  predicate HeldOff(cfg: Config, since: nat, es: seq<Event>) {
    forall j :: 0 <= j < |es| && es[j].Ask? ==> es[j].at < since + cfg.openDuration
  }

  /** The reset is over before a failure recorded in it could be followed by a probe. */
  predicate Brief(cfg: Config, es: seq<Event>) {
    forall i, j :: 0 <= i < j < |es| && es[i].Fail? && es[j].Ask? ==> es[j].at < es[i].at + cfg.openDuration
  }

  lemma {:induction false} OpenStays(cfg: Config, s: State, es: seq<Event>)
    requires s.circuit.Open? && s.lastFailure.Some? && NoReset(es, 0, |es|) && HeldOff(cfg, s.lastFailure.value, es)
    ensures Play(cfg, s, es) == s
    decreases |es|
  {
    if es != [] {
      assert Step(cfg, s, es[0]) == s;
      OpenStays(cfg, s, es[1..]);
    }
  }

  lemma {:induction false} ClosedStays(cfg: Config, s: State, es: seq<Event>)
    requires s.circuit.Closed? && NoReset(es, 0, |es|) && !Trips(cfg, s.failures, es)
    ensures Play(cfg, s, es).circuit.Closed? && Play(cfg, s, es).failures == Streak(s.failures, es)
    decreases |es|
  {
    if es != [] {
      ClosedStays(cfg, Step(cfg, s, es[0]), es[1..]);
    }
  }

  lemma BriefRest(cfg: Config, es: seq<Event>, later: seq<Event>)
    requires es != [] && Brief(cfg, es + later)
    ensures Brief(cfg, es[1..] + later)
    ensures es[0].Fail? ==> HeldOff(cfg, es[0].at, es[1..]) && HeldOff(cfg, es[0].at, later)
  {
    var all, rest := es + later, es[1..] + later;
    assert all[0] == es[0];
    assert forall i :: 0 <= i < |rest| ==> rest[i] == all[i + 1];
    assert forall i :: 0 <= i < |es| - 1 ==> es[1..][i] == all[i + 1];
    assert forall i :: 0 <= i < |later| ==> later[i] == all[|es| + i];
  }

  lemma {:induction false} ClosedTrips(cfg: Config, s: State, es: seq<Event>, later: seq<Event>)
    requires s.circuit.Closed? && NoReset(es, 0, |es|) && Brief(cfg, es + later) && Trips(cfg, s.failures, es)
    ensures var t := Play(cfg, s, es);
            t.circuit.Open? && t.lastFailure.Some? && HeldOff(cfg, t.lastFailure.value, later)
    decreases |es|
  {
    BriefRest(cfg, es, later);
    var s' := Step(cfg, s, es[0]);
    if s'.circuit.Open? {
      OpenStays(cfg, s', es[1..]);
    } else {
      ClosedTrips(cfg, s', es[1..], later);
    }
  }

  /** What runs in the gaps completes a streak: the old count goes on in the first gap, and the
      second write starts a new one. */
  predicate TripsInGaps(cfg: Config, failures: nat, g1: seq<Event>, g2: seq<Event>, g3: seq<Event>) {
    Trips(cfg, failures, g1) || Trips(cfg, 0, g2) || Trips(cfg, Streak(0, g2), g3)
  }

  lemma UntrippedReset(cfg: Config, s: State, g1: seq<Event>, g2: seq<Event>, g3: seq<Event>)
    requires NoReset(g1, 0, |g1|) && NoReset(g2, 0, |g2|) && NoReset(g3, 0, |g3|)
    requires !TripsInGaps(cfg, s.failures, g1, g2, g3)
    ensures RacedReset(cfg, s, g1, g2, g3).circuit.Closed?
  {
    var s1 := s.(circuit := Closed);
    ClosedStays(cfg, s1, g1);
    var s2 := Play(cfg, s1, g1).(failures := 0);
    ClosedStays(cfg, s2, g2);
    ClosedStays(cfg, Play(cfg, s2, g2).(successes := 0), g3);
  }

  lemma TrippedReset(cfg: Config, s: State, g1: seq<Event>, g2: seq<Event>, g3: seq<Event>)
    requires NoReset(g1, 0, |g1|) && NoReset(g2, 0, |g2|) && NoReset(g3, 0, |g3|)
    requires TripsInGaps(cfg, s.failures, g1, g2, g3)
    requires Brief(cfg, g1 + (g2 + g3)) && Brief(cfg, g2 + g3) && Brief(cfg, g3 + [])
    ensures RacedReset(cfg, s, g1, g2, g3).circuit.Open?
  {
    var s1 := s.(circuit := Closed);
    var s2 := Play(cfg, s1, g1).(failures := 0);
    var s3 := Play(cfg, s2, g2).(successes := 0);
    if Trips(cfg, s.failures, g1) {
      ClosedTrips(cfg, s1, g1, g2 + g3);
      HeldOffParts(cfg, s2.lastFailure.value, g2, g3);
      OpenStays(cfg, s2, g2);
      OpenStays(cfg, s3, g3);
    } else {
      ClosedStays(cfg, s1, g1);
      if Trips(cfg, 0, g2) {
        ClosedTrips(cfg, s2, g2, g3);
        OpenStays(cfg, s3, g3);
      } else {
        ClosedStays(cfg, s2, g2);
        ClosedTrips(cfg, s3, g3, []);
      }
    }
  }

  lemma HeldOffParts(cfg: Config, since: nat, es: seq<Event>, later: seq<Event>)
    requires HeldOff(cfg, since, es + later)
    ensures HeldOff(cfg, since, es) && HeldOff(cfg, since, later)
  {
    assert forall i :: 0 <= i < |es| ==> es[i] == (es + later)[i];
    assert forall i :: 0 <= i < |later| ==> later[i] == (es + later)[|es| + i];
  }

  lemma BriefParts(cfg: Config, es: seq<Event>, later: seq<Event>)
    requires Brief(cfg, es + later)
    ensures Brief(cfg, later)
  {
    assert forall i :: 0 <= i < |later| ==> later[i] == (es + later)[|es| + i];
  }

  /** Whatever runs in the three gaps, a reset leaves the breaker stuck only if a failure in a
      gap completes a streak, and exactly then if no probe can follow within the reset. */
  lemma ResetSticksExactly(cfg: Config, s: State, g1: seq<Event>, g2: seq<Event>, g3: seq<Event>)
    requires NoReset(g1, 0, |g1|) && NoReset(g2, 0, |g2|) && NoReset(g3, 0, |g3|)
    ensures Stuck(RacedReset(cfg, s, g1, g2, g3)) ==> TripsInGaps(cfg, s.failures, g1, g2, g3)
    ensures Brief(cfg, g1 + (g2 + g3)) ==>
      (Stuck(RacedReset(cfg, s, g1, g2, g3)) <==> TripsInGaps(cfg, s.failures, g1, g2, g3))
  {
    if !TripsInGaps(cfg, s.failures, g1, g2, g3) {
      UntrippedReset(cfg, s, g1, g2, g3);
    } else if Brief(cfg, g1 + (g2 + g3)) {
      BriefParts(cfg, g1, g2 + g3);
      BriefParts(cfg, g2, g3);
      assert g3 + [] == g3;
      TrippedReset(cfg, s, g1, g2, g3);
    }
  }

  /** So with the shipped thresholds, resetting a tripped breaker while one more failure is
      recorded between its first two writes disables the outbound for good. */
  lemma DefaultBreakerSticks(now: nat, later: seq<Event>, ask: nat)
    requires NoReset(later, 0, |later|)
    ensures var cfg := Config(5, 2, 30000);
            var s := RacedReset(cfg, State(Open, 5, 0, Some(0)), [Fail(now)], [], []);
            !Allows(cfg, Play(cfg, s, later), ask)
  {
    var cfg := Config(5, 2, 30000);
    var s := State(Open, 5, 0, Some(0));
    assert Trips(cfg, 5, [Fail(now)]);
    ResetSticksExactly(cfg, s, [Fail(now)], [], []);
    StuckForever(cfg, RacedReset(cfg, s, [Fail(now)], [], []), later, ask);
  }
}

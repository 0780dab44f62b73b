/** The token bucket under concurrent callers. `refill` loads and stores the tokens as two
    operations under a lock, and the subtraction of a consumer takes no lock: each of these,
    and the consumer's own load, is a step of its own here. */
module TokenRaces {
  import opened Basics
  import T = TokenBucket

  /** Where a caller of `try_consume` is. */
  datatype Phase =
    | Arrived
    | Loaded(current: int, gained: nat, at: nat) // inside the refill, holding the lock
    | Refilled
    | Decided(consume: nat)                      // has read the bucket, not yet subtracted
    | Done

  datatype Caller = Caller(asked: nat, phase: Phase)

  /** The bucket and its callers, with the tokens granted to all callers and gained by all refills. */
  datatype State = State(
    tokens: int, lastRefill: nat, lock: Option<nat>, callers: map<nat, Caller>, granted: nat, gained: nat)
  {
    function Move(x: nat, phase: Phase): State
      requires x in callers
    {
      this.(callers := callers[x := callers[x].(phase := phase)])
    }
  }

  function Init(rate: int, start: nat): State {
    State(rate, start, None, map[], 0, 0)
  }

  datatype Step = Arrive(x: nat, asked: nat) | Load(x: nat, now: nat) | Store(x: nat) | Read(x: nat) | Subtract(x: nat)

  predicate Enabled(s: State, m: Step) {
    match m
    case Arrive(x, _) => x !in s.callers
    case Load(x, now) => x in s.callers && s.callers[x].phase.Arrived? && s.lock.None? && s.lastRefill <= now
    case Store(x) => x in s.callers && s.callers[x].phase.Loaded?
    case Read(x) => x in s.callers && s.callers[x].phase.Refilled?
    case Subtract(x) => x in s.callers && s.callers[x].phase.Decided?
  }

  /** The tokens a refill finds accrued, if any. */
  function Gain(rate: int, s: State, now: nat): int
    requires s.lastRefill <= now
  {
    T.TruncatingDiv(T.Product(rate, now - s.lastRefill), 1000)
  }

  function Stored(rate: int, p: Phase): int
    requires p.Loaded?
  {
    Min(T.Wrap(p.current + p.gained), rate)
  }

  function Next(rate: int, s: State, m: Step): State
    requires Enabled(s, m)
  {
    match m
    case Arrive(x, asked) => s.(callers := s.callers[x := Caller(asked, Arrived)])
    case Load(x, now) =>
      var gain := Gain(rate, s, now);
      if gain > 0 then s.Move(x, Loaded(s.tokens, gain, now)).(lock := Some(x)) else s.Move(x, Refilled)
    case Store(x) =>
      var p := s.callers[x].phase;
      s.Move(x, Refilled).(
        tokens := Stored(rate, p), lastRefill := p.at, lock := None, gained := s.gained + p.gained)
    case Read(x) => s.Move(x, Decided(T.Granted(T.State(s.tokens, s.lastRefill), s.callers[x].asked)))
    case Subtract(x) =>
      var consume := s.callers[x].phase.consume;
      s.Move(x, Done).(tokens := T.Wrap(s.tokens - consume), granted := s.granted + consume)
  }

  /** Any interleaving of the steps of any number of callers. */
  ghost predicate IsRun(rate: int, start: nat, ms: seq<Step>, ss: seq<State>) {
    && |ss| == |ms| + 1
    && ss[0] == Init(rate, start)
    && forall k :: 0 <= k < |ms| ==> Enabled(ss[k], ms[k]) && ss[k + 1] == Next(rate, ss[k], ms[k])
  }

  function Refill(rate: int, s: State, x: nat, now: nat): State
    requires Enabled(s, Load(x, now))
  {
    var t := Next(rate, s, Load(x, now));
    if t.callers[x].phase.Loaded? then Next(rate, t, Store(x)) else t
  }

  lemma RefillIsAtomic(rate: int, s: State, x: nat, now: nat)
    requires Enabled(s, Load(x, now))
    ensures var t := Refill(rate, s, x, now);
            && T.State(t.tokens, t.lastRefill) == T.Refill(rate, T.State(s.tokens, s.lastRefill), now)
            && Enabled(t, Read(x)) && t.callers[x].asked == s.callers[x].asked && t.granted == s.granted
  {
  }

  /** A caller whose steps no one disturbs does what the atomic call does. */
  lemma AloneIsAtomic(rate: int, s: State, x: nat, now: nat)
    requires Enabled(s, Load(x, now)) && -T.TWO63 <= s.tokens < T.TWO63 && -T.TWO63 <= rate < T.TWO63
    ensures var t := Next(rate, Refill(rate, s, x, now), Read(x));
            var u := Next(rate, t, Subtract(x));
            var before, asked := T.State(s.tokens, s.lastRefill), s.callers[x].asked;
            && T.State(u.tokens, u.lastRefill) == T.TryConsume(rate, before, asked, now)
            && u.granted == s.granted + T.Granted(T.Refill(rate, before, now), asked)
  {
    RefillIsAtomic(rate, s, x, now);
  }

  // ---------------------------------------------------------------- who holds the lock

  ghost predicate LockHeld(s: State) {
    && (forall x :: x in s.callers && s.callers[x].phase.Loaded? ==> s.lock == Some(x))
    && (s.lock.Some? ==> s.lock.value in s.callers && s.callers[s.lock.value].phase.Loaded?)
  }

  lemma {:induction false} OneRefillAtATime(rate: int, start: nat, ms: seq<Step>, ss: seq<State>, k: nat)
    requires IsRun(rate, start, ms, ss) && k <= |ms|
    ensures LockHeld(ss[k])
    decreases k
  {
    if k > 0 {
      OneRefillAtATime(rate, start, ms, ss, k - 1);
      assert ss[k] == Next(rate, ss[k - 1], ms[k - 1]);
    }
  }

  predicate InWord(n: int) { -T.TWO63 <= n < T.TWO63 }

  ghost predicate WordsOnly(s: State) {
    && InWord(s.tokens)
    && (forall x :: x in s.callers && s.callers[x].phase.Decided? ==> s.callers[x].phase.consume < T.TWO63)
    && (forall x :: x in s.callers && s.callers[x].phase.Loaded? ==> InWord(s.callers[x].phase.current))
  }

  lemma {:induction false} StaysInWords(rate: int, start: nat, ms: seq<Step>, ss: seq<State>, k: nat)
    requires InWord(rate) && IsRun(rate, start, ms, ss) && k <= |ms|
    ensures WordsOnly(ss[k])
    decreases k
  {
    if k > 0 {
      StaysInWords(rate, start, ms, ss, k - 1);
      assert ss[k] == Next(rate, ss[k - 1], ms[k - 1]);
    }
  }

  // ---------------------------------------------------------------- the balance of a whole run

  predicate Subtracts(s: State, m: Step) { m.Subtract? && Enabled(s, m) }

  /** Tokens subtracted while some caller was between the load and the store of its refill. */
  ghost function SubtractedInside(ms: seq<Step>, ss: seq<State>, k: nat): nat
    requires k <= |ms| < |ss|
  {
    if k == 0 then 0
    else
      var s, m := ss[k - 1], ms[k - 1];
      SubtractedInside(ms, ss, k - 1) + if Subtracts(s, m) && s.lock.Some? then s.callers[m.x].phase.consume else 0
  }

  /** Tokens that refills did not store because of the maximum. */
  ghost function CutOff(rate: int, ms: seq<Step>, ss: seq<State>, k: nat): int
    requires k <= |ms| < |ss|
  {
    if k == 0 then 0
    else
      var s, m := ss[k - 1], ms[k - 1];
      CutOff(rate, ms, ss, k - 1)
      + if m.Store? && Enabled(s, m) then
          var p := s.callers[m.x].phase; p.current + p.gained - Stored(rate, p)
        else 0
  }

  /** Subtractions outside of refills that left 64 signed bits. */
  ghost function WrapsOutside(ms: seq<Step>, ss: seq<State>, k: nat): nat
    requires k <= |ms| < |ss|
  {
    if k == 0 then 0
    else
      var s, m := ss[k - 1], ms[k - 1];
      WrapsOutside(ms, ss, k - 1)
      + if Subtracts(s, m) && s.lock.None? && s.tokens - s.callers[m.x].phase.consume < -T.TWO63 then 1 else 0
  }

  /** What the refill under way will overwrite if it stores now. */
  function PendingLoss(s: State): int {
    if s.lock.Some? && s.lock.value in s.callers && s.callers[s.lock.value].phase.Loaded?
    then s.callers[s.lock.value].phase.current - s.tokens else 0
  }

  lemma WrapOnce(tokens: int, consume: nat)
    requires InWord(tokens) && consume < T.TWO63
    ensures T.Wrap(tokens - consume)
            == tokens - consume + if tokens - consume < -T.TWO63 then T.TWO64 else 0
  {
  }

  /** At every point of every interleaving of any number of callers: tokens granted, left, cut off
      and about to be overwritten are those the bucket started with, those gained, those subtracted
      inside refills, and 2^64 for every subtraction outside that wrapped around. */
  lemma {:induction false} RunBalance(rate: int, start: nat, ms: seq<Step>, ss: seq<State>, k: nat)
    requires InWord(rate) && IsRun(rate, start, ms, ss) && k <= |ms|
    ensures var s := ss[k];
            s.granted + s.tokens + CutOff(rate, ms, ss, k) + PendingLoss(s)
            == rate + s.gained + SubtractedInside(ms, ss, k) + T.TWO64 * WrapsOutside(ms, ss, k)
    decreases k
  {
    if k > 0 {
      RunBalance(rate, start, ms, ss, k - 1);
      OneRefillAtATime(rate, start, ms, ss, k - 1);
      StaysInWords(rate, start, ms, ss, k - 1);
      StepBalance(rate, ss[k - 1], ms[k - 1]);
    }
  }

  /** What one step adds to either side of the balance. */
  lemma StepBalance(rate: int, s: State, m: Step)
    requires LockHeld(s) && WordsOnly(s) && Enabled(s, m)
    ensures var t := Next(rate, s, m);
            t.granted + t.tokens + PendingLoss(t) - (s.granted + s.tokens + PendingLoss(s))
            == match m
               case Store(x) =>
                 var p := s.callers[x].phase;
                 t.gained - s.gained - (p.current + p.gained - Stored(rate, p))
               case Subtract(x) =>
                 var c := s.callers[x].phase.consume;
                 if s.lock.Some? then c else if s.tokens - c < -T.TWO63 then T.TWO64 else 0
               case _ => 0
    ensures !m.Store? ==> Next(rate, s, m).gained == s.gained
  {
    if m.Subtract? { WrapOnce(s.tokens, s.callers[m.x].phase.consume); }
  }

  /** So between refills the callers together have stayed within the maximum and what was gained
      exactly if no more was subtracted inside refills than the maximum cut off. */
  lemma RacesExactly(rate: int, start: nat, ms: seq<Step>, ss: seq<State>, k: nat)
    requires InWord(rate) && IsRun(rate, start, ms, ss) && k <= |ms| && ss[k].lock.None?
    ensures var s, created := ss[k], SubtractedInside(ms, ss, k) + T.TWO64 * WrapsOutside(ms, ss, k);
            && (s.granted + s.tokens <= rate + s.gained <==> created <= CutOff(rate, ms, ss, k))
            && (s.granted <= rate + s.gained <==> created <= CutOff(rate, ms, ss, k) + s.tokens)
  {
    RunBalance(rate, start, ms, ss, k);
  }

  // ---------------------------------------------------------------- gains

  /** A caller inside its refill has accrued no more than the time since the last one is worth. */
  ghost predicate Accrued(rate: nat, s: State, p: Phase) {
    p.Loaded? ==> s.lastRefill <= p.at && 1000 * p.gained <= p.at * rate - s.lastRefill * rate
  }

  ghost predicate GainsCovered(rate: nat, start: nat, s: State) {
    && LockHeld(s) && start <= s.lastRefill
    && 1000 * s.gained <= s.lastRefill * rate - start * rate
    && forall x :: x in s.callers ==> Accrued(rate, s, s.callers[x].phase)
  }

  lemma GainBound(rate: nat, s: State, now: nat)
    requires s.lastRefill <= now
    ensures Gain(rate, s, now) > 0 ==> 1000 * Gain(rate, s, now) <= now * rate - s.lastRefill * rate
  {
    var elapsed := now - s.lastRefill;
    T.ProductIsWrapped(rate, elapsed);
    T.Difference(s.lastRefill, now, rate);
    T.NonNegative(elapsed, rate);
    T.WrapBelow(elapsed * rate);
  }

  lemma StepCovered(rate: nat, start: nat, s: State, m: Step)
    requires GainsCovered(rate, start, s) && Enabled(s, m)
    ensures GainsCovered(rate, start, Next(rate, s, m))
  {
    var t := Next(rate, s, m);
    if m.Load? { GainBound(rate, s, m.now); }
    forall y | y in t.callers
      ensures Accrued(rate, t, t.callers[y].phase)
    {
      assert y in s.callers ==> Accrued(rate, s, s.callers[y].phase);
    }
  }

  lemma {:induction false} GainsAreCovered(rate: nat, start: nat, ms: seq<Step>, ss: seq<State>, k: nat)
    requires IsRun(rate, start, ms, ss) && k <= |ms|
    ensures GainsCovered(rate, start, ss[k])
    decreases k
  {
    if k > 0 {
      GainsAreCovered(rate, start, ms, ss, k - 1);
      StepCovered(rate, start, ss[k - 1], ms[k - 1]);
    }
  }

  /** The bound of atomic calls, in every interleaving, but for what refills overwrote and the
      maximum cut off. */
  lemma RacedBound(rate: nat, start: nat, ms: seq<Step>, ss: seq<State>, k: nat)
    requires rate < T.TWO63 && IsRun(rate, start, ms, ss) && k <= |ms|
    ensures var s := ss[k];
            start <= s.lastRefill
            && s.granted + s.tokens + CutOff(rate, ms, ss, k) + PendingLoss(s)
               <= rate + (s.lastRefill - start) * rate / 1000
                  + SubtractedInside(ms, ss, k) + T.TWO64 * WrapsOutside(ms, ss, k)
  {
    var s := ss[k];
    RunBalance(rate, start, ms, ss, k);
    GainsAreCovered(rate, start, ms, ss, k);
    GainInWhole(rate, start, s.lastRefill, s.gained);
  }

  lemma GainInWhole(rate: nat, start: nat, end: nat, gained: nat)
    requires start <= end && 1000 * gained <= end * rate - start * rate
    ensures gained <= (end - start) * rate / 1000
  {
    T.Difference(start, end, rate);
    T.WholeQuotient(gained, (end - start) * rate);
  }

  // ---------------------------------------------------------------- the lost update

  /** No subtraction among steps i .. k - 1 leaves 64 signed bits. */
  ghost predicate NoWrap(ms: seq<Step>, ss: seq<State>, i: nat, k: nat)
    requires i <= k <= |ms| < |ss|
  {
    forall m :: i <= m < k && ms[m].Subtract? && Enabled(ss[m], ms[m]) ==>
      -T.TWO63 <= ss[m].tokens - ss[m].callers[ms[m].x].phase.consume < T.TWO63
  }

  /** What a refill overwrites at its store is what was granted since its load. */
  lemma {:induction false} LostUpdate(rate: int, start: nat, ms: seq<Step>, ss: seq<State>, i: nat, k: nat, x: nat)
    requires IsRun(rate, start, ms, ss) && i < k <= |ms| && ms[i].Load? && ms[i].x == x
    requires forall m :: i < m <= k ==> x in ss[m].callers && ss[m].callers[x].phase.Loaded?
    requires NoWrap(ms, ss, i, k)
    ensures ss[k].callers[x].phase == ss[i + 1].callers[x].phase
    ensures ss[k].callers[x].phase.current - ss[k].tokens == ss[k].granted - ss[i].granted
    decreases k
  {
    assert ss[k] == Next(rate, ss[k - 1], ms[k - 1]);
    if i < k - 1 {
      LostUpdate(rate, start, ms, ss, i, k - 1, x);
      OneRefillAtATime(rate, start, ms, ss, k - 1);
    }
  }

  /** A store keeps granted and left tokens within what the refill gained exactly if no more was
      granted since its load than the maximum cuts off. */
  lemma StoreKeepsBound(rate: int, start: nat, ms: seq<Step>, ss: seq<State>, i: nat, k: nat, x: nat)
    requires IsRun(rate, start, ms, ss) && i < k < |ms| && ms[i].Load? && ms[i].x == x && ms[k] == Store(x)
    requires forall m :: i < m <= k ==> x in ss[m].callers && ss[m].callers[x].phase.Loaded?
    requires NoWrap(ms, ss, i, k)
    ensures var s, t, p := ss[k], ss[k + 1], ss[i + 1].callers[x].phase;
            t.granted + t.tokens <= s.granted + s.tokens + p.gained
            <==> s.granted - ss[i].granted <= p.current + p.gained - Stored(rate, p)
  {
    LostUpdate(rate, start, ms, ss, i, k, x);
    assert ss[k + 1] == Next(rate, ss[k], ms[k]);
  }

  /** No subtraction falls between the load and the store of a refill. */
  ghost predicate Undisturbed(ms: seq<Step>, ss: seq<State>, k: nat)
    requires k <= |ms| < |ss|
  {
    forall m :: 0 <= m < k && ms[m].Subtract? ==> ss[m].lock.None?
  }

  lemma {:induction false} NothingInside(rate: int, start: nat, ms: seq<Step>, ss: seq<State>, k: nat)
    requires IsRun(rate, start, ms, ss) && k <= |ms| && Undisturbed(ms, ss, k)
    ensures SubtractedInside(ms, ss, k) == 0 && PendingLoss(ss[k]) == 0
    decreases k
  {
    if k > 0 {
      NothingInside(rate, start, ms, ss, k - 1);
      OneRefillAtATime(rate, start, ms, ss, k - 1);
      assert ss[k] == Next(rate, ss[k - 1], ms[k - 1]);
    }
  }

  lemma {:induction false} NoWrapsOutside(ms: seq<Step>, ss: seq<State>, k: nat)
    requires k <= |ms| < |ss| && NoWrap(ms, ss, 0, k)
    ensures WrapsOutside(ms, ss, k) == 0
    decreases k
  {
    if k > 0 { NoWrapsOutside(ms, ss, k - 1); }
  }

  lemma {:induction false} CutsArePositive(rate: int, start: nat, ms: seq<Step>, ss: seq<State>, k: nat)
    requires InWord(rate) && IsRun(rate, start, ms, ss) && k <= |ms|
    ensures 0 <= CutOff(rate, ms, ss, k)
    decreases k
  {
    if k > 0 {
      CutsArePositive(rate, start, ms, ss, k - 1);
      StaysInWords(rate, start, ms, ss, k - 1);
      var s, m := ss[k - 1], ms[k - 1];
      if m.Store? {
        var p := s.callers[m.x].phase;
        T.WrapBelow(p.current + p.gained);
      }
    }
  }

  /** In every interleaving whose refills are undisturbed the bound of atomic calls holds. */
  lemma UndisturbedBound(rate: nat, start: nat, ms: seq<Step>, ss: seq<State>, k: nat)
    requires rate < T.TWO63 && IsRun(rate, start, ms, ss) && k <= |ms| && Undisturbed(ms, ss, k) && NoWrap(ms, ss, 0, k)
    ensures var s := ss[k];
            start <= s.lastRefill && s.granted + s.tokens <= rate + (s.lastRefill - start) * rate / 1000
  {
    RacedBound(rate, start, ms, ss, k);
    NothingInside(rate, start, ms, ss, k);
    NoWrapsOutside(ms, ss, k);
    CutsArePositive(rate, start, ms, ss, k);
  }

  lemma Extend(rate: int, start: nat, ms: seq<Step>, ss: seq<State>, m: Step) returns (ms': seq<Step>, ss': seq<State>)
    requires IsRun(rate, start, ms, ss) && Enabled(ss[|ms|], m)
    ensures IsRun(rate, start, ms', ss') && ms' == ms + [m] && ss' == ss + [Next(rate, ss[|ms|], m)]
  {
    ms', ss' := ms + [m], ss + [Next(rate, ss[|ms|], m)];
  }

  ghost predicate NeverNegative(ss: seq<State>) {
    forall i :: 0 <= i < |ss| ==> 0 <= ss[i].tokens
  }

  /** One caller has read a full bucket, and the other has loaded it in its refill. */
  lemma BothRead() returns (ms: seq<Step>, ss: seq<State>)
    ensures IsRun(1000, 0, ms, ss) && NeverNegative(ss)
    ensures ss[|ms|] == Init(1000, 0).(
              lock := Some(0),
              callers := map[0 := Caller(1000, Loaded(1000, 1, 1)), 1 := Caller(1000, Decided(1000))])
  {
    ms, ss := [], [Init(1000, 0)];
    ms, ss := Extend(1000, 0, ms, ss, Arrive(0, 1000));
    ms, ss := Extend(1000, 0, ms, ss, Arrive(1, 1000));
    assert Gain(1000, ss[|ms|], 0) == 0;
    ms, ss := Extend(1000, 0, ms, ss, Load(1, 0));
    ms, ss := Extend(1000, 0, ms, ss, Read(1));
    assert Gain(1000, ss[|ms|], 1) == 1;
    ms, ss := Extend(1000, 0, ms, ss, Load(0, 1));
  }

  /** A disturbed refill breaks it: with a rate of 1000, two callers get 2000 tokens out of a
      bucket of 1000 within one millisecond, and the bucket is never below zero. */
  lemma SpentTwice() returns (ms: seq<Step>, ss: seq<State>)
    ensures IsRun(1000, 0, ms, ss) && NeverNegative(ss)
    ensures var s := ss[|ms|]; s.granted == 2000 && s.tokens == 0 && s.lastRefill == 1 && s.lock.None?
  {
    ms, ss := BothRead();
    ms, ss := Extend(1000, 0, ms, ss, Subtract(1));
    ms, ss := Extend(1000, 0, ms, ss, Store(0));
    ms, ss := Extend(1000, 0, ms, ss, Read(0));
    ms, ss := Extend(1000, 0, ms, ss, Subtract(0));
  }

  // ---------------------------------------------------------------- callers that read the same bucket

  /** A request as the source reads it, in 64 signed bits, and nothing if that is negative. */
  function Asked(n: nat): nat { Max(0, T.Wrap(n)) }

  function Requests(ns: seq<nat>): nat {
    if ns == [] then 0 else Asked(ns[0]) + Requests(ns[1..])
  }

  /** What several callers get that all read the bucket before any of them subtracts. */
  function Grants(s: T.State, ns: seq<nat>): nat {
    if ns == [] then 0 else T.Granted(s, ns[0]) + Grants(s, ns[1..])
  }

  /** Those who ask for something. */
  function Askers(ns: seq<nat>): nat {
    if ns == [] then 0 else (if Asked(ns[0]) > 0 then 1 else 0) + Askers(ns[1..])
  }

  lemma GrantIsMinimum(s: T.State, n: nat)
    ensures T.Granted(s, n) == Min(Asked(n), Max(0, s.tokens))
  {
  }

  lemma {:induction false} GrantsBounds(s: T.State, ns: seq<nat>)
    ensures Grants(s, ns) <= Requests(ns)
    ensures s.tokens > 0 ==> Askers(ns) <= Grants(s, ns)
    ensures Askers(ns) == 0 ==> Requests(ns) == 0
    ensures Askers(ns) <= 1 || s.tokens <= 0 ==> Grants(s, ns) <= Max(0, s.tokens)
    decreases |ns|
  {
    if ns != [] {
      GrantsBounds(s, ns[1..]);
      GrantIsMinimum(s, ns[0]);
    }
  }

  lemma {:induction false} GrantsCut(s: T.State, ns: seq<nat>)
    requires s.tokens > 0
    ensures Grants(s, ns) == Requests(ns) || s.tokens + Askers(ns) - 1 <= Grants(s, ns)
    decreases |ns|
  {
    if ns != [] {
      GrantsCut(s, ns[1..]);
      GrantsBounds(s, ns[1..]);
      GrantIsMinimum(s, ns[0]);
    }
  }

  /** Any number of callers that read the same bucket stay within it exactly when all they ask
      for fits, or at most one asks for anything, or nothing is there. */
  lemma RacingCallers(s: T.State, ns: seq<nat>)
    ensures Grants(s, ns) <= Max(0, s.tokens)
            <==> Requests(ns) <= s.tokens || Askers(ns) <= 1 || s.tokens <= 0
  {
    GrantsBounds(s, ns);
    if s.tokens > 0 {
      GrantsCut(s, ns);
    }
  }
}

/** Connection admission: a global limiter and an optional limiter per inbound. A limiter is
    a semaphore and a counter that are changed one after the other, so other connections may
    move between the two. */
module Admission {
  import opened Basics

  datatype Limiter = Limiter(max: nat, permits: nat, active: nat)

  class ConnectionLimiter {
    const max: nat
    var permits: nat
    var active: nat

    /** Between calls the two fields always complement each other. */
    ghost predicate Valid()
      reads this
    {
      permits + active == max
    }

    constructor (max: nat)
      ensures this.max == max && Valid() && active == 0
    {
      this.max, permits, active := max, max, 0;
    }

    method TryAcquire() returns (acquired: bool)
      requires Valid()
      modifies this
      ensures Valid()
      ensures acquired <==> old(active) < max
      ensures active == old(active) + if acquired then 1 else 0
    {
      acquired := permits > 0;
      if acquired {
        permits := permits - 1;
        active := active + 1;
      }
    }

    /** Dropping a guard lowers the count, then gives the permit back. */
    method DropGuard()
      requires Valid() && active > 0
      modifies this
      ensures Valid() && active == old(active) - 1
    {
      active := active - 1;
      permits := permits + 1;
    }
  }

  // ---------------------------------------------------------------- small steps

  /** A connection's progress through the accept loop and its task. */
  datatype Stage =
    | Accepted          // accepted, holds nothing
    | GlobalPermit      // took a global permit, not yet counted
    | GlobalHeld        // holds a global guard
    | InboundPermit     // took an inbound permit, not yet counted there
    | Running           // both guards moved into the running task
    | InboundUncounted  // no longer counted by its inbound, permit still held
    | Closing           // holds only the global guard, which is being dropped
    | GlobalUncounted   // no longer counted globally, permit still held
    | Gone

  predicate HasGlobalPermit(g: Stage) { !g.Accepted? && !g.Gone? }

  predicate CountedGlobally(g: Stage) { g in {GlobalHeld, InboundPermit, Running, InboundUncounted, Closing} }

  predicate HasInboundPermit(g: Stage) { g in {InboundPermit, Running, InboundUncounted} }

  predicate CountedByInbound(g: Stage) { g.Running? }

  /** What a connection's next step reads and writes: the global limiter, its inbound's
      limiter if there is one, and its own stage. */
  datatype View = View(global: Limiter, local: Option<Limiter>, stage: Stage) {
    predicate CanStep() {
      match stage
      case Closing => global.active > 0
      case Running => local.Some? ==> local.value.active > 0
      case InboundPermit => local.Some?
      case InboundUncounted => local.Some?
      case _ => true
    }

    function Next(): View
      requires CanStep()
    {
      match stage
      case Accepted =>
        if global.permits == 0 then this.(stage := Gone)
        else this.(global := global.(permits := global.permits - 1), stage := GlobalPermit)
      case GlobalPermit => this.(global := global.(active := global.active + 1), stage := GlobalHeld)
      case GlobalHeld =>
        if local.None? then this.(stage := Running)
        else if local.value.permits == 0 then this.(stage := Closing)
        else this.(local := Some(local.value.(permits := local.value.permits - 1)), stage := InboundPermit)
      case InboundPermit =>
        this.(local := Some(local.value.(active := local.value.active + 1)), stage := Running)
      case Running =>
        if local.None? then this.(stage := Closing)
        else this.(local := Some(local.value.(active := local.value.active - 1)), stage := InboundUncounted)
      case InboundUncounted =>
        this.(local := Some(local.value.(permits := local.value.permits + 1)), stage := Closing)
      case Closing => this.(global := global.(active := global.active - 1), stage := GlobalUncounted)
      case GlobalUncounted => this.(global := global.(permits := global.permits + 1), stage := Gone)
      case Gone => this
    }
  }

  datatype Connection = Connection(inbound: nat, stage: Stage)

  datatype State = State(global: Limiter, inbounds: seq<Option<Limiter>>, conns: map<nat, Connection>)

  function ViewOf(s: State, x: nat): View
    requires x in s.conns && s.conns[x].inbound < |s.inbounds|
  {
    View(s.global, s.inbounds[s.conns[x].inbound], s.conns[x].stage)
  }

  /** The next step of connection `x`, whatever the others have done in the meantime. */
  function Advance(s: State, x: nat): State
    requires x in s.conns && s.conns[x].inbound < |s.inbounds| && ViewOf(s, x).CanStep()
  {
    var v, i := ViewOf(s, x).Next(), s.conns[x].inbound;
    State(v.global, s.inbounds[i := v.local], s.conns[x := Connection(i, v.stage)])
  }

  function Arrive(s: State, x: nat, inbound: nat): State
    requires x !in s.conns && inbound < |s.inbounds|
  {
    s.(conns := s.conns[x := Connection(inbound, Accepted)])
  }

  // ---------------------------------------------------------------- who holds what

  datatype Role = GlobalHolder | GlobalCounted | InboundHolder(i: nat) | InboundCounted(i: nat)

  predicate Plays(r: Role, c: Connection) {
    match r
    case GlobalHolder => HasGlobalPermit(c.stage)
    case GlobalCounted => CountedGlobally(c.stage)
    case InboundHolder(i) => c.inbound == i && HasInboundPermit(c.stage)
    case InboundCounted(i) => c.inbound == i && CountedByInbound(c.stage)
  }

  ghost function Players(conns: map<nat, Connection>, r: Role): set<nat> {
    set x | x in conns && Plays(r, conns[x])
  }

  /** Every permit is with the semaphore or with a connection, and the count is the number
      of counted connections. */
  ghost predicate LimiterMatches(l: Limiter, conns: map<nat, Connection>, holder: Role, counted: Role) {
    l.permits + |Players(conns, holder)| == l.max && l.active == |Players(conns, counted)|
  }

  ghost predicate InboundMatches(s: State, i: nat)
    requires i < |s.inbounds|
  {
    s.inbounds[i].Some? ==> LimiterMatches(s.inbounds[i].value, s.conns, InboundHolder(i), InboundCounted(i))
  }

  /** Only connections of a limited inbound deal with an inbound limiter. */
  predicate Placed(s: State, c: Connection) {
    && c.inbound < |s.inbounds|
    && (c.stage in {InboundPermit, InboundUncounted} ==> s.inbounds[c.inbound].Some?)
  }

  ghost predicate Balanced(s: State) {
    && LimiterMatches(s.global, s.conns, GlobalHolder, GlobalCounted)
    && (forall i :: 0 <= i < |s.inbounds| ==> InboundMatches(s, i))
    && (forall x :: x in s.conns ==> Placed(s, s.conns[x]))
  }

  // ---------------------------------------------------------------- the balance is kept

  function One(b: bool): nat { if b then 1 else 0 }

  /** A limiter changes by exactly what the connection takes, counts, uncounts and returns. */
  predicate Exchanged(l: Limiter, m: Limiter, had: bool, has: bool, wasCounted: bool, isCounted: bool) {
    && m.max == l.max
    && m.permits + One(has) == l.permits + One(had)
    && m.active + One(wasCounted) == l.active + One(isCounted)
  }

  lemma NextExchanges(v: View)
    requires v.CanStep()
    ensures var w := v.Next();
            && Exchanged(v.global, w.global, HasGlobalPermit(v.stage), HasGlobalPermit(w.stage),
                         CountedGlobally(v.stage), CountedGlobally(w.stage))
            && (v.local.Some? <==> w.local.Some?)
            && (v.local.Some? ==>
                  Exchanged(v.local.value, w.local.value, HasInboundPermit(v.stage), HasInboundPermit(w.stage),
                            CountedByInbound(v.stage), CountedByInbound(w.stage)))
            && (w.stage in {InboundPermit, InboundUncounted} ==> w.local.Some?)
  {
  }

  /** Moving one connection changes a role's players by that connection at most. */
  lemma PlayersMove(conns: map<nat, Connection>, x: nat, c: Connection, r: Role)
    ensures |Players(conns[x := c], r)| + One(x in conns && Plays(r, conns[x]))
            == |Players(conns, r)| + One(Plays(r, c))
  {
    var before, after := Players(conns, r), Players(conns[x := c], r);
    if Plays(r, c) {
      assert after == before + {x};
    } else {
      assert after == before - {x};
    }
  }

  lemma BalancedCanStep(s: State, x: nat)
    requires Balanced(s) && x in s.conns
    ensures s.conns[x].inbound < |s.inbounds| && ViewOf(s, x).CanStep()
  {
    var c := s.conns[x];
    assert Placed(s, c);
    if c.stage.Closing? {
      assert x in Players(s.conns, GlobalCounted);
    } else if c.stage.Running? {
      assert InboundMatches(s, c.inbound);
      assert x in Players(s.conns, InboundCounted(c.inbound));
    }
  }

  lemma MatchesMove(
      l: Limiter, m: Limiter, conns: map<nat, Connection>, x: nat, c: Connection, holder: Role, counted: Role)
    requires x in conns && LimiterMatches(l, conns, holder, counted)
    requires Exchanged(l, m, Plays(holder, conns[x]), Plays(holder, c), Plays(counted, conns[x]), Plays(counted, c))
    ensures LimiterMatches(m, conns[x := c], holder, counted)
  {
    PlayersMove(conns, x, c, holder);
    PlayersMove(conns, x, c, counted);
  }

  lemma AdvanceKeepsBalance(s: State, x: nat)
    requires Balanced(s) && x in s.conns && s.conns[x].inbound < |s.inbounds| && ViewOf(s, x).CanStep()
    ensures Balanced(Advance(s, x))
  {
    var t, c := Advance(s, x), s.conns[x];
    NextExchanges(ViewOf(s, x));
    MatchesMove(s.global, t.global, s.conns, x, t.conns[x], GlobalHolder, GlobalCounted);
    forall i | 0 <= i < |t.inbounds|
      ensures InboundMatches(t, i)
    {
      assert InboundMatches(s, i);
      if t.inbounds[i].Some? {
        MatchesMove(
          s.inbounds[i].value, t.inbounds[i].value, s.conns, x, t.conns[x], InboundHolder(i), InboundCounted(i));
      }
    }
    forall y | y in t.conns
      ensures Placed(t, t.conns[y])
    {
      assert Placed(s, s.conns[y]);
    }
  }

  lemma ArrivalKeepsBalance(s: State, x: nat, inbound: nat)
    requires Balanced(s) && x !in s.conns && inbound < |s.inbounds|
    ensures Balanced(Arrive(s, x, inbound))
  {
    var t := Arrive(s, x, inbound);
    forall r: Role
      ensures |Players(t.conns, r)| == |Players(s.conns, r)|
    {
      PlayersMove(s.conns, x, Connection(inbound, Accepted), r);
    }
    assert forall i :: 0 <= i < |s.inbounds| ==> InboundMatches(s, i) ==> InboundMatches(t, i);
  }

  // ---------------------------------------------------------------- runs

  datatype Move = NewConnection(x: nat, inbound: nat) | StepOf(x: nat)

  predicate Enabled(s: State, m: Move) {
    match m
    case NewConnection(x, inbound) => x !in s.conns && inbound < |s.inbounds|
    case StepOf(x) => x in s.conns && s.conns[x].inbound < |s.inbounds| && ViewOf(s, x).CanStep()
  }

  function Step(s: State, m: Move): State
    requires Enabled(s, m)
  {
    match m
    case NewConnection(x, inbound) => Arrive(s, x, inbound)
    case StepOf(x) => Advance(s, x)
  }

  function Fresh(max: nat): Limiter { Limiter(max, max, 0) }

  ghost predicate Initial(s: State) {
    && s.global == Fresh(s.global.max)
    && (forall i :: 0 <= i < |s.inbounds| && s.inbounds[i].Some? ==>
          s.inbounds[i].value == Fresh(s.inbounds[i].value.max))
    && s.conns == map[]
  }

  /** Any interleaving of the steps of any number of connections on any number of inbounds. */
  ghost predicate IsRun(ms: seq<Move>, ss: seq<State>) {
    && |ss| == |ms| + 1
    && Initial(ss[0])
    && forall k :: 0 <= k < |ms| ==> Enabled(ss[k], ms[k]) && ss[k + 1] == Step(ss[k], ms[k])
  }

  lemma InitialIsBalanced(s: State)
    requires Initial(s)
    ensures Balanced(s)
  {
    assert forall r :: Players(s.conns, r) == {};
  }

  lemma {:induction false} AlwaysBalanced(ms: seq<Move>, ss: seq<State>, k: nat)
    requires IsRun(ms, ss) && k <= |ms|
    ensures Balanced(ss[k])
    decreases k
  {
    if k == 0 {
      InitialIsBalanced(ss[0]);
    } else {
      AlwaysBalanced(ms, ss, k - 1);
      match ms[k - 1]
      case NewConnection(x, inbound) => ArrivalKeepsBalance(ss[k - 1], x, inbound);
      case StepOf(x) => AdvanceKeepsBalance(ss[k - 1], x);
    }
  }

  /** No connection is ever stuck in the middle of a step. */
  lemma NeverBlocked(ms: seq<Move>, ss: seq<State>, k: nat, x: nat)
    requires IsRun(ms, ss) && k <= |ms| && x in ss[k].conns
    ensures Enabled(ss[k], StepOf(x))
  {
    AlwaysBalanced(ms, ss, k);
    BalancedCanStep(ss[k], x);
  }

  // ---------------------------------------------------------------- what the balance gives

  ghost function RunningOn(s: State, i: nat): set<nat> { Players(s.conns, InboundCounted(i)) }

  ghost function AllRunning(s: State): set<nat> {
    set x | x in s.conns && s.conns[x].stage.Running?
  }

  lemma SubsetSize(a: set<nat>, b: set<nat>)
    requires a <= b
    ensures |a| <= |b|
  {
    assert b == a + (b - a);
  }

  /** At every point of every interleaving no limiter counts more than it has handed out,
      and the running tasks stay within the global cap and within their inbound's. */
  lemma CapsHold(ms: seq<Move>, ss: seq<State>, k: nat)
    requires IsRun(ms, ss) && k <= |ms|
    ensures var s := ss[k];
            && s.global.active + s.global.permits <= s.global.max
            && |AllRunning(s)| <= s.global.active
            && (forall i :: 0 <= i < |s.inbounds| && s.inbounds[i].Some? ==>
                  var l := s.inbounds[i].value;
                  l.active + l.permits <= l.max && |RunningOn(s, i)| == l.active)
  {
    var s := ss[k];
    AlwaysBalanced(ms, ss, k);
    SubsetSize(Players(s.conns, GlobalCounted), Players(s.conns, GlobalHolder));
    SubsetSize(AllRunning(s), Players(s.conns, GlobalCounted));
    forall i | 0 <= i < |s.inbounds| && s.inbounds[i].Some?
      ensures s.inbounds[i].value.active + s.inbounds[i].value.permits <= s.inbounds[i].value.max
      ensures |RunningOn(s, i)| == s.inbounds[i].value.active
    {
      assert InboundMatches(s, i);
      SubsetSize(Players(s.conns, InboundCounted(i)), Players(s.conns, InboundHolder(i)));
    }
  }

  /** At rest: every connection is waiting, running or gone. */
  ghost predicate AtRest(s: State) {
    forall x :: x in s.conns ==> s.conns[x].stage in {Accepted, Running, Gone}
  }

  /** At rest, count and permits of every limiter add up to its maximum, and the counts are
      the numbers of running tasks. */
  lemma ExactAtRest(ms: seq<Move>, ss: seq<State>, k: nat)
    requires IsRun(ms, ss) && k <= |ms| && AtRest(ss[k])
    ensures var s := ss[k];
            && s.global.active + s.global.permits == s.global.max
            && s.global.active == |AllRunning(s)|
            && (forall i :: 0 <= i < |s.inbounds| && s.inbounds[i].Some? ==>
                  s.inbounds[i].value.active + s.inbounds[i].value.permits == s.inbounds[i].value.max)
  {
    var s := ss[k];
    AlwaysBalanced(ms, ss, k);
    assert Players(s.conns, GlobalCounted) == Players(s.conns, GlobalHolder) == AllRunning(s);
    forall i | 0 <= i < |s.inbounds| && s.inbounds[i].Some?
      ensures s.inbounds[i].value.active + s.inbounds[i].value.permits == s.inbounds[i].value.max
    {
      assert InboundMatches(s, i);
      assert Players(s.conns, InboundCounted(i)) == Players(s.conns, InboundHolder(i));
    }
  }

  /** Once every connection is gone, refused ones included, all limiters are as new. */
  lemma NoSlotLeaks(ms: seq<Move>, ss: seq<State>, k: nat)
    requires IsRun(ms, ss) && k <= |ms|
    requires forall x :: x in ss[k].conns ==> ss[k].conns[x].stage.Gone?
    ensures ss[k].global == Fresh(ss[k].global.max)
    ensures forall i :: 0 <= i < |ss[k].inbounds| && ss[k].inbounds[i].Some? ==>
              ss[k].inbounds[i].value == Fresh(ss[k].inbounds[i].value.max)
  {
    var s := ss[k];
    AlwaysBalanced(ms, ss, k);
    assert forall r :: Players(s.conns, r) == {};
    forall i | 0 <= i < |s.inbounds| && s.inbounds[i].Some?
      ensures s.inbounds[i].value == Fresh(s.inbounds[i].value.max)
    {
      assert InboundMatches(s, i);
    }
  }

  /** A connection is turned away only by a limiter whose permits are all in use. */
  lemma RefusedOnlyWhenFull(ms: seq<Move>, ss: seq<State>, k: nat, x: nat)
    requires IsRun(ms, ss) && k < |ms| && ms[k] == StepOf(x)
    ensures ss[k].conns[x].stage.Accepted? && ss[k + 1].conns[x].stage.Gone? ==>
      |Players(ss[k].conns, GlobalHolder)| == ss[k].global.max
    ensures ss[k].conns[x].stage.GlobalHeld? && ss[k + 1].conns[x].stage.Closing? ==>
      var i := ss[k].conns[x].inbound;
      ss[k].inbounds[i].Some? && |Players(ss[k].conns, InboundHolder(i))| == ss[k].inbounds[i].value.max
  {
    AlwaysBalanced(ms, ss, k);
    assert InboundMatches(ss[k], ss[k].conns[x].inbound);
  }

  // ---------------------------------------------------------------- what one connection does to the limiters

  datatype Meter = GlobalPermits | GlobalActive | LocalPermits(i: nat) | LocalActive(i: nat)

  predicate HasLimiter(s: State, i: nat) { i < |s.inbounds| && s.inbounds[i].Some? }

  function Reading(s: State, m: Meter): nat {
    match m
    case GlobalPermits => s.global.permits
    case GlobalActive => s.global.active
    case LocalPermits(i) => if HasLimiter(s, i) then s.inbounds[i].value.permits else 0
    case LocalActive(i) => if HasLimiter(s, i) then s.inbounds[i].value.active else 0
  }

  /** What the own steps of connection `x` among the first `k` moves changed, whatever other
      connections did in between. */
  ghost function OwnChange(ms: seq<Move>, ss: seq<State>, k: nat, x: nat, m: Meter): int
    requires |ss| == |ms| + 1 && k <= |ms|
  {
    if k == 0 then 0
    else
      OwnChange(ms, ss, k - 1, x, m)
      + if ms[k - 1] == StepOf(x) then Reading(ss[k], m) - Reading(ss[k - 1], m) else 0
  }

  /** What a connection owes to, or has on, a meter at its stage. */
  function Due(s: State, x: nat, m: Meter): int {
    if x !in s.conns then 0
    else
      var c := s.conns[x];
      match m
      case GlobalPermits => if HasGlobalPermit(c.stage) then -1 else 0
      case GlobalActive => One(CountedGlobally(c.stage))
      case LocalPermits(i) => if c.inbound == i && HasLimiter(s, i) && HasInboundPermit(c.stage) then -1 else 0
      case LocalActive(i) => if c.inbound == i && HasLimiter(s, i) then One(CountedByInbound(c.stage)) else 0
  }

  lemma OwnStep(s: State, x: nat, m: Meter)
    requires Enabled(s, StepOf(x))
    ensures var t := Advance(s, x); Reading(t, m) - Reading(s, m) == Due(t, x, m) - Due(s, x, m)
  {
    NextExchanges(ViewOf(s, x));
  }

  lemma OtherMove(s: State, x: nat, move: Move, m: Meter)
    requires Enabled(s, move) && move != StepOf(x)
    ensures Due(Step(s, move), x, m) == Due(s, x, m)
  {
    if move.StepOf? { NextExchanges(ViewOf(s, move.x)); }
  }

  /** In every interleaving a connection's own steps have changed every limiter by exactly what
      the connection holds at the moment. */
  lemma {:induction false} OwnStepsBalance(ms: seq<Move>, ss: seq<State>, k: nat, x: nat, m: Meter)
    requires IsRun(ms, ss) && k <= |ms|
    ensures OwnChange(ms, ss, k, x, m) == Due(ss[k], x, m)
    decreases k
  {
    if k > 0 {
      OwnStepsBalance(ms, ss, k - 1, x, m);
      assert ss[k] == Step(ss[k - 1], ms[k - 1]);
      if ms[k - 1] == StepOf(x) {
        OwnStep(ss[k - 1], x, m);
      } else {
        OtherMove(ss[k - 1], x, ms[k - 1], m);
      }
    }
  }

  /** So a connection that is gone, because it ended or because either limiter refused it, has
      given back all it took: its global slot too if its inbound was full. */
  lemma RefusalReturnsSlot(ms: seq<Move>, ss: seq<State>, k: nat, x: nat, m: Meter)
    requires IsRun(ms, ss) && k <= |ms| && x in ss[k].conns && ss[k].conns[x].stage.Gone?
    ensures OwnChange(ms, ss, k, x, m) == 0
  {
    OwnStepsBalance(ms, ss, k, x, m);
  }

  // ---------------------------------------------------------------- every connection moves on

  /** Own steps a connection still has before it at most. */
  function Rank(g: Stage): nat {
    match g
    case Accepted => 8
    case GlobalPermit => 7
    case GlobalHeld => 6
    case InboundPermit => 5
    case Running => 4
    case InboundUncounted => 3
    case Closing => 2
    case GlobalUncounted => 1
    case Gone => 0
  }

  function OwnSteps(ms: seq<Move>, k: nat, x: nat): nat
    requires k <= |ms|
  {
    if k == 0 then 0 else OwnSteps(ms, k - 1, x) + if ms[k - 1] == StepOf(x) then 1 else 0
  }

  lemma MovesOn(s: State, move: Move, x: nat)
    requires Enabled(s, move) && x in s.conns
    ensures var t := Step(s, move);
            && x in t.conns
            && (move != StepOf(x) ==> t.conns[x] == s.conns[x])
            && (move == StepOf(x) && !s.conns[x].stage.Gone? ==> Rank(t.conns[x].stage) < Rank(s.conns[x].stage))
            && (s.conns[x].stage.Gone? ==> t.conns[x].stage.Gone?)
  {
  }

  /** In every interleaving every own step of a connection that is not gone brings it closer to
      being gone, and no step of another holds it back. */
  lemma {:induction false} StepsMoveOn(ms: seq<Move>, ss: seq<State>, i: nat, k: nat, x: nat)
    requires IsRun(ms, ss) && i <= k <= |ms| && x in ss[i].conns
    ensures x in ss[k].conns && OwnSteps(ms, i, x) <= OwnSteps(ms, k, x)
    ensures ss[k].conns[x].stage.Gone?
            || Rank(ss[k].conns[x].stage) + OwnSteps(ms, k, x) - OwnSteps(ms, i, x) <= Rank(ss[i].conns[x].stage)
    decreases k
  {
    if i < k {
      StepsMoveOn(ms, ss, i, k - 1, x);
      MovesOn(ss[k - 1], ms[k - 1], x);
    }
  }

  /** So a connection whose guards are being dropped, because its inbound was full or its task
      ended, has given back its global slot after two more steps of its own. */
  lemma SlotIsBackSoon(ms: seq<Move>, ss: seq<State>, i: nat, k: nat, x: nat, m: Meter)
    requires IsRun(ms, ss) && i <= k <= |ms| && x in ss[i].conns && ss[i].conns[x].stage.Closing?
    requires OwnSteps(ms, k, x) >= OwnSteps(ms, i, x) + 2
    ensures x in ss[k].conns && ss[k].conns[x].stage.Gone? && OwnChange(ms, ss, k, x, m) == 0
  {
    StepsMoveOn(ms, ss, i, k, x);
    RefusalReturnsSlot(ms, ss, k, x, m);
  }

  /** A full limiter turns the connection away. */
  predicate TurnedAway(s: State, x: nat) {
    && x in s.conns && s.conns[x].inbound < |s.inbounds|
    && var v := ViewOf(s, x);
       || (v.stage.Accepted? && v.global.permits == 0)
       || (v.stage.GlobalHeld? && v.local.Some? && v.local.value.permits == 0)
  }

  ghost predicate WasTurnedAway(ms: seq<Move>, ss: seq<State>, k: nat, x: nat)
    requires |ss| == |ms| + 1 && k <= |ms|
  {
    k > 0 && (WasTurnedAway(ms, ss, k - 1, x) || (ms[k - 1] == StepOf(x) && TurnedAway(ss[k - 1], x)))
  }

  ghost predicate HasRun(ss: seq<State>, k: nat, x: nat)
    requires k < |ss|
  {
    (x in ss[k].conns && ss[k].conns[x].stage.Running?) || (k > 0 && HasRun(ss, k - 1, x))
  }

  predicate OnItsWayOut(g: Stage) { g in {InboundUncounted, Closing, GlobalUncounted, Gone} }

  /** Every connection runs unless a full limiter turns it away: no other way leads out. */
  lemma {:induction false} RunsUnlessTurnedAway(ms: seq<Move>, ss: seq<State>, k: nat, x: nat)
    requires IsRun(ms, ss) && k <= |ms| && x in ss[k].conns && OnItsWayOut(ss[k].conns[x].stage)
    ensures WasTurnedAway(ms, ss, k, x) || HasRun(ss, k, x)
    decreases k
  {
    assert k > 0;
    var s, m := ss[k - 1], ms[k - 1];
    assert ss[k] == Step(s, m);
    if x in s.conns && OnItsWayOut(s.conns[x].stage) {
      RunsUnlessTurnedAway(ms, ss, k - 1, x);
    }
  }
}

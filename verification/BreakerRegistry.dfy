/** The dispatcher's table of circuit breakers, filled by a lookup under the read lock and,
    when that misses, a get-or-insert under the write lock. */
module BreakerRegistry {
  import B = Breaker

  const DEFAULT_CONFIG := B.Config(5, 2, 30000)

  class Registry {
    var breakers: map<string, B.CircuitBreaker>

    constructor ()
      ensures breakers == map[]
    {
      breakers := map[];
    }

    /** One caller alone: an existing breaker is returned untouched, a missing one is created. */
    method BreakerFor(tag: string) returns (cb: B.CircuitBreaker)
      modifies this
      ensures tag in breakers && cb == breakers[tag]
      ensures tag in old(breakers) ==> breakers == old(breakers)
      ensures tag !in old(breakers) ==>
        && breakers == old(breakers)[tag := cb]
        && fresh(cb) && cb.Model() == B.INIT && cb.config == DEFAULT_CONFIG
    {
      if tag in breakers {
        return breakers[tag];
      }
      if tag !in breakers {
        var made := new B.CircuitBreaker(DEFAULT_CONFIG);
        breakers := breakers[tag := made];
      }
      cb := breakers[tag];
    }
  }

  // ---------------------------------------------------------------- many callers

  /** Where a caller is: before the lookup, between the two locks, or holding a breaker. */
  datatype Phase = Arrived | Missed | Holding(breaker: nat)

  datatype Caller = Caller(tag: string, phase: Phase)

  /** Breakers are named by the order of their creation. */
  datatype State = State(table: map<string, nat>, created: nat, callers: map<nat, Caller>)

  const INIT := State(map[], 0, map[])

  datatype Move = Arrive(who: nat, tag: string) | Lookup(who: nat) | GetOrInsert(who: nat)

  predicate Enabled(s: State, m: Move) {
    match m
    case Arrive(who, _) => who !in s.callers
    case Lookup(who) => who in s.callers && s.callers[who].phase.Arrived?
    case GetOrInsert(who) => who in s.callers && s.callers[who].phase.Missed?
  }

  function Step(s: State, m: Move): State
    requires Enabled(s, m)
  {
    match m
    case Arrive(who, tag) => s.(callers := s.callers[who := Caller(tag, Arrived)])
    case Lookup(who) =>
      var c := s.callers[who];
      var phase := if c.tag in s.table then Holding(s.table[c.tag]) else Missed;
      s.(callers := s.callers[who := c.(phase := phase)])
    case GetOrInsert(who) =>
      var c := s.callers[who];
      if c.tag in s.table then
        s.(callers := s.callers[who := c.(phase := Holding(s.table[c.tag]))])
      else
        State(s.table[c.tag := s.created], s.created + 1, s.callers[who := c.(phase := Holding(s.created))])
  }

  ghost predicate IsRun(ms: seq<Move>, ss: seq<State>) {
    && |ss| == |ms| + 1
    && ss[0] == INIT
    && forall i :: 0 <= i < |ms| ==> Enabled(ss[i], ms[i]) && ss[i + 1] == Step(ss[i], ms[i])
  }

  ghost predicate TableConsistent(s: State) {
    && (forall t :: t in s.table ==> s.table[t] < s.created)
    && (forall t, u :: t in s.table && u in s.table && t != u ==> s.table[t] != s.table[u])
    && |s.table| == s.created
  }

  ghost predicate CallerConsistent(s: State, c: Caller) {
    c.phase.Holding? ==> c.tag in s.table && s.table[c.tag] == c.phase.breaker
  }

  ghost predicate Consistent(s: State) {
    TableConsistent(s) && forall w :: w in s.callers ==> CallerConsistent(s, s.callers[w])
  }

  lemma StepConsistent(s: State, m: Move)
    requires Enabled(s, m) && Consistent(s)
    ensures Consistent(Step(s, m))
  {
    var t := Step(s, m);
    assert TableConsistent(t);
    forall w | w in t.callers
      ensures CallerConsistent(t, t.callers[w])
    {
      assert w in s.callers ==> CallerConsistent(s, s.callers[w]);
    }
  }

  lemma {:induction false} AlwaysConsistent(ms: seq<Move>, ss: seq<State>, k: nat)
    requires IsRun(ms, ss) && k <= |ms|
    ensures Consistent(ss[k])
    decreases k
  {
    if k > 0 {
      AlwaysConsistent(ms, ss, k - 1);
      StepConsistent(ss[k - 1], ms[k - 1]);
    }
  }

  /** A stored breaker is never replaced or dropped. */
  lemma {:induction false} NeverReplaced(ms: seq<Move>, ss: seq<State>, i: nat, j: nat, tag: string)
    requires IsRun(ms, ss) && i <= j <= |ms| && tag in ss[i].table
    ensures tag in ss[j].table && ss[j].table[tag] == ss[i].table[tag]
    decreases j
  {
    if i < j {
      NeverReplaced(ms, ss, i, j - 1, tag);
      assert ss[j] == Step(ss[j - 1], ms[j - 1]);
    }
  }

  /** In every interleaving of any number of callers, two callers hold the same breaker
      exactly when they asked for the same tag, whenever each of them got it. */
  lemma SameTagSameBreaker(ms: seq<Move>, ss: seq<State>, i: nat, j: nat, v: nat, w: nat)
    requires IsRun(ms, ss) && i <= j <= |ms|
    requires v in ss[i].callers && ss[i].callers[v].phase.Holding?
    requires w in ss[j].callers && ss[j].callers[w].phase.Holding?
    ensures ss[i].callers[v].phase.breaker == ss[j].callers[w].phase.breaker
            <==> ss[i].callers[v].tag == ss[j].callers[w].tag
  {
    AlwaysConsistent(ms, ss, i);
    AlwaysConsistent(ms, ss, j);
    NeverReplaced(ms, ss, i, j, ss[i].callers[v].tag);
  }

  /** A caller that arrives once its tag is stored never goes to the write lock. */
  lemma {:induction false} LateCallersNeverMiss(ms: seq<Move>, ss: seq<State>, i: nat, j: nat, who: nat)
    requires IsRun(ms, ss) && i < j <= |ms|
    requires ms[i].Arrive? && ms[i].who == who && ms[i].tag in ss[i].table
    ensures who in ss[j].callers && ss[j].callers[who].tag == ms[i].tag && !ss[j].callers[who].phase.Missed?
    decreases j
  {
    assert ss[j] == Step(ss[j - 1], ms[j - 1]) && Enabled(ss[j - 1], ms[j - 1]);
    if i + 1 < j {
      LateCallersNeverMiss(ms, ss, i, j - 1, who);
      NeverReplaced(ms, ss, i, j - 1, ms[i].tag);
    }
  }

  /** Exactly one breaker is ever created per tag. */
  lemma OneBreakerPerTag(ms: seq<Move>, ss: seq<State>, k: nat)
    requires IsRun(ms, ss) && k <= |ms|
    ensures ss[k].created == |ss[k].table|
  {
    AlwaysConsistent(ms, ss, k);
  }
}

/** The token-bucket rate limiter. Time is in whole milliseconds of a monotone clock, and
    the 64-bit signed arithmetic of the source wraps around. */
module TokenBucket {
  import opened Basics

  const TWO63: int := 0x8000_0000_0000_0000
  const TWO64: int := 0x1_0000_0000_0000_0000

  /** Conversion of an integer to 64 signed bits. */
  function Wrap(x: int): (w: int)
    ensures -TWO63 <= w < TWO63
    ensures -TWO63 <= x < TWO63 ==> w == x
  {
    (x + TWO63) % TWO64 - TWO63
  }

  /** Milliseconds since the last refill times the rate, as the source computes it. */
  function Product(rate: int, elapsed: int): int {
    Wrap(Wrap(elapsed) * rate)
  }

  function TruncatingDiv(a: int, b: int): int
    requires b > 0
  {
    if a >= 0 then a / b else -((-a) / b)
  }

  datatype State = State(tokens: int, lastRefill: nat)

  function Refill(max: int, s: State, now: nat): State {
    var gained := TruncatingDiv(Product(max, Max(0, now - s.lastRefill)), 1000);
    if gained > 0 then State(Min(Wrap(s.tokens + gained), max), now) else s
  }

  /** What `try_consume(n)` grants in a refilled state. */
  function Granted(s: State, n: nat): nat {
    Max(0, Min(Wrap(n), s.tokens))
  }

  function TryConsume(max: int, s: State, n: nat, now: nat): State {
    var r := Refill(max, s, now);
    r.(tokens := r.tokens - Granted(r, n))
  }

  class RateLimiter {
    var tokens: int
    const maxTokens: int
    var lastRefill: nat

    ghost function Model(): State
      reads this
    {
      State(tokens, lastRefill)
    }

    constructor (bytesPerSecond: nat, now: nat)
      ensures maxTokens == Wrap(bytesPerSecond) && Model() == State(maxTokens, now)
    {
      maxTokens, tokens, lastRefill := Wrap(bytesPerSecond), Wrap(bytesPerSecond), now;
    }

    method RefillBucket(now: nat)
      modifies this
      ensures Model() == Refill(maxTokens, old(Model()), now)
    {
      var elapsed := Max(0, now - lastRefill);
      var gained := TruncatingDiv(Wrap(Wrap(elapsed) * maxTokens), 1000);
      if gained > 0 {
        tokens := Min(Wrap(tokens + gained), maxTokens);
        lastRefill := now;
      }
    }

    method Consume(n: nat, now: nat) returns (granted: nat)
      modifies this
      ensures Model() == TryConsume(maxTokens, old(Model()), n, now)
      ensures granted == Granted(Refill(maxTokens, old(Model()), now), n)
    {
      RefillBucket(now);
      var available := tokens;
      var consume := Max(Min(Wrap(n), available), 0);
      if consume > 0 {
        tokens := tokens - consume;
      }
      granted := consume;
    }

    method Available(now: nat) returns (available: nat)
      modifies this
      ensures Model() == Refill(maxTokens, old(Model()), now)
      ensures available == Max(0, tokens)
    {
      RefillBucket(now);
      available := Max(tokens, 0);
    }
  }

  // ---------------------------------------------------------------- runs

  datatype Call = Consume(n: nat, at: nat) | Query(at: nat)

  function Step(max: int, s: State, c: Call): State {
    match c
    case Consume(n, now) => TryConsume(max, s, n, now)
    case Query(now) => Refill(max, s, now)
  }

  function Grant(max: int, s: State, c: Call): nat {
    if c.Consume? then Granted(Refill(max, s, c.at), c.n) else 0
  }

  ghost predicate IsRun(max: int, cs: seq<Call>, ss: seq<State>) {
    && |ss| == |cs| + 1
    && ss[0].tokens == max
    && (forall i :: 0 <= i < |cs| ==> ss[0].lastRefill <= cs[i].at && ss[i + 1] == Step(max, ss[i], cs[i]))
    && (forall i, j :: 0 <= i <= j < |cs| ==> cs[i].at <= cs[j].at)
  }

  /** Tokens granted by calls i .. j - 1. */
  function Consumed(max: int, cs: seq<Call>, ss: seq<State>, i: nat, j: nat): nat
    requires |ss| == |cs| + 1 && i <= j <= |cs|
  {
    if i == j then 0 else Consumed(max, cs, ss, i, j - 1) + Grant(max, ss[j - 1], cs[j - 1])
  }

  // ---------------------------------------------------------------- wrapped products

  lemma WrapShift(x: int, k: int)
    ensures Wrap(x + k * TWO64) == Wrap(x)
  {
    var y := x + TWO63;
    assert y == TWO64 * (y / TWO64) + y % TWO64;
    assert y + k * TWO64 == TWO64 * (y / TWO64 + k) + y % TWO64;
    ModUnique(y + k * TWO64, y / TWO64 + k, y % TWO64);
  }

  lemma ModUnique(n: int, q: int, r: int)
    requires n == TWO64 * q + r && 0 <= r < TWO64
    ensures n % TWO64 == r
  {
  }

  lemma WrapIsShift(x: int) returns (k: int)
    ensures x == Wrap(x) + k * TWO64
  {
    k := (x + TWO63) / TWO64;
  }

  /** Only the last conversion of the product matters. */
  lemma ProductIsWrapped(rate: int, elapsed: int)
    ensures Product(rate, elapsed) == Wrap(elapsed * rate)
  {
    var k := WrapIsShift(elapsed);
    Distribute(Wrap(elapsed), k, rate);
    WrapShift(Wrap(elapsed) * rate, k * rate);
  }

  lemma Distribute(w: int, k: int, rate: int)
    ensures (w + k * TWO64) * rate == w * rate + (k * rate) * TWO64
  {
  }

  lemma WrapBelow(y: int)
    requires -TWO63 <= y
    ensures Wrap(y) <= y
  {
  }

  lemma WrapGrows(x: int, y: int)
    requires 0 <= y
    ensures Wrap(x + y) <= Max(0, Wrap(x)) + y
  {
    var k := WrapIsShift(x);
    WrapShift(Wrap(x) + y, k);
    WrapBelow(Wrap(x) + y);
  }

  lemma SplitProduct(a: nat, b: nat, c: nat)
    ensures (a + b) * c == a * c + b * c && 0 <= b * c
  {
  }

  lemma LongerProduct(rate: nat, elapsed: nat, more: nat)
    ensures Product(rate, elapsed + more) == Wrap(elapsed * rate + more * rate)
  {
    SplitProduct(elapsed, more, rate);
    ProductIsWrapped(rate, elapsed + more);
  }

  /** Waiting longer adds at most the waiting time's worth, even across a wrap-around. */
  lemma ProductGrows(rate: nat, elapsed: nat, more: nat)
    ensures Product(rate, elapsed + more) <= Max(0, Product(rate, elapsed)) + more * rate
  {
    ProductIsWrapped(rate, elapsed);
    LongerProduct(rate, elapsed, more);
    SplitProduct(elapsed, more, rate);
    WrapGrows(elapsed * rate, more * rate);
  }

  // ---------------------------------------------------------------- the rate bound

  /** Thousandths of a token in hand at time `t`: those stored and those accrued. */
  function Credit(rate: nat, s: State, t: nat): nat {
    1000 * Max(0, s.tokens) + Max(0, Product(rate, Max(0, t - s.lastRefill)))
  }

  lemma RefillCases(rate: nat, s: State, now: nat)
    requires s.lastRefill <= now
    ensures var product := Product(rate, now - s.lastRefill);
            Refill(rate, s, now) ==
            if product < 1000 then s else State(Min(Wrap(s.tokens + product / 1000), rate), now)
  {
    var product := Product(rate, now - s.lastRefill);
    if product < 1000 {
      assert TruncatingDiv(product, 1000) <= 0;
    }
  }

  lemma WrapOfSum(tokens: int, gained: nat)
    requires -TWO63 <= tokens < TWO63
    ensures Max(0, Wrap(tokens + gained)) <= Max(0, tokens) + gained
  {
    WrapBelow(tokens + gained);
  }

  lemma WholeTokens(tokens: nat, product: nat, credit: int)
    requires credit <= 1000 * (tokens + product / 1000)
    ensures credit <= 1000 * tokens + product
  {
  }

  /** A refill turns accrued credit into tokens and creates none. */
  lemma RefillKeepsCredit(rate: nat, s: State, now: nat)
    requires rate < TWO63 && s.lastRefill <= now && -TWO63 <= s.tokens <= rate
    ensures var r := Refill(rate, s, now);
            && r.lastRefill <= now && -TWO63 <= r.tokens <= rate
            && Credit(rate, r, now) <= Credit(rate, s, now)
            && Product(rate, now - r.lastRefill) < 1000
  {
    var r, product := Refill(rate, s, now), Product(rate, now - s.lastRefill);
    RefillCases(rate, s, now);
    if product >= 1000 {
      NothingElapsed(rate);
      WrapOfSum(s.tokens, product / 1000);
      WholeTokens(Max(0, s.tokens), product, 1000 * Max(0, r.tokens));
    }
  }

  lemma Difference(a: int, b: int, rate: int)
    ensures (b - a) * rate == b * rate - a * rate
  {
  }

  lemma NonNegative(dt: nat, rate: nat)
    ensures dt * rate >= 0
  {
  }

  lemma AccrualGrows(rate: nat, last: nat, t: nat, now: nat)
    requires last <= t <= now
    ensures Max(0, Product(rate, now - last)) <= Max(0, Product(rate, t - last)) + (now * rate - t * rate)
  {
    var before, after := Product(rate, t - last), Product(rate, now - last);
    assert (t - last) + (now - t) == now - last;
    ProductGrows(rate, t - last, now - t);
    NonNegative(now - t, rate);
    Difference(t, now, rate);
    assert after <= Max(0, before) + (now - t) * rate;
  }

  lemma CreditGrows(rate: nat, s: State, t: nat, now: nat)
    requires s.lastRefill <= t <= now
    ensures Credit(rate, s, now) <= Credit(rate, s, t) + (now * rate - t * rate)
  {
    AccrualGrows(rate, s.lastRefill, t, now);
  }

  lemma NothingElapsed(rate: nat)
    ensures Product(rate, 0) == 0
  {
  }

  lemma StepCredit(rate: nat, s: State, t: nat, c: Call)
    requires rate < TWO63 && s.lastRefill <= t <= c.at && -TWO63 <= s.tokens <= rate
    ensures var u := Step(rate, s, c);
            && u.lastRefill <= c.at && -TWO63 <= u.tokens <= rate
            && 1000 * Grant(rate, s, c) + Credit(rate, u, c.at) <= Credit(rate, s, t) + (c.at * rate - t * rate)
            && Max(0, u.tokens) + Grant(rate, s, c) <= rate
            && Product(rate, c.at - u.lastRefill) < 1000
  {
    CreditGrows(rate, s, t, c.at);
    RefillKeepsCredit(rate, s, c.at);
  }

  lemma {:induction false} StateBounds(rate: nat, cs: seq<Call>, ss: seq<State>, k: nat)
    requires rate < TWO63 && IsRun(rate, cs, ss) && k <= |cs|
    ensures -TWO63 <= ss[k].tokens <= rate
    ensures ss[k].lastRefill <= TimeBefore(cs, ss, k)
    ensures k < |cs| ==> TimeBefore(cs, ss, k) <= cs[k].at
    decreases k
  {
    if k > 0 {
      StateBounds(rate, cs, ss, k - 1);
      StepCredit(rate, ss[k - 1], cs[k - 1].at, cs[k - 1]);
    }
  }

  /** The clock just before the k-th call: the call before it, or the creation. */
  function TimeBefore(cs: seq<Call>, ss: seq<State>, k: nat): nat
    requires |ss| == |cs| + 1 && k <= |cs|
  {
    if k == 0 then ss[0].lastRefill else cs[k - 1].at
  }

  function Total(grants: seq<nat>, i: nat, k: nat): nat
    requires i <= k <= |grants|
  {
    if i == k then 0 else Total(grants, i, k - 1) + grants[k - 1]
  }

  /** If every grant is paid from credit and accrual, so is every stretch of grants. */
  lemma {:induction false} Telescope(grants: seq<nat>, credit: seq<nat>, worth: seq<int>, i: nat, k: nat)
    requires i <= k <= |grants| && |credit| == |worth| == |grants| + 1
    requires forall m :: 0 <= m < |grants| ==> 1000 * grants[m] + credit[m + 1] <= credit[m] + worth[m + 1] - worth[m]
    ensures 1000 * Total(grants, i, k) + credit[k] <= credit[i] + worth[k] - worth[i]
    decreases k
  {
    if i < k { Telescope(grants, credit, worth, i, k - 1); }
  }

  lemma {:induction false} ConsumedIsTotal(max: int, cs: seq<Call>, ss: seq<State>, grants: seq<nat>, i: nat, k: nat)
    requires |ss| == |cs| + 1 && |grants| == |cs| && i <= k <= |cs|
    requires forall m :: 0 <= m < |cs| ==> grants[m] == Grant(max, ss[m], cs[m])
    ensures Consumed(max, cs, ss, i, k) == Total(grants, i, k)
    decreases k
  {
    if i < k { ConsumedIsTotal(max, cs, ss, grants, i, k - 1); }
  }

  ghost function CreditAt(rate: nat, cs: seq<Call>, ss: seq<State>, k: nat): nat
    requires |ss| == |cs| + 1 && k <= |cs|
  {
    Credit(rate, ss[k], TimeBefore(cs, ss, k))
  }

  /** Calls i .. k - 1 spend at most the credit before them and what accrues meanwhile. */
  lemma SpendingIsCovered(rate: nat, cs: seq<Call>, ss: seq<State>, i: nat, k: nat)
    requires rate < TWO63 && IsRun(rate, cs, ss) && i <= k <= |cs|
    ensures 1000 * Consumed(rate, cs, ss, i, k) + CreditAt(rate, cs, ss, k)
            <= CreditAt(rate, cs, ss, i) + TimeBefore(cs, ss, k) * rate - TimeBefore(cs, ss, i) * rate
  {
    var n := |cs|;
    var grants := seq(n, m requires 0 <= m < n => Grant(rate, ss[m], cs[m]));
    var credit := seq(n + 1, m requires 0 <= m <= n => CreditAt(rate, cs, ss, m));
    var worth := seq(n + 1, m requires 0 <= m <= n => TimeBefore(cs, ss, m) * rate);
    forall m | 0 <= m < n
      ensures 1000 * grants[m] + credit[m + 1] <= credit[m] + worth[m + 1] - worth[m]
    {
      StateBounds(rate, cs, ss, m);
      StepCredit(rate, ss[m], TimeBefore(cs, ss, m), cs[m]);
    }
    Telescope(grants, credit, worth, i, k);
    ConsumedIsTotal(rate, cs, ss, grants, i, k);
  }

  lemma {:induction false} ConsumedSplit(rate: nat, cs: seq<Call>, ss: seq<State>, i: nat, k: nat)
    requires |ss| == |cs| + 1 && i < k <= |cs|
    ensures Consumed(rate, cs, ss, i, k) == Grant(rate, ss[i], cs[i]) + Consumed(rate, cs, ss, i + 1, k)
    decreases k
  {
    if i + 1 < k { ConsumedSplit(rate, cs, ss, i, k - 1); }
  }

  /** A call leaves less than a full bucket and one token's worth of credit. */
  lemma FirstGrant(rate: nat, cs: seq<Call>, ss: seq<State>, i: nat)
    requires rate < TWO63 && IsRun(rate, cs, ss) && i < |cs|
    ensures 1000 * Grant(rate, ss[i], cs[i]) + CreditAt(rate, cs, ss, i + 1) < 1000 * rate + 1000
  {
    StateBounds(rate, cs, ss, i);
    StepCredit(rate, ss[i], cs[i].at, cs[i]);
  }

  lemma LaterGrants(rate: nat, cs: seq<Call>, ss: seq<State>, i: nat, j: nat)
    requires rate < TWO63 && IsRun(rate, cs, ss) && i <= j < |cs|
    ensures 1000 * Consumed(rate, cs, ss, i + 1, j + 1)
            <= CreditAt(rate, cs, ss, i + 1) + (cs[j].at - cs[i].at) * rate
  {
    SpendingIsCovered(rate, cs, ss, i + 1, j + 1);
    Difference(cs[i].at, cs[j].at, rate);
  }

  lemma WindowSum(grant: int, spent: int, credit: int, rate: int, accrued: int)
    requires 1000 * grant + credit < 1000 * rate + 1000
    requires 1000 * spent <= credit + accrued
    ensures 1000 * (grant + spent - rate) < accrued + 1000
  {
  }

  /** In the window from call i to call j, both included, the limiter grants less than one
      token beyond a full bucket and the rate times the window's length. */
  lemma WindowBound(rate: nat, cs: seq<Call>, ss: seq<State>, i: nat, j: nat)
    requires rate < TWO63 && IsRun(rate, cs, ss) && i <= j < |cs|
    ensures 1000 * (Consumed(rate, cs, ss, i, j + 1) - rate) < (cs[j].at - cs[i].at) * rate + 1000
  {
    var spent, credit := Consumed(rate, cs, ss, i + 1, j + 1), CreditAt(rate, cs, ss, i + 1);
    var grant := Grant(rate, ss[i], cs[i]);
    assert 1000 * grant + credit < 1000 * rate + 1000 by { FirstGrant(rate, cs, ss, i); }
    assert 1000 * spent <= credit + (cs[j].at - cs[i].at) * rate by { LaterGrants(rate, cs, ss, i, j); }
    assert Consumed(rate, cs, ss, i, j + 1) == grant + spent by { ConsumedSplit(rate, cs, ss, i, j + 1); }
    WindowSum(grant, spent, credit, rate, (cs[j].at - cs[i].at) * rate);
  }

  lemma InitialCredit(rate: nat, cs: seq<Call>, ss: seq<State>)
    requires IsRun(rate, cs, ss)
    ensures CreditAt(rate, cs, ss, 0) == 1000 * rate
  {
    NothingElapsed(rate);
  }

  lemma WholeQuotient(n: int, t: int)
    requires 1000 * n <= t
    ensures n <= t / 1000
  {
  }

  lemma CreditCoversTokens(rate: nat, cs: seq<Call>, ss: seq<State>, k: nat)
    requires |ss| == |cs| + 1 && k <= |cs|
    ensures 1000 * ss[k].tokens <= CreditAt(rate, cs, ss, k)
  {
  }

  /** Counted from its creation, what was granted and what is left never exceed a full
      bucket and the whole tokens accrued since. */
  lemma CreationBound(rate: nat, cs: seq<Call>, ss: seq<State>, k: nat)
    requires rate < TWO63 && IsRun(rate, cs, ss) && k <= |cs|
    ensures Consumed(rate, cs, ss, 0, k) + ss[k].tokens
            <= rate + (TimeBefore(cs, ss, k) - TimeBefore(cs, ss, 0)) * rate / 1000
  {
    var granted, left := Consumed(rate, cs, ss, 0, k), ss[k].tokens;
    var accrued := (TimeBefore(cs, ss, k) - TimeBefore(cs, ss, 0)) * rate;
    assert 1000 * (granted + left - rate) <= accrued by {
      SpendingIsCovered(rate, cs, ss, 0, k);
      InitialCredit(rate, cs, ss);
      CreditCoversTokens(rate, cs, ss, k);
      Difference(TimeBefore(cs, ss, 0), TimeBefore(cs, ss, k), rate);
    }
    WholeQuotient(granted + left - rate, accrued);
  }

  // ---------------------------------------------------------------- limits of the arithmetic

  /** A refill whose sum leaves 64 signed bits. */
  predicate Overflows(rate: nat, s: State, now: nat) {
    s.tokens + Max(0, Product(rate, Max(0, now - s.lastRefill))) / 1000 >= TWO63
  }

  lemma SignOfSum(a: int, b: int)
    requires 0 <= a < TWO63 && 0 <= b < TWO63
    ensures 0 <= Wrap(a + b) <==> a + b < TWO63
  {
  }

  lemma SignOfRefill(rate: nat, s: State, now: nat)
    requires rate < TWO63 && s.lastRefill <= now && 0 <= s.tokens <= rate
    ensures Refill(rate, s, now).tokens <= rate
    ensures 0 <= Refill(rate, s, now).tokens <==> !Overflows(rate, s, now)
  {
    RefillCases(rate, s, now);
    var product := Product(rate, now - s.lastRefill);
    if product >= 1000 {
      SignOfSum(s.tokens, product / 1000);
    }
  }

  lemma SignOfStep(rate: nat, s: State, c: Call)
    ensures Step(rate, s, c).tokens <= Refill(rate, s, c.at).tokens
    ensures 0 <= Step(rate, s, c).tokens <==> 0 <= Refill(rate, s, c.at).tokens
  {
  }

  ghost predicate InRangeUpTo(rate: nat, ss: seq<State>, k: nat)
    requires k < |ss|
  {
    0 <= ss[k].tokens <= rate && (k > 0 ==> InRangeUpTo(rate, ss, k - 1))
  }

  ghost predicate NoOverflowBefore(rate: nat, cs: seq<Call>, ss: seq<State>, k: nat)
    requires k <= |cs| < |ss|
  {
    k > 0 ==> !Overflows(rate, ss[k - 1], cs[k - 1].at) && NoOverflowBefore(rate, cs, ss, k - 1)
  }

  /** The bucket stays between empty and full through a run exactly as long as no refill in it
      overflows. */
  lemma {:induction false} InRangeExactly(rate: nat, cs: seq<Call>, ss: seq<State>, k: nat)
    requires rate < TWO63 && IsRun(rate, cs, ss) && k <= |cs|
    ensures InRangeUpTo(rate, ss, k) <==> NoOverflowBefore(rate, cs, ss, k)
    decreases k
  {
    if k > 0 {
      var s, c := ss[k - 1], cs[k - 1];
      InRangeExactly(rate, cs, ss, k - 1);
      StateBounds(rate, cs, ss, k - 1);
      SignOfStep(rate, s, c);
      if 0 <= s.tokens <= rate {
        SignOfRefill(rate, s, c.at);
      }
    }
  }

  /** Rates for which a full bucket plus one refill stays within 64 signed bits. */
  predicate RateFits(rate: nat) {
    rate + (TWO63 - 1) / 1000 < TWO63
  }

  lemma {:induction false} TokensStayNonNegative(rate: nat, cs: seq<Call>, ss: seq<State>, k: nat)
    requires RateFits(rate) && IsRun(rate, cs, ss) && k <= |cs|
    ensures 0 <= ss[k].tokens <= rate
    decreases k
  {
    if k > 0 {
      TokensStayNonNegative(rate, cs, ss, k - 1);
      StateBounds(rate, cs, ss, k - 1);
      RefillCases(rate, ss[k - 1], cs[k - 1].at);
    }
  }

  /** The fastest rate does not fit: after one millisecond the refill of a full bucket
      overflows, and the limiter grants nothing. */
  lemma FastestRateOverflows(n: nat)
    ensures var rate := TWO63 - 1;
            !RateFits(rate) && Grant(rate, State(rate, 0), Consume(n, 1)) == 0
  {
    var rate := TWO63 - 1;
    assert Product(rate, 1) == rate;
    RefillCases(rate, State(rate, 0), 1);
    assert Wrap(rate + rate / 1000) < 0;
  }

  lemma NegativeBucket(max: int, s: State, c: Call)
    requires max < 0 && s.tokens < 0
    ensures Grant(max, s, c) == 0 && Step(max, s, c).tokens < 0
  {
  }

  lemma {:induction false} NegativeRun(max: int, cs: seq<Call>, ss: seq<State>, k: nat)
    requires max < 0 && IsRun(max, cs, ss) && k <= |cs|
    ensures ss[k].tokens < 0 && Consumed(max, cs, ss, 0, k) == 0
    decreases k
  {
    if k > 0 {
      NegativeRun(max, cs, ss, k - 1);
      NegativeBucket(max, ss[k - 1], cs[k - 1]);
    }
  }

  lemma HugeIsNegative(n: nat)
    requires TWO63 <= n < TWO64
    ensures Wrap(n) < 0
  {
  }

  /** A configured rate of 2^63 or more turns negative and blocks all traffic. */
  lemma HugeRateBlocks(bytesPerSecond: nat, cs: seq<Call>, ss: seq<State>, k: nat)
    requires TWO63 <= bytesPerSecond < TWO64 && IsRun(Wrap(bytesPerSecond), cs, ss) && k <= |cs|
    ensures ss[k].tokens < 0 && Consumed(Wrap(bytesPerSecond), cs, ss, 0, k) == 0
  {
    HugeIsNegative(bytesPerSecond);
    NegativeRun(Wrap(bytesPerSecond), cs, ss, k);
  }

  lemma SumAtLeast(a: int, b: int, rate: int)
    requires 0 <= a <= rate < TWO63 && 0 <= b < TWO63
    ensures Min(Wrap(a + b), rate) == rate <==> rate <= a + b < TWO63
  {
  }

  /** A refill leaves a full bucket exactly when the bucket was full and nothing whole accrued,
      or what accrued fills it without overflow. */
  lemma FullExactly(rate: nat, s: State, now: nat)
    requires rate < TWO63 && s.lastRefill <= now && 0 <= s.tokens <= rate
    ensures var product := Product(rate, now - s.lastRefill);
            Refill(rate, s, now).tokens == rate
            <==> if product < 1000 then s.tokens == rate else rate <= s.tokens + product / 1000 < TWO63
  {
    RefillCases(rate, s, now);
    var product := Product(rate, now - s.lastRefill);
    if product >= 1000 {
      SumAtLeast(s.tokens, product / 1000, rate);
    }
  }

  lemma AtLeastASecond(elapsed: nat, rate: nat)
    requires 1000 <= elapsed
    ensures rate <= elapsed * rate / 1000
  {
    assert elapsed * rate >= 1000 * rate;
  }

  /** A bucket left alone for a second is full, as long as the product does not overflow. */
  lemma FullAfterASecond(rate: nat, s: State, now: nat)
    requires RateFits(rate) && 0 <= s.tokens <= rate
    requires s.lastRefill + 1000 <= now && (now - s.lastRefill) * rate < TWO63
    ensures Refill(rate, s, now).tokens == rate
  {
    var product := Product(rate, now - s.lastRefill);
    ProductIsWrapped(rate, now - s.lastRefill);
    AtLeastASecond(now - s.lastRefill, rate);
    RefillCases(rate, s, now);
    if product >= 1000 {
      assert Wrap(s.tokens + product / 1000) >= rate;
    }
  }
}

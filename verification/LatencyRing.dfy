/** The latency ring of the connection tracker and the percentiles read from it. */
module LatencyRing {
  import opened Basics

  const CAPACITY: nat := 2048

  /** The last `n` values of a history, or all of it. */
  function LastOf(history: seq<nat>, n: nat): seq<nat> {
    if |history| <= n then history else history[|history| - n..]
  }

  class LatencyRing {
    var ring: seq<nat>
    ghost var history: seq<nat>

    /** The ring is exactly the most recent latencies. */
    ghost predicate Valid()
      reads this
    {
      ring == LastOf(history, CAPACITY)
    }

    constructor ()
      ensures Valid() && history == []
    {
      ring, history := [], [];
    }

    method RecordLatency(ms: nat)
      requires Valid()
      modifies this
      ensures Valid() && history == old(history) + [ms]
    {
      ring := ring + [ms];
      history := history + [ms];
      while |ring| > CAPACITY
        invariant history == old(history) + [ms]
        invariant |ring| <= |history| && ring == history[|history| - |ring|..]
        invariant CAPACITY <= |ring| || ring == history
      {
        ring := ring[1..];
      }
    }

    /** The three percentiles, each pinned down by its rank among the recorded latencies. */
    method Percentiles() returns (empty: bool, p50: nat, p95: nat, p99: nat)
      requires Valid()
      ensures empty <==> history == []
      ensures !empty ==> p50 <= p95 <= p99
      ensures !empty ==>
        var last := LastOf(history, CAPACITY);
        && HasRank(last, p50, RankOf(|last|, 50))
        && HasRank(last, p95, RankOf(|last|, 95))
        && HasRank(last, p99, RankOf(|last|, 99))
    {
      empty, p50, p95, p99 := |ring| == 0, 0, 0, 0;
      if !empty {
        var values := Sorted(ring);
        PercentilesHaveRanks(ring, values);
        p50 := values[RankOf(|values|, 50)];
        p95 := values[RankOf(|values|, 95)];
        p99 := values[RankOf(|values|, 99)];
      }
    }
  }

  // ---------------------------------------------------------------- ranks

  function CountBelow(s: seq<nat>, v: nat): nat {
    if s == [] then 0 else (if s[0] < v then 1 else 0) + CountBelow(s[1..], v)
  }

  /** `v` is what stands at index `k` when `s` is put in order. */
  ghost predicate HasRank(s: seq<nat>, v: nat, k: nat) {
    v in s && CountBelow(s, v) <= k < CountBelow(s, v + 1)
  }

  /** The integer nearest to (n - 1) * percent / 100, the upper one of two equally near. */
  function RankOf(n: nat, percent: nat): (r: nat)
    requires n > 0
    ensures 2 * (n - 1) * percent - 100 < 200 * r <= 2 * (n - 1) * percent + 100
  {
    (2 * (n - 1) * percent + 100) / 200
  }

  lemma RankInRange(n: nat, p: nat, q: nat)
    requires n > 0 && p <= q <= 100
    ensures RankOf(n, p) <= RankOf(n, q) < n
  {
    var x, y := 2 * (n - 1) * p, 2 * (n - 1) * q;
    assert x <= y <= 200 * (n - 1) by {
      ProductMonotone(2 * (n - 1), p, q);
      ProductMonotone(2 * (n - 1), q, 100);
    }
    NearestInOrder(x, y, RankOf(n, p), RankOf(n, q), n);
  }

  lemma NearestInOrder(x: nat, y: nat, r: nat, s: nat, n: nat)
    requires x <= y <= 200 * (n - 1)
    requires x - 100 < 200 * r <= x + 100 && y - 100 < 200 * s <= y + 100
    ensures r <= s < n
  {
  }

  /** Rank determines value: no other number has the same rank. */
  lemma RankIsUnique(s: seq<nat>, v: nat, w: nat, k: nat)
    requires HasRank(s, v, k) && HasRank(s, w, k)
    ensures v == w
  {
    if v < w {
      CountMonotone(s, v + 1, w);
    } else if w < v {
      CountMonotone(s, w + 1, v);
    }
  }

  lemma {:induction false} CountMonotone(s: seq<nat>, v: nat, w: nat)
    requires v <= w
    ensures CountBelow(s, v) <= CountBelow(s, w)
    decreases |s|
  {
    if s != [] { CountMonotone(s[1..], v, w); }
  }

  // ---------------------------------------------------------------- sorting

  ghost predicate InOrder(s: seq<nat>) {
    forall i, j :: 0 <= i < j < |s| ==> s[i] <= s[j]
  }

  function Insert(s: seq<nat>, v: nat): (t: seq<nat>)
    ensures multiset(t) == multiset(s) + multiset{v}
  {
    if s == [] then [v]
    else if v <= s[0] then [v] + s
    else
      assert s == [s[0]] + s[1..];
      [s[0]] + Insert(s[1..], v)
  }

  /** Any sorting routine will do: the ranks do not depend on it. */
  function Sorted(s: seq<nat>): (t: seq<nat>)
    ensures multiset(t) == multiset(s) && |t| == |s|
  {
    if s == [] then []
    else
      assert s == [s[0]] + s[1..];
      var t := Insert(Sorted(s[1..]), s[0]);
      assert |t| == |multiset(t)| && |s| == |multiset(s)|;
      t
  }

  lemma {:induction false} InsertMembers(s: seq<nat>, v: nat, x: nat)
    requires x in Insert(s, v)
    ensures x == v || x in s
    decreases |s|
  {
    if s != [] && s[0] < v && x != s[0] {
      InsertMembers(s[1..], v, x);
    }
  }

  lemma {:induction false} InsertKeepsOrder(s: seq<nat>, v: nat)
    requires InOrder(s)
    ensures InOrder(Insert(s, v))
    decreases |s|
  {
    if s != [] && s[0] < v {
      var t := Insert(s[1..], v);
      InsertKeepsOrder(s[1..], v);
      forall i | 0 <= i < |t|
        ensures s[0] <= t[i]
      {
        InsertMembers(s[1..], v, t[i]);
      }
      assert Insert(s, v) == [s[0]] + t;
    }
  }

  lemma {:induction false} SortedIsSorted(s: seq<nat>)
    ensures InOrder(Sorted(s))
    decreases |s|
  {
    if s != [] {
      SortedIsSorted(s[1..]);
      InsertKeepsOrder(Sorted(s[1..]), s[0]);
    }
  }

  lemma OrderedAt(t: seq<nat>, i: nat, j: nat)
    requires InOrder(t) && i <= j < |t|
    ensures t[i] <= t[j]
  {
  }

  lemma PercentilesHaveRanks(s: seq<nat>, t: seq<nat>)
    requires t == Sorted(s) && s != []
    ensures RankOf(|t|, 50) < |t| && RankOf(|t|, 95) < |t| && RankOf(|t|, 99) < |t|
    ensures t[RankOf(|t|, 50)] <= t[RankOf(|t|, 95)] <= t[RankOf(|t|, 99)]
    ensures HasRank(s, t[RankOf(|t|, 50)], RankOf(|s|, 50))
    ensures HasRank(s, t[RankOf(|t|, 95)], RankOf(|s|, 95))
    ensures HasRank(s, t[RankOf(|t|, 99)], RankOf(|s|, 99))
  {
    SortedIsSorted(s);
    RankInRange(|t|, 50, 95);
    RankInRange(|t|, 95, 99);
    OrderedAt(t, RankOf(|t|, 50), RankOf(|t|, 95));
    OrderedAt(t, RankOf(|t|, 95), RankOf(|t|, 99));
    RankInSorted(s, t, RankOf(|t|, 50));
    RankInSorted(s, t, RankOf(|t|, 95));
    RankInSorted(s, t, RankOf(|t|, 99));
  }

  lemma {:induction false} CountSplit(s: seq<nat>, i: nat, v: nat)
    requires i < |s|
    ensures CountBelow(s, v) == (if s[i] < v then 1 else 0) + CountBelow(s[..i] + s[i + 1..], v)
    decreases |s|
  {
    var rest := s[..i] + s[i + 1..];
    if i == 0 {
      assert rest == s[1..];
    } else {
      CountSplit(s[1..], i - 1, v);
      assert s[1..][..i - 1] + s[1..][i..] == rest[1..];
    }
  }

  lemma TakenOut(s: seq<nat>, i: nat)
    requires i < |s|
    ensures multiset(s[..i] + s[i + 1..]) == multiset(s) - multiset{s[i]}
  {
    assert s == s[..i] + [s[i]] + s[i + 1..];
  }

  lemma SameRest(s: seq<nat>, t: seq<nat>, i: nat)
    requires multiset(s) == multiset(t) && s != [] && i < |t| && t[i] == s[0]
    ensures multiset(s[1..]) == multiset(t[..i] + t[i + 1..])
  {
    TakenOut(s, 0);
    TakenOut(t, i);
    assert s[..0] + s[1..] == s[1..];
  }

  lemma SameMember(s: seq<nat>, t: seq<nat>) returns (i: nat)
    requires multiset(s) == multiset(t) && s != []
    ensures i < |t| && t[i] == s[0]
  {
    assert s[0] in multiset(t);
    i :| 0 <= i < |t| && t[i] == s[0];
  }

  /** Counting ignores the order. */
  lemma {:induction false} CountPermutation(s: seq<nat>, t: seq<nat>, v: nat)
    requires multiset(s) == multiset(t)
    ensures CountBelow(s, v) == CountBelow(t, v)
    decreases |s|
  {
    if s == [] {
      assert |multiset(t)| == 0;
    } else {
      var i := SameMember(s, t);
      CountSplit(t, i, v);
      var rest := t[..i] + t[i + 1..];
      SameRest(s, t, i);
      CountPermutation(s[1..], rest, v);
    }
  }

  lemma {:induction false} CountInOrder(t: seq<nat>, v: nat, k: nat)
    requires InOrder(t) && k <= |t|
    ensures (forall i :: 0 <= i < k ==> t[i] < v) ==> k <= CountBelow(t, v)
    ensures (forall i :: k <= i < |t| ==> v <= t[i]) ==> CountBelow(t, v) <= k
    decreases |t|
  {
    if t != [] {
      if k == 0 {
        if forall i :: 0 <= i < |t| ==> v <= t[i] {
          CountInOrder(t[1..], v, 0);
        }
      } else {
        CountInOrder(t[1..], v, k - 1);
        assert forall i :: 0 <= i < k - 1 ==> t[1..][i] == t[i + 1];
        assert forall i :: k - 1 <= i < |t| - 1 ==> t[1..][i] == t[i + 1];
      }
    }
  }

  lemma RankInSorted(s: seq<nat>, t: seq<nat>, k: nat)
    requires InOrder(t) && multiset(s) == multiset(t) && k < |t|
    ensures HasRank(s, t[k], k)
  {
    var v := t[k];
    assert v in multiset(t);
    CountPermutation(s, t, v);
    CountPermutation(s, t, v + 1);
    CountInOrder(t, v, k);
    CountInOrder(t, v + 1, k + 1);
  }
}

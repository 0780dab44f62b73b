/** Sums over the values of a finite map, independent of the order of its keys. */
module MapSum {

  ghost function Sum<K>(m: map<K, nat>): nat
    decreases |m|
  {
    if m == map[] then 0
    else
      var k :| k in m;
      m[k] + Sum(m - {k})
  }

  /** Any key may be taken out first. */
  lemma {:induction false} SumTakeOut<K>(m: map<K, nat>, k: K)
    requires k in m
    ensures Sum(m) == m[k] + Sum(m - {k})
    decreases |m|
  {
    var c :| c in m && Sum(m) == m[c] + Sum(m - {c});
    if c != k {
      SumTakeOut(m - {c}, k);
      SumTakeOut(m - {k}, c);
      assert m - {c} - {k} == m - {k} - {c};
    }
  }

  /** Writing one key replaces its share of the sum. */
  lemma SumPut<K>(m: map<K, nat>, k: K, v: nat)
    ensures Sum(m[k := v]) == Sum(m - {k}) + v
    ensures k !in m ==> Sum(m[k := v]) == Sum(m) + v
    ensures k in m ==> Sum(m[k := v]) + m[k] == Sum(m) + v
  {
    SumTakeOut(m[k := v], k);
    assert m[k := v] - {k} == m - {k};
    if k in m {
      SumTakeOut(m, k);
    } else {
      assert m - {k} == m;
    }
  }

  /** One entry is never more than the whole. */
  lemma SumBounds<K>(m: map<K, nat>, k: K)
    requires k in m
    ensures m[k] <= Sum(m)
  {
    SumTakeOut(m, k);
  }

  /** The sum over a map is the sum over two parts of it. */
  lemma {:induction false} SumParts<K>(m: map<K, nat>, part: set<K>)
    ensures Sum(m) == Sum(m - part) + Sum(map k | k in m && k in part :: m[k])
    decreases |m|
  {
    var inside := map k | k in m && k in part :: m[k];
    if k :| k in inside {
      SumParts(m - {k}, part);
      SumTakeOut(m, k);
      SumTakeOut(inside, k);
      assert m - {k} - part == m - part;
      assert (map j | j in m - {k} && j in part :: (m - {k})[j]) == inside - {k};
    } else {
      assert inside == map[];
      assert forall k :: k in m && k in part ==> k in inside;
      assert m - part == m;
    }
  }
}

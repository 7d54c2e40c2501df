/** Sums over finite maps: the arithmetic behind reference counts and byte ledgers. */
module Sums {

  ghost function Pick<K>(m: map<K, int>): (k: K)
    requires |m| != 0
    ensures k in m && |m - {k}| < |m|
  {
    var k :| k in m;
    assert m.Keys == (m - {k}).Keys + {k};
    k
  }

  ghost function Sum<K>(m: map<K, int>): int
    decreases |m|
  {
    if |m| == 0 then 0 else m[Pick(m)] + Sum(m - {Pick(m)})
  }

  /** The sum does not depend on the order in which keys are taken. */
  lemma {:induction false} SumRemove<K>(m: map<K, int>, k: K)
    requires k in m
    ensures Sum(m) == m[k] + Sum(m - {k})
    decreases |m|
  {
    var j := Pick(m);
    if j != k {
      assert m.Keys == (m - {k}).Keys + {k};
      assert |m - {j}| < |m| && |m - {k}| < |m|;
      calc {
        Sum(m);
        m[j] + Sum(m - {j});
        { SumRemove(m - {j}, k); }
        m[j] + m[k] + Sum(m - {j} - {k});
        { assert m - {j} - {k} == m - {k} - {j}; }
        m[j] + m[k] + Sum(m - {k} - {j});
        { SumRemove(m - {k}, j); }
        m[k] + Sum(m - {k});
      }
    }
  }

  lemma SumUpdate<K>(m: map<K, int>, k: K, v: int)
    ensures Sum(m[k := v]) == Sum(m) - (if k in m then m[k] else 0) + v
  {
    hide Sum;
    SumRemove(m[k := v], k);
    assert m[k := v] - {k} == m - {k};
    if k in m {
      SumRemove(m, k);
    } else {
      assert m - {k} == m;
    }
  }

  lemma {:induction false} SumNonNegative<K>(m: map<K, int>)
    requires forall k :: k in m ==> m[k] >= 0
    ensures Sum(m) >= 0
    ensures forall k :: k in m ==> m[k] <= Sum(m)
    decreases |m|
  {
    forall k | k in m ensures m[k] <= Sum(m) && Sum(m) >= 0 {
      assert m.Keys == (m - {k}).Keys + {k};
      SumRemove(m, k);
      SumNonNegative(m - {k});
    }
    if |m| != 0 {
      var k :| k in m;
      assert m[k] <= Sum(m);
    }
  }

  lemma {:induction false} SumZero<K>(m: map<K, int>)
    requires forall k :: k in m ==> m[k] == 0
    ensures Sum(m) == 0
    decreases |m|
  {
    if |m| != 0 {
      var k :| k in m;
      assert m.Keys == (m - {k}).Keys + {k};
      SumRemove(m, k);
      SumZero(m - {k});
    }
  }
}

/** The sum of the values of a finite map, as `sum(d.values())` and the gateway's loop over a HGETALL
    reply compute it. */
module Sums {

  ghost function Sum<K(!new)>(m: map<K, int>): int {
    SumOver(m.Keys, m)
  }

  // The sum of the values of m at `keys`.
  ghost function SumOver<K(!new)>(keys: set<K>, m: map<K, int>): int
    requires keys <= m.Keys
  {
    if keys == {} then 0
    else
      var k :| k in keys;
      m[k] + SumOver(keys - {k}, m)
  }

  lemma {:induction false} SumOverRemove<K(!new)>(keys: set<K>, m: map<K, int>, k: K)
    requires k in keys && keys <= m.Keys
    ensures SumOver(keys, m) == m[k] + SumOver(keys - {k}, m)
  {
    var j :| j in keys && SumOver(keys, m) == m[j] + SumOver(keys - {j}, m);
    if j != k {
      SumOverRemove(keys - {j}, m, k);
      SumOverRemove(keys - {k}, m, j);
      assert keys - {j} - {k} == keys - {k} - {j};
    }
  }

  lemma {:induction false} SumOverAgree<K(!new)>(keys: set<K>, m: map<K, int>, n: map<K, int>)
    requires keys <= m.Keys && keys <= n.Keys
    requires forall k | k in keys :: m[k] == n[k]
    ensures SumOver(keys, m) == SumOver(keys, n)
  {
    if keys == {} {
    } else {
      var k :| k in keys;
      SumOverRemove(keys, m, k);
      SumOverRemove(keys, n, k);
      SumOverAgree(keys - {k}, m, n);
    }
  }

  lemma SumRemove<K(!new)>(m: map<K, int>, k: K)
    requires k in m
    ensures Sum(m) == m[k] + Sum(m - {k})
  {
    SumOverRemove(m.Keys, m, k);
    assert (m - {k}).Keys == m.Keys - {k};
    SumOverAgree(m.Keys - {k}, m, m - {k});
  }

  lemma SumUpdate<K(!new)>(m: map<K, int>, k: K, v: int)
    ensures Sum(m[k := v]) == Sum(m) + v - (if k in m then m[k] else 0)
  {
    SumRemove(m[k := v], k);
    if k in m {
      SumRemove(m, k);
      assert m[k := v] - {k} == m - {k};
    } else {
      assert m[k := v] - {k} == m;
    }
  }

  lemma {:induction false} SumOverMonotone<K(!new)>(keys: set<K>, m: map<K, int>, n: map<K, int>)
    requires m.Keys <= keys && n.Keys <= keys
    requires forall k | k in m :: m[k] <= if k in n then n[k] else 0
    requires forall k | k in n :: n[k] >= 0
    ensures Sum(m) <= Sum(n)
    decreases keys
  {
    if keys == {} {
    } else {
      var k :| k in keys;
      if k in m {
        SumRemove(m, k);
      } else {
        assert m - {k} == m;
      }
      if k in n {
        SumRemove(n, k);
      } else {
        assert n - {k} == n;
      }
      SumOverMonotone(keys - {k}, m - {k}, n - {k});
    }
  }

  /** A map below another, with an absent key read as 0 and the larger map non-negative, sums to no more. */
  lemma SumMonotone<K(!new)>(m: map<K, int>, n: map<K, int>)
    requires forall k | k in m :: m[k] <= if k in n then n[k] else 0
    requires forall k | k in n :: n[k] >= 0
    ensures Sum(m) <= Sum(n)
  {
    SumOverMonotone(m.Keys + n.Keys, m, n);
  }

  lemma SumNonNegative<K(!new)>(m: map<K, int>)
    requires forall k | k in m :: m[k] >= 0
    ensures Sum(m) >= 0
  {
    SumMonotone(map[], m);
  }

  lemma SumAtLeast<K(!new)>(m: map<K, int>, k: K)
    requires forall j | j in m :: m[j] >= 0
    requires k in m
    ensures m[k] <= Sum(m)
  {
    SumRemove(m, k);
    SumNonNegative(m - {k});
  }

  lemma {:induction false} SumOverBounded<K(!new)>(keys: set<K>, m: map<K, int>, bound: int)
    requires keys <= m.Keys
    requires forall k | k in keys :: m[k] <= bound
    ensures SumOver(keys, m) <= |keys| * bound
  {
    if keys == {} {
    } else {
      var k :| k in keys;
      SumOverRemove(keys, m, k);
      SumOverBounded(keys - {k}, m, bound);
      assert |keys| == |keys - {k}| + 1;
      OneMoreTime(|keys - {k}|, bound);
    }
  }

  lemma OneMoreTime(n: int, bound: int)
    ensures (n + 1) * bound == n * bound + bound
  {
  }
}

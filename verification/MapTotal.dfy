/** The sum of the values of a finite map. */
module MapTotal {
  ghost function Total<K>(m: map<K, int>): int
    decreases m.Keys
  {
    if m.Keys == {} then 0
    else
      var k :| k in m;
      m[k] + Total(m - {k})
  }

  /** It does not matter which key is taken out first. */
  lemma {:induction false} TotalWithout<K>(m: map<K, int>, k: K)
    requires k in m
    ensures Total(m) == m[k] + Total(m - {k})
    decreases m.Keys
  {
    var j :| j in m && Total(m) == m[j] + Total(m - {j});
    if j != k {
      TotalWithout(m - {j}, k);
      TotalWithout(m - {k}, j);
      assert m - {j} - {k} == m - {k} - {j};
    }
  }

  lemma TotalPut<K>(m: map<K, int>, k: K, v: int)
    ensures Total(m[k := v]) == Total(m) + v - if k in m then m[k] else 0
  {
    TotalWithout(m[k := v], k);
    assert m[k := v] - {k} == m - {k};
    if k in m { TotalWithout(m, k); } else { assert m - {k} == m; }
  }

  lemma {:induction false} TotalMonotone<K>(a: map<K, int>, b: map<K, int>)
    requires a.Keys == b.Keys && forall k <- a.Keys :: a[k] <= b[k]
    ensures Total(a) <= Total(b)
    decreases a.Keys
  {
    if a.Keys != {} {
      var k :| k in a;
      TotalMonotone(a - {k}, b - {k});
      TotalWithout(a, k);
      TotalWithout(b, k);
    }
  }

  lemma {:induction false} TotalZero<K>(m: map<K, int>)
    requires forall k <- m.Keys :: m[k] == 0
    ensures Total(m) == 0
    decreases m.Keys
  {
    if m.Keys != {} {
      var k :| k in m;
      TotalWithout(m, k);
      TotalZero(m - {k});
    }
  }
}

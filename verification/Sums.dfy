/** The sum of the values of a finite map. */
module Sums {

  ghost function Total<K(!new)>(m: map<K, int>): int {
    if m == map[] then 0
    else
      var k :| k in m;
      m[k] + Total(m - {k})
  }

  /** The sum does not depend on which key is taken first. */
  lemma {:induction false} TakeOut<K(!new)>(m: map<K, int>, k: K)
    requires k in m
    ensures Total(m) == m[k] + Total(m - {k})
    decreases |m|
  {
    var l :| l in m && Total(m) == m[l] + Total(m - {l});
    if l != k {
      assert |(m - {l}).Keys| < |m.Keys| && |(m - {k}).Keys| < |m.Keys| by {
        assert (m - {l}).Keys == m.Keys - {l} && (m - {k}).Keys == m.Keys - {k};
      }
      TakeOut(m - {l}, k);
      TakeOut(m - {k}, l);
      assert m - {l} - {k} == m - {k} - {l};
    }
  }

  function Value<K>(m: map<K, int>, k: K): int {
    if k in m then m[k] else 0
  }

  lemma Removed<K(!new)>(m: map<K, int>, k: K)
    ensures Total(m - {k}) == Total(m) - Value(m, k)
  {
    if k in m {
      TakeOut(m, k);
    } else {
      assert m - {k} == m;
    }
  }

  lemma Updated<K(!new)>(m: map<K, int>, k: K, v: int)
    ensures Total(m[k := v]) == Total(m) - Value(m, k) + v
  {
    TakeOut(m[k := v], k);
    assert m[k := v] - {k} == m - {k};
    Removed(m, k);
  }

  lemma {:induction false} NonNegative<K(!new)>(m: map<K, int>)
    requires forall k :: k in m ==> m[k] >= 0
    ensures Total(m) >= 0
    decreases |m|
  {
    if m == map[] {
    } else {
      var k :| k in m;
      TakeOut(m, k);
      assert (m - {k}).Keys == m.Keys - {k};
      NonNegative(m - {k});
    }
  }

  lemma AtLeastOne<K(!new)>(m: map<K, int>, k: K)
    requires k in m && forall l :: l in m ==> m[l] >= 0
    ensures m[k] <= Total(m)
  {
    TakeOut(m, k);
    NonNegative(m - {k});
  }
}

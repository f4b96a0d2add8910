/** Sums over the values of a finite map: what a running total has to agree with. */
module MapSums {
  import opened PointSets

  ghost function Sum<K(!new)>(m: map<K, nat>): nat
    decreases |m|
  {
    if m == map[] then 0
    else
      var k :| k in m;
      m[k] + Sum(m - {k})
  }

  /** Any key may be taken out first. */
  lemma {:induction false} SumRemove<K(!new)>(m: map<K, nat>, k: K)
    requires k in m
    ensures Sum(m) == m[k] + Sum(m - {k})
    decreases |m|
  {
    var first :| first in m && Sum(m) == m[first] + Sum(m - {first});
    if first != k {
      SumRemove(m - {first}, k);
      SumRemove(m - {k}, first);
      assert m - {first} - {k} == m - {k} - {first};
    }
  }

  lemma SumUpdate<K(!new)>(m: map<K, nat>, k: K, value: nat)
    ensures Sum(m[k := value]) == Sum(m - {k}) + value
  {
    SumRemove(m[k := value], k);
    assert m[k := value] - {k} == m - {k};
  }

  lemma SumAbsent<K(!new)>(m: map<K, nat>, k: K)
    ensures Sum(m - {k}) + (if k in m then m[k] else 0) == Sum(m)
  {
    if k in m {
      SumRemove(m, k);
    } else {
      assert m - {k} == m;
    }
  }

  ghost function Part<K(!new)>(m: map<K, nat>, keys: set<K>): map<K, nat> {
    map k | k in m && k in keys :: m[k]
  }

  lemma {:induction false} SumSplit<K(!new)>(m: map<K, nat>, keys: set<K>)
    ensures Sum(m) == Sum(m - keys) + Sum(Part(m, keys))
    decreases |m|
  {
    var part := Part(m, keys);
    if m != map[] {
      var k := SomeElement(m.Keys);
      SumSplit(m - {k}, keys);
      SumRemove(m, k);
      var rest := Part(m - {k}, keys);
      if k in keys {
        SumRemove(part, k);
        assert part - {k} == rest;
        assert m - {k} - keys == m - keys;
      } else {
        SumRemove(m - keys, k);
        assert part == rest;
        assert m - {k} - keys == m - keys - {k};
      }
    } else {
      assert part == map[] && m - keys == map[];
    }
  }

  lemma SumEmpty<K(!new)>()
    ensures Sum<K>(map[]) == 0
  {
  }

  /** When no value is zero, only the empty map sums to zero. */
  lemma SumPositive<K(!new)>(m: map<K, nat>)
    requires forall k :: k in m ==> m[k] > 0
    ensures Sum(m) == 0 <==> m == map[]
  {
    if m != map[] {
      var k := SomeElement(m.Keys);
      SumRemove(m, k);
    }
  }
}

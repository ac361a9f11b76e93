/** How updates change the number of entries of a map. */
module MapSizes {
  lemma {:induction false} SubsetSize<T>(a: set<T>, b: set<T>)
    requires a <= b
    ensures |a| <= |b|
    ensures |a| == |b| ==> a == b
    decreases a
  {
    if a != {} {
      var x :| x in a;
      SubsetSize(a - {x}, b - {x});
    } else if |b| == 0 {
      assert b == {};
    }
  }

  lemma SizeAfterPut<K, V>(m: map<K, V>, k: K, v: V)
    ensures |m[k := v]| == if k in m then |m| else |m| + 1
  {
    var w := m[k := v];
    assert w.Keys == m.Keys + {k};
    assert |w| == |w.Keys| && |m| == |m.Keys|;
  }

  lemma SizeAfterErase<K, V>(m: map<K, V>, k: K)
    ensures |m - {k}| == if k in m then |m| - 1 else |m|
  {
    var w := m - {k};
    assert w.Keys == m.Keys - {k};
    assert |w| == |w.Keys| && |m| == |m.Keys|;
  }
}

/** Maps from keys to sets, and adding the sets of one map to those of another. */
module SetMaps {
  import opened Common

  function Merged<K, V>(values: map<K, set<V>>, more: map<K, set<V>>): map<K, set<V>> {
    map k | k in values.Keys + more.Keys :: if k in more then Lookup(values, k, {}) + more[k] else values[k]
  }

  /** Everything the first map holds is in the second. */
  predicate Under<K, V>(a: map<K, set<V>>, b: map<K, set<V>>) {
    forall k :: k in a ==> k in b && a[k] <= b[k]
  }

  lemma SubsetSize<T>(a: set<T>, b: set<T>)
    requires a <= b
    ensures |a| <= |b|
  {
    assert b == a + (b - a);
  }

  lemma UnderMerged<K, V>(a: map<K, set<V>>, b: map<K, set<V>>)
    ensures Under(a, Merged(a, b)) && Under(b, Merged(a, b))
  {
  }

  lemma UnderBoth<K, V>(a: map<K, set<V>>, b: map<K, set<V>>)
    requires Under(a, b) && Under(b, a)
    ensures a == b
  {
    assert forall k :: k in a ==> a[k] == b[k];
  }

  lemma MergedLeast<K, V>(a: map<K, set<V>>, b: map<K, set<V>>, c: map<K, set<V>>)
    requires Under(a, c) && Under(b, c)
    ensures Under(Merged(a, b), c)
  {
  }

  method MergeSets<K(==), V(==)>(values: map<K, set<V>>, more: map<K, set<V>>) returns (out: map<K, set<V>>)
    ensures out == Merged(values, more)
  {
    out := values;
    var todo := more.Keys;
    while todo != {}
      invariant todo <= more.Keys
      invariant out.Keys == values.Keys + (more.Keys - todo)
      invariant forall k :: k in more && k !in todo ==> out[k] == Lookup(values, k, {}) + more[k]
      invariant forall k :: k in values && (k !in more || k in todo) ==> out[k] == values[k]
      decreases todo
    {
      var k :| k in todo;
      out := out[k := Lookup(out, k, {}) + more[k]];
      todo := todo - {k};
    }
  }
}

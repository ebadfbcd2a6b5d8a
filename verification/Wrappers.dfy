/** Option and result types, and counting facts, shared by the other modules. */
module Wrappers {

  datatype Option<+T> = None | Some(value: T)

  datatype Result<+R, +E> = Success(value: R) | Failure(error: E)

  /** A finite map that is injective and takes values below `bound` has at most `bound` keys. */
  lemma {:induction false} InjectionBound<K>(m: map<K, nat>, bound: nat)
    requires forall k :: k in m ==> m[k] < bound
    requires forall k, l :: k in m && l in m && k != l ==> m[k] != m[l]
    ensures |m| <= bound
    decreases bound
  {
    if bound == 0 {
      assert m.Keys == {};
      assert |m.Keys| == |m|;
    } else if last :| last in m && m[last] == bound - 1 {
      var rest := map k | k in m && k != last :: m[k];
      assert rest.Keys == m.Keys - {last};
      assert |m.Keys| == |m| && |rest.Keys| == |rest|;
      InjectionBound(rest, bound - 1);
    } else {
      InjectionBound(m, bound - 1);
    }
  }

  /** An injective map has no more keys than there are values it may take. */
  lemma {:induction false} InjectionInto<K, V>(m: map<K, V>, into: set<V>)
    requires forall k :: k in m ==> m[k] in into
    requires forall k, l :: k in m && l in m && k != l ==> m[k] != m[l]
    ensures |m.Keys| <= |into|
    decreases into
  {
    if m.Keys != {} {
      var k :| k in m;
      var rest := map l | l in m && l != k :: m[l];
      assert rest.Keys == m.Keys - {k};
      InjectionInto(rest, into - {m[k]});
    }
  }

  /** A subset is no larger than its superset. */
  lemma {:induction false} SubsetCardinality<T>(a: set<T>, b: set<T>)
    requires a <= b
    ensures |a| <= |b|
    decreases a
  {
    if a != {} {
      var x :| x in a;
      SubsetCardinality(a - {x}, b - {x});
    }
  }
}

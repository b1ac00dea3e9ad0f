/** Folding a commutative operation over the values of a finite set of keys. */
module Folds {
  // Folding an operation over the values of some keys, in an arbitrary order.
  ghost function Fold<K, V, A>(f: (A, V) -> A, start: A, values: map<K, V>, keys: set<K>): A
    requires keys <= values.Keys
  {
    if keys == {} then start
    else
      var k :| k in keys;
      f(Fold(f, start, values, keys - {k}), values[k])
  }

  ghost predicate Commutes<A(!new), V(!new)>(f: (A, V) -> A) {
    forall a, v, w :: f(f(a, v), w) == f(f(a, w), v)
  }

  lemma {:induction false} FoldAdd<K, V(!new), A(!new)>(f: (A, V) -> A, start: A, values: map<K, V>, keys: set<K>, x: K)
    requires Commutes(f) && keys <= values.Keys && x in values && x !in keys
    ensures Fold(f, start, values, keys + {x}) == f(Fold(f, start, values, keys), values[x])
    decreases |keys|
  {
    var all := keys + {x};
    var k :| k in all && Fold(f, start, values, all) == f(Fold(f, start, values, all - {k}), values[k]);
    if k == x {
      assert all - {x} == keys;
    } else {
      var rest := keys - {k};
      assert all - {k} == rest + {x} && keys == rest + {k};
      FoldAdd(f, start, values, rest, x);
      FoldAdd(f, start, values, rest, k);
    }
  }

  lemma {:induction false} FoldFrame<K, V(!new), A(!new)>(f: (A, V) -> A, start: A, values: map<K, V>,
                                                          values': map<K, V>, keys: set<K>)
    requires Commutes(f) && keys <= values.Keys && keys <= values'.Keys
    requires forall k :: k in keys ==> values[k] == values'[k]
    ensures Fold(f, start, values, keys) == Fold(f, start, values', keys)
    decreases |keys|
  {
    if keys != {} {
      var k :| k in keys && Fold(f, start, values, keys) == f(Fold(f, start, values, keys - {k}), values[k]);
      FoldFrame(f, start, values, values', keys - {k});
      FoldAdd(f, start, values', keys - {k}, k);
      assert keys == (keys - {k}) + {k};
    }
  }
}

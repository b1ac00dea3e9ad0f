/**
 The incremental hash of a set of worker instances (bistro/remote/WorkerSetID.h):
 xor and wrapping sum of the two halves of every instance ID, and a count.
 */
module SetHash {
  import opened Folds
  import opened Versions

  // BistroInstanceID: the two 64-bit halves as unsigned numbers.
  datatype InstanceID = InstanceID(startTime: nat, rand: nat)

  datatype Mix = Mix(addAll: int, xorAll: nat)

  // WorkerSetHash
  datatype Hash = Hash(numWorkers: int, startTime: Mix, rand: Mix)

  const EMPTY: Hash := Hash(0, Mix(0, 0), Mix(0, 0))

  // Bitwise exclusive or of the binary expansions.
  function Xor(a: nat, b: nat): nat
    decreases a + b
  {
    if a + b == 0 then 0 else (a + b) % 2 + 2 * Xor(a / 2, b / 2)
  }

  // uint64_t addition and subtraction
  function Plus(a: int, b: int): int {
    (a + b) % TWO64
  }

  function Minus(a: int, b: int): int {
    (a - b) % TWO64
  }

  function AddValue(m: Mix, v: nat): Mix {
    Mix(Plus(m.addAll, v), Xor(m.xorAll, v))
  }

  function RemoveValue(m: Mix, v: nat): Mix {
    Mix(Minus(m.addAll, v), Xor(m.xorAll, v))
  }

  // addWorkerIDToHash
  function Add(h: Hash, id: InstanceID): Hash {
    Hash(h.numWorkers + 1, AddValue(h.startTime, id.startTime), AddValue(h.rand, id.rand))
  }

  // removeWorkerIDFromHash, which CHECKs that 0 < numWorkers.
  function Remove(h: Hash, id: InstanceID): Hash {
    Hash(h.numWorkers - 1, RemoveValue(h.startTime, id.startTime), RemoveValue(h.rand, id.rand))
  }

  lemma XorHalves(a: nat, v: nat)
    ensures Xor(a, v) / 2 == Xor(a / 2, v / 2)
    ensures Xor(a, v) % 2 == (a + v) % 2
  {}

  lemma Parity(x: int, a: int, v: int, w: int)
    requires x % 2 == (a + v) % 2
    ensures (x + w) % 2 == (a + v + w) % 2
  {}

  lemma {:induction false} XorCommutes(a: nat, v: nat, w: nat)
    ensures Xor(Xor(a, v), w) == Xor(Xor(a, w), v)
    decreases a + v + w
  {
    if a + v + w > 0 {
      var x, y := Xor(a, v), Xor(a, w);
      XorCommutes(a / 2, v / 2, w / 2);
      XorHalves(a, v);
      XorHalves(a, w);
      XorHalves(x, w);
      XorHalves(y, v);
      Parity(x, a, v, w);
      Parity(y, a, w, v);
    }
  }

  lemma XorNothing()
    ensures Xor(0, 0) == 0
  {}

  lemma {:induction false} XorUndoes(a: nat, v: nat)
    ensures Xor(Xor(a, v), v) == a
    decreases a + v
  {
    hide Xor;
    if a + v > 0 {
      var x := Xor(a, v);
      XorUndoes(a / 2, v / 2);
      XorHalves(a, v);
      XorHalves(x, v);
      Parity(x, a, v, v);
    } else {
      XorNothing();
    }
  }

  lemma PlusFlattens(a: int, v: int, w: int)
    ensures Plus(Plus(a, v), w) == Plus(a, v + w)
  {
    var q := (a + v) / TWO64;
    assert a + (v + w) == TWO64 * q + (Plus(a, v) + w);
    WrapShift(Plus(a, v) + w, q);
  }

  lemma MinusIsPlus(a: int, v: int)
    ensures Minus(a, v) == Plus(a, 0 - v)
  {}

  lemma PlusZero(a: int)
    requires 0 <= a < TWO64
    ensures Plus(a, 0) == a
  {}

  // The 64-bit sums are taken modulo 2^64 at every step.
  predicate Reduced(h: Hash) {
    0 <= h.startTime.addAll < TWO64 && 0 <= h.rand.addAll < TWO64
  }

  lemma MixCommutes(m: Mix, v: nat, w: nat)
    ensures AddValue(AddValue(m, v), w) == AddValue(AddValue(m, w), v)
  {
    XorCommutes(m.xorAll, v, w);
    PlusFlattens(m.addAll, v, w);
    PlusFlattens(m.addAll, w, v);
  }

  lemma MixUndoes(m: Mix, v: nat)
    requires 0 <= m.addAll < TWO64
    ensures RemoveValue(AddValue(m, v), v) == m
  {
    hide Xor, Plus, Minus;
    XorUndoes(m.xorAll, v);
    PlusFlattens(m.addAll, v, 0 - v);
    MinusIsPlus(Plus(m.addAll, v), v);
    PlusZero(m.addAll);
  }

  lemma AddCommutes(h: Hash, a: InstanceID, b: InstanceID)
    ensures Add(Add(h, a), b) == Add(Add(h, b), a)
  {
    MixCommutes(h.startTime, a.startTime, b.startTime);
    MixCommutes(h.rand, a.rand, b.rand);
  }

  lemma RemoveUndoesAdd(h: Hash, id: InstanceID)
    requires Reduced(h)
    ensures Remove(Add(h, id), id) == h
  {
    MixUndoes(h.startTime, id.startTime);
    MixUndoes(h.rand, id.rand);
  }

  // The hash computed from scratch over the instances of the given keys.
  ghost function HashOf<K>(ids: map<K, InstanceID>, keys: set<K>): Hash
    requires keys <= ids.Keys
  {
    Fold(Add, EMPTY, ids, keys)
  }

  lemma AddIsCommutative()
    ensures Commutes(Add)
  {
    forall h, a, b ensures Add(Add(h, a), b) == Add(Add(h, b), a) {
      AddCommutes(h, a, b);
    }
  }

  // Whatever order the workers came in, adding one more extends the hash of the rest.
  lemma HashOfAdd<K>(ids: map<K, InstanceID>, keys: set<K>, x: K)
    requires keys <= ids.Keys && x in ids && x !in keys
    ensures HashOf(ids, keys + {x}) == Add(HashOf(ids, keys), ids[x])
  {
    AddIsCommutative();
    FoldAdd(Add, EMPTY, ids, keys, x);
  }

  lemma {:induction false} HashOfCounts<K>(ids: map<K, InstanceID>, keys: set<K>)
    requires keys <= ids.Keys
    ensures HashOf(ids, keys).numWorkers == |keys| && Reduced(HashOf(ids, keys))
    decreases |keys|
  {
    if keys != {} {
      var k :| k in keys;
      HashOfAdd(ids, keys - {k}, k);
      assert keys == (keys - {k}) + {k};
      HashOfCounts(ids, keys - {k});
    }
  }

  // Removing a member gives the hash of the others; the CHECK in removal holds.
  lemma HashOfRemove<K>(ids: map<K, InstanceID>, keys: set<K>, x: K)
    requires keys <= ids.Keys && x in keys
    ensures 0 < HashOf(ids, keys).numWorkers
    ensures Remove(HashOf(ids, keys), ids[x]) == HashOf(ids, keys - {x})
  {
    var rest := keys - {x};
    assert keys == rest + {x};
    HashOfAdd(ids, rest, x);
    HashOfCounts(ids, rest);
    RemoveUndoesAdd(HashOf(ids, rest), ids[x]);
  }

  // The hash depends only on the instances of the given keys.
  lemma HashOfFrame<K>(ids: map<K, InstanceID>, ids': map<K, InstanceID>, keys: set<K>)
    requires keys <= ids.Keys && keys <= ids'.Keys
    requires forall k :: k in keys ==> ids[k] == ids'[k]
    ensures HashOf(ids, keys) == HashOf(ids', keys)
  {
    AddIsCommutative();
    FoldFrame(Add, EMPTY, ids, ids', keys);
  }
}

/**
 The overflow-aware order on worker set versions (bistro/remote/WorkerSetID.h).

 A version is a counter that is incremented forever but stored in 64 bits.  The model
 keeps the unbounded counter and wraps it wherever the source compares two versions, so
 that what the comparator sees is exactly the stored bits.
 */
module Versions {
  const TWO63: int := 0x8000_0000_0000_0000
  const TWO64: int := 0x1_0000_0000_0000_0000

  type Bits = b: int | 0 <= b < TWO64

  datatype Comparison = Earlier | NotEarlier | Fatal

  // The 64 bits in which a counter is stored, and uint64_t subtraction.
  function Wrap(version: int): Bits {
    version % TWO64
  }

  function MakeSigned(b: Bits): int {
    if b < TWO63 then b else -TWO63 + (b - TWO63)
  }

  // WorkerSetIDEarlierThan::operator(): Fatal is its LOG(FATAL).
  function Compare(a: Bits, b: Bits): Comparison {
    if MakeSigned(Wrap(a - b)) >= 0 then NotEarlier
    else if MakeSigned(Wrap(b - a)) > 0 then Earlier
    else Fatal
  }

  // Two versions lie in a window on which the comparator is trusted.
  predicate Near(x: int, y: int) {
    -TWO63 < x - y < TWO63
  }

  // The comparator depends on the distance of the counters modulo 2^64 only.
  lemma WrapDistance(x: int, y: int)
    ensures Wrap(Wrap(x) - Wrap(y)) == Wrap(x - y)
  {
    var qx, qy := x / TWO64, y / TWO64;
    assert x == TWO64 * qx + Wrap(x) && y == TWO64 * qy + Wrap(y);
    assert x - y == TWO64 * (qx - qy) + (Wrap(x) - Wrap(y));
    WrapShift(Wrap(x) - Wrap(y), qx - qy);
  }

  lemma WrapShift(d: int, q: int)
    ensures Wrap(TWO64 * q + d) == Wrap(d)
  {
    var r := d / TWO64;
    assert TWO64 * q + d == TWO64 * (q + r) + Wrap(d);
  }

  // What the comparator decides on any two counters, and when it aborts.
  lemma CompareExactly(x: int, y: int)
    ensures Compare(Wrap(x), Wrap(y)).Fatal? <==> (y - x) % TWO64 == TWO63
    ensures Compare(Wrap(x), Wrap(y)).Earlier? <==> 0 < (y - x) % TWO64 < TWO63
  {
    WrapDistance(x, y);
    WrapDistance(y, x);
    var d: int := Wrap(y - x);
    WrapShift(-d, if d == 0 then 0 else 1);
    WrapShift(-d, -((y - x) / TWO64));
    assert x - y == TWO64 * (-((y - x) / TWO64)) - d;
    assert Wrap(x - y) == if d == 0 then 0 else TWO64 - d;
  }

  // The comparator on counters.  Inside a window it is the order of the counters, so the
  // ordered containers keyed by versions are ordered by the unbounded counter.
  predicate EarlierThan(x: int, y: int)
    requires Near(x, y)
    ensures EarlierThan(x, y) <==> x < y
  {
    CompareExactly(x, y);
    Compare(Wrap(x), Wrap(y)).Earlier?
  }

  // Outside a window it is not even an order: three versions can each precede the next.
  lemma NotAnOrderOutsideWindow()
    ensures exists x, y, z ::
      Compare(Wrap(x), Wrap(y)).Earlier? && Compare(Wrap(y), Wrap(z)).Earlier? && Compare(Wrap(z), Wrap(x)).Earlier?
  {
    var x, y, z := 0, TWO63 - 1, TWO64 - 2;
    CompareExactly(x, y);
    CompareExactly(y, z);
    CompareExactly(z, x);
    assert Compare(Wrap(x), Wrap(y)).Earlier? && Compare(Wrap(y), Wrap(z)).Earlier?
      && Compare(Wrap(z), Wrap(x)).Earlier?;
  }
}

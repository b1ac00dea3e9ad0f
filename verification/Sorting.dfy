/** Sorting by a key, as std::sort does: the order of equal keys is open. */
module Sorting {
  ghost predicate IsSortOf<T>(key: T -> real, sorted: seq<T>, items: seq<T>) {
    && multiset(sorted) == multiset(items)
    && forall i, j :: 0 <= i < j < |sorted| ==> key(sorted[i]) <= key(sorted[j])
  }

  method Sort<T>(key: T -> real, items: seq<T>) returns (sorted: seq<T>)
    ensures IsSortOf(key, sorted, items)
  {
    hide IsSortOf;
    sorted := [];
    assert items[..0] == [];
    NothingIsSorted(key);
    for k := 0 to |items|
      invariant IsSortOf(key, sorted, items[..k])
    {
      assert items[..k + 1] == items[..k] + [items[k]];
      var i := 0;
      while i < |sorted| && key(sorted[i]) <= key(items[k])
        invariant 0 <= i <= |sorted| && forall m :: 0 <= m < i ==> key(sorted[m]) <= key(items[k])
      {
        i := i + 1;
      }
      InsertKeepsSort(key, sorted, items[..k], i, items[k]);
      sorted := sorted[..i] + [items[k]] + sorted[i..];
    }
    assert items[..|items|] == items;
  }

  lemma NothingIsSorted<T>(key: T -> real)
    ensures IsSortOf(key, [], [])
  {}

  lemma InsertKeepsSort<T>(key: T -> real, sorted: seq<T>, items: seq<T>, i: nat, item: T)
    requires IsSortOf(key, sorted, items) && i <= |sorted|
    requires (forall m :: 0 <= m < i ==> key(sorted[m]) <= key(item)) && (i < |sorted| ==> key(item) <= key(sorted[i]))
    ensures IsSortOf(key, sorted[..i] + [item] + sorted[i..], items + [item])
  {
    var longer := sorted[..i] + [item] + sorted[i..];
    SameElements(sorted, i, item);
    forall a, b | 0 <= a < b < |longer| ensures key(longer[a]) <= key(longer[b]) {
      InsertedAt(sorted, i, item, a);
      InsertedAt(sorted, i, item, b);
    }
  }

  lemma InsertedAt<T>(sorted: seq<T>, i: nat, item: T, a: nat)
    requires i <= |sorted| && a <= |sorted|
    ensures (sorted[..i] + [item] + sorted[i..])[a] ==
      if a < i then sorted[a] else if a == i then item else sorted[a - 1]
  {}

  lemma SameElements<T>(sorted: seq<T>, i: nat, item: T)
    requires i <= |sorted|
    ensures multiset(sorted[..i] + [item] + sorted[i..]) == multiset(sorted) + multiset{item}
  {
    assert sorted == sorted[..i] + sorted[i..];
  }
}

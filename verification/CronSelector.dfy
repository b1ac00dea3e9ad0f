/** One field of a crontab item (bistro/cron/CrontabSelector.cpp). */
module CronSelector {
  // A list of values, or, when the list is empty, an arithmetic progression.
  datatype Selector = Selector(sortedValues: seq<int>, start: int, end: int, period: int, minVal: int, maxVal: int)

  predicate Matches(sel: Selector, v: int)
    requires 0 < sel.period
  {
    if sel.sortedValues != [] then v in sel.sortedValues
    else sel.start <= v <= sel.end && (v - sel.start) % sel.period == 0
  }

  predicate Sorted(s: seq<int>) {
    forall i, j :: 0 <= i < j < |s| ==> s[i] <= s[j]
  }

  // What the constructor establishes.
  predicate Built(sel: Selector) {
    && Sorted(sel.sortedValues) && 0 < sel.period
    && (forall v :: v in sel.sortedValues ==> sel.minVal <= v <= sel.maxVal)
    && sel.minVal <= sel.start <= sel.maxVal && sel.minVal <= sel.end <= sel.maxVal
  }

  // The constructor accepts an interval that ends before it starts.
  predicate CanMatch(sel: Selector) {
    sel.sortedValues != [] || sel.start <= sel.end
  }

  // std::lower_bound
  function LowerBound(s: seq<int>, t: int): (i: nat)
    requires Sorted(s)
    ensures i <= |s| && (forall k :: 0 <= k < i ==> s[k] < t) && (forall k :: i <= k < |s| ==> t <= s[k])
  {
    if s == [] then 0
    else if t <= s[0] then 0
    else 1 + LowerBound(s[1..], t)
  }

  // The first match at or after t and false, or else the first match of all and true.
  function FindFirstMatch(sel: Selector, t: int): (int, bool)
    requires Built(sel)
  {
    if sel.sortedValues != [] then
      var i := LowerBound(sel.sortedValues, t);
      if i == |sel.sortedValues| then (sel.sortedValues[0], true) else (sel.sortedValues[i], false)
    else if t < sel.start then (sel.start, false)
    else
      var next := t + (sel.period - (t - sel.start) % sel.period) % sel.period;
      if next > sel.end then (sel.start, true) else (next, false)
  }

  lemma MultipleIsFar(d: int, p: int)
    requires 0 < p
    ensures d >= 1 ==> d * p >= p
    ensures d <= -1 ==> d * p <= -p
  {
    if d >= 1 {
      assert (d - 1) * p >= 0;
    } else if d <= -1 {
      assert (d + 1) * p <= 0;
    }
  }

  lemma MultipleMod(k: int, p: int)
    requires 0 < p
    ensures (k * p) % p == 0
  {
    var q, r := (k * p) / p, (k * p) % p;
    assert k * p == q * p + r;
    assert (k - q) * p == k * p - q * p == r;
    MultipleIsFar(k - q, p);
  }

  lemma SmallMod(a: int, p: int)
    requires 0 <= a < p
    ensures a % p == a
  {}

  // The rounded-up offset is the least multiple of the period at or after d.
  lemma RoundUp(d: int, p: int, n: int)
    requires 0 <= d && 0 < p && n == d + (p - d % p) % p
    ensures d <= n && n % p == 0 && forall x :: d <= x < n ==> x % p != 0
  {
    var q, r := d / p, d % p;
    assert d == q * p + r;
    if r == 0 {
      MultipleMod(1, p);
    } else {
      SmallMod(p - r, p);
      RoundUpFrom(q, r, p);
    }
  }

  lemma RoundUpFrom(q: int, r: int, p: int)
    requires 0 < r < p
    ensures (q * p + p) % p == 0 && forall x :: q * p + r <= x < q * p + p ==> x % p != 0
  {
    assert (q + 1) * p == q * p + p;
    MultipleMod(q + 1, p);
    forall x | q * p + r <= x < q * p + p ensures x % p != 0 {
      NoMultipleBetween(x, q, p);
    }
  }

  lemma NoMultipleBetween(x: int, q: int, p: int)
    requires 0 < p && q * p < x < q * p + p
    ensures x % p != 0
  {
    var k, r := x / p, x % p;
    assert x == k * p + r;
    if r == 0 {
      assert (k - q) * p == k * p - q * p;
      MultipleIsFar(k - q, p);
    }
  }

  // The match found is the least one at or after t; a carry means there is none, and then it
  // is the least of all.
  lemma FirstMatchIsLeast(sel: Selector, t: int)
    requires Built(sel) && CanMatch(sel)
    ensures
      var (v, carry) := FindFirstMatch(sel, t);
      && Matches(sel, v) && sel.minVal <= v <= sel.maxVal
      && (!carry ==> t <= v && forall x :: t <= x < v ==> !Matches(sel, x))
      && (carry ==> (forall x :: t <= x ==> !Matches(sel, x)) && forall x :: x < v ==> !Matches(sel, x))
  {
    if sel.sortedValues != [] {
      var i := LowerBound(sel.sortedValues, t);
      assert sel.sortedValues[0] in sel.sortedValues;
    } else if t < sel.start {
      MultipleMod(0, sel.period);
    } else {
      MultipleMod(0, sel.period);
      var next := t + (sel.period - (t - sel.start) % sel.period) % sel.period;
      RoundUp(t - sel.start, sel.period, next - sel.start);
      assert (next - sel.start) % sel.period == 0;
      forall x | t <= x < next ensures !Matches(sel, x) {
        var d := x - sel.start;
        assert d % sel.period != 0;
      }
    }
  }

  // An interval that ends before it starts matches nothing, yet a value is always returned:
  // what is returned matches exactly for the other selectors.
  lemma ResultMatchesExactly(sel: Selector, t: int)
    requires Built(sel)
    ensures Matches(sel, FindFirstMatch(sel, t).0) <==> CanMatch(sel)
  {
    if CanMatch(sel) {
      FirstMatchIsLeast(sel, t);
    }
  }

  // Minutes from 50 to 10: from 30 on, 50 is returned as a match.
  lemma BackwardsInterval()
    ensures
      var sel := Selector([], 50, 10, 1, 0, 59);
      Built(sel) && FindFirstMatch(sel, 30) == (50, false) && forall v :: !Matches(sel, v)
  {
    var sel := Selector([], 50, 10, 1, 0, 59);
    ResultMatchesExactly(sel, 30);
  }
}

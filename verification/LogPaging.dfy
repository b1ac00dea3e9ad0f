/**
 Paging through the logs of many workers in the order of line IDs
 (bistro/utils/LogWriter.cpp, bistro/runners/RemoteWorkerRunner.cpp).

 In the ascending direction a key is a line's ID.  In the descending direction it is the negated
 ID, so that both directions go from small to large keys.
 */
module LogPaging {
  import opened Options
  import opened Sorting

  datatype Line = Line(key: int, text: nat)

  // One worker's page, and the key of the first line that did not fit, if there is one.
  datatype Page = Page(lines: seq<Line>, next: Option<int>)

  // A worker's log table, ordered by its primary key.
  predicate IsLog(log: seq<Line>) {
    forall i, j :: 0 <= i < j < |log| ==> log[i].key < log[j].key
  }

  // lo None is the start, hi None the end.
  predicate Between(lo: Option<int>, l: Line, hi: Option<int>) {
    (lo.Some? ==> lo.value <= l.key) && (hi.Some? ==> l.key < hi.value)
  }

  function Filter(log: seq<Line>, lo: Option<int>, hi: Option<int>): seq<Line> {
    if log == [] then []
    else
      var init, last := Filter(log[..|log| - 1], lo, hi), log[|log| - 1];
      if Between(lo, last, hi) then init + [last] else init
  }

  // ------------------------------------------------------------ one worker

  // The rows that the query selects, at most one more than the limit.
  function Rows(log: seq<Line>, from: Option<int>, limit: nat): seq<Line> {
    var all := Filter(log, from, None);
    if |all| <= limit + 1 then all else all[..limit + 1]
  }

  function WorkerPage(log: seq<Line>, from: Option<int>, limit: nat): Page {
    var rows := Rows(log, from, limit);
    if |rows| <= limit then Page(rows, None) else Page(rows[..limit], Some(rows[limit].key))
  }

  method GetWorkerPage(log: seq<Line>, from: Option<int>, limit: nat) returns (page: Page)
    ensures page == WorkerPage(log, from, limit)
  {
    var rows := Rows(log, from, limit);
    page := Page([], None);
    for k := 0 to |rows|
      invariant page == Page(rows[..k], None)
    {
      page := page.(lines := page.lines + [rows[k]]);
    }
    if |page.lines| <= limit {
      page := page.(next := None);
    } else {
      page := page.(next := Some(page.lines[|page.lines| - 1].key));
      page := page.(lines := page.lines[..|page.lines| - 1]);
    }
  }

  // A page holds exactly the lines from its start to its next key, and stops only when full.
  lemma WorkerPageIs(log: seq<Line>, from: Option<int>, limit: nat)
    requires IsLog(log)
    ensures
      var page := WorkerPage(log, from, limit);
      && page.lines == Filter(log, from, page.next)
      && (page.next.Some? ==> |page.lines| == limit && (from.Some? ==> from.value <= page.next.value))
  {
    var all := Filter(log, from, None);
    if limit < |all| {
      FilterMembers(log, from, None, all[limit]);
      FirstOf(log, from, limit);
    }
  }

  // ------------------------------------------------------------ filtering

  lemma {:induction false} FilterMembers(log: seq<Line>, lo: Option<int>, hi: Option<int>, l: Line)
    ensures l in Filter(log, lo, hi) <==> l in log && Between(lo, l, hi)
  {
    if log != [] {
      FilterMembers(log[..|log| - 1], lo, hi, l);
      assert log == log[..|log| - 1] + [log[|log| - 1]];
    }
  }

  lemma {:induction false} FilterIsLog(log: seq<Line>, lo: Option<int>, hi: Option<int>)
    requires IsLog(log)
    ensures IsLog(Filter(log, lo, hi))
  {
    if log != [] {
      var init := log[..|log| - 1];
      FilterIsLog(init, lo, hi);
      forall i | 0 <= i < |Filter(init, lo, hi)| ensures Filter(init, lo, hi)[i].key < log[|log| - 1].key {
        FilterMembers(init, lo, hi, Filter(init, lo, hi)[i]);
      }
    }
  }

  lemma {:induction false} FilterTwice(log: seq<Line>, lo: Option<int>, hi: Option<int>, cut: Option<int>)
    requires hi.Some? ==> cut.Some? && cut.value <= hi.value
    ensures Filter(Filter(log, lo, hi), None, cut) == Filter(log, lo, cut)
  {
    if log != [] {
      var init, last := log[..|log| - 1], log[|log| - 1];
      FilterTwice(init, lo, hi, cut);
      if Between(lo, last, hi) {
        var inner := Filter(init, lo, hi);
        assert (inner + [last])[..|inner|] == inner;
      }
    }
  }

  // The first rows of a log are its lines below the key of the next row.
  lemma FirstOf(log: seq<Line>, from: Option<int>, limit: nat)
    requires IsLog(log) && limit < |Filter(log, from, None)|
    ensures Filter(log, from, Some(Filter(log, from, None)[limit].key)) == Filter(log, from, None)[..limit]
  {
    var all := Filter(log, from, None);
    var key := Some(all[limit].key);
    FilterIsLog(log, from, None);
    FilterTwice(log, from, None, key);
    PrefixFilter(all, limit);
  }

  lemma {:induction false} PrefixFilter(log: seq<Line>, k: nat)
    requires IsLog(log) && k < |log|
    ensures Filter(log, None, Some(log[k].key)) == log[..k]
  {
    var init := log[..|log| - 1];
    if k == |log| - 1 {
      AllBelow(init, log[k].key);
    } else {
      PrefixFilter(init, k);
      assert init[..k] == log[..k];
    }
  }

  lemma {:induction false} AllBelow(log: seq<Line>, key: int)
    requires forall i :: 0 <= i < |log| ==> log[i].key < key
    ensures Filter(log, None, Some(key)) == log
  {
    if log != [] {
      AllBelow(log[..|log| - 1], key);
    }
  }

  // ------------------------------------------------------------ all workers

  function Pages(logs: seq<seq<Line>>, from: Option<int>, limit: nat): (ps: seq<Page>)
    ensures |ps| == |logs| && forall i :: 0 <= i < |ps| ==> ps[i] == WorkerPage(logs[i], from, limit)
  {
    seq(|logs|, i requires 0 <= i < |logs| => WorkerPage(logs[i], from, limit))
  }

  // The most restrictive of two next keys.
  function Earlier(a: Option<int>, b: Option<int>): Option<int> {
    if b.Some? && (a.None? || b.value < a.value) then b else a
  }

  function NextOf(pages: seq<Page>): Option<int> {
    if pages == [] then None else Earlier(NextOf(pages[..|pages| - 1]), pages[|pages| - 1].next)
  }

  // Which lines the merge keeps: descending, a line with the next key is kept too.
  predicate Kept(ascending: bool, l: Line, next: Option<int>) {
    next.None? || l.key < next.value || (!ascending && l.key == next.value)
  }

  function KeptOf(ascending: bool, lines: seq<Line>, next: Option<int>): seq<Line> {
    if lines == [] then []
    else
      var init, last := KeptOf(ascending, lines[..|lines| - 1], next), lines[|lines| - 1];
      if Kept(ascending, last, next) then init + [last] else init
  }

  function Merged(ascending: bool, pages: seq<Page>, next: Option<int>): seq<Line> {
    if pages == [] then []
    else Merged(ascending, pages[..|pages| - 1], next) + KeptOf(ascending, pages[|pages| - 1].lines, next)
  }

  // Page order: by key, the order of equal keys open.
  function KeyOf(l: Line): real { l.key as real }

  method FindNext(pages: seq<Page>) returns (next: Option<int>)
    ensures next == NextOf(pages)
  {
    next := None;
    for k := 0 to |pages|
      invariant next == NextOf(pages[..k])
    {
      assert pages[..k + 1][..k] == pages[..k];
      if pages[k].next.Some? && (next.None? || next.value > pages[k].next.value) {
        next := pages[k].next;
      }
    }
    assert pages[..|pages|] == pages;
  }

  method Merge(ascending: bool, pages: seq<Page>, next: Option<int>) returns (lines: seq<Line>)
    ensures lines == Merged(ascending, pages, next)
  {
    hide Kept;
    lines := [];
    for k := 0 to |pages|
      invariant lines == Merged(ascending, pages[..k], next)
    {
      assert pages[..k + 1][..k] == pages[..k];
      ghost var before := lines;
      var more := pages[k].lines;
      for i := 0 to |more|
        invariant lines == before + KeptOf(ascending, more[..i], next)
      {
        assert more[..i + 1][..i] == more[..i];
        if Kept(ascending, more[i], next) {
          lines := lines + [more[i]];
        }
      }
      assert more[..|more|] == more;
    }
    assert pages[..|pages|] == pages;
  }

  method GetPage(logs: seq<seq<Line>>, from: Option<int>, limit: nat, ascending: bool) returns (page: Page)
    ensures page.next == NextOf(Pages(logs, from, limit))
    ensures IsSortOf(KeyOf, page.lines, Merged(ascending, Pages(logs, from, limit), page.next))
  {
    hide WorkerPage, IsSortOf;
    var pages: seq<Page> := [];
    for k := 0 to |logs|
      invariant pages == Pages(logs, from, limit)[..k]
    {
      var one := GetWorkerPage(logs[k], from, limit);
      pages := pages + [one];
    }
    assert pages == Pages(logs, from, limit);
    var next := FindNext(pages);
    var lines := Merge(ascending, pages, next);
    var sorted := Sort(KeyOf, lines);
    page := Page(sorted, next);
  }

  // ------------------------------------------------------------ what a page holds

  // All lines of all workers in a range of keys.
  function All(logs: seq<seq<Line>>, lo: Option<int>, hi: Option<int>): multiset<Line> {
    if logs == [] then multiset{} else All(logs[..|logs| - 1], lo, hi) + multiset(Filter(logs[|logs| - 1], lo, hi))
  }

  lemma {:induction false} KeptAscending(lines: seq<Line>, next: Option<int>)
    ensures KeptOf(true, lines, next) == Filter(lines, None, next)
  {
    if lines != [] {
      KeptAscending(lines[..|lines| - 1], next);
    }
  }

  lemma {:induction false} NextIsLeast(pages: seq<Page>, i: nat)
    requires i < |pages| && pages[i].next.Some?
    ensures NextOf(pages).Some? && NextOf(pages).value <= pages[i].next.value
  {
    if i < |pages| - 1 {
      NextIsLeast(pages[..|pages| - 1], i);
    }
  }

  lemma {:induction false} NextIsOne(pages: seq<Page>) returns (i: nat)
    requires NextOf(pages).Some?
    ensures i < |pages| && pages[i].next == NextOf(pages)
  {
    if pages[|pages| - 1].next == NextOf(pages) {
      i := |pages| - 1;
    } else {
      i := NextIsOne(pages[..|pages| - 1]);
    }
  }

  // Ascending, a page holds every worker's lines from its start to its next key.
  lemma {:induction false} MergedIsAll(logs: seq<seq<Line>>, from: Option<int>, limit: nat, next: Option<int>)
    requires forall i :: 0 <= i < |logs| ==> IsLog(logs[i])
    requires forall i :: 0 <= i < |logs| && WorkerPage(logs[i], from, limit).next.Some? ==>
      next.Some? && next.value <= WorkerPage(logs[i], from, limit).next.value
    ensures multiset(Merged(true, Pages(logs, from, limit), next)) == All(logs, from, next)
  {
    hide WorkerPage, Filter, KeptOf, IsLog;
    if logs != [] {
      var init, last := logs[..|logs| - 1], logs[|logs| - 1];
      MergedIsAll(init, from, limit, next);
      assert Pages(logs, from, limit)[..|logs| - 1] == Pages(init, from, limit);
      var page := WorkerPage(last, from, limit);
      WorkerPageIs(last, from, limit);
      KeptAscending(page.lines, next);
      FilterTwice(last, from, page.next, next);
    }
  }

  lemma PageIsAll(logs: seq<seq<Line>>, from: Option<int>, limit: nat)
    requires forall i :: 0 <= i < |logs| ==> IsLog(logs[i])
    ensures
      var next := NextOf(Pages(logs, from, limit));
      multiset(Merged(true, Pages(logs, from, limit), next)) == All(logs, from, next)
  {
    var pages := Pages(logs, from, limit);
    forall i | 0 <= i < |logs| && WorkerPage(logs[i], from, limit).next.Some?
      ensures NextOf(pages).Some? && NextOf(pages).value <= WorkerPage(logs[i], from, limit).next.value
    {
      NextIsLeast(pages, i);
    }
    MergedIsAll(logs, from, limit, NextOf(pages));
  }

  lemma {:induction false} FilterSplits(log: seq<Line>, lo: Option<int>, cut: int)
    requires lo.Some? ==> lo.value <= cut
    ensures multiset(Filter(log, lo, None)) ==
      multiset(Filter(log, lo, Some(cut))) + multiset(Filter(log, Some(cut), None))
  {
    if log != [] {
      FilterSplits(log[..|log| - 1], lo, cut);
    }
  }

  lemma {:induction false} AllSplits(logs: seq<seq<Line>>, lo: Option<int>, cut: int)
    requires lo.Some? ==> lo.value <= cut
    ensures All(logs, lo, None) == All(logs, lo, Some(cut)) + All(logs, Some(cut), None)
  {
    if logs != [] {
      AllSplits(logs[..|logs| - 1], lo, cut);
      FilterSplits(logs[|logs| - 1], lo, cut);
    }
  }

  lemma {:induction false} AllMembers(logs: seq<seq<Line>>, lo: Option<int>, hi: Option<int>, l: Line)
    ensures l in All(logs, lo, hi) ==> Between(lo, l, hi)
    ensures (exists i :: 0 <= i < |logs| && l in logs[i] && Between(lo, l, hi)) ==> l in All(logs, lo, hi)
  {
    if logs != [] {
      AllMembers(logs[..|logs| - 1], lo, hi, l);
      FilterMembers(logs[|logs| - 1], lo, hi, l);
      assert logs == logs[..|logs| - 1] + [logs[|logs| - 1]];
    }
  }

  // What a worker is asked for, given their number.
  function PageLimit(workers: nat): (limit: nat)
    ensures 0 < limit
  {
    if workers == 0 then 100 else if 5000 / workers > 100 then 5000 / workers else 100
  }

  // A next key lies past the page's start, so every page but the last is not empty.
  lemma PageMovesOn(logs: seq<seq<Line>>, from: Option<int>, limit: nat)
    requires 0 < limit && (forall i :: 0 <= i < |logs| ==> IsLog(logs[i])) && NextOf(Pages(logs, from, limit)).Some?
    ensures
      var next := NextOf(Pages(logs, from, limit));
      (from.Some? ==> from.value <= next.value) && |All(logs, from, next)| > 0
  {
    var pages := Pages(logs, from, limit);
    var i := NextIsOne(pages);
    WorkerPageIs(logs[i], from, limit);
    var l := pages[i].lines[0];
    FilterMembers(logs[i], from, pages[i].next, l);
    AllMembers(logs, from, NextOf(pages), l);
    assert l in All(logs, from, NextOf(pages));
  }

  predicate Ordered(lines: seq<Line>) {
    forall i, j :: 0 <= i < j < |lines| ==> lines[i].key <= lines[j].key
  }

  // All lines lie at or before a start, or at or after it.
  predicate UpTo(lines: seq<Line>, cut: Option<int>) {
    forall i :: 0 <= i < |lines| ==> cut.Some? && lines[i].key <= cut.value
  }

  predicate From(lines: seq<Line>, cut: Option<int>) {
    forall i :: 0 <= i < |lines| ==> cut.Some? ==> cut.value <= lines[i].key
  }

  lemma InOrderTogether(a: seq<Line>, b: seq<Line>, cut: Option<int>, next: Option<int>)
    requires Ordered(a) && UpTo(a, cut) && Ordered(b) && From(b, cut)
    ensures Ordered(a + b)
    ensures next.Some? && UpTo(b, next) && (cut.Some? ==> cut.value <= next.value) ==> UpTo(a + b, next)
  {}

  // ------------------------------------------------------------ the descending direction

  // The lines that workers returned with the next key itself.
  function AtKey(lines: seq<Line>, key: int): seq<Line> {
    if lines == [] then []
    else
      var init, last := AtKey(lines[..|lines| - 1], key), lines[|lines| - 1];
      if last.key == key then init + [last] else init
  }

  function AtNext(pages: seq<Page>, next: int): multiset<Line> {
    if pages == [] then multiset{}
    else AtNext(pages[..|pages| - 1], next) + multiset(AtKey(pages[|pages| - 1].lines, next))
  }

  lemma {:induction false} KeptDescending(lines: seq<Line>, next: int)
    ensures multiset(KeptOf(false, lines, Some(next))) ==
      multiset(KeptOf(true, lines, Some(next))) + multiset(AtKey(lines, next))
  {
    if lines != [] {
      KeptDescending(lines[..|lines| - 1], next);
    }
  }

  lemma {:induction false} MergedDescending(pages: seq<Page>, next: int)
    ensures multiset(Merged(false, pages, Some(next))) ==
      multiset(Merged(true, pages, Some(next))) + AtNext(pages, next)
  {
    if pages != [] {
      MergedDescending(pages[..|pages| - 1], next);
      KeptDescending(pages[|pages| - 1].lines, next);
    }
  }

  // A worker's line with this key, if it is among the first `limit` lines from the page's start.
  function EarlyOf(log: seq<Line>, from: Option<int>, limit: nat, key: int): seq<Line> {
    if (from.Some? ==> from.value <= key) && |Filter(log, from, Some(key))| < limit then AtKey(log, key) else []
  }

  function Early(logs: seq<seq<Line>>, from: Option<int>, limit: nat, key: int): multiset<Line> {
    if logs == [] then multiset{}
    else Early(logs[..|logs| - 1], from, limit, key) + multiset(EarlyOf(logs[|logs| - 1], from, limit, key))
  }

  lemma {:induction false} AtKeyIs(log: seq<Line>, key: int)
    requires IsLog(log)
    ensures forall j :: 0 <= j < |log| && log[j].key == key ==> AtKey(log, key) == [log[j]]
    ensures (forall j :: 0 <= j < |log| ==> log[j].key != key) ==> AtKey(log, key) == []
  {
    if log != [] {
      var init := log[..|log| - 1];
      AtKeyIs(init, key);
      if log[|log| - 1].key == key {
        assert forall j :: 0 <= j < |init| ==> init[j].key != key;
      }
    }
  }

  // What a worker returns with a given key.
  lemma ReturnedIsEarly(log: seq<Line>, from: Option<int>, limit: nat, key: int)
    requires IsLog(log)
    ensures AtKey(WorkerPage(log, from, limit).lines, key) == EarlyOf(log, from, limit, key)
  {
    hide Filter, AtKey;
    var all, lines := Filter(log, from, None), WorkerPage(log, from, limit).lines;
    FilterIsLog(log, from, None);
    AtKeyIs(log, key);
    AtKeyIs(lines, key);
    if j :| 0 <= j < |all| && all[j].key == key {
      assert all[j] in all;
      FilterMembers(log, from, None, all[j]);
      FirstOf(log, from, j);
      assert j < |lines| <==> j < limit;
      assert j < limit ==> lines[j] == all[j];
    } else {
      forall k | 0 <= k < |log| && log[k].key == key ensures !Between(from, log[k], None) {
        FilterMembers(log, from, None, log[k]);
      }
    }
  }

  lemma {:induction false} AtNextIsEarly(logs: seq<seq<Line>>, from: Option<int>, limit: nat, key: int)
    requires forall i :: 0 <= i < |logs| ==> IsLog(logs[i])
    ensures AtNext(Pages(logs, from, limit), key) == Early(logs, from, limit, key)
  {
    hide WorkerPage, AtKey, EarlyOf, IsLog;
    if logs != [] {
      var init := logs[..|logs| - 1];
      AtNextIsEarly(init, from, limit, key);
      assert Pages(logs, from, limit)[..|logs| - 1] == Pages(init, from, limit);
      ReturnedIsEarly(logs[|logs| - 1], from, limit, key);
    }
  }

  // Descending, a page holds every worker's lines from its start to its next key, and besides
  // exactly the lines with the next key that stand early enough in their worker's log.
  lemma DescendingPageIs(logs: seq<seq<Line>>, from: Option<int>, limit: nat)
    requires forall i :: 0 <= i < |logs| ==> IsLog(logs[i])
    ensures
      var next := NextOf(Pages(logs, from, limit));
      multiset(Merged(false, Pages(logs, from, limit), next))
        == All(logs, from, next) + if next.Some? then Early(logs, from, limit, next.value) else multiset{}
  {
    var pages := Pages(logs, from, limit);
    PageIsAll(logs, from, limit);
    if NextOf(pages).Some? {
      MergedDescending(pages, NextOf(pages).value);
      AtNextIsEarly(logs, from, limit, NextOf(pages).value);
    } else {
      AllKept(pages);
    }
  }

  lemma {:induction false} AllKept(pages: seq<Page>)
    ensures Merged(false, pages, None) == Merged(true, pages, None)
  {
    if pages != [] {
      AllKept(pages[..|pages| - 1]);
      AllLinesKept(pages[|pages| - 1].lines);
    }
  }

  lemma {:induction false} AllLinesKept(lines: seq<Line>)
    ensures KeptOf(false, lines, None) == KeptOf(true, lines, None)
  {
    if lines != [] {
      AllLinesKept(lines[..|lines| - 1]);
    }
  }

  // The next page starts at the next key, so it holds these lines again.
  lemma EarlyIsRepeated(logs: seq<seq<Line>>, from: Option<int>, limit: nat, key: int)
    requires 0 < limit && forall i :: 0 <= i < |logs| ==> IsLog(logs[i])
    ensures
      var pages := Pages(logs, Some(key), limit);
      Early(logs, from, limit, key) <= multiset(Merged(false, pages, NextOf(pages)))
  {
    hide Merged, NextOf, All, Early;
    var pages := Pages(logs, Some(key), limit);
    DescendingPageIs(logs, Some(key), limit);
    if NextOf(pages).Some? {
      NextIsPast(logs, key, limit);
    }
    EarlyIsAhead(logs, from, limit, key, NextOf(pages));
  }

  lemma NextIsPast(logs: seq<seq<Line>>, key: int, limit: nat)
    requires 0 < limit && (forall i :: 0 <= i < |logs| ==> IsLog(logs[i]))
      && NextOf(Pages(logs, Some(key), limit)).Some?
    ensures key < NextOf(Pages(logs, Some(key), limit)).value
  {
    hide Filter;
    var pages := Pages(logs, Some(key), limit);
    var i := NextIsOne(pages);
    var all := Filter(logs[i], Some(key), None);
    FilterIsLog(logs[i], Some(key), None);
    FilterMembers(logs[i], Some(key), None, all[0]);
  }

  lemma {:induction false} EarlyIsAhead(logs: seq<seq<Line>>, from: Option<int>, limit: nat, key: int, hi: Option<int>)
    requires (forall i :: 0 <= i < |logs| ==> IsLog(logs[i])) && (hi.Some? ==> key < hi.value)
    ensures Early(logs, from, limit, key) <= All(logs, Some(key), hi)
  {
    hide AtKey, Filter;
    if logs != [] {
      var log := logs[|logs| - 1];
      EarlyIsAhead(logs[..|logs| - 1], from, limit, key, hi);
      AtKeyIs(log, key);
      if j :| 0 <= j < |log| && log[j].key == key {
        FilterMembers(log, Some(key), hi, log[j]);
        assert multiset(AtKey(log, key)) <= multiset(Filter(log, Some(key), hi));
      }
    }
  }

  lemma {:induction false} EarlyExactly(logs: seq<seq<Line>>, from: Option<int>, limit: nat, key: int)
    requires forall i :: 0 <= i < |logs| ==> IsLog(logs[i])
    ensures Early(logs, from, limit, key) != multiset{} <==>
      exists i :: 0 <= i < |logs| && StandsEarly(logs[i], from, limit, key)
  {
    hide AtKey, Filter;
    if logs != [] {
      var init, log := logs[..|logs| - 1], logs[|logs| - 1];
      EarlyExactly(init, from, limit, key);
      AtKeyIs(log, key);
      assert StandsEarly(log, from, limit, key) <==> multiset(EarlyOf(log, from, limit, key)) != multiset{};
      assert logs == init + [log];
    }
  }

  predicate StandsEarly(log: seq<Line>, from: Option<int>, limit: nat, key: int) {
    && (exists j :: 0 <= j < |log| && log[j].key == key)
    && (from.Some? ==> from.value <= key) && |Filter(log, from, Some(key))| < limit
  }

  // The descending page from this start.
  function Descending(logs: seq<seq<Line>>, from: Option<int>, limit: nat): seq<Line> {
    Merged(false, Pages(logs, from, limit), NextOf(Pages(logs, from, limit)))
  }

  // A line is on two pages in a row exactly if it has the next key, and stands early enough
  // in some worker's log.
  lemma OnBothExactly(logs: seq<seq<Line>>, from: Option<int>, limit: nat, l: Line)
    requires 0 < limit && (forall i :: 0 <= i < |logs| ==> IsLog(logs[i])) && NextOf(Pages(logs, from, limit)).Some?
    ensures
      var next := NextOf(Pages(logs, from, limit));
      l in Descending(logs, from, limit) && l in Descending(logs, next, limit) <==>
        l in Early(logs, from, limit, next.value)
  {
    hide Merged, NextOf, All, Early, IsLog;
    var next := NextOf(Pages(logs, from, limit));
    var one, two := Descending(logs, from, limit), Descending(logs, next, limit);
    DescendingPageIs(logs, from, limit);
    DescendingPageIs(logs, next, limit);
    EarlyIsRepeated(logs, from, limit, next.value);
    assert l in one <==> l in multiset(one);
    assert l in two <==> l in multiset(two);
    AllMembers(logs, from, next, l);
    AtOrAfter(logs, next.value, limit, l);
  }

  // A descending page holds nothing before its start.
  lemma AtOrAfter(logs: seq<seq<Line>>, start: int, limit: nat, l: Line)
    requires 0 < limit && forall i :: 0 <= i < |logs| ==> IsLog(logs[i])
    ensures l in multiset(Descending(logs, Some(start), limit)) ==> start <= l.key
  {
    hide Merged, NextOf, All, Early, IsLog;
    var next := NextOf(Pages(logs, Some(start), limit));
    DescendingPageIs(logs, Some(start), limit);
    AllMembers(logs, Some(start), next, l);
    if l in multiset(Descending(logs, Some(start), limit)) && l !in All(logs, Some(start), next) {
      EarlyHasKey(logs, Some(start), limit, next.value, l);
      NextIsPast(logs, start, limit);
    }
  }

  // A page repeats a line on the next page exactly if some worker has a line with the next key,
  // and fewer than `limit` lines before it on this page.
  lemma RepeatsExactly(logs: seq<seq<Line>>, from: Option<int>, limit: nat)
    requires 0 < limit && (forall i :: 0 <= i < |logs| ==> IsLog(logs[i])) && NextOf(Pages(logs, from, limit)).Some?
    ensures
      var next := NextOf(Pages(logs, from, limit));
      (exists l :: l in Descending(logs, from, limit) && l in Descending(logs, next, limit))
      <==> exists i :: 0 <= i < |logs| && StandsEarly(logs[i], from, limit, next.value)
  {
    hide Descending, Early, StandsEarly, IsLog;
    var next := NextOf(Pages(logs, from, limit));
    EarlyExactly(logs, from, limit, next.value);
    forall l ensures l in Descending(logs, from, limit) && l in Descending(logs, next, limit)
      <==> l in Early(logs, from, limit, next.value)
    {
      OnBothExactly(logs, from, limit, l);
    }
    if Early(logs, from, limit, next.value) != multiset{} {
      var l :| l in Early(logs, from, limit, next.value);
    }
  }

  // No two workers have a line with the same ID.
  predicate DistinctKeys(logs: seq<seq<Line>>) {
    forall i, j, a, b :: 0 <= i < j < |logs| && 0 <= a < |logs[i]| && 0 <= b < |logs[j]| ==>
      logs[i][a].key != logs[j][b].key
  }

  // The next key is that of a line that did not fit: with distinct IDs, no line repeats.
  lemma DistinctNeverRepeats(logs: seq<seq<Line>>, from: Option<int>, limit: nat)
    requires (forall i :: 0 <= i < |logs| ==> IsLog(logs[i])) && DistinctKeys(logs)
      && NextOf(Pages(logs, from, limit)).Some?
    ensures Early(logs, from, limit, NextOf(Pages(logs, from, limit)).value) == multiset{}
  {
    hide Filter, Early;
    var pages := Pages(logs, from, limit);
    var key := NextOf(pages).value;
    var i := NextIsOne(pages);
    WorkerPageIs(logs[i], from, limit);
    var all := Filter(logs[i], from, None);
    assert all[limit].key == key && all[limit] in all;
    FilterMembers(logs[i], from, None, all[limit]);
    var a :| 0 <= a < |logs[i]| && logs[i][a] == all[limit];
    forall j | 0 <= j < |logs| ensures !StandsEarly(logs[j], from, limit, key) {
      if j != i {
        forall b | 0 <= b < |logs[j]| ensures logs[j][b].key != key {
          assert logs[i][a].key != logs[j][b].key;
        }
      }
    }
    EarlyExactly(logs, from, limit, key);
  }

  // ------------------------------------------------------------ reading all pages

  // What the pages from this start on repeat.
  ghost function Repeated(logs: seq<seq<Line>>, from: Option<int>): multiset<Line>
    requires forall i :: 0 <= i < |logs| ==> IsLog(logs[i])
    decreases |All(logs, from, None)|
  {
    var limit := PageLimit(|logs|);
    var next := NextOf(Pages(logs, from, limit));
    if next.None? then multiset{}
    else
      PageMovesOn(logs, from, limit);
      AllSplits(logs, from, next.value);
      Early(logs, from, limit, next.value) + Repeated(logs, next)
  }

  lemma {:induction false} DistinctIsReadOnce(logs: seq<seq<Line>>, from: Option<int>)
    requires (forall i :: 0 <= i < |logs| ==> IsLog(logs[i])) && DistinctKeys(logs)
    ensures Repeated(logs, from) == multiset{}
    decreases |All(logs, from, None)|
  {
    hide Early, All, NextOf, IsLog, DistinctKeys;
    var limit := PageLimit(|logs|);
    var next := NextOf(Pages(logs, from, limit));
    if next.Some? {
      PageMovesOn(logs, from, limit);
      AllSplits(logs, from, next.value);
      DistinctNeverRepeats(logs, from, limit);
      DistinctIsReadOnce(logs, next);
    }
  }

  // What is read from this start on.
  ghost function Rest(logs: seq<seq<Line>>, from: Option<int>, ascending: bool): multiset<Line>
    requires forall i :: 0 <= i < |logs| ==> IsLog(logs[i])
  {
    All(logs, from, None) + if ascending then multiset{} else Repeated(logs, from)
  }

  // What one page adds to what was read.
  lemma PageAdds(logs: seq<seq<Line>>, from: Option<int>, ascending: bool, page: Page)
    requires forall i :: 0 <= i < |logs| ==> IsLog(logs[i])
    requires page.next == NextOf(Pages(logs, from, PageLimit(|logs|)))
    requires multiset(page.lines) == multiset(Merged(ascending, Pages(logs, from, PageLimit(|logs|)), page.next))
    ensures multiset(page.lines) + (if page.next.Some? then Rest(logs, page.next, ascending) else multiset{}) ==
      Rest(logs, from, ascending)
    ensures page.next.Some? ==> |All(logs, page.next, None)| < |All(logs, from, None)|
    ensures From(page.lines, from) && (page.next.Some? ==> UpTo(page.lines, page.next))
    ensures from.Some? && page.next.Some? ==> from.value <= page.next.value
  {
    hide Merged, NextOf, All, Early, IsLog;
    var limit := PageLimit(|logs|);
    PageIsAll(logs, from, limit);
    DescendingPageIs(logs, from, limit);
    if page.next.Some? {
      PageMovesOn(logs, from, limit);
      AllSplits(logs, from, page.next.value);
      EarlyIsAhead(logs, from, limit, page.next.value, None);
    }
    PageInRange(logs, from, limit, ascending, page);
  }

  lemma PageInRange(logs: seq<seq<Line>>, from: Option<int>, limit: nat, ascending: bool, page: Page)
    requires (forall i :: 0 <= i < |logs| ==> IsLog(logs[i]))
      && (from.Some? && page.next.Some? ==> from.value <= page.next.value)
    requires multiset(page.lines) == All(logs, from, page.next)
      + if !ascending && page.next.Some? then Early(logs, from, limit, page.next.value) else multiset{}
    ensures From(page.lines, from) && (page.next.Some? ==> UpTo(page.lines, page.next))
  {
    hide All, Early, IsLog;
    forall i | 0 <= i < |page.lines|
      ensures (from.Some? ==> from.value <= page.lines[i].key)
        && (page.next.Some? ==> page.lines[i].key <= page.next.value)
    {
      var l := page.lines[i];
      assert l in multiset(page.lines);
      AllMembers(logs, from, page.next, l);
      if l !in All(logs, from, page.next) {
        EarlyHasKey(logs, from, limit, page.next.value, l);
      }
    }
  }

  lemma {:induction false} EarlyHasKey(logs: seq<seq<Line>>, from: Option<int>, limit: nat, key: int, l: Line)
    requires l in Early(logs, from, limit, key)
    ensures l.key == key
  {
    var init, log := logs[..|logs| - 1], logs[|logs| - 1];
    if l in Early(init, from, limit, key) {
      EarlyHasKey(init, from, limit, key, l);
    } else {
      assert l in AtKey(log, key);
      AtKeyHasKey(log, key, l);
    }
  }

  lemma {:induction false} AtKeyHasKey(lines: seq<Line>, key: int, l: Line)
    requires l in AtKey(lines, key)
    ensures l.key == key
  {
    if lines[|lines| - 1] != l || l.key != key {
      AtKeyHasKey(lines[..|lines| - 1], key, l);
    }
  }

  lemma NothingRead()
    ensures Ordered([]) && UpTo([], None)
  {}

  method ReadPage(logs: seq<seq<Line>>, from: Option<int>, ascending: bool) returns (page: Page)
    requires forall i :: 0 <= i < |logs| ==> IsLog(logs[i])
    ensures multiset(page.lines) + (if page.next.Some? then Rest(logs, page.next, ascending) else multiset{}) ==
      Rest(logs, from, ascending)
    ensures page.next.Some? ==> |All(logs, page.next, None)| < |All(logs, from, None)|
    ensures Ordered(page.lines) && From(page.lines, from) && (page.next.Some? ==> UpTo(page.lines, page.next))
    ensures from.Some? && page.next.Some? ==> from.value <= page.next.value
  {
    hide Merged, NextOf, All, Rest, IsLog;
    page := GetPage(logs, from, PageLimit(|logs|), ascending);
    PageAdds(logs, from, ascending, page);
    assert forall i, j :: 0 <= i < j < |page.lines| ==> KeyOf(page.lines[i]) <= KeyOf(page.lines[j]);
  }

  // A client that follows the next keys comes to an end, having read the lines in the order of
  // their IDs: ascending, every line of every worker once; descending, also what pages repeat.
  method ReadAll(logs: seq<seq<Line>>, ascending: bool) returns (lines: seq<Line>)
    requires forall i :: 0 <= i < |logs| ==> IsLog(logs[i])
    ensures multiset(lines) == All(logs, None, None) + if ascending then multiset{} else Repeated(logs, None)
    ensures DistinctKeys(logs) ==> multiset(lines) == All(logs, None, None)
    ensures Ordered(lines)
  {
    hide All, Rest, IsLog, Ordered, UpTo, From;
    var from: Option<int> := None;
    lines := [];
    NothingRead();
    var more := true;
    while more
      invariant multiset(lines) + (if more then Rest(logs, from, ascending) else multiset{}) ==
        Rest(logs, None, ascending)
      invariant Ordered(lines) && (more ==> UpTo(lines, from))
      decreases if more then 1 + |All(logs, from, None)| else 0
    {
      var page := ReadPage(logs, from, ascending);
      InOrderTogether(lines, page.lines, from, page.next);
      lines := lines + page.lines;
      more := page.next.Some?;
      from := page.next;
    }
    WhatIsRead(logs, ascending);
  }

  lemma WhatIsRead(logs: seq<seq<Line>>, ascending: bool)
    requires forall i :: 0 <= i < |logs| ==> IsLog(logs[i])
    ensures Rest(logs, None, ascending) ==
      All(logs, None, None) + if ascending then multiset{} else Repeated(logs, None)
    ensures DistinctKeys(logs) ==> Rest(logs, None, ascending) == All(logs, None, None)
  {
    hide DistinctKeys, Repeated;
    if DistinctKeys(logs) {
      DistinctIsReadOnce(logs, None);
    }
  }

  // One worker has a line more than fits on a page, and another has a line with the same ID as that.
  function SharedID(limit: nat): seq<seq<Line>> {
    [seq(limit + 1, i => Line(i, 10)), [Line(limit, 20)]]
  }

  lemma {:induction false} FilterAll(log: seq<Line>)
    ensures Filter(log, None, None) == log
  {
    if log != [] {
      FilterAll(log[..|log| - 1]);
    }
  }

  lemma SharedNext(limit: nat)
    requires 0 < limit
    ensures NextOf(Pages(SharedID(limit), None, limit)) == Some(limit)
  {
    hide Filter;
    var logs := SharedID(limit);
    var pages := Pages(logs, None, limit);
    FilterAll(logs[0]);
    FilterAll(logs[1]);
    assert pages[0].next == Some(limit) && pages[1].next.None?;
    assert pages[..1][..0] == [] && pages[..1][0] == pages[0];
    assert NextOf(pages[..1]) == Some(limit);
  }

  // Whatever the limit, the second worker's line is on two pages.
  lemma DescendingExample(limit: nat)
    requires 0 < limit
    ensures
      var logs, l := SharedID(limit), Line(limit, 20);
      && (forall i :: 0 <= i < |logs| ==> IsLog(logs[i]))
      && l in Descending(logs, None, limit) && l in Descending(logs, Some(limit), limit)
  {
    hide Early, Filter, Descending, NextOf;
    var logs, l := SharedID(limit), Line(limit, 20);
    SharedNext(limit);
    SharedIsEarly(limit);
    OnBothExactly(logs, None, limit, l);
  }

  lemma SharedIsEarly(limit: nat)
    requires 0 < limit
    ensures Line(limit, 20) in Early(SharedID(limit), None, limit, limit)
  {
    var logs, log := SharedID(limit), [Line(limit, 20)];
    assert log[..0] == [];
    assert Filter(log, None, Some(limit)) == [];
    assert AtKey(log, limit) == [Line(limit, 20)];
    assert logs[|logs| - 1] == log;
  }

  // So a client that reads these logs descending gets lines twice, with the limit that is used.
  lemma ReadTwice()
    ensures
      var logs := SharedID(PageLimit(2));
      (forall i :: 0 <= i < |logs| ==> IsLog(logs[i])) && Repeated(logs, None) != multiset{}
  {
    hide Early, NextOf, All;
    var limit := PageLimit(2);
    SharedNext(limit);
    SharedIsEarly(limit);
    assert Line(limit, 20) in Repeated(SharedID(limit), None);
  }
}

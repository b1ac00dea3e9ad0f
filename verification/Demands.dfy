/** What one task asks of the packed vectors (bistro/scheduler/utils.cpp). */
module Demands {
  import opened PackedResources
  import opened Resources

  // An amount to subtract from slot k of a level.
  datatype Demand = Demand(level: Level, k: nat, amount: int)

  // The demands at one node of the path: one per resource of its level.
  function DemandsAt(job: Job, level: Level, offset: nat, rids: seq<Resource>): (ds: seq<Demand>)
    ensures |ds| == |rids|
    ensures forall i :: 0 <= i < |rids| ==> ds[i] == Demand(level, offset + i, Need(job, rids[i]))
  {
    seq(|rids|, i requires 0 <= i < |rids| => Demand(level, offset + i, Need(job, rids[i])))
  }

  // The path's nodes have blocks in the table.
  ghost predicate PathInTable(c: Config, groups: Groups, t: Table, path: seq<Node>)
    requires IsTable(c, groups, t)
  {
    PathOK(c, path) && forall i :: 0 <= i < |path| ==>
      path[i].level < |t.offsets| && path[i].name in t.offsets[path[i].level]
  }

  ghost function DemandsOf(c: Config, groups: Groups, t: Table, job: Job, path: seq<Node>): seq<Demand>
    requires IsTable(c, groups, t) && PathInTable(c, groups, t, path)
  {
    if path == [] then []
    else
      var p := path[|path| - 1];
      DemandsOf(c, groups, t, job, path[..|path| - 1])
        + DemandsAt(job, p.level, t.offsets[p.level][p.name], Rids(c, p.level))
  }

  ghost predicate InTable(t: Table, d: Demand) {
    d.level < |t.packed| && d.k < |t.packed[d.level]|
  }

  // All demands can be met, one by one.
  ghost predicate Met(t: Table, ds: seq<Demand>) {
    forall i :: 0 <= i < |ds| ==> InTable(t, ds[i]) && ds[i].amount <= t.packed[ds[i].level][ds[i].k]
  }

  ghost predicate Distinct(ds: seq<Demand>) {
    forall i, j :: 0 <= i < j < |ds| ==> ds[i].level != ds[j].level || ds[i].k != ds[j].k
  }

  // The total demanded of one slot.
  ghost function Total(ds: seq<Demand>, level: Level, k: nat): int {
    if ds == [] then 0
    else
      var d := ds[|ds| - 1];
      Total(ds[..|ds| - 1], level, k) + if d.level == level && d.k == k then d.amount else 0
  }

  lemma {:induction false} TotalSplits(a: seq<Demand>, b: seq<Demand>, level: Level, k: nat)
    ensures Total(a + b, level, k) == Total(a, level, k) + Total(b, level, k)
  {
    if b == [] {
      assert a + b == a;
    } else {
      assert (a + b)[..|a + b| - 1] == a + b[..|b| - 1];
      TotalSplits(a, b[..|b| - 1], level, k);
    }
  }

  lemma {:induction false} NothingDemanded(ds: seq<Demand>, level: Level, k: nat)
    requires forall i :: 0 <= i < |ds| ==> ds[i].level != level || ds[i].k != k
    ensures Total(ds, level, k) == 0
  {
    if ds != [] {
      NothingDemanded(ds[..|ds| - 1], level, k);
    }
  }

  // With distinct slots, a demand is all that is asked of its slot.
  lemma {:induction false} DemandedOnce(ds: seq<Demand>, i: nat)
    requires Distinct(ds) && i < |ds|
    ensures Total(ds, ds[i].level, ds[i].k) == ds[i].amount
  {
    var init := ds[..|ds| - 1];
    if i == |ds| - 1 {
      NothingDemanded(init, ds[i].level, ds[i].k);
    } else {
      DemandedOnce(init, i);
    }
  }

  // The slots were lowered by the demands, and nothing else changed.
  ghost predicate LoweredBy(t: Table, t': Table, ds: seq<Demand>) {
    && t'.offsets == t.offsets && |t'.packed| == |t.packed|
    && (forall l :: 0 <= l < |t.packed| ==> |t'.packed[l]| == |t.packed[l]|)
    && (forall l, k :: 0 <= l < |t.packed| && 0 <= k < |t.packed[l]| ==>
          t'.packed[l][k] == t.packed[l][k] - Total(ds, l, k))
  }

  lemma LowersOneMore(t: Table, t': Table, ds: seq<Demand>, d: Demand)
    requires LoweredBy(t, t', ds) && InTable(t, d)
    ensures
      var slots := t'.packed[d.level];
      LoweredBy(t, t'.(packed := t'.packed[d.level := slots[d.k := slots[d.k] - d.amount]]), ds + [d])
  {
    assert (ds + [d])[..|ds|] == ds;
  }

  // ------------------------------------------------------------ demands and needs

  lemma TotalAt(job: Job, node: Level, offset: nat, rids: seq<Resource>, level: Level, k: nat)
    ensures Total(DemandsAt(job, node, offset, rids), level, k)
      == if level == node && offset <= k < offset + |rids| then Need(job, rids[k - offset]) else 0
  {
    var ds := DemandsAt(job, node, offset, rids);
    if level == node && offset <= k < offset + |rids| {
      assert ds[k - offset] == Demand(level, k, Need(job, rids[k - offset]));
      DemandedOnce(ds, k - offset);
    } else {
      NothingDemanded(ds, level, k);
    }
  }

  lemma NothingOnPath(c: Config, x: Name, r: Resource, level: Level, k: nat)
    ensures !OnPath(c, [], x, r) && Total([], level, k) == 0
  {}

  // One node's demands of a slot: its need if the slot is in the node's block.
  lemma TotalHere(c: Config, groups: Groups, t: Table, job: Job, p: Node, l: Level, x: Name, i: nat)
    requires IsTable(c, groups, t) && p.level < |groups| && p.name in t.offsets[p.level]
    requires l < |groups| && x in t.offsets[l] && i < |Rids(c, l)|
    ensures Total(DemandsAt(job, p.level, t.offsets[p.level][p.name], Rids(c, p.level)), l, t.offsets[l][x] + i)
      == if p.name == x && Rids(c, l)[i] in c.levelToResources[p.level] then Need(job, Rids(c, l)[i]) else 0
  {
    hide Total, Names, DemandsAt;
    TotalAt(job, p.level, t.offsets[p.level][p.name], Rids(c, p.level), l, t.offsets[l][x] + i);
    if l != p.level {
      OneLevel(c, groups, t, l, p.level, x, p.name);
    }
  }

  // A slot is asked for its need exactly if its name lies on the path.
  lemma {:induction false} TotalOf(c: Config, groups: Groups, t: Table, job: Job, path: seq<Node>, l: Level, x: Name,
                                   i: nat)
    requires IsTable(c, groups, t) && PathInTable(c, groups, t, path)
    requires l < |groups| && x in t.offsets[l] && i < |Rids(c, l)|
    ensures Total(DemandsOf(c, groups, t, job, path), l, t.offsets[l][x] + i)
      == if OnPath(c, path, x, Rids(c, l)[i]) then Need(job, Rids(c, l)[i]) else 0
  {
    hide Total, Names, OnPath, DemandsAt;
    if path == [] {
      NothingOnPath(c, x, Rids(c, l)[i], l, t.offsets[l][x] + i);
    } else {
      var init, p := path[..|path| - 1], path[|path| - 1];
      var here := DemandsAt(job, p.level, t.offsets[p.level][p.name], Rids(c, p.level));
      TotalOf(c, groups, t, job, init, l, x, i);
      TotalSplits(DemandsOf(c, groups, t, job, init), here, l, t.offsets[l][x] + i);
      TotalHere(c, groups, t, job, p, l, x, i);
      OnPathSplits(c, path, x, Rids(c, l)[i]);
    }
  }

  lemma {:induction false} DemandsAreDistinct(c: Config, groups: Groups, t: Table, job: Job, path: seq<Node>)
    requires IsTable(c, groups, t) && PathInTable(c, groups, t, path)
    ensures Distinct(DemandsOf(c, groups, t, job, path))
    ensures forall i :: 0 <= i < |DemandsOf(c, groups, t, job, path)| ==>
      InTable(t, DemandsOf(c, groups, t, job, path)[i])
      && exists p :: 0 <= p < |path| && path[p].level == DemandsOf(c, groups, t, job, path)[i].level
  {
    if path != [] {
      var init, p := path[..|path| - 1], path[|path| - 1];
      DemandsAreDistinct(c, groups, t, job, init);
      var ds := DemandsOf(c, groups, t, job, init);
      var here := DemandsAt(job, p.level, t.offsets[p.level][p.name], Rids(c, p.level));
      forall i | 0 <= i < |ds|
        ensures ds[i].level != p.level && exists q :: 0 <= q < |path| && path[q].level == ds[i].level
      {
        var q :| 0 <= q < |init| && init[q].level == ds[i].level;
        assert path[q] == init[q];
      }
      assert path[|path| - 1].level == p.level;
    }
  }

  // ------------------------------------------------------------ demands against running tasks

  // Every name of the path has its level's block.
  lemma PlacedIsInTable(c: Config, groups: Groups, t: Table, node: Node)
    requires IsTable(c, groups, t) && Placed(c, groups, node)
    ensures PathInTable(c, groups, t, Path(node))
  {
    var path := Path(node);
    forall i | 0 <= i < |path| ensures path[i].level < |t.offsets| && path[i].name in t.offsets[path[i].level] {
      assert path[i] in groups[path[i].level];
    }
  }

  lemma DemandsMetExactly(c: Config, groups: Groups, t: Table, running: seq<RunningTask>, names: set<Name>, job: Job,
                          path: seq<Node>)
    requires IsTable(c, groups, t) && PathInTable(c, groups, t, path) && Counts(c, groups, t, running, names)
    requires forall i :: 0 <= i < |path| ==> path[i].name in names
    ensures Met(t, DemandsOf(c, groups, t, job, path)) <==> Fits(c, running, job, path)
  {
    MetAlong(c, groups, t, running, names, job, path, |path|);
    assert path[..|path|] == path;
    assert Fits(c, running, job, path) <==> forall j :: 0 <= j < |path| ==> FitsAt(c, running, job, path[j]);
  }

  ghost predicate FitsAt(c: Config, running: seq<RunningTask>, job: Job, n: Node)
    requires ConfigOK(c) && n.level < |c.levelToResources|
  {
    forall r :: r in c.levelToResources[n.level] ==> Used(running, n.name, r) + Need(job, r) <= Limit(c, n.level, r)
  }

  lemma {:induction false} MetAlong(c: Config, groups: Groups, t: Table, running: seq<RunningTask>, names: set<Name>,
                                    job: Job, path: seq<Node>, k: nat)
    requires IsTable(c, groups, t) && PathInTable(c, groups, t, path) && Counts(c, groups, t, running, names)
    requires k <= |path| && forall i :: 0 <= i < |path| ==> path[i].name in names
    ensures PathInTable(c, groups, t, path[..k])
    ensures Met(t, DemandsOf(c, groups, t, job, path[..k])) <==>
      forall j :: 0 <= j < k ==> FitsAt(c, running, job, path[j])
  {
    hide Met, FitsAt, Counts, DemandsAt, Names;
    if k == 0 {
      assert path[..k] == [];
      NothingMet(t);
    } else {
      MetAlong(c, groups, t, running, names, job, path, k - 1);
      var p := path[k - 1];
      assert path[..k][..k - 1] == path[..k - 1];
      var before, here := DemandsOf(c, groups, t, job, path[..k - 1]),
                          DemandsAt(job, p.level, t.offsets[p.level][p.name], Rids(c, p.level));
      MetHere(c, groups, t, running, names, job, p);
      MetSplits(t, before, here);
    }
  }

  lemma NothingMet(t: Table)
    ensures Met(t, [])
  {}

  lemma MetSplits(t: Table, a: seq<Demand>, b: seq<Demand>)
    ensures Met(t, a + b) <==> Met(t, a) && Met(t, b)
  {
    if Met(t, a + b) {
      forall i | 0 <= i < |a| ensures InTable(t, a[i]) && a[i].amount <= t.packed[a[i].level][a[i].k] {
        assert (a + b)[i] == a[i];
      }
      forall i | 0 <= i < |b| ensures InTable(t, b[i]) && b[i].amount <= t.packed[b[i].level][b[i].k] {
        assert (a + b)[|a| + i] == b[i];
      }
    }
  }

  lemma MetHere(c: Config, groups: Groups, t: Table, running: seq<RunningTask>, names: set<Name>, job: Job, p: Node)
    requires IsTable(c, groups, t) && Counts(c, groups, t, running, names)
    requires p.level < |groups| && p.name in t.offsets[p.level] && p.name in names
    ensures Met(t, DemandsAt(job, p.level, t.offsets[p.level][p.name], Rids(c, p.level))) <==>
      FitsAt(c, running, job, p)
  {
    var rids, ds := Rids(c, p.level), DemandsAt(job, p.level, t.offsets[p.level][p.name], Rids(c, p.level));
    forall i | 0 <= i < |rids|
      ensures InTable(t, ds[i])
      ensures ds[i].amount <= t.packed[p.level][ds[i].k] <==>
        Used(running, p.name, rids[i]) + Need(job, rids[i]) <= Limit(c, p.level, rids[i])
    {
      assert Left(c, groups, t, p.level, p.name, i) == Limit(c, p.level, rids[i]) - Used(running, p.name, rids[i]);
    }
  }

  lemma LoweringStaysTable(c: Config, groups: Groups, t: Table, t': Table, ds: seq<Demand>)
    requires IsTable(c, groups, t) && LoweredBy(t, t', ds)
    ensures IsTable(c, groups, t')
  {
    hide Total, Names;
  }

  // Lowering by a task's demands keeps the count of what is left.
  lemma StartingKeepsCounts(c: Config, groups: Groups, t: Table, t': Table, running: seq<RunningTask>, names: set<Name>,
                            job: Job, node: Node)
    requires IsTable(c, groups, t) && IsTable(c, groups, t') && Placed(c, groups, node)
      && PathInTable(c, groups, t, Path(node))
    requires Counts(c, groups, t, running, names) && LoweredBy(t, t', DemandsOf(c, groups, t, job, Path(node)))
    requires forall l, x :: 0 <= l < |groups| && x in t.offsets[l] ==> x in names
    ensures Counts(c, groups, t', running + [Started(c, job, node)], names)
  {
    hide Total, Names, UsesOf, DemandsOf, OnPath;
    var path, task := Path(node), Started(c, job, node);
    assert (running + [task])[..|running|] == running;
    forall l, x, i | 0 <= l < |groups| && x in t'.offsets[l] && 0 <= i < |Rids(c, l)|
      ensures Left(c, groups, t', l, x, i) == Limit(c, l, Rids(c, l)[i]) - Used(running + [task], x, Rids(c, l)[i])
    {
      assert Left(c, groups, t, l, x, i) == Limit(c, l, Rids(c, l)[i]) - Used(running, x, Rids(c, l)[i]);
      TotalOf(c, groups, t, job, path, l, x, i);
      SumOf(c, job, path, x, Rids(c, l)[i]);
    }
  }
}

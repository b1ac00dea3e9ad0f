/** One scheduling pass's count of resources, updated in place (bistro/scheduler/Scheduler.cpp). */
module ResourceTable {
  import opened Demands
  import opened PackedResources
  import opened Resources

  datatype Response = RanTask | DidNotRunTask | DoNotRunMoreTasks

  datatype Attempt = Attempt(job: Job, node: Node, response: Response)

  // TaskRunner::runTask: fills the record of the task, then runs it, or not, as it likes; `answers`
  // says what it answers each time it is asked.
  class TaskRunner {
    const answers: nat -> Response
    var asked: nat
    var running: seq<RunningTask>
    ghost var attempts: seq<Attempt>

    constructor (answers: nat -> Response)
      ensures this.answers == answers && asked == 0 && running == [] && attempts == []
    {
      this.answers, asked, running, attempts := answers, 0, [], [];
    }

    static method RecordResources(c: Config, job: Job, path: seq<Node>) returns (uses: seq<Use>)
      requires PathOK(c, path)
      ensures uses == UsesOf(c, job, path)
    {
      uses := [];
      for k := 0 to |path|
        invariant PathOK(c, path[..k]) && uses == UsesOf(c, job, path[..k])
      {
        ghost var before := uses;
        var rids := Rids(c, path[k].level);
        for i := 0 to |rids|
          invariant uses == before + UsesAt(job, path[k].name, rids[..i])
        {
          assert rids[..i + 1][..i] == rids[..i];
          uses := uses + [Use(path[k].name, rids[i], Need(job, rids[i]))];
        }
        assert rids[..|rids|] == rids && path[..k + 1][..k] == path[..k];
      }
      assert path[..|path|] == path;
    }

    method RunTask(c: Config, job: Job, node: Node) returns (r: Response)
      requires PathOK(c, Path(node))
      modifies this`running, this`asked
      ensures r == answers(old(asked)) && asked == old(asked) + 1
      ensures running == old(running) + if r.RanTask? then [Started(c, job, node)] else []
    {
      var uses := RecordResources(c, job, Path(node));
      r := answers(asked);
      asked := asked + 1;
      if r.RanTask? {
        running := running + [RunningTask(job.id, node.name, uses)];
      }
    }
  }

  // The amounts every node of a level starts with.
  function Amounts(c: Config, l: Level): (amounts: seq<int>)
    requires ConfigOK(c) && l < |c.levelToResources|
    ensures |amounts| == |Rids(c, l)|
    ensures forall i :: 0 <= i < |amounts| ==> amounts[i] == Limit(c, l, Rids(c, l)[i])
  {
    seq(|Rids(c, l)|, i requires 0 <= i < |Rids(c, l)| => Limit(c, l, Rids(c, l)[i]))
  }

  class PassResources {
    const config: Config
    const groups: Groups
    var offsets: seq<map<Name, nat>>
    var packed: seq<seq<int>>

    ghost function Abs(): Table
      reads this
    {
      Table(offsets, packed)
    }

    ghost predicate Valid()
      reads this
    {
      IsTable(config, groups, Abs())
    }

    constructor (config: Config, groups: Groups)
      requires ConfigOK(config) && GroupsOK(config, groups)
      ensures this.config == config && this.groups == groups
      ensures Valid() && Counts(config, groups, Abs(), [], {})
    {
      this.config, this.groups := config, groups;
      offsets, packed := [], [];
      new;
      hide Names, Times;
      for l := 0 to |groups|
        invariant |offsets| == |packed| == l
        invariant forall m :: 0 <= m < l ==> IsPacked(groups[m], Amounts(config, m), offsets[m], packed[m])
      {
        var o, p := PackResourcesInto(groups[l], Amounts(config, l));
        offsets, packed := offsets + [o], packed + [p];
      }
    }

    // Subtracts the uses at one node from its block.
    method SubtractUses(l: Level, name: Name, uses: seq<Use>)
      requires Valid() && l < |groups| && name in offsets[l] && forall k :: 0 <= k < |uses| ==> uses[k].node == name
      modifies this`packed
      ensures Valid() && BlockLowered(config, groups, old(Abs()), Abs(), l, name, uses)
    {
      hide Names;
      ghost var t := Abs();
      var off, rids := offsets[l], Rids(config, l);
      var slots := packed[l];
      for k := 0 to |uses|
        invariant |slots| == |packed[l]|
        invariant forall j :: 0 <= j < |slots| ==>
          var i := j - off[name];
          slots[j] == packed[l][j] - if 0 <= i < |rids| then Sum(uses[..k], name, rids[i]) else 0
      {
        assert uses[..k + 1][..k] == uses[..k];
        match IndexOf(rids, uses[k].resource) {
          case None =>
          case Some(i) =>
            slots := slots[off[name] + i := slots[off[name] + i] - uses[k].amount];
        }
      }
      assert uses[..|uses|] == uses;
      packed := packed[l := slots];
      LoweringKeepsTable(config, groups, t, Abs(), l, name, uses);
    }

    // One node of the loop: keep only tasks of deleted or disabled jobs, and count the uses.
    method VisitNode(l: Level, node: Node, jobs: map<nat, Job>, tasks: map<Name, set<RunningTask>>,
                     used: map<Name, seq<Use>>)
        returns (tasks': map<Name, set<RunningTask>>, used': map<Name, seq<Use>>)
      requires Valid() && l < |groups| && node.name in offsets[l] && OwnUses(used)
      modifies this`packed
      ensures Valid() && BlockLowered(config, groups, old(Abs()), Abs(), l, node.name, UsesFor(used, node.name))
      ensures tasks' == Visited(tasks, jobs, node) && used' == used - {node.name}
    {
      hide Names, Sum;
      tasks', used' := tasks, used;
      if node.enabled && node.name in tasks {
        var left := tasks[node.name];
        var rest := left;
        while rest != {}
          invariant rest <= left
          invariant left == set rt | rt in tasks[node.name] && (rt in rest || !JobRuns(jobs, rt))
          decreases rest
        {
          var rt :| rt in rest;
          rest := rest - {rt};
          if JobRuns(jobs, rt) {
            left := left - {rt};
          }
        }
        assert left == set rt | rt in tasks[node.name] && !JobRuns(jobs, rt);
        tasks' := tasks[node.name := left];
      }
      if node.name in used {
        SubtractUses(l, node.name, used[node.name]);
        used' := used - {node.name};
      } else {
        NoUses(config, groups, Abs(), l, node.name);
        assert used - {node.name} == used;
      }
    }

    // Counts what running tasks use, and finds the tasks that should not be running: exactly
    // those whose job is missing or cannot run, or whose name has no enabled node.
    method ProcessRunningTasks(jobs: map<nat, Job>, running: seq<RunningTask>) returns (orphans: set<RunningTask>)
      requires Valid() && Counts(config, groups, Abs(), [], {})
      modifies this`packed
      ensures Valid() && Counts(config, groups, Abs(), running, AllNames(groups))
      ensures forall rt :: rt in orphans <==> rt in running && IsOrphan(groups, jobs, rt)
    {
      hide Names, Counts, Walked, IsOrphan, IsTable, OwnUses;
      var tasks, used := BuildViews(running);
      ghost var seen: set<Name>, enabled: set<Name> := {}, {};
      WalkStarts(config, groups, Abs(), running, jobs, tasks, used);
      for l := 0 to |groups|
        invariant Valid() && Walked(config, groups, Abs(), running, jobs, tasks, used, seen, enabled)
        invariant seen == NamesUpTo(groups, l, 0) && enabled == EnabledUpTo(groups, l, 0)
      {
        for k := 0 to |groups[l]|
          invariant Valid() && Walked(config, groups, Abs(), running, jobs, tasks, used, seen, enabled)
          invariant seen == NamesUpTo(groups, l, k) && enabled == EnabledUpTo(groups, l, k)
        {
          var node := groups[l][k];
          ghost var t := Abs();
          NodeHasBlock(config, groups, t, running, jobs, tasks, used, seen, enabled, l, k);
          ghost var tasks0, used0 := tasks, used;
          tasks, used := VisitNode(l, node, jobs, tasks, used);
          VisitWalks(config, groups, t, Abs(), running, jobs, tasks0, used0, seen, enabled, l, node);
          UpToGrows(groups, l, k);
          seen, enabled := seen + {node.name}, if node.enabled then enabled + {node.name} else enabled;
        }
        UpToNextLevel(groups, l);
      }
      orphans := {};
      var rest := tasks.Keys;
      while rest != {}
        invariant rest <= tasks.Keys
        invariant forall rt :: rt in orphans <==> exists name :: name in tasks && name !in rest && rt in tasks[name]
        decreases rest
      {
        var name :| name in rest;
        rest := rest - {name};
        orphans := orphans + tasks[name];
      }
      WalkEnds(config, groups, Abs(), running, jobs, tasks, used, seen, enabled, orphans);
    }

    // What one node of the path is asked for, and whether it is there.
    method DemandHere(job: Job, p: Node) returns (enough: bool, ds: seq<Demand>)
      requires Valid() && p.level < |groups| && p.name in offsets[p.level]
      ensures enough ==> ds == DemandsAt(job, p.level, offsets[p.level][p.name], Rids(config, p.level))
      ensures enough <==> Met(Abs(), DemandsAt(job, p.level, offsets[p.level][p.name], Rids(config, p.level)))
    {
      hide Names;
      ds := [];
      var rids, offset := Rids(config, p.level), offsets[p.level][p.name];
      assert |packed[p.level]| >= offset + |rids|;  // CHECK
      ghost var here := DemandsAt(job, p.level, offset, rids);
      for i := 0 to |rids|
        invariant ds == here[..i] && Met(Abs(), ds)
      {
        if Need(job, rids[i]) > packed[p.level][offset + i] {
          assert here[i].amount > packed[p.level][here[i].k];
          return false, [];
        }
        ds := ds + [Demand(p.level, offset + i, Need(job, rids[i]))];
      }
      assert here[..|rids|] == here;
      return true, ds;
    }

    // What the whole path is asked for, and whether it is there.
    method CollectDemands(job: Job, path: seq<Node>) returns (enough: bool, ds: seq<Demand>)
      requires Valid() && PathInTable(config, groups, Abs(), path)
      ensures enough ==> ds == DemandsOf(config, groups, Abs(), job, path)
      ensures enough <==> Met(Abs(), DemandsOf(config, groups, Abs(), job, path))
    {
      hide Names, Met, DemandsAt, Laid;
      ds := [];
      NothingMet(Abs());
      for k := 0 to |path|
        invariant PathInTable(config, groups, Abs(), path[..k])
        invariant ds == DemandsOf(config, groups, Abs(), job, path[..k]) && Met(Abs(), ds)
      {
        var more: seq<Demand>;
        enough, more := DemandHere(job, path[k]);
        assert path[..k + 1][..k] == path[..k];
        ghost var p := path[k];
        MetSplits(Abs(), ds, DemandsAt(job, p.level, offsets[p.level][p.name], Rids(config, p.level)));
        if !enough {
          NotMetLater(config, groups, Abs(), job, path, k + 1);
          return false, [];
        }
        ds := ds + more;
      }
      assert path[..|path|] == path;
      return true, ds;
    }

    method Lower(ds: seq<Demand>)
      requires Valid() && Met(Abs(), ds) && Distinct(ds)
      modifies this`packed
      ensures LoweredBy(old(Abs()), Abs(), ds)
    {
      hide Names, Total, LoweredBy, IsTable;
      ghost var t := Abs();
      NothingLowered(t);
      for k := 0 to |ds|
        invariant LoweredBy(t, Abs(), ds[..k])
      {
        var d := ds[k];
        assert ds[..k + 1] == ds[..k] + [d];
        StillThere(t, Abs(), ds, k);
        assert packed[d.level][d.k] >= d.amount;  // CHECK
        LowersOneMore(t, Abs(), ds[..k], d);
        packed := packed[d.level := packed[d.level][d.k := packed[d.level][d.k] - d.amount]];
      }
      assert ds[..|ds|] == ds;
    }

    // try_to_schedule: the runner is asked exactly if there is room for the task beside the running
    // tasks, and its answer is returned; the table then still counts exactly what is left.
    method TryToSchedule(job: Job, node: Node, runner: TaskRunner) returns (r: Response)
      requires Valid() && Placed(config, groups, node)
        && Counts(config, groups, Abs(), runner.running, AllNames(groups))
      modifies this`packed, runner
      ensures Valid() && Counts(config, groups, Abs(), runner.running, AllNames(groups))
      ensures runner.attempts == old(runner.attempts) + [Attempt(job, node, r)]
      ensures
        if Fits(config, old(runner.running), job, Path(node))
        then r == runner.answers(old(runner.asked)) && runner.asked == old(runner.asked) + 1
        else r.DidNotRunTask? && runner.asked == old(runner.asked)
      ensures r.RanTask? ==> runner.running == old(runner.running) + [Started(config, job, node)]
      ensures !r.RanTask? ==> packed == old(packed) && runner.running == old(runner.running)
    {
      hide Names, Counts, IsTable, LoweredBy, Fits, PathInTable, AllNames, UsesOf;
      ghost var t, running := Abs(), runner.running;
      PlacedIsInTable(config, groups, t, node);
      TableNames(config, groups, t, node);
      DemandsMetExactly(config, groups, t, running, AllNames(groups), job, Path(node));
      var enough, ds := CollectDemands(job, Path(node));
      if !enough {
        r := DidNotRunTask;
      } else {
        r := runner.RunTask(config, job, node);
        assert running + [] == running;
        if r.RanTask? {
          DemandsAreDistinct(config, groups, t, job, Path(node));
          Lower(ds);
          LoweringStaysTable(config, groups, t, Abs(), ds);
          StartingKeepsCounts(config, groups, t, Abs(), running, AllNames(groups), job, node);
        }
      }
      runner.attempts := runner.attempts + [Attempt(job, node, r)];
    }
  }

  // What a part of the path cannot get, the whole path cannot.
  lemma {:induction false} NotMetLater(c: Config, groups: Groups, t: Table, job: Job, path: seq<Node>, k: nat)
    requires IsTable(c, groups, t) && PathInTable(c, groups, t, path) && k <= |path|
    requires PathInTable(c, groups, t, path[..k]) && !Met(t, DemandsOf(c, groups, t, job, path[..k]))
    ensures !Met(t, DemandsOf(c, groups, t, job, path))
  {
    hide Names, Met, DemandsAt, IsTable;
    if k == |path| {
      assert path[..k] == path;
    } else {
      var init, p := path[..|path| - 1], path[|path| - 1];
      assert init[..k] == path[..k];
      NotMetLater(c, groups, t, job, init, k);
      MetSplits(t, DemandsOf(c, groups, t, job, init),
                DemandsAt(job, p.level, t.offsets[p.level][p.name], Rids(c, p.level)));
    }
  }

  lemma NothingLowered(t: Table)
    ensures LoweredBy(t, t, [])
  {}

  // Slots are distinct, so a demand that was met is still met when its turn comes.
  lemma StillThere(t: Table, t': Table, ds: seq<Demand>, k: nat)
    requires Met(t, ds) && Distinct(ds) && k < |ds| && LoweredBy(t, t', ds[..k])
    ensures InTable(t, ds[k]) && InTable(t', ds[k]) && t'.packed[ds[k].level][ds[k].k] >= ds[k].amount
  {
    NothingDemanded(ds[..k], ds[k].level, ds[k].k);
  }

  lemma TableNames(c: Config, groups: Groups, t: Table, node: Node)
    requires IsTable(c, groups, t) && Placed(c, groups, node)
    ensures forall l, x :: 0 <= l < |groups| && x in t.offsets[l] ==> x in AllNames(groups)
    ensures forall i :: 0 <= i < |Path(node)| ==> Path(node)[i].name in AllNames(groups)
  {
    forall l, x | 0 <= l < |groups| && x in t.offsets[l] ensures x in AllNames(groups) {
      var n :| n in groups[l] && n.name == x;
      var i: nat :| i < |groups[l]| && groups[l][i] == n;
      assert groups[l][i].name == x;
    }
    forall i | 0 <= i < |Path(node)| ensures Path(node)[i].name in AllNames(groups) {
      var p := Path(node)[i];
      var k: nat :| k < |groups[p.level]| && groups[p.level][k] == p;
      assert groups[p.level][k].name == p.name;
    }
  }

  // ------------------------------------------------------------ the extent of the walk

  ghost function NamesUpTo(groups: Groups, l: nat, k: nat): set<Name> {
    set m: nat, i: nat | m < |groups| && i < |groups[m]| && (m < l || (m == l && i < k)) :: groups[m][i].name
  }

  ghost function EnabledUpTo(groups: Groups, l: nat, k: nat): set<Name> {
    set m: nat, i: nat | m < |groups| && i < |groups[m]| && (m < l || (m == l && i < k)) && groups[m][i].enabled ::
      groups[m][i].name
  }

  ghost function AllNames(groups: Groups): set<Name> {
    NamesUpTo(groups, |groups|, 0)
  }

  lemma UpToGrows(groups: Groups, l: nat, k: nat)
    requires l < |groups| && k < |groups[l]|
    ensures NamesUpTo(groups, l, k + 1) == NamesUpTo(groups, l, k) + {groups[l][k].name}
    ensures EnabledUpTo(groups, l, k + 1)
      == if groups[l][k].enabled then EnabledUpTo(groups, l, k) + {groups[l][k].name} else EnabledUpTo(groups, l, k)
  {}

  lemma UpToNextLevel(groups: Groups, l: nat)
    requires l < |groups|
    ensures NamesUpTo(groups, l + 1, 0) == NamesUpTo(groups, l, |groups[l]|)
    ensures EnabledUpTo(groups, l + 1, 0) == EnabledUpTo(groups, l, |groups[l]|)
  {}

  lemma WalkStarts(c: Config, groups: Groups, t: Table, running: seq<RunningTask>, jobs: map<nat, Job>,
                   tasks: map<Name, set<RunningTask>>, used: map<Name, seq<Use>>)
    requires IsTable(c, groups, t) && Counts(c, groups, t, [], {})
    requires ViewsTasks(tasks, running) && ViewsUses(used, running) && OwnUses(used)
    ensures Walked(c, groups, t, running, jobs, tasks, used, {}, {})
    ensures NamesUpTo(groups, 0, 0) == {} && EnabledUpTo(groups, 0, 0) == {}
  {
    hide Sum, Names;
  }

  lemma NodeHasBlock(c: Config, groups: Groups, t: Table, running: seq<RunningTask>, jobs: map<nat, Job>,
                     tasks: map<Name, set<RunningTask>>, used: map<Name, seq<Use>>, seen: set<Name>, enabled: set<Name>,
                     l: Level, k: nat)
    requires IsTable(c, groups, t) && Walked(c, groups, t, running, jobs, tasks, used, seen, enabled)
    requires l < |groups| && k < |groups[l]|
    ensures |t.offsets| == |groups| && groups[l][k].name in t.offsets[l] && OwnUses(used)
  {}

  lemma NoUses(c: Config, groups: Groups, t: Table, l: Level, name: Name)
    requires IsTable(c, groups, t) && l < |groups| && name in t.offsets[l]
    ensures BlockLowered(c, groups, t, t, l, name, [])
  {
    hide Names;
    assert forall r :: Sum([], name, r) == 0;
  }

  lemma WalkEnds(c: Config, groups: Groups, t: Table, running: seq<RunningTask>, jobs: map<nat, Job>,
                 tasks: map<Name, set<RunningTask>>, used: map<Name, seq<Use>>, seen: set<Name>, enabled: set<Name>,
                 orphans: set<RunningTask>)
    requires IsTable(c, groups, t) && Walked(c, groups, t, running, jobs, tasks, used, seen, enabled)
    requires seen == AllNames(groups) && enabled == EnabledUpTo(groups, |groups|, 0)
    requires forall rt :: rt in orphans <==> exists name :: name in tasks && rt in tasks[name]
    ensures Counts(c, groups, t, running, AllNames(groups))
    ensures forall rt :: rt in orphans <==> rt in running && IsOrphan(groups, jobs, rt)
  {
    hide Counts, IsTable, UsesLeft, OwnUses;
    forall rt: RunningTask ensures rt in orphans <==> rt in running && IsOrphan(groups, jobs, rt) {
      assert rt in TasksAt(tasks, rt.node)
        <==> rt in running && rt.node == rt.node && !(rt.node in enabled && JobRuns(jobs, rt));
      assert rt in orphans <==> rt in TasksAt(tasks, rt.node) by {
        forall name | name in tasks && rt in tasks[name] ensures name == rt.node {
          assert rt in TasksAt(tasks, name);
        }
      }
    }
  }
}

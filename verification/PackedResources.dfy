/**
 The packed vectors in which a scheduling pass counts what is left of every resource
 (bistro/scheduler/Scheduler.cpp, bistro/scheduler/SchedulerPolicy.cpp, bistro/scheduler/utils.cpp).
 */
module PackedResources {
  import opened Options
  import opened Resources

  // ------------------------------------------------------------ layout

  // Blocks of the same width, one per name, lie in the vector and do not overlap.
  ghost predicate Laid(width: nat, offsets: map<Name, nat>, size: nat) {
    && (forall x :: x in offsets ==> offsets[x] + width <= size)
    && (forall x, y :: x in offsets && y in offsets && x != y ==>
          offsets[x] + width <= offsets[y] || offsets[y] + width <= offsets[x])
  }

  ghost function Names(nodes: seq<Node>): set<Name> {
    set n | n in nodes :: n.name
  }

  function Times(k: nat, width: nat): nat { k * width }

  // One block per name, in order of first appearance, each holding the amounts.
  ghost predicate IsPacked(nodes: seq<Node>, amounts: seq<int>, offsets: map<Name, nat>, packed: seq<int>) {
    offsets.Keys == Names(nodes) && |packed| == Times(|offsets|, |amounts|) && Filled(amounts, offsets, packed)
  }

  ghost predicate Filled(amounts: seq<int>, offsets: map<Name, nat>, packed: seq<int>) {
    && Laid(|amounts|, offsets, |packed|)
    && forall x, i :: x in offsets && 0 <= i < |amounts| ==> packed[offsets[x] + i] == amounts[i]
  }

  lemma FillOneMore(amounts: seq<int>, offsets: map<Name, nat>, packed: seq<int>, name: Name)
    requires Filled(amounts, offsets, packed) && name !in offsets
    ensures Filled(amounts, offsets[name := |packed|], packed + amounts)
  {}

  lemma NothingPacked(amounts: seq<int>)
    ensures IsPacked([], amounts, map[], [])
  {}

  lemma AddReplica(nodes: seq<Node>, amounts: seq<int>, offsets: map<Name, nat>, packed: seq<int>, node: Node)
    requires IsPacked(nodes, amounts, offsets, packed) && node.name in offsets
    ensures IsPacked(nodes + [node], amounts, offsets, packed)
  {
    NamesGrow(nodes, node);
  }

  lemma AddBlock(nodes: seq<Node>, amounts: seq<int>, offsets: map<Name, nat>, packed: seq<int>, node: Node)
    requires IsPacked(nodes, amounts, offsets, packed) && node.name !in offsets
    ensures IsPacked(nodes + [node], amounts, offsets[node.name := Times(|offsets|, |amounts|)], packed + amounts)
  {
    hide Times, Names, Filled;
    NamesGrow(nodes, node);
    OneMore(|offsets|, |amounts|);
    FillOneMore(amounts, offsets, packed, node.name);
  }

  lemma OneMore(k: nat, width: nat)
    ensures Times(k + 1, width) == Times(k, width) + width
  {}

  lemma NamesGrow(nodes: seq<Node>, node: Node)
    ensures Names(nodes + [node]) == Names(nodes) + {node.name}
  {
    assert forall n :: n in nodes + [node] <==> n in nodes || n == node;
  }

  // The first replica of a node gets the next block; later ones share it.
  method PackResourcesInto(nodes: seq<Node>, amounts: seq<int>) returns (offsets: map<Name, nat>, packed: seq<int>)
    ensures IsPacked(nodes, amounts, offsets, packed)
  {
    hide Times, IsPacked;
    offsets, packed := map[], [];
    assert nodes[..0] == [];
    NothingPacked(amounts);
    for k := 0 to |nodes|
      invariant IsPacked(nodes[..k], amounts, offsets, packed)
    {
      assert nodes[..k + 1] == nodes[..k] + [nodes[k]];
      if nodes[k].name in offsets {
        AddReplica(nodes[..k], amounts, offsets, packed, nodes[k]);
      } else {
        AddBlock(nodes[..k], amounts, offsets, packed, nodes[k]);
        offsets := offsets[nodes[k].name := Times(|offsets|, |amounts|)];
        packed := packed + amounts;
      }
    }
    assert nodes[..|nodes|] == nodes;
  }

  function IndexOf(rids: seq<Resource>, r: Resource): (i: Option<nat>)
    ensures i.Some? ==> i.value < |rids| && rids[i.value] == r
    ensures i.None? ==> r !in rids
  {
    if rids == [] then None
    else if rids[|rids| - 1] == r then Some(|rids| - 1)
    else IndexOf(rids[..|rids| - 1], r)
  }

  // ------------------------------------------------------------ two views on the running tasks

  function TasksAt(tasks: map<Name, set<RunningTask>>, name: Name): set<RunningTask> {
    if name in tasks then tasks[name] else {}
  }

  function UsesFor(used: map<Name, seq<Use>>, name: Name): seq<Use> {
    if name in used then used[name] else []
  }

  // The list of a name holds uses at that name only.
  ghost predicate OwnUses(used: map<Name, seq<Use>>) {
    forall name, k :: name in used && 0 <= k < |used[name]| ==> used[name][k].node == name
  }

  method CollectUses(used: map<Name, seq<Use>>, uses: seq<Use>) returns (used': map<Name, seq<Use>>)
    requires OwnUses(used)
    ensures OwnUses(used')
    ensures forall name, r ::
      Sum(UsesFor(used', name), name, r) == Sum(UsesFor(used, name), name, r) + Sum(uses, name, r)
  {
    used' := used;
    for k := 0 to |uses|
      invariant OwnUses(used')
      invariant forall name, r ::
        Sum(UsesFor(used', name), name, r) == Sum(UsesFor(used, name), name, r) + Sum(uses[..k], name, r)
    {
      ghost var before := used';
      var u := uses[k];
      var list := UsesFor(used', u.node);
      used' := used'[u.node := list + [u]];
      assert (list + [u])[..|list|] == list && uses[..k + 1][..k] == uses[..k];
      assert forall name :: name != u.node ==> UsesFor(used', name) == UsesFor(before, name);
    }
    assert uses[..|uses|] == uses;
  }

  ghost predicate ViewsTasks(tasks: map<Name, set<RunningTask>>, running: seq<RunningTask>) {
    forall name: Name, rt: RunningTask :: rt in TasksAt(tasks, name) <==> rt in running && rt.node == name
  }

  ghost predicate ViewsUses(used: map<Name, seq<Use>>, running: seq<RunningTask>) {
    forall name, r :: Sum(UsesFor(used, name), name, r) == Used(running, name, r)
  }

  lemma AddTask(tasks: map<Name, set<RunningTask>>, before: seq<RunningTask>, added: RunningTask)
    requires ViewsTasks(tasks, before)
    ensures ViewsTasks(tasks[added.node := TasksAt(tasks, added.node) + {added}], before + [added])
  {
    var tasks' := tasks[added.node := TasksAt(tasks, added.node) + {added}];
    forall name: Name, rt: RunningTask
      ensures rt in TasksAt(tasks', name) <==> rt in before + [added] && rt.node == name
    {
      if name == added.node {
        assert TasksAt(tasks', name) == TasksAt(tasks, name) + {added};
      } else {
        assert TasksAt(tasks', name) == TasksAt(tasks, name);
      }
    }
    assert ViewsTasks(tasks', before + [added]);
  }

  lemma AddUses(used: map<Name, seq<Use>>, used': map<Name, seq<Use>>, running: seq<RunningTask>, k: nat)
    requires k < |running| && ViewsUses(used, running[..k])
    requires forall name, r ::
      Sum(UsesFor(used', name), name, r) == Sum(UsesFor(used, name), name, r) + Sum(running[k].uses, name, r)
    ensures ViewsUses(used', running[..k + 1])
  {
    assert running[..k + 1][..k] == running[..k];
    forall name, r ensures Sum(UsesFor(used', name), name, r) == Used(running[..k + 1], name, r) {
      assert Sum(UsesFor(used, name), name, r) == Used(running[..k], name, r);
    }
  }

  method BuildViews(running: seq<RunningTask>) returns (tasks: map<Name, set<RunningTask>>, used: map<Name, seq<Use>>)
    ensures ViewsTasks(tasks, running) && ViewsUses(used, running) && OwnUses(used)
  {
    hide ViewsTasks, ViewsUses;
    tasks, used := map[], map[];
    assert running[..0] == [];
    EmptyViews();
    for k := 0 to |running|
      invariant ViewsTasks(tasks, running[..k]) && ViewsUses(used, running[..k]) && OwnUses(used)
    {
      AddTask(tasks, running[..k], running[k]);
      assert running[..k] + [running[k]] == running[..k + 1];
      var rt := running[k];
      tasks := tasks[rt.node := TasksAt(tasks, rt.node) + {rt}];
      var more := CollectUses(used, rt.uses);
      AddUses(used, more, running, k);
      used := more;
    }
    assert running[..|running|] == running;
  }

  lemma EmptyViews()
    ensures ViewsTasks(map[], []) && ViewsUses(map[], [])
  {}

  // ------------------------------------------------------------ orphans

  predicate JobRuns(jobs: map<nat, Job>, rt: RunningTask) {
    rt.job in jobs && jobs[rt.job].canRun
  }

  ghost predicate HasEnabledNode(groups: Groups, name: Name) {
    exists l, i :: 0 <= l < |groups| && 0 <= i < |groups[l]| && groups[l][i].name == name && groups[l][i].enabled
  }

  ghost predicate IsOrphan(groups: Groups, jobs: map<nat, Job>, rt: RunningTask) {
    !JobRuns(jobs, rt) || !HasEnabledNode(groups, rt.node)
  }

  // ------------------------------------------------------------ the table

  datatype Table = Table(offsets: seq<map<Name, nat>>, packed: seq<seq<int>>)

  function Rids(c: Config, l: Level): seq<Resource>
    requires l < |c.levelToResources|
  {
    c.levelToResources[l]
  }

  // One vector per level, with a block for every name of the level.
  ghost predicate IsTable(c: Config, groups: Groups, t: Table) {
    && ConfigOK(c) && GroupsOK(c, groups) && |t.offsets| == |t.packed| == |groups|
    && forall l :: 0 <= l < |groups| ==>
         t.offsets[l].Keys == Names(groups[l]) && Laid(|Rids(c, l)|, t.offsets[l], |t.packed[l]|)
  }

  // What is left of the i-th resource of a named node.
  ghost function Left(c: Config, groups: Groups, t: Table, l: Level, name: Name, i: nat): int
    requires IsTable(c, groups, t) && l < |groups| && name in t.offsets[l] && i < |Rids(c, l)|
  {
    t.packed[l][t.offsets[l][name] + i]
  }

  // The table counts the uses of running tasks at the names in `done`.
  ghost predicate Counts(c: Config, groups: Groups, t: Table, running: seq<RunningTask>, done: set<Name>)
    requires IsTable(c, groups, t)
  {
    forall l, name, i :: 0 <= l < |groups| && name in t.offsets[l] && 0 <= i < |Rids(c, l)| ==>
      Left(c, groups, t, l, name, i)
        == Limit(c, l, Rids(c, l)[i]) - if name in done then Used(running, name, Rids(c, l)[i]) else 0
  }

  // The block of one name was lowered by the uses at it, and nothing else changed.
  ghost predicate BlockLowered(c: Config, groups: Groups, t: Table, t': Table, l: Level, name: Name, uses: seq<Use>)
    requires IsTable(c, groups, t) && l < |groups| && name in t.offsets[l]
  {
    && t'.offsets == t.offsets && |t'.packed| == |t.packed| && |t'.packed[l]| == |t.packed[l]|
    && (forall m :: 0 <= m < |groups| && m != l ==> t'.packed[m] == t.packed[m])
    && (forall k :: 0 <= k < |t.packed[l]| ==>
          var i := k - t.offsets[l][name];
          t'.packed[l][k] == t.packed[l][k] - if 0 <= i < |Rids(c, l)| then Sum(uses, name, Rids(c, l)[i]) else 0)
  }

  lemma LoweringKeepsTable(c: Config, groups: Groups, t: Table, t': Table, l: Level, name: Name, uses: seq<Use>)
    requires IsTable(c, groups, t) && l < |groups| && name in t.offsets[l]
      && BlockLowered(c, groups, t, t', l, name, uses)
    ensures IsTable(c, groups, t')
  {
    hide Sum, Names;
  }

  // A name is counted once: its uses are erased when they are counted.
  lemma LoweringCounts(c: Config, groups: Groups, t: Table, t': Table, l: Level, name: Name, uses: seq<Use>,
                       running: seq<RunningTask>, done: set<Name>)
    requires IsTable(c, groups, t) && IsTable(c, groups, t') && l < |groups| && name in t.offsets[l]
    requires BlockLowered(c, groups, t, t', l, name, uses) && Counts(c, groups, t, running, done)
    requires forall r :: Sum(uses, name, r) == if name in done then 0 else Used(running, name, r)
    ensures Counts(c, groups, t', running, done + {name})
  {
    hide Sum, Used, Names, BlockLowered, Left;
    assert t'.offsets == t.offsets by {
      SameOffsets(c, groups, t, t', l, name, uses);
    }
    forall m, x, i | 0 <= m < |groups| && x in t'.offsets[m] && 0 <= i < |Rids(c, m)|
      ensures Left(c, groups, t', m, x, i)
        == Limit(c, m, Rids(c, m)[i]) - if x in done + {name} then Used(running, x, Rids(c, m)[i]) else 0
    {
      assert Left(c, groups, t, m, x, i)
        == Limit(c, m, Rids(c, m)[i]) - if x in done then Used(running, x, Rids(c, m)[i]) else 0;
      if m != l {
        OneLevel(c, groups, t, m, l, x, name);
      }
      LoweredLeft(c, groups, t, t', l, name, uses, m, x, i);
    }
  }

  lemma SameOffsets(c: Config, groups: Groups, t: Table, t': Table, l: Level, name: Name, uses: seq<Use>)
    requires IsTable(c, groups, t) && l < |groups| && name in t.offsets[l]
      && BlockLowered(c, groups, t, t', l, name, uses)
    ensures t'.offsets == t.offsets
  {}

  // What is left changes at the lowered name only.
  lemma LoweredLeft(c: Config, groups: Groups, t: Table, t': Table, l: Level, name: Name, uses: seq<Use>, m: Level,
                    x: Name, i: nat)
    requires IsTable(c, groups, t) && IsTable(c, groups, t') && l < |groups| && name in t.offsets[l]
    requires BlockLowered(c, groups, t, t', l, name, uses)
    requires m < |groups| && x in t.offsets[m] && i < |Rids(c, m)|
    ensures Left(c, groups, t', m, x, i)
      == Left(c, groups, t, m, x, i) - if m == l && x == name then Sum(uses, name, Rids(c, l)[i]) else 0
  {
    hide Sum, Names;
  }

  lemma OneLevel(c: Config, groups: Groups, t: Table, m: Level, l: Level, x: Name, name: Name)
    requires IsTable(c, groups, t) && m < |groups| && l < |groups| && x in t.offsets[m] && name in t.offsets[l]
      && m != l
    ensures x != name
  {
    var a :| a in groups[m] && a.name == x;
    var b :| b in groups[l] && b.name == name;
  }

  // ------------------------------------------------------------ a walk over all nodes

  // After the names in `seen`, of which those in `enabled` had an enabled node.
  ghost predicate Walked(c: Config, groups: Groups, t: Table, running: seq<RunningTask>, jobs: map<nat, Job>,
                         tasks: map<Name, set<RunningTask>>, used: map<Name, seq<Use>>, seen: set<Name>,
                         enabled: set<Name>)
    requires IsTable(c, groups, t)
  {
    && Counts(c, groups, t, running, seen) && OwnUses(used) && UsesLeft(used, running, seen)
    && TasksLeft(tasks, running, jobs, enabled)
  }

  ghost predicate UsesLeft(used: map<Name, seq<Use>>, running: seq<RunningTask>, seen: set<Name>) {
    forall name, r :: Sum(UsesFor(used, name), name, r) == if name in seen then 0 else Used(running, name, r)
  }

  ghost predicate TasksLeft(tasks: map<Name, set<RunningTask>>, running: seq<RunningTask>, jobs: map<nat, Job>,
                            enabled: set<Name>) {
    forall name: Name, rt: RunningTask ::
      rt in TasksAt(tasks, name) <==> rt in running && rt.node == name && !(name in enabled && JobRuns(jobs, rt))
  }

  // What visiting one node does to the list of its tasks.
  function Visited(tasks: map<Name, set<RunningTask>>, jobs: map<nat, Job>, node: Node): map<Name, set<RunningTask>> {
    if node.enabled && node.name in tasks then tasks[node.name := set rt | rt in tasks[node.name] && !JobRuns(jobs, rt)]
    else tasks
  }

  lemma VisitKeepsTasks(tasks: map<Name, set<RunningTask>>, running: seq<RunningTask>, jobs: map<nat, Job>,
                        enabled: set<Name>, node: Node)
    requires TasksLeft(tasks, running, jobs, enabled)
    ensures
      TasksLeft(Visited(tasks, jobs, node), running, jobs, if node.enabled then enabled + {node.name} else enabled)
  {
    var tasks', enabled' := Visited(tasks, jobs, node), if node.enabled then enabled + {node.name} else enabled;
    forall name: Name, rt: RunningTask
      ensures rt in TasksAt(tasks', name) <==>
        rt in running && rt.node == name && !(name in enabled' && JobRuns(jobs, rt))
    {
      assert rt in TasksAt(tasks, name) <==>
        rt in running && rt.node == name && !(name in enabled && JobRuns(jobs, rt));
    }
    assert TasksLeft(tasks', running, jobs, enabled');
  }

  lemma VisitKeepsUses(used: map<Name, seq<Use>>, running: seq<RunningTask>, seen: set<Name>, name: Name)
    requires UsesLeft(used, running, seen)
    ensures UsesLeft(used - {name}, running, seen + {name})
  {
    forall x, r ensures Sum(UsesFor(used - {name}, x), x, r) == if x in seen + {name} then 0 else Used(running, x, r) {
      assert Sum(UsesFor(used, x), x, r) == if x in seen then 0 else Used(running, x, r);
    }
  }

  lemma VisitWalks(c: Config, groups: Groups, t: Table, t': Table, running: seq<RunningTask>, jobs: map<nat, Job>,
                   tasks: map<Name, set<RunningTask>>, used: map<Name, seq<Use>>, seen: set<Name>, enabled: set<Name>,
                   l: Level, node: Node)
    requires IsTable(c, groups, t) && IsTable(c, groups, t') && l < |groups| && node.name in t.offsets[l]
    requires Walked(c, groups, t, running, jobs, tasks, used, seen, enabled)
    requires BlockLowered(c, groups, t, t', l, node.name, UsesFor(used, node.name))
    ensures Walked(c, groups, t', running, jobs, Visited(tasks, jobs, node), used - {node.name}, seen + {node.name},
                   if node.enabled then enabled + {node.name} else enabled)
  {
    hide Counts, BlockLowered, IsTable, TasksLeft, Visited;
    LoweringCounts(c, groups, t, t', l, node.name, UsesFor(used, node.name), running, seen);
    VisitKeepsTasks(tasks, running, jobs, enabled, node);
    VisitKeepsUses(used, running, seen, node.name);
  }
}

/**
 What running tasks use of the resources of the nodes they run on, and the limits on it
 (bistro/runners/TaskRunner.cpp, bistro/scheduler/Scheduler.cpp).
 */
module Resources {
  import opened Options

  type Level = nat
  type Name = nat
  type Resource = nat

  // Per level: its resources, and how much of each every node of the level has.
  datatype Config = Config(levelToResources: seq<seq<Resource>>, resourcesByLevel: seq<map<Resource, int>>)

  predicate ConfigOK(c: Config) {
    && |c.levelToResources| == |c.resourcesByLevel|
    && (forall l, i, j :: 0 <= l < |c.levelToResources| && 0 <= i < j < |c.levelToResources[l]| ==>
          c.levelToResources[l][i] != c.levelToResources[l][j])
    && (forall l, i :: 0 <= l < |c.levelToResources| && 0 <= i < |c.levelToResources[l]| ==>
          && c.levelToResources[l][i] in c.resourcesByLevel[l]
          && 0 <= c.resourcesByLevel[l][c.levelToResources[l][i]])
  }

  function Limit(c: Config, level: Level, r: Resource): int
    requires ConfigOK(c) && level < |c.levelToResources| && r in c.levelToResources[level]
  {
    c.resourcesByLevel[level][r]
  }

  datatype Node = Node(name: Name, level: Level, enabled: bool, parent: Option<Node>)

  // Node::traverseUp
  function Path(n: Node): (path: seq<Node>)
    ensures path != [] && path[0] == n
  {
    [n] + if n.parent.Some? then Path(n.parent.value) else []
  }

  // A path crosses each level at most once, and all its levels are configured.
  predicate PathOK(c: Config, path: seq<Node>) {
    && (forall i :: 0 <= i < |path| ==> path[i].level < |c.levelToResources|)
    && (forall i, j :: 0 <= i < j < |path| ==> path[i].level != path[j].level && path[i].name != path[j].name)
  }

  datatype Job = Job(id: nat, canRun: bool, priority: real, resources: map<Resource, int>, dependsOn: seq<nat>)

  function Need(job: Job, r: Resource): int {
    if r in job.resources then job.resources[r] else 0
  }

  // ------------------------------------------------------------ what a running task records

  datatype Use = Use(node: Name, resource: Resource, amount: int)

  datatype RunningTask = RunningTask(job: nat, node: Name, uses: seq<Use>)

  // addNodeResourcesToRunningTask, for one node.
  function UsesAt(job: Job, name: Name, rids: seq<Resource>): seq<Use> {
    if rids == [] then []
    else UsesAt(job, name, rids[..|rids| - 1]) + [Use(name, rids[|rids| - 1], Need(job, rids[|rids| - 1]))]
  }

  function UsesOf(c: Config, job: Job, path: seq<Node>): seq<Use>
    requires PathOK(c, path)
  {
    if path == [] then []
    else
      var last := path[|path| - 1];
      UsesOf(c, job, path[..|path| - 1]) + UsesAt(job, last.name, c.levelToResources[last.level])
  }

  // The total recorded for one resource of one node.
  function Sum(uses: seq<Use>, name: Name, r: Resource): int {
    if uses == [] then 0
    else
      var u := uses[|uses| - 1];
      Sum(uses[..|uses| - 1], name, r) + if u.node == name && u.resource == r then u.amount else 0
  }

  function Used(running: seq<RunningTask>, name: Name, r: Resource): int {
    if running == [] then 0 else Used(running[..|running| - 1], name, r) + Sum(running[|running| - 1].uses, name, r)
  }

  lemma {:induction false} SumSplits(a: seq<Use>, b: seq<Use>, name: Name, r: Resource)
    ensures Sum(a + b, name, r) == Sum(a, name, r) + Sum(b, name, r)
  {
    if b == [] {
      assert a + b == a;
    } else {
      assert (a + b)[..|a + b| - 1] == a + b[..|b| - 1];
      SumSplits(a, b[..|b| - 1], name, r);
    }
  }

  lemma {:induction false} UsedSplits(a: seq<RunningTask>, b: seq<RunningTask>, name: Name, r: Resource)
    ensures Used(a + b, name, r) == Used(a, name, r) + Used(b, name, r)
  {
    if b == [] {
      assert a + b == a;
    } else {
      assert (a + b)[..|a + b| - 1] == a + b[..|b| - 1];
      UsedSplits(a, b[..|b| - 1], name, r);
    }
  }

  // A node's own uses: each of its resources once.
  lemma {:induction false} SumAt(job: Job, node: Name, rids: seq<Resource>, name: Name, r: Resource)
    requires forall i, j :: 0 <= i < j < |rids| ==> rids[i] != rids[j]
    ensures Sum(UsesAt(job, node, rids), name, r) == if name == node && r in rids then Need(job, r) else 0
  {
    if rids != [] {
      var init, last := rids[..|rids| - 1], rids[|rids| - 1];
      SumAt(job, node, init, name, r);
      assert rids == init + [last];
      var uses := UsesAt(job, node, rids);
      assert uses[..|uses| - 1] == UsesAt(job, node, init);
    }
  }

  // Some node of the path has the name, and the resource is one of its level.
  predicate OnPath(c: Config, path: seq<Node>, name: Name, r: Resource)
    requires PathOK(c, path)
  {
    exists i :: 0 <= i < |path| && path[i].name == name && r in c.levelToResources[path[i].level]
  }

  // A task records its need at every node of its path, for every resource of the node's level.
  lemma {:induction false} SumOf(c: Config, job: Job, path: seq<Node>, name: Name, r: Resource)
    requires ConfigOK(c) && PathOK(c, path)
    ensures Sum(UsesOf(c, job, path), name, r) == if OnPath(c, path, name, r) then Need(job, r) else 0
  {
    if path != [] {
      var init, last := path[..|path| - 1], path[|path| - 1];
      SumOf(c, job, init, name, r);
      SumAt(job, last.name, c.levelToResources[last.level], name, r);
      SumSplits(UsesOf(c, job, init), UsesAt(job, last.name, c.levelToResources[last.level]), name, r);
      OnPathSplits(c, path, name, r);
    }
  }

  lemma OnPathSplits(c: Config, path: seq<Node>, name: Name, r: Resource)
    requires PathOK(c, path) && path != []
    ensures
      var init, last := path[..|path| - 1], path[|path| - 1];
      && (OnPath(c, path, name, r) <==>
        OnPath(c, init, name, r) || (last.name == name && r in c.levelToResources[last.level]))
      && (last.name == name ==> !OnPath(c, init, name, r))
  {
    var init, last := path[..|path| - 1], path[|path| - 1];
    assert forall i :: 0 <= i < |init| ==> init[i] == path[i] && path[i].name != last.name;
  }

  // ------------------------------------------------------------ limits over whole runs

  // The nodes of each level, as fetched.
  type Groups = seq<seq<Node>>

  // A name belongs to one level; replicas of a node share it.
  predicate GroupsOK(c: Config, groups: Groups) {
    && |groups| == |c.levelToResources|
    && (forall l, i :: 0 <= l < |groups| && 0 <= i < |groups[l]| ==> groups[l][i].level == l)
    && (forall l, m, i, j ::
          0 <= l < |groups| && 0 <= m < |groups| && 0 <= i < |groups[l]| && 0 <= j < |groups[m]| ==>
          groups[l][i].name == groups[m][j].name ==> l == m)
  }

  ghost predicate Within(c: Config, groups: Groups, running: seq<RunningTask>)
    requires ConfigOK(c) && GroupsOK(c, groups)
  {
    forall l, n, r :: 0 <= l < |groups| && n in groups[l] && r in c.levelToResources[l] ==>
      Used(running, n.name, r) <= Limit(c, l, r)
  }

  // There is room for the task beside what runs already.
  ghost predicate Fits(c: Config, running: seq<RunningTask>, job: Job, path: seq<Node>)
    requires ConfigOK(c) && PathOK(c, path)
  {
    forall n, r :: n in path && r in c.levelToResources[n.level] ==>
      Used(running, n.name, r) + Need(job, r) <= Limit(c, n.level, r)
  }

  function Started(c: Config, job: Job, node: Node): RunningTask
    requires PathOK(c, Path(node))
  {
    RunningTask(job.id, node.name, UsesOf(c, job, Path(node)))
  }

  predicate Placed(c: Config, groups: Groups, node: Node) {
    && PathOK(c, Path(node))
    && |groups| == |c.levelToResources|
    && forall i :: 0 <= i < |Path(node)| ==> Path(node)[i] in groups[Path(node)[i].level]
  }

  // What is used of a resource is within its limit, or what it was.
  ghost predicate NoneWorse(c: Config, groups: Groups, before: seq<RunningTask>, after: seq<RunningTask>)
    requires ConfigOK(c) && GroupsOK(c, groups)
  {
    forall l, n, r :: 0 <= l < |groups| && n in groups[l] && r in c.levelToResources[l] ==>
      Used(after, n.name, r) <= Limit(c, l, r) || Used(after, n.name, r) == Used(before, n.name, r)
  }

  lemma FittingMakesNoneWorse(c: Config, groups: Groups, running: seq<RunningTask>, job: Job, node: Node)
    requires ConfigOK(c) && GroupsOK(c, groups) && Placed(c, groups, node) && Fits(c, running, job, Path(node))
    ensures NoneWorse(c, groups, running, running + [Started(c, job, node)])
  {
    var task := Started(c, job, node);
    forall l, n, r | 0 <= l < |groups| && n in groups[l] && r in c.levelToResources[l]
      ensures Used(running + [task], n.name, r) <= Limit(c, l, r)
        || Used(running + [task], n.name, r) == Used(running, n.name, r)
    {
      assert (running + [task])[..|running|] == running;
      SumOf(c, job, Path(node), n.name, r);
      if OnPath(c, Path(node), n.name, r) {
        var i :| 0 <= i < |Path(node)| && Path(node)[i].name == n.name && r in c.levelToResources[Path(node)[i].level];
        assert Path(node)[i] in groups[Path(node)[i].level] && Path(node)[i].level == l;
      }
    }
  }

  lemma FittingKeepsWithin(c: Config, groups: Groups, running: seq<RunningTask>, job: Job, node: Node)
    requires ConfigOK(c) && GroupsOK(c, groups) && Within(c, groups, running)
    requires Placed(c, groups, node) && Fits(c, running, job, Path(node))
    ensures Within(c, groups, running + [Started(c, job, node)])
  {
    hide UsesOf, Used, Placed, Fits;
    FittingMakesNoneWorse(c, groups, running, job, node);
  }

  // The steps of a run: a task starts where there is room for it, or a task ends.
  ghost predicate Starts(c: Config, groups: Groups, running: seq<RunningTask>, job: Job, node: Node,
                         running': seq<RunningTask>)
    requires ConfigOK(c)
  {
    && Placed(c, groups, node) && Fits(c, running, job, Path(node))
    && running' == running + [Started(c, job, node)]
  }

  predicate Ends(running: seq<RunningTask>, running': seq<RunningTask>) {
    exists k :: 0 <= k < |running| && running' == running[..k] + running[k + 1..]
  }

  ghost predicate Next(c: Config, groups: Groups, running: seq<RunningTask>, running': seq<RunningTask>)
    requires ConfigOK(c) && GroupsOK(c, groups)
  {
    || (exists job, node :: TakesOnly(c, job, Path(node)) && Starts(c, groups, running, job, node, running'))
    || Ends(running, running')
  }

  // The job needs no resource of a level on the path negatively.
  predicate TakesOnly(c: Config, job: Job, path: seq<Node>) {
    forall i, r :: 0 <= i < |path| && path[i].level < |c.levelToResources| && r in c.levelToResources[path[i].level] ==>
      0 <= Need(job, r)
  }

  ghost predicate IsRun(c: Config, groups: Groups, run: seq<seq<RunningTask>>)
    requires ConfigOK(c) && GroupsOK(c, groups)
  {
    run != [] && run[0] == [] && forall i :: 0 <= i < |run| - 1 ==> Next(c, groups, run[i], run[i + 1])
  }

  ghost predicate UsesNonNegative(running: seq<RunningTask>) {
    forall i, k :: 0 <= i < |running| && 0 <= k < |running[i].uses| ==> 0 <= running[i].uses[k].amount
  }

  lemma {:induction false} SumIsNonNegative(uses: seq<Use>, name: Name, r: Resource)
    requires forall k :: 0 <= k < |uses| ==> 0 <= uses[k].amount
    ensures 0 <= Sum(uses, name, r)
  {
    if uses != [] {
      SumIsNonNegative(uses[..|uses| - 1], name, r);
    }
  }

  lemma {:induction false} UsesAtAreNonNegative(job: Job, name: Name, rids: seq<Resource>)
    requires forall r :: r in rids ==> 0 <= Need(job, r)
    ensures forall k :: 0 <= k < |UsesAt(job, name, rids)| ==> 0 <= UsesAt(job, name, rids)[k].amount
  {
    if rids != [] {
      UsesAtAreNonNegative(job, name, rids[..|rids| - 1]);
    }
  }

  lemma {:induction false} UsesOfAreNonNegative(c: Config, job: Job, path: seq<Node>)
    requires TakesOnly(c, job, path) && PathOK(c, path)
    ensures forall k :: 0 <= k < |UsesOf(c, job, path)| ==> 0 <= UsesOf(c, job, path)[k].amount
  {
    if path != [] {
      UsesOfAreNonNegative(c, job, path[..|path| - 1]);
      UsesAtAreNonNegative(job, path[|path| - 1].name, c.levelToResources[path[|path| - 1].level]);
    }
  }

  lemma EndingKeepsWithin(c: Config, groups: Groups, running: seq<RunningTask>, k: nat)
    requires ConfigOK(c) && GroupsOK(c, groups) && Within(c, groups, running) && UsesNonNegative(running)
      && k < |running|
    ensures Within(c, groups, running[..k] + running[k + 1..])
  {
    forall l, n, r | 0 <= l < |groups| && n in groups[l] && r in c.levelToResources[l]
      ensures Used(running[..k] + running[k + 1..], n.name, r) <= Limit(c, l, r)
    {
      UsedSplits(running[..k], running[k + 1..], n.name, r);
      assert running == running[..k] + ([running[k]] + running[k + 1..]);
      UsedSplits(running[..k], [running[k]] + running[k + 1..], n.name, r);
      UsedSplits([running[k]], running[k + 1..], n.name, r);
      assert [running[k]][..0] == [];
      SumIsNonNegative(running[k].uses, n.name, r);
    }
  }

  // In every state of every run, what running tasks record at a node sums to at most its limit.
  lemma {:induction false} LimitsHold(c: Config, groups: Groups, run: seq<seq<RunningTask>>, k: nat)
    requires ConfigOK(c) && GroupsOK(c, groups) && IsRun(c, groups, run) && k < |run|
    ensures Within(c, groups, run[k]) && UsesNonNegative(run[k])
  {
    hide Within, Fits, UsesOf, TakesOnly;
    if k == 0 {
      NothingIsWithin(c, groups);
    } else {
      LimitsHold(c, groups, run, k - 1);
      assert Next(c, groups, run[k - 1], run[k - 1 + 1]);
      var before, after := run[k - 1], run[k];
      if job, node :| TakesOnly(c, job, Path(node)) && Starts(c, groups, before, job, node, after) {
        FittingKeepsWithin(c, groups, before, job, node);
        UsesOfAreNonNegative(c, job, Path(node));
      } else {
        var e :| 0 <= e < |before| && after == before[..e] + before[e + 1..];
        EndingKeepsWithin(c, groups, before, e);
      }
    }
  }

  // Wherever a task with a negative requirement can start, a run gets over a limit, by letting a
  // second task use what the first one gives.
  lemma NegativeNeedBreaks(c: Config, groups: Groups, job: Job, node: Node, r: Resource) returns (other: Job)
    requires ConfigOK(c) && GroupsOK(c, groups) && Placed(c, groups, node) && Fits(c, [], job, Path(node))
    requires (exists n :: n in Path(node) && r in c.levelToResources[n.level]) && Need(job, r) < 0
    ensures TakesOnly(c, other, Path(node))
    ensures
      var first, second := Started(c, job, node), Started(c, other, node);
      && Starts(c, groups, [], job, node, [first]) && Starts(c, groups, [first], other, node, [first, second])
      && Ends([first, second], [second]) && !Within(c, groups, [second])
  {
    hide UsesOf;
    var path := Path(node);
    var q := LeastLimit(c, path, r);
    assert 0 <= Limit(c, q.level, r) by {
      LimitIsNonNegative(c, q.level, r);
    }
    other := Job(job.id + 1, true, 1.0, map[r := Limit(c, q.level, r) - Need(job, r)], []);
    var first, second := Started(c, job, node), Started(c, other, node);
    assert [] + [first] == [first] && [first] + [second] == [first, second];
    assert [first, second][..0] + [first, second][0 + 1..] == [second];
    forall n, r' | n in path && r' in c.levelToResources[n.level]
      ensures Used([first], n.name, r') + Need(other, r') <= Limit(c, n.level, r')
    {
      OnlyUse(c, job, node, n, r');
    }
    OnlyUse(c, other, node, q, r);
  }

  // The task may start too, whatever it needs.
  ghost predicate NextWith(c: Config, groups: Groups, job: Job, node: Node, running: seq<RunningTask>,
                           running': seq<RunningTask>)
    requires ConfigOK(c) && GroupsOK(c, groups)
  {
    Next(c, groups, running, running') || Starts(c, groups, running, job, node, running')
  }

  ghost predicate IsRunWith(c: Config, groups: Groups, job: Job, node: Node, run: seq<seq<RunningTask>>)
    requires ConfigOK(c) && GroupsOK(c, groups)
  {
    run != [] && run[0] == [] && forall i :: 0 <= i < |run| - 1 ==> NextWith(c, groups, job, node, run[i], run[i + 1])
  }

  ghost predicate StaysWithin(c: Config, groups: Groups, run: seq<seq<RunningTask>>)
    requires ConfigOK(c) && GroupsOK(c, groups)
  {
    forall k :: 0 <= k < |run| ==> Within(c, groups, run[k])
  }

  // A task can join the runs above without any run getting over a limit exactly if it needs
  // nothing on its path negatively, or does not even fit when nothing runs.
  lemma LimitsHoldExactly(c: Config, groups: Groups, job: Job, node: Node)
    requires ConfigOK(c) && GroupsOK(c, groups) && Placed(c, groups, node)
    ensures TakesOnly(c, job, Path(node)) || !Fits(c, [], job, Path(node))
      <==> forall run :: IsRunWith(c, groups, job, node, run) ==> StaysWithin(c, groups, run)
  {
    hide Within, Fits, Starts, Next, UsesOf;
    if TakesOnly(c, job, Path(node)) {
      forall run | IsRunWith(c, groups, job, node, run) ensures StaysWithin(c, groups, run) {
        TakersRun(c, groups, job, node, run);
      }
    } else if !Fits(c, [], job, Path(node)) {
      forall run | IsRunWith(c, groups, job, node, run) ensures StaysWithin(c, groups, run) {
        forall k | 0 <= k < |run| ensures Within(c, groups, run[k]) {
          NeverStarts(c, groups, job, node, run, k);
        }
      }
    } else {
      var run := Overrun(c, groups, job, node);
      assert IsRunWith(c, groups, job, node, run) && !StaysWithin(c, groups, run);
    }
  }

  lemma {:induction false} UsedIsNonNegative(running: seq<RunningTask>, name: Name, r: Resource)
    requires UsesNonNegative(running)
    ensures 0 <= Used(running, name, r)
  {
    if running != [] {
      UsedIsNonNegative(running[..|running| - 1], name, r);
      SumIsNonNegative(running[|running| - 1].uses, name, r);
    }
  }

  // What does not fit when nothing runs does not fit beside tasks that only take.
  lemma {:induction false} NeverStarts(c: Config, groups: Groups, job: Job, node: Node, run: seq<seq<RunningTask>>,
                                       k: nat)
    requires ConfigOK(c) && GroupsOK(c, groups) && Placed(c, groups, node) && !Fits(c, [], job, Path(node))
    requires IsRunWith(c, groups, job, node, run) && k < |run|
    ensures IsRun(c, groups, run[..k + 1]) && Within(c, groups, run[k])
  {
    hide Within, Fits, Next, UsesOf;
    if k > 0 {
      NeverStarts(c, groups, job, node, run, k - 1);
      var before := run[..k];
      LimitsHold(c, groups, before, k - 1);
      if Fits(c, run[k - 1], job, Path(node)) {
        FitsAlone(c, run[k - 1], job, Path(node));
      }
      assert NextWith(c, groups, job, node, run[k - 1], run[k - 1 + 1]);
      var after := run[..k + 1];
      forall i | 0 <= i < k ensures Next(c, groups, after[i], after[i + 1]) {
        assert i < k - 1 ==> Next(c, groups, before[i], before[i + 1]);
      }
    }
    LimitsHold(c, groups, run[..k + 1], k);
  }

  lemma FitsAlone(c: Config, running: seq<RunningTask>, job: Job, path: seq<Node>)
    requires ConfigOK(c) && PathOK(c, path) && UsesNonNegative(running) && Fits(c, running, job, path)
    ensures Fits(c, [], job, path)
  {
    forall n, r | n in path && r in c.levelToResources[n.level]
      ensures Used([], n.name, r) + Need(job, r) <= Limit(c, n.level, r)
    {
      UsedIsNonNegative(running, n.name, r);
    }
  }

  lemma TakersRun(c: Config, groups: Groups, job: Job, node: Node, run: seq<seq<RunningTask>>)
    requires ConfigOK(c) && GroupsOK(c, groups) && TakesOnly(c, job, Path(node)) && IsRunWith(c, groups, job, node, run)
    ensures StaysWithin(c, groups, run)
  {
    hide Within, Starts, TakesOnly;
    forall i | 0 <= i < |run| - 1 ensures Next(c, groups, run[i], run[i + 1]) {
      assert NextWith(c, groups, job, node, run[i], run[i + 1]);
    }
    forall k | 0 <= k < |run| ensures Within(c, groups, run[k]) {
      LimitsHold(c, groups, run, k);
    }
  }

  lemma GivesSome(c: Config, job: Job, path: seq<Node>) returns (r: Resource)
    requires PathOK(c, path) && !TakesOnly(c, job, path)
    ensures (exists n :: n in path && r in c.levelToResources[n.level]) && Need(job, r) < 0
  {
    var i: int;
    i, r :| 0 <= i < |path| && path[i].level < |c.levelToResources| && r in c.levelToResources[path[i].level]
            && Need(job, r) < 0;
    assert path[i] in path;
  }

  lemma Overrun(c: Config, groups: Groups, job: Job, node: Node) returns (run: seq<seq<RunningTask>>)
    requires ConfigOK(c) && GroupsOK(c, groups) && Placed(c, groups, node) && Fits(c, [], job, Path(node))
    requires !TakesOnly(c, job, Path(node))
    ensures IsRunWith(c, groups, job, node, run) && !StaysWithin(c, groups, run)
  {
    hide Within, Starts, Ends, TakesOnly, Fits, UsesOf;
    var r := GivesSome(c, job, Path(node));
    var other := NegativeNeedBreaks(c, groups, job, node, r);
    var first, second := Started(c, job, node), Started(c, other, node);
    run := [[], [first], [first, second], [second]];
    assert NextWith(c, groups, job, node, run[0], run[1]) && NextWith(c, groups, job, node, run[1], run[2])
           && NextWith(c, groups, job, node, run[2], run[3]);
    assert !Within(c, groups, run[3]);
  }

  lemma LimitIsNonNegative(c: Config, level: Level, r: Resource)
    requires ConfigOK(c) && level < |c.levelToResources| && r in c.levelToResources[level]
    ensures 0 <= Limit(c, level, r)
  {
    var i :| 0 <= i < |c.levelToResources[level]| && c.levelToResources[level][i] == r;
  }

  // A node of the path that has the resource, and has least of it.
  lemma LeastLimit(c: Config, path: seq<Node>, r: Resource) returns (q: Node)
    requires ConfigOK(c) && PathOK(c, path) && exists n :: n in path && r in c.levelToResources[n.level]
    ensures q in path && r in c.levelToResources[q.level]
    ensures forall n :: n in path && r in c.levelToResources[n.level] ==> Limit(c, q.level, r) <= Limit(c, n.level, r)
  {
    q :| q in path && r in c.levelToResources[q.level];
    for k := 0 to |path|
      invariant q in path && r in c.levelToResources[q.level]
      invariant forall i :: 0 <= i < k && r in c.levelToResources[path[i].level] ==>
        Limit(c, q.level, r) <= Limit(c, path[i].level, r)
    {
      if r in c.levelToResources[path[k].level] && Limit(c, path[k].level, r) < Limit(c, q.level, r) {
        q := path[k];
      }
    }
  }

  lemma OnlyUse(c: Config, job: Job, node: Node, n: Node, r: Resource)
    requires ConfigOK(c) && PathOK(c, Path(node)) && n in Path(node) && r in c.levelToResources[n.level]
    ensures Used([Started(c, job, node)], n.name, r) == Need(job, r)
  {
    var task := Started(c, job, node);
    assert [task][..0] == [];
    SumOf(c, job, Path(node), n.name, r);
    var i :| 0 <= i < |Path(node)| && Path(node)[i] == n;
    assert OnPath(c, Path(node), n.name, r);
  }

  lemma NothingIsWithin(c: Config, groups: Groups)
    requires ConfigOK(c) && GroupsOK(c, groups)
    ensures Within(c, groups, [])
  {
    forall l, n, r | 0 <= l < |groups| && n in groups[l] && r in c.levelToResources[l] ensures 0 <= Limit(c, l, r) {
      LimitIsNonNegative(c, l, r);
    }
  }
}

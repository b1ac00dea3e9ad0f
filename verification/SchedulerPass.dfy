/** One pass of the scheduler (bistro/scheduler/Scheduler.cpp). */
module SchedulerPass {
  import opened Attempts
  import opened Fairness
  import opened PackedResources
  import opened Policies
  import opened Resources
  import opened ResourceTable
  import opened SchedulerRuns
  import Snapshot
  import TaskStatuses

  datatype PolicyName = RoundRobinPolicy | RandomizedPriorityPolicy | RankedPriorityPolicy | LongTailPolicy

  // ------------------------------------------------------------ which tasks may be started

  // What a pass sees besides resources: the status snapshot, the time, and the jobs' node filters.
  datatype View = View(rows: seq<Snapshot.Row>, now: int, passes: (Job, Node) -> bool)

  // Abort is a failed CHECK: the statuses of a job with a row were never loaded.
  datatype Choice = Run | Skip | Abort

  predicate Readable(view: View, job: nat) {
    job < |view.rows| ==> view.rows[job].isLoaded
  }

  predicate IsDone(view: View, job: nat, n: Node) {
    TaskStatuses.Done in Snapshot.StatusAt(view.rows, (job, n.name)).bits
  }

  // Job::shouldRunOn
  predicate ShouldRunOn(view: View, job: Job, path: seq<Node>) {
    forall i :: 0 <= i < |path| ==> path[i].enabled && view.passes(job, path[i])
  }

  // std::all_of over the dependencies, which stops at the first that is not done.
  function AllDone(view: View, dependencies: seq<nat>, n: Node): Choice {
    if dependencies == [] then Run
    else
      match AllDone(view, dependencies[..|dependencies| - 1], n)
      case Run =>
        var d := dependencies[|dependencies| - 1];
        if !Readable(view, d) then Abort else if IsDone(view, d, n) then Run else Skip
      case other => other
  }

  function Choose(view: View, job: Job, n: Node): Choice {
    if !TaskStatuses.MayStart(Snapshot.StatusAt(view.rows, (job.id, n.name)), view.now) then Skip
    else if !ShouldRunOn(view, job, Path(n)) then Skip
    else AllDone(view, job.dependsOn, n)
  }

  method ShouldRun(view: View, job: Job, n: Node) returns (yes: bool)
    ensures yes <==> ShouldRunOn(view, job, Path(n))
  {
    hide Path;
    var path := Path(n);
    for i := 0 to |path|
      invariant forall k :: 0 <= k < i ==> path[k].enabled && view.passes(job, path[k])
    {
      if !path[i].enabled {
        return false;
      }
      if !view.passes(job, path[i]) {
        return false;
      }
    }
    return true;
  }

  // Whether the node belongs to the job's candidates.
  method MayRun(view: View, job: Job, n: Node) returns (yes: bool)
    requires !Choose(view, job, n).Abort?
    ensures yes <==> Choose(view, job, n).Run?
  {
    var s := Snapshot.StatusAt(view.rows, (job.id, n.name));
    if TaskStatuses.Running in s.bits || TaskStatuses.Done in s.bits || TaskStatuses.Failed in s.bits
       || TaskStatuses.IsInBackoff(s, view.now) {
      return false;
    }
    var should := ShouldRun(view, job, n);
    if !should {
      return false;
    }
    for i := 0 to |job.dependsOn|
      invariant AllDone(view, job.dependsOn[..i], n).Run?
    {
      StopsAtFirst(view, job.dependsOn, n, i + 1);
      assert job.dependsOn[..i + 1][..i] == job.dependsOn[..i];
      assert Readable(view, job.dependsOn[i]);  // CHECK
      if !IsDone(view, job.dependsOn[i], n) {
        return false;
      }
    }
    assert job.dependsOn[..|job.dependsOn|] == job.dependsOn;
    return true;
  }

  // What a prefix decides against, the whole list does.
  lemma {:induction false} StopsAtFirst(view: View, dependencies: seq<nat>, n: Node, k: nat)
    requires k <= |dependencies|
    ensures !AllDone(view, dependencies[..k], n).Run? ==>
      AllDone(view, dependencies, n) == AllDone(view, dependencies[..k], n)
  {
    if k == |dependencies| {
      assert dependencies[..k] == dependencies;
    } else {
      var init := dependencies[..|dependencies| - 1];
      StopsAtFirst(view, init, n, k);
      assert init[..k] == dependencies[..k];
    }
  }

  // A dependency that has a row but was never loaded stands behind dependencies that are done.
  ghost predicate BlockedAt(view: View, dependencies: seq<nat>, n: Node, i: nat)
    requires i < |dependencies|
  {
    && !Readable(view, dependencies[i])
    && forall k :: 0 <= k < i ==> Readable(view, dependencies[k]) && IsDone(view, dependencies[k], n)
  }

  lemma {:induction false} AllDoneExactly(view: View, dependencies: seq<nat>, n: Node)
    ensures AllDone(view, dependencies, n).Run? <==>
      forall k :: 0 <= k < |dependencies| ==> Readable(view, dependencies[k]) && IsDone(view, dependencies[k], n)
    ensures AllDone(view, dependencies, n).Abort? <==>
      exists i: nat :: i < |dependencies| && BlockedAt(view, dependencies, n, i)
  {
    if dependencies != [] {
      var init, last := dependencies[..|dependencies| - 1], |dependencies| - 1;
      AllDoneExactly(view, init, n);
      if i: nat :| i < |init| && BlockedAt(view, init, n, i) {
        assert BlockedAt(view, dependencies, n, i);
      }
      if i: nat :| i < |dependencies| && BlockedAt(view, dependencies, n, i) && i < last {
        assert BlockedAt(view, init, n, i);
      }
      if AllDone(view, init, n).Run? {
        assert forall k :: 0 <= k < last ==> init[k] == dependencies[k];
        assert !Readable(view, dependencies[last]) ==> BlockedAt(view, dependencies, n, last);
      }
    }
  }

  // A task is a candidate exactly if its status lets it start, no node on its path is disabled or
  // filtered out, and all its dependencies are done.
  ghost predicate May(view: View, job: Job, n: Node) {
    && TaskStatuses.MayStart(Snapshot.StatusAt(view.rows, (job.id, n.name)), view.now)
    && ShouldRunOn(view, job, Path(n))
    && forall k :: 0 <= k < |job.dependsOn| ==> Readable(view, job.dependsOn[k]) && IsDone(view, job.dependsOn[k], n)
  }

  // The pass aborts at a task exactly if the task is otherwise eligible and one of its
  // dependencies blocks it.
  lemma ChooseExactly(view: View, job: Job, n: Node)
    ensures Choose(view, job, n).Run? <==> May(view, job, n)
    ensures Choose(view, job, n).Abort? <==>
      && TaskStatuses.MayStart(Snapshot.StatusAt(view.rows, (job.id, n.name)), view.now)
      && ShouldRunOn(view, job, Path(n))
      && exists i: nat :: i < |job.dependsOn| && BlockedAt(view, job.dependsOn, n, i)
  {
    AllDoneExactly(view, job.dependsOn, n);
  }

  // A job may depend on a job that does not exist, and should then never run.  If a later job has
  // a row, the pass aborts instead.
  lemma MissingDependencyAborts(n: Node)
    requires n.enabled && n.parent.None?
    ensures
      var rows := [Snapshot.Row([], true), Snapshot.NO_ROW, Snapshot.Row([], true)];
      var view := View(rows, 0, (j: Job, m: Node) => true);
      Choose(view, Job(0, true, 1.0, map[], [1]), n).Abort? && Choose(view, Job(0, true, 1.0, map[], [3]), n).Skip?
  {
    var rows := [Snapshot.Row([], true), Snapshot.NO_ROW, Snapshot.Row([], true)];
    var view := View(rows, 0, (j: Job, m: Node) => true);
    assert Path(n) == [n];
    ChooseExactly(view, Job(0, true, 1.0, map[], [1]), n);
    assert BlockedAt(view, [1], n, 0);
    ChooseExactly(view, Job(0, true, 1.0, map[], [3]), n);
    assert Readable(view, [3][0]) && !IsDone(view, [3][0], n);
  }

  function Eligible(view: View, job: Job, nodes: seq<Node>): seq<Node> {
    if nodes == [] then []
    else
      var init, last := Eligible(view, job, nodes[..|nodes| - 1]), nodes[|nodes| - 1];
      if Choose(view, job, last).Run? then init + [last] else init
  }

  // The cross product of jobs and nodes, for the jobs that can run.
  function Candidates(view: View, level: Job -> Level, groups: Groups, jobs: seq<Job>): seq<JobWithNodes> {
    if jobs == [] then []
    else
      var init, job := Candidates(view, level, groups, jobs[..|jobs| - 1]), jobs[|jobs| - 1];
      if !job.canRun then init
      else init + [JobWithNodes(job, if level(job) < |groups| then Eligible(view, job, groups[level(job)]) else [])]
  }

  // No CHECK fails while the cross product is computed.
  ghost predicate NoAbort(view: View, level: Job -> Level, groups: Groups, jobs: seq<Job>) {
    forall k :: 0 <= k < |jobs| && jobs[k].canRun ==>
      && Readable(view, jobs[k].id)
      && (level(jobs[k]) < |groups| ==>
            forall i :: 0 <= i < |groups[level(jobs[k])]| ==> !Choose(view, jobs[k], groups[level(jobs[k])][i]).Abort?)
  }

  // If the jobs and everything they depend on are loaded, as they are when all of them are
  // configured, no CHECK fails.
  lemma LoadedNeverAborts(view: View, level: Job -> Level, groups: Groups, jobs: seq<Job>)
    requires forall k :: 0 <= k < |jobs| ==> Readable(view, jobs[k].id)
    requires forall k, i :: 0 <= k < |jobs| && 0 <= i < |jobs[k].dependsOn| ==> Readable(view, jobs[k].dependsOn[i])
    ensures NoAbort(view, level, groups, jobs)
  {
    hide Choose;
    forall k, i | 0 <= k < |jobs| && level(jobs[k]) < |groups| && 0 <= i < |groups[level(jobs[k])]|
      ensures !Choose(view, jobs[k], groups[level(jobs[k])][i]).Abort?
    {
      ChooseExactly(view, jobs[k], groups[level(jobs[k])][i]);
    }
  }

  method CrossProduct(view: View, level: Job -> Level, groups: Groups, jobs: seq<Job>)
      returns (candidates: seq<JobWithNodes>)
    requires NoAbort(view, level, groups, jobs)
    ensures candidates == Candidates(view, level, groups, jobs)
  {
    hide Choose;
    candidates := [];
    for k := 0 to |jobs|
      invariant candidates == Candidates(view, level, groups, jobs[..k])
    {
      assert jobs[..k + 1][..k] == jobs[..k];
      var job := jobs[k];
      if !job.canRun {
        continue;
      }
      var eligible: seq<Node> := [];
      assert Readable(view, job.id);  // CHECK
      if level(job) < |groups| {
        var nodes := groups[level(job)];
        for i := 0 to |nodes|
          invariant eligible == Eligible(view, job, nodes[..i])
        {
          assert nodes[..i + 1][..i] == nodes[..i];
          var may := MayRun(view, job, nodes[i]);
          if may {
            eligible := eligible + [nodes[i]];
          }
        }
        assert nodes[..|nodes|] == nodes;
      }
      candidates := candidates + [JobWithNodes(job, eligible)];
    }
    assert jobs[..|jobs|] == jobs;
  }

  // A pair is a candidate exactly if the job can run and may be started on a node of its level.
  lemma {:induction false} CandidatesExactly(view: View, level: Job -> Level, groups: Groups, jobs: seq<Job>, job: Job,
                                             n: Node)
    ensures HasPair(Candidates(view, level, groups, jobs), job, n)
      <==> job in jobs && job.canRun && level(job) < |groups| && n in groups[level(job)] && May(view, job, n)
  {
    hide May;
    if jobs != [] {
      var init, last := jobs[..|jobs| - 1], jobs[|jobs| - 1];
      CandidatesExactly(view, level, groups, init, job, n);
      assert jobs == init + [last];
      if last.canRun {
        var nodes := if level(last) < |groups| then Eligible(view, last, groups[level(last)]) else [];
        PairOfLast(Candidates(view, level, groups, init), JobWithNodes(last, nodes), job, n);
        if level(last) < |groups| {
          EligibleExactly(view, last, groups[level(last)], n);
        }
      }
    }
  }

  predicate HasPair(candidates: seq<JobWithNodes>, job: Job, n: Node) {
    exists i :: 0 <= i < |candidates| && candidates[i].job == job && n in candidates[i].nodes
  }

  lemma PairOfLast(candidates: seq<JobWithNodes>, last: JobWithNodes, job: Job, n: Node)
    ensures HasPair(candidates + [last], job, n) <==>
      HasPair(candidates, job, n) || (last.job == job && n in last.nodes)
  {
    var all := candidates + [last];
    assert all[|candidates|] == last && forall i :: 0 <= i < |candidates| ==> all[i] == candidates[i];
  }

  lemma {:induction false} EligibleExactly(view: View, job: Job, nodes: seq<Node>, n: Node)
    ensures n in Eligible(view, job, nodes) <==> n in nodes && May(view, job, n)
  {
    hide May, Choose;
    if nodes != [] {
      EligibleExactly(view, job, nodes[..|nodes| - 1], n);
      ChooseExactly(view, job, nodes[|nodes| - 1]);
      assert nodes == nodes[..|nodes| - 1] + [nodes[|nodes| - 1]];
    }
  }

  lemma CandidatesArePlaced(view: View, level: Job -> Level, c: Config, groups: Groups, jobs: seq<Job>)
    requires forall l, i :: 0 <= l < |groups| && 0 <= i < |groups[l]| ==> Placed(c, groups, groups[l][i])
    ensures AllPlaced(c, groups, Candidates(view, level, groups, jobs))
  {
    hide May, Placed, Candidates;
    var all := Candidates(view, level, groups, jobs);
    forall i, n | 0 <= i < |all| && 0 <= n < |all[i].nodes| ensures Placed(c, groups, all[i].nodes[n]) {
      assert HasPair(all, all[i].job, all[i].nodes[n]);
      CandidatesExactly(view, level, groups, jobs, all[i].job, all[i].nodes[n]);
    }
  }

  lemma {:induction false} CandidatesAreDistinct(view: View, level: Job -> Level, groups: Groups, jobs: seq<Job>)
    requires forall i, j :: 0 <= i < j < |jobs| ==> jobs[i] != jobs[j]
    ensures DistinctJobs(Candidates(view, level, groups, jobs))
    ensures forall i :: 0 <= i < |Candidates(view, level, groups, jobs)| ==>
      Candidates(view, level, groups, jobs)[i].job in jobs
  {
    if jobs != [] {
      CandidatesAreDistinct(view, level, groups, jobs[..|jobs| - 1]);
      assert jobs[|jobs| - 1] !in jobs[..|jobs| - 1];
    }
  }

  // ------------------------------------------------------------ the pass

  // Only candidates are tried.
  lemma TriedWasGiven(given: seq<JobWithNodes>, left: seq<JobWithNodes>, log: seq<Attempt>, scheduled: nat, i: nat)
    requires Accounts(given, left, log, scheduled) && i < |log|
    ensures HasPair(given, log[i].job, log[i].node)
  {
    hide Pairs;
    assert Tried(log)[i] in multiset(Tried(log));
    PairIsHad(given, log[i].job, log[i].node);
  }

  lemma {:induction false} PairIsHad(jobs: seq<JobWithNodes>, job: Job, n: Node)
    requires (job, n) in Pairs(jobs)
    ensures HasPair(jobs, job, n)
  {
    var init, last := jobs[..|jobs| - 1], jobs[|jobs| - 1];
    assert jobs == init + [last];
    PairOfLast(init, last, job, n);
    if (job, n) in Pairs(init) {
      PairIsHad(init, job, n);
    } else {
      assert (job, n) in multiset(PairsOf(last));
      var i :| 0 <= i < |PairsOf(last)| && PairsOf(last)[i] == (job, n);
    }
  }

  // No job needs anything on the path of a node of its level negatively.
  ghost predicate AllTake(c: Config, level: Job -> Level, groups: Groups, jobs: seq<Job>) {
    forall k, i :: 0 <= k < |jobs| && level(jobs[k]) < |groups| && 0 <= i < |groups[level(jobs[k])]| ==>
      TakesOnly(c, jobs[k], Path(groups[level(jobs[k])][i]))
  }

  lemma AllTriedTake(c: Config, level: Job -> Level, groups: Groups, jobs: seq<Job>, job: Job, n: Node)
    requires AllTake(c, level, groups, jobs) && job in jobs && level(job) < |groups| && n in groups[level(job)]
    ensures TakesOnly(c, job, Path(n))
  {
    var k :| 0 <= k < |jobs| && jobs[k] == job;
    var i :| 0 <= i < |groups[level(job)]| && groups[level(job)][i] == n;
    assert TakesOnly(c, jobs[k], Path(groups[level(jobs[k])][i]));
  }

  lemma AllMay(view: View, level: Job -> Level, c: Config, groups: Groups, jobs: seq<Job>, left: seq<JobWithNodes>,
               log: seq<Attempt>, scheduled: nat)
    requires Accounts(Candidates(view, level, groups, jobs), left, log, scheduled)
    ensures forall i :: 0 <= i < |log| ==> log[i].job in jobs && May(view, log[i].job, log[i].node)
    ensures AllTake(c, level, groups, jobs) ==>
      forall i :: 0 <= i < |log| ==> TakesOnly(c, log[i].job, Path(log[i].node))
  {
    hide Candidates, Accounts, May, AllTake, TakesOnly;
    forall i | 0 <= i < |log|
      ensures log[i].job in jobs && May(view, log[i].job, log[i].node)
      ensures AllTake(c, level, groups, jobs) ==> TakesOnly(c, log[i].job, Path(log[i].node))
    {
      TriedWasGiven(Candidates(view, level, groups, jobs), left, log, scheduled, i);
      CandidatesExactly(view, level, groups, jobs, log[i].job, log[i].node);
      if AllTake(c, level, groups, jobs) {
        AllTriedTake(c, level, groups, jobs, log[i].job, log[i].node);
      }
    }
  }

  // A task that was just started is an orphan in the next pass exactly if by then its job cannot run,
  // or no enabled node has the name of its node.
  lemma StartedIsOrphanExactly(c: Config, groups: Groups, jobs: map<nat, Job>, job: Job, n: Node)
    requires PathOK(c, Path(n))
    ensures IsOrphan(groups, jobs, Started(c, job, n))
      <==> job.id !in jobs || !jobs[job.id].canRun || !HasEnabledNode(groups, n.name)
  {
    hide HasEnabledNode, UsesOf;
  }

  // The jobs that are tried are those configured.
  predicate Configured(jobs: map<nat, Job>, shuffled: seq<Job>) {
    forall job :: job in shuffled ==> job.id in jobs && jobs[job.id] == job
  }

  lemma {:induction false} RanWasTried(c: Config, groups: Groups, log: seq<Attempt>, rt: RunningTask)
    requires LogOK(c, groups, log) && rt in Ran(c, groups, log)
    ensures exists i ::
      0 <= i < |log| && log[i].response.RanTask? && rt == Started(c, log[i].job, log[i].node)
  {
    hide PathOK, Started;
    var init, last := log[..|log| - 1], log[|log| - 1];
    if rt in Ran(c, groups, init) {
      RanWasTried(c, groups, init, rt);
      var i :| 0 <= i < |init| && init[i].response.RanTask? && rt == Started(c, init[i].job, init[i].node);
      assert log[i] == init[i];
    }
  }

  lemma TriedIsNoOrphan(view: View, level: Job -> Level, c: Config, groups: Groups, jobs: map<nat, Job>,
                        shuffled: seq<Job>, job: Job, n: Node)
    requires Configured(jobs, shuffled) && HasPair(Candidates(view, level, groups, shuffled), job, n)
    requires PathOK(c, Path(n))
    ensures !IsOrphan(groups, jobs, Started(c, job, n))
  {
    hide Candidates, HasPair, Path, Started, IsOrphan;
    CandidatesExactly(view, level, groups, shuffled, job, n);
    OnOwnPath(n);
    StartedIsOrphanExactly(c, groups, jobs, job, n);
  }

  lemma OnOwnPath(n: Node)
    ensures exists i :: 0 <= i < |Path(n)| && Path(n)[i] == n
  {
    assert Path(n)[0] == n;
  }

  // A pass starts no task that the next pass would find an orphan.
  lemma NoNewOrphans(view: View, level: Job -> Level, c: Config, groups: Groups, jobs: map<nat, Job>,
                     shuffled: seq<Job>, left: seq<JobWithNodes>, log: seq<Attempt>, scheduled: nat)
    requires LogOK(c, groups, log) && Accounts(Candidates(view, level, groups, shuffled), left, log, scheduled)
    requires Configured(jobs, shuffled)
    ensures forall rt :: rt in Ran(c, groups, log) ==> !IsOrphan(groups, jobs, rt)
  {
    hide Accounts, Configured, HasPair, Candidates, PathOK, Ran, Started, IsOrphan;
    forall rt | rt in Ran(c, groups, log) ensures !IsOrphan(groups, jobs, rt) {
      RanWasTried(c, groups, log, rt);
      var i :| 0 <= i < |log| && log[i].response.RanTask? && rt == Started(c, log[i].job, log[i].node);
      TriedWasGiven(Candidates(view, level, groups, shuffled), left, log, scheduled, i);
      TriedIsNoOrphan(view, level, c, groups, jobs, shuffled, log[i].job, log[i].node);
    }
  }

  // The policy's own promise: every job gets its turn, a job that was picked is tried until it runs,
  // or the jobs are tried in the policy's order.
  ghost predicate Follows(policy: PolicyName, given: seq<JobWithNodes>, log: seq<Attempt>) {
    match policy
    case RoundRobinPolicy => Fair(given, log)
    case RandomizedPriorityPolicy => Sticks(given, log)
    case RankedPriorityPolicy => exists sorted :: TriedInOrder(sorted, given, log) && HigherFirst(sorted)
    case LongTailPolicy => exists sorted :: TriedInOrder(sorted, given, log) && FewerFirst(sorted)
  }

  // All jobs are tried in this order, as far as the pass goes.
  ghost predicate TriedInOrder(sorted: seq<JobWithNodes>, given: seq<JobWithNodes>, log: seq<Attempt>) {
    && multiset(sorted) == multiset(given)
    && Tried(log) <= InOrder(sorted) && (Stopped(log) || Tried(log) == InOrder(sorted))
  }

  lemma NoneWorseKeepsWithin(c: Config, groups: Groups, before: seq<RunningTask>, after: seq<RunningTask>)
    requires ConfigOK(c) && GroupsOK(c, groups) && NoneWorse(c, groups, before, after)
    ensures Within(c, groups, before) ==> Within(c, groups, after)
  {
    hide Used;
  }

  lemma OrderWasKept(sorted: seq<JobWithNodes>, given: seq<JobWithNodes>, log: seq<Attempt>)
    requires multiset(sorted) == multiset(given)
    requires Tried(log) <= InOrder(sorted) && (Stopped(log) || Tried(log) == InOrder(sorted))
    ensures TriedInOrder(sorted, given, log)
  {}

  lemma ExplainedIsPlaced(c: Config, groups: Groups, running: seq<RunningTask>, answers: nat -> Response, asked: nat,
                          log: seq<Attempt>)
    requires Explained(c, groups, running, answers, asked, log)
    ensures LogOK(c, groups, log)
  {}

  lemma AccountsCount(given: seq<JobWithNodes>, left: seq<JobWithNodes>, log: seq<Attempt>, scheduled: nat)
    requires Accounts(given, left, log, scheduled)
    ensures scheduled == RanCount(log)
  {}

  // A pass adds to the running tasks exactly those that ran, each of which fitted beside what ran
  // then; keeps their uses within the limits; finds exactly the orphans; and tries every candidate
  // once, and nothing else, unless the runner stops it.
  method Schedule(config: Config, groups: Groups, jobs: map<nat, Job>, shuffled: seq<Job>, view: View,
                  level: Job -> Level, policy: PolicyName, runner: TaskRunner)
      returns (orphans: set<RunningTask>, areTasksRunning: bool, ghost log: seq<Attempt>)
    requires ConfigOK(config) && GroupsOK(config, groups)
    requires forall l, i :: 0 <= l < |groups| && 0 <= i < |groups[l]| ==> Placed(config, groups, groups[l][i])
    requires forall i, j :: 0 <= i < j < |shuffled| ==> shuffled[i] != shuffled[j]
    requires NoAbort(view, level, groups, shuffled)
    modifies runner
    ensures runner.attempts == old(runner.attempts) + log
    ensures NoneWorse(config, groups, old(runner.running), runner.running)
    ensures old(Within(config, groups, runner.running)) ==> Within(config, groups, runner.running)
    ensures Explained(config, groups, old(runner.running), runner.answers, old(runner.asked), log)
    ensures runner.running == old(runner.running) + Ran(config, groups, log)
    ensures runner.asked == old(runner.asked) + Asked(config, groups, old(runner.running), log)
    ensures Follows(policy, Candidates(view, level, groups, shuffled), log)
    ensures Configured(jobs, shuffled) ==> forall rt :: rt in Ran(config, groups, log) ==> !IsOrphan(groups, jobs, rt)
    ensures AllTake(config, level, groups, shuffled) ==>
      NextPass(config, groups, old(runner.running), Pass(runner.answers, old(runner.asked), log), runner.running)
    ensures forall rt :: rt in orphans <==> rt in old(runner.running) && IsOrphan(groups, jobs, rt)
    ensures areTasksRunning <==> old(runner.running) != [] || RanCount(log) > 0
    ensures forall i :: 0 <= i < |log| ==> log[i].job in shuffled && May(view, log[i].job, log[i].node)
    ensures exists left ::
      Accounts(Candidates(view, level, groups, shuffled), left, log, RanCount(log))
        && (Pairs(left) == multiset{} || Stopped(log))
  {
    hide Within, NoneWorse, AllTake, TakesOnly, Counts, IsTable, IsOrphan, Pairs, Accounts, Tried, Placed, Candidates,
         May, NoAbort, Explained, Ran, Asked, LogOK, Fair, Sticks, TriedInOrder, Configured, HigherFirst,
         FewerFirst;
    var table := new PassResources(config, groups);
    orphans := table.ProcessRunningTasks(jobs, runner.running);
    var candidates := CrossProduct(view, level, groups, shuffled);
    CandidatesArePlaced(view, level, config, groups, shuffled);
    CandidatesAreDistinct(view, level, groups, shuffled);
    areTasksRunning := runner.running != [];
    var scheduled: nat, left: seq<JobWithNodes>;
    match policy {
      case RoundRobinPolicy => scheduled, left, log := RoundRobin(candidates, table, runner);
      case RandomizedPriorityPolicy => scheduled, left, log := RandomizedPriority(candidates, table, runner);
      case RankedPriorityPolicy =>
        ghost var sorted;
        scheduled, left, log, sorted := RankedPriority(candidates, table, runner);
        OrderWasKept(sorted, candidates, log);
      case LongTailPolicy =>
        ghost var sorted;
        scheduled, left, log, sorted := LongTail(candidates, table, runner);
        OrderWasKept(sorted, candidates, log);
    }
    if Configured(jobs, shuffled) {
      ExplainedIsPlaced(config, groups, old(runner.running), runner.answers, old(runner.asked), log);
      NoNewOrphans(view, level, config, groups, jobs, shuffled, left, log, scheduled);
    }
    AccountsCount(candidates, left, log, scheduled);
    AllMay(view, level, config, groups, shuffled, left, log, scheduled);
    NoneWorseKeepsWithin(config, groups, old(runner.running), runner.running);
    areTasksRunning := areTasksRunning || scheduled > 0;
  }
}

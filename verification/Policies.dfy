/**
 The four policies that decide in which order tasks are tried
 (bistro/scheduler/RoundRobinSchedulerPolicy.cpp, RandomizedPrioritySchedulerPolicy.cpp,
 RankedPrioritySchedulerPolicy.cpp and LongTailSchedulerPolicy.cpp).
 */
module Policies {
  import opened Attempts
  import opened Fairness
  import opened Resources
  import opened ResourceTable
  import opened Sorting

  method RoundRobin(given: seq<JobWithNodes>, table: PassResources, runner: TaskRunner)
      returns (scheduled: nat, jobs: seq<JobWithNodes>, ghost log: seq<Attempt>)
    requires Sound(table, runner) && AllPlaced(table.config, table.groups, given) && DistinctJobs(given)
    modifies table`packed, runner
    ensures Passing(given, jobs, log, scheduled, old(OriginOf(runner)), table, runner)
    ensures Stopped(log) || Pairs(jobs) == multiset{}
    ensures Fair(given, log)
  {
    hide Sound, Pairs, Accounts, Recorded, LimitsKept, Tried, Fair, InTurn;
    scheduled, jobs, log := 0, given, [];
    PassStarts(given, table, runner);
    TurnsStart(given);
    ghost var round := 0;
    while jobs != []
      invariant Passing(given, jobs, log, scheduled, old(OriginOf(runner)), table, runner) && !Stopped(log)
      invariant Fair(given, log) && InTurn(given, jobs, log, round, 0, false)
      decreases |Pairs(jobs)| + |jobs|
    {
      var k := 0;
      ghost var start := |Pairs(jobs)| + |jobs|;
      while k < |jobs|
        invariant k <= |jobs| && Passing(given, jobs, log, scheduled, old(OriginOf(runner)), table, runner)
          && !Stopped(log)
        invariant |Pairs(jobs)| + |jobs| <= start && (|Pairs(jobs)| + |jobs| == start ==> k == 0 && jobs != [])
        invariant Fair(given, log) && InTurn(given, jobs, log, round, k, false)
        decreases |jobs| - k
      {
        if jobs[k].nodes == [] {
          ErasingKeeps(given, jobs, log, scheduled, k);
          ErasingKeepsTurn(given, jobs, log, round, k);
          jobs := jobs[..k] + jobs[k + 1..];
          continue;
        }
        var ran := false;
        ghost var n := |jobs|;
        while jobs[k].nodes != [] && !ran
          invariant k < |jobs| == n && Passing(given, jobs, log, scheduled, old(OriginOf(runner)), table, runner)
            && !Stopped(log)
          invariant |Pairs(jobs)| + |jobs| <= start && (|Pairs(jobs)| + |jobs| == start ==> jobs[k].nodes != [] && !ran)
          invariant Fair(given, log) && InTurn(given, jobs, log, round, k, ran)
          decreases |Pairs(jobs)|, if ran then 0 else 1
        {
          ghost var jobs0, log0 := jobs, log;
          var r: Response;
          r, jobs, scheduled, log := TryOnce(given, jobs, k, scheduled, log, old(OriginOf(runner)), table, runner);
          TryingKeepsTurn(given, jobs0, log0, round, k, r);
          if r.RanTask? {
            ran := true;
          } else if r.DoNotRunMoreTasks? {
            return;
          }
        }
        NextTurn(given, jobs, log, round, k, ran);
        k := k + 1;
      }
      NextRound(given, jobs, log, round, k);
      round := round + 1;
    }
    NoPairs(jobs);
  }

  // For any sequence of picks.
  method RandomizedPriority(given: seq<JobWithNodes>, table: PassResources, runner: TaskRunner)
      returns (scheduled: nat, jobs: seq<JobWithNodes>, ghost log: seq<Attempt>)
    requires Sound(table, runner) && AllPlaced(table.config, table.groups, given)
    modifies table`packed, runner
    ensures Passing(given, jobs, log, scheduled, old(OriginOf(runner)), table, runner)
    ensures Stopped(log) || Pairs(jobs) == multiset{}
    ensures DistinctJobs(given) ==> Sticks(given, log)
  {
    hide Sound, Pairs, Accounts, Recorded, LimitsKept, Tried, DistinctJobs, Tracks, Sticks, MayPick;
    scheduled, jobs, log := 0, given, [];
    PassStarts(given, table, runner);
    if DistinctJobs(given) {
      PickingStarts(given);
    }
    while jobs != []
      invariant Passing(given, jobs, log, scheduled, old(OriginOf(runner)), table, runner) && !Stopped(log)
      invariant DistinctJobs(given) ==> Picking(given, jobs, log)
      decreases |Pairs(jobs)| + |jobs|
    {
      var k: nat :| k < |jobs|;
      if jobs[k].nodes == [] {
        ErasingKeeps(given, jobs, log, scheduled, k);
        if DistinctJobs(given) {
          ErasingKeepsPicking(given, jobs, log, k);
        }
        jobs := jobs[..k] + jobs[k + 1..];
        continue;
      }
      ghost var start := |Pairs(jobs)| + |jobs|;
      var ran := false;
      while jobs[k].nodes != [] && !ran
        invariant k < |jobs| && Passing(given, jobs, log, scheduled, old(OriginOf(runner)), table, runner)
          && !Stopped(log)
        invariant |Pairs(jobs)| + |jobs| <= start && (|Pairs(jobs)| + |jobs| == start ==> jobs[k].nodes != [] && !ran)
        invariant DistinctJobs(given) ==> Staying(given, jobs, log, k)
        invariant ran ==> log != [] && log[|log| - 1].response.RanTask?
        decreases |Pairs(jobs)|, if ran then 0 else 1
      {
        ghost var jobs0, log0 := jobs, log;
        var r: Response;
        r, jobs, scheduled, log := TryOnce(given, jobs, k, scheduled, log, old(OriginOf(runner)), table, runner);
        if DistinctJobs(given) {
          TryingStays(given, jobs0, log0, k, log[|log| - 1]);
        }
        if r.RanTask? {
          ran := true;
        } else if r.DoNotRunMoreTasks? {
          return;
        }
      }
      if DistinctJobs(given) {
        StayingEnds(given, jobs, log, k);
      }
    }
    NoPairs(jobs);
  }

  // ------------------------------------------------------------ policies that sort

  // The pairs of the jobs in order, the last node of each job first.
  function Backwards(j: JobWithNodes): seq<Pair>
    decreases |j.nodes|
  {
    if j.nodes == [] then [] else [(j.job, j.nodes[|j.nodes| - 1])] + Backwards(Popped(j))
  }

  function InOrder(jobs: seq<JobWithNodes>): seq<Pair> {
    if jobs == [] then [] else Backwards(jobs[0]) + InOrder(jobs[1..])
  }

  // Tries the nodes of job k, last first, until none is left or the pass is stopped.
  method Drain(given: seq<JobWithNodes>, jobs: seq<JobWithNodes>, k: nat, scheduled: nat, ghost log: seq<Attempt>,
               ghost before: Origin, table: PassResources, runner: TaskRunner)
      returns (stop: bool, jobs': seq<JobWithNodes>, scheduled': nat, ghost log': seq<Attempt>)
    requires Passing(given, jobs, log, scheduled, before, table, runner) && !Stopped(log) && k < |jobs|
    modifies table`packed, runner
    ensures Passing(given, jobs', log', scheduled', before, table, runner) && (stop <==> Stopped(log'))
    ensures |jobs'| == |jobs| && jobs' == jobs[k := jobs'[k]] && (!stop ==> jobs'[k].nodes == [])
    ensures Tried(log) + Backwards(jobs[k]) == Tried(log') + Backwards(jobs'[k])
  {
    hide Sound, Pairs, Accounts, Recorded, LimitsKept, Backwards, Tried;
    stop, jobs', scheduled', log' := false, jobs, scheduled, log;
    while jobs'[k].nodes != []
      invariant |jobs'| == |jobs| && jobs' == jobs[k := jobs'[k]]
      invariant Passing(given, jobs', log', scheduled', before, table, runner) && !Stopped(log') && !stop
      invariant Tried(log) + Backwards(jobs[k]) == Tried(log') + Backwards(jobs'[k])
      decreases |jobs'[k].nodes|
    {
      ghost var j, prev := jobs'[k], log';
      var r: Response;
      r, jobs', scheduled', log' := TryOnce(given, jobs', k, scheduled', log', before, table, runner);
      MovesOn(prev, j, log');
      if r.DoNotRunMoreTasks? {
        stop := true;
        return;
      }
    }
  }

  lemma FirstBackwards(j: JobWithNodes)
    requires j.nodes != []
    ensures Backwards(j) == [(j.job, j.nodes[|j.nodes| - 1])] + Backwards(Popped(j))
  {}

  lemma MovesOn(prev: seq<Attempt>, j: JobWithNodes, log: seq<Attempt>)
    requires j.nodes != [] && 0 < |log| && prev == log[..|log| - 1]
    requires log[|log| - 1].job == j.job && log[|log| - 1].node == j.nodes[|j.nodes| - 1]
    ensures Tried(prev) + Backwards(j) == Tried(log) + Backwards(Popped(j))
  {
    hide Backwards;
    var p := (j.job, j.nodes[|j.nodes| - 1]);
    assert Tried(log) == Tried(prev) + [p];
    FirstBackwards(j);
  }

  // Jobs one after the other, each as far as it goes.
  method OneByOne(given: seq<JobWithNodes>, table: PassResources, runner: TaskRunner)
      returns (scheduled: nat, jobs: seq<JobWithNodes>, ghost log: seq<Attempt>)
    requires Sound(table, runner) && AllPlaced(table.config, table.groups, given)
    modifies table`packed, runner
    ensures Passing(given, jobs, log, scheduled, old(OriginOf(runner)), table, runner)
    ensures Tried(log) <= InOrder(given) && (Stopped(log) || Tried(log) == InOrder(given))
    ensures Stopped(log) || Pairs(jobs) == multiset{}
  {
    hide Sound, Pairs, Accounts, Recorded, LimitsKept, Backwards, Tried, InOrder;
    scheduled, jobs, log := 0, given, [];
    PassStarts(given, table, runner);
    assert given[0..] == given && Tried([]) + InOrder(given) == InOrder(given);
    var k := 0;
    while k < |jobs|
      invariant k <= |jobs| && Passing(given, jobs, log, scheduled, old(OriginOf(runner)), table, runner)
        && !Stopped(log)
      invariant InOrder(given) == Tried(log) + InOrder(jobs[k..]) && forall i :: 0 <= i < k ==> jobs[i].nodes == []
      decreases |jobs| - k
    {
      ghost var rest := jobs[k + 1..];
      OrderOfFirst(jobs, k);
      if jobs[k].nodes == [] {
        ErasingKeeps(given, jobs, log, scheduled, k);
        jobs := jobs[..k] + jobs[k + 1..];
        assert jobs[k..] == rest;
        continue;
      }
      ghost var j, prev := jobs[k], log;
      var stop: bool;
      stop, jobs, scheduled, log := Drain(given, jobs, k, scheduled, log, old(OriginOf(runner)), table, runner);
      Regroup(Tried(prev), Backwards(j), Tried(log), Backwards(jobs[k]), InOrder(rest));
      assert jobs[k + 1..] == rest;
      if stop {
        return;
      }
      NothingBackwards(jobs[k]);
      k := k + 1;
    }
    OrderEnds(jobs, k);
    NoPairs(jobs);
  }

  lemma OrderOfFirst(jobs: seq<JobWithNodes>, k: nat)
    requires k < |jobs|
    ensures InOrder(jobs[k..]) == Backwards(jobs[k]) + InOrder(jobs[k + 1..])
    ensures jobs[k].nodes == [] ==> Backwards(jobs[k]) == [] && InOrder(jobs[k..]) == InOrder(jobs[k + 1..])
  {
    assert jobs[k..][1..] == jobs[k + 1..];
  }

  lemma OrderEnds(jobs: seq<JobWithNodes>, k: nat)
    requires k == |jobs|
    ensures InOrder(jobs[k..]) == []
  {}

  lemma NothingBackwards(j: JobWithNodes)
    requires j.nodes == []
    ensures Backwards(j) == []
  {}

  lemma Regroup(a: seq<Pair>, b: seq<Pair>, c: seq<Pair>, d: seq<Pair>, e: seq<Pair>)
    requires a + b == c + d
    ensures a + (b + e) == c + (d + e)
    ensures d == [] ==> a + (b + e) == c + e
  {
    assert a + (b + e) == (a + b) + e && c + (d + e) == (c + d) + e;
  }

  predicate HigherFirst(jobs: seq<JobWithNodes>) {
    forall i, j :: 0 <= i < j < |jobs| ==> jobs[i].job.priority >= jobs[j].job.priority
  }

  predicate FewerFirst(jobs: seq<JobWithNodes>) {
    forall i, j :: 0 <= i < j < |jobs| ==> |jobs[i].nodes| <= |jobs[j].nodes|
  }

  // Jobs of higher priority first.
  method RankedPriority(given: seq<JobWithNodes>, table: PassResources, runner: TaskRunner)
      returns (scheduled: nat, jobs: seq<JobWithNodes>, ghost log: seq<Attempt>, ghost sorted: seq<JobWithNodes>)
    requires Sound(table, runner) && AllPlaced(table.config, table.groups, given)
    modifies table`packed, runner
    ensures Passing(given, jobs, log, scheduled, old(OriginOf(runner)), table, runner)
    ensures multiset(sorted) == multiset(given) && HigherFirst(sorted)
    ensures Tried(log) <= InOrder(sorted) && (Stopped(log) || Tried(log) == InOrder(sorted))
    ensures Stopped(log) || Pairs(jobs) == multiset{}
  {
    hide Sound, Pairs, Recorded, LimitsKept, InOrder, Tried;
    var order := Sort((j: JobWithNodes) => -j.job.priority, given);
    SortKeeps(table.config, table.groups, (j: JobWithNodes) => -j.job.priority, order, given);
    scheduled, jobs, log := OneByOne(order, table, runner);
    sorted := order;
  }

  // Jobs with fewer nodes left first.
  method LongTail(given: seq<JobWithNodes>, table: PassResources, runner: TaskRunner)
      returns (scheduled: nat, jobs: seq<JobWithNodes>, ghost log: seq<Attempt>, ghost sorted: seq<JobWithNodes>)
    requires Sound(table, runner) && AllPlaced(table.config, table.groups, given)
    modifies table`packed, runner
    ensures Passing(given, jobs, log, scheduled, old(OriginOf(runner)), table, runner)
    ensures multiset(sorted) == multiset(given) && FewerFirst(sorted)
    ensures Tried(log) <= InOrder(sorted) && (Stopped(log) || Tried(log) == InOrder(sorted))
    ensures Stopped(log) || Pairs(jobs) == multiset{}
  {
    hide Sound, Pairs, Recorded, LimitsKept, InOrder, Tried;
    var order := Sort((j: JobWithNodes) => |j.nodes| as real, given);
    SortKeeps(table.config, table.groups, (j: JobWithNodes) => |j.nodes| as real, order, given);
    scheduled, jobs, log := OneByOne(order, table, runner);
    sorted := order;
  }

  // Sorting gives the same pairs.
  lemma SortKeeps(c: Config, groups: Groups, key: JobWithNodes -> real, sorted: seq<JobWithNodes>,
                  jobs: seq<JobWithNodes>)
    requires IsSortOf(key, sorted, jobs) && AllPlaced(c, groups, jobs)
    ensures Pairs(sorted) == Pairs(jobs) && AllPlaced(c, groups, sorted)
  {
    SamePairs(sorted, jobs);
    forall i, n | 0 <= i < |sorted| && 0 <= n < |sorted[i].nodes| ensures Placed(c, groups, sorted[i].nodes[n]) {
      assert sorted[i] in multiset(sorted);
      assert sorted[i] in multiset(jobs);
      var j :| 0 <= j < |jobs| && jobs[j] == sorted[i];
    }
  }

  lemma {:induction false} SamePairs(a: seq<JobWithNodes>, b: seq<JobWithNodes>)
    requires multiset(a) == multiset(b)
    ensures Pairs(a) == Pairs(b)
    decreases |a|
  {
    if a == [] {
      assert |b| == |multiset(b)| == |multiset(a)| == 0;
    } else {
      var init, last := a[..|a| - 1], a[|a| - 1];
      assert a == init + [last];
      assert last in multiset(a);
      var k: nat :| k < |b| && b[k] == last;
      WithoutOne(a, |a| - 1);
      WithoutOne(b, k);
      assert init + a[|a| - 1 + 1..] == init;
      SamePairs(init, b[..k] + b[k + 1..]);
      PairsAround(b, k, last);
    }
  }

  lemma WithoutOne(jobs: seq<JobWithNodes>, k: nat)
    requires k < |jobs|
    ensures multiset(jobs[..k] + jobs[k + 1..]) == multiset(jobs) - multiset{jobs[k]}
  {
    assert jobs == jobs[..k] + ([jobs[k]] + jobs[k + 1..]);
  }
}

/**
 What a scheduling pass tries, and how it is accounted for
 (bistro/scheduler/SchedulerPolicy.h, bistro/scheduler/utils.cpp).
 */
module Attempts {
  import opened PackedResources
  import opened Resources
  import opened ResourceTable

  datatype JobWithNodes = JobWithNodes(job: Job, nodes: seq<Node>)

  type Pair = (Job, Node)

  // ------------------------------------------------------------ the pairs left to try

  function PairsOf(j: JobWithNodes): (ps: seq<Pair>)
    ensures |ps| == |j.nodes| && forall i :: 0 <= i < |ps| ==> ps[i] == (j.job, j.nodes[i])
  {
    seq(|j.nodes|, i requires 0 <= i < |j.nodes| => (j.job, j.nodes[i]))
  }

  function Pairs(jobs: seq<JobWithNodes>): multiset<Pair> {
    if jobs == [] then multiset{} else Pairs(jobs[..|jobs| - 1]) + multiset(PairsOf(jobs[|jobs| - 1]))
  }

  function Popped(j: JobWithNodes): JobWithNodes
    requires j.nodes != []
  {
    j.(nodes := j.nodes[..|j.nodes| - 1])
  }

  lemma {:induction false} PairsSplit(a: seq<JobWithNodes>, b: seq<JobWithNodes>)
    ensures Pairs(a + b) == Pairs(a) + Pairs(b)
  {
    if b == [] {
      assert a + b == a;
    } else {
      assert (a + b)[..|a + b| - 1] == a + b[..|b| - 1];
      PairsSplit(a, b[..|b| - 1]);
    }
  }

  lemma PairsAround(jobs: seq<JobWithNodes>, k: nat, j: JobWithNodes)
    requires k < |jobs|
    ensures Pairs(jobs[k := j]) == Pairs(jobs[..k]) + multiset(PairsOf(j)) + Pairs(jobs[k + 1..])
    ensures Pairs(jobs) == Pairs(jobs[..k]) + multiset(PairsOf(jobs[k])) + Pairs(jobs[k + 1..])
    ensures Pairs(jobs[..k] + jobs[k + 1..]) == Pairs(jobs[..k]) + Pairs(jobs[k + 1..])
  {
    assert jobs[k := j] == jobs[..k] + ([j] + jobs[k + 1..]) && jobs == jobs[..k] + ([jobs[k]] + jobs[k + 1..]);
    PairsSplit(jobs[..k], [j] + jobs[k + 1..]);
    PairsSplit([j], jobs[k + 1..]);
    PairsSplit(jobs[..k], [jobs[k]] + jobs[k + 1..]);
    PairsSplit([jobs[k]], jobs[k + 1..]);
    PairsSplit(jobs[..k], jobs[k + 1..]);
    assert [j][..0] == [] && [jobs[k]][..0] == [];
  }

  lemma PopPair(jobs: seq<JobWithNodes>, k: nat)
    requires k < |jobs| && jobs[k].nodes != []
    ensures Pairs(jobs) ==
      Pairs(jobs[k := Popped(jobs[k])]) + multiset{(jobs[k].job, jobs[k].nodes[|jobs[k].nodes| - 1])}
  {
    hide Pairs;
    PairsAround(jobs, k, Popped(jobs[k]));
    LastPair(jobs[k]);
  }

  lemma LastPair(j: JobWithNodes)
    requires j.nodes != []
    ensures multiset(PairsOf(j)) == multiset(PairsOf(Popped(j))) + multiset{(j.job, j.nodes[|j.nodes| - 1])}
  {
    assert PairsOf(j) == PairsOf(Popped(j)) + [(j.job, j.nodes[|j.nodes| - 1])];
  }

  lemma EraseEmpty(jobs: seq<JobWithNodes>, k: nat)
    requires k < |jobs| && jobs[k].nodes == []
    ensures Pairs(jobs[..k] + jobs[k + 1..]) == Pairs(jobs)
  {
    PairsAround(jobs, k, jobs[k]);
    assert PairsOf(jobs[k]) == [];
  }

  // ------------------------------------------------------------ what a pass did

  function Tried(log: seq<Attempt>): (ps: seq<Pair>)
    ensures |ps| == |log| && forall i :: 0 <= i < |ps| ==> ps[i] == (log[i].job, log[i].node)
  {
    seq(|log|, i requires 0 <= i < |log| => (log[i].job, log[i].node))
  }

  function RanCount(log: seq<Attempt>): nat {
    if log == [] then 0 else RanCount(log[..|log| - 1]) + if log[|log| - 1].response.RanTask? then 1 else 0
  }

  predicate Stopped(log: seq<Attempt>) {
    log != [] && log[|log| - 1].response.DoNotRunMoreTasks?
  }

  // Every given pair was tried once, or is left; only the last attempt can have stopped the
  // pass; the tasks that ran are counted.
  ghost predicate Accounts(given: seq<JobWithNodes>, left: seq<JobWithNodes>, log: seq<Attempt>, scheduled: nat) {
    && Pairs(given) == Pairs(left) + multiset(Tried(log))
    && scheduled == RanCount(log)
    && forall i :: 0 <= i < |log| - 1 ==> !log[i].response.DoNotRunMoreTasks?
  }

  lemma OneMoreAttempt(given: seq<JobWithNodes>, left: seq<JobWithNodes>, log: seq<Attempt>, scheduled: nat, k: nat,
                       r: Response)
    requires Accounts(given, left, log, scheduled) && !Stopped(log) && k < |left| && left[k].nodes != []
    ensures
      var node := left[k].nodes[|left[k].nodes| - 1];
      Accounts(given, left[k := Popped(left[k])], log + [Attempt(left[k].job, node, r)],
               if r.RanTask? then scheduled + 1 else scheduled)
  {
    hide Pairs, Popped;
    var node := left[k].nodes[|left[k].nodes| - 1];
    var log' := log + [Attempt(left[k].job, node, r)];
    PopPair(left, k);
    assert Tried(log') == Tried(log) + [(left[k].job, node)];
    assert log'[..|log|] == log;
  }

  // The tasks that a log says ran, as they are recorded.
  ghost predicate LogOK(c: Config, groups: Groups, log: seq<Attempt>) {
    forall i :: 0 <= i < |log| ==> Placed(c, groups, log[i].node)
  }

  ghost function Ran(c: Config, groups: Groups, log: seq<Attempt>): seq<RunningTask>
    requires LogOK(c, groups, log)
  {
    if log == [] then []
    else
      var last := log[|log| - 1];
      Ran(c, groups, log[..|log| - 1]) + if last.response.RanTask? then [Started(c, last.job, last.node)] else []
  }

  // How many attempts reached the runner: those that fitted beside what ran when they were made.
  ghost function Asked(c: Config, groups: Groups, running: seq<RunningTask>, log: seq<Attempt>): nat
    requires ConfigOK(c) && LogOK(c, groups, log)
  {
    if log == [] then 0
    else
      var init, last := log[..|log| - 1], log[|log| - 1];
      Asked(c, groups, running, init)
        + if Fits(c, running + Ran(c, groups, init), last.job, Path(last.node)) then 1 else 0
  }

  // An attempt beside the given running tasks, when the runner has been asked so many times: a task
  // that fits gets the runner's next answer, and one that does not fit never reaches the runner.
  ghost predicate Justified(c: Config, running: seq<RunningTask>, answers: nat -> Response, asked: nat, a: Attempt)
    requires ConfigOK(c) && PathOK(c, Path(a.node))
  {
    a.response == if Fits(c, running, a.job, Path(a.node)) then answers(asked) else DidNotRunTask
  }

  ghost predicate JustifiedAt(c: Config, groups: Groups, running: seq<RunningTask>, answers: nat -> Response,
                              asked: nat, log: seq<Attempt>, i: nat)
    requires ConfigOK(c) && LogOK(c, groups, log) && i < |log|
  {
    var before := log[..i];
    Justified(c, running + Ran(c, groups, before), answers, asked + Asked(c, groups, running, before), log[i])
  }

  // Every attempt is justified by what ran, and what the runner had answered, when it was made.
  ghost predicate Explained(c: Config, groups: Groups, running: seq<RunningTask>, answers: nat -> Response, asked: nat,
                            log: seq<Attempt>) {
    && ConfigOK(c) && LogOK(c, groups, log)
    && forall i :: 0 <= i < |log| ==> JustifiedAt(c, groups, running, answers, asked, log, i)
  }

  lemma OneMoreExplained(c: Config, groups: Groups, running: seq<RunningTask>, answers: nat -> Response, asked: nat,
                         log: seq<Attempt>, a: Attempt)
    requires Explained(c, groups, running, answers, asked, log) && Placed(c, groups, a.node)
    requires Justified(c, running + Ran(c, groups, log), answers, asked + Asked(c, groups, running, log), a)
    ensures Explained(c, groups, running, answers, asked, log + [a])
    ensures Ran(c, groups, log + [a])
      == Ran(c, groups, log) + if a.response.RanTask? then [Started(c, a.job, a.node)] else []
    ensures Asked(c, groups, running, log + [a]) == Asked(c, groups, running, log)
      + if Fits(c, running + Ran(c, groups, log), a.job, Path(a.node)) then 1 else 0
  {
    hide JustifiedAt, Justified, Placed, PathOK, Fits, Ran, Asked;
    var log' := log + [a];
    OneMoreRan(c, groups, running, log, a);
    forall i | 0 <= i < |log'| ensures JustifiedAt(c, groups, running, answers, asked, log', i) {
      if i < |log| {
        assert JustifiedAt(c, groups, running, answers, asked, log, i);
        StillJustified(c, groups, running, answers, asked, log, a, i);
      } else {
        LastJustified(c, groups, running, answers, asked, log, a);
      }
    }
  }

  lemma OneMoreRan(c: Config, groups: Groups, running: seq<RunningTask>, log: seq<Attempt>, a: Attempt)
    requires ConfigOK(c) && LogOK(c, groups, log) && Placed(c, groups, a.node)
    ensures LogOK(c, groups, log + [a])
    ensures Ran(c, groups, log + [a])
      == Ran(c, groups, log) + if a.response.RanTask? then [Started(c, a.job, a.node)] else []
    ensures Asked(c, groups, running, log + [a]) == Asked(c, groups, running, log)
      + if Fits(c, running + Ran(c, groups, log), a.job, Path(a.node)) then 1 else 0
  {
    hide Placed, PathOK, Fits, UsesOf, Started;
    assert (log + [a])[..|log|] == log;
  }

  lemma StillJustified(c: Config, groups: Groups, running: seq<RunningTask>, answers: nat -> Response, asked: nat,
                       log: seq<Attempt>, a: Attempt, i: nat)
    requires ConfigOK(c) && LogOK(c, groups, log) && LogOK(c, groups, log + [a]) && i < |log|
    requires JustifiedAt(c, groups, running, answers, asked, log, i)
    ensures JustifiedAt(c, groups, running, answers, asked, log + [a], i)
  {
    hide Justified, Placed, PathOK, Fits, Ran, Asked;
    assert (log + [a])[..i] == log[..i];
  }

  lemma LastJustified(c: Config, groups: Groups, running: seq<RunningTask>, answers: nat -> Response, asked: nat,
                      log: seq<Attempt>, a: Attempt)
    requires ConfigOK(c) && LogOK(c, groups, log) && LogOK(c, groups, log + [a]) && Placed(c, groups, a.node)
    requires Justified(c, running + Ran(c, groups, log), answers, asked + Asked(c, groups, running, log), a)
    ensures JustifiedAt(c, groups, running, answers, asked, log + [a], |log|)
  {
    hide Justified, Placed, PathOK, Fits, Ran, Asked;
    assert (log + [a])[..|log|] == log;
  }

  predicate AllPlaced(c: Config, groups: Groups, jobs: seq<JobWithNodes>) {
    forall i, n :: 0 <= i < |jobs| && 0 <= n < |jobs[i].nodes| ==> Placed(c, groups, jobs[i].nodes[n])
  }

  // The table counts what is left.
  ghost predicate Sound(table: PassResources, runner: TaskRunner)
    reads table, runner
  {
    table.Valid() && Counts(table.config, table.groups, table.Abs(), runner.running, AllNames(table.groups))
  }

  // Tries the last node of job k and removes it.
  method TryLast(jobs: seq<JobWithNodes>, k: nat, table: PassResources, runner: TaskRunner)
      returns (r: Response, jobs': seq<JobWithNodes>)
    requires Sound(table, runner) && AllPlaced(table.config, table.groups, jobs) && k < |jobs| && jobs[k].nodes != []
    modifies table`packed, runner
    ensures Sound(table, runner) && AllPlaced(table.config, table.groups, jobs')
    ensures jobs' == jobs[k := Popped(jobs[k])]
    ensures
      var node := jobs[k].nodes[|jobs[k].nodes| - 1];
      && runner.attempts == old(runner.attempts) + [Attempt(jobs[k].job, node, r)]
      && Placed(table.config, table.groups, node) && ConfigOK(table.config)
      && Justified(table.config, old(runner.running), runner.answers, old(runner.asked), Attempt(jobs[k].job, node, r))
      && runner.asked == old(runner.asked)
           + (if Fits(table.config, old(runner.running), jobs[k].job, Path(node)) then 1 else 0)
      && runner.running == old(runner.running) + if r.RanTask? then [Started(table.config, jobs[k].job, node)] else []
    ensures GroupsOK(table.config, table.groups)
    ensures NoneWorse(table.config, table.groups, old(runner.running), runner.running)
  {
    hide Counts, Fits, IsTable, NoneWorse;
    var node := jobs[k].nodes[|jobs[k].nodes| - 1];
    ghost var running := runner.running;
    TableIsOK(table.config, table.groups, table.Abs());
    r := table.TryToSchedule(jobs[k].job, node, runner);
    if r.RanTask? {
      FittingMakesNoneWorse(table.config, table.groups, running, jobs[k].job, node);
    } else {
      SameIsNoneWorse(table.config, table.groups, running);
    }
    jobs' := jobs[k := Popped(jobs[k])];
  }

  lemma SameIsNoneWorse(c: Config, groups: Groups, running: seq<RunningTask>)
    requires ConfigOK(c) && GroupsOK(c, groups)
    ensures NoneWorse(c, groups, running, running)
  {}

  lemma NoneWorseTwice(c: Config, groups: Groups, a: seq<RunningTask>, b: seq<RunningTask>, d: seq<RunningTask>)
    requires ConfigOK(c) && GroupsOK(c, groups) && NoneWorse(c, groups, a, b) && NoneWorse(c, groups, b, d)
    ensures NoneWorse(c, groups, a, d)
  {}

  lemma TableIsOK(c: Config, groups: Groups, t: Table)
    requires IsTable(c, groups, t)
    ensures ConfigOK(c) && GroupsOK(c, groups)
  {}

  // ------------------------------------------------------------ one attempt

  // The attempts on record, the running tasks and the questions to the runner when a pass begins.
  datatype Origin = Origin(attempts: seq<Attempt>, running: seq<RunningTask>, asked: nat)

  ghost function OriginOf(runner: TaskRunner): Origin
    reads runner
  {
    Origin(runner.attempts, runner.running, runner.asked)
  }

  // Nothing but the tasks that ran was added to the running tasks, and nothing was removed.
  ghost predicate Recorded(log: seq<Attempt>, before: Origin, table: PassResources, runner: TaskRunner)
    reads runner
  {
    && runner.attempts == before.attempts + log
    && Explained(table.config, table.groups, before.running, runner.answers, before.asked, log)
    && runner.running == before.running + Ran(table.config, table.groups, log)
    && runner.asked == before.asked + Asked(table.config, table.groups, before.running, log)
  }

  // No resource is used more than its limit, unless it was so before; then no more than then.
  ghost predicate LimitsKept(before: Origin, table: PassResources, runner: TaskRunner)
    reads runner
  {
    && ConfigOK(table.config) && GroupsOK(table.config, table.groups)
    && NoneWorse(table.config, table.groups, before.running, runner.running)
  }

  // What holds between the attempts of a pass that began at `before`.
  ghost predicate Passing(given: seq<JobWithNodes>, jobs: seq<JobWithNodes>, log: seq<Attempt>, scheduled: nat,
                          before: Origin, table: PassResources, runner: TaskRunner)
    reads table, runner
  {
    && Sound(table, runner) && AllPlaced(table.config, table.groups, jobs)
    && Accounts(given, jobs, log, scheduled) && Recorded(log, before, table, runner)
    && LimitsKept(before, table, runner)
  }

  // One attempt of job k: a turn of every policy's inner loop.
  method TryOnce(given: seq<JobWithNodes>, jobs: seq<JobWithNodes>, k: nat, scheduled: nat, ghost log: seq<Attempt>,
                  ghost before: Origin, table: PassResources, runner: TaskRunner)
      returns (r: Response, jobs': seq<JobWithNodes>, scheduled': nat, ghost log': seq<Attempt>)
    requires Passing(given, jobs, log, scheduled, before, table, runner) && !Stopped(log)
    requires k < |jobs| && jobs[k].nodes != []
    modifies table`packed, runner
    ensures Passing(given, jobs', log', scheduled', before, table, runner) && (Stopped(log') <==> r.DoNotRunMoreTasks?)
    ensures jobs' == jobs[k := Popped(jobs[k])] && |Pairs(jobs')| == |Pairs(jobs)| - 1
    ensures log' == log + [Attempt(jobs[k].job, jobs[k].nodes[|jobs[k].nodes| - 1], r)]
  {
    hide Sound, Pairs, Accounts, Tried, Explained, Ran, Asked, Fits, Justified, Placed, NoneWorse;
    OneFewer(jobs, k);
    ghost var running := runner.running;
    r, jobs' := TryLast(jobs, k, table, runner);
    NoneWorseTwice(table.config, table.groups, before.running, running, runner.running);
    OneMoreAttempt(given, jobs, log, scheduled, k, r);
    ghost var a := Attempt(jobs[k].job, jobs[k].nodes[|jobs[k].nodes| - 1], r);
    OneMoreExplained(table.config, table.groups, before.running, runner.answers, before.asked, log, a);
    log' := log + [a];
    scheduled' := if r.RanTask? then scheduled + 1 else scheduled;
    assert (before.attempts + log) + [a] == before.attempts + log';
  }

  lemma OneFewer(jobs: seq<JobWithNodes>, k: nat)
    requires k < |jobs| && jobs[k].nodes != []
    ensures |Pairs(jobs[k := Popped(jobs[k])])| == |Pairs(jobs)| - 1
  {
    hide Pairs;
    PopPair(jobs, k);
  }

  lemma ErasingKeeps(given: seq<JobWithNodes>, jobs: seq<JobWithNodes>, log: seq<Attempt>, scheduled: nat, k: nat)
    requires Accounts(given, jobs, log, scheduled) && k < |jobs| && jobs[k].nodes == []
    ensures Accounts(given, jobs[..k] + jobs[k + 1..], log, scheduled)
    ensures |Pairs(jobs[..k] + jobs[k + 1..])| == |Pairs(jobs)|
  {
    hide Pairs;
    EraseEmpty(jobs, k);
  }

  lemma PassStarts(given: seq<JobWithNodes>, table: PassResources, runner: TaskRunner)
    requires Sound(table, runner) && AllPlaced(table.config, table.groups, given)
    ensures Passing(given, given, [], 0, OriginOf(runner), table, runner) && Tried([]) == []
  {
    hide Counts, NoneWorse, Placed;
    TableIsOK(table.config, table.groups, table.Abs());
    SameIsNoneWorse(table.config, table.groups, runner.running);
    assert Tried([]) == [];
    assert runner.attempts + [] == runner.attempts && runner.running + [] == runner.running;
  }

  lemma {:induction false} NoPairs(jobs: seq<JobWithNodes>)
    requires forall i :: 0 <= i < |jobs| ==> jobs[i].nodes == []
    ensures Pairs(jobs) == multiset{}
  {
    if jobs != [] {
      NoPairs(jobs[..|jobs| - 1]);
      assert PairsOf(jobs[|jobs| - 1]) == [];
    }
  }
}

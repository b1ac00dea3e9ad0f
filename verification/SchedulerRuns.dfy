/** Whole runs of passes and of tasks that end. */
module SchedulerRuns {
  import opened Attempts
  import opened Resources
  import opened ResourceTable

  // What happens to the running tasks: a pass with its attempts, or the end of one of them.
  datatype Step = Pass(answers: nat -> Response, asked: nat, log: seq<Attempt>) | End(k: nat)

  ghost predicate NextPass(c: Config, groups: Groups, running: seq<RunningTask>, step: Step,
                           running': seq<RunningTask>) {
    match step
    case Pass(answers, asked, log) =>
      && Explained(c, groups, running, answers, asked, log) && running' == running + Ran(c, groups, log)
      && forall i :: 0 <= i < |log| ==> TakesOnly(c, log[i].job, Path(log[i].node))
    case End(k) => k < |running| && running' == running[..k] + running[k + 1..]
  }

  ghost predicate IsHistory(c: Config, groups: Groups, states: seq<seq<RunningTask>>, steps: seq<Step>) {
    && |states| == |steps| + 1 && states[0] == []
    && forall i :: 0 <= i < |steps| ==> NextPass(c, groups, states[i], steps[i], states[i + 1])
  }

  // Some run in which one task starts or ends at a time gets to these running tasks.
  ghost predicate Reached(c: Config, groups: Groups, running: seq<RunningTask>)
    requires ConfigOK(c) && GroupsOK(c, groups)
  {
    exists run :: IsRun(c, groups, run) && run[|run| - 1] == running
  }

  lemma NothingIsReached(c: Config, groups: Groups)
    requires ConfigOK(c) && GroupsOK(c, groups)
    ensures Reached(c, groups, [])
  {
    assert IsRun(c, groups, [[]]);
  }

  lemma StepReaches(c: Config, groups: Groups, running: seq<RunningTask>, running': seq<RunningTask>)
    requires ConfigOK(c) && GroupsOK(c, groups) && Reached(c, groups, running) && Next(c, groups, running, running')
    ensures Reached(c, groups, running')
  {
    hide Next;
    var run :| IsRun(c, groups, run) && run[|run| - 1] == running;
    var run' := run + [running'];
    forall i | 0 <= i < |run'| - 1 ensures Next(c, groups, run'[i], run'[i + 1]) {
      assert i < |run| - 1 ==> Next(c, groups, run[i], run[i + 1]);
    }
    assert IsRun(c, groups, run') && run'[|run'| - 1] == running';
  }

  // A pass is a series of single starts.
  lemma {:induction false} PassReaches(c: Config, groups: Groups, running: seq<RunningTask>, answers: nat -> Response,
                                       asked: nat, log: seq<Attempt>)
    requires ConfigOK(c) && GroupsOK(c, groups) && Reached(c, groups, running)
    requires Explained(c, groups, running, answers, asked, log)
    requires forall i :: 0 <= i < |log| ==> TakesOnly(c, log[i].job, Path(log[i].node))
    ensures Reached(c, groups, running + Ran(c, groups, log))
  {
    hide Reached, Fits, UsesOf, PathOK, TakesOnly;
    if log == [] {
      assert running + [] == running;
    } else {
      var init, last := log[..|log| - 1], log[|log| - 1];
      InitIsExplained(c, groups, running, answers, asked, log);
      PassReaches(c, groups, running, answers, asked, init);
      var before := running + Ran(c, groups, init);
      if last.response.RanTask? {
        StartIsNext(c, groups, before, last.job, last.node);
        StepReaches(c, groups, before, before + [Started(c, last.job, last.node)]);
        assert running + Ran(c, groups, log) == before + [Started(c, last.job, last.node)];
      } else {
        assert running + Ran(c, groups, log) == before;
      }
    }
  }

  lemma InitIsExplained(c: Config, groups: Groups, running: seq<RunningTask>, answers: nat -> Response, asked: nat,
                        log: seq<Attempt>)
    requires Explained(c, groups, running, answers, asked, log) && log != []
    ensures
      var init, last := log[..|log| - 1], log[|log| - 1];
      && Explained(c, groups, running, answers, asked, init) && Placed(c, groups, last.node)
      && (last.response.RanTask? ==> Fits(c, running + Ran(c, groups, init), last.job, Path(last.node)))
  {
    hide PathOK, Ran, Asked, Fits;
    var init := log[..|log| - 1];
    forall i | 0 <= i < |init| ensures JustifiedAt(c, groups, running, answers, asked, init, i) {
      assert init[..i] == log[..i];
      assert JustifiedAt(c, groups, running, answers, asked, log, i);
    }
    assert JustifiedAt(c, groups, running, answers, asked, log, |init|);
  }

  lemma StartIsNext(c: Config, groups: Groups, running: seq<RunningTask>, job: Job, node: Node)
    requires ConfigOK(c) && GroupsOK(c, groups) && Placed(c, groups, node) && TakesOnly(c, job, Path(node))
    requires Fits(c, running, job, Path(node))
    ensures Next(c, groups, running, running + [Started(c, job, node)])
  {
    assert Starts(c, groups, running, job, node, running + [Started(c, job, node)]);
  }

  lemma {:induction false} HistoriesAreRuns(c: Config, groups: Groups, states: seq<seq<RunningTask>>, steps: seq<Step>,
                                            k: nat)
    requires ConfigOK(c) && GroupsOK(c, groups) && IsHistory(c, groups, states, steps) && k < |states|
    ensures Reached(c, groups, states[k])
  {
    hide Reached, Explained, Ran;
    if k == 0 {
      NothingIsReached(c, groups);
    } else {
      HistoriesAreRuns(c, groups, states, steps, k - 1);
      assert NextPass(c, groups, states[k - 1], steps[k - 1], states[k - 1 + 1]);
      match steps[k - 1]
      case Pass(answers, asked, log) => PassReaches(c, groups, states[k - 1], answers, asked, log);
      case End(e) => StepReaches(c, groups, states[k - 1], states[k]);
    }
  }

  // Whatever passes are made and whatever tasks end, in any order, what runs at a node never
  // exceeds its limits.
  lemma PassesKeepLimits(c: Config, groups: Groups, states: seq<seq<RunningTask>>, steps: seq<Step>, k: nat)
    requires ConfigOK(c) && GroupsOK(c, groups) && IsHistory(c, groups, states, steps) && k < |states|
    ensures Within(c, groups, states[k]) && UsesNonNegative(states[k])
  {
    HistoriesAreRuns(c, groups, states, steps, k);
    hide Within, UsesNonNegative, Next;
    var run :| IsRun(c, groups, run) && run[|run| - 1] == states[k];
    LimitsHold(c, groups, run, |run| - 1);
  }
}

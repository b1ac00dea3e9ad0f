/** Why round robin is fair (bistro/scheduler/RoundRobinSchedulerPolicy.cpp). */
module Fairness {
  import opened Attempts
  import opened Resources
  import opened ResourceTable

  ghost predicate DistinctJobs(jobs: seq<JobWithNodes>) {
    forall i, j :: 0 <= i < j < |jobs| ==> jobs[i].job != jobs[j].job
  }

  function TriedOf(log: seq<Attempt>, job: Job): nat {
    if log == [] then 0 else TriedOf(log[..|log| - 1], job) + if log[|log| - 1].job == job then 1 else 0
  }

  function RanOf(log: seq<Attempt>, job: Job): nat {
    if log == [] then 0
    else
      var last := log[|log| - 1];
      RanOf(log[..|log| - 1], job) + if last.job == job && last.response.RanTask? then 1 else 0
  }

  // Two jobs that both have untried nodes have run as many tasks, up to one.
  ghost predicate FairNow(given: seq<JobWithNodes>, log: seq<Attempt>) {
    forall i, j :: 0 <= i < |given| && 0 <= j < |given| && Untried(given[i], log) && Untried(given[j], log) ==>
      RanOf(log, given[i].job) <= RanOf(log, given[j].job) + 1
  }

  predicate Untried(j: JobWithNodes, log: seq<Attempt>) {
    TriedOf(log, j.job) < |j.nodes|
  }

  // ... at every moment of the pass.
  ghost predicate Fair(given: seq<JobWithNodes>, log: seq<Attempt>) {
    forall k :: 0 <= k <= |log| ==> FairNow(given, log[..k])
  }

  // A job's nodes that are left are those of a given job that were not tried.
  ghost predicate RestOf(given: seq<JobWithNodes>, g: nat, j: JobWithNodes, log: seq<Attempt>)
    requires g < |given|
  {
    given[g].job == j.job && |j.nodes| + TriedOf(log, j.job) == |given[g].nodes|
  }

  ghost predicate IsRest(given: seq<JobWithNodes>, j: JobWithNodes, log: seq<Attempt>) {
    exists g: nat :: g < |given| && RestOf(given, g, j, log)
  }

  ghost predicate LeftAt(jobs: seq<JobWithNodes>, a: nat, job: Job)
    requires a < |jobs|
  {
    jobs[a].job == job && jobs[a].nodes != []
  }

  ghost predicate IsLeft(jobs: seq<JobWithNodes>, job: Job) {
    exists a: nat :: a < |jobs| && LeftAt(jobs, a, job)
  }

  ghost predicate Tracks(given: seq<JobWithNodes>, jobs: seq<JobWithNodes>, log: seq<Attempt>) {
    && DistinctJobs(jobs)
    && (forall a :: 0 <= a < |jobs| ==> IsRest(given, jobs[a], log))
    && (forall g :: 0 <= g < |given| && Untried(given[g], log) ==> IsLeft(jobs, given[g].job))
  }

  // In this round, the jobs before k, and job k if it ran, have run one task more.
  ghost predicate InTurn(given: seq<JobWithNodes>, jobs: seq<JobWithNodes>, log: seq<Attempt>, round: nat, k: nat,
                         ran: bool) {
    && DistinctJobs(given) && Tracks(given, jobs, log)
    && forall a :: 0 <= a < |jobs| && jobs[a].nodes != [] ==>
         RanOf(log, jobs[a].job) == round + if a < k || (a == k && ran) then 1 else 0
  }

  lemma TurnsStart(given: seq<JobWithNodes>)
    requires DistinctJobs(given)
    ensures Fair(given, []) && InTurn(given, given, [], 0, 0, false)
  {
    assert FairNow(given, []);
    forall a: nat | a < |given| ensures IsRest(given, given[a], []) {
      assert RestOf(given, a, given[a], []);
    }
    forall g: nat | g < |given| && Untried(given[g], []) ensures IsLeft(given, given[g].job) {
      assert LeftAt(given, g, given[g].job);
    }
  }

  lemma TurnIsFair(given: seq<JobWithNodes>, jobs: seq<JobWithNodes>, log: seq<Attempt>, round: nat, k: nat, ran: bool)
    requires InTurn(given, jobs, log, round, k, ran)
    ensures FairNow(given, log)
  {
    hide TriedOf, RanOf, Untried;
    forall i: nat | i < |given| && Untried(given[i], log) ensures round <= RanOf(log, given[i].job) <= round + 1 {
      assert IsLeft(jobs, given[i].job);
    }
  }

  lemma FairGrows(given: seq<JobWithNodes>, log: seq<Attempt>, attempt: Attempt)
    requires Fair(given, log) && FairNow(given, log + [attempt])
    ensures Fair(given, log + [attempt])
  {
    hide FairNow;
    var log' := log + [attempt];
    forall k | 0 <= k <= |log'| ensures FairNow(given, log'[..k]) {
      if k <= |log| {
        assert log'[..k] == log[..k];
      } else {
        assert log'[..k] == log';
      }
    }
  }

  lemma CountsGrow(log: seq<Attempt>, attempt: Attempt, job: Job)
    ensures TriedOf(log + [attempt], job) == TriedOf(log, job) + if attempt.job == job then 1 else 0
    ensures RanOf(log + [attempt], job)
      == RanOf(log, job) + if attempt.job == job && attempt.response.RanTask? then 1 else 0
  {
    assert (log + [attempt])[..|log|] == log;
  }

  lemma TryingKeepsRest(given: seq<JobWithNodes>, jobs: seq<JobWithNodes>, log: seq<Attempt>, k: nat, attempt: Attempt,
                        a: nat)
    requires DistinctJobs(jobs) && k < |jobs| && jobs[k].nodes != [] && attempt.job == jobs[k].job
    requires a < |jobs| && IsRest(given, jobs[a], log)
    ensures IsRest(given, jobs[k := Popped(jobs[k])][a], log + [attempt])
  {
    hide TriedOf;
    var g: nat :| g < |given| && RestOf(given, g, jobs[a], log);
    CountsGrow(log, attempt, jobs[a].job);
    assert RestOf(given, g, jobs[k := Popped(jobs[k])][a], log + [attempt]);
  }

  lemma TryingKeepsLeft(given: seq<JobWithNodes>, jobs: seq<JobWithNodes>, log: seq<Attempt>, k: nat, attempt: Attempt,
                        g: nat)
    requires DistinctJobs(given) && Tracks(given, jobs, log) && k < |jobs| && jobs[k].nodes != []
      && attempt.job == jobs[k].job
    requires g < |given| && Untried(given[g], log + [attempt])
    ensures IsLeft(jobs[k := Popped(jobs[k])], given[g].job)
  {
    hide TriedOf;
    CountsGrow(log, attempt, given[g].job);
    assert IsLeft(jobs, given[g].job);
    var a: nat :| a < |jobs| && LeftAt(jobs, a, given[g].job);
    assert IsRest(given, jobs[a], log);
    var h: nat :| h < |given| && RestOf(given, h, jobs[a], log);
    assert h == g;
    assert LeftAt(jobs[k := Popped(jobs[k])], a, given[g].job);
  }

  lemma TryingKeepsTracks(given: seq<JobWithNodes>, jobs: seq<JobWithNodes>, log: seq<Attempt>, k: nat,
                          attempt: Attempt)
    requires DistinctJobs(given) && Tracks(given, jobs, log) && k < |jobs| && jobs[k].nodes != []
      && attempt.job == jobs[k].job
    ensures Tracks(given, jobs[k := Popped(jobs[k])], log + [attempt])
  {
    hide IsRest, IsLeft, Untried;
    var jobs', log' := jobs[k := Popped(jobs[k])], log + [attempt];
    forall a: nat | a < |jobs'| ensures IsRest(given, jobs'[a], log') {
      TryingKeepsRest(given, jobs, log, k, attempt, a);
    }
    forall g: nat | g < |given| && Untried(given[g], log') ensures IsLeft(jobs', given[g].job) {
      TryingKeepsLeft(given, jobs, log, k, attempt, g);
    }
  }

  lemma TryingKeepsTurn(given: seq<JobWithNodes>, jobs: seq<JobWithNodes>, log: seq<Attempt>, round: nat, k: nat,
                        r: Response)
    requires InTurn(given, jobs, log, round, k, false) && Fair(given, log) && k < |jobs| && jobs[k].nodes != []
    ensures
      var attempt := Attempt(jobs[k].job, jobs[k].nodes[|jobs[k].nodes| - 1], r);
      && InTurn(given, jobs[k := Popped(jobs[k])], log + [attempt], round, k, r.RanTask?)
      && Fair(given, log + [attempt])
  {
    hide TriedOf, RanOf, Tracks, Fair;
    var attempt := Attempt(jobs[k].job, jobs[k].nodes[|jobs[k].nodes| - 1], r);
    var jobs', log' := jobs[k := Popped(jobs[k])], log + [attempt];
    TryingKeepsTracks(given, jobs, log, k, attempt);
    assert DistinctJobs(jobs) by {
      TracksAreDistinct(given, jobs, log);
    }
    forall a | 0 <= a < |jobs'| && jobs'[a].nodes != []
      ensures RanOf(log', jobs'[a].job) == round + if a < k || (a == k && r.RanTask?) then 1 else 0
    {
      CountsGrow(log, attempt, jobs[a].job);
    }
    TurnIsFair(given, jobs', log', round, k, r.RanTask?);
    FairGrows(given, log, attempt);
  }

  lemma TracksAreDistinct(given: seq<JobWithNodes>, jobs: seq<JobWithNodes>, log: seq<Attempt>)
    requires Tracks(given, jobs, log)
    ensures DistinctJobs(jobs)
  {}

  lemma ErasingKeepsTurn(given: seq<JobWithNodes>, jobs: seq<JobWithNodes>, log: seq<Attempt>, round: nat, k: nat)
    requires InTurn(given, jobs, log, round, k, false) && k < |jobs| && jobs[k].nodes == []
    ensures InTurn(given, jobs[..k] + jobs[k + 1..], log, round, k, false)
  {
    hide TriedOf, RanOf, Tracks;
    var jobs' := jobs[..k] + jobs[k + 1..];
    ErasingKeepsTracks(given, jobs, log, k);
    forall a | 0 <= a < |jobs'| && jobs'[a].nodes != []
      ensures RanOf(log, jobs'[a].job) == round + if a < k then 1 else 0
    {
      assert jobs'[a] == jobs[if a < k then a else a + 1];
    }
  }

  lemma ErasingKeepsTracks(given: seq<JobWithNodes>, jobs: seq<JobWithNodes>, log: seq<Attempt>, k: nat)
    requires Tracks(given, jobs, log) && k < |jobs| && jobs[k].nodes == []
    ensures Tracks(given, jobs[..k] + jobs[k + 1..], log)
  {
    hide IsRest, Untried;
    var jobs' := jobs[..k] + jobs[k + 1..];
    ErasedAre(jobs, k);
    forall a: nat | a < |jobs'| ensures IsRest(given, jobs'[a], log) {
      assert jobs'[a] == jobs[if a < k then a else a + 1];
    }
    forall g: nat | g < |given| && Untried(given[g], log) ensures IsLeft(jobs', given[g].job) {
      var a: nat :| a < |jobs| && LeftAt(jobs, a, given[g].job);
      var b: nat := if a < k then a else a - 1;
      assert LeftAt(jobs', b, given[g].job);
    }
  }

  lemma ErasedAre(jobs: seq<JobWithNodes>, k: nat)
    requires DistinctJobs(jobs) && k < |jobs|
    ensures DistinctJobs(jobs[..k] + jobs[k + 1..])
  {
    var jobs' := jobs[..k] + jobs[k + 1..];
    forall a, b | 0 <= a < b < |jobs'| ensures jobs'[a].job != jobs'[b].job {
      assert jobs'[a] == jobs[if a < k then a else a + 1] && jobs'[b] == jobs[if b < k then b else b + 1];
    }
  }

  lemma NextTurn(given: seq<JobWithNodes>, jobs: seq<JobWithNodes>, log: seq<Attempt>, round: nat, k: nat, ran: bool)
    requires InTurn(given, jobs, log, round, k, ran) && k < |jobs| && (ran || jobs[k].nodes == [])
    ensures InTurn(given, jobs, log, round, k + 1, false)
  {
    hide TriedOf, RanOf, Tracks;
  }

  lemma NextRound(given: seq<JobWithNodes>, jobs: seq<JobWithNodes>, log: seq<Attempt>, round: nat, k: nat)
    requires InTurn(given, jobs, log, round, k, false) && k == |jobs|
    ensures InTurn(given, jobs, log, round + 1, 0, false)
  {
    hide TriedOf, RanOf, Tracks;
  }

  // ------------------------------------------------------------ a job picked at random

  // No node of the job is left.
  ghost predicate Exhausted(given: seq<JobWithNodes>, job: Job, log: seq<Attempt>) {
    forall g :: 0 <= g < |given| && given[g].job == job ==> !Untried(given[g], log)
  }

  // After these attempts any job may be picked: the last attempt ran, or its job is exhausted.
  ghost predicate MayPick(given: seq<JobWithNodes>, log: seq<Attempt>) {
    log == [] || log[|log| - 1].response.RanTask? || Exhausted(given, log[|log| - 1].job, log)
  }

  // A job that was picked is tried until one of its tasks runs or none is left.
  ghost predicate Sticks(given: seq<JobWithNodes>, log: seq<Attempt>) {
    forall i :: 0 < i < |log| ==> SticksAt(given, log, i)
  }

  ghost predicate SticksAt(given: seq<JobWithNodes>, log: seq<Attempt>, i: int)
    requires 0 < i < |log|
  {
    log[i].job == log[i - 1].job || MayPick(given, log[..i])
  }

  ghost predicate Picking(given: seq<JobWithNodes>, jobs: seq<JobWithNodes>, log: seq<Attempt>) {
    Tracks(given, jobs, log) && Sticks(given, log) && MayPick(given, log)
  }

  // ... while job k is tried.
  ghost predicate Staying(given: seq<JobWithNodes>, jobs: seq<JobWithNodes>, log: seq<Attempt>, k: nat)
    requires k < |jobs|
  {
    && Tracks(given, jobs, log) && Sticks(given, log)
    && (MayPick(given, log) || log[|log| - 1].job == jobs[k].job)
  }

  lemma PickingStarts(given: seq<JobWithNodes>)
    requires DistinctJobs(given)
    ensures Picking(given, given, [])
  {
    hide Fair, Tracks;
    assert Tracks(given, given, []) by {
      TurnsStart(given);
      TurnTracks(given, given, [], 0, 0, false);
    }
  }

  lemma TurnTracks(given: seq<JobWithNodes>, jobs: seq<JobWithNodes>, log: seq<Attempt>, round: nat, k: nat, ran: bool)
    requires InTurn(given, jobs, log, round, k, ran)
    ensures Tracks(given, jobs, log)
  {}

  lemma ErasingKeepsPicking(given: seq<JobWithNodes>, jobs: seq<JobWithNodes>, log: seq<Attempt>, k: nat)
    requires Picking(given, jobs, log) && k < |jobs| && jobs[k].nodes == []
    ensures Picking(given, jobs[..k] + jobs[k + 1..], log)
  {
    hide Tracks, Sticks, MayPick;
    ErasingKeepsTracks(given, jobs, log, k);
  }

  lemma TryingStays(given: seq<JobWithNodes>, jobs: seq<JobWithNodes>, log: seq<Attempt>, k: nat, attempt: Attempt)
    requires DistinctJobs(given) && k < |jobs| && Staying(given, jobs, log, k)
    requires jobs[k].nodes != [] && attempt.job == jobs[k].job
    ensures Staying(given, jobs[k := Popped(jobs[k])], log + [attempt], k)
  {
    hide Tracks, MayPick;
    var log' := log + [attempt];
    TryingKeepsTracks(given, jobs, log, k, attempt);
    forall i | 0 < i < |log'| ensures SticksAt(given, log', i) {
      if i < |log| {
        assert SticksAt(given, log, i) && log'[..i] == log[..i];
      } else {
        assert log'[..i] == log;
      }
    }
  }

  lemma StayingEnds(given: seq<JobWithNodes>, jobs: seq<JobWithNodes>, log: seq<Attempt>, k: nat)
    requires k < |jobs| && Staying(given, jobs, log, k)
    requires jobs[k].nodes == [] || (log != [] && log[|log| - 1].response.RanTask?)
    ensures Picking(given, jobs, log)
  {
    hide Untried, IsRest, Sticks;
    if jobs[k].nodes == [] && !MayPick(given, log) {
      forall g | 0 <= g < |given| && given[g].job == jobs[k].job ensures !Untried(given[g], log) {
        assert Untried(given[g], log) ==> IsLeft(jobs, given[g].job);
      }
    }
  }
}

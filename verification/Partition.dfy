/**
 What the shared health model guarantees while nothing is delivered between a scheduler and
 a worker: the worker gives up before the scheduler does, and a new scheduler's default
 initial wait outlasts every worker it has not heard from.
 */
module Partition {
  import opened Health

  // The last second at which the side holding h may still be healthy without new contact.
  function Deadline(f: Flags, h: WorkerState, period: int): int {
    Min(h.timeLastGoodHealthcheckSent + f.MaxHealthcheckGap(),
        h.timeLastHeartbeatReceived + period + f.HeartbeatGrace())
  }

  function Min(a: int, b: int): int { if a < b then a else b }
  function Max(a: int, b: int): int { if a < b then b else a }

  // The worker's state after checking its health at every second in (start, now].
  function WorkerAfter(f: Flags, h: WorkerState, period: int, start: int, now: int): WorkerState
    decreases now - start
  {
    if now <= start then h else WorkerCheck(f, WorkerAfter(f, h, period, start, now - 1), period, now)
  }

  // A scheduler poll: the time, and whether the consensus check permitted health then.
  datatype Poll = Poll(time: int, consensus: bool)

  function SchedulerAfter(f: Flags, h: WorkerState, period: int, polls: seq<Poll>): WorkerState {
    if polls == [] then h
    else
      var last := polls[|polls| - 1];
      SchedulerPoll(f, SchedulerAfter(f, h, period, polls[..|polls| - 1]), period, last.time, last.consensus)
  }

  ghost predicate PollsWithin(polls: seq<Poll>, start: int, end: int) {
    && (forall i :: 0 <= i < |polls| ==> start < polls[i].time <= end)
    && (forall i, j :: 0 <= i < j < |polls| ==> polls[i].time <= polls[j].time)
  }

  ghost predicate Associated(h: WorkerState) {
    h.state.Healthy? && h.hasBeenHealthy
  }

  // Without new contact, a healthy worker turns unhealthy right after its deadline and dies
  // as soon as the (shortened) loss timeout has passed.
  lemma {:induction false} WorkerSchedule(f: Flags, h: WorkerState, period: int, start: int, now: int)
    requires Associated(h) && f.LoseAfter() > f.CheckInterval() && start <= now
    ensures
      var sick := Max(Deadline(f, h, period), start) + 1;
      var last := sick + f.LoseAfter() - f.CheckInterval();
      WorkerAfter(f, h, period, start, now) ==
        if now < sick then h
        else h.(state := if now <= last then Unhealthy else MustDie, timeBecameUnhealthy := sick)
    decreases now - start
  {
    if start < now {
      WorkerSchedule(f, h, period, start, now - 1);
    }
  }

  // However the scheduler polls, it stays healthy up to its deadline, and it needs the whole
  // loss timeout after the first poll that finds the worker late.
  lemma {:induction false} SchedulerSchedule(f: Flags, h: WorkerState, period: int, polls: seq<Poll>, start: int,
                                             end: int)
    requires Associated(h) && PollsWithin(polls, start, end)
    ensures
      var s := SchedulerAfter(f, h, period, polls);
      var deadline := Deadline(f, h, period);
      && s.timeLastGoodHealthcheckSent == h.timeLastGoodHealthcheckSent
      && s.timeLastHeartbeatReceived == h.timeLastHeartbeatReceived
      && s.hasBeenHealthy && !s.state.New?
      && (s.state.Healthy? ==> s == h && forall i :: 0 <= i < |polls| ==> polls[i].time <= deadline)
      && (!s.state.Healthy? ==> s.timeBecameUnhealthy > Max(deadline, start) && |polls| > 0)
      && (s.state.MustDie? ==> end > s.timeBecameUnhealthy + f.LoseAfter())
    decreases |polls|
  {
    if polls != [] {
      var rest := polls[..|polls| - 1];
      SchedulerSchedule(f, h, period, rest, start, end);
    }
  }

  // Partition safety, exactly: the worker is dead whenever the scheduler has lost it, under
  // every polling schedule, if and only if the worker's deadline is at most one check interval
  // later than the scheduler's.
  ghost predicate WorkerDiesFirst(f: Flags, worker: WorkerState, scheduler: WorkerState, period: int, start: int) {
    forall polls, end :: PollsWithin(polls, start, end) && SchedulerAfter(f, scheduler, period, polls).state.MustDie?
      ==> WorkerAfter(f, worker, period, start, end).state.MustDie?
  }

  lemma PartitionSafety(f: Flags, worker: WorkerState, scheduler: WorkerState, period: int, start: int)
    requires Associated(worker) && Associated(scheduler) && f.LoseAfter() > f.CheckInterval()
    ensures WorkerDiesFirst(f, worker, scheduler, period, start)
      <==> Max(Deadline(f, worker, period), start) <= Max(Deadline(f, scheduler, period), start) + f.CheckInterval()
  {
    var due, allowed := Max(Deadline(f, worker, period), start), Max(Deadline(f, scheduler, period), start);
    if due <= allowed + f.CheckInterval() {
      forall polls, end | PollsWithin(polls, start, end) && SchedulerAfter(f, scheduler, period, polls).state.MustDie?
        ensures WorkerAfter(f, worker, period, start, end).state.MustDie?
      {
        SchedulerSchedule(f, scheduler, period, polls, start, end);
        WorkerSchedule(f, worker, period, start, end);
      }
    } else {
      EagerScheduler(f, scheduler, period, start, false, false);
      WorkerSchedule(f, worker, period, start, allowed + f.LoseAfter() + 2);
    }
  }

  // The schedule that loses the worker as early as any can, whatever the consensus.
  lemma EagerScheduler(f: Flags, h: WorkerState, period: int, start: int, c0: bool, c1: bool)
    requires Associated(h)
    ensures
      var sick := Max(Deadline(f, h, period), start) + 1;
      var polls := [Poll(sick, c0), Poll(sick + f.LoseAfter() + 1, c1)];
      PollsWithin(polls, start, sick + f.LoseAfter() + 1) && SchedulerAfter(f, h, period, polls).state.MustDie?
  {
    var sick := Max(Deadline(f, h, period), start) + 1;
    var polls := [Poll(sick, c0), Poll(sick + f.LoseAfter() + 1, c1)];
    var first := [Poll(sick, c0)];
    assert polls[..|polls| - 1] == first && first[..|first| - 1] == [];
    var once := SchedulerAfter(f, h, period, first);
    assert once == SchedulerPoll(f, SchedulerAfter(f, h, period, []), period, sick, c0);
    assert once == h.(state := Unhealthy, timeBecameUnhealthy := sick);
  }

  // In particular when the two sides' contact times differ by at most one check interval.
  lemma SmallSkewIsSafe(f: Flags, worker: WorkerState, scheduler: WorkerState, period: int, start: int)
    requires Associated(worker) && Associated(scheduler) && f.LoseAfter() > f.CheckInterval()
    requires worker.timeLastGoodHealthcheckSent <= scheduler.timeLastGoodHealthcheckSent + f.CheckInterval()
    requires worker.timeLastHeartbeatReceived <= scheduler.timeLastHeartbeatReceived + f.CheckInterval()
    ensures WorkerDiesFirst(f, worker, scheduler, period, start)
  {
    PartitionSafety(f, worker, scheduler, period, start);
  }

  // A worker past NEW, with no contact after start, whatever its state at start.
  ghost predicate Abandoned(h: WorkerState, start: int) {
    && (h.state.Healthy? || h.state.Unhealthy?)
    && (h.state.Healthy? ==> h.hasBeenHealthy)
    && h.timeLastGoodHealthcheckSent <= start && h.timeBecameUnhealthy <= start
  }

  lemma {:induction false} AbandonedWorker(f: Flags, h: WorkerState, period: int, start: int, now: int)
    requires Abandoned(h, start) && f.LoseAfter() > f.CheckInterval() && start <= now
    ensures
      var w := WorkerAfter(f, h, period, start, now);
      var sick := start + f.MaxHealthcheckGap() + 1;
      && w.timeLastGoodHealthcheckSent == h.timeLastGoodHealthcheckSent && !w.state.New?
      && (w.state.Healthy? ==> now < sick)
      && w.timeBecameUnhealthy <= sick && w.timeBecameUnhealthy <= now
      && (now > sick + f.LoseAfter() - f.CheckInterval() ==> w.state.MustDie?)
    decreases now - start
  {
    if start < now {
      AbandonedWorker(f, h, period, start, now - 1);
    }
  }

  // The default initial wait is safe: once it expires, every worker of the previous scheduler
  // that was not heard from has been dead for the whole task-termination allowance.
  lemma InitialWaitIsSafe(f: Flags, h: WorkerState, period: int, start: int, now: int)
    requires Abandoned(h, start) && f.LoseAfter() > f.CheckInterval()
    requires !(now - MinSafeWait(f) < start)
    ensures WorkerAfter(f, h, period, start, now - (f.SuicideMargin() + f.KillWaitMs() / 1000 + 1)).state.MustDie?
  {
    AbandonedWorker(f, h, period, start, now - (f.SuicideMargin() + f.KillWaitMs() / 1000 + 1));
  }

  // One second less would not do when the check interval is one second.
  lemma InitialWaitIsTight(f: Flags, h: WorkerState, period: int, start: int)
    requires Associated(h) && f.LoseAfter() > f.CheckInterval() == 1
    requires h.timeLastGoodHealthcheckSent == start
    requires h.timeLastHeartbeatReceived + period + f.HeartbeatGrace() >= start + f.MaxHealthcheckGap()
    ensures
      var now := start + MinSafeWait(f) - 1;
      !WorkerAfter(f, h, period, start, now - (f.SuicideMargin() + f.KillWaitMs() / 1000 + 1)).state.MustDie?
  {
    WorkerSchedule(f, h, period, start, start + MinSafeWait(f) - 1 - (f.SuicideMargin() + f.KillWaitMs() / 1000 + 1));
  }
}

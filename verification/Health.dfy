/**
 The health model that the scheduler and the worker both run (bistro/remote/RemoteWorkerState.h).
 */
module Health {
  datatype State = New | Healthy | Unhealthy | MustDie

  // The command-line flags that set the timeouts; values below 1 are bumped to 1.
  datatype Flags = Flags(
    workerCheckInterval: int,
    heartbeatGracePeriod: int,
    healthcheckPeriod: int,
    healthcheckGracePeriod: int,
    loseUnhealthyWorkerAfter: int,
    suicideBackoffSafetyMarginSec: int,
    suicideTaskKillWaitMs: int)
  {
    function CheckInterval(): int { AtLeastOne(workerCheckInterval) }
    function HeartbeatGrace(): int { AtLeastOne(heartbeatGracePeriod) }
    function LoseAfter(): int { AtLeastOne(loseUnhealthyWorkerAfter) }
    function SuicideMargin(): int { AtLeastOne(suicideBackoffSafetyMarginSec) }
    function KillWaitMs(): int { AtLeastOne(suicideTaskKillWaitMs) }
    function MaxHealthcheckGap(): int {
      AtLeastOne(healthcheckPeriod) + AtLeastOne(healthcheckGracePeriod) + CheckInterval()
    }
  }

  function AtLeastOne(x: int): int { if x < 1 then 1 else x }

  const INT64_MIN: int := -0x8000_0000_0000_0000

  datatype WorkerState = WorkerState(
    state: State,
    timeBecameUnhealthy: int,
    timeLastGoodHealthcheckSent: int,
    timeLastHeartbeatReceived: int,
    hasBeenHealthy: bool)

  function Initial(now: int): WorkerState {
    WorkerState(New, now, INT64_MIN, INT64_MIN, false)
  }

  // computeState: the new state, and whether only the lack of permission kept it from Healthy.
  function ComputeState(h: WorkerState, now: int, maxHealthcheckGap: int, maxHeartbeatGap: int, loseAfter: int,
                        allowedToBecomeHealthy: bool): (State, bool)
  {
    if h.state.MustDie? then (MustDie, false)
    else
      var late := now > h.timeLastGoodHealthcheckSent + maxHealthcheckGap
                  || now > h.timeLastHeartbeatReceived + maxHeartbeatGap;
      var disallowed := !h.state.New? && !late && !allowedToBecomeHealthy && !h.hasBeenHealthy;
      var next := if h.state.New? then New else if late || disallowed then Unhealthy else Healthy;
      if !disallowed && loseAfter > 0 && !next.Healthy? && !h.state.Healthy?
         && now > h.timeBecameUnhealthy + loseAfter
      then (MustDie, disallowed)
      else (next, disallowed)
  }

  predicate Late(h: WorkerState, now: int, maxHealthcheckGap: int, maxHeartbeatGap: int) {
    h.timeLastGoodHealthcheckSent + maxHealthcheckGap < now || h.timeLastHeartbeatReceived + maxHeartbeatGap < now
  }

  // Each state, exactly.  A worker that is on time becomes healthy if it is permitted to or has been
  // healthy, and is never lost; a late one first turns unhealthy, and is lost when its time is up.
  lemma StatesExactly(h: WorkerState, now: int, maxHealthcheckGap: int, maxHeartbeatGap: int, loseAfter: int,
                      allowedToBecomeHealthy: bool)
    ensures
      var (next, disallowed) :=
        ComputeState(h, now, maxHealthcheckGap, maxHeartbeatGap, loseAfter, allowedToBecomeHealthy);
      var late := Late(h, now, maxHealthcheckGap, maxHeartbeatGap);
      var may := allowedToBecomeHealthy || h.hasBeenHealthy;
      var expired := 0 < loseAfter && h.timeBecameUnhealthy + loseAfter < now;
      && (disallowed <==> (h.state.Healthy? || h.state.Unhealthy?) && !late && !may)
      && (next.New? <==> h.state.New? && !expired)
      && (next.Healthy? <==> (h.state.Healthy? || h.state.Unhealthy?) && !late && may)
      && (next.Unhealthy? <==> || (h.state.Healthy? && (late || !may))
                               || (h.state.Unhealthy? && if late then !expired else !may))
      && (next.MustDie? <==> h.state.MustDie? || (expired && (h.state.New? || (h.state.Unhealthy? && late))))
  {}

  // How both sides record a computed state (RemoteWorker::updateState and setState,
  // BistroWorkerHandler::setState).
  function Advance(h: WorkerState, next: State, now: int): WorkerState {
    h.(state := next,
       timeBecameUnhealthy := if !next.Healthy? && h.state.Healthy? then now else h.timeBecameUnhealthy,
       hasBeenHealthy := h.hasBeenHealthy || next.Healthy?)
  }

  // RemoteWorker::computeState: the scheduler's view of a worker.
  function SchedulerState(f: Flags, h: WorkerState, heartbeatPeriod: int, now: int, consensus: bool): (State, bool) {
    ComputeState(h, now, f.MaxHealthcheckGap(), heartbeatPeriod + f.HeartbeatGrace(), f.LoseAfter(), consensus)
  }

  function SchedulerPoll(f: Flags, h: WorkerState, heartbeatPeriod: int, now: int, consensus: bool): WorkerState {
    Advance(h, SchedulerState(f, h, heartbeatPeriod, now, consensus).0, now)
  }

  // BistroWorkerHandler::healthcheck: the worker dies sooner by one check interval, and never
  // permits itself to become healthy for the first time.
  function WorkerCheck(f: Flags, h: WorkerState, heartbeatPeriod: int, now: int): WorkerState {
    Advance(h, ComputeState(h, now, f.MaxHealthcheckGap(), heartbeatPeriod + f.HeartbeatGrace(),
                            f.LoseAfter() - f.CheckInterval(), false).0, now)
  }

  // The worker's own check, exactly: only a worker that has been healthy can be healthy, and one that
  // has been late, or NEW, for longer than the shortened time must die.
  lemma WorkerStatesExactly(f: Flags, h: WorkerState, heartbeatPeriod: int, now: int)
    ensures
      var next := WorkerCheck(f, h, heartbeatPeriod, now).state;
      var late := Late(h, now, f.MaxHealthcheckGap(), heartbeatPeriod + f.HeartbeatGrace());
      var loseAfter := f.LoseAfter() - f.CheckInterval();
      && (next.Healthy? <==> (h.state.Healthy? || h.state.Unhealthy?) && !late && h.hasBeenHealthy)
      && (next.MustDie? <==>
            || h.state.MustDie?
            || (&& 0 < loseAfter && h.timeBecameUnhealthy + loseAfter < now
                && (h.state.New? || (h.state.Unhealthy? && late))))
  {}

  // RemoteWorkers::updateInitialWait: kMinSafeWait
  function MinSafeWait(f: Flags): int {
    f.MaxHealthcheckGap() + f.LoseAfter() + f.CheckInterval() + f.SuicideMargin() + f.KillWaitMs() / 1000 + 1
  }
}

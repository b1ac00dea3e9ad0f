/** The worker's own copy of its health, kept by two threads (bistro/worker/BistroWorkerHandler.cpp). */
module WorkerHandler {
  import opened Health
  import opened Partition
  import opened SetHash
  import opened Versions
  import opened WorkerSets

  // A scheduler's answer to a heartbeat: its timeouts, its view of the worker, its worker set.
  datatype Response = Response(id: InstanceID, timeouts: Flags, workerState: State, workerSetID: WorkerSetID)

  class Handler {
    const heartbeatPeriodSec: int
    var state: WorkerState
    var schedulerState: Response
    var committingSuicide: bool

    constructor (period: int, now: int, response: Response)
      ensures heartbeatPeriodSec == period && state == Initial(now) && schedulerState == response && !committingSuicide
    {
      heartbeatPeriodSec, state, schedulerState, committingSuicide := period, Initial(now), response, false;
    }

    method SetState(next: State, now: int)
      modifies this`state
      ensures state == Advance(old(state), next, now)
    {
      if !next.Healthy? && state.state.Healthy? {
        state := state.(timeBecameUnhealthy := now);
      }
      state := state.(state := next);
      state := state.(hasBeenHealthy := state.hasBeenHealthy || next.Healthy?);
    }

    // What an answered heartbeat changes.  The version of one scheduler's worker set never goes
    // back, and the stored worker set is always that of the stored scheduler.
    method HeartbeatAnswered(res: Response, now: int)
      requires res.workerSetID.schedulerID == res.id && schedulerState.workerSetID.schedulerID == schedulerState.id
      requires res.id == schedulerState.id ==> Near(res.workerSetID.version, schedulerState.workerSetID.version)
      modifies this`state, this`schedulerState
      ensures schedulerState.id == res.id && schedulerState.workerSetID.schedulerID == res.id
      ensures schedulerState.timeouts == res.timeouts && schedulerState.workerState == res.workerState
      ensures schedulerState.workerSetID ==
        if res.id == old(schedulerState.id) && res.workerSetID.version < old(schedulerState.workerSetID.version)
        then old(schedulerState.workerSetID) else res.workerSetID
      ensures res.id == old(schedulerState.id) ==>
        old(schedulerState.workerSetID.version) <= schedulerState.workerSetID.version
      ensures state == Advance(
        (if res.id == old(schedulerState.id) then old(state) else Initial(now)).(timeLastHeartbeatReceived := now),
        res.workerState, now)
    {
      var gotNewScheduler := schedulerState.id != res.id;
      if gotNewScheduler {
        state := Initial(now);
      }
      state := state.(timeLastHeartbeatReceived := now);
      SetState(res.workerState, now);
      var kept := res;
      if !gotNewScheduler && EarlierThan(res.workerSetID.version, schedulerState.workerSetID.version) {
        assert schedulerState.workerSetID.schedulerID == res.id;  // CHECK
        kept := kept.(workerSetID := schedulerState.workerSetID);
      }
      schedulerState := kept;
    }

    method Healthcheck(now: int)
      modifies this`state, this`committingSuicide
      ensures old(committingSuicide) ==> state == old(state) && committingSuicide
      ensures !old(committingSuicide) ==>
        && state == WorkerCheck(schedulerState.timeouts, old(state), heartbeatPeriodSec, now)
        && committingSuicide == state.state.MustDie?
    {
      if committingSuicide {
        return;
      }
      var f := schedulerState.timeouts;
      var next := ComputeState(state, now, f.MaxHealthcheckGap(), heartbeatPeriodSec + f.HeartbeatGrace(),
                               f.LoseAfter() - f.CheckInterval(), false).0;
      SetState(next, now);
      if state.state.MustDie? {
        committingSuicide := true;
      }
    }

    // A check every second with no contact: what the partition theorems speak of.
    method RunAlone(start: int, now: int)
      requires !committingSuicide && !state.state.MustDie? && start <= now
      modifies this`state, this`committingSuicide
      ensures committingSuicide <==>
        WorkerAfter(schedulerState.timeouts, old(state), heartbeatPeriodSec, start, now).state.MustDie?
      ensures !committingSuicide ==>
        state == WorkerAfter(schedulerState.timeouts, old(state), heartbeatPeriodSec, start, now)
    {
      ghost var f, h := schedulerState.timeouts, state;
      for t := start to now
        invariant !committingSuicide ==>
          state == WorkerAfter(f, h, heartbeatPeriodSec, start, t) && !state.state.MustDie?
        invariant committingSuicide ==> WorkerAfter(f, h, heartbeatPeriodSec, start, t).state.MustDie?
      {
        Healthcheck(t + 1);
      }
    }
  }
}

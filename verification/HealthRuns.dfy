/**
 What each step of the worker protocol does to the record of one worker, exactly, and what follows
 for a worker that the scheduler no longer hears from.
 */
module HealthRuns {
  import opened Consensus
  import opened ConsensusRuns
  import opened Convergence
  import opened Health
  import opened Options
  import opened Partition
  import opened WorkerSets

  // ---------------------------------------------------------------- one step

  // x's health after an event, from that health alone.  A heartbeat is one of x's pooled instance.
  function HealthAfter(f: Flags, h: WorkerState, period: int, x: Shard, ev: Event, permitted: bool): WorkerState {
    match ev
    case Heartbeat(_, now, bw, _) =>
      if bw.shard != x then h
      else SchedulerPoll(f, h.(timeLastHeartbeatReceived := now), bw.heartbeatPeriodSec, now, permitted)
    case Update(y, now) => if y == x then SchedulerPoll(f, h, period, now, permitted) else h
    case Initialize(y) => if y == x && h.state.New? then h.(state := Unhealthy) else h
    case Healthcheck(y, sentAt) =>
      if y == x then h.(timeLastGoodHealthcheckSent := Max(h.timeLastGoodHealthcheckSent, sentAt)) else h
    case _ => h
  }

  // A heartbeat of the pooled instance, exactly: its description and its contact time are noted, a
  // newer echo is noted, and the health is polled with the consensus from before the heartbeat.
  lemma ContinueExactly(sys: System, f: Flags, bw: BistroWorker, id: WorkerSetID, now: int, consensus: bool)
    requires bw.shard in sys.s.pool
    ensures
      var w := sys.s.pool[bw.shard];
      var w' := Continue(sys, f, bw, id, now, consensus).s.pool[bw.shard];
      var newer, heard := NewerEcho(sys.s, w, id), w.health.(timeLastHeartbeatReceived := now);
      && w'.worker == bw && w'.initialWorkerSetID == w.initialWorkerSetID
      && w'.health == SchedulerPoll(f, heard, bw.heartbeatPeriodSec, now, consensus)
      && w'.workerSetID == (if newer then Some(id) else w.workerSetID)
      && w'.firstAssociatedWorkerSetID
           == (if newer && w.firstAssociatedWorkerSetID.None? then Some(id) else w.firstAssociatedWorkerSetID)
      && w'.indirectWorkerSetID
           == (if newer && (w.indirectWorkerSetID.Some? ==> w.indirectWorkerSetID.value.version < id.version)
               then Some(id) else w.indirectWorkerSetID)
  {
    hide UpdateWorker, SchedulerPoll;
    var s1 := Echo(Heard(sys.s, bw.shard, bw, now), bw.shard, id);
    EchoOnly(Heard(sys.s, bw.shard, bw, now), bw.shard, id);
    UpdateIsPoll(s1, f, bw.shard, now, consensus);
  }

  lemma SameInstanceContinues(sys: System, f: Flags, allowBump: bool, now: int, bw: BistroWorker, id: WorkerSetID)
    requires SameInstance(sys.s, bw)
    ensures
      var sys' := ProcessHeartbeat(sys, f, allowBump, now, bw, id);
      && bw.shard in sys'.s.pool
      && sys'.s.pool[bw.shard] == Continue(sys, f, bw, id, now, ConsensusPermits(sys.s, bw.shard)).s.pool[bw.shard]
  {
    hide Continue, ConsensusPermits, MoveHost, Treat;
    KeepMeansSame(sys.s, f, allowBump, now, bw);
    var consensus := ConsensusPermits(sys.s, bw.shard);
    ContinueOnlySender(sys, f, bw, id, now, consensus);
    MoveIsHostsOnly(Continue(sys, f, bw, id, now, consensus).s, bw.shard,
                    sys.s.pool[bw.shard].worker.machineLock.hostname);
  }

  lemma StepIsExact(f: Flags, sys: System, ev: Event, sys': System, x: Shard)
    requires Next(f, sys, ev, sys') && x in sys.s.pool
    requires ev.Heartbeat? && ev.bw.shard == x ==> SameInstance(sys.s, ev.bw)
    ensures
      var w := sys.s.pool[x];
      && x in sys'.s.pool
      && sys'.s.pool[x].health
           == HealthAfter(f, w.health, w.worker.heartbeatPeriodSec, x, ev, ConsensusPermits(sys.s, x))
      && (!(ev.Heartbeat? && ev.bw.shard == x) ==> sys'.s.pool[x].worker == w.worker)
  {
    hide ProcessHeartbeat, UpdateWorker, ConsensusPermits, Pruned, Propagated, SchedulerPoll, SameInstance;
    match ev
    case Heartbeat(allowBump, now, bw, id) =>
      if bw.shard != x {
        OthersUntouched(f, sys, ev, sys', x);
      } else {
        SameInstanceContinues(sys, f, allowBump, now, bw, id);
        ContinueExactly(sys, f, bw, id, now, ConsensusPermits(sys.s, x));
      }
    case Prune => PrunedFrame(sys.s, sys'.s);
    case Propagate => PropagatedFrame(sys.s, sys'.s);
    case Update(y, now) =>
      UpdateOnly(sys.s, f, y, now, ConsensusPermits(sys.s, y));
      UpdateIsPoll(sys.s, f, y, now, ConsensusPermits(sys.s, y));
    case Initialize(y) =>
    case Healthcheck(y, sentAt) =>
  }

  // Health is reached: when every live worker has echoed the current worker set ID, a worker past
  // NEW that is heard from in time is healthy after its next update.
  lemma AgreementMakesHealthy(f: Flags, sys: System, x: Shard, now: int, sys': System)
    requires Inv(sys) && x in Live(sys.s) && Next(f, sys, Update(x, now), sys')
    requires forall y :: y in Live(sys.s) ==> sys.s.pool[y].workerSetID == Some(sys.s.current)
    requires
      var w := sys.s.pool[x];
      !w.health.state.New? && now <= Deadline(f, w.health, w.worker.heartbeatPeriodSec)
    ensures x in sys'.s.pool && sys'.s.pool[x].health.state.Healthy?
  {
    hide Inv, ConsensusPermits, UpdateWorker;
    var w := sys.s.pool[x];
    ConsensusIsReached(sys, x);
    UpdateIsPoll(sys.s, f, x, now, true);
    StatesExactly(w.health, now, f.MaxHealthcheckGap(), w.worker.heartbeatPeriodSec + f.HeartbeatGrace(),
                  f.LoseAfter(), true);
  }

  // The record of an instance heard for the first time.
  function NewRecord(bw: BistroWorker, id: WorkerSetID, now: int): RemoteWorker {
    RemoteWorker(bw, WorkerState(New, now, INT64_MIN, now, false), id, None, None, None)
  }

  lemma ReplacedRecord(sys: System, f: Flags, bw: BistroWorker, id: WorkerSetID, now: int)
    requires bw.shard in sys.s.pool
    ensures Replace(sys, f, bw, id, now).s.pool[bw.shard] == NewRecord(bw, id, now)
  {}

  // A first contact, and a heartbeat that replaces the pooled instance, leave a new record.
  lemma FirstContactExactly(sys: System, f: Flags, allowBump: bool, now: int, bw: BistroWorker, id: WorkerSetID)
    requires bw.shard in sys.s.pool ==> Treat(sys.s, f, allowBump, now, bw).Bump?
    ensures
      var sys' := ProcessHeartbeat(sys, f, allowBump, now, bw, id);
      bw.shard in sys'.s.pool && sys'.s.pool[bw.shard] == NewRecord(bw, id, now)
  {
    hide Replace, Continue, MoveHost, ConsensusPermits, Treat, Admit;
    var x := bw.shard;
    if x in sys.s.pool {
      ReplaceOnlySender(sys, f, bw, id, now);
      ReplacedRecord(sys, f, bw, id, now);
      MoveIsHostsOnly(Replace(sys, f, bw, id, now).s, x, sys.s.pool[x].worker.machineLock.hostname);
    } else {
      var sys1 := Admit(sys, bw, id, now);
      AdmitPool(sys, bw, id, now);
      SameInstanceContinues(sys1, f, allowBump, now, bw, id);
      AdmittedRecord(sys1, f, bw, id, now, ConsensusPermits(sys1.s, x));
    }
  }

  lemma AdmittedRecord(sys: System, f: Flags, bw: BistroWorker, id: WorkerSetID, now: int, consensus: bool)
    requires bw.shard in sys.s.pool && sys.s.pool[bw.shard] == Fresh(bw, id, now)
    ensures Continue(sys, f, bw, id, now, consensus).s.pool[bw.shard] == NewRecord(bw, id, now)
  {}

  // ---------------------------------------------------------------- where indirect IDs come from

  lemma PoolGrowsBySender(f: Flags, sys: System, ev: Event, sys': System)
    requires ev.Heartbeat? && Next(f, sys, ev, sys')
    ensures sys'.s.pool.Keys == sys.s.pool.Keys + {ev.bw.shard}
  {
    hide Handle, Admit;
    var Heartbeat(allowBump, now, bw, id) := ev;
    if bw.shard in sys.s.pool {
      HandleMoves(sys, f, allowBump, now, bw, id, bw.shard);
    } else {
      AdmitPool(sys, bw, id, now);
      HandleMoves(Admit(sys, bw, id, now), f, allowBump, now, bw, id, bw.shard);
    }
  }

  // The heartbeat's ID is taken in as a newer echo of the pooled instance.
  predicate TakesIn(s: Scheduler, ev: Event) {
    ev.Heartbeat? && SameInstance(s, ev.bw) && NewerEcho(s, s.pool[ev.bw.shard], ev.id)
  }

  ghost predicate HasIndirect(s: Scheduler, id: WorkerSetID) {
    exists z :: Indexed(s, z) && Indirect(s, z) == id
  }

  lemma HeartbeatBringsOwn(f: Flags, sys: System, ev: Event, sys': System, y: Shard)
    requires ev.Heartbeat? && Next(f, sys, ev, sys') && Indexed(sys'.s, y)
    ensures HasIndirect(sys.s, Indirect(sys'.s, y)) || (TakesIn(sys.s, ev) && Indirect(sys'.s, y) == ev.id)
  {
    hide ProcessHeartbeat, NewerEcho, Treat, Continue, ConsensusPermits, SchedulerPoll;
    var Heartbeat(allowBump, now, bw, id) := ev;
    PoolGrowsBySender(f, sys, ev, sys');
    if y != bw.shard {
      OthersUntouched(f, sys, ev, sys', y);
      assert Indexed(sys.s, y);
    } else if SameInstance(sys.s, bw) {
      SameInstanceContinues(sys, f, allowBump, now, bw, id);
      ContinueExactly(sys, f, bw, id, now, ConsensusPermits(sys.s, y));
      assert Indexed(sys.s, y) || (TakesIn(sys.s, ev) && Indirect(sys'.s, y) == id);
    } else {
      OthersBringNothing(f, sys, ev, sys');
    }
  }

  lemma OthersBringNothing(f: Flags, sys: System, ev: Event, sys': System)
    requires ev.Heartbeat? && Next(f, sys, ev, sys') && !SameInstance(sys.s, ev.bw)
    ensures sys' == sys || (ev.bw.shard in sys'.s.pool && !Indexed(sys'.s, ev.bw.shard))
  {
    hide Replace, Continue, MoveHost, ConsensusPermits, Admit, NextState;
    var Heartbeat(allowBump, now, bw, id) := ev;
    if bw.shard !in sys.s.pool || Treat(sys.s, f, allowBump, now, bw).Bump? {
      FirstContactExactly(sys, f, allowBump, now, bw, id);
    } else {
      KeepMeansSame(sys.s, f, allowBump, now, bw);
    }
  }

  lemma StepBrings(f: Flags, sys: System, ev: Event, sys': System, y: Shard)
    requires Next(f, sys, ev, sys') && Indexed(sys'.s, y)
    ensures HasIndirect(sys.s, Indirect(sys'.s, y)) || (TakesIn(sys.s, ev) && Indirect(sys'.s, y) == ev.id)
  {
    hide ProcessHeartbeat, UpdateWorker, ConsensusPermits, Pruned, Propagated, SchedulerPoll, TakesIn;
    match ev
    case Heartbeat(_, _, _, _) => HeartbeatBringsOwn(f, sys, ev, sys', y);
    case Prune =>
      PrunedFrame(sys.s, sys'.s);
      assert Indexed(sys.s, y);
    case Propagate =>
      NextIsRequired(sys.s, sys'.s, y);
      RequiredIsIndirect(sys.s, y, Indirect(sys'.s, y));
    case Update(x, now) =>
      UpdateOnly(sys.s, f, x, now, ConsensusPermits(sys.s, x));
      UpdateIsPoll(sys.s, f, x, now, ConsensusPermits(sys.s, x));
      assert Indexed(sys.s, y);
    case Initialize(x) => assert Indexed(sys.s, y);
    case Healthcheck(x, sentAt) => assert Indexed(sys.s, y);
  }

  lemma RequiredIsIndirect(s: Scheduler, x: Shard, id: WorkerSetID)
    requires Requires(s, x, id)
    ensures HasIndirect(s, id)
  {
    var chain :| IsChain(s, chain) && chain[0] == x && Indirect(s, chain[|chain| - 1]) == id;
    assert Indexed(s, chain[|chain| - 1]);
  }

  ghost predicate TakenIn(run: seq<System>, events: seq<Event>, i: nat, id: WorkerSetID)
    requires |run| == |events| + 1
  {
    i < |events| && TakesIn(run[i].s, events[i]) && events[i].id == id
  }

  // In every run: whatever a worker indirectly requires, some worker has echoed.
  lemma {:induction false} IndirectWasEchoed(f: Flags, run: seq<System>, events: seq<Event>, k: nat, y: Shard)
    requires IsRun(f, run, events) && k < |run| && Indexed(run[k].s, y)
    ensures exists i: nat :: i < k && TakenIn(run, events, i, Indirect(run[k].s, y))
  {
    hide Next, SameInstance, NewerEcho;
    if k > 0 {
      var id := Indirect(run[k].s, y);
      StepBrings(f, run[k - 1], events[k - 1], run[k], y);
      if TakesIn(run[k - 1].s, events[k - 1]) && id == events[k - 1].id {
        assert TakenIn(run, events, k - 1, id);
      } else {
        var z :| Indexed(run[k - 1].s, z) && Indirect(run[k - 1].s, z) == id;
        IndirectWasEchoed(f, run, events, k - 1, z);
      }
    }
  }

  // ---------------------------------------------------------------- a worker that is not heard from

  // Neither a heartbeat nor a healthcheck of x.
  predicate Silent(ev: Event, x: Shard) {
    !(ev.Heartbeat? && ev.bw.shard == x) && !(ev.Healthcheck? && ev.x == x)
  }

  // The polls of x that a fragment of a run makes.
  ghost function PollsOf(run: seq<System>, events: seq<Event>, x: Shard): seq<Poll>
    requires |run| == |events| + 1
    decreases |events|
  {
    if events == [] then []
    else
      var k := |events| - 1;
      var before := PollsOf(run[..|run| - 1], events[..k], x);
      if events[k].Update? && events[k].x == x && x in run[k].s.pool
      then before + [Poll(events[k].now, ConsensusPermits(run[k].s, x))]
      else before
  }

  ghost predicate SilentSteps(f: Flags, run: seq<System>, events: seq<Event>, x: Shard) {
    && Steps(f, run, events) && x in run[0].s.pool && !run[0].s.pool[x].health.state.New?
    && forall i :: 0 <= i < |events| ==> Silent(events[i], x)
  }

  // Whatever else happens, the health of a worker past NEW that is not heard from is what its
  // polls make of it.
  lemma {:induction false} SilentIsPolled(f: Flags, run: seq<System>, events: seq<Event>, x: Shard)
    requires SilentSteps(f, run, events, x)
    ensures
      var w, s' := run[0].s.pool[x], run[|events|].s;
      && x in s'.pool && s'.pool[x].worker == w.worker && !s'.pool[x].health.state.New?
      && s'.pool[x].health == SchedulerAfter(f, w.health, w.worker.heartbeatPeriodSec, PollsOf(run, events, x))
    decreases |events|
  {
    hide Next, ConsensusPermits;
    if events != [] {
      var k := |events| - 1;
      var run1, events1 := run[..|run| - 1], events[..k];
      SilentIsPolled(f, run1, events1, x);
      StepIsExact(f, run[k], events[k], run[k + 1], x);
      var before, polls := PollsOf(run1, events1, x), PollsOf(run, events, x);
      assert |before| < |polls| ==> polls[..|polls| - 1] == before;
    }
  }

  // A fragment, from sys on, of which x's polls are made in order between start and end.
  ghost predicate Partitioned(f: Flags, sys: System, x: Shard, run: seq<System>, events: seq<Event>, start: int,
                              end: int) {
    SilentSteps(f, run, events, x) && run[0] == sys && PollsWithin(PollsOf(run, events, x), start, end)
  }

  // In every run: whenever the scheduler has lost x, the worker is dead.
  ghost predicate DiesFirst(f: Flags, worker: WorkerState, sys: System, x: Shard, start: int)
    requires x in sys.s.pool
  {
    forall run, events, end ::
      Partitioned(f, sys, x, run, events, start, end) && LostAtEnd(run, x)
      ==> WorkerAfter(f, worker, sys.s.pool[x].worker.heartbeatPeriodSec, start, end).state.MustDie?
  }

  ghost predicate LostAtEnd(run: seq<System>, x: Shard) {
    run != [] && x in run[|run| - 1].s.pool && Lost(run[|run| - 1].s.pool[x])
  }

  // Partition safety of the protocol itself, exactly, with any number of other workers and any
  // steps between the polls.
  lemma PartitionIsSafeExactly(f: Flags, worker: WorkerState, sys: System, x: Shard, start: int)
    requires x in sys.s.pool && Associated(worker) && Associated(sys.s.pool[x].health)
    requires f.LoseAfter() > f.CheckInterval()
    ensures
      var period := sys.s.pool[x].worker.heartbeatPeriodSec;
      DiesFirst(f, worker, sys, x, start) <==>
        Max(Deadline(f, worker, period), start)
          <= Max(Deadline(f, sys.s.pool[x].health, period), start) + f.CheckInterval()
  {
    hide WorkerAfter, SchedulerAfter, Deadline, Partitioned, WorkerDiesFirst;
    var h, period := sys.s.pool[x].health, sys.s.pool[x].worker.heartbeatPeriodSec;
    PartitionSafety(f, worker, h, period, start);
    if WorkerDiesFirst(f, worker, h, period, start) {
      forall run, events, end | Partitioned(f, sys, x, run, events, start, end) && LostAtEnd(run, x)
        ensures WorkerAfter(f, worker, period, start, end).state.MustDie?
      {
        LostByPolls(f, worker, sys, x, run, events, start, end);
      }
    } else {
      var run, events, end := EagerRun(f, sys, x, start);
      WorkerSurvives(f, worker, h, period, start);
    }
  }

  lemma LostByPolls(f: Flags, worker: WorkerState, sys: System, x: Shard, run: seq<System>, events: seq<Event>,
                    start: int, end: int)
    requires x in sys.s.pool && Partitioned(f, sys, x, run, events, start, end) && LostAtEnd(run, x)
    requires WorkerDiesFirst(f, worker, sys.s.pool[x].health, sys.s.pool[x].worker.heartbeatPeriodSec, start)
    ensures WorkerAfter(f, worker, sys.s.pool[x].worker.heartbeatPeriodSec, start, end).state.MustDie?
  {
    hide WorkerAfter, SchedulerAfter, PollsOf, PollsWithin;
    SilentIsPolled(f, run, events, x);
  }

  // Two polls of x alone lose it as early as any run can.
  lemma EagerRun(f: Flags, sys: System, x: Shard, start: int) returns (run: seq<System>, events: seq<Event>, end: int)
    requires x in sys.s.pool && Associated(sys.s.pool[x].health)
    ensures
      var period := sys.s.pool[x].worker.heartbeatPeriodSec;
      end == Max(Deadline(f, sys.s.pool[x].health, period), start) + f.LoseAfter() + 2
    ensures Partitioned(f, sys, x, run, events, start, end) && LostAtEnd(run, x)
  {
    hide ConsensusPermits, Deadline, Steps, PollsOf, PollsWithin, SchedulerAfter;
    var w := sys.s.pool[x];
    var sick := Max(Deadline(f, w.health, w.worker.heartbeatPeriodSec), start) + 1;
    end := sick + f.LoseAfter() + 1;
    events := [Update(x, sick), Update(x, end)];
    run := TwoPolls(f, sys, x, sick, end);
    PollsOfTwo(run, x, sick, end);
    EagerScheduler(f, w.health, w.worker.heartbeatPeriodSec, start, ConsensusPermits(run[0].s, x),
                   ConsensusPermits(run[1].s, x));
    SilentIsPolled(f, run, events, x);
  }

  lemma TwoPolls(f: Flags, sys: System, x: Shard, first: int, second: int) returns (run: seq<System>)
    requires x in sys.s.pool
    ensures |run| == 3 && run[0] == sys && x in run[1].s.pool
    ensures Steps(f, run, [Update(x, first), Update(x, second)])
  {
    hide UpdateWorker, ConsensusPermits, SchedulerPoll;
    var sys1 := sys.(s := UpdateWorker(sys.s, f, x, first, ConsensusPermits(sys.s, x)));
    UpdateIsPoll(sys.s, f, x, first, ConsensusPermits(sys.s, x));
    run := [sys, sys1, sys1.(s := UpdateWorker(sys1.s, f, x, second, ConsensusPermits(sys1.s, x)))];
  }

  lemma PollsOfTwo(run: seq<System>, x: Shard, first: int, second: int)
    requires |run| == 3 && x in run[0].s.pool && x in run[1].s.pool
    ensures PollsOf(run, [Update(x, first), Update(x, second)], x)
      == [Poll(first, ConsensusPermits(run[0].s, x)), Poll(second, ConsensusPermits(run[1].s, x))]
  {
    hide ConsensusPermits;
    var events := [Update(x, first), Update(x, second)];
    assert events[..1] == [Update(x, first)] && events[..1][..0] == [];
    assert PollsOf(run[..2][..1], [], x) == [];
    assert PollsOf(run[..2], [Update(x, first)], x) == [Poll(first, ConsensusPermits(run[0].s, x))];
  }

  lemma WorkerSurvives(f: Flags, worker: WorkerState, scheduler: WorkerState, period: int, start: int)
    requires Associated(worker) && f.LoseAfter() > f.CheckInterval()
    requires Max(Deadline(f, worker, period), start) > Max(Deadline(f, scheduler, period), start) + f.CheckInterval()
    ensures
      var end := Max(Deadline(f, scheduler, period), start) + f.LoseAfter() + 2;
      !WorkerAfter(f, worker, period, start, end).state.MustDie?
  {
    WorkerSchedule(f, worker, period, start, Max(Deadline(f, scheduler, period), start) + f.LoseAfter() + 2);
  }
}

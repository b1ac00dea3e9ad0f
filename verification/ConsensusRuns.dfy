/** What holds in every state of every run of the worker protocol. */
module ConsensusRuns {
  import opened Consensus
  import opened Health
  import opened Options
  import opened SetHash
  import opened WorkerSets
  import opened WorkerSetSteps
  import opened WorkerSetPasses

  // The atomic steps made under the scheduler's lock.  A call of RemoteWorkers::updateState is
  // Prune, Propagate, then Update for every shard.
  datatype Event =
    | Heartbeat(allowBump: bool, now: int, bw: BistroWorker, id: WorkerSetID)
    | Prune
    | Propagate
    | Update(x: Shard, now: int)
    | Initialize(x: Shard)
    | Healthcheck(x: Shard, sentAt: int)

  ghost predicate Next(f: Flags, sys: System, ev: Event, sys': System) {
    match ev
    case Heartbeat(allowBump, now, bw, id) =>
      HeartbeatAllowed(sys, bw, id) && sys' == ProcessHeartbeat(sys, f, allowBump, now, bw, id)
    case Prune => sys'.sent == sys.sent && Pruned(sys.s, sys'.s)
    case Propagate => sys'.sent == sys.sent && Propagated(sys.s, sys'.s)
    case Update(x, now) =>
      x in sys.s.pool && sys' == sys.(s := UpdateWorker(sys.s, f, x, now, ConsensusPermits(sys.s, x)))
    case Initialize(x) => x in sys.s.pool && sys' == sys.(s := InitializeTasks(sys.s, x))
    case Healthcheck(x, sentAt) => x in sys.s.pool && sys' == sys.(s := GoodHealthcheck(sys.s, x, sentAt))
  }

  // A scheduler that has just started; its version counter may start anywhere.
  ghost predicate Start(sys: System) {
    exists id, version :: sys == System(
      Scheduler(id, map[], map[], multiset{}, {}, WorkerSetID(id, version, EMPTY), map[], version + 1), map[])
  }

  ghost predicate Steps(f: Flags, run: seq<System>, events: seq<Event>) {
    |run| == |events| + 1 && forall i :: 0 <= i < |events| ==> Next(f, run[i], events[i], run[i + 1])
  }

  ghost predicate IsRun(f: Flags, run: seq<System>, events: seq<Event>) {
    Steps(f, run, events) && Start(run[0])
  }

  lemma StartHasInv(sys: System)
    requires Start(sys)
    ensures Inv(sys)
  {
    assert Live(sys.s) == {};
  }

  // Every step keeps the summaries equal to what the workers give, keeps the history
  // contiguous and replayable, and keeps every referenced version in it.
  lemma NextKeepsInv(f: Flags, sys: System, ev: Event, sys': System)
    requires Inv(sys) && Next(f, sys, ev, sys')
    ensures Inv(sys')
  {
    hide Core, HostsOK, ProcessHeartbeat, UpdateWorker, ConsensusPermits, Pruned, Propagated, HeartbeatAllowed;
    var s, s' := sys.s, sys'.s;
    match ev
    case Heartbeat(allowBump, now, bw, id) => HeartbeatKeepsInv(sys, f, allowBump, now, bw, id);
    case Prune =>
      PruneKeepsCore(sys, s');
      PrunedFrame(s, s');
      HostsAreKept(s, s');
    case Propagate =>
      PropagateKeepsCore(sys, s');
      PropagatedFrame(s, s');
      HostsAreKept(s, s');
    case Update(x, now) =>
      UpdateWorkerKeepsCore(sys, f, x, now, ConsensusPermits(s, x));
      UpdateOnly(s, f, x, now, ConsensusPermits(s, x));
      HostsAreKept(s, s');
    case Initialize(x) =>
      QuietKeepsCore(sys, x, s'.pool[x]);
      assert s'.pool == s.pool[x := s'.pool[x]];
      HostsAreKept(s, s');
    case Healthcheck(x, sentAt) =>
      QuietKeepsCore(sys, x, s'.pool[x]);
      HostsAreKept(s, s');
  }

  lemma PrunedFrame(s: Scheduler, s': Scheduler)
    requires Pruned(s, s')
    ensures s'.pool == s.pool && s'.hosts == s.hosts
  {}

  lemma PropagatedFrame(s: Scheduler, s': Scheduler)
    requires Propagated(s, s')
    ensures s'.hosts == s.hosts && s'.pool.Keys == s.pool.Keys
    ensures forall x :: x in s.pool ==> s'.pool[x].worker == s.pool[x].worker && s'.pool[x].health == s.pool[x].health
  {}

  lemma {:induction false} RunsKeepInv(f: Flags, run: seq<System>, events: seq<Event>, k: nat)
    requires IsRun(f, run, events) && k < |run|
    ensures Inv(run[k])
  {
    hide Inv, Next, Start;
    if k == 0 {
      StartHasInv(run[0]);
    } else {
      RunsKeepInv(f, run, events, k - 1);
      NextKeepsInv(f, run[k - 1], events[k - 1], run[k]);
    }
  }

  // ---------------------------------------------------------------- consensus safety

  // w knows exactly the current workers, and every one of them indirectly requires w.
  ghost predicate ProvablyInConsensus(s: Scheduler, x: Shard)
    requires x in s.pool
  {
    && s.pool[x].workerSetID.Some?
    && Members(s, s.pool[x].workerSetID.value.version) == Live(s)
    && forall y :: y in Live(s) ==> Indexed(s, y) && x in Members(s, Indirect(s, y).version)
  }

  // The constant-time test of the smallest indexed version is a test of every live worker.
  lemma CheckIsForAll(sys: System, x: Shard)
    requires Inv(sys) && x in sys.s.pool
    ensures ConsensusPermits(sys.s, x) <==>
      && sys.s.pool[x].workerSetID == Some(sys.s.current)
      && sys.s.pool[x].firstAssociatedWorkerSetID.Some?
      && forall y :: y in Live(sys.s) ==>
           Indexed(sys.s, y) && sys.s.pool[x].firstAssociatedWorkerSetID.value.version <= Indirect(sys.s, y).version
  {
    var s := sys.s;
    IndexSizes(s);
    if ConsensusPermits(s, x) {
      forall y | y in Live(s)
        ensures Indexed(s, y) && s.pool[x].firstAssociatedWorkerSetID.value.version <= Indirect(s, y).version
      {
        assert (Indirect(s, y).version, y) in s.index;
      }
    }
  }

  // A worker that passes the check is live; the source's check dereferences a nonempty index.
  lemma PermittedIsLive(sys: System, x: Shard)
    requires Inv(sys) && x in sys.s.pool && ConsensusPermits(sys.s, x)
    ensures x in Live(sys.s) && sys.s.index != {}
  {
    var s := sys.s;
    IndexSizes(s);
    assert x in Live(s);
  }

  lemma ConsensusIsSafe(sys: System, x: Shard)
    requires Inv(sys) && x in sys.s.pool && ConsensusPermits(sys.s, x)
    ensures ProvablyInConsensus(sys.s, x)
  {
    var s := sys.s;
    PermittedIsLive(sys, x);
    CheckIsForAll(sys, x);
    assert SentOK(s, x, sys.sent[x]) && IDsOK(s, x, sys.sent[x]);
    var since := s.pool[x].firstAssociatedWorkerSetID.value;
    assert since in sys.sent[x] && MemberSince(s, x, since.version);
    forall y | y in Live(s) ensures Indexed(s, y) && x in Members(s, Indirect(s, y).version) {
      assert IDsOK(s, y, sys.sent[y]);
      assert since.version <= Indirect(s, y).version <= s.current.version && s.first <= Indirect(s, y).version;
    }
  }

  // Once every live worker has echoed the current worker set ID, each of them passes the check.
  lemma ConsensusIsReached(sys: System, x: Shard)
    requires Inv(sys) && x in Live(sys.s)
    requires forall y :: y in Live(sys.s) ==> sys.s.pool[y].workerSetID == Some(sys.s.current)
    ensures ConsensusPermits(sys.s, x)
  {
    hide ConsensusPermits;
    var s := sys.s;
    CheckIsForAll(sys, x);
    assert IDsOK(s, x, sys.sent[x]);
    forall y | y in Live(s)
      ensures Indexed(s, y) && s.pool[x].firstAssociatedWorkerSetID.value.version <= Indirect(s, y).version
    {
      assert IDsOK(s, y, sys.sent[y]);
    }
  }

  // ---------------------------------------------------------------- health over whole runs

  predicate Started(h: WorkerState) {
    h.state.New? && !h.hasBeenHealthy
  }

  // How a recorded health may move when the state is recomputed.
  predicate Recomputed(h: WorkerState, h': WorkerState, permitted: bool) {
    && (h.state.MustDie? ==> h'.state.MustDie?)
    && (h.state.New? ==> h'.state.New? || h'.state.MustDie?)
    && (h'.state.New? ==> h.state.New?)
    && h'.hasBeenHealthy == (h.hasBeenHealthy || h'.state.Healthy?)
    && (h'.state.Healthy? && !h.hasBeenHealthy ==> permitted)
  }

  ghost predicate HealthMoves(sys: System, ev: Event, sys': System, x: Shard)
    requires x in sys'.s.pool
  {
    var h' := sys'.s.pool[x].health;
    || Started(h')
    || (&& x in sys.s.pool
        && var h := sys.s.pool[x].health;
           || (h'.state == h.state && h'.hasBeenHealthy == h.hasBeenHealthy)
           || (ev == Initialize(x) && h.state.New? && h'.state.Unhealthy? && h'.hasBeenHealthy == h.hasBeenHealthy)
           || Recomputed(h, h', ConsensusPermits(sys.s, x)))
  }

  lemma UpdateMoves(s: Scheduler, f: Flags, x: Shard, now: int, consensus: bool)
    requires x in s.pool
    ensures Recomputed(s.pool[x].health, UpdateWorker(s, f, x, now, consensus).pool[x].health, consensus)
  {}

  lemma ContinueMoves(sys: System, f: Flags, bw: BistroWorker, id: WorkerSetID, now: int, consensus: bool)
    requires bw.shard in sys.s.pool
    ensures
      var health' := Continue(sys, f, bw, id, now, consensus).s.pool[bw.shard].health;
      Recomputed(sys.s.pool[bw.shard].health, health', consensus)
  {
    hide Echo, UpdateWorker;
    var s1 := Heard(sys.s, bw.shard, bw, now);
    EchoOnly(s1, bw.shard, id);
    UpdateMoves(Echo(s1, bw.shard, id), f, bw.shard, now, consensus);
  }

  lemma ReplaceStarts(sys: System, f: Flags, bw: BistroWorker, id: WorkerSetID, now: int)
    requires bw.shard in sys.s.pool
    ensures Started(Replace(sys, f, bw, id, now).s.pool[bw.shard].health)
  {}

  lemma HandleMoves(sys: System, f: Flags, allowBump: bool, now: int, bw: BistroWorker, id: WorkerSetID, x: Shard)
    requires bw.shard in sys.s.pool && x in sys.s.pool
    ensures
      var s' := Handle(sys, f, allowBump, now, bw, id).s;
      && s'.pool.Keys == sys.s.pool.Keys
      && (x != bw.shard ==> s'.pool[x] == sys.s.pool[x])
      && (x == bw.shard ==>
            match Treat(sys.s, f, allowBump, now, bw)
            case Bump => Started(s'.pool[x].health) && s'.pool[x].worker == bw
            case Reject => s'.pool[x] == sys.s.pool[x]
            case Keep => Recomputed(sys.s.pool[x].health, s'.pool[x].health, ConsensusPermits(sys.s, x)))
  {
    hide Replace, Continue, ConsensusPermits, MoveHost, Recomputed, Started, NextState;
    var treatment := Treat(sys.s, f, allowBump, now, bw);
    if treatment.Bump? {
      ReplaceOnlySender(sys, f, bw, id, now);
      ReplaceStarts(sys, f, bw, id, now);
      MoveIsHostsOnly(Replace(sys, f, bw, id, now).s, bw.shard, sys.s.pool[bw.shard].worker.machineLock.hostname);
    } else if treatment.Keep? {
      var consensus := ConsensusPermits(sys.s, bw.shard);
      ContinueOnlySender(sys, f, bw, id, now, consensus);
      ContinueMoves(sys, f, bw, id, now, consensus);
      MoveIsHostsOnly(Continue(sys, f, bw, id, now, consensus).s, bw.shard,
                      sys.s.pool[bw.shard].worker.machineLock.hostname);
    }
  }

  lemma AdmitStarts(sys: System, f: Flags, allowBump: bool, now: int, bw: BistroWorker, id: WorkerSetID)
    requires bw.shard !in sys.s.pool
    ensures Started(Handle(Admit(sys, bw, id, now), f, allowBump, now, bw, id).s.pool[bw.shard].health)
  {
    hide Continue, ConsensusPermits, MoveHost, HostPool;
    var sys1 := Admit(sys, bw, id, now);
    var consensus := ConsensusPermits(sys1.s, bw.shard);
    assert Treat(sys1.s, f, allowBump, now, bw).Keep?;
    ContinueOnlySender(sys1, f, bw, id, now, consensus);
    NewStaysNew(sys1, f, bw, id, now, consensus);
    MoveIsHostsOnly(Continue(sys1, f, bw, id, now, consensus).s, bw.shard, bw.machineLock.hostname);
  }

  lemma NewStaysNew(sys: System, f: Flags, bw: BistroWorker, id: WorkerSetID, now: int, consensus: bool)
    requires bw.shard in sys.s.pool && sys.s.pool[bw.shard].health == Initial(now)
    ensures Started(Continue(sys, f, bw, id, now, consensus).s.pool[bw.shard].health)
  {
    hide Echo;
    EchoOnly(Heard(sys.s, bw.shard, bw, now), bw.shard, id);
  }

  lemma HeartbeatMoves(sys: System, f: Flags, ev: Event, sys': System, x: Shard)
    requires ev.Heartbeat? && Next(f, sys, ev, sys') && x in sys'.s.pool
    ensures HealthMoves(sys, ev, sys', x)
  {
    hide Handle, Admit, Started, Recomputed, ConsensusPermits;
    var Heartbeat(allowBump, now, bw, id) := ev;
    if bw.shard in sys.s.pool {
      HandleMoves(sys, f, allowBump, now, bw, id, if x in sys.s.pool then x else bw.shard);
    } else {
      AdmitAdds(sys, bw, id, now);
      AdmitPool(sys, bw, id, now);
      HandleMoves(Admit(sys, bw, id, now), f, allowBump, now, bw, id, bw.shard);
      if x in sys.s.pool {
        HandleMoves(Admit(sys, bw, id, now), f, allowBump, now, bw, id, x);
      } else {
        AdmitStarts(sys, f, allowBump, now, bw, id);
      }
    }
  }

  lemma AdmitPool(sys: System, bw: BistroWorker, id: WorkerSetID, now: int)
    ensures Admit(sys, bw, id, now).s.pool == sys.s.pool[bw.shard := Fresh(bw, id, now)]
  {}

  lemma StepMoves(f: Flags, sys: System, ev: Event, sys': System, x: Shard)
    requires Next(f, sys, ev, sys') && x in sys'.s.pool
    ensures HealthMoves(sys, ev, sys', x)
  {
    hide ProcessHeartbeat, UpdateWorker, Recomputed, ConsensusPermits, Pruned, Propagated, Started;
    match ev
    case Heartbeat(_, _, _, _) => HeartbeatMoves(sys, f, ev, sys', x);
    case Prune => PrunedFrame(sys.s, sys'.s);
    case Propagate => PropagatedFrame(sys.s, sys'.s);
    case Update(y, now) =>
      UpdateOnly(sys.s, f, y, now, ConsensusPermits(sys.s, y));
      UpdateMoves(sys.s, f, y, now, ConsensusPermits(sys.s, y));
    case Initialize(y) =>
    case Healthcheck(y, sentAt) =>
  }

  // x's current instance got its running tasks at event i, and has been past NEW since.
  ghost predicate InitializedAt(run: seq<System>, events: seq<Event>, k: nat, x: Shard, i: nat)
    requires k < |run| == |events| + 1
  {
    && i < k && events[i] == Initialize(x)
    && forall m :: i < m <= k ==> x in run[m].s.pool && !run[m].s.pool[x].health.state.New?
  }

  // ... and the consensus check passed in the state in which it first became healthy.
  ghost predicate PermittedAt(run: seq<System>, events: seq<Event>, k: nat, x: Shard, i: nat, j: nat)
    requires k < |run| == |events| + 1
  {
    && InitializedAt(run, events, k, x, i) && i < j < k
    && !run[j].s.pool[x].health.hasBeenHealthy && run[j + 1].s.pool[x].health.state.Healthy?
    && ConsensusPermits(run[j].s, x)
  }

  ghost predicate HealthHistory(run: seq<System>, events: seq<Event>, k: nat, x: Shard)
    requires k < |run| == |events| + 1 && x in run[k].s.pool
  {
    var h := run[k].s.pool[x].health;
    && (h.state.New? ==> !h.hasBeenHealthy)
    && (h.state.Healthy? ==> h.hasBeenHealthy)
    && (h.state.Healthy? || h.state.Unhealthy? ==> exists i: nat :: InitializedAt(run, events, k, x, i))
    && (h.hasBeenHealthy ==> exists i: nat, j: nat :: PermittedAt(run, events, k, x, i, j))
  }

  lemma {:induction false} HealthIsEarned(f: Flags, run: seq<System>, events: seq<Event>, k: nat, x: Shard)
    requires IsRun(f, run, events) && k < |run| && x in run[k].s.pool
    ensures HealthHistory(run, events, k, x)
  {
    hide Next, ConsensusPermits, Recomputed, Started;
    if 0 < k {
      StepMoves(f, run[k - 1], events[k - 1], run[k], x);
      if x in run[k - 1].s.pool {
        HealthIsEarned(f, run, events, k - 1, x);
      }
      ExtendHistory(run, events, k, x);
    }
  }

  lemma ExtendHistory(run: seq<System>, events: seq<Event>, k: nat, x: Shard)
    requires 0 < k < |run| == |events| + 1 && x in run[k].s.pool
    requires HealthMoves(run[k - 1], events[k - 1], run[k], x)
    requires x in run[k - 1].s.pool ==> HealthHistory(run, events, k - 1, x)
    ensures HealthHistory(run, events, k, x)
  {
    hide ConsensusPermits;
    var h' := run[k].s.pool[x].health;
    if !Started(h') {
      var h := run[k - 1].s.pool[x].health;
      if events[k - 1] == Initialize(x) && h.state.New? && h'.state.Unhealthy? {
        assert InitializedAt(run, events, k, x, k - 1);
      } else {
        if h.state.Healthy? || h.state.Unhealthy? {
          var i: nat :| InitializedAt(run, events, k - 1, x, i);
          if !h'.state.New? {
            assert InitializedAt(run, events, k, x, i);
            if h'.state.Healthy? && !h.hasBeenHealthy {
              assert PermittedAt(run, events, k, x, i, k - 1);
            }
          }
        }
        if h.hasBeenHealthy && !h'.state.New? {
          var i: nat, j: nat :| PermittedAt(run, events, k - 1, x, i, j);
          assert PermittedAt(run, events, k, x, i, j);
        }
      }
    }
  }

  // In every run: a healthy worker's tasks were fetched, and consensus provably included it when it
  // first became healthy.
  lemma HealthyMeansInConsensus(f: Flags, run: seq<System>, events: seq<Event>, k: nat, x: Shard)
    requires IsRun(f, run, events) && k < |run| && x in run[k].s.pool && run[k].s.pool[x].health.state.Healthy?
    ensures exists i: nat, j: nat :: PermittedAt(run, events, k, x, i, j) && ProvablyInConsensus(run[j].s, x)
  {
    HealthIsEarned(f, run, events, k, x);
    var i: nat, j: nat :| PermittedAt(run, events, k, x, i, j);
    RunsKeepInv(f, run, events, j);
    ConsensusIsSafe(run[j], x);
  }

  // The heartbeat replaces x by the instance that sent it, which starts NEW.
  predicate ReplacedBy(f: Flags, sys: System, ev: Event, sys': System, x: Shard) {
    && ev.Heartbeat? && ev.bw.shard == x && x in sys.s.pool && Treat(sys.s, f, ev.allowBump, ev.now, ev.bw).Bump?
    && x in sys'.s.pool && sys'.s.pool[x].worker == ev.bw && Started(sys'.s.pool[x].health)
  }

  // MUST_DIE is left only by a replacement.
  lemma MustDieIsFinal(f: Flags, sys: System, ev: Event, sys': System, x: Shard)
    requires Next(f, sys, ev, sys') && x in sys.s.pool && Lost(sys.s.pool[x])
    ensures x in sys'.s.pool && (Lost(sys'.s.pool[x]) || ReplacedBy(f, sys, ev, sys', x))
  {
    hide Handle, Treat, UpdateWorker, ConsensusPermits, Pruned, Propagated;
    match ev
    case Heartbeat(allowBump, now, bw, id) =>
      if bw.shard != x {
        OthersUntouched(f, sys, ev, sys', x);
      } else {
        HandleMoves(sys, f, allowBump, now, bw, id, x);
      }
    case Prune => PrunedFrame(sys.s, sys'.s);
    case Propagate => PropagatedFrame(sys.s, sys'.s);
    case Update(y, now) =>
      UpdateOnly(sys.s, f, y, now, ConsensusPermits(sys.s, y));
      UpdateMoves(sys.s, f, y, now, ConsensusPermits(sys.s, y));
    case Initialize(y) =>
    case Healthcheck(y, sentAt) =>
  }

  lemma OthersUntouched(f: Flags, sys: System, ev: Event, sys': System, x: Shard)
    requires ev.Heartbeat? && Next(f, sys, ev, sys') && x in sys.s.pool && x != ev.bw.shard
    ensures x in sys'.s.pool && sys'.s.pool[x] == sys.s.pool[x]
  {
    hide Handle, Admit;
    var Heartbeat(allowBump, now, bw, id) := ev;
    if bw.shard in sys.s.pool {
      HandleMoves(sys, f, allowBump, now, bw, id, x);
    } else {
      AdmitPool(sys, bw, id, now);
      HandleMoves(Admit(sys, bw, id, now), f, allowBump, now, bw, id, x);
    }
  }

  // A worker is replaced from another machine only if it would be lost, or if bumping is
  // allowed and it would not be healthy; from its own machine only by an instance that did not
  // start before it.  Otherwise the heartbeat of another instance changes nothing.
  lemma ReplacedExactly(sys: System, f: Flags, allowBump: bool, now: int, bw: BistroWorker, id: WorkerSetID)
    requires bw.shard in sys.s.pool && !SameInstance(sys.s, bw)
    ensures
      var cur := sys.s.pool[bw.shard].worker;
      var state := NextState(sys.s, f, bw.shard, now, ConsensusPermits(sys.s, bw.shard));
      var sys' := ProcessHeartbeat(sys, f, allowBump, now, bw, id);
      var replaced := if cur.machineLock == bw.machineLock then cur.id.startTime <= bw.id.startTime
                      else state.MustDie? || (allowBump && !state.Healthy?);
      if replaced then
        bw.shard in sys'.s.pool && sys'.s.pool[bw.shard].worker == bw && Started(sys'.s.pool[bw.shard].health)
      else sys' == sys
  {
    hide Replace, Continue, MoveHost, ConsensusPermits, NextState;
    var x, host := bw.shard, sys.s.pool[bw.shard].worker.machineLock.hostname;
    if Treat(sys.s, f, allowBump, now, bw).Bump? {
      ReplaceOnlySender(sys, f, bw, id, now);
      ReplaceStarts(sys, f, bw, id, now);
      MoveIsHostsOnly(Replace(sys, f, bw, id, now).s, x, host);
    }
  }

  lemma StepsGrow(f: Flags, run: seq<System>, events: seq<Event>, ev: Event, sys: System)
    requires Steps(f, run, events) && 0 < |run| && Next(f, run[|run| - 1], ev, sys)
    ensures Steps(f, run + [sys], events + [ev])
  {
    hide Next;
  }
}

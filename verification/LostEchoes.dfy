/**
 How a lost worker gets back into the index of the live workers: runs that reach each failure,
 with any flags.
 */
module LostEchoes {
  import opened Consensus
  import opened ConsensusRuns
  import opened Health
  import opened Options
  import opened SetHash
  import opened WorkerSets
  import opened WorkerSetSteps

  // ---------------------------------------------------------------- what one step does

  function Touched(w: RemoteWorker, bw: BistroWorker, now: int): RemoteWorker {
    w.(worker := bw, health := w.health.(timeLastHeartbeatReceived := now))
  }

  // Everything but the pool, the index, the host pools and what was sent stays.
  predicate SameHistory(sys: System, sys': System) {
    sys'.s == sys.s.(pool := sys'.s.pool, index := sys'.s.index, hosts := sys'.s.hosts)
  }

  // A lost worker, or a NEW one whose time is not up.
  predicate Waits(w: RemoteWorker, f: Flags, now: int) {
    Lost(w) || (w.health.state.New? && now <= w.health.timeBecameUnhealthy + f.LoseAfter())
  }

  // The pooled instance of x sends a heartbeat while it waits.
  predicate Beats(sys: System, f: Flags, bw: BistroWorker, now: int) {
    && bw.shard in sys.s.pool && sys.s.pool[bw.shard].worker == bw && bw.shard in sys.sent
    && Waits(sys.s.pool[bw.shard], f, now)
  }

  lemma WaitingStays(s: Scheduler, f: Flags, x: Shard, now: int, consensus: bool)
    requires x in s.pool && Waits(s.pool[x], f, now)
    ensures UpdateWorker(s, f, x, now, consensus) == s
  {
    assert s.pool[x := s.pool[x]] == s.pool;
  }

  lemma OnlyTheEcho(sys: System, f: Flags, bw: BistroWorker, id: WorkerSetID, now: int)
    requires Beats(sys, f, bw, now)
    ensures ProcessHeartbeat(sys, f, false, now, bw, id)
      == Sent(System(Echo(Heard(sys.s, bw.shard, bw, now), bw.shard, id), sys.sent), bw.shard)
  {
    hide ConsensusPermits, Echo, UpdateWorker, Treat;
    var x := bw.shard;
    KeepMeansSame(sys.s, f, false, now, bw);
    var s1 := Heard(sys.s, x, bw, now);
    EchoOnly(s1, x, id);
    WaitingStays(Echo(s1, x, id), f, x, now, ConsensusPermits(sys.s, x));
  }

  // Its ID is not newer than what the scheduler has.
  lemma Hears(sys: System, f: Flags, bw: BistroWorker, id: WorkerSetID, now: int)
    requires Beats(sys, f, bw, now) && !NewerEcho(sys.s, sys.s.pool[bw.shard], id) && Honest(sys, bw.shard, id)
    ensures
      var sys' := ProcessHeartbeat(sys, f, false, now, bw, id);
      && Next(f, sys, Heartbeat(false, now, bw, id), sys') && SameHistory(sys, sys') && sys'.s.index == sys.s.index
      && sys'.s.pool == sys.s.pool[bw.shard := Touched(sys.s.pool[bw.shard], bw, now)]
      && sys'.sent == sys.sent[bw.shard := sys.sent[bw.shard] + {sys.s.current}]
  {
    hide ProcessHeartbeat, NewerEcho, Waits;
    OnlyTheEcho(sys, f, bw, id, now);
    HeardIsTheSame(sys.s, bw, id, now);
  }

  function Echoing(w: RemoteWorker, id: WorkerSetID): RemoteWorker {
    w.(workerSetID := Some(id), indirectWorkerSetID := Some(id),
       firstAssociatedWorkerSetID :=
         if w.firstAssociatedWorkerSetID.None? then Some(id) else w.firstAssociatedWorkerSetID)
  }

  predicate Raises(w: RemoteWorker, id: WorkerSetID) {
    w.indirectWorkerSetID.Some? ==> w.indirectWorkerSetID.value.version < id.version
  }

  function RaisedIndex(s: Scheduler, x: Shard, id: WorkerSetID): set<(int, Shard)> {
    (if Indexed(s, x) then s.index - {(Indirect(s, x).version, x)} else s.index) + {(id.version, x)}
  }

  // Its ID is newer, also than its indirect one.
  lemma Echoes(sys: System, f: Flags, bw: BistroWorker, id: WorkerSetID, now: int)
    requires Beats(sys, f, bw, now) && NewerEcho(sys.s, sys.s.pool[bw.shard], id) && Raises(sys.s.pool[bw.shard], id)
    ensures
      var sys' := ProcessHeartbeat(sys, f, false, now, bw, id);
      && (!Lost(sys.s.pool[bw.shard]) && Honest(sys, bw.shard, id) ==>
        Next(f, sys, Heartbeat(false, now, bw, id), sys'))
      && SameHistory(sys, sys') && sys'.s.index == RaisedIndex(sys.s, bw.shard, id)
      && sys'.s.pool == sys.s.pool[bw.shard := Echoing(Touched(sys.s.pool[bw.shard], bw, now), id)]
      && sys'.sent == sys.sent[bw.shard := sys.sent[bw.shard] + {sys.s.current}]
  {
    hide ProcessHeartbeat, NewerEcho, Waits;
    OnlyTheEcho(sys, f, bw, id, now);
    HeardIsTheSame(sys.s, bw, id, now);
  }

  // The first heartbeat of a worker that comes from another scheduler.
  lemma Joins(sys: System, f: Flags, bw: BistroWorker, id: WorkerSetID, now: int)
    requires bw.shard !in sys.s.pool && id.schedulerID != sys.s.id
    ensures
      var sys' := ProcessHeartbeat(sys, f, false, now, bw, id);
      && Next(f, sys, Heartbeat(false, now, bw, id), sys')
      && sys'.s.pool == sys.s.pool[bw.shard := Touched(Fresh(bw, id, now), bw, now)]
      && sys'.s.index == sys.s.index && sys'.s.id == sys.s.id && sys'.s.initialIDs == sys.s.initialIDs + multiset{id}
      && sys'.s.current ==
        WorkerSetID(sys.s.current.schedulerID, sys.s.current.version + 1, Add(sys.s.current.hash, bw.id))
      && sys'.sent == sys.sent[bw.shard := {sys'.s.current}]
  {
    hide Add, Handle, HostPool;
    var sys1 := Admit(sys, bw, id, now);
    Hears(sys1, f, bw, id, now);
    var sys' := ProcessHeartbeat(sys1, f, false, now, bw, id);
    assert sys' == ProcessHeartbeat(sys, f, false, now, bw, id);
    assert sys1.s.pool == sys.s.pool[bw.shard := Fresh(bw, id, now)] && sys1.sent == sys.sent[bw.shard := {}];
    assert sys'.s.pool == sys.s.pool[bw.shard := Touched(Fresh(bw, id, now), bw, now)];
    assert {} + {sys'.s.current} == {sys'.s.current};
    assert sys'.sent == sys.sent[bw.shard := {sys'.s.current}];
  }

  // A NEW worker whose time is up.
  lemma IsLost(sys: System, f: Flags, x: Shard, now: int)
    requires x in sys.s.pool && sys.s.pool[x].health.state.New?
      && sys.s.pool[x].health.timeBecameUnhealthy + f.LoseAfter() < now
    ensures
      var sys' := System(Lose(sys.s, x, now), sys.sent);
      Next(f, sys, Update(x, now), sys') && Lost(sys'.s.pool[x])
  {}

  // ---------------------------------------------------------------- the runs

  const SCHEDULER := InstanceID(2, 0)

  // What a worker of an earlier scheduler echoes at first.
  const FOREIGN := WorkerSetID(InstanceID(1, 0), 0, EMPTY)

  function Worker(x: Shard): BistroWorker {
    BistroWorker(x, Machine(x, 0), InstanceID(x, x), 15)
  }

  function Beginning(): System {
    System(Scheduler(SCHEDULER, map[], map[], multiset{}, {}, WorkerSetID(SCHEDULER, 0, EMPTY), map[], 1), map[])
  }

  // The run ends in `sys`.
  ghost predicate Reaches(f: Flags, run: seq<System>, events: seq<Event>, sys: System) {
    IsRun(f, run, events) && run[|run| - 1] == sys
  }

  ghost predicate Reachable(f: Flags, sys: System) {
    exists run, events :: Reaches(f, run, events, sys)
  }

  lemma BeginningIsReachable(f: Flags)
    ensures Reachable(f, Beginning())
  {
    var run, events: seq<Event> := [Beginning()], [];
    assert Beginning() == System(
      Scheduler(SCHEDULER, map[], map[], multiset{}, {}, WorkerSetID(SCHEDULER, 0, EMPTY), map[], 0 + 1), map[]);
    assert Start(run[0]);
    assert Reaches(f, run, events, Beginning());
  }

  lemma NextIsReachable(f: Flags, sys: System, ev: Event, sys': System)
    requires Reachable(f, sys) && Next(f, sys, ev, sys')
    ensures Reachable(f, sys')
  {
    hide Next, Start;
    var run, events :| Reaches(f, run, events, sys);
    StepsGrow(f, run, events, ev, sys');
    assert Reaches(f, run + [sys'], events + [ev], sys');
  }

  lemma HashCounts(h: Hash, id: InstanceID)
    ensures Add(h, id).numWorkers == h.numWorkers + 1 && Remove(h, id).numWorkers == h.numWorkers - 1
  {}

  // The steps above, from reachable states.

  lemma JoinsReachably(f: Flags, sys: System, x: Shard, now: int) returns (sys': System)
    requires Reachable(f, sys) && x !in sys.s.pool && sys.s.id == SCHEDULER
    ensures Reachable(f, sys')
    ensures sys'.s.pool == sys.s.pool[x := Touched(Fresh(Worker(x), FOREIGN, now), Worker(x), now)]
    ensures sys'.s.index == sys.s.index && sys'.s.id == sys.s.id
      && sys'.s.current.schedulerID == sys.s.current.schedulerID
    ensures sys'.s.current.version == sys.s.current.version + 1
      && sys'.s.initialIDs == sys.s.initialIDs + multiset{FOREIGN}
    ensures sys'.s.current.hash.numWorkers == sys.s.current.hash.numWorkers + 1
    ensures sys'.sent == sys.sent[x := {sys'.s.current}]
  {
    hide ProcessHeartbeat, Next, Reachable, Add;
    Joins(sys, f, Worker(x), FOREIGN, now);
    sys' := ProcessHeartbeat(sys, f, false, now, Worker(x), FOREIGN);
    NextIsReachable(f, sys, Heartbeat(false, now, Worker(x), FOREIGN), sys');
    HashCounts(sys.s.current.hash, Worker(x).id);
  }

  lemma HearsReachably(f: Flags, sys: System, x: Shard, id: WorkerSetID, now: int) returns (sys': System)
    requires Reachable(f, sys) && Beats(sys, f, Worker(x), now)
    requires !NewerEcho(sys.s, sys.s.pool[x], id) && Honest(sys, x, id)
    ensures Reachable(f, sys') && SameHistory(sys, sys') && sys'.s.index == sys.s.index
    ensures sys'.s.pool == sys.s.pool[x := Touched(sys.s.pool[x], Worker(x), now)]
    ensures sys'.sent == sys.sent[x := sys.sent[x] + {sys.s.current}]
  {
    hide ProcessHeartbeat, Next, Reachable, NewerEcho;
    Hears(sys, f, Worker(x), id, now);
    sys' := ProcessHeartbeat(sys, f, false, now, Worker(x), id);
    NextIsReachable(f, sys, Heartbeat(false, now, Worker(x), id), sys');
  }

  lemma EchoesReachably(f: Flags, sys: System, x: Shard, id: WorkerSetID, now: int) returns (sys': System)
    requires Reachable(f, sys) && Beats(sys, f, Worker(x), now) && !Lost(sys.s.pool[x])
    requires NewerEcho(sys.s, sys.s.pool[x], id) && Honest(sys, x, id) && Raises(sys.s.pool[x], id)
    ensures Reachable(f, sys') && SameHistory(sys, sys') && sys'.s.index == RaisedIndex(sys.s, x, id)
    ensures sys'.s.pool == sys.s.pool[x := Echoing(Touched(sys.s.pool[x], Worker(x), now), id)]
    ensures sys'.sent == sys.sent[x := sys.sent[x] + {sys.s.current}]
  {
    hide ProcessHeartbeat, Next, Reachable, NewerEcho, Raises;
    Echoes(sys, f, Worker(x), id, now);
    sys' := ProcessHeartbeat(sys, f, false, now, Worker(x), id);
    NextIsReachable(f, sys, Heartbeat(false, now, Worker(x), id), sys');
  }

  lemma IsLostReachably(f: Flags, sys: System, x: Shard, now: int) returns (sys': System)
    requires Reachable(f, sys) && x in sys.s.pool && sys.s.pool[x].health.state.New?
    requires sys.s.pool[x].health.timeBecameUnhealthy + f.LoseAfter() < now
    ensures Reachable(f, sys') && sys' == System(Lose(sys.s, x, now), sys.sent) && Lost(sys'.s.pool[x])
    ensures sys'.s.current.hash.numWorkers == sys.s.current.hash.numWorkers - 1
  {
    hide Next, Reachable, Remove;
    IsLost(sys, f, x, now);
    sys' := System(Lose(sys.s, x, now), sys.sent);
    NextIsReachable(f, sys, Update(x, now), sys');
    HashCounts(sys.s.current.hash, sys.s.pool[x].worker.id);
  }

  // A worker lost before its first echo then echoes the ID it was sent: no CHECK of the echo
  // fails, but the index becomes larger than the live worker set, which is CHECKed elsewhere.
  lemma LostBeforeFirstEcho(f: Flags, now: int)
    ensures exists sys, bw, id ::
      && Reachable(f, sys) && HeartbeatHonest(sys, bw, id) && Resurfaces(sys.s, bw, id) && CanRaise(sys.s, bw.shard, id)
      && var s' := ProcessHeartbeat(sys, f, false, now, bw, id).s;
         |s'.initialIDs| < |s'.index|
  {
    hide ProcessHeartbeat, Reachable, Remove;
    BeginningIsReachable(f);
    var sys1 := JoinsReachably(f, Beginning(), 0, 0);
    var sys := IsLostReachably(f, sys1, 0, f.LoseAfter() + 1);
    var id := sys1.s.current;
    Echoes(sys, f, Worker(0), id, now);
    var s' := ProcessHeartbeat(sys, f, false, now, Worker(0), id).s;
    assert s'.index == {(id.version, 0)} && s'.initialIDs == multiset{};
    assert Reachable(f, sys) && HeartbeatHonest(sys, Worker(0), id) && Resurfaces(sys.s, Worker(0), id)
           && CanRaise(sys.s, Worker(0).shard, id) && |s'.initialIDs| < |s'.index|;
  }

  // A worker is lost after its first echo, while a newer ID is on the way to it.  Its echo of that
  // ID fails the CHECK that its old entry is in the index.
  lemma LostAfterFirstEcho(f: Flags)
    ensures exists sys, bw, id ::
      Reachable(f, sys) && HeartbeatHonest(sys, bw, id) && Resurfaces(sys.s, bw, id) && !CanRaise(sys.s, bw.shard, id)
  {
    hide ProcessHeartbeat, Reachable, Remove;
    BeginningIsReachable(f);
    var sys1 := JoinsReachably(f, Beginning(), 0, 0);
    var sys2 := EchoesReachably(f, sys1, 0, sys1.s.current, 0);
    var sys3 := JoinsReachably(f, sys2, 1, 0);
    var sys4 := HearsReachably(f, sys3, 0, sys1.s.current, 0);
    var sys5 := IsLostReachably(f, sys4, 0, f.LoseAfter() + 1);
    var id := sys3.s.current;
    assert id in sys5.sent[0] && Indirect(sys5.s, 0) == sys1.s.current && id.version == sys1.s.current.version + 1;
    assert sys5.s.index == {};
    assert Reachable(f, sys5) && HeartbeatHonest(sys5, Worker(0), id) && Resurfaces(sys5.s, Worker(0), id)
           && !CanRaise(sys5.s, Worker(0).shard, id);
  }

  // What is known of a worker that has only sent its first heartbeats.
  predicate InLimbo(w: RemoteWorker, x: Shard) {
    && w.worker == Worker(x) && w.initialWorkerSetID == FOREIGN
    && w.workerSetID.None? && w.firstAssociatedWorkerSetID.None? && w.indirectWorkerSetID.None?
  }

  // Three workers joined.  Worker 1 echoed its first ID; workers 0 and 2 are in limbo, but a newer
  // ID is on the way to worker 0, whose time is up.
  ghost predicate ThreeJoined(f: Flags, sys: System, now: int, first: WorkerSetID, id: WorkerSetID) {
    && Reachable(f, sys) && sys.s.id == SCHEDULER == sys.s.current.schedulerID && sys.s.current.hash.numWorkers == 3
    && sys.s.pool.Keys == {0, 1, 2} == sys.sent.Keys && sys.s.index == {(first.version, 1)}
    && InLimbo(sys.s.pool[0], 0) && InLimbo(sys.s.pool[2], 2) && sys.s.pool[2].health.state.New?
    && sys.s.pool[0].health.state.New? && sys.s.pool[0].health.timeBecameUnhealthy + f.LoseAfter() < now
    && sys.s.pool[1].worker == Worker(1) && sys.s.pool[1].initialWorkerSetID == FOREIGN
    && sys.s.pool[1].health.state.New? && Waits(sys.s.pool[1], f, now)
    && sys.s.pool[1].workerSetID ==
      sys.s.pool[1].firstAssociatedWorkerSetID == sys.s.pool[1].indirectWorkerSetID == Some(first)
    && first in sys.sent[1] && id in sys.sent[0]
    && first.schedulerID == SCHEDULER == id.schedulerID && first.version < id.version == sys.s.current.version
  }

  lemma ThreeJoin(f: Flags) returns (sys: System, now: int, first: WorkerSetID, id: WorkerSetID)
    ensures ThreeJoined(f, sys, now, first, id)
  {
    hide ProcessHeartbeat, Reachable;
    now := f.LoseAfter() + 1;
    BeginningIsReachable(f);
    var sys1 := JoinsReachably(f, Beginning(), 0, 0);
    var sys2 := JoinsReachably(f, sys1, 1, 1);
    var sys3 := JoinsReachably(f, sys2, 2, 1);
    first, id := sys2.s.current, sys3.s.current;
    var sys4 := EchoesReachably(f, sys3, 1, first, 1);
    sys := HearsReachably(f, sys4, 0, FOREIGN, 1);
  }

  // With another worker in limbo, the echo of a lost worker makes up the numbers: a worker is
  // permitted to become healthy although a live worker does not know it.
  lemma FalseConsensus(f: Flags)
    ensures exists sys, now, bw, id, x ::
      && Reachable(f, sys) && HeartbeatHonest(sys, bw, id) && Resurfaces(sys.s, bw, id) && CanRaise(sys.s, bw.shard, id)
      && x in sys.s.pool && !ConsensusPermits(sys.s, x)
      && var s' := ProcessHeartbeat(sys, f, false, now, bw, id).s;
         x in s'.pool && ConsensusPermits(s', x) && !ProvablyInConsensus(s', x)
  {
    hide ProcessHeartbeat, Reachable, HeartbeatHonest, Resurfaces, CanRaise, ConsensusPermits, ProvablyInConsensus,
         Remove;
    var sys, now, first, id := ThreeJoin(f);
    var sys1 := IsLostReachably(f, sys, 0, now);
    var current := sys1.s.current;
    var sys2 := HearsReachably(f, sys1, 1, first, now);
    var sys3 := EchoesReachably(f, sys2, 1, current, now);
    Echoes(sys3, f, Worker(0), id, now);
    MadeUp(sys3, ProcessHeartbeat(sys3, f, false, now, Worker(0), id), first, id);
  }

  lemma MadeUp(sys: System, sys': System, first: WorkerSetID, id: WorkerSetID)
    requires sys.s.pool.Keys == {0, 1, 2} && SameHistory(sys, sys') && sys.s.current.hash.numWorkers == 2
    requires InLimbo(sys.s.pool[0], 0) && Lost(sys.s.pool[0]) && 0 in sys.sent && id in sys.sent[0]
    requires sys.s.id == SCHEDULER == id.schedulerID && first.version < id.version < sys.s.current.version
    requires InLimbo(sys.s.pool[2], 2) && !Lost(sys.s.pool[2])
    requires sys.s.pool[1].workerSetID == Some(sys.s.current) && sys.s.pool[1].firstAssociatedWorkerSetID == Some(first)
    requires sys.s.index == {(sys.s.current.version, 1)} && sys'.s.index == sys.s.index + {(id.version, 0)}
    requires sys'.s.pool.Keys == sys.s.pool.Keys && sys'.s.pool[1] == sys.s.pool[1] && sys'.s.pool[2] == sys.s.pool[2]
    ensures HeartbeatHonest(sys, Worker(0), id) && Resurfaces(sys.s, Worker(0), id) && CanRaise(sys.s, 0, id)
    ensures !ConsensusPermits(sys.s, 1) && ConsensusPermits(sys'.s, 1) && !ProvablyInConsensus(sys'.s, 1)
  {
    assert sys'.s.index == {(id.version, 0), (sys.s.current.version, 1)};
    assert 2 in Live(sys'.s) && !Indexed(sys'.s, 2);
  }
}

/**
 Whole runs of the scheduler's worker protocol: heartbeats, losses, replacements, echoes and the
 periodic passes, in any order.
 */
module Consensus {
  import opened Health
  import opened SetHash
  import opened WorkerSets
  import opened WorkerSetSteps
  import opened WorkerSetPasses

  // ---------------------------------------------------------------- a heartbeat

  // RemoteWorker::updateNewWorker: the current instance, if any is left, is lost and replaced.
  function Replace(sys: System, f: Flags, bw: BistroWorker, id: WorkerSetID, now: int): System
    requires bw.shard in sys.s.pool
  {
    var x := bw.shard;
    var sys1 := if Lost(sys.s.pool[x]) then sys else System(Lose(sys.s, x, now), sys.sent);
    var sys2 := Connected(sys1, bw, id, now);
    System(UpdateWorker(Heard(sys2.s, x, bw, now), f, x, now, false), sys2.sent)
  }

  // RemoteWorker::updateCurrentWorker
  function Continue(sys: System, f: Flags, bw: BistroWorker, id: WorkerSetID, now: int, consensus: bool): System
    requires bw.shard in sys.s.pool
  {
    var x := bw.shard;
    System(UpdateWorker(Echo(Heard(sys.s, x, bw, now), x, id), f, x, now, consensus), sys.sent)
  }

  // How processHeartbeat treats the sender.
  datatype Treatment = Reject | Bump | Keep

  function Treat(s: Scheduler, f: Flags, allowBump: bool, now: int, bw: BistroWorker): Treatment
    requires bw.shard in s.pool
  {
    var cur := s.pool[bw.shard].worker;
    if cur.machineLock != bw.machineLock then
      var state := NextState(s, f, bw.shard, now, ConsensusPermits(s, bw.shard));
      if state.MustDie? || (allowBump && !state.Healthy?) then Bump else Reject
    else if cur.id != bw.id then
      if cur.id.startTime > bw.id.startTime then Reject else Bump
    else Keep
  }

  // A first contact adds the worker to the pool and to its host's pool.
  function Admit(sys: System, bw: BistroWorker, id: WorkerSetID, now: int): System {
    var sys1 := Connected(sys, bw, id, now);
    var h := bw.machineLock.hostname;
    sys1.(s := sys1.s.(hosts := sys1.s.hosts[h := HostPool(sys1.s, h) + {bw.shard}]))
  }

  // RemoteWorkers::processHeartbeat for a worker in the pool.
  function Handle(sys: System, f: Flags, allowBump: bool, now: int, bw: BistroWorker, id: WorkerSetID): System
    requires bw.shard in sys.s.pool
  {
    var x := bw.shard;
    var treatment := Treat(sys.s, f, allowBump, now, bw);
    if treatment.Reject? then sys
    else
      var sys1 := if treatment.Bump? then Replace(sys, f, bw, id, now)
                  else Continue(sys, f, bw, id, now, ConsensusPermits(sys.s, x));
      var s2 := MoveHost(sys1.s, x, sys.s.pool[x].worker.machineLock.hostname);
      Sent(System(s2, sys1.sent), x)  // the reply carries the current worker set ID
  }

  function ProcessHeartbeat(sys: System, f: Flags, allowBump: bool, now: int, bw: BistroWorker,
                            id: WorkerSetID): System {
    if bw.shard in sys.s.pool then Handle(sys, f, allowBump, now, bw, id)
    else Handle(Admit(sys, bw, id, now), f, allowBump, now, bw, id)
  }

  // ---------------------------------------------------------------- a heartbeat keeps the invariant

  // The pool keeps its shards, host pools and descriptions, except that of the sender.
  predicate OnlySender(s: Scheduler, s': Scheduler, bw: BistroWorker) {
    && s'.hosts == s.hosts && s'.id == s.id && s'.pool.Keys == s.pool.Keys
    && bw.shard in s'.pool && s'.pool[bw.shard].worker == bw
    && forall y :: y in s.pool && y != bw.shard ==> s'.pool[y] == s.pool[y]
  }

  lemma ReplaceKeepsCore(sys: System, f: Flags, bw: BistroWorker, id: WorkerSetID, now: int)
    requires Core(sys) && bw.shard in sys.s.pool
    ensures Core(Replace(sys, f, bw, id, now))
  {
    hide HistoryOK, WorkersOK, IndexInStep, SummariesOK;
    var x := bw.shard;
    if !Lost(sys.s.pool[x]) {
      LoseKeepsCore(sys, x, now);
    }
    var sys1 := if Lost(sys.s.pool[x]) then sys else System(Lose(sys.s, x, now), sys.sent);
    ConnectKeepsCore(sys1, bw, id, now);
    var sys2 := Connected(sys1, bw, id, now);
    QuietKeepsCore(sys2, x, Heard(sys2.s, x, bw, now).pool[x]);
    UpdateWorkerKeepsCore(System(Heard(sys2.s, x, bw, now), sys2.sent), f, x, now, false);
  }

  lemma ReplaceOnlySender(sys: System, f: Flags, bw: BistroWorker, id: WorkerSetID, now: int)
    requires bw.shard in sys.s.pool
    ensures OnlySender(sys.s, Replace(sys, f, bw, id, now).s, bw)
  {
    hide UpdateWorker, Add, Remove;
    var x := bw.shard;
    var sys1 := if Lost(sys.s.pool[x]) then sys else System(Lose(sys.s, x, now), sys.sent);
    var sys2 := Connected(sys1, bw, id, now);
    UpdateOnly(Heard(sys2.s, x, bw, now), f, x, now, false);
  }

  lemma ContinueKeepsCore(sys: System, f: Flags, bw: BistroWorker, id: WorkerSetID, now: int, consensus: bool)
    requires Core(sys) && bw.shard in sys.s.pool && bw.id == sys.s.pool[bw.shard].worker.id
    requires EchoAllowed(sys, bw.shard, id)
    ensures Core(Continue(sys, f, bw, id, now, consensus))
  {
    hide HistoryOK, IndexInStep, SummariesOK;
    var x := bw.shard;
    var sys1 := System(Heard(sys.s, x, bw, now), sys.sent);
    assert sys.s.pool[x].worker.shard == x;
    QuietKeepsCore(sys, x, sys1.s.pool[x]);
    EchoKeepsCore(sys1, x, id);
    UpdateWorkerKeepsCore(System(Echo(sys1.s, x, id), sys1.sent), f, x, now, consensus);
  }

  lemma ContinueOnlySender(sys: System, f: Flags, bw: BistroWorker, id: WorkerSetID, now: int, consensus: bool)
    requires bw.shard in sys.s.pool
    ensures OnlySender(sys.s, Continue(sys, f, bw, id, now, consensus).s, bw)
  {
    hide Echo, UpdateWorker;
    var x := bw.shard;
    var s1 := Heard(sys.s, x, bw, now);
    EchoOnly(s1, x, id);
    UpdateOnly(Echo(s1, x, id), f, x, now, consensus);
  }

  // Only the record of x may change, and not its description.
  predicate OnlyRecord(s: Scheduler, s': Scheduler, x: Shard) {
    && s'.hosts == s.hosts && s'.id == s.id && s'.pool.Keys == s.pool.Keys
    && (forall y :: y in s.pool && y != x ==> s'.pool[y] == s.pool[y])
    && (x in s.pool ==> s'.pool[x].worker == s.pool[x].worker)
  }

  lemma EchoOnly(s: Scheduler, x: Shard, id: WorkerSetID)
    requires x in s.pool
    ensures OnlyRecord(s, Echo(s, x, id), x) && Echo(s, x, id).pool[x].health == s.pool[x].health
  {
    hide NewerEcho;
  }

  lemma UpdateOnly(s: Scheduler, f: Flags, x: Shard, now: int, consensus: bool)
    requires x in s.pool
    ensures OnlyRecord(s, UpdateWorker(s, f, x, now, consensus), x)
  {
    hide NextState;
  }

  // The update of one worker is one poll of its health.
  lemma UpdateIsPoll(s: Scheduler, f: Flags, x: Shard, now: int, consensus: bool)
    requires x in s.pool
    ensures
      var w, s' := s.pool[x], UpdateWorker(s, f, x, now, consensus);
      && x in s'.pool
      && s'.pool[x] == w.(health := SchedulerPoll(f, w.health, w.worker.heartbeatPeriodSec, now, consensus))
  {}

  lemma HostsDoNotMatter(sys: System, s': Scheduler)
    requires Core(sys) && s' == sys.s.(hosts := s'.hosts)
    ensures Core(System(s', sys.sent))
  {
    var s := sys.s;
    assert Live(s') == Live(s);
    HistoryFrame(s, s');
    SummariesFrame(s, s');
    IndexFrame(s, s');
    HostsDoNotMatterToWorkers(sys, s');
  }

  lemma HostsDoNotMatterToWorkers(sys: System, s': Scheduler)
    requires WorkersOK(sys) && s' == sys.s.(hosts := s'.hosts)
    ensures WorkersOK(System(s', sys.sent))
  {
    forall x | x in Live(s') ensures x in sys.sent && SentOK(s', x, sys.sent[x]) && IDsOK(s', x, sys.sent[x]) {
      assert x in Live(sys.s);
      SentHosts(sys.s, s', x, sys.sent[x]);
    }
    WorkersFrame(sys, s');
  }

  lemma SentHosts(s: Scheduler, s': Scheduler, x: Shard, sent: set<WorkerSetID>)
    requires s' == s.(hosts := s'.hosts) && x in s.pool && SentOK(s, x, sent)
    ensures SentOK(s', x, sent)
  {
    forall id | id in sent ensures MemberSince(s', x, id.version) {
      forall v | id.version <= v <= s'.current.version && s'.first <= v ensures x in Members(s', v) {
        assert MemberSince(s, x, id.version) && Members(s', v) == Members(s, v);
      }
    }
  }

  lemma MoveKeepsHosts(s: Scheduler, s1: Scheduler, bw: BistroWorker)
    requires HostsOK(s) && bw.shard in s.pool && OnlySender(s, s1, bw)
    ensures HostsOK(MoveHost(s1, bw.shard, s.pool[bw.shard].worker.machineLock.hostname))
  {
    hide MoveHost;
    var x, before, after := bw.shard, s.pool[bw.shard].worker.machineLock.hostname, bw.machineLock.hostname;
    var s2 := MoveHost(s1, x, before);
    forall h ensures HostPool(s2, h) == Moved(s, x, before, after, h) {
      MovedPools(s, s1, bw, h);
    }
    MoveIsHostsOnly(s1, x, before);
    MovedIsPartition(s, s2, bw);
  }

  lemma MovedIsPartition(s: Scheduler, s2: Scheduler, bw: BistroWorker)
    requires HostsOK(s) && bw.shard in s.pool && s2.pool.Keys == s.pool.Keys && s2.pool[bw.shard].worker == bw
    requires forall y :: y in s.pool && y != bw.shard ==> s2.pool[y] == s.pool[y]
    requires forall h ::
      HostPool(s2, h) == Moved(s, bw.shard, s.pool[bw.shard].worker.machineLock.hostname, bw.machineLock.hostname, h)
    ensures HostsOK(s2)
  {
    forall h, y | h in s2.hosts && y in s2.hosts[h]
      ensures y in s2.pool && s2.pool[y].worker.machineLock.hostname == h
    {
      assert y in HostPool(s2, h);
    }
  }

  // The pool of a host after x moved.
  function Moved(s: Scheduler, x: Shard, before: Host, after: Host, h: Host): set<Shard> {
    if h == after then HostPool(s, h) + {x} else if h == before then HostPool(s, h) - {x} else HostPool(s, h)
  }

  lemma MovedPools(s: Scheduler, s1: Scheduler, bw: BistroWorker, h: Host)
    requires HostsOK(s) && bw.shard in s.pool && OnlySender(s, s1, bw)
    ensures
      var before := s.pool[bw.shard].worker.machineLock.hostname;
      HostPool(MoveHost(s1, bw.shard, before), h) == Moved(s, bw.shard, before, bw.machineLock.hostname, h)
  {}

  lemma HostsAreKept(s: Scheduler, s': Scheduler)
    requires HostsOK(s) && s'.hosts == s.hosts && s'.pool.Keys == s.pool.Keys
    requires forall x :: x in s.pool ==> s'.pool[x].worker == s.pool[x].worker
    ensures HostsOK(s')
  {}

  // The heartbeat comes from the pooled instance.
  predicate SameInstance(s: Scheduler, bw: BistroWorker) {
    bw.shard in s.pool && s.pool[bw.shard].worker.machineLock == bw.machineLock && s.pool[bw.shard].worker.id == bw.id
  }

  // A first heartbeat, and that of any other instance, may carry any ID.
  ghost predicate HeartbeatHonest(sys: System, bw: BistroWorker, id: WorkerSetID) {
    SameInstance(sys.s, bw) ==> Honest(sys, bw.shard, id)
  }

  // ... and the CHECKs of the echo hold: see EchoCheckExactly.
  ghost predicate HeartbeatChecked(sys: System, bw: BistroWorker, id: WorkerSetID) {
    && HeartbeatHonest(sys, bw, id)
    && (SameInstance(sys.s, bw) && NewerEcho(sys.s, sys.s.pool[bw.shard], id) ==> CanRaise(sys.s, bw.shard, id))
  }

  // The heartbeats after which the run goes on.
  ghost predicate HeartbeatAllowed(sys: System, bw: BistroWorker, id: WorkerSetID) {
    SameInstance(sys.s, bw) ==> EchoAllowed(sys, bw.shard, id)
  }

  lemma KeepMeansSame(s: Scheduler, f: Flags, allowBump: bool, now: int, bw: BistroWorker)
    requires bw.shard in s.pool
    ensures Treat(s, f, allowBump, now, bw).Keep? <==> SameInstance(s, bw)
  {
    hide ConsensusPermits, NextState;
  }

  lemma HandleKeepsInv(sys: System, f: Flags, allowBump: bool, now: int, bw: BistroWorker, id: WorkerSetID)
    requires Inv(sys) && bw.shard in sys.s.pool && HeartbeatAllowed(sys, bw, id)
    ensures Inv(Handle(sys, f, allowBump, now, bw, id))
  {
    hide Core, HostsOK, Replace, Continue, ConsensusPermits, MoveHost, EchoAllowed, Treat;
    KeepMeansSame(sys.s, f, allowBump, now, bw);
    var x := bw.shard;
    var treatment := Treat(sys.s, f, allowBump, now, bw);
    if !treatment.Reject? {
      var sys1 := if treatment.Bump? then Replace(sys, f, bw, id, now)
                  else Continue(sys, f, bw, id, now, ConsensusPermits(sys.s, x));
      if treatment.Bump? {
        ReplaceKeepsCore(sys, f, bw, id, now);
        ReplaceOnlySender(sys, f, bw, id, now);
      } else {
        ContinueKeepsCore(sys, f, bw, id, now, ConsensusPermits(sys.s, x));
        ContinueOnlySender(sys, f, bw, id, now, ConsensusPermits(sys.s, x));
      }
      MoveKeepsHosts(sys.s, sys1.s, bw);
      var s2 := MoveHost(sys1.s, x, sys.s.pool[x].worker.machineLock.hostname);
      MoveIsHostsOnly(sys1.s, x, sys.s.pool[x].worker.machineLock.hostname);
      HostsDoNotMatter(sys1, s2);
      SendKeepsCore(System(s2, sys1.sent), x);
    }
  }

  lemma MoveIsHostsOnly(s: Scheduler, x: Shard, before: Host)
    requires x in s.pool
    ensures MoveHost(s, x, before) == s.(hosts := MoveHost(s, x, before).hosts)
  {}

  lemma AdmitKeepsInv(sys: System, bw: BistroWorker, id: WorkerSetID, now: int)
    requires Inv(sys) && bw.shard !in sys.s.pool
    ensures Inv(Admit(sys, bw, id, now))
    ensures HeartbeatAllowed(Admit(sys, bw, id, now), bw, id) && HeartbeatChecked(Admit(sys, bw, id, now), bw, id)
    ensures !Resurfaces(Admit(sys, bw, id, now).s, bw, id)
  {
    hide Core;
    assert bw.shard !in Live(sys.s);
    ConnectKeepsCore(sys, bw, id, now);
    HostsDoNotMatter(Connected(sys, bw, id, now), Admit(sys, bw, id, now).s);
  }

  // Every heartbeat keeps the invariant, and so do the source's CHECKs on the way.
  lemma HeartbeatKeepsInv(sys: System, f: Flags, allowBump: bool, now: int, bw: BistroWorker, id: WorkerSetID)
    requires Inv(sys) && HeartbeatAllowed(sys, bw, id)
    ensures Inv(ProcessHeartbeat(sys, f, allowBump, now, bw, id))
  {
    hide Inv, Handle, Admit, HeartbeatAllowed;
    if bw.shard in sys.s.pool {
      HandleKeepsInv(sys, f, allowBump, now, bw, id);
    } else {
      AdmitKeepsInv(sys, bw, id, now);
      AdmitAdds(sys, bw, id, now);
      HandleKeepsInv(Admit(sys, bw, id, now), f, allowBump, now, bw, id);
    }
  }

  lemma AdmitAdds(sys: System, bw: BistroWorker, id: WorkerSetID, now: int)
    ensures bw.shard in Admit(sys, bw, id, now).s.pool
  {}

  // The one kind of honest heartbeat that breaks the invariant: the pooled instance is lost,
  // and its echo reaches the index.
  predicate Resurfaces(s: Scheduler, bw: BistroWorker, id: WorkerSetID) {
    SameInstance(s, bw) && LostRaises(s, bw.shard, id)
  }

  lemma HeartbeatExactly(sys: System, f: Flags, allowBump: bool, now: int, bw: BistroWorker, id: WorkerSetID)
    requires Inv(sys) && HeartbeatHonest(sys, bw, id)
    ensures Inv(ProcessHeartbeat(sys, f, allowBump, now, bw, id)) <==> !Resurfaces(sys.s, bw, id)
  {
    hide HistoryOK, WorkersOK, SummariesOK, IndexInStep, HostsOK, ProcessHeartbeat, LostRaises, Honest;
    if Resurfaces(sys.s, bw, id) {
      ResurfacedIsIndexed(sys, f, allowBump, now, bw, id);
    } else {
      HeartbeatKeepsInv(sys, f, allowBump, now, bw, id);
    }
  }

  // The index of the live workers then holds a lost one.
  lemma ResurfacedIsIndexed(sys: System, f: Flags, allowBump: bool, now: int, bw: BistroWorker, id: WorkerSetID)
    requires Core(sys) && Resurfaces(sys.s, bw, id)
    ensures
      var s' := ProcessHeartbeat(sys, f, allowBump, now, bw, id).s;
      !IndexInStep(s') && (id.version, bw.shard) in s'.index && bw.shard !in Live(s') && Live(s') == Live(sys.s)
  {
    hide HistoryOK, WorkersOK, SummariesOK, IndexInStep, ConsensusPermits, MoveHost, Treat, NewerEcho;
    var x := bw.shard;
    KeepMeansSame(sys.s, f, allowBump, now, bw);
    var consensus := ConsensusPermits(sys.s, x);
    var s1 := Echo(Heard(sys.s, x, bw, now), x, id);
    HeardIsTheSame(sys.s, bw, id, now);
    assert Continue(sys, f, bw, id, now, consensus).s == s1;
    MoveIsHostsOnly(s1, x, sys.s.pool[x].worker.machineLock.hostname);
    var s' := ProcessHeartbeat(sys, f, allowBump, now, bw, id).s;
    assert Live(s') == Live(sys.s);
    IndexHoldsLost(s', x, id.version);
  }

  lemma HeardIsTheSame(s: Scheduler, bw: BistroWorker, id: WorkerSetID, now: int)
    requires bw.shard in s.pool
    ensures
      var s1 := Heard(s, bw.shard, bw, now);
      NewerEcho(s1, s1.pool[bw.shard], id) == NewerEcho(s, s.pool[bw.shard], id)
  {}

  lemma IndexHoldsLost(s: Scheduler, x: Shard, version: int)
    requires (version, x) in s.index && x !in Live(s)
    ensures !IndexInStep(s)
  {}
}

/** Each callback of the scheduler keeps the invariant that ties its summaries to its workers. */
module WorkerSetSteps {
  import opened Folds
  import opened Health
  import opened Options
  import opened SetHash
  import opened WorkerSets

  lemma {:induction false} ReplayFrame(h: map<int, HistoryStep>, h': map<int, HistoryStep>, first: int, version: int)
    requires forall v :: first <= v <= version ==> (v in h <==> v in h') && (v in h ==> h[v] == h'[v])
    ensures Replay(h, first, version) == Replay(h', first, version)
    decreases version - first
  {
    if first <= version {
      ReplayFrame(h, h', first, version - 1);
    }
  }

  // A new history step leaves every earlier worker set as it was.
  lemma HistoryGrows(s: Scheduler, s': Scheduler, step: HistoryStep)
    requires HistoryOK(s) && s'.first == s.first && s'.current.version == s.current.version + 1
    requires s'.history == s.history[s'.current.version := step]
    ensures forall v :: v <= s.current.version ==> Members(s', v) == Members(s, v)
    ensures Members(s', s'.current.version) == Apply(Live(s), step)
    ensures forall v :: v in s'.history <==> s'.first <= v <= s'.current.version
  {
    forall v | v <= s.current.version ensures Members(s', v) == Members(s, v) {
      ReplayFrame(s.history, s'.history, s.first, v);
    }
  }

  lemma HistoryGrowsOK(s: Scheduler, s': Scheduler, step: HistoryStep)
    requires HistoryOK(s) && s'.first == s.first && s'.current.version == s.current.version + 1
    requires s'.history == s.history[s'.current.version := step]
    requires StepFits(Live(s), step) && Live(s') == Apply(Live(s), step) && s.pool.Keys <= s'.pool.Keys
    ensures HistoryOK(s')
  {
    HistoryGrows(s, s', step);
    forall v | v in s'.history
      ensures StepFits(Members(s', v - 1), s'.history[v]) && Members(s', v) <= s'.pool.Keys
    {
      EachStepFits(s, s', step, v);
    }
  }

  lemma EachStepFits(s: Scheduler, s': Scheduler, step: HistoryStep, v: int)
    requires HistoryOK(s) && s'.first == s.first && s'.current.version == s.current.version + 1
    requires s'.history == s.history[s'.current.version := step] && v in s'.history
    requires StepFits(Live(s), step) && Live(s') == Apply(Live(s), step) && s.pool.Keys <= s'.pool.Keys
    ensures StepFits(Members(s', v - 1), s'.history[v]) && Members(s', v) <= s'.pool.Keys
  {
    ReplayFrame(s.history, s'.history, s.first, v - 1);
    if v <= s.current.version {
      ReplayFrame(s.history, s'.history, s.first, v);
      assert v in s.history;
    } else {
      assert Members(s', v) == Apply(Members(s', v - 1), step);
    }
  }

  // A worker that stays live stays a member.
  lemma StaysMember(s: Scheduler, s': Scheduler, step: HistoryStep, x: Shard, sent: set<WorkerSetID>)
    requires HistoryOK(s) && s'.first == s.first && s'.current.version == s.current.version + 1
    requires s'.history == s.history[s'.current.version := step] && s'.id == s.id
    requires x in Live(s) && x in Apply(Live(s), step) && x in s'.pool && s'.pool[x] == s.pool[x]
    requires SentOK(s, x, sent) && IDsOK(s, x, sent)
    ensures SentOK(s', x, sent) && IDsOK(s', x, sent)
  {
    HistoryGrows(s, s', step);
    forall id | id in sent ensures MemberSince(s', x, id.version) {
      forall v | id.version <= v <= s'.current.version && s'.first <= v ensures x in Members(s', v) {
        if v <= s.current.version {
          assert MemberSince(s, x, id.version);
        }
      }
    }
  }

  lemma InsertCommutes()
    ensures Commutes(Insert)
  {
    forall m, a, b ensures Insert(Insert(m, a), b) == Insert(Insert(m, b), a) {
      assert m + multiset{a} + multiset{b} == m + multiset{b} + multiset{a};
    }
  }

  // The initial IDs without one of the live workers.
  lemma InitialsWithout(s: Scheduler, x: Shard)
    requires x in Live(s)
    ensures Fold(Insert, multiset{}, Initials(s), Live(s))
            == Fold(Insert, multiset{}, Initials(s), Live(s) - {x}) + multiset{s.pool[x].initialWorkerSetID}
  {
    InsertCommutes();
    assert Live(s) == (Live(s) - {x}) + {x};
    FoldAdd(Insert, multiset{}, Initials(s), Live(s) - {x}, x);
  }

  // ---------------------------------------------------------------- Connect

  function Connected(sys: System, bw: BistroWorker, id: WorkerSetID, now: int): System {
    System(Connect(sys.s, bw, id, now), sys.sent[bw.shard := {}])
  }

  lemma ConnectKeepsSummaries(s: Scheduler, bw: BistroWorker, id: WorkerSetID, now: int)
    requires HistoryOK(s) && SummariesOK(s) && bw.shard !in Live(s)
    ensures Live(Connect(s, bw, id, now)) == Live(s) + {bw.shard}
    ensures SummariesOK(Connect(s, bw, id, now))
  {
    var x, s' := bw.shard, Connect(s, bw, id, now);
    assert Live(s') == Live(s) + {x};
    HashOfFrame(Instances(s), Instances(s'), Live(s));
    HashOfAdd(Instances(s'), Live(s), x);
    InsertCommutes();
    FoldFrame(Insert, multiset{}, Initials(s), Initials(s'), Live(s));
    FoldAdd(Insert, multiset{}, Initials(s'), Live(s), x);
  }

  lemma ConnectKeepsWorkers(sys: System, bw: BistroWorker, id: WorkerSetID, now: int)
    requires Core(sys) && bw.shard !in Live(sys.s)
    ensures WorkersOK(Connected(sys, bw, id, now))
  {
    hide HistoryOK, SummariesOK, IndexInStep, SentOK, IDsOK, LostOK, Add;
    var x, s, sys' := bw.shard, sys.s, Connected(sys, bw, id, now);
    var s' := sys'.s;
    forall y | y in Live(s') ensures y in sys'.sent && SentOK(s', y, sys'.sent[y]) && IDsOK(s', y, sys'.sent[y]) {
      if y != x {
        assert y in Live(s);
        StaysMember(s, s', HistoryStep(None, {x}), y, sys.sent[y]);
      } else {
        FreshIsOK(s', x);
      }
    }
    forall y | y in s'.pool && Lost(s'.pool[y]) ensures y in sys'.sent && LostOK(s', y, sys'.sent[y]) {
      LostFrame(s, s', y, sys.sent[y]);
    }
  }

  lemma FreshIsOK(s: Scheduler, x: Shard)
    requires x in s.pool && s.pool[x].workerSetID.None?
    requires s.pool[x].firstAssociatedWorkerSetID.None? && s.pool[x].indirectWorkerSetID.None?
    ensures SentOK(s, x, {}) && IDsOK(s, x, {})
  {}

  predicate SameIDs(w: RemoteWorker, w': RemoteWorker) {
    && w'.workerSetID == w.workerSetID && w'.firstAssociatedWorkerSetID == w.firstAssociatedWorkerSetID
    && w'.indirectWorkerSetID == w.indirectWorkerSetID
  }

  lemma LostFrame(s: Scheduler, s': Scheduler, y: Shard, sent: set<WorkerSetID>)
    requires y in s.pool && y in s'.pool && SameIDs(s.pool[y], s'.pool[y]) && LostOK(s, y, sent)
    requires s'.id == s.id && (s'.current == s.current || s.current.version < s'.current.version)
    ensures LostOK(s', y, sent)
  {}

  lemma ConnectKeepsCore(sys: System, bw: BistroWorker, id: WorkerSetID, now: int)
    requires Core(sys) && bw.shard !in Live(sys.s)
    ensures Core(Connected(sys, bw, id, now))
  {
    hide HistoryOK, WorkersOK, SummariesOK;
    var s, s' := sys.s, Connect(sys.s, bw, id, now);
    ConnectKeepsSummaries(s, bw, id, now);
    HistoryGrowsOK(s, s', HistoryStep(None, {bw.shard}));
    ConnectKeepsWorkers(sys, bw, id, now);
  }

  // ---------------------------------------------------------------- Lose

  // No CHECK of the dead-worker callback can fail for a live worker.
  lemma LiveCanBeLost(sys: System, x: Shard)
    requires Core(sys) && x in Live(sys.s)
    ensures CanLose(sys.s, x)
  {
    var s := sys.s;
    HashOfRemove(Instances(s), Live(s), x);
    InitialsWithout(s, x);
  }

  lemma LoseKeepsHash(s: Scheduler, x: Shard, now: int)
    requires CanLose(s, x) && x in Live(s) && s.current.hash == HashOf(Instances(s), Live(s))
    ensures Live(Lose(s, x, now)) == Live(s) - {x}
    ensures Lose(s, x, now).current.hash == HashOf(Instances(Lose(s, x, now)), Live(s) - {x})
  {
    var s' := Lose(s, x, now);
    HashOfRemove(Instances(s), Live(s), x);
    HashOfFrame(Instances(s), Instances(s'), Live(s) - {x});
  }

  lemma LoseKeepsSummaries(sys: System, x: Shard, now: int)
    requires Core(sys) && x in Live(sys.s)
    ensures CanLose(sys.s, x)
    ensures Live(Lose(sys.s, x, now)) == Live(sys.s) - {x}
    ensures SummariesOK(Lose(sys.s, x, now))
  {
    LiveCanBeLost(sys, x);
    var s, s' := sys.s, Lose(sys.s, x, now);
    LoseKeepsHash(s, x, now);
    InitialsWithout(s, x);
    InsertCommutes();
    FoldFrame(Insert, multiset{}, Initials(s), Initials(s'), Live(s) - {x});
  }

  lemma LoseKeepsWorkers(sys: System, x: Shard, now: int)
    requires Core(sys) && x in Live(sys.s)
    ensures CanLose(sys.s, x) && WorkersOK(System(Lose(sys.s, x, now), sys.sent))
  {
    hide HistoryOK, SummariesOK, IndexInStep, SentOK, IDsOK, LostOK, CanLose, Remove;
    LiveCanBeLost(sys, x);
    var s, s' := sys.s, Lose(sys.s, x, now);
    forall y | y in Live(s') ensures y in sys.sent && SentOK(s', y, sys.sent[y]) && IDsOK(s', y, sys.sent[y]) {
      StaysMember(s, s', HistoryStep(Some(x), {}), y, sys.sent[y]);
    }
    forall y | y in s'.pool && Lost(s'.pool[y]) ensures y in sys.sent && LostOK(s', y, sys.sent[y]) {
      if y == x {
        LiveIsLost(s, s', x, sys.sent[x]);
      } else {
        LostFrame(s, s', y, sys.sent[y]);
      }
    }
  }

  lemma LiveIsLost(s: Scheduler, s': Scheduler, x: Shard, sent: set<WorkerSetID>)
    requires x in s.pool && x in s'.pool && SameIDs(s.pool[x], s'.pool[x]) && SentOK(s, x, sent) && IDsOK(s, x, sent)
    requires s'.id == s.id && s.current.version < s'.current.version
    ensures LostOK(s', x, sent)
  {}

  lemma LoseKeepsIndex(sys: System, x: Shard, now: int)
    requires Core(sys) && x in Live(sys.s)
    ensures CanLose(sys.s, x) && IndexInStep(Lose(sys.s, x, now))
  {
    hide HistoryOK, SummariesOK, WorkersOK, CanLose, Remove;
    LiveCanBeLost(sys, x);
    var s, s' := sys.s, Lose(sys.s, x, now);
    forall e | e in s'.index ensures e.1 in Live(s') && Indexed(s', e.1) && Indirect(s', e.1).version == e.0 {
      assert e in s.index;
    }
    forall y | y in Live(s') && Indexed(s', y) ensures (Indirect(s', y).version, y) in s'.index {
      assert y in Live(s) && Indexed(s, y);
    }
  }

  lemma LoseKeepsCore(sys: System, x: Shard, now: int)
    requires Core(sys) && x in Live(sys.s)
    ensures CanLose(sys.s, x) && Core(System(Lose(sys.s, x, now), sys.sent))
  {
    LoseKeepsSummaries(sys, x, now);
    LoseKeepsWorkers(sys, x, now);
    LoseKeepsIndex(sys, x, now);
    HistoryGrowsOK(sys.s, Lose(sys.s, x, now), HistoryStep(Some(x), {}));
  }

  // ---------------------------------------------------------------- steps that leave the sets alone

  predicate SameForSets(w: RemoteWorker, w': RemoteWorker) {
    && w'.worker.id == w.worker.id && w'.worker.shard == w.worker.shard && Lost(w') == Lost(w)
    && w'.initialWorkerSetID == w.initialWorkerSetID && w'.workerSetID == w.workerSetID
    && w'.firstAssociatedWorkerSetID == w.firstAssociatedWorkerSetID && w'.indirectWorkerSetID == w.indirectWorkerSetID
  }

  lemma HistoryFrame(s: Scheduler, s': Scheduler)
    requires HistoryOK(s) && s'.history == s.history && s'.first == s.first && s'.current == s.current
    requires Live(s') == Live(s) && s'.pool.Keys == s.pool.Keys
    ensures HistoryOK(s')
  {
    forall v | v in s'.history ensures StepFits(Members(s', v - 1), s'.history[v]) && Members(s', v) <= s'.pool.Keys {
      assert Members(s', v - 1) == Members(s, v - 1) && Members(s', v) == Members(s, v);
    }
  }

  lemma SummariesFrame(s: Scheduler, s': Scheduler)
    requires SummariesOK(s) && s'.id == s.id && s'.current == s.current && s'.initialIDs == s.initialIDs
    requires Live(s') == Live(s) && s'.pool.Keys == s.pool.Keys
    requires forall x :: x in s.pool ==>
      s'.pool[x].worker.id == s.pool[x].worker.id && s'.pool[x].initialWorkerSetID == s.pool[x].initialWorkerSetID
    ensures SummariesOK(s')
  {
    assert Instances(s') == Instances(s) && Initials(s') == Initials(s);
  }

  lemma QuietKeepsWorkers(sys: System, x: Shard, w: RemoteWorker)
    requires WorkersOK(sys) && x in sys.s.pool && SameForSets(sys.s.pool[x], w)
    ensures WorkersOK(System(sys.s.(pool := sys.s.pool[x := w]), sys.sent))
  {
    hide SentOK, IDsOK, LostOK;
    var s, s' := sys.s, sys.s.(pool := sys.s.pool[x := w]);
    forall y | y in Live(s') ensures y in sys.sent && SentOK(s', y, sys.sent[y]) && IDsOK(s', y, sys.sent[y]) {
      assert y in Live(s);
      SentFrame(s, s', y, sys.sent[y]);
      IDsFrame(s, s', y, sys.sent[y]);
    }
    forall y | y in s'.pool && Lost(s'.pool[y]) ensures y in sys.sent && LostOK(s', y, sys.sent[y]) {
      LostFrame(s, s', y, sys.sent[y]);
    }
  }

  lemma QuietKeepsCore(sys: System, x: Shard, w: RemoteWorker)
    requires Core(sys) && x in sys.s.pool && SameForSets(sys.s.pool[x], w)
    ensures Core(System(sys.s.(pool := sys.s.pool[x := w]), sys.sent))
  {
    hide HistoryOK, SummariesOK, WorkersOK, IndexInStep;
    var s, s' := sys.s, sys.s.(pool := sys.s.pool[x := w]);
    assert Live(s') == Live(s);
    HistoryFrame(s, s');
    SummariesFrame(s, s');
    IndexFrame(s, s');
    QuietKeepsWorkers(sys, x, w);
  }

  lemma SentFrame(s: Scheduler, s': Scheduler, y: Shard, sent: set<WorkerSetID>)
    requires y in s.pool && y in s'.pool && s'.pool[y].workerSetID == s.pool[y].workerSetID
    requires s' == s.(pool := s'.pool, index := s'.index) && SentOK(s, y, sent)
    ensures SentOK(s', y, sent)
  {
    forall id | id in sent ensures MemberSince(s', y, id.version) {
      forall v | id.version <= v <= s'.current.version && s'.first <= v ensures y in Members(s', v) {
        assert MemberSince(s, y, id.version) && Members(s', v) == Members(s, v);
      }
    }
  }

  lemma IDsFrame(s: Scheduler, s': Scheduler, y: Shard, sent: set<WorkerSetID>)
    requires y in s.pool && y in s'.pool && SameIDs(s.pool[y], s'.pool[y]) && s'.first == s.first
      && s'.current == s.current
    requires IDsOK(s, y, sent)
    ensures IDsOK(s', y, sent)
  {}

  lemma IndexFrame(s: Scheduler, s': Scheduler)
    requires IndexInStep(s) && s'.index == s.index && Live(s') == Live(s) && s'.pool.Keys == s.pool.Keys
    requires forall y :: y in s.pool ==> s'.pool[y].indirectWorkerSetID == s.pool[y].indirectWorkerSetID
    ensures IndexInStep(s')
  {
    forall e | e in s'.index ensures e.1 in Live(s') && Indexed(s', e.1) && Indirect(s', e.1).version == e.0 {
      assert e in s.index;
    }
    forall y | y in Live(s') && Indexed(s', y) ensures (Indirect(s', y).version, y) in s'.index {
      assert y in Live(s) && Indexed(s, y);
    }
  }

  // ---------------------------------------------------------------- Echo

  // An instance echoes an ID that was sent to it since it was added, or one that is ignored.
  ghost predicate Honest(sys: System, x: Shard, id: WorkerSetID)
    requires x in sys.s.pool
  {
    StaleEcho(sys.s, sys.s.pool[x], id) || (x in sys.sent && id in sys.sent[x])
  }

  // A lost worker's echo reaches the index of the live workers.
  predicate LostRaises(s: Scheduler, x: Shard, id: WorkerSetID)
    requires x in s.pool
  {
    && Lost(s.pool[x]) && NewerEcho(s, s.pool[x], id)
    && !(Indexed(s, x) && id.version <= Indirect(s, x).version)
  }

  ghost predicate EchoAllowed(sys: System, x: Shard, id: WorkerSetID)
    requires x in sys.s.pool
  {
    Honest(sys, x, id) && !LostRaises(sys.s, x, id)
  }

  // When an echo reaches the index, a CHECK fails exactly for a lost worker that had an
  // indexed version and now echoes a newer one.
  lemma EchoCheckExactly(sys: System, x: Shard, id: WorkerSetID)
    requires Core(sys) && x in sys.s.pool
    ensures CanRaise(sys.s, x, id)
      <==> !(Lost(sys.s.pool[x]) && Indexed(sys.s, x) && Indirect(sys.s, x).version < id.version)
  {
    hide HistoryOK, SummariesOK, SentOK, IDsOK, LostOK;
    var s := sys.s;
    if Indexed(s, x) && (Indirect(s, x).version, x) in s.index {
      assert x in Live(s);
    }
    if (id.version, x) in s.index {
      assert Indexed(s, x) && Indirect(s, x).version == id.version;
    }
  }

  // With or without a failed CHECK, the index holds a lost worker afterwards exactly if the echo
  // of a lost worker reached it.
  lemma EchoIndexExactly(sys: System, x: Shard, id: WorkerSetID)
    requires Core(sys) && x in sys.s.pool
    ensures IndexInStep(Echo(sys.s, x, id)) <==> !LostRaises(sys.s, x, id)
  {
    hide HistoryOK, SummariesOK, WorkersOK, StaleEcho;
    var s, s' := sys.s, Echo(sys.s, x, id);
    if !Lost(s.pool[x]) {
      EchoCheckExactly(sys, x, id);
      if NewerEcho(s, s.pool[x], id) {
        EchoKeepsIndex(s, x, id);
      }
    } else if LostRaises(s, x, id) {
      assert (id.version, x) in s'.index && x !in Live(s');
    } else {
      LostEchoFrame(s, x, id);
      IndexFrame(s, s');
    }
  }

  lemma LostEchoFrame(s: Scheduler, x: Shard, id: WorkerSetID)
    requires x in s.pool && Lost(s.pool[x]) && !LostRaises(s, x, id)
    ensures
      var s' := Echo(s, x, id);
      && s' == s.(pool := s'.pool) && s'.pool.Keys == s.pool.Keys && Live(s') == Live(s)
      && (forall y :: y in s.pool && y != x ==> s'.pool[y] == s.pool[y])
      && s'.pool[x] == s.pool[x].(workerSetID := s'.pool[x].workerSetID,
                                  firstAssociatedWorkerSetID := s'.pool[x].firstAssociatedWorkerSetID)
      && (s' == s || (NewerEcho(s, s.pool[x], id) && s'.pool[x].workerSetID == Some(id) && Indexed(s, x)
                      && id.version <= Indirect(s, x).version))
      && (s.pool[x].firstAssociatedWorkerSetID.Some? ==>
            s'.pool[x].firstAssociatedWorkerSetID == s.pool[x].firstAssociatedWorkerSetID)
  {
    hide NewerEcho;
    var s' := Echo(s, x, id);
    assert Live(s') == Live(s);
  }

  // Echoing the version the scheduler already has carries the same ID (the source's CHECK).
  lemma EqualEchoIsEqual(sys: System, x: Shard, id: WorkerSetID)
    requires Core(sys) && x in sys.s.pool && Honest(sys, x, id) && !StaleEcho(sys.s, sys.s.pool[x], id)
    requires sys.s.pool[x].workerSetID.Some? && sys.s.pool[x].workerSetID.value.version == id.version
    ensures sys.s.pool[x].workerSetID.value == id
  {
    var s := sys.s;
    if Lost(s.pool[x]) {
      assert LostOK(s, x, sys.sent[x]);
    } else {
      assert x in Live(s);
      assert SentOK(s, x, sys.sent[x]) && IDsOK(s, x, sys.sent[x]);
    }
  }

  lemma RaiseKeepsIndex(s: Scheduler, x: Shard, id: WorkerSetID)
    requires IndexInStep(s) && x in Live(s) && CanRaise(s, x, id)
    ensures IndexInStep(RaiseIndirect(s, x, id)) && Live(RaiseIndirect(s, x, id)) == Live(s)
  {
    var s' := RaiseIndirect(s, x, id);
    assert Live(s') == Live(s);
    forall e | e in s'.index ensures e.1 in Live(s') && Indexed(s', e.1) && Indirect(s', e.1).version == e.0 {
      if e != (id.version, x) || s' == s {
        assert e in s.index;
      }
    }
    forall y | y in Live(s') && Indexed(s', y) ensures (Indirect(s', y).version, y) in s'.index {
      if y != x {
        assert Indexed(s, y);
      }
    }
  }

  // What an accepted echo changes.
  predicate Echoed(s: Scheduler, s': Scheduler, x: Shard, id: WorkerSetID)
    requires x in s.pool
  {
    && s' == s.(pool := s'.pool, index := s'.index)
    && x in s'.pool && s'.pool == s.pool[x := s'.pool[x]]
    && s'.pool[x].indirectWorkerSetID.Some?
    && s'.pool[x] == s.pool[x].(
         workerSetID := Some(id),
         firstAssociatedWorkerSetID :=
           if s.pool[x].firstAssociatedWorkerSetID.None? then Some(id) else s.pool[x].firstAssociatedWorkerSetID,
         indirectWorkerSetID := s'.pool[x].indirectWorkerSetID)
    && s'.pool[x].indirectWorkerSetID ==
         if Indexed(s, x) && !(Indirect(s, x).version < id.version) then s.pool[x].indirectWorkerSetID else Some(id)
  }

  lemma EchoKeepsIDs(sys: System, s': Scheduler, x: Shard, id: WorkerSetID)
    requires WorkersOK(sys) && x in Live(sys.s) && id in sys.sent[x] && Echoed(sys.s, s', x, id)
    requires NewerEcho(sys.s, sys.s.pool[x], id)
    ensures SentOK(s', x, sys.sent[x]) && IDsOK(s', x, sys.sent[x])
  {
    var s, sent := sys.s, sys.sent[x];
    assert SentOK(s, x, sent) && IDsOK(s, x, sent);
    forall o | o in sent ensures MemberSince(s', x, o.version) {
      forall v | o.version <= v <= s'.current.version && s'.first <= v ensures x in Members(s', v) {
        assert MemberSince(s, x, o.version) && Members(s', v) == Members(s, v);
      }
    }
  }

  lemma EchoKeepsWorkers(sys: System, s': Scheduler, x: Shard, id: WorkerSetID)
    requires WorkersOK(sys) && x in Live(sys.s) && id in sys.sent[x] && Echoed(sys.s, s', x, id)
    requires NewerEcho(sys.s, sys.s.pool[x], id)
    ensures WorkersOK(System(s', sys.sent))
  {
    hide SentOK, IDsOK, LostOK, NewerEcho, PoolOK;
    SentIsCurrent(sys, x, id);
    EchoKeepsPool(sys.s, s', x, id);
    forall y | y in Live(s') ensures y in sys.sent && SentOK(s', y, sys.sent[y]) && IDsOK(s', y, sys.sent[y]) {
      EchoKeepsEach(sys, s', x, id, y);
    }
    forall y | y in s'.pool && Lost(s'.pool[y]) ensures y in sys.sent && LostOK(s', y, sys.sent[y]) {
      LostFrame(sys.s, s', y, sys.sent[y]);
    }
  }

  lemma EchoKeepsPool(s: Scheduler, s': Scheduler, x: Shard, id: WorkerSetID)
    requires PoolOK(s) && x in s.pool && Echoed(s, s', x, id)
    requires id.schedulerID == s.id && id.version <= s.current.version
    ensures PoolOK(s')
  {}

  lemma SentIsCurrent(sys: System, x: Shard, id: WorkerSetID)
    requires WorkersOK(sys) && x in Live(sys.s) && id in sys.sent[x]
    ensures id.schedulerID == sys.s.id && id.version <= sys.s.current.version
  {
    assert SentOK(sys.s, x, sys.sent[x]);
  }

  lemma EchoKeepsEach(sys: System, s': Scheduler, x: Shard, id: WorkerSetID, y: Shard)
    requires WorkersOK(sys) && x in Live(sys.s) && id in sys.sent[x] && Echoed(sys.s, s', x, id)
    requires NewerEcho(sys.s, sys.s.pool[x], id) && y in Live(s')
    ensures y in sys.sent && SentOK(s', y, sys.sent[y]) && IDsOK(s', y, sys.sent[y])
  {
    if y == x {
      EchoKeepsIDs(sys, s', x, id);
    } else {
      assert y in Live(sys.s);
      SentFrame(sys.s, s', y, sys.sent[y]);
    }
  }

  lemma EchoKeepsIndex(s: Scheduler, x: Shard, id: WorkerSetID)
    requires IndexInStep(s) && x in Live(s) && CanRaise(s, x, id) && NewerEcho(s, s.pool[x], id)
    ensures Echoed(s, Echo(s, x, id), x, id) && IndexInStep(Echo(s, x, id)) && Live(Echo(s, x, id)) == Live(s)
  {
    var r, s' := RaiseIndirect(s, x, id), Echo(s, x, id);
    RaiseKeepsIndex(s, x, id);
    assert Live(s') == Live(r);
    IndexFrame(r, s');
  }

  lemma LostEchoKeepsWorkers(sys: System, x: Shard, id: WorkerSetID)
    requires WorkersOK(sys) && x in sys.s.pool && Lost(sys.s.pool[x]) && EchoAllowed(sys, x, id)
    ensures WorkersOK(System(Echo(sys.s, x, id), sys.sent))
  {
    hide IDsOK, SentOK, LostOK, NewerEcho, Echo, LostRaises;
    var s, s' := sys.s, Echo(sys.s, x, id);
    LostEchoFrame(s, x, id);
    forall y | y in Live(s') ensures y in sys.sent && SentOK(s', y, sys.sent[y]) && IDsOK(s', y, sys.sent[y]) {
      SentFrame(s, s', y, sys.sent[y]);
      IDsFrame(s, s', y, sys.sent[y]);
    }
    forall y | y in s'.pool && Lost(s'.pool[y]) ensures y in sys.sent && LostOK(s', y, sys.sent[y]) {
      if y == x {
        LostEchoKeepsIDs(sys, x, id);
      } else {
        LostFrame(s, s', y, sys.sent[y]);
      }
    }
  }

  lemma LostEchoKeepsIDs(sys: System, x: Shard, id: WorkerSetID)
    requires x in sys.s.pool && Lost(sys.s.pool[x]) && x in sys.sent && LostOK(sys.s, x, sys.sent[x])
      && EchoAllowed(sys, x, id)
    ensures x in Echo(sys.s, x, id).pool && LostOK(Echo(sys.s, x, id), x, sys.sent[x])
  {
    LostEchoFrame(sys.s, x, id);
  }

  lemma LiveEchoKeepsCore(sys: System, x: Shard, id: WorkerSetID)
    requires Core(sys) && x in Live(sys.s) && EchoAllowed(sys, x, id)
    ensures NewerEcho(sys.s, sys.s.pool[x], id) ==> CanRaise(sys.s, x, id)
    ensures Core(System(Echo(sys.s, x, id), sys.sent))
  {
    hide HistoryOK, SummariesOK, WorkersOK, IndexInStep, CanRaise;
    var s := sys.s;
    if NewerEcho(s, s.pool[x], id) {
      EchoCheckExactly(sys, x, id);
      EchoKeepsIndex(s, x, id);
      var s' := Echo(s, x, id);
      EchoKeepsWorkers(sys, s', x, id);
      HistoryFrame(s, s');
      SummariesFrame(s, s');
    }
  }

  lemma EchoKeepsCore(sys: System, x: Shard, id: WorkerSetID)
    requires Core(sys) && x in sys.s.pool && EchoAllowed(sys, x, id)
    ensures NewerEcho(sys.s, sys.s.pool[x], id) ==> CanRaise(sys.s, x, id)
    ensures Core(System(Echo(sys.s, x, id), sys.sent))
  {
    hide HistoryOK, WorkersOK, SummariesOK, IndexInStep, NewerEcho, CanRaise, Echo;
    var s, s' := sys.s, Echo(sys.s, x, id);
    if Lost(s.pool[x]) {
      EchoCheckExactly(sys, x, id);
      EchoIndexExactly(sys, x, id);
      LostEchoKeepsWorkers(sys, x, id);
      LostEchoFrame(s, x, id);
      HistoryFrame(s, s');
      SummariesFrame(s, s');
    } else {
      LiveEchoKeepsCore(sys, x, id);
    }
  }

  // An honest echo trips no CHECK and keeps the invariant, except exactly that of a lost worker
  // which reaches the index.
  lemma EchoKeepsExactly(sys: System, x: Shard, id: WorkerSetID)
    requires Core(sys) && x in sys.s.pool && Honest(sys, x, id)
    ensures (NewerEcho(sys.s, sys.s.pool[x], id) ==> CanRaise(sys.s, x, id))
      && Core(System(Echo(sys.s, x, id), sys.sent))
      <==> !LostRaises(sys.s, x, id)
  {
    hide HistoryOK, WorkersOK, SummariesOK, IndexInStep, NewerEcho, CanRaise, Echo, Honest, LostRaises;
    if LostRaises(sys.s, x, id) {
      EchoIndexExactly(sys, x, id);
    } else {
      EchoKeepsCore(sys, x, id);
    }
  }

  // ---------------------------------------------------------------- sending the current ID

  function Sent(sys: System, x: Shard): System {
    System(sys.s, sys.sent[x := (if x in sys.sent then sys.sent[x] else {}) + {sys.s.current}])
  }

  lemma MoreSent(s: Scheduler, x: Shard, sent: set<WorkerSetID>)
    requires HistoryOK(s) && s.current.schedulerID == s.id && x in Live(s) && SentOK(s, x, sent) && IDsOK(s, x, sent)
    ensures SentOK(s, x, sent + {s.current}) && IDsOK(s, x, sent + {s.current})
  {
    assert s.first <= s.current.version;
    assert MemberSince(s, x, s.current.version);
  }

  // The reply to a worker contains that worker exactly if it is live.
  lemma SendKeepsCore(sys: System, x: Shard)
    requires Core(sys) && x in sys.s.pool
    ensures x in Members(sys.s, sys.s.current.version) <==> x in Live(sys.s)
    ensures Core(Sent(sys, x))
  {
    hide SummariesOK, IndexInStep, SentOK, IDsOK, LostOK;
    SchedulerIsItself(sys.s);
    if x in Live(sys.s) {
      MoreSent(sys.s, x, sys.sent[x]);
    } else {
      MoreSentToLost(sys.s, x, sys.sent[x]);
    }
    SendKeepsWorkers(sys, x);
  }

  lemma MoreSentToLost(s: Scheduler, x: Shard, sent: set<WorkerSetID>)
    requires s.current.schedulerID == s.id && x in s.pool && LostOK(s, x, sent)
    ensures LostOK(s, x, sent + {s.current})
  {}

  lemma SchedulerIsItself(s: Scheduler)
    requires SummariesOK(s)
    ensures s.current.schedulerID == s.id
  {}

  lemma SendKeepsWorkers(sys: System, x: Shard)
    requires WorkersOK(sys) && x in sys.s.pool && x in sys.sent
    requires x in Live(sys.s) ==>
      SentOK(sys.s, x, sys.sent[x] + {sys.s.current}) && IDsOK(sys.s, x, sys.sent[x] + {sys.s.current})
    requires Lost(sys.s.pool[x]) ==> LostOK(sys.s, x, sys.sent[x] + {sys.s.current})
    ensures WorkersOK(Sent(sys, x))
  {
    hide SentOK, IDsOK, LostOK;
  }

  // ---------------------------------------------------------------- updateState

  lemma UpdateWorkerKeepsCore(sys: System, f: Flags, x: Shard, now: int, consensus: bool)
    requires Core(sys) && x in sys.s.pool
    ensures !Lost(sys.s.pool[x]) ==> CanLose(sys.s, x)
    ensures Core(System(UpdateWorker(sys.s, f, x, now, consensus), sys.sent))
  {
    hide HistoryOK, WorkersOK, SummariesOK, IndexInStep, CanLose, Lose, NextState;
    var s := sys.s;
    var w := s.pool[x];
    if !Lost(w) {
      assert x in Live(s);
      LoseKeepsCore(sys, x, now);
      var next := NextState(s, f, x, now, consensus);
      if !next.MustDie? {
        QuietKeepsCore(sys, x, w.(health := Advance(w.health, next, now)));
      }
    }
  }
}

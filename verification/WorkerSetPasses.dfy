/** The two periodic passes over the history: pruning it, and propagating indirect worker sets. */
module WorkerSetPasses {
  import opened Folds
  import opened SetHash
  import opened WorkerSets
  import opened WorkerSetSteps

  // ---------------------------------------------------------------- counting

  lemma {:induction false} InsertCounts(values: map<Shard, WorkerSetID>, keys: set<Shard>)
    requires keys <= values.Keys
    ensures |Fold(Insert, multiset{}, values, keys)| == |keys|
    decreases |keys|
  {
    if keys != {} {
      InsertCommutes();
      var k :| k in keys;
      InsertCounts(values, keys - {k});
      FoldAdd(Insert, multiset{}, values, keys - {k}, k);
      assert keys == (keys - {k}) + {k};
    }
  }

  lemma {:induction false} PairsCount(versions: map<Shard, int>, pairs: set<(int, Shard)>)
    requires forall e :: e in pairs ==> e.1 in versions && versions[e.1] == e.0
    requires forall x :: x in versions ==> (versions[x], x) in pairs
    ensures |pairs| == |versions|
    decreases |versions|
  {
    if versions == map[] {
      assert pairs == {};
    } else {
      var x :| x in versions;
      var versions' := versions - {x};
      var pairs' := pairs - {(versions[x], x)};
      assert versions'.Keys == versions.Keys - {x};
      PairsCount(versions', pairs');
    }
  }

  function IndexedVersions(s: Scheduler): map<Shard, int> {
    map x | x in Live(s) && Indexed(s, x) :: Indirect(s, x).version
  }

  // The sizes that the source compares: the index is as large as the live worker set exactly
  // when every live worker has echoed an ID.
  lemma IndexSizes(s: Scheduler)
    requires IndexInStep(s) && SummariesOK(s)
    ensures |s.initialIDs| == |Live(s)| == s.current.hash.numWorkers
    ensures |s.index| <= |Live(s)|
    ensures |s.index| == |Live(s)| <==> forall x :: x in Live(s) ==> Indexed(s, x)
  {
    InsertCounts(Initials(s), Live(s));
    HashOfCounts(Instances(s), Live(s));
    PairsCount(IndexedVersions(s), s.index);
    var keys := IndexedVersions(s).Keys;
    assert |s.index| == |keys| && keys <= Live(s);
    SubsetSize(keys, Live(s));
    if |keys| == |Live(s)| {
      forall x | x in Live(s) ensures Indexed(s, x) {
        assert x in keys;
      }
    } else {
      var x :| x in Live(s) && x !in keys;
      assert !Indexed(s, x);
    }
  }

  lemma SubsetSize<T>(a: set<T>, b: set<T>)
    requires a <= b
    ensures |a| <= |b|
    ensures |a| == |b| ==> a == b
    ensures |a| != |b| ==> exists x :: x in b && x !in a
  {
    assert b == a + (b - a);
    if |b - a| != 0 {
      var x :| x in b - a;
    }
  }

  // ---------------------------------------------------------------- pruning

  // Pruning preserves meaning: from the first kept version on, replay gives the same sets.
  lemma {:induction false} PrunedReplay(s: Scheduler, history: map<int, HistoryStep>, first: int, version: int)
    requires forall v :: v in s.history <==> s.first <= v <= s.current.version
    requires s.first <= first <= version <= s.current.version && MergedUpTo(s, history, first)
    ensures Replay(history, first, version) == Members(s, version)
    decreases version - first
  {
    assert version in history && version in s.history;
    if first < version {
      PrunedReplay(s, history, first, version - 1);
      assert history[version] == s.history[version];
    } else {
      assert Replay(history, first, version - 1) == {};
    }
  }

  // No version that a live worker refers to, or may still echo, is pruned.
  lemma PruneKeepsReferences(sys: System, s': Scheduler)
    requires Core(sys) && Pruned(sys.s, s')
    ensures sys.s.first <= s'.first <= sys.s.current.version + 1
    ensures forall x :: x in Live(s') && s'.pool[x].workerSetID.Some? ==>
      s'.first <= s'.pool[x].workerSetID.value.version
    ensures forall x, id :: x in Live(s') && s'.pool[x].workerSetID.None? && id in sys.sent[x] ==>
      s'.first <= id.version
    ensures !HasLimbo(sys.s) && Live(sys.s) != {} ==> s'.first <= sys.s.current.version
  {
    var s := sys.s;
    IndexSizes(s);
    if !HasLimbo(s) && Live(s) != {} {
      var x :| x in Live(s) && s.pool[x].workerSetID.Some? && s.pool[x].workerSetID.value.version == s'.first;
      assert IDsOK(s, x, sys.sent[x]);
      forall y | y in Live(s) ensures s.pool[y].workerSetID.Some? {
        assert IDsOK(s, y, sys.sent[y]) && Indexed(s, y);
      }
    }
    forall x, id | x in Live(s') && s'.pool[x].workerSetID.None? && id in sys.sent[x] ensures s'.first <= id.version {
      assert SentOK(s, x, sys.sent[x]) && IDsOK(s, x, sys.sent[x]);
    }
    forall x | x in Live(s') && s'.pool[x].workerSetID.Some? ensures s'.first <= s'.pool[x].workerSetID.value.version {
      assert IDsOK(s, x, sys.sent[x]);
    }
  }

  // A version is kept exactly as long as a live worker has not echoed any ID of this scheduler yet, or
  // has echoed none later than it.
  lemma PruneForgetsExactly(sys: System, s': Scheduler, v: int)
    requires Core(sys) && Pruned(sys.s, s') && v in sys.s.history
    ensures v in s'.history <==> exists x ::
      x in Live(sys.s) && (sys.s.pool[x].workerSetID.Some? ==> sys.s.pool[x].workerSetID.value.version <= v)
  {
    hide HistoryOK, Members;
    var s := sys.s;
    IndexSizes(s);
    if x :| x in Live(s) && !Indexed(s, x) {
      assert IDsOK(s, x, sys.sent[x]);
    } else {
      forall x | x in Live(s) ensures s.pool[x].workerSetID.Some? {
        assert IDsOK(s, x, sys.sent[x]);
      }
    }
  }

  lemma PruneKeepsHistory(s: Scheduler, s': Scheduler)
    requires HistoryOK(s) && Pruned(s, s') && s.first <= s'.first <= s.current.version + 1
    requires !HasLimbo(s) && Live(s) != {} ==> s'.first <= s.current.version
    ensures HistoryOK(s') && Live(s') == Live(s)
    ensures forall v :: s'.first <= v <= s.current.version ==> Members(s', v) == Members(s, v)
  {
    assert Live(s') == Live(s);
    if !HasLimbo(s) && Live(s) != {} {
      forall v | s'.first <= v <= s.current.version ensures Members(s', v) == Members(s, v) {
        PrunedReplay(s, s'.history, s'.first, v);
      }
      forall v | v in s'.history ensures StepFits(Members(s', v - 1), s'.history[v]) && Members(s', v) <= s'.pool.Keys {
        if v == s'.first {
          assert Members(s', v - 1) == {};
        }
      }
    }
  }

  lemma PruneKeepsSent(sys: System, s': Scheduler, x: Shard)
    requires Core(sys) && Pruned(sys.s, s') && x in Live(s')
    ensures x in sys.sent && SentOK(s', x, sys.sent[x]) && IDsOK(s', x, sys.sent[x])
  {
    hide Members, HistoryOK, SummariesOK, IndexInStep, LostOK, MergedUpTo, IsEarliestReference;
    var s := sys.s;
    PruneKeepsReferences(sys, s');
    PruneKeepsHistory(s, s');
    assert SentOK(s, x, sys.sent[x]) && IDsOK(s, x, sys.sent[x]);
    forall id | id in sys.sent[x] ensures MemberSince(s', x, id.version) {
      forall v | id.version <= v <= s'.current.version && s'.first <= v ensures x in Members(s', v) {
        assert MemberSince(s, x, id.version);
      }
    }
  }

  lemma WorkersFrame(sys: System, s': Scheduler)
    requires WorkersOK(sys) && s'.pool == sys.s.pool && s'.id == sys.s.id && s'.current == sys.s.current
    requires forall x :: x in Live(s') ==> x in sys.sent && SentOK(s', x, sys.sent[x]) && IDsOK(s', x, sys.sent[x])
    ensures WorkersOK(System(s', sys.sent))
  {
    hide SentOK, IDsOK, LostOK;
    forall y | y in s'.pool && Lost(s'.pool[y]) ensures y in sys.sent && LostOK(s', y, sys.sent[y]) {
      LostFrame(sys.s, s', y, sys.sent[y]);
    }
  }

  lemma PruneKeepsWorkers(sys: System, s': Scheduler)
    requires Core(sys) && Pruned(sys.s, s')
    ensures WorkersOK(System(s', sys.sent))
  {
    forall x | x in Live(s') ensures x in sys.sent && SentOK(s', x, sys.sent[x]) && IDsOK(s', x, sys.sent[x]) {
      PruneKeepsSent(sys, s', x);
    }
    WorkersFrame(sys, s');
  }

  lemma PruneKeepsCore(sys: System, s': Scheduler)
    requires Core(sys) && Pruned(sys.s, s')
    ensures Core(System(s', sys.sent))
    ensures forall v :: s'.first <= v <= s'.current.version ==> Members(s', v) == Members(sys.s, v)
  {
    var s := sys.s;
    PruneKeepsReferences(sys, s');
    PruneKeepsHistory(s, s');
    SummariesFrame(s, s');
    IndexFrame(s, s');
    PruneKeepsWorkers(sys, s');
  }

  // ---------------------------------------------------------------- propagation

  // Whatever a worker indirectly requires is a version of this scheduler, no later than the current.
  lemma RequiredIsKnown(sys: System, x: Shard, id: WorkerSetID)
    requires WorkersOK(sys) && Requires(sys.s, x, id)
    ensures id.schedulerID == sys.s.id && id.version <= sys.s.current.version
  {
    var chain :| IsChain(sys.s, chain) && chain[0] == x && Indirect(sys.s, chain[|chain| - 1]) == id;
    assert Indexed(sys.s, chain[|chain| - 1]);
  }

  lemma RaisedKeepsEach(s: Scheduler, s': Scheduler, x: Shard, sent: set<WorkerSetID>)
    requires s' == s.(pool := s'.pool, index := s'.index) && x in s.pool && x in s'.pool
    requires s'.pool[x] == s.pool[x].(indirectWorkerSetID := s'.pool[x].indirectWorkerSetID)
    requires
      if Indexed(s, x) then
        Indexed(s', x) && Indirect(s, x).version <= Indirect(s', x).version <= s.current.version
      else s'.pool[x] == s.pool[x]
    requires SentOK(s, x, sent) && IDsOK(s, x, sent)
    ensures SentOK(s', x, sent) && IDsOK(s', x, sent)
  {
    SentFrame(s, s', x, sent);
  }

  lemma PropagateKeepsEach(sys: System, s': Scheduler, x: Shard)
    requires WorkersOK(sys) && Propagated(sys.s, s') && x in Live(s')
    ensures x in sys.sent && SentOK(s', x, sys.sent[x]) && IDsOK(s', x, sys.sent[x])
  {
    var s := sys.s;
    assert x in Live(s);
    if Indexed(s, x) {
      RequiredIsKnown(sys, x, Indirect(s', x));
    }
    RaisedKeepsEach(s, s', x, sys.sent[x]);
  }

  lemma PropagateKeepsWorkers(sys: System, s': Scheduler)
    requires WorkersOK(sys) && Propagated(sys.s, s')
    ensures WorkersOK(System(s', sys.sent))
  {
    var s := sys.s;
    forall x | x in s'.pool && Indexed(s', x)
      ensures Indirect(s', x).schedulerID == s.id && Indirect(s', x).version <= s.current.version
    {
      if x in Live(s) && Indexed(s, x) {
        RequiredIsKnown(sys, x, Indirect(s', x));
      } else {
        assert s'.pool[x] == s.pool[x];
      }
    }
    forall x | x in Live(s') ensures x in sys.sent && SentOK(s', x, sys.sent[x]) && IDsOK(s', x, sys.sent[x]) {
      PropagateKeepsEach(sys, s', x);
    }
    forall x | x in s'.pool && Lost(s'.pool[x]) ensures x in sys.sent && LostOK(s', x, sys.sent[x]) {
      LostFrame(s, s', x, sys.sent[x]);
    }
  }

  lemma PropagateKeepsCore(sys: System, s': Scheduler)
    requires Core(sys) && Propagated(sys.s, s')
    ensures Core(System(s', sys.sent))
  {
    var s := sys.s;
    assert Live(s') == Live(s);
    HistoryFrame(s, s');
    SummariesFrame(s, s');
    PropagateKeepsWorkers(sys, s');
  }
}

/**
 RemoteWorkers as the object the scheduler updates in place (bistro/remote/RemoteWorkers.cpp).
 Asserts written as `// CHECK` are the source's CHECKs; versions are compared with the
 overflow-aware comparator, on the stored 64 bits.
 */
module WorkerPool {
  import opened Consensus
  import opened ConsensusRuns
  import opened Folds
  import opened Health
  import opened Options
  import opened Propagation
  import opened SetHash
  import opened Versions
  import opened WorkerSets
  import opened WorkerSetSteps
  import opened WorkerSetPasses

  // All versions lie in a window of 2^63 - 1 steps starting at base.
  predicate InWindow(base: int, v: int) {
    base <= v < base + TWO63
  }

  ghost predicate EntriesInWindow(base: int, entries: set<Entry>) {
    forall e :: e in entries ==> InWindow(base, e.0)
  }

  ghost predicate Window(base: int, s: Scheduler) {
    && InWindow(base, s.first) && InWindow(base, s.current.version)
    && EntriesInWindow(base, s.index)
    && (forall x :: x in s.pool ==>
          && (s.pool[x].initialWorkerSetID.schedulerID == s.id ==> InWindow(base, s.pool[x].initialWorkerSetID.version))
          && (s.pool[x].workerSetID.Some? ==> InWindow(base, s.pool[x].workerSetID.value.version))
          && (s.pool[x].firstAssociatedWorkerSetID.Some? ==>
            InWindow(base, s.pool[x].firstAssociatedWorkerSetID.value.version))
          && (s.pool[x].indirectWorkerSetID.Some? ==> InWindow(base, s.pool[x].indirectWorkerSetID.value.version)))
  }

  // VersionAndShardEarlierThan
  predicate EntryEarlierThan(a: Entry, b: Entry)
    requires Near(a.0, b.0)
    ensures EntryEarlierThan(a, b) <==> Before(a, b)
  {
    EarlierThan(a.0, b.0) || (a.0 == b.0 && a.1 < b.1)
  }

  // The first entry at or after which an iterator over the ordered set stands.
  method Begin(entries: set<Entry>, ghost base: int) returns (e: Option<Entry>)
    requires EntriesInWindow(base, entries)
    ensures e.None? <==> entries == {}
    ensures e.Some? ==> e.value in entries && forall o :: o in entries ==> !Before(o, e.value)
  {
    e := None;
    var rest := entries;
    while rest != {}
      invariant rest <= entries
      invariant e.None? ==> rest == entries
      invariant e.Some? ==> e.value in entries && forall o :: o in entries && o !in rest ==> !Before(o, e.value)
      decreases rest
    {
      var o :| o in rest;
      rest := rest - {o};
      if e.None? || EntryEarlierThan(o, e.value) {
        e := Some(o);
      }
    }
  }

  // ++it
  method Increment(entries: set<Entry>, it: Entry, ghost base: int) returns (e: Option<Entry>)
    requires EntriesInWindow(base, entries) && it in entries
    ensures IsSuccessor(entries, it, e)
  {
    e := None;
    var rest := entries;
    while rest != {}
      invariant rest <= entries
      invariant e.None? ==> forall o :: o in entries && o !in rest ==> !Before(it, o)
      invariant e.Some? ==>
        && e.value in entries && Before(it, e.value)
        && forall o :: o in entries && o !in rest && Before(it, o) ==> !Before(o, e.value)
      decreases rest
    {
      var o :| o in rest;
      rest := rest - {o};
      if EntryEarlierThan(it, o) && (e.None? || EntryEarlierThan(o, e.value)) {
        e := Some(o);
      }
    }
  }

  // *rbegin()
  method Last(entries: set<Entry>, ghost base: int) returns (e: Entry)
    requires EntriesInWindow(base, entries) && entries != {}
    ensures e in entries && forall o :: o in entries ==> !Before(e, o)
  {
    e :| e in entries;
    var rest := entries - {e};
    while rest != {}
      invariant rest <= entries && e in entries
      invariant forall o :: o in entries && o !in rest ==> !Before(e, o)
      decreases rest
    {
      var o :| o in rest;
      rest := rest - {o};
      if EntryEarlierThan(e, o) {
        e := o;
      }
    }
  }

  // The key of begin(), for a history ordered by the version comparator.
  method FirstKey(history: map<int, HistoryStep>, ghost base: int) returns (first: Option<int>)
    requires forall k :: k in history ==> InWindow(base, k)
    ensures first.None? ==> forall k :: k !in history
    ensures first.Some? ==> first.value in history && forall k :: k in history ==> first.value <= k
  {
    first := None;
    var rest := history.Items;
    while rest != {}
      invariant rest <= history.Items
      invariant first.None? ==> rest == history.Items
      invariant first.Some? ==>
        first.value in history && forall e :: e in history.Items && e !in rest ==> first.value <= e.0
      decreases rest
    {
      var item :| item in rest;
      rest := rest - {item};
      if first.None? || EarlierThan(item.0, first.value) {
        first := Some(item.0);
      }
    }
    forall k | k in history ensures first.Some? && first.value <= k {
      assert (k, history[k]) in history.Items;
    }
  }

  class RemoteWorkers {
    const schedulerID: InstanceID
    const startTime: int
    var inInitialWait: bool
    var workerPool: map<Shard, RemoteWorker>
    var hostToWorkerPool: map<Host, set<Shard>>
    var initialWorkerSetIDs: multiset<WorkerSetID>
    var indirectVersions: set<Entry>
    var nonMustDie: WorkerSetID
    var history: map<int, HistoryStep>
    ghost var first: int
    ghost var sent: map<Shard, set<WorkerSetID>>

    ghost function Abs(): Scheduler
      reads this
    {
      Scheduler(schedulerID, workerPool, hostToWorkerPool, initialWorkerSetIDs, indirectVersions, nonMustDie, history,
                first)
    }

    ghost function Sys(): System
      reads this
    {
      System(Abs(), sent)
    }

    ghost predicate Valid()
      reads this
    {
      Inv(Sys())
    }

    constructor (id: InstanceID, start: int, version: int)
      ensures Valid() && workerPool == map[] && inInitialWait && schedulerID == id && startTime == start
    {
      schedulerID, startTime, inInitialWait := id, start, true;
      workerPool, hostToWorkerPool := map[], map[];
      initialWorkerSetIDs, indirectVersions := multiset{}, {};
      nonMustDie, history, first := WorkerSetID(id, version, EMPTY), map[], version + 1;
      sent := map[];
      new;
      assert Live(Abs()) == {};
    }

    method ConsensusPermitsBecomingHealthy(x: Shard, ghost base: int) returns (permitted: bool)
      requires Valid() && Window(base, Abs()) && x in workerPool
      ensures permitted == ConsensusPermits(Abs(), x)
    {
      IndexSizes(Abs());
      assert nonMustDie.hash.numWorkers == |initialWorkerSetIDs|;  // CHECK
      assert |initialWorkerSetIDs| >= |indirectVersions|;  // CHECK
      var w := workerPool[x];
      if w.workerSetID != Some(nonMustDie) || |indirectVersions| != nonMustDie.hash.numWorkers
         || w.firstAssociatedWorkerSetID.None? {
        return false;
      }
      var smallest := Begin(indirectVersions, base);
      assert x in Live(Abs());
      assert smallest.Some?;  // the source dereferences begin()
      permitted := !EarlierThan(smallest.value.0, w.firstAssociatedWorkerSetID.value.version);
    }

    method UpdateIndirectWorkerSetVersion(x: Shard, id: WorkerSetID, ghost base: int)
      requires x in workerPool && CanRaise(Abs(), x, id) && InWindow(base, id.version) && id.schedulerID == schedulerID
      requires workerPool[x].indirectWorkerSetID.Some? ==>
        InWindow(base, workerPool[x].indirectWorkerSetID.value.version)
      modifies this`workerPool, this`indirectVersions
      ensures Abs() == RaiseIndirect(old(Abs()), x, id)
    {
      var maybe := workerPool[x].indirectWorkerSetID;
      assert maybe.None? || maybe.value.schedulerID == schedulerID;  // CHECK
      if maybe.Some? && !EarlierThan(maybe.value.version, id.version) {
        return;
      }
      if maybe.Some? {
        assert (maybe.value.version, x) in indirectVersions;  // CHECK
        indirectVersions := indirectVersions - {(maybe.value.version, x)};
      }
      assert (id.version, x) !in indirectVersions;  // CHECK
      indirectVersions := indirectVersions + {(id.version, x)};
      workerPool := workerPool[x := workerPool[x].(indirectWorkerSetID := Some(id))];
    }

    // ------------------------------------------------------------ pruning

    method EarliestReference(ghost base: int) returns (earliest: Option<int>)
      requires Window(base, Abs())
      ensures earliest.None? ==> forall x :: x in Live(Abs()) ==> workerPool[x].workerSetID.None?
      ensures earliest.Some? ==> IsEarliestReference(Abs(), earliest.value)
    {
      earliest := None;
      var rest := workerPool.Keys;
      while rest != {}
        invariant rest <= workerPool.Keys
        invariant earliest.None? ==>
          forall x :: x in Live(Abs()) && x !in rest ==> workerPool[x].workerSetID.None?
        invariant earliest.Some? ==>
          && (exists x :: x in Live(Abs()) && workerPool[x].workerSetID.Some?
                && workerPool[x].workerSetID.value.version == earliest.value)
          && (forall x :: x in Live(Abs()) && x !in rest && workerPool[x].workerSetID.Some? ==>
                earliest.value <= workerPool[x].workerSetID.value.version)
        decreases rest
      {
        var x :| x in rest;
        rest := rest - {x};
        if !Lost(workerPool[x]) && workerPool[x].workerSetID.Some? {  // which the source CHECKs again
          var version := workerPool[x].workerSetID.value.version;
          if earliest.None? || EarlierThan(version, earliest.value) {
            earliest := Some(version);
          }
        }
      }
    }

    // mergeHistoryStep: both CHECKs hold because the step fits.
    static method MergeHistoryStep(step: HistoryStep, added: set<Shard>) returns (merged: set<Shard>)
      requires StepFits(added, step)
      ensures merged == Apply(added, step)
    {
      merged := added;
      if step.removed.Some? {
        assert step.removed.value in merged;  // CHECK
        merged := merged - {step.removed.value};
      }
      assert step.added !! merged;  // CHECK
      merged := merged + step.added;
    }

    // Erases the versions before `reference` and puts their workers into that version.
    static method MergeUnused(history: map<int, HistoryStep>, reference: int, ghost s: Scheduler, ghost base: int)
        returns (merged: map<int, HistoryStep>)
      requires HistoryOK(s) && history == s.history && s.first <= reference <= s.current.version
      requires InWindow(base, s.first) && InWindow(base, s.current.version)
      ensures MergedUpTo(s, merged, reference)
    {
      hide HistoryOK, Members, MergedUpTo, IsTail, StepFits, Apply, EarlierThan;
      ghost var h := s.first;
      AllIsTail(s);
      merged := history;
      var added: set<Shard> := {};
      TailStarts(s, merged, h);
      var next := FirstKey(merged, base);
      var done := false;
      while next.Some? && !done
        invariant s.first <= h <= reference
        invariant !done ==> added == Members(s, h - 1) && IsTail(s, merged, h) && next == Some(h)
        invariant done ==> added == {} && MergedUpTo(s, merged, reference)
        decreases if done then 0 else 1, reference - h
      {
        var version := next.value;
        TailStarts(s, merged, h);
        added := MergeHistoryStep(merged[version], added);
        if EarlierThan(version, reference) {
          TailShrinks(s, merged, h);
          merged := merged - {version};
          h := h + 1;
          TailStarts(s, merged, h);
          next := FirstKey(merged, base);
        } else {
          assert version == reference;  // CHECK
          TailMerges(s, merged, h);
          merged := merged[version := HistoryStep(None, added)];
          added := {};
          done := true;
        }
      }
      assert added == {};  // CHECK
    }

    method PruneUnusedHistoryVersions(ghost base: int)
      requires Valid() && Window(base, Abs())
      modifies this`history, this`first
      ensures Valid() && Pruned(old(Abs()), Abs())
    {
      hide HistoryOK, WorkersOK, SummariesOK, IndexInStep, HostsOK, Window, IsEarliestReference, MergedUpTo;
      ghost var sys0 := Sys();
      IndexSizes(Abs());
      assert |initialWorkerSetIDs| >= |indirectVersions|;  // CHECK
      var limbo := |initialWorkerSetIDs| - |indirectVersions|;
      if limbo > 0 {
        return;
      }
      var earliest := EarliestReference(base);
      if earliest.None? {
        NoReferenceMeansEmpty(sys0);
        assert |initialWorkerSetIDs| == 0;  // CHECK
        history, first := map[], nonMustDie.version + 1;
      } else {
        ReferenceIsKept(sys0, earliest.value);
        assert InWindow(base, first) && InWindow(base, nonMustDie.version) by {
          WindowEnds(base, sys0.s);
        }
        history := MergeUnused(history, earliest.value, sys0.s, base);
        first := earliest.value;
      }
      PruneKeepsCore(sys0, Abs());
      HostsAreKept(sys0.s, Abs());
    }

    // ------------------------------------------------------------ propagation

    // Applies one history step to the versions of the members: remove, then add.
    method ApplyStep(step: HistoryStep, vss: set<Entry>, ghost members: set<Shard>) returns (vss': set<Entry>)
      requires VersionsOf(Abs(), members, vss) && OwnIDs(Abs()) && StepFits(members, step)
      requires Apply(members, step) <= workerPool.Keys && members <= workerPool.Keys
      ensures VersionsOf(Abs(), Apply(members, step), vss')
    {
      vss' := vss;
      ghost var now := members;
      if step.removed.Some? {
        var w := workerPool[step.removed.value];
        if w.indirectWorkerSetID.Some? {
          assert Indirect(Abs(), step.removed.value).schedulerID == schedulerID;  // CHECK
          assert (w.indirectWorkerSetID.value.version, step.removed.value) in vss';  // CHECK
          vss' := vss' - {(w.indirectWorkerSetID.value.version, step.removed.value)};
        }
        now := now - {step.removed.value};
      }
      var rest := step.added;
      while rest != {}
        invariant rest <= step.added && now !! rest && now + rest == Apply(members, step)
        invariant VersionsOf(Abs(), now, vss')
        decreases rest
      {
        var x :| x in rest;
        rest := rest - {x};
        if workerPool[x].indirectWorkerSetID.Some? {
          var e := (workerPool[x].indirectWorkerSetID.value.version, x);
          assert Indirect(Abs(), x).schedulerID == schedulerID;  // CHECK
          assert e !in vss';  // CHECK
          vss' := vss' + {e};
        }
        now := now + {x};
      }
    }

    // One turn of the inner loop: the iterator moves on, then its old entry is raised.
    method Turn(ghost sys0: System, it: Entry, vss: set<Entry>, ghost base: int)
        returns (next: Option<Entry>, vss': set<Entry>)
      requires Walking(sys0, Abs(), Some(it), it.0, vss) && Window(base, Abs())
      modifies this`workerPool, this`indirectVersions
      ensures Walking(sys0, Abs(), next, it.0, vss') && Window(base, Abs())
      ensures Pending(indirectVersions, next, it.0) < Pending(old(indirectVersions), Some(it), it.0)
      ensures next.Some? ==> it.0 <= next.value.0
    {
      ghost var s := Abs();
      VersionsInWindow(sys0, s, it, vss, base);
      assert vss != {};  // CHECK
      next := Increment(indirectVersions, it, base);
      var last := Last(vss, base);
      AtCursor(sys0, s, it, vss, last);
      TurnWalks(sys0, s, it, vss, last, next);
      var newID := workerPool[last.1].indirectWorkerSetID;
      assert newID.Some? && last.0 == newID.value.version;  // CHECK
      assert Indirect(s, last.1).schedulerID == schedulerID;  // CHECK
      assert workerPool[it.1].indirectWorkerSetID.value.version == it.0;  // CHECK
      assert workerPool[it.1].worker.shard == it.1;  // CHECK
      vss' := vss;
      if it in vss' {
        vss' := vss' - {it};
        assert (newID.value.version, it.1) !in vss';  // CHECK
        vss' := vss' + {(newID.value.version, it.1)};
      }
      hide Walking, Window;
      UpdateIndirectWorkerSetVersion(it.1, newID.value, base);
      assert newID.value.version == workerPool[it.1].indirectWorkerSetID.value.version;  // CHECK
      WindowAfterRaise(base, s, it.1, newID.value);
      PendingShrinks(s.index, it, next, (Indirect(Abs(), it.1).version, it.1));
    }

    // Raises every worker whose indirect version is `version`, starting at the cursor.
    method RaiseAt(ghost sys0: System, version: int, cursor: Option<Entry>, vss: set<Entry>, ghost base: int)
        returns (cursor': Option<Entry>, vss': set<Entry>)
      requires Walking(sys0, Abs(), cursor, version, vss) && Window(base, Abs()) && InWindow(base, version)
      requires cursor.Some? ==> version <= cursor.value.0
      modifies this`workerPool, this`indirectVersions
      ensures Walking(sys0, Abs(), cursor', version, vss') && Window(base, Abs())
      ensures cursor'.Some? ==> version < cursor'.value.0
    {
      hide Window, Walking;
      cursor', vss' := cursor, vss;
      CursorInWindow(base, sys0, Abs(), cursor', version, vss');
      while cursor'.Some? && !EarlierThan(version, cursor'.value.0)
        invariant Walking(sys0, Abs(), cursor', version, vss') && Window(base, Abs())
        invariant cursor'.Some? ==> version <= cursor'.value.0 && InWindow(base, cursor'.value.0)
        decreases Pending(indirectVersions, cursor', version)
      {
        assert version == cursor'.value.0;  // CHECK
        cursor', vss' := Turn(sys0, cursor'.value, vss', base);
        CursorInWindow(base, sys0, Abs(), cursor', version, vss');
      }
    }

    // One turn of the outer loop.
    method WalkVersion(ghost sys0: System, version: int, cursor: Entry, vss: set<Entry>, ghost base: int)
        returns (cursor': Option<Entry>, vss': set<Entry>)
      requires Walking(sys0, Abs(), Some(cursor), version - 1, vss) && Window(base, Abs()) && InWindow(base, version)
      requires version in history && history == sys0.s.history && version <= cursor.0
      modifies this`workerPool, this`indirectVersions
      ensures Walking(sys0, Abs(), cursor', version, vss') && Window(base, Abs())
      ensures cursor'.Some? ==> version < cursor'.value.0
    {
      hide Window, Walking, Members, StepFits, Apply, VersionsOf;
      CursorInWindow(base, sys0, Abs(), Some(cursor), version - 1, vss);
      assert !EarlierThan(cursor.0, version);  // CHECK
      StepApplies(sys0, Abs(), Some(cursor), version, vss);
      vss' := ApplyStep(history[version], vss, Members(sys0.s, version - 1));
      StepWalks(sys0, Abs(), Some(cursor), version, vss, vss');
      cursor', vss' := RaiseAt(sys0, version, Some(cursor), vss', base);
    }

    method PropagateIndirectWorkerSets(ghost base: int)
      requires Valid() && Window(base, Abs())
      modifies this`workerPool, this`indirectVersions
      ensures Valid() && Propagated(old(Abs()), Abs()) && Window(base, Abs())
    {
      hide Window, Walking, Inv, Core, HostsOK, Members, StepFits, Apply, Propagated, VersionsOf, EarlierThan;
      ghost var sys0, s0 := Sys(), Abs();
      PassBounds(sys0, base);
      var cursor := Begin(indirectVersions, base);
      var vss: set<Entry> := {};
      var todo := history;
      ghost var h := first;
      WalkStarts(sys0, cursor);
      var next := FirstKey(todo, base);
      assert h in todo <==> h <= s0.current.version;
      while next.Some? && cursor.Some?
        invariant Walking(sys0, Abs(), cursor, h - 1, vss) && Window(base, Abs())
        invariant s0.first <= h <= s0.current.version + 1
        invariant forall v :: v in todo <==> h <= v <= s0.current.version
        invariant next == (if h <= s0.current.version then Some(h) else None)
        invariant cursor.Some? ==> h <= cursor.value.0
        decreases s0.current.version - h
      {
        var version := next.value;
        todo := todo - {version};
        cursor, vss := WalkVersion(sys0, version, cursor.value, vss, base);
        h := h + 1;
        next := FirstKey(todo, base);
        assert h in todo <==> h <= s0.current.version;
      }
      CursorEnds(sys0, Abs(), cursor, h, vss);
      assert cursor.None?;  // CHECK
      WalkEnds(sys0, Abs(), h - 1, vss);
    }

    // ------------------------------------------------------------ heartbeats

    // RemoteWorker's constructor and the new-worker callback it runs.
    method NewWorker(bw: BistroWorker, id: WorkerSetID, now: int)
      requires nonMustDie.version + 1 !in history
      modifies this`workerPool, this`initialWorkerSetIDs, this`nonMustDie, this`history
      ensures Abs() == Connect(old(Abs()), bw, id, now)
    {
      var w := Fresh(bw, id, now);
      assert w.workerSetID.None? && w.indirectWorkerSetID.None? && w.firstAssociatedWorkerSetID.None?;  // CHECK
      initialWorkerSetIDs := initialWorkerSetIDs + multiset{w.initialWorkerSetID};
      nonMustDie := nonMustDie.(hash := Add(nonMustDie.hash, bw.id));
      nonMustDie := nonMustDie.(version := nonMustDie.version + 1);
      assert nonMustDie.version !in history;  // CHECK
      history := history[nonMustDie.version := HistoryStep(None, {bw.shard})];
      workerPool := workerPool[bw.shard := w];
    }

    // The dead-worker callback, then the state change.
    method LoseWorker(x: Shard, now: int)
      requires CanLose(Abs(), x)
      modifies this`workerPool, this`initialWorkerSetIDs, this`indirectVersions, this`nonMustDie, this`history
      ensures Abs() == Lose(old(Abs()), x, now)
    {
      hide Remove, Advance;
      var w := workerPool[x];
      assert w.initialWorkerSetID in initialWorkerSetIDs;  // CHECK
      initialWorkerSetIDs := initialWorkerSetIDs - multiset{w.initialWorkerSetID};
      if w.indirectWorkerSetID.Some? {
        assert w.indirectWorkerSetID.value.schedulerID == schedulerID;  // CHECK
        assert (w.indirectWorkerSetID.value.version, x) in indirectVersions;  // CHECK
        indirectVersions := indirectVersions - {(w.indirectWorkerSetID.value.version, x)};
      }
      assert 0 < nonMustDie.hash.numWorkers;  // CHECK
      nonMustDie := nonMustDie.(hash := Remove(nonMustDie.hash, w.worker.id));
      nonMustDie := nonMustDie.(version := nonMustDie.version + 1);
      assert nonMustDie.version !in history;  // CHECK
      history := history[nonMustDie.version := HistoryStep(Some(x), {})];
      workerPool := workerPool[x := w.(health := Advance(w.health, MustDie, now))];
    }

    // RemoteWorker::updateState; `isNew` says whether it asks for the worker's running tasks.
    method UpdateWorkerState(f: Flags, x: Shard, now: int, consensus: bool) returns (isNew: bool)
      requires x in workerPool && (x in Live(Abs()) ==> CanLose(Abs(), x))
      modifies this`workerPool, this`initialWorkerSetIDs, this`indirectVersions, this`nonMustDie, this`history
      ensures Abs() == UpdateWorker(old(Abs()), f, x, now, consensus)
      ensures x in workerPool && (isNew <==> workerPool[x].health.state.New?)
      ensures
        var w := old(workerPool[x]);
        workerPool[x] == w.(health := SchedulerPoll(f, w.health, w.worker.heartbeatPeriodSec, now, consensus))
    {
      UpdateIsPoll(Abs(), f, x, now, consensus);
      var w := workerPool[x];
      if w.health.state.MustDie? {
        return false;
      }
      var next := SchedulerState(f, w.health, w.worker.heartbeatPeriodSec, now, consensus).0;
      isNew := next.New?;
      if next.MustDie? {
        LoseWorker(x, now);
        return;
      }
      workerPool := workerPool[x := w.(health := Advance(w.health, next, now))];
    }

    // The worker set ID part of updateCurrentWorker.
    method EchoWorkerSetID(x: Shard, id: WorkerSetID, ghost base: int)
      requires Core(Sys()) && x in workerPool && Honest(Sys(), x, id)
      requires NewerEcho(Abs(), workerPool[x], id) ==> CanRaise(Abs(), x, id)
      requires Window(base, Abs()) && (id.schedulerID == schedulerID ==> InWindow(base, id.version))
      modifies this`workerPool, this`indirectVersions
      ensures Abs() == Echo(old(Abs()), x, id)
    {
      hide Core, EarlierThan, Window, Honest, CanRaise;
      var w := workerPool[x];
      SetTogether(Sys(), x);
      RecordInWindow(base, Abs(), x);
      if id.schedulerID != schedulerID
         || (id.schedulerID == w.initialWorkerSetID.schedulerID
           && !EarlierThan(w.initialWorkerSetID.version, id.version)) {
      } else if w.workerSetID.None? || EarlierThan(w.workerSetID.value.version, id.version) {
        assert id.schedulerID == schedulerID;  // CHECK
        UpdateIndirectWorkerSetVersion(x, id, base);
        w := workerPool[x];
        if w.firstAssociatedWorkerSetID.None? {
          assert w.workerSetID.None?;  // CHECK
          assert w.initialWorkerSetID != id;  // CHECK
          w := w.(firstAssociatedWorkerSetID := Some(id));
        }
        workerPool := workerPool[x := w.(workerSetID := Some(id))];
      } else if w.workerSetID.value.version == id.version {
        EqualEchoIsEqual(Sys(), x, id);
        assert w.workerSetID.value == id;  // CHECK
      }
    }

    // RemoteWorker::updateNewWorker
    method UpdateNewWorker(f: Flags, bw: BistroWorker, id: WorkerSetID, now: int)
      requires Core(Sys()) && bw.shard in workerPool
      modifies this`workerPool, this`initialWorkerSetIDs, this`indirectVersions, this`nonMustDie, this`history
      modifies this`sent
      ensures Sys() == Replace(old(Sys()), f, bw, id, now)
    {
      hide Core, Lose, Connect, UpdateWorker, CanLose;
      ghost var sys0 := Sys();
      var x := bw.shard;
      if !workerPool[x].health.state.MustDie? {
        LiveCanBeLost(Sys(), x);
        LoseKeepsCore(Sys(), x, now);
        LoseWorker(x, now);
      }
      ghost var sys1 := Sys();
      NextVersionIsFree(sys1);
      LostAfterLose(sys0, x, now);
      ConnectKeepsCore(sys1, bw, id, now);
      NewWorker(bw, id, now);
      sent := Connected(sys1, bw, id, now).sent;
      ghost var sys2 := Sys();
      assert sys2 == Connected(sys1, bw, id, now);
      ConnectAdds(sys1, bw, id, now);
      workerPool := workerPool[x := workerPool[x].(health := workerPool[x].health.(timeLastHeartbeatReceived := now))];
      HeardOwn(sys2, bw, now);
      QuietKeepsCore(sys2, x, workerPool[x]);
      if x in Live(Abs()) {
        LiveCanBeLost(Sys(), x);
      }
      var isNew := UpdateWorkerState(f, x, now, false);
    }

    // RemoteWorker::updateCurrentWorker
    method UpdateCurrentWorker(f: Flags, bw: BistroWorker, id: WorkerSetID, now: int, consensus: bool, ghost base: int)
      requires Core(Sys()) && bw.shard in workerPool && bw.id == workerPool[bw.shard].worker.id
      requires Honest(Sys(), bw.shard, id)
      requires NewerEcho(Abs(), workerPool[bw.shard], id) ==> CanRaise(Abs(), bw.shard, id)
      requires Window(base, Abs()) && (id.schedulerID == schedulerID ==> InWindow(base, id.version))
      modifies this`workerPool, this`initialWorkerSetIDs, this`indirectVersions, this`nonMustDie, this`history
      ensures Sys() == Continue(old(Sys()), f, bw, id, now, consensus)
    {
      hide Core, Echo, UpdateWorker, CanLose, Honest, Window, NewerEcho, CanRaise;
      ghost var sys0 := Sys();
      var x := bw.shard;
      var w := workerPool[x];
      workerPool := workerPool[x := w.(worker := bw, health := w.health.(timeLastHeartbeatReceived := now))];
      HeardKeeps(sys0, base, bw, id, now);
      ghost var sys1 := Sys();
      EchoWorkerSetID(x, id, base);
      EchoOnly(sys1.s, x, id);
      if x in Live(Abs()) {
        EchoKeepsCore(sys1, x, id);
        LiveCanBeLost(Sys(), x);
      }
      var isNew := UpdateWorkerState(f, x, now, consensus);
    }

    // RemoteWorker::processHeartbeat: how the sender's heartbeat is treated.
    method Classify(f: Flags, allowBump: bool, now: int, bw: BistroWorker, consensus: bool)
        returns (treatment: Treatment)
      requires bw.shard in workerPool && consensus == ConsensusPermits(Abs(), bw.shard)
      ensures treatment == Treat(Abs(), f, allowBump, now, bw)
    {
      hide ConsensusPermits, ComputeState;
      var cur := workerPool[bw.shard];
      if cur.worker.machineLock != bw.machineLock {
        var state := SchedulerState(f, cur.health, cur.worker.heartbeatPeriodSec, now, consensus).0;
        if state.MustDie? {
          return Bump;
        } else if allowBump && !state.Healthy? {
          return Bump;
        } else {
          return Reject;
        }
      } else if cur.worker.id != bw.id {
        return if cur.worker.id.startTime > bw.id.startTime then Reject else Bump;
      } else {
        return Keep;
      }
    }

    method MoveBetweenHosts(x: Shard, before: Host)
      requires x in workerPool && x in HostPool(Abs(), before)
      requires workerPool[x].worker.machineLock.hostname != before ==>
        x !in HostPool(Abs(), workerPool[x].worker.machineLock.hostname)
      modifies this`hostToWorkerPool
      ensures Abs() == MoveHost(old(Abs()), x, before)
    {
      var after := workerPool[x].worker.machineLock.hostname;
      if after != before {
        var pool := if before in hostToWorkerPool then hostToWorkerPool[before] else {};
        assert x in pool;  // CHECK
        hostToWorkerPool := hostToWorkerPool[before := pool - {x}];
        pool := if after in hostToWorkerPool then hostToWorkerPool[after] else {};
        assert x !in pool;  // CHECK
        hostToWorkerPool := hostToWorkerPool[after := pool + {x}];
      }
    }

    // The heartbeat of a pooled shard.  The reply carries the current worker set ID.
    method HandleHeartbeat(f: Flags, allowBump: bool, now: int, bw: BistroWorker, id: WorkerSetID, ghost base: int)
        returns (reply: Option<WorkerSetID>)
      requires Valid() && bw.shard in workerPool && HeartbeatChecked(Sys(), bw, id)
      requires Window(base, Abs()) && (id.schedulerID == schedulerID ==> InWindow(base, id.version))
      modifies this
      ensures Sys() == Handle(old(Sys()), f, allowBump, now, bw, id) && inInitialWait == old(inInitialWait)
      ensures reply == if Treat(old(Abs()), f, allowBump, now, bw).Reject? then None else Some(nonMustDie)
    {
      hide Core, HostsOK, Honest, NewerEcho, CanRaise, Window, Replace, Continue, ConsensusPermits, MoveHost, Treat;
      ghost var sys0 := Sys();
      var x := bw.shard;
      var before := workerPool[x].worker.machineLock.hostname;
      var consensus := ConsensusPermitsBecomingHealthy(x, base);
      var treatment := Classify(f, allowBump, now, bw, consensus);
      KeepMeansSame(sys0.s, f, allowBump, now, bw);
      match treatment {
        case Reject => return None;
        case Bump =>
          UpdateNewWorker(f, bw, id, now);
          ReplaceOnlySender(sys0, f, bw, id, now);
        case Keep =>
          UpdateCurrentWorker(f, bw, id, now, consensus, base);
          ContinueOnlySender(sys0, f, bw, id, now, consensus);
      }
      SenderStandsInHost(sys0.s, Abs(), bw);
      MoveBetweenHosts(x, before);
      sent := Sent(Sys(), x).sent;
      reply := Some(nonMustDie);
    }

    method ProcessHeartbeat(f: Flags, allowBump: bool, now: int, bw: BistroWorker, id: WorkerSetID, ghost base: int)
        returns (reply: Option<WorkerSetID>)
      requires Valid() && HeartbeatChecked(Sys(), bw, id)
      requires Window(base, Abs()) && InWindow(base, nonMustDie.version + 1)
      requires id.schedulerID == schedulerID ==> InWindow(base, id.version)
      modifies this
      ensures (Valid() <==> !old(Resurfaces(Abs(), bw, id))) && inInitialWait == old(inInitialWait)
      ensures Sys() == Consensus.ProcessHeartbeat(old(Sys()), f, allowBump, now, bw, id)
      ensures reply == if old(bw.shard in workerPool && Treat(Abs(), f, allowBump, now, bw).Reject?)
                       then None else Some(nonMustDie)
    {
      hide Core, HostsOK, HeartbeatHonest, HeartbeatChecked, Resurfaces, Window, Handle, Treat, Connect;
      var x := bw.shard;
      CheckedIsHonest(Sys(), bw, id);
      HeartbeatExactly(Sys(), f, allowBump, now, bw, id);
      if x !in workerPool {
        ghost var sys0 := Sys();
        NextVersionIsFree(sys0);
        AdmitKeepsInv(sys0, bw, id, now);
        AdmitKeepsWindow(base, sys0, bw, id, now);
        NewWorker(bw, id, now);
        sent := sent[x := {}];
        var host := bw.machineLock.hostname;
        var pool := if host in hostToWorkerPool then hostToWorkerPool[host] else {};
        StrangerHasNoHost(sys0.s, x);
        assert x !in pool;  // CHECK
        hostToWorkerPool := hostToWorkerPool[host := pool + {x}];
        assert Sys() == Admit(sys0, bw, id, now);
        AdmitAdds(sys0, bw, id, now);
        AdmitPool(sys0, bw, id, now);
        KeepMeansSame(Abs(), f, allowBump, now, bw);
      }
      reply := HandleHeartbeat(f, allowBump, now, bw, id, base);
    }

    method InitializeRunningTasks(x: Shard)
      requires Valid() && x in workerPool
      modifies this`workerPool
      ensures Valid() && Sys() == old(Sys()).(s := InitializeTasks(old(Abs()), x))
      ensures x in workerPool && !workerPool[x].health.state.New?
      ensures old(workerPool[x].health.state.New?) ==> workerPool[x].health.state.Unhealthy?
    {
      hide Core, HostsOK;
      var w := workerPool[x];
      if w.health.state.New? {
        ghost var sys0 := Sys();
        workerPool := workerPool[x := w.(health := w.health.(state := Unhealthy))];
        QuietKeepsCore(sys0, x, workerPool[x]);
        HostsAreKept(sys0.s, Abs());
      }
    }

    // ------------------------------------------------------------ the periodic pass

    // Whether exactly the workers of the previous scheduler are connected.  With no live worker
    // the source reads past the end of its multiset; `undefined` stands for what it finds.
    method InitialConsensus(undefined: bool) returns (consensus: bool)
      requires Valid()
      ensures if Live(Abs()) == {} then consensus == undefined else consensus <==> SameWorkersAsBefore(Abs())
    {
      hide HistoryOK, WorkersOK, IndexInStep, HostsOK, SummariesOK, SameWorkersAsBefore;
      InitialsAreOfLive(Abs());
      if initialWorkerSetIDs == multiset{} {
        return undefined;
      }
      var id :| id in initialWorkerSetIDs;
      consensus := initialWorkerSetIDs[id] == |initialWorkerSetIDs| && nonMustDie.hash == id.hash;
      OneInitialID(Abs(), id);
    }

    method UpdateInitialWait(f: Flags, wait: int, now: int, newWorkers: set<Shard>, undefined: bool)
      requires Valid()
      modifies this`inInitialWait
      ensures old(inInitialWait) && !inInitialWait <==>
        old(inInitialWait) && MayEndWait(Abs(), f, wait, startTime, now, undefined) && newWorkers == {}
      ensures inInitialWait ==> old(inInitialWait)
    {
      hide SameWorkersAsBefore;
      if !inInitialWait {
        return;
      }
      var minStartTime := now - (if wait < 0 then MinSafeWait(f) else wait);
      var consensus := InitialConsensus(undefined);
      if minStartTime < startTime && !consensus {
      } else if newWorkers != {} {
      } else {
        inInitialWait := false;
      }
    }

    // One worker of the loop over the pool.
    method UpdateOne(f: Flags, x: Shard, now: int, ghost base: int) returns (isNew: bool)
      requires Valid() && x in workerPool && Window(base, Abs()) && InWindow(base, nonMustDie.version + 1)
      modifies this`workerPool, this`initialWorkerSetIDs, this`indirectVersions, this`nonMustDie, this`history
      ensures Valid() && Next(f, old(Sys()), Update(x, now), Sys()) && Window(base, Abs())
      ensures nonMustDie.version <= old(nonMustDie.version) + 1 && workerPool.Keys == old(workerPool.Keys)
      ensures forall y :: y in workerPool && y != x ==> workerPool[y] == old(workerPool[y])
      ensures isNew <==> workerPool[x].health.state.New?
    {
      hide Inv, Next, Window, UpdateWorker, ConsensusPermits, CanLose;
      ghost var sys0 := Sys();
      var consensus := ConsensusPermitsBecomingHealthy(x, base);
      LossIsPossible(sys0, x);
      UpdateStep(base, f, sys0, x, now);
      isNew := UpdateWorkerState(f, x, now, consensus);
    }

    // The loop over the pool; it reports the workers that are NEW after their update.
    method UpdateEach(f: Flags, now: int, ghost base: int) returns (newWorkers: set<Shard>)
      requires Valid() && Window(base, Abs()) && InWindow(base, nonMustDie.version + |workerPool|)
      modifies this`workerPool, this`initialWorkerSetIDs, this`indirectVersions, this`nonMustDie, this`history
      ensures Valid() && UpdatesEach(f, now, old(Sys()), Sys())
      ensures forall x :: x in newWorkers <==> x in workerPool && workerPool[x].health.state.New?
    {
      hide Inv, Next, Window, Updated, ReportsNew;
      newWorkers := {};
      ghost var run: seq<System>, events: seq<Event> := [Sys()], [];
      NothingUpdated(f, now, Sys());
      NothingReported(workerPool);
      var rest := workerPool.Keys;
      ghost var done: set<Shard> := {};
      while rest != {}
        invariant Valid() && workerPool.Keys == old(workerPool.Keys) && done !! rest && done + rest == workerPool.Keys
        invariant Window(base, Abs()) && nonMustDie.version + |rest| <= old(nonMustDie.version + |workerPool|)
        invariant Updated(f, now, old(Sys()), Sys(), done, run, events)
        invariant ReportsNew(workerPool, done, newWorkers)
        decreases rest
      {
        var x :| x in rest;
        rest := rest - {x};
        ghost var sys0 := Sys();
        WindowEnds(base, Abs());
        var isNew := UpdateOne(f, x, now, base);
        OneMoreUpdated(f, now, old(Sys()), sys0, Sys(), done, run, events, x);
        OneMoreReported(sys0.s.pool, workerPool, done, newWorkers, x);
        run, events, done := run + [Sys()], events + [Update(x, now)], done + {x};
        if isNew {
          newWorkers := newWorkers + {x};
        }
      }
      AllUpdated(f, now, old(Sys()), Sys(), done, run, events);
      AllReported(workerPool, newWorkers);
    }

    // A whole pass is a fragment of a run.  It ends the initial wait only when no pooled worker
    // is NEW, and then exactly if the wait expired or the same workers are back.
    method UpdateState(f: Flags, wait: int, now: int, undefined: bool, ghost base: int)
      requires Valid() && Window(base, Abs()) && InWindow(base, nonMustDie.version + |workerPool| + 1)
      modifies this
      ensures Valid() && IsPass(f, now, old(Sys()), Sys())
      ensures old(inInitialWait) && !inInitialWait <==>
        && old(inInitialWait) && MayEndWait(Abs(), f, wait, startTime, now, undefined)
        && forall x :: x in workerPool ==> !workerPool[x].health.state.New?
    {
      hide Inv, Window, MayEndWait, Pruned, Propagated, UpdatesEach;
      ghost var sys0 := Sys();
      WindowEnds(base, Abs());
      PruneUnusedHistoryVersions(base);
      ghost var sys1 := Sys();
      PruneKeepsWindow(base, sys0, sys1.s);
      PropagateIndirectWorkerSets(base);
      ghost var sys2 := Sys();
      PassKeepsPool(sys0.s, sys1.s, sys2.s);
      WindowEnds(base, Abs());
      var newWorkers := UpdateEach(f, now, base);
      assert Next(f, sys0, Prune, sys1) && Next(f, sys1, Propagate, sys2) && UpdatesEach(f, now, sys2, Sys());
      UpdateInitialWait(f, wait, now, newWorkers, undefined);
    }
  }

  // Every pooled worker is updated once, in some order.
  ghost predicate UpdatesEach(f: Flags, now: int, sys: System, sys': System) {
    exists run, events ::
      && Steps(f, run, events) && run[0] == sys && run[|run| - 1] == sys'
      && |events| == |sys.s.pool| && forall x :: x in sys.s.pool ==> Update(x, now) in events
  }

  // The workers in `done` have been updated once, by these steps.
  ghost predicate Updated(f: Flags, now: int, sys: System, sys': System, done: set<Shard>, run: seq<System>,
                          events: seq<Event>) {
    && Steps(f, run, events) && run[0] == sys && run[|run| - 1] == sys'
    && |events| == |done| && forall x :: x in done ==> Update(x, now) in events
  }

  lemma NothingUpdated(f: Flags, now: int, sys: System)
    ensures Updated(f, now, sys, sys, {}, [sys], [])
  {}

  lemma OneMoreUpdated(f: Flags, now: int, sys0: System, sys: System, sys': System, done: set<Shard>, run: seq<System>,
                       events: seq<Event>, x: Shard)
    requires Updated(f, now, sys0, sys, done, run, events) && x !in done && Next(f, sys, Update(x, now), sys')
    ensures Updated(f, now, sys0, sys', done + {x}, run + [sys'], events + [Update(x, now)])
  {
    hide Next;
    StepsGrow(f, run, events, Update(x, now), sys');
  }

  lemma AllUpdated(f: Flags, now: int, sys: System, sys': System, done: set<Shard>, run: seq<System>,
                   events: seq<Event>)
    requires Updated(f, now, sys, sys', done, run, events) && done == sys.s.pool.Keys
    ensures UpdatesEach(f, now, sys, sys')
  {}

  // Of the workers in `done`, exactly the NEW ones are reported.
  ghost predicate ReportsNew(pool: map<Shard, RemoteWorker>, done: set<Shard>, newWorkers: set<Shard>) {
    forall x :: x in newWorkers <==> x in done && x in pool && pool[x].health.state.New?
  }

  lemma NothingReported(pool: map<Shard, RemoteWorker>)
    ensures ReportsNew(pool, {}, {})
  {}

  lemma OneMoreReported(pool: map<Shard, RemoteWorker>, pool': map<Shard, RemoteWorker>, done: set<Shard>,
                        newWorkers: set<Shard>, x: Shard)
    requires ReportsNew(pool, done, newWorkers) && pool'.Keys == pool.Keys && x in pool && x !in done
    requires forall y :: y in pool && y != x ==> pool'[y] == pool[y]
    ensures ReportsNew(pool', done + {x}, if pool'[x].health.state.New? then newWorkers + {x} else newWorkers)
  {}

  lemma AllReported(pool: map<Shard, RemoteWorker>, newWorkers: set<Shard>)
    requires ReportsNew(pool, pool.Keys, newWorkers)
    ensures forall x :: x in newWorkers <==> x in pool && pool[x].health.state.New?
  {}

  // One call of RemoteWorkers::updateState, as a fragment of a run.
  ghost predicate IsPass(f: Flags, now: int, sys: System, sys': System) {
    exists sys1, sys2 ::
      Next(f, sys, Prune, sys1) && Next(f, sys1, Propagate, sys2) && UpdatesEach(f, now, sys2, sys')
  }

  lemma PassKeepsPool(s: Scheduler, s1: Scheduler, s2: Scheduler)
    requires Pruned(s, s1) && Propagated(s1, s2)
    ensures s2.pool.Keys == s.pool.Keys && s2.current == s.current
  {}

  lemma LossIsPossible(sys: System, x: Shard)
    requires Inv(sys)
    ensures x in Live(sys.s) ==> CanLose(sys.s, x)
  {
    if x in Live(sys.s) {
      LiveCanBeLost(sys, x);
    }
  }

  lemma PruneKeepsWindow(base: int, sys: System, s': Scheduler)
    requires Inv(sys) && Window(base, sys.s) && InWindow(base, sys.s.current.version + 1) && Pruned(sys.s, s')
    ensures Window(base, s')
  {
    hide Inv, MergedUpTo, HasLimbo;
    PrunedFrame(sys.s, s');
    if IsEarliestReference(sys.s, s'.first) {
      var x :| x in Live(sys.s) && sys.s.pool[x].workerSetID.Some?
        && sys.s.pool[x].workerSetID.value.version == s'.first;
    }
  }

  lemma UpdateKeepsWindow(base: int, s: Scheduler, f: Flags, x: Shard, now: int, consensus: bool)
    requires x in s.pool && Window(base, s) && InWindow(base, s.current.version + 1)
    ensures
      var s' := UpdateWorker(s, f, x, now, consensus);
      Window(base, s') && s'.current.version <= s.current.version + 1
  {
    hide NextState, Advance, Window, Lose;
    LoseKeepsWindow(base, s, x, now);
    var w := s.pool[x];
    HealthKeepsWindow(base, s, x, Advance(w.health, NextState(s, f, x, now, consensus), now));
  }

  lemma LoseKeepsWindow(base: int, s: Scheduler, x: Shard, now: int)
    requires x in s.pool && Window(base, s) && InWindow(base, s.current.version + 1)
    ensures Window(base, Lose(s, x, now)) && Lose(s, x, now).current.version == s.current.version + 1
  {
    hide Remove, Advance;
  }

  lemma HealthKeepsWindow(base: int, s: Scheduler, x: Shard, health: WorkerState)
    requires x in s.pool && Window(base, s)
    ensures Window(base, s.(pool := s.pool[x := s.pool[x].(health := health)]))
  {}

  lemma UpdateStep(base: int, f: Flags, sys: System, x: Shard, now: int)
    requires Inv(sys) && x in sys.s.pool && Window(base, sys.s) && InWindow(base, sys.s.current.version + 1)
    ensures
      var s' := UpdateWorker(sys.s, f, x, now, ConsensusPermits(sys.s, x));
      && Next(f, sys, Update(x, now), System(s', sys.sent)) && Inv(System(s', sys.sent))
      && Window(base, s') && s'.current.version <= sys.s.current.version + 1
      && s'.pool.Keys == sys.s.pool.Keys && forall y :: y in sys.s.pool && y != x ==> s'.pool[y] == sys.s.pool[y]
  {
    hide Inv, ConsensusPermits, UpdateWorker, Window;
    var consensus := ConsensusPermits(sys.s, x);
    var s' := UpdateWorker(sys.s, f, x, now, consensus);
    NextKeepsInv(f, sys, Update(x, now), System(s', sys.sent));
    UpdateKeepsWindow(base, sys.s, f, x, now, consensus);
    UpdateOnly(sys.s, f, x, now, consensus);
  }

  // Every live worker was last told of the same worker set, and it is the set now connected.
  ghost predicate SameWorkersAsBefore(s: Scheduler) {
    exists x :: x in Live(s)
      && s.pool[x].initialWorkerSetID.hash == HashOf(Instances(s), Live(s))
      && forall y :: y in Live(s) ==> s.pool[y].initialWorkerSetID == s.pool[x].initialWorkerSetID
  }

  ghost predicate MayEndWait(s: Scheduler, f: Flags, wait: int, startTime: int, now: int, undefined: bool) {
    || startTime + (if wait < 0 then MinSafeWait(f) else wait) <= now
    || (if Live(s) == {} then undefined else SameWorkersAsBefore(s))
  }

  lemma {:induction false} InitialsComeFrom(values: map<Shard, WorkerSetID>, keys: set<Shard>, id: WorkerSetID)
    requires keys <= values.Keys
    ensures id in Fold(Insert, multiset{}, values, keys) <==> exists x :: x in keys && values[x] == id
    decreases keys
  {
    if keys != {} {
      var x :| x in keys && Fold(Insert, multiset{}, values, keys)
                            == Insert(Fold(Insert, multiset{}, values, keys - {x}), values[x]);
      InitialsComeFrom(values, keys - {x}, id);
      InsertMembers(Fold(Insert, multiset{}, values, keys - {x}), values[x], id);
      if y :| y in keys && values[y] == id {
        assert y == x || y in keys - {x};
      }
    }
  }

  lemma InsertMembers(m: multiset<WorkerSetID>, v: WorkerSetID, id: WorkerSetID)
    ensures id in Insert(m, v) <==> id == v || id in m
  {}

  lemma InitialsAreOfLive(s: Scheduler)
    requires SummariesOK(s)
    ensures forall id :: id in s.initialIDs <==> exists x :: x in Live(s) && s.pool[x].initialWorkerSetID == id
    ensures s.initialIDs == multiset{} <==> Live(s) == {}
  {
    forall id ensures id in s.initialIDs <==> exists x :: x in Live(s) && s.pool[x].initialWorkerSetID == id {
      InitialsComeFrom(Initials(s), Live(s), id);
    }
    if x :| x in Live(s) {
      assert s.pool[x].initialWorkerSetID in s.initialIDs;
    }
  }

  // A multiset holds only copies of one element exactly when all its elements equal it.
  lemma AllAreOne<T>(m: multiset<T>, a: T)
    ensures m[a] == |m| <==> forall b :: b in m ==> b == a
  {
    if b :| b in m && b != a {
      assert multiset{b} <= m - multiset{a}[a := m[a]];
      assert m == multiset{a}[a := m[a]] + (m - multiset{a}[a := m[a]]);
    } else {
      assert m == multiset{a}[a := m[a]];
    }
  }

  lemma OneInitialID(s: Scheduler, id: WorkerSetID)
    requires SummariesOK(s) && id in s.initialIDs
    ensures s.initialIDs[id] == |s.initialIDs| && s.current.hash == id.hash <==> SameWorkersAsBefore(s)
  {
    AllAreOne(s.initialIDs, id);
    InitialsAreOfLive(s);
    var x :| x in Live(s) && s.pool[x].initialWorkerSetID == id;
    if SameWorkersAsBefore(s) {
      forall b | b in s.initialIDs ensures b == id {
        var y :| y in Live(s) && s.pool[y].initialWorkerSetID == b;
      }
    } else if forall b :: b in s.initialIDs ==> b == id {
      forall y | y in Live(s) ensures s.pool[y].initialWorkerSetID == id {
        assert s.pool[y].initialWorkerSetID in s.initialIDs;
      }
    }
  }

  lemma StrangerHasNoHost(s: Scheduler, x: Shard)
    requires HostsOK(s) && x !in s.pool
    ensures forall h :: h in s.hosts ==> x !in s.hosts[h]
  {}

  lemma AdmitKeepsWindow(base: int, sys: System, bw: BistroWorker, id: WorkerSetID, now: int)
    requires Window(base, sys.s) && InWindow(base, sys.s.current.version + 1)
    requires id.schedulerID == sys.s.id ==> InWindow(base, id.version)
    ensures Window(base, Admit(sys, bw, id, now).s)
  {}

  lemma SenderStandsInHost(s: Scheduler, s': Scheduler, bw: BistroWorker)
    requires HostsOK(s) && bw.shard in s.pool && OnlySender(s, s', bw)
    ensures bw.shard in HostPool(s', s.pool[bw.shard].worker.machineLock.hostname)
    ensures bw.machineLock.hostname != s.pool[bw.shard].worker.machineLock.hostname ==>
      bw.shard !in HostPool(s', bw.machineLock.hostname)
    ensures s'.pool[bw.shard].worker == bw
  {}

  lemma SetTogether(sys: System, x: Shard)
    requires Core(sys) && x in sys.s.pool
    ensures sys.s.pool[x].firstAssociatedWorkerSetID.None? ==> sys.s.pool[x].workerSetID.None?
  {
    hide HistoryOK, SummariesOK, IndexInStep;
    if Lost(sys.s.pool[x]) {
      assert LostOK(sys.s, x, sys.sent[x]);
    } else {
      assert x in Live(sys.s);
      assert IDsOK(sys.s, x, sys.sent[x]);
    }
  }

  lemma RecordInWindow(base: int, s: Scheduler, x: Shard)
    requires Window(base, s) && x in s.pool
    ensures s.pool[x].initialWorkerSetID.schedulerID == s.id ==> InWindow(base, s.pool[x].initialWorkerSetID.version)
    ensures s.pool[x].workerSetID.Some? ==> InWindow(base, s.pool[x].workerSetID.value.version)
    ensures s.pool[x].indirectWorkerSetID.Some? ==> InWindow(base, s.pool[x].indirectWorkerSetID.value.version)
  {}

  lemma CheckedIsHonest(sys: System, bw: BistroWorker, id: WorkerSetID)
    requires HeartbeatChecked(sys, bw, id)
    ensures HeartbeatHonest(sys, bw, id)
  {}

  // Recording a heartbeat changes nothing that the worker sets depend on.
  lemma HeardKeeps(sys: System, base: int, bw: BistroWorker, id: WorkerSetID, now: int)
    requires Core(sys) && bw.shard in sys.s.pool && bw.id == sys.s.pool[bw.shard].worker.id
    requires Honest(sys, bw.shard, id) && Window(base, sys.s)
    requires NewerEcho(sys.s, sys.s.pool[bw.shard], id) ==> CanRaise(sys.s, bw.shard, id)
    ensures
      var s' := Heard(sys.s, bw.shard, bw, now);
      && Core(System(s', sys.sent)) && Honest(System(s', sys.sent), bw.shard, id) && Window(base, s')
      && (NewerEcho(s', s'.pool[bw.shard], id) ==> CanRaise(s', bw.shard, id))
  {
    hide Core, Window;
    ShardIsKey(sys, bw.shard);
    QuietKeepsCore(sys, bw.shard, Heard(sys.s, bw.shard, bw, now).pool[bw.shard]);
    HeardKeepsWindow(sys.s, base, bw, now);
  }

  lemma ShardIsKey(sys: System, x: Shard)
    requires Core(sys) && x in sys.s.pool
    ensures sys.s.pool[x].worker.shard == x
  {
    hide HistoryOK, IndexInStep, SummariesOK, SentOK, IDsOK, LostOK;
  }

  lemma HeardKeepsWindow(s: Scheduler, base: int, bw: BistroWorker, now: int)
    requires bw.shard in s.pool && Window(base, s)
    ensures Window(base, Heard(s, bw.shard, bw, now))
  {}

  lemma NextVersionIsFree(sys: System)
    requires Core(sys)
    ensures sys.s.current.version + 1 !in sys.s.history
  {
    hide WorkersOK, SummariesOK, IndexInStep;
  }

  lemma LostAfterLose(sys: System, x: Shard, now: int)
    requires x in sys.s.pool
    ensures x in Lose(sys.s, x, now).pool && Lost(Lose(sys.s, x, now).pool[x])
  {}

  lemma ConnectAdds(sys: System, bw: BistroWorker, id: WorkerSetID, now: int)
    ensures Connected(sys, bw, id, now).s.pool == sys.s.pool[bw.shard := Fresh(bw, id, now)]
  {}

  lemma HeardOwn(sys: System, bw: BistroWorker, now: int)
    requires bw.shard in sys.s.pool && sys.s.pool[bw.shard].worker == bw
    ensures
      var w := sys.s.pool[bw.shard];
      Heard(sys.s, bw.shard, bw, now)
        == sys.s.(pool := sys.s.pool[bw.shard := w.(health := w.health.(timeLastHeartbeatReceived := now))])
  {}

  // The entries compared during the walk lie in the window.
  lemma VersionsInWindow(sys0: System, s: Scheduler, it: Entry, vss: set<Entry>, base: int)
    requires Walking(sys0, s, Some(it), it.0, vss) && Window(base, s)
    ensures EntriesInWindow(base, vss) && it in vss && it in s.index && EntriesInWindow(base, s.index)
  {
    hide Members, Core, Sound, Advanced;
    ItselfStands(sys0, s, it, vss);
  }

  lemma ItselfStands(sys0: System, s: Scheduler, it: Entry, vss: set<Entry>)
    requires Walking(sys0, s, Some(it), it.0, vss)
    ensures it in vss
  {
    hide Members, Requires, Advanced;
    assert it in s.index && IndexInStep(s);
    assert it.1 in Live(s) && Live(s) == Live(sys0.s);
    StandsInOwnSet(sys0, s, it.1);
  }

  lemma WindowAfterRaise(base: int, s: Scheduler, x: Shard, id: WorkerSetID)
    requires Window(base, s) && x in s.pool && InWindow(base, id.version)
    ensures Window(base, RaiseIndirect(s, x, id))
  {}

  lemma CursorInWindow(base: int, sys0: System, s: Scheduler, cursor: Option<Entry>, version: int, vss: set<Entry>)
    requires Walking(sys0, s, cursor, version, vss) && Window(base, s)
    ensures cursor.Some? ==> InWindow(base, cursor.value.0)
  {
    hide Core, Sound, VersionsOf;
  }

  lemma PassBounds(sys: System, base: int)
    requires Inv(sys) && Window(base, sys.s)
    ensures Core(sys) && HostsOK(sys.s) && EntriesInWindow(base, sys.s.index)
    ensures InWindow(base, sys.s.first) && InWindow(base, sys.s.current.version)
    ensures forall v :: v in sys.s.history <==> sys.s.first <= v <= sys.s.current.version
    ensures sys.s.first <= sys.s.current.version + 1
  {
    hide HostsOK, WorkersOK, SummariesOK, IndexInStep, Members;
  }

  lemma WalkStarts(sys: System, cursor: Option<Entry>)
    requires Core(sys)
    requires cursor.Some? ==> cursor.value in sys.s.index && forall o :: o in sys.s.index ==> !Before(o, cursor.value)
    requires cursor.None? ==> sys.s.index == {}
    ensures Walking(sys, sys.s, cursor, sys.s.first - 1, {})
    ensures cursor.Some? ==> sys.s.first <= cursor.value.0
  {
    hide Sound, CursorCovers, HistoryOK, WorkersOK, SummariesOK, Requires;
    SoundAtFirst(sys.s, cursor);
    CoreOwnsIDs(sys);
    assert Members(sys.s, sys.s.first - 1) == {};
    if cursor.Some? {
      assert cursor.value.1 in Live(sys.s) && Indirect(sys.s, cursor.value.1).version == cursor.value.0;
      StandsInOwnSet(sys, sys.s, cursor.value.1);
    }
  }

  lemma CoreOwnsIDs(sys: System)
    requires Core(sys)
    ensures OwnIDs(sys.s)
  {
    hide HistoryOK, SummariesOK, IndexInStep;
  }

  // The history step at h applies to the members before it, all of which are pooled.
  lemma StepApplies(sys0: System, s: Scheduler, cursor: Option<Entry>, h: int, vss: set<Entry>)
    requires Walking(sys0, s, cursor, h - 1, vss) && h in sys0.s.history
    ensures StepFits(Members(sys0.s, h - 1), sys0.s.history[h])
    ensures Apply(Members(sys0.s, h - 1), sys0.s.history[h]) == Members(sys0.s, h)
    ensures Members(sys0.s, h - 1) <= s.pool.Keys && Members(sys0.s, h) <= s.pool.Keys
    ensures VersionsOf(s, Members(sys0.s, h - 1), vss) && OwnIDs(s)
  {
    hide CursorCovers, Requires, WorkersOK, IndexInStep, SummariesOK, VersionsOf, StepFits, Apply;
    var s0 := sys0.s;
    assert h - 1 < s0.first ==> Members(s0, h - 1) == {};
    assert s0.first <= h - 1 ==> h - 1 in s0.history;
  }

  lemma StepWalks(sys0: System, s: Scheduler, cursor: Option<Entry>, h: int, before: set<Entry>, vss: set<Entry>)
    requires Walking(sys0, s, cursor, h - 1, before) && VersionsOf(s, Members(sys0.s, h), vss)
    ensures Walking(sys0, s, cursor, h, vss)
  {
    hide Core, Sound, CursorCovers, VersionsOf, Members;
  }

  // An indexed version is never past the current one, so the walk reaches the end.
  lemma CursorEnds(sys0: System, s: Scheduler, cursor: Option<Entry>, h: int, vss: set<Entry>)
    requires Walking(sys0, s, cursor, h - 1, vss) && (cursor.Some? ==> h <= cursor.value.0)
    ensures h == sys0.s.current.version + 1 ==> cursor.None?
  {
    hide Members, Requires, Advanced, Core, VersionsOf;
    if cursor.Some? {
      assert cursor.value in s.index && IndexInStep(s);
      assert cursor.value.1 in Live(s) && Live(s) == Live(sys0.s);
      StandsInOwnSet(sys0, s, cursor.value.1);
    }
  }

  lemma WalkEnds(sys0: System, s: Scheduler, h: int, vss: set<Entry>)
    requires Walking(sys0, s, None, h, vss) && HostsOK(sys0.s)
    ensures Propagated(sys0.s, s) && Inv(System(s, sys0.sent))
  {
    hide Core, CursorCovers, VersionsOf, Requires, HostsOK, IndexInStep;
    SoundAtLast(sys0.s, s);
    PropagateKeepsCore(sys0, s);
    HostsAreKept(sys0.s, s);
  }

  lemma WindowEnds(base: int, s: Scheduler)
    requires Window(base, s)
    ensures InWindow(base, s.first) && InWindow(base, s.current.version)
  {}

  // The history from version h on.
  ghost predicate IsTail(s: Scheduler, history: map<int, HistoryStep>, h: int) {
    && (forall v :: v in history <==> v in s.history && h <= v)
    && (forall v :: v in history ==> history[v] == s.history[v])
  }

  lemma AllIsTail(s: Scheduler)
    requires HistoryOK(s)
    ensures IsTail(s, s.history, s.first)
  {}

  lemma TailStarts(s: Scheduler, history: map<int, HistoryStep>, h: int)
    requires HistoryOK(s) && IsTail(s, history, h) && s.first <= h <= s.current.version
    ensures h in history && forall k :: k in history ==> h <= k <= s.current.version
    ensures StepFits(Members(s, h - 1), history[h]) && Apply(Members(s, h - 1), history[h]) == Members(s, h)
    ensures h == s.first ==> Members(s, h - 1) == {}
  {}

  lemma TailShrinks(s: Scheduler, history: map<int, HistoryStep>, h: int)
    requires IsTail(s, history, h)
    ensures IsTail(s, history - {h}, h + 1)
  {}

  lemma TailMerges(s: Scheduler, history: map<int, HistoryStep>, h: int)
    requires IsTail(s, history, h) && h in history
    ensures MergedUpTo(s, history[h := HistoryStep(None, Members(s, h))], h)
  {}

  lemma NoReferenceMeansEmpty(sys: System)
    requires Core(sys) && !HasLimbo(sys.s)
    requires forall x :: x in Live(sys.s) ==> sys.s.pool[x].workerSetID.None?
    ensures Live(sys.s) == {} && |sys.s.initialIDs| == 0
  {
    forall x | x in Live(sys.s) ensures !Indexed(sys.s, x) {
      assert IDsOK(sys.s, x, sys.sent[x]);
    }
    IndexSizes(sys.s);
  }

  lemma ReferenceIsKept(sys: System, v: int)
    requires Core(sys) && IsEarliestReference(sys.s, v)
    ensures sys.s.first <= v <= sys.s.current.version && Live(sys.s) != {}
  {
    var x :| x in Live(sys.s) && sys.s.pool[x].workerSetID.Some? && sys.s.pool[x].workerSetID.value.version == v;
    assert IDsOK(sys.s, x, sys.sent[x]);
  }
}

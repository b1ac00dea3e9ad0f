/**
 Why editing the index of indirect versions while walking through it is safe
 (RemoteWorkers::propagateIndirectWorkerSets).
 */
module Propagation {
  import opened Options
  import opened WorkerSets
  import opened WorkerSetSteps
  import opened WorkerSetPasses

  type Entry = (int, Shard)

  // VersionAndShardEarlierThan
  predicate Before(a: Entry, b: Entry) {
    a.0 < b.0 || (a.0 == b.0 && a.1 < b.1)
  }

  // `e` is the least entry after `it`, what incrementing an iterator at `it` gives.
  predicate IsSuccessor(index: set<Entry>, it: Entry, e: Option<Entry>) {
    match e
    case None => forall o :: o in index ==> !Before(it, o)
    case Some(n) => n in index && Before(it, n) && forall o :: o in index && Before(it, o) ==> !Before(o, n)
  }

  // The sorted set of the indirect versions of the members of one worker set.
  ghost predicate VersionsOf(s: Scheduler, members: set<Shard>, vss: set<Entry>) {
    && (forall e :: e in vss ==> e.1 in members && Indexed(s, e.1) && Indirect(s, e.1).version == e.0)
    && (forall x :: x in members && Indexed(s, x) ==> (Indirect(s, x).version, x) in vss)
  }

  // x has made at least one step of the closure.
  ghost predicate Advanced(s0: Scheduler, s: Scheduler, x: Shard)
    requires Indexed(s0, x) && Indexed(s, x)
  {
    forall y :: y in Members(s0, Indirect(s0, x).version) && Indexed(s0, y) ==>
      Indirect(s0, y).version <= Indirect(s, x).version
  }

  // Only indirect IDs of live workers have changed, none was lowered, all lie in the closure.
  ghost predicate Sound(s0: Scheduler, s: Scheduler) {
    && s == s0.(pool := s.pool, index := s.index)
    && s.pool.Keys == s0.pool.Keys
    && (forall x :: x in s0.pool ==> s.pool[x] == s0.pool[x].(indirectWorkerSetID := s.pool[x].indirectWorkerSetID))
    && (forall x :: x in s0.pool && (Lost(s0.pool[x]) || !Indexed(s0, x)) ==> s.pool[x] == s0.pool[x])
    && (forall x :: x in s0.pool && Indexed(s0, x) ==>
          Indexed(s, x) && Indirect(s0, x).version <= Indirect(s, x).version && Requires(s0, x, Indirect(s, x)))
    && IndexInStep(s)
  }

  // Every worker not yet advanced still stands at or after the cursor, where it was at first.
  ghost predicate CursorCovers(s0: Scheduler, s: Scheduler, cursor: Option<Entry>) {
    && (cursor.Some? ==> cursor.value in s.index)
    && forall x :: x in Live(s0) && Indexed(s0, x) && Indexed(s, x) ==> Covered(s0, s, cursor, x)
  }

  ghost predicate Covered(s0: Scheduler, s: Scheduler, cursor: Option<Entry>, x: Shard)
    requires Indexed(s0, x) && Indexed(s, x)
  {
    || Advanced(s0, s, x)
    || (Indirect(s, x) == Indirect(s0, x) && cursor.Some? && !Before((Indirect(s, x).version, x), cursor.value))
  }

  lemma SoundAtFirst(s: Scheduler, cursor: Option<Entry>)
    requires IndexInStep(s)
    requires cursor.Some? ==> cursor.value in s.index && forall o :: o in s.index ==> !Before(o, cursor.value)
    requires cursor.None? ==> s.index == {}
    ensures Sound(s, s) && CursorCovers(s, s, cursor)
  {
    forall x | x in s.pool && Indexed(s, x) ensures Requires(s, x, Indirect(s, x)) {
      assert IsChain(s, [x]);
    }
    forall x | x in Live(s) && Indexed(s, x)
      ensures cursor.Some? && !Before((Indirect(s, x).version, x), cursor.value)
    {
      assert (Indirect(s, x).version, x) in s.index;
    }
  }

  lemma SoundAtLast(s0: Scheduler, s: Scheduler)
    requires Sound(s0, s) && CursorCovers(s0, s, None)
    ensures Propagated(s0, s)
  {
    forall x | x in Live(s0) && Indexed(s0, x)
      ensures forall y :: y in Members(s0, Indirect(s0, x).version) && Indexed(s0, y) ==>
        Indirect(s0, y).version <= Indirect(s, x).version
    {
      assert Indexed(s, x) && Advanced(s0, s, x);
    }
  }

  // Chains compose.
  lemma RequiresStep(s: Scheduler, x: Shard, id: WorkerSetID, y: Shard, id': WorkerSetID)
    requires Requires(s, x, id) && y in Members(s, id.version) && Requires(s, y, id')
    ensures Requires(s, x, id')
  {
    var a :| IsChain(s, a) && a[0] == x && Indirect(s, a[|a| - 1]) == id;
    var b :| IsChain(s, b) && b[0] == y && Indirect(s, b[|b| - 1]) == id';
    var c := a + b;
    assert forall i :: 0 <= i < |c| ==> Indexed(s, c[i]);
    forall i | 0 < i < |c| ensures c[i] in Members(s, Indirect(s, c[i - 1]).version) {
      if i < |a| {
        assert c[i] == a[i] && c[i - 1] == a[i - 1];
      } else if i == |a| {
        assert c[i] == y && c[i - 1] == a[|a| - 1];
      } else {
        assert c[i] == b[i - |a|] && c[i - 1] == b[i - |a| - 1];
      }
    }
    assert IsChain(s, c);
  }

  // A live worker is a member of its own indirect worker set, so the set of versions at the
  // cursor is not empty and its greatest entry is no lower than the cursor.
  lemma StandsInOwnSet(sys: System, s: Scheduler, x: Shard)
    requires Core(sys) && Sound(sys.s, s) && x in Live(sys.s) && Indexed(s, x)
    ensures x in Members(sys.s, Indirect(s, x).version)
    ensures sys.s.first <= Indirect(s, x).version <= sys.s.current.version
  {
    var s0 := sys.s;
    assert SentOK(s0, x, sys.sent[x]) && IDsOK(s0, x, sys.sent[x]);
    assert Indexed(s0, x);
    RequiredIsKnown(sys, x, Indirect(s, x));
    var since := s0.pool[x].firstAssociatedWorkerSetID.value;
    assert since in sys.sent[x] && MemberSince(s0, x, since.version);
  }

  // What raising x's indirect ID changes.
  predicate Raised(s: Scheduler, s': Scheduler, x: Shard, id: WorkerSetID) {
    && s' == s.(pool := s'.pool, index := s'.index) && Indexed(s, x) && Indexed(s', x)
    && s'.pool == s.pool[x := s.pool[x].(indirectWorkerSetID := s'.pool[x].indirectWorkerSetID)]
    && s'.index == (s.index - {(Indirect(s, x).version, x)}) + {(Indirect(s', x).version, x)}
    && Indirect(s', x) == (if Indirect(s, x).version < id.version then id else Indirect(s, x))
  }

  lemma RaiseShape(s: Scheduler, x: Shard, id: WorkerSetID)
    requires Indexed(s, x) && (Indirect(s, x).version, x) in s.index
    ensures Raised(s, RaiseIndirect(s, x, id), x, id)
  {
    var s' := RaiseIndirect(s, x, id);
    if s' == s {
      assert s.pool == s.pool[x := s.pool[x].(indirectWorkerSetID := s.pool[x].indirectWorkerSetID)];
      assert s.index == (s.index - {(Indirect(s, x).version, x)}) + {(Indirect(s, x).version, x)};
    }
  }

  lemma RaisedIsSound(s0: Scheduler, s: Scheduler, s': Scheduler, x: Shard, id: WorkerSetID)
    requires Sound(s0, s) && x in Live(s0) && Raised(s, s', x, id) && IndexInStep(s')
    requires Requires(s0, x, id)
    ensures Sound(s0, s')
  {
    hide Requires, IndexInStep, Members;
  }

  // One turn of the inner loop, at the entry (version, x).
  lemma TurnIsSound(s0: Scheduler, s: Scheduler, version: int, x: Shard, y: Shard)
    requires Sound(s0, s) && OwnIDs(s) && x in Live(s0) && (version, x) in s.index
    requires y in Members(s0, version) && Indexed(s, y)
    ensures CanRaise(s, x, Indirect(s, y))
    ensures Sound(s0, RaiseIndirect(s, x, Indirect(s, y)))
  {
    hide Requires, Members, RaiseIndirect;
    var id := Indirect(s, y);
    assert Indexed(s, x) && Indirect(s, x).version == version && x in Live(s);
    RaiseKeepsIndex(s, x, id);
    RaiseShape(s, x, id);
    assert Indexed(s0, x) && Indexed(s0, y);
    RequiresStep(s0, x, Indirect(s, x), y, id);
    RaisedIsSound(s0, s, RaiseIndirect(s, x, id), x, id);
  }

  lemma TurnAdvances(s0: Scheduler, s: Scheduler, s': Scheduler, version: int, x: Shard, id: WorkerSetID)
    requires Sound(s0, s) && Raised(s, s', x, id) && Indexed(s0, x) && version <= id.version
    requires Indirect(s, x).version == version
    requires Advanced(s0, s, x) || Indirect(s, x) == Indirect(s0, x)
    requires forall z :: z in Members(s0, version) && Indexed(s, z) ==> Indirect(s, z).version <= id.version
    ensures Advanced(s0, s', x)
  {
    forall w | w in Members(s0, Indirect(s0, x).version) && Indexed(s0, w)
      ensures Indirect(s0, w).version <= Indirect(s', x).version
    {
      assert Indexed(s, w) && Indirect(s0, w).version <= Indirect(s, w).version;
    }
  }

  // An entry that stood at or after the iterator stands at or after its successor.
  lemma StandsAfter(index: set<Entry>, it: Entry, next: Option<Entry>, e: Entry)
    requires e in index && e != it && !Before(e, it) && IsSuccessor(index, it, next)
    ensures next.Some? && !Before(e, next.value)
  {
    assert Before(it, e);
  }

  lemma AdvancedFrame(s0: Scheduler, s: Scheduler, s': Scheduler, z: Shard)
    requires Indexed(s0, z) && Indexed(s, z) && Indexed(s', z) && Indirect(s', z) == Indirect(s, z)
      && Advanced(s0, s, z)
    ensures Advanced(s0, s', z)
  {}

  lemma OthersStand(s0: Scheduler, s: Scheduler, s': Scheduler, it: Entry, next: Option<Entry>, z: Shard)
    requires Indexed(s0, z) && Indexed(s, z) && Indexed(s', z) && Indirect(s', z) == Indirect(s, z) && z != it.1
    requires Covered(s0, s, Some(it), z) && IsSuccessor(s.index, it, next) && (Indirect(s, z).version, z) in s.index
    ensures Covered(s0, s', next, z)
  {
    hide Advanced, IsSuccessor;
    if Advanced(s0, s, z) {
      AdvancedFrame(s0, s, s', z);
    } else {
      StandsAfter(s.index, it, next, (Indirect(s, z).version, z));
    }
  }

  lemma TurnCovers(s0: Scheduler, s: Scheduler, s': Scheduler, version: int, x: Shard, id: WorkerSetID,
                   next: Option<Entry>)
    requires Sound(s0, s) && x in Live(s0) && (version, x) in s.index && CursorCovers(s0, s, Some((version, x)))
    requires Raised(s, s', x, id) && version <= id.version && IsSuccessor(s.index, (version, x), next)
    requires forall z :: z in Members(s0, version) && Indexed(s, z) ==> Indirect(s, z).version <= id.version
    ensures CursorCovers(s0, s', next)
  {
    hide Members, Advanced, Requires;
    assert IndexInStep(s) && Indirect(s, x).version == version;
    forall z | z in Live(s0) && Indexed(s0, z) && Indexed(s', z) ensures Covered(s0, s', next, z) {
      assert Indexed(s, z) && z in Live(s) && (Indirect(s, z).version, z) in s.index;
      assert Covered(s0, s, Some((version, x)), z);
      if z == x {
        TurnAdvances(s0, s, s', version, x, id);
      } else {
        OthersStand(s0, s, s', (version, x), next, z);
      }
    }
  }

  // The versions at the cursor follow the raise.
  lemma TurnKeepsVersions(s: Scheduler, members: set<Shard>, vss: set<Entry>, version: int, x: Shard, id: WorkerSetID)
    requires VersionsOf(s, members, vss) && x in members && Indexed(s, x)
      && Indirect(s, x).version == version <= id.version
    ensures (version, x) in vss
    ensures VersionsOf(RaiseIndirect(s, x, id), members, (vss - {(version, x)}) + {(id.version, x)})
  {}

  // What holds while the pass stands at `cursor` with the members of `version` in vss.
  ghost predicate Walking(sys0: System, s: Scheduler, cursor: Option<Entry>, version: int, vss: set<Entry>) {
    && Core(sys0) && Sound(sys0.s, s) && CursorCovers(sys0.s, s, cursor)
    && VersionsOf(s, Members(sys0.s, version), vss) && OwnIDs(s)
  }

  // Indirect IDs are this scheduler's.
  ghost predicate OwnIDs(s: Scheduler) {
    forall x :: Indexed(s, x) ==> Indirect(s, x).schedulerID == s.id
  }

  // At an entry of the current version, no CHECK of the inner loop can fail.
  lemma AtCursor(sys0: System, s: Scheduler, it: Entry, vss: set<Entry>, last: Entry)
    requires Walking(sys0, s, Some(it), it.0, vss)
    requires it in vss ==> last in vss && forall o :: o in vss ==> !Before(last, o)
    ensures it.1 in Live(sys0.s) && Indexed(s, it.1) && Indirect(s, it.1).version == it.0 && it in vss
    ensures s.pool[it.1].worker.shard == it.1 && (last.0, it.1) !in vss - {it}
    ensures last.1 in Members(sys0.s, it.0) && Indexed(s, last.1) && Indirect(s, last.1).version == last.0
      && it.0 <= last.0
    ensures forall z :: z in Members(sys0.s, it.0) && Indexed(s, z) ==> Indirect(s, z).version <= last.0
  {
    hide Members, Requires, Advanced;
    assert it in s.index && IndexInStep(s);
    assert it.1 in Live(s) && Live(s) == Live(sys0.s);
    StandsInOwnSet(sys0, s, it.1);
  }

  lemma TurnWalks(sys0: System, s: Scheduler, it: Entry, vss: set<Entry>, last: Entry, next: Option<Entry>)
    requires Walking(sys0, s, Some(it), it.0, vss) && last in vss && forall o :: o in vss ==> !Before(last, o)
    requires IsSuccessor(s.index, it, next)
    ensures it in vss && it.1 in s.pool && Indexed(s, last.1) && CanRaise(s, it.1, Indirect(s, last.1))
    ensures Raised(s, RaiseIndirect(s, it.1, Indirect(s, last.1)), it.1, Indirect(s, last.1))
    ensures Walking(sys0, RaiseIndirect(s, it.1, Indirect(s, last.1)), next, it.0, (vss - {it}) + {(last.0, it.1)})
  {
    hide Members, Sound, CursorCovers, IsSuccessor, Core, RaiseIndirect;
    AtCursor(sys0, s, it, vss, last);
    var s0, x, id := sys0.s, it.1, Indirect(s, last.1);
    CursorIsIndexed(s0, s, it);
    TurnIsSound(s0, s, it.0, x, last.1);
    RaiseShape(s, x, id);
    TurnCovers(s0, s, RaiseIndirect(s, x, id), it.0, x, id, next);
    TurnKeepsVersions(s, Members(s0, it.0), vss, it.0, x, id);
    TurnKeepsOwnIDs(s, x, id);
  }

  lemma TurnKeepsOwnIDs(s: Scheduler, x: Shard, id: WorkerSetID)
    requires OwnIDs(s) && x in s.pool && id.schedulerID == s.id
    ensures OwnIDs(RaiseIndirect(s, x, id))
  {
    var s' := RaiseIndirect(s, x, id);
    forall y | Indexed(s', y) ensures Indirect(s', y).schedulerID == s'.id {
      assert s' == s || y == x || s'.pool[y] == s.pool[y];
      assert y != x ==> Indexed(s, y);
    }
  }

  lemma CursorIsIndexed(s0: Scheduler, s: Scheduler, it: Entry)
    requires CursorCovers(s0, s, Some(it))
    ensures it in s.index
  {}

  // The entries of the current version that the cursor has yet to pass.
  ghost function Pending(index: set<Entry>, cursor: Option<Entry>, version: int): set<Entry> {
    set e | e in index && e.0 == version && cursor.Some? && !Before(e, cursor.value)
  }

  lemma PendingShrinks(index: set<Entry>, it: Entry, next: Option<Entry>, raised: Entry)
    requires it in index && IsSuccessor(index, it, next) && it.1 == raised.1 && it.0 <= raised.0
    ensures Pending((index - {it}) + {raised}, next, it.0) < Pending(index, Some(it), it.0)
  {
    assert it in Pending(index, Some(it), it.0);
    assert it !in Pending((index - {it}) + {raised}, next, it.0);
  }
}

/**
 What repeated passes of propagateIndirectWorkerSets come to (bistro/remote/RemoteWorkers.cpp): they
 never leave the transitive closure of the worker sets that the workers know, and pass after pass
 they cover one more step of it.
 */
module Convergence {
  import opened Propagation
  import opened WorkerSets
  import opened WorkerSetPasses

  // Passes with no other step between them.
  ghost predicate Passes(s: Scheduler, states: seq<Scheduler>) {
    states != [] && states[0] == s && forall i :: 0 <= i < |states| - 1 ==> Propagated(states[i], states[i + 1])
  }

  // Only the indirect IDs of live workers differ, and none is lower.
  ghost predicate OnlyRaised(s: Scheduler, s': Scheduler) {
    && s'.history == s.history && s'.first == s.first && s'.current == s.current
    && s'.pool.Keys == s.pool.Keys && Live(s') == Live(s)
    && (forall x :: Indexed(s', x) <==> Indexed(s, x))
    && (forall x :: Indexed(s, x) ==> Indirect(s, x).version <= Indirect(s', x).version)
    && (forall x :: Indexed(s, x) && x !in Live(s) ==> Indirect(s', x) == Indirect(s, x))
  }

  lemma PropagatedRaises(s: Scheduler, s': Scheduler)
    requires Propagated(s, s')
    ensures OnlyRaised(s, s')
  {
    hide Members, Requires, IndexInStep;
    forall x ensures Indexed(s', x) <==> Indexed(s, x) {
      assert x in s.pool && !Indexed(s, x) ==> s'.pool[x] == s.pool[x];
      assert Indexed(s, x) ==> x in Live(s) || Lost(s.pool[x]);
    }
  }

  lemma {:induction false} PassesRaise(s: Scheduler, states: seq<Scheduler>, i: nat, j: nat)
    requires Passes(s, states) && i <= j < |states|
    ensures OnlyRaised(states[i], states[j])
    decreases j - i
  {
    hide Propagated, Live;
    if i < j {
      PassesRaise(s, states, i, j - 1);
      PropagatedRaises(states[j - 1], states[j - 1 + 1]);
    }
  }

  lemma {:induction false} PassesKeepCore(sys: System, states: seq<Scheduler>, k: nat)
    requires Core(sys) && Passes(sys.s, states) && k < |states|
    ensures Core(System(states[k], sys.sent))
  {
    hide Core, Propagated;
    if k > 0 {
      PassesKeepCore(sys, states, k - 1);
      PropagateKeepsCore(System(states[k - 1], sys.sent), states[k - 1 + 1]);
    }
  }

  // ---------------------------------------------------------------- never too high

  lemma NextIsRequired(s: Scheduler, s': Scheduler, x: Shard)
    requires Propagated(s, s') && Indexed(s', x)
    ensures Indexed(s, x) && Requires(s, x, Indirect(s', x))
  {
    hide Members;
    PropagatedRaises(s, s');
    if x !in Live(s) {
      assert IsChain(s, [x]);
    }
  }

  // What is required after a pass was required before it.
  lemma {:induction false} ClosureShrinks(s: Scheduler, s': Scheduler, chain: seq<Shard>)
    requires Propagated(s, s') && IsChain(s', chain)
    ensures Requires(s, chain[0], Indirect(s', chain[|chain| - 1]))
    decreases |chain|
  {
    hide Requires, Live;
    NextIsRequired(s, s', chain[0]);
    if |chain| > 1 {
      var rest := chain[1..];
      assert IsChain(s', rest) by {
        forall i | 0 < i < |rest| ensures rest[i] in Members(s', Indirect(s', rest[i - 1]).version) {
          assert chain[i + 1] in Members(s', Indirect(s', chain[i + 1 - 1]).version);
        }
      }
      ClosureShrinks(s, s', rest);
      assert chain[1] in Members(s', Indirect(s', chain[1 - 1]).version);
      RequiresStep(s, chain[0], Indirect(s', chain[0]), chain[1], Indirect(s', chain[|chain| - 1]));
    }
  }

  lemma {:induction false} RequiredBefore(s: Scheduler, states: seq<Scheduler>, k: nat, x: Shard, id: WorkerSetID)
    requires Passes(s, states) && k < |states| && Requires(states[k], x, id)
    ensures Requires(s, x, id)
  {
    hide Members, Propagated;
    if k > 0 {
      var chain :| IsChain(states[k], chain) && chain[0] == x && Indirect(states[k], chain[|chain| - 1]) == id;
      ClosureShrinks(states[k - 1], states[k - 1 + 1], chain);
      RequiredBefore(s, states, k - 1, x, id);
    }
  }

  // However many passes are made, a worker requires only what it required before the first.
  lemma PassesStayInClosure(s: Scheduler, states: seq<Scheduler>, k: nat, x: Shard)
    requires Passes(s, states) && k < |states| && Indexed(s, x)
    ensures Indexed(states[k], x) && Requires(s, x, Indirect(states[k], x))
  {
    hide Propagated, Members;
    PassesRaise(s, states, 0, k);
    assert IsChain(states[k], [x]);
    RequiredBefore(s, states, k, x, Indirect(states[k], x));
  }

  // ---------------------------------------------------------------- and one step farther each pass

  // A chain through live workers; the last may be lost.
  ghost predicate LiveChain(s: Scheduler, chain: seq<Shard>) {
    IsChain(s, chain) && forall i :: 0 <= i < |chain| - 1 ==> chain[i] in Live(s)
  }

  // A live worker stays in every later worker set.
  lemma StaysMember(sys: System, s': Scheduler, x: Shard, y: Shard)
    requires Core(sys) && Core(System(s', sys.sent)) && OnlyRaised(sys.s, s')
    requires x in Live(sys.s) && y in Live(sys.s) && Indexed(sys.s, x) && Indexed(sys.s, y)
    requires Indirect(sys.s, y).version <= Indirect(s', x).version
    ensures y in Members(s', Indirect(s', x).version)
  {
    hide HistoryOK, SummariesOK, IndexInStep, LostOK, PoolOK;
    var s := sys.s;
    assert SentOK(s, y, sys.sent[y]) && IDsOK(s, y, sys.sent[y]);
    assert x in Live(s') && IDsOK(s', x, sys.sent[x]);
    var since := s.pool[y].firstAssociatedWorkerSetID.value;
    assert MemberSince(s, y, since.version);
    assert y in Members(s, Indirect(s', x).version);
  }

  lemma OneStepFarther(s: Scheduler, s': Scheduler, x: Shard, y: Shard)
    requires Propagated(s, s') && x in Live(s) && Indexed(s, x) && Indexed(s, y)
    requires y in Members(s, Indirect(s, x).version)
    ensures Indexed(s', x) && Indirect(s, y).version <= Indirect(s', x).version
  {
    hide Members, Requires;
  }

  // After k passes a worker's indirect version is at least that of every worker at the end of a
  // chain of k steps.
  lemma {:induction false} PassesCover(sys: System, states: seq<Scheduler>, k: nat, chain: seq<Shard>)
    requires Core(sys) && Passes(sys.s, states) && k < |states| && LiveChain(sys.s, chain) && |chain| <= k + 1
    ensures Indexed(states[k], chain[0])
    ensures Indirect(sys.s, chain[|chain| - 1]).version <= Indirect(states[k], chain[0]).version
    decreases |chain|
  {
    hide Core, Propagated, Members, Live;
    var s, x := sys.s, chain[0];
    PassesRaise(s, states, 0, k);
    if |chain| > 1 {
      var y := chain[1];
      assert y in Members(s, Indirect(s, chain[1 - 1]).version);
      OneStepFarther(states[0], states[0 + 1], x, y);
      PassesRaise(s, states, 1, k);
      if |chain| > 2 {
        PassesRaise(s, states, 0, k - 1);
        PassesRaise(s, states, 1, k - 1);
        PassesKeepCore(sys, states, k - 1);
        RestIsChain(s, chain);
        PassesCover(sys, states, k - 1, chain[1..]);
        StaysMember(sys, states[k - 1], x, y);
        OneStepFarther(states[k - 1], states[k - 1 + 1], x, y);
      }
    }
  }

  lemma RestIsChain(s: Scheduler, chain: seq<Shard>)
    requires LiveChain(s, chain) && 1 < |chain|
    ensures LiveChain(s, chain[1..])
  {
    hide Members, Live;
    var rest := chain[1..];
    forall i | 0 < i < |rest| ensures rest[i] in Members(s, Indirect(s, rest[i - 1]).version) {
      assert chain[i + 1] in Members(s, Indirect(s, chain[i + 1 - 1]).version);
    }
  }
}

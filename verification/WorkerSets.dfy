/**
 The scheduler's record of its remote workers and of the worker sets they know
 (bistro/remote/RemoteWorkers.cpp, bistro/remote/RemoteWorker.cpp), as values.

 The CHECKs that a step makes are collected in a predicate beside it (CanLose, CanRaise,
 StepFits); the invariant implies them.
 */
module WorkerSets {
  import opened Folds
  import opened Health
  import opened Options
  import opened SetHash

  // Shards and hostnames are only compared, so numbers stand for the strings.
  type Shard = nat
  type Host = nat

  datatype Machine = Machine(hostname: Host, port: int)

  datatype BistroWorker = BistroWorker(shard: Shard, machineLock: Machine, id: InstanceID, heartbeatPeriodSec: int)

  datatype WorkerSetID = WorkerSetID(schedulerID: InstanceID, version: int, hash: Hash)

  datatype RemoteWorker = RemoteWorker(
    worker: BistroWorker,
    health: WorkerState,
    initialWorkerSetID: WorkerSetID,
    workerSetID: Option<WorkerSetID>,
    firstAssociatedWorkerSetID: Option<WorkerSetID>,
    indirectWorkerSetID: Option<WorkerSetID>)

  // One change of the worker set: `removed` applies before `added`.
  datatype HistoryStep = HistoryStep(removed: Option<Shard>, added: set<Shard>)

  // RemoteWorkers.  `first` is the earliest version in the history, one past the current
  // version when the history is empty.
  datatype Scheduler = Scheduler(
    id: InstanceID,
    pool: map<Shard, RemoteWorker>,
    hosts: map<Host, set<Shard>>,
    initialIDs: multiset<WorkerSetID>,
    index: set<(int, Shard)>,
    current: WorkerSetID,
    history: map<int, HistoryStep>,
    first: int)

  // The scheduler together with the worker set IDs it has sent to each current instance.
  datatype System = System(s: Scheduler, sent: map<Shard, set<WorkerSetID>>)

  // ------------------------------------------------------------ what the state means

  predicate Lost(w: RemoteWorker) {
    w.health.state.MustDie?
  }

  // The non-MUST_DIE workers.
  function Live(s: Scheduler): set<Shard> {
    set x | x in s.pool && !Lost(s.pool[x])
  }

  function Apply(members: set<Shard>, step: HistoryStep): set<Shard> {
    (if step.removed.Some? then members - {step.removed.value} else members) + step.added
  }

  // The worker set at a version, replayed from the start of the history.
  function Replay(history: map<int, HistoryStep>, first: int, version: int): set<Shard>
    decreases version - first
  {
    if version < first then {}
    else if version in history then Apply(Replay(history, first, version - 1), history[version])
    else Replay(history, first, version - 1)
  }

  function Members(s: Scheduler, version: int): set<Shard> {
    Replay(s.history, s.first, version)
  }

  // A step changes the set it is applied to by exactly what it says (mergeHistoryStep's CHECKs).
  predicate StepFits(members: set<Shard>, step: HistoryStep) {
    && (step.removed.Some? ==> step.removed.value in members)
    && step.added !! (if step.removed.Some? then members - {step.removed.value} else members)
  }

  // ------------------------------------------------------------ the callbacks

  function Fresh(bw: BistroWorker, id: WorkerSetID, now: int): RemoteWorker {
    RemoteWorker(bw, Initial(now), id, None, None, None)
  }

  // The new-worker callback, run by RemoteWorker's constructor.
  function Connect(s: Scheduler, bw: BistroWorker, id: WorkerSetID, now: int): Scheduler {
    var version := s.current.version + 1;
    s.(pool := s.pool[bw.shard := Fresh(bw, id, now)],
       initialIDs := s.initialIDs + multiset{id},
       current := WorkerSetID(s.current.schedulerID, version, Add(s.current.hash, bw.id)),
       history := s.history[version := HistoryStep(None, {bw.shard})])
  }

  predicate CanLose(s: Scheduler, x: Shard) {
    && x in s.pool
    && s.pool[x].initialWorkerSetID in s.initialIDs
    && (s.pool[x].indirectWorkerSetID.Some? ==>
          && s.pool[x].indirectWorkerSetID.value.schedulerID == s.id
          && (s.pool[x].indirectWorkerSetID.value.version, x) in s.index)
    && 0 < s.current.hash.numWorkers
    && s.current.version + 1 !in s.history
  }

  // The dead-worker callback, and the transition to MUST_DIE that goes with it.
  function Lose(s: Scheduler, x: Shard, now: int): Scheduler
    requires x in s.pool
  {
    var w := s.pool[x];
    var version := s.current.version + 1;
    s.(pool := s.pool[x := w.(health := Advance(w.health, MustDie, now))],
       initialIDs := s.initialIDs - multiset{w.initialWorkerSetID},
       index := if w.indirectWorkerSetID.Some? then s.index - {(w.indirectWorkerSetID.value.version, x)} else s.index,
       current := WorkerSetID(s.current.schedulerID, version, Remove(s.current.hash, w.worker.id)),
       history := s.history[version := HistoryStep(Some(x), {})])
  }

  // updateIndirectWorkerSetVersion and its CHECKs: a newer version replaces the indexed one.
  predicate CanRaise(s: Scheduler, x: Shard, id: WorkerSetID) {
    && x in s.pool
    && var prev := s.pool[x].indirectWorkerSetID;
       && (prev.Some? ==> prev.value.schedulerID == s.id)
       && (prev.Some? && prev.value.version < id.version ==> (prev.value.version, x) in s.index)
       && (prev.None? || prev.value.version < id.version ==> (id.version, x) !in s.index)
  }

  function RaiseIndirect(s: Scheduler, x: Shard, id: WorkerSetID): Scheduler
    requires x in s.pool
  {
    var prev := s.pool[x].indirectWorkerSetID;
    if prev.Some? && !(prev.value.version < id.version) then s
    else
      s.(index := (if prev.Some? then s.index - {(prev.value.version, x)} else s.index) + {(id.version, x)},
         pool := s.pool[x := s.pool[x].(indirectWorkerSetID := Some(id))])
  }

  // ------------------------------------------------------------ the worker's own steps

  // Whether the source accepts an echoed ID of this scheduler as a new version.
  predicate StaleEcho(s: Scheduler, w: RemoteWorker, id: WorkerSetID) {
    || id.schedulerID != s.id
    || (w.initialWorkerSetID.schedulerID == s.id && !(w.initialWorkerSetID.version < id.version))
  }

  predicate NewerEcho(s: Scheduler, w: RemoteWorker, id: WorkerSetID) {
    !StaleEcho(s, w, id) && (w.workerSetID.None? || w.workerSetID.value.version < id.version)
  }

  // updateCurrentWorker's treatment of the echoed ID.
  function Echo(s: Scheduler, x: Shard, id: WorkerSetID): Scheduler
    requires x in s.pool
  {
    if !NewerEcho(s, s.pool[x], id) then s
    else
      var s1 := RaiseIndirect(s, x, id);
      var w := s1.pool[x];
      s1.(pool := s1.pool[x := w.(
        workerSetID := Some(id),
        firstAssociatedWorkerSetID :=
          if w.firstAssociatedWorkerSetID.None? then Some(id) else w.firstAssociatedWorkerSetID)])
  }

  function NextState(s: Scheduler, f: Flags, x: Shard, now: int, consensus: bool): State
    requires x in s.pool
  {
    SchedulerState(f, s.pool[x].health, s.pool[x].worker.heartbeatPeriodSec, now, consensus).0
  }

  // RemoteWorker::updateState
  function UpdateWorker(s: Scheduler, f: Flags, x: Shard, now: int, consensus: bool): Scheduler
    requires x in s.pool
  {
    var w := s.pool[x];
    var next := NextState(s, f, x, now, consensus);
    if Lost(w) then s
    else if next.MustDie? then Lose(s, x, now)
    else s.(pool := s.pool[x := w.(health := Advance(w.health, next, now))])
  }

  function Heard(s: Scheduler, x: Shard, bw: BistroWorker, now: int): Scheduler
    requires x in s.pool
  {
    var w := s.pool[x];
    s.(pool := s.pool[x := w.(worker := bw, health := w.health.(timeLastHeartbeatReceived := now))])
  }

  // The constant-time consensus check: every indexed version is at least the version with
  // which the worker was first associated.
  predicate ConsensusPermits(s: Scheduler, x: Shard)
    requires x in s.pool
  {
    var w := s.pool[x];
    && w.workerSetID == Some(s.current)
    && |s.index| == s.current.hash.numWorkers
    && w.firstAssociatedWorkerSetID.Some?
    && forall e :: e in s.index ==> !(e.0 < w.firstAssociatedWorkerSetID.value.version)
  }

  // initializeRunningTasks moves a NEW worker on; other workers ignore it.
  function InitializeTasks(s: Scheduler, x: Shard): Scheduler
    requires x in s.pool
  {
    var w := s.pool[x];
    if !w.health.state.New? then s
    else s.(pool := s.pool[x := w.(health := w.health.(state := Unhealthy))])
  }

  // A successful healthcheck that was sent at the given time.
  function GoodHealthcheck(s: Scheduler, x: Shard, sentAt: int): Scheduler
    requires x in s.pool
  {
    var w := s.pool[x];
    var last := w.health.timeLastGoodHealthcheckSent;
    s.(pool := s.pool[x := w.(health := w.health.(
      timeLastGoodHealthcheckSent := if last < sentAt then sentAt else last))])
  }

  // ------------------------------------------------------------ host pools

  function HostPool(s: Scheduler, h: Host): set<Shard> {
    if h in s.hosts then s.hosts[h] else {}
  }

  // Moving a shard between host pools after the heartbeat was handled.
  function MoveHost(s: Scheduler, x: Shard, before: Host): Scheduler
    requires x in s.pool
  {
    var after := s.pool[x].worker.machineLock.hostname;
    if after == before then s
    else
      var s1 := s.(hosts := s.hosts[before := HostPool(s, before) - {x}]);
      s1.(hosts := s1.hosts[after := HostPool(s1, after) + {x}])
  }

  // ------------------------------------------------------------ pruning and propagation

  // Live workers that have not yet echoed a worker set ID of this scheduler.
  predicate HasLimbo(s: Scheduler) {
    |s.initialIDs| > |s.index|
  }

  // pruneUnusedHistoryVersions: everything before the earliest referenced version is merged
  // into that version.
  ghost predicate Pruned(s: Scheduler, s': Scheduler) {
    if HasLimbo(s) then s' == s
    else if Live(s) == {} then s' == s.(history := map[], first := s.current.version + 1)
    else
      && s' == s.(history := s'.history, first := s'.first)
      && IsEarliestReference(s, s'.first)
      && MergedUpTo(s, s'.history, s'.first)
  }

  ghost predicate MergedUpTo(s: Scheduler, history: map<int, HistoryStep>, first: int) {
    && (forall v :: v in history <==> v in s.history && first <= v)
    && (first in history ==> history[first] == HistoryStep(None, Members(s, first)))
    && (forall v :: v in history && first < v ==> history[v] == s.history[v])
  }

  ghost predicate IsEarliestReference(s: Scheduler, v: int) {
    && (exists x :: x in Live(s) && s.pool[x].workerSetID.Some? && s.pool[x].workerSetID.value.version == v)
    && (forall x :: x in Live(s) && s.pool[x].workerSetID.Some? ==> v <= s.pool[x].workerSetID.value.version)
  }

  predicate Indexed(s: Scheduler, x: Shard) {
    x in s.pool && s.pool[x].indirectWorkerSetID.Some?
  }

  function Indirect(s: Scheduler, x: Shard): WorkerSetID
    requires Indexed(s, x)
  {
    s.pool[x].indirectWorkerSetID.value
  }

  // A chain of shards, each in the indirect worker set of the one before.
  ghost predicate IsChain(s: Scheduler, chain: seq<Shard>) {
    && |chain| > 0
    && (forall i :: 0 <= i < |chain| ==> Indexed(s, chain[i]))
    && (forall i :: 0 < i < |chain| ==> chain[i] in Members(s, Indirect(s, chain[i - 1]).version))
  }

  // x indirectly requires the worker set `id`.
  ghost predicate Requires(s: Scheduler, x: Shard, id: WorkerSetID) {
    exists chain :: IsChain(s, chain) && chain[0] == x && Indirect(s, chain[|chain| - 1]) == id
  }

  // propagateIndirectWorkerSets: only indirect IDs of live workers change, none is lowered, each
  // new one lies in the transitive closure of the old ones, and at least one step of the
  // closure is made.
  ghost predicate Propagated(s: Scheduler, s': Scheduler) {
    && s' == s.(pool := s'.pool, index := s'.index)
    && s'.pool.Keys == s.pool.Keys
    && (forall x :: x in s.pool ==> s'.pool[x] == s.pool[x].(indirectWorkerSetID := s'.pool[x].indirectWorkerSetID))
    && (forall x :: x in s.pool && (Lost(s.pool[x]) || !Indexed(s, x)) ==> s'.pool[x] == s.pool[x])
    && (forall x :: x in Live(s) && Indexed(s, x) ==>
          && Indexed(s', x)
          && Indirect(s, x).version <= Indirect(s', x).version
          && Requires(s, x, Indirect(s', x))
          && forall y :: y in Members(s, Indirect(s, x).version) && Indexed(s, y) ==>
               Indirect(s, y).version <= Indirect(s', x).version)
    && IndexInStep(s')
  }

  // The denormalized index holds the indirect version of every live worker that has one.
  ghost predicate IndexInStep(s: Scheduler) {
    && (forall e :: e in s.index ==> e.1 in Live(s) && Indexed(s, e.1) && Indirect(s, e.1).version == e.0)
    && (forall x :: x in Live(s) && Indexed(s, x) ==> (Indirect(s, x).version, x) in s.index)
  }

  // ------------------------------------------------------------ the invariant

  // History keys are contiguous, replay to the current version gives the live workers, and
  // every step fits the set before it.
  ghost predicate HistoryOK(s: Scheduler) {
    && s.first <= s.current.version + 1
    && (forall v :: v in s.history <==> s.first <= v <= s.current.version)
    && Members(s, s.current.version) == Live(s)
    && (forall v :: v in s.history ==> StepFits(Members(s, v - 1), s.history[v]))
    && (forall v :: v in s.history ==> Members(s, v) <= s.pool.Keys)
  }

  // From this version on, x has been a member of every worker set.
  ghost predicate MemberSince(s: Scheduler, x: Shard, version: int) {
    forall v :: version <= v <= s.current.version && s.first <= v ==> x in Members(s, v)
  }

  // What was sent to an instance: IDs of this scheduler, one per version.
  ghost predicate SentOnce(s: Scheduler, sent: set<WorkerSetID>) {
    && (forall id :: id in sent ==>
          && id.schedulerID == s.id && id.version <= s.current.version
          && (id.version == s.current.version ==> id == s.current))
    && (forall a, b :: a in sent && b in sent && a.version == b.version ==> a == b)
  }

  // What was sent to a live instance also contains it.
  ghost predicate SentOK(s: Scheduler, x: Shard, sent: set<WorkerSetID>)
    requires x in s.pool
  {
    && SentOnce(s, sent)
    && (forall id :: id in sent ==>
          MemberSince(s, x, id.version) && (s.pool[x].workerSetID.None? ==> s.first <= id.version))
  }

  // The three IDs of a live worker are set together and only grow.
  ghost predicate IDsOK(s: Scheduler, x: Shard, sent: set<WorkerSetID>)
    requires x in s.pool
  {
    var w := s.pool[x];
    if w.workerSetID.None? then w.firstAssociatedWorkerSetID.None? && w.indirectWorkerSetID.None?
    else
      && w.firstAssociatedWorkerSetID.Some? && w.indirectWorkerSetID.Some?
      && w.workerSetID.value in sent && w.firstAssociatedWorkerSetID.value in sent
      && s.first <= w.workerSetID.value.version
      && w.firstAssociatedWorkerSetID.value.version <= w.workerSetID.value.version
           <= w.indirectWorkerSetID.value.version <= s.current.version
  }

  // A lost worker keeps its three IDs; all of them are older than its loss.
  ghost predicate LostOK(s: Scheduler, x: Shard, sent: set<WorkerSetID>)
    requires x in s.pool
  {
    var w := s.pool[x];
    && SentOnce(s, sent)
    && if w.workerSetID.None? then w.firstAssociatedWorkerSetID.None? && w.indirectWorkerSetID.None?
       else
         && w.firstAssociatedWorkerSetID.Some? && w.indirectWorkerSetID.Some? && w.workerSetID.value in sent
         && w.workerSetID.value.version <= w.indirectWorkerSetID.value.version < s.current.version
  }

  // Workers are pooled by shard, and require only versions of this scheduler.
  ghost predicate PoolOK(s: Scheduler) {
    && (forall x :: x in s.pool ==> s.pool[x].worker.shard == x)
    && (forall x :: x in s.pool && Indexed(s, x) ==>
          Indirect(s, x).schedulerID == s.id && Indirect(s, x).version <= s.current.version)
  }

  ghost predicate WorkersOK(sys: System) {
    var s := sys.s;
    && PoolOK(s)
    && (forall x :: x in s.pool && Lost(s.pool[x]) ==> x in sys.sent && LostOK(s, x, sys.sent[x]))
    && (forall x :: x in Live(s) ==> x in sys.sent && SentOK(s, x, sys.sent[x]) && IDsOK(s, x, sys.sent[x]))
  }

  function Instances(s: Scheduler): map<Shard, InstanceID> {
    map x | x in s.pool :: s.pool[x].worker.id
  }

  function Initials(s: Scheduler): map<Shard, WorkerSetID> {
    map x | x in s.pool :: s.pool[x].initialWorkerSetID
  }

  function Insert(m: multiset<WorkerSetID>, id: WorkerSetID): multiset<WorkerSetID> {
    m + multiset{id}
  }

  // The current ID, its hash and the initial IDs are what the live workers give.
  ghost predicate SummariesOK(s: Scheduler) {
    && s.current.schedulerID == s.id
    && s.current.hash == HashOf(Instances(s), Live(s))
    && s.initialIDs == Fold(Insert, multiset{}, Initials(s), Live(s))
  }

  // The host pools partition all workers by hostname.
  ghost predicate HostsOK(s: Scheduler) {
    && (forall x :: x in s.pool ==> x in HostPool(s, s.pool[x].worker.machineLock.hostname))
    && (forall h, x :: h in s.hosts && x in s.hosts[h] ==> x in s.pool && s.pool[x].worker.machineLock.hostname == h)
  }

  ghost predicate Core(sys: System) {
    HistoryOK(sys.s) && WorkersOK(sys) && IndexInStep(sys.s) && SummariesOK(sys.s)
  }

  ghost predicate Inv(sys: System) {
    Core(sys) && HostsOK(sys.s)
  }
}

/** The in-memory statuses of all tasks (bistro/statuses/TaskStatusSnapshot.cpp). */
module Snapshot {
  import opened Options
  import opened TaskStatuses

  // Jobs and nodes are known by their index in the name tables.
  type TaskID = (nat, nat)

  datatype Row = Row(statuses: seq<Status>, isLoaded: bool)

  const NO_ROW := Row([], false)

  // What the vectors say, past their ends included.
  function StatusAt(rows: seq<Row>, id: TaskID): Status {
    if id.0 < |rows| && id.1 < |rows[id.0].statuses| then rows[id.0].statuses[id.1] else EMPTY
  }

  predicate LoadedAt(rows: seq<Row>, job: nat) {
    job < |rows| && rows[job].isLoaded
  }

  function Padded(statuses: seq<Status>, size: nat): (r: seq<Status>)
    ensures |r| == if |statuses| < size then size else |statuses|
    ensures forall i :: 0 <= i < |r| ==> r[i] == if i < |statuses| then statuses[i] else EMPTY
  {
    if |statuses| < size then statuses + seq(size - |statuses|, i => EMPTY) else statuses
  }

  function Lengthened(rows: seq<Row>, size: nat): (r: seq<Row>)
    ensures |r| == if |rows| < size then size else |rows|
    ensures forall i :: 0 <= i < |r| ==> r[i] == if i < |rows| then rows[i] else NO_ROW
  {
    if |rows| < size then rows + seq(size - |rows|, i => NO_ROW) else rows
  }

  // access(), then an assignment to what it returns.
  function Put(rows: seq<Row>, id: TaskID, s: Status): (r: seq<Row>)
    ensures forall o :: StatusAt(r, o) == if o == id then s else StatusAt(rows, o)
    ensures forall job :: LoadedAt(r, job) == LoadedAt(rows, job)
    ensures id.0 < |r| && |rows| <= |r|
  {
    var long := Lengthened(rows, id.0 + 1);
    var statuses := Padded(long[id.0].statuses, id.1 + 1);
    long[id.0 := long[id.0].(statuses := statuses[id.1 := s])]
  }

  datatype TaskResult = DONE | FAILED | BAD

  datatype Record = Record(job: nat, node: nat, result: TaskResult, timestamp: int)

  // The callback that loads one record of the task store.
  function LoadOne(s: Status, r: Record, now: int): Status {
    match r.result
    case DONE => Status({Done}, None, r.timestamp, 0)
    case FAILED => Status({Failed}, None, now, 0)
    case BAD => s
  }

  function LoadAll(s: Status, store: seq<Record>, id: TaskID, now: int): Status {
    if store == [] then s
    else
      var before, r := LoadAll(s, store[..|store| - 1], id, now), store[|store| - 1];
      if (r.job, r.node) == id then LoadOne(before, r, now) else before
  }

  predicate Runs(running: map<TaskID, RunningTask>, job: nat) {
    exists id :: id in running && id.0 == job
  }

  // What updateForConfig makes of one task.
  ghost function Refreshed(rows: seq<Row>, running: map<TaskID, RunningTask>, jobs: set<nat>, store: seq<Record>,
                           now: int, id: TaskID): Status
  {
    var kept := id.0 in jobs || Runs(running, id.0);
    var marked := if id in running then RunningStatus(None, now) else if kept then StatusAt(rows, id) else EMPTY;
    if kept && !LoadedAt(rows, id.0) then LoadAll(marked, store, id, now) else marked
  }

  class TaskStatusSnapshot {
    var rows: seq<Row>
    var runningTasks: map<TaskID, RunningTask>

    // Only tasks known to be running are marked so.
    ghost predicate Valid()
      reads this
    {
      forall id: TaskID :: StatusOK(StatusAt(rows, id)) && (Running in StatusAt(rows, id).bits ==> id in runningTasks)
    }

    ghost function CellAt(id: TaskID): Cell
      reads this
    {
      Cell(StatusAt(rows, id), if id in runningTasks then Some(runningTasks[id]) else None)
    }

    constructor ()
      ensures Valid() && rows == [] && runningTasks == map[]
    {
      rows, runningTasks := [], map[];
    }

    // Exactly one task changes, and changes as Deliver says.
    method UpdateStatus(id: TaskID, rt: RunningTask, status: Status) returns (r: Status)
      requires Valid() && CanUpdate(rt, status) && Concerns(CellAt(id), rt)
      modifies this
      ensures Valid() && CellAt(id) == Deliver(old(CellAt(id)), rt, status) && r == CellAt(id).stored
      ensures Running in status.bits || id in old(runningTasks) ==>
        StoredAs(StatusAt(rows, id), rt, status, PreviousBackoff(StatusAt(old(rows), id), rt))
      ensures id in runningTasks <==> Running in status.bits
      ensures forall o :: o != id ==> CellAt(o) == old(CellAt(o))
      ensures forall job :: LoadedAt(rows, job) == LoadedAt(old(rows), job)
    {
      hide StatusAt, LoadedAt, Put, Update;
      DeliverExactly(CellAt(id), rt, status);
      var stored := StatusAt(rows, id);
      if id in runningTasks {
        assert runningTasks[id].invocation == rt.invocation;  // CHECK
      }
      if Running in status.bits {
        if id !in runningTasks {
          runningTasks := runningTasks[id := rt];
        }
      } else if id !in runningTasks {
        if Overwriteable in status.bits {
          assert Running !in stored.bits;  // CHECK
          return stored;
        }
        if Overwriteable !in stored.bits {
          return stored;
        }
      } else {
        runningTasks := runningTasks - {id};
      }
      UpdateKeepsBits(stored, rt, status);
      r := Update(stored, rt, status);
      rows := Put(rows, id, r);
    }

    method ForgiveJob(job: nat)
      requires Valid()
      modifies this`rows
      ensures Valid() && |rows| == |old(rows)|
      ensures forall id: TaskID ::
        StatusAt(rows, id) == if id.0 == job then Forgive(StatusAt(old(rows), id)) else StatusAt(old(rows), id)
    {
      if job < |rows| {
        var row := rows[job].statuses;
        forall i | 0 <= i < |row| ensures StatusOK(row[i]) {
          assert StatusAt(rows, (job, i)) == row[i];
        }
        var statuses := row;
        for n := 0 to |row|
          invariant |statuses| == |row| && statuses[n..] == row[n..]
          invariant forall i :: 0 <= i < n ==> statuses[i] == Forgive(row[i])
        {
          assert statuses[n] == statuses[n..][0];
          statuses := statuses[n := Forgive(statuses[n])];
        }
        rows := rows[job := rows[job].(statuses := statuses)];
      }
      forall id: TaskID
        ensures StatusAt(rows, id) == if id.0 == job then Forgive(StatusAt(old(rows), id)) else StatusAt(old(rows), id)
      {
        ForgiveKeepsBits(StatusAt(old(rows), id));
      }
      forall id: TaskID
        ensures StatusOK(StatusAt(rows, id)) && (Running in StatusAt(rows, id).bits ==> id in runningTasks)
      {
        ForgiveKeepsBits(StatusAt(old(rows), id));
      }
    }

    // Marks the running tasks, forgets the statuses of jobs that are gone, and loads those of
    // jobs that are new.
    method UpdateForConfig(jobs: set<nat>, store: seq<Record>, now: int)
      requires Valid()
      modifies this`rows
      ensures Valid()
      ensures forall id: TaskID :: StatusAt(rows, id) == Refreshed(old(rows), runningTasks, jobs, store, now, id)
      ensures forall job :: job in jobs || Runs(runningTasks, job) ==> LoadedAt(rows, job)
    {
      ghost var before := rows;
      var current := MarkRunning(jobs, now);
      ClearStale(current);
      Load(current, store, now);
      forall id: TaskID
        ensures StatusOK(StatusAt(rows, id)) && (Running in StatusAt(rows, id).bits ==> id in runningTasks)
      {
        LoadKeepsBits(StatusAt(before, id), store, id, now);
        LoadKeepsBits(RunningStatus(None, now), store, id, now);
      }
    }

    // Returns the configured jobs and those with running tasks.
    method MarkRunning(jobs: set<nat>, now: int) returns (current: set<nat>)
      modifies this`rows
      ensures forall job :: job in current <==> job in jobs || Runs(runningTasks, job)
      ensures forall id: TaskID ::
        StatusAt(rows, id) == if id in runningTasks then RunningStatus(None, now) else StatusAt(old(rows), id)
      ensures forall job :: LoadedAt(rows, job) == LoadedAt(old(rows), job)
    {
      hide StatusAt, LoadedAt, Put;
      current := jobs;
      var rest := runningTasks.Keys;
      while rest != {}
        invariant rest <= runningTasks.Keys
        invariant forall job :: job in current <==>
          job in jobs || exists id :: id in runningTasks && id !in rest && id.0 == job
        invariant forall id: TaskID ::
          StatusAt(rows, id)
            == if id in runningTasks && id !in rest then RunningStatus(None, now) else StatusAt(old(rows), id)
        invariant forall job :: LoadedAt(rows, job) == LoadedAt(old(rows), job)
        decreases rest
      {
        var id :| id in rest;
        rest := rest - {id};
        rows := Put(rows, id, RunningStatus(None, now));
        current := current + {id.0};
      }
    }

    method ClearStale(current: set<nat>)
      modifies this`rows
      ensures forall id: TaskID :: StatusAt(rows, id) == if id.0 in current then StatusAt(old(rows), id) else EMPTY
      ensures forall job :: job in current ==> LoadedAt(rows, job) == LoadedAt(old(rows), job)
    {
      for job := 0 to |rows|
        invariant |rows| == |old(rows)|
        invariant forall j :: 0 <= j < |rows| ==>
          rows[j] == if j < job then Kept(current, j, old(rows)[j]) else old(rows)[j]
      {
        if job !in current && rows[job].statuses != [] {
          rows := rows[job := NO_ROW];
        }
      }
    }

    method Load(current: set<nat>, store: seq<Record>, now: int)
      modifies this`rows
      ensures forall id: TaskID ::
        StatusAt(rows, id) == (if id.0 in current && !LoadedAt(old(rows), id.0)
                               then LoadAll(StatusAt(old(rows), id), store, id, now) else StatusAt(old(rows), id))
      ensures forall job :: job in current ==> LoadedAt(rows, job)
    {
      hide StatusAt, LoadedAt, Put, LoadOne;
      ghost var before := rows;
      var names := set job | job in current && !LoadedAt(rows, job);
      for k := 0 to |store|
        invariant forall id: TaskID ::
          StatusAt(rows, id) ==
            if id.0 in names then LoadAll(StatusAt(before, id), store[..k], id, now) else StatusAt(before, id)
      {
        assert store[..k + 1][..k] == store[..k];
        var r := store[k];
        if r.job in names {
          rows := Put(rows, (r.job, r.node), LoadOne(StatusAt(rows, (r.job, r.node)), r, now));
        }
      }
      assert store[..|store|] == store;
      MarkLoaded(current);
    }

    method MarkLoaded(current: set<nat>)
      modifies this`rows
      ensures forall id: TaskID :: StatusAt(rows, id) == StatusAt(old(rows), id)
      ensures forall job :: job in current ==> LoadedAt(rows, job)
    {
      var rest := current;
      while rest != {}
        invariant rest <= current
        invariant forall id: TaskID :: StatusAt(rows, id) == StatusAt(old(rows), id)
        invariant forall job :: job in current && job !in rest ==> LoadedAt(rows, job)
        decreases rest
      {
        var job :| job in rest;
        rest := rest - {job};
        rows := Lengthened(rows, job + 1);
        rows := rows[job := rows[job].(isLoaded := true)];
      }
    }
  }

  function Kept(current: set<nat>, job: nat, row: Row): Row {
    if job !in current && row.statuses != [] then NO_ROW else row
  }

  lemma ForgiveKeepsBits(s: Status)
    requires StatusOK(s)
    ensures Running in Forgive(s).bits <==> Running in s.bits
    ensures Forgive(EMPTY) == EMPTY
  {}

  lemma {:induction false} LoadKeepsBits(s: Status, store: seq<Record>, id: TaskID, now: int)
    requires StatusOK(s)
    ensures StatusOK(LoadAll(s, store, id, now)) && (Running in LoadAll(s, store, id, now).bits ==> Running in s.bits)
  {
    if store != [] {
      LoadKeepsBits(s, store[..|store| - 1], id, now);
    }
  }

  // The last result that the store has for the task; BAD if it has none.
  function LastResult(store: seq<Record>, id: TaskID): TaskResult {
    if store == [] then BAD
    else
      var r := store[|store| - 1];
      if (r.job, r.node) == id && r.result != BAD then r.result else LastResult(store[..|store| - 1], id)
  }

  ghost predicate HasResult(store: seq<Record>, id: TaskID) {
    exists r :: r in store && (r.job, r.node) == id && r.result != BAD
  }

  lemma {:induction false} LoadExactly(s: Status, store: seq<Record>, id: TaskID, now: int)
    ensures LastResult(store, id) != BAD <==> HasResult(store, id)
    ensures
      var loaded := LoadAll(s, store, id, now);
      match LastResult(store, id)
      case DONE => exists r ::
        r in store && (r.job, r.node) == id && r.result.DONE? && loaded == Status({Done}, None, r.timestamp, 0)
      case FAILED => loaded == Status({Failed}, None, now, 0)
      case BAD => loaded == s
  {
    if store != [] {
      var init, last := store[..|store| - 1], store[|store| - 1];
      LoadExactly(s, init, id, now);
      assert store == init + [last];
    }
  }

  // A task that is not running keeps its status if its job was loaded before; if the job is new it
  // gets the last result in the store; if the job is gone it gets none.
  lemma RefreshExactly(rows: seq<Row>, running: map<TaskID, RunningTask>, jobs: set<nat>, store: seq<Record>, now: int,
                       id: TaskID)
    requires id !in running
    ensures
      var r := Refreshed(rows, running, jobs, store, now, id);
      if id.0 !in jobs && !Runs(running, id.0) then r == EMPTY
      else if LoadedAt(rows, id.0) || !HasResult(store, id) then r == StatusAt(rows, id)
      else r.bits == if LastResult(store, id).DONE? then {Done} else {Failed}
  {
    LoadExactly(StatusAt(rows, id), store, id, now);
  }

  // "Refusing to load" a status for a running task does not refuse it: the task stays marked
  // as running exactly when its job was loaded before, or the store has no result for it.
  lemma StaysRunningExactly(rows: seq<Row>, running: map<TaskID, RunningTask>, jobs: set<nat>, store: seq<Record>,
                            now: int, id: TaskID)
    requires id in running
    ensures Running in Refreshed(rows, running, jobs, store, now, id).bits <==>
      LoadedAt(rows, id.0) || !HasResult(store, id)
  {
    LoadExactly(RunningStatus(None, now), store, id, now);
  }

  // A job is removed and added again while its task runs: the failure stored for an earlier run
  // replaces the mark.
  lemma RunningIsOverwritten()
    ensures
      var running := map[(0, 0) := TaskStatuses.RunningTask(1, Backoff(false, 15), 0)];
      var store := [Record(0, 0, FAILED, 50)];
      Running !in Refreshed([], running, {0}, store, 100, (0, 0)).bits
  {
    var running := map[(0, 0) := TaskStatuses.RunningTask(1, Backoff(false, 15), 0)];
    var store := [Record(0, 0, FAILED, 50)];
    assert store[0] in store;
    StaysRunningExactly([], running, {0}, store, 100, (0, 0));
  }

  lemma UpdateKeepsBits(stored: Status, rt: RunningTask, status: Status)
    requires StatusOK(stored) && CanUpdate(rt, status)
    ensures Running in Update(stored, rt, status).bits <==> Running in status.bits
  {}
}

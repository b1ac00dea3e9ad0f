/**
 The status of one task: how it is updated, forgiven and raced (bistro/statuses/TaskStatus.cpp,
 bistro/statuses/TaskStatusSnapshot.cpp).
 */
module TaskStatuses {
  import opened Options

  datatype Bit =
    | Running | Done | Incomplete | Failed | Error
    | UsesBackoff | DoesNotAdvanceBackoff | Overwriteable | HasSavedBackoff

  // The opaque part of a status's data, and the field that saves the configured backoff.
  datatype Data = Data(content: nat, savedBackoff: Option<int>)

  datatype Status = Status(bits: set<Bit>, data: Option<Data>, timestamp: int, backoffDuration: int)

  datatype Backoff = Backoff(noMoreBackoffs: bool, seconds: int)

  datatype RunningTask = RunningTask(invocation: nat, nextBackoff: Backoff, killWaitMs: int)

  const EMPTY := Status({}, None, 0, 0)

  function RunningStatus(data: Option<Data>, now: int): Status { Status({Running}, data, now, 0) }

  // The two synthetic statuses of the remote runner.
  function WasNotRunning(now: int): Status { Status({Error, Overwriteable}, None, now, 0) }

  function WorkerLost(content: nat, savedBackoff: int, now: int): Status {
    Status({Error, UsesBackoff, HasSavedBackoff, Overwriteable}, Some(Data(content, Some(savedBackoff))), now, 0)
  }

  function ErrorBackoff(data: Option<Data>, now: int): Status { Status({Error, UsesBackoff}, data, now, 0) }

  function IncompleteBackoff(data: Option<Data>, now: int): Status {
    Status({Incomplete, UsesBackoff, DoesNotAdvanceBackoff}, data, now, 0)
  }

  // A saved backoff is stored beside the bit that announces it.
  predicate StatusOK(s: Status) {
    HasSavedBackoff in s.bits ==> UsesBackoff in s.bits && s.data.Some? && s.data.value.savedBackoff.Some?
  }

  function ReplaceBit(bits: set<Bit>, before: Bit, after: Bit): set<Bit> {
    bits - {before} + {after}
  }

  // ------------------------------------------------------------ update, forgive

  function PreviousBackoff(stored: Status, rt: RunningTask): int
    requires StatusOK(stored)
  {
    if HasSavedBackoff in stored.bits then stored.data.value.savedBackoff.value
    else if stored.backoffDuration != 0 then stored.backoffDuration
    else rt.nextBackoff.seconds
  }

  // Advancing past the last backoff needs the Error bit: the source aborts otherwise.
  predicate CanUpdate(rt: RunningTask, incoming: Status) {
    && StatusOK(incoming)
    && (UsesBackoff in incoming.bits && DoesNotAdvanceBackoff !in incoming.bits && rt.nextBackoff.noMoreBackoffs ==>
          Error in incoming.bits)
  }

  function Update(stored: Status, rt: RunningTask, incoming: Status): (s: Status)
    requires StatusOK(stored) && CanUpdate(rt, incoming)
    ensures StatusOK(s)
  {
    if UsesBackoff !in incoming.bits then incoming
    else if DoesNotAdvanceBackoff in incoming.bits then incoming.(backoffDuration := PreviousBackoff(stored, rt))
    else
      var s := incoming.(backoffDuration := rt.nextBackoff.seconds);
      if rt.nextBackoff.noMoreBackoffs then s.(bits := ReplaceBit(s.bits, Error, Failed)) else s
  }

  function Forgive(s: Status): (r: Status)
    requires StatusOK(s)
    ensures StatusOK(r)
  {
    var r := if Failed in s.bits then s.(bits := ReplaceBit(s.bits, Failed, Error)) else s;
    if UsesBackoff !in r.bits then r
    else if HasSavedBackoff in r.bits then r.(data := Some(r.data.value.(savedBackoff := Some(0))))
    else r.(backoffDuration := 0)
  }

  function ConfiguredBackoff(s: Status): Backoff
    requires StatusOK(s)
  {
    if Failed in s.bits then Backoff(true, 0)
    else Backoff(false, if HasSavedBackoff in s.bits then s.data.value.savedBackoff.value else s.backoffDuration)
  }

  predicate IsInBackoff(s: Status, now: int) {
    UsesBackoff in s.bits && s.timestamp + s.backoffDuration > now
  }

  // The scheduler's filter: a task with this status may be started now.
  predicate MayStart(s: Status, now: int) {
    !(Running in s.bits || Done in s.bits || Failed in s.bits || IsInBackoff(s, now))
  }

  // ------------------------------------------------------------ one task of the snapshot

  datatype Cell = Cell(stored: Status, running: Option<RunningTask>)

  // The CHECK on the invocation of an update.
  predicate Concerns(cell: Cell, rt: RunningTask) {
    cell.running.Some? ==> cell.running.value.invocation == rt.invocation
  }

  // TaskStatusSnapshot::updateStatus, for the one task it touches.
  function Deliver(cell: Cell, rt: RunningTask, status: Status): (r: Cell)
    requires StatusOK(cell.stored) && CanUpdate(rt, status)
    ensures StatusOK(r.stored)
  {
    if Running in status.bits then
      Cell(Update(cell.stored, rt, status), if cell.running.Some? then cell.running else Some(rt))
    else if cell.running.Some? then Cell(Update(cell.stored, rt, status), None)
    else if Overwriteable in status.bits || Overwriteable !in cell.stored.bits then cell
    else Cell(Update(cell.stored, rt, status), None)
  }

  // What an update stores, field by field; `previous` is the backoff the task had.
  predicate StoredAs(s: Status, rt: RunningTask, incoming: Status, previous: int) {
    && s.data == incoming.data && s.timestamp == incoming.timestamp
    && (UsesBackoff !in incoming.bits ==> s.backoffDuration == incoming.backoffDuration)
    && (UsesBackoff in incoming.bits && DoesNotAdvanceBackoff in incoming.bits ==> s.backoffDuration == previous)
    && (Advances(incoming) ==> s.backoffDuration == rt.nextBackoff.seconds)
    && (forall b :: b !in {Error, Failed} ==> (b in s.bits <==> b in incoming.bits))
    && (Error in s.bits <==> Error in incoming.bits && !(Advances(incoming) && rt.nextBackoff.noMoreBackoffs))
    && (Failed in s.bits <==> Failed in incoming.bits || (Advances(incoming) && rt.nextBackoff.noMoreBackoffs))
  }

  predicate Advances(s: Status) {
    UsesBackoff in s.bits && DoesNotAdvanceBackoff !in s.bits
  }

  // An update is dropped exactly if the task is not running and a real status is stored, or the
  // update is itself synthetic; a task that is marked as running keeps the record it has.
  lemma DeliverExactly(cell: Cell, rt: RunningTask, status: Status)
    requires StatusOK(cell.stored) && CanUpdate(rt, status)
    ensures
      var r, isRunning := Deliver(cell, rt, status), Running in status.bits;
      if !isRunning && cell.running.None? && (Overwriteable in status.bits || Overwriteable !in cell.stored.bits)
      then r == cell
      else
        && StoredAs(r.stored, rt, status, PreviousBackoff(cell.stored, rt))
        && (isRunning ==> r.running == if cell.running.Some? then cell.running else Some(rt))
        && (!isRunning ==> r.running.None?)
  {}

  // A forgiven task may start at once, unless it runs, is done, or was lost and may still be dying.
  lemma ForgivenMayStart(s: Status, now: int)
    requires StatusOK(s) && s.timestamp <= now
    ensures MayStart(Forgive(s), now)
      <==> s.bits !! {Running, Done} && (HasSavedBackoff in s.bits ==> s.timestamp + s.backoffDuration <= now)
  {}

  // ------------------------------------------------------------ races

  datatype Timeouts = Timeouts(suicideMarginSec: int, suicideTaskKillWaitMs: int)

  // C++ integer division.
  function Quotient(x: int, y: int): int
    requires 0 < y
  {
    if 0 <= x then x / y else -(-x / y)
  }

  // How long a lost task may take to die.
  function SafeBackoff(f: Timeouts, rt: RunningTask): int {
    f.suicideMarginSec + Quotient(if rt.killWaitMs == 0 then f.suicideTaskKillWaitMs else rt.killWaitMs, 1000) + 1
  }

  // It is the least number of whole seconds longer than the margin and the time to kill the task.
  lemma SafeBackoffCovers(f: Timeouts, rt: RunningTask)
    requires 0 <= f.suicideTaskKillWaitMs && 0 <= rt.killWaitMs
    ensures
      var wait := if rt.killWaitMs == 0 then f.suicideTaskKillWaitMs else rt.killWaitMs;
      1000 * (SafeBackoff(f, rt) - 1) <= 1000 * f.suicideMarginSec + wait < 1000 * SafeBackoff(f, rt)
  {}

  // RemoteWorkerRunner::applyUpdate: the task a loss is recorded for.
  function Tweaked(f: Timeouts, rt: RunningTask): RunningTask {
    if SafeBackoff(f, rt) > rt.nextBackoff.seconds then
      rt.(nextBackoff := rt.nextBackoff.(seconds := SafeBackoff(f, rt)))
    else rt
  }

  datatype Report =
    | Real(status: Status)
    | NotRunning(now: int)
    | Lost(content: nat, now: int)

  // A final status made by the task or its worker.
  predicate ReportOK(rt: RunningTask, r: Report) {
    r.Real? ==> CanUpdate(rt, r.status) && r.status.bits !! {Running, Overwriteable, HasSavedBackoff}
  }

  function Receive(f: Timeouts, rt: RunningTask, cell: Cell, r: Report): (c: Cell)
    requires StatusOK(cell.stored) && ReportOK(rt, r)
    ensures StatusOK(c.stored)
  {
    match r
    case Real(status) => Deliver(cell, rt, status)
    case NotRunning(now) => Deliver(cell, rt, WasNotRunning(now))
    case Lost(content, now) => Deliver(cell, Tweaked(f, rt), WorkerLost(content, rt.nextBackoff.seconds, now))
  }

  function ReceiveAll(f: Timeouts, rt: RunningTask, cell: Cell, reports: seq<Report>): (c: Cell)
    requires StatusOK(cell.stored) && forall i :: 0 <= i < |reports| ==> ReportOK(rt, reports[i])
    ensures StatusOK(c.stored)
    decreases |reports|
  {
    if reports == [] then cell
    else ReceiveAll(f, rt, Receive(f, rt, cell, reports[0]), reports[1..])
  }

  // Ready for the real status: still running, or ended by a synthetic status, with the same
  // previous backoff.
  predicate Waiting(cell: Cell, rt: RunningTask) {
    && StatusOK(cell.stored) && PreviousBackoff(cell.stored, rt) == rt.nextBackoff.seconds
    && (if cell.running.Some? then cell.running.value == rt else Overwriteable in cell.stored.bits)
  }

  // The real status has been stored.
  predicate Settled(cell: Cell) {
    StatusOK(cell.stored) && cell.running.None? && Overwriteable !in cell.stored.bits
  }

  lemma SyntheticKeepsWaiting(f: Timeouts, rt: RunningTask, cell: Cell, r: Report)
    requires Waiting(cell, rt) && ReportOK(rt, r) && !r.Real?
    ensures Waiting(Receive(f, rt, cell, r), rt)
  {}

  lemma RealSettles(f: Timeouts, rt: RunningTask, cell: Cell, r: Report)
    requires Waiting(cell, rt) && ReportOK(rt, r) && r.Real?
    ensures StatusOK(cell.stored) && Receive(f, rt, cell, r) == Cell(Final(rt, r.status), None)
    ensures Settled(Receive(f, rt, cell, r))
  {}

  // What the real status becomes, whatever was stored before it: it takes the task's backoff if it
  // uses one, and its error is a failure if it advances past the last backoff.
  function Final(rt: RunningTask, status: Status): Status {
    status.(bits := if Advances(status) && rt.nextBackoff.noMoreBackoffs then status.bits - {Error} + {Failed}
                    else status.bits,
            backoffDuration := if UsesBackoff in status.bits then rt.nextBackoff.seconds else status.backoffDuration)
  }

  lemma {:induction false} SettledStays(f: Timeouts, rt: RunningTask, cell: Cell, reports: seq<Report>)
    requires Settled(cell) && forall i :: 0 <= i < |reports| ==> ReportOK(rt, reports[i])
    ensures ReceiveAll(f, rt, cell, reports) == cell
    decreases |reports|
  {
    if reports != [] {
      SettledStays(f, rt, cell, reports[1..]);
    }
  }

  // Whatever synthetic statuses arrive before or after it, and however often the real one is
  // repeated, the first real status decides what is stored.
  lemma {:induction false} RealStatusWins(f: Timeouts, rt: RunningTask, cell: Cell, reports: seq<Report>, k: nat)
    requires Waiting(cell, rt) && forall i :: 0 <= i < |reports| ==> ReportOK(rt, reports[i])
    requires k < |reports| && reports[k].Real? && forall i :: 0 <= i < k ==> !reports[i].Real?
    ensures ReceiveAll(f, rt, cell, reports) == Cell(Final(rt, reports[k].status), None)
    decreases k
  {
    var next := Receive(f, rt, cell, reports[0]);
    if k == 0 {
      RealSettles(f, rt, cell, reports[0]);
      SettledStays(f, rt, next, reports[1..]);
    } else {
      SyntheticKeepsWaiting(f, rt, cell, reports[0]);
      RealStatusWins(f, rt, next, reports[1..], k - 1);
    }
  }

  lemma FirstReal(reports: seq<Report>, r: Report) returns (k: nat)
    requires r.Real? && r in reports
    ensures k < |reports| && reports[k].Real? && forall i :: 0 <= i < k ==> !reports[i].Real?
  {
    k := 0;
    while !reports[k].Real?
      invariant k < |reports| && forall i :: 0 <= i < k ==> !reports[i].Real?
      invariant exists i :: k <= i < |reports| && reports[i] == r
      decreases |reports| - k
    {
      k := k + 1;
    }
  }

  // Confluence: two arrival orders of the same reports, with one real status among them,
  // give the same status and the same running task.
  lemma OrderDoesNotMatter(f: Timeouts, rt: RunningTask, cell: Cell, a: seq<Report>, b: seq<Report>, status: Status)
    requires Waiting(cell, rt) && multiset(a) == multiset(b) && Real(status) in a
    requires forall i :: 0 <= i < |a| ==> ReportOK(rt, a[i]) && (a[i].Real? ==> a[i].status == status)
    ensures forall i :: 0 <= i < |b| ==> ReportOK(rt, b[i])
    ensures ReceiveAll(f, rt, cell, a) == ReceiveAll(f, rt, cell, b) == Cell(Final(rt, status), None)
  {
    forall i | 0 <= i < |b| ensures ReportOK(rt, b[i]) && (b[i].Real? ==> b[i].status == status) {
      assert b[i] in multiset(b);
      assert b[i] in multiset(a);
    }
    assert Real(status) in multiset(b);
    var k := FirstReal(a, Real(status));
    RealStatusWins(f, rt, cell, a, k);
    k := FirstReal(b, Real(status));
    RealStatusWins(f, rt, cell, b, k);
  }

  // A task that was just marked as running is ready for its reports.
  lemma StartedIsWaiting(stored: Status, rt: RunningTask, data: Option<Data>, now: int)
    requires StatusOK(stored)
    ensures Waiting(Deliver(Cell(stored, None), rt, RunningStatus(data, now)), rt)
  {}
}

/**
 A job's backoff settings and the retries they allow over whole runs
 (bistro/config/JobBackoffSettings.cpp, bistro/runners/TaskRunner.cpp).
 */
module Backoffs {
  import opened Options
  import Snapshot
  import opened TaskStatuses

  datatype Settings = Settings(values: seq<int>, repeat: bool)

  predicate SettingsOK(s: Settings) {
    && (forall i :: 0 <= i < |s.values| ==> 0 < s.values[i])
    && (forall i, j :: 0 <= i < j < |s.values| ==> s.values[i] < s.values[j])
    && (s.repeat ==> s.values != [])
  }

  // ------------------------------------------------------------ the constructor

  datatype Json = Int(value: int) | Text(text: string) | Other

  // A list of growing positive integers, ended by its own end, "fail" or "repeat".
  ghost predicate Describes(items: seq<Json>, s: Settings) {
    && items != [] && SettingsOK(s) && |s.values| <= |items|
    && (forall i :: 0 <= i < |s.values| ==> items[i] == Int(s.values[i]))
    && (if |s.values| == |items| then !s.repeat
        else items[|s.values|] == Text(if s.repeat then "repeat" else "fail"))
  }

  // None is an exception.
  method Parse(items: seq<Json>) returns (r: Option<Settings>)
    ensures r.Some? ==> Describes(items, r.value)
    ensures r.None? ==> !exists s :: Describes(items, s)
  {
    if items == [] {
      return None;
    }
    var values: seq<int> := [];
    for k := 0 to |items|
      invariant |values| == k && SettingsOK(Settings(values, false))
      invariant forall i :: 0 <= i < k ==> items[i] == Int(values[i])
    {
      match items[k] {
        case Int(val) =>
          if val <= 0 {
            NoneDescribed(items, k);
            return None;
          }
          if values != [] && val <= values[|values| - 1] {
            NoneDescribed(items, k);
            return None;
          }
          values := values + [val];
        case Text(text) =>
          if text == "repeat" {
            if values == [] {
              return None;
            }
            return Some(Settings(values, true));
          } else if text != "fail" {
            return None;
          }
          return Some(Settings(values, false));
        case Other =>
          return None;
      }
    }
    return Some(Settings(values, false));
  }

  lemma NoneDescribed(items: seq<Json>, k: nat)
    requires k < |items| && items[k].Int? && forall i :: 0 <= i < k ==> items[i].Int?
    requires items[k].value <= 0 || (0 < k && items[k].value <= items[k - 1].value)
    ensures forall s :: !Describes(items, s)
  {
    forall s ensures !Describes(items, s) {
      assert Describes(items, s) ==> k < |s.values|;
    }
  }

  // ------------------------------------------------------------ getNext

  // std::upper_bound
  function UpperBound(values: seq<int>, t: int): (i: nat)
    requires forall i, j :: 0 <= i < j < |values| ==> values[i] < values[j]
    ensures i <= |values|
    ensures (forall k :: 0 <= k < i ==> values[k] <= t) && (forall k :: i <= k < |values| ==> t < values[k])
  {
    if values == [] then 0
    else if t < values[0] then 0
    else 1 + UpperBound(values[1..], t)
  }

  function GetNext(s: Settings, cur: Backoff): Backoff
    requires SettingsOK(s) && !cur.noMoreBackoffs
  {
    var i := UpperBound(s.values, cur.seconds);
    if i < |s.values| then Backoff(false, s.values[i])
    else if s.repeat then Backoff(false, s.values[|s.values| - 1])
    else Backoff(true, 60)
  }

  // ------------------------------------------------------------ attempts

  // How an attempt ends, at a time.
  datatype End = Errored(data: Option<Data>, at: int) | WorkerWasLost(content: nat, at: int)

  // A task never started has no status.
  function NextBackoff(s: Settings, prev: Option<Status>): Backoff
    requires SettingsOK(s)
    requires prev.Some? ==> StatusOK(prev.value) && Failed !in prev.value.bits
  {
    GetNext(s, if prev.Some? then ConfiguredBackoff(prev.value) else Backoff(false, 0))
  }

  // The status stored after one attempt.
  function Attempt(s: Settings, f: Timeouts, prev: Option<Status>, invocation: nat, started: int, end: End): (r: Status)
    requires SettingsOK(s)
    requires prev.Some? ==> StatusOK(prev.value) && Failed !in prev.value.bits
    ensures StatusOK(r)
  {
    var rt := RunningTask(invocation, NextBackoff(s, prev), f.suicideTaskKillWaitMs);
    var cell := Deliver(Cell(if prev.Some? then prev.value else EMPTY, None), rt, RunningStatus(None, started));
    match end
    case Errored(data, at) => Receive(f, rt, cell, Real(ErrorBackoff(data, at))).stored
    case WorkerWasLost(content, at) => Receive(f, rt, cell, Lost(content, at)).stored
  }

  // The k-th attempt to end, counting from 0, used backoff k; the last value repeats.
  predicate AfterEnds(s: Settings, k: nat, status: Option<Status>)
    requires SettingsOK(s)
  {
    if k == 0 then status.None?
    else
      && status.Some? && StatusOK(status.value)
      && (Failed in status.value.bits <==> !s.repeat && |s.values| < k)
      && (Failed !in status.value.bits ==>
            && 0 < |s.values|
            && ConfiguredBackoff(status.value).seconds == s.values[(if k <= |s.values| then k else |s.values|) - 1])
  }

  lemma NextIsNext(s: Settings, k: nat, prev: Option<Status>)
    requires SettingsOK(s) && AfterEnds(s, k, prev) && (prev.Some? ==> Failed !in prev.value.bits)
    ensures NextBackoff(s, prev) ==
      if k < |s.values| then Backoff(false, s.values[k])
      else if s.repeat then Backoff(false, s.values[|s.values| - 1])
      else Backoff(true, 60)
  {
    var cur := if prev.Some? then ConfiguredBackoff(prev.value) else Backoff(false, 0);
    var i := UpperBound(s.values, cur.seconds);
    if k < |s.values| {
      assert cur.seconds < s.values[k];
      assert 0 < k ==> cur.seconds == s.values[k - 1];
      assert i == k;
    } else {
      assert s.values != [] ==> s.values[|s.values| - 1] <= cur.seconds;
    }
  }

  // One more attempt uses one more backoff, although a lost task stores a longer one.
  lemma AttemptAdvances(s: Settings, f: Timeouts, k: nat, prev: Option<Status>, invocation: nat, started: int, end: End)
    requires SettingsOK(s) && AfterEnds(s, k, prev) && (prev.Some? ==> Failed !in prev.value.bits)
    ensures AfterEnds(s, k + 1, Some(Attempt(s, f, prev, invocation, started, end)))
  {
    NextIsNext(s, k, prev);
  }

  // ------------------------------------------------------------ whole runs

  // Attempts until now, each started from the status the one before it left.
  ghost predicate IsHistory(s: Settings, f: Timeouts, statuses: seq<Option<Status>>, ends: seq<End>)
    requires SettingsOK(s)
  {
    && |statuses| == |ends| + 1 && statuses[0].None?
    && forall i :: 0 <= i < |ends| ==>
         && (statuses[i].Some? ==> StatusOK(statuses[i].value) && Failed !in statuses[i].value.bits)
         && exists invocation, started ::
              statuses[i + 1] == Some(Attempt(s, f, statuses[i], invocation, started, ends[i]))
  }

  lemma {:induction false} HistoryAdvances(s: Settings, f: Timeouts, statuses: seq<Option<Status>>, ends: seq<End>,
                                           k: nat)
    requires SettingsOK(s) && IsHistory(s, f, statuses, ends) && k < |statuses|
    ensures AfterEnds(s, k, statuses[k])
  {
    if k > 0 {
      HistoryAdvances(s, f, statuses, ends, k - 1);
      var invocation, started :|
        statuses[k - 1 + 1] == Some(Attempt(s, f, statuses[k - 1], invocation, started, ends[k - 1]));
      AttemptAdvances(s, f, k - 1, statuses[k - 1], invocation, started, ends[k - 1]);
    }
  }

  // With n values and "fail", a task fails at its end n + 1 and not before; with "repeat",
  // never.
  lemma FailsAfterAll(s: Settings, f: Timeouts, statuses: seq<Option<Status>>, ends: seq<End>, k: nat)
    requires SettingsOK(s) && IsHistory(s, f, statuses, ends) && 0 < k < |statuses|
    ensures statuses[k].Some?
    ensures Failed in statuses[k].value.bits <==> !s.repeat && k == |s.values| + 1
    ensures !s.repeat ==> |ends| <= |s.values| + 1
  {
    hide Attempt;
    forall j: nat | j < |statuses| ensures AfterEnds(s, j, statuses[j]) {
      HistoryAdvances(s, f, statuses, ends, j);
    }
    assert |s.values| + 1 < |statuses| ==> AfterEnds(s, |s.values| + 1, statuses[|s.values| + 1]);
    assert k < |ends| ==> Failed !in statuses[k].value.bits;
  }

  // How long a task waits after an attempt with the given backoff: a lost task may still be dying.
  function WaitAfter(f: Timeouts, seconds: int, end: End): int {
    var dying := SafeBackoff(f, RunningTask(0, Backoff(false, seconds), f.suicideTaskKillWaitMs));
    if end.WorkerWasLost? && seconds < dying then dying else seconds
  }

  lemma AttemptWaits(s: Settings, f: Timeouts, k: nat, prev: Option<Status>, invocation: nat, started: int, end: End,
                     now: int)
    requires SettingsOK(s) && AfterEnds(s, k, prev) && (prev.Some? ==> Failed !in prev.value.bits)
    ensures MayStart(Attempt(s, f, prev, invocation, started, end), now) <==>
      && (k < |s.values| || s.repeat)
      && end.at + WaitAfter(f, s.values[if k < |s.values| then k else |s.values| - 1], end) <= now
  {
    NextIsNext(s, k, prev);
  }

  // After its attempt k a task may start again exactly when backoff k has passed since the end of
  // the attempt; once the backoffs are used up, never.
  lemma StartsAgainExactly(s: Settings, f: Timeouts, statuses: seq<Option<Status>>, ends: seq<End>, k: nat, now: int)
    requires SettingsOK(s) && IsHistory(s, f, statuses, ends) && k < |ends|
    ensures statuses[k + 1].Some?
    ensures MayStart(statuses[k + 1].value, now) <==>
      && (k < |s.values| || s.repeat)
      && ends[k].at + WaitAfter(f, s.values[if k < |s.values| then k else |s.values| - 1], ends[k]) <= now
  {
    hide Attempt, MayStart, WaitAfter;
    HistoryAdvances(s, f, statuses, ends, k);
    var invocation, started :| statuses[k + 1] == Some(Attempt(s, f, statuses[k], invocation, started, ends[k]));
    AttemptWaits(s, f, k, statuses[k], invocation, started, ends[k], now);
  }

  // Forgiving a task that used a backoff, or never had one, starts the backoffs over.
  lemma ForgivenStartsOver(s: Settings, prev: Status)
    requires SettingsOK(s) && StatusOK(prev) && (UsesBackoff in prev.bits || prev.backoffDuration == 0)
    ensures NextBackoff(s, Some(Forgive(prev))) == NextBackoff(s, None)
  {}

  // ------------------------------------------------------------ incomplete tasks

  // The status stored after an attempt that ends incomplete, with backoff.
  function IncompleteAttempt(s: Settings, f: Timeouts, prev: Option<Status>, invocation: nat, started: int,
                             at: int): (r: Status)
    requires SettingsOK(s)
    requires prev.Some? ==> StatusOK(prev.value) && Failed !in prev.value.bits
    ensures StatusOK(r) && Failed !in r.bits
  {
    var rt := RunningTask(invocation, NextBackoff(s, prev), f.suicideTaskKillWaitMs);
    var cell := Deliver(Cell(if prev.Some? then prev.value else EMPTY, None), rt, RunningStatus(None, started));
    Receive(f, rt, cell, Real(IncompleteBackoff(None, at))).stored
  }

  // "Incomplete with backoff" is meant to repeat the backoff that the task had.  It never fails the
  // task, but it takes the next duration, so it repeats the backoff exactly at the end of the
  // list: at the last value if that repeats, at the stand-in of 60 seconds otherwise.
  lemma IncompleteRepeatsExactly(s: Settings, f: Timeouts, prev: Status, invocation: nat, started: int, at: int)
    requires SettingsOK(s) && StatusOK(prev) && Failed !in prev.bits
    ensures
      var had := ConfiguredBackoff(prev).seconds;
      && IncompleteAttempt(s, f, Some(prev), invocation, started, at).backoffDuration
           == GetNext(s, ConfiguredBackoff(prev)).seconds
      && (IncompleteAttempt(s, f, Some(prev), invocation, started, at).backoffDuration == had
          <==> (forall v :: v in s.values ==> v <= had) && had == if s.repeat then s.values[|s.values| - 1] else 60)
  {
    var i := UpperBound(s.values, ConfiguredBackoff(prev).seconds);
    assert i < |s.values| ==> s.values[i] in s.values;
  }

  // With 15 and 30 seconds, a task that waited 15 seconds waits 30 after an incomplete attempt.
  lemma IncompleteExample()
    ensures
      var s, f := Settings([15, 30], true), Timeouts(1, 1);
      var prev := Status({Incomplete, UsesBackoff, DoesNotAdvanceBackoff}, None, 0, 15);
      SettingsOK(s) && StatusOK(prev) && IncompleteAttempt(s, f, Some(prev), 0, 100, 200).backoffDuration == 30
  {
    var s, f := Settings([15, 30], true), Timeouts(1, 1);
    var prev := Status({Incomplete, UsesBackoff, DoesNotAdvanceBackoff}, None, 0, 15);
    IncompleteRepeatsExactly(s, f, prev, 0, 100, 200);
    assert UpperBound(s.values, 15) == 1;
  }

  // ------------------------------------------------------------ lost tasks are not restarted too soon

  // What may reach a task that was lost, other than a real status: its job is forgiven, a
  // synthetic status arrives, or the configuration is reloaded.
  datatype Quiet =
    | Forgiven
    | Again(report: Report)
    | Reloaded(kept: bool, loaded: bool, store: seq<Snapshot.Record>, now: int)

  predicate QuietOK(rt: RunningTask, q: Quiet) {
    q.Again? ==> ReportOK(rt, q.report) && !q.report.Real?
  }

  // What updateForConfig makes of a task whose job is kept or not, and loaded before or not.
  function AfterReload(cell: Cell, id: Snapshot.TaskID, kept: bool, loaded: bool, store: seq<Snapshot.Record>,
                       now: int): (c: Cell)
    requires StatusOK(cell.stored)
    ensures StatusOK(c.stored)
  {
    var marked := if cell.running.Some? then RunningStatus(None, now) else cell.stored;
    Snapshot.LoadKeepsBits(marked, store, id, now);
    if !kept then cell.(stored := EMPTY)
    else if loaded then cell.(stored := marked)
    else cell.(stored := Snapshot.LoadAll(marked, store, id, now))
  }

  // It is what the snapshot's loops make of that task.
  lemma ReloadIsRefresh(rows: seq<Snapshot.Row>, running: map<Snapshot.TaskID, RunningTask>, jobs: set<nat>,
                        store: seq<Snapshot.Record>, now: int, id: Snapshot.TaskID)
    requires StatusOK(Snapshot.StatusAt(rows, id))
    ensures
      var cell := Cell(Snapshot.StatusAt(rows, id), if id in running then Some(running[id]) else None);
      var kept := id.0 in jobs || Snapshot.Runs(running, id.0);
      AfterReload(cell, id, kept, Snapshot.LoadedAt(rows, id.0), store, now).stored
        == Snapshot.Refreshed(rows, running, jobs, store, now, id)
  {}

  function AfterOne(f: Timeouts, rt: RunningTask, id: Snapshot.TaskID, cell: Cell, q: Quiet): (c: Cell)
    requires StatusOK(cell.stored) && QuietOK(rt, q)
    ensures StatusOK(c.stored)
  {
    match q
    case Forgiven => cell.(stored := Forgive(cell.stored))
    case Again(report) => Receive(f, rt, cell, report)
    case Reloaded(kept, loaded, store, now) => AfterReload(cell, id, kept, loaded, store, now)
  }

  function AfterQuiet(f: Timeouts, rt: RunningTask, id: Snapshot.TaskID, cell: Cell, qs: seq<Quiet>): (c: Cell)
    requires StatusOK(cell.stored) && forall i :: 0 <= i < |qs| ==> QuietOK(rt, qs[i])
    ensures StatusOK(c.stored)
    decreases |qs|
  {
    if qs == [] then cell
    else AfterQuiet(f, rt, id, AfterOne(f, rt, id, cell, qs[0]), qs[1..])
  }

  // Where a lost task stands.
  datatype Standing = Waits | IsDone | HasFailed | Startable

  function Stands(standing: Standing, id: Snapshot.TaskID, q: Quiet): Standing {
    match q
    case Again(_) => standing
    case Forgiven => if standing.HasFailed? then Startable else standing
    case Reloaded(kept, loaded, store, _) =>
      if !kept then Startable
      else if loaded then standing
      else
        match Snapshot.LastResult(store, id)
        case DONE => IsDone
        case FAILED => HasFailed
        case BAD => standing
  }

  // Read off the events alone: the wait ends early only when a reload drops the job, or
  // loads a failure that is then forgiven.
  function StandsAfter(standing: Standing, id: Snapshot.TaskID, qs: seq<Quiet>): Standing
    decreases |qs|
  {
    if qs == [] then standing else StandsAfter(Stands(standing, id, qs[0]), id, qs[1..])
  }

  predicate LostAt(cell: Cell, at: int, wait: int) {
    && {UsesBackoff, HasSavedBackoff, Overwriteable} <= cell.stored.bits && cell.stored.bits !! {Running, Done}
    && cell.stored.timestamp == at && wait <= cell.stored.backoffDuration
  }

  predicate StandsAs(standing: Standing, cell: Cell, at: int, wait: int) {
    && cell.running.None?
    && match standing
       case Waits => LostAt(cell, at, wait)
       case IsDone => cell.stored.bits == {Done}
       case HasFailed => cell.stored.bits == {Failed}
       case Startable => cell.stored.bits <= {Error}
  }

  lemma StandsOneMore(f: Timeouts, rt: RunningTask, id: Snapshot.TaskID, cell: Cell, at: int, wait: int, q: Quiet,
                      standing: Standing)
    requires StatusOK(cell.stored) && StandsAs(standing, cell, at, wait) && QuietOK(rt, q)
    ensures StandsAs(Stands(standing, id, q), AfterOne(f, rt, id, cell, q), at, wait)
  {
    if q.Reloaded? {
      Snapshot.LoadExactly(cell.stored, q.store, id, q.now);
    }
  }

  lemma {:induction false} StandsOn(f: Timeouts, rt: RunningTask, id: Snapshot.TaskID, cell: Cell, at: int, wait: int,
                                    qs: seq<Quiet>, standing: Standing)
    requires StatusOK(cell.stored) && StandsAs(standing, cell, at, wait)
    requires forall i :: 0 <= i < |qs| ==> QuietOK(rt, qs[i])
    ensures StandsAs(StandsAfter(standing, id, qs), AfterQuiet(f, rt, id, cell, qs), at, wait)
    decreases |qs|
  {
    hide StandsAs, Stands, AfterOne;
    if qs != [] {
      StandsOneMore(f, rt, id, cell, at, wait, qs[0], standing);
      StandsOn(f, rt, id, AfterOne(f, rt, id, cell, qs[0]), at, wait, qs[1..], Stands(standing, id, qs[0]));
    }
  }

  // Until it has had time to die, a lost task that no real status reaches may be started again
  // exactly if a reload dropped its job, or loaded a failure that was then forgiven.
  lemma LostTaskWaits(f: Timeouts, rt: RunningTask, id: Snapshot.TaskID, cell: Cell, content: nat, at: int,
                      qs: seq<Quiet>, now: int)
    requires Waiting(cell, rt) && cell.running.Some? && forall i :: 0 <= i < |qs| ==> QuietOK(rt, qs[i])
    requires now < at + SafeBackoff(f, rt)
    ensures MayStart(AfterQuiet(f, rt, id, Receive(f, rt, cell, Lost(content, at)), qs).stored, now)
      <==> StandsAfter(Waits, id, qs).Startable?
  {
    hide StandsAfter, AfterQuiet;
    StandsOn(f, rt, id, Receive(f, rt, cell, Lost(content, at)), at, SafeBackoff(f, rt), qs, Waits);
  }

  lemma {:induction false} StandsWithoutReload(id: Snapshot.TaskID, qs: seq<Quiet>)
    requires forall i :: 0 <= i < |qs| && qs[i].Reloaded? ==>
      qs[i].kept && (qs[i].loaded || Snapshot.LastResult(qs[i].store, id).BAD?)
    ensures StandsAfter(Waits, id, qs).Waits?
    decreases |qs|
  {
    if qs != [] {
      StandsWithoutReload(id, qs[1..]);
    }
  }

  // Dropping a job and adding it again forgets the wait.
  lemma DroppedStartsAtOnce(f: Timeouts, rt: RunningTask, id: Snapshot.TaskID, cell: Cell, content: nat, at: int)
    requires Waiting(cell, rt) && cell.running.Some? && 0 < SafeBackoff(f, rt)
    ensures
      var qs := [Reloaded(false, true, [], at), Reloaded(true, false, [], at)];
      MayStart(AfterQuiet(f, rt, id, Receive(f, rt, cell, Lost(content, at)), qs).stored, at)
  {
    var qs := [Reloaded(false, true, [], at), Reloaded(true, false, [], at)];
    assert qs[1..] == [qs[1]] && qs[1..][1..] == [];
    assert StandsAfter(Waits, id, qs) == StandsAfter(Startable, id, qs[1..]);
    assert StandsAfter(Startable, id, [qs[1]]) == StandsAfter(Startable, id, []) by {
      assert [qs[1]][0] == qs[1] && [qs[1]][1..] == [] && Stands(Startable, id, qs[1]) == Startable;
    }
    LostTaskWaits(f, rt, id, cell, content, at, qs, at);
  }

  // ------------------------------------------------------------ forgiving before the real status

  // What was heard of a running task, apart from reloads.
  datatype Heard = Nothing | NotRunningThere | ItsLoss | ItsLossThenForgiven

  function Hears(heard: Heard, q: Quiet): Heard {
    match q
    case Reloaded(_, _, _, _) => heard
    case Forgiven => if heard.ItsLoss? then ItsLossThenForgiven else heard
    case Again(report) => if !heard.Nothing? then heard else if report.Lost? then ItsLoss else NotRunningThere
  }

  function HearsAll(heard: Heard, qs: seq<Quiet>): Heard
    decreases |qs|
  {
    if qs == [] then heard else HearsAll(Hears(heard, qs[0]), qs[1..])
  }

  predicate HeardAs(heard: Heard, cell: Cell, rt: RunningTask)
    requires StatusOK(cell.stored)
  {
    match heard
    case Nothing => cell.running == Some(rt) && cell.stored.bits == {Running} && cell.stored.backoffDuration == 0
    case NotRunningThere =>
      cell.running.None? && cell.stored.bits == {Error, Overwriteable} && cell.stored.backoffDuration == 0
    case ItsLoss =>
      && cell.running.None? && {Overwriteable, HasSavedBackoff} <= cell.stored.bits
      && cell.stored.data.value.savedBackoff.value == rt.nextBackoff.seconds
    case ItsLossThenForgiven =>
      && cell.running.None? && {Overwriteable, HasSavedBackoff} <= cell.stored.bits
      && cell.stored.data.value.savedBackoff.value == 0
  }

  lemma HearsOneMore(f: Timeouts, rt: RunningTask, id: Snapshot.TaskID, cell: Cell, q: Quiet, heard: Heard)
    requires StatusOK(cell.stored) && HeardAs(heard, cell, rt) && QuietOK(rt, q) && !q.Reloaded?
    ensures HeardAs(Hears(heard, q), AfterOne(f, rt, id, cell, q), rt)
  {}

  lemma {:induction false} HearsOn(f: Timeouts, rt: RunningTask, id: Snapshot.TaskID, cell: Cell, qs: seq<Quiet>,
                                   heard: Heard)
    requires StatusOK(cell.stored) && HeardAs(heard, cell, rt)
    requires forall i :: 0 <= i < |qs| ==> QuietOK(rt, qs[i]) && !qs[i].Reloaded?
    ensures HeardAs(HearsAll(heard, qs), AfterQuiet(f, rt, id, cell, qs), rt)
    decreases |qs|
  {
    hide HeardAs, Hears, AfterOne;
    if qs != [] {
      HearsOneMore(f, rt, id, cell, qs[0], heard);
      HearsOn(f, rt, id, AfterOne(f, rt, id, cell, qs[0]), qs[1..], Hears(heard, qs[0]));
    }
  }

  // Whatever synthetic statuses a running task gets and however often its job is forgiven, the
  // real status is then stored as it would have been at once, except exactly if the first synthetic
  // status was a loss, the job was forgiven after it, and the real status repeats a backoff that
  // is not zero: that backoff is gone.
  lemma ForgivingExactly(f: Timeouts, rt: RunningTask, id: Snapshot.TaskID, stored: Status, data: Option<Data>,
                         started: int, qs: seq<Quiet>, status: Status)
    requires StatusOK(stored) && ReportOK(rt, Real(status))
    requires forall i :: 0 <= i < |qs| ==> QuietOK(rt, qs[i]) && !qs[i].Reloaded?
    ensures
      var start := Deliver(Cell(stored, None), rt, RunningStatus(data, started));
      && Receive(f, rt, start, Real(status)) == Cell(Final(rt, status), None)
      && (Receive(f, rt, AfterQuiet(f, rt, id, start, qs), Real(status)) == Cell(Final(rt, status), None)
          <==> !(HearsAll(Nothing, qs).ItsLossThenForgiven? && {UsesBackoff, DoesNotAdvanceBackoff} <= status.bits
                 && rt.nextBackoff.seconds != 0))
  {
    hide HearsAll, AfterQuiet;
    HearsOn(f, rt, id, Deliver(Cell(stored, None), rt, RunningStatus(data, started)), qs, Nothing);
  }

  // A task with a backoff of 15 seconds is lost and forgiven, and then reports that it was
  // incomplete: it may start again at once.
  lemma ForgivingExample(id: Snapshot.TaskID)
    ensures
      var f, rt := Timeouts(1, 1), RunningTask(0, Backoff(false, 15), 1000);
      var start := Deliver(Cell(EMPTY, None), rt, RunningStatus(None, 0));
      var told := Real(IncompleteBackoff(None, 100));
      && QuietOK(rt, Forgiven) && QuietOK(rt, Again(Lost(0, 100))) && ReportOK(rt, told)
      && Receive(f, rt, start, told).stored.backoffDuration == 15
      && MayStart(Receive(f, rt, AfterQuiet(f, rt, id, start, [Again(Lost(0, 100)), Forgiven]), told).stored, 100)
  {
    var qs: seq<Quiet> := [Again(Lost(0, 100)), Forgiven];
    assert qs[1..] == [Forgiven] && qs[1..][1..] == [];
  }
}

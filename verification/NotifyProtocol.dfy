/**
 How a scheduler learns that a task it is unsure about is not running, although its requests
 may be delayed, reordered, lost or repeated (bistro/worker/BistroWorkerHandler.cpp,
 bistro/runners/RemoteWorkerRunner.cpp, bistro/remote/RemoteWorker.h).

 One scheduler instance talks to one worker instance.  A request that was sent may be delivered
 at any later time, any number of times, or never.
 */
module NotifyProtocol {
  type TaskID = nat
  type Invocation = nat

  datatype RunningTask = RunningTask(task: TaskID, invocation: Invocation)

  datatype Message =
    | RunTask(rt: RunningTask, number: int)
    | NotifyIfNotRunning(rts: seq<RunningTask>, number: int)

  // The worker's sequence number, its running tasks, and what it has reported as not running.
  datatype Worker = Worker(number: int, running: map<TaskID, RunningTask>, reported: set<RunningTask>)

  // The scheduler's counter, the number each invocation was started under, the requests sent.
  datatype Net = Net(counter: int, started: map<Invocation, (RunningTask, int)>, sent: set<Message>, worker: Worker)

  // ------------------------------------------------------------ the worker's two handlers

  predicate Accepts(w: Worker, rt: RunningTask, number: int) {
    !(number < w.number) && rt.task !in w.running
  }

  function OnRunTask(w: Worker, rt: RunningTask, number: int): Worker {
    if Accepts(w, rt, number) then w.(running := w.running[rt.task := rt]) else w
  }

  function NotRunning(w: Worker, rts: seq<RunningTask>): seq<RunningTask> {
    if rts == [] then []
    else
      var before := NotRunning(w, rts[..|rts| - 1]);
      var rt := rts[|rts| - 1];
      if rt.task in w.running then before else before + [rt]
  }

  function OnNotify(w: Worker, rts: seq<RunningTask>, number: int): Worker {
    if number <= w.number then w
    else w.(number := number, reported := w.reported + Elements(NotRunning(w, rts)))
  }

  function Elements(rts: seq<RunningTask>): set<RunningTask> {
    set rt | rt in rts
  }

  // A request is handled, or refused before its sequence number is looked at.
  function Received(w: Worker, m: Message, ready: bool): Worker {
    if !ready then w
    else
      match m
      case RunTask(rt, number) => OnRunTask(w, rt, number)
      case NotifyIfNotRunning(rts, number) => OnNotify(w, rts, number)
  }

  class WorkerHandler {
    var notifySequenceNum: int
    var runningTasks: map<TaskID, RunningTask>
    ghost var reported: set<RunningTask>

    ghost function Abs(): Worker
      reads this
    {
      Worker(notifySequenceNum, runningTasks, reported)
    }

    constructor (number: int)
      ensures Abs() == Worker(number, map[], {})
    {
      notifySequenceNum, runningTasks, reported := number, map[], {};
    }

    // Returns whether the task is now queued; a refusal is an exception in the source.  `healthy` and
    // `addressed`: the worker is healthy and not dying, and the request names both current instances.
    method RunTask(rt: RunningTask, number: int, healthy: bool, addressed: bool) returns (accepted: bool)
      requires healthy && addressed && rt.task in runningTasks ==>
        number < notifySequenceNum || runningTasks[rt.task].invocation != rt.invocation
      modifies this`runningTasks
      ensures accepted <==> healthy && addressed && Accepts(old(Abs()), rt, number)
      ensures Abs() == Received(old(Abs()), Message.RunTask(rt, number), healthy && addressed)
      ensures runningTasks == if accepted then old(runningTasks)[rt.task := rt] else old(runningTasks)
    {
      if !healthy {
        return false;
      }
      if !addressed {
        return false;
      }
      if number < notifySequenceNum {
        return false;
      }
      if rt.task in runningTasks {
        assert runningTasks[rt.task].invocation != rt.invocation;  // CHECK
        return false;
      }
      runningTasks := runningTasks[rt.task := rt];
      return true;
    }

    // Returns what is queued for the scheduler; an out-of-order request is an exception.
    method NotifyIfTasksNotRunning(rts: seq<RunningTask>, number: int, addressed: bool)
        returns (notRunning: seq<RunningTask>)
      modifies this`notifySequenceNum, this`reported
      ensures Abs() == Received(old(Abs()), NotifyIfNotRunning(rts, number), addressed)
      ensures notRunning == if !addressed || number <= old(notifySequenceNum) then [] else NotRunning(old(Abs()), rts)
      ensures Elements(notRunning) <= reported && old(reported) <= reported
      ensures notRunning != [] ==> notifySequenceNum == number
    {
      notRunning := [];
      if !addressed {
        return;
      }
      if number <= notifySequenceNum {
        return;
      }
      ghost var w := Abs();
      notifySequenceNum := number;
      for i := 0 to |rts|
        invariant notRunning == NotRunning(w, rts[..i])
      {
        assert rts[..i + 1][..i] == rts[..i];
        if rts[i].task !in runningTasks {
          notRunning := notRunning + [rts[i]];
        }
      }
      assert rts[..|rts|] == rts;
      reported := reported + Elements(notRunning);
    }

    method Finish(task: TaskID)
      requires task in runningTasks
      modifies this`runningTasks
      ensures Abs() == old(Abs()).(running := old(runningTasks) - {task})
    {
      runningTasks := runningTasks - {task};
    }
  }

  // Exactly the queried tasks that are not running are reported.
  lemma {:induction false} NotRunningExactly(w: Worker, rts: seq<RunningTask>, rt: RunningTask)
    ensures rt in NotRunning(w, rts) <==> rt in rts && rt.task !in w.running
  {
    if rts != [] {
      NotRunningExactly(w, rts[..|rts| - 1], rt);
      assert rts == rts[..|rts| - 1] + [rts[|rts| - 1]];
    }
  }

  // ------------------------------------------------------------ runs

  datatype Event =
    | Start(rt: RunningTask)
    | Check(rts: seq<RunningTask>)
    | Deliver(m: Message, ready: bool)
    | End(task: TaskID)

  predicate Known(n: Net, rt: RunningTask) {
    rt.invocation in n.started && n.started[rt.invocation].0 == rt
  }

  // A new invocation is started under the current counter.  A check increments the counter
  // before it is sent; the tasks it asks about were started before that.
  ghost predicate Next(n: Net, ev: Event, n': Net) {
    match ev
    case Start(rt) =>
      && rt.invocation !in n.started
      && n' == n.(started := n.started[rt.invocation := (rt, n.counter)], sent := n.sent + {RunTask(rt, n.counter)})
    case Check(rts) =>
      && (forall rt :: rt in rts ==> Known(n, rt))
      && n' == n.(counter := n.counter + 1, sent := n.sent + {NotifyIfNotRunning(rts, n.counter + 1)})
    case Deliver(m, ready) => m in n.sent && n' == n.(worker := Received(n.worker, m, ready))
    case End(task) =>
      task in n.worker.running && n' == n.(worker := n.worker.(running := n.worker.running - {task}))
  }

  ghost predicate IsRun(run: seq<Net>, events: seq<Event>) {
    && |run| == |events| + 1
    && run[0] == Net(run[0].counter, map[], {}, Worker(run[0].counter, map[], {}))
    && forall i :: 0 <= i < |events| ==> Next(run[i], events[i], run[i + 1])
  }

  ghost predicate Inv(n: Net) {
    && n.worker.number <= n.counter
    && (forall i :: i in n.started ==> n.started[i].0.invocation == i && n.started[i].1 <= n.counter)
    && (forall m :: m in n.sent && m.RunTask? ==>
      m.rt.invocation in n.started && n.started[m.rt.invocation] == (m.rt, m.number))
    && (forall m, rt :: m in n.sent && m.NotifyIfNotRunning? && rt in m.rts ==>
          Known(n, rt) && n.started[rt.invocation].1 < m.number)
    && (forall m :: m in n.sent && m.NotifyIfNotRunning? ==> m.number <= n.counter)
    && (forall rt :: rt in n.worker.reported ==> Known(n, rt) && n.started[rt.invocation].1 < n.worker.number)
    && (forall t :: t in n.worker.running ==>
          && Known(n, n.worker.running[t]) && n.worker.running[t].task == t
          && n.worker.running[t] !in n.worker.reported)
  }

  lemma NotifyKeepsInv(n: Net, rts: seq<RunningTask>, number: int)
    requires Inv(n) && NotifyIfNotRunning(rts, number) in n.sent
    ensures Inv(n.(worker := OnNotify(n.worker, rts, number)))
  {
    if n.worker.number < number {
      forall rt ensures rt in NotRunning(n.worker, rts) <==> rt in rts && rt.task !in n.worker.running {
        NotRunningExactly(n.worker, rts, rt);
      }
    }
  }

  lemma RunTaskKeepsInv(n: Net, rt: RunningTask, number: int)
    requires Inv(n) && RunTask(rt, number) in n.sent
    ensures Inv(n.(worker := OnRunTask(n.worker, rt, number)))
  {}

  lemma StartKeepsInv(n: Net, rt: RunningTask)
    requires Inv(n) && rt.invocation !in n.started
    ensures Inv(n.(started := n.started[rt.invocation := (rt, n.counter)], sent := n.sent + {RunTask(rt, n.counter)}))
  {}

  lemma CheckKeepsInv(n: Net, rts: seq<RunningTask>)
    requires Inv(n) && forall rt :: rt in rts ==> Known(n, rt)
    ensures Inv(n.(counter := n.counter + 1, sent := n.sent + {NotifyIfNotRunning(rts, n.counter + 1)}))
  {}

  lemma EndKeepsInv(n: Net, task: TaskID)
    requires Inv(n) && task in n.worker.running
    ensures Inv(n.(worker := n.worker.(running := n.worker.running - {task})))
  {}

  lemma NextKeepsInv(n: Net, ev: Event, n': Net)
    requires Inv(n) && Next(n, ev, n')
    ensures Inv(n')
  {
    hide Inv;
    match ev
    case Start(rt) => StartKeepsInv(n, rt);
    case Check(rts) => CheckKeepsInv(n, rts);
    case Deliver(RunTask(rt, number), _) => RunTaskKeepsInv(n, rt, number);
    case Deliver(NotifyIfNotRunning(rts, number), _) => NotifyKeepsInv(n, rts, number);
    case End(task) => EndKeepsInv(n, task);
  }

  lemma {:induction false} RunsKeepInv(run: seq<Net>, events: seq<Event>, k: nat)
    requires IsRun(run, events) && k < |run|
    ensures Inv(run[k])
  {
    if k > 0 {
      RunsKeepInv(run, events, k - 1);
      NextKeepsInv(run[k - 1], events[k - 1], run[k]);
    }
  }

  lemma {:induction false} ReportsStay(run: seq<Net>, events: seq<Event>, k: nat, j: nat)
    requires IsRun(run, events) && k <= j < |run|
    ensures run[k].worker.reported <= run[j].worker.reported
  {
    if k < j {
      ReportsStay(run, events, k, j - 1);
      assert Next(run[j - 1], events[j - 1], run[j]);
    }
  }

  // Once an invocation was reported as not running, no request for it is accepted again, and
  // it is never running.
  lemma ReportedNeverRuns(run: seq<Net>, events: seq<Event>, k: nat, j: nat, rt: RunningTask)
    requires IsRun(run, events) && k <= j < |run| && rt in run[k].worker.reported
    ensures forall number :: RunTask(rt, number) in run[j].sent ==> !Accepts(run[j].worker, rt, number)
    ensures forall t :: t in run[j].worker.running ==> run[j].worker.running[t].invocation != rt.invocation
  {
    ReportsStay(run, events, k, j);
    RunsKeepInv(run, events, j);
  }

  // The same, from the delivery of the check on: once the worker handles a check newer than any
  // before, it never runs, in the rest of the run, an invocation the check found not running.
  lemma NotifiedNeverRuns(run: seq<Net>, events: seq<Event>, i: nat, j: nat, rts: seq<RunningTask>, number: int,
                          rt: RunningTask)
    requires IsRun(run, events) && i < j < |run| && events[i] == Deliver(NotifyIfNotRunning(rts, number), true)
    requires run[i].worker.number < number && rt in rts && rt.task !in run[i].worker.running
    ensures forall n :: RunTask(rt, n) in run[j].sent ==> !Accepts(run[j].worker, rt, n)
    ensures forall t :: t in run[j].worker.running ==> run[j].worker.running[t].invocation != rt.invocation
  {
    assert Next(run[i], events[i], run[i + 1]);
    NotRunningExactly(run[i].worker, rts, rt);
    ReportedNeverRuns(run, events, i + 1, j, rt);
  }

  // A task whose request is accepted runs until it ends, and no check reports it before that.
  lemma {:induction false} AcceptedRuns(run: seq<Net>, events: seq<Event>, i: nat, j: nat, rt: RunningTask,
                                        number: int)
    requires IsRun(run, events) && i < j < |run| && events[i] == Deliver(RunTask(rt, number), true)
    requires Accepts(run[i].worker, rt, number) && forall k :: i < k < j ==> events[k] != End(rt.task)
    ensures rt.task in run[j].worker.running && run[j].worker.running[rt.task] == rt
    ensures rt !in run[j].worker.reported
  {
    RunsKeepInv(run, events, j);
    assert Next(run[j - 1], events[j - 1], run[j]);
    if i < j - 1 {
      AcceptedRuns(run, events, i, j - 1, rt, number);
    }
  }

  // A request started after the last check was sent is never refused for its number.
  lemma FreshIsNotRefused(run: seq<Net>, events: seq<Event>, k: nat, rt: RunningTask)
    requires IsRun(run, events) && k < |run| && RunTask(rt, run[k].counter) in run[k].sent
    ensures Accepts(run[k].worker, rt, run[k].counter) <==> rt.task !in run[k].worker.running
  {
    RunsKeepInv(run, events, k);
  }

  // ------------------------------------------------------------ the worker's CHECK

  ghost predicate DeliveredAt(run: seq<Net>, events: seq<Event>, i: nat, rt: RunningTask)
    requires |run| == |events| + 1
  {
    && i < |events|
    && exists number :: events[i] == Deliver(RunTask(rt, number), true) && RunTask(rt, number) in run[i].sent
  }

  lemma {:induction false} RunningWasDelivered(run: seq<Net>, events: seq<Event>, k: nat, t: TaskID)
    requires IsRun(run, events) && k < |run| && t in run[k].worker.running
    ensures exists i: nat :: i < k && DeliveredAt(run, events, i, run[k].worker.running[t])
  {
    var rt := run[k].worker.running[t];
    assert Next(run[k - 1], events[k - 1], run[k]);
    if t in run[k - 1].worker.running && run[k - 1].worker.running[t] == rt {
      RunningWasDelivered(run, events, k - 1, t);
    } else {
      assert DeliveredAt(run, events, k - 1, rt);
    }
  }

  lemma {:induction false} SentStays(run: seq<Net>, events: seq<Event>, i: nat, j: nat)
    requires IsRun(run, events) && i <= j < |run|
    ensures run[i].sent <= run[j].sent
  {
    if i < j {
      SentStays(run, events, i, j - 1);
      assert Next(run[j - 1], events[j - 1], run[j]);
    }
  }

  // If no request is delivered twice, the same invocation is never run twice.
  lemma RunOnlyOnce(run: seq<Net>, events: seq<Event>, k: nat, rt: RunningTask, number: int)
    requires IsRun(run, events) && k < |events| && events[k].Deliver? && events[k].m == RunTask(rt, number)
    requires forall i, j :: 0 <= i < j < |events| && events[i].Deliver? && events[j].Deliver? ==>
      events[i].m != events[j].m
    ensures rt.task in run[k].worker.running ==> run[k].worker.running[rt.task].invocation != rt.invocation
  {
    RunsKeepInv(run, events, k);
    assert Next(run[k], events[k], run[k + 1]);
    if rt.task in run[k].worker.running && run[k].worker.running[rt.task].invocation == rt.invocation {
      RunningWasDelivered(run, events, k, rt.task);
      var i: nat :| i < k && DeliveredAt(run, events, i, rt);
      var n :| events[i] == Deliver(RunTask(rt, n), true) && RunTask(rt, n) in run[i].sent;
      SentStays(run, events, i, k);
      assert false;
    }
  }
}

# Bistro, modelled and proved in Dafny

Bistro is a distributed task scheduler. This project models the parts of it that are hard to get
right and proves what they promise, for all inputs and all runs. Verify everything with
`dafny verify dfyconfig.toml`.

## What is modelled

**Workers and their consensus** (`bistro/remote`, `bistro/worker`). A scheduler keeps a versioned
changelog of its live workers, a set hash, an index of the versions its workers are known to require,
and host pools. A worker may become healthy only when a constant-time check says that every live
worker knows it.
- `Versions`, `SetHash`: the wrap-around version order and the incremental set hash.
- `WorkerSets`, `WorkerSetSteps`, `WorkerSetPasses`: the state, its invariant, and what every callback and
  pass does to it, as values.
- `Consensus`, `ConsensusRuns`: heartbeats and whole runs; the consensus theorem.
- `LostEchoes`: runs in which the echo of a lost worker breaks the consensus.
- `Propagation`, `WorkerPool`: the label propagation that edits the index it walks through, and the
  `RemoteWorkers` object with its loops and CHECKs, refining the values.
- `Convergence`: what repeated propagation passes come to.
- `Health`, `Partition`, `WorkerHandler`: the health model that both sides run, and what it guarantees
  when they cannot talk.
- `HealthRuns`: what each step of the protocol does to one worker's record, exactly, and partition
  safety over the runs themselves.
- `NotifyProtocol`: the sequence numbers that settle races between `runTask` and
  `notifyIfTasksNotRunning`.

**Cron** (`bistro/cron`). `CronSelector` and `CronSearch` are the odometer search over local time
labels, `CronClock` and `CronMatch` the resolution of clock changes, and `CronCalendar` joins the two.

**Task statuses** (`bistro/statuses`, `bistro/config`). `TaskStatuses` is one task's status under racing
updates, `Backoffs` counts retries over whole runs, `Snapshot` is the table of all statuses.

**Resources and policies** (`bistro/scheduler`, `bistro/runners`). `Resources` states the limits over
whole runs; `PackedResources`, `Demands` and `ResourceTable` are the packed vectors that enforce them;
`Attempts`, `Fairness`, `Policies` and `SchedulerPass` are the four policies and one whole pass;
`SchedulerRuns` puts passes and the ends of tasks together into runs.

**Logs** (`bistro/utils`, `bistro/runners`). `LogPaging` pages through many workers' logs.

`Options`, `Folds` and `Sorting` are shared helpers.

## Reading the model

- A CHECK of the source is an `assert` marked `// CHECK` in a method, or a predicate beside a
  function (`CanLose`, `CanRaise`, `StepFits`). The invariants imply them, so none can fail. For
  `bistro/remote/RemoteWorkers.cpp:80-573` and the worker set IDs of `bistro/remote/RemoteWorker.cpp:375-471`
  every CHECK is there; a lookup that aborts for an unknown shard is a lookup in a map.
- Versions are unbounded counters. Wherever the source compares two, the model compares their 64 bits
  with the source's comparator; methods take a `base` such that all versions lie within 2^63 - 1
  steps of it, which is what the source assumes.
- Shards, hosts, nodes, jobs and resources are numbers: the source only compares their names.
- Hash tables have no order in the model: loops over them take any element next.
- The clock, random picks and the network are parameters or free choices. What the task runner
  answers, each time it is asked, is a function that its constructor takes.
- Exceptions are results (`Throws`, `Threw`, `None`, `TooDeep`).

## Where the code does not do what it says

For each of these, one lemma shows the failure at a concrete input, and another the exact condition
under which the code does what it says; for the last one, that condition is exact for one family of items.
- A worker that was lost can still echo a worker set ID. If that ID is newer than its indirect one, the
  echo reaches the index of the live workers (`WorkerSetSteps.EchoIndexExactly`,
  `Consensus.HeartbeatExactly`). Three runs reach this with any flags. The echo fails a CHECK if the worker
  had echoed before it was lost (`LostEchoes.LostAfterFirstEcho`). Otherwise the index becomes larger than
  the set of live workers, which is CHECKed at the next heartbeat or pass (`LostEchoes.LostBeforeFirstEcho`),
  or, beside a worker that has not echoed yet, a worker is permitted to become healthy although a live
  worker does not know it (`LostEchoes.FalseConsensus`). The run theorems speak of runs up to such an echo.
- Around a clock rewind, a late repeat can be missed, because "no match" is returned before the search
  restarts (`CronMatch.FirstMatchExactly`, `CronCalendar.MissExample`).
- An interval selector that ends before it starts is accepted, and then returns values that it
  does not match (`CronSelector.ResultMatchesExactly`, `CronSelector.BackwardsInterval`).
- "Unskip" loses its event for inputs in the last minute before a skip
  (`CronMatch.RoundingExactly`, `CronCalendar.RoundingExample`).
- "Refusing to load" a status for a running task loads it (`Snapshot.StaysRunningExactly`,
  `Snapshot.RunningIsOverwritten`).
- An "incomplete" status with backoff takes the next backoff and does not repeat the current one
  (`Backoffs.IncompleteRepeatsExactly`, `Backoffs.IncompleteExample`).
- A lost task that is forgiven and then reports a status that repeats its backoff runs without backoff
  (`Backoffs.ForgivingExactly`, `Backoffs.ForgivingExample`).
- A lost task waits until it has had time to die, but not if its job is removed and added again
  (`Backoffs.LostTaskWaits`, `Backoffs.DroppedStartsAtOnce`).
- A job that depends on a job that does not exist should never run; a pass can abort instead
  (`SchedulerPass.ChooseExactly`, `SchedulerPass.MissingDependencyAborts`).
- Negative resource requirements are accepted, and then limits can be exceeded: exactly if a task that can
  start needs a resource of a level on its path negatively (`Resources.LimitsHoldExactly`,
  `Resources.NegativeNeedBreaks`).
- Descending log pages repeat lines (`LogPaging.RepeatsExactly`, and with the page size that is used,
  `LogPaging.DescendingExample` and `LogPaging.ReadTwice`).
- The search for a crontab label gives up at a depth of 50 although there is a match
  (`CronCalendar.DepthExample`). It does so only for items that match on February 29 or never
  (`CronSearch.NeverTooDeep`, `CronSearch.OnlyLeapDaysAreCutOff`); for February 29 of a list of years the
  condition is exact (`CronCalendar.LeapDaysExactly`).

Documentation that the code contradicts, where the model follows the code: the first worker set a worker
echoes need not be the first that contains it, because the first reply may be lost; a reply to a lost
worker does not contain that worker; propagation does go through a replaced shard, using its new
instance.

## Model

| member | source | states |
|---|---|---|
| Versions.CompareExactly | bistro/remote/WorkerSetID.h:53-77 | for any two counters, when the comparator says earlier and when it aborts, as a condition on their distance modulo 2^64 |
| Versions.EarlierThan | bistro/remote/WorkerSetID.h:46-77 | within a window of 2^63 - 1 the comparator on stored bits is the order of the counters |
| Versions.NotAnOrderOutsideWindow | bistro/remote/WorkerSetID.h:46-52 | outside the window it is not an order: three versions each precede the next |
| SetHash.AddCommutes | bistro/remote/WorkerSetID.h:17-35 | adding two workers gives the same hash in either order |
| SetHash.RemoveUndoesAdd | bistro/remote/WorkerSetID.h:23-44 | removing a worker restores the hash exactly, with 64-bit wrap-around |
| SetHash.HashOfAdd | bistro/remote/WorkerSetID.h:29-35 | the incremental hash equals the hash computed from scratch over any set plus one worker |
| SetHash.HashOfRemove | bistro/remote/WorkerSetID.h:37-44 | the incremental hash equals the hash from scratch over any set minus one worker, whatever the order of arrival |
| WorkerSetSteps.ConnectKeepsCore | bistro/remote/RemoteWorkers.cpp:215-240 | a new worker keeps history, summaries, index and per-worker IDs equal to what the workers give |
| WorkerSetSteps.LiveCanBeLost | bistro/remote/RemoteWorkers.cpp:241-267 | no CHECK of the dead-worker callback can fail for a live worker |
| WorkerSetSteps.LoseKeepsCore | bistro/remote/RemoteWorkers.cpp:241-267 | losing a worker keeps the whole invariant |
| WorkerSetSteps.EchoCheckExactly | bistro/remote/RemoteWorkers.cpp:145-187 | when an echo reaches the index, one of its CHECKs fails exactly for a lost worker with an indexed version that echoes a newer one |
| WorkerSetSteps.EchoIndexExactly | bistro/remote/RemoteWorkers.cpp:162-187 | after any echo the index holds exactly the live workers, except exactly if a lost worker's echo is newer than its indirect version |
| WorkerSetSteps.EchoKeepsExactly | bistro/remote/RemoteWorker.cpp:412-471 | an ID that was sent to the worker trips no CHECK and keeps the whole invariant, except exactly in that case |
| WorkerSetSteps.EqualEchoIsEqual | bistro/remote/RemoteWorker.cpp:454-457 | echoing a known version carries the same ID |
| WorkerSetSteps.EchoKeepsCore | bistro/remote/RemoteWorker.cpp:412-471 | every other echo keeps the invariant, that of a lost worker included |
| WorkerSetSteps.SendKeepsCore | bistro/remote/RemoteWorkers.cpp:324-333 | the reply contains the worker exactly if it is live, and sending it keeps the invariant |
| WorkerSetSteps.UpdateWorkerKeepsCore | bistro/remote/RemoteWorker.cpp:163-207 | recomputing a worker's state keeps the invariant |
| WorkerSetPasses.IndexSizes | bistro/remote/RemoteWorkers.cpp:80-110 | sizes of hash, initial IDs and index against the live workers; the index is full exactly if every live worker is indexed |
| WorkerSetPasses.PrunedReplay | bistro/remote/RemoteWorkers.cpp:338-350 | replay of the merged history equals replay of the old one from the reference on |
| WorkerSetPasses.PruneKeepsReferences | bistro/remote/RemoteWorkers.cpp:353-446 | every version a live worker refers to stays in the history |
| WorkerSetPasses.PruneForgetsExactly | bistro/remote/RemoteWorkers.cpp:353-446 | a version stays in the history if and only if some live worker has echoed nothing yet, or nothing later than it |
| WorkerSetPasses.PruneKeepsCore | bistro/remote/RemoteWorkers.cpp:353-446 | pruning keeps the invariant and the worker set at every version that is kept |
| WorkerSetPasses.PropagateKeepsCore | bistro/remote/RemoteWorkers.cpp:468-573 | propagation keeps the invariant |
| Propagation.RequiresStep | bistro/remote/RemoteWorkers.cpp:448-467 | chains of indirect requirement compose |
| Propagation.StandsInOwnSet | bistro/remote/RemoteWorkers.cpp:522-528 | a live worker is in its own indirect worker set at every point of the walk |
| Propagation.AtCursor | bistro/remote/RemoteWorkers.cpp:518-548 | at an entry of the current version no CHECK of the inner loop can fail |
| Propagation.TurnIsSound | bistro/remote/RemoteWorkers.cpp:533-566 | raising an entry while walking stays within the transitive closure and keeps the index in step |
| Propagation.TurnCovers | bistro/remote/RemoteWorkers.cpp:530-566 | after the raise, every worker not yet advanced is still ahead of the iterator |
| Propagation.SoundAtLast | bistro/remote/RemoteWorkers.cpp:468-573 | when the walk ends, every worker made at least one step of the closure and none was lowered |
| Convergence.PassesStayInClosure | bistro/remote/RemoteWorkers.cpp:448-467 | after any number of passes a worker requires only what lay in the transitive closure before the first |
| Convergence.PassesCover | bistro/remote/RemoteWorkers.cpp:448-467 | after k passes its indirect version is at least that of every worker at the end of a chain of k steps through live workers |
| Consensus.ReplaceKeepsCore | bistro/remote/RemoteWorker.cpp:375-404 | replacing an instance keeps the invariant |
| Consensus.ContinueKeepsCore | bistro/remote/RemoteWorker.cpp:406-471 | a heartbeat of the current instance keeps the invariant |
| Consensus.MoveKeepsHosts | bistro/remote/RemoteWorkers.cpp:295-322 | host pools partition all workers by hostname after a move |
| Consensus.UpdateIsPoll | bistro/remote/RemoteWorker.cpp:163-207 | updating a worker is one poll of the health model, and changes nothing else in its record |
| Consensus.HeartbeatKeepsInv | bistro/remote/RemoteWorkers.cpp:189-335 | a heartbeat keeps the whole invariant, host pools included; first contacts and other instances may carry any ID |
| Consensus.HeartbeatExactly | bistro/remote/RemoteWorkers.cpp:189-335 | a heartbeat keeps the invariant if and only if it is not the echo of a lost instance that reaches the index |
| Consensus.ResurfacedIsIndexed | bistro/remote/RemoteWorkers.cpp:162-187 | after such an echo the index of the live workers holds the lost one |
| ConsensusRuns.NextKeepsInv | bistro/remote/RemoteWorkers.cpp:189-691 | every step of the protocol keeps it |
| ConsensusRuns.RunsKeepInv | bistro/remote/RemoteWorkers.cpp:189-691 | in every state of every run, hash, count, initial IDs, index, replayed history and host pools equal what direct computation gives |
| ConsensusRuns.CheckIsForAll | bistro/remote/RemoteWorkers.cpp:80-142 | the test of the smallest indexed version holds if and only if every live worker's indirect version is late enough |
| ConsensusRuns.PermittedIsLive | bistro/remote/RemoteWorkers.cpp:80-142 | a permitted worker is live and the index it dereferences is not empty |
| ConsensusRuns.ConsensusIsSafe | bistro/remote/RemoteWorkers.cpp:80-142 | a permitted worker knows exactly the current workers, and every one's indirect worker set contains it |
| ConsensusRuns.ConsensusIsReached | bistro/remote/RemoteWorkers.cpp:80-142 | once every live worker has echoed the current worker set ID, each of them passes the check |
| ConsensusRuns.HealthIsEarned | bistro/remote/RemoteWorkerState.h:89-137 | in every run, past NEW means the running tasks were fetched, and healthy means the check had passed |
| ConsensusRuns.HealthyMeansInConsensus | bistro/remote/RemoteWorker.h:260-272 | in every run, a healthy worker's instance was provably in consensus when it first became healthy |
| ConsensusRuns.MustDieIsFinal | bistro/remote/RemoteWorkerState.h:99-102 | MUST_DIE is left only by a heartbeat that is treated as a replacement, and then the sender is in the pool and NEW |
| ConsensusRuns.OthersUntouched | bistro/remote/RemoteWorkers.cpp:189-335 | a heartbeat changes no other worker |
| ConsensusRuns.ReplacedExactly | bistro/remote/RemoteWorker.cpp:68-161 | when a heartbeat that is not of the pooled instance replaces it, and that it changes nothing otherwise |
| HealthRuns.StepIsExact | bistro/remote/RemoteWorker.cpp:163-207 | the health of a worker after every step that does not replace it, from its health before: heartbeats and updates poll it, good healthchecks raise the time of the last one, initialization moves a NEW worker to UNHEALTHY, all else leaves it |
| HealthRuns.ContinueExactly | bistro/remote/RemoteWorker.cpp:406-471 | a heartbeat of the pooled instance, exactly: description, contact time, health, and which IDs a newer echo sets |
| HealthRuns.FirstContactExactly | bistro/remote/RemoteWorker.cpp:375-404 | a first contact and a replacement leave the same new record, with the ID the worker sent as its initial one |
| HealthRuns.IndirectWasEchoed | bistro/remote/RemoteWorkers.cpp:144-187 | in every run, every ID that a worker indirectly requires was taken in before as the echo of some worker |
| HealthRuns.AgreementMakesHealthy | bistro/remote/RemoteWorkerState.h:103-117 | when every live worker has echoed the current ID, a worker past NEW that is heard from in time is healthy after its next update |
| HealthRuns.SilentIsPolled | bistro/remote/RemoteWorkerState.h:89-137 | over any fragment of a run without a heartbeat or healthcheck of a worker past NEW, its health is what the fragment's updates of it make of it |
| HealthRuns.PartitionIsSafeExactly | bistro/remote/RemoteWorkerState.h:76-86 | over all such fragments, whatever the other workers do, the worker is dead whenever the scheduler has lost it, if and only if its deadline is at most one check interval later than the scheduler's |
| LostEchoes.LostBeforeFirstEcho | bistro/remote/RemoteWorkers.cpp:82-87 | a run after which a worker lost before its first echo makes the index larger than the live worker set |
| LostEchoes.LostAfterFirstEcho | bistro/remote/RemoteWorkers.cpp:175-179 | a run after which the echo of a lost worker fails the CHECK on its old index entry |
| LostEchoes.FalseConsensus | bistro/remote/RemoteWorkers.cpp:101-134 | a run after which the echo of a lost worker permits a worker to become healthy that a live worker does not know |
| WorkerPool.Begin | bistro/remote/RemoteWorkers.cpp:469 | the first entry in the comparator's order |
| WorkerPool.Increment | bistro/remote/RemoteWorkers.cpp:530-531 | the next entry of the index as it is now |
| WorkerPool.Last | bistro/remote/RemoteWorkers.cpp:536-540 | the last entry of the versions of a worker set |
| WorkerPool.FirstKey | bistro/remote/RemoteWorkers.cpp:410-420 | the first version of the history in the comparator's order |
| WorkerPool.RemoteWorkers.constructor | bistro/remote/RemoteWorkers.h:89-96 | a new scheduler has no workers, is in its initial wait, and satisfies the invariant |
| WorkerPool.RemoteWorkers.ConsensusPermitsBecomingHealthy | bistro/remote/RemoteWorkers.cpp:80-142 | the object's check is the specified one, and its CHECKs hold |
| WorkerPool.RemoteWorkers.UpdateIndirectWorkerSetVersion | bistro/remote/RemoteWorkers.cpp:144-187 | raises the indirect ID and moves its index entry, CHECKs included |
| WorkerPool.RemoteWorkers.EarliestReference | bistro/remote/RemoteWorkers.cpp:379-396 | the earliest version that a live worker has echoed |
| WorkerPool.RemoteWorkers.MergeHistoryStep | bistro/remote/RemoteWorkers.cpp:338-350 | applies one step to the merged set, CHECKs included |
| WorkerPool.RemoteWorkers.MergeUnused | bistro/remote/RemoteWorkers.cpp:407-446 | everything before the reference is merged into it |
| WorkerPool.RemoteWorkers.PruneUnusedHistoryVersions | bistro/remote/RemoteWorkers.cpp:353-446 | prunes as specified, keeps the invariant, trips no CHECK |
| WorkerPool.RemoteWorkers.ApplyStep | bistro/remote/RemoteWorkers.cpp:489-514 | the set of member versions follows a history step |
| WorkerPool.RemoteWorkers.Turn | bistro/remote/RemoteWorkers.cpp:518-567 | one turn of the inner loop, which advances the iterator and then edits the set it iterates |
| WorkerPool.RemoteWorkers.RaiseAt | bistro/remote/RemoteWorkers.cpp:515-567 | the inner loop ends with the iterator past the version |
| WorkerPool.RemoteWorkers.PropagateIndirectWorkerSets | bistro/remote/RemoteWorkers.cpp:468-573 | trips no CHECK, keeps the invariant, raises indirect versions only within the closure and by at least one step |
| WorkerPool.RemoteWorkers.NewWorker | bistro/remote/RemoteWorkers.cpp:215-240 | the new-worker callback |
| WorkerPool.RemoteWorkers.LoseWorker | bistro/remote/RemoteWorkers.cpp:241-267 | the dead-worker callback and the state change |
| WorkerPool.RemoteWorkers.UpdateWorkerState | bistro/remote/RemoteWorker.cpp:163-207 | one poll of one worker's health, and whether it is reported as NEW |
| WorkerPool.RemoteWorkers.EchoWorkerSetID | bistro/remote/RemoteWorker.cpp:417-464 | how an echoed worker set ID is taken in, CHECKs included |
| WorkerPool.RemoteWorkers.UpdateNewWorker | bistro/remote/RemoteWorker.cpp:375-404 | replaces the instance |
| WorkerPool.RemoteWorkers.UpdateCurrentWorker | bistro/remote/RemoteWorker.cpp:406-471 | takes in a heartbeat of the current instance, lost or not, unless a CHECK of the echo fails |
| WorkerPool.RemoteWorkers.Classify | bistro/remote/RemoteWorker.cpp:83-160 | which of the three treatments a heartbeat gets |
| WorkerPool.RemoteWorkers.MoveBetweenHosts | bistro/remote/RemoteWorkers.cpp:306-322 | moves a shard between host pools, CHECKs included |
| WorkerPool.RemoteWorkers.HandleHeartbeat | bistro/remote/RemoteWorkers.cpp:293-335 | unless a CHECK of the echo fails, the object after a heartbeat is the specified one, and the reply carries the current worker set |
| WorkerPool.RemoteWorkers.ProcessHeartbeat | bistro/remote/RemoteWorkers.cpp:189-335 | the same, with first contacts admitted; exactly rejected heartbeats get no reply; the invariant holds afterwards if and only if no lost worker got into the index |
| WorkerPool.RemoteWorkers.InitializeRunningTasks | bistro/remote/RemoteWorkers.cpp:681-691 | a NEW worker is UNHEALTHY afterwards, others ignore it |
| WorkerPool.RemoteWorkers.InitialConsensus | bistro/remote/RemoteWorkers.cpp:617-631 | whether exactly the workers of the previous scheduler are connected |
| WorkerPool.RemoteWorkers.UpdateInitialWait | bistro/remote/RemoteWorkers.cpp:575-662 | the wait ends if and only if no NEW worker was reported and it expired or the same workers are back |
| WorkerPool.RemoteWorkers.UpdateEach | bistro/remote/RemoteWorkers.cpp:672-676 | every worker is updated once, and exactly the NEW ones are reported |
| WorkerPool.RemoteWorkers.UpdateState | bistro/remote/RemoteWorkers.cpp:664-679 | a pass is a fragment of a run, and ends the wait only when no pooled worker is NEW |
| Health.StatesExactly | bistro/remote/RemoteWorkerState.h:89-137 | for each of the four states, exactly when it is computed; and when only the lack of permission keeps a worker from HEALTHY |
| Health.WorkerStatesExactly | bistro/worker/BistroWorkerHandler.cpp:761-803 | exactly when the worker's own check finds it healthy, which it never is for the first time, and when it must die |
| Partition.WorkerSchedule | bistro/worker/BistroWorkerHandler.cpp:761-796 | the exact seconds at which a worker without contact becomes unhealthy and dies |
| Partition.SchedulerSchedule | bistro/remote/RemoteWorkerState.h:89-137 | under any polling times, what a scheduler without contact can conclude and when |
| Partition.PartitionSafety | bistro/remote/RemoteWorkerState.h:76-86 | for the two health models alone: under every polling schedule the worker is dead when the scheduler has lost it, if and only if its deadline is at most one check interval later |
| Partition.SmallSkewIsSafe | bistro/worker/BistroWorkerHandler.cpp:702-722 | contact times that differ by at most a check interval are safe |
| Partition.AbandonedWorker | bistro/remote/RemoteWorkerState.h:89-137 | a worker in any state past NEW dies in time once nobody contacts it |
| Partition.InitialWaitIsSafe | bistro/remote/RemoteWorkers.cpp:585-594 | when the default wait expires, every worker not heard from has been dead for the whole termination allowance |
| Partition.InitialWaitIsTight | bistro/remote/RemoteWorkers.cpp:585-594 | with a check interval of one second, one second less would not do |
| WorkerHandler.Handler.SetState | bistro/worker/BistroWorkerHandler.cpp:642-662 | the worker records a state as the scheduler does |
| WorkerHandler.Handler.HeartbeatAnswered | bistro/worker/BistroWorkerHandler.cpp:690-753 | the answer is stored, except for an older worker set of the same scheduler; so its version never goes back; the health model restarts with a new scheduler |
| WorkerHandler.Handler.Healthcheck | bistro/worker/BistroWorkerHandler.cpp:761-803 | one check of the worker's own health, and suicide when it must die |
| WorkerHandler.Handler.RunAlone | bistro/worker/BistroWorkerHandler.cpp:761-803 | checking every second is what the partition theorems speak of |
| NotifyProtocol.WorkerHandler.RunTask | bistro/worker/BistroWorkerHandler.cpp:217-339 | accepts a task exactly if the worker is healthy, the request is for this worker from its scheduler, its number is not old and the task is not running; it then runs |
| NotifyProtocol.WorkerHandler.NotifyIfTasksNotRunning | bistro/worker/BistroWorkerHandler.cpp:373-427 | raises the number, and reports and remembers the queried tasks that are not running, in order |
| NotifyProtocol.NotRunningExactly | bistro/worker/BistroWorkerHandler.cpp:400-413 | exactly the queried tasks that are not running are reported |
| NotifyProtocol.RunsKeepInv | bistro/runners/RemoteWorkerRunner.cpp:991-1026 | in every run, with delays, losses, reordering, repeats and refusals, numbers separate reported invocations from acceptable ones |
| NotifyProtocol.ReportedNeverRuns | bistro/worker/BistroWorkerHandler.cpp:304-422 | once reported as not running, an invocation is never accepted or running again |
| NotifyProtocol.NotifiedNeverRuns | bistro/worker/BistroWorkerHandler.cpp:304-422 | in every run, after the delivery of a check newer than any before, no invocation it names that was not running is ever accepted or running |
| NotifyProtocol.AcceptedRuns | bistro/worker/BistroWorkerHandler.cpp:319-339 | an accepted task runs until it ends, and no check reports it before |
| NotifyProtocol.FreshIsNotRefused | bistro/remote/RemoteWorker.h:198-203 | a task started after the last check is never refused for its number |
| NotifyProtocol.RunOnlyOnce | bistro/worker/BistroWorkerHandler.cpp:327-331 | if no request is delivered twice, the CHECK against running an invocation twice holds |
| CronSelector.FirstMatchIsLeast | bistro/cron/CrontabSelector.cpp:82-101 | the match found is the least at or after t, or a carry with the least of all when there is none |
| CronSelector.ResultMatchesExactly | bistro/cron/CrontabSelector.cpp:53-67 | what is returned matches if and only if the selector can match at all |
| CronSelector.BackwardsInterval | bistro/cron/CrontabSelector.cpp:53-67 | minutes from 50 to 10 match nothing, and 50 is returned |
| CronSearch.WeekdaysFollow | bistro/cron/StandardCrontabItem.cpp:149-156 | the weekday advances by one each day, over ends of months and years |
| CronSearch.DaysToStepIsLeast | bistro/cron/StandardCrontabItem.cpp:280-309 | the weekday detour steps to the first day with a matching weekday |
| CronSearch.AdvanceIsLeast | bistro/cron/StandardCrontabItem.cpp:337-358 | a field advances to its least matching value given the fields before it, or carries if there is none |
| CronSearch.SearchIsLeast | bistro/cron/StandardCrontabItem.cpp:311-386 | from any state of the search, the label found is the least match among the labels ahead |
| CronSearch.FindsLeastLabel | bistro/cron/StandardCrontabItem.cpp:311-386 | the search returns the least valid matching label at or after the input, and no result only if there is none, unless the depth limit cuts it off |
| CronSearch.NeverTooDeep | bistro/cron/StandardCrontabItem.cpp:337-343 | for an item with a month that has a matching day in every year, the depth limit is never reached |
| CronSearch.OnlyLeapDaysAreCutOff | bistro/cron/StandardCrontabItem.cpp:337-343 | where the depth limit cuts a search off, the item matches nothing but February 29 |
| CronSearch.EveryMonthSuffices | bistro/cron/StandardCrontabItem.cpp:337-343 | an item with a weekday, or with a day that every month has, is such an item |
| CronSearch.MatchComputeState.ResetFrom | bistro/cron/StandardCrontabItem.cpp:381-384 | sets the later fields to their minima |
| CronSearch.MatchComputeState.FindMatchingDayOfWeek | bistro/cron/StandardCrontabItem.cpp:280-309 | the in-place detour computes the specified search and never reaches its internal errors |
| CronSearch.MatchComputeState.FindMatchingPositions | bistro/cron/StandardCrontabItem.cpp:311-323 | the in-place search computes the specified one |
| CronSearch.MatchComputeState.FindMatchingPositionsImpl | bistro/cron/StandardCrontabItem.cpp:337-386 | the same for one position, and its internal errors cannot occur |
| CronClock.ToUTCExactly | bistro/cron/utils/date_time.h:91-101 | the timestamps of a label are exactly the instants that show it |
| CronClock.ToUTCKinds | bistro/cron/utils/date_time.h:102-158 | which labels are ambiguous or skipped, and the order of the two timestamps |
| CronClock.RewindBetween | bistro/cron/StandardCrontabItem.cpp:486-504 | the binary search finds the rewind |
| CronClock.FirstSkipped | bistro/cron/StandardCrontabItem.cpp:451-458 | the binary search finds the first skipped label |
| CronClock.PreSkip | bistro/cron/StandardCrontabItem.cpp:430-462 | the last second before the skip, and exactly when the source gives up |
| CronMatch.LabelIsAhead | bistro/cron/StandardCrontabItem.cpp:508-550 | which label is matched, with and without a restart of the search |
| CronMatch.TargetIsNext | bistro/cron/StandardCrontabItem.cpp:586-655 | no event lies between the input and the instant the label stands for |
| CronMatch.AnswerIsAhead | bistro/cron/StandardCrontabItem.cpp:552-563 | the answer is never before the input |
| CronMatch.ThrewExactly | bistro/cron/StandardCrontabItem.cpp:508-655 | if the label search answers around the clock change, there is no answer if and only if the label search throws at the input or the first matching label is 25 hours or more into a skip |
| CronMatch.FirstMatchExactly | bistro/cron/StandardCrontabItem.cpp:565-655 | for every rewind, skip and policy, an answer is the first event at or after the rounded-up input if and only if no late repeat is missed |
| CronMatch.LaterMatchSuffices | bistro/cron/StandardCrontabItem.cpp:565-655 | a match after the repeated span rules out a miss |
| CronMatch.RoundingExactly | bistro/cron/StandardCrontabItem.cpp:568-579 | for the input as given, rounding loses exactly the event of a skip in the minute before it |
| CronCalendar.MinutesGrow | bistro/cron/StandardCrontabItem.cpp:134-147 | the order of labels is the order of their minute counts |
| CronCalendar.FromMinutes | bistro/cron/StandardCrontabItem.cpp:113-132 | every minute from 1969 to 9999 has a label |
| CronCalendar.ItemNextIsNext | bistro/cron/StandardCrontabItem.cpp:508-522 | the label search is a search for the least matching minute, and in range throws only at the depth limit |
| CronCalendar.CrontabFirstMatch | bistro/cron/StandardCrontabItem.cpp:552-655 | the whole of findFirstMatch, from selectors to UTC, for every item, where it does not throw |
| CronCalendar.MissExample | bistro/cron/StandardCrontabItem.cpp:514-519 | a crontab item whose late repeat is missed |
| CronCalendar.RoundingExample | bistro/cron/StandardCrontabItem.cpp:568-579 | a crontab item whose event before a skip is lost by rounding up |
| CronCalendar.NeverThrows | bistro/cron/StandardCrontabItem.cpp:311-386 | for an item that can match in every year the label search throws only for labels out of range |
| CronCalendar.CrontabThrowsExactly | bistro/cron/StandardCrontabItem.cpp:508-655 | for an item that can match in every year findFirstMatch throws if and only if the local time is out of range or the first matching label is 25 hours or more into a skip |
| CronCalendar.EveryYearFirstMatch | bistro/cron/StandardCrontabItem.cpp:552-655 | for an item that can match in every year, within the calendar and with skips of at most 25 hours, there is always an answer, and it is the first event if and only if no late repeat is missed |
| CronCalendar.LeapDaysExactly | bistro/cron/StandardCrontabItem.cpp:337-343 | for February 29 of a list of years, the search is cut off exactly if the first twelve have none and there is another year |
| CronCalendar.DepthExample | bistro/cron/StandardCrontabItem.cpp:337-343 | a crontab item with a match that the search gives up on |
| TaskStatuses.RealStatusWins | bistro/statuses/TaskStatusSnapshot.cpp:131-269 | whatever synthetic statuses arrive before or after it, and however often it is repeated, the first real status decides what is stored: its own fields, with the task's backoff if it uses one, and FAILED for ERROR after the last backoff |
| TaskStatuses.OrderDoesNotMatter | bistro/statuses/TaskStatusSnapshot.cpp:131-269 | confluence: any two arrival orders of the same reports give the same status and running task |
| TaskStatuses.StartedIsWaiting | bistro/statuses/TaskStatusSnapshot.cpp:184-207 | a task just marked as running is ready for its reports |
| TaskStatuses.DeliverExactly | bistro/statuses/TaskStatus.cpp:247-289 | which updates are dropped, and field by field what the others store |
| TaskStatuses.ForgivenMayStart | bistro/statuses/TaskStatus.cpp:291-307 | a forgiven task may start at once, exactly unless it runs, is done, or was lost and is still waiting |
| TaskStatuses.SafeBackoffCovers | bistro/runners/RemoteWorkerRunner.cpp:913-970 | the wait of a lost task is the least number of whole seconds longer than the margin and the time to kill it |
| Backoffs.Parse | bistro/config/JobBackoffSettings.cpp:23-60 | accepts exactly the lists that describe settings, and returns what they describe |
| Backoffs.NextIsNext | bistro/config/JobBackoffSettings.cpp:62-82 | after k ends the next backoff is value k, or the last one, or none |
| Backoffs.AttemptAdvances | bistro/runners/TaskRunner.cpp:77-87 | an attempt that fails or is lost uses one backoff, although a lost one stores a longer wait |
| Backoffs.FailsAfterAll | bistro/statuses/TaskStatus.cpp:247-289 | in every run of failing attempts, a task with n values fails at end n + 1 and not before, and never with "repeat" |
| Backoffs.StartsAgainExactly | bistro/statuses/TaskStatus.h:285-289 | in every run of failing attempts, after attempt k ends the task may start again exactly when backoff k has passed since, or for a lost task also its time to die, and never once the backoffs are used up |
| Backoffs.ForgivenStartsOver | bistro/statuses/TaskStatus.cpp:291-307 | forgiving starts the backoffs over |
| Backoffs.LostTaskWaits | bistro/runners/RemoteWorkerRunner.cpp:913-970 | until a lost task has had time to die, and whatever synthetic statuses, forgiving and reloads follow, it may start again exactly if a reload dropped its job or loaded a failure that was then forgiven |
| Backoffs.StandsWithoutReload | bistro/statuses/TaskStatusSnapshot.cpp:63-122 | reloads that keep the job and load nothing for the task leave the wait as it is |
| Backoffs.DroppedStartsAtOnce | bistro/statuses/TaskStatusSnapshot.cpp:60-71 | removing a job and adding it again forgets the wait |
| Backoffs.ReloadIsRefresh | bistro/statuses/TaskStatusSnapshot.cpp:36-129 | the reload of one task in these runs is what the snapshot's loops make of it |
| Backoffs.ForgivingExactly | bistro/statuses/TaskStatus.cpp:247-307 | whatever synthetic statuses and forgiving come between, the real status is stored as it would have been at once, except exactly if the loss came first, was then forgiven, and the status repeats a nonzero backoff |
| Backoffs.ForgivingExample | bistro/statuses/TaskStatus.cpp:291-306 | a forgiven lost task that reports "incomplete" may start at once |
| Backoffs.IncompleteRepeatsExactly | bistro/statuses/TaskStatus.h:60-67 | an incomplete attempt with backoff never fails the task, and repeats its backoff exactly at the end of the list |
| Backoffs.IncompleteExample | bistro/statuses/TaskStatus.cpp:254-265 | a task whose backoff grows although it does not advance |
| Snapshot.Put | bistro/statuses/TaskStatusSnapshot.cpp:24-34 | growing the vectors changes one status and nothing else |
| Snapshot.TaskStatusSnapshot.UpdateStatus | bistro/statuses/TaskStatusSnapshot.cpp:131-269 | exactly one task changes, to the fields of the update with the backoff rules applied; it is running afterwards exactly if the update says so; the CHECKs hold |
| Snapshot.TaskStatusSnapshot.ForgiveJob | bistro/statuses/TaskStatusSnapshot.cpp:271-278 | forgives every task of the job and no other |
| Snapshot.TaskStatusSnapshot.UpdateForConfig | bistro/statuses/TaskStatusSnapshot.cpp:36-129 | what becomes of every task's status when the configuration changes |
| Snapshot.StaysRunningExactly | bistro/statuses/TaskStatusSnapshot.cpp:99-122 | a running task stays marked as running exactly when its job was loaded before or the store has no result for it |
| Snapshot.RefreshExactly | bistro/statuses/TaskStatusSnapshot.cpp:60-122 | a task that is not running keeps its status if its job was loaded before, gets the last stored result if the job is new, and none if the job is gone |
| Snapshot.LoadExactly | bistro/statuses/TaskStatusSnapshot.cpp:114-120 | the last result in the store decides what is loaded, with its own time if it is done and the present if it failed |
| Snapshot.RunningIsOverwritten | bistro/statuses/TaskStatusSnapshot.cpp:110-120 | a running task whose mark a stored failure replaces |
| Resources.SumOf | bistro/runners/TaskRunner.cpp:94-123 | a task records its need once at every node of its path, for every resource of the node's level |
| Resources.FittingMakesNoneWorse | bistro/scheduler/utils.cpp:24-51 | starting a task where there is room leaves every use within its limit or as it was, also when limits were exceeded before |
| Resources.FittingKeepsWithin | bistro/scheduler/utils.cpp:24-51 | starting a task where there is room keeps all limits |
| Resources.EndingKeepsWithin | bistro/scheduler/Scheduler.cpp:120-213 | ending a task keeps all limits |
| Resources.LimitsHold | bistro/scheduler/Scheduler.cpp:251-363 | in every state of every run of single starts and ends, of tasks that need nothing on their path negatively, what running tasks record at a node sums to at most its limit |
| Resources.LimitsHoldExactly | bistro/config/Job.cpp:61-65 | a task can join these runs without any limit being exceeded if and only if it needs nothing on its path negatively or does not even fit when nothing runs |
| Resources.NegativeNeedBreaks | bistro/config/Job.cpp:61-65 | a start, another start and an end after which a limit is exceeded, for every task that can start and needs something on its path negatively |
| SchedulerRuns.HistoriesAreRuns | bistro/scheduler/Scheduler.cpp:251-363 | every history of whole passes and ends of tasks is such a run |
| SchedulerRuns.PassesKeepLimits | bistro/scheduler/Scheduler.cpp:251-363 | so, with tasks that need nothing on their path negatively, all limits hold in every state of every history |
| PackedResources.PackResourcesInto | bistro/scheduler/Scheduler.cpp:50-90 | one block per name, blocks disjoint, replicas sharing one, each holding the level's amounts |
| PackedResources.BuildViews | bistro/scheduler/Scheduler.cpp:130-149 | the two views hold every running task and every recorded use once |
| PackedResources.LoweringCounts | bistro/scheduler/Scheduler.cpp:178-211 | counting a name's uses once and erasing them keeps the table exact, replicas included |
| ResourceTable.TaskRunner.RecordResources | bistro/runners/TaskRunner.cpp:58-71 | the record of a task's resources |
| ResourceTable.TaskRunner.RunTask | bistro/runners/TaskRunner.cpp:33-92 | the runner's next answer is returned; a task that ran is recorded with its uses, another is not |
| ResourceTable.PassResources.constructor | bistro/scheduler/Scheduler.cpp:264-283 | a pass starts with every node's full amounts |
| ResourceTable.PassResources.SubtractUses | bistro/scheduler/Scheduler.cpp:184-206 | one block is lowered by the uses at its node, and nothing else changes |
| ResourceTable.PassResources.VisitNode | bistro/scheduler/Scheduler.cpp:164-212 | one node of the walk |
| ResourceTable.PassResources.ProcessRunningTasks | bistro/scheduler/Scheduler.cpp:120-219 | every recorded use is subtracted exactly once; the orphans are exactly the running tasks whose job is missing or cannot run, or whose name has no enabled node |
| Demands.TotalOf | bistro/scheduler/SchedulerPolicy.cpp:20-36 | a slot is asked for the job's need exactly if its name lies on the task's path |
| Demands.DemandsMetExactly | bistro/scheduler/utils.cpp:29-41 | the packed vectors can meet a task exactly if it fits beside the running tasks |
| Demands.StartingKeepsCounts | bistro/scheduler/utils.cpp:43-49 | lowering the slots of a started task keeps the table equal to limits minus recorded uses |
| ResourceTable.PassResources.CollectDemands | bistro/scheduler/utils.cpp:29-41 | the updates of a path, and whether all can be met |
| ResourceTable.PassResources.Lower | bistro/scheduler/utils.cpp:45-48 | every slot is lowered by what was asked of it, and the CHECK holds |
| ResourceTable.PassResources.TryToSchedule | bistro/scheduler/utils.cpp:24-51 | the runner is asked exactly once and its answer returned if the task fits, and otherwise it is not asked; the table stays exact |
| Attempts.OneMoreExplained | bistro/scheduler/utils.cpp:24-51 | the record of a pass grows by an attempt that got the runner's next answer if it fitted beside what ran then, and no answer otherwise |
| Attempts.TryOnce | bistro/scheduler/utils.cpp:24-51 | one attempt: the last node of a job is tried and removed, a task that ran is added to the running tasks and nothing else, and all accounts stay right |
| Fairness.TryingKeepsTurn | bistro/scheduler/RoundRobinSchedulerPolicy.cpp:28-38 | after every attempt, jobs with nodes left have run equally many tasks, up to one |
| Policies.RoundRobin | bistro/scheduler/RoundRobinSchedulerPolicy.cpp:18-43 | terminates, tries each pair once unless stopped, counts what ran, adds exactly that to the running tasks, makes no use exceed its limit that did not before, and is fair at every moment |
| Policies.RandomizedPriority | bistro/scheduler/RandomizedPrioritySchedulerPolicy.cpp:47-73 | the same accounts for any sequence of picks; a job that was picked is tried until one of its tasks runs or none is left |
| Policies.OneByOne | bistro/scheduler/RankedPrioritySchedulerPolicy.cpp:28-44 | pairs are tried in the order of the jobs, last node first, up to a stop |
| Policies.RankedPriority | bistro/scheduler/RankedPrioritySchedulerPolicy.cpp:17-45 | jobs of higher priority first |
| Policies.LongTail | bistro/scheduler/LongTailSchedulerPolicy.cpp:18-46 | jobs with fewer nodes first |
| SchedulerPass.ShouldRun | bistro/config/Job.cpp:242-252 | whether every node on the path is enabled and passes the job's filters |
| SchedulerPass.MayRun | bistro/scheduler/Scheduler.cpp:322-347 | the in-order tests of one task compute the specified choice, and the CHECK on dependencies holds |
| SchedulerPass.ChooseExactly | bistro/scheduler/Scheduler.cpp:322-347 | a task is chosen exactly if its status lets it start, its path is enabled and passes, and all dependencies are done; a pass aborts at it exactly if it is otherwise eligible and an unloaded dependency comes before any that is not done |
| SchedulerPass.MissingDependencyAborts | bistro/statuses/TaskStatusSnapshot.cpp:280-296 | a dependency on a job that does not exist aborts the pass if a later job has a row, and only blocks the task otherwise |
| SchedulerPass.LoadedNeverAborts | bistro/statuses/TaskStatusSnapshot.cpp:280-306 | if the jobs and all their dependencies are loaded, no CHECK fails |
| SchedulerPass.CrossProduct | bistro/scheduler/Scheduler.cpp:306-349 | the loops compute the candidates |
| SchedulerPass.CandidatesExactly | bistro/scheduler/Scheduler.cpp:306-349 | a pair is a candidate exactly if the job can run, the node is of its level, and status, path and dependencies allow it |
| SchedulerPass.StartedIsOrphanExactly | bistro/scheduler/Scheduler.cpp:151-219 | a task just started is an orphan in the next pass exactly if its job cannot run any more or its node's name is not enabled |
| SchedulerPass.NoNewOrphans | bistro/scheduler/Scheduler.cpp:151-349 | a pass starts no task that the same configuration makes an orphan |
| SchedulerPass.Schedule | bistro/scheduler/Scheduler.cpp:251-363 | a pass asks the runner about exactly the candidates that fit beside what runs then, and adds exactly the tasks it ran; leaves every use within its limit or as it was; is a step of the histories above; finds exactly the orphans; tries every candidate once, and nothing else, unless stopped; and keeps the policy's own promise: fairness, sticking to a pick, higher priority first or fewer nodes first |
| LogPaging.GetWorkerPage | bistro/utils/LogWriter.cpp:169-217 | one worker's page |
| LogPaging.WorkerPageIs | bistro/utils/LogWriter.cpp:199-217 | a page holds exactly the lines from its start to its next key, and stops only when full |
| LogPaging.GetPage | bistro/runners/RemoteWorkerRunner.cpp:383-432 | the merged page, sorted |
| LogPaging.PageIsAll | bistro/runners/RemoteWorkerRunner.cpp:383-413 | ascending, a page holds every worker's lines from its start to its next key |
| LogPaging.DescendingPageIs | bistro/runners/RemoteWorkerRunner.cpp:383-417 | descending, a page holds besides exactly the lines with the next key that stand among the first lines of their worker's log |
| LogPaging.EarlyIsRepeated | bistro/runners/RemoteWorkerRunner.cpp:403-417 | the next page holds these lines again |
| LogPaging.OnBothExactly | bistro/runners/RemoteWorkerRunner.cpp:404-408 | a line is on two descending pages in a row exactly if it is one of these |
| LogPaging.RepeatsExactly | bistro/runners/RemoteWorkerRunner.cpp:404-408 | some line is on a descending page and on the next one exactly if some worker has a line with the next key and fewer lines than the limit before it on the first page |
| LogPaging.DistinctNeverRepeats | bistro/runners/RemoteWorkerRunner.cpp:404-408 | with line IDs that no two workers share, no line is repeated |
| LogPaging.ReadAll | bistro/runners/RemoteWorkerRunner.cpp:316-435 | in both directions, following the next keys ends and reads the lines in order: ascending, or with distinct IDs, every line of every worker exactly once; descending, also what pages repeat |
| LogPaging.DescendingExample | bistro/runners/RemoteWorkerRunner.cpp:404-408 | for every page size, two workers whose lines share an ID, and a line that is on two pages |
| LogPaging.ReadTwice | bistro/runners/RemoteWorkerRunner.cpp:351-359 | with the page size that is used for two workers, a client that reads these logs descending gets a line twice |

## Left out

- Consensus runs: the pooled instance echoes only worker set IDs that were sent to it since it was added, or that the scheduler ignores; an instance that was replaced and came back could also echo one from before.
- Consensus runs: end at the echo of a lost worker that reaches the index, since the invariant ends there.
- InitialConsensus: with no live worker the source reads past the end of its multiset; the model lets that read give either answer.
- RemoteWorkers: pooled workers are values in one map; that the host pools share pointers with the main pool is not modelled.
- RemoteWorker's lists of running and "unsure" tasks, and the order in which they and the task statuses are updated.
- The worker's subprocess queue, suicide and task termination, beyond the timeouts.
- Healthcheck tasks, which bypass the sequence numbers of `NotifyProtocol`.
- CronSearch.FindsLeastLabel: says nothing when the depth limit of 50 cuts the search off; exactly when it does is known for leap days in a list of years; for other items that can match in no common year it is not.
- CronClock: one change of offset per timezone, at a whole minute; the instants of a repeated span and the day before a skip lie after the epoch, because the source uses the timestamp -1 for "no time".
- CrontabSelector's JSON parsing and sorting of its values; the model starts from a built selector.
- TaskStatus: statuses are values held in the snapshot's rows; that copies of a status share its data pointer is not modelled, and JSON conversion is left out.
- Integer overflow of timestamps, backoffs and resource amounts.
- Resources: node names belong to one level, and a task's path crosses a level once.
- Worker-level resources and worker selection (`RemoteWorkerRunner`), which use a second table of the same kind.
- The weights of the randomized policy: any pick is allowed.
- Log filters by regular expression, which also change when a page is taken to be the last.
- Job filters other than whether a node passes, which is a parameter; the CHECK that a job's row is loaded and the failed CHECK on an update's invocation ID are preconditions, since the source aborts there.
- Backoffs.ForgivingExactly: configuration reloads between a loss and the real status.
- Thrift, HTTP, SQLite, configuration parsing, the monitor, physical resources and the web interface.

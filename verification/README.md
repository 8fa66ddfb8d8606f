# Models of the TF2 QuickServer repository

Dafny models of the parts of TF2 QuickServer in which state, time and interleaving matter, with
proofs about them. A model is a state machine whose steps are the code between two awaits (or
between two calls, in the Go shield), an object whose methods are proved against those steps, or
both. `dafny verify dfyconfig.toml` checks everything.

## The modules

- `Civil` is calendar arithmetic as in section 21.4.1 of ECMA-262; `WallClock` is the resolver
  from a wall-clock time to an instant and the next occurrence of a daily time. A zone is an
  arbitrary function from epoch seconds to whole-second offsets of less than a day. Loop results
  hold for any such function; statements about gaps and repeated times assume at most one
  transition in the window they name, and those about the next occurrence one of at most a day.
- `Backoff`, `TaskQueue` and `BackgroundTaskQueue` are the in-memory queue with the shutdown
  manager: the state machine and its invariants in `TaskQueue`, the mutable classes in
  `BackgroundTaskQueue`, the timing of retries in `RetryTiming`. Every method of the queue class that is a step is tied to it by an
  equation on `View()`; its helper `UpdateTaskStatus` and the methods of the shutdown manager state
  the new values of the fields they own.
- `ScheduledServers` composes the schedule table, cron ticks, cancellations, creations and
  restarts with that queue; `ScheduledServerRepository` is the table as an object and one tick.
- `ServerTables` is the servers table with the two trigger-maintained tables; `ServerLifecycle`
  is everything that happens to a server row; `IdleTracking` runs the empty-server cleanup on it.
- `PeakConcurrency` is the sweep-line query against its definition.
- `AttackRadar`, `Firewall` and `Shield` are the Go shield: detector, rule replacement, and the
  activation and timer around it, interleaved call by call.
- `OciConfig` is the configuration file from the operator's disk to the server's.

Assumptions of the models: server, schedule and task ids are fresh when generated; SQL statements
and transactions are atomic and serialised; Discord user ids and API client ids do not mix;
delays are exact reals; listing a security group returns all its rules, and each of its calls
happens as a whole or not at all under fresh ids; a base64 text decodes to what was encoded.

## Where the code and its words differ

- scheduleTime.ts line 76 says that repeated local times resolve to the first occurrence. They do
  only for references before the fall-back (`WallClock.FirstOccurrenceIffReferenceBefore`).
- InMemoryBackgroundTaskQueue.ts lines 143-145 say that processing never rejects; a rejecting
  onError makes it reject. allSettled hides that, and the model has no step for it.
- TerminatePendingServers.ts line 16 says ten minutes; the code and the model use fifteen.
- nsg.go line 124 says that ingress rules are removed; egress rules are removed as well, and an
  open UDP rule is added in each direction.
- The shield's log says that it is up or down, but an activation can give up after the players'
  rules are in, with the shield down and no timer. When the removal of the old ingress rules fails
  (nsg.go lines 86-101), the firewall keeps both sets and still lets in all that it did. When the removal
  of the old egress rules fails (nsg.go lines 103-118) or the final chat message does (shield.go
  lines 61-65), it stays restricted to the players. `Shield.DownMeansOpen` and
  `Shield.DownMeansStillOpen` say that nothing else has these effects; a failure to take the shield
  down has not, but leaves it up for good (`Shield.StuckIff`).
- Shutdown waits for tracked actions only: processors and onSuccess. onError runs outside them
  (InMemoryBackgroundTaskQueue.ts line 226), and the two classes alone let it be called after a
  shutdown wait has resolved; `TaskQueue.OnErrorOnceDrained` says exactly when. It takes a queue
  tick after the wait: packages/entrypoints/src/discordBot.ts (lines 436-437 and 446-447) stops the
  queue's timer first, so no such tick comes there.

## Model

| member | source | states |
|---|---|---|
| Civil.CivilFromDay | packages/core/src/utils/scheduleTime.ts:46-69 | every day number splits into a real calendar date (month 1-12, day within the month, leap years respected) whose own day number is the one it came from |
| Civil.DayOfInjective | packages/core/src/utils/scheduleTime.ts:89 | two valid calendar dates never share a day number |
| Civil.CivilRoundTrip | packages/core/src/utils/scheduleTime.ts:46-69 | splitting a day number and rebuilding it are inverse in both directions, for every day and every valid date |
| Civil.NextDayIsSuccessor | packages/core/src/utils/scheduleTime.ts:163-168 | asking for day d + 1 of a month gives the calendar's successor date across month ends, leap days and year ends, the successor being defined without day numbers |
| Civil.EpochIsDayZero | packages/core/src/utils/scheduleTime.ts:89 | days are counted from the first of January 1970 |
| Civil.DateUTCRoundTrip | packages/core/src/utils/scheduleTime.ts:46-69 | the parts shown for a second, given to Date.UTC, rebuild that second exactly if and only if its year is 100 or later |
| WallClock.WallReadsSecond | packages/core/src/utils/scheduleTime.ts:46-69 | reading an instant through the formatter and Date.UTC loses its milliseconds and nothing else |
| WallClock.WallOfReference | packages/core/src/utils/scheduleTime.ts:93-102 | the seed offset is minus the zone's offset plus the reference's milliseconds: it mixes a whole-second wall value with a millisecond instant |
| WallClock.IterateSubtractsAnOffset | packages/core/src/utils/scheduleTime.ts:107-130 | from any candidate the fixed-point loop terminates, whatever the zone and however many transitions it has, at the naive time less an offset the zone really takes |
| WallClock.ResolveSubtractsAnOffset | packages/core/src/utils/scheduleTime.ts:93-130 | the resolved instant is always the naive time less one of the zone's own offsets |
| WallClock.ResolveCases | packages/core/src/utils/scheduleTime.ts:93-130 | with at most one transition, the resolved instant in each of the four cases: skipped, ambiguous with the reference on either side, before and after |
| WallClock.ResolverCorrect | packages/core/src/utils/scheduleTime.ts:80-130 | with at most one transition in the window: a wall time is read exactly by the result if and only if some instant reads it; a time in a gap resolves to naive minus the pre-gap offset and reads later by the gap; a repeated time resolves to its first occurrence for a reference before the change, and to the one after the change otherwise |
| WallClock.FirstOccurrenceIffReferenceBefore | packages/core/src/utils/scheduleTime.ts:75-79 | a repeated time resolves to its first occurrence if and only if the reference precedes the fall-back, which is less than the code's comment says |
| WallClock.RepeatedTimeAfterFallBack | packages/core/src/utils/scheduleTime.ts:75-79 | a concrete fall-back in which the first occurrence is not the one returned |
| WallClock.FixedPoint | packages/core/src/utils/scheduleTime.ts:103-130 | the loop over `candidate`, `previousCandidate` and `seen`, in milliseconds, returns the second-level resolution with the reference's millisecond residue kept |
| WallClock.WallClockToUtc | packages/core/src/utils/scheduleTime.ts:80-130 | the whole resolver: the result is the resolution of the naive second, plus the reference's milliseconds |
| WallClock.NextOccurrenceInFuture | packages/core/src/utils/scheduleTime.ts:147-173 | the next occurrence is strictly after the reference and at most a day plus the fall-back shift after it |
| WallClock.NextOccurrenceReadsTime | packages/core/src/utils/scheduleTime.ts:147-173 | the next occurrence reads the requested time of day, or that time plus the gap when its day skips it |
| WallClock.NextOccurrenceEarliest | packages/core/src/utils/scheduleTime.ts:147-173 | no earlier second after the reference shows the requested time, if and only if no repeated reading of it (that wall day or the day before) has its first occurrence behind the reference and its second ahead |
| WallClock.SecondIsMissed | packages/core/src/utils/scheduleTime.ts:162-173 | in that excluded case an earlier occurrence exists and is passed over |
| WallClock.RepeatedTimePassedOver | packages/core/src/utils/scheduleTime.ts:162-173 | a concrete zone, reference and time in that case: the repeated 00:30 still ahead is passed over for the next day's |
| WallClock.TextMeans | packages/core/src/utils/scheduleTime.ts:31-35 | for every hour below 24 and minute below 60, the text of their two-digit decimals around a colon is valid and means that many hours and minutes into the day |
| WallClock.ValidIffText | packages/core/src/utils/scheduleTime.ts:31-35 | a text is valid if and only if it is such a text, and it is the text of one hour and minute only |
| WallClock.NaiveTimes | packages/core/src/utils/scheduleTime.ts:147-168 | both naive times, today's and the rolled one, are the wall midnight plus the requested time, a day apart, over month and year ends |
| WallClock.NextWallOccurrence | packages/core/src/utils/scheduleTime.ts:147-173 | same day if still ahead, otherwise the rolled day: the result is the second-level next occurrence plus the reference's milliseconds |
| WallClock.ComputeNextOccurrence | packages/core/src/utils/scheduleTime.ts:132-181 | a text that is no hour and minute is refused first, then an unknown zone; otherwise, for the text of h and m, the next occurrence of that time with the reference's millisecond residue |
| WallClock.ResultShowsTime | packages/core/src/utils/scheduleTime.ts:132-181 | end to end: the wall clock at the computed instant shows h:m:00, unless the wall day it falls on skips that time |
| Backoff.DelaysAreMonotoneAndCapped | packages/providers/src/queue/InMemoryBackgroundTaskQueue.ts:265-271 | for multiplier >= 1, delays never shrink from one attempt to the next and never exceed the cap |
| Backoff.GeometricThenCapped | packages/providers/src/queue/InMemoryBackgroundTaskQueue.ts:265-271 | up to one crossover attempt the delays are the geometric sequence, and from then on exactly the cap |
| Backoff.CrossoverStays | packages/providers/src/queue/InMemoryBackgroundTaskQueue.ts:265-271 | if the last of n attempts is still below the cap, so was every one before it: the crossover never comes back after the cap |
| Backoff.TotalWaitClosedForm | packages/providers/src/queue/InMemoryBackgroundTaskQueue.ts:232-271 | the total wait over n retries, for every multiplier from 1 on: the closed geometric sum up to the crossover (for multiplier 1, that many equal delays), plus the cap for each later retry |
| Backoff.TotalWaitBounded | packages/providers/src/queue/InMemoryBackgroundTaskQueue.ts:232-271 | the total wait is at most the number of retries times the cap |
| Backoff.DeletionWaits75Minutes | packages/core/src/usecase/TerminateEmptyServers.ts:72-77 | the deletion of an empty server, with its own configuration, waits 4,500,000 ms in all and reaches the cap after four retries |
| TaskQueue.NextKeeps | packages/providers/src/queue/InMemoryBackgroundTaskQueue.ts:125-288 | every step of the queue (enqueue, pick, start, resolve, reject, callbacks, cleanup, shutdown) keeps conservation, attempt accounting, status and shutdown invariants |
| TaskQueue.RunKeeps | packages/providers/src/queue/InMemoryBackgroundTaskQueue.ts:125-288 | so does every interleaving of any number of steps |
| TaskQueue.EachTaskInOnePlace | packages/providers/src/queue/InMemoryBackgroundTaskQueue.ts:125-147 | in every reachable state each task ever enqueued is waiting at exactly one index, or in flight, or finished, never two of these and never lost, whatever overlapping batches do |
| TaskQueue.AttemptsAreBounded | packages/providers/src/queue/InMemoryBackgroundTaskQueue.ts:201-251 | a processor is called at most maxRetries + 1 times for a task, and its retry counter equals the failed attempts that led to a retry |
| TaskQueue.OnErrorExactlyOnce | packages/providers/src/queue/InMemoryBackgroundTaskQueue.ts:201-228 | onError has been called once exactly for the tasks that gave up and have the callback, and never for others |
| TaskQueue.TerminalStatusChangesIffCallbackRejects | packages/providers/src/queue/InMemoryBackgroundTaskQueue.ts:195-228 | a step overwrites a completed or failed status if and only if it is the rejection of that task's own onSuccess; only an expired cleanup removes one |
| TaskQueue.LiveStatusesKeptIff | packages/providers/src/queue/InMemoryBackgroundTaskQueue.ts:273-288 | waiting, picked and running tasks keep a status through every step except one: onSuccess rejecting with retries left after cleanup dropped `completed` |
| TaskQueue.LiveStatusesKeptOverRunsIff | packages/providers/src/queue/InMemoryBackgroundTaskQueue.ts:195-288 | over every run from the start: every live task has a status throughout, if and only if no step of the run is that one |
| TaskQueue.CleanupSparesLive | packages/providers/src/queue/InMemoryBackgroundTaskQueue.ts:273-281 | cleanup never removes the status of a waiting, picked or running task |
| TaskQueue.CallbackIsReached | packages/providers/src/queue/InMemoryBackgroundTaskQueue.ts:195-199 | the state used as the witness below is reached by a run of five steps |
| TaskQueue.StatusLostAfterCleanup | packages/providers/src/queue/InMemoryBackgroundTaskQueue.ts:195-228 | that one step does lose a status: from it, cleanup and the rejection leave a task waiting for its retry without one |
| TaskQueue.NoCallsOnceShuttingDown | packages/providers/src/services/DefaultGracefulShutdownManager.ts:39-43 | once shutdown has begun no step calls any processor again |
| TaskQueue.CallsFrozen | packages/providers/src/services/DefaultGracefulShutdownManager.ts:39-61 | nor does any run after it |
| TaskQueue.ShutdownDrains | packages/providers/src/services/DefaultGracefulShutdownManager.ts:39-61 | once a shutdown wait has resolved, no processor or onSuccess is running and none ever runs again, in any continuation; onError is the exception of the next rows |
| TaskQueue.StepErrors | packages/providers/src/queue/InMemoryBackgroundTaskQueue.ts:201-228 | a step calls onError of exactly the task whose last attempt it ends, once: refused by the shutdown manager, rejected, or rejected in onSuccess |
| TaskQueue.OnErrorOnceDrained | packages/providers/src/queue/InMemoryBackgroundTaskQueue.ts:219-228 | in every state after a resolved wait, a step calls onError if and only if it starts a due task that has a processor, the callback and no retries left: the attempt is refused |
| TaskQueue.OnErrorRunsAfterDrain | packages/providers/src/queue/InMemoryBackgroundTaskQueue.ts:219-228 | a run of the two classes in which this happens, for a task enqueued before shutdown and a queue tick after it |
| TaskQueue.StepCalls | packages/providers/src/queue/InMemoryBackgroundTaskQueue.ts:168-183 | a step calls the processor of the task it starts, once, and of no other |
| TaskQueue.StepHolds | packages/providers/src/queue/InMemoryBackgroundTaskQueue.ts:31-72 | every task held after a step was just enqueued or was held before, up to a retry |
| TaskQueue.HeldTasksDistinct | packages/providers/src/queue/InMemoryBackgroundTaskQueue.ts:38-51 | two held tasks with one id are the same task |
| RetryTiming.FailedAttemptWaits | packages/providers/src/queue/InMemoryBackgroundTaskQueue.ts:201-251 | a failed attempt with retries left puts the task back, alone changed in counter and time; the time is the failure's plus the smaller of initialDelayMs times multiplier to the attempt and maxDelayMs |
| RetryTiming.WaitsUntilDue | packages/providers/src/queue/InMemoryBackgroundTaskQueue.ts:125-137 | a waiting task leaves the list by the first pick at or after its time and by no other step, and is then in flight |
| RetryTiming.RetriesWaitTheirDelays | packages/providers/src/queue/InMemoryBackgroundTaskQueue.ts:219-251 | for any run with a clock that does not go back: a task starts its k-th retry no earlier than its first failure plus the first k delays, whatever happens in between |
| RetryTiming.DeletionRetriesTake75Minutes | packages/core/src/usecase/TerminateEmptyServers.ts:72-77 | the tenth retry of an empty server's deletion starts at least 4,500,000 ms after its first failure |
| RetryTiming.EnqueuedTask | packages/providers/src/queue/InMemoryBackgroundTaskQueue.ts:31-59 | a new task is last in the list, due at once and pending, with the defaults 1000, 60000 and 2 for settings left out |
| RetryTiming.StartedTask | packages/providers/src/queue/InMemoryBackgroundTaskQueue.ts:149-183 | a due task fails for want of a processor, or runs under a tracked action of its own |
| RetryTiming.ResolvedTask | packages/providers/src/queue/InMemoryBackgroundTaskQueue.ts:183-200 | a resolved processor completes its task, which stays tracked as long as onSuccess runs |
| RetryTiming.FailedAttemptReported | packages/providers/src/queue/InMemoryBackgroundTaskQueue.ts:219-228 | a failed attempt is reported pending while it is retried and failed for good otherwise |
| RetryTiming.CleanedUp | packages/providers/src/queue/InMemoryBackgroundTaskQueue.ts:273-281 | cleanup removes the reports of tasks that ended more than an hour ago, and no others |
| BackgroundTaskQueue.ShutdownManager.RunAction | packages/providers/src/services/DefaultGracefulShutdownManager.ts:39-53 | an action is tracked from its start, or refused once shutdown has begun, changing nothing |
| BackgroundTaskQueue.ShutdownManager.Settle | packages/providers/src/services/DefaultGracefulShutdownManager.ts:48-51 | a settled action leaves the tracked set |
| BackgroundTaskQueue.ShutdownManager.BeginShutdown | packages/providers/src/services/DefaultGracefulShutdownManager.ts:55-58 | the flag goes up and the wait captures exactly the tracked actions |
| BackgroundTaskQueue.ShutdownManager.FinishShutdown | packages/providers/src/services/DefaultGracefulShutdownManager.ts:58-61 | the wait ends with the tracked set cleared |
| BackgroundTaskQueue.InMemoryBackgroundTaskQueue.RegisterProcessor | packages/providers/src/queue/InMemoryBackgroundTaskQueue.ts:24-29 | the kind has a processor from now on, and nothing else changes |
| BackgroundTaskQueue.InMemoryBackgroundTaskQueue.EnqueueTask | packages/providers/src/queue/InMemoryBackgroundTaskQueue.ts:31-72 | one task more, at the end of the list, due at once, `pending`, with the defaults filled into its retry configuration |
| BackgroundTaskQueue.InMemoryBackgroundTaskQueue.ProcessTasks | packages/providers/src/queue/InMemoryBackgroundTaskQueue.ts:125-147 | all due tasks leave the list before any starts, then start in list order; the queue invariant holds afterwards |
| BackgroundTaskQueue.InMemoryBackgroundTaskQueue.StartBatch | packages/providers/src/queue/InMemoryBackgroundTaskQueue.ts:146 | starting a batch is the sequence of the start steps of its tasks |
| BackgroundTaskQueue.InMemoryBackgroundTaskQueue.ProcessTask | packages/providers/src/queue/InMemoryBackgroundTaskQueue.ts:149-183 | exactly one of three: failed for want of a processor, refused by the shutdown manager and handled as a failed attempt, or tracked and its processor called once |
| BackgroundTaskQueue.InMemoryBackgroundTaskQueue.ProcessorResolved | packages/providers/src/queue/InMemoryBackgroundTaskQueue.ts:183-200 | `completed` is written while onSuccess is still to run; without that callback the attempt is over and untracked |
| BackgroundTaskQueue.InMemoryBackgroundTaskQueue.SuccessCallbackResolved | packages/providers/src/queue/InMemoryBackgroundTaskQueue.ts:197-200 | the attempt leaves the shutdown manager and the task is finished |
| BackgroundTaskQueue.InMemoryBackgroundTaskQueue.AttemptRejected | packages/providers/src/queue/InMemoryBackgroundTaskQueue.ts:201-228 | a rejection of the processor and one of onSuccess have the same effect: the attempt is untracked, then retried or given up |
| BackgroundTaskQueue.InMemoryBackgroundTaskQueue.HandleFailure | packages/providers/src/queue/InMemoryBackgroundTaskQueue.ts:201-228 | with retries left, `pending` and back on the list; otherwise `failed`, finished, and onError called if there is one |
| BackgroundTaskQueue.InMemoryBackgroundTaskQueue.ScheduleRetry | packages/providers/src/queue/InMemoryBackgroundTaskQueue.ts:232-251 | the task is back at the end of the list with its counter moved and, ahead of it, the smaller of the geometric delay and the cap; without a configuration nothing happens |
| BackgroundTaskQueue.InMemoryBackgroundTaskQueue.CleanupExpiredTaskStatuses | packages/providers/src/queue/InMemoryBackgroundTaskQueue.ts:273-281 | the loop removes exactly the terminal statuses older than an hour |
| BackgroundTaskQueue.InMemoryBackgroundTaskQueue.UpdateTaskStatus | packages/providers/src/queue/InMemoryBackgroundTaskQueue.ts:283-288 | a status is updated when there is one and never created |
| BackgroundTaskQueue.StartAllIsRun | packages/providers/src/queue/InMemoryBackgroundTaskQueue.ts:146 | a batch of starts is a run of the state machine, so every result over runs applies to it |
| ScheduledServers.NextKeeps | packages/core/src/usecase/ExecuteScheduledServers.ts:19-54 | every step of ticks, cancellations, creations, restarts and of the queue below keeps the joint invariant |
| ScheduledServers.RunKeeps | packages/core/src/usecase/ExecuteScheduledServers.ts:19-54 | so does every interleaving |
| ScheduledServers.AtMostOnce | packages/core/src/usecase/ExecuteScheduledServers.ts:19-53 | after any interleaving with restarts, a schedule is claimed, enqueued and run at most once each, each after the one before; a cancel that returned true excludes an enqueue and the other way round; and the claim was made by a tick that began between trigger time and the end of the grace period |
| ScheduledServers.RunsAreProcessorCalls | packages/providers/src/queue/InMemoryBackgroundTaskQueue.ts:168-183 | a queued creation's processor calls are exactly its schedule's runs, at most one |
| ScheduledServers.NeverBackToScheduled | packages/providers/src/repository/SQLiteScheduledServerRepository.ts:74-105 | no step returns a row to `scheduled`, removes it or moves its trigger time |
| ScheduledServers.NeverRescheduled | packages/providers/src/repository/SQLiteScheduledServerRepository.ts:74-105 | nor does any run |
| ScheduledServers.ClaimRows | packages/providers/src/repository/SQLiteScheduledServerRepository.ts:74-83 | a claim that succeeds finds the schedule neither claimed nor cancelled before, held by no tick and, by its tick's time, due and within grace; it is the first claim |
| ScheduledServers.CancelRows | packages/core/src/usecase/CancelScheduledServer.ts:16-30 | a cancel that succeeds finds the schedule unclaimed, not cancelled and held by no tick, and is its first cancellation |
| ScheduledServers.CreateKeeps | packages/core/src/usecase/CreateScheduledServer.ts:57-72 | a new schedule enters with an all-zero history, held by no tick and claimable, and the joint invariant holds |
| ScheduledServers.CreationKeeps | packages/core/src/usecase/ExecuteScheduledServerCreation.ts:22-59 | the queued creation, also when it fails after `created`, changes no row but its own schedule's, leaves that one `created` or `failed` with its trigger time, and counts as no claim, cancel or enqueue |
| ScheduledServers.ClaimedIffWithinGrace | packages/core/src/usecase/ExecuteScheduledServers.ts:37-48 | a row still scheduled when its tick comes to it is claimed if and only if the tick began at most 1,800,000 ms after the trigger time, and is failed by it if and only if not |
| ScheduledServers.ClaimedIsEnqueued | packages/core/src/usecase/ExecuteScheduledServers.ts:50-52 | a claimed schedule is enqueued under its id, as a creation without retries |
| ScheduledServers.TickFindsStuck | packages/core/src/usecase/ExecuteScheduledServers.ts:23-25 | a tick finds exactly the rows in creating not written for 1,200,000 ms |
| ScheduledServers.TickFailsStuck | packages/core/src/usecase/ExecuteScheduledServers.ts:26-27 | and marks them failed |
| ScheduledServers.TickFindsDue | packages/core/src/usecase/ExecuteScheduledServers.ts:35-36 | a tick finds exactly the scheduled rows whose trigger time has come |
| ScheduledServers.NewScheduleTriggers | packages/core/src/usecase/CreateScheduledServer.ts:36-72 | a new schedule triggers its lead time, in minutes, before its time |
| ScheduledServers.CancelPicksFirst | packages/core/src/usecase/CancelScheduledServer.ts:16-24 | a cancel picks a scheduled row of that user with the earliest time among the user's scheduled and creating ones, and nothing when there is none |
| ScheduledServers.CancelWrites | packages/core/src/usecase/CancelScheduledServer.ts:26-30 | it writes cancelled if the row is then still scheduled, and nothing otherwise |
| ScheduledServers.CreationWrites | packages/core/src/usecase/ExecuteScheduledServerCreation.ts:33-50 | a creation that deploys writes created with the server's id, one that fails then or later writes failed |
| ScheduledServers.CreationBegins | packages/core/src/usecase/ExecuteScheduledServerCreation.ts:19-29 | a called creation works on its own schedule, and ends at once when there is no such row |
| ScheduledServers.BeginsAndRestarts | packages/core/src/usecase/ExecuteScheduledServers.ts:19-21 | a tick works with the time it began at; a restart forgets what was suspended or queued and no row |
| ScheduledServerRepository.SQLiteScheduledServerRepository.CreateRow | packages/providers/src/repository/SQLiteScheduledServerRepository.ts:24-40 | inserts, or fails on a used id and changes nothing |
| ScheduledServerRepository.SQLiteScheduledServerRepository.FindDue | packages/providers/src/repository/SQLiteScheduledServerRepository.ts:58-64 | the result holds exactly the rows whose trigger time has come and that a claim made now would still get |
| ScheduledServerRepository.SQLiteScheduledServerRepository.FindStuckCreating | packages/providers/src/repository/SQLiteScheduledServerRepository.ts:66-72 | the scan finds exactly the rows in `creating` not written for twenty minutes, none of which a claim or a cancel would still get |
| ScheduledServerRepository.SQLiteScheduledServerRepository.ClaimForProcessing | packages/providers/src/repository/SQLiteScheduledServerRepository.ts:74-83 | compare-and-set from scheduled to creating; the result says whether it happened |
| ScheduledServerRepository.SQLiteScheduledServerRepository.Cancel | packages/providers/src/repository/SQLiteScheduledServerRepository.ts:96-105 | compare-and-set from scheduled to cancelled |
| ScheduledServerRepository.SQLiteScheduledServerRepository.MarkStatus | packages/providers/src/repository/SQLiteScheduledServerRepository.ts:85-94 | unconditional write of an existing row |
| ScheduledServerRepository.RecoverStuck | packages/core/src/usecase/ExecuteScheduledServers.ts:23-33 | exactly the stuck rows become failed |
| ScheduledServerRepository.ProcessOne | packages/core/src/usecase/ExecuteScheduledServers.ts:38-52 | one due row: claimed within 1,800,000 ms of its trigger time and failed after, reported as claimed exactly in the first case; no other row changes |
| ScheduledServerRepository.ProcessDue | packages/core/src/usecase/ExecuteScheduledServers.ts:35-53 | each due row is failed past the grace period and otherwise claimed and enqueued, once; other rows stay as they are |
| ScheduledServerRepository.ExecuteTick | packages/core/src/usecase/ExecuteScheduledServers.ts:19-54 | an undisturbed tick, on the clock: a scheduled row is enqueued and left creating up to thirty minutes after its trigger time and failed later, a row twenty minutes in creating is failed, all others stay, and nothing is enqueued twice |
| ScheduledServerRepository.TickedIsOutcome | packages/core/src/usecase/ExecuteScheduledServers.ts:23-48 | the row function the methods are proved against has that outcome for every row and time |
| ServerTables.UpsertSucceedsIff | packages/providers/src/repository/SQLiteServerRepository.ts:9-37 | an upsert succeeds exactly for a live server or a never-used id (a deleted id hits the history's primary key), and keeps the three tables consistent |
| ServerTables.DeleteKeeps | packages/providers/src/repository/SQLiteServerRepository.ts:65-75 | a delete stamps the history, cascades to the activity, keeps the tables consistent, and makes the explicit activity delete that follows a no-op |
| ServerTables.DeleteAllKeeps | packages/core/src/usecase/DeleteServerForUser.ts:68-84 | so does deleting a set of rows |
| ServerTables.DeleteOneMore | packages/core/src/usecase/DeleteServerForUser.ts:70-73 | deleting rows one by one is deleting the set |
| ServerTables.SQLiteServerTables.Upsert | migrations/20250504210128_server_history.ts:14-22 | an update leaves history and activity alone; an insert of an unused id opens a history row with its creation time and owner and an empty activity; a used id aborts and changes nothing |
| ServerTables.SQLiteServerTables.Delete | migrations/20250504210128_server_history.ts:24-33 | the row and its activity go, its history row is stamped with the time, and nothing else changes |
| ServerTables.SQLiteServerTables.DeleteActivityById | packages/providers/src/repository/SQLiteServerActivityRepository.ts:19-29 | removes one activity row |
| ServerTables.SQLiteServerTables.MarkAllTerminating | packages/core/src/usecase/DeleteServerForUser.ts:25-38 | the loop over a user's rows marks all of them and no other |
| ServerTables.SQLiteServerTables.DeleteRows | packages/core/src/usecase/DeleteServerForUser.ts:68-85 | the loop over the successful deletions removes exactly those rows |
| ServerLifecycle.NextKeeps | migrations/20250406155548_server_activity.ts:9-29 | every step of creation, deployment, deletion and cleanup keeps live rows, activity rows and open history rows the same ids, and only ever closes history rows |
| ServerLifecycle.RunKeeps | migrations/20250406155548_server_activity.ts:9-29 | so does every interleaving |
| ServerLifecycle.TablesAgreeAndDeletedStaysDeleted | migrations/20250504210128_server_history.ts:5-33 | after any run the tables agree, and a deleted server id never comes back, even when its deployment finishes late; its history row is never touched again |
| ServerLifecycle.NewlyRunning | packages/core/src/usecase/CreateServerForUser.ts:81-126 | a server starts running only by the guarded insert, for a user who runs none, or by a deployment that finishes on a row marked terminating |
| ServerLifecycle.OneRunningKeptIff | packages/core/src/usecase/CreateServerForUser.ts:81-126 | a step keeps every Discord user at one pending or ready server if and only if it is not a deployment finishing on a terminating row of a user who runs another |
| ServerLifecycle.OneRunningServerPerUser | packages/core/src/usecase/CreateServerForUser.ts:81-126 | over every run: one pending or ready server per user throughout, if and only if no step of the run is such a revival |
| ServerLifecycle.TwoServersAfterRevival | packages/core/src/usecase/DeleteServerForUser.ts:25-38 | a four-step run in which a user ends with two running servers |
| ServerLifecycle.RemovedOnlyAfterCloud | packages/core/src/usecase/DeleteServer.ts:50-68 | over every run: a server that has a row at one point and none later was reported deleted in the cloud by an earlier step |
| ServerLifecycle.DeletionKnowsOutcomes | packages/core/src/usecase/DeleteServerForUser.ts:43-55 | whatever else happens meanwhile, a deletion counts a server as done if and only if that server's first cloud call in it succeeded |
| ServerLifecycle.TogetherRemovesWhatSucceeded | packages/core/src/usecase/DeleteServerForUser.ts:43-85 | when all calls have ended, the last transaction removes a server, stamps its history and drops its activity if and only if its own call succeeded; one whose call failed keeps its row, its activity and an open history row |
| ServerLifecycle.RowRemovedIffSucceeded | packages/core/src/usecase/DeleteServer.ts:50-69 | a single deletion or a cleanup removes a row if and only if its own call succeeded, and no other row |
| ServerLifecycle.ListsExactly | packages/core/src/usecase/DeleteServerForUser.ts:40-41 | each kind of deletion is about exactly its servers: a user's terminating ones, the one asked for, those pending for 900,000 ms, those 43,200,000 ms old |
| ServerLifecycle.MarksExactly | packages/core/src/usecase/DeleteServerForUser.ts:25-38 | marking touches the status of the user's rows, or of the one row, and nothing else |
| ServerLifecycle.DeploymentWrites | packages/core/src/usecase/CreateServerForUser.ts:100-126 | a deployment that succeeds makes its row ready under its owner; one that fails, or finds its row deleted, changes no table |
| ServerLifecycle.CreationInserts | packages/core/src/usecase/CreateServerForUser.ts:81-96 | with a fresh id a user who runs no pending or ready server gets a pending row with its history and activity, any other user nothing, an API client always one |
| ServerLifecycle.CreatePendingServer | packages/core/src/usecase/CreateServerForUser.ts:81-96 | the guarded insert refuses exactly when the user has a pending or ready server, and otherwise inserts or aborts |
| ServerLifecycle.MarkServerTerminating | packages/core/src/usecase/DeleteServer.ts:26-37 | not found, or the one row marked |
| IdleTracking.EmptySinceIsFirstIdleCheck | packages/core/src/usecase/TerminateEmptyServers.ts:96-125 | the stored field is t if and only if the first empty-or-failed check since players were last seen was at t |
| IdleTracking.LifeKeepsActivity | migrations/20250406155548_server_activity.ts:21-29 | whatever else happens to servers, a live one keeps its activity and a new one starts with an empty one |
| IdleTracking.CheckWrites | packages/core/src/usecase/TerminateEmptyServers.ts:96-146 | a check of a live server writes null after players, its time after the first empty or failed check, the old value otherwise, and the time of the check |
| IdleTracking.CheckOfDeletedIsSkipped | packages/core/src/usecase/TerminateEmptyServers.ts:131-139 | a check of a server deleted meanwhile writes nothing |
| IdleTracking.NextKeeps | packages/core/src/usecase/TerminateEmptyServers.ts:44-158 | every step, with deletions, creations and ticks interleaved, keeps each field equal to the fold of its written checks |
| IdleTracking.EmptySinceEqualsHistory | packages/core/src/usecase/TerminateEmptyServers.ts:85-146 | after any run a live server's `emptySince` is the time of the first idle check since players were last seen |
| IdleTracking.DeletedExactlyWhenIdleLongEnough | packages/core/src/usecase/TerminateEmptyServers.ts:44-83 | after any run a tick enqueues the deletion of a server if and only if it is ready and its unbroken idle stretch began at least the variant's minutes, or ten, ago, and it polls exactly the other ready servers |
| IdleTracking.FindIndex | packages/core/src/usecase/TerminateEmptyServers.ts:79 | the first index with the id, or the end |
| IdleTracking.SpliceIsWithout | packages/core/src/usecase/TerminateEmptyServers.ts:79-82 | splicing at that index is removing the id |
| IdleTracking.SplitServers | packages/core/src/usecase/TerminateEmptyServers.ts:54-83 | the splice loop leaves, in order, exactly the servers without an idle time or with one younger than the variant's minutes, or ten, and enqueues exactly the others |
| PeakConcurrency.SumIsLive | packages/providers/src/repository/SQLiteReportRepository.ts:162-182 | the windowed running sum is the number of servers created that month and running, at every second, if and only if no row of that month is terminated before it is created |
| PeakConcurrency.CreatedInIff | packages/providers/src/repository/SQLiteReportRepository.ts:166-167 | the month and year filter holds exactly from midnight on the first of the month to before midnight on the first of the next |
| PeakConcurrency.OneMonthEach | packages/providers/src/repository/SQLiteReportRepository.ts:166-167 | every row is created in exactly one month |
| PeakConcurrency.MonthOfDay | packages/providers/src/repository/SQLiteReportRepository.ts:166-167 | a day belongs to the calendar month whose first day it does not precede and whose end it does |
| PeakConcurrency.SecondsAreWhole | packages/providers/src/repository/SQLiteReportRepository.ts:164 | after the epoch the division by 1000 is the whole second a time lies in |
| PeakConcurrency.SumAtMostLive | packages/providers/src/repository/SQLiteReportRepository.ts:162-182 | whatever the rows, the running sum never exceeds that number |
| PeakConcurrency.SumIsLiveAt | packages/providers/src/repository/SQLiteReportRepository.ts:162-182 | at any one second the running sum is that number if and only if the second lies in no row's gap between a termination and a later creation |
| PeakConcurrency.InvertedIsMissed | packages/providers/src/repository/SQLiteReportRepository.ts:162-182 | an inverted row makes the sum too small at the second of its termination |
| PeakConcurrency.PeakIsMaximumIff | packages/providers/src/repository/SQLiteReportRepository.ts:162-197 | whatever row the query returns: it is the maximum over all instants, attained at its time, if and only if some second at which most servers run lies in no such gap |
| PeakConcurrency.PeakIsMaximum | packages/providers/src/repository/SQLiteReportRepository.ts:162-182 | if no row of the month is inverted: whatever row the query returns, its count is the maximum over all instants of the servers created in the month's half-open interval with created <= t < terminated, and its time attains it |
| PeakConcurrency.PeakNeverTooHigh | packages/providers/src/repository/SQLiteReportRepository.ts:162-197 | whatever the rows, the reported count is at most the number of servers running at the reported time |
| PeakConcurrency.GetPeakConcurrentServers | packages/providers/src/repository/SQLiteReportRepository.ts:175-197 | such a row always exists, and an empty month gives zeros |
| PeakConcurrency.InvertedRowHidesServer | packages/providers/src/repository/SQLiteReportRepository.ts:162-182 | with an inverted row the reported peak can be 0 while a server runs |
| AttackRadar.RunUnique | shield/pkg/radar/attack_radar.go:62-99 | the current run of high traffic has one start |
| AttackRadar.RunAfter | shield/pkg/radar/attack_radar.go:76-90 | how a poll extends, starts or breaks the current run: polls without a delta do neither |
| AttackRadar.RunOrNone | shield/pkg/radar/attack_radar.go:62-99 | either a run is under way, or every high poll has been followed by a low one |
| AttackRadar.KnowsMore | shield/pkg/radar/attack_radar.go:76-90 | the flag and start time describe the history after one more poll, and the handler is due exactly when the history says so |
| AttackRadar.StartMonitoring | shield/pkg/radar/attack_radar.go:62-99 | over any polls the handler is called at a poll if and only if traffic is high and the maximal run it belongs to began at least the threshold time before; the start time is that of the run's first poll |
| AttackRadar.DeltaIsWhatWasSeen | shield/pkg/radar/attack_radar.go:76-78 | a poll has the delta d if and only if the last sample's counter was not zero and, plus d modulo 2^64, gives the counter now |
| AttackRadar.SustainedIff | shield/pkg/radar/attack_radar.go:79-86 | on a clock that does not go back, traffic is sustained at a poll if and only if more than the threshold was seen there and at some poll at least the threshold time before, and no more than it at none between |
| Firewall.SafeKeepsCommonSources | shield/pkg/oracle/nsg.go:50-122 | in a safe state every packet admitted by both the old and the new rules is admitted |
| Firewall.EveryStateSafe | shield/pkg/oracle/nsg.go:69-118 | add, drop old ingress, drop old egress: every set on the way is safe, and the last is exactly the new rules |
| Firewall.AllowRules | shield/pkg/oracle/nsg.go:24-38 | one ingress rule per address, in order, for all protocols and ports, its block the address itself, with /32 when it has no prefix length |
| Firewall.EnableFirewallRestriction | shield/pkg/oracle/nsg.go:22-122 | succeeds exactly when no call made fails; then the rules are the new ones alone, whatever was there; every intermediate state, failing calls included, is safe |
| Firewall.DisableFirewallRestriction | shield/pkg/oracle/nsg.go:125-261 | the same with the four open rules, so any cycle ends in those four |
| Firewall.NsgClient.AddRules | shield/pkg/oracle/nsg.go:69-84 | all rules are added under fresh ids, or none |
| Firewall.NsgClient.RemoveRules | shield/pkg/oracle/nsg.go:86-101 | all named rules are removed, or none |
| Shield.NextKeeps | shield/pkg/shield/shield.go:20-101 | every interleaving step keeps: at most one timer, no activation beside it, and a replacement always finds the rules where it left them |
| Shield.EveryStepIsSafe | shield/pkg/shield/shield.go:20-101 | in every reachable state at most one firewall replacement is under way, rules change only by its calls, and stay safe between what it found and what it brings |
| Shield.StuckIff | shield/pkg/shield/shield.go:79-101 | the shield ends up enabled with nothing left to disable it if and only if taking it down failed once in the run |
| Shield.StuckForever | shield/pkg/shield/shield.go:20-24 | from then on no run changes anything: every later attack is skipped |
| Shield.FullCycle | shield/pkg/shield/shield.go:20-101 | a run in which nothing fails goes through: up and restricted while the timer waits, down and open at the end |
| Shield.WaitingMeansRestricted | shield/pkg/shield/shield.go:54-81 | whatever fails in a run, the rules are one for each player while the timer waits, and the four open ones once it has opened the firewall |
| Shield.DownMeansOpen | shield/pkg/shield/shield.go:20-101 | over every run from an open firewall: down and idle means exactly the four open rules throughout, if and only if no activation gives up late, that is, loses the final message or fails to remove the old ingress or egress rules |
| Shield.DownMeansStillOpen | shield/pkg/shield/shield.go:20-101 | over every run from a firewall with the open ingress rules: down and idle means that these are still among the rules throughout, if and only if no activation loses the final message or fails to remove the old egress rules |
| Shield.StillOpenStep | shield/pkg/shield/shield.go:54-65 | such a step leaves the very next state down, idle and without an open rule; every other step keeps them |
| Shield.StillOpenAdmitsAll | shield/pkg/oracle/nsg.go:155-208 | rules among which the open ones still are let in all that the open ones do, whatever addresses the blocks cover |
| Shield.GivingUpRestrictedLeaves | shield/pkg/shield/shield.go:54-65 | after such a step incoming traffic is ruled by the players' rules alone, and these let in all that the open ones do if and only if some player address is the block 0.0.0.0/0 |
| Shield.OpenWhileDownStep | shield/pkg/shield/shield.go:54-65 | a step that gives up late leaves the very next state down, idle and without exactly the four rules; every other step keeps them |
| Shield.RemovalFailureStrands | shield/pkg/oracle/nsg.go:86-101 | a run in which the removal of the old ingress rules fails: the shield ends down, with no timer and more than the four rules, so still letting in all that it did |
| Shield.EgressFailureLocksOut | shield/pkg/oracle/nsg.go:103-118 | a run in which the removal of the old egress rules fails: down, no timer, and only the player's rule for incoming traffic |
| Shield.LostMessageStrands | shield/pkg/shield/shield.go:61-65 | a run in which only the final message is lost: down, no timer, and an open rule missing |
| Shield.OpenAdmits | shield/pkg/oracle/nsg.go:155-208 | the open rules admit exactly UDP from anywhere and TCP on ports 27015-27020 |
| Shield.OpenLetsUdpOut | shield/pkg/oracle/nsg.go:201-208 | the open rules let UDP out to anywhere, by their only egress rule |
| Shield.RestrictedAdmits | shield/pkg/oracle/nsg.go:24-38 | the restricted rules admit exactly what comes from one of the addresses |
| Shield.Shield.OnAttackDetected | shield/pkg/shield/shield.go:20-76 | the timer is armed, and the flag set, exactly when the shield was down and every step succeeded; a handler that stops before the firewall changes nothing |
| Shield.Shield.Disable | shield/pkg/shield/shield.go:79-101 | the flag falls exactly when all three steps succeed; the rules are open as soon as the firewall step does |
| OciConfig.TrimLeaves | packages/providers/src/services/FileSystemOCICredentialsFactory.ts:43 | trimming leaves a trimmed text with no new characters, and changes exactly the untrimmed ones |
| OciConfig.SplitJoin | packages/providers/src/services/FileSystemOCICredentialsFactory.ts:26-29 | splitting at line feeds undoes joining |
| OciConfig.ParseConfigFile | packages/providers/src/services/FileSystemOCICredentialsFactory.ts:37-54 | the loop over the lines computes the fold of the line rule |
| OciConfig.ParsedIsClean | packages/providers/src/services/FileSystemOCICredentialsFactory.ts:42-51 | whatever the file, parsed keys and values are trimmed and free of `=` and line feeds |
| OciConfig.ParsesAssignment | packages/providers/src/services/FileSystemOCICredentialsFactory.ts:46-49 | in any section, an assignment sets the trimmed text before the first = to the trimmed text after it; a second = and what follows are dropped |
| OciConfig.ParsesSectionHeader | packages/providers/src/services/FileSystemOCICredentialsFactory.ts:44-45 | a name in brackets opens an empty section of that name, also when there was one |
| OciConfig.ParsesIndented | packages/providers/src/services/FileSystemOCICredentialsFactory.ts:43 | indentation, trailing blanks and a carriage return make no difference to a line |
| OciConfig.SkipsLine | packages/providers/src/services/FileSystemOCICredentialsFactory.ts:46 | every other line is skipped: one without =, and an assignment outside all sections |
| OciConfig.FileReadsBack | packages/providers/src/services/FileSystemOCICredentialsFactory.ts:37-54 | a file of any sections, printed in any order, is parsed back as exactly those sections |
| OciConfig.DefaultConfig | packages/providers/src/services/FileSystemOCICredentialsFactory.ts:10-34 | fails for a missing region, then for a missing or empty key_file, and otherwise prints the region's entries in some order |
| OciConfig.SplitLines | shield/pkg/oracle/auth.go:95-112 | the index loop splits at line feeds, drops one carriage return before each, and drops an empty last piece |
| OciConfig.SplitsCrLf | shield/pkg/oracle/auth.go:95-112 | lines ended by carriage return and line feed are split apart without either |
| OciConfig.DropsLastLineFeed | shield/pkg/oracle/auth.go:108-110 | a line feed at the very end adds no line |
| OciConfig.JoinLines | shield/pkg/oracle/auth.go:115-124 | the loop joins with line feeds |
| OciConfig.SetupOciCredentials | shield/pkg/oracle/auth.go:60-77 | the rewrite loop replaces every line that starts like key_file and appends one if there was none |
| OciConfig.PrintedThenRewritten | shield/pkg/oracle/auth.go:65-76 | a printed section comes out of splitting and rewriting line by line as the header and its entries, key_file replaced |
| OciConfig.ParseOfResult | packages/providers/src/services/FileSystemOCICredentialsFactory.ts:37-54 | without header-like entries everything lands in DEFAULT, with the new path |
| OciConfig.RoundTrip | shield/pkg/oracle/auth.go:60-124 | for every clean section, in any order of entries: reading the result back gives the section with only key_file replaced, if and only if the path is trimmed and has no `=` or line feed, no other key starts like key_file, and no entry reads as a section header |
| OciConfig.RegionReadsBack | packages/providers/src/services/FileSystemOCICredentialsFactory.ts:26-54 | the same from any operator's file and any region in it |

## Left out

- Discord handlers, message texts, HTTP routes, JWT, web pages, telemetry and event logs: user interface and I/O.
- Cloud deployments and deletions: steps that succeed or fail arbitrarily.
- The time-zone database: an arbitrary offset function stands for it. Years before 100 and the
  last days of the Date range are excluded from the millisecond methods; there the safety net for
  an invalid date cannot be reached.
- WallClock.NextOccurrenceEarliest: assumes one transition in the week around the reference, as real zones have; two transitions within days are not covered.
- PeakConcurrency.CreatedInIff: years are compared as numbers, where the query compares texts that pad years before 1000.
- The list of supported time zones is data; that it holds the right ones is not a property of the model.
- Backoff.TotalWaitClosedForm: exact reals, not 64-bit floats.
- TaskQueue.ShutdownDrains: onError is counted when it is called; a suspended onError is not a phase of the model, so nothing is said about when it ends.
- Failure of onError itself, task metadata and the queue's interval timers: a tick is a step that may happen at any time.
- Finality of `failed` and `cancelled`: markStatus is unconditional, so a stale tick or a slow creation may overwrite them.
- One active schedule per user: checked and inserted across awaits, so the code does not enforce it.
- Overlapping cleanup ticks, and checks whose write is lost: IdleTracking has one tick at a time and its history holds the written checks.
- Server statuses are read as occupied, empty, failed or undecided: parsing the console output is not modelled.
- The order of rows in set-valued queries: loops over rows take them in an arbitrary order.
- Firewall.NsgClient.AddRules: a call that fails after taking effect in part is not modelled.
- OciConfig.DefaultConfig: environment variables, file reads and keys such as `__proto__` that JavaScript objects treat specially are not modelled; the runtime's order of entries is arbitrary.
- OciConfig.SetupOciCredentials: missing environment variables, base64 errors and file system errors are not modelled; texts are sequences of characters on both sides.
- Warning messages of the long-running cleanup, group-by reports, status counters, abort controllers and password generation: easy members.

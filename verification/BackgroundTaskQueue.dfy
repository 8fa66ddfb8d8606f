/**
 The queue and the shutdown manager as objects that are updated in place. Each method is
 the code of the source between two awaits, and takes the step of the transition
 system that its postcondition names.
 */
module BackgroundTaskQueue {
  import opened Wrappers
  import opened Backoff
  import opened TaskQueue

  class ShutdownManager {
    var tracked: set<nat>
    var shuttingDown: bool
    var waits: seq<set<nat>>
    var drained: nat
    var nextAction: nat

    constructor ()
      ensures tracked == {} && !shuttingDown && waits == [] && drained == 0 && nextAction == 0
    {
      tracked, shuttingDown, waits, drained, nextAction := {}, false, [], 0, 0;
    }

    /** run: None is the exception thrown once shutdown has begun. */
    method RunAction() returns (action: Option<nat>)
      modifies this
      ensures shuttingDown == old(shuttingDown) && waits == old(waits) && drained == old(drained)
      ensures old(shuttingDown) ==> action == None && tracked == old(tracked) && nextAction == old(nextAction)
      ensures !old(shuttingDown) ==>
                action == Some(old(nextAction)) && tracked == old(tracked) + {old(nextAction)} &&
                nextAction == old(nextAction) + 1
    {
      if shuttingDown {
        return None;
      }
      action := Some(nextAction);
      tracked := tracked + {nextAction};
      nextAction := nextAction + 1;
    }

    method Settle(action: nat)
      modifies this`tracked
      ensures tracked == old(tracked) - {action}
    {
      tracked := tracked - {action};
    }

    /** onShutdownWait up to its await. */
    method BeginShutdown()
      modifies this`shuttingDown, this`waits
      ensures shuttingDown && waits == old(waits) + [tracked]
    {
      shuttingDown := true;
      waits := waits + [tracked];
    }

    /** onShutdownWait after its await, for the wait at this index. */
    method FinishShutdown(wait: nat)
      requires wait < |waits|
      modifies this`tracked, this`waits, this`drained
      ensures tracked == {} && waits == old(waits[..wait] + waits[wait + 1..]) && drained == old(drained) + 1
    {
      tracked := {};
      waits := waits[..wait] + waits[wait + 1..];
      drained := drained + 1;
    }
  }

  /** The steps that a batch of ready tasks starts with, in order. */
  function StartAll(s: State, ready: seq<Task>, now: real): State
    decreases |ready|
  {
    if ready == [] then s else StartAll(Next(s, Start(ready[0].id, now)), ready[1..], now)
  }

  lemma {:induction false} StartAllIsRun(s: State, ready: seq<Task>, now: real)
    ensures StartAll(s, ready, now) == Run(s, seq(|ready|, i requires 0 <= i < |ready| => Start(ready[i].id, now)))
    decreases |ready|
  {
    if ready != [] {
      var starts := seq(|ready|, i requires 0 <= i < |ready| => Start(ready[i].id, now));
      StartAllIsRun(Next(s, starts[0]), ready[1..], now);
      assert starts[1..] == seq(|ready| - 1, i requires 0 <= i < |ready| - 1 => Start(ready[1..][i].id, now));
    }
  }

  lemma {:induction false} StartAllSnoc(s: State, ready: seq<Task>, t: Task, now: real)
    ensures StartAll(s, ready + [t], now) == Next(StartAll(s, ready, now), Start(t.id, now))
    decreases |ready|
  {
    if ready == [] {
      assert [t][1..] == [];
    } else {
      assert (ready + [t])[1..] == ready[1..] + [t];
      StartAllSnoc(Next(s, Start(ready[0].id, now)), ready[1..], t, now);
    }
  }

  class InMemoryBackgroundTaskQueue {
    const shutdownManager: ShutdownManager
    var tasks: seq<Task>
    var processors: set<string>
    var taskStatuses: map<nat, Status>
    var nextId: nat
    // The tasks held by suspended calls of processTask, those it has finished with, and their tallies.
    var inFlight: map<nat, Flight>
    var finished: map<nat, Done>
    var tallies: map<nat, Tally>

    function View(): State
      reads this, shutdownManager
    {
      State(tasks, inFlight, finished, taskStatuses, tallies, processors, nextId,
            shutdownManager.tracked, shutdownManager.shuttingDown, shutdownManager.waits,
            shutdownManager.drained, shutdownManager.nextAction)
    }

    constructor (manager: ShutdownManager)
      requires manager.tracked == {} && !manager.shuttingDown && manager.waits == []
      requires manager.drained == 0 && manager.nextAction == 0
      ensures shutdownManager == manager && View() == INITIAL
    {
      shutdownManager := manager;
      tasks, processors, taskStatuses, nextId := [], {}, map[], 0;
      inFlight, finished, tallies := map[], map[], map[];
    }

    method RegisterProcessor(kind: string)
      modifies this
      ensures View() == Next(old(View()), Register(kind))
    {
      processors := processors + {kind};
    }

    method EnqueueTask(kind: string, data: nat, callbacks: Callbacks, retry: Option<RetryRequest>, now: real)
      returns (id: nat)
      modifies this
      ensures id == old(nextId)
      ensures View() == Next(old(View()), Enqueue(kind, data, callbacks, retry, now))
    {
      id := nextId;
      nextId := nextId + 1;
      var config := if retry.Some? then Some(retry.value.Merged()) else None;
      var task := Task(id, kind, data, callbacks, config, 0, now);
      tasks := tasks + [task];
      taskStatuses := taskStatuses[id := Pending];
      tallies := tallies[id := Tally(0, 0, 0, 0)];
    }

    method UpdateTaskStatus(id: nat, status: Status)
      modifies this`taskStatuses
      ensures taskStatuses == if id in old(taskStatuses) then old(taskStatuses)[id := status] else old(taskStatuses)
    {
      if id in taskStatuses {
        taskStatuses := taskStatuses[id := status];
      }
    }

    /** processTasks: the ready tasks leave the list, then each starts, in list order. */
    method ProcessTasks(now: real)
      requires Inv(View())
      modifies this, shutdownManager
      ensures var s := old(View());
              View() == StartAll(PickStep(s, now), Select(s.waiting, now, true), now)
      ensures Inv(View())
    {
      hide InvBut;
      ghost var s := View();
      if tasks == [] {
        return;
      }
      var ready := Select(tasks, now, true);
      if ready == [] {
        NothingReady(tasks, now);
        return;
      }
      tasks := Select(tasks, now, false);
      inFlight := PickAll(inFlight, ready);
      PickKeeps(s, now);
      ReadyArePicked(s, now);
      StartBatch(ready, now);
    }

    /** The ready tasks of one batch start, in order, before any of them is awaited. */
    method StartBatch(ready: seq<Task>, now: real)
      requires Inv(View()) && NoDuplicates(ready)
      requires forall j | 0 <= j < |ready| :: IsPicked(View(), ready[j].id)
      modifies this, shutdownManager
      ensures View() == StartAll(old(View()), ready, now)
      ensures Inv(View())
    {
      hide InvBut;
      hide StartStep;
      hide NoDuplicates;
      ghost var s := View();
      for k := 0 to |ready|
        invariant View() == StartAll(s, ready[..k], now)
        invariant Inv(View())
        invariant forall j | k <= j < |ready| :: IsPicked(View(), ready[j].id)
      {
        assert ready[..k + 1] == ready[..k] + [ready[k]];
        StartAllSnoc(s, ready[..k], ready[k], now);
        NextKeeps(View(), Start(ready[k].id, now));
        OthersStayPicked(View(), ready, k, now);
        PickedHasItsId(View(), ready[k].id);
        ProcessTask(ready[k].id, now);
      }
      assert ready[..|ready|] == ready;
    }

    /** processTask up to its first await. */
    method ProcessTask(id: nat, now: real)
      requires IsPicked(View(), id) && inFlight[id].task.id == id
      modifies this, shutdownManager
      ensures View() == StartStep(old(View()), id, now)
    {
      var task := inFlight[id].task;
      if task.kind !in processors {
        UpdateTaskStatus(id, Failed(now));
        inFlight := inFlight - {id};
        finished := finished[id := Done(task, NoProcessor)];
        return;
      }
      UpdateTaskStatus(id, Running);
      var action := shutdownManager.RunAction();
      if action.Some? {
        tallies := Tallied(tallies, id, Tally(1, 0, 0, 0));
        inFlight := inFlight[id := Flight(task, Processing(action.value))];
      } else {
        tallies := Tallied(tallies, id, Tally(0, 1, 0, 0));
        inFlight := inFlight - {id};
        HandleFailure(task, now);
      }
    }

    /** The processor has resolved. */
    method ProcessorResolved(id: nat, now: real)
      requires IsProcessing(View(), id)
      modifies this, shutdownManager
      ensures View() == Next(old(View()), Resolve(id, now))
    {
      var flight := inFlight[id];
      UpdateTaskStatus(id, Completed(now));
      if flight.task.callbacks.onSuccess {
        inFlight := inFlight[id := Flight(flight.task, Succeeding(flight.phase.action))];
      } else {
        shutdownManager.Settle(flight.phase.action);
        inFlight := inFlight - {id};
        finished := finished[id := Done(flight.task, Succeeded)];
      }
    }

    method SuccessCallbackResolved(id: nat)
      requires IsSucceeding(View(), id)
      modifies this, shutdownManager
      ensures View() == Next(old(View()), SuccessDone(id))
    {
      var flight := inFlight[id];
      shutdownManager.Settle(flight.phase.action);
      inFlight := inFlight - {id};
      finished := finished[id := Done(flight.task, Succeeded)];
    }

    /** The processor, or onSuccess, has rejected. */
    method AttemptRejected(id: nat, now: real)
      requires IsProcessing(View(), id) || IsSucceeding(View(), id)
      modifies this, shutdownManager
      ensures View() == Next(old(View()),
                      if IsProcessing(old(View()), id) then Reject(id, now) else SuccessRejected(id, now))
    {
      var flight := inFlight[id];
      shutdownManager.Settle(flight.phase.action);
      inFlight := inFlight - {id};
      HandleFailure(flight.task, now);
    }

    /** The catch block of processTask. */
    method HandleFailure(task: Task, now: real)
      modifies this
      ensures View() == CatchStep(old(View()), task, now)
    {
      var maxRetries := if task.retryConfig.Some? then task.retryConfig.value.maxRetries else 0;
      var shouldRetry := task.attempt < maxRetries;
      if shouldRetry {
        UpdateTaskStatus(task.id, Pending);
        ScheduleRetry(task, task.attempt + 1, now);
      } else {
        UpdateTaskStatus(task.id, Failed(now));
        tallies := Tallied(tallies, task.id, Tally(0, 0, 0, if task.callbacks.onError then 1 else 0));
        finished := finished[task.id := Done(task, GaveUp)];
      }
    }

    method ScheduleRetry(task: Task, nextAttempt: nat, now: real)
      requires 1 <= nextAttempt
      modifies this
      ensures View() == ScheduleRetryStep(old(View()), task, nextAttempt, now)
      ensures task.retryConfig.None? ==> tasks == old(tasks)
      ensures task.retryConfig.Some? ==>
                var c := task.retryConfig.value;
                var geometric := c.initialDelayMs * Power(c.backoffMultiplier, nextAttempt - 1);
                var delay := if geometric <= c.maxDelayMs then geometric else c.maxDelayMs;
                tasks == old(tasks) + [task.(attempt := nextAttempt, scheduledAt := now + delay)]
    {
      if task.retryConfig.None? {
        return;
      }
      var delay := CalculateBackoffDelay(nextAttempt, task.retryConfig.value);
      tasks := tasks + [task.(attempt := nextAttempt, scheduledAt := now + delay)];
      tallies := Tallied(tallies, task.id, Tally(0, 0, 1, 0));
    }

    /** Walks over the stored statuses and deletes the terminal ones that are an hour old. */
    method CleanupExpiredTaskStatuses(now: real)
      modifies this`taskStatuses
      ensures View() == Next(old(View()), Cleanup(now))
      ensures forall id :: id in taskStatuses <==>
                id in old(taskStatuses)
                && !((old(taskStatuses)[id].Completed? || old(taskStatuses)[id].Failed?)
                     && old(taskStatuses)[id].at < now - 3600000.0)
    {
      ghost var all := taskStatuses;
      var left := taskStatuses.Keys;
      while left != {}
        invariant left <= all.Keys
        invariant taskStatuses == map id | id in all && (id in left || !Expired(all[id], now)) :: all[id]
      {
        var id :| id in left;
        if Expired(taskStatuses[id], now) {
          taskStatuses := taskStatuses - {id};
        }
        left := left - {id};
      }
    }
  }

  lemma {:induction false} NothingReady(tasks: seq<Task>, now: real)
    requires Select(tasks, now, true) == []
    ensures Select(tasks, now, false) == tasks
  {
    if tasks != [] {
      NothingReady(tasks[1..], now);
    }
  }

  lemma ReadyArePicked(s: State, now: real)
    requires Inv(s)
    ensures var ready := Select(s.waiting, now, true);
            NoDuplicates(ready) && forall j | 0 <= j < |ready| :: IsPicked(PickStep(s, now), ready[j].id)
  {
    SelectDistinct(s.waiting, now, true);
    SelectSplitsIds(s.waiting, now);
    PickAllIs(s.inFlight, Select(s.waiting, now, true));
  }

  lemma OthersStayPicked(s: State, ready: seq<Task>, k: nat, now: real)
    requires k < |ready| && NoDuplicates(ready) && IsPicked(s, ready[k].id)
    requires forall j | k <= j < |ready| :: IsPicked(s, ready[j].id)
    ensures forall j | k < j < |ready| :: IsPicked(StartStep(s, ready[k].id, now), ready[j].id)
  {
    hide CalculateBackoffDelay;
  }

  lemma PickedHasItsId(s: State, id: nat)
    requires Inv(s) && IsPicked(s, id)
    ensures s.inFlight[id].task.id == id
  {
  }
}

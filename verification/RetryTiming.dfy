/**
 When the queue retries: a failed attempt waits out its backoff delay before it is picked
 again, so the k-th retry of a task starts no earlier than the first failure plus
 the first k delays, whatever else happens in between.
 */
module RetryTiming {
  import opened Wrappers
  import opened Backoff
  import opened TaskQueue

  // ---- One failure, one wait ----

  /** The delay before the k-th retry, in terms of the configuration: geometric, up to the cap. */
  function Delay(config: RetryConfig, k: nat): real
    requires 1 <= k
  {
    var geometric := config.initialDelayMs * Power(config.backoffMultiplier, k - 1);
    if geometric <= config.maxDelayMs then geometric else config.maxDelayMs
  }

  /** Task t, back in the queue after an attempt that failed at `now`. */
  function Again(t: Task, now: real): Task
    requires t.retryConfig.Some?
  {
    t.(attempt := t.attempt + 1, scheduledAt := now + Delay(t.retryConfig.value, t.attempt + 1))
  }

  lemma CatchWaits(s: State, t: Task, now: real)
    requires t.attempt < t.MaxRetries()
    ensures t.retryConfig.Some?
    ensures CatchStep(s, t, now).waiting == s.waiting + [Again(t, now)]
    ensures CatchStep(s, t, now).inFlight == s.inFlight
  {
  }

  lemma CatchGivesUp(s: State, t: Task, now: real)
    requires t.attempt >= t.MaxRetries()
    ensures CatchStep(s, t, now).waiting == s.waiting && CatchStep(s, t, now).inFlight == s.inFlight
  {
  }

  /** The state in which the catch block runs. */
  function Caught(s: State, e: Event, id: nat): State
    requires AttemptFails(s, e, id)
  {
    if e.Start? then
      s.(inFlight := s.inFlight - {id}, statuses := Update(s.statuses, id, Running),
         tallies := Tallied(s.tallies, id, Tally(0, 1, 0, 0)))
    else Settled(s, id)
  }

  lemma FailureIsCaught(s: State, e: Event, id: nat)
    requires AttemptFails(s, e, id)
    ensures Next(s, e) == CatchStep(Caught(s, e, id), s.inFlight[id].task, e.now)
    ensures Caught(s, e, id).waiting == s.waiting && Caught(s, e, id).inFlight == s.inFlight - {id}
  {
    hide CatchStep;
  }

  /**
   When an attempt fails with retries left, the task waits at the end of the list, unchanged
   but for its counter and its time, which is the failure's time plus the smaller of the
   geometric delay and the cap.
   */
  lemma FailedAttemptWaits(s: State, e: Event, id: nat)
    requires AttemptFails(s, e, id) && s.inFlight[id].task.attempt < s.inFlight[id].task.MaxRetries()
    ensures s.inFlight[id].task.retryConfig.Some?
    ensures var t := s.inFlight[id].task;
            var c := t.retryConfig.value;
            var geometric := c.initialDelayMs * Power(c.backoffMultiplier, t.attempt);
            && |Next(s, e).waiting| == |s.waiting| + 1 && Next(s, e).waiting[..|s.waiting|] == s.waiting
            && var w := Next(s, e).waiting[|s.waiting|];
            && w == t.(attempt := t.attempt + 1, scheduledAt := w.scheduledAt)
            && w.scheduledAt - e.now == (if geometric <= c.maxDelayMs then geometric else c.maxDelayMs)
            && Next(s, e).inFlight == s.inFlight - {id}
  {
    FailureIsCaught(s, e, id);
    CatchWaits(Caught(s, e, id), s.inFlight[id].task, e.now);
    hide CatchStep;
    hide Next;
    hide Power;
  }

  /** A waiting task is picked by the first pick at or after its time, and by no other step. */
  lemma WaitsUntilDue(s: State, e: Event, w: Task)
    requires Inv(s) && w in s.waiting
    ensures if e.Pick? && w.scheduledAt <= e.now
            then w !in Next(s, e).waiting && w.id in Next(s, e).inFlight
                 && Next(s, e).inFlight[w.id] == Flight(w, Picked)
            else w in Next(s, e).waiting
  {
    if e.Pick? {
      PickTakesDue(s, e.now, w);
    } else if exists id :: AttemptFails(s, e, id) {
      var id :| AttemptFails(s, e, id);
      assert AttemptFails(s, e, id);
      hide InvBut;
      FailureIsCaught(s, e, id);
      var t := s.inFlight[id].task;
      if t.attempt < t.MaxRetries() {
        CatchWaits(Caught(s, e, id), t, e.now);
      } else {
        CatchGivesUp(Caught(s, e, id), t, e.now);
      }
    } else {
      hide InvBut;
      OtherStepsLeaveWaiting(s, e);
    }
  }

  lemma PickTakesDue(s: State, now: real, w: Task)
    requires Conserved(s, {}) && w in s.waiting
    ensures var s' := PickStep(s, now);
            if w.scheduledAt <= now
            then w !in s'.waiting && w.id in s'.inFlight && s'.inFlight[w.id] == Flight(w, Picked)
            else w in s'.waiting
  {
    SelectMembers(s.waiting, now, true);
    SelectMembers(s.waiting, now, false);
    SelectDistinct(s.waiting, now, true);
    SelectSplitsIds(s.waiting, now);
    var ready := Select(s.waiting, now, true);
    PickAllIs(s.inFlight, ready);
    if w.scheduledAt <= now {
      var i :| 0 <= i < |ready| && ready[i] == w;
      assert PickAll(s.inFlight, ready)[ready[i].id] == Flight(ready[i], Picked);
    }
  }

  /** Every other step leaves the list as it is, or adds a new task to it, and puts no task in flight. */
  lemma OtherStepsLeaveWaiting(s: State, e: Event)
    requires !e.Pick? && forall id :: !AttemptFails(s, e, id)
    ensures Next(s, e).waiting == s.waiting
            || (e.Enqueue? && Next(s, e).waiting == s.waiting + [NewTask(s, e)])
    ensures forall id | id in Next(s, e).inFlight ::
              id in s.inFlight && Next(s, e).inFlight[id].task == s.inFlight[id].task
  {
    hide CatchStep;
    match e
    case Start(id, _) => assert !AttemptFails(s, e, id);
    case Reject(id, _) => assert !AttemptFails(s, e, id);
    case SuccessRejected(id, _) => assert !AttemptFails(s, e, id);
    case _ =>
  }

  // ---- Many failures, many waits ----

  /** The clock reading of a step that looks at the clock. */
  function Clock(e: Event): Option<real> {
    match e
    case Enqueue(_, _, _, _, now) => Some(now)
    case Pick(now) => Some(now)
    case Start(_, now) => Some(now)
    case Resolve(_, now) => Some(now)
    case Reject(_, now) => Some(now)
    case SuccessRejected(_, now) => Some(now)
    case Cleanup(now) => Some(now)
    case _ => None
  }

  /** The clock after a step. */
  function Later(clock: real, e: Event): real {
    if Clock(e).Some? then Clock(e).value else clock
  }

  /** The clock never goes back in the run. */
  predicate Forward(clock: real, events: seq<Event>)
    decreases |events|
  {
    events != [] ==> clock <= Later(clock, events[0]) && Forward(Later(clock, events[0]), events[1..])
  }

  function ClockAfter(clock: real, events: seq<Event>): real
    decreases |events|
  {
    if events == [] then clock else ClockAfter(Later(clock, events[0]), events[1..])
  }

  /** Wherever task `id` is on its way through its retries, its first k delays after `failed` come first. */
  ghost predicate OnSchedule(s: State, id: nat, config: RetryConfig, failed: real, clock: real) {
    && id < s.nextId
    && (forall w | w in s.waiting && w.id == id ::
          w.retryConfig == Some(config) && failed + TotalWait(config, w.attempt) <= w.scheduledAt && 1 <= w.attempt)
    && (id in s.inFlight ==>
          && s.inFlight[id].task.id == id && s.inFlight[id].task.retryConfig == Some(config)
          && 1 <= s.inFlight[id].task.attempt
          && failed + TotalWait(config, s.inFlight[id].task.attempt) <= clock)
  }

  lemma DelayIsNext(config: RetryConfig, k: nat)
    ensures TotalWait(config, k + 1) == TotalWait(config, k) + Delay(config, k + 1)
  {
  }

  lemma OnScheduleKept(s: State, e: Event, id: nat, config: RetryConfig, failed: real, clock: real)
    requires Inv(s) && OnSchedule(s, id, config, failed, clock) && clock <= Later(clock, e)
    ensures OnSchedule(Next(s, e), id, config, failed, Later(clock, e))
  {
    if e.Pick? {
      PickOnSchedule(s, e.now, id, config, failed, clock);
    } else if exists x :: AttemptFails(s, e, x) {
      var x :| AttemptFails(s, e, x);
      assert AttemptFails(s, e, x);
      assert s.inFlight[x].task.id == x;
      hide InvBut;
      FailureOnSchedule(s, e, x, id, config, failed, clock);
    } else {
      hide InvBut;
      hide TotalWait;
      OtherStepsLeaveWaiting(s, e);
      IdsGrow(s, e);
      hide Next;
    }
  }

  lemma IdsGrow(s: State, e: Event)
    ensures s.nextId <= Next(s, e).nextId
  {
    hide CalculateBackoffDelay;
    hide Select;
    hide PickAll;
    hide Update;
    hide Tallied;
  }

  lemma FailureOnSchedule(s: State, e: Event, x: nat, id: nat, config: RetryConfig, failed: real, clock: real)
    requires AttemptFails(s, e, x) && s.inFlight[x].task.id == x
    requires OnSchedule(s, id, config, failed, clock) && clock <= e.now
    ensures OnSchedule(Next(s, e), id, config, failed, e.now)
  {
    var t := s.inFlight[x].task;
    var caught := Caught(s, e, x);
    FailureIsCaught(s, e, x);
    IdsGrow(s, e);
    if t.attempt < t.MaxRetries() {
      CatchWaits(caught, t, e.now);
      if x == id {
        DelayIsNext(config, t.attempt);
      }
    } else {
      CatchGivesUp(caught, t, e.now);
    }
    hide Next;
    hide CatchStep;
    hide TotalWait;
    hide Delay;
  }

  lemma PickOnSchedule(s: State, now: real, id: nat, config: RetryConfig, failed: real, clock: real)
    requires Inv(s) && OnSchedule(s, id, config, failed, clock) && clock <= now
    ensures OnSchedule(PickStep(s, now), id, config, failed, now)
  {
    SelectMembers(s.waiting, now, false);
    var s' := PickStep(s, now);
    if id in s'.inFlight {
      PickedFlights(s, now, id);
      if id !in s.inFlight {
        var w :| w in s.waiting && w.id == id && s'.inFlight[id] == Flight(w, Picked);
        PickTakesDue(s, now, w);
        NextKeeps(s, Pick(now));
        NotBoth(s', w);
      }
    }
    hide TotalWait;
    hide InvBut;
  }

  /** A task in flight is not in the list. */
  lemma NotBoth(s: State, w: Task)
    requires Inv(s) && w.id in s.inFlight
    ensures w !in s.waiting
  {
    assert w in s.waiting ==> w.id in WaitingIds(s.waiting);
  }

  lemma {:induction false} OnScheduleOverRun(s: State, events: seq<Event>, id: nat, config: RetryConfig,
                                             failed: real, clock: real)
    requires Inv(s) && OnSchedule(s, id, config, failed, clock) && Forward(clock, events)
    ensures OnSchedule(Run(s, events), id, config, failed, ClockAfter(clock, events))
    decreases |events|
  {
    hide InvBut;
    hide OnSchedule;
    hide Next;
    if events != [] {
      OnScheduleKept(s, events[0], id, config, failed, clock);
      NextKeeps(s, events[0]);
      OnScheduleOverRun(Next(s, events[0]), events[1..], id, config, failed, Later(clock, events[0]));
    }
  }

  /**
   A task's first attempt fails, at any point of any run, and the run goes on with a clock that
   does not go back: whenever the task starts again, as its k-th retry, at least the first k
   delays have passed since that failure.
   */
  lemma RetriesWaitTheirDelays(before: seq<Event>, e: Event, after: seq<Event>, id: nat, now: real)
    requires AttemptFails(After(before), e, id)
    requires After(before).inFlight[id].task.attempt == 0 < After(before).inFlight[id].task.MaxRetries()
    requires Forward(e.now, after) && ClockAfter(e.now, after) <= now
    requires IsPicked(Run(Next(After(before), e), after), id)
    ensures var config := After(before).inFlight[id].task.retryConfig;
            var k := Run(Next(After(before), e), after).inFlight[id].task.attempt;
            config.Some? && 1 <= k && e.now + TotalWait(config.value, k) <= now
  {
    var s := After(before);
    var t := s.inFlight[id].task;
    AfterInv(before);
    NextKeeps(s, e);
    FirstFailure(s, e, id);
    var config := t.retryConfig.value;
    OnScheduleOverRun(Next(s, e), after, id, config, e.now, e.now);
    hide *;
    OnScheduleInFlight(Run(Next(s, e), after), id, config, e.now, ClockAfter(e.now, after));
  }

  lemma OnScheduleInFlight(s: State, id: nat, config: RetryConfig, failed: real, clock: real)
    requires OnSchedule(s, id, config, failed, clock) && id in s.inFlight
    ensures 1 <= s.inFlight[id].task.attempt
    ensures failed + TotalWait(config, s.inFlight[id].task.attempt) <= clock
  {
  }

  lemma FirstFailure(s: State, e: Event, id: nat)
    requires Inv(s) && AttemptFails(s, e, id)
    requires s.inFlight[id].task.attempt == 0 < s.inFlight[id].task.MaxRetries()
    ensures s.inFlight[id].task.retryConfig.Some?
    ensures OnSchedule(Next(s, e), id, s.inFlight[id].task.retryConfig.value, e.now, e.now)
  {
    var t := s.inFlight[id].task;
    assert t.id == id;
    InFlightIsKnown(s, id);
    IdsGrow(s, e);
    FailureIsCaught(s, e, id);
    CatchWaits(Caught(s, e, id), t, e.now);
    DelayIsNext(t.retryConfig.value, 0);
    assert TotalWait(t.retryConfig.value, 0) == 0.0;
    hide *;
    OneAgain(s, Next(s, e), id, e.now);
  }

  lemma InFlightIsKnown(s: State, id: nat)
    requires Inv(s) && id in s.inFlight
    ensures id < s.nextId && s.inFlight[id].task.id == id
    ensures forall w | w in s.waiting :: w.id != id
  {
    IdsBelow(s, {});
    assert forall w | w in s.waiting :: w.id in WaitingIds(s.waiting);
  }

  /** The failed task alone is back in the list. */
  lemma OneAgain(s: State, s': State, id: nat, now: real)
    requires id in s.inFlight && id < s.nextId <= s'.nextId
    requires s.inFlight[id].task.id == id && s.inFlight[id].task.attempt == 0 && s.inFlight[id].task.retryConfig.Some?
    requires forall w | w in s.waiting :: w.id != id
    requires s'.waiting == s.waiting + [Again(s.inFlight[id].task, now)] && id !in s'.inFlight
    requires TotalWait(s.inFlight[id].task.retryConfig.value, 1) == Delay(s.inFlight[id].task.retryConfig.value, 1)
    ensures OnSchedule(s', id, s.inFlight[id].task.retryConfig.value, now, now)
  {
    hide TotalWait;
    hide Delay;
  }

  /** The deletion of an empty server: its tenth retry starts at least 75 minutes after its first failure. */
  lemma DeletionRetriesTake75Minutes(before: seq<Event>, e: Event, after: seq<Event>, id: nat, now: real)
    requires AttemptFails(After(before), e, id) && After(before).inFlight[id].task.attempt == 0
    requires After(before).inFlight[id].task.retryConfig == Some(RetryConfig(10, 60000.0, 600000.0, 2.0))
    requires Forward(e.now, after) && ClockAfter(e.now, after) <= now
    requires IsPicked(Run(Next(After(before), e), after), id)
    requires Run(Next(After(before), e), after).inFlight[id].task.attempt == 10
    ensures e.now + 4500000.0 <= now
  {
    assert After(before).inFlight[id].task.MaxRetries() == 10;
    hide Run;
    hide Next;
    hide TotalWait;
    hide AttemptFails;
    RetriesWaitTheirDelays(before, e, after, id, now);
    DeletionWaits75Minutes();
  }

  // ---- What the other steps do to a task ----

  /** A new task: last in the list, due at once, `pending`, with a default for each setting left out. */
  lemma EnqueuedTask(s: State, e: Event)
    requires e.Enqueue?
    ensures var s' := Next(s, e);
            && |s'.waiting| == |s.waiting| + 1 && s'.waiting[..|s.waiting|] == s.waiting
            && var t := s'.waiting[|s.waiting|];
            && t.id == s.nextId < s'.nextId && t.kind == e.kind && t.data == e.data && t.callbacks == e.callbacks
            && t.attempt == 0 && t.scheduledAt == e.now
            && t.id in s'.statuses && s'.statuses[t.id] == Pending
            && (t.retryConfig.None? <==> e.retry.None?)
            && (e.retry.Some? ==>
                  var r, c := e.retry.value, t.retryConfig.value;
                  && c.maxRetries == r.maxRetries
                  && Some(c.initialDelayMs) == (if r.initialDelayMs.None? then Some(1000.0) else r.initialDelayMs)
                  && Some(c.maxDelayMs) == (if r.maxDelayMs.None? then Some(60000.0) else r.maxDelayMs)
                  && Some(c.backoffMultiplier) ==
                     (if r.backoffMultiplier.None? then Some(2.0) else r.backoffMultiplier))
  {
  }

  /** A due task starts: it fails for want of a processor, or its processor is called under a tracked action. */
  lemma StartedTask(s: State, id: nat, now: real)
    requires IsPicked(s, id) && id in s.statuses && !AttemptFails(s, Start(id, now), id)
    ensures var s', t := Next(s, Start(id, now)), s.inFlight[id].task;
            if t.kind !in s.processors then
              id !in s'.inFlight && id in s'.finished && s'.finished[id] == Done(t, NoProcessor)
              && s'.statuses[id] == Failed(now) && s'.tracked == s.tracked
            else
              id in s'.inFlight && s'.inFlight[id] == Flight(t, Processing(s.nextAction))
              && s'.statuses[id] == Running && s'.tracked == s.tracked + {s.nextAction}
  {
    hide CatchStep;
  }

  /** A resolved processor: `completed` at once, then the callback if there is one, under the same action. */
  lemma ResolvedTask(s: State, id: nat, now: real)
    requires IsProcessing(s, id) && id in s.statuses
    ensures var s', t, action := Next(s, Resolve(id, now)), s.inFlight[id].task, s.inFlight[id].phase.action;
            && s'.statuses[id] == Completed(now)
            && if t.callbacks.onSuccess then
                 id in s'.inFlight && s'.inFlight[id] == Flight(t, Succeeding(action)) && s'.tracked == s.tracked
               else
                 id !in s'.inFlight && id in s'.finished && s'.finished[id] == Done(t, Succeeded)
                 && s'.tracked == s.tracked - {action}
  {
  }

  /** A failed attempt is reported: `pending` while it is retried, `failed` for good otherwise. */
  lemma FailedAttemptReported(s: State, e: Event, id: nat)
    requires AttemptFails(s, e, id) && s.inFlight[id].task.id == id && id in s.statuses
    ensures var s', t := Next(s, e), s.inFlight[id].task;
            if t.attempt < t.MaxRetries() then id in s'.statuses && s'.statuses[id] == Pending
            else
              id in s'.statuses && s'.statuses[id] == TaskQueue.Failed(e.now)
              && id in s'.finished && s'.finished[id] == Done(t, GaveUp) && s'.waiting == s.waiting
  {
    hide CalculateBackoffDelay;
  }

  /** Cleanup removes the reports of tasks that ended more than an hour ago, and no others. */
  lemma CleanedUp(s: State, now: real, id: nat)
    ensures var s' := Next(s, Cleanup(now));
            && (id in s'.statuses <==>
                id in s.statuses && !((s.statuses[id].Completed? || s.statuses[id].Failed?)
                                      && s.statuses[id].at < now - 3600000.0))
            && (id in s'.statuses ==> s'.statuses[id] == s.statuses[id])
  {
  }
}

/**
 The in-memory background task queue and the shutdown manager that guards its work, as
 one transition system. A step is the code between two awaits; any number of
 `processTasks` calls, running processors, callbacks and shutdown waits may be
 suspended at once, and any of them may take the next step.
 */
module TaskQueue {
  import opened Wrappers
  import opened Backoff

  // ---- State ----

  datatype Callbacks = Callbacks(onSuccess: bool, onError: bool)

  datatype Task = Task(
    id: nat, kind: string, data: nat, callbacks: Callbacks,
    retryConfig: Option<RetryConfig>, attempt: nat, scheduledAt: real)
  {
    function MaxRetries(): nat {
      if retryConfig.Some? then retryConfig.value.maxRetries else 0
    }
  }

  /** What a caller passes to enqueue: everything but the number of retries has a default. */
  datatype RetryRequest = RetryRequest(
    maxRetries: nat, initialDelayMs: Option<real>, maxDelayMs: Option<real>, backoffMultiplier: Option<real>)
  {
    function Merged(): RetryConfig {
      RetryConfig(
        maxRetries,
        if initialDelayMs.Some? then initialDelayMs.value else 1000.0,
        if maxDelayMs.Some? then maxDelayMs.value else 60000.0,
        if backoffMultiplier.Some? then backoffMultiplier.value else 2.0)
    }
  }

  datatype Status = Pending | Running | Completed(at: real) | Failed(at: real) {
    predicate Terminal() {
      Completed? || Failed?
    }
  }

  /** Where a started task is suspended: before its turn in the batch, in its processor, or in onSuccess. */
  datatype Phase = Picked | Processing(action: nat) | Succeeding(action: nat)

  datatype Flight = Flight(task: Task, phase: Phase)

  datatype Outcome = Succeeded | GaveUp | NoProcessor

  datatype Done = Done(task: Task, outcome: Outcome)

  /** What has been done for a task so far. */
  datatype Tally = Tally(calls: nat, refusals: nat, retries: nat, errors: nat) {
    /** Attempts made: the processor was called, or shutdown refused the attempt. */
    function Tries(): nat {
      calls + refusals
    }
  }

  datatype State = State(
    waiting: seq<Task>,
    inFlight: map<nat, Flight>,
    finished: map<nat, Done>,
    statuses: map<nat, Status>,
    tallies: map<nat, Tally>,
    processors: set<string>,
    nextId: nat,
    tracked: set<nat>,          // actions the shutdown manager waits for
    shuttingDown: bool,
    waits: seq<set<nat>>,       // the actions each suspended onShutdownWait awaits
    drained: nat,               // onShutdownWait calls that have resolved
    nextAction: nat)

  const TASK_TTL_MS := 3600000.0

  const INITIAL := State([], map[], map[], map[], map[], {}, 0, {}, false, [], 0, 0)

  // ---- Steps ----

  datatype Event =
    | Register(kind: string)
    | Enqueue(kind: string, data: nat, callbacks: Callbacks, retry: Option<RetryRequest>, now: real)
    | Pick(now: real)
    | Start(id: nat, now: real)
    | Resolve(id: nat, now: real)
    | Reject(id: nat, now: real)
    | SuccessDone(id: nat)
    | SuccessRejected(id: nat, now: real)
    | Cleanup(now: real)
    | ShutdownBegin
    | ShutdownResolve(wait: nat)

  function EnqueueStep(s: State, kind: string, data: nat, callbacks: Callbacks, retry: Option<RetryRequest>,
                      now: real): State {
    var config := if retry.Some? then Some(retry.value.Merged()) else None;
    var task := Task(s.nextId, kind, data, callbacks, config, 0, now);
    s.(waiting := s.waiting + [task],
       statuses := s.statuses[task.id := Pending],
       tallies := s.tallies[task.id := Tally(0, 0, 0, 0)],
       nextId := s.nextId + 1)
  }

  /** The tasks that are due (or those that are not), in order. */
  function Select(tasks: seq<Task>, now: real, due: bool): seq<Task> {
    if tasks == [] then []
    else (if (tasks[0].scheduledAt <= now) == due then [tasks[0]] else []) + Select(tasks[1..], now, due)
  }

  function PickAll(inFlight: map<nat, Flight>, ready: seq<Task>): map<nat, Flight>
    decreases |ready|
  {
    if ready == [] then inFlight
    else PickAll(inFlight[ready[0].id := Flight(ready[0], Picked)], ready[1..])
  }

  /** Every due task leaves the waiting list at once, before any of them is processed. */
  function PickStep(s: State, now: real): State {
    s.(waiting := Select(s.waiting, now, false), inFlight := PickAll(s.inFlight, Select(s.waiting, now, true)))
  }

  /** A status is only ever updated, never created, once its task has been enqueued. */
  function Update(statuses: map<nat, Status>, id: nat, status: Status): map<nat, Status> {
    if id in statuses then statuses[id := status] else statuses
  }

  function Tallied(tallies: map<nat, Tally>, id: nat, more: Tally): map<nat, Tally> {
    if id in tallies then
      var t := tallies[id];
      tallies[id := Tally(t.calls + more.calls, t.refusals + more.refusals,
                          t.retries + more.retries, t.errors + more.errors)]
    else tallies
  }

  /** A retry without a configuration returns early, which would drop the task. */
  function ScheduleRetryStep(s: State, t: Task, nextAttempt: nat, now: real): State
    requires nextAttempt >= 1
  {
    match t.retryConfig
    case None => s
    case Some(config) =>
      var again := t.(attempt := nextAttempt, scheduledAt := now + CalculateBackoffDelay(nextAttempt, config));
      s.(waiting := s.waiting + [again], tallies := Tallied(s.tallies, t.id, Tally(0, 0, 1, 0)))
  }

  /** The catch block of processTask, after the attempt has left the shutdown manager. */
  function CatchStep(s: State, t: Task, now: real): State {
    if t.attempt < t.MaxRetries() then
      ScheduleRetryStep(s.(statuses := Update(s.statuses, t.id, Pending)), t, t.attempt + 1, now)
    else GiveUpStep(s, t, now)
  }

  function GiveUpStep(s: State, t: Task, now: real): State {
    s.(statuses := Update(s.statuses, t.id, Failed(now)),
       tallies := Tallied(s.tallies, t.id, Tally(0, 0, 0, if t.callbacks.onError then 1 else 0)),
       finished := s.finished[t.id := Done(t, GaveUp)])
  }

  predicate IsPicked(s: State, id: nat) {
    id in s.inFlight && s.inFlight[id].phase.Picked?
  }

  predicate IsProcessing(s: State, id: nat) {
    id in s.inFlight && s.inFlight[id].phase.Processing?
  }

  predicate IsSucceeding(s: State, id: nat) {
    id in s.inFlight && s.inFlight[id].phase.Succeeding?
  }

  /** The task's action settles: the shutdown manager forgets it. */
  function Settled(s: State, id: nat): State
    requires IsProcessing(s, id) || IsSucceeding(s, id)
  {
    s.(tracked := s.tracked - {s.inFlight[id].phase.action}, inFlight := s.inFlight - {id})
  }

  /** processTask up to its first await. A manager that is shutting down refuses the attempt by throwing. */
  function StartStep(s: State, id: nat, now: real): State
    requires IsPicked(s, id)
  {
    var t := s.inFlight[id].task;
    if t.kind !in s.processors then
      s.(inFlight := s.inFlight - {id},
         statuses := Update(s.statuses, id, Failed(now)),
         finished := s.finished[id := Done(t, NoProcessor)])
    else if s.shuttingDown then
      CatchStep(
        s.(inFlight := s.inFlight - {id},
           statuses := Update(s.statuses, id, Running),
           tallies := Tallied(s.tallies, id, Tally(0, 1, 0, 0))), t, now)
    else
      s.(inFlight := s.inFlight[id := Flight(t, Processing(s.nextAction))],
         statuses := Update(s.statuses, id, Running),
         tallies := Tallied(s.tallies, id, Tally(1, 0, 0, 0)),
         tracked := s.tracked + {s.nextAction},
         nextAction := s.nextAction + 1)
  }

  /** The processor succeeds: `completed` is written before onSuccess runs. */
  function ResolveStep(s: State, id: nat, now: real): State
    requires IsProcessing(s, id)
  {
    var f := s.inFlight[id];
    var completed := s.(statuses := Update(s.statuses, id, Completed(now)));
    if f.task.callbacks.onSuccess then
      completed.(inFlight := s.inFlight[id := Flight(f.task, Succeeding(f.phase.action))])
    else
      Settled(completed, id).(finished := s.finished[id := Done(f.task, Succeeded)])
  }

  function SuccessDoneStep(s: State, id: nat): State
    requires IsSucceeding(s, id)
  {
    Settled(s, id).(finished := s.finished[id := Done(s.inFlight[id].task, Succeeded)])
  }

  /** The processor rejects, or onSuccess does: both land in the same catch block. */
  function RejectStep(s: State, id: nat, now: real): State
    requires IsProcessing(s, id) || IsSucceeding(s, id)
  {
    CatchStep(Settled(s, id), s.inFlight[id].task, now)
  }

  predicate Expired(status: Status, now: real) {
    status.Terminal() && status.at < now - TASK_TTL_MS
  }

  function CleanupStep(s: State, now: real): State {
    s.(statuses := map id | id in s.statuses && !Expired(s.statuses[id], now) :: s.statuses[id])
  }

  /** The action a suspended attempt runs under the shutdown manager. */
  predicate RunsAction(f: Flight, action: nat) {
    !f.phase.Picked? && f.phase.action == action
  }

  function RunningActions(s: State): set<nat> {
    set id | id in s.inFlight && !s.inFlight[id].phase.Picked? :: s.inFlight[id].phase.action
  }

  /** onShutdownWait up to its await: the flag goes up and the tracked actions are captured. */
  function ShutdownBeginStep(s: State): State {
    s.(shuttingDown := true, waits := s.waits + [s.tracked])
  }

  /** A suspended onShutdownWait goes on once every action it captured has settled. */
  predicate CanDrain(s: State, wait: nat) {
    wait < |s.waits| && s.waits[wait] !! RunningActions(s)
  }

  function ShutdownResolveStep(s: State, wait: nat): State
    requires CanDrain(s, wait)
  {
    s.(tracked := {}, waits := s.waits[..wait] + s.waits[wait + 1..], drained := s.drained + 1)
  }

  /** One step. An event that is not enabled changes nothing. */
  function Next(s: State, e: Event): State {
    match e
    case Register(kind) => s.(processors := s.processors + {kind})
    case Enqueue(kind, data, callbacks, retry, now) => EnqueueStep(s, kind, data, callbacks, retry, now)
    case Pick(now) => PickStep(s, now)
    case Start(id, now) => if IsPicked(s, id) then StartStep(s, id, now) else s
    case Resolve(id, now) => if IsProcessing(s, id) then ResolveStep(s, id, now) else s
    case Reject(id, now) => if IsProcessing(s, id) then RejectStep(s, id, now) else s
    case SuccessDone(id) => if IsSucceeding(s, id) then SuccessDoneStep(s, id) else s
    case SuccessRejected(id, now) => if IsSucceeding(s, id) then RejectStep(s, id, now) else s
    case Cleanup(now) => CleanupStep(s, now)
    case ShutdownBegin => ShutdownBeginStep(s)
    case ShutdownResolve(wait) => if CanDrain(s, wait) then ShutdownResolveStep(s, wait) else s
  }

  function Run(s: State, events: seq<Event>): State
    decreases |events|
  {
    if events == [] then s else Run(Next(s, events[0]), events[1..])
  }

  // ---- Invariant ----

  function WaitingIds(tasks: seq<Task>): set<nat> {
    set t | t in tasks :: t.id
  }

  predicate IsId(i: nat) {
    true
  }

  /** The ids handed out so far. */
  function Ids(n: nat): set<nat> {
    set i: nat | i < n && IsId(i)
  }

  ghost predicate NoDuplicates(tasks: seq<Task>) {
    forall i, j | 0 <= i < j < |tasks| :: tasks[i].id != tasks[j].id
  }

  /**
   Every task ever enqueued is waiting once, in flight once, or finished: one of the three.
   Inside a step, `loose` holds a task that is between two of them.
   */
  ghost predicate Conserved(s: State, loose: set<nat>) {
    && NoDuplicates(s.waiting)
    && WaitingIds(s.waiting) !! s.inFlight.Keys !! s.finished.Keys !! loose
    && WaitingIds(s.waiting) + s.inFlight.Keys + s.finished.Keys + loose == Ids(s.nextId)
    && (forall id | id in s.inFlight :: s.inFlight[id].task.id == id)
    && (forall id | id in s.finished :: s.finished[id].task.id == id)
  }

  /** A task not yet finished has been tried once for each retry, plus once if an attempt is under way. */
  predicate Accounted(tallies: map<nat, Tally>, t: Task, underWay: nat) {
    && t.id in tallies
    && tallies[t.id].Tries() == t.attempt + underWay
    && tallies[t.id].retries == t.attempt <= t.MaxRetries()
    && tallies[t.id].errors == 0
  }

  /** A finished task gave up only with its retries used up, and only then was onError called, once. */
  predicate DoneAccounted(tallies: map<nat, Tally>, d: Done) {
    && d.task.id in tallies
    && tallies[d.task.id].Tries() == d.task.attempt + (if d.outcome.NoProcessor? then 0 else 1)
    && tallies[d.task.id].retries == d.task.attempt <= d.task.MaxRetries()
    && (d.outcome.GaveUp? ==> d.task.attempt == d.task.MaxRetries())
    && tallies[d.task.id].errors == if d.outcome.GaveUp? && d.task.callbacks.onError then 1 else 0
  }

  function UnderWay(f: Flight): nat {
    if f.phase.Picked? then 0 else 1
  }

  ghost predicate WaitingAccounted(waiting: seq<Task>, tallies: map<nat, Tally>) {
    forall i | 0 <= i < |waiting| :: Accounted(tallies, waiting[i], 0)
  }

  ghost predicate FlightsAccounted(inFlight: map<nat, Flight>, tallies: map<nat, Tally>) {
    forall id | id in inFlight :: Accounted(tallies, inFlight[id].task, UnderWay(inFlight[id]))
  }

  ghost predicate FinishedAccounted(finished: map<nat, Done>, tallies: map<nat, Tally>) {
    forall id | id in finished :: DoneAccounted(tallies, finished[id])
  }

  ghost predicate AttemptsAccounted(s: State) {
    && WaitingAccounted(s.waiting, s.tallies)
    && FlightsAccounted(s.inFlight, s.tallies)
    && FinishedAccounted(s.finished, s.tallies)
  }

  // A stored status agrees with where its task is.

  ghost predicate WaitingAgree(waiting: seq<Task>, statuses: map<nat, Status>) {
    forall i | 0 <= i < |waiting| && waiting[i].id in statuses :: statuses[waiting[i].id].Pending?
  }

  predicate FlightAgrees(f: Flight, status: Status) {
    match f.phase
    case Picked => status.Pending?
    case Processing(_) => status.Running?
    case Succeeding(_) => status.Completed?
  }

  ghost predicate FlightsAgree(inFlight: map<nat, Flight>, statuses: map<nat, Status>) {
    forall id | id in inFlight && id in statuses :: FlightAgrees(inFlight[id], statuses[id])
  }

  predicate DoneAgrees(d: Done, status: Status) {
    if d.outcome.Succeeded? then status.Completed? else status.Failed?
  }

  ghost predicate FinishedAgree(finished: map<nat, Done>, statuses: map<nat, Status>) {
    forall id | id in finished && id in statuses :: DoneAgrees(finished[id], statuses[id])
  }

  ghost predicate StatusesAgree(s: State) {
    && s.statuses.Keys <= Ids(s.nextId)
    && WaitingAgree(s.waiting, s.statuses)
    && FlightsAgree(s.inFlight, s.statuses)
    && FinishedAgree(s.finished, s.statuses)
  }

  /** The shutdown manager tracks exactly the running actions, and every wait covers them. */
  ghost predicate ShutdownTracks(s: State) {
    && s.tracked == RunningActions(s)
    && (forall a | a in s.tracked :: a < s.nextAction)
    && (forall id, id' | id in s.inFlight && id' in s.inFlight && id != id' &&
          !s.inFlight[id].phase.Picked? && !s.inFlight[id'].phase.Picked? ::
          s.inFlight[id].phase.action != s.inFlight[id'].phase.action)
    && (!s.shuttingDown ==> s.waits == [] && s.drained == 0)
    && (forall w | 0 <= w < |s.waits| :: s.tracked <= s.waits[w])
    && (0 < s.drained ==> s.tracked == {})
  }

  ghost predicate Inv(s: State) {
    InvBut(s, {})
  }

  ghost predicate InvBut(s: State, loose: set<nat>) {
    Conserved(s, loose) && AttemptsAccounted(s) && StatusesAgree(s) && ShutdownTracks(s)
  }

  lemma InitialInv()
    ensures Inv(INITIAL)
  {
  }

  lemma WaitingGrows(tasks: seq<Task>, t: Task)
    ensures WaitingIds(tasks + [t]) == WaitingIds(tasks) + {t.id}
    ensures forall u :: u in tasks + [t] <==> u in tasks || u == t
    ensures NoDuplicates(tasks) && t.id !in WaitingIds(tasks) ==> NoDuplicates(tasks + [t])
  {
    forall id
      ensures id in WaitingIds(tasks + [t]) <==> id in WaitingIds(tasks) + {t.id}
    {
      if id in WaitingIds(tasks) {
        var u :| u in tasks && u.id == id;
        assert u in tasks + [t];
      }
      assert t in tasks + [t];
    }
    if NoDuplicates(tasks) && t.id !in WaitingIds(tasks) {
      forall i, j | 0 <= i < j < |tasks + [t]|
        ensures (tasks + [t])[i].id != (tasks + [t])[j].id
      {
        assert tasks[i] in tasks;
      }
    }
  }

  /** The ids in use are ids handed out. */
  lemma IdsBelow(s: State, loose: set<nat>)
    requires Conserved(s, loose)
    ensures forall i | 0 <= i < |s.waiting| :: s.waiting[i].id < s.nextId
    ensures forall id | id in s.inFlight :: id < s.nextId && s.inFlight[id].task.id == id
    ensures forall id | id in s.finished :: id < s.nextId && s.finished[id].task.id == id
    ensures forall id | id in loose :: id < s.nextId
    ensures forall i | 0 <= i < |s.waiting| ::
              s.waiting[i].id !in s.inFlight && s.waiting[i].id !in s.finished && s.waiting[i].id !in loose
    ensures s.inFlight.Keys !! s.finished.Keys !! loose
  {
    forall t | t in s.waiting
      ensures t.id < s.nextId && t.id in WaitingIds(s.waiting)
    {
      assert t.id in WaitingIds(s.waiting);
      assert t.id in Ids(s.nextId);
    }
    assert forall id | id in s.inFlight.Keys :: id in Ids(s.nextId);
    assert forall id | id in s.finished.Keys :: id in Ids(s.nextId);
    assert forall id | id in loose :: id in Ids(s.nextId);
  }

  lemma EnqueueConserves(s: State, e: Event)
    requires Conserved(s, {}) && e.Enqueue?
    ensures Conserved(Next(s, e), {})
  {
    var s' := Next(s, e);
    WaitingGrows(s.waiting, s'.waiting[|s.waiting|]);
    assert s.nextId !in Ids(s.nextId);
    assert Ids(s'.nextId) == Ids(s.nextId) + {s.nextId};
  }

  lemma EnqueueAccounts(s: State, e: Event)
    requires Conserved(s, {}) && AttemptsAccounted(s) && e.Enqueue?
    ensures AttemptsAccounted(Next(s, e))
  {
    hide Conserved;
    IdsBelow(s, {});
    WaitingGrows(s.waiting, Next(s, e).waiting[|s.waiting|]);
  }

  lemma EnqueueAgrees(s: State, e: Event)
    requires Conserved(s, {}) && StatusesAgree(s) && e.Enqueue?
    ensures StatusesAgree(Next(s, e))
  {
    hide Conserved;
    IdsBelow(s, {});
    WaitingGrows(s.waiting, Next(s, e).waiting[|s.waiting|]);
  }

  lemma SameFlights(s: State, s': State)
    requires s'.inFlight == s.inFlight
    ensures RunningActions(s') == RunningActions(s)
  {
  }

  // The catch block puts a task that is in no place back among the waiting, or finishes it.

  lemma RetryConserves(s: State, t: Task, next: nat, now: real)
    requires Conserved(s, {t.id}) && t.retryConfig.Some? && 1 <= next
    ensures Conserved(ScheduleRetryStep(s, t, next, now), {})
  {
    hide CalculateBackoffDelay;
    WaitingGrows(s.waiting, ScheduleRetryStep(s, t, next, now).waiting[|s.waiting|]);
  }

  lemma RetryAccounts(s: State, t: Task, now: real)
    requires Conserved(s, {t.id}) && AttemptsAccounted(s) && Accounted(s.tallies, t, 1)
    requires t.attempt < t.MaxRetries()
    ensures AttemptsAccounted(ScheduleRetryStep(s, t, t.attempt + 1, now))
  {
    hide CalculateBackoffDelay;
    hide Conserved;
    IdsBelow(s, {t.id});
  }

  lemma RetryAgrees(s: State, t: Task, next: nat, now: real)
    requires Conserved(s, {t.id}) && StatusesAgree(s) && t.retryConfig.Some? && 1 <= next
    ensures StatusesAgree(ScheduleRetryStep(s.(statuses := Update(s.statuses, t.id, Pending)), t, next, now))
  {
    hide CalculateBackoffDelay;
    hide Conserved;
    IdsBelow(s, {t.id});
  }

  lemma GiveUpConserves(s: State, t: Task, now: real)
    requires Conserved(s, {t.id})
    ensures Conserved(GiveUpStep(s, t, now), {})
  {
  }

  lemma GiveUpAccounts(s: State, t: Task, now: real)
    requires Conserved(s, {t.id}) && AttemptsAccounted(s) && Accounted(s.tallies, t, 1)
    requires t.attempt == t.MaxRetries()
    ensures AttemptsAccounted(GiveUpStep(s, t, now))
  {
    hide Conserved;
    IdsBelow(s, {t.id});
  }

  lemma GiveUpAgrees(s: State, t: Task, now: real)
    requires Conserved(s, {t.id}) && StatusesAgree(s)
    ensures StatusesAgree(GiveUpStep(s, t, now))
  {
    hide Conserved;
    IdsBelow(s, {t.id});
  }

  lemma CatchKeeps(s: State, t: Task, now: real)
    requires InvBut(s, {t.id}) && Accounted(s.tallies, t, 1)
    ensures Inv(CatchStep(s, t, now))
  {
    hide Conserved;
    hide AttemptsAccounted;
    hide StatusesAgree;
    hide GiveUpStep;
    hide ScheduleRetryStep;
    if t.attempt < t.MaxRetries() {
      var pending := s.(statuses := Update(s.statuses, t.id, Pending));
      StatusesApart(s, pending, {t.id});
      RetryConserves(pending, t, t.attempt + 1, now);
      RetryAccounts(pending, t, now);
      RetryAgrees(s, t, t.attempt + 1, now);
      RetryTracks(pending, t, t.attempt + 1, now);
    } else {
      GiveUpConserves(s, t, now);
      GiveUpAccounts(s, t, now);
      GiveUpAgrees(s, t, now);
      GiveUpTracks(s, t, now);
    }
  }

  /** Conservation, accounting and shutdown do not look at statuses. */
  lemma StatusesApart(s: State, s': State, loose: set<nat>)
    requires s' == s.(statuses := s'.statuses)
    ensures Conserved(s, loose) ==> Conserved(s', loose)
    ensures AttemptsAccounted(s) ==> AttemptsAccounted(s')
    ensures ShutdownTracks(s) ==> ShutdownTracks(s')
  {
  }

  lemma RetryTracks(s: State, t: Task, next: nat, now: real)
    requires ShutdownTracks(s) && 1 <= next
    ensures ShutdownTracks(ScheduleRetryStep(s, t, next, now))
  {
    SameFlights(s, ScheduleRetryStep(s, t, next, now));
  }

  lemma GiveUpTracks(s: State, t: Task, now: real)
    requires ShutdownTracks(s)
    ensures ShutdownTracks(GiveUpStep(s, t, now))
  {
    SameFlights(s, GiveUpStep(s, t, now));
  }

  // The other steps take a task out of flight, update it while it is in no place, and put it back.

  lemma RemovedFlight(s: State, id: nat)
    requires Inv(s) && IsPicked(s, id)
    ensures InvBut(s.(inFlight := s.inFlight - {id}), {id})
    ensures Accounted(s.tallies, s.inFlight[id].task, 0) && s.inFlight[id].task.id == id
  {
    RemovedConserves(s, id);
    RemovedTracks(s, id);
    hide Conserved;
    hide AttemptsAccounted;
    hide StatusesAgree;
    hide ShutdownTracks;
  }

  lemma RemovedConserves(s: State, id: nat)
    requires Inv(s) && IsPicked(s, id)
    ensures var s' := s.(inFlight := s.inFlight - {id});
            Conserved(s', {id}) && AttemptsAccounted(s') && StatusesAgree(s')
    ensures Accounted(s.tallies, s.inFlight[id].task, 0) && s.inFlight[id].task.id == id
  {
    hide ShutdownTracks;
    assert (s.inFlight - {id}).Keys == s.inFlight.Keys - {id};
  }

  lemma RemovedTracks(s: State, id: nat)
    requires ShutdownTracks(s) && IsPicked(s, id)
    ensures ShutdownTracks(s.(inFlight := s.inFlight - {id}))
  {
    var s' := s.(inFlight := s.inFlight - {id});
    forall a
      ensures a in RunningActions(s') <==> a in RunningActions(s)
    {
      if a in RunningActions(s) {
        var other :| other in s.inFlight && RunsAction(s.inFlight[other], a);
        assert RunsAction(s.inFlight[other], a);
        assert other in s'.inFlight && RunsAction(s'.inFlight[other], a);
      }
    }
    assert RunningActions(s') == RunningActions(s);
  }

  lemma SettledConserves(s: State, id: nat)
    requires Inv(s) && (IsProcessing(s, id) || IsSucceeding(s, id))
    ensures Conserved(Settled(s, id), {id}) && AttemptsAccounted(Settled(s, id)) && StatusesAgree(Settled(s, id))
    ensures Accounted(s.tallies, s.inFlight[id].task, 1) && s.inFlight[id].task.id == id
  {
    hide ShutdownTracks;
    assert Settled(s, id).inFlight.Keys == s.inFlight.Keys - {id};
  }

  lemma SettledTracks(s: State, id: nat)
    requires ShutdownTracks(s) && (IsProcessing(s, id) || IsSucceeding(s, id))
    ensures ShutdownTracks(Settled(s, id))
  {
    var s', action := Settled(s, id), s.inFlight[id].phase.action;
    forall a
      ensures a in RunningActions(s') <==> a in RunningActions(s) - {action}
    {
      if a in RunningActions(s) - {action} {
        var other :| other in s.inFlight && RunsAction(s.inFlight[other], a);
        assert a in RunningActions(s) && a != action;
        assert RunsAction(s.inFlight[other], a);
        assert !s.inFlight[other].phase.Picked?;
        assert other in s'.inFlight && s'.inFlight[other] == s.inFlight[other];
        assert RunsAction(s'.inFlight[other], a);
      }
      if a in RunningActions(s') {
        var other :| other in s'.inFlight && RunsAction(s'.inFlight[other], a);
        assert other in s.inFlight && RunsAction(s.inFlight[other], a);
      }
    }
  }

  lemma SettledKeeps(s: State, id: nat)
    requires Inv(s) && (IsProcessing(s, id) || IsSucceeding(s, id))
    ensures InvBut(Settled(s, id), {id})
    ensures Accounted(s.tallies, s.inFlight[id].task, 1) && s.inFlight[id].task.id == id
  {
    SettledConserves(s, id);
    SettledTracks(s, id);
  }

  lemma LooseStatus(s: State, id: nat, status: Status)
    requires InvBut(s, {id})
    ensures InvBut(s.(statuses := Update(s.statuses, id, status)), {id})
  {
    hide AttemptsAccounted;
    hide ShutdownTracks;
    var s' := s.(statuses := Update(s.statuses, id, status));
    StatusesApart(s, s', {id});
    IdsBelow(s, {id});
  }

  lemma LooseTally(s: State, id: nat, more: Tally)
    requires InvBut(s, {id})
    ensures InvBut(s.(tallies := Tallied(s.tallies, id, more)), {id})
  {
    hide StatusesAgree;
    hide ShutdownTracks;
    var s' := s.(tallies := Tallied(s.tallies, id, more));
    IdsBelow(s, {id});
    TalliesApart(s, s', {id});
  }

  lemma TalliesApart(s: State, s': State, loose: set<nat>)
    requires s' == s.(tallies := s'.tallies)
    ensures Conserved(s, loose) ==> Conserved(s', loose)
    ensures StatusesAgree(s) ==> StatusesAgree(s')
    ensures ShutdownTracks(s) ==> ShutdownTracks(s')
  {
  }

  function FinishStep(s: State, d: Done): State {
    s.(finished := s.finished[d.task.id := d])
  }

  lemma FinishKeeps(s: State, d: Done)
    requires InvBut(s, {d.task.id}) && DoneAccounted(s.tallies, d)
    requires d.task.id in s.statuses ==> DoneAgrees(d, s.statuses[d.task.id])
    ensures Inv(FinishStep(s, d))
  {
    hide ShutdownTracks;
    IdsBelow(s, {d.task.id});
    FinishTracks(s, d);
  }

  lemma FinishTracks(s: State, d: Done)
    requires ShutdownTracks(s)
    ensures ShutdownTracks(FinishStep(s, d))
  {
    SameFlights(s, FinishStep(s, d));
  }

  /** Back in flight with an action of its own. */
  function FlyStep(s: State, f: Flight): State
    requires !f.phase.Picked?
  {
    s.(inFlight := s.inFlight[f.task.id := f], tracked := s.tracked + {f.phase.action},
       nextAction := if s.nextAction <= f.phase.action then f.phase.action + 1 else s.nextAction)
  }

  lemma FlyKeeps(s: State, f: Flight)
    requires InvBut(s, {f.task.id}) && Accounted(s.tallies, f.task, 1) && !f.phase.Picked?
    requires f.task.id in s.statuses ==> FlightAgrees(f, s.statuses[f.task.id])
    requires f.phase.action !in s.tracked && s.drained == 0
    requires forall w | 0 <= w < |s.waits| :: f.phase.action in s.waits[w]
    ensures Inv(FlyStep(s, f))
  {
    hide ShutdownTracks;
    IdsBelow(s, {f.task.id});
    FlyTracks(s, f);
  }

  lemma FlyTracks(s: State, f: Flight)
    requires ShutdownTracks(s) && !f.phase.Picked? && f.task.id !in s.inFlight
    requires f.phase.action !in s.tracked && s.drained == 0
    requires forall w | 0 <= w < |s.waits| :: f.phase.action in s.waits[w]
    ensures ShutdownTracks(FlyStep(s, f))
  {
    var s' := FlyStep(s, f);
    forall a
      ensures a in RunningActions(s') <==> a in RunningActions(s) + {f.phase.action}
    {
      if a in RunningActions(s) {
        var other :| other in s.inFlight && RunsAction(s.inFlight[other], a);
        assert other in s'.inFlight && RunsAction(s'.inFlight[other], a);
      }
      if a in RunningActions(s') {
        var other :| other in s'.inFlight && RunsAction(s'.inFlight[other], a);
        assert other != f.task.id ==> other in s.inFlight && RunsAction(s.inFlight[other], a);
      }
      assert f.task.id in s'.inFlight && s'.inFlight[f.task.id] == f;
    }
  }

  lemma StartKeeps(s: State, id: nat, now: real)
    requires Inv(s) && IsPicked(s, id)
    ensures Inv(StartStep(s, id, now))
  {
    hide InvBut;
    hide CatchStep;
    var t := s.inFlight[id].task;
    var loose := s.(inFlight := s.inFlight - {id});
    RemovedFlight(s, id);
    if t.kind !in s.processors {
      var failed := loose.(statuses := Update(s.statuses, id, Failed(now)));
      LooseStatus(loose, id, Failed(now));
      FinishKeeps(failed, Done(t, NoProcessor));
    } else {
      var running := loose.(statuses := Update(s.statuses, id, Running));
      LooseStatus(loose, id, Running);
      if s.shuttingDown {
        LooseTally(running, id, Tally(0, 1, 0, 0));
        CatchKeeps(running.(tallies := Tallied(s.tallies, id, Tally(0, 1, 0, 0))), t, now);
      } else {
        var called := running.(tallies := Tallied(s.tallies, id, Tally(1, 0, 0, 0)));
        LooseTally(running, id, Tally(1, 0, 0, 0));
        FreshAction(s);
        FlyKeeps(called, Flight(t, Processing(s.nextAction)));
        assert loose.inFlight[id := Flight(t, Processing(s.nextAction))]
            == s.inFlight[id := Flight(t, Processing(s.nextAction))];
      }
    }
  }

  lemma FreshAction(s: State)
    requires Inv(s)
    ensures s.nextAction !in s.tracked
    ensures !s.shuttingDown ==> s.drained == 0 && s.waits == []
  {
  }

  lemma ResolveKeeps(s: State, id: nat, now: real)
    requires Inv(s) && IsProcessing(s, id)
    ensures Inv(ResolveStep(s, id, now))
  {
    hide InvBut;
    var f := s.inFlight[id];
    var settled := Settled(s, id);
    var completed := settled.(statuses := Update(s.statuses, id, Completed(now)));
    SettledKeeps(s, id);
    LooseStatus(settled, id, Completed(now));
    if f.task.callbacks.onSuccess {
      var g := Flight(f.task, Succeeding(f.phase.action));
      ActionTracked(s, id);
      FlyKeeps(completed, g);
      assert settled.inFlight[id := g] == s.inFlight[id := g];
      assert settled.tracked + {f.phase.action} == s.tracked;
    } else {
      FinishKeeps(completed, Done(f.task, Succeeded));
    }
  }

  lemma ActionTracked(s: State, id: nat)
    requires Inv(s) && (IsProcessing(s, id) || IsSucceeding(s, id))
    ensures var a := s.inFlight[id].phase.action;
            a in s.tracked && a < s.nextAction && s.drained == 0 && forall w | 0 <= w < |s.waits| :: a in s.waits[w]
  {
    assert s.inFlight[id].phase.action in RunningActions(s);
  }

  lemma SuccessDoneKeeps(s: State, id: nat)
    requires Inv(s) && IsSucceeding(s, id)
    ensures Inv(SuccessDoneStep(s, id))
  {
    SettledKeeps(s, id);
    assert id in s.statuses ==> s.statuses[id].Completed?;
    hide InvBut;
    FinishKeeps(Settled(s, id), Done(s.inFlight[id].task, Succeeded));
  }

  lemma RejectKeeps(s: State, id: nat, now: real)
    requires Inv(s) && (IsProcessing(s, id) || IsSucceeding(s, id))
    ensures Inv(RejectStep(s, id, now))
  {
    hide InvBut;
    hide CatchStep;
    SettledKeeps(s, id);
    CatchKeeps(Settled(s, id), s.inFlight[id].task, now);
  }

  lemma CleanupKeeps(s: State, now: real)
    requires Inv(s)
    ensures Inv(CleanupStep(s, now))
  {
    StatusesApart(s, CleanupStep(s, now), {});
    hide Conserved;
    hide AttemptsAccounted;
    hide ShutdownTracks;
  }

  lemma ShutdownKeeps(s: State, wait: nat)
    requires Inv(s)
    ensures Inv(ShutdownBeginStep(s))
    ensures CanDrain(s, wait) ==> Inv(ShutdownResolveStep(s, wait))
  {
    hide Conserved;
    hide AttemptsAccounted;
    hide StatusesAgree;
    SameFlights(s, ShutdownBeginStep(s));
    if CanDrain(s, wait) {
      SameFlights(s, ShutdownResolveStep(s, wait));
      assert RunningActions(s) == {};
    }
    ShutdownApart(s, ShutdownBeginStep(s));
    if CanDrain(s, wait) {
      ShutdownApart(s, ShutdownResolveStep(s, wait));
    }
  }

  lemma ShutdownApart(s: State, s': State)
    requires s' == s.(tracked := s'.tracked, shuttingDown := s'.shuttingDown, waits := s'.waits, drained := s'.drained)
    ensures Conserved(s, {}) ==> Conserved(s', {})
    ensures AttemptsAccounted(s) ==> AttemptsAccounted(s')
    ensures StatusesAgree(s) ==> StatusesAgree(s')
  {
  }

  // ---- Picking the due tasks ----

  lemma {:induction false} SelectMembers(tasks: seq<Task>, now: real, due: bool)
    ensures forall t :: t in Select(tasks, now, due) <==> t in tasks && (t.scheduledAt <= now) == due
  {
    if tasks != [] {
      SelectMembers(tasks[1..], now, due);
    }
  }

  lemma {:induction false} SelectDistinct(tasks: seq<Task>, now: real, due: bool)
    requires NoDuplicates(tasks)
    ensures NoDuplicates(Select(tasks, now, due))
  {
    if tasks != [] {
      var rest := Select(tasks[1..], now, due);
      SelectDistinct(tasks[1..], now, due);
      SelectMembers(tasks[1..], now, due);
      forall i | 0 <= i < |rest|
        ensures rest[i].id != tasks[0].id
      {
        assert rest[i] in tasks[1..];
      }
    }
  }

  /** Picking splits the waiting ids in two. */
  lemma SelectSplitsIds(tasks: seq<Task>, now: real)
    requires NoDuplicates(tasks)
    ensures WaitingIds(Select(tasks, now, true)) + WaitingIds(Select(tasks, now, false)) == WaitingIds(tasks)
    ensures WaitingIds(Select(tasks, now, true)) !! WaitingIds(Select(tasks, now, false))
  {
    SelectMembers(tasks, now, true);
    SelectMembers(tasks, now, false);
    var ready, later := Select(tasks, now, true), Select(tasks, now, false);
    forall id | id in WaitingIds(tasks)
      ensures id in WaitingIds(ready) + WaitingIds(later)
    {
      var t :| t in tasks && t.id == id;
      assert t in ready || t in later;
    }
    forall t, u | t in ready && u in later
      ensures t.id != u.id
    {
      assert t in tasks && u in tasks;
    }
  }

  lemma {:induction false} PickAllIs(inFlight: map<nat, Flight>, ready: seq<Task>)
    requires NoDuplicates(ready) && WaitingIds(ready) !! inFlight.Keys
    ensures PickAll(inFlight, ready).Keys == inFlight.Keys + WaitingIds(ready)
    ensures forall id | id in inFlight :: PickAll(inFlight, ready)[id] == inFlight[id]
    ensures forall i | 0 <= i < |ready| :: PickAll(inFlight, ready)[ready[i].id] == Flight(ready[i], Picked)
    decreases |ready|
  {
    if ready != [] {
      var t, rest := ready[0], ready[1..];
      var more := inFlight[t.id := Flight(t, Picked)];
      assert ready == [t] + rest;
      forall id
        ensures id in WaitingIds(ready) <==> id in WaitingIds(rest) + {t.id}
      {
        assert t in ready;
        assert forall u :: u in rest ==> u in ready;
      }
      assert forall i | 0 <= i < |rest| :: rest[i] == ready[i + 1];
      assert t.id !in WaitingIds(rest);
      PickAllIs(more, rest);
      assert PickAll(more, rest)[t.id] == more[t.id];
      forall i | 0 <= i < |ready|
        ensures PickAll(inFlight, ready)[ready[i].id] == Flight(ready[i], Picked)
      {
        if 0 < i {
          assert ready[i] == rest[i - 1];
        }
      }
    }
  }

  /** Every flight after a pick is an old one or a due task waiting for its turn. */
  lemma PickedFlights(s: State, now: real, id: nat)
    requires Conserved(s, {}) && id in PickStep(s, now).inFlight
    ensures if id in s.inFlight then PickStep(s, now).inFlight[id] == s.inFlight[id]
            else exists t :: t in s.waiting && t.id == id && PickStep(s, now).inFlight[id] == Flight(t, Picked)
  {
    var ready := Select(s.waiting, now, true);
    SelectDistinct(s.waiting, now, true);
    SelectSplitsIds(s.waiting, now);
    PickAllIs(s.inFlight, ready);
    if id !in s.inFlight {
      var t :| t in ready && t.id == id;
      SelectMembers(s.waiting, now, true);
      var i :| 0 <= i < |ready| && ready[i] == t;
    }
  }

  lemma PickConserves(s: State, now: real)
    requires Conserved(s, {})
    ensures Conserved(PickStep(s, now), {})
  {
    var s' := PickStep(s, now);
    SelectDistinct(s.waiting, now, true);
    SelectDistinct(s.waiting, now, false);
    SelectSplitsIds(s.waiting, now);
    PickAllIs(s.inFlight, Select(s.waiting, now, true));
    forall id | id in s'.inFlight
      ensures s'.inFlight[id].task.id == id
    {
      PickedFlights(s, now, id);
    }
  }

  lemma PickAccounts(s: State, now: real)
    requires Conserved(s, {}) && AttemptsAccounted(s) && StatusesAgree(s)
    ensures AttemptsAccounted(PickStep(s, now)) && StatusesAgree(PickStep(s, now))
  {
    var s' := PickStep(s, now);
    forall i | 0 <= i < |s'.waiting|
      ensures s'.waiting[i] in s.waiting
    {
      SelectMembers(s.waiting, now, false);
    }
    forall id | id in s'.inFlight
      ensures Accounted(s.tallies, s'.inFlight[id].task, UnderWay(s'.inFlight[id]))
      ensures id in s.statuses ==> FlightAgrees(s'.inFlight[id], s.statuses[id])
    {
      PickedFlights(s, now, id);
    }
  }

  lemma PickRunsNothing(s: State, now: real)
    requires Conserved(s, {})
    ensures forall id | id in s.inFlight ::
            id in PickStep(s, now).inFlight && PickStep(s, now).inFlight[id] == s.inFlight[id]
    ensures forall id | id in PickStep(s, now).inFlight && !PickStep(s, now).inFlight[id].phase.Picked? ::
            id in s.inFlight
  {
    SelectDistinct(s.waiting, now, true);
    SelectSplitsIds(s.waiting, now);
    PickAllIs(s.inFlight, Select(s.waiting, now, true));
    forall id | id in PickStep(s, now).inFlight && !PickStep(s, now).inFlight[id].phase.Picked?
      ensures id in s.inFlight
    {
      PickedFlights(s, now, id);
    }
  }

  lemma SameRunning(s: State, s': State)
    requires forall id | id in s.inFlight :: id in s'.inFlight && s'.inFlight[id] == s.inFlight[id]
    requires forall id | id in s'.inFlight && !s'.inFlight[id].phase.Picked? :: id in s.inFlight
    ensures RunningActions(s') == RunningActions(s)
  {
    forall a
      ensures a in RunningActions(s') <==> a in RunningActions(s)
    {
      if a in RunningActions(s) {
        var id :| id in s.inFlight && RunsAction(s.inFlight[id], a);
        assert id in s'.inFlight && RunsAction(s'.inFlight[id], a);
      }
      if a in RunningActions(s') {
        var id :| id in s'.inFlight && RunsAction(s'.inFlight[id], a);
        assert RunsAction(s'.inFlight[id], a);
        assert id in s.inFlight && RunsAction(s.inFlight[id], a);
      }
    }
  }

  lemma PickTracks(s: State, now: real)
    requires Conserved(s, {}) && ShutdownTracks(s)
    ensures ShutdownTracks(PickStep(s, now))
  {
    PickRunsNothing(s, now);
    SameRunning(s, PickStep(s, now));
    hide Conserved;
    hide PickAll;
    hide Select;
    hide RunningActions;
  }

  // ---- Every run ----

  lemma NextKeeps(s: State, e: Event)
    requires Inv(s)
    ensures Inv(Next(s, e))
  {
    hide InvBut;
    match e
    case Register(kind) => RegisterKeeps(s, kind);
    case Enqueue(_, _, _, _, _) => EnqueueKeeps(s, e);
    case Pick(now) => PickKeeps(s, now);
    case Start(id, now) => if IsPicked(s, id) { StartKeeps(s, id, now); }
    case Resolve(id, now) => if IsProcessing(s, id) { ResolveKeeps(s, id, now); }
    case Reject(id, now) => if IsProcessing(s, id) { RejectKeeps(s, id, now); }
    case SuccessDone(id) => if IsSucceeding(s, id) { SuccessDoneKeeps(s, id); }
    case SuccessRejected(id, now) => if IsSucceeding(s, id) { RejectKeeps(s, id, now); }
    case Cleanup(now) => CleanupKeeps(s, now);
    case ShutdownBegin => ShutdownKeeps(s, 0);
    case ShutdownResolve(wait) => if CanDrain(s, wait) { ShutdownKeeps(s, wait); }
  }

  lemma RegisterKeeps(s: State, kind: string)
    requires Inv(s)
    ensures Inv(s.(processors := s.processors + {kind}))
  {
    SameFlights(s, s.(processors := s.processors + {kind}));
  }

  lemma EnqueueKeeps(s: State, e: Event)
    requires Inv(s) && e.Enqueue?
    ensures Inv(Next(s, e))
  {
    EnqueueConserves(s, e);
    EnqueueAccounts(s, e);
    EnqueueAgrees(s, e);
    EnqueueTracks(s, e);
  }

  lemma EnqueueTracks(s: State, e: Event)
    requires ShutdownTracks(s) && e.Enqueue?
    ensures ShutdownTracks(Next(s, e))
  {
    SameFlights(s, Next(s, e));
  }

  lemma PickKeeps(s: State, now: real)
    requires Inv(s)
    ensures Inv(PickStep(s, now))
  {
    PickConserves(s, now);
    PickAccounts(s, now);
    PickTracks(s, now);
  }

  /** Whatever the order of its steps, the queue keeps all four invariants. */
  lemma {:induction false} RunKeeps(s: State, events: seq<Event>)
    requires Inv(s)
    ensures Inv(Run(s, events))
    decreases |events|
  {
    if events != [] {
      NextKeeps(s, events[0]);
      RunKeeps(Next(s, events[0]), events[1..]);
    }
  }

  function After(events: seq<Event>): State {
    Run(INITIAL, events)
  }

  lemma AfterInv(events: seq<Event>)
    ensures Inv(After(events))
  {
    InitialInv();
    RunKeeps(INITIAL, events);
  }

  /**
   After any run, each task ever enqueued is waiting at one index, or in flight, or finished,
   and only one of these.
   */
  lemma EachTaskInOnePlace(events: seq<Event>, id: nat)
    requires id < After(events).nextId
    ensures var s := After(events);
            && ((exists i :: 0 <= i < |s.waiting| && s.waiting[i].id == id) || id in s.inFlight || id in s.finished)
            && !(id in s.inFlight && id in s.finished)
            && (forall i | 0 <= i < |s.waiting| && s.waiting[i].id == id ::
                  id !in s.inFlight && id !in s.finished &&
                  forall j | 0 <= j < |s.waiting| && s.waiting[j].id == id :: j == i)
  {
    var s := After(events);
    AfterInv(events);
    assert id in Ids(s.nextId);
    if id in WaitingIds(s.waiting) {
      var t :| t in s.waiting && t.id == id;
    }
    IdsBelow(s, {});
  }

  /** The queue holds task t in some place. */
  predicate Holds(s: State, t: Task) {
    || t in s.waiting
    || (t.id in s.inFlight && s.inFlight[t.id].task == t)
    || (t.id in s.finished && s.finished[t.id].task == t)
  }

  /**
   After any run, a task's processor has been called at most maxRetries + 1 times, and its
   retry counter is the number of failed attempts that led to a retry.
   */
  lemma AttemptsAreBounded(events: seq<Event>, t: Task)
    requires Holds(After(events), t)
    ensures var s := After(events);
            && t.id in s.tallies
            && s.tallies[t.id].calls <= t.MaxRetries() + 1
            && s.tallies[t.id].retries == t.attempt <= t.MaxRetries()
  {
    AfterInv(events);
  }

  /** onError is called, once, exactly for the tasks that ended by giving up and that have the callback. */
  lemma OnErrorExactlyOnce(events: seq<Event>, t: Task)
    requires Holds(After(events), t)
    ensures var s := After(events);
            var gaveUp := t.id in s.finished && s.finished[t.id].outcome.GaveUp?;
            t.id in s.tallies && s.tallies[t.id].errors == if gaveUp && t.callbacks.onError then 1 else 0
  {
    AfterInv(events);
    IdsBelow(After(events), {});
  }

  /** The place of a task whose status is terminal. */
  lemma TerminalPlace(s: State, id: nat)
    requires Inv(s) && id in s.statuses && s.statuses[id].Terminal()
    ensures id in s.finished || IsSucceeding(s, id)
    ensures id < s.nextId
  {
    assert id in Ids(s.nextId);
    IdsBelow(s, {});
  }

  lemma CatchWritesStatus(s: State, t: Task, now: real)
    ensures CatchStep(s, t, now).statuses ==
            Update(s.statuses, t.id, if t.attempt < t.MaxRetries() then Pending else Failed(now))
  {
    hide CalculateBackoffDelay;
  }

  /** The task whose place a step looks at, if any. */
  function Subject(e: Event): Option<nat> {
    match e
    case Start(id, _) => Some(id)
    case Resolve(id, _) => Some(id)
    case Reject(id, _) => Some(id)
    case SuccessDone(id) => Some(id)
    case SuccessRejected(id, _) => Some(id)
    case _ => None
  }

  lemma StartWritesStatus(s: State, x: nat, now: real, id: nat)
    requires IsPicked(s, x) && s.inFlight[x].task.id == x && id in s.statuses && id != x
    ensures id in StartStep(s, x, now).statuses && StartStep(s, x, now).statuses[id] == s.statuses[id]
  {
    hide CatchStep;
    CatchWritesStatus(
      s.(inFlight := s.inFlight - {x}, statuses := Update(s.statuses, x, Running),
         tallies := Tallied(s.tallies, x, Tally(0, 1, 0, 0))), s.inFlight[x].task, now);
  }

  lemma RejectWritesStatus(s: State, x: nat, now: real, id: nat)
    requires IsProcessing(s, x) || IsSucceeding(s, x)
    requires s.inFlight[x].task.id == x && id in s.statuses && id != x
    ensures id in RejectStep(s, x, now).statuses && RejectStep(s, x, now).statuses[id] == s.statuses[id]
  {
    hide CatchStep;
    CatchWritesStatus(Settled(s, x), s.inFlight[x].task, now);
  }

  lemma QuietStepsKeepStatus(s: State, e: Event, id: nat)
    requires id in s.statuses && id < s.nextId && Subject(e) != Some(id)
    requires !e.Cleanup? && !e.Start? && !e.Reject? && !e.SuccessRejected?
    ensures id in Next(s, e).statuses && Next(s, e).statuses[id] == s.statuses[id]
  {
    hide Select;
    hide PickAll;
  }

  /** Apart from cleanup, a step writes no status but its subject's and a new task's. */
  lemma OtherStatusesKept(s: State, e: Event, id: nat)
    requires Inv(s) && id in s.statuses && id < s.nextId && !e.Cleanup? && Subject(e) != Some(id)
    ensures id in Next(s, e).statuses && Next(s, e).statuses[id] == s.statuses[id]
  {
    assert forall x | x in s.inFlight :: s.inFlight[x].task.id == x;
    hide *;
    match e
    case Start(x, now) => StartOtherStatus(s, x, now, id);
    case Reject(x, now) => RejectOtherStatus(s, e, x, now, id);
    case SuccessRejected(x, now) => RejectOtherStatus(s, e, x, now, id);
    case _ => QuietStepsKeepStatus(s, e, id);
  }

  lemma StartOtherStatus(s: State, x: nat, now: real, id: nat)
    requires forall x | x in s.inFlight :: s.inFlight[x].task.id == x
    requires id in s.statuses && Subject(Start(x, now)) != Some(id)
    ensures id in Next(s, Start(x, now)).statuses && Next(s, Start(x, now)).statuses[id] == s.statuses[id]
  {
    hide StartStep;
    if IsPicked(s, x) {
      StartWritesStatus(s, x, now, id);
    }
  }

  lemma RejectOtherStatus(s: State, e: Event, x: nat, now: real, id: nat)
    requires e == Reject(x, now) || e == SuccessRejected(x, now)
    requires forall x | x in s.inFlight :: s.inFlight[x].task.id == x
    requires id in s.statuses && Subject(e) != Some(id)
    ensures id in Next(s, e).statuses && Next(s, e).statuses[id] == s.statuses[id]
  {
    hide RejectStep;
    if IsProcessing(s, x) || IsSucceeding(s, x) {
      RejectWritesStatus(s, x, now, id);
    }
  }

  lemma PickLeaves(s: State, now: real)
    ensures PickStep(s, now).statuses == s.statuses && PickStep(s, now).tallies == s.tallies
    ensures PickStep(s, now).nextId == s.nextId && PickStep(s, now).shuttingDown == s.shuttingDown
    ensures PickStep(s, now).drained == s.drained
  {
  }

  /**
   A step changes a terminal status, and does not merely drop it, exactly when the task's own
   onSuccess callback rejects after `completed` was written; and only cleanup drops one.
   */
  lemma TerminalStatusChangesIffCallbackRejects(s: State, e: Event, id: nat)
    requires Inv(s) && id in s.statuses && s.statuses[id].Terminal()
    ensures (id in Next(s, e).statuses && Next(s, e).statuses[id] != s.statuses[id]) <==>
            (e.SuccessRejected? && e.id == id && IsSucceeding(s, id))
    ensures id !in Next(s, e).statuses <==> e.Cleanup? && Expired(s.statuses[id], e.now)
  {
    TerminalPlace(s, id);
    if e.Cleanup? {
    } else if Subject(e) != Some(id) {
      OtherStatusesKept(s, e, id);
    } else {
      assert IsSucceeding(s, id) ==> s.statuses[id].Completed? && s.inFlight[id].task.id == id;
      assert id in s.finished ==> id !in s.inFlight;
      hide InvBut;
      hide CatchStep;
      if e.SuccessRejected? && IsSucceeding(s, id) {
        CatchWritesStatus(Settled(s, id), s.inFlight[id].task, e.now);
      }
    }
  }

  /** The tasks that are waiting, picked or in their processor. */
  function Live(s: State): set<nat> {
    WaitingIds(s.waiting) + set id | id in s.inFlight && !s.inFlight[id].phase.Succeeding?
  }

  /** The one step that can leave a waiting task without a status. */
  predicate RetriesAfterCleanup(s: State, e: Event) {
    && e.SuccessRejected? && IsSucceeding(s, e.id) && e.id !in s.statuses
    && s.inFlight[e.id].task.attempt < s.inFlight[e.id].task.MaxRetries()
  }

  lemma CatchLives(s: State, t: Task, now: real)
    ensures Live(CatchStep(s, t, now)) ==
            if t.attempt < t.MaxRetries() then Live(s) + {t.id} else Live(s)
    ensures CatchStep(s, t, now).statuses.Keys == s.statuses.Keys
  {
    hide CalculateBackoffDelay;
    CatchWritesStatus(s, t, now);
    if t.attempt < t.MaxRetries() {
      WaitingGrows(s.waiting, CatchStep(s, t, now).waiting[|s.waiting|]);
    }
  }

  lemma StartLives(s: State, x: nat, now: real)
    requires IsPicked(s, x) && s.inFlight[x].task.id == x
    ensures Live(StartStep(s, x, now)) <= Live(s)
    ensures StartStep(s, x, now).statuses.Keys == s.statuses.Keys
  {
    hide CatchStep;
    var refused := s.(inFlight := s.inFlight - {x}, statuses := Update(s.statuses, x, Running),
                      tallies := Tallied(s.tallies, x, Tally(0, 1, 0, 0)));
    CatchLives(refused, s.inFlight[x].task, now);
    assert x in Live(s) && Live(refused) <= Live(s);
  }

  lemma RejectLives(s: State, x: nat, now: real)
    requires (IsProcessing(s, x) || IsSucceeding(s, x)) && s.inFlight[x].task.id == x
    requires x !in WaitingIds(s.waiting)
    ensures var t := s.inFlight[x].task;
            Live(RejectStep(s, x, now)) == Live(s) - {x} + if t.attempt < t.MaxRetries() then {x} else {}
    ensures RejectStep(s, x, now).statuses.Keys == s.statuses.Keys
  {
    hide CatchStep;
    CatchLives(Settled(s, x), s.inFlight[x].task, now);
    assert Live(Settled(s, x)) == Live(s) - {x};
  }

  lemma PickLives(s: State, now: real)
    requires Conserved(s, {})
    ensures Live(PickStep(s, now)) <= Live(s)
  {
    SelectMembers(s.waiting, now, false);
    forall id | id in PickStep(s, now).inFlight && !PickStep(s, now).inFlight[id].phase.Succeeding?
      ensures id in Live(s)
    {
      PickedFlights(s, now, id);
    }
  }

  /** Live tasks' statuses are not terminal, so cleanup keeps them. */
  lemma CleanupSparesLive(s: State, now: real, id: nat)
    requires Inv(s) && id in Live(s) && id in s.statuses
    ensures id in CleanupStep(s, now).statuses
  {
    if Expired(s.statuses[id], now) {
      TerminalPlace(s, id);
      IdsBelow(s, {});
    }
  }

  /** The id that a step adds to the live ones, if any. */
  function Enlivened(s: State, e: Event): set<nat> {
    if e.Enqueue? then {s.nextId}
    else if e.SuccessRejected? && IsSucceeding(s, e.id) &&
      s.inFlight[e.id].task.attempt < s.inFlight[e.id].task.MaxRetries() then {e.id}
    else {}
  }

  lemma QuietLives(s: State, e: Event)
    requires !e.Start? && !e.Reject? && !e.SuccessRejected? && !e.Pick? && !e.Cleanup?
    ensures Live(Next(s, e)) <= Live(s) + Enlivened(s, e)
    ensures Next(s, e).statuses.Keys == s.statuses.Keys + Enlivened(s, e)
  {
    if e.Enqueue? {
      EnqueueLives(s, e);
    }
  }

  lemma EnqueueLives(s: State, e: Event)
    requires e.Enqueue?
    ensures Live(Next(s, e)) <= Live(s) + Enlivened(s, e)
    ensures Next(s, e).statuses.Keys == s.statuses.Keys + Enlivened(s, e)
  {
    WaitingGrows(s.waiting, Next(s, e).waiting[|s.waiting|]);
  }

  lemma RejectedLives(s: State, e: Event, x: nat, now: real)
    requires Inv(s) && (e == Reject(x, now) || e == SuccessRejected(x, now))
    ensures Live(Next(s, e)) <= Live(s) + Enlivened(s, e) <= Live(Next(s, e)) + {x}
    ensures Enlivened(s, e) <= Live(Next(s, e))
    ensures Next(s, e).statuses.Keys == s.statuses.Keys
  {
    if IsProcessing(s, x) || IsSucceeding(s, x) {
      IdsBelow(s, {});
      hide InvBut;
      hide RejectStep;
      RejectLives(s, x, now);
      assert IsProcessing(s, x) ==> x in Live(s);
    }
  }

  lemma NextLives(s: State, e: Event)
    requires Inv(s) && !e.Cleanup?
    ensures Live(Next(s, e)) <= Live(s) + Enlivened(s, e)
    ensures Next(s, e).statuses.Keys == s.statuses.Keys + if e.Enqueue? then {s.nextId} else {}
  {
    assert forall x | x in s.inFlight :: s.inFlight[x].task.id == x;
    hide InvBut;
    hide Live;
    hide StartStep;
    hide RejectStep;
    match e
    case Pick(now) => PickLives(s, now); PickLeaves(s, now);
    case Start(x, now) => if IsPicked(s, x) { StartLives(s, x, now); }
    case Reject(x, now) => RejectedLives(s, e, x, now);
    case SuccessRejected(x, now) => RejectedLives(s, e, x, now);
    case _ => QuietLives(s, e);
  }

  /**
   Every live task keeps a status to report, through every step but one: onSuccess
   rejecting, with retries left, after cleanup has already dropped the
   `completed` status.
   */
  lemma LiveStatusesKeptIff(s: State, e: Event)
    requires Inv(s) && Live(s) <= s.statuses.Keys
    ensures Live(Next(s, e)) <= Next(s, e).statuses.Keys <==> !RetriesAfterCleanup(s, e)
  {
    if e.Cleanup? {
      forall id | id in Live(s)
        ensures id in CleanupStep(s, e.now).statuses
      {
        CleanupSparesLive(s, e.now, id);
      }
    } else {
      hide InvBut;
      hide Live;
      hide StartStep;
      hide RejectStep;
      NextLives(s, e);
      if e.SuccessRejected? {
        RejectedLives(s, e, e.id, e.now);
      }
    }
  }

  /** Before and after every step of the run, each live task has a status to report. */
  ghost predicate LiveStatusesThroughout(s: State, events: seq<Event>)
    decreases |events|
  {
    Live(s) <= s.statuses.Keys && (events != [] ==> LiveStatusesThroughout(Next(s, events[0]), events[1..]))
  }

  predicate SomeStepRetriesAfterCleanup(s: State, events: seq<Event>)
    decreases |events|
  {
    events != []
    && (RetriesAfterCleanup(s, events[0]) || SomeStepRetriesAfterCleanup(Next(s, events[0]), events[1..]))
  }

  lemma {:induction false} LiveStatusesOverRun(s: State, events: seq<Event>)
    requires Inv(s) && Live(s) <= s.statuses.Keys
    ensures LiveStatusesThroughout(s, events) <==> !SomeStepRetriesAfterCleanup(s, events)
    decreases |events|
  {
    hide InvBut;
    hide Live;
    hide RetriesAfterCleanup;
    hide Next;
    if events != [] {
      NextKeeps(s, events[0]);
      LiveStatusesKeptIff(s, events[0]);
      if !RetriesAfterCleanup(s, events[0]) {
        LiveStatusesOverRun(Next(s, events[0]), events[1..]);
      }
    }
  }

  /** Over every run from the start, live tasks keep their statuses exactly when no step is that one. */
  lemma LiveStatusesKeptOverRunsIff(events: seq<Event>)
    ensures LiveStatusesThroughout(INITIAL, events) <==> !SomeStepRetriesAfterCleanup(INITIAL, events)
  {
    InitialInv();
    LiveStatusesOverRun(INITIAL, events);
  }

  /** One task with one retry and an onSuccess callback, suspended in that callback since time 0. */
  function SuspendedInCallback(status: map<nat, Status>): State {
    var t := Task(0, "t", 0, Callbacks(true, false), Some(RetryRequest(1, None, None, None).Merged()), 0, 0.0);
    INITIAL.(processors := {"t"}, inFlight := map[0 := Flight(t, Succeeding(0))], statuses := status,
             tallies := map[0 := Tally(1, 0, 0, 0)], nextId := 1, tracked := {0}, nextAction := 1)
  }

  lemma CallbackIsReached()
    ensures After([Register("t"), Enqueue("t", 0, Callbacks(true, false), Some(RetryRequest(1, None, None, None)), 0.0),
                   Pick(0.0), Start(0, 0.0), Resolve(0, 0.0)])
         == SuspendedInCallback(map[0 := Completed(0.0)])
  {
    var e := [Register("t"), Enqueue("t", 0, Callbacks(true, false), Some(RetryRequest(1, None, None, None)), 0.0),
              Pick(0.0), Start(0, 0.0), Resolve(0, 0.0)];
    var t := Task(0, "t", 0, Callbacks(true, false), Some(RetryRequest(1, None, None, None).Merged()), 0, 0.0);
    var s1 := INITIAL.(processors := {"t"});
    var s2 := s1.(waiting := [t], statuses := map[0 := Pending], tallies := map[0 := Tally(0, 0, 0, 0)], nextId := 1);
    var s3 := s2.(waiting := [], inFlight := map[0 := Flight(t, Picked)]);
    var s4 := s3.(inFlight := map[0 := Flight(t, Processing(0))], statuses := map[0 := Running],
                  tallies := map[0 := Tally(1, 0, 0, 0)], tracked := {0}, nextAction := 1);
    assert Next(INITIAL, e[0]) == s1;
    assert Next(s1, e[1]) == s2;
    assert Next(s2, e[2]) == s3;
    assert Next(s3, e[3]) == s4;
    assert Next(s4, e[4]) == SuspendedInCallback(map[0 := Completed(0.0)]);
    RunUnfolds(INITIAL, e);
    RunUnfolds(s1, e[1..]);
    RunUnfolds(s2, e[2..]);
    RunUnfolds(s3, e[3..]);
    RunUnfolds(s4, e[4..]);
  }

  /** Two hours later cleanup has dropped the status, and the callback's rejection retries the task without one. */
  lemma StatusLostAfterCleanup()
    ensures var reached := SuspendedInCallback(map[0 := Completed(0.0)]);
            var s := Next(Next(reached, Cleanup(7200000.0)), SuccessRejected(0, 7200000.0));
            0 in WaitingIds(s.waiting) && 0 !in s.statuses
  {
    var reached := SuspendedInCallback(map[0 := Completed(0.0)]);
    assert Next(reached, Cleanup(7200000.0)) == SuspendedInCallback(map[]);
    var s := Next(SuspendedInCallback(map[]), SuccessRejected(0, 7200000.0));
    assert s.waiting[0].id == 0;
  }

  lemma RunUnfolds(s: State, events: seq<Event>)
    requires events != []
    ensures Run(s, events) == Run(Next(s, events[0]), events[1..])
  {
  }

  // ---- Shutdown ----

  /** From the moment shutdown begins, no step calls a processor or starts an action. */
  lemma NoCallsOnceShuttingDown(s: State, e: Event, id: nat)
    requires Inv(s) && s.shuttingDown && id in s.tallies && id < s.nextId
    ensures Next(s, e).shuttingDown && s.nextId <= Next(s, e).nextId
    ensures id in Next(s, e).tallies && Next(s, e).tallies[id].calls == s.tallies[id].calls
  {
    StepCalls(s, e, id);
    hide InvBut;
    ShutdownLasts(s, e);
  }

  lemma ShutdownLasts(s: State, e: Event)
    requires s.shuttingDown
    ensures Next(s, e).shuttingDown && s.nextId <= Next(s, e).nextId
  {
    hide CalculateBackoffDelay;
    hide Select;
    hide PickAll;
    hide Update;
    hide Tallied;
  }

  lemma {:induction false} CallsFrozen(s: State, events: seq<Event>, id: nat)
    requires Inv(s) && s.shuttingDown && id in s.tallies && id < s.nextId
    ensures Run(s, events).shuttingDown && id in Run(s, events).tallies
    ensures Run(s, events).tallies[id].calls == s.tallies[id].calls
    decreases |events|
  {
    hide InvBut;
    if events != [] {
      NextKeeps(s, events[0]);
      NoCallsOnceShuttingDown(s, events[0], id);
      CallsFrozen(Next(s, events[0]), events[1..], id);
    }
  }

  lemma DrainedGrows(s: State, e: Event)
    ensures s.drained <= Next(s, e).drained
  {
    hide CalculateBackoffDelay;
    hide Select;
    hide PickAll;
    hide Update;
    hide Tallied;
  }

  lemma {:induction false} DrainedNeverFalls(s: State, events: seq<Event>)
    ensures s.drained <= Run(s, events).drained
    decreases |events|
  {
    hide Next;
    if events != [] {
      DrainedGrows(s, events[0]);
      DrainedNeverFalls(Next(s, events[0]), events[1..]);
    }
  }

  /**
   Once an onShutdownWait has resolved no processor or onSuccess is running, and none ever
   runs again, however the run goes on: calls for tasks already known stay
   what they were, and no later state has an action under way. This is not so
   for onError: see OnErrorOnceDrained.
   */
  lemma ShutdownDrains(before: seq<Event>, after: seq<Event>, id: nat)
    requires 0 < After(before).drained
    ensures RunningActions(Run(After(before), after)) == {}
    ensures id < After(before).nextId ==>
              id in After(before).tallies && id in Run(After(before), after).tallies &&
              Run(After(before), after).tallies[id].calls == After(before).tallies[id].calls
  {
    var s := After(before);
    AfterInv(before);
    RunKeeps(s, after);
    DrainedNeverFalls(s, after);
    if id < s.nextId {
      TallyKnown(s, id);
      CallsFrozen(s, after, id);
    }
  }

  lemma TallyKnown(s: State, id: nat)
    requires Inv(s) && id < s.nextId
    ensures id in s.tallies
  {
    assert id in Ids(s.nextId);
    if id in WaitingIds(s.waiting) {
      var t :| t in s.waiting && t.id == id;
      var i :| 0 <= i < |s.waiting| && s.waiting[i] == t;
      assert Accounted(s.tallies, s.waiting[i], 0);
    } else if id in s.inFlight {
      assert Accounted(s.tallies, s.inFlight[id].task, UnderWay(s.inFlight[id]));
    } else {
      assert DoneAccounted(s.tallies, s.finished[id]);
    }
  }

  // ---- What one step does to one task ----

  /** The step that calls a task's processor. */
  predicate CallsProcessor(s: State, e: Event, id: nat) {
    && e.Start? && e.id == id && IsPicked(s, id)
    && s.inFlight[id].task.kind in s.processors && !s.shuttingDown
  }

  lemma CatchCallsNothing(s: State, t: Task, now: real, id: nat)
    requires id in s.tallies
    ensures id in CatchStep(s, t, now).tallies && CatchStep(s, t, now).tallies[id].calls == s.tallies[id].calls
  {
    hide CalculateBackoffDelay;
  }

  lemma StartCalls(s: State, x: nat, now: real, id: nat)
    requires IsPicked(s, x) && id in s.tallies
    ensures id in StartStep(s, x, now).tallies
    ensures StartStep(s, x, now).tallies[id].calls
         == s.tallies[id].calls + if CallsProcessor(s, Start(x, now), id) then 1 else 0
  {
    hide CatchStep;
    var refused := s.(inFlight := s.inFlight - {x}, statuses := Update(s.statuses, x, Running),
                      tallies := Tallied(s.tallies, x, Tally(0, 1, 0, 0)));
    CatchCallsNothing(refused, s.inFlight[x].task, now, id);
  }

  /** A step calls the processor of the task it starts, once, and no other. */
  lemma StepCalls(s: State, e: Event, id: nat)
    requires Inv(s) && id in s.tallies && id < s.nextId
    ensures id in Next(s, e).tallies
    ensures Next(s, e).tallies[id].calls == s.tallies[id].calls + if CallsProcessor(s, e, id) then 1 else 0
  {
    hide InvBut;
    hide StartStep;
    hide CatchStep;
    hide Select;
    hide PickAll;
    match e
    case Start(x, now) => if IsPicked(s, x) { StartCalls(s, x, now, id); }
    case Reject(x, now) => if IsProcessing(s, x) { CatchCallsNothing(Settled(s, x), s.inFlight[x].task, now, id); }
    case SuccessRejected(x, now) =>
      if IsSucceeding(s, x) { CatchCallsNothing(Settled(s, x), s.inFlight[x].task, now, id); }
    case _ =>
  }

  predicate GivesUpWithCallback(t: Task) {
    t.attempt >= t.MaxRetries() && t.callbacks.onError
  }

  /** The step in which task id's attempt fails: refused by the shutdown manager, rejected, or rejected in onSuccess. */
  predicate AttemptFails(s: State, e: Event, id: nat) {
    || (e.Start? && e.id == id && IsPicked(s, id) && s.inFlight[id].task.kind in s.processors && s.shuttingDown)
    || (e.Reject? && e.id == id && IsProcessing(s, id))
    || (e.SuccessRejected? && e.id == id && IsSucceeding(s, id))
  }

  /** The step that calls a task's onError: its last attempt fails. */
  predicate CallsOnError(s: State, e: Event, id: nat) {
    AttemptFails(s, e, id) && GivesUpWithCallback(s.inFlight[id].task)
  }

  lemma CatchErrors(s: State, t: Task, now: real, id: nat)
    requires id in s.tallies
    ensures id in CatchStep(s, t, now).tallies
    ensures CatchStep(s, t, now).tallies[id].errors
         == s.tallies[id].errors + if id == t.id && GivesUpWithCallback(t) then 1 else 0
  {
    hide CalculateBackoffDelay;
  }

  lemma StartErrors(s: State, x: nat, now: real, id: nat)
    requires IsPicked(s, x) && s.inFlight[x].task.id == x && id in s.tallies
    ensures id in StartStep(s, x, now).tallies
    ensures StartStep(s, x, now).tallies[id].errors
         == s.tallies[id].errors + if CallsOnError(s, Start(x, now), id) then 1 else 0
  {
    hide CatchStep;
    var refused := s.(inFlight := s.inFlight - {x}, statuses := Update(s.statuses, x, Running),
                      tallies := Tallied(s.tallies, x, Tally(0, 1, 0, 0)));
    CatchErrors(refused, s.inFlight[x].task, now, id);
  }

  /** A step calls onError for the task whose last attempt it ends, once, and for no other. */
  lemma StepErrors(s: State, e: Event, id: nat)
    requires Inv(s) && id in s.tallies && id < s.nextId
    ensures id in Next(s, e).tallies
    ensures Next(s, e).tallies[id].errors == s.tallies[id].errors + if CallsOnError(s, e, id) then 1 else 0
  {
    assert forall x | x in s.inFlight :: s.inFlight[x].task.id == x;
    if e.Start? {
      if IsPicked(s, e.id) {
        StartErrors(s, e.id, e.now, id);
        hide *;
        StartIs(s, e.id, e.now);
      }
    } else if e.Reject? || e.SuccessRejected? {
      hide InvBut;
      hide CatchStep;
      if IsProcessing(s, e.id) || IsSucceeding(s, e.id) {
        CatchErrors(Settled(s, e.id), s.inFlight[e.id].task, e.now, id);
      }
    } else {
      hide InvBut;
      QuietErrors(s, e, id);
    }
  }

  lemma StartIs(s: State, x: nat, now: real)
    requires IsPicked(s, x)
    ensures Next(s, Start(x, now)) == StartStep(s, x, now)
  {
    hide StartStep;
  }

  lemma QuietErrors(s: State, e: Event, id: nat)
    requires !e.Start? && !e.Reject? && !e.SuccessRejected? && id in s.tallies && id < s.nextId
    ensures id in Next(s, e).tallies && Next(s, e).tallies[id] == s.tallies[id]
  {
    hide Select;
    hide PickAll;
  }

  /**
   What does still run once a wait has resolved, in any state after it: onError, exactly when
   a waiting task with a processor comes due, is refused, and has no retries left.
   */
  lemma OnErrorOnceDrained(before: seq<Event>, after: seq<Event>, e: Event, id: nat)
    requires 0 < After(before).drained && id < Run(After(before), after).nextId
    ensures var s := Run(After(before), after);
            && id in s.tallies && id in Next(s, e).tallies
            && Next(s, e).tallies[id].errors == s.tallies[id].errors +
                 if e.Start? && e.id == id && IsPicked(s, id) && s.inFlight[id].task.kind in s.processors
                    && GivesUpWithCallback(s.inFlight[id].task) then 1 else 0
  {
    var s := Run(After(before), after);
    AfterInv(before);
    RunKeeps(After(before), after);
    DrainedNeverFalls(After(before), after);
    TallyKnown(s, id);
    StepErrors(s, e, id);
    OnlyPickedOnceDrained(s, id);
  }

  lemma OnlyPickedOnceDrained(s: State, id: nat)
    requires ShutdownTracks(s) && 0 < s.drained
    ensures s.shuttingDown && !IsProcessing(s, id) && !IsSucceeding(s, id)
  {
    ActionRuns(s, id);
  }

  lemma ActionRuns(s: State, id: nat)
    ensures IsProcessing(s, id) || IsSucceeding(s, id) ==> s.inFlight[id].phase.action in RunningActions(s)
  {
  }

  /** A task enqueued before shutdown and due after it does call onError. */
  lemma OnErrorRunsAfterDrain()
    ensures var before := [Register("t"), Enqueue("t", 0, Callbacks(false, true), None, 0.0),
                           ShutdownBegin, ShutdownResolve(0)];
            var s := Next(Next(After(before), Pick(0.0)), Start(0, 0.0));
            After(before).drained == 1 && 0 in After(before).tallies && After(before).tallies[0].errors == 0
            && 0 in s.tallies && s.tallies[0].errors == 1
  {
    var e := [Register("t"), Enqueue("t", 0, Callbacks(false, true), None, 0.0), ShutdownBegin, ShutdownResolve(0)];
    var t := Task(0, "t", 0, Callbacks(false, true), None, 0, 0.0);
    var s1 := INITIAL.(processors := {"t"});
    var s2 := s1.(waiting := [t], statuses := map[0 := Pending], tallies := map[0 := Tally(0, 0, 0, 0)], nextId := 1);
    var s3 := s2.(shuttingDown := true, waits := [{}]);
    var s4 := s3.(waits := [], drained := 1);
    assert Next(INITIAL, e[0]) == s1;
    assert Next(s1, e[1]) == s2;
    assert Next(s2, e[2]) == s3;
    assert Next(s3, e[3]) == s4;
    RunUnfolds(INITIAL, e);
    RunUnfolds(s1, e[1..]);
    RunUnfolds(s2, e[2..]);
    RunUnfolds(s3, e[3..]);
    var s5 := s4.(waiting := [], inFlight := map[0 := Flight(t, Picked)]);
    assert Next(s4, Pick(0.0)) == s5;
  }

  /** t is t0, or t0 waiting for a retry. */
  predicate Retried(t0: Task, t: Task) {
    t == t0 || (t0.retryConfig.Some? && t == t0.(attempt := t.attempt, scheduledAt := t.scheduledAt))
  }

  lemma CatchHolds(s: State, caught: Task, now: real, t: Task)
    requires Holds(CatchStep(s, caught, now), t)
    ensures Holds(s, t) || Retried(caught, t)
  {
    hide CalculateBackoffDelay;
  }

  lemma StartHolds(s: State, x: nat, now: real, t: Task) returns (t0: Task)
    requires Inv(s) && IsPicked(s, x) && Holds(StartStep(s, x, now), t)
    ensures Holds(s, t0) && Retried(t0, t)
  {
    t0 := t;
    assert s.inFlight[x].task.id == x;
    hide InvBut;
    hide CatchStep;
    var refused := s.(inFlight := s.inFlight - {x}, statuses := Update(s.statuses, x, Running),
                      tallies := Tallied(s.tallies, x, Tally(0, 1, 0, 0)));
    if s.shuttingDown && s.inFlight[x].task.kind in s.processors {
      CatchHolds(refused, s.inFlight[x].task, now, t);
      t0 := if Holds(refused, t) then t else s.inFlight[x].task;
    }
  }

  lemma RejectHolds(s: State, x: nat, now: real, t: Task) returns (t0: Task)
    requires Inv(s) && (IsProcessing(s, x) || IsSucceeding(s, x)) && Holds(RejectStep(s, x, now), t)
    ensures Holds(s, t0) && Retried(t0, t)
  {
    assert s.inFlight[x].task.id == x;
    hide InvBut;
    hide CatchStep;
    CatchHolds(Settled(s, x), s.inFlight[x].task, now, t);
    t0 := if Holds(Settled(s, x), t) then t else s.inFlight[x].task;
  }

  lemma PickHolds(s: State, now: real, t: Task)
    requires Inv(s) && Holds(PickStep(s, now), t)
    ensures Holds(s, t)
  {
    SelectMembers(s.waiting, now, false);
    if t.id in PickStep(s, now).inFlight {
      PickedFlights(s, now, t.id);
    }
  }

  function NewTask(s: State, e: Event): Task
    requires e.Enqueue?
  {
    var config := if e.retry.Some? then Some(e.retry.value.Merged()) else None;
    Task(s.nextId, e.kind, e.data, e.callbacks, config, 0, e.now)
  }

  lemma QuietHolds(s: State, e: Event, t: Task)
    requires forall x | x in s.inFlight :: s.inFlight[x].task.id == x
    requires !e.Pick? && !e.Start? && !e.Reject? && !e.SuccessRejected? && Holds(Next(s, e), t)
    ensures Holds(s, t) || (e.Enqueue? && t == NewTask(s, e))
  {
    if e.Enqueue? {
      WaitingGrows(s.waiting, NewTask(s, e));
    }
  }

  /** Every task held after a step was just enqueued, or was held before it, up to a retry. */
  lemma StepHolds(s: State, e: Event, t: Task) returns (t0: Task)
    requires Inv(s) && Holds(Next(s, e), t)
    ensures (e.Enqueue? && t == t0 == NewTask(s, e)) || (Holds(s, t0) && Retried(t0, t))
  {
    t0 := t;
    assert forall x | x in s.inFlight :: s.inFlight[x].task.id == x;
    hide InvBut;
    hide StartStep;
    hide RejectStep;
    hide PickStep;
    match e
    case Pick(now) => PickHolds(s, now, t);
    case Start(x, now) => if IsPicked(s, x) { t0 := StartHolds(s, x, now, t); }
    case Reject(x, now) => if IsProcessing(s, x) { t0 := RejectHolds(s, x, now, t); }
    case SuccessRejected(x, now) => if IsSucceeding(s, x) { t0 := RejectHolds(s, x, now, t); }
    case _ => QuietHolds(s, e, t);
  }

  /** What the invariant says about one task. */
  lemma HeldTask(s: State, t: Task)
    requires Inv(s) && Holds(s, t)
    ensures t.id < s.nextId && t.id in s.tallies && s.tallies[t.id].calls <= t.MaxRetries() + 1
    ensures t.id in s.inFlight ==> s.inFlight[t.id].task == t
  {
    IdsBelow(s, {});
    if t in s.waiting {
      var i :| 0 <= i < |s.waiting| && s.waiting[i] == t;
      assert t.id !in s.inFlight;
    }
  }

  /** Tasks are told apart by their ids. */
  lemma HeldTasksDistinct(s: State, t: Task, u: Task)
    requires Inv(s) && Holds(s, t) && Holds(s, u) && t.id == u.id
    ensures t == u
  {
    IdsBelow(s, {});
    if t in s.waiting {
      var i :| 0 <= i < |s.waiting| && s.waiting[i] == t;
      if u in s.waiting {
        var j :| 0 <= j < |s.waiting| && s.waiting[j] == u;
      }
    }
  }
}

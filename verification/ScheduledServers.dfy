/**
 Scheduled servers, end to end: the schedule rows, the cron ticks, cancellations and
 queued creations that work on them, and the task queue underneath. A step is
 the code between two awaits; any number of ticks, cancellations and creations
 may be suspended at once, and the process may restart at any point.
 Times are in milliseconds.
 */
module ScheduledServers {
  import opened Wrappers
  import Q = TaskQueue

  // ---- Rows ----

  datatype ScheduleStatus = Scheduled | Creating | Created | Failed | Cancelled

  datatype Row = Row(
    userId: nat, status: ScheduleStatus, scheduledAt: int, triggerAt: int, updatedAt: int, serverId: Option<nat>)
  {
    predicate Active() {
      status == Scheduled || status == Creating
    }
  }

  type Table = map<nat, Row>

  const STUCK_CREATING_THRESHOLD_MS := 20 * 60 * 1000
  const GRACE_PERIOD_MS := 30 * 60 * 1000
  const CREATION_KIND := "create-scheduled-server"

  predicate Due(row: Row, now: int) {
    row.status == Scheduled && row.triggerAt <= now
  }

  predicate Stuck(row: Row, now: int) {
    row.status == Creating && row.updatedAt <= now - STUCK_CREATING_THRESHOLD_MS
  }

  predicate PastGrace(triggerAt: int, now: int) {
    now - triggerAt > GRACE_PERIOD_MS
  }

  /** Inserting an id that exists breaks the primary key: the statement fails. */
  function Insert(rows: Table, id: nat, row: Row): Table {
    if id in rows then rows else rows[id := row]
  }

  function Mark(rows: Table, id: nat, status: ScheduleStatus, serverId: Option<nat>, now: int): Table {
    if id in rows then rows[id := rows[id].(status := status, serverId := serverId, updatedAt := now)] else rows
  }

  /** Compare-and-set from `scheduled`: the second component says whether a row was updated. */
  function SetIfScheduled(rows: Table, id: nat, status: ScheduleStatus, now: int): (Table, bool) {
    if id in rows && rows[id].status == Scheduled
    then (rows[id := rows[id].(status := status, updatedAt := now)], true)
    else (rows, false)
  }

  // ---- Suspended processes ----

  datatype Tick =
    | Started(now: int)
    | Recovering(now: int, stuck: set<nat>)
    | Processing(now: int, due: map<nat, int>)
    | Claimed(now: int, schedule: nat, due: map<nat, int>)

  datatype Creation = Begun(schedule: nat) | Deploying(schedule: nat) | Reporting(schedule: nat) | Over(schedule: nat)

  /** What has happened to a schedule so far. */
  datatype History = History(claims: nat, enqueues: nat, runs: nat, cancellations: nat, claimedAt: int)

  datatype System = System(
    rows: Table,
    history: map<nat, History>,
    ticks: map<nat, Tick>,
    cancels: map<nat, nat>,
    creations: map<nat, Creation>,     // by task id
    queue: Q.State)

  const INITIAL := System(map[], map[], map[], map[], map[], Q.INITIAL)

  datatype Event =
    | Create(id: nat, userId: nat, scheduledAt: int, leadMinutes: nat, now: int)
    | TickBegin(tick: nat, now: int)
    | TickFindStuck(tick: nat)
    | TickMarkStuck(tick: nat, id: nat)
    | TickFindDue(tick: nat)
    | TickExpire(tick: nat, id: nat)
    | TickClaim(tick: nat, id: nat)
    | TickEnqueue(tick: nat, queueNow: real)
    | TickEnd(tick: nat)
    | CancelFind(cancel: nat, userId: nat, id: nat)
    | CancelCommit(cancel: nat, now: int)
    | CreationFind(task: nat)
    | CreationSucceeds(task: nat, serverId: nat, now: int)
    | CreationFails(task: nat, now: int)
    | CreationDone(task: nat)
    | QueueStep(step: Q.Event)
    | Restart

  // ---- Steps ----

  function CreateStep(s: System, id: nat, userId: nat, scheduledAt: int, leadMinutes: nat, now: int): System {
    if id in s.rows then s
    else
      s.(rows := Insert(s.rows, id, Row(userId, Scheduled, scheduledAt, scheduledAt - leadMinutes * 60000, now, None)),
         history := s.history[id := History(0, 0, 0, 0, 0)])
  }

  // The tick's steps. Each is enabled in one place of its run, and does nothing elsewhere.

  function FindStuckStep(s: System, t: nat): System {
    if t in s.ticks && s.ticks[t].Started? then
      var now := s.ticks[t].now;
      s.(ticks := s.ticks[t := Recovering(now, set id | id in s.rows && Stuck(s.rows[id], now))])
    else s
  }

  function MarkStuckStep(s: System, t: nat, id: nat): System {
    if t in s.ticks && s.ticks[t].Recovering? && id in s.ticks[t].stuck then
      var tick := s.ticks[t];
      s.(rows := Mark(s.rows, id, Failed, None, tick.now),
         ticks := s.ticks[t := Recovering(tick.now, tick.stuck - {id})])
    else s
  }

  function FindDueStep(s: System, t: nat): System {
    if t in s.ticks && s.ticks[t].Recovering? && s.ticks[t].stuck == {} then
      var now := s.ticks[t].now;
      s.(ticks := s.ticks[t := Processing(now, map id | id in s.rows && Due(s.rows[id], now) :: s.rows[id].triggerAt)])
    else s
  }

  /** Tick t's loop has schedule id, read as due, in front of it. */
  predicate AtDue(s: System, t: nat, id: nat) {
    t in s.ticks && s.ticks[t].Processing? && id in s.ticks[t].due
  }

  function ExpireStep(s: System, t: nat, id: nat): System {
    if AtDue(s, t, id) && PastGrace(s.ticks[t].due[id], s.ticks[t].now) then
      var tick := s.ticks[t];
      s.(rows := Mark(s.rows, id, Failed, None, tick.now), ticks := s.ticks[t := Processing(tick.now, tick.due - {id})])
    else s
  }

  function ClaimStep(s: System, t: nat, id: nat): System {
    if AtDue(s, t, id) && !PastGrace(s.ticks[t].due[id], s.ticks[t].now) then
      var tick := s.ticks[t];
      var (rows, claimed) := SetIfScheduled(s.rows, id, Creating, tick.now);
      if claimed && id in s.history then
        var h := s.history[id];
        s.(rows := rows,
           history := s.history[id := h.(claims := h.claims + 1, claimedAt := tick.now)],
           ticks := s.ticks[t := Claimed(tick.now, id, tick.due - {id})])
      else s.(rows := rows, ticks := s.ticks[t := Processing(tick.now, tick.due - {id})])
    else s
  }

  function CreationRequest(id: nat, now: real): Q.Event {
    Q.Enqueue(CREATION_KIND, id, Q.Callbacks(false, false), None, now)
  }

  function EnqueueStep(s: System, t: nat, queueNow: real): System {
    if t in s.ticks && s.ticks[t].Claimed? && s.ticks[t].schedule in s.history then
      var id := s.ticks[t].schedule;
      var h := s.history[id];
      s.(history := s.history[id := h.(enqueues := h.enqueues + 1)],
         queue := Q.Next(s.queue, CreationRequest(id, queueNow)),
         ticks := s.ticks[t := Processing(s.ticks[t].now, s.ticks[t].due)])
    else s
  }

  /** active[0] of a user: an active row with the earliest scheduledAt. */
  predicate FirstActive(rows: Table, userId: nat, id: nat) {
    && id in rows && rows[id].userId == userId && rows[id].Active()
    && forall other | other in rows && rows[other].userId == userId && rows[other].Active() ::
         rows[id].scheduledAt <= rows[other].scheduledAt
  }

  function CancelCommitStep(s: System, cancel: nat, now: int): System
    requires cancel in s.cancels
  {
    var id := s.cancels[cancel];
    var (rows, cancelled) := SetIfScheduled(s.rows, id, Cancelled, now);
    var done := s.(rows := rows, cancels := s.cancels - {cancel});
    if cancelled && id in s.history then
      done.(history := s.history[id := s.history[id].(cancellations := s.history[id].cancellations + 1)])
    else done
  }

  /** The queued creation. A failure after `created` was written still marks the row failed. */
  function CreationStep(s: System, e: Event): System
    requires e.CreationFind? || e.CreationSucceeds? || e.CreationFails? || e.CreationDone?
    requires e.task in s.creations
  {
    var c := s.creations[e.task];
    match e
    case CreationFind(task) =>
      if !c.Begun? then s
      else s.(creations := s.creations[task :=
           if c.schedule in s.rows then Deploying(c.schedule) else Over(c.schedule)])
    case CreationSucceeds(task, serverId, now) =>
      if !c.Deploying? then s
      else s.(rows := Mark(s.rows, c.schedule, Created, Some(serverId), now),
              creations := s.creations[task := Reporting(c.schedule)])
    case CreationFails(task, now) =>
      if !(c.Deploying? || c.Reporting?) then s
      else s.(rows := Mark(s.rows, c.schedule, Failed, None, now), creations := s.creations[task := Over(c.schedule)])
    case CreationDone(task) =>
      if !c.Reporting? then s else s.(creations := s.creations[task := Over(c.schedule)])
  }

  /** Task id's processor, for creations, is called by this queue step. */
  predicate StartsCreation(q: Q.State, e: Q.Event) {
    && e.Start? && Q.IsPicked(q, e.id)
    && q.inFlight[e.id].task.kind == CREATION_KIND && CREATION_KIND in q.processors && !q.shuttingDown
  }

  /** Only ticks enqueue creations, and a creation's processor resolves only when it is over. */
  predicate QueueStepAllowed(s: System, e: Q.Event) {
    && (e.Enqueue? ==> e.kind != CREATION_KIND)
    && (e.Resolve? && e.id in s.creations ==> s.creations[e.id].Over?)
  }

  function QueueStepStep(s: System, e: Q.Event): System {
    var queue := Q.Next(s.queue, e);
    if StartsCreation(s.queue, e) then
      var schedule := s.queue.inFlight[e.id].task.data;
      s.(queue := queue,
         creations := s.creations[e.id := Begun(schedule)],
         history := if schedule in s.history
                    then s.history[schedule := s.history[schedule].(runs := s.history[schedule].runs + 1)]
                    else s.history)
    else if (e.Resolve? || e.Reject?) && Q.IsProcessing(s.queue, e.id) then
      s.(queue := queue, creations := s.creations - {e.id})
    else s.(queue := queue)
  }

  /** One step. An event that is not enabled changes nothing. */
  function Next(s: System, e: Event): System {
    match e
    case Create(id, userId, scheduledAt, leadMinutes, now) => CreateStep(s, id, userId, scheduledAt, leadMinutes, now)
    case TickBegin(t, now) => if t in s.ticks then s else s.(ticks := s.ticks[t := Started(now)])
    case TickEnd(t) => s.(ticks := s.ticks - {t})
    case CancelFind(c, userId, id) =>
      if c !in s.cancels && FirstActive(s.rows, userId, id) && s.rows[id].status == Scheduled
      then s.(cancels := s.cancels[c := id]) else s
    case CancelCommit(c, now) => if c in s.cancels then CancelCommitStep(s, c, now) else s
    case QueueStep(step) => if QueueStepAllowed(s, step) then QueueStepStep(s, step) else s
    case Restart => s.(ticks := map[], cancels := map[], creations := map[], queue := Q.INITIAL)
    case CreationFind(task) => if task in s.creations then CreationStep(s, e) else s
    case CreationSucceeds(task, _, _) => if task in s.creations then CreationStep(s, e) else s
    case CreationFails(task, _) => if task in s.creations then CreationStep(s, e) else s
    case CreationDone(task) => if task in s.creations then CreationStep(s, e) else s
    case TickFindStuck(t) => FindStuckStep(s, t)
    case TickMarkStuck(t, id) => MarkStuckStep(s, t, id)
    case TickFindDue(t) => FindDueStep(s, t)
    case TickExpire(t, id) => ExpireStep(s, t, id)
    case TickClaim(t, id) => ClaimStep(s, t, id)
    case TickEnqueue(t, queueNow) => EnqueueStep(s, t, queueNow)
  }

  function Run(s: System, events: seq<Event>): System
    decreases |events|
  {
    if events == [] then s else Run(Next(s, events[0]), events[1..])
  }

  // ---- Invariant ----

  /** A schedule is claimed or cancelled at most once, and each thing that follows happens at most once. */
  predicate RowOk(row: Row, h: History) {
    && (row.status == Scheduled ==> h.claims == 0 && h.cancellations == 0)
    && h.claims + h.cancellations <= 1
    && h.runs <= h.enqueues <= h.claims
    && (h.claims == 1 ==> row.triggerAt <= h.claimedAt <= row.triggerAt + GRACE_PERIOD_MS)
  }

  ghost predicate RowsOk(rows: Table, history: map<nat, History>) {
    && rows.Keys == history.Keys
    && forall id | id in rows :: RowOk(rows[id], history[id])
  }

  /** What a tick remembers of a due row is still so: trigger times never change. */
  ghost predicate DueOk(rows: Table, now: int, due: map<nat, int>) {
    forall id | id in due :: id in rows && due[id] == rows[id].triggerAt <= now
  }

  ghost predicate TickOk(rows: Table, history: map<nat, History>, tick: Tick) {
    match tick
    case Processing(now, due) => DueOk(rows, now, due)
    case Claimed(now, id, due) =>
      DueOk(rows, now, due) && id in history && history[id].claims == 1 && history[id].enqueues == 0
    case _ => true
  }

  ghost predicate TicksOk(s: System) {
    && (forall t | t in s.ticks :: TickOk(s.rows, s.history, s.ticks[t]))
    && (forall t, u | t in s.ticks && u in s.ticks && s.ticks[t].Claimed? && s.ticks[u].Claimed? &&
          s.ticks[t].schedule == s.ticks[u].schedule :: t == u)
  }

  /** A creation task in the queue stands for the one enqueue of its schedule. */
  predicate TaskOk(q: Q.State, history: map<nat, History>, t: Q.Task) {
    && t.retryConfig.None?
    && t.data in history && history[t.data].enqueues == 1
    && t.id in q.tallies && history[t.data].runs == q.tallies[t.id].calls
  }

  predicate IsCreationTask(q: Q.State, t: Q.Task) {
    t.kind == CREATION_KIND && Q.Holds(q, t)
  }

  ghost predicate TasksOk(q: Q.State, history: map<nat, History>) {
    && (forall t | IsCreationTask(q, t) :: TaskOk(q, history, t))
    && (forall t, u | IsCreationTask(q, t) && IsCreationTask(q, u) && t.data == u.data :: t.id == u.id)
  }

  ghost predicate Inv(s: System) {
    RowsOk(s.rows, s.history) && TicksOk(s) && Q.Inv(s.queue) && TasksOk(s.queue, s.history)
  }

  lemma InitialInv()
    ensures Inv(INITIAL)
  {
    Q.InitialInv();
  }

  // ---- Every step keeps it ----

  /** Rows whose claims do not move: history unchanged, the trigger time too, and no new `scheduled`. */
  predicate Touched(rows: Table, rows': Table) {
    && rows'.Keys == rows.Keys
    && forall id | id in rows ::
         rows'[id].triggerAt == rows[id].triggerAt && (rows'[id].status == Scheduled ==> rows[id].status == Scheduled)
  }

  /** Marking rows other than back to `scheduled` keeps everything that ticks and tasks rely on. */
  lemma TouchedKeeps(s: System, s': System)
    requires Inv(s) && Touched(s.rows, s'.rows)
    requires s'.history == s.history && s'.ticks == s.ticks && s'.queue == s.queue
    ensures Inv(s')
  {
    hide Q.Inv;
    hide TasksOk;
  }

  /** Tasks rely on the enqueues and runs of their schedules, nothing else. */
  lemma TasksKept(q: Q.State, history: map<nat, History>, history': map<nat, History>)
    requires TasksOk(q, history)
    requires forall id | id in history ::
               id in history' && history'[id].enqueues == history[id].enqueues && history'[id].runs == history[id].runs
    ensures TasksOk(q, history')
  {
    forall t | IsCreationTask(q, t)
      ensures TaskOk(q, history', t)
    {
      assert TaskOk(q, history, t);
    }
  }

  lemma CreateKeeps(s: System, e: Event)
    requires Inv(s) && e.Create?
    ensures Inv(Next(s, e))
    ensures e.id !in s.rows ==>
              NotHeld(Next(s, e), e.id) && Next(s, e).history[e.id] == History(0, 0, 0, 0, 0)
              && SetIfScheduled(Next(s, e).rows, e.id, Creating, e.now).1
  {
    if e.id !in s.rows {
      var s' := Next(s, e);
      NewRow(s, e.id, s'.rows[e.id]);
      hide Q.Inv;
      hide TasksOk;
      hide RowsOk;
      hide TicksOk;
      TasksKept(s.queue, s.history, s'.history);
      SameTicks(s.(rows := s'.rows, history := s'.history), s');
      ScheduledNotHeld(s', e.id);
    }
  }

  lemma NewRow(s: System, id: nat, row: Row)
    requires RowsOk(s.rows, s.history) && TicksOk(s) && id !in s.rows && row.status == Scheduled
    ensures RowsOk(s.rows[id := row], s.history[id := History(0, 0, 0, 0, 0)])
    ensures TicksOk(s.(rows := s.rows[id := row], history := s.history[id := History(0, 0, 0, 0, 0)]))
  {
    forall t | t in s.ticks
      ensures TickOk(s.rows[id := row], s.history[id := History(0, 0, 0, 0, 0)], s.ticks[t])
    {
      assert TickOk(s.rows, s.history, s.ticks[t]);
    }
  }

  lemma SameTicks(s: System, s': System)
    requires TicksOk(s) && s'.rows == s.rows && s'.history == s.history && s'.ticks == s.ticks
    ensures TicksOk(s')
  {
  }

  /** A tick that begins, ends, or reads rows. */
  lemma ReadingTickKeeps(s: System, t: nat, now: int)
    requires Inv(s)
    ensures t !in s.ticks ==> Inv(s.(ticks := s.ticks[t := Started(now)]))
    ensures Inv(s.(ticks := s.ticks - {t}))
    ensures Inv(FindStuckStep(s, t))
    ensures Inv(FindDueStep(s, t))
  {
    hide Q.Inv;
    hide TasksOk;
    hide RowOk;
  }

  /** A tick that marks a row failed. */
  lemma MarkingTickKeeps(s: System, t: nat, id: nat)
    requires Inv(s)
    ensures Inv(MarkStuckStep(s, t, id))
    ensures Inv(ExpireStep(s, t, id))
  {
    if t in s.ticks {
      var tick := s.ticks[t];
      var marked := s.(rows := Mark(s.rows, id, Failed, None, tick.now));
      assert Touched(s.rows, marked.rows);
      hide Inv;
      hide Touched;
      hide Mark;
      TouchedKeeps(s, marked);
      if tick.Recovering? {
        DueShrinks(marked, t, Recovering(tick.now, tick.stuck - {id}), id);
      } else if tick.Processing? {
        DueShrinks(marked, t, Processing(tick.now, tick.due - {id}), id);
      }
    }
  }

  /** A tick that crosses one schedule off. */
  lemma DueShrinks(s: System, t: nat, tick: Tick, id: nat)
    requires Inv(s) && t in s.ticks
    requires tick.Recovering? || (s.ticks[t].Processing? && tick == Processing(s.ticks[t].now, s.ticks[t].due - {id}))
    ensures Inv(s.(ticks := s.ticks[t := tick]))
  {
    hide Q.Inv;
    hide TasksOk;
    hide RowsOk;
    assert TickOk(s.rows, s.history, s.ticks[t]);
    assert TickOk(s.rows, s.history, tick);
    hide TickOk;
    TickMoves(s, t, tick);
  }

  /** One row and its history move on together. */
  lemma RowMovesOn(rows: Table, history: map<nat, History>, id: nat, row: Row, h: History)
    requires RowsOk(rows, history) && id in rows && RowOk(row, h)
    ensures RowsOk(rows[id := row], history[id := h])
  {
  }

  /** No tick is between claiming schedule id and enqueueing it. */
  ghost predicate NotHeld(s: System, id: nat) {
    forall t | t in s.ticks && s.ticks[t].Claimed? :: s.ticks[t].schedule != id
  }

  /** A schedule that is still `scheduled` is held by no tick: it has not been claimed. */
  lemma ScheduledNotHeld(s: System, id: nat)
    requires RowsOk(s.rows, s.history) && TicksOk(s) && id in s.rows && s.rows[id].status == Scheduled
    ensures NotHeld(s, id)
  {
    forall t | t in s.ticks && s.ticks[t].Claimed?
      ensures s.ticks[t].schedule != id
    {
      assert TickOk(s.rows, s.history, s.ticks[t]);
      assert RowOk(s.rows[id], s.history[id]);
    }
  }

  /** Ticks do not notice a row that none of them holds. */
  lemma TicksUnmoved(s: System, id: nat, row: Row, h: History)
    requires TicksOk(s) && NotHeld(s, id) && id in s.rows && row.triggerAt == s.rows[id].triggerAt
    ensures TicksOk(s.(rows := s.rows[id := row], history := s.history[id := h]))
  {
  }

  lemma TickMoves(s: System, t: nat, tick: Tick)
    requires TicksOk(s) && TickOk(s.rows, s.history, tick)
    requires tick.Claimed? ==> NotHeld(s, tick.schedule)
    ensures TicksOk(s.(ticks := s.ticks[t := tick]))
  {
  }

  /** Schedule id is untouched at `now`: neither claimed nor cancelled, held by no tick, due and within grace. */
  ghost predicate ClaimIsFirst(s: System, id: nat, now: int) {
    && id in s.rows && id in s.history
    && s.history[id].claims == 0 && s.history[id].cancellations == 0
    && NotHeld(s, id)
    && s.rows[id].triggerAt <= now <= s.rows[id].triggerAt + GRACE_PERIOD_MS
  }

  /** A claim finds the row `scheduled`, so neither claimed nor cancelled before, and due within the grace period. */
  lemma ClaimRows(s: System, t: nat, id: nat)
    requires RowsOk(s.rows, s.history) && TicksOk(s)
    ensures var s' := ClaimStep(s, t, id);
            && RowsOk(s'.rows, s'.history) && TicksOk(s') && s'.queue == s.queue
            && forall x | x in s.history ::
                 x in s'.history && s'.history[x].enqueues == s.history[x].enqueues &&
                 s'.history[x].runs == s.history[x].runs
    ensures var s' := ClaimStep(s, t, id);
            (t in s'.ticks && s'.ticks[t].Claimed? && s'.ticks[t] != s.ticks[t]) ==>
              ClaimIsFirst(s, id, s'.ticks[t].now) && s'.history[id].claims == 1
  {
    if AtDue(s, t, id) && !PastGrace(s.ticks[t].due[id], s.ticks[t].now) {
      assert TickOk(s.rows, s.history, s.ticks[t]);
      if s.rows[id].status == Scheduled {
        ClaimedRows(s, t, id);
      } else {
        var tick := s.ticks[t];
        hide RowsOk;
        hide TicksOk;
        TickMoves(s, t, Processing(tick.now, tick.due - {id}));
      }
    }
  }

  lemma ClaimedRows(s: System, t: nat, id: nat)
    requires RowsOk(s.rows, s.history) && TicksOk(s)
    requires AtDue(s, t, id) && !PastGrace(s.ticks[t].due[id], s.ticks[t].now)
    requires id in s.rows && s.rows[id].status == Scheduled
    ensures ClaimIsFirst(s, id, s.ticks[t].now)
    ensures var s' := ClaimStep(s, t, id);
            && RowsOk(s'.rows, s'.history) && TicksOk(s')
            && s' == s.(rows := s'.rows, ticks := s'.ticks,
                        history := s.history[id := s.history[id].(claims := 1, claimedAt := s.ticks[t].now)])
  {
    var tick := s.ticks[t];
    var h := s.history[id];
    var row := s.rows[id].(status := Creating, updatedAt := tick.now);
    var h' := h.(claims := h.claims + 1, claimedAt := tick.now);
    var next := s.(rows := s.rows[id := row], history := s.history[id := h']);
    var tick' := Claimed(tick.now, id, tick.due - {id});
    assert RowOk(s.rows[id], h);
    RowMovesOn(s.rows, s.history, id, row, h');
    ScheduledNotHeld(s, id);
    TicksUnmoved(s, id, row, h');
    assert TickOk(s.rows, s.history, tick);
    hide RowsOk;
    hide TicksOk;
    hide RowOk;
    assert NotHeld(next, id);
    assert TickOk(next.rows, next.history, tick');
    TickMoves(next, t, tick');
  }

  lemma ClaimKeeps(s: System, t: nat, id: nat)
    requires Inv(s)
    ensures Inv(ClaimStep(s, t, id))
  {
    ClaimRows(s, t, id);
    hide *;
    TasksKept(s.queue, s.history, ClaimStep(s, t, id).history);
    InvParts(ClaimStep(s, t, id));
  }

  lemma InvParts(s: System)
    requires RowsOk(s.rows, s.history) && TicksOk(s) && Q.Inv(s.queue) && TasksOk(s.queue, s.history)
    ensures Inv(s)
  {
  }

  lemma CancelRows(s: System, cancel: nat, now: int)
    requires RowsOk(s.rows, s.history) && TicksOk(s) && cancel in s.cancels
    ensures var s' := CancelCommitStep(s, cancel, now);
            && RowsOk(s'.rows, s'.history) && TicksOk(s') && s'.queue == s.queue
            && forall id | id in s.history ::
                 id in s'.history && s'.history[id].enqueues == s.history[id].enqueues &&
                 s'.history[id].runs == s.history[id].runs
    ensures var s', id := CancelCommitStep(s, cancel, now), s.cancels[cancel];
            s'.rows != s.rows ==>
              && id in s.history && s.history[id].claims == 0 && s.history[id].cancellations == 0 && NotHeld(s, id)
              && s'.history[id].cancellations == 1 && s'.rows[id].status == Cancelled
  {
    var id := s.cancels[cancel];
    if id in s.rows && s.rows[id].status == Scheduled {
      var h := s.history[id];
      var row := s.rows[id].(status := Cancelled, updatedAt := now);
      var h' := h.(cancellations := h.cancellations + 1);
      assert RowOk(s.rows[id], h);
      RowMovesOn(s.rows, s.history, id, row, h');
      ScheduledNotHeld(s, id);
      TicksUnmoved(s, id, row, h');
      hide RowsOk;
      hide TicksOk;
      SameTicks(s.(rows := s.rows[id := row], history := s.history[id := h']), CancelCommitStep(s, cancel, now));
    } else {
      SameTicks(s, CancelCommitStep(s, cancel, now));
    }
  }

  lemma CancelKeeps(s: System, e: Event)
    requires Inv(s) && (e.CancelFind? || e.CancelCommit?)
    ensures Inv(Next(s, e))
  {
    hide Q.Inv;
    hide TasksOk;
    hide TicksOk;
    hide RowsOk;
    hide FirstActive;
    if e.CancelFind? {
      SameTicks(s, Next(s, e));
    } else if e.cancel in s.cancels {
      hide CancelCommitStep;
      CancelRows(s, e.cancel, e.now);
      TasksKept(s.queue, s.history, CancelCommitStep(s, e.cancel, e.now).history);
    }
  }

  lemma CreationKeeps(s: System, e: Event)
    requires Inv(s) && (e.CreationFind? || e.CreationSucceeds? || e.CreationFails? || e.CreationDone?)
    ensures Inv(Next(s, e))
    ensures Next(s, e).history == s.history && Next(s, e).rows.Keys == s.rows.Keys
    ensures forall id | id in s.rows && Next(s, e).rows[id] != s.rows[id] ::
              e.task in s.creations && id == s.creations[e.task].schedule
              && Next(s, e).rows[id].status == (if e.CreationSucceeds? then Created else Failed)
              && Next(s, e).rows[id].triggerAt == s.rows[id].triggerAt
  {
    hide Inv;
    TouchedKeeps(s, Next(s, e));
  }

  lemma EnqueueKeeps(s: System, t: nat, queueNow: real)
    requires Inv(s)
    ensures Inv(EnqueueStep(s, t, queueNow))
  {
    hide Q.Inv;
    hide Q.Next;
    hide TasksOk;
    if t in s.ticks && s.ticks[t].Claimed? && s.ticks[t].schedule in s.history {
      var id := s.ticks[t].schedule;
      var request := CreationRequest(id, queueNow);
      var s' := EnqueueStep(s, t, queueNow);
      assert TickOk(s.rows, s.history, s.ticks[t]);
      Q.NextKeeps(s.queue, request);
      EnqueueTasks(s, id, request, s'.history);
      EnqueueRows(s, t);
      hide RowsOk;
      hide TicksOk;
      SameTicks(s.(history := s'.history, ticks := s'.ticks), s');
    }
  }

  /** The tick lets go of the schedule it held alone. */
  lemma EnqueueRows(s: System, t: nat)
    requires RowsOk(s.rows, s.history) && TicksOk(s) && t in s.ticks && s.ticks[t].Claimed?
    ensures s.ticks[t].schedule in s.history
    ensures var id := s.ticks[t].schedule;
            var history' := s.history[id := s.history[id].(enqueues := s.history[id].enqueues + 1)];
            && RowsOk(s.rows, history')
            && TicksOk(s.(history := history', ticks := s.ticks[t := Processing(s.ticks[t].now, s.ticks[t].due)]))
  {
    var id := s.ticks[t].schedule;
    assert TickOk(s.rows, s.history, s.ticks[t]);
    var h := s.history[id].(enqueues := s.history[id].enqueues + 1);
    var freed := s.(ticks := s.ticks[t := Processing(s.ticks[t].now, s.ticks[t].due)]);
    assert RowOk(s.rows[id], s.history[id]);
    RowMovesOn(s.rows, s.history, id, s.rows[id], h);
    assert s.rows[id := s.rows[id]] == s.rows;
    TickMoves(s, t, Processing(s.ticks[t].now, s.ticks[t].due));
    assert NotHeld(freed, id);
    TicksUnmoved(freed, id, s.rows[id], h);
  }

  /** The new task is the only one for its schedule, and the others keep theirs. */
  lemma EnqueueTasks(s: System, id: nat, step: Q.Event, history': map<nat, History>)
    requires Q.Inv(s.queue) && TasksOk(s.queue, s.history) && RowsOk(s.rows, s.history)
    requires id in s.history && s.history[id].enqueues == 0
    requires step.Enqueue? && step.kind == CREATION_KIND && step.data == id && step.retry == None
    requires history' == s.history[id := s.history[id].(enqueues := 1)]
    ensures TasksOk(Q.Next(s.queue, step), history')
  {
    var q := Q.Next(s.queue, step);
    var added := Q.NewTask(s.queue, step);
    forall t | IsCreationTask(q, t)
      ensures TaskOk(q, history', t)
      ensures t == added || (IsCreationTask(s.queue, t) && t.data != id)
    {
      var t0 := Q.StepHolds(s.queue, step, t);
      assert t0 != added ==> IsCreationTask(s.queue, t0);
      if t != added {
        assert TaskOk(s.queue, s.history, t);
        Q.HeldTask(s.queue, t);
        Q.StepCalls(s.queue, step, t.id);
      }
    }
  }

  lemma QueueStepKeeps(s: System, e: Event)
    requires Inv(s) && e.QueueStep?
    ensures Inv(Next(s, e))
  {
    hide Q.Inv;
    hide Q.Next;
    hide TasksOk;
    hide TicksOk;
    hide RowsOk;
    hide StartsCreation;
    if QueueStepAllowed(s, e.step) {
      var s' := QueueStepStep(s, e.step);
      Q.NextKeeps(s.queue, e.step);
      QueueStepParts(s, e.step);
      if StartsCreation(s.queue, e.step) {
        StartRows(s, e.step);
        QueueTasks(s, e.step, s'.history);
      } else {
        QueueTasks(s, e.step, s.history);
        SameTicks(s, s');
      }
    }
  }

  lemma QueueStepParts(s: System, step: Q.Event)
    ensures var s' := QueueStepStep(s, step);
            && s'.rows == s.rows && s'.ticks == s.ticks && s'.queue == Q.Next(s.queue, step)
            && s'.history == if StartsCreation(s.queue, step) then
                               var id := s.queue.inFlight[step.id].task.data;
                               if id in s.history then s.history[id := s.history[id].(runs := s.history[id].runs + 1)]
                               else s.history
                             else s.history
  {
    hide Q.Next;
  }

  lemma StartedTaskHeld(s: System, id: nat)
    requires Inv(s) && Q.IsPicked(s.queue, id) && s.queue.inFlight[id].task.kind == CREATION_KIND
    ensures var t := s.queue.inFlight[id].task;
            && t.id == id && TaskOk(s.queue, s.history, t) && IsCreationTask(s.queue, t)
            && s.queue.tallies[id].calls == 0
  {
    assert s.queue.inFlight[id].task.id == id;
    assert IsCreationTask(s.queue, s.queue.inFlight[id].task);
  }

  lemma StartRows(s: System, step: Q.Event)
    requires Inv(s) && StartsCreation(s.queue, step)
    ensures RowsOk(s.rows, QueueStepStep(s, step).history) && TicksOk(QueueStepStep(s, step))
  {
    StartedTaskHeld(s, step.id);
    QueueStepParts(s, step);
    var id := s.queue.inFlight[step.id].task.data;
    var h := s.history[id].(runs := s.history[id].runs + 1);
    var s' := QueueStepStep(s, step);
    hide Q.Inv;
    hide Q.Next;
    hide TasksOk;
    hide StartsCreation;
    hide QueueStepStep;
    assert RowOk(s.rows[id], s.history[id]);
    RowMovesOn(s.rows, s.history, id, s.rows[id], h);
    assert s.rows[id := s.rows[id]] == s.rows;
    NotHeldOnceEnqueued(s, id);
    TicksUnmoved(s, id, s.rows[id], h);
    SameTicks(s.(history := s.history[id := h]), s');
  }

  lemma NotHeldOnceEnqueued(s: System, id: nat)
    requires TicksOk(s) && id in s.history && s.history[id].enqueues == 1
    ensures NotHeld(s, id)
  {
    forall t | t in s.ticks && s.ticks[t].Claimed?
      ensures s.ticks[t].schedule != id
    {
      assert TickOk(s.rows, s.history, s.ticks[t]);
    }
  }

  lemma CreationTaskWasHeld(s: System, step: Q.Event, t: Q.Task)
    requires Q.Inv(s.queue) && TasksOk(s.queue, s.history) && QueueStepAllowed(s, step)
    requires IsCreationTask(Q.Next(s.queue, step), t)
    ensures IsCreationTask(s.queue, t)
  {
    var t0 := Q.StepHolds(s.queue, step, t);
    assert IsCreationTask(s.queue, t0);
  }

  /** The tally of a creation task moves exactly with the runs of its schedule. */
  lemma QueueTasks(s: System, step: Q.Event, history': map<nat, History>)
    requires Q.Inv(s.queue) && TasksOk(s.queue, s.history) && QueueStepAllowed(s, step)
    requires history' == if StartsCreation(s.queue, step) then
                           var id := s.queue.inFlight[step.id].task.data;
                           if id in s.history then s.history[id := s.history[id].(runs := s.history[id].runs + 1)]
                           else s.history
                         else s.history
    ensures TasksOk(Q.Next(s.queue, step), history')
  {
    var q := Q.Next(s.queue, step);
    forall t | IsCreationTask(q, t)
      ensures TaskOk(q, history', t) && IsCreationTask(s.queue, t)
    {
      CreationTaskWasHeld(s, step, t);
      assert TaskOk(s.queue, s.history, t);
      Q.HeldTask(s.queue, t);
      Q.StepCalls(s.queue, step, t.id);
      if StartsCreation(s.queue, step) {
        var started := s.queue.inFlight[step.id].task;
        assert IsCreationTask(s.queue, started);
      }
    }
  }

  lemma RestartKeeps(s: System)
    requires Inv(s)
    ensures Inv(Next(s, Restart))
  {
    Q.InitialInv();
  }

  lemma NextKeeps(s: System, e: Event)
    requires Inv(s)
    ensures Inv(Next(s, e))
  {
    hide Inv;
    match e
    case Create(_, _, _, _, _) => CreateKeeps(s, e);
    case TickBegin(t, now) => ReadingTickKeeps(s, t, now);
    case TickEnd(t) => ReadingTickKeeps(s, t, 0);
    case TickFindStuck(t) => ReadingTickKeeps(s, t, 0);
    case TickFindDue(t) => ReadingTickKeeps(s, t, 0);
    case TickMarkStuck(t, id) => MarkingTickKeeps(s, t, id);
    case TickExpire(t, id) => MarkingTickKeeps(s, t, id);
    case TickClaim(t, id) => ClaimKeeps(s, t, id);
    case TickEnqueue(t, queueNow) => EnqueueKeeps(s, t, queueNow);
    case CancelFind(_, _, _) => CancelKeeps(s, e);
    case CancelCommit(_, _) => CancelKeeps(s, e);
    case CreationFind(_) => CreationKeeps(s, e);
    case CreationSucceeds(_, _, _) => CreationKeeps(s, e);
    case CreationFails(_, _) => CreationKeeps(s, e);
    case CreationDone(_) => CreationKeeps(s, e);
    case QueueStep(_) => QueueStepKeeps(s, e);
    case Restart => RestartKeeps(s);
  }

  lemma {:induction false} RunKeeps(s: System, events: seq<Event>)
    requires Inv(s)
    ensures Inv(Run(s, events))
    decreases |events|
  {
    hide Inv;
    if events != [] {
      NextKeeps(s, events[0]);
      RunKeeps(Next(s, events[0]), events[1..]);
    }
  }

  // ---- What single steps do, on the clock and in the table ----

  /** The three queries and the creation, read off the rows. */
  lemma TickFindsStuck(s: System, t: nat, id: nat)
    requires t in s.ticks && s.ticks[t].Started?
    ensures var s', now := Next(s, TickFindStuck(t)), s.ticks[t].now;
            s'.rows == s.rows && s'.ticks[t].Recovering? && s'.ticks[t].now == now &&
            (id in s'.ticks[t].stuck <==>
             id in s.rows && s.rows[id].status == Creating && now - s.rows[id].updatedAt >= 1200000)
  {
  }

  lemma TickFindsDue(s: System, t: nat, id: nat)
    requires t in s.ticks && s.ticks[t].Recovering? && s.ticks[t].stuck == {}
    ensures var s', now := Next(s, TickFindDue(t)), s.ticks[t].now;
            s'.rows == s.rows && s'.ticks[t].Processing? && s'.ticks[t].now == now &&
            (id in s'.ticks[t].due <==> id in s.rows && s.rows[id].status == Scheduled && s.rows[id].triggerAt <= now)
  {
  }

  lemma TickFailsStuck(s: System, t: nat, id: nat)
    requires t in s.ticks && s.ticks[t].Recovering? && id in s.ticks[t].stuck && id in s.rows
    ensures Next(s, TickMarkStuck(t, id)).rows ==
            s.rows[id := s.rows[id].(status := Failed, serverId := None, updatedAt := s.ticks[t].now)]
  {
  }

  /**
   A row still `scheduled` when its tick comes to it is claimed exactly when that tick began at
   most thirty minutes after the trigger time, and is failed by it exactly otherwise.
   */
  lemma ClaimedIffWithinGrace(s: System, t: nat, id: nat)
    requires Inv(s) && AtDue(s, t, id) && s.rows[id].status == Scheduled
    ensures var row, now := s.rows[id], s.ticks[t].now;
            var c, f := Next(s, TickClaim(t, id)), Next(s, TickExpire(t, id));
            && row.triggerAt <= now
            && if now - row.triggerAt <= 1800000 then
                 && c.rows == s.rows[id := row.(status := Creating, updatedAt := now)]
                 && c.ticks[t].Claimed? && c.ticks[t].schedule == id
                 && f == s
               else
                 && c == s
                 && f.rows == s.rows[id := row.(status := Failed, serverId := None, updatedAt := now)]
                 && f.ticks[t].Processing? && id !in f.ticks[t].due
  {
    assert TickOk(s.rows, s.history, s.ticks[t]);
    hide Q.Inv;
    hide TasksOk;
  }

  /** A claimed schedule's creation is what the tick enqueues: under the schedule's id, to be tried once. */
  lemma ClaimedIsEnqueued(s: System, t: nat, queueNow: real)
    requires Inv(s) && t in s.ticks && s.ticks[t].Claimed?
    ensures var q, q' := s.queue, Next(s, TickEnqueue(t, queueNow)).queue;
            |q'.waiting| == |q.waiting| + 1 && q'.waiting[..|q.waiting|] == q.waiting
            && var task := q'.waiting[|q.waiting|];
            && task.kind == "create-scheduled-server" && task.data == s.ticks[t].schedule
            && task.retryConfig == None && task.scheduledAt == queueNow
  {
    assert TickOk(s.rows, s.history, s.ticks[t]);
    hide Q.Inv;
    hide TasksOk;
  }

  /** A new schedule triggers its lead time before it is due. */
  lemma NewScheduleTriggers(s: System, id: nat, userId: nat, scheduledAt: int, leadMinutes: nat, now: int)
    requires id !in s.rows
    ensures var s' := Next(s, Create(id, userId, scheduledAt, leadMinutes, now));
            && s'.rows.Keys == s.rows.Keys + {id}
            && (forall other | other in s.rows :: s'.rows[other] == s.rows[other])
            && s'.rows[id].userId == userId && s'.rows[id].status == Scheduled && s'.rows[id].serverId == None
            && s'.rows[id].scheduledAt == scheduledAt && s'.rows[id].triggerAt + 60000 * leadMinutes == scheduledAt
  {
  }

  /**
   A user's cancel picks a schedule of that user, not yet started, with the earliest time among
   the user's scheduled and creating ones; and none when that one has started, or there is none.
   */
  lemma CancelPicksFirst(s: System, c: nat, userId: nat, id: nat)
    requires c !in s.cancels
    ensures var picked := Next(s, CancelFind(c, userId, id)).cancels;
            (c in picked <==>
             && id in s.rows && s.rows[id].userId == userId && s.rows[id].status == Scheduled
             && forall other | other in s.rows && s.rows[other].userId == userId
                               && (s.rows[other].status == Scheduled || s.rows[other].status == Creating) ::
                  s.rows[id].scheduledAt <= s.rows[other].scheduledAt)
            && (c in picked ==> picked[c] == id)
  {
    if FirstActive(s.rows, userId, id) {
      assert forall other | other in s.rows && s.rows[other].userId == userId && s.rows[other].Active() ::
          s.rows[id].scheduledAt <= s.rows[other].scheduledAt;
    }
  }

  /** A committed cancel writes `cancelled` to that schedule if it is still `scheduled`, and nothing otherwise. */
  lemma CancelWrites(s: System, c: nat, now: int)
    requires c in s.cancels
    ensures var id, s' := s.cancels[c], Next(s, CancelCommit(c, now));
            s'.rows == if id in s.rows && s.rows[id].status == Scheduled
                       then s.rows[id := s.rows[id].(status := Cancelled, updatedAt := now)] else s.rows
  {
  }

  /** A creation that deploys writes `created` with the server's id; one that fails, then or later, `failed`. */
  lemma CreationWrites(s: System, task: nat, serverId: nat, now: int)
    requires task in s.creations && s.creations[task].schedule in s.rows
    ensures var id, row := s.creations[task].schedule, s.rows[s.creations[task].schedule];
            && Next(s, CreationSucceeds(task, serverId, now)).rows ==
               (if s.creations[task].Deploying?
                then s.rows[id := row.(status := Created, serverId := Some(serverId), updatedAt := now)] else s.rows)
            && Next(s, CreationFails(task, now)).rows ==
               (if s.creations[task].Deploying? || s.creations[task].Reporting?
                then s.rows[id := row.(status := Failed, serverId := None, updatedAt := now)] else s.rows)
  {
  }

  /** A tick begins at its own time; a restart forgets everything suspended or queued, but no row. */
  lemma BeginsAndRestarts(s: System, t: nat, now: int)
    ensures t !in s.ticks ==>
              t in Next(s, TickBegin(t, now)).ticks && Next(s, TickBegin(t, now)).ticks[t] == Started(now)
    ensures var s' := Next(s, Restart);
            && s'.rows == s.rows && s'.ticks == map[] && s'.cancels == map[] && s'.creations == map[]
            && s'.queue.waiting == [] && s'.queue.inFlight == map[]
  {
  }

  /** A queued creation begins when its processor is called, for its schedule, and goes on if that has a row. */
  lemma CreationBegins(s: System, id: nat, now: real)
    requires StartsCreation(s.queue, Q.Start(id, now))
    ensures var schedule := s.queue.inFlight[id].task.data;
            var begun := Next(s, QueueStep(Q.Start(id, now)));
            && id in begun.creations && begun.creations[id] == Begun(schedule)
            && var found := Next(begun, CreationFind(id));
            && found.rows == begun.rows && id in found.creations
            && found.creations[id] == if schedule in begun.rows then Deploying(schedule) else Over(schedule)
  {
    hide Q.Next;
  }

  // ---- Results over every run ----

  /**
   After any interleaving of ticks, cancellations, creations, queue steps and restarts, a
   schedule has been claimed at most once, enqueued at most once and its creation
   run at most once, each only after the one before; a cancellation that
   returned true and an enqueue exclude each other; and a claim was made by a
   tick that began between the trigger time and the end of the grace period.
   */
  lemma AtMostOnce(events: seq<Event>, id: nat)
    requires id in Run(INITIAL, events).rows
    ensures var s := Run(INITIAL, events);
            && id in s.history
            && var h := s.history[id];
            && h.runs <= h.enqueues <= h.claims <= 1
            && (1 <= h.cancellations ==> h.cancellations == 1 && h.enqueues == 0 && h.runs == 0)
            && (1 <= h.enqueues ==> h.cancellations == 0)
            && (1 <= h.claims ==> s.rows[id].triggerAt <= h.claimedAt <= s.rows[id].triggerAt + 1800000)
  {
    InitialInv();
    RunKeeps(INITIAL, events);
    var s := Run(INITIAL, events);
    assert RowOk(s.rows[id], s.history[id]);
  }

  /** In every reachable state, a queued creation's processor calls are exactly its schedule's runs. */
  lemma RunsAreProcessorCalls(events: seq<Event>, t: Q.Task)
    requires IsCreationTask(Run(INITIAL, events).queue, t)
    ensures var s := Run(INITIAL, events);
            && t.id in s.queue.tallies && t.data in s.history
            && s.queue.tallies[t.id].calls == s.history[t.data].runs <= 1 == s.history[t.data].enqueues
  {
    InitialInv();
    RunKeeps(INITIAL, events);
    var s := Run(INITIAL, events);
    assert TaskOk(s.queue, s.history, t);
    Q.HeldTask(s.queue, t);
  }

  /** No step returns a row to `scheduled`, removes it, or moves its trigger time. */
  lemma NeverBackToScheduled(s: System, e: Event, id: nat)
    requires id in s.rows
    ensures id in Next(s, e).rows && Next(s, e).rows[id].triggerAt == s.rows[id].triggerAt
    ensures Next(s, e).rows[id].status == Scheduled ==> s.rows[id].status == Scheduled
  {
    hide Q.Next;
    hide FirstActive;
    hide StartsCreation;
  }

  lemma {:induction false} NeverRescheduled(s: System, events: seq<Event>, id: nat)
    requires id in s.rows
    ensures id in Run(s, events).rows && Run(s, events).rows[id].triggerAt == s.rows[id].triggerAt
    ensures Run(s, events).rows[id].status == Scheduled ==> s.rows[id].status == Scheduled
    decreases |events|
  {
    hide Next;
    if events != [] {
      NeverBackToScheduled(s, events[0], id);
      NeverRescheduled(Next(s, events[0]), events[1..], id);
    }
  }
}

/**
 The schedule table as an object, and one cron tick that runs from start to end without
 another process's step in between.
 */
module ScheduledServerRepository {
  import opened Wrappers
  import opened ScheduledServers

  class SQLiteScheduledServerRepository {
    var rows: Table

    constructor ()
      ensures rows == map[]
    {
      rows := map[];
    }

    /** False is the primary-key error. */
    method CreateRow(id: nat, row: Row) returns (ok: bool)
      modifies this
      ensures ok == (id !in old(rows))
      ensures rows == if ok then old(rows)[id := row] else old(rows)
    {
      ok := id !in rows;
      if ok {
        rows := rows[id := row];
      }
    }

    /** The rows that a claim would still get, and whose trigger time has come. */
    method FindDue(now: int) returns (due: set<nat>)
      ensures forall id :: id in due <==> id in rows && rows[id].status == Scheduled && rows[id].triggerAt <= now
      ensures forall id :: id in due <==> SetIfScheduled(rows, id, Creating, now).1 && rows[id].triggerAt <= now
    {
      due := {};
      var left := rows.Keys;
      while left != {}
        invariant left <= rows.Keys
        invariant forall id :: id in due <==> id in rows && id !in left && Due(rows[id], now)
      {
        var id :| id in left;
        if rows[id].status == Scheduled && rows[id].triggerAt <= now {
          due := due + {id};
        }
        left := left - {id};
      }
    }

    /** The rows claimed, or last written, long enough ago; neither a claim nor a cancellation gets them any more. */
    method FindStuckCreating(now: int) returns (stuck: set<nat>)
      ensures forall id ::
                id in stuck <==> id in rows && rows[id].status == Creating && now - rows[id].updatedAt >= 1200000
      ensures forall id | id in stuck ::
                !SetIfScheduled(rows, id, Creating, now).1 && !SetIfScheduled(rows, id, Cancelled, now).1
    {
      var stuckBefore := now - STUCK_CREATING_THRESHOLD_MS;
      stuck := {};
      var left := rows.Keys;
      while left != {}
        invariant left <= rows.Keys
        invariant forall id :: id in stuck <==> id in rows && id !in left && Stuck(rows[id], now)
      {
        var id :| id in left;
        if rows[id].status == Creating && rows[id].updatedAt <= stuckBefore {
          stuck := stuck + {id};
        }
        left := left - {id};
      }
    }

    method ClaimForProcessing(id: nat, now: int) returns (claimed: bool)
      modifies this
      ensures claimed <==> id in old(rows) && old(rows)[id].status == Scheduled
      ensures rows ==
              if claimed then old(rows)[id := old(rows)[id].(status := Creating, updatedAt := now)] else old(rows)
    {
      claimed := id in rows && rows[id].status == Scheduled;
      if claimed {
        rows := rows[id := rows[id].(status := Creating, updatedAt := now)];
      }
    }

    method Cancel(id: nat, now: int) returns (cancelled: bool)
      modifies this
      ensures cancelled <==> id in old(rows) && old(rows)[id].status == Scheduled
      ensures rows ==
              if cancelled then old(rows)[id := old(rows)[id].(status := Cancelled, updatedAt := now)] else old(rows)
    {
      cancelled := id in rows && rows[id].status == Scheduled;
      if cancelled {
        rows := rows[id := rows[id].(status := Cancelled, updatedAt := now)];
      }
    }

    method MarkStatus(id: nat, status: ScheduleStatus, serverId: Option<nat>, now: int)
      modifies this
      ensures rows == if id !in old(rows) then old(rows)
                      else old(rows)[id := old(rows)[id].(status := status, serverId := serverId, updatedAt := now)]
    {
      if id in rows {
        rows := rows[id := rows[id].(status := status, serverId := serverId, updatedAt := now)];
      }
    }
  }

  /** What an undisturbed tick at `now` leaves of one row. */
  function Ticked(row: Row, now: int): Row {
    if Stuck(row, now) || (Due(row, now) && PastGrace(row.triggerAt, now))
    then row.(status := Failed, serverId := None, updatedAt := now)
    else if Due(row, now) then row.(status := Creating, updatedAt := now)
    else row
  }

  /**
   What a tick at `now` promises of a row, on the clock: within thirty minutes of its trigger time
   it is claimed and enqueued, later it fails, and a row twenty minutes in `creating` fails.
   */
  ghost predicate TickOutcome(row: Row, now: int, after: Row, enqueued: bool) {
    if row.status == Scheduled && row.triggerAt <= now <= row.triggerAt + 1800000 then
      enqueued && after == row.(status := Creating, updatedAt := now)
    else if (row.status == Scheduled && row.triggerAt + 1800000 < now)
            || (row.status == Creating && row.updatedAt + 1200000 <= now) then
      !enqueued && after == row.(status := Failed, serverId := None, updatedAt := now)
    else !enqueued && after == row
  }

  lemma TickedIsOutcome(row: Row, now: int)
    ensures TickOutcome(row, now, Ticked(row, now), Enqueued(row, now))
  {
  }

  /** Rows stuck in `creating` fail. */
  method RecoverStuck(repository: SQLiteScheduledServerRepository, now: int)
    modifies repository
    ensures repository.rows == map id | id in old(repository.rows) ::
              if Stuck(old(repository.rows)[id], now) then Ticked(old(repository.rows)[id], now)
              else old(repository.rows)[id]
  {
    ghost var all := repository.rows;
    var stuck := repository.FindStuckCreating(now);
    while stuck != {}
      invariant stuck <= set id | id in all && Stuck(all[id], now)
      invariant repository.rows == map id | id in all ::
                  if Stuck(all[id], now) && id !in stuck then Ticked(all[id], now) else all[id]
    {
      var id :| id in stuck;
      repository.MarkStatus(id, Failed, None, now);
      stuck := stuck - {id};
    }
  }

  /** A due row that the tick enqueues. */
  predicate Enqueued(row: Row, now: int) {
    Due(row, now) && !PastGrace(row.triggerAt, now)
  }

  /** One turn of the loop, for a row still due: it fails past the grace period and is claimed otherwise. */
  method ProcessOne(repository: SQLiteScheduledServerRepository, id: nat, now: int) returns (claimed: bool)
    requires id in repository.rows && Due(repository.rows[id], now)
    modifies repository
    ensures repository.rows == old(repository.rows)[id := Ticked(old(repository.rows)[id], now)]
    ensures claimed == Enqueued(old(repository.rows)[id], now)
    ensures TickOutcome(old(repository.rows)[id], now, repository.rows[id], claimed)
  {
    claimed := false;
    if PastGrace(repository.rows[id].triggerAt, now) {
      repository.MarkStatus(id, Failed, None, now);
    } else {
      claimed := repository.ClaimForProcessing(id, now);
    }
  }

  /** Due rows past the grace period fail; the others are claimed and enqueued. */
  method ProcessDue(repository: SQLiteScheduledServerRepository, now: int) returns (enqueued: seq<nat>)
    modifies repository
    ensures repository.rows == map id | id in old(repository.rows) ::
              if Due(old(repository.rows)[id], now) then Ticked(old(repository.rows)[id], now)
              else old(repository.rows)[id]
    ensures forall id :: id in enqueued <==> id in old(repository.rows) && Enqueued(old(repository.rows)[id], now)
    ensures forall i, j | 0 <= i < j < |enqueued| :: enqueued[i] != enqueued[j]
  {
    hide Ticked;
    ghost var all := repository.rows;
    enqueued := [];
    var due := repository.FindDue(now);
    while due != {}
      invariant due <= set id | id in all && Due(all[id], now)
      invariant repository.rows == map id | id in all ::
                  if Due(all[id], now) && id !in due then Ticked(all[id], now) else all[id]
      invariant forall id :: id in enqueued <==> id in all && Enqueued(all[id], now) && id !in due
      invariant forall i, j | 0 <= i < j < |enqueued| :: enqueued[i] != enqueued[j]
    {
      var id :| id in due;
      var claimed := ProcessOne(repository, id, now);
      if claimed {
        enqueued := enqueued + [id];
      }
      due := due - {id};
    }
  }

  /**
   ExecuteScheduledServers.execute, undisturbed: stuck and overdue rows fail, and exactly
   the rows due within the grace period are claimed and enqueued, once each.
   */
  method ExecuteTick(repository: SQLiteScheduledServerRepository, now: int) returns (enqueued: seq<nat>)
    modifies repository
    ensures repository.rows == map id | id in old(repository.rows) :: Ticked(old(repository.rows)[id], now)
    ensures forall id :: id in enqueued <==> id in old(repository.rows) && Enqueued(old(repository.rows)[id], now)
    ensures repository.rows.Keys == old(repository.rows).Keys && forall id | id in enqueued :: id in repository.rows
    ensures forall id | id in old(repository.rows) ::
              TickOutcome(old(repository.rows)[id], now, repository.rows[id], id in enqueued)
    ensures forall i, j | 0 <= i < j < |enqueued| :: enqueued[i] != enqueued[j]
  {
    RecoverStuck(repository, now);
    enqueued := ProcessDue(repository, now);
    hide TickOutcome;
    forall id | id in old(repository.rows)
      ensures TickOutcome(old(repository.rows)[id], now, repository.rows[id], id in enqueued)
    {
      TickedIsOutcome(old(repository.rows)[id], now);
    }
  }
}

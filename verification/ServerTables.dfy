/**
 The servers table with the two tables that SQL triggers keep beside it: the history, one
 row for every server ever created, and the activity, one row for every live
 server. Each operation is one SQL statement with its triggers; None is a
 statement that aborts.
 */
module ServerTables {
  import opened Wrappers

  /** Discord users and API clients create servers; their ids do not mix. */
  datatype Owner = DiscordUser(id: nat) | ApiClient(id: nat)

  datatype ServerStatus = Pending | Ready | Terminating

  datatype Server = Server(createdBy: Owner, status: ServerStatus, createdAt: int, variant: nat)

  datatype HistoryRow = HistoryRow(createdAt: int, createdBy: Owner, terminatedAt: Option<int>)

  datatype Activity = Activity(emptySince: Option<int>, lastCheckedAt: Option<int>)

  datatype Db = Db(servers: map<nat, Server>, history: map<nat, HistoryRow>, activity: map<nat, Activity>)

  const EMPTY := Db(map[], map[], map[])

  /** An insert fires both insert triggers, and a primary key already taken in either table aborts it. */
  function InsertServer(db: Db, id: nat, server: Server): Option<Db>
    requires id !in db.servers
  {
    if id in db.history || id in db.activity then None
    else Some(Db(
      db.servers[id := server],
      db.history[id := HistoryRow(server.createdAt, server.createdBy, None)],
      db.activity[id := Activity(None, None)]))
  }

  /** INSERT ... ON CONFLICT(serverId) MERGE: a conflict updates the row and fires no insert trigger. */
  function UpsertServer(db: Db, id: nat, server: Server): Option<Db> {
    if id in db.servers then Some(db.(servers := db.servers[id := server])) else InsertServer(db, id, server)
  }

  /** Deleting a live row stamps its history and cascades to its activity. */
  function DeleteServer(db: Db, id: nat, now: int): Db {
    if id !in db.servers then db
    else Db(
      db.servers - {id},
      if id in db.history then db.history[id := db.history[id].(terminatedAt := Some(now))] else db.history,
      db.activity - {id})
  }

  /** The foreign key aborts the write when the server is gone. */
  function UpsertActivity(db: Db, id: nat, activity: Activity): Option<Db> {
    if id in db.servers then Some(db.(activity := db.activity[id := activity])) else None
  }

  function DeleteActivity(db: Db, id: nat): Db {
    db.(activity := db.activity - {id})
  }

  /**
   Live servers, activity rows and open history rows are the same ids; a history row is
   open exactly while its server lives, and names its creator.
   */
  ghost predicate Consistent(db: Db) {
    && db.servers.Keys == db.activity.Keys
    && db.servers.Keys <= db.history.Keys
    && (forall id | id in db.history :: db.history[id].terminatedAt.None? <==> id in db.servers)
    && (forall id | id in db.servers :: db.history[id].createdBy == db.servers[id].createdBy)
  }

  /** A history row, once written, only ever gains its termination time, and that only once. */
  ghost predicate HistoryExtends(db: Db, db': Db) {
    forall id | id in db.history ::
      && id in db'.history
      && db'.history[id].createdAt == db.history[id].createdAt
      && db'.history[id].createdBy == db.history[id].createdBy
      && (db.history[id].terminatedAt.Some? ==> db'.history[id] == db.history[id])
  }

  /** An upsert succeeds exactly for a live server or for an id never used before. */
  lemma UpsertSucceedsIff(db: Db, id: nat, server: Server)
    requires Consistent(db)
    requires id in db.servers ==> server.createdBy == db.servers[id].createdBy
    ensures UpsertServer(db, id, server).Some? <==> (id in db.servers || id !in db.history)
    ensures UpsertServer(db, id, server).Some? ==>
              Consistent(UpsertServer(db, id, server).value) && HistoryExtends(db, UpsertServer(db, id, server).value)
  {
  }

  /** Deleting keeps the tables consistent, and the activity delete that callers issue after it finds nothing. */
  lemma DeleteKeeps(db: Db, id: nat, now: int)
    requires Consistent(db)
    ensures Consistent(DeleteServer(db, id, now)) && HistoryExtends(db, DeleteServer(db, id, now))
    ensures DeleteActivity(DeleteServer(db, id, now), id) == DeleteServer(db, id, now)
  {
    assert id !in db.servers ==> db.activity - {id} == db.activity;
    assert (db.activity - {id}) - {id} == db.activity - {id};
  }

  // ---- Statements over several rows ----

  function MarkTerminating(server: Server): Server {
    server.(status := Terminating)
  }

  /** Every row of an owner is marked. */
  function MarkOwner(db: Db, owner: Owner): Db {
    db.(servers := map id | id in db.servers ::
          if db.servers[id].createdBy == owner then MarkTerminating(db.servers[id]) else db.servers[id])
  }

  /** The rows in `ids` are deleted, with their activity. */
  function DeleteAll(db: Db, ids: set<nat>, now: int): Db {
    Db(
      db.servers - ids,
      map id | id in db.history ::
        if id in ids && id in db.servers then db.history[id].(terminatedAt := Some(now)) else db.history[id],
      db.activity - ids)
  }

  lemma DeleteAllKeeps(db: Db, ids: set<nat>, now: int)
    requires Consistent(db)
    ensures Consistent(DeleteAll(db, ids, now)) && HistoryExtends(db, DeleteAll(db, ids, now))
  {
  }

  lemma DeleteOneMore(db: Db, ids: set<nat>, id: nat, now: int)
    requires Consistent(db) && id !in ids
    ensures DeleteActivity(DeleteServer(DeleteAll(db, ids, now), id, now), id) == DeleteAll(db, ids + {id}, now)
  {
    DeleteAllKeeps(db, ids, now);
    DeleteKeeps(DeleteAll(db, ids, now), id, now);
    OneMoreHistory(db, ids, id, now);
    assert db.servers - ids - {id} == db.servers - (ids + {id});
    assert db.activity - ids - {id} == db.activity - (ids + {id});
    assert id !in db.servers ==> db.servers - (ids + {id}) == db.servers - ids;
    assert id !in db.servers ==> db.activity - (ids + {id}) == db.activity - ids;
  }

  lemma OneMoreHistory(db: Db, ids: set<nat>, id: nat, now: int)
    requires Consistent(db) && id !in ids
    ensures DeleteServer(DeleteAll(db, ids, now), id, now).history == DeleteAll(db, ids + {id}, now).history
  {
  }

  // ---- The tables as an object ----

  class SQLiteServerTables {
    var servers: map<nat, Server>
    var history: map<nat, HistoryRow>
    var activity: map<nat, Activity>

    function View(): Db
      reads this
    {
      Db(servers, history, activity)
    }

    constructor ()
      ensures View() == EMPTY
    {
      servers, history, activity := map[], map[], map[];
    }

    /** False is the aborted statement. */
    method Upsert(id: nat, server: Server) returns (ok: bool)
      modifies this
      ensures ok <==> id in old(servers) || (id !in old(history) && id !in old(activity))
      ensures servers == if ok then old(servers)[id := server] else old(servers)
      ensures history == if ok && id !in old(servers)
                         then old(history)[id := HistoryRow(server.createdAt, server.createdBy, None)] else old(history)
      ensures activity == if ok && id !in old(servers)
                          then old(activity)[id := Activity(None, None)] else old(activity)
      ensures ok == UpsertServer(old(View()), id, server).Some?
      ensures View() == if ok then UpsertServer(old(View()), id, server).value else old(View())
    {
      if id in servers {
        servers := servers[id := server];
        return true;
      }
      if id in history || id in activity {
        return false;
      }
      servers := servers[id := server];
      history := history[id := HistoryRow(server.createdAt, server.createdBy, None)];
      activity := activity[id := Activity(None, None)];
      return true;
    }

    method Delete(id: nat, now: int)
      modifies this
      ensures View() == DeleteServer(old(View()), id, now)
      ensures id in old(servers) ==> servers == old(servers) - {id} && activity == old(activity) - {id}
      ensures history == if id in old(servers) && id in old(history)
                         then old(history)[id := old(history)[id].(terminatedAt := Some(now))] else old(history)
      ensures id !in old(servers) ==> View() == old(View())
    {
      if id in servers {
        servers := servers - {id};
        if id in history {
          history := history[id := history[id].(terminatedAt := Some(now))];
        }
        activity := activity - {id};
      }
    }

    method DeleteActivityById(id: nat)
      modifies this
      ensures View() == DeleteActivity(old(View()), id)
    {
      activity := activity - {id};
    }

    /** The first transaction of DeleteServerForUser: row by row, every server of the user is marked. */
    method MarkAllTerminating(owner: Owner)
      modifies this
      ensures View() == MarkOwner(old(View()), owner)
      ensures servers.Keys == old(servers).Keys && forall id | id in servers ::
                servers[id] == if old(servers)[id].createdBy == owner
                               then old(servers)[id].(status := Terminating) else old(servers)[id]
    {
      ghost var before := View();
      var rows := set id | id in servers && servers[id].createdBy == owner;
      while rows != {}
        invariant history == before.history && activity == before.activity
        invariant rows <= set id | id in before.servers && before.servers[id].createdBy == owner
        invariant servers == map id | id in before.servers ::
                    if before.servers[id].createdBy == owner && id !in rows
                    then MarkTerminating(before.servers[id]) else before.servers[id]
      {
        hide MarkTerminating;
        var id :| id in rows;
        var ok := Upsert(id, MarkTerminating(servers[id]));
        rows := rows - {id};
      }
    }

    /** The last transaction of DeleteServerForUser: the rows whose cloud deletion succeeded go, one by one. */
    method DeleteRows(ids: set<nat>, now: int)
      requires Consistent(View())
      modifies this
      ensures View() == DeleteAll(old(View()), ids, now)
      ensures servers == old(servers) - ids && activity == old(activity) - ids && history.Keys == old(history).Keys
      ensures forall id | id in history ::
                history[id] == if id in ids && id in old(servers)
                               then old(history)[id].(terminatedAt := Some(now)) else old(history)[id]
      ensures Consistent(View())
    {
      ghost var before := View();
      var left := ids;
      ghost var gone: set<nat> := {};
      NothingDeleted(before, now);
      while left != {}
        invariant gone + left == ids && gone !! left
        invariant View() == DeleteAll(before, gone, now)
      {
        var id :| id in left;
        DeleteOneMore(before, gone, id, now);
        Delete(id, now);
        DeleteActivityById(id);
        gone, left := gone + {id}, left - {id};
      }
      assert gone == ids;
      DeleteAllKeeps(before, ids, now);
    }
  }

  lemma NothingDeleted(db: Db, now: int)
    ensures DeleteAll(db, {}, now) == db
  {
  }
}

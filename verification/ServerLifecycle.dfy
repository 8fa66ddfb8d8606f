/**
 The life of a server row: created pending, deployed, made ready, marked terminating,
 deleted in the cloud and then from the tables. Transactions are serialised and
 are one step each; deployments and deletions are suspended between steps.
 Cloud calls succeed or fail arbitrarily.
 */
module ServerLifecycle {
  import opened Wrappers
  import opened ServerTables

  const PENDING_LIMIT_MS := 15 * 60 * 1000
  const LONG_RUNNING_LIMIT_MS := 12 * 60 * 60 * 1000

  datatype Deployment = Deployment(owner: Owner, variant: nat)

  /** A suspended deletion: one server or a user's servers are marked, or cloud calls are under way. */
  datatype Deletion =
    | MarkedOne(id: nat)
    | MarkedUser(user: nat)
    | InCloud(todo: set<nat>, done: set<nat>, together: bool)

  datatype System = System(db: Db, deployments: map<nat, Deployment>, deletions: map<nat, Deletion>)

  const INITIAL := System(EMPTY, map[], map[])

  datatype Event =
    | CreateForUser(id: nat, user: nat, variant: nat, now: int)
    | CreateForClient(id: nat, client: nat, variant: nat, now: int)
    | DeployFinished(id: nat, ok: bool, createdAt: int)
    | MarkOne(deletion: nat, id: nat)
    | ListOne(deletion: nat)
    | MarkUser(deletion: nat, user: nat)
    | ListUser(deletion: nat)
    | ListPending(deletion: nat, now: int)
    | ListLongRunning(deletion: nat, now: int)
    | CloudDelete(deletion: nat, id: nat, ok: bool)
    | RemoveRow(deletion: nat, id: nat, now: int)
    | RemoveTogether(deletion: nat, now: int)
    | DeletionEnds(deletion: nat)
    | WriteActivity(id: nat, activity: Activity)

  predicate Runs(db: Db, id: nat, user: nat) {
    id in db.servers && db.servers[id].createdBy == DiscordUser(user) && db.servers[id].status != Terminating
  }

  function Created(s: System, id: nat, owner: Owner, variant: nat, now: int): System {
    match UpsertServer(s.db, id, Server(owner, Pending, now, variant))
    case None => s
    case Some(db) => s.(db := db, deployments := s.deployments[id := Deployment(owner, variant)])
  }

  /** The transaction of CreateServerForUser: refused while the user has a pending or ready server. */
  function CreateForUserStep(s: System, id: nat, user: nat, variant: nat, now: int): System {
    if exists other | other in s.db.servers :: Runs(s.db, other, user) then s
    else Created(s, id, DiscordUser(user), variant, now)
  }

  /** A deployment ends: a successful one upserts the row as ready, whatever has become of the row. */
  function DeployFinishedStep(s: System, id: nat, ok: bool, createdAt: int): System
    requires id in s.deployments
  {
    var d := s.deployments[id];
    var rest := s.(deployments := s.deployments - {id});
    if !ok then rest
    else match UpsertServer(s.db, id, Server(d.owner, Ready, createdAt, d.variant))
         case None => rest
         case Some(db) => rest.(db := db)
  }

  function MarkOneStep(s: System, deletion: nat, id: nat): System {
    if id !in s.db.servers then s
    else s.(db := s.db.(servers := s.db.servers[id := MarkTerminating(s.db.servers[id])]),
            deletions := s.deletions[deletion := MarkedOne(id)])
  }

  /** The rows that a cleanup routine selects. */
  function Stale(db: Db, pendingOnly: bool, limit: int, now: int): set<nat> {
    set id | id in db.servers && now - db.servers[id].createdAt >= limit &&
        (pendingOnly ==> db.servers[id].status == Pending)
  }

  /** The steps that open a suspended deletion use a name not in use. */
  function OpenStep(s: System, e: Event): System
    requires e.MarkOne? || e.MarkUser? || e.ListPending? || e.ListLongRunning?
  {
    if e.deletion in s.deletions then s
    else match e
         case MarkOne(d, id) => MarkOneStep(s, d, id)
         case MarkUser(d, user) =>
           s.(db := MarkOwner(s.db, DiscordUser(user)), deletions := s.deletions[d := MarkedUser(user)])
         case ListPending(d, now) =>
           s.(deletions := s.deletions[d := InCloud(Stale(s.db, true, PENDING_LIMIT_MS, now), {}, false)])
         case ListLongRunning(d, now) =>
           s.(deletions := s.deletions[d := InCloud(Stale(s.db, false, LONG_RUNNING_LIMIT_MS, now), {}, false)])
  }

  function ListStep(s: System, deletion: nat): System
    requires deletion in s.deletions
  {
    match s.deletions[deletion]
    case MarkedOne(id) =>
      s.(deletions := s.deletions[deletion := InCloud(if id in s.db.servers then {id} else {}, {}, false)])
    case MarkedUser(user) =>
      var marked := set id | id in s.db.servers && s.db.servers[id].createdBy == DiscordUser(user) &&
                             s.db.servers[id].status == Terminating;
      s.(deletions := s.deletions[deletion := InCloud(marked, {}, true)])
    case InCloud(_, _, _) => s
  }

  function CloudStep(s: System, e: Event): System
    requires e.CloudDelete? || e.RemoveRow? || e.RemoveTogether?
    requires e.deletion in s.deletions && s.deletions[e.deletion].InCloud?
  {
    var d := s.deletions[e.deletion];
    match e
    case CloudDelete(name, id, ok) =>
      if id !in d.todo then s
      else s.(deletions := s.deletions[name := InCloud(d.todo - {id},
          if ok then d.done + {id} else d.done, d.together)])
    case RemoveRow(name, id, now) =>
      if id !in d.done || d.together then s
      else s.(db := DeleteServer(s.db, id, now),
              deletions := s.deletions[name := InCloud(d.todo, d.done - {id}, false)])
    case RemoveTogether(name, now) =>
      if d.todo != {} || !d.together then s
      else s.(db := DeleteAll(s.db, d.done, now), deletions := s.deletions - {name})
  }

  function Next(s: System, e: Event): System {
    match e
    case CreateForUser(id, user, variant, now) =>
      if id in s.db.servers then s else CreateForUserStep(s, id, user, variant, now)
    case CreateForClient(id, client, variant, now) =>
      if id in s.db.servers then s else Created(s, id, ApiClient(client), variant, now)
    case DeployFinished(id, ok, createdAt) =>
      if id in s.deployments then DeployFinishedStep(s, id, ok, createdAt) else s
    case ListOne(d) => if d in s.deletions && s.deletions[d].MarkedOne? then ListStep(s, d) else s
    case ListUser(d) => if d in s.deletions && s.deletions[d].MarkedUser? then ListStep(s, d) else s
    case DeletionEnds(d) => s.(deletions := s.deletions - {d})
    case WriteActivity(id, activity) =>
      if id in s.db.servers then s.(db := UpsertActivity(s.db, id, activity).value) else s
    case CloudDelete(d, _, _) => if d in s.deletions && s.deletions[d].InCloud? then CloudStep(s, e) else s
    case RemoveRow(d, _, _) => if d in s.deletions && s.deletions[d].InCloud? then CloudStep(s, e) else s
    case RemoveTogether(d, _) => if d in s.deletions && s.deletions[d].InCloud? then CloudStep(s, e) else s
    case _ => OpenStep(s, e)
  }

  function Run(s: System, events: seq<Event>): System
    decreases |events|
  {
    if events == [] then s else Run(Next(s, events[0]), events[1..])
  }

  // ---- The three tables stay consistent ----

  /** A deployment knows the owner that the history recorded for its server. */
  ghost predicate DeploymentsOwned(s: System) {
    forall id | id in s.deployments :: id in s.db.history && s.db.history[id].createdBy == s.deployments[id].owner
  }

  ghost predicate Inv(s: System) {
    Consistent(s.db) && DeploymentsOwned(s)
  }

  lemma CreatedKeeps(s: System, id: nat, owner: Owner, variant: nat, now: int)
    requires Inv(s) && id !in s.db.servers
    ensures Inv(Created(s, id, owner, variant, now)) && HistoryExtends(s.db, Created(s, id, owner, variant, now).db)
  {
    UpsertSucceedsIff(s.db, id, Server(owner, Pending, now, variant));
  }

  lemma DeployFinishedKeeps(s: System, id: nat, ok: bool, createdAt: int)
    requires Inv(s) && id in s.deployments
    ensures var s' := DeployFinishedStep(s, id, ok, createdAt);
            Inv(s') && HistoryExtends(s.db, s'.db)
  {
    var d := s.deployments[id];
    UpsertSucceedsIff(s.db, id, Server(d.owner, Ready, createdAt, d.variant));
  }

  /** Marking rows terminating, and writing activity, leave the ids of all three tables alone. */
  lemma MarkingKeeps(s: System, e: Event)
    requires Inv(s) && (e.MarkOne? || e.MarkUser? || e.ListPending? || e.ListLongRunning? || e.WriteActivity?)
    ensures Inv(Next(s, e)) && HistoryExtends(s.db, Next(s, e).db)
  {
    hide Stale;
    match e
    case MarkUser(_, _) =>
    case WriteActivity(_, _) =>
    case _ =>
  }

  lemma CloudKeeps(s: System, e: Event)
    requires Inv(s) && (e.CloudDelete? || e.RemoveRow? || e.RemoveTogether?)
    ensures Inv(Next(s, e)) && HistoryExtends(s.db, Next(s, e).db)
  {
    hide DeleteServer;
    hide DeleteAll;
    if e.deletion in s.deletions && s.deletions[e.deletion].InCloud? {
      match e
      case RemoveRow(_, id, now) => DeleteKeeps(s.db, id, now);
      case RemoveTogether(d, now) => DeleteAllKeeps(s.db, s.deletions[d].done, now);
      case _ =>
    }
  }

  lemma NextKeeps(s: System, e: Event)
    requires Inv(s)
    ensures Inv(Next(s, e)) && HistoryExtends(s.db, Next(s, e).db)
  {
    hide CreateForUserStep;
    match e
    case CreateForUser(id, user, variant, now) =>
      if id !in s.db.servers { CreateForUserKeeps(s, id, user, variant, now); }
    case CreateForClient(id, client, variant, now) =>
      if id !in s.db.servers { CreatedKeeps(s, id, ApiClient(client), variant, now); }
    case DeployFinished(id, ok, createdAt) =>
      if id in s.deployments { DeployFinishedKeeps(s, id, ok, createdAt); }
    case CloudDelete(_, _, _) => CloudKeeps(s, e);
    case RemoveRow(_, _, _) => CloudKeeps(s, e);
    case RemoveTogether(_, _) => CloudKeeps(s, e);
    case ListOne(_) =>
    case ListUser(_) =>
    case DeletionEnds(_) =>
    case _ => MarkingKeeps(s, e);
  }

  lemma CreateForUserKeeps(s: System, id: nat, user: nat, variant: nat, now: int)
    requires Inv(s) && id !in s.db.servers
    ensures var s' := CreateForUserStep(s, id, user, variant, now);
            Inv(s') && HistoryExtends(s.db, s'.db)
  {
    CreatedKeeps(s, id, DiscordUser(user), variant, now);
  }

  lemma {:induction false} RunKeeps(s: System, events: seq<Event>)
    requires Inv(s)
    ensures Inv(Run(s, events)) && HistoryExtends(s.db, Run(s, events).db)
    decreases |events|
  {
    hide Inv;
    if events != [] {
      NextKeeps(s, events[0]);
      RunKeeps(Next(s, events[0]), events[1..]);
    }
  }

  /**
   After any run the three tables agree, and a server id that has been deleted never comes
   back, not even when a deployment of it finishes late: its history row is
   closed for good.
   */
  lemma TablesAgreeAndDeletedStaysDeleted(before: seq<Event>, after: seq<Event>, id: nat)
    ensures Consistent(Run(INITIAL, before).db)
    ensures var s, s' := Run(INITIAL, before), Run(Run(INITIAL, before), after);
            id in s.db.history && id !in s.db.servers ==>
              id in s'.db.history && id !in s'.db.servers && s'.db.history[id] == s.db.history[id]
  {
    RunKeeps(INITIAL, before);
    RunKeeps(Run(INITIAL, before), after);
  }

  // ---- One running server for each Discord user ----

  ghost predicate AtMostOneRunning(db: Db) {
    forall a, b | a in db.servers && b in db.servers
                  && db.servers[a].createdBy.DiscordUser? && db.servers[a].createdBy == db.servers[b].createdBy
                  && (db.servers[a].status == Pending || db.servers[a].status == Ready)
                  && (db.servers[b].status == Pending || db.servers[b].status == Ready) :: a == b
  }

  /** Seen user by user. */
  lemma AtMostOneForEachUser(db: Db)
    ensures AtMostOneRunning(db) <==> forall user, a, b | Runs(db, a, user) && Runs(db, b, user) :: a == b
  {
    if forall user, a, b | Runs(db, a, user) && Runs(db, b, user) :: a == b {
      forall a, b | a in db.servers && b in db.servers
                    && db.servers[a].createdBy.DiscordUser? && db.servers[a].createdBy == db.servers[b].createdBy
                    && (db.servers[a].status == Pending || db.servers[a].status == Ready)
                    && (db.servers[b].status == Pending || db.servers[b].status == Ready)
        ensures a == b
      {
        var user := db.servers[a].createdBy.id;
        assert Runs(db, a, user) && Runs(db, b, user);
      }
    }
  }

  /** A deployment finishes on a row already marked terminating, while its owner runs another server. */
  ghost predicate RevivesTerminating(s: System, e: Event) {
    && e.DeployFinished? && e.ok && e.id in s.deployments
    && e.id in s.db.servers && s.db.servers[e.id].status == Terminating
    && exists user, other :: s.deployments[e.id].owner == DiscordUser(user) && Runs(s.db, other, user)
  }

  /** A step makes a server run only by creating it or by reviving a terminating one. */
  lemma NewlyRunning(s: System, e: Event, id: nat, user: nat)
    requires Inv(s) && Runs(Next(s, e).db, id, user) && !Runs(s.db, id, user)
    ensures (e.CreateForUser? && e.id == id && e.user == user && forall other :: !Runs(s.db, other, user)) ||
            (e.DeployFinished? && e.ok && e.id == id && id in s.deployments &&
             s.deployments[id].owner == DiscordUser(user) &&
             id in s.db.servers && s.db.servers[id].status == Terminating)
  {
    hide Stale;
    match e
    case RemoveTogether(_, _) =>
    case _ =>
  }

  /**
   A step keeps every Discord user at one pending or ready server at most, exactly when it
   is not a deployment finishing on a terminating row of a user who runs another.
   */
  lemma OneRunningKeptIff(s: System, e: Event)
    requires Inv(s) && AtMostOneRunning(s.db)
    ensures AtMostOneRunning(Next(s, e).db) <==> !RevivesTerminating(s, e)
  {
    var s' := Next(s, e);
    AtMostOneForEachUser(s.db);
    AtMostOneForEachUser(s'.db);
    hide AtMostOneRunning;
    if !RevivesTerminating(s, e) {
      forall user, a, b | Runs(s'.db, a, user) && Runs(s'.db, b, user)
        ensures a == b
      {
        if !Runs(s.db, a, user) {
          NewlyRunning(s, e, a, user);
        }
        if !Runs(s.db, b, user) {
          NewlyRunning(s, e, b, user);
        }
      }
    } else {
      Revived(s, e);
    }
  }

  lemma Revived(s: System, e: Event)
    requires Inv(s) && RevivesTerminating(s, e)
    ensures !AtMostOneRunning(Next(s, e).db)
  {
    var user, other :| s.deployments[e.id].owner == DiscordUser(user) && Runs(s.db, other, user);
    assert Runs(s.db, other, user);
    var s' := Next(s, e);
    AtMostOneForEachUser(s'.db);
    assert Runs(s'.db, e.id, user) && Runs(s'.db, other, user);
  }

  /** Before and after every step of the run, each Discord user has one pending or ready server at most. */
  ghost predicate OneRunningThroughout(s: System, events: seq<Event>)
    decreases |events|
  {
    AtMostOneRunning(s.db) && (events != [] ==> OneRunningThroughout(Next(s, events[0]), events[1..]))
  }

  ghost predicate SomeStepRevives(s: System, events: seq<Event>)
    decreases |events|
  {
    events != [] && (RevivesTerminating(s, events[0]) || SomeStepRevives(Next(s, events[0]), events[1..]))
  }

  lemma {:induction false} OneRunningOverRun(s: System, events: seq<Event>)
    requires Inv(s) && AtMostOneRunning(s.db)
    ensures OneRunningThroughout(s, events) <==> !SomeStepRevives(s, events)
    decreases |events|
  {
    hide Inv;
    hide AtMostOneRunning;
    hide RevivesTerminating;
    hide Next;
    if events != [] {
      NextKeeps(s, events[0]);
      OneRunningKeptIff(s, events[0]);
      if !RevivesTerminating(s, events[0]) {
        OneRunningOverRun(Next(s, events[0]), events[1..]);
      }
    }
  }

  /**
   Across slash-command and API creations, deployments, deletions and cleanups in any order:
   every Discord user has at most one pending or ready server throughout, exactly
   when no deployment finishes on a row that is already marked terminating while
   its owner runs another.
   */
  lemma OneRunningServerPerUser(events: seq<Event>)
    ensures OneRunningThroughout(INITIAL, events) <==> !SomeStepRevives(INITIAL, events)
  {
    OneRunningOverRun(INITIAL, events);
  }

  lemma RunUnfolds(s: System, events: seq<Event>)
    requires events != []
    ensures Run(s, events) == Run(Next(s, events[0]), events[1..])
  {
  }

  /** Terminating a server while it deploys, and creating another, leaves a user with two. */
  lemma TwoServersAfterRevival(user: nat)
    ensures var e := [CreateForUser(1, user, 0, 0), MarkUser(0, user),
                      CreateForUser(2, user, 0, 5), DeployFinished(1, true, 9)];
            Runs(Run(INITIAL, e).db, 1, user) && Runs(Run(INITIAL, e).db, 2, user)
  {
    var e := [CreateForUser(1, user, 0, 0), MarkUser(0, user),
              CreateForUser(2, user, 0, 5), DeployFinished(1, true, 9)];
    var s1 := Next(INITIAL, e[0]);
    var s2 := Next(s1, e[1]);
    var s3 := Next(s2, e[2]);
    RunUnfolds(INITIAL, e);
    RunUnfolds(s1, e[1..]);
    RunUnfolds(s2, e[2..]);
    RunUnfolds(s3, e[3..]);
    hide Run;
    CreatedAndMarked(user, s1, s2);
    hide INITIAL;
    assert s3.deployments[1].owner == DiscordUser(user) && Runs(s3.db, 2, user) && 1 in s3.db.servers;
    var s4 := Next(s3, e[3]);
    assert Runs(s4.db, 1, user) && Runs(s4.db, 2, user);
    RunOfNothing(s4, e[3..][1..]);
  }

  lemma CreatedAndMarked(user: nat, created: System, marked: System)
    requires created == Next(INITIAL, CreateForUser(1, user, 0, 0)) && marked == Next(created, MarkUser(0, user))
    ensures 1 in marked.deployments && marked.deployments[1].owner == DiscordUser(user)
    ensures marked.db.servers.Keys == marked.db.history.Keys == marked.db.activity.Keys == {1}
    ensures marked.db.servers[1].status == Terminating
  {
    assert created.deployments[1].owner == DiscordUser(user) && created.db.servers.Keys == {1};
    assert created.db.servers[1].createdBy == DiscordUser(user);
  }

  lemma RunOfNothing(s: System, events: seq<Event>)
    requires events == []
    ensures Run(s, events) == s
  {
  }

  // ---- A row goes only after its machine ----

  /** The servers for which the events report a successful cloud deletion. */
  function CloudDeleted(events: seq<Event>): set<nat> {
    set e | e in events && e.CloudDelete? && e.ok :: e.id
  }

  /** No suspended deletion counts a server as deleted in the cloud that is not in `gone`. */
  ghost predicate DoneWithin(s: System, gone: set<nat>) {
    forall d | d in s.deletions && s.deletions[d].InCloud? :: s.deletions[d].done <= gone
  }

  lemma StepRemovesOnlyGone(s: System, e: Event, gone: set<nat>)
    requires DoneWithin(s, gone)
    ensures var more := if e.CloudDelete? && e.ok then gone + {e.id} else gone;
            DoneWithin(Next(s, e), more) && s.db.servers.Keys - Next(s, e).db.servers.Keys <= more
  {
    hide Runs;
    hide Stale;
    match e
    case RemoveRow(_, _, _) =>
    case RemoveTogether(_, _) =>
    case _ =>
  }

  lemma {:induction false} RunRemovesOnlyGone(s: System, events: seq<Event>, gone: set<nat>)
    requires DoneWithin(s, gone)
    ensures DoneWithin(Run(s, events), gone + CloudDeleted(events))
    ensures s.db.servers.Keys - Run(s, events).db.servers.Keys <= gone + CloudDeleted(events)
    decreases |events|
  {
    if events == [] {
      assert gone + CloudDeleted(events) == gone;
    } else {
      var e := events[0];
      var more := if e.CloudDelete? && e.ok then gone + {e.id} else gone;
      StepRemovesOnlyGone(s, e, gone);
      hide Next;
      RunRemovesOnlyGone(Next(s, e), events[1..], more);
      CloudDeletedCons(events);
      assert more + CloudDeleted(events[1..]) == gone + CloudDeleted(events);
    }
  }

  lemma CloudDeletedCons(events: seq<Event>)
    requires events != []
    ensures CloudDeleted(events) ==
            CloudDeleted(events[1..]) + if events[0].CloudDelete? && events[0].ok then {events[0].id} else {}
  {
    assert events == [events[0]] + events[1..];
  }

  /**
   Over every run from the start: a server that has a row at one point and none later was
   reported deleted in the cloud by a step before that.
   */
  lemma RemovedOnlyAfterCloud(before: seq<Event>, after: seq<Event>, id: nat)
    requires id in Run(INITIAL, before).db.servers && id !in Run(Run(INITIAL, before), after).db.servers
    ensures exists i :: 0 <= i < |before + after| && (before + after)[i].CloudDelete?
                        && (before + after)[i].id == id && (before + after)[i].ok
  {
    var s := Run(INITIAL, before);
    RunRemovesOnlyGone(INITIAL, before, {});
    RunRemovesOnlyGone(s, after, {} + CloudDeleted(before));
    assert id in s.db.servers.Keys - Run(s, after).db.servers.Keys;
    hide Run;
    hide CloudDeleted;
    if id in CloudDeleted(before) {
      var i := ReportedAt(before, id);
      assert (before + after)[i] == before[i];
    } else {
      var i := ReportedAt(after, id);
      assert (before + after)[|before| + i] == after[i];
    }
  }

  lemma ReportedAt(events: seq<Event>, id: nat) returns (i: nat)
    requires id in CloudDeleted(events)
    ensures i < |events| && events[i].CloudDelete? && events[i].id == id && events[i].ok
  {
    var e :| e in events && e.CloudDelete? && e.ok && e.id == id;
    i :| i < |events| && events[i] == e;
  }

  // ---- One deletion, call by call ----

  /** How the first cloud call of deletion d for this server ended, if there was one. */
  function FirstOutcome(events: seq<Event>, d: nat, id: nat): Option<bool> {
    if events == [] then None
    else if events[0].CloudDelete? && events[0].deletion == d && events[0].id == id then Some(events[0].ok)
    else FirstOutcome(events[1..], d, id)
  }

  /** The step neither ends deletion d nor removes a row in its name. */
  predicate Leaves(e: Event, d: nat) {
    && !(e.DeletionEnds? && e.deletion == d)
    && !(e.RemoveTogether? && e.deletion == d)
    && !(e.RemoveRow? && e.deletion == d)
  }

  lemma StepOfDeletion(s: System, e: Event, d: nat)
    requires d in s.deletions && s.deletions[d].InCloud? && Leaves(e, d)
    ensures var c := s.deletions[d];
            d in Next(s, e).deletions && Next(s, e).deletions[d] ==
              if e.CloudDelete? && e.deletion == d && e.id in c.todo
              then InCloud(c.todo - {e.id}, if e.ok then c.done + {e.id} else c.done, c.together) else c
  {
    hide Runs;
    hide Stale;
    hide DeleteServer;
    hide DeleteAll;
    hide UpsertServer;
    hide MarkOwner;
  }

  /** Whatever else happens meanwhile, a deletion knows of each of its servers how its own cloud call ended. */
  lemma {:induction false} DeletionKnowsOutcomes(s: System, events: seq<Event>, d: nat, id: nat)
    requires d in s.deletions && s.deletions[d].InCloud? && forall e | e in events :: Leaves(e, d)
    requires id !in s.deletions[d].done || id !in s.deletions[d].todo
    ensures var s' := Run(s, events);
            && d in s'.deletions && s'.deletions[d].InCloud?
            && s'.deletions[d].together == s.deletions[d].together
            && (id in s'.deletions[d].todo <==> id in s.deletions[d].todo && FirstOutcome(events, d, id) == None)
            && (id in s'.deletions[d].done <==>
                id in s.deletions[d].done
                || (id in s.deletions[d].todo && FirstOutcome(events, d, id) == Some(true)))
    decreases |events|
  {
    if events != [] {
      assert Leaves(events[0], d);
      hide Leaves;
      StepOfDeletion(s, events[0], d);
      hide Next;
      assert forall e | e in events[1..] :: e in events;
      var s1 := Next(s, events[0]);
      DeletionKnowsOutcomes(s1, events[1..], d, id);
      if id !in s1.deletions[d].todo {
        assert id in s1.deletions[d].done <==> id in Run(s1, events[1..]).deletions[d].done;
      }
    }
  }

  /**
   A user's deletion, from its list of servers on: when all cloud calls have ended, its last
   transaction removes the servers whose own call succeeded, stamps their history and drops
   their activity; a server whose call failed keeps its row, its activity and an open
   history row, and so does every other server.
   */
  lemma TogetherRemovesWhatSucceeded(s: System, events: seq<Event>, d: nat, now: int, id: nat)
    requires Inv(s) && d in s.deletions && s.deletions[d].InCloud? && s.deletions[d].together
    requires s.deletions[d].done == {} && forall e | e in events :: Leaves(e, d)
    requires forall x | x in s.deletions[d].todo :: FirstOutcome(events, d, x).Some?
    requires id in Run(s, events).db.servers
    ensures var db, db' := Run(s, events).db, Next(Run(s, events), RemoveTogether(d, now)).db;
            if id in s.deletions[d].todo && FirstOutcome(events, d, id) == Some(true) then
              && id !in db'.servers && id !in db'.activity
              && id in db'.history && db'.history[id].terminatedAt == Some(now)
            else
              && id in db'.servers && db'.servers[id] == db.servers[id]
              && id in db'.activity && db'.activity[id] == db.activity[id]
              && id in db'.history && db'.history[id].terminatedAt == None
  {
    DeletionKnowsOutcomes(s, events, d, id);
    RunKeeps(s, events);
    hide Run;
    hide Next;
    hide Inv;
    var s' := Run(s, events);
    forall x
      ensures x !in s'.deletions[d].todo
    {
      DeletionKnowsOutcomes(s, events, d, x);
    }
    TogetherStep(s', d, now, id);
  }

  lemma TogetherStep(s: System, d: nat, now: int, id: nat)
    requires Inv(s) && d in s.deletions && s.deletions[d].InCloud? && s.deletions[d].together
    requires s.deletions[d].todo == {} && id in s.db.servers
    ensures var db, db' := s.db, Next(s, RemoveTogether(d, now)).db;
            if id in s.deletions[d].done then
              && id !in db'.servers && id !in db'.activity
              && id in db'.history && db'.history[id].terminatedAt == Some(now)
            else
              && id in db'.servers && db'.servers[id] == db.servers[id]
              && id in db'.activity && db'.activity[id] == db.activity[id]
              && id in db'.history && db'.history[id].terminatedAt == None
  {
  }

  /** A single deletion or a cleanup removes a row exactly when its own cloud call has succeeded, and no other row. */
  lemma RowRemovedIffSucceeded(s: System, events: seq<Event>, d: nat, id: nat, now: int)
    requires Inv(s) && d in s.deletions && s.deletions[d].InCloud? && !s.deletions[d].together
    requires s.deletions[d].done == {} && forall e | e in events :: Leaves(e, d)
    ensures var db, db' := Run(s, events).db, Next(Run(s, events), RemoveRow(d, id, now)).db;
            db'.servers == if id in s.deletions[d].todo && FirstOutcome(events, d, id) == Some(true)
                           then db.servers - {id} else db.servers
  {
    DeletionKnowsOutcomes(s, events, d, id);
    var s' := Run(s, events);
    hide Run;
    assert id !in s'.db.servers ==> s'.db.servers - {id} == s'.db.servers;
  }

  // ---- What each deletion is about ----

  /** A user's deletion takes the user's servers that are marked, a single one its server, the cleanups the old ones. */
  lemma ListsExactly(s: System, d: nat, id: nat, now: int)
    ensures d in s.deletions && s.deletions[d].MarkedUser? ==>
              var c := Next(s, ListUser(d)).deletions[d];
              c.InCloud? && c.together && c.done == {}
              && (id in c.todo <==> id in s.db.servers && s.db.servers[id].createdBy == DiscordUser(s.deletions[d].user)
                                    && s.db.servers[id].status == Terminating)
    ensures d in s.deletions && s.deletions[d].MarkedOne? ==>
              var c := Next(s, ListOne(d)).deletions[d];
              c.InCloud? && !c.together && c.done == {}
              && (id in c.todo <==> id == s.deletions[d].id && id in s.db.servers)
    ensures d !in s.deletions ==>
              var c := Next(s, ListPending(d, now)).deletions[d];
              c.InCloud? && !c.together && c.done == {}
              && (id in c.todo <==> id in s.db.servers && s.db.servers[id].status == Pending
                                    && now - s.db.servers[id].createdAt >= 900000)
    ensures d !in s.deletions ==>
              var c := Next(s, ListLongRunning(d, now)).deletions[d];
              c.InCloud? && !c.together && c.done == {}
              && (id in c.todo <==> id in s.db.servers && now - s.db.servers[id].createdAt >= 43200000)
  {
  }

  /** Marking touches the status of the rows it is about, and nothing else. */
  lemma MarksExactly(s: System, d: nat, user: nat, id: nat, other: nat)
    requires d !in s.deletions && other in s.db.servers
    ensures var row, db' := s.db.servers[other], Next(s, MarkUser(d, user)).db;
            && db' == s.db.(servers := db'.servers) && db'.servers.Keys == s.db.servers.Keys
            && db'.servers[other] == if row.createdBy == DiscordUser(user) then row.(status := Terminating) else row
    ensures var row, db' := s.db.servers[other], Next(s, MarkOne(d, id)).db;
            && db' == s.db.(servers := db'.servers) && db'.servers.Keys == s.db.servers.Keys
            && db'.servers[other] == if other == id then row.(status := Terminating) else row
  {
    hide Stale;
  }

  /** A finished deployment makes its row ready, under the owner it was started for; a failed one changes no table. */
  lemma DeploymentWrites(s: System, id: nat, ok: bool, createdAt: int)
    requires Inv(s) && id in s.deployments
    ensures var s', d := Next(s, DeployFinished(id, ok, createdAt)), s.deployments[id];
            && id !in s'.deployments
            && if ok && id in s.db.servers then
                 s'.db == s.db.(servers := s.db.servers[id := Server(d.owner, Ready, createdAt, d.variant)])
               else s'.db == s.db
  {
  }

  /**
   With an id not used before: a user without a pending or ready server gets a pending row, its
   history and its activity, and a deployment; any other user gets nothing. API clients always do.
   */
  lemma CreationInserts(s: System, id: nat, user: nat, variant: nat, now: int)
    requires Inv(s) && id !in s.db.history
    ensures var s' := Next(s, CreateForUser(id, user, variant, now));
            if exists other :: other in s.db.servers && s.db.servers[other].createdBy == DiscordUser(user)
                               && (s.db.servers[other].status == Pending || s.db.servers[other].status == Ready)
            then s' == s else Inserted(s, s', id, DiscordUser(user), variant, now)
    ensures Inserted(s, Next(s, CreateForClient(id, user, variant, now)), id, ApiClient(user), variant, now)
  {
    assert forall other :: Runs(s.db, other, user) <==>
        other in s.db.servers && s.db.servers[other].createdBy == DiscordUser(user)
        && (s.db.servers[other].status == Pending || s.db.servers[other].status == Ready);
  }

  predicate Inserted(s: System, s': System, id: nat, owner: Owner, variant: nat, now: int) {
    && s'.db == Db(
         s.db.servers[id := Server(owner, Pending, now, variant)],
         s.db.history[id := HistoryRow(now, owner, None)],
         s.db.activity[id := Activity(None, None)])
    && s'.deployments == s.deployments[id := Deployment(owner, variant)]
    && s'.deletions == s.deletions
  }

  // ---- The transactions, on the tables as an object ----

  datatype CreateOutcome = PendingRow | AlreadyRunning | Aborted

  /** CreateServerForUser's transaction: read the user's rows, refuse or insert. */
  method CreatePendingServer(tables: SQLiteServerTables, id: nat, user: nat, variant: nat, now: int)
    returns (outcome: CreateOutcome)
    requires id !in tables.servers
    modifies tables
    ensures tables.View() == CreateForUserStep(System(old(tables.View()), map[], map[]), id, user, variant, now).db
    ensures outcome.AlreadyRunning? <==>
            exists other :: other in old(tables.servers) && old(tables.servers)[other].createdBy == DiscordUser(user)
                            && (old(tables.servers)[other].status == Pending
                                || old(tables.servers)[other].status == Ready)
    ensures outcome.PendingRow? <==> id in tables.servers
  {
    var allServers := set other | other in tables.servers && tables.servers[other].createdBy == DiscordUser(user);
    var runningServers := set other | other in allServers &&
        (tables.servers[other].status == Ready || tables.servers[other].status == Pending);
    assert forall other :: other in runningServers <==> Runs(tables.View(), other, user);
    if runningServers != {} {
      return AlreadyRunning;
    }
    var ok := tables.Upsert(id, Server(DiscordUser(user), Pending, now, variant));
    return if ok then PendingRow else Aborted;
  }

  /** DeleteServer's first transaction: false is the "not found" error. */
  method MarkServerTerminating(tables: SQLiteServerTables, id: nat) returns (found: bool)
    modifies tables
    ensures found == (id in old(tables.servers))
    ensures tables.View() == MarkOneStep(System(old(tables.View()), map[], map[]), 0, id).db
  {
    found := id in tables.servers;
    if found {
      var ok := tables.Upsert(id, MarkTerminating(tables.servers[id]));
    }
  }
}

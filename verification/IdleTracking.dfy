/**
 The cleanup of empty servers: each tick splits the ready servers into those to delete and
 those to poll, and folds every poll into the server's `emptySince`. Ticks do
 not overlap; everything in ServerLifecycle may happen in between.
 */
module IdleTracking {
  import opened Wrappers
  import opened ServerTables
  import L = ServerLifecycle

  // ---- One check ----

  /** Players were seen, none were, the query failed, or its answer had no player count. */
  datatype Outcome = Occupied | Empty | Failed | Undecided

  datatype Check = Check(outcome: Outcome, at: int)

  function AfterCheck(emptySince: Option<int>, c: Check): Option<int> {
    match c.outcome
    case Occupied => None
    case Undecided => emptySince
    case _ => if emptySince.None? then Some(c.at) else emptySince
  }

  /** The stored field after a sequence of checks, from a new server's null. */
  function Folded(checks: seq<Check>): Option<int> {
    if checks == [] then None else AfterCheck(Folded(checks[..|checks| - 1]), checks[|checks| - 1])
  }

  predicate Idle(c: Check) {
    c.outcome == Empty || c.outcome == Failed
  }

  /** No check of checks[i..j] saw players. */
  predicate QuietBetween(checks: seq<Check>, i: nat, j: nat)
    requires i <= j <= |checks|
  {
    forall k | i <= k < j :: checks[k].outcome != Occupied
  }

  /** Check i is the first empty-or-failed one since players were last seen. */
  ghost predicate StartsIdle(checks: seq<Check>, i: nat) {
    && i < |checks| && Idle(checks[i]) && QuietBetween(checks, i, |checks|)
    && forall j | 0 <= j < i && Idle(checks[j]) :: !QuietBetween(checks, j, i)
  }

  lemma QuietExtends(checks: seq<Check>, i: nat, c: Check)
    requires i <= |checks|
    ensures QuietBetween(checks + [c], i, |checks| + 1) <==> QuietBetween(checks, i, |checks|) && c.outcome != Occupied
  {
    var more := checks + [c];
    assert forall k | i <= k < |checks| :: more[k] == checks[k];
    assert more[|checks|] == c;
  }

  lemma StartExtends(checks: seq<Check>, i: nat, c: Check)
    requires i < |checks|
    ensures StartsIdle(checks + [c], i) <==> StartsIdle(checks, i) && c.outcome != Occupied
  {
    var more := checks + [c];
    QuietExtends(checks, i, c);
    assert forall k | 0 <= k < |checks| :: more[k] == checks[k];
    forall j | 0 <= j < i
      ensures QuietBetween(more, j, i) <==> QuietBetween(checks, j, i)
    {
    }
  }

  /** Either some check starts the idle stretch, or no idle check has been quiet since. */
  lemma {:induction false} FoldedStarts(checks: seq<Check>) returns (i: int)
    ensures if Folded(checks).Some? then 0 <= i && StartsIdle(checks, i) && checks[i].at == Folded(checks).value
            else forall j | 0 <= j < |checks| && Idle(checks[j]) :: !QuietBetween(checks, j, |checks|)
  {
    i := -1;
    if checks != [] {
      var n := |checks| - 1;
      var before, c := checks[..n], checks[n];
      assert before + [c] == checks;
      i := FoldedStarts(before);
      forall j | 0 <= j < n
        ensures QuietBetween(checks, j, n + 1) <==> QuietBetween(before, j, n) && c.outcome != Occupied
        ensures QuietBetween(checks, j, n) <==> QuietBetween(before, j, n)
      {
        QuietExtends(before, j, c);
      }
      if Folded(before).Some? {
        StartExtends(before, i, c);
      } else if Idle(c) {
        i := n;
      }
    }
  }

  /** There is at most one such check. */
  lemma StartUnique(checks: seq<Check>, i: nat, j: nat)
    requires StartsIdle(checks, i) && StartsIdle(checks, j)
    ensures i == j
  {
    if i < j {
      assert QuietBetween(checks, i, j);
    } else if j < i {
      assert QuietBetween(checks, j, i);
    }
  }

  /**
   The stored field is the time of the first empty-or-failed check since players were last
   seen, and null when there is none.
   */
  lemma EmptySinceIsFirstIdleCheck(checks: seq<Check>, t: int)
    ensures Folded(checks) == Some(t) <==> exists i: nat :: StartsIdle(checks, i) && checks[i].at == t
  {
    var f := FoldedStarts(checks);
    forall i: nat | StartsIdle(checks, i)
      ensures Folded(checks) == Some(checks[i].at)
    {
      if Folded(checks).Some? {
        StartUnique(checks, i, f);
      }
    }
  }

  // ---- Ticks, over the life of the servers ----

  /** emptyMinutesTerminate of the variants that set it; the others use ten minutes. */
  type Config = map<nat, int>

  function EmptyMinutes(config: Config, variant: nat): int {
    if variant in config then config[variant] else 10
  }

  predicate Overdue(emptySince: Option<int>, minutes: int, now: int) {
    emptySince.Some? && now - emptySince.value >= minutes * 60 * 1000
  }

  predicate ReadyServer(db: Db, id: nat) {
    id in db.servers && id in db.activity && db.servers[id].status == Ready
  }

  predicate OverdueServer(db: Db, config: Config, id: nat, now: int)
    requires ReadyServer(db, id)
  {
    Overdue(db.activity[id].emptySince, EmptyMinutes(config, db.servers[id].variant), now)
  }

  datatype State = State(
    life: L.System,
    tick: Option<map<nat, Option<int>>>,   // the polled servers of the running tick, with the field as it was read
    checks: map<nat, seq<Check>>,          // the checks written for each server
    enqueued: set<nat>)                    // the deletions enqueued by the last tick

  const INITIAL := State(L.INITIAL, None, map[], {})

  datatype Event =
    | Life(e: L.Event)
    | TickBegin(now: int)
    | Checked(id: nat, outcome: Outcome, at: int)
    | WriteLost(id: nat)
    | TickEnd

  function ChecksOf(s: State, id: nat): seq<Check> {
    if id in s.checks then s.checks[id] else []
  }

  function TickBeginStep(s: State, config: Config, now: int): State {
    var db := s.life.db;
    s.(tick := Some(map id | id in db.servers && ReadyServer(db, id) && !OverdueServer(db, config, id, now) ::
              db.activity[id].emptySince),
       enqueued := set id | id in db.servers && ReadyServer(db, id) && OverdueServer(db, config, id, now))
  }

  /** A poll ends: its write goes through while the server still exists, and is skipped otherwise. */
  function CheckedStep(s: State, id: nat, outcome: Outcome, at: int): State
    requires s.tick.Some? && id in s.tick.value
  {
    var c := Check(outcome, at);
    var activity := Activity(AfterCheck(s.tick.value[id], c), Some(at));
    var polled := s.(tick := Some(s.tick.value - {id}));
    if id in s.life.db.servers then
      polled.(life := L.Next(s.life, L.WriteActivity(id, activity)), checks := s.checks[id := ChecksOf(s, id) + [c]])
    else polled
  }

  function Next(s: State, config: Config, e: Event): State {
    match e
    case Life(step) => if step.WriteActivity? then s else s.(life := L.Next(s.life, step))
    case TickBegin(now) => if s.tick.Some? then s else TickBeginStep(s, config, now)
    case Checked(id, outcome, at) => if s.tick.Some? && id in s.tick.value then CheckedStep(s, id, outcome, at) else s
    case WriteLost(id) => if s.tick.Some? then s.(tick := Some(s.tick.value - {id})) else s
    case TickEnd => if s.tick == Some(map[]) then s.(tick := None) else s
  }

  function Run(s: State, config: Config, events: seq<Event>): State
    decreases |events|
  {
    if events == [] then s else Run(Next(s, config, events[0]), config, events[1..])
  }

  /** Each live server's field is its written checks, folded; a running tick still remembers it rightly. */
  ghost predicate Tracks(s: State) {
    && (forall id | id in s.life.db.servers ::
          id in s.life.db.activity && s.life.db.activity[id].emptySince == Folded(ChecksOf(s, id)))
    && s.checks.Keys <= s.life.db.history.Keys
    && (s.tick.Some? ==> forall id | id in s.tick.value ::
          id in s.life.db.history &&
          (id in s.life.db.servers && id in s.life.db.activity ==>
             s.tick.value[id] == s.life.db.activity[id].emptySince))
  }

  ghost predicate Inv(s: State) {
    L.Inv(s.life) && Tracks(s)
  }

  /** Apart from activity writes, a live server keeps its activity, and a new one has an empty one and a new id. */
  lemma LifeKeepsActivity(s: L.System, e: L.Event, id: nat)
    requires L.Inv(s) && !e.WriteActivity? && id in L.Next(s, e).db.servers
    ensures id in L.Next(s, e).db.activity
    ensures if id in s.db.servers then L.Next(s, e).db.activity[id] == s.db.activity[id]
            else id !in s.db.history && L.Next(s, e).db.activity[id] == Activity(None, None)
  {
    if e.CreateForUser? || e.CreateForClient? || e.DeployFinished? {
      InsertsKeepActivity(s, e, id);
    } else {
      hide L.Inv;
      OthersKeepActivity(s, e, id);
    }
  }

  lemma InsertsKeepActivity(s: L.System, e: L.Event, id: nat)
    requires Consistent(s.db) && (e.CreateForUser? || e.CreateForClient? || e.DeployFinished?)
    requires id in L.Next(s, e).db.servers
    ensures id in L.Next(s, e).db.activity
    ensures if id in s.db.servers then L.Next(s, e).db.activity[id] == s.db.activity[id]
            else id !in s.db.history && L.Next(s, e).db.activity[id] == Activity(None, None)
  {
    hide L.Runs;
  }

  lemma OthersKeepActivity(s: L.System, e: L.Event, id: nat)
    requires s.db.servers.Keys == s.db.activity.Keys
    requires !e.CreateForUser? && !e.CreateForClient? && !e.DeployFinished? && !e.WriteActivity?
    requires id in L.Next(s, e).db.servers
    ensures id in s.db.servers && id in L.Next(s, e).db.activity
    ensures L.Next(s, e).db.activity[id] == s.db.activity[id]
  {
    hide L.Stale;
    hide MarkTerminating;
  }

  lemma LifeKeeps(s: State, step: L.Event)
    requires Inv(s) && !step.WriteActivity?
    ensures Inv(s.(life := L.Next(s.life, step)))
  {
    L.NextKeeps(s.life, step);
    forall id | id in L.Next(s.life, step).db.servers
      ensures id in s.life.db.servers || id !in s.life.db.history
      ensures L.Next(s.life, step).db.activity[id] ==
              if id in s.life.db.servers then s.life.db.activity[id] else Activity(None, None)
    {
      LifeKeepsActivity(s.life, step, id);
    }
    hide L.Next;
    hide Folded;
  }

  lemma WritesActivity(s: L.System, id: nat, activity: Activity)
    requires id in s.db.servers
    ensures L.Next(s, L.WriteActivity(id, activity)) == s.(db := s.db.(activity := s.db.activity[id := activity]))
  {
  }

  lemma FoldsOneMore(checks: seq<Check>, c: Check)
    ensures Folded(checks + [c]) == AfterCheck(Folded(checks), c)
  {
    assert (checks + [c])[..|checks|] == checks;
  }

  lemma CheckedKeeps(s: State, id: nat, outcome: Outcome, at: int)
    requires Inv(s) && s.tick.Some? && id in s.tick.value
    ensures Inv(CheckedStep(s, id, outcome, at))
  {
    var c := Check(outcome, at);
    FoldsOneMore(ChecksOf(s, id), c);
    hide AfterCheck;
    hide Folded;
    hide L.Next;
    hide L.Inv;
    if id in s.life.db.servers {
      var activity := Activity(AfterCheck(s.tick.value[id], c), Some(at));
      L.NextKeeps(s.life, L.WriteActivity(id, activity));
      WritesActivity(s.life, id, activity);
    }
  }

  /** A poll that goes through writes the new field and the time of the check, and nothing else. */
  lemma CheckWrites(s: State, config: Config, id: nat, outcome: Outcome, at: int)
    requires s.tick.Some? && id in s.tick.value && id in s.life.db.servers
    ensures var before := s.tick.value[id];
            var db, db' := s.life.db, Next(s, config, Checked(id, outcome, at)).life.db;
            && db' == db.(activity := db'.activity)
            && db'.activity == db.activity[id := Activity(
                 if outcome == Occupied then None
                 else if (outcome == Empty || outcome == Failed) && before == None then Some(at)
                 else before, Some(at))]
  {
    WritesActivity(s.life, id, Activity(AfterCheck(s.tick.value[id], Check(outcome, at)), Some(at)));
    hide L.Next;
  }

  /** A poll whose server is gone writes nothing. */
  lemma CheckOfDeletedIsSkipped(s: State, config: Config, id: nat, outcome: Outcome, at: int)
    requires s.tick.Some? && id in s.tick.value && id !in s.life.db.servers
    ensures Next(s, config, Checked(id, outcome, at)).life == s.life
  {
  }

  lemma NextKeeps(s: State, config: Config, e: Event)
    requires Inv(s)
    ensures Inv(Next(s, config, e))
  {
    match e
    case Life(step) => if !step.WriteActivity? { LifeKeeps(s, step); }
    case Checked(id, outcome, at) =>
      if s.tick.Some? && id in s.tick.value { CheckedKeeps(s, id, outcome, at); }
    case _ => hide L.Next; hide CheckedStep;
  }

  lemma {:induction false} RunKeeps(s: State, config: Config, events: seq<Event>)
    requires Inv(s)
    ensures Inv(Run(s, config, events))
    decreases |events|
  {
    hide Inv;
    hide Next;
    if events != [] {
      NextKeeps(s, config, events[0]);
      RunKeeps(Next(s, config, events[0]), config, events[1..]);
    }
  }

  /** After any run, a live server's `emptySince` is the time of the first idle check since players were last seen. */
  lemma EmptySinceEqualsHistory(config: Config, events: seq<Event>, id: nat, t: int)
    requires id in Run(INITIAL, config, events).life.db.servers
    ensures var s := Run(INITIAL, config, events);
            && id in s.life.db.activity
            && (s.life.db.activity[id].emptySince == Some(t) <==>
                exists i: nat :: StartsIdle(ChecksOf(s, id), i) && ChecksOf(s, id)[i].at == t)
  {
    RunKeeps(INITIAL, config, events);
    EmptySinceIsFirstIdleCheck(ChecksOf(Run(INITIAL, config, events), id), t);
  }

  /**
   After any run, a tick enqueues the deletion of a server exactly when it is ready and its
   checks have an idle stretch, still unbroken by players, that began at least
   the variant's threshold ago; and it polls exactly the other ready servers.
   */
  lemma DeletedExactlyWhenIdleLongEnough(config: Config, events: seq<Event>, now: int, id: nat)
    requires Run(INITIAL, config, events).tick.None?
    ensures var s := Run(INITIAL, config, events);
            var s' := Next(s, config, TickBegin(now));
            var db := s.life.db;
            && (id in s'.enqueued <==>
                && id in db.servers && db.servers[id].status == Ready
                && exists i: nat :: StartsIdle(ChecksOf(s, id), i) &&
                     now - ChecksOf(s, id)[i].at >=
                       60000 * if db.servers[id].variant in config then config[db.servers[id].variant] else 10)
            && s'.tick.Some?
            && (id in db.servers && db.servers[id].status == Ready <==> id in s'.enqueued || id in s'.tick.value)
            && !(id in s'.enqueued && id in s'.tick.value)
  {
    RunKeeps(INITIAL, config, events);
    var s := Run(INITIAL, config, events);
    assert ReadyServer(s.life.db, id) <==> id in s.life.db.servers && s.life.db.servers[id].status == Ready;
    if ReadyServer(s.life.db, id) {
      var since := s.life.db.activity[id].emptySince;
      if since.Some? {
        EmptySinceIsFirstIdleCheck(ChecksOf(s, id), since.value);
      }
      forall i: nat | StartsIdle(ChecksOf(s, id), i)
        ensures since == Some(ChecksOf(s, id)[i].at)
      {
        EmptySinceIsFirstIdleCheck(ChecksOf(s, id), ChecksOf(s, id)[i].at);
      }
    }
  }

  // ---- The splice loop ----

  /** A ready server with its activity, as the tick merges them. */
  datatype Merged = Merged(id: nat, variant: nat, emptySince: Option<int>)

  predicate OverdueMerged(config: Config, m: Merged, now: int) {
    Overdue(m.emptySince, EmptyMinutes(config, m.variant), now)
  }

  /** The merged servers that are overdue, or those that are not, in order. */
  function Filter(config: Config, servers: seq<Merged>, now: int, overdue: bool): seq<Merged> {
    if servers == [] then []
    else (if OverdueMerged(config, servers[0], now) == overdue then [servers[0]] else [])
         + Filter(config, servers[1..], now, overdue)
  }

  ghost predicate DistinctIds(servers: seq<Merged>) {
    forall i, j | 0 <= i < j < |servers| :: servers[i].id != servers[j].id
  }

  /** The list with the servers whose ids are in `gone` spliced out. */
  function Without(servers: seq<Merged>, gone: set<nat>): seq<Merged> {
    if servers == [] then []
    else (if servers[0].id in gone then [] else [servers[0]]) + Without(servers[1..], gone)
  }

  /** findIndex: the first index with this id, or the length. */
  method FindIndex(servers: seq<Merged>, id: nat) returns (index: nat)
    ensures index <= |servers|
    ensures forall k | 0 <= k < index :: servers[k].id != id
    ensures index < |servers| ==> servers[index].id == id
  {
    index := 0;
    while index < |servers| && servers[index].id != id
      invariant index <= |servers|
      invariant forall k | 0 <= k < index :: servers[k].id != id
    {
      index := index + 1;
    }
  }

  lemma {:induction false} WithoutNone(servers: seq<Merged>)
    ensures Without(servers, {}) == servers
  {
    if servers != [] {
      WithoutNone(servers[1..]);
    }
  }

  lemma {:induction false} WithoutSubset(servers: seq<Merged>, gone: set<nat>, m: Merged)
    ensures m in Without(servers, gone) <==> m in servers && m.id !in gone
  {
    if servers != [] {
      WithoutSubset(servers[1..], gone, m);
    }
  }

  lemma {:induction false} WithoutDistinct(servers: seq<Merged>, gone: set<nat>)
    requires DistinctIds(servers)
    ensures DistinctIds(Without(servers, gone))
  {
    if servers != [] {
      var rest := Without(servers[1..], gone);
      WithoutDistinct(servers[1..], gone);
      forall i | 0 <= i < |rest|
        ensures rest[i].id != servers[0].id
      {
        WithoutSubset(servers[1..], gone, rest[i]);
      }
    }
  }

  lemma SpliceCons(m: Merged, rest: seq<Merged>, i: nat)
    requires i < |rest|
    ensures ([m] + rest)[..i + 1] + ([m] + rest)[i + 2..] == [m] + (rest[..i] + rest[i + 1..])
  {
  }

  /** Removing the one element with an id is the same as filtering the id out. */
  lemma {:induction false} SpliceIsWithout(servers: seq<Merged>, gone: set<nat>, index: nat)
    requires DistinctIds(servers) && index < |Without(servers, gone)|
    ensures var left := Without(servers, gone);
            left[..index] + left[index + 1..] == Without(servers, gone + {left[index].id})
  {
    var left, rest := Without(servers, gone), Without(servers[1..], gone);
    var id := left[index].id;
    if servers[0].id in gone {
      SpliceIsWithout(servers[1..], gone, index);
      assert left == rest;
    } else if index == 0 {
      assert left[1..] == rest;
      NotThere(servers[1..], gone, id);
    } else {
      SpliceIsWithout(servers[1..], gone, index - 1);
      WithoutSubset(servers[1..], gone, rest[index - 1]);
      assert servers[0].id != id;
      SpliceCons(servers[0], rest, index - 1);
    }
  }

  lemma {:induction false} NotThere(servers: seq<Merged>, gone: set<nat>, id: nat)
    requires forall k | 0 <= k < |servers| :: servers[k].id != id
    ensures Without(servers, gone + {id}) == Without(servers, gone)
  {
    if servers != [] {
      NotThere(servers[1..], gone, id);
    }
  }

  /**
   The loop over serversToDelete: each is enqueued and spliced out of the merged list. What
   is left to poll is exactly the servers that are not overdue.
   */
  method SplitServers(config: Config, servers: seq<Merged>, now: int) returns (enqueued: seq<nat>, polled: seq<Merged>)
    requires DistinctIds(servers)
    ensures polled == Filter(config, servers, now, false)
    ensures |enqueued| == |Filter(config, servers, now, true)|
    ensures forall k | 0 <= k < |enqueued| :: enqueued[k] == Filter(config, servers, now, true)[k].id
    ensures forall m | m in servers ::
              var minutes := if m.variant in config then config[m.variant] else 10;
              m in polled <==> m.emptySince == None || now - m.emptySince.value < 60000 * minutes
    ensures forall m | m in servers :: m in polled <==> m.id !in enqueued
  {
    var serversToDelete := Filter(config, servers, now, true);
    enqueued, polled := [], servers;
    ghost var gone: set<nat> := {};
    WithoutNone(servers);
    for k := 0 to |serversToDelete|
      invariant |enqueued| == k && forall j | 0 <= j < k :: enqueued[j] == serversToDelete[j].id
      invariant gone == set j | 0 <= j < k :: serversToDelete[j].id
      invariant polled == Without(servers, gone)
    {
      var id := serversToDelete[k].id;
      enqueued := enqueued + [id];
      var index := FindIndex(polled, id);
      if index < |polled| {
        SpliceIsWithout(servers, gone, index);
        polled := polled[..index] + polled[index + 1..];
      } else {
        AlreadyOut(servers, gone, id);
      }
      gone := gone + {id};
    }
    WithoutOverdue(config, servers, now, gone);
    SplitMembers(config, servers, now, enqueued, polled);
  }

  lemma SplitMembers(config: Config, servers: seq<Merged>, now: int, enqueued: seq<nat>, polled: seq<Merged>)
    requires DistinctIds(servers) && polled == Filter(config, servers, now, false)
    requires |enqueued| == |Filter(config, servers, now, true)|
    requires forall k | 0 <= k < |enqueued| :: enqueued[k] == Filter(config, servers, now, true)[k].id
    ensures forall m | m in servers ::
              var minutes := if m.variant in config then config[m.variant] else 10;
              m in polled <==> m.emptySince == None || now - m.emptySince.value < 60000 * minutes
    ensures forall m | m in servers :: m in polled <==> m.id !in enqueued
  {
    var overdue := Filter(config, servers, now, true);
    forall m | m in servers
      ensures m in polled <==> !OverdueMerged(config, m, now)
      ensures m in polled <==> m.id !in enqueued
    {
      FilterMembers(config, servers, now, false, m);
      FilterMembers(config, servers, now, true, m);
      if m in overdue {
        var k :| 0 <= k < |overdue| && overdue[k] == m;
        assert enqueued[k] == m.id;
      }
      if m.id in enqueued {
        var k :| 0 <= k < |enqueued| && enqueued[k] == m.id;
        FilterMembers(config, servers, now, true, overdue[k]);
        var i :| 0 <= i < |servers| && servers[i] == m;
        var j :| 0 <= j < |servers| && servers[j] == overdue[k];
        assert i == j;
      }
    }
  }

  lemma {:induction false} AlreadyOut(servers: seq<Merged>, gone: set<nat>, id: nat)
    requires forall k | 0 <= k < |Without(servers, gone)| :: Without(servers, gone)[k].id != id
    ensures Without(servers, gone + {id}) == Without(servers, gone)
  {
    if servers != [] {
      var rest := Without(servers[1..], gone);
      assert forall k | 0 <= k < |rest| ::
          rest[k] == Without(servers, gone)[if servers[0].id in gone then k else k + 1];
      AlreadyOut(servers[1..], gone, id);
      assert servers[0].id !in gone ==> Without(servers, gone)[0] == servers[0];
    }
  }

  lemma {:induction false} FilterMembers(config: Config, servers: seq<Merged>, now: int, overdue: bool, m: Merged)
    ensures m in Filter(config, servers, now, overdue) <==> m in servers && OverdueMerged(config, m, now) == overdue
  {
    if servers != [] {
      FilterMembers(config, servers[1..], now, overdue, m);
    }
  }

  /** Splicing out all the overdue ids leaves the servers that are not overdue. */
  lemma WithoutOverdue(config: Config, servers: seq<Merged>, now: int, gone: set<nat>)
    requires DistinctIds(servers)
    requires gone == set j | 0 <= j < |Filter(config, servers, now, true)| :: Filter(config, servers, now, true)[j].id
    ensures Without(servers, gone) == Filter(config, servers, now, false)
  {
    forall k | 0 <= k < |servers|
      ensures servers[k].id in gone <==> OverdueMerged(config, servers[k], now)
    {
      FilterMembers(config, servers, now, true, servers[k]);
      if servers[k].id in gone {
        var j :| 0 <= j < |Filter(config, servers, now, true)| &&
            Filter(config, servers, now, true)[j].id == servers[k].id;
        FilterMembers(config, servers, now, true, Filter(config, servers, now, true)[j]);
      }
    }
    WithoutIsFilter(config, servers, now, gone);
  }

  lemma {:induction false} WithoutIsFilter(config: Config, servers: seq<Merged>, now: int, gone: set<nat>)
    requires forall k | 0 <= k < |servers| :: servers[k].id in gone <==> OverdueMerged(config, servers[k], now)
    ensures Without(servers, gone) == Filter(config, servers, now, false)
  {
    if servers != [] {
      WithoutIsFilter(config, servers[1..], now, gone);
    }
  }
}

/**
 The monthly peak of concurrently running servers: a sweep line over the history table,
 written as one SQL query, against its definition as a maximum over all instants.
 The table holds milliseconds and the query works on whole seconds.
 */
module PeakConcurrency {
  import opened Wrappers
  import Civil

  datatype HistoryRow = HistoryRow(createdAt: int, terminatedAt: Option<int>)

  /** The sweep line's events: +1 when a server is created, -1 when it is terminated. */
  datatype Event = Event(time: int, change: int)

  datatype Peak = Peak(eventTime: int, maxServersRunning: int)

  /** SQL's integer division, which truncates. */
  function Seconds(ms: int): int {
    if ms >= 0 then ms / 1000 else -(-ms / 1000)
  }

  /** strftime's month and year of the creation second. */
  predicate CreatedIn(row: HistoryRow, month: int, year: int) {
    var w := Civil.Split(Seconds(row.createdAt));
    w.month == month && w.year == year
  }

  // ---- The query ----

  function Creations(rows: seq<HistoryRow>, month: int, year: int): seq<Event> {
    if rows == [] then []
    else (if CreatedIn(rows[0], month, year) then [Event(Seconds(rows[0].createdAt), 1)] else [])
         + Creations(rows[1..], month, year)
  }

  function Terminations(rows: seq<HistoryRow>, month: int, year: int): seq<Event> {
    if rows == [] then []
    else (if rows[0].terminatedAt.Some? && CreatedIn(rows[0], month, year)
          then [Event(Seconds(rows[0].terminatedAt.value), -1)] else [])
         + Terminations(rows[1..], month, year)
  }

  function Events(rows: seq<HistoryRow>, month: int, year: int): seq<Event> {
    Creations(rows, month, year) + Terminations(rows, month, year)
  }

  /** SUM(change) OVER (ORDER BY event_time): the default RANGE frame takes in all peers at the same second. */
  function RunningServers(events: seq<Event>, time: int): int {
    if events == [] then 0
    else (if events[0].time <= time then events[0].change else 0) + RunningServers(events[1..], time)
  }

  /**
   A row with the maximum running sum; which one, when several have it, the query leaves open.
   No events give nulls.
   */
  ghost predicate IsQueryResult(events: seq<Event>, p: Peak) {
    if events == [] then p == Peak(0, 0)
    else
      && (exists e :: e in events && e.time == p.eventTime)
      && p.maxServersRunning == RunningServers(events, p.eventTime)
      && forall e | e in events :: RunningServers(events, e.time) <= p.maxServersRunning
  }

  // ---- The definition ----

  function FirstOfNextMonth(month: int, year: int): Civil.Date {
    if month < 12 then Civil.Date(year, month + 1, 1) else Civil.Date(year + 1, 1, 1)
  }

  /** From midnight on the first of the month to, but not including, midnight on the first of the next. */
  predicate InMonth(second: int, month: int, year: int) {
    && 1 <= month <= 12
    && 86400 * Civil.DayOf(Civil.Date(year, month, 1)) <= second < 86400 * Civil.DayOf(FirstOfNextMonth(month, year))
  }

  /** The server was created that month and runs at second t: created <= t < terminated. */
  predicate RunsAt(row: HistoryRow, month: int, year: int, t: int) {
    && InMonth(Seconds(row.createdAt), month, year)
    && Seconds(row.createdAt) <= t
    && (row.terminatedAt.Some? ==> t < Seconds(row.terminatedAt.value))
  }

  function Live(rows: seq<HistoryRow>, month: int, year: int, t: int): nat {
    if rows == [] then 0 else (if RunsAt(rows[0], month, year, t) then 1 else 0) + Live(rows[1..], month, year, t)
  }

  /** A row of that month whose termination precedes its creation. */
  predicate Inverted(row: HistoryRow, month: int, year: int) {
    && InMonth(Seconds(row.createdAt), month, year)
    && row.terminatedAt.Some? && Seconds(row.terminatedAt.value) < Seconds(row.createdAt)
  }

  /** Second t lies between the termination and the later creation of such a row. */
  predicate InGap(row: HistoryRow, month: int, year: int, t: int) {
    Inverted(row, month, year) && Seconds(row.terminatedAt.value) <= t < Seconds(row.createdAt)
  }

  ghost predicate InNoGap(rows: seq<HistoryRow>, month: int, year: int, t: int) {
    forall row | row in rows :: !InGap(row, month, year, t)
  }

  ghost predicate NoneInverted(rows: seq<HistoryRow>, month: int, year: int) {
    forall row | row in rows :: !Inverted(row, month, year)
  }

  // ---- The months ----

  /** For times after the epoch a second is a thousand milliseconds, the started one left out. */
  lemma SecondsAreWhole(ms: int)
    requires 0 <= ms
    ensures 1000 * Seconds(ms) <= ms < 1000 * (Seconds(ms) + 1)
  {
  }

  /** The first of the next month comes as many days later as the month has. */
  lemma MonthLength(month: int, year: int)
    requires 1 <= month <= 12
    ensures Civil.DayOf(FirstOfNextMonth(month, year))
            == Civil.DayOf(Civil.Date(year, month, 1)) + Civil.DaysInMonth(year, month)
  {
    var last := Civil.Date(year, month, Civil.DaysInMonth(year, month));
    Civil.NextDayIsSuccessor(last);
    hide Civil.MakeDay;
    hide Civil.CivilFromDay;
    assert Civil.NextDate(last) == FirstOfNextMonth(month, year);
    DayInMonth(month, year, last.day + 1);
  }

  lemma DayInMonth(month: int, year: int, d: int)
    requires 1 <= month <= 12
    ensures Civil.MakeDay(year, month - 1, d) == Civil.DayOf(Civil.Date(year, month, 1)) + d - 1
  {
    hide Civil.DayFromYear;
    hide Civil.DaysBeforeMonth;
  }

  /** The calendar month of a day is the one whose first day it does not precede and whose end it does. */
  lemma MonthOfDay(day: int, month: int, year: int)
    ensures var c := Civil.CivilFromDay(day);
            c.month == month && c.year == year <==>
            1 <= month <= 12
            && Civil.DayOf(Civil.Date(year, month, 1)) <= day < Civil.DayOf(FirstOfNextMonth(month, year))
  {
    var c := Civil.CivilFromDay(day);
    hide Civil.CivilFromDay;
    hide Civil.MakeDay;
    if c.month == month && c.year == year {
      MonthLength(month, year);
      DayInMonth(month, year, c.day);
    } else if 1 <= month <= 12
              && Civil.DayOf(Civil.Date(year, month, 1)) <= day < Civil.DayOf(FirstOfNextMonth(month, year)) {
      MonthLength(month, year);
      var d := day - Civil.DayOf(Civil.Date(year, month, 1)) + 1;
      DayInMonth(month, year, d);
      Civil.DayOfInjective(c, Civil.Date(year, month, d));
      assert false;
    }
  }

  /** The query's month and year filter is that half-open interval of seconds. */
  lemma CreatedInIff(row: HistoryRow, month: int, year: int)
    ensures CreatedIn(row, month, year) <==> InMonth(Seconds(row.createdAt), month, year)
  {
    var second := Seconds(row.createdAt);
    hide Seconds;
    MonthOfDay(second / 86400, month, year);
    hide Civil.CivilFromDay;
    hide Civil.DayOf;
    WholeDays(second, Civil.DayOf(Civil.Date(year, month, 1)));
    if 1 <= month <= 12 {
      WholeDays(second, Civil.DayOf(FirstOfNextMonth(month, year)));
    }
  }

  lemma WholeDays(second: int, day: int)
    ensures day <= second / 86400 <==> 86400 * day <= second
  {
  }

  /** Each row is created in exactly one month. */
  lemma OneMonthEach(row: HistoryRow)
    ensures exists month, year :: InMonth(Seconds(row.createdAt), month, year)
    ensures forall month, year, month', year' |
              InMonth(Seconds(row.createdAt), month, year) && InMonth(Seconds(row.createdAt), month', year') ::
              month == month' && year == year'
  {
    hide Civil.DayOf;
    var w := Civil.Split(Seconds(row.createdAt));
    CreatedInIff(row, w.month, w.year);
    forall month, year | InMonth(Seconds(row.createdAt), month, year)
      ensures month == w.month && year == w.year
    {
      CreatedInIff(row, month, year);
    }
  }

  // ---- They agree ----

  lemma {:induction false} SumSplits(a: seq<Event>, b: seq<Event>, t: int)
    ensures RunningServers(a + b, t) == RunningServers(a, t) + RunningServers(b, t)
  {
    if a == [] {
      assert a + b == b;
    } else {
      assert (a + b)[1..] == a[1..] + b;
      SumSplits(a[1..], b, t);
    }
  }

  lemma SumOfOne(e: Event, t: int)
    ensures RunningServers([e], t) == if e.time <= t then e.change else 0
  {
    assert [e][1..] == [];
  }

  /** What one row contributes: as much as it should, or one too little between its termination and a later creation. */
  lemma RowSum(row: HistoryRow, month: int, year: int, t: int)
    ensures RunningServers(Events([row], month, year), t) <= if RunsAt(row, month, year, t) then 1 else 0
    ensures RunningServers(Events([row], month, year), t) < (if RunsAt(row, month, year, t) then 1 else 0) <==>
            InGap(row, month, year, t)
  {
    CreatedInIff(row, month, year);
    hide CreatedIn;
    hide InMonth;
    assert [row][1..] == [];
    assert CreatedIn(row, month, year) ==> Creations([row], month, year) == [Event(Seconds(row.createdAt), 1)];
    assert CreatedIn(row, month, year) && row.terminatedAt.Some? ==>
        Terminations([row], month, year) == [Event(Seconds(row.terminatedAt.value), -1)];
    assert Creations([], month, year) == [] && Terminations([], month, year) == [];
    assert !CreatedIn(row, month, year) ==> Creations([row], month, year) == [];
    assert !CreatedIn(row, month, year) ==> Terminations([row], month, year) == [];
    assert row.terminatedAt.None? ==> Terminations([row], month, year) == [];
    SumSplits(Creations([row], month, year), Terminations([row], month, year), t);
    SumOfOne(Event(Seconds(row.createdAt), 1), t);
    if row.terminatedAt.Some? {
      SumOfOne(Event(Seconds(row.terminatedAt.value), -1), t);
    }
  }

  /** The running sum is the sum over the rows. */
  lemma SumOfRows(rows: seq<HistoryRow>, month: int, year: int, t: int)
    requires rows != []
    ensures RunningServers(Events(rows, month, year), t) ==
            RunningServers(Events([rows[0]], month, year), t) + RunningServers(Events(rows[1..], month, year), t)
  {
    hide CreatedIn;
    hide RunningServers;
    var rest := rows[1..];
    SumSplits(Creations(rows, month, year), Terminations(rows, month, year), t);
    SumSplits(Creations([rows[0]], month, year), Terminations([rows[0]], month, year), t);
    SumSplits(Creations(rest, month, year), Terminations(rest, month, year), t);
    SumSplits(Creations([rows[0]], month, year), Creations(rest, month, year), t);
    SumSplits(Terminations([rows[0]], month, year), Terminations(rest, month, year), t);
    assert [rows[0]][1..] == [];
    assert Creations(rows, month, year) == Creations([rows[0]], month, year) + Creations(rest, month, year);
    assert Terminations(rows, month, year) == Terminations([rows[0]], month, year) + Terminations(rest, month, year);
  }

  /** Whatever the rows, the running sum never exceeds the number of servers running. */
  lemma {:induction false} SumAtMostLive(rows: seq<HistoryRow>, month: int, year: int, t: int)
    ensures RunningServers(Events(rows, month, year), t) <= Live(rows, month, year, t)
  {
    if rows != [] {
      SumOfRows(rows, month, year, t);
      RowSum(rows[0], month, year, t);
      hide Events;
      hide RunsAt;
      SumAtMostLive(rows[1..], month, year, t);
    }
  }

  /** At one second the two agree exactly when it lies in no row's gap. */
  lemma {:induction false} SumIsLiveAt(rows: seq<HistoryRow>, month: int, year: int, t: int)
    ensures RunningServers(Events(rows, month, year), t) == Live(rows, month, year, t) <==>
            InNoGap(rows, month, year, t)
  {
    if rows != [] {
      var row, rest := rows[0], rows[1..];
      SumOfRows(rows, month, year, t);
      RowSum(row, month, year, t);
      SumAtMostLive(rest, month, year, t);
      hide Events;
      hide RunsAt;
      hide InGap;
      SumIsLiveAt(rest, month, year, t);
      assert InNoGap(rows, month, year, t) <==> !InGap(row, month, year, t) && InNoGap(rest, month, year, t) by {
        assert row in rows && forall r | r in rows :: r == row || r in rest;
      }
    }
  }

  /** An inverted row is missed at the second of its termination. */
  lemma InvertedIsMissed(rows: seq<HistoryRow>, month: int, year: int, row: HistoryRow)
    requires row in rows && Inverted(row, month, year)
    ensures var t := Seconds(row.terminatedAt.value);
            RunningServers(Events(rows, month, year), t) < Live(rows, month, year, t)
  {
    var t := Seconds(row.terminatedAt.value);
    assert InGap(row, month, year, t);
    hide Events;
    hide InGap;
    SumIsLiveAt(rows, month, year, t);
    SumAtMostLive(rows, month, year, t);
  }

  /**
   The running sum is the number of servers running, at every second and not only at events,
   exactly when no row of the month is terminated before it is created.
   */
  lemma SumIsLive(rows: seq<HistoryRow>, month: int, year: int)
    ensures (forall t :: RunningServers(Events(rows, month, year), t) == Live(rows, month, year, t)) <==>
            NoneInverted(rows, month, year)
  {
    if NoneInverted(rows, month, year) {
      forall t
        ensures RunningServers(Events(rows, month, year), t) == Live(rows, month, year, t)
      {
        SumIsLiveAt(rows, month, year, t);
      }
    } else {
      hide Inverted;
      var row :| row in rows && Inverted(row, month, year);
      InvertedIsMissed(rows, month, year, row);
    }
  }

  /** Between events the running sum is that of the last event, and 0 before the first. */
  lemma {:induction false} SumOfLastEvent(events: seq<Event>, all: seq<Event>, t: int) returns (last: Option<Event>)
    requires forall e | e in events :: e in all
    ensures last.None? ==> forall e | e in events :: t < e.time
    ensures last.Some? ==> last.value in all && last.value.time <= t
    ensures last.Some? ==> forall e | e in events && e.time <= t :: e.time <= last.value.time
  {
    last := None;
    if events != [] {
      last := SumOfLastEvent(events[1..], all, t);
      var e := events[0];
      if e.time <= t && (last.None? || last.value.time < e.time) {
        last := Some(e);
      }
    }
  }

  lemma {:induction false} SameEventsSameSum(events: seq<Event>, t: int, u: int)
    requires forall e | e in events :: e.time <= t <==> e.time <= u
    ensures RunningServers(events, t) == RunningServers(events, u)
  {
    if events != [] {
      SameEventsSameSum(events[1..], t, u);
    }
  }

  lemma {:induction false} NoEventsNoSum(events: seq<Event>, t: int)
    requires forall e | e in events :: t < e.time
    ensures RunningServers(events, t) == 0
  {
    if events != [] {
      NoEventsNoSum(events[1..], t);
    }
  }

  /** From the last event on, as many servers are counted as were created and not terminated. */
  lemma {:induction false} LastSumNotNegative(rows: seq<HistoryRow>, month: int, year: int, t: int)
    requires forall e | e in Events(rows, month, year) :: e.time <= t
    ensures 0 <= RunningServers(Events(rows, month, year), t)
  {
    if rows != [] {
      var rest := rows[1..];
      assert forall e | e in Events(rest, month, year) :: e in Events(rows, month, year);
      RowEvents(rows, month, year);
      SumOfRows(rows, month, year, t);
      hide Events;
      hide CreatedIn;
      RowSumLate(rows[0], month, year, t);
      LastSumNotNegative(rest, month, year, t);
    }
  }

  lemma RowSumLate(row: HistoryRow, month: int, year: int, t: int)
    requires CreatedIn(row, month, year) ==> Seconds(row.createdAt) <= t
    ensures 0 <= RunningServers(Events([row], month, year), t)
  {
    CreatedInIff(row, month, year);
    RowSum(row, month, year, t);
    hide Events;
    hide CreatedIn;
    hide InMonth;
  }

  /** A row's creation is an event of its month. */
  lemma RowEvents(rows: seq<HistoryRow>, month: int, year: int)
    requires rows != []
    ensures CreatedIn(rows[0], month, year) ==> Event(Seconds(rows[0].createdAt), 1) in Events(rows, month, year)
  {
    hide CreatedIn;
    if CreatedIn(rows[0], month, year) {
      assert Creations(rows, month, year)[0] == Event(Seconds(rows[0].createdAt), 1);
    }
  }

  /** The reported count is at least the running sum at every second. */
  lemma SumAtMostPeak(rows: seq<HistoryRow>, month: int, year: int, p: Peak, t: int)
    requires IsQueryResult(Events(rows, month, year), p)
    ensures RunningServers(Events(rows, month, year), t) <= p.maxServersRunning
  {
    var events := Events(rows, month, year);
    var last := SumOfLastEvent(events, events, t);
    if last.Some? {
      SameEventsSameSum(events, t, last.value.time);
    } else {
      NoEventsNoSum(events, t);
      if events != [] {
        var latest := Latest(events);
        LastSumNotNegative(rows, month, year, latest.time);
      }
    }
  }

  lemma {:induction false} Latest(events: seq<Event>) returns (latest: Event)
    requires events != []
    ensures latest in events && forall e | e in events :: e.time <= latest.time
  {
    latest := events[0];
    if |events| > 1 {
      var later := Latest(events[1..]);
      latest := if latest.time <= later.time then later else latest;
    }
  }

  /** At second t as many servers run as ever do. */
  ghost predicate MostLive(rows: seq<HistoryRow>, month: int, year: int, t: int) {
    forall u :: Live(rows, month, year, u) <= Live(rows, month, year, t)
  }

  /** The reported row is the maximum over all seconds of the servers created that month and running then. */
  ghost predicate IsPeak(rows: seq<HistoryRow>, month: int, year: int, p: Peak) {
    p.maxServersRunning == Live(rows, month, year, p.eventTime) && MostLive(rows, month, year, p.eventTime)
  }

  /**
   Whatever row the query returns, it is the peak exactly when some second at which most
   servers run lies in no gap of an inverted row.
   */
  lemma PeakIsMaximumIff(rows: seq<HistoryRow>, month: int, year: int, p: Peak)
    requires IsQueryResult(Events(rows, month, year), p)
    ensures IsPeak(rows, month, year, p) <==>
            exists t :: MostLive(rows, month, year, t) && InNoGap(rows, month, year, t)
  {
    SumAtMostLive(rows, month, year, p.eventTime);
    SumIsLiveAt(rows, month, year, p.eventTime);
    assert p.maxServersRunning == RunningServers(Events(rows, month, year), p.eventTime);
    hide Events;
    hide InNoGap;
    if t :| MostLive(rows, month, year, t) && InNoGap(rows, month, year, t) {
      assert MostLive(rows, month, year, t);
      SumIsLiveAt(rows, month, year, t);
      SumAtMostPeak(rows, month, year, p, t);
      assert Live(rows, month, year, p.eventTime) <= Live(rows, month, year, t);
      forall u
        ensures Live(rows, month, year, u) <= Live(rows, month, year, p.eventTime)
      {
        assert Live(rows, month, year, u) <= Live(rows, month, year, t);
      }
    }
  }

  /**
   In particular, when no row of the month is inverted: the count is the maximum, over all
   seconds, of the number of servers created that month and running then, and its event
   time attains it.
   */
  lemma PeakIsMaximum(rows: seq<HistoryRow>, month: int, year: int, p: Peak)
    requires NoneInverted(rows, month, year)
    requires IsQueryResult(Events(rows, month, year), p)
    ensures forall t :: Live(rows, month, year, t) <= p.maxServersRunning
    ensures p.maxServersRunning == Live(rows, month, year, p.eventTime)
  {
    forall t
      ensures Live(rows, month, year, t) <= p.maxServersRunning
    {
      SumIsLiveAt(rows, month, year, t);
      SumAtMostPeak(rows, month, year, p, t);
    }
    SumAtMostLive(rows, month, year, p.eventTime);
    hide Events;
  }

  /** Whatever the rows, the query never reports more servers than ran at the time it reports. */
  lemma PeakNeverTooHigh(rows: seq<HistoryRow>, month: int, year: int, p: Peak)
    requires IsQueryResult(Events(rows, month, year), p)
    ensures p.maxServersRunning <= Live(rows, month, year, p.eventTime)
  {
    hide Events;
    SumAtMostLive(rows, month, year, p.eventTime);
  }

  /** The query does return a row: scanning the events finds one that IsQueryResult accepts. */
  method GetPeakConcurrentServers(rows: seq<HistoryRow>, month: int, year: int) returns (p: Peak)
    ensures IsQueryResult(Events(rows, month, year), p)
  {
    hide Events;
    hide RunningServers;
    var events := Events(rows, month, year);
    if events == [] {
      return Peak(0, 0);
    }
    p := Peak(events[0].time, RunningServers(events, events[0].time));
    for i := 1 to |events|
      invariant exists e :: e in events && e.time == p.eventTime
      invariant p.maxServersRunning == RunningServers(events, p.eventTime)
      invariant forall k | 0 <= k < i :: RunningServers(events, events[k].time) <= p.maxServersRunning
    {
      var running := RunningServers(events, events[i].time);
      if running > p.maxServersRunning {
        p := Peak(events[i].time, running);
      }
    }
  }

  /**
   The hypothesis is needed: in any month, a row whose termination precedes its creation hides
   a server that runs meanwhile.
   */
  lemma InvertedRowHidesServer(s: int, month: int, year: int)
    requires 50 <= s
    requires InMonth(s, month, year) && InMonth(s + 200, month, year)
    ensures var rows := [HistoryRow(1000 * s, Some(1000 * (s + 100))),
                         HistoryRow(1000 * (s + 200), Some(1000 * (s - 50)))];
            Live(rows, month, year, s + 50) == 1 && IsQueryResult(Events(rows, month, year), Peak(s, 0))
  {
    var first := HistoryRow(1000 * s, Some(1000 * (s + 100)));
    var second := HistoryRow(1000 * (s + 200), Some(1000 * (s - 50)));
    CreatedInIff(first, month, year);
    CreatedInIff(second, month, year);
    hide CreatedIn;
    hide InMonth;
    InvertedEvents(s, first, second, month, year);
    InvertedSums(s);
  }

  lemma InvertedEvents(s: int, first: HistoryRow, second: HistoryRow, month: int, year: int)
    requires 50 <= s
    requires first == HistoryRow(1000 * s, Some(1000 * (s + 100)))
    requires second == HistoryRow(1000 * (s + 200), Some(1000 * (s - 50)))
    requires CreatedIn(first, month, year) && CreatedIn(second, month, year)
    requires InMonth(s, month, year) && InMonth(s + 200, month, year)
    ensures Events([first, second], month, year) ==
            [Event(s, 1), Event(s + 200, 1), Event(s + 100, -1), Event(s - 50, -1)]
    ensures Live([first, second], month, year, s + 50) == 1
  {
    hide CreatedIn;
    var rows := [first, second];
    assert rows[1..] == [second] && [second][1..] == [];
    assert Creations([second], month, year) == [Event(s + 200, 1)];
    assert Terminations([second], month, year) == [Event(s - 50, -1)];
    assert Live([second], month, year, s + 50) == 0;
  }

  lemma InvertedSums(s: int)
    ensures IsQueryResult([Event(s, 1), Event(s + 200, 1), Event(s + 100, -1), Event(s - 50, -1)], Peak(s, 0))
  {
    var a, b, c, d := Event(s, 1), Event(s + 200, 1), Event(s + 100, -1), Event(s - 50, -1);
    var events := [a, b, c, d];
    assert events == [a] + ([b] + ([c] + [d]));
    hide RunningServers;
    forall t
      ensures RunningServers(events, t) == (if a.time <= t then 1 else 0) + (if b.time <= t then 1 else 0)
                                           - (if c.time <= t then 1 else 0) - (if d.time <= t then 1 else 0)
    {
      SumSplits([a], [b] + ([c] + [d]), t);
      SumSplits([b], [c] + [d], t);
      SumSplits([c], [d], t);
      SumOfOne(a, t);
      SumOfOne(b, t);
      SumOfOne(c, t);
      SumOfOne(d, t);
    }
    assert events[0].time == s;
  }
}

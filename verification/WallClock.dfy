/**
 The resolver that turns a wall-clock time in a zone into a UTC instant, and the next
 occurrence of a daily time built on it. A zone is an arbitrary function from
 epoch seconds to offsets in seconds; instants in the methods are milliseconds.
 */
module WallClock {
  import opened Civil
  import opened Wrappers

  type Zone = int -> int

  /** Offsets stay below a day, as the formatter's do. */
  ghost predicate ValidZone(z: Zone) {
    forall s :: -SECONDS_PER_DAY < z(s) < SECONDS_PER_DAY
  }

  /** What the wall clock reads at second s, as seconds of a zone-less calendar. */
  function Reading(z: Zone, s: int): int {
    s + z(s)
  }

  /** Seconds from which the years shown and rebuilt agree, with room for offsets and one more day. */
  predicate InRange(s: int) {
    SECONDS_PER_DAY * (DayFromYear(100) + 5) <= s <= 8_640_000_000_000 - 5 * SECONDS_PER_DAY
  }

  /** The parts shown for instant t (milliseconds) in zone z. */
  function GetWallClockParts(t: int, z: Zone): DateTime {
    var w := Split(Reading(z, t / 1000));
    w.(year := ShownYear(w.year))
  }

  function PartsAsUTC(w: DateTime): int {
    DateUTC(w.year, w.month - 1, w.day, w.hour, w.minute, w.second)
  }

  lemma YearsFrom100(s: int)
    requires SECONDS_PER_DAY * DayFromYear(100) <= s
    ensures Split(s).year >= 100
  {
    hide DayFromYear;
    hide CivilFromDay;
    DaysFrom100(s / SECONDS_PER_DAY);
  }

  lemma DaysFrom100(day: int)
    requires DayFromYear(100) <= day
    ensures CivilFromDay(day).year >= 100
  {
    hide DayFromYear;
    hide MakeDay;
    var c := CivilFromDay(day);
    hide CivilFromDay;
    DayWithinYear(c);
    if c.year + 1 < 100 {
      YearsIncrease(c.year + 1, 100);
    }
  }

  /** Reading the wall clock through the formatter and Date.UTC loses only the milliseconds. */
  lemma WallReadsSecond(t: int, z: Zone)
    requires ValidZone(z)
    requires SECONDS_PER_DAY * (DayFromYear(100) + 1) <= t / 1000
    ensures PartsAsUTC(GetWallClockParts(t, z)) == 1000 * Reading(z, t / 1000)
  {
    hide DayFromYear;
    hide MakeDay;
    var s := Reading(z, t / 1000);
    YearsFrom100(s);
    DateUTCRoundTrip(s);
  }

  // ---- The fixed-point loop, on seconds ----

  /** Seconds less than a day from n: every candidate is n less some offset. */
  predicate Near(n: int, k: int) {
    -SECONDS_PER_DAY < n - k < SECONDS_PER_DAY
  }

  function Candidates(n: int): set<int> {
    set k | n - SECONDS_PER_DAY < k < n + SECONDS_PER_DAY && Near(n, k)
  }

  /** The loop from candidate c on, `prev` being the candidate before it. */
  function Iterate(z: Zone, n: int, c: int, prev: int, seen: set<int>): (r: int)
    requires ValidZone(z) && c in Candidates(n) && prev in Candidates(n)
    ensures r in Candidates(n)
    decreases Candidates(n) - seen
  {
    if c in seen then if Reading(z, prev) > n then prev else c
    else if Reading(z, c) == n then c
    else
      assert c in Candidates(n) - seen;
      Iterate(z, n, n - z(c), c, seen + {c})
  }

  /** The instant that wall time n resolves to, seeded with the offset at second `ref`. */
  function Resolve(z: Zone, n: int, ref: int): (r: int)
    requires ValidZone(z)
    ensures r in Candidates(n)
  {
    Iterate(z, n, n - z(ref), n - z(ref), {})
  }

  /**
   Whatever the zone does, and however often its offset changes, the loop ends with the
   naive time less one of the zone's own offsets.
   */
  lemma {:induction false} IterateSubtractsAnOffset(z: Zone, n: int, c: int, prev: int, seen: set<int>)
    requires ValidZone(z) && c in Candidates(n) && prev in Candidates(n)
    requires (exists s :: c == n - z(s)) && (exists s :: prev == n - z(s))
    ensures exists s :: Iterate(z, n, c, prev, seen) == n - z(s)
    decreases Candidates(n) - seen
  {
    if c !in seen && Reading(z, c) != n {
      assert c in Candidates(n) - seen;
      IterateSubtractsAnOffset(z, n, n - z(c), c, seen + {c});
    }
  }

  lemma ResolveSubtractsAnOffset(z: Zone, n: int, ref: int)
    requires ValidZone(z)
    ensures exists s :: Resolve(z, n, ref) == n - z(s)
  {
    IterateSubtractsAnOffset(z, n, n - z(ref), n - z(ref), {});
  }

  /** The zone changes its offset at most once on [lo, hi], from a to b at second t0. */
  ghost predicate OneTransition(z: Zone, t0: int, a: int, b: int, lo: int, hi: int) {
    forall s | lo <= s <= hi :: z(s) == if s < t0 then a else b
  }

  /** No instant of the zone reads n. */
  predicate Skipped(n: int, t0: int, a: int, b: int) {
    n - b < t0 <= n - a
  }

  /** Both n - a and n - b read n. */
  predicate Ambiguous(n: int, t0: int, a: int, b: int) {
    n - a < t0 <= n - b
  }

  lemma ResolveCases(z: Zone, n: int, ref: int, t0: int, a: int, b: int, lo: int, hi: int)
    requires ValidZone(z) && OneTransition(z, t0, a, b, lo, hi)
    requires lo <= ref <= hi && lo <= n - a <= hi && lo <= n - b <= hi
    ensures Resolve(z, n, ref) ==
            if Skipped(n, t0, a, b) then n - a
            else if Ambiguous(n, t0, a, b) then (if ref < t0 then n - a else n - b)
            else if n - a < t0 then n - a
            else n - b
  {
    var c0 := n - z(ref);
    if Reading(z, c0) != n {
      var c1 := n - z(c0);
      assert c0 in Candidates(n) - {};
      assert {} + {c0} == {c0};
      assert Resolve(z, n, ref) == Iterate(z, n, c1, c0, {c0});
      if c1 != c0 && Reading(z, c1) != n {
        assert c0 == n - z(c1);
        assert Iterate(z, n, c1, c0, {c0}) == Iterate(z, n, c0, c1, {c0, c1}) by {
          assert {c0} + {c1} == {c0, c1};
        }
      }
    }
  }

  /**
   With at most one change of offset around the reference and the candidates, a wall time
   that exists is read exactly; one inside a spring-forward gap resolves to the
   naive time less the pre-gap offset, so the clock reads later by the gap; a
   repeated one resolves to its first occurrence when the reference comes
   before the change, and to the one after the change otherwise.
   */
  lemma ResolverCorrect(z: Zone, n: int, ref: int, t0: int, a: int, b: int, lo: int, hi: int)
    requires ValidZone(z) && OneTransition(z, t0, a, b, lo, hi)
    requires lo <= ref <= hi && lo <= n - a <= hi && lo <= n - b <= hi
    ensures (exists s | lo <= s <= hi :: Reading(z, s) == n) <==> Reading(z, Resolve(z, n, ref)) == n
    ensures (forall s | lo <= s <= hi :: Reading(z, s) != n) ==>
              a < b && Resolve(z, n, ref) == n - a && Reading(z, Resolve(z, n, ref)) == n + (b - a)
    ensures forall s | lo <= s <= hi && Reading(z, s) == n ::
              if ref < t0 then Resolve(z, n, ref) <= s else t0 <= s ==> Resolve(z, n, ref) == s
  {
    ResolveCases(z, n, ref, t0, a, b, lo, hi);
    forall s | lo <= s <= hi && Reading(z, s) == n
      ensures (s == n - a && s < t0) || (s == n - b && t0 <= s)
    {
    }
  }

  /**
   The resolver's own comment says that a repeated time resolves to its first
   occurrence. It does exactly when the reference precedes the change of offset.
   */
  lemma FirstOccurrenceIffReferenceBefore(z: Zone, n: int, ref: int, t0: int, a: int, b: int, lo: int, hi: int)
    requires ValidZone(z) && OneTransition(z, t0, a, b, lo, hi)
    requires lo <= ref <= hi && lo <= n - a <= hi && lo <= n - b <= hi
    requires b < a && Ambiguous(n, t0, a, b)
    ensures (forall s | lo <= s <= hi && Reading(z, s) == n :: Resolve(z, n, ref) <= s) <==> ref < t0
  {
    ResolveCases(z, n, ref, t0, a, b, lo, hi);
    assert Reading(z, n - a) == n;
  }

  /** A fall-back from +1 h to 0 at second 0: half past midnight is read at -1800 and at 1800. */
  lemma RepeatedTimeAfterFallBack()
    ensures var z: Zone := s => if s < 0 then 3600 else 0;
            ValidZone(z) && Reading(z, -1800) == 1800 && Resolve(z, 1800, 600) == 1800
  {
    var z: Zone := s => if s < 0 then 3600 else 0;
    ResolveCases(z, 1800, 600, 0, 3600, 0, -4000, 4000);
  }

  // ---- The next occurrence of a daily time, on seconds ----

  /** Midnight, on the wall calendar, of the wall day that second `ref` falls in. */
  function WallMidnight(z: Zone, ref: int): int {
    SECONDS_PER_DAY * (Reading(z, ref) / SECONDS_PER_DAY)
  }

  function NextOccurrence(z: Zone, ref: int, tod: int): int
    requires ValidZone(z)
  {
    var sameDay := Resolve(z, WallMidnight(z, ref) + tod, ref);
    if sameDay <= ref then Resolve(z, WallMidnight(z, ref) + tod + SECONDS_PER_DAY, ref) else sameDay
  }

  /** One change of offset, by a day at most, from three days before the reference to four days after it. */
  ghost predicate OneTransitionAround(z: Zone, ref: int, t0: int, a: int, b: int) {
    -SECONDS_PER_DAY < a < SECONDS_PER_DAY && -SECONDS_PER_DAY < b < SECONDS_PER_DAY &&
    -SECONDS_PER_DAY <= b - a <= SECONDS_PER_DAY &&
    OneTransition(z, t0, a, b, ref - 3 * SECONDS_PER_DAY, ref + 4 * SECONDS_PER_DAY)
  }

  lemma WallMidnightBounds(z: Zone, ref: int)
    ensures WallMidnight(z, ref) <= Reading(z, ref) < WallMidnight(z, ref) + SECONDS_PER_DAY
  {
  }

  lemma NextOccurrenceCases(z: Zone, ref: int, tod: int, m: int, t0: int, a: int, b: int)
    requires ValidZone(z) && 0 <= tod < SECONDS_PER_DAY && OneTransitionAround(z, ref, t0, a, b)
    requires m == WallMidnight(z, ref) + tod || m == WallMidnight(z, ref) + tod + SECONDS_PER_DAY
    ensures Resolve(z, m, ref) ==
            if Skipped(m, t0, a, b) then m - a
            else if Ambiguous(m, t0, a, b) then (if ref < t0 then m - a else m - b)
            else if m - a < t0 then m - a
            else m - b
  {
    hide WallMidnight;
    WallMidnightBounds(z, ref);
    ResolveCases(z, m, ref, t0, a, b, ref - 3 * SECONDS_PER_DAY, ref + 4 * SECONDS_PER_DAY);
  }

  /**
   The next occurrence comes strictly after the reference, and at most a day plus the
   fall-back shift later.
   */
  lemma NextOccurrenceInFuture(z: Zone, ref: int, tod: int, t0: int, a: int, b: int)
    requires ValidZone(z) && 0 <= tod < SECONDS_PER_DAY && OneTransitionAround(z, ref, t0, a, b)
    ensures ref < NextOccurrence(z, ref, tod) <= ref + SECONDS_PER_DAY + if b < a then a - b else 0
  {
    hide WallMidnight;
    hide Resolve;
    var n := WallMidnight(z, ref) + tod;
    WallMidnightBounds(z, ref);
    NextOccurrenceCases(z, ref, tod, n, t0, a, b);
    NextOccurrenceCases(z, ref, tod, n + SECONDS_PER_DAY, t0, a, b);
  }

  /** The next occurrence reads the requested time of day, unless the day it falls on skips that time. */
  lemma NextOccurrenceReadsTime(z: Zone, ref: int, tod: int, t0: int, a: int, b: int)
    requires ValidZone(z) && 0 <= tod < SECONDS_PER_DAY && OneTransitionAround(z, ref, t0, a, b)
    ensures var n := WallMidnight(z, ref) + tod;
            var r := NextOccurrence(z, ref, tod);
            var m := if Resolve(z, n, ref) <= ref then n + SECONDS_PER_DAY else n;
            Reading(z, r) == if Skipped(m, t0, a, b) then m + (b - a) else m
  {
    hide WallMidnight;
    hide Resolve;
    var n := WallMidnight(z, ref) + tod;
    WallMidnightBounds(z, ref);
    NextOccurrenceCases(z, ref, tod, n, t0, a, b);
    NextOccurrenceCases(z, ref, tod, n + SECONDS_PER_DAY, t0, a, b);
  }

  /** Second s shows the time of day `tod`. */
  predicate ShowsTime(z: Zone, s: int, tod: int) {
    Reading(z, s) % SECONDS_PER_DAY == tod
  }

  /**
   The reading n is repeated by a fall-back after the reference, and its first occurrence
   is not after the reference: only the second one is still to come.
   */
  predicate OnlySecondAhead(n: int, ref: int, t0: int, a: int, b: int) {
    n - a <= ref < t0 <= n - b
  }

  /** Readings at the same time of day differ by whole days. */
  lemma SameTimeOfDay(n: int, m: int, tod: int)
    requires n % SECONDS_PER_DAY == tod && m % SECONDS_PER_DAY == tod
    ensures m < n ==> m <= n - SECONDS_PER_DAY
    ensures m < n - SECONDS_PER_DAY ==> m <= n - 2 * SECONDS_PER_DAY
    ensures n < m ==> n + SECONDS_PER_DAY <= m
    ensures n + SECONDS_PER_DAY < m ==> n + 2 * SECONDS_PER_DAY <= m
  {
  }

  lemma WallMidnightTime(z: Zone, ref: int, tod: int)
    requires 0 <= tod < SECONDS_PER_DAY
    ensures (WallMidnight(z, ref) + tod) % SECONDS_PER_DAY == tod
    ensures (WallMidnight(z, ref) + tod - SECONDS_PER_DAY) % SECONDS_PER_DAY == tod
    ensures (WallMidnight(z, ref) + tod + SECONDS_PER_DAY) % SECONDS_PER_DAY == tod
  {
  }

  /** Where a second that shows the time can lie, when it comes after the reference. */
  lemma NotEarlier(z: Zone, ref: int, tod: int, s: int, t0: int, a: int, b: int)
    requires ValidZone(z) && 0 <= tod < SECONDS_PER_DAY && OneTransitionAround(z, ref, t0, a, b)
    requires ref < s < NextOccurrence(z, ref, tod) && ShowsTime(z, s, tod)
    ensures var n := WallMidnight(z, ref) + tod;
            OnlySecondAhead(n, ref, t0, a, b) || OnlySecondAhead(n - SECONDS_PER_DAY, ref, t0, a, b)
  {
    hide WallMidnight;
    hide Resolve;
    var n := WallMidnight(z, ref) + tod;
    NextOccurrenceInFuture(z, ref, tod, t0, a, b);
    WallMidnightBounds(z, ref);
    WallMidnightTime(z, ref, tod);
    SameTimeOfDay(n, Reading(z, s), tod);
    NextOccurrenceCases(z, ref, tod, n, t0, a, b);
    NextOccurrenceCases(z, ref, tod, n + SECONDS_PER_DAY, t0, a, b);
  }

  /**
   Nothing between the reference and the result shows the requested time, exactly when
   no repeated reading of it has its first occurrence behind the reference and
   its second ahead, on the reference's wall day or the day before. In
   particular the result is the earliest whenever the zone does not fall back.
   */
  lemma NextOccurrenceEarliest(z: Zone, ref: int, tod: int, t0: int, a: int, b: int)
    requires ValidZone(z) && 0 <= tod < SECONDS_PER_DAY && OneTransitionAround(z, ref, t0, a, b)
    ensures var n := WallMidnight(z, ref) + tod;
            (forall s | ref < s < NextOccurrence(z, ref, tod) :: !ShowsTime(z, s, tod)) <==>
            !OnlySecondAhead(n, ref, t0, a, b) && !OnlySecondAhead(n - SECONDS_PER_DAY, ref, t0, a, b)
  {
    var n := WallMidnight(z, ref) + tod;
    forall s | ref < s < NextOccurrence(z, ref, tod) && ShowsTime(z, s, tod)
      ensures OnlySecondAhead(n, ref, t0, a, b) || OnlySecondAhead(n - SECONDS_PER_DAY, ref, t0, a, b)
    {
      NotEarlier(z, ref, tod, s, t0, a, b);
    }
    if OnlySecondAhead(n, ref, t0, a, b) {
      SecondIsMissed(z, ref, tod, n, t0, a, b);
    } else if OnlySecondAhead(n - SECONDS_PER_DAY, ref, t0, a, b) {
      SecondIsMissed(z, ref, tod, n - SECONDS_PER_DAY, t0, a, b);
    }
  }

  /**
   The excluded case, inhabited: a fall-back from +1 h to 0 at second 0, and 00:30 asked for at
   00:43 before it. The 00:30 that comes again at second 1800 is passed over for the next day's.
   */
  lemma RepeatedTimePassedOver()
    ensures var z: Zone := s => if s < 0 then 3600 else 0;
            ValidZone(z) && ShowsTime(z, 1800, 1800) && -1000 < 1800 < NextOccurrence(z, -1000, 1800) == 88200
  {
    var z: Zone := s => if s < 0 then 3600 else 0;
    ResolveCases(z, 1800, -1000, 0, 3600, 0, -100000, 100000);
    ResolveCases(z, 88200, -1000, 0, 3600, 0, -100000, 100000);
    hide Resolve;
    assert WallMidnight(z, -1000) == 0;
  }

  lemma SecondIsMissed(z: Zone, ref: int, tod: int, m: int, t0: int, a: int, b: int)
    requires ValidZone(z) && 0 <= tod < SECONDS_PER_DAY && OneTransitionAround(z, ref, t0, a, b)
    requires m == WallMidnight(z, ref) + tod || m == WallMidnight(z, ref) + tod - SECONDS_PER_DAY
    requires OnlySecondAhead(m, ref, t0, a, b)
    ensures ref < m - b < NextOccurrence(z, ref, tod) && ShowsTime(z, m - b, tod)
  {
    hide WallMidnight;
    hide Resolve;
    var n := WallMidnight(z, ref) + tod;
    WallMidnightBounds(z, ref);
    WallMidnightTime(z, ref, tod);
    NextOccurrenceCases(z, ref, tod, n, t0, a, b);
    NextOccurrenceCases(z, ref, tod, n + SECONDS_PER_DAY, t0, a, b);
  }

  // ---- The methods, on milliseconds ----

  /** The instants with ms milliseconds at these seconds. */
  function Instants(seconds: set<int>, ms: int): set<int> {
    set k | k in seconds :: 1000 * k + ms
  }

  lemma InstantsOne(seconds: set<int>, ms: int, c: int)
    ensures 1000 * c + ms in Instants(seconds, ms) <==> c in seconds
    ensures Instants(seconds + {c}, ms) == Instants(seconds, ms) + {1000 * c + ms}
  {
  }

  lemma NoInstants(ms: int)
    ensures Instants({}, ms) == {}
  {
  }

  lemma IterateStep(z: Zone, n: int, c: int, prev: int, seen: set<int>)
    requires ValidZone(z) && c in Candidates(n) && prev in Candidates(n)
    ensures n - z(c) in Candidates(n)
    ensures Iterate(z, n, c, prev, seen) ==
            if c in seen then if Reading(z, prev) > n then prev else c
            else if Reading(z, c) == n then c
            else Iterate(z, n, n - z(c), c, seen + {c})
  {
  }

  /** What the loop computes from a candidate's parts. */
  lemma WallOfCandidate(z: Zone, n: int, c: int, ms: int)
    requires ValidZone(z) && InRange(n) && c in Candidates(n) && 0 <= ms < 1000
    ensures PartsAsUTC(GetWallClockParts(1000 * c + ms, z)) == 1000 * Reading(z, c)
  {
    hide DayFromYear;
    hide GetWallClockParts;
    assert (1000 * c + ms) / 1000 == c;
    WallReadsSecond(1000 * c + ms, z);
  }

  /** The seed: the reference less its own wall clock is minus its offset, plus its milliseconds. */
  lemma WallOfReference(z: Zone, reference: int)
    requires ValidZone(z) && InRange(reference / 1000)
    ensures reference - PartsAsUTC(GetWallClockParts(reference, z)) == reference % 1000 - 1000 * z(reference / 1000)
    ensures 0 <= reference % 1000 < 1000
  {
    hide DayFromYear;
    hide GetWallClockParts;
    WallReadsSecond(reference, z);
  }

  lemma FirstCandidate(z: Zone, n: int, ref: int)
    requires ValidZone(z)
    ensures n - z(ref) in Candidates(n)
  {
  }

  /**
   The loop, from its first candidate. Every candidate is 1000 times a candidate in
   seconds plus the reference's milliseconds, and so is the result.
   */
  method FixedPoint(naive: int, first: int, z: Zone, ghost n: int, ghost c0: int, ghost ms: int) returns (r: int)
    requires ValidZone(z) && InRange(n) && naive == 1000 * n
    requires c0 in Candidates(n) && 0 <= ms < 1000 && first == 1000 * c0 + ms
    ensures r == 1000 * Iterate(z, n, c0, c0, {}) + ms
  {
    hide InRange;
    hide GetWallClockParts;
    hide PartsAsUTC;
    hide Iterate;
    hide Candidates;
    hide Instants;
    var candidate := first;
    var previous: Option<int> := None;
    var seen: set<int> := {};
    ghost var c, prev, seconds := c0, c0, {};
    NoInstants(ms);
    while candidate !in seen
      invariant candidate == 1000 * c + ms && c in Candidates(n) && prev in Candidates(n)
      invariant previous == if seconds == {} then None else Some(1000 * prev + ms)
      invariant seen == Instants(seconds, ms)
      invariant Iterate(z, n, c0, c0, {}) == Iterate(z, n, c, prev, seconds)
      decreases Candidates(n) - seconds
    {
      IterateStep(z, n, c, prev, seconds);
      InstantsOne(seconds, ms, c);
      WallOfCandidate(z, n, c, ms);
      seen := seen + {candidate};
      var wall := PartsAsUTC(GetWallClockParts(candidate, z));
      if wall == naive {
        return candidate;
      }
      previous := Some(candidate);
      candidate := naive + candidate - wall;
      seconds, prev, c := seconds + {c}, c, n - z(c);
    }
    InstantsOne(seconds, ms, c);
    IterateStep(z, n, c, prev, seconds);
    WallOfCandidate(z, n, prev, ms);
    var last := if previous.Some? then previous.value else candidate;
    var previousWall := PartsAsUTC(GetWallClockParts(last, z));
    if previousWall > naive {
      return last;
    }
    return candidate;
  }

  method WallClockToUtc(year: int, month: int, day: int, hour: int, minute: int, z: Zone, reference: int)
    returns (r: int)
    requires ValidZone(z) && InRange(reference / 1000)
    requires InRange(DateUTC(year, month - 1, day, hour, minute, 0) / 1000)
    ensures r == 1000 * Resolve(z, DateUTC(year, month - 1, day, hour, minute, 0) / 1000, reference / 1000)
                 + reference % 1000
  {
    hide InRange;
    hide DateUTC;
    hide GetWallClockParts;
    hide PartsAsUTC;
    var naive := DateUTC(year, month - 1, day, hour, minute, 0);
    WholeSeconds(year, month - 1, day, hour, minute, 0);
    WallOfReference(z, reference);
    FirstCandidate(z, naive / 1000, reference / 1000);
    var offset := reference - PartsAsUTC(GetWallClockParts(reference, z));
    r := FixedPoint(naive, naive + offset, z, naive / 1000, naive / 1000 - z(reference / 1000), reference % 1000);
  }

  lemma WholeSeconds(y: int, m0: int, d: int, h: int, mi: int, s: int)
    ensures DateUTC(y, m0, d, h, mi, s) % 1000 == 0
  {
  }

  const SCHEDULE_TIMEZONES: seq<string> := [
    "UTC", "America/New_York", "America/Chicago", "America/Denver", "America/Los_Angeles",
    "America/Sao_Paulo", "America/Argentina/Buenos_Aires", "America/Bogota", "Europe/London",
    "Europe/Lisbon", "Europe/Madrid", "Europe/Paris", "Europe/Berlin", "Europe/Rome",
    "Europe/Amsterdam", "Europe/Warsaw", "Europe/Moscow", "Europe/Istanbul", "Asia/Dubai",
    "Asia/Kolkata", "Asia/Bangkok", "Asia/Singapore", "Asia/Tokyo", "Asia/Seoul", "Australia/Sydney"
  ]

  datatype ScheduleError = InvalidTime | InvalidTimezone

  predicate IsDigit(c: char) {
    '0' <= c <= '9'
  }

  /** HH:mm on a 24-hour clock, both fields with two digits. */
  predicate IsValidScheduleTime(time: string) {
    && |time| == 5 && time[2] == ':'
    && (((time[0] == '0' || time[0] == '1') && IsDigit(time[1])) || (time[0] == '2' && '0' <= time[1] <= '3'))
    && '0' <= time[3] <= '5' && IsDigit(time[4])
  }

  function TwoDigits(hi: char, lo: char): int {
    10 * (hi as int - '0' as int) + (lo as int - '0' as int)
  }

  /** The seconds into the day that a valid time names. */
  function TimeOfDaySeconds(time: string): (tod: int)
    requires IsValidScheduleTime(time)
    ensures 0 <= tod < SECONDS_PER_DAY && tod % 60 == 0
  {
    3600 * TwoDigits(time[0], time[1]) + 60 * TwoDigits(time[3], time[4])
  }

  const DIGITS := "0123456789"

  /** Hour h and minute m as the picker writes them: two decimal digits each. */
  function TimeText(h: nat, m: nat): string
    requires h < 24 && m < 60
  {
    [DIGITS[h / 10], DIGITS[h % 10], ':', DIGITS[m / 10], DIGITS[m % 10]]
  }

  ghost predicate Reads(time: string, h: nat, m: nat) {
    h < 24 && m < 60 && time == TimeText(h, m)
  }

  lemma DigitAt(d: nat)
    requires d < 10
    ensures DIGITS[d] as int == '0' as int + d
  {
  }

  /** The text of an hour and a minute is valid, and means that many hours and minutes into the day. */
  lemma TextMeans(h: nat, m: nat)
    requires h < 24 && m < 60
    ensures IsValidScheduleTime(TimeText(h, m)) && TimeOfDaySeconds(TimeText(h, m)) == 3600 * h + 60 * m
    ensures TwoDigits(TimeText(h, m)[0], TimeText(h, m)[1]) == h && TwoDigits(TimeText(h, m)[3], TimeText(h, m)[4]) == m
  {
    DigitAt(h / 10);
    DigitAt(h % 10);
    DigitAt(m / 10);
    DigitAt(m % 10);
  }

  lemma TextsDiffer(h: nat, m: nat, h': nat, m': nat)
    requires h < 24 && m < 60 && h' < 24 && m' < 60 && TimeText(h, m) == TimeText(h', m')
    ensures h == h' && m == m'
  {
    TextMeans(h, m);
    TextMeans(h', m');
  }

  lemma DigitIs(c: char) returns (d: nat)
    requires IsDigit(c)
    ensures d < 10 && DIGITS[d] == c
  {
    d := c as int - '0' as int;
    DigitAt(d);
  }

  /** Every valid text is the text of one hour and minute, and of no other. */
  lemma ValidIffText(time: string)
    ensures IsValidScheduleTime(time) <==> exists h: nat, m: nat :: Reads(time, h, m)
    ensures forall h: nat, m: nat, h': nat, m': nat | Reads(time, h, m) && Reads(time, h', m') :: h == h' && m == m'
  {
    hide IsValidScheduleTime;
    hide TimeText;
    forall h: nat, m: nat | Reads(time, h, m)
      ensures IsValidScheduleTime(time)
    {
      TextMeans(h, m);
    }
    forall h: nat, m: nat, h': nat, m': nat | Reads(time, h, m) && Reads(time, h', m')
      ensures h == h' && m == m'
    {
      TextsDiffer(h, m, h', m');
    }
    if IsValidScheduleTime(time) {
      var h, m := ValidIsText(time);
    }
  }

  lemma ValidIsText(time: string) returns (h: nat, m: nat)
    requires IsValidScheduleTime(time)
    ensures Reads(time, h, m)
  {
    var a := DigitIs(time[0]);
    var b := DigitIs(time[1]);
    var c := DigitIs(time[3]);
    var d := DigitIs(time[4]);
    DigitAt(a);
    DigitAt(b);
    DigitAt(c);
    h, m := 10 * a + b, 10 * c + d;
    assert h / 10 == a && h % 10 == b && m / 10 == c && m % 10 == d;
    hide IsDigit;
  }

  /** Date.UTC on the wall date of second s, some days on, is that day's wall midnight plus the time. */
  lemma NaiveOfWallDate(z: Zone, t: int, days: int, h: int, mi: int)
    requires ValidZone(z) && InRange(t / 1000)
    ensures var w := GetWallClockParts(t, z);
            DateUTC(w.year, w.month - 1, w.day + days, h, mi, 0)
            == 1000 * (WallMidnight(z, t / 1000) + SECONDS_PER_DAY * days + 3600 * h + 60 * mi)
  {
    hide DayFromYear;
    hide DayOf;
    hide DateUTC;
    hide CivilFromDay;
    var s := Reading(z, t / 1000);
    YearsFrom100(s);
    var c := CivilFromDay(s / SECONDS_PER_DAY);
    NaiveOfDate(c, days, h, mi);
  }

  lemma NaiveOfDate(c: Date, days: int, h: int, mi: int)
    requires c.year >= 100
    ensures DateUTC(c.year, c.month - 1, c.day + days, h, mi, 0) ==
            1000 * (SECONDS_PER_DAY * (DayOf(c) + days) + 3600 * h + 60 * mi)
  {
    hide DayFromYear;
    hide DaysBeforeMonth;
  }

  /** A whole UTC day that is read back through its civil date and rebuilt. */
  lemma NaiveOfUTCDay(day: int, h: int, mi: int)
    requires DayFromYear(100) <= day
    ensures var c := CivilFromDay(day);
            DateUTC(c.year, c.month - 1, c.day, h, mi, 0) == 1000 * (SECONDS_PER_DAY * day + 3600 * h + 60 * mi)
  {
    hide DayFromYear;
    hide DayOf;
    hide DateUTC;
    hide CivilFromDay;
    YearsFrom100(SECONDS_PER_DAY * day);
    assert SECONDS_PER_DAY * day / SECONDS_PER_DAY == day;
    NaiveOfDate(CivilFromDay(day), 0, h, mi);
  }

  /** Both naive times stay in range, and so does the reference itself. */
  lemma NaiveInRange(z: Zone, ref: int, tod: int)
    requires ValidZone(z) && 0 <= tod < SECONDS_PER_DAY
    requires InRange(ref - 4 * SECONDS_PER_DAY) && InRange(ref + 4 * SECONDS_PER_DAY)
    ensures InRange(ref) && InRange(WallMidnight(z, ref) + tod) && InRange(WallMidnight(z, ref) + tod + SECONDS_PER_DAY)
    ensures DayFromYear(100) <= Reading(z, ref) / SECONDS_PER_DAY + 1
  {
    hide DayFromYear;
    WallMidnightBounds(z, ref);
  }

  /** The wall day after instant t's, as Date.UTC rolls it over month and year ends. */
  function NextWallDate(z: Zone, t: int): Date {
    var w := GetWallClockParts(t, z);
    CivilFromDay(DateUTC(w.year, w.month - 1, w.day + 1, 0, 0, 0) / 1000 / SECONDS_PER_DAY)
  }

  lemma NaiveTimes(z: Zone, t: int, h: int, mi: int)
    requires ValidZone(z) && 0 <= 3600 * h + 60 * mi < SECONDS_PER_DAY
    requires InRange(t / 1000 - 4 * SECONDS_PER_DAY) && InRange(t / 1000 + 4 * SECONDS_PER_DAY)
    ensures var w, w' := GetWallClockParts(t, z), NextWallDate(z, t);
            var n := WallMidnight(z, t / 1000) + 3600 * h + 60 * mi;
            && DateUTC(w.year, w.month - 1, w.day, h, mi, 0) == 1000 * n
            && DateUTC(w'.year, w'.month - 1, w'.day, h, mi, 0) == 1000 * (n + SECONDS_PER_DAY)
            && InRange(t / 1000) && InRange(n) && InRange(n + SECONDS_PER_DAY)
  {
    hide InRange;
    hide DateUTC;
    hide DayFromYear;
    hide GetWallClockParts;
    hide CivilFromDay;
    NaiveInRange(z, t / 1000, 3600 * h + 60 * mi);
    NaiveOfWallDate(z, t, 0, h, mi);
    NaiveOfWallDate(z, t, 1, 0, 0);
    NaiveOfUTCDay(Reading(z, t / 1000) / SECONDS_PER_DAY + 1, h, mi);
  }

  method ComputeNextOccurrence(time: string, timezone: string, z: Zone, now: int)
    returns (r: Result<int, ScheduleError>)
    requires ValidZone(z) && InRange(now / 1000 - 4 * SECONDS_PER_DAY) && InRange(now / 1000 + 4 * SECONDS_PER_DAY)
    ensures r == if !IsValidScheduleTime(time) then Failure(InvalidTime)
                 else if timezone !in SCHEDULE_TIMEZONES then Failure(InvalidTimezone)
                 else Success(1000 * NextOccurrence(z, now / 1000, TimeOfDaySeconds(time)) + now % 1000)
    ensures r == Failure(InvalidTime) <==> !exists h: nat, m: nat :: Reads(time, h, m)
    ensures r == Failure(InvalidTimezone) ==> timezone !in SCHEDULE_TIMEZONES
    ensures forall h: nat, m: nat | r.Success? && Reads(time, h, m) ::
              r.value == 1000 * NextOccurrence(z, now / 1000, 3600 * h + 60 * m) + now % 1000
  {
    TextDecides(time);
    hide Reads;
    hide NextOccurrence;
    if !IsValidScheduleTime(time) {
      return Failure(InvalidTime);
    }
    if timezone !in SCHEDULE_TIMEZONES {
      return Failure(InvalidTimezone);
    }
    var hour, minute := TwoDigits(time[0], time[1]), TwoDigits(time[3], time[4]);
    assert TimeOfDaySeconds(time) == 3600 * hour + 60 * minute;
    hide *;
    r := NextWallOccurrence(hour, minute, z, now);
  }

  lemma TextDecides(time: string)
    ensures IsValidScheduleTime(time) <==> exists h: nat, m: nat :: Reads(time, h, m)
    ensures forall h: nat, m: nat | Reads(time, h, m) ::
              IsValidScheduleTime(time) && TimeOfDaySeconds(time) == 3600 * h + 60 * m
  {
    ValidIffText(time);
    forall h: nat, m: nat | Reads(time, h, m)
      ensures IsValidScheduleTime(time) && TimeOfDaySeconds(time) == 3600 * h + 60 * m
    {
      TextMeans(h, m);
    }
  }

  /** The wall day that the next occurrence falls on, at the time asked for: the reference's day or the next. */
  function OccurrenceDay(z: Zone, ref: int, tod: int): int
    requires ValidZone(z)
  {
    var n := WallMidnight(z, ref) + tod;
    if Resolve(z, n, ref) <= ref then n + SECONDS_PER_DAY else n
  }

  predicate ShowsHourAndMinute(w: DateTime, h: nat, m: nat) {
    w.hour == h && w.minute == m && w.second == 0
  }

  /**
   End to end: what the wall clock shows at the instant computed for hour h and minute m, from
   a reference of ref seconds and ms milliseconds, is h:m:00, unless the wall day that it falls
   on skips that time.
   */
  lemma ResultShowsTime(z: Zone, ref: int, ms: int, h: nat, m: nat, t0: int, a: int, b: int)
    requires ValidZone(z) && 0 <= ms < 1000 && h < 24 && m < 60 && OneTransitionAround(z, ref, t0, a, b)
    requires !Skipped(OccurrenceDay(z, ref, 3600 * h + 60 * m), t0, a, b)
    ensures ShowsHourAndMinute(GetWallClockParts(1000 * NextOccurrence(z, ref, 3600 * h + 60 * m) + ms, z), h, m)
  {
    hide GetWallClockParts;
    hide NextOccurrence;
    hide OccurrenceDay;
    var q := ReadingOfResult(z, ref, 3600 * h + 60 * m, t0, a, b);
    PartsAt(z, NextOccurrence(z, ref, 3600 * h + 60 * m), ms, q, h, m);
  }

  lemma ReadingOfResult(z: Zone, ref: int, tod: int, t0: int, a: int, b: int) returns (q: int)
    requires ValidZone(z) && 0 <= tod < SECONDS_PER_DAY && OneTransitionAround(z, ref, t0, a, b)
    requires !Skipped(OccurrenceDay(z, ref, tod), t0, a, b)
    ensures Reading(z, NextOccurrence(z, ref, tod)) == SECONDS_PER_DAY * q + tod
  {
    NextOccurrenceReadsTime(z, ref, tod, t0, a, b);
    q := Reading(z, ref) / SECONDS_PER_DAY;
    if Resolve(z, WallMidnight(z, ref) + tod, ref) <= ref {
      q := q + 1;
    }
  }

  lemma PartsAt(z: Zone, r: int, ms: int, q: int, h: nat, m: nat)
    requires 0 <= ms < 1000 && h < 24 && m < 60 && Reading(z, r) == SECONDS_PER_DAY * q + (3600 * h + 60 * m)
    ensures ShowsHourAndMinute(GetWallClockParts(1000 * r + ms, z), h, m)
  {
    hide CivilFromDay;
    assert (1000 * r + ms) / 1000 == r;
    PartsOfDay(q, h, m);
  }

  lemma PartsOfDay(day: int, h: nat, m: nat)
    requires h < 24 && m < 60
    ensures ShowsHourAndMinute(Split(SECONDS_PER_DAY * day + (3600 * h + 60 * m)), h, m)
  {
    hide CivilFromDay;
    var s := SECONDS_PER_DAY * day + 3600 * h + 60 * m;
    assert s % SECONDS_PER_DAY == 3600 * h + 60 * m;
  }

  method NextWallOccurrence(hour: int, minute: int, z: Zone, now: int) returns (r: Result<int, ScheduleError>)
    requires ValidZone(z) && 0 <= 3600 * hour + 60 * minute < SECONDS_PER_DAY
    requires InRange(now / 1000 - 4 * SECONDS_PER_DAY) && InRange(now / 1000 + 4 * SECONDS_PER_DAY)
    ensures r == Success(1000 * NextOccurrence(z, now / 1000, 3600 * hour + 60 * minute) + now % 1000)
  {
    hide InRange;
    hide DateUTC;
    hide Resolve;
    hide WallMidnight;
    hide NextWallDate;
    hide GetWallClockParts;
    NaiveTimes(z, now, hour, minute);
    var wall := GetWallClockParts(now, z);
    var candidate := WallClockToUtc(wall.year, wall.month, wall.day, hour, minute, z, now);
    if candidate <= now {
      var nextDay := NextWallDate(z, now);
      candidate := WallClockToUtc(nextDay.year, nextDay.month, nextDay.day, hour, minute, z, now);
    }
    return Success(candidate);
  }
}

/**
 The shield around the firewall: an attack restricts the firewall to the players on the server,
 a timer opens it again. The handler runs on the monitoring loop, so activations never overlap
 one another, but the timer runs beside it and every firewall call is a step of its own.
 */
module Shield {
  import opened Wrappers
  import opened Firewall

  datatype Stage = Listing | Adding | DroppingIngress | DroppingEgress

  /**
   A replacement under way: it started from, and then lists, the rules `before`; the client
   numbers the new ones from `first` on.
   */
  datatype Job = Job(added: seq<Rule>, before: RuleSet, first: nat, stage: Stage) {
    function News(): RuleSet {
      Numbered(added, first)
    }
  }

  datatype Attack = Idle | Asking | Restricting(ips: seq<string>, job: Job) | Telling | Arming

  datatype Timer = Waiting | Opening(job: Job) | Farewell

  datatype State = State(enabled: bool, attack: Attack, timers: seq<Timer>, rules: RuleSet, nextId: nat)

  datatype Event =
    | AttackDetected
    | PlayersFetched(reply: Option<seq<string>>)
    | RestrictCall(fails: bool)
    | Told(ok: bool)
    | TimerStarted
    | TimerFired(timer: nat)
    | OpenCall(timer: nat, fails: bool)
    | SaidFarewell(timer: nat, ok: bool)

  datatype Called = Failed | Continues(job: Job) | Finished

  datatype CallResult = CallResult(rules: RuleSet, nextId: nat, called: Called)

  function NewJob(added: seq<Rule>, s: State): Job {
    Job(added, s.rules, s.nextId, Listing)
  }

  /** One call of a replacement; an addition or removal of nothing is not made and cannot fail. */
  function Call(job: Job, rules: RuleSet, nextId: nat, fails: bool): CallResult {
    match job.stage
    case Listing =>
      CallResult(rules, nextId, if fails then Failed else Continues(job.(before := rules, stage := Adding)))
    case Adding =>
      if fails && job.added != [] then CallResult(rules, nextId, Failed)
      else
        CallResult(rules + Numbered(job.added, nextId), nextId + |job.added|,
                   Continues(job.(first := nextId, stage := DroppingIngress)))
    case DroppingIngress =>
      if fails && IdsOf(job.before, Ingress) != {} then CallResult(rules, nextId, Failed)
      else CallResult(rules - IdsOf(job.before, Ingress), nextId, Continues(job.(stage := DroppingEgress)))
    case DroppingEgress =>
      if fails && IdsOf(job.before, Egress) != {} then CallResult(rules, nextId, Failed)
      else CallResult(rules - IdsOf(job.before, Egress), nextId, Finished)
  }

  function Without(timers: seq<Timer>, k: nat): seq<Timer>
    requires k < |timers|
  {
    timers[..k] + timers[k + 1..]
  }

  /** An event that does not apply changes nothing. */
  function Next(s: State, e: Event): State {
    match e
    case AttackDetected =>
      if s.attack.Idle? && !s.enabled then s.(attack := Asking) else s
    case PlayersFetched(reply) =>
      if !s.attack.Asking? then s
      else if reply.None? || reply.value == [] then s.(attack := Idle)
      else s.(attack := Restricting(reply.value, NewJob(RestrictedRules(reply.value), s)))
    case RestrictCall(fails) =>
      if !s.attack.Restricting? then s
      else
        var r := Call(s.attack.job, s.rules, s.nextId, fails);
        s.(rules := r.rules, nextId := r.nextId,
        attack := match r.called
        case Failed => Idle
        case Continues(job) => Restricting(s.attack.ips, job)
        case Finished => Telling)
    case Told(ok) =>
      if !s.attack.Telling? then s
      else if ok then s.(enabled := true, attack := Arming) else s.(attack := Idle)
    case TimerStarted =>
      if s.attack.Arming? then s.(attack := Idle, timers := s.timers + [Waiting]) else s
    case TimerFired(k) =>
      if k < |s.timers| && s.timers[k].Waiting?
      then s.(timers := s.timers[k := Opening(NewJob(OPEN_RULES, s))])
      else s
    case OpenCall(k, fails) =>
      if !(k < |s.timers| && s.timers[k].Opening?) then s
      else
        var r := Call(s.timers[k].job, s.rules, s.nextId, fails);
        s.(rules := r.rules, nextId := r.nextId,
        timers := match r.called
        case Failed => Without(s.timers, k)
        case Continues(job) => s.timers[k := Opening(job)]
        case Finished => s.timers[k := Farewell])
    case SaidFarewell(k, ok) =>
      if !(k < |s.timers| && s.timers[k].Farewell?) then s
      else if ok then s.(enabled := false, timers := Without(s.timers, k))
      else s.(timers := Without(s.timers, k))
  }

  function Run(s: State, events: seq<Event>): State
    decreases |events|
  {
    if events == [] then s else Run(Next(s, events[0]), events[1..])
  }

  ghost predicate Initial(s: State) {
    && !s.enabled && s.attack == Idle && s.timers == []
    && forall id | id in s.rules :: id < s.nextId
  }

  // ---------------------------------------------------------------- no two replacements

  /** The rules are where the job left them. */
  ghost predicate OnCourse(job: Job, rules: RuleSet, nextId: nat) {
    && (forall id | id in job.before :: id < job.first)
    && (job.stage.Listing? || job.stage.Adding? ==> rules == job.before && nextId == job.first)
    && (job.stage.DroppingIngress? ==> rules == job.before + job.News())
    && (job.stage.DroppingEgress? ==> rules == job.before + job.News() - IdsOf(job.before, Ingress))
  }

  ghost predicate Inv(s: State) {
    && (forall id | id in s.rules :: id < s.nextId)
    && |s.timers| <= 1
    && (s.timers != [] ==> s.enabled && s.attack == Idle)
    && (s.enabled ==> s.attack.Idle? || s.attack.Arming?)
    && (s.attack.Arming? ==> s.enabled)
    && (s.attack.Restricting? ==>
          && s.attack.ips != [] && s.attack.job.added == RestrictedRules(s.attack.ips)
          && OnCourse(s.attack.job, s.rules, s.nextId))
    && (s.timers != [] && s.timers[0].Opening? ==>
          s.timers[0].job.added == OPEN_RULES && OnCourse(s.timers[0].job, s.rules, s.nextId))
  }

  lemma CallStaysOnCourse(job: Job, rules: RuleSet, nextId: nat, fails: bool)
    requires OnCourse(job, rules, nextId) && forall id | id in rules :: id < nextId
    ensures var r := Call(job, rules, nextId, fails);
            && (forall id | id in r.rules :: id < r.nextId)
            && (r.called.Continues? ==>
                  OnCourse(r.called.job, r.rules, r.nextId) && r.called.job == job.(stage := r.called.job.stage))
            && (r.called.Finished? ==> r.rules == job.News())
            && SafeBetween(job.before, job.News(), r.rules)
  {
    NewIdsAreFresh(job.before, job.added, job.first);
    hide SafeBetween;
    EveryStateSafe(job.before, job.News());
  }

  /** At most one timer, no activation beside it, and every replacement finds the rules as it left them. */
  lemma NextKeeps(s: State, e: Event)
    requires Inv(s)
    ensures Inv(Next(s, e))
  {
    hide OnCourse;
    hide Call;
    hide OPEN_RULES;
    hide RestrictedRules;
    match e
    case RestrictCall(fails) =>
      if s.attack.Restricting? {
        CallStaysOnCourse(s.attack.job, s.rules, s.nextId, fails);
      }
    case OpenCall(k, fails) =>
      if k < |s.timers| && s.timers[k].Opening? {
        CallStaysOnCourse(s.timers[k].job, s.rules, s.nextId, fails);
      }
    case PlayersFetched(reply) =>
      if s.attack.Asking? && reply.Some? {
        NewJobOnCourse(RestrictedRules(reply.value), s);
      }
    case TimerFired(k) => NewJobOnCourse(OPEN_RULES, s);
    case _ =>
  }

  lemma NewJobOnCourse(added: seq<Rule>, s: State)
    requires forall id | id in s.rules :: id < s.nextId
    ensures OnCourse(NewJob(added, s), s.rules, s.nextId)
  {
  }

  lemma {:induction false} RunKeeps(s: State, events: seq<Event>)
    requires Inv(s)
    ensures Inv(Run(s, events))
    decreases |events|
  {
    if events != [] {
      NextKeeps(s, events[0]);
      RunKeeps(Next(s, events[0]), events[1..]);
    }
  }

  /** The replacements that are under way. */
  function Jobs(s: State): seq<Job> {
    (if s.attack.Restricting? then [s.attack.job] else []) + TimerJobs(s.timers)
  }

  function TimerJobs(timers: seq<Timer>): seq<Job> {
    if timers == [] then []
    else (if timers[0].Opening? then [timers[0].job] else []) + TimerJobs(timers[1..])
  }

  /**
   Whatever the interleaving, the rules only change by a call of the one replacement under way,
   and then stay safe between the rules it found and the rules it brings.
   */
  lemma EveryStepIsSafe(start: State, events: seq<Event>, e: Event)
    requires Initial(start)
    ensures var s := Run(start, events);
            && |Jobs(s)| <= 1
            && (Jobs(s) == [] ==> Next(s, e).rules == s.rules)
            && (Jobs(s) != [] ==>
                  SafeBetween(Jobs(s)[0].before, Jobs(s)[0].News(), Next(s, e).rules))
  {
    hide SafeBetween;
    RunKeeps(start, events);
    var s := Run(start, events);
    StepIsSafe(s, e);
  }

  lemma CallSteps(s: State, k: nat, fails: bool)
    ensures Next(s, RestrictCall(fails)).rules ==
            if s.attack.Restricting? then Call(s.attack.job, s.rules, s.nextId, fails).rules else s.rules
    ensures Next(s, OpenCall(k, fails)).rules ==
            if k < |s.timers| && s.timers[k].Opening? then Call(s.timers[k].job, s.rules, s.nextId, fails).rules
            else s.rules
  {
    hide Call;
  }

  lemma OtherSteps(s: State, e: Event)
    requires !e.RestrictCall? && !e.OpenCall?
    ensures Next(s, e).rules == s.rules
  {
  }

  /** Only a call of the job changes the rules. */
  lemma RulesChangeByCall(s: State, e: Event)
    requires Inv(s)
    ensures Next(s, e).rules == s.rules
            || (Jobs(s) != [] && (Next(s, e).rules == Call(Jobs(s)[0], s.rules, s.nextId, false).rules
                                  || Next(s, e).rules == Call(Jobs(s)[0], s.rules, s.nextId, true).rules))
  {
    TheOneJob(s);
    hide Jobs;
    hide Call;
    hide Next;
    match e
    case RestrictCall(fails) => CallSteps(s, 0, fails);
    case OpenCall(k, fails) => CallSteps(s, k, fails);
    case _ => OtherSteps(s, e);
  }

  lemma StepIsSafe(s: State, e: Event)
    requires Inv(s)
    ensures |Jobs(s)| <= 1
    ensures Jobs(s) == [] ==> Next(s, e).rules == s.rules
    ensures Jobs(s) != [] ==> SafeBetween(Jobs(s)[0].before, Jobs(s)[0].News(), Next(s, e).rules)
  {
    TheOneJob(s);
    RulesChangeByCall(s, e);
    hide SafeBetween;
    hide OnCourse;
    hide Call;
    hide Next;
    if Jobs(s) != [] {
      var job := Jobs(s)[0];
      hide Jobs;
      CallStaysOnCourse(job, s.rules, s.nextId, false);
      CallStaysOnCourse(job, s.rules, s.nextId, true);
      OnCourseIsSafe(job, s.rules, s.nextId);
    }
  }

  lemma TheOneJob(s: State)
    requires Inv(s)
    ensures Jobs(s) == if s.attack.Restricting? then [s.attack.job]
                       else if s.timers != [] && s.timers[0].Opening? then [s.timers[0].job]
                       else []
  {
    if s.timers != [] {
      assert s.timers[1..] == [] && TimerJobs([]) == [];
      assert TimerJobs(s.timers) == if s.timers[0].Opening? then [s.timers[0].job] else [];
    }
  }

  lemma OnCourseIsSafe(job: Job, rules: RuleSet, nextId: nat)
    requires OnCourse(job, rules, nextId)
    ensures SafeBetween(job.before, job.News(), rules)
  {
    NewIdsAreFresh(job.before, job.added, job.first);
    hide SafeBetween;
    EveryStateSafe(job.before, job.News());
  }

  // ---------------------------------------------------------------- what a failure leaves behind

  /** The shield counts as up, but nothing is left that could take it down. */
  predicate Stuck(s: State) {
    s.enabled && s.attack == Idle && s.timers == []
  }

  /** The timer's goroutine gives up: a firewall call or the farewell fails. */
  predicate DisableFails(s: State, e: Event) {
    match e
    case OpenCall(k, fails) =>
      k < |s.timers| && s.timers[k].Opening? && Call(s.timers[k].job, s.rules, s.nextId, fails).called.Failed?
    case SaidFarewell(k, ok) => k < |s.timers| && s.timers[k].Farewell? && !ok
    case _ => false
  }

  function CountFailures(s: State, events: seq<Event>): nat
    decreases |events|
  {
    if events == [] then 0
    else (if DisableFails(s, events[0]) then 1 else 0) + CountFailures(Next(s, events[0]), events[1..])
  }

  /** A shield that could not be taken down is never taken down and ignores every later attack. */
  lemma {:induction false} StuckForever(s: State, events: seq<Event>)
    requires Stuck(s)
    ensures Run(s, events) == s
    decreases |events|
  {
    if events != [] {
      assert Next(s, events[0]) == s;
      StuckForever(s, events[1..]);
    }
  }

  /** It gets stuck exactly when taking it down failed at some point of the run. */
  lemma {:induction false} StuckIff(s: State, events: seq<Event>)
    requires Inv(s) && !Stuck(s)
    ensures Stuck(Run(s, events)) <==> CountFailures(s, events) > 0
    ensures CountFailures(s, events) <= 1
    decreases |events|
  {
    if events != [] {
      var s' := Next(s, events[0]);
      NextKeeps(s, events[0]);
      StuckStep(s, events[0]);
      if Stuck(s') {
        StuckForever(s', events[1..]);
        NoFailuresOnceStuck(s', events[1..]);
      } else {
        StuckIff(s', events[1..]);
      }
    }
  }

  lemma StuckStep(s: State, e: Event)
    requires Inv(s) && !Stuck(s)
    ensures Stuck(Next(s, e)) <==> DisableFails(s, e)
  {
    hide OnCourse;
    hide Call;
  }

  lemma {:induction false} NoFailuresOnceStuck(s: State, events: seq<Event>)
    requires Stuck(s)
    ensures CountFailures(s, events) == 0
    decreases |events|
  {
    if events != [] {
      assert Next(s, events[0]) == s;
      NoFailuresOnceStuck(s, events[1..]);
    }
  }

  // ---------------------------------------------------------------- up is restricted, down is open

  ghost predicate IsOpen(rules: RuleSet) {
    exists first: nat :: rules == Numbered(OPEN_RULES, first)
  }

  ghost predicate IsRestricted(rules: RuleSet) {
    exists ips: seq<string>, first: nat :: ips != [] && rules == Numbered(RestrictedRules(ips), first)
  }

  /** From a restriction that went through until the timer fires: the players alone. Once the timer has opened: all. */
  ghost predicate RulesOfTimer(s: State) {
    && (s.attack.Telling? || s.attack.Arming? || s.timers == [Waiting] ==> IsRestricted(s.rules))
    && (s.timers == [Farewell] ==> IsOpen(s.rules))
  }

  lemma RulesOfTimerKept(s: State, e: Event)
    requires Inv(s) && RulesOfTimer(s)
    ensures RulesOfTimer(Next(s, e))
  {
    hide IsOpen;
    hide IsRestricted;
    hide OnCourse;
    hide Call;
    hide OPEN_RULES;
    hide RestrictedRules;
    match e
    case RestrictCall(fails) =>
      if s.attack.Restricting? {
        CallStaysOnCourse(s.attack.job, s.rules, s.nextId, fails);
        RestrictedIsRestricted(s.attack.ips, s.attack.job.first);
      }
    case OpenCall(k, fails) =>
      if k < |s.timers| && s.timers[k].Opening? {
        OpenCallKept(s, k, fails);
      }
    case TimerStarted =>
      assert [] + [Waiting] == [Waiting];
    case SaidFarewell(k, ok) =>
      if k < |s.timers| && s.timers[k].Farewell? {
        assert |Next(s, e).timers| == 0;
      }
    case TimerFired(k) =>
      if k < |s.timers| && s.timers[k].Waiting? {
        assert Next(s, e).timers[0].Opening?;
      }
    case _ =>
  }

  lemma OpenCallKept(s: State, k: nat, fails: bool)
    requires Inv(s) && k < |s.timers| && s.timers[k].Opening?
    ensures RulesOfTimer(Next(s, OpenCall(k, fails)))
  {
    hide IsOpen;
    hide IsRestricted;
    hide OnCourse;
    hide Call;
    hide OPEN_RULES;
    var job := s.timers[k].job;
    var r := Call(job, s.rules, s.nextId, fails);
    var s' := Next(s, OpenCall(k, fails));
    CallStaysOnCourse(job, s.rules, s.nextId, fails);
    OpenIsOpen(job.first);
    assert k == 0 && s'.attack == Idle;
    match r.called
    case Failed => assert |s'.timers| == 0;
    case Continues(next) => assert s'.timers[0] == Opening(next);
    case Finished => assert s'.timers[0] == Farewell && s'.rules == job.News();
  }

  lemma RestrictedIsRestricted(ips: seq<string>, first: nat)
    requires ips != []
    ensures IsRestricted(Numbered(RestrictedRules(ips), first))
  {
  }

  lemma OpenIsOpen(first: nat)
    ensures IsOpen(Numbered(OPEN_RULES, first))
  {
  }

  lemma {:induction false} RulesOfTimerOverRun(s: State, events: seq<Event>)
    requires Inv(s) && RulesOfTimer(s)
    ensures RulesOfTimer(Run(s, events))
    decreases |events|
  {
    if events != [] {
      NextKeeps(s, events[0]);
      RulesOfTimerKept(s, events[0]);
      hide *;
      RulesOfTimerOverRun(Next(s, events[0]), events[1..]);
      RunUnfolds(s, events);
    }
  }

  lemma RunUnfolds(s: State, events: seq<Event>)
    requires events != []
    ensures Run(s, events) == Run(Next(s, events[0]), events[1..])
  {
  }

  /**
   Whatever fails in the run, a timer that waits finds one rule for each player,
   and one that has opened, the open ones.
   */
  lemma WaitingMeansRestricted(start: State, events: seq<Event>)
    requires Initial(start)
    ensures Run(start, events).timers == [Waiting] ==> IsRestricted(Run(start, events).rules)
    ensures Run(start, events).timers == [Farewell] ==> IsOpen(Run(start, events).rules)
  {
    RulesOfTimerOverRun(start, events);
  }

  /** The shield is down, nothing is under way, and the rules are not exactly the four open ones. */
  ghost predicate Strands(s: State) {
    !s.enabled && s.attack.Idle? && !IsOpen(s.rules)
  }

  /**
   An activation gives up too late: the removal of the old ingress or egress rules fails, or
   the restriction is complete and the message about it is lost.
   */
  predicate GivesUpLate(s: State, e: Event) {
    match e
    case RestrictCall(fails) =>
      && s.attack.Restricting?
      && (s.attack.job.stage.DroppingIngress? || s.attack.job.stage.DroppingEgress?)
      && Call(s.attack.job, s.rules, s.nextId, fails).called.Failed?
    case Told(ok) => s.attack.Telling? && !ok
    case _ => false
  }

  ghost predicate SomeStepGivesUpLate(s: State, events: seq<Event>)
    decreases |events|
  {
    events != [] && (GivesUpLate(s, events[0]) || SomeStepGivesUpLate(Next(s, events[0]), events[1..]))
  }

  /** Before and after every step of the run, down and idle means open. */
  ghost predicate NeverStrands(s: State, events: seq<Event>)
    decreases |events|
  {
    !Strands(s) && (events != [] ==> NeverStrands(Next(s, events[0]), events[1..]))
  }

  /** Down means open, also for the rules an activation found. */
  ghost predicate OpenWhileDown(s: State) {
    && Inv(s) && RulesOfTimer(s)
    && (!s.enabled && (s.attack.Idle? || s.attack.Asking?) ==> IsOpen(s.rules))
    && (s.attack.Restricting? ==> IsOpen(s.attack.job.before))
  }

  /** A rule for a player is no open rule: it is for every protocol. */
  lemma PlayersRuleIsNotOpen(rules: RuleSet, id: nat)
    requires id in rules && rules[id].protocol == "all"
    ensures !IsOpen(rules)
  {
    forall first: nat
      ensures rules != Numbered(OPEN_RULES, first)
    {
      if id in Numbered(OPEN_RULES, first) {
        assert Numbered(OPEN_RULES, first)[id] == OPEN_RULES[id - first];
      }
    }
  }

  /** Once the players' rules are in, they stay in until the end. */
  lemma LateMeansNotOpen(s: State)
    requires Inv(s) && RulesOfTimer(s)
    requires s.attack.Restricting? ==> s.attack.job.stage.DroppingIngress? || s.attack.job.stage.DroppingEgress?
    requires s.attack.Restricting? || s.attack.Telling?
    ensures !IsOpen(s.rules)
  {
    if s.attack.Restricting? {
      var job := s.attack.job;
      NewIdsAreFresh(job.before, job.added, job.first);
      assert job.first in job.News() && job.News()[job.first] == RestrictedRules(s.attack.ips)[0];
      assert job.first !in job.before;
      PlayersRuleIsNotOpen(s.rules, job.first);
    } else {
      var ips: seq<string>, first: nat :| ips != [] && s.rules == Numbered(RestrictedRules(ips), first);
      assert first in s.rules && s.rules[first] == RestrictedRules(ips)[0];
      PlayersRuleIsNotOpen(s.rules, first);
    }
  }

  /** A call that fails before the players' rules are in leaves the rules as they were found. */
  lemma EarlyFailureIsHarmless(job: Job, rules: RuleSet, nextId: nat, fails: bool)
    requires OnCourse(job, rules, nextId) && (job.stage.Listing? || job.stage.Adding?)
    ensures Call(job, rules, nextId, fails).called.Failed? ==> Call(job, rules, nextId, fails).rules == job.before
    ensures Call(job, rules, nextId, fails).called.Continues? ==>
              Call(job, rules, nextId, fails).called.job.before == job.before
  {
  }

  /** A step keeps down open, unless an activation gives up late, and then the very next state is stranded. */
  lemma OpenWhileDownStep(s: State, e: Event)
    requires OpenWhileDown(s)
    ensures !GivesUpLate(s, e) ==> OpenWhileDown(Next(s, e))
    ensures GivesUpLate(s, e) ==> Strands(Next(s, e))
  {
    NextKeeps(s, e);
    RulesOfTimerKept(s, e);
    match e
    case RestrictCall(fails) =>
      if s.attack.Restricting? {
        RestrictStep(s, fails);
      }
    case Told(ok) =>
      if s.attack.Telling? {
        LateMeansNotOpen(s);
      }
    case _ =>
      hide IsOpen;
      hide IsRestricted;
      hide OnCourse;
      hide Call;
  }

  lemma RestrictStep(s: State, fails: bool)
    requires OpenWhileDown(s) && s.attack.Restricting?
    ensures var s' := Next(s, RestrictCall(fails));
            if GivesUpLate(s, RestrictCall(fails)) then Strands(s')
            else
              && (s'.attack.Idle? ==> IsOpen(s'.rules))
              && (s'.attack.Restricting? ==> IsOpen(s'.attack.job.before))
  {
    var job := s.attack.job;
    hide IsOpen;
    hide RulesOfTimer;
    if job.stage.Listing? || job.stage.Adding? {
      EarlyFailureIsHarmless(job, s.rules, s.nextId, fails);
    } else {
      LateMeansNotOpen(s);
    }
    hide OnCourse;
  }

  lemma {:induction false} NeverStrandsIff(s: State, events: seq<Event>)
    requires OpenWhileDown(s)
    ensures NeverStrands(s, events) <==> !SomeStepGivesUpLate(s, events)
    decreases |events|
  {
    hide Inv;
    hide RulesOfTimer;
    hide IsOpen;
    hide GivesUpLate;
    hide Next;
    if events != [] {
      var s' := Next(s, events[0]);
      OpenWhileDownStep(s, events[0]);
      if GivesUpLate(s, events[0]) {
        assert Strands(s') && !NeverStrands(s', events[1..]);
      } else {
        NeverStrandsIff(s', events[1..]);
      }
    }
  }

  /**
   From an open firewall, over every run: whenever the shield is down and idle the rules are
   the four open ones and no others, exactly when no activation of the run gives up late.
   Failures to list, to add or to take the shield down do no harm to this.
   */
  lemma DownMeansOpen(start: State, events: seq<Event>)
    requires Initial(start) && IsOpen(start.rules)
    ensures NeverStrands(start, events) <==> !SomeStepGivesUpLate(start, events)
  {
    NeverStrandsIff(start, events);
  }

  // ---------------------------------------------------------------- down lets everyone in

  /** The open rules for incoming traffic are all there, perhaps among others. */
  ghost predicate StillOpen(rules: RuleSet) {
    forall r | r in OPEN_RULES && r.direction == Ingress :: r in rules.Values
  }

  /** The shield is down, nothing is under way, and an open rule is missing. */
  ghost predicate LocksOut(s: State) {
    !s.enabled && s.attack.Idle? && !StillOpen(s.rules)
  }

  /**
   An activation gives up after the open rules are out: the removal of the old egress rules
   fails, or the message that ends it is lost.
   */
  predicate GivesUpRestricted(s: State, e: Event) {
    match e
    case RestrictCall(fails) =>
      && s.attack.Restricting? && s.attack.job.stage.DroppingEgress?
      && Call(s.attack.job, s.rules, s.nextId, fails).called.Failed?
    case Told(ok) => s.attack.Telling? && !ok
    case _ => false
  }

  ghost predicate SomeStepGivesUpRestricted(s: State, events: seq<Event>)
    decreases |events|
  {
    events != [] && (GivesUpRestricted(s, events[0]) || SomeStepGivesUpRestricted(Next(s, events[0]), events[1..]))
  }

  /** Before and after every step of the run, down and idle means that the open rules are there. */
  ghost predicate NeverLocksOut(s: State, events: seq<Event>)
    decreases |events|
  {
    !LocksOut(s) && (events != [] ==> NeverLocksOut(Next(s, events[0]), events[1..]))
  }

  ghost predicate StillOpenWhileDown(s: State) {
    && Inv(s) && RulesOfTimer(s)
    && (!s.enabled && (s.attack.Idle? || s.attack.Asking?) ==> StillOpen(s.rules))
    && (s.attack.Restricting? ==> StillOpen(s.attack.job.before))
  }

  /** Incoming traffic is ruled by the players' rules alone. */
  ghost predicate PlayersAlone(ips: seq<string>, rules: RuleSet) {
    && ips != []
    && (forall id | id in rules && rules[id].direction == Ingress :: rules[id] in RestrictedRules(ips))
    && (forall r | r in RestrictedRules(ips) :: r in rules.Values)
  }

  lemma OpenIsStillOpen(rules: RuleSet)
    requires IsOpen(rules)
    ensures StillOpen(rules)
  {
    var first: nat :| rules == Numbered(OPEN_RULES, first);
    forall r | r in OPEN_RULES && r.direction == Ingress
      ensures r in rules.Values
    {
      var k :| 0 <= k < |OPEN_RULES| && OPEN_RULES[k] == r;
      assert first + k in rules && rules[first + k] == r;
    }
  }

  lemma MoreIsStillOpen(less: RuleSet, more: RuleSet)
    requires StillOpen(less) && forall id | id in less :: id in more && more[id] == less[id]
    ensures StillOpen(more)
  {
    forall r | r in OPEN_RULES && r.direction == Ingress
      ensures r in more.Values
    {
      assert r in less.Values;
      var id :| id in less && less[id] == r;
      assert id in more;
    }
  }

  lemma PlayersAloneIsNotOpen(ips: seq<string>, rules: RuleSet)
    requires PlayersAlone(ips, rules)
    ensures !StillOpen(rules)
  {
    var tcp := OPEN_RULES[0];
    assert tcp in OPEN_RULES && tcp.direction == Ingress && tcp.protocol == "6";
    assert tcp !in RestrictedRules(ips);
    assert forall id | id in rules :: rules[id] != tcp;
  }

  /** The players' rules let in all that the open ones do only if a player's block is everyone's. */
  lemma PlayersAloneAdmitAllIff(ips: seq<string>, rules: RuleSet, first: nat)
    requires PlayersAlone(ips, rules)
    ensures (forall covers :: AdmitsAllOf(covers, Numbered(OPEN_RULES, first), rules)) <==>
            exists i: nat :: i < |ips| && Cidr(ips[i]) == "0.0.0.0/0"
  {
    var open := Numbered(OPEN_RULES, first);
    if i: nat :| i < |ips| && Cidr(ips[i]) == "0.0.0.0/0" {
      var rule := RestrictedRules(ips)[i];
      assert rule in RestrictedRules(ips) && rule in rules.Values;
      var id :| id in rules && rules[id] == rule;
      forall covers: Covers, p | Admitted(covers, open, p)
        ensures Admitted(covers, rules, p)
      {
        OpenAdmits(covers, first, p);
        assert Admits(covers, rules[id], p);
      }
    } else {
      var covers: Covers := (address, source) => address == "0.0.0.0/0";
      var p := Packet(0, "17", 0);
      OpenAdmits(covers, first, p);
      assert !Admitted(covers, rules, p) by {
        NoPlayerIsAdmitted(ips, rules, covers, p);
      }
      assert !AdmitsAllOf(covers, open, rules);
    }
  }

  lemma NoPlayerIsAdmitted(ips: seq<string>, rules: RuleSet, covers: Covers, p: Packet)
    requires PlayersAlone(ips, rules) && forall i: nat | i < |ips| :: !covers(Cidr(ips[i]), p.source)
    ensures !Admitted(covers, rules, p)
  {
    forall id | id in rules
      ensures !Admits(covers, rules[id], p)
    {
      if rules[id].direction == Ingress {
        var i :| 0 <= i < |ips| && RestrictedRules(ips)[i] == rules[id];
      }
    }
  }

  /** Open rules that are still there let in all that the open ones do. */
  lemma StillOpenAdmitsAll(rules: RuleSet, first: nat)
    requires StillOpen(rules)
    ensures forall covers :: AdmitsAllOf(covers, Numbered(OPEN_RULES, first), rules)
  {
    var open := Numbered(OPEN_RULES, first);
    forall covers: Covers, p | Admitted(covers, open, p)
      ensures Admitted(covers, rules, p)
    {
      var id :| id in open && Admits(covers, open[id], p);
      assert Admits(covers, open[id], p);
      assert open[id] == OPEN_RULES[id - first];
      var same :| same in rules && rules[same] == open[id];
      assert Admits(covers, rules[same], p);
    }
  }

  /** Once the old ingress rules are out, the players' rules are alone. */
  lemma RestrictedMeansPlayersAlone(s: State) returns (ips: seq<string>)
    requires Inv(s) && RulesOfTimer(s)
    requires s.attack.Telling? || (s.attack.Restricting? && s.attack.job.stage.DroppingEgress?)
    ensures PlayersAlone(ips, s.rules)
  {
    if s.attack.Telling? {
      var players: seq<string>, first: nat :| players != [] && s.rules == Numbered(RestrictedRules(players), first);
      ips := players;
      EachIsNumbered(RestrictedRules(ips), first, s.rules);
    } else {
      ips := s.attack.ips;
      DroppingEgressPlayersAlone(s);
    }
  }

  lemma DroppingEgressPlayersAlone(s: State)
    requires Inv(s) && s.attack.Restricting? && s.attack.job.stage.DroppingEgress?
    ensures PlayersAlone(s.attack.ips, s.rules)
  {
    var job := s.attack.job;
    NewIdsAreFresh(job.before, job.added, job.first);
    EachIsNumbered(job.added, job.first, s.rules);
  }

  lemma EachIsNumbered(added: seq<Rule>, first: nat, rules: RuleSet)
    requires forall id | id in Numbered(added, first) :: id in rules && rules[id] == Numbered(added, first)[id]
    ensures forall r | r in added :: r in rules.Values
  {
    forall r | r in added
      ensures r in rules.Values
    {
      var k :| 0 <= k < |added| && added[k] == r;
      assert first + k in Numbered(added, first) && rules[first + k] == r;
    }
  }

  lemma StillOpenStep(s: State, e: Event)
    requires StillOpenWhileDown(s)
    ensures !GivesUpRestricted(s, e) ==> StillOpenWhileDown(Next(s, e))
    ensures GivesUpRestricted(s, e) ==> LocksOut(Next(s, e))
  {
    NextKeeps(s, e);
    RulesOfTimerKept(s, e);
    hide StillOpen;
    match e
    case RestrictCall(fails) =>
      if s.attack.Restricting? {
        StillOpenCall(s, fails);
      }
    case Told(ok) =>
      if s.attack.Telling? {
        var ips := RestrictedMeansPlayersAlone(s);
        PlayersAloneIsNotOpen(ips, s.rules);
      }
    case SaidFarewell(k, ok) =>
      if s.timers == [Farewell] {
        OpenIsStillOpen(s.rules);
      }
    case _ =>
      hide IsOpen;
      hide IsRestricted;
      hide OnCourse;
      hide Call;
  }

  lemma StillOpenCall(s: State, fails: bool)
    requires StillOpenWhileDown(s) && s.attack.Restricting?
    ensures var s' := Next(s, RestrictCall(fails));
            if GivesUpRestricted(s, RestrictCall(fails)) then LocksOut(s')
            else
              && (s'.attack.Idle? ==> StillOpen(s'.rules))
              && (s'.attack.Restricting? ==> StillOpen(s'.attack.job.before))
  {
    var job := s.attack.job;
    hide StillOpen;
    hide RulesOfTimer;
    if job.stage.Listing? || job.stage.Adding? {
      EarlyFailureIsHarmless(job, s.rules, s.nextId, fails);
    } else if job.stage.DroppingIngress? {
      NewIdsAreFresh(job.before, job.added, job.first);
      MoreIsStillOpen(job.before, s.rules);
    } else {
      var ips := RestrictedMeansPlayersAlone(s);
      PlayersAloneIsNotOpen(ips, s.rules);
    }
    hide OnCourse;
  }

  lemma {:induction false} NeverLocksOutIff(s: State, events: seq<Event>)
    requires StillOpenWhileDown(s)
    ensures NeverLocksOut(s, events) <==> !SomeStepGivesUpRestricted(s, events)
    decreases |events|
  {
    hide Inv;
    hide RulesOfTimer;
    hide StillOpen;
    hide GivesUpRestricted;
    hide Next;
    if events != [] {
      var s' := Next(s, events[0]);
      StillOpenStep(s, events[0]);
      if GivesUpRestricted(s, events[0]) {
        assert LocksOut(s') && !NeverLocksOut(s', events[1..]);
      } else {
        NeverLocksOutIff(s', events[1..]);
      }
    }
  }

  /**
   From a firewall with the open rules, over every run: whenever the shield is down and idle
   they are still there, exactly when no activation gives up after they are out. A
   failure to remove the old ingress rules is not among these: it leaves both sets.
   */
  lemma DownMeansStillOpen(start: State, events: seq<Event>)
    requires Initial(start) && StillOpen(start.rules)
    ensures NeverLocksOut(start, events) <==> !SomeStepGivesUpRestricted(start, events)
  {
    NeverLocksOutIff(start, events);
  }

  /** And what giving up then leaves admits all that the open rules do only if a player's block is everyone's. */
  lemma GivingUpRestrictedLeaves(start: State, events: seq<Event>, e: Event, first: nat) returns (ips: seq<string>)
    requires Initial(start) && GivesUpRestricted(Run(start, events), e)
    ensures PlayersAlone(ips, Next(Run(start, events), e).rules)
    ensures (forall covers ::
               AdmitsAllOf(covers, Numbered(OPEN_RULES, first), Next(Run(start, events), e).rules)) <==>
            exists i: nat :: i < |ips| && Cidr(ips[i]) == "0.0.0.0/0"
  {
    var s := Run(start, events);
    RunKeeps(start, events);
    RulesOfTimerOverRun(start, events);
    ips := RestrictedMeansPlayersAlone(s);
    assert Next(s, e).rules == s.rules;
    hide *;
    PlayersAloneAdmitAllIff(ips, s.rules, first);
  }

  // ---------------------------------------------------------------- a run of each kind

  lemma RunOfNothing(s: State, events: seq<Event>)
    requires events == []
    ensures Run(s, events) == s
  {
  }

  /** The state in which the rules of an open firewall have been added to, for one player. */
  lemma AddedForOne(start: State, ip: string) returns (s: State)
    requires Initial(start) && IsOpen(start.rules)
    ensures s == Run(start, [AttackDetected, PlayersFetched(Some([ip])), RestrictCall(false), RestrictCall(false)])
    ensures Inv(s) && RulesOfTimer(s) && !s.enabled && s.timers == []
    ensures s.attack.Restricting? && s.attack.job.stage.DroppingIngress?
    ensures IdsOf(s.attack.job.before, Ingress) != {} && IdsOf(s.attack.job.before, Egress) != {}
    ensures s.attack.job.before == start.rules && s.attack.ips == [ip]
  {
    var e := [AttackDetected, PlayersFetched(Some([ip])), RestrictCall(false), RestrictCall(false)];
    s := Run(start, e);
    RunKeeps(start, e);
    RulesOfTimerOverRun(start, e);
    FourSteps(start, e);
    var first: nat :| start.rules == Numbered(OPEN_RULES, first);
    assert first in start.rules && start.rules[first] == OPEN_RULES[0];
    assert first in IdsOf(start.rules, Ingress);
    assert first + 3 in start.rules && start.rules[first + 3] == OPEN_RULES[3];
    assert first + 3 in IdsOf(start.rules, Egress);
  }

  lemma FourSteps(s: State, e: seq<Event>)
    requires |e| == 4
    ensures Run(s, e) == Next(Next(Next(Next(s, e[0]), e[1]), e[2]), e[3])
  {
    hide Next;
    RunUnfolds(s, e);
    var s1 := Next(s, e[0]);
    RunUnfolds(s1, e[1..]);
    var s2 := Next(s1, e[1]);
    RunUnfolds(s2, e[2..]);
    var s3 := Next(s2, e[2]);
    RunUnfolds(s3, e[3..]);
    RunOfNothing(Next(s3, e[3]), e[4..]);
  }

  /**
   Removing the old ingress rules fails: the shield is down, no timer runs, and the rules are
   not the four open ones but those and the player's. All that was let in still is.
   */
  lemma RemovalFailureStrands(start: State, ip: string)
    requires Initial(start) && IsOpen(start.rules)
    ensures var e := [AttackDetected, PlayersFetched(Some([ip])), RestrictCall(false), RestrictCall(false)];
            var s := Next(Run(start, e), RestrictCall(true));
            && Strands(s) && s.timers == []
            && StillOpen(s.rules) && forall covers :: AdmitsAllOf(covers, start.rules, s.rules)
  {
    var s := AddedForOne(start, ip);
    LateMeansNotOpen(s);
    OpenIsStillOpen(start.rules);
    NewIdsAreFresh(s.attack.job.before, s.attack.job.added, s.attack.job.first);
    MoreIsStillOpen(start.rules, s.rules);
    MoreRulesAdmitMore(start.rules, s.rules);
    hide IsOpen;
    hide StillOpen;
    hide Inv;
    hide RulesOfTimer;
  }

  /** One call later, removing the old egress rules fails: down, no timer, and only the player is let in. */
  lemma EgressFailureLocksOut(start: State, ip: string)
    requires Initial(start) && IsOpen(start.rules)
    ensures var e := [AttackDetected, PlayersFetched(Some([ip])), RestrictCall(false), RestrictCall(false)];
            var s := Next(Next(Run(start, e), RestrictCall(false)), RestrictCall(true));
            LocksOut(s) && s.timers == [] && PlayersAlone([ip], s.rules)
  {
    var s := AddedForOne(start, ip);
    var s1 := Next(s, RestrictCall(false));
    assert s1.attack.Restricting? && s1.attack.job.stage.DroppingEgress? && s1.attack.ips == [ip];
    assert IdsOf(s1.attack.job.before, Egress) != {} && !s1.enabled && s1.timers == [];
    NextKeeps(s, RestrictCall(false));
    hide RulesOfTimer;
    DroppingEgressPlayersAlone(s1);
    PlayersAloneIsNotOpen([ip], s1.rules);
    hide StillOpen;
    hide PlayersAlone;
    hide Inv;
  }

  /** The restriction goes through and the message about it is lost: the same. */
  lemma LostMessageStrands(start: State, ip: string)
    requires Initial(start) && IsOpen(start.rules)
    ensures var e := [AttackDetected, PlayersFetched(Some([ip])), RestrictCall(false), RestrictCall(false)];
            var s := Next(Next(Next(Run(start, e), RestrictCall(false)), RestrictCall(false)), Told(false));
            Strands(s) && LocksOut(s) && s.timers == []
  {
    var s := AddedForOne(start, ip);
    var s1 := Next(s, RestrictCall(false));
    var s2 := Next(s1, RestrictCall(false));
    assert s1.attack.Restricting? && s1.attack.job.stage.DroppingEgress?;
    assert s2.attack.Telling? && s2.timers == [] && !s2.enabled;
    hide Next;
    NextKeeps(s, RestrictCall(false));
    NextKeeps(s1, RestrictCall(false));
    RulesOfTimerKept(s, RestrictCall(false));
    RulesOfTimerKept(s1, RestrictCall(false));
    LateMeansNotOpen(s2);
    var ips := RestrictedMeansPlayersAlone(s2);
    PlayersAloneIsNotOpen(ips, s2.rules);
    MessageLost(s2);
  }

  lemma MessageLost(s: State)
    requires s.attack.Telling? && !IsOpen(s.rules) && !StillOpen(s.rules) && !s.enabled
    ensures Strands(Next(s, Told(false))) && LocksOut(Next(s, Told(false))) && Next(s, Told(false)).timers == s.timers
  {
  }

  /**
   A run in which nothing fails, from an attack to the end of its shield: up and restricted to the
   player while the timer waits, down and open again at the end.
   */
  lemma FullCycle(start: State, ip: string)
    requires Initial(start) && IsOpen(start.rules)
    ensures var e := [AttackDetected, PlayersFetched(Some([ip])), RestrictCall(false), RestrictCall(false)];
            var up := Run(Run(start, e), [RestrictCall(false), RestrictCall(false), Told(true), TimerStarted]);
            var opening := [OpenCall(0, false), OpenCall(0, false), OpenCall(0, false), OpenCall(0, false)];
            var down := Next(Run(Next(up, TimerFired(0)), opening), SaidFarewell(0, true));
            && up.enabled && up.timers == [Waiting] && IsRestricted(up.rules)
            && !down.enabled && down.attack == Idle && down.timers == [] && IsOpen(down.rules)
  {
    var s := AddedForOne(start, ip);
    var raise := [RestrictCall(false), RestrictCall(false), Told(true), TimerStarted];
    var up := Run(s, raise);
    ShieldGoesUp(s);
    RunKeeps(s, raise);
    RulesOfTimerOverRun(s, raise);
    hide RulesOfTimer;
    hide Inv;
    hide IsOpen;
    hide IsRestricted;
    hide Run;
    hide Next;
    ShieldComesDown(up);
  }

  lemma ShieldGoesUp(s: State)
    requires s.attack.Restricting? && s.attack.job.stage.DroppingIngress? && s.timers == []
    requires Inv(s) && RulesOfTimer(s)
    ensures var up := Run(s, [RestrictCall(false), RestrictCall(false), Told(true), TimerStarted]);
            && up.enabled && up.attack == Idle && up.timers == [Waiting]
            && Inv(up) && RulesOfTimer(up) && IsRestricted(up.rules)
  {
    var raise := [RestrictCall(false), RestrictCall(false), Told(true), TimerStarted];
    RunKeeps(s, raise);
    RulesOfTimerOverRun(s, raise);
    FourSteps(s, raise);
    hide RulesOfTimer;
    hide Inv;
    hide IdsOf;
    hide Numbered;
    var s2 := Next(Next(s, raise[0]), raise[1]);
    assert s2.attack.Telling? && s2.timers == [];
    assert [] + [Waiting] == [Waiting];
    var up := Run(s, raise);
    assert up.timers == [Waiting];
    WaitingIsRestricted(up);
  }

  lemma WaitingIsRestricted(s: State)
    requires RulesOfTimer(s) && s.timers == [Waiting]
    ensures IsRestricted(s.rules)
  {
  }

  lemma ShieldComesDown(up: State)
    requires Inv(up) && RulesOfTimer(up) && up.timers == [Waiting] && up.attack == Idle
    ensures var opening := [OpenCall(0, false), OpenCall(0, false), OpenCall(0, false), OpenCall(0, false)];
            var down := Next(Run(Next(up, TimerFired(0)), opening), SaidFarewell(0, true));
            !down.enabled && down.attack == Idle && down.timers == [] && IsOpen(down.rules)
  {
    var opening := [OpenCall(0, false), OpenCall(0, false), OpenCall(0, false), OpenCall(0, false)];
    var fired := Next(up, TimerFired(0));
    NextKeeps(up, TimerFired(0));
    RulesOfTimerKept(up, TimerFired(0));
    RulesOfTimerOverRun(fired, opening);
    FourSteps(fired, opening);
    OpeningGoesOn(fired);
    var one := Next(fired, OpenCall(0, false));
    OpeningGoesOn(one);
    var two := Next(one, OpenCall(0, false));
    OpeningGoesOn(two);
    var three := Next(two, OpenCall(0, false));
    OpeningGoesOn(three);
    var lifted := Next(three, OpenCall(0, false));
    FarewellIsOpen(lifted);
    ShieldFalls(lifted);
    hide *;
  }

  lemma ShieldFalls(s: State)
    requires s.timers == [Farewell] && s.attack == Idle
    ensures var down := Next(s, SaidFarewell(0, true));
            !down.enabled && down.attack == Idle && down.timers == [] && down.rules == s.rules
  {
  }

  /** A call of the timer that succeeds takes it one stage further. */
  lemma OpeningGoesOn(s: State)
    requires |s.timers| == 1 && s.timers[0].Opening?
    ensures var s' := Next(s, OpenCall(0, false));
            && |s'.timers| == 1 && s'.attack == s.attack
            && match s.timers[0].job.stage
               case Listing => s'.timers[0].Opening? && s'.timers[0].job.stage == Adding
               case Adding => s'.timers[0].Opening? && s'.timers[0].job.stage == DroppingIngress
               case DroppingIngress => s'.timers[0].Opening? && s'.timers[0].job.stage == DroppingEgress
               case DroppingEgress => s'.timers == [Farewell]
  {
    hide IdsOf;
    hide Numbered;
  }

  lemma FarewellIsOpen(s: State)
    requires RulesOfTimer(s) && s.timers == [Farewell]
    ensures IsOpen(s.rules)
  {
  }

  // ---------------------------------------------------------------- what the rule sets admit

  /** Open: any UDP packet and TCP on the game's ports. */
  lemma OpenAdmits(covers: Covers, first: nat, p: Packet)
    ensures Admitted(covers, Numbered(OPEN_RULES, first), p) <==>
            covers("0.0.0.0/0", p.source) && (p.protocol == "17" || (p.protocol == "6" && 27015 <= p.port <= 27020))
  {
    var rules := Numbered(OPEN_RULES, first);
    assert first in rules && first + 2 in rules && rules[first] == OPEN_RULES[0] && rules[first + 2] == OPEN_RULES[2];
    if covers("0.0.0.0/0", p.source) && p.protocol == "17" {
      assert Admits(covers, rules[first + 2], p);
    }
    if covers("0.0.0.0/0", p.source) && p.protocol == "6" && 27015 <= p.port <= 27020 {
      assert Admits(covers, rules[first], p);
    }
  }

  /** Open also means that any UDP packet may leave, and by the rules of the group nothing else. */
  lemma OpenLetsUdpOut(rules: RuleSet)
    requires IsOpen(rules)
    ensures exists id :: id in rules && rules[id] == Rule(Egress, "0.0.0.0/0", "17", None)
    ensures forall id | id in rules && rules[id].direction == Egress ::
              rules[id] == Rule(Egress, "0.0.0.0/0", "17", None)
  {
    var first: nat :| rules == Numbered(OPEN_RULES, first);
    assert first + 3 in rules && rules[first + 3] == OPEN_RULES[3];
    forall id | id in rules
      ensures rules[id] in OPEN_RULES
    {
      assert rules[id] == OPEN_RULES[id - first];
    }
  }

  /** Restricted: whatever comes from one of the addresses, and nothing else. */
  lemma RestrictedAdmits(covers: Covers, ips: seq<string>, first: nat, p: Packet)
    ensures Admitted(covers, Numbered(RestrictedRules(ips), first), p) <==>
            exists i: nat :: i < |ips| && covers(if '/' in ips[i] then ips[i] else ips[i] + "/32", p.source)
  {
    var rules := Numbered(RestrictedRules(ips), first);
    if i: nat :| i < |ips| && covers(Cidr(ips[i]), p.source) {
      assert first + i in rules && Admits(covers, rules[first + i], p);
    }
    if Admitted(covers, rules, p) {
      var id :| id in rules && Admits(covers, rules[id], p);
      assert Admits(covers, rules[id], p);
      assert id - first < |ips| && covers(Cidr(ips[id - first]), p.source);
    }
  }

  // ---------------------------------------------------------------- the shield itself

  class Shield {
    var enabled: bool

    constructor ()
      ensures !enabled
    {
      enabled := false;
    }

    /**
     The handler, without its timer: `dialed`, `warned` and `told` say which game server calls
     succeed. `armed` is the start of the timer.
     */
    method OnAttackDetected(client: NsgClient, dialed: bool, warned: bool, players: Option<seq<string>>, f: Failures,
                            told: bool)
      returns (armed: bool)
      requires client.Valid()
      modifies this, client
      ensures client.Valid() && enabled == (old(enabled) || armed)
      ensures armed <==> !old(enabled) && dialed && warned && players.Some? && players.value != []
                         && Succeeds(f, old(client.rules), RestrictedRules(players.value)) && told
      ensures !old(enabled) && dialed && warned && players.Some? && players.value != []
              && Succeeds(f, old(client.rules), RestrictedRules(players.value)) ==>
                client.rules == Numbered(RestrictedRules(players.value), old(client.nextId))
      ensures old(enabled) || !dialed || !warned || players.None? || players.value == [] ==>
                client.rules == old(client.rules) && client.trace == old(client.trace)
      ensures players.Some? ==>
                SafeBetween(old(client.rules), Numbered(RestrictedRules(players.value), old(client.nextId)),
                            client.rules)
    {
      hide RestrictedRules;
      hide Numbered;
      hide SafeBetween;
      if players.Some? {
        MoreRulesAreSafe(client.rules, Numbered(RestrictedRules(players.value), client.nextId));
      }
      if enabled || !dialed || !warned || players.None? || |players.value| == 0 {
        return false;
      }
      var restricted := EnableFirewallRestriction(client, players.value, f);
      if !restricted || !told {
        return false;
      }
      enabled := true;
      return true;
    }

    /** What the timer's goroutine does in the end. */
    method Disable(client: NsgClient, f: Failures, dialed: bool, said: bool) returns (lifted: bool)
      requires client.Valid()
      modifies this, client
      ensures client.Valid() && lifted == Succeeds(f, old(client.rules), OPEN_RULES)
      ensures enabled == (old(enabled) && !(lifted && dialed && said))
      ensures lifted ==> client.rules == Numbered(OPEN_RULES, old(client.nextId))
      ensures SafeBetween(old(client.rules), Numbered(OPEN_RULES, old(client.nextId)), client.rules)
    {
      hide Numbered;
      hide SafeBetween;
      lifted := DisableFirewallRestriction(client, f);
      if lifted && dialed && said {
        enabled := false;
      }
    }
  }

  lemma MoreRulesAreSafe(before: RuleSet, added: RuleSet)
    ensures SafeBetween(before, added, before)
  {
    MoreRulesAdmitMore(before, before);
  }
}

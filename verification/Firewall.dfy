/**
 The shield's firewall: a network security group whose whole rule set is replaced, call by
 call, and must keep admitting at every point what both the old and the new rules
 admit. The cloud client is a rule set with fresh ids whose calls succeed as a
 whole or fail as a whole; which addresses a CIDR block covers is left open.
 */
module Firewall {
  import opened Wrappers

  datatype Direction = Ingress | Egress

  /** `address` is the source of an ingress rule and the destination of an egress rule. */
  datatype Rule = Rule(direction: Direction, address: string, protocol: string, ports: Option<(int, int)>)

  type RuleSet = map<nat, Rule>

  datatype Packet = Packet(source: nat, protocol: string, port: int)

  type Covers = (string, nat) -> bool

  predicate Admits(covers: Covers, rule: Rule, p: Packet) {
    && rule.direction == Ingress && covers(rule.address, p.source)
    && (rule.protocol == "all" || rule.protocol == p.protocol)
    && (rule.ports.Some? ==> rule.ports.value.0 <= p.port <= rule.ports.value.1)
  }

  ghost predicate Admitted(covers: Covers, rules: RuleSet, p: Packet) {
    exists id :: id in rules && Admits(covers, rules[id], p)
  }

  function NextIds(first: nat, count: nat): (ids: set<nat>)
    ensures forall id: nat :: id in ids <==> first <= id < first + count
  {
    if count == 0 then {} else NextIds(first, count - 1) + {first + count - 1}
  }

  /** The rules as the client numbers them, from its next free id on. */
  function Numbered(rules: seq<Rule>, first: nat): RuleSet {
    map id | id in NextIds(first, |rules|) :: rules[id - first]
  }

  /** Everything that old admits is still admitted. */
  ghost predicate AdmitsAllOf(covers: Covers, old_: RuleSet, rules: RuleSet) {
    forall p | Admitted(covers, old_, p) :: Admitted(covers, rules, p)
  }

  /** Rules on the way from `before` to `added` that admit all that one of the two admits. */
  ghost predicate SafeBetween(before: RuleSet, added: RuleSet, rules: RuleSet) {
    (forall covers :: AdmitsAllOf(covers, before, rules)) || (forall covers :: AdmitsAllOf(covers, added, rules))
  }

  /** So a source admitted by both the old and the new rules is admitted in between. */
  lemma SafeKeepsCommonSources(covers: Covers, before: RuleSet, added: RuleSet, rules: RuleSet, p: Packet)
    requires SafeBetween(before, added, rules)
    requires Admitted(covers, before, p) && Admitted(covers, added, p)
    ensures Admitted(covers, rules, p)
  {
    assert AdmitsAllOf(covers, before, rules) || AdmitsAllOf(covers, added, rules);
  }

  lemma MoreRulesAdmitMore(less: RuleSet, more: RuleSet)
    requires forall id | id in less && less[id].direction == Ingress :: id in more && more[id] == less[id]
    ensures forall covers :: AdmitsAllOf(covers, less, more)
  {
    forall covers: Covers, p | Admitted(covers, less, p)
      ensures Admitted(covers, more, p)
    {
      var id :| id in less && Admits(covers, less[id], p);
      assert Admits(covers, less[id], p);
      assert id in more && Admits(covers, more[id], p);
    }
  }

  class NsgClient {
    var rules: RuleSet
    var nextId: nat
    /** The rule set after each call that may change it, failing ones included. */
    var trace: seq<RuleSet>

    ghost predicate Valid()
      reads this
    {
      forall id | id in rules :: id < nextId
    }

    constructor ()
      ensures Valid() && rules == map[] && trace == []
    {
      rules, nextId, trace := map[], 0, [];
    }

    method AddRules(added: seq<Rule>, fails: bool) returns (ok: bool)
      requires Valid()
      modifies this
      ensures Valid() && ok == !fails
      ensures rules == if ok then old(rules) + Numbered(added, old(nextId)) else old(rules)
      ensures trace == old(trace) + [rules]
    {
      ok := !fails;
      if ok {
        rules := rules + Numbered(added, nextId);
        nextId := nextId + |added|;
      }
      trace := trace + [rules];
    }

    method RemoveRules(ids: set<nat>, fails: bool) returns (ok: bool)
      requires Valid()
      modifies this
      ensures Valid() && ok == !fails && nextId == old(nextId)
      ensures rules == if ok then old(rules) - ids else old(rules)
      ensures trace == old(trace) + [rules]
    {
      ok := !fails;
      if ok {
        rules := rules - ids;
      }
      trace := trace + [rules];
    }

    /** The ids of the listed rules in one direction. */
    method ListIds(direction: Direction) returns (ids: set<nat>)
      ensures ids == IdsOf(rules, direction)
    {
      ids := set id | id in rules && rules[id].direction == direction;
    }
  }

  function IdsOf(rules: RuleSet, direction: Direction): set<nat> {
    set id | id in rules && rules[id].direction == direction
  }

  /** The calls that may fail: finding the group, listing its rules, adding, and the two removals. */
  datatype Failures = Failures(find: bool, list: bool, add: bool, removeIngress: bool, removeEgress: bool)

  /** An address without a prefix length stands for itself alone. */
  function Cidr(ip: string): string {
    if '/' in ip then ip else ip + "/32"
  }

  function RestrictedRules(ips: seq<string>): seq<Rule> {
    seq(|ips|, i requires 0 <= i < |ips| => Rule(Ingress, Cidr(ips[i]), "all", None))
  }

  const OPEN_RULES: seq<Rule> := [
    Rule(Ingress, "0.0.0.0/0", "6", Some((27015, 27020))),
    Rule(Ingress, "0.0.0.0/0", "17", Some((27015, 27020))),
    Rule(Ingress, "0.0.0.0/0", "17", None),
    Rule(Egress, "0.0.0.0/0", "17", None)]

  /** Every call that is made succeeds; a removal with nothing to remove is not made. */
  predicate Succeeds(f: Failures, before: RuleSet, added: seq<Rule>) {
    && !f.find && !f.list && (added != [] ==> !f.add)
    && (IdsOf(before, Ingress) != {} ==> !f.removeIngress)
    && (IdsOf(before, Egress) != {} ==> !f.removeEgress)
  }

  /** What a replacement promises of its outcome and of the states it went through, `trace[from..]`. */
  ghost predicate Replaced(before: RuleSet, added: RuleSet, ok: bool, after: RuleSet, trace: seq<RuleSet>, from: nat) {
    && (ok ==> after == added)
    && SafeBetween(before, added, after)
    && forall k | from <= k < |trace| :: SafeBetween(before, added, trace[k])
  }

  /**
   New rules first, then the old ingress rules and last the old egress rules, by the ids listed
   at the start: every set on the way is safe, and the last one holds the new rules alone.
   */
  lemma EveryStateSafe(before: RuleSet, added: RuleSet)
    requires before.Keys !! added.Keys
    ensures SafeBetween(before, added, before)
    ensures SafeBetween(before, added, before + added)
    ensures SafeBetween(before, added, (before + added) - IdsOf(before, Ingress))
    ensures (before + added) - IdsOf(before, Ingress) - IdsOf(before, Egress) == added
    ensures SafeBetween(before, added, added)
  {
    MoreRulesAdmitMore(before, before);
    MoreRulesAdmitMore(before, before + added);
    MoreRulesAdmitMore(added, (before + added) - IdsOf(before, Ingress));
    MoreRulesAdmitMore(added, added);
    assert IdsOf(before, Ingress) + IdsOf(before, Egress) == before.Keys;
  }

  lemma NewIdsAreFresh(before: RuleSet, added: seq<Rule>, first: nat)
    requires forall id | id in before :: id < first
    ensures before.Keys !! Numbered(added, first).Keys
    ensures added == [] ==> Numbered(added, first) == map[]
  {
  }

  method AllowRules(ips: seq<string>) returns (added: seq<Rule>)
    ensures added == RestrictedRules(ips)
    ensures |added| == |ips| && forall i | 0 <= i < |ips| ::
              added[i] == Rule(Ingress, if '/' in ips[i] then ips[i] else ips[i] + "/32", "all", None)
  {
    added := [];
    for i := 0 to |ips|
      invariant added == RestrictedRules(ips[..i])
    {
      var cidr := if '/' in ips[i] then ips[i] else ips[i] + "/32";
      added := added + [Rule(Ingress, cidr, "all", None)];
    }
    assert ips[..|ips|] == ips;
  }

  method AddNew(client: NsgClient, added: seq<Rule>, fails: bool) returns (ok: bool)
    requires client.Valid()
    modifies client
    ensures client.Valid() && ok == (added != [] ==> !fails)
    ensures client.rules == if ok then old(client.rules) + Numbered(added, old(client.nextId)) else old(client.rules)
    ensures client.trace == old(client.trace) || client.trace == old(client.trace) + [client.rules]
  {
    ok := true;
    if |added| > 0 {
      ok := client.AddRules(added, fails);
    }
  }

  /** A removal is only asked for when there is something to remove. */
  method RemoveOld(client: NsgClient, ids: set<nat>, fails: bool) returns (ok: bool)
    requires client.Valid()
    modifies client
    ensures client.Valid() && ok == (ids != {} ==> !fails) && client.nextId == old(client.nextId)
    ensures client.rules == if ok then old(client.rules) - ids else old(client.rules)
    ensures client.trace == old(client.trace) || client.trace == old(client.trace) + [client.rules]
  {
    ok := true;
    if ids != {} {
      ok := client.RemoveRules(ids, fails);
    }
  }

  method EnableFirewallRestriction(client: NsgClient, ips: seq<string>, f: Failures) returns (ok: bool)
    requires client.Valid()
    modifies client
    ensures client.Valid() && ok == Succeeds(f, old(client.rules), RestrictedRules(ips))
    ensures old(client.trace) <= client.trace
    ensures Replaced(old(client.rules), Numbered(RestrictedRules(ips), old(client.nextId)), ok, client.rules,
                     client.trace, |old(client.trace)|)
  {
    hide RestrictedRules;
    hide Numbered;
    hide SafeBetween;
    hide IdsOf;
    var added := AllowRules(ips);
    ghost var before, news := client.rules, Numbered(added, client.nextId);
    NewIdsAreFresh(before, added, client.nextId);
    EveryStateSafe(before, news);
    if f.find || f.list {
      return false;
    }
    var oldIngress := client.ListIds(Ingress);
    var oldEgress := client.ListIds(Egress);
    var done := AddNew(client, added, f.add);
    if !done {
      return false;
    }
    done := RemoveOld(client, oldIngress, f.removeIngress);
    if !done {
      return false;
    }
    assert client.rules == (before + news) - IdsOf(before, Ingress);
    done := RemoveOld(client, oldEgress, f.removeEgress);
    if !done {
      return false;
    }
    return true;
  }

  method DisableFirewallRestriction(client: NsgClient, f: Failures) returns (ok: bool)
    requires client.Valid()
    modifies client
    ensures client.Valid() && ok == Succeeds(f, old(client.rules), OPEN_RULES)
    ensures old(client.trace) <= client.trace
    ensures Replaced(old(client.rules), Numbered(OPEN_RULES, old(client.nextId)), ok, client.rules,
                     client.trace, |old(client.trace)|)
  {
    assert OPEN_RULES != [];
    ghost var before, news := client.rules, Numbered(OPEN_RULES, client.nextId);
    NewIdsAreFresh(before, OPEN_RULES, client.nextId);
    hide OPEN_RULES;
    hide Numbered;
    hide SafeBetween;
    hide IdsOf;
    EveryStateSafe(before, news);
    if f.find || f.list {
      return false;
    }
    var oldIngress := client.ListIds(Ingress);
    var oldEgress := client.ListIds(Egress);
    var done := client.AddRules(OPEN_RULES, f.add);
    if !done {
      return false;
    }
    done := RemoveOld(client, oldIngress, f.removeIngress);
    if !done {
      return false;
    }
    assert client.rules == (before + news) - IdsOf(before, Ingress);
    done := RemoveOld(client, oldEgress, f.removeEgress);
    if !done {
      return false;
    }
    return true;
  }
}

/** What the access-control rules mean: a packet is looked up in the address sets and then in the
    rules, first hit first (nacs_table.c:831-1156, rule_table.h). */
module NacsRules {
  import opened Basics

  type ProtoId = n: nat | n < 0x1_0000_0000
  type RuleId = n: nat | n < 0x1_0000

  const ZONE_ANY := 255
  const GROUP_ANY := 63
  const GROUP_BITS := 64

  datatype Action = Accept | Audit | Reject

  const ACTIONS: seq<Action> := [Accept, Audit, Reject]

  /** A rule as configured; a name of an action that is not known is no action. */
  datatype Rule = Rule(
    id: RuleId,
    srcZones: seq<Byte>, srcGroups: seq<Byte>, dstZones: seq<Byte>, dstGroups: seq<Byte>,
    protos: seq<ProtoId>, actions: seq<Option<Action>>)

  /** What is known of a packet: zones and groups of both sides, its protocol, and the address sets
      its source belongs to. */
  datatype Request = Request(
    srcZone: Byte, srcGroups: set<nat>, dstZone: Byte, dstGroups: set<nat>,
    proto: ProtoId, macSets: set<nat>, ipSets: set<nat>)

  /** A zone is in the list, or the list has the zone that stands for all. */
  ghost predicate ZoneAllowed(zones: seq<Byte>, zone: Byte) {
    zone in zones || ZONE_ANY in zones
  }

  /** A group of the packet is in the list, or the list has a group that stands for all. */
  ghost predicate GroupAllowed(ids: seq<Byte>, groups: set<nat>) {
    exists g <- ids :: g >= GROUP_ANY || g in groups
  }

  ghost predicate Matches(r: Rule, q: Request) {
    && ZoneAllowed(r.srcZones, q.srcZone) && GroupAllowed(r.srcGroups, q.srcGroups)
    && ZoneAllowed(r.dstZones, q.dstZone) && GroupAllowed(r.dstGroups, q.dstGroups)
    && q.proto in r.protos
  }

  /** The flags of a set of actions: one bit each. */
  function ActionFlags(actions: seq<Option<Action>>): (flags: nat)
    ensures flags < 8
  {
    (if Some(Accept) in actions then 1 else 0)
    + (if Some(Audit) in actions then 2 else 0)
    + (if Some(Reject) in actions then 4 else 0)
  }

  /** The first rule from `k` on that matches, or the number of rules. */
  ghost function FirstMatch(rules: seq<Rule>, q: Request, k: nat): (i: nat)
    requires k <= |rules|
    ensures k <= i <= |rules|
    decreases |rules| - k
  {
    if k == |rules| || Matches(rules[k], q) then k else FirstMatch(rules, q, k + 1)
  }

  lemma {:induction false} FirstMatchIs(rules: seq<Rule>, q: Request, k: nat, i: nat)
    requires k <= i <= |rules|
    requires forall j :: k <= j < i ==> !Matches(rules[j], q)
    requires i < |rules| ==> Matches(rules[i], q)
    ensures FirstMatch(rules, q, k) == i
    decreases i - k
  {
    if k < i {
      FirstMatchIs(rules, q, k + 1, i);
    }
  }

  // ----- Address sets -----

  /** One of the sets: white lists of MAC and IP addresses, then black lists. */
  datatype SetEntry = SetEntry(ipset: Option<nat>, flags: nat)

  predicate InSet(i: nat, e: SetEntry, q: Request) {
    && i < 4 && e.ipset.Some?
    && e.ipset.value in (if i % 2 == 0 then q.macSets else q.ipSets)
  }

  /** The sets and the rules for control or for audit. */
  datatype Config = Config(sets: seq<SetEntry>, rules: seq<Rule>)

  /** Where a packet was found: in a set or a rule, with these flags. */
  datatype Verdict = NoVerdict | BySet(flags: nat) | ByRule(id: RuleId, flags: nat)

  ghost function FirstSet(sets: seq<SetEntry>, q: Request, k: nat): (i: nat)
    requires k <= |sets|
    ensures k <= i <= |sets|
    decreases |sets| - k
  {
    if k == |sets| || InSet(k, sets[k], q) then k else FirstSet(sets, q, k + 1)
  }

  /** The sets go before the rules. */
  ghost function Lookup(c: Config, q: Request): Verdict {
    var s := FirstSet(c.sets, q, 0);
    if s < |c.sets| then BySet(c.sets[s].flags)
    else
      var r := FirstMatch(c.rules, q, 0);
      if r < |c.rules| then ByRule(c.rules[r].id, ActionFlags(c.rules[r].actions)) else NoVerdict
  }
}

/** The packed form of the rules (rule_table.h): every part at its offset, aligned to eight bytes. */
module NacsLayout {
  import opened Basics
  import opened NacsRules

  const ENTRY_HEAD := 8
  const FLOW_HEAD := 16
  const PROTO_HEAD := 8
  const TARGET := 8
  const SORT_ASC := 1

  function Align8(n: nat): (r: nat)
    ensures n <= r < n + 8 && r % 8 == 0
  {
    (n + 7) / 8 * 8
  }

  // ----- Numbers in bytes, low byte first -----

  function U16(s: seq<Byte>, at: nat): nat
    requires at + 2 <= |s|
  {
    var a: int, b: int := s[at], s[at + 1];
    a + 256 * b
  }

  function U32(s: seq<Byte>, at: nat): nat
    requires at + 4 <= |s|
  {
    U16(s, at) + 0x1_0000 * U16(s, at + 2)
  }

  // ----- Entries -----

  /** The first `i` of the four id lists of a rule, one after the other. */
  function Ids(r: Rule, i: nat): seq<Byte>
    requires i <= 4
  {
    if i == 0 then [] else Ids(r, i - 1) + List(r, i - 1)
  }

  function List(r: Rule, i: nat): seq<Byte>
    requires i < 4
  {
    if i == 0 then r.srcZones else if i == 1 then r.srcGroups else if i == 2 then r.dstZones else r.dstGroups
  }

  function FlowSize(r: Rule): nat {
    Align8(|Ids(r, 4)| + FLOW_HEAD)
  }

  function ProtoSize(r: Rule): nat {
    Align8(4 * |r.protos| + PROTO_HEAD)
  }

  function EntrySize(r: Rule): nat {
    ENTRY_HEAD + FlowSize(r) + ProtoSize(r) + TARGET
  }

  /** The rule's offsets fit in 16 bits. */
  predicate Fits(r: Rule) {
    EntrySize(r) < 0x1_0000
  }

  ghost predicate IsFlow(s: seq<Byte>, r: Rule) {
    && |s| == FlowSize(r)
    && U16(s, 0) == |r.srcZones| && U16(s, 2) == |r.srcGroups| && U16(s, 4) == |r.dstZones| && U16(s, 6) == |r.dstGroups|
    && U16(s, 8) == FlowSize(r)
    && s[FLOW_HEAD..FLOW_HEAD + |Ids(r, 4)|] == Ids(r, 4)
  }

  ghost predicate IsProto(s: seq<Byte>, r: Rule) {
    && |s| == ProtoSize(r)
    && U16(s, 0) == |r.protos| && U16(s, 2) == ProtoSize(r) && U16(s, 4) == SORT_ASC
    && forall k :: 0 <= k < |r.protos| ==> U32(s, PROTO_HEAD + 4 * k) == r.protos[k]
  }

  ghost predicate IsTarget(s: seq<Byte>, r: Rule) {
    |s| == TARGET && U32(s, 0) == TARGET && U32(s, 4) == ActionFlags(r.actions)
  }

  ghost predicate IsEntry(s: seq<Byte>, r: Rule) {
    var proto := ENTRY_HEAD + FlowSize(r);
    var target := proto + ProtoSize(r);
    && |s| == EntrySize(r)
    && U16(s, 0) == r.id && U16(s, 2) == proto && U16(s, 4) == target && U16(s, 6) == EntrySize(r)
    && IsFlow(s[ENTRY_HEAD..proto], r)
    && IsProto(s[proto..target], r)
    && IsTarget(s[target..], r)
  }

  // ----- Tables -----

  /** Where the entry number `k` starts. */
  function Offset(rules: seq<Rule>, k: nat): nat
    requires k <= |rules|
  {
    if k == 0 then 0 else Offset(rules, k - 1) + EntrySize(rules[k - 1])
  }

  ghost predicate EntryAt(s: seq<Byte>, rules: seq<Rule>, k: nat)
    requires k < |rules|
  {
    && Offset(rules, k) + EntrySize(rules[k]) <= |s|
    && IsEntry(s[Offset(rules, k)..Offset(rules, k) + EntrySize(rules[k])], rules[k])
  }

  ghost predicate IsTable(s: seq<Byte>, rules: seq<Rule>) {
    && |s| == Offset(rules, |rules|)
    && forall k :: 0 <= k < |rules| ==> EntryAt(s, rules, k)
  }

  // ----- Facts about the layout -----

  lemma IdsParts(r: Rule)
    ensures |Ids(r, 1)| == |r.srcZones|
    ensures |Ids(r, 2)| == |r.srcZones| + |r.srcGroups|
    ensures |Ids(r, 3)| == |r.srcZones| + |r.srcGroups| + |r.dstZones|
    ensures |Ids(r, 4)| == |r.srcZones| + |r.srcGroups| + |r.dstZones| + |r.dstGroups|
    ensures Ids(r, 4) == r.srcZones + r.srcGroups + r.dstZones + r.dstGroups
  {
    assert Ids(r, 0) == [];
    assert Ids(r, 1) == r.srcZones;
    assert Ids(r, 2) == r.srcZones + r.srcGroups;
    assert Ids(r, 3) == r.srcZones + r.srcGroups + r.dstZones;
  }

  /** A rule with no more than 4096 ids in each list always fits. */
  lemma SmallListsFit(r: Rule)
    requires |r.srcZones| <= 4096 && |r.srcGroups| <= 4096 && |r.dstZones| <= 4096 && |r.dstGroups| <= 4096
    requires |r.protos| <= 4096
    ensures Fits(r)
  {
    IdsParts(r);
  }

  lemma {:induction false} OffsetMonotone(rules: seq<Rule>, j: nat, k: nat)
    requires j <= k <= |rules|
    ensures Offset(rules, j) + 32 * (k - j) <= Offset(rules, k)
    decreases k - j
  {
    if j < k {
      OffsetMonotone(rules, j, k - 1);
    }
  }

  lemma {:induction false} OffsetAligned(rules: seq<Rule>, k: nat)
    requires k <= |rules|
    ensures Offset(rules, k) % 8 == 0
  {
    if k > 0 {
      OffsetAligned(rules, k - 1);
      SumAligned(FlowSize(rules[k - 1]), ProtoSize(rules[k - 1]), Offset(rules, k - 1));
    }
  }

  lemma SumAligned(a: nat, b: nat, c: nat)
    requires a % 8 == 0 && b % 8 == 0 && c % 8 == 0
    ensures (c + (8 + a + b + 8)) % 8 == 0
  {
  }
}

/** The kernel's side of the packed rules (nacs_table.c:356-392, 831-968, 1033-1073): checking a
    table, copying it for every processor, and looking packets up in it. */
module NacsLookup {
  import opened Basics
  import opened NacsRules
  import opened NacsLayout
  import opened NacsCompile

  const SMP_CACHE_BYTES := 64

  function SmpAlign(n: nat): (r: nat)
    ensures n <= r < n + SMP_CACHE_BYTES
  {
    (n + (SMP_CACHE_BYTES - 1)) / SMP_CACHE_BYTES * SMP_CACHE_BYTES
  }

  ghost predicate Ascending(ids: seq<ProtoId>) {
    forall j, k :: 0 <= j < k < |ids| ==> ids[j] <= ids[k]
  }

  // ----- The checks -----

  /** binary_search: an index of the value, or -1 if it is not there. */
  method BinarySearch(s: seq<Byte>, base: nat, number: nat, value: ProtoId, ghost ids: seq<ProtoId>) returns (found: int)
    requires Ascending(ids) && number == |ids| && base + 4 * number <= |s|
    requires forall k :: 0 <= k < |ids| ==> U32(s, base + 4 * k) == ids[k]
    ensures found == -1 <==> value !in ids
    ensures found != -1 ==> 0 <= found < |ids| && ids[found] == value
  {
    hide U32;
    var left, right := 0, number - 1;
    while left <= right
      invariant 0 <= left <= right + 1 <= number
      invariant forall k :: 0 <= k < left ==> ids[k] < value
      invariant forall k :: right < k < number ==> value < ids[k]
      decreases right - left
    {
      var middle := left + (right - left) / 2;
      var id := U32(s, base + 4 * middle);
      assert id == ids[middle];
      if id > value {
        right := middle - 1;
      } else if id < value {
        left := middle + 1;
      } else {
        return middle;
      }
    }
    found := -1;
  }

  /** ac_zone_check */
  method ZoneCheck(s: seq<Byte>, base: nat, number: nat, zone: Byte) returns (matched: bool)
    requires base + number <= |s|
    ensures matched <==> ZoneAllowed(s[base..base + number], zone)
  {
    ghost var ids := s[base..base + number];
    var i := 0;
    while i < number
      invariant 0 <= i <= number
      invariant forall k :: 0 <= k < i ==> ids[k] != zone && ids[k] != ZONE_ANY
    {
      assert ids[i] == s[base + i];
      if s[base + i] == zone || s[base + i] >= ZONE_ANY {
        return true;
      }
      i := i + 1;
    }
    matched := false;
  }

  /** ac_ipgrp_check */
  method GroupCheck(s: seq<Byte>, base: nat, number: nat, groups: set<nat>) returns (matched: bool)
    requires base + number <= |s|
    ensures matched <==> GroupAllowed(s[base..base + number], groups)
  {
    ghost var ids := s[base..base + number];
    var i := 0;
    while i < number
      invariant 0 <= i <= number
      invariant forall k :: 0 <= k < i ==> !(ids[k] >= GROUP_ANY || ids[k] in groups)
    {
      assert ids[i] == s[base + i];
      if s[base + i] < GROUP_BITS && s[base + i] in groups {
        return true;
      }
      if s[base + i] >= GROUP_ANY {
        return true;
      }
      i := i + 1;
    }
    matched := false;
  }

  lemma SliceOfSlice(s: seq<Byte>, at: nat, n: nat, i: nat, j: nat)
    requires at + n <= |s| && i <= j <= n
    ensures s[at..at + n][i..j] == s[at + i..at + j]
  {
    var l, r := s[at..at + n][i..j], s[at + i..at + j];
    assert |l| == |r|;
    forall k | 0 <= k < |l| ensures l[k] == r[k] {
    }
  }

  lemma SliceU16(s: seq<Byte>, at: nat, n: nat, k: nat)
    requires at + n <= |s| && k + 2 <= n
    ensures U16(s, at + k) == U16(s[at..at + n], k)
  {
  }

  lemma SliceU32(s: seq<Byte>, at: nat, n: nat, k: nat)
    requires at + n <= |s| && k + 4 <= n
    ensures U32(s, at + k) == U32(s[at..at + n], k)
  {
  }

  /** Where a flow match has its list number `i`. */
  lemma FlowList(s: seq<Byte>, at: nat, r: Rule, i: nat)
    requires at + FlowSize(r) <= |s| && IsFlow(s[at..at + FlowSize(r)], r) && i < 4
    ensures U16(s, at + 2 * i) == |List(r, i)|
    ensures var from := at + FLOW_HEAD + |Ids(r, i)|;
            from + |List(r, i)| <= |s| && s[from..from + |List(r, i)|] == List(r, i)
    ensures |Ids(r, i + 1)| == |Ids(r, i)| + |List(r, i)|
  {
    hide U16, Align8, Ids;
    FlowRoom(r);
    IdsInside(r, i);
    SliceU16(s, at, FlowSize(r), 2 * i);
    var n, m := |Ids(r, i)|, |List(r, i)|;
    var all := |Ids(r, 4)|;
    SliceOfSlice(s, at, FlowSize(r), FLOW_HEAD, FLOW_HEAD + all);
    SliceOfSlice(s, at + FLOW_HEAD, all, n, n + m);
  }

  lemma IdsInside(r: Rule, i: nat)
    requires i < 4
    ensures var n, m := |Ids(r, i)|, |List(r, i)|;
            n + m <= |Ids(r, 4)| && Ids(r, 4)[n..n + m] == List(r, i) && |Ids(r, i + 1)| == n + m
  {
    IdsParts(r);
    assert Ids(r, 0) == [];
    if i == 0 {
      assert Ids(r, 4) == List(r, 0) + r.srcGroups + r.dstZones + r.dstGroups;
    } else if i == 1 {
      assert Ids(r, 4) == r.srcZones + List(r, 1) + (r.dstZones + r.dstGroups);
    } else if i == 2 {
      assert Ids(r, 4) == (r.srcZones + r.srcGroups) + List(r, 2) + r.dstGroups;
    }
  }

  /** The part of a match that list number `i` decides. */
  ghost predicate ListAllows(r: Rule, i: nat, q: Request)
    requires i < 4
  {
    match i
    case 0 => ZoneAllowed(r.srcZones, q.srcZone)
    case 1 => GroupAllowed(r.srcGroups, q.srcGroups)
    case 2 => ZoneAllowed(r.dstZones, q.dstZone)
    case 3 => GroupAllowed(r.dstGroups, q.dstGroups)
  }

  /** flow_match_check */
  method FlowCheck(s: seq<Byte>, at: nat, q: Request, ghost r: Rule) returns (matched: bool)
    requires at + FlowSize(r) <= |s| && IsFlow(s[at..at + FlowSize(r)], r)
    ensures matched <==> forall i :: 0 <= i < 4 ==> ListAllows(r, i, q)
  {
    hide IsFlow, U16, Align8, Ids;
    FlowStarts(r);
    matched := false;
    var i, offset := 0, 0;
    while i < 4
      invariant 0 <= i <= 4 && offset == |Ids(r, i)|
      invariant forall k :: 0 <= k < i ==> ListAllows(r, k, q)
      invariant i > 0 ==> matched
    {
      FlowList(s, at, r, i);
      var base, number := at + FLOW_HEAD + offset, U16(s, at + 2 * i);
      if i == 0 {
        matched := ZoneCheck(s, base, number, q.srcZone);
      } else if i == 1 {
        matched := GroupCheck(s, base, number, q.srcGroups);
      } else if i == 2 {
        matched := ZoneCheck(s, base, number, q.dstZone);
      } else {
        matched := GroupCheck(s, base, number, q.dstGroups);
      }
      assert matched <==> ListAllows(r, i, q);
      if !matched {
        break;
      }
      offset := offset + number;
      i := i + 1;
    }
  }

  lemma FlowStarts(r: Rule)
    ensures Ids(r, 0) == []
  {
  }

  /** proto_match_check */
  method ProtoCheck(s: seq<Byte>, at: nat, q: Request, ghost r: Rule) returns (matched: bool)
    requires at + ProtoSize(r) <= |s| && IsProto(s[at..at + ProtoSize(r)], r) && Ascending(r.protos)
    ensures matched <==> q.proto in r.protos
  {
    hide U16, U32, Align8;
    ProtoRoom(r);
    SliceU16(s, at, ProtoSize(r), 0);
    forall k | 0 <= k < |r.protos| ensures U32(s, at + PROTO_HEAD + 4 * k) == r.protos[k] {
      SliceU32(s, at, ProtoSize(r), PROTO_HEAD + 4 * k);
    }
    var found := BinarySearch(s, at + PROTO_HEAD, U16(s, at), q.proto, r.protos);
    matched := found >= 0;
  }

  // ----- The walk -----

  /** What the kernel keeps: the entries once for every processor. */
  datatype Info = Info(category: nat, size: nat, number: nat, memory: seq<Byte>)

  /** The entries of one processor. */
  ghost predicate CopyAt(memory: seq<Byte>, size: nat, cpu: nat, entries: seq<Byte>) {
    && size == |entries| && Place(size, cpu) + size <= |memory|
    && memory[Place(size, cpu)..Place(size, cpu) + size] == entries
  }

  function Place(size: nat, cpu: nat): nat {
    SmpAlign(size) * cpu
  }

  lemma TableEntry(t: seq<Byte>, rules: seq<Rule>, k: nat)
    requires IsTable(t, rules) && k < |rules|
    ensures |t| == Offset(rules, |rules|) && Offset(rules, k) + EntrySize(rules[k]) <= |t|
    ensures IsEntry(t[Offset(rules, k)..Offset(rules, k) + EntrySize(rules[k])], rules[k])
  {
    assert EntryAt(t, rules, k);
  }

  /** An entry of a table, where it is in memory. */
  lemma EntryInMemory(memory: seq<Byte>, base: nat, size: nat, rules: seq<Rule>, k: nat)
    requires base + size <= |memory| && IsTable(memory[base..base + size], rules) && k < |rules|
    ensures var at := base + Offset(rules, k);
            && at + 8 <= at + EntrySize(rules[k]) <= base + size == base + Offset(rules, |rules|)
            && IsEntry(memory[at..at + EntrySize(rules[k])], rules[k])
            && U16(memory, at + 6) == EntrySize(rules[k])
  {
    hide IsEntry, U16, EntrySize, Offset, IsTable, EntryAt;
    var from := Offset(rules, k);
    TableEntry(memory[base..base + size], rules, k);
    SliceOfSlice(memory, base, size, from, from + EntrySize(rules[k]));
    NextOffset(memory[base + from..base + from + EntrySize(rules[k])], rules[k]);
    SliceU16(memory, base + from, EntrySize(rules[k]), 6);
  }

  /** The parts of an entry, where they are in memory. */
  lemma EntryParts(memory: seq<Byte>, at: nat, r: Rule)
    requires at + EntrySize(r) <= |memory| && IsEntry(memory[at..at + EntrySize(r)], r)
    ensures var proto, target := U16(memory, at + 2), U16(memory, at + 4);
            && at + ENTRY_HEAD + FlowSize(r) <= |memory| && at + proto + ProtoSize(r) <= |memory| && at + target + TARGET <= |memory|
            && IsFlow(memory[at + ENTRY_HEAD..at + ENTRY_HEAD + FlowSize(r)], r)
            && IsProto(memory[at + proto..at + proto + ProtoSize(r)], r)
            && U32(memory, at + target + 4) == ActionFlags(r.actions)
            && U16(memory, at) == r.id
  {
    hide IsFlow, IsProto, U16, U32, Align8, Ids, ActionFlags;
    var proto := ENTRY_HEAD + FlowSize(r);
    var target := proto + ProtoSize(r);
    SliceU16(memory, at, EntrySize(r), 0);
    SliceU16(memory, at, EntrySize(r), 2);
    SliceU16(memory, at, EntrySize(r), 4);
    SliceOfSlice(memory, at, EntrySize(r), ENTRY_HEAD, proto);
    SliceOfSlice(memory, at, EntrySize(r), proto, target);
    SliceOfSlice(memory, at, EntrySize(r), target, EntrySize(r));
    SliceU32(memory, at + target, TARGET, 4);
  }

  /** __do_table: the id and the flags of the first rule that matches. */
  method DoTable(info: Info, cpu: nat, q: Request, ghost entries: seq<Byte>, ghost rules: seq<Rule>) returns (v: Verdict)
    requires CopyAt(info.memory, info.size, cpu, entries) && IsTable(entries, rules)
    requires forall r <- rules :: Ascending(r.protos)
    ensures var i := FirstMatch(rules, q, 0);
            v == if i < |rules| then ByRule(rules[i].id, ActionFlags(rules[i].actions)) else NoVerdict
  {
    hide IsTable, IsEntry, IsFlow, IsProto, U16, U32, Align8, Ids, EntrySize, Place, Ascending, ActionFlags;
    var base := Place(info.size, cpu);
    var pos := base;
    ghost var k: nat := 0;
    EndOfTable(entries, rules);
    while pos < base + info.size
      invariant k <= |rules| && pos == base + Offset(rules, k)
      invariant forall j :: 0 <= j < k ==> !Matches(rules[j], q)
      decreases |rules| - k
    {
      NotAtEnd(rules, k);
      EntryInMemory(info.memory, base, info.size, rules, k);
      EntryParts(info.memory, pos, rules[k]);
      var flow := FlowCheck(info.memory, pos + ENTRY_HEAD, q, rules[k]);
      var proto := false;
      if flow {
        proto := ProtoCheck(info.memory, pos + U16(info.memory, pos + 2), q, rules[k]);
      }
      MatchParts(rules[k], q);
      if flow && proto {
        FirstMatchIs(rules, q, 0, k);
        return ByRule(U16(info.memory, pos), U32(info.memory, pos + U16(info.memory, pos + 4) + 4));
      }
      pos := pos + U16(info.memory, pos + 6);
      k := k + 1;
    }
    AtEnd(rules, k);
    FirstMatchIs(rules, q, 0, k);
    v := NoVerdict;
  }

  lemma MatchParts(r: Rule, q: Request)
    ensures Matches(r, q) <==> (forall i :: 0 <= i < 4 ==> ListAllows(r, i, q)) && q.proto in r.protos
  {
    assert ListAllows(r, 0, q) <==> ZoneAllowed(r.srcZones, q.srcZone);
    assert ListAllows(r, 1, q) <==> GroupAllowed(r.srcGroups, q.srcGroups);
    assert ListAllows(r, 2, q) <==> ZoneAllowed(r.dstZones, q.dstZone);
    assert ListAllows(r, 3, q) <==> GroupAllowed(r.dstGroups, q.dstGroups);
  }

  lemma EndOfTable(s: seq<Byte>, rules: seq<Rule>)
    requires IsTable(s, rules)
    ensures |s| == Offset(rules, |rules|) && Offset(rules, 0) == 0
  {
  }

  lemma NotAtEnd(rules: seq<Rule>, k: nat)
    requires k <= |rules| && Offset(rules, k) < Offset(rules, |rules|)
    ensures k < |rules|
  {
  }

  lemma AtEnd(rules: seq<Rule>, k: nat)
    requires k <= |rules| && Offset(rules, k) >= Offset(rules, |rules|)
    ensures k == |rules|
  {
    OffsetMonotone(rules, k, |rules|);
  }

  // ----- Taking a table over -----

  lemma PlaceNext(size: nat, cpu: nat)
    ensures Place(size, 0) == 0 && Place(size, cpu + 1) == Place(size, cpu) + SmpAlign(size)
  {
  }

  lemma {:induction false} PlaceMonotone(size: nat, i: nat, j: nat)
    requires i <= j
    ensures Place(size, i) <= Place(size, j)
    ensures i < j ==> Place(size, i) + SmpAlign(size) <= Place(size, j)
    decreases j - i
  {
    if i < j {
      PlaceNext(size, j - 1);
      PlaceMonotone(size, i, j - 1);
    }
  }

  /** What the checking walk comes to: the end after so many entries, or a refusal.  An entry whose
      head is not inside the table makes it read beyond, one of size zero makes it stand still. */
  datatype Walk = Ends(count: nat) | Refused | Beyond | Endless

  /** check_entry_size and the walk, from `pos` on. */
  ghost function WalkFrom(s: seq<Byte>, pos: nat): Walk
    decreases |s| - pos
  {
    if pos >= |s| then Ends(0)
    else if pos + ENTRY_HEAD > |s| then Beyond
    else
      var next := U16(s, pos + 6);
      if pos + next > |s| || pos % 8 != 0 then Refused
      else if next == 0 then Endless
      else match WalkFrom(s, pos + next) case Ends(n) => Ends(n + 1) case other => other
  }

  /** The walk over a table of rules ends after exactly the rules. */
  lemma {:induction false} TableIsWalked(s: seq<Byte>, rules: seq<Rule>, k: nat)
    requires IsTable(s, rules) && k <= |rules|
    ensures WalkFrom(s, Offset(rules, k)) == Ends(|rules| - k)
    decreases |rules| - k
  {
    hide IsTable, IsEntry, U16, EntrySize;
    EndOfTable(s, rules);
    if k < |rules| {
      assert s[0..|s|] == s;
      EntryInMemory(s, 0, |s|, rules, k);
      OffsetAligned(rules, k);
      TableIsWalked(s, rules, k + 1);
    }
  }

  /** Tables on which the walk does not notice that something is wrong: an entry of size zero, and one
      that is shorter than its head. */
  lemma WalkGoesAstray()
    ensures WalkFrom([0, 0, 0, 0, 0, 0, 0, 0], 0) == Endless
    ensures WalkFrom([0, 0, 0, 0], 0) == Beyond
  {
    assert U16([0, 0, 0, 0, 0, 0, 0, 0], 6) == 0;
  }

  /** How many entries have a stored size at all. */
  function Kept(rules: seq<Rule>): (n: nat)
    ensures n <= |rules|
  {
    if rules == [] then 0 else (if StoredNext(rules[0]) == 0 then 0 else 1) + Kept(rules[1..])
  }

  lemma {:induction false} AllKept(rules: seq<Rule>)
    ensures Kept(rules) == |rules| <==> forall r <- rules :: StoredNext(r) != 0
  {
    hide StoredNext;
    if rules != [] {
      AllKept(rules[1..]);
      assert rules == [rules[0]] + rules[1..];
    }
  }

  lemma WalkOn(s: seq<Byte>, pos: nat, next: nat)
    requires ENTRY_HEAD <= next && pos + next <= |s| && pos % 8 == 0 && U16(s, pos + 6) == next
    ensures WalkFrom(s, pos) == match WalkFrom(s, pos + next) case Ends(n) => Ends(n + 1) case other => other
  {
  }

  /** A compiled entry is passed over, unless its stored size is zero: then it is not there. */
  lemma WalkFirst(before: seq<Byte>, e: seq<Byte>, r: Rule, tail: seq<Byte>)
    requires Compiled(e, r) && |before| % 8 == 0
    ensures var next := StoredNext(r);
            var now := before + e[..next];
            && |now| % 8 == 0
            && WalkFrom(before + (e[..next] + tail), |before|)
               == if next == 0 then WalkFrom(now + tail, |now|)
                  else match WalkFrom(now + tail, |now|) case Ends(n) => Ends(n + 1) case other => other
  {
    hide U16, IsEntry, Fits, StoredNext, WalkFrom;
    var next := StoredNext(r);
    CutSums(r);
    EightMore(|before|, next);
    assert before + (e[..next] + tail) == before + e[..next] + tail;
    if next == 0 {
      assert before + e[..next] == before;
    } else {
      StoredInPlace(before, e, next, tail);
      WalkOn(before + e[..next] + tail, |before|, next);
    }
  }

  lemma WalkEnds(s: seq<Byte>)
    ensures WalkFrom(s, |s|) == Ends(0)
  {
  }

  lemma CompiledFirst(parts: seq<seq<Byte>>, rules: seq<Rule>)
    requires AllCompiled(parts, rules) && parts != [] && forall e <- parts :: ENTRY_HEAD <= |e| && U16(e, 6) <= |e|
    ensures StoredNext(rules[0]) <= |parts[0]| && Glued(parts) == parts[0][..StoredNext(rules[0])] + Glued(parts[1..])
  {
    hide U16, StoredNext, IsEntry, Fits;
    assert Compiled(parts[0], rules[0]);
  }

  lemma CompiledTail(parts: seq<seq<Byte>>, rules: seq<Rule>)
    requires AllCompiled(parts, rules) && parts != []
    ensures Compiled(parts[0], rules[0]) && AllCompiled(parts[1..], rules[1..])
  {
    hide Compiled;
    forall k | 0 <= k < |rules[1..]| ensures Compiled(parts[1..][k], rules[1..][k]) {
      assert Compiled(parts[k + 1], rules[k + 1]);
    }
  }

  /** The walk over what the compiler makes of complete rules comes to its end, whether they fit or
      not, and finds the entries that have a size. */
  lemma {:induction false} CompiledIsWalked(parts: seq<seq<Byte>>, rules: seq<Rule>, before: seq<Byte>)
    requires AllCompiled(parts, rules) && (forall e <- parts :: ENTRY_HEAD <= |e| && U16(e, 6) <= |e|)
    requires |before| % 8 == 0
    ensures WalkFrom(before + Glued(parts), |before|) == Ends(Kept(rules))
    decreases |parts|
  {
    hide U16, StoredNext, WalkFrom, Compiled;
    if parts == [] {
      assert before + Glued(parts) == before;
      WalkEnds(before);
    } else {
      CompiledTail(parts, rules);
      hide AllCompiled;
      var next := StoredNext(rules[0]);
      CompiledFirst(parts, rules);
      hide Glued;
      WalkFirst(before, parts[0], rules[0], Glued(parts[1..]));
      CompiledIsWalked(parts[1..], rules[1..], before + parts[0][..next]);
    }
  }

  lemma StoredInPlace(before: seq<Byte>, e: seq<Byte>, next: nat, tail: seq<Byte>)
    requires ENTRY_HEAD <= next <= |e|
    ensures U16(before + e[..next] + tail, |before| + 6) == U16(e, 6)
  {
  }

  /** The checking walk, on any bytes on which it stays inside and moves on: the number of entries, or
      none if one is refused. */
  method CountEntries(entries: seq<Byte>) returns (count: Option<nat>)
    requires WalkFrom(entries, 0).Ends? || WalkFrom(entries, 0).Refused?
    ensures count == if WalkFrom(entries, 0).Ends? then Some(WalkFrom(entries, 0).count) else None
  {
    hide U16;
    var pos, n := 0, 0;
    while pos < |entries|
      invariant WalkFrom(entries, pos).Ends? || WalkFrom(entries, pos).Refused?
      invariant WalkFrom(entries, 0) == match WalkFrom(entries, pos) case Ends(k) => Ends(n + k) case other => other
      decreases |entries| - pos
    {
      if pos + U16(entries, pos + 6) > |entries| {
        return None;
      }
      if pos % 8 != 0 {
        return None;
      }
      pos := pos + U16(entries, pos + 6);
      n := n + 1;
    }
    count := Some(n);
  }

  /** do_replace_table up to the swap: a table is refused for its category, for an entry, or for the
      number of its entries; otherwise every processor gets a copy. */
  method TakeTable(t: Table, cpus: nat) returns (info: Option<Info>)
    requires cpus > 0 && t.size == |t.entries| && (WalkFrom(t.entries, 0).Ends? || WalkFrom(t.entries, 0).Refused?)
    ensures info.Some? <==> t.category < 2 && WalkFrom(t.entries, 0) == Ends(t.number)
    ensures info.Some? ==> info.value.size == t.size && forall cpu :: 0 <= cpu < cpus ==> CopyAt(info.value.memory, t.size, cpu, t.entries)
  {
    hide WalkFrom, Place, SmpAlign;
    if t.category >= 2 {
      return None;
    }
    var count := CountEntries(t.entries);
    if count != Some(t.number) {
      return None;
    }
    var n := SmpAlign(t.size);
    PlaceNext(t.size, 0);
    PlaceMonotone(t.size, 1, cpus);
    var memory := new Byte[Place(t.size, cpus)];
    Put(memory, 0, t.entries);
    var i := 1;
    while i < cpus
      invariant 1 <= i <= cpus && memory.Length == Place(t.size, cpus)
      invariant forall cpu :: 0 <= cpu < i ==> CopyAt(memory[..], t.size, cpu, t.entries)
    {
      ghost var was := memory[..];
      PlaceNext(t.size, i);
      PlaceMonotone(t.size, i + 1, cpus);
      Put(memory, Place(t.size, i), memory[..n]);
      forall cpu | 0 <= cpu <= i ensures CopyAt(memory[..], t.size, cpu, t.entries) {
        PlaceMonotone(t.size, cpu, i);
        Copied(was, memory[..], t.size, cpu, i, t.entries);
      }
      i := i + 1;
    }
    info := Some(Info(t.category, t.size, t.number, memory[..]));
  }

  lemma Copied(s: seq<Byte>, m: seq<Byte>, size: nat, cpu: nat, i: nat, entries: seq<Byte>)
    requires cpu <= i && 0 < i && CopyAt(s, size, 0, entries) && (cpu < i ==> CopyAt(s, size, cpu, entries))
    requires Place(size, i) + SmpAlign(size) <= |s| && (cpu < i ==> Place(size, cpu) + SmpAlign(size) <= Place(size, i))
    requires m == s[..Place(size, i)] + s[..SmpAlign(size)] + s[Place(size, i) + SmpAlign(size)..]
    ensures CopyAt(m, size, cpu, entries)
  {
    hide Place, SmpAlign;
    assert Place(size, 0) == 0 by { PlaceNext(size, 0); }
    assert size <= SmpAlign(size);
    var p := Place(size, i);
    if cpu < i {
      var c := Place(size, cpu);
      assert m[c..c + size] == s[c..c + size];
    } else {
      assert m[p..p + size] == s[..size];
      assert s[0..0 + size] == s[..size];
    }
  }

  /** From the configuration to a verdict.  The kernel accepts what the compiler makes of complete
      rules exactly if every stored size is other than zero.  If the rules fit, what it accepts
      represents them, and a lookup on any processor finds the first rule that matches.  If one
      does not, what is accepted does not represent them, and the lookup is left undone here. */
  method CompileAndLookup(rules: seq<Rule>, category: nat, cpus: nat, cpu: nat, q: Request)
    returns (accepted: bool, v: Verdict, ghost entries: seq<Byte>)
    requires cpu < cpus && forall r <- rules :: Ascending(r.protos)
    ensures accepted <==> category < 2 && forall r <- rules :: Complete(r) && StoredNext(r) != 0
    ensures accepted ==> (IsTable(entries, rules) <==> forall r <- rules :: Fits(r))
    ensures accepted && (forall r <- rules :: Fits(r)) ==>
              var i := FirstMatch(rules, q, 0);
              v == if i < |rules| then ByRule(rules[i].id, ActionFlags(rules[i].actions)) else NoVerdict
  {
    hide IsTable, Fits, Complete, Ascending, CopyAt, StoredNext, AllCompiled, Glued, U16, ActionFlags;
    entries, v := [], NoVerdict;
    var t;
    ghost var parts;
    t, parts := GenerateTable(rules, true, category);
    if t == None {
      return false, v, entries;
    }
    assert [] + Glued(parts) == Glued(parts);
    CompiledIsWalked(parts, rules, []);
    AllKept(rules);
    var info := TakeTable(t.value, cpus);
    entries := t.value.entries;
    if info == None {
      return false, v, entries;
    }
    accepted := true;
    if forall r :: r in rules ==> Fits(r) {
      v := DoTable(info.value, cpu, q, entries, rules);
    }
  }

  /** An accepted table that does not represent its rules. */
  method AcceptWideRule() returns (accepted: bool, ghost r: Rule, ghost entries: seq<Byte>)
    ensures accepted && Complete(r) && !Fits(r) && !IsTable(entries, [r])
  {
    hide IsTable, Fits, Complete, StoredNext, Ascending;
    var rule := WideRule();
    AscendingIs(rule.protos);
    var v;
    accepted, v, entries := CompileAndLookup([rule], 0, 1, 0, Request(0, {}, 0, {}, 0, {}, {}));
    r := rule;
    assert r in [r];
  }

  lemma AscendingIs(ids: seq<ProtoId>)
    requires forall j, k :: 0 <= j < k < |ids| ==> ids[j] <= ids[k]
    ensures Ascending(ids)
  {
  }
}

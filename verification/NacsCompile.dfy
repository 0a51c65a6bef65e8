/** Compiling rules to their packed form (match_target.c, rule_entry.c).  Sizes and offsets are cut
    to 16 bits as they are stored; the packed form is right exactly for rules whose offsets fit. */
module NacsCompile {
  import opened Basics
  import opened NacsRules
  import opened NacsLayout

  method PutU16(a: array<Byte>, at: nat, v: nat)
    requires at + 2 <= a.Length
    modifies a
    ensures U16(a[..], at) == v % 0x1_0000
    ensures forall k :: 0 <= k < a.Length && k != at && k != at + 1 ==> a[k] == old(a[k])
  {
    var w := v % 0x1_0000;
    a[at] := w % 256;
    a[at + 1] := w / 256;
  }

  method PutU32(a: array<Byte>, at: nat, v: nat)
    requires at + 4 <= a.Length && v < 0x1_0000_0000
    modifies a
    ensures U32(a[..], at) == v
    ensures forall k :: 0 <= k < a.Length && !(at <= k < at + 4) ==> a[k] == old(a[k])
  {
    PutU16(a, at, v);
    PutU16(a, at + 2, v / 0x1_0000);
  }

  /** The head of a flow match: four counts and the size, each cut to 16 bits. */
  ghost predicate FlowHead(h: seq<Byte>, r: Rule, size: nat) {
    && |h| == FLOW_HEAD
    && U16(h, 0) == |r.srcZones| % 0x1_0000 && U16(h, 2) == |r.srcGroups| % 0x1_0000
    && U16(h, 4) == |r.dstZones| % 0x1_0000 && U16(h, 6) == |r.dstGroups| % 0x1_0000
    && U16(h, 8) == size % 0x1_0000
  }

  method PutFlowHead(a: array<Byte>, r: Rule, size: nat)
    requires FLOW_HEAD <= a.Length
    modifies a
    ensures FlowHead(a[..FLOW_HEAD], r, size)
  {
    PutU16(a, 8, size);
    PutU16(a, 0, |r.srcZones|);
    PutU16(a, 2, |r.srcGroups|);
    PutU16(a, 4, |r.dstZones|);
    PutU16(a, 6, |r.dstGroups|);
    HeadOf(a[..], r, size);
  }

  lemma HeadOf(s: seq<Byte>, r: Rule, size: nat)
    requires FLOW_HEAD <= |s|
    requires U16(s, 0) == |r.srcZones| % 0x1_0000 && U16(s, 2) == |r.srcGroups| % 0x1_0000
    requires U16(s, 4) == |r.dstZones| % 0x1_0000 && U16(s, 6) == |r.dstGroups| % 0x1_0000
    requires U16(s, 8) == size % 0x1_0000
    ensures FlowHead(s[..FLOW_HEAD], r, size)
  {
  }

  /** Storing the ids of all four lists, as many of each as its count in the head says. */
  method PutIds(a: array<Byte>, r: Rule)
    requires a.Length == FlowSize(r)
    modifies a
    ensures a[..FLOW_HEAD] == old(a[..FLOW_HEAD])
    ensures FlowSize(r) < 0x1_0000 ==> a[FLOW_HEAD..FLOW_HEAD + |Ids(r, 4)|] == Ids(r, 4)
  {
    hide Ids, Align8;
    NoIds(r);
    var i, offset := 0, 0;
    while i < 4
      invariant 0 <= i <= 4 && offset <= |Ids(r, i)| && FLOW_HEAD + offset <= a.Length
      invariant a[..FLOW_HEAD] == old(a[..FLOW_HEAD])
      invariant FlowSize(r) < 0x1_0000 ==> offset == |Ids(r, i)| && a[FLOW_HEAD..FLOW_HEAD + offset] == Ids(r, i)
    {
      NextIds(r, i);
      var ids := List(r, i);
      var n := |ids| % 0x1_0000;
      Put(a, FLOW_HEAD + offset, ids[..n]);
      offset := offset + n;
      i := i + 1;
    }
  }

  lemma NoIds(r: Rule)
    ensures Ids(r, 0) == [] && FLOW_HEAD <= FlowSize(r)
  {
  }

  lemma NextIds(r: Rule, i: nat)
    requires i < 4
    ensures Ids(r, i + 1) == Ids(r, i) + List(r, i)
    ensures FLOW_HEAD + |Ids(r, i + 1)| <= FlowSize(r)
  {
    IdsParts(r);
  }

  lemma HeadNumber(s: seq<Byte>, n: nat, k: nat)
    requires k + 2 <= n <= |s|
    ensures U16(s[..n], k) == U16(s, k)
  {
  }

  lemma FlowFrom(s: seq<Byte>, r: Rule)
    requires FlowSize(r) < 0x1_0000 && |s| == FlowSize(r) && FLOW_HEAD + |Ids(r, 4)| <= |s|
    requires FlowHead(s[..FLOW_HEAD], r, FlowSize(r)) && s[FLOW_HEAD..FLOW_HEAD + |Ids(r, 4)|] == Ids(r, 4)
    ensures IsFlow(s, r)
  {
    hide U16, Ids, Align8;
    FlowRoom(r);
    HeadNumber(s, FLOW_HEAD, 0);
    HeadNumber(s, FLOW_HEAD, 2);
    HeadNumber(s, FLOW_HEAD, 4);
    HeadNumber(s, FLOW_HEAD, 6);
    HeadNumber(s, FLOW_HEAD, 8);
  }

  lemma FlowRoom(r: Rule)
    ensures FLOW_HEAD + |Ids(r, 4)| <= FlowSize(r)
    ensures |Ids(r, 4)| == |r.srcZones| + |r.srcGroups| + |r.dstZones| + |r.dstGroups|
  {
    IdsParts(r);
  }

  /** generate_flow_match: none if a list is empty. */
  method GenerateFlow(r: Rule) returns (a: array?<Byte>)
    ensures a != null ==> fresh(a)
    ensures a == null <==> r.srcZones == [] || r.srcGroups == [] || r.dstZones == [] || r.dstGroups == []
    ensures a != null ==> a.Length == FlowSize(r) && FLOW_HEAD <= a.Length && U16(a[..], 8) == FlowSize(r) % 0x1_0000
    ensures a != null && FlowSize(r) < 0x1_0000 ==> IsFlow(a[..], r)
  {
    hide IsFlow, Ids, Align8, U16;
    if r.srcZones == [] || r.srcGroups == [] || r.dstZones == [] || r.dstGroups == [] {
      return null;
    }
    FlowRoom(r);
    var elems := |r.srcZones| + |r.srcGroups| + |r.dstZones| + |r.dstGroups|;
    var size := Align8(elems + FLOW_HEAD);
    a := new Byte[size](_ => 0);
    PutFlowHead(a, r, size);
    PutIds(a, r);
    HeadNumber(a[..], FLOW_HEAD, 8);
    if FlowSize(r) < 0x1_0000 {
      FlowFrom(a[..], r);
    }
  }

  lemma ProtoRoom(r: Rule)
    ensures PROTO_HEAD + 4 * |r.protos| <= ProtoSize(r)
  {
  }

  /** generate_proto_match: none if there is no protocol. */
  method GenerateProto(r: Rule) returns (a: array?<Byte>)
    ensures a != null ==> fresh(a)
    ensures a == null <==> r.protos == []
    ensures a != null ==> a.Length == ProtoSize(r) && PROTO_HEAD <= a.Length && U16(a[..], 2) == ProtoSize(r) % 0x1_0000
    ensures a != null ==> U16(a[..], 6) == 0
    ensures a != null && ProtoSize(r) < 0x1_0000 ==> IsProto(a[..], r)
  {
    hide Align8, U16, U32;
    if r.protos == [] {
      return null;
    }
    ProtoRoom(r);
    var size := Align8(4 * |r.protos| + PROTO_HEAD);
    a := new Byte[size](_ => 0);
    ghost var s0 := a[..];
    ZeroU16(s0, 6);
    PutU16(a, 0, |r.protos|);
    ghost var s1 := a[..];
    PutU16(a, 2, size);
    ghost var s2 := a[..];
    PutU16(a, 4, SORT_ASC);
    SameU16(s1, s2, 0);
    SameU16(s1, a[..], 0);
    SameU16(s2, a[..], 2);
    ghost var s3 := a[..];
    PutProtos(a, r);
    SameU16(s3, a[..], 0);
    SameU16(s3, a[..], 2);
    SameU16(s3, a[..], 4);
    SameU16(s0, a[..], 6);
  }

  lemma ZeroU16(s: seq<Byte>, k: nat)
    requires k + 2 <= |s| && s[k] == s[k + 1] == 0
    ensures U16(s, k) == 0
  {
  }

  lemma SameU16(s: seq<Byte>, t: seq<Byte>, k: nat)
    requires k + 2 <= |s| == |t| && s[k] == t[k] && s[k + 1] == t[k + 1]
    ensures U16(s, k) == U16(t, k)
  {
  }

  lemma SameU32(s: seq<Byte>, t: seq<Byte>, k: nat)
    requires k + 4 <= |s| == |t| && s[k..k + 4] == t[k..k + 4]
    ensures U32(s, k) == U32(t, k)
  {
    assert s[k] == s[k..k + 4][0] && s[k + 1] == s[k..k + 4][1] && s[k + 2] == s[k..k + 4][2] && s[k + 3] == s[k..k + 4][3];
    assert t[k] == t[k..k + 4][0] && t[k + 1] == t[k..k + 4][1] && t[k + 2] == t[k..k + 4][2] && t[k + 3] == t[k..k + 4][3];
  }

  /** Storing the protocol ids, as many as the count in the head says. */
  method PutProtos(a: array<Byte>, r: Rule)
    requires a.Length == ProtoSize(r) && PROTO_HEAD <= a.Length && U16(a[..], 0) == |r.protos| % 0x1_0000
    modifies a
    ensures forall k :: 0 <= k < PROTO_HEAD ==> a[k] == old(a[k])
    ensures ProtoSize(r) < 0x1_0000 ==> forall k :: 0 <= k < |r.protos| ==> U32(a[..], PROTO_HEAD + 4 * k) == r.protos[k]
  {
    hide Align8, U16, U32;
    ProtoRoom(r);
    var n := U16(a[..], 0);
    var i := 0;
    while i < n
      invariant 0 <= i <= n
      invariant forall k :: 0 <= k < PROTO_HEAD ==> a[k] == old(a[k])
      invariant forall k :: 0 <= k < i ==> U32(a[..], PROTO_HEAD + 4 * k) == r.protos[k]
    {
      ghost var was := a[..];
      PutU32(a, PROTO_HEAD + 4 * i, r.protos[i]);
      forall k | 0 <= k < i ensures U32(a[..], PROTO_HEAD + 4 * k) == U32(was, PROTO_HEAD + 4 * k) {
        SameU32(was, a[..], PROTO_HEAD + 4 * k);
      }
      i := i + 1;
    }
  }

  predicate HasBit(flags: nat, j: nat)
    requires j < 3
  {
    (if j == 0 then flags else if j == 1 then flags / 2 else flags / 4) % 2 == 1
  }

  /** `flags |= 1 << j` */
  function SetBit(flags: nat, j: nat): nat
    requires j < 3
  {
    if HasBit(flags, j) then flags else flags + (if j == 0 then 1 else if j == 1 then 2 else 4)
  }

  function Bits(b0: bool, b1: bool, b2: bool): nat {
    (if b0 then 1 else 0) + (if b1 then 2 else 0) + (if b2 then 4 else 0)
  }

  lemma BitsOr(b0: bool, b1: bool, b2: bool)
    ensures SetBit(Bits(b0, b1, b2), 0) == Bits(true, b1, b2)
    ensures SetBit(Bits(b0, b1, b2), 1) == Bits(b0, true, b2)
    ensures SetBit(Bits(b0, b1, b2), 2) == Bits(b0, b1, true)
  {
  }

  /** generate_target: none if there is no action. */
  method GenerateTarget(actions: seq<Option<Action>>) returns (a: array?<Byte>)
    ensures a != null ==> fresh(a)
    ensures a == null <==> actions == []
    ensures a != null ==> a.Length == TARGET && U32(a[..], 0) == TARGET && U32(a[..], 4) == ActionFlags(actions)
  {
    if actions == [] {
      return null;
    }
    var flags := 0;
    var i := 0;
    while i < |actions|
      invariant 0 <= i <= |actions|
      invariant flags == ActionFlags(actions[..i])
    {
      ghost var b0, b1, b2 := Some(Accept) in actions[..i], Some(Audit) in actions[..i], Some(Reject) in actions[..i];
      assert actions[..i + 1] == actions[..i] + [actions[i]];
      var j := 0;
      while j < 3
        invariant 0 <= j <= 3
        invariant flags == Bits(b0 || (j > 0 && actions[i] == Some(Accept)), b1 || (j > 1 && actions[i] == Some(Audit)),
                                b2 || (j > 2 && actions[i] == Some(Reject)))
      {
        BitsOr(b0 || (j > 0 && actions[i] == Some(Accept)), b1 || (j > 1 && actions[i] == Some(Audit)), b2);
        if actions[i] == Some(ACTIONS[j]) {
          flags := SetBit(flags, j);
        }
        j := j + 1;
      }
      i := i + 1;
    }
    assert actions[..i] == actions;
    a := new Byte[TARGET](_ => 0);
    PutU32(a, 0, TARGET);
    ghost var was := a[..];
    PutU32(a, 4, flags);
    assert a[..4] == was[..4];
  }

  // ----- Entries -----

  ghost predicate Complete(r: Rule) {
    && r.srcZones != [] && r.srcGroups != [] && r.dstZones != [] && r.dstGroups != []
    && r.protos != [] && r.actions != []
  }

  /** The head of an entry: its id and the offsets of its parts. */
  ghost predicate EntryHead(h: seq<Byte>, r: Rule) {
    && |h| == ENTRY_HEAD
    && U16(h, 0) == r.id && U16(h, 2) == ENTRY_HEAD + FlowSize(r)
    && U16(h, 4) == ENTRY_HEAD + FlowSize(r) + ProtoSize(r) && U16(h, 6) == EntrySize(r)
  }

  method PutEntryHead(a: array<Byte>, id: RuleId, proto: nat, target: nat, next: nat)
    requires ENTRY_HEAD <= a.Length
    modifies a
    ensures U16(a[..ENTRY_HEAD], 0) == id && U16(a[..ENTRY_HEAD], 2) == Cut(proto)
    ensures U16(a[..ENTRY_HEAD], 4) == Cut(target) && U16(a[..ENTRY_HEAD], 6) == Cut(next)
  {
    PutU16(a, 0, id);
    PutU16(a, 2, proto);
    PutU16(a, 4, target);
    PutU16(a, 6, next);
  }

  lemma EntryFrom(s: seq<Byte>, h: seq<Byte>, f: seq<Byte>, p: seq<Byte>, t: seq<Byte>, r: Rule)
    requires s == h + f + p + t && EntryHead(h, r) && IsFlow(f, r) && IsProto(p, r) && IsTarget(t, r)
    ensures IsEntry(s, r)
  {
    hide U16, U32, Align8, Ids;
    assert s[..ENTRY_HEAD] == h;
    HeadNumber(s, ENTRY_HEAD, 0);
    HeadNumber(s, ENTRY_HEAD, 2);
    HeadNumber(s, ENTRY_HEAD, 4);
    HeadNumber(s, ENTRY_HEAD, 6);
    var proto := ENTRY_HEAD + FlowSize(r);
    var target := proto + ProtoSize(r);
    assert s[ENTRY_HEAD..proto] == f;
    assert s[proto..target] == p;
    assert s[target..] == t;
  }

  lemma Parts(r: Rule)
    requires Fits(r)
    ensures FlowSize(r) < 0x1_0000 && ProtoSize(r) < 0x1_0000
    ensures ENTRY_HEAD + FlowSize(r) + ProtoSize(r) + TARGET == EntrySize(r) < 0x1_0000
  {
  }

  lemma Thrice(a: seq<Byte>, f: seq<Byte>, p: seq<Byte>, t: seq<Byte>, b: seq<Byte>, c: seq<Byte>, d: seq<Byte>)
    requires |a| == ENTRY_HEAD + |f| + |p| + |t|
    requires b == a[..ENTRY_HEAD] + f + a[ENTRY_HEAD + |f|..]
    requires c == b[..ENTRY_HEAD + |f|] + p + b[ENTRY_HEAD + |f| + |p|..]
    requires d == c[..ENTRY_HEAD + |f| + |p|] + t + c[|a|..]
    ensures d == a[..ENTRY_HEAD] + f + p + t
  {
    assert b[..ENTRY_HEAD + |f|] == a[..ENTRY_HEAD] + f;
    assert c[..ENTRY_HEAD + |f| + |p|] == a[..ENTRY_HEAD] + f + p;
  }

  lemma PutAside(s: seq<Byte>, at: nat, b: seq<Byte>, t: seq<Byte>, k: nat)
    requires at + |b| <= |s| && t == s[..at] + b + s[at + |b|..] && k + 2 <= |s|
    ensures at >= k + 2 || b == [] ==> U16(t, k) == U16(s, k)
    ensures at == 0 && k + 2 <= |b| ==> U16(t, k) == U16(b, k)
  {
  }

  /** What the third number of the head is after the parts have been copied: a part whose offset has
      been cut to zero is copied over the head. */
  ghost function Overwritten(next: nat, protoOffset: nat, p: seq<Byte>, targetOffset: nat, t: seq<Byte>): nat
    requires |t| == TARGET && (p == [] || PROTO_HEAD <= |p|)
  {
    if targetOffset == 0 then U16(t, 6) else if protoOffset == 0 && p != [] then U16(p, 6) else next
  }

  lemma PutThrice(a: seq<Byte>, f: seq<Byte>, protoOffset: nat, p: seq<Byte>, targetOffset: nat, t: seq<Byte>,
                  b: seq<Byte>, c: seq<Byte>, d: seq<Byte>)
    requires ENTRY_HEAD + |f| <= |a| && protoOffset + |p| <= |a| && targetOffset + |t| <= |a| == |b| == |c| == |d|
    requires |t| == TARGET && (p == [] || PROTO_HEAD <= |p|)
    requires (protoOffset == 0 || protoOffset >= 8) && (targetOffset == 0 || targetOffset >= 8)
    requires b == a[..ENTRY_HEAD] + f + a[ENTRY_HEAD + |f|..]
    requires c == b[..protoOffset] + p + b[protoOffset + |p|..]
    requires d == c[..targetOffset] + t + c[targetOffset + |t|..]
    ensures U16(d, 6) == Overwritten(U16(a, 6), protoOffset, p, targetOffset, t)
    ensures protoOffset == ENTRY_HEAD + |f| && targetOffset == protoOffset + |p| && |a| == targetOffset + |t| ==>
              d == a[..ENTRY_HEAD] + f + p + t
  {
    hide U16;
    PutAside(a, ENTRY_HEAD, f, b, 6);
    PutAside(b, protoOffset, p, c, 6);
    PutAside(c, targetOffset, t, d, 6);
    if protoOffset == ENTRY_HEAD + |f| && targetOffset == protoOffset + |p| && |a| == targetOffset + |t| {
      Thrice(a, f, p, t, b, c, d);
    }
  }

  /** Copies the parts of an entry to their offsets. */
  method PutParts(a: array<Byte>, f: seq<Byte>, protoOffset: nat, p: seq<Byte>, targetOffset: nat, t: seq<Byte>)
    requires ENTRY_HEAD + |f| <= a.Length && protoOffset + |p| <= a.Length && targetOffset + |t| <= a.Length
    requires |t| == TARGET && (p == [] || PROTO_HEAD <= |p|)
    requires (protoOffset == 0 || protoOffset >= 8) && (targetOffset == 0 || targetOffset >= 8)
    modifies a
    ensures U16(a[..], 6) == Overwritten(old(U16(a[..], 6)), protoOffset, p, targetOffset, t)
    ensures protoOffset == ENTRY_HEAD + |f| && targetOffset == protoOffset + |p| && a.Length == targetOffset + |t| ==>
              a[..] == old(a[..ENTRY_HEAD]) + f + p + t
  {
    hide U16;
    ghost var a0 := a[..];
    Put(a, ENTRY_HEAD, f);
    ghost var a1 := a[..];
    Put(a, protoOffset, p);
    ghost var a2 := a[..];
    Put(a, targetOffset, t);
    PutThrice(a0, f, protoOffset, p, targetOffset, t, a1, a2, a[..]);
    hide Overwritten;
  }

  /** The offset of the next entry as it ends up in the head.  Every sum on the way is cut to 16 bits;
      a part whose offset is cut to zero is copied over the head, where it has a zero. */
  function StoredNext(r: Rule): nat {
    var protoOffset := Cut(ENTRY_HEAD + Cut(FlowSize(r)));
    var targetOffset := Cut(protoOffset + Cut(ProtoSize(r)));
    if protoOffset == 0 || targetOffset == 0 then 0 else Cut(targetOffset + TARGET)
  }

  /** A number stored in 16 bits. */
  function Cut(n: nat): nat {
    n % 0x1_0000
  }

  lemma CutFacts(n: nat)
    ensures Cut(n) <= n && Cut(n) < 0x1_0000 && (n < 0x1_0000 ==> Cut(n) == n)
    ensures n % 8 == 0 ==> Cut(n) % 8 == 0 && (Cut(n) == 0 || Cut(n) >= 8)
  {
  }

  /** A rule that does not fit gets an offset that does not lead to the next. */
  lemma NextIsRightExactlyIfItFits(r: Rule)
    ensures StoredNext(r) == EntrySize(r) <==> Fits(r)
  {
    hide Align8, Ids, FlowSize, ProtoSize, Cut;
    CutFacts(FlowSize(r));
    CutFacts(ProtoSize(r));
    CutFacts(ENTRY_HEAD + Cut(FlowSize(r)));
    var protoOffset := Cut(ENTRY_HEAD + Cut(FlowSize(r)));
    CutFacts(protoOffset + Cut(ProtoSize(r)));
    CutFacts(Cut(protoOffset + Cut(ProtoSize(r))) + TARGET);
  }

  lemma SizesAligned(r: Rule)
    ensures FlowSize(r) % 8 == 0 && ProtoSize(r) % 8 == 0
  {
    hide Ids;
  }

  lemma EightMore(a: nat, b: nat)
    requires a % 8 == 0 && b % 8 == 0
    ensures (a + b) % 8 == 0
  {
  }

  /** The sizes and offsets of the parts, cut. */
  lemma CutSums(r: Rule)
    ensures var fs, ps := Cut(FlowSize(r)), Cut(ProtoSize(r));
            var po := Cut(ENTRY_HEAD + fs);
            var to := Cut(po + ps);
            && (ps == 0 || ps >= 8) && (po == 0 || po >= 8) && (to == 0 || to >= 8)
            && po <= ENTRY_HEAD + fs && to <= po + ps && Cut(to + TARGET) <= to + TARGET
            && ps <= ProtoSize(r) && fs <= FlowSize(r)
    ensures StoredNext(r) % 8 == 0 && (StoredNext(r) == 0 || StoredNext(r) >= 8)
  {
    hide FlowSize, ProtoSize, Align8, Ids, Cut;
    SizesAligned(r);
    var fs, ps := Cut(FlowSize(r)), Cut(ProtoSize(r));
    CutFacts(FlowSize(r));
    CutFacts(ProtoSize(r));
    EightMore(ENTRY_HEAD, fs);
    CutFacts(ENTRY_HEAD + fs);
    var po := Cut(ENTRY_HEAD + fs);
    EightMore(po, ps);
    CutFacts(po + ps);
    EightMore(Cut(po + ps), TARGET);
    CutFacts(Cut(po + ps) + TARGET);
  }

  /** The entry, made of its parts. */
  method Assemble(r: Rule, flow: seq<Byte>, proto: seq<Byte>, target: seq<Byte>) returns (a: array<Byte>)
    requires |flow| == FlowSize(r) && |proto| == ProtoSize(r) && 10 <= |flow| && PROTO_HEAD <= |proto| && |target| == TARGET
    requires U16(flow, 8) == Cut(FlowSize(r)) && U16(proto, 2) == Cut(ProtoSize(r))
    requires U16(proto, 6) == 0 && U16(target, 6) == 0
    ensures fresh(a) && ENTRY_HEAD <= a.Length && U16(a[..], 6) == StoredNext(r) <= a.Length
    ensures Fits(r) && IsFlow(flow, r) && IsProto(proto, r) && IsTarget(target, r) ==> IsEntry(a[..], r)
  {
    hide U16, IsFlow, IsProto, IsTarget, IsEntry, FlowSize, ProtoSize, Cut;
    CutSums(r);
    var flowSize, protoSize := U16(flow, 8), U16(proto, 2);
    a := new Byte[ENTRY_HEAD + flowSize + protoSize + TARGET](_ => 0);
    var protoOffset := Cut(ENTRY_HEAD + flowSize);
    var targetOffset := Cut(protoOffset + protoSize);
    PutEntryHead(a, r.id, protoOffset, targetOffset, targetOffset + TARGET);
    ghost var head := a[..ENTRY_HEAD];
    HeadNumber(a[..], ENTRY_HEAD, 6);
    if protoSize > 0 {
      HeadNumber(proto, protoSize, 6);
    }
    PutParts(a, flow[..flowSize], protoOffset, proto[..protoSize], targetOffset, target);
    if Fits(r) && IsFlow(flow, r) && IsProto(proto, r) && IsTarget(target, r) {
      FitsUncut(r);
      assert flow[..flowSize] == flow && proto[..protoSize] == proto;
      EntryFrom(a[..], head, flow, proto, target, r);
    }
  }

  /** Nothing is cut of a rule that fits. */
  lemma FitsUncut(r: Rule)
    requires Fits(r)
    ensures var fs, ps := FlowSize(r), ProtoSize(r);
            && Cut(fs) == fs && Cut(ps) == ps && Cut(ENTRY_HEAD + fs) == ENTRY_HEAD + fs
            && Cut(ENTRY_HEAD + fs + ps) == ENTRY_HEAD + fs + ps
            && Cut(ENTRY_HEAD + fs + ps + TARGET) == ENTRY_HEAD + fs + ps + TARGET == EntrySize(r)
  {
    hide FlowSize, ProtoSize, Cut;
    var fs, ps := FlowSize(r), ProtoSize(r);
    CutFacts(fs);
    CutFacts(ps);
    CutFacts(ENTRY_HEAD + fs);
    CutFacts(ENTRY_HEAD + fs + ps);
    CutFacts(ENTRY_HEAD + fs + ps + TARGET);
  }

  lemma EntryFits(s: seq<Byte>, r: Rule)
    requires IsEntry(s, r)
    ensures Fits(r)
  {
    assert U16(s, 6) == EntrySize(r);
  }

  /** What is made of a rule that is complete: an entry of the rule exactly if it fits. */
  ghost predicate Compiled(e: seq<Byte>, r: Rule) {
    && ENTRY_HEAD <= |e| && U16(e, 6) == StoredNext(r) <= |e|
    && (IsEntry(e, r) <==> Fits(r))
  }

  /** generate_ac_entry: none if a part is missing. */
  method GenerateEntry(r: Rule) returns (a: array?<Byte>)
    ensures a != null ==> fresh(a)
    ensures a == null <==> !Complete(r)
    ensures a != null ==> Compiled(a[..], r)
  {
    hide U16, U32, FlowSize, ProtoSize, IsFlow, IsProto, IsEntry, ActionFlags, StoredNext;
    var flow := GenerateFlow(r);
    if flow == null {
      return null;
    }
    var proto := GenerateProto(r);
    if proto == null {
      return null;
    }
    var target := GenerateTarget(r.actions);
    if target == null {
      return null;
    }
    SmallNumber(target[..], 4);
    a := Assemble(r, flow[..], proto[..], target[..]);
    if Fits(r) {
      Parts(r);
    } else if IsEntry(a[..], r) {
      EntryFits(a[..], r);
    }
  }

  lemma SmallNumber(s: seq<Byte>, k: nat)
    requires k + 4 <= |s| && U32(s, k) < 0x1_0000
    ensures U16(s, k + 2) == 0
  {
  }

  // ----- Tables -----

  /** What goes to the kernel. */
  datatype Table = Table(category: nat, size: nat, number: nat, entries: seq<Byte>)

  /** The entries as far as their stored offsets say, one after the other. */
  function Glued(entries: seq<seq<Byte>>): seq<Byte>
    requires forall e <- entries :: ENTRY_HEAD <= |e| && U16(e, 6) <= |e|
  {
    if entries == [] then [] else entries[0][..U16(entries[0], 6)] + Glued(entries[1..])
  }

  /** glue_entries_to_table */
  method Glue(entries: seq<seq<Byte>>) returns (t: seq<Byte>)
    requires forall e <- entries :: ENTRY_HEAD <= |e| && U16(e, 6) <= |e|
    ensures t == Glued(entries)
  {
    hide U16, Glued;
    var size := GluedSize(entries);
    GluedEnds(entries);
    assert entries[0..] == entries;
    var table := new Byte[size](_ => 0);
    var next: nat, i: nat := 0, 0;
    while i < |entries|
      invariant i <= |entries| && next <= size == table.Length == |Glued(entries)|
      invariant table[..next] + Glued(entries[i..]) == Glued(entries)
    {
      GluedNext(entries, i);
      ghost var was := table[..next];
      next := GlueOne(table, next, entries[i]);
      Regroup(was, entries[i][..U16(entries[i], 6)], Glued(entries[i + 1..]));
      i := i + 1;
    }
    t := table[..];
    assert entries[i..] == entries[|entries|..];
    assert table[..next] + [] == table[..next];
    assert |table[..next]| == |Glued(entries)|;
  }

  lemma Regroup(a: seq<Byte>, b: seq<Byte>, c: seq<Byte>)
    ensures a + (b + c) == a + b + c
  {
  }

  /** Copies one entry, as far as its stored offset says. */
  method GlueOne(table: array<Byte>, from: nat, e: seq<Byte>) returns (next: nat)
    requires ENTRY_HEAD <= |e| && U16(e, 6) <= |e| && from + U16(e, 6) <= table.Length
    modifies table
    ensures next == from + U16(e, 6) && table[..next] == old(table[..from]) + e[..U16(e, 6)]
  {
    hide U16;
    Put(table, from, e[..U16(e, 6)]);
    next := from + U16(e, 6);
  }

  /** The sizes of the entries, added up. */
  method GluedSize(entries: seq<seq<Byte>>) returns (size: nat)
    requires forall e <- entries :: ENTRY_HEAD <= |e| && U16(e, 6) <= |e|
    ensures size == |Glued(entries)|
  {
    hide U16, Glued;
    size := 0;
    GluedEnds(entries);
    assert entries[0..] == entries;
    var i := 0;
    while i < |entries|
      invariant 0 <= i <= |entries| && size + |Glued(entries[i..])| == |Glued(entries)|
    {
      GluedNext(entries, i);
      size := size + U16(entries[i], 6);
      i := i + 1;
    }
  }

  lemma GluedNext(entries: seq<seq<Byte>>, i: nat)
    requires (forall e <- entries :: ENTRY_HEAD <= |e| && U16(e, 6) <= |e|) && i < |entries|
    ensures entries[i] in entries
    ensures Glued(entries[i..]) == entries[i][..U16(entries[i], 6)] + Glued(entries[i + 1..])
  {
    hide U16;
    assert entries[i..][0] == entries[i] && entries[i..][1..] == entries[i + 1..];
  }

  ghost predicate AllCompiled(entries: seq<seq<Byte>>, rules: seq<Rule>) {
    |entries| == |rules| && forall k :: 0 <= k < |rules| ==> Compiled(entries[k], rules[k])
  }

  lemma CompiledGlues(entries: seq<seq<Byte>>, rules: seq<Rule>)
    requires AllCompiled(entries, rules)
    ensures forall e <- entries :: ENTRY_HEAD <= |e| && U16(e, 6) <= |e|
  {
    hide U16, IsEntry, Fits, StoredNext;
    forall e | e in entries ensures ENTRY_HEAD <= |e| && U16(e, 6) <= |e| {
      var k :| 0 <= k < |entries| && entries[k] == e;
      assert Compiled(entries[k], rules[k]);
    }
  }

  lemma SplitAt(s: seq<Byte>, from: nat, e: seq<Byte>, rest: seq<Byte>)
    requires from <= |s| && s[from..] == e + rest
    ensures from + |e| <= |s| && s[from..from + |e|] == e && s[from + |e|..] == rest
  {
    assert s == s[..from] + e + rest;
  }

  /** With a rule that fits, the whole entry comes first. */
  lemma WholeEntry(entries: seq<seq<Byte>>, rules: seq<Rule>, k: nat)
    requires AllCompiled(entries, rules) && k < |rules| && Fits(rules[k])
    requires forall e <- entries :: ENTRY_HEAD <= |e| && U16(e, 6) <= |e|
    ensures |entries| == |rules|
    ensures Glued(entries[k..]) == entries[k] + Glued(entries[k + 1..]) && |entries[k]| == EntrySize(rules[k])
    ensures IsEntry(entries[k], rules[k])
  {
    hide U16, IsEntry, Fits, StoredNext, EntrySize;
    GluedNext(entries, k);
    assert Compiled(entries[k], rules[k]);
    NextOffset(entries[k], rules[k]);
    assert entries[k][..|entries[k]|] == entries[k];
  }

  /** With rules that fit, every entry starts at its offset. */
  lemma {:induction false} GluedAt(entries: seq<seq<Byte>>, rules: seq<Rule>, k: nat)
    requires AllCompiled(entries, rules) && k <= |rules| && forall r <- rules :: Fits(r)
    requires forall e <- entries :: ENTRY_HEAD <= |e| && U16(e, 6) <= |e|
    ensures Offset(rules, k) + |Glued(entries[k..])| == |Glued(entries)|
    ensures Glued(entries)[Offset(rules, k)..] == Glued(entries[k..])
  {
    hide U16, IsEntry, Fits, StoredNext, EntrySize, AllCompiled, Glued;
    if k == 0 {
      assert entries[0..] == entries;
    } else {
      GluedAt(entries, rules, k - 1);
      assert rules[k - 1] in rules;
      WholeEntry(entries, rules, k - 1);
      SplitAt(Glued(entries), Offset(rules, k - 1), entries[k - 1], Glued(entries[k..]));
    }
  }

  /** The table represents the rules exactly if all of them fit. */
  lemma GluedIsTable(entries: seq<seq<Byte>>, rules: seq<Rule>)
    requires AllCompiled(entries, rules)
    requires forall e <- entries :: ENTRY_HEAD <= |e| && U16(e, 6) <= |e|
    ensures IsTable(Glued(entries), rules) <==> forall r <- rules :: Fits(r)
  {
    hide U16, IsEntry, Fits, StoredNext, EntrySize, AllCompiled, Glued;
    if forall r <- rules :: Fits(r) {
      GluedAt(entries, rules, |rules|);
      AllCompiledSize(entries, rules);
      GluedEnds(entries);
      forall k | 0 <= k < |rules| ensures EntryAt(Glued(entries), rules, k) {
        GluedEntry(entries, rules, k);
      }
    }
    if IsTable(Glued(entries), rules) {
      forall r | r in rules ensures Fits(r) {
        var k :| 0 <= k < |rules| && rules[k] == r;
        assert EntryAt(Glued(entries), rules, k);
        EntryFits(Glued(entries)[Offset(rules, k)..Offset(rules, k) + EntrySize(r)], r);
      }
    }
  }

  lemma AllCompiledSize(entries: seq<seq<Byte>>, rules: seq<Rule>)
    requires AllCompiled(entries, rules)
    ensures |entries| == |rules|
  {
  }

  lemma GluedEnds(entries: seq<seq<Byte>>)
    requires forall e <- entries :: ENTRY_HEAD <= |e| && U16(e, 6) <= |e|
    ensures Glued(entries[|entries|..]) == []
  {
    hide U16;
  }

  lemma GluedEntry(entries: seq<seq<Byte>>, rules: seq<Rule>, k: nat)
    requires AllCompiled(entries, rules) && k < |rules| && forall r <- rules :: Fits(r)
    requires forall e <- entries :: ENTRY_HEAD <= |e| && U16(e, 6) <= |e|
    ensures EntryAt(Glued(entries), rules, k)
  {
    hide U16, IsEntry, Fits, StoredNext, EntrySize, AllCompiled, Glued;
    GluedAt(entries, rules, k);
    assert rules[k] in rules;
    WholeEntry(entries, rules, k);
    SplitAt(Glued(entries), Offset(rules, k), entries[k], Glued(entries[k + 1..]));
  }

  lemma NextOffset(e: seq<Byte>, r: Rule)
    requires IsEntry(e, r)
    ensures |e| == EntrySize(r) && 8 <= |e| && U16(e, 6) == EntrySize(r)
  {
  }

  /** A complete rule that does not fit: 16400 protocols.  Its entry is taken for one of 112 bytes. */
  method WideRule() returns (r: Rule)
    ensures Complete(r) && !Fits(r) && EntrySize(r) == 65648 && StoredNext(r) == 112
    ensures forall j, k :: 0 <= j < k < |r.protos| ==> r.protos[j] <= r.protos[k]
  {
    var protos: seq<ProtoId> := seq(16400, i requires 0 <= i < 16400 => i);
    r := Rule(1, [0], [0], [0], [0], protos, [Some(Accept)]);
    IdsParts(r);
    assert |Ids(r, 4)| == 4;
  }

  /** generate_ac_table: nothing if there is no news or a rule lacks a part; an empty table clears
      the rules.  It represents the rules exactly if all of them fit. */
  method GenerateTable(rules: seq<Rule>, updated: bool, category: nat) returns (t: Option<Table>, ghost parts: seq<seq<Byte>>)
    ensures t.Some? <==> updated && forall r <- rules :: Complete(r)
    ensures t.Some? ==>
              && t.value.category == category && t.value.number == |rules| && t.value.size == |t.value.entries|
              && (IsTable(t.value.entries, rules) <==> forall r <- rules :: Fits(r))
    ensures t.Some? ==>
              && AllCompiled(parts, rules) && (forall e <- parts :: ENTRY_HEAD <= |e| && U16(e, 6) <= |e|)
              && t.value.entries == Glued(parts)
  {
    hide IsEntry, Fits, Complete, Compiled, U16, Glued;
    parts := [];
    if !updated {
      return None, parts;
    }
    if rules == [] {
      GluedEnds([]);
      GluedIsTable([], []);
      return Some(Table(category, 0, 0, [])), parts;
    }
    var entries: seq<seq<Byte>> := [];
    var i := 0;
    while i < |rules|
      invariant 0 <= i <= |rules| && |entries| == i
      invariant forall k :: 0 <= k < i ==> Complete(rules[k]) && Compiled(entries[k], rules[k])
    {
      var e := GenerateEntry(rules[i]);
      if e == null {
        assert !Complete(rules[i]) && rules[i] in rules;
        return None, parts;
      }
      entries := entries + [e[..]];
      i := i + 1;
    }
    parts := entries;
    CompiledGlues(entries, rules);
    GluedIsTable(entries, rules);
    var bytes := Glue(entries);
    t := Some(Table(category, |bytes|, |entries|, bytes));
  }
}

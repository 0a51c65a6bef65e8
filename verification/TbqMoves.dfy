/** When a flow moves: whether its deficit starts within its quantum (tbq_core.c:752-760, 816-837).
    The weight is stored after the deficit has been set, so the deficit is worth the weight of the
    flow's last parking. */
module TbqMoves {
  import opened Basics
  import opened Sums
  import TbqToken
  import opened TbqDrr
  import opened TbqState
  import opened TbqOps
  import opened TbqKeep

  lemma AttachStarts(net: Net, st: State, f: FlowId, rule: nat)
    requires f in st.flows && Known(net, st, net.UserOf(f, rule)) && f !in st.users[net.UserOf(f, rule)].units.order
    ensures var v := net.UserOf(f, rule);
            var to := FlowAttach(net, st, f, rule);
            v in to.users && (InQuantum(to.users[v].units, f) <==> st.flows[f].weight <= net.weight(f, rule))
  {
    AttachInQuantum(st.users[net.UserOf(f, rule)].units, f, st.flows[f].weight, net.weight(f, rule));
  }

  /** A flow that moves to the controller that blocks it starts within its quantum exactly if it
      weighs no less there than where it was. */
  lemma SwitchInQuantum(net: Net, st: State, f: FlowId, rule: nat, busy: Option<Ctl>)
    requires Inv(net, st, busy) && Parked(net, st, f) && Blocks(net, st, f, rule) && st.flows[f].parked != Some(rule)
    ensures Known(net, st, net.UserOf(f, rule))
    ensures var v := net.UserOf(f, rule);
            var to := Switch(net, st, f, rule);
            v in to.users
            && (InQuantum(to.users[v].units, f) <==> net.weight(f, st.flows[f].parked.value) <= net.weight(f, rule))
  {
    hide Inv, InQuantum, FlowAttach, FlowDetach;
    DetachKeeps(net, st, f, busy);
    BlocksAfterDetach(net, st, f, rule);
    DetachEffect(net, st, f);
    LooseNowhere(net, FlowDetach(net, st, f), f, net.UserOf(f, rule), busy);
    HostWeight(net, st, f, busy);
    AttachStarts(net, FlowDetach(net, st, f), f, rule);
  }

  lemma HostWeight(net: Net, st: State, f: FlowId, busy: Option<Ctl>)
    requires Inv(net, st, busy) && Parked(net, st, f)
    ensures st.flows[f].weight == net.weight(f, st.flows[f].parked.value)
  {
    assert FlowOk(net, st, f);
  }

  lemma LooseNowhere(net: Net, st: State, f: FlowId, u: UserId, busy: Option<Ctl>)
    requires Loose(net, st, f, busy) && u in st.users
    ensures f !in st.users[u].units.order
  {
    assert UserOk(net, st, u);
  }

  /** A flow that parks with its first packet starts within its quantum exactly if it weighs no less
      there than at its last parking. */
  lemma EnqueueFirstInQuantum(net: Net, st: State, f: FlowId, rule: nat, p: Packet, busy: Option<Ctl>)
    requires Inv(net, st, busy) && f in st.flows && st.flows[f].packets == [] && Blocks(net, st, f, rule)
    ensures Known(net, st, net.UserOf(f, rule))
    ensures var v := net.UserOf(f, rule);
            var to := EnqueueFirst(net, st, f, rule, p);
            v in to.users
            && (InQuantum(to.users[v].units, f) <==> st.flows[f].weight <= net.weight(f, rule))
  {
    hide Inv, InQuantum;
    Unparked(net, st, f, net.UserOf(f, rule), busy);
    AttachStarts(net, st, f, rule);
  }

  lemma Unparked(net: Net, st: State, f: FlowId, u: UserId, busy: Option<Ctl>)
    requires Inv(net, st, busy) && f in st.flows && st.flows[f].packets == [] && u in st.users
    ensures f !in st.users[u].units.order
  {
    assert UserOk(net, st, u) && FlowOk(net, st, f);
  }

  // ----- A flow that starts above its quantum -----

  ghost function HeavyNet(): Net {
    Net({0}, {UserId(0, 0), UserId(0, 1)}, {BucketId(0, 0), BucketId(0, 1)},
        f => 0, l => 0, f => {0, 1}, (f, r) => if r == 0 then 2 else 1, u => 1)
  }

  ghost function HeavyState(): State {
    var asleep, awake := TbqToken.Token(0, 1, 1, true), TbqToken.Token(0, 1, 1, false);
    var parked := Drr([0], map[0 := 2 * QUANTUM], map[0 := 2]);
    var C := Bucket(awake, Empty(), 100, 1);
    State(
      map[0 := Flow([Packet(0, 100)], 100, Some(0), 2)],
      map[UserId(0, 0) := User(asleep, parked, 100, 2, false, 100), UserId(0, 1) := User(asleep, Empty(), 100, 1, false, 0)],
      map[BucketId(0, 0) := C, BucketId(0, 1) := C])
  }

  lemma OneTerm<K(!new)>(k: K, g: K -> int)
    ensures Sum({k}, g) == g(k)
  {
    SumRemove({k}, g, k);
    assert {k} - {k} == {};
  }

  lemma TwoTerms<K(!new)>(a: K, b: K, g: K -> int)
    requires a != b
    ensures Sum({a, b}, g) == g(a) + g(b)
  {
    SumRemove({a, b}, g, a);
    assert {a, b} - {a} == {b};
    OneTerm(b, g);
  }

  lemma HeavyUserCounts(u: UserId)
    requires u in HeavyState().users
    ensures UserCounts(HeavyNet(), HeavyState().flows, u, HeavyState().users[u])
  {
    var net, flows := HeavyNet(), HeavyState().flows;
    assert Length([Packet(0, 100)]) == 100;
    OneTerm<FlowId>(0, (f: FlowId) => if ParkedAt(net, flows, f, u) then flows[f].octets else 0);
    OneTerm<FlowId>(0, (f: FlowId) => if f in flows && net.Matches(f, u) then flows[f].octets else 0);
    OneTerm<FlowId>(0, (f: FlowId) => if f in flows && net.Matches(f, u) && flows[f].packets != [] then net.weight(f, u.rule) else 0);
  }

  lemma HeavyBucketCounts(b: BucketId)
    requires b in HeavyState().buckets
    ensures BucketCounts(HeavyNet(), HeavyState().users, b, HeavyState().buckets[b])
  {
    var net, users := HeavyNet(), HeavyState().users;
    TwoTerms(UserId(0, 0), UserId(0, 1), u => if u in users && net.BucketOf(u) == b then users[u].octets else 0);
    TwoTerms(UserId(0, 0), UserId(0, 1),
             u => if u in users && net.BucketOf(u) == b && users[u].octets != 0 then net.userWeight(u) else 0);
  }

  lemma HeavyNetValid()
    ensures HeavyNet().Valid() && Domains(HeavyNet(), HeavyState())
  {
    assert HeavyState().flows.Keys == {0};
    assert HeavyState().users.Keys == {UserId(0, 0), UserId(0, 1)};
    assert HeavyState().buckets.Keys == {BucketId(0, 0), BucketId(0, 1)};
  }

  lemma HeavyFlow(f: FlowId)
    requires f in HeavyState().flows
    ensures FlowOk(HeavyNet(), HeavyState(), f)
  {
    assert Length([Packet(0, 100)]) == 100;
    assert HeavyState().users[UserId(0, 0)].units.order == [0];
  }

  lemma HeavyUser(u: UserId)
    requires u in HeavyState().users
    ensures UserOk(HeavyNet(), HeavyState(), u) && UserProgress(HeavyNet(), HeavyState(), u, None)
  {
  }

  lemma HeavyBucket(b: BucketId)
    requires b in HeavyState().buckets
    ensures BucketOk(HeavyNet(), HeavyState(), b)
  {
  }

  lemma HeavyStructure()
    ensures Structure(HeavyNet(), HeavyState(), None)
  {
    hide HeavyNet, HeavyState, FlowOk, UserOk, BucketOk, UserProgress, Domains, Net.Valid;
    HeavyNetValid();
    forall f | f in HeavyState().flows ensures FlowOk(HeavyNet(), HeavyState(), f) {
      HeavyFlow(f);
    }
    forall u | u in HeavyState().users
      ensures UserOk(HeavyNet(), HeavyState(), u) && UserProgress(HeavyNet(), HeavyState(), u, None)
    {
      HeavyUser(u);
    }
    forall b | b in HeavyState().buckets ensures BucketOk(HeavyNet(), HeavyState(), b) {
      HeavyBucket(b);
    }
  }

  /** There is such a move: a flow of weight 2 under one rule and 1 under another is parked under the
      first, both users sleep, and it moves to the second. */
  lemma MoveAboveQuantum()
    ensures var net, st := HeavyNet(), HeavyState();
            && Inv(net, st, None) && Parked(net, st, 0) && Blocks(net, st, 0, 1) && st.flows[0].parked != Some(1)
            && UserId(0, 1) in Switch(net, st, 0, 1).users
            && !InQuantum(Switch(net, st, 0, 1).users[UserId(0, 1)].units, 0)
  {
    var net, st := HeavyNet(), HeavyState();
    HeavyStructure();
    HeavyCounts();
    StructureAndCounts(net, st, None);
    HeavyMove();
    hide Inv, Switch, InQuantum;
    SwitchInQuantum(net, st, 0, 1, None);
  }

  lemma HeavyCounts()
    ensures CountsOk(HeavyNet(), HeavyState())
  {
    hide UserCounts, BucketCounts, HeavyNet, HeavyState;
    forall u | u in HeavyState().users ensures UserCounts(HeavyNet(), HeavyState().flows, u, HeavyState().users[u]) {
      HeavyUserCounts(u);
    }
    forall b | b in HeavyState().buckets ensures BucketCounts(HeavyNet(), HeavyState().users, b, HeavyState().buckets[b]) {
      HeavyBucketCounts(b);
    }
  }

  lemma HeavyMove()
    ensures var net, st := HeavyNet(), HeavyState();
            && Parked(net, st, 0) && Blocks(net, st, 0, 1) && st.flows[0].parked == Some(0)
            && net.weight(0, 0) == 2 && net.weight(0, 1) == 1 && net.UserOf(0, 1) == UserId(0, 1)
  {
  }
}

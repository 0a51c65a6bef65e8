/** Conservation: how the counters follow a change to one flow. */
module TbqCounts {
  import opened Basics
  import opened Sums
  import opened TbqState

  // ----- One flow changes -----

  lemma QueuedChange(net: Net, flows: map<FlowId, Flow>, f: FlowId, F: Flow, u: UserId)
    requires f in flows && f in net.flows
    ensures QueuedAt(net, flows[f := F], u)
            == QueuedAt(net, flows, u) - (if ParkedAt(net, flows, f, u) then flows[f].octets else 0)
               + (if ParkedAt(net, flows[f := F], f, u) then F.octets else 0)
  {
    var to := flows[f := F];
    SumChange(net.flows, x => if ParkedAt(net, flows, x, u) then flows[x].octets else 0,
              x => if ParkedAt(net, to, x, u) then to[x].octets else 0, f);
  }

  lemma OctetsChange(net: Net, flows: map<FlowId, Flow>, f: FlowId, F: Flow, u: UserId)
    requires f in flows && f in net.flows
    ensures OctetsAt(net, flows[f := F], u)
            == OctetsAt(net, flows, u) + (if net.Matches(f, u) then F.octets - flows[f].octets else 0)
  {
    var to := flows[f := F];
    SumChange(net.flows, x => if x in flows && net.Matches(x, u) then flows[x].octets else 0,
              x => if x in to && net.Matches(x, u) then to[x].octets else 0, f);
  }

  lemma WeightChange(net: Net, flows: map<FlowId, Flow>, f: FlowId, F: Flow, u: UserId)
    requires f in flows && f in net.flows
    ensures WeightAt(net, flows[f := F], u)
            == WeightAt(net, flows, u)
               - (if net.Matches(f, u) && flows[f].packets != [] then net.weight(f, u.rule) else 0)
               + (if net.Matches(f, u) && F.packets != [] then net.weight(f, u.rule) else 0)
  {
    var to := flows[f := F];
    SumChange(net.flows,
              x => if x in flows && net.Matches(x, u) && flows[x].packets != [] then net.weight(x, u.rule) else 0,
              x => if x in to && net.Matches(x, u) && to[x].packets != [] then net.weight(x, u.rule) else 0, f);
  }

  lemma PacketCountChange(net: Net, flows: map<FlowId, Flow>, f: FlowId, F: Flow)
    requires f in flows && f in net.flows
    ensures PacketCount(net, flows[f := F]) == PacketCount(net, flows) - |flows[f].packets| + |F.packets|
  {
    var to := flows[f := F];
    SumChange(net.flows, x => if x in flows then |flows[x].packets| else 0, x => if x in to then |to[x].packets| else 0, f);
  }

  // ----- One user of a bucket changes -----

  /** Two user maps that differ, as far as bucket `b` is concerned, at `u` only. */
  ghost predicate DifferAt(net: Net, users: map<UserId, User>, to: map<UserId, User>, b: BucketId, u: UserId) {
    && users.Keys == to.Keys == net.users && u in users && net.BucketOf(u) == b
    && forall x :: x in users && x != u && net.BucketOf(x) == b ==> users[x].octets == to[x].octets
  }

  lemma BucketSumsChange(net: Net, users: map<UserId, User>, to: map<UserId, User>, b: BucketId, u: UserId)
    requires DifferAt(net, users, to, b, u)
    ensures BucketOctets(net, to, b) == BucketOctets(net, users, b) - users[u].octets + to[u].octets
    ensures BucketWeight(net, to, b) == BucketWeight(net, users, b)
                                        - (if users[u].octets != 0 then net.userWeight(u) else 0)
                                        + (if to[u].octets != 0 then net.userWeight(u) else 0)
  {
    SumChange(net.users, x => if x in users && net.BucketOf(x) == b then users[x].octets else 0,
              x => if x in to && net.BucketOf(x) == b then to[x].octets else 0, u);
    SumChange(net.users,
              x => if x in users && net.BucketOf(x) == b && users[x].octets != 0 then net.userWeight(x) else 0,
              x => if x in to && net.BucketOf(x) == b && to[x].octets != 0 then net.userWeight(x) else 0, u);
  }

  lemma BucketSumsSame(net: Net, users: map<UserId, User>, to: map<UserId, User>, b: BucketId)
    requires users.Keys == to.Keys == net.users
    requires forall x :: x in users && net.BucketOf(x) == b ==> users[x].octets == to[x].octets
    ensures BucketOctets(net, to, b) == BucketOctets(net, users, b)
    ensures BucketWeight(net, to, b) == BucketWeight(net, users, b)
  {
    SumSame(net.users, x => if x in users && net.BucketOf(x) == b then users[x].octets else 0,
            x => if x in to && net.BucketOf(x) == b then to[x].octets else 0);
    SumSame(net.users,
            x => if x in users && net.BucketOf(x) == b && users[x].octets != 0 then net.userWeight(x) else 0,
            x => if x in to && net.BucketOf(x) == b && to[x].octets != 0 then net.userWeight(x) else 0);
  }

  // ----- Consequences -----

  /** A flow's octets are part of what its users count. */
  lemma CountsCover(net: Net, st: State, f: FlowId, u: UserId)
    requires Domains(net, st) && FlowsOk(net, st) && f in st.flows && u in st.users
    requires UserCounts(net, st.flows, u, st.users[u])
    ensures net.Matches(f, u) ==> st.flows[f].octets <= st.users[u].octets
    ensures ParkedAt(net, st.flows, f, u) ==> st.flows[f].octets <= st.users[u].queued
    ensures net.Matches(f, u) && st.flows[f].packets != [] ==> net.weight(f, u.rule) <= st.users[u].weight
  {
    assert forall x :: x in st.flows ==> 0 <= st.flows[x].octets by {
      forall x | x in st.flows ensures 0 <= st.flows[x].octets { assert FlowOk(net, st, x); }
    }
    SumsCover(net, st.flows, f, u);
  }

  lemma SumsCover(net: Net, flows: map<FlowId, Flow>, f: FlowId, u: UserId)
    requires flows.Keys == net.flows && f in flows && forall x :: x in flows ==> 0 <= flows[x].octets
    ensures net.Matches(f, u) ==> flows[f].octets <= OctetsAt(net, flows, u)
    ensures ParkedAt(net, flows, f, u) ==> flows[f].octets <= QueuedAt(net, flows, u)
    ensures net.Matches(f, u) && flows[f].packets != [] ==> net.weight(f, u.rule) <= WeightAt(net, flows, u)
  {
    SumAtLeast(net.flows, x => if x in flows && net.Matches(x, u) then flows[x].octets else 0, f);
    SumAtLeast(net.flows, x => if ParkedAt(net, flows, x, u) then flows[x].octets else 0, f);
    SumAtLeast(net.flows, x => if x in flows && net.Matches(x, u) && flows[x].packets != [] then net.weight(x, u.rule) else 0, f);
  }

  /** A user's unit is empty exactly when no flow is parked under it. */
  lemma QueuedIsZero(net: Net, st: State, u: UserId)
    requires Domains(net, st) && FlowsOk(net, st) && u in st.users
    requires forall f :: f in st.users[u].units.order ==> ParkedAt(net, st.flows, f, u)
    requires st.users[u].queued == QueuedAt(net, st.flows, u)
    ensures st.users[u].queued == 0 <==> st.users[u].units.order == []
    ensures 0 <= st.users[u].queued
  {
    var V := st.users[u];
    var g := f => if ParkedAt(net, st.flows, f, u) then st.flows[f].octets else 0;
    forall x | x in st.flows
      ensures 0 <= st.flows[x].octets && (st.flows[x].parked.Some? ==> 0 < st.flows[x].octets)
      ensures ParkedAt(net, st.flows, x, u) ==> x in V.units.order
    {
      assert FlowOk(net, st, x);
      if st.flows[x].parked.Some? { LengthPositive(st.flows[x].packets); }
    }
    SumNonNegative(net.flows, g);
    if V.units.order == [] {
      SumZero(net.flows, g);
    } else {
      assert V.units.order[0] in V.units.order;
      SumAtLeast(net.flows, g, V.units.order[0]);
    }
  }

  /** A flow's counters agree with its queue. */
  ghost predicate Tidy(flows: map<FlowId, Flow>) {
    forall f :: f in flows ==> 0 <= flows[f].octets && (flows[f].octets == 0 <==> flows[f].packets == [])
  }

  lemma InvTidy(net: Net, st: State, busy: Option<Ctl>)
    requires Inv(net, st, busy)
    ensures Tidy(st.flows)
  {
    hide CountsOk, UsersOk, BucketsOk, Progress;
    forall f | f in st.flows
      ensures 0 <= st.flows[f].octets && (st.flows[f].octets == 0 <==> st.flows[f].packets == [])
    {
      assert FlowOk(net, st, f);
      if st.flows[f].packets != [] { LengthPositive(st.flows[f].packets); }
    }
  }

  /** No octets, no weight. */
  lemma NoOctetsNoWeight(net: Net, flows: map<FlowId, Flow>, u: UserId)
    requires flows.Keys == net.flows && Tidy(flows) && OctetsAt(net, flows, u) == 0
    ensures WeightAt(net, flows, u) == 0
    ensures forall f :: f in flows && net.Matches(f, u) ==> flows[f].packets == []
  {
    forall f | f in flows && net.Matches(f, u) ensures flows[f].packets == [] {
      SumAtLeast(net.flows, x => if x in flows && net.Matches(x, u) then flows[x].octets else 0, f);
    }
    SumZero(net.flows, x => if x in flows && net.Matches(x, u) && flows[x].packets != [] then net.weight(x, u.rule) else 0);
  }

  /** The checks of tbq_user_backlog_update (tbq_core.c:526-541) never fire: an account that is
      empty before has no weight and grows with a flow that has just become backlogged; one that
      is empty after has no weight left and shrinks with a flow that has just been emptied. */
  lemma AccountingChecksHold(net: Net, st: State, f: FlowId, G: Flow, u: UserId, busy: Option<Ctl>)
    requires Inv(net, st, busy) && f in st.flows && u in st.users && net.Matches(f, u)
    requires 0 <= G.octets && (G.octets == 0 <==> G.packets == []) && G.octets != st.flows[f].octets
    ensures var F, V := st.flows[f], st.users[u];
            var delta := G.octets - F.octets;
            && (V.octets == 0 ==> V.weight == 0 && F.packets == [] && G.packets != [] && delta > 0)
            && (V.octets + delta == 0 ==>
                  V.weight == net.weight(f, u.rule) && F.packets != [] && G.packets == [] && delta < 0)
  {
    hide QueuedAt, OctetsAt, WeightAt, FlowsOk, UsersOk, BucketsOk, Progress;
    var F, V := st.flows[f], st.users[u];
    assert UserCounts(net, st.flows, u, V);
    InvTidy(net, st, busy);
    OctetsChange(net, st.flows, f, G, u);
    WeightChange(net, st.flows, f, G, u);
    if V.octets == 0 {
      NoOctetsNoWeight(net, st.flows, u);
    }
    if V.octets + G.octets - F.octets == 0 {
      NoOctetsNoWeight(net, st.flows[f := G], u);
    }
  }
}

/** Drop ceilings: how much of what a controller lets wait each of its units may have. */
module TbqCeiling {
  import opened Basics
  import opened Sums
  import opened TbqToken
  import opened TbqState
  import opened TbqCounts

  /** tbq_backlog_max_octets (tbq_core.c:736-750): a unit's share of what its controller lets wait. */
  function Share(ceiling: nat, total: nat, weight: nat): nat
    requires 0 < total
  {
    ceiling / total * weight + ceiling % total * weight / total
  }

  lemma ShareIsFloor(ceiling: nat, total: nat, weight: nat)
    requires 0 < total
    ensures Share(ceiling, total, weight) * total <= ceiling * weight
  {
    var q, r := ceiling / total, ceiling % total;
    assert ceiling == total * q + r;
    var part := r * weight / total;
    assert part * total <= r * weight;
    assert (q * weight + part) * total == q * weight * total + part * total;
    assert ceiling * weight == total * q * weight + r * weight;
  }

  ghost function ShareTerm<K(!new)>(ceiling: nat, total: nat, w: K -> nat): K -> int
    requires 0 < total
  {
    (k: K) => Share(ceiling, total, w(k))
  }

  ghost function WeightTerm<K(!new)>(w: K -> nat): K -> int {
    (k: K) => w(k)
  }

  lemma TermsAt<K(!new)>(ceiling: nat, total: nat, w: K -> nat, k: K)
    requires 0 < total
    ensures ShareTerm(ceiling, total, w)(k) * total <= ceiling * WeightTerm(w)(k)
  {
    ShareIsFloor(ceiling, total, w(k));
  }

  lemma {:induction false} SharesScaled<K(!new)>(ks: set<K>, w: K -> nat, ceiling: nat, total: nat)
    requires 0 < total
    ensures Sum(ks, ShareTerm(ceiling, total, w)) * total <= ceiling * Sum(ks, WeightTerm(w))
  {
    hide ShareTerm, WeightTerm;
    var g, h := ShareTerm(ceiling, total, w), WeightTerm(w);
    if ks != {} {
      var k :| k in ks;
      TermsAt(ceiling, total, w, k);
      SumRemove(ks, g, k);
      SumRemove(ks, h, k);
      SharesScaled(ks - {k}, w, ceiling, total);
      ScaledStep(g(k), Sum(ks - {k}, g), h(k), Sum(ks - {k}, h), ceiling, total);
    }
  }

  lemma ScaledStep(a: int, b: int, c: int, d: int, ceiling: int, total: int)
    requires a * total <= ceiling * c && b * total <= ceiling * d
    ensures (a + b) * total <= ceiling * (c + d)
  {
    assert (a + b) * total == a * total + b * total;
    assert ceiling * (c + d) == ceiling * c + ceiling * d;
  }

  lemma AtMost(a: int, ceiling: nat, sum: int, total: nat)
    requires 0 < total && a * total <= ceiling * sum && sum <= total
    ensures a <= ceiling
  {
    MulMono(sum, total, ceiling);
    assert total * (ceiling + 1) == ceiling * total + total;
    if a > ceiling {
      MulMono(ceiling + 1, a, total);
    }
  }

  /** The shares of units whose weights do not exceed the total add up to no more than the ceiling. */
  lemma SharesWithin<K(!new)>(ks: set<K>, w: K -> nat, ceiling: nat, total: nat)
    requires 0 < total && Sum(ks, WeightTerm(w)) <= total
    ensures Sum(ks, ShareTerm(ceiling, total, w)) <= ceiling
  {
    hide Share, WeightTerm, ShareTerm;
    SharesScaled(ks, w, ceiling, total);
    AtMost(Sum(ks, ShareTerm(ceiling, total, w)), ceiling, Sum(ks, WeightTerm(w)), total);
  }

  function WeightOf(flows: map<FlowId, Flow>): FlowId -> nat {
    f => if f in flows then flows[f].weight else 0
  }

  ghost function ParkedUnder(net: Net, st: State, u: UserId): set<FlowId> {
    set f | f in st.flows && ParkedAt(net, st.flows, f, u)
  }

  lemma ParkedTerm(net: Net, st: State, u: UserId, f: FlowId)
    requires f in st.flows && FlowOk(net, st, f) && ParkedAt(net, st.flows, f, u)
    ensures st.flows[f].packets != [] && net.Matches(f, u) && WeightTerm<FlowId>(WeightOf(st.flows))(f) == net.weight(f, u.rule)
  {
  }

  /** The flows parked under a user weigh no more than the user's backlog does. */
  lemma ParkedWeight(net: Net, st: State, u: UserId)
    requires Domains(net, st) && FlowsOk(net, st) && u in st.users && UserCounts(net, st.flows, u, st.users[u])
    ensures Sum(ParkedUnder(net, st, u), WeightTerm<FlowId>(WeightOf(st.flows))) <= st.users[u].weight
  {
    hide QueuedAt, OctetsAt, WeightTerm, WeightOf, FlowOk, WeightAt;
    forall f | f in ParkedUnder(net, st, u)
      ensures st.flows[f].packets != [] && net.Matches(f, u) && WeightTerm<FlowId>(WeightOf(st.flows))(f) == net.weight(f, u.rule)
    {
      ParkedTerm(net, st, u, f);
    }
    PartOfWeight(net, st.flows, u, ParkedUnder(net, st, u), WeightTerm<FlowId>(WeightOf(st.flows)));
  }

  lemma PartOfWeight(net: Net, flows: map<FlowId, Flow>, u: UserId, some: set<FlowId>, g: FlowId -> int)
    requires some <= net.flows && some <= flows.Keys
    requires forall f :: f in some ==> net.Matches(f, u) && flows[f].packets != [] && g(f) == net.weight(f, u.rule)
    ensures Sum(some, g) <= WeightAt(net, flows, u)
  {
    SumSame(some, g, f => if f in flows && net.Matches(f, u) && flows[f].packets != [] then net.weight(f, u.rule) else 0);
    SumSubset(some, net.flows,
              f => if f in flows && net.Matches(f, u) && flows[f].packets != [] then net.weight(f, u.rule) else 0);
  }

  /** Drop ceilings: the flows parked under a user are together allowed no more than the user is. */
  lemma CeilingsWithin(net: Net, st: State, u: UserId, busy: Option<Ctl>, ceiling: nat)
    requires Inv(net, st, busy) && u in st.users && 0 < st.users[u].weight
    ensures Sum(ParkedUnder(net, st, u), ShareTerm<FlowId>(ceiling, st.users[u].weight, WeightOf(st.flows))) <= ceiling
  {
    hide QueuedAt, OctetsAt, WeightAt, Share, ShareTerm, WeightTerm, WeightOf;
    assert UserCounts(net, st.flows, u, st.users[u]);
    ParkedWeight(net, st, u);
    SharesWithin<FlowId>(ParkedUnder(net, st, u), WeightOf(st.flows), ceiling, st.users[u].weight);
  }

  // ----- The units of a bucket -----

  ghost function AttachedTo(st: State, b: BucketId): set<UserId>
    requires b in st.buckets
  {
    set u | u in st.buckets[b].units.order
  }

  lemma AttachedCounts(net: Net, st: State, b: BucketId, u: UserId, busy: Option<Ctl>)
    requires Inv(net, st, busy) && b in st.buckets && u in st.buckets[b].units.order
    ensures u in st.users && net.BucketOf(u) == b && st.users[u].octets != 0
  {
    hide QueuedAt, OctetsAt, WeightAt, BucketOctets, BucketWeight;
    assert BucketOk(net, st, b);
    assert UserOk(net, st, u);
    var f := st.users[u].units.order[0];
    assert f in st.users[u].units.order;
    assert ParkedAt(net, st.flows, f, u) && FlowOk(net, st, f);
    LengthPositive(st.flows[f].packets);
    CountsCover(net, st, f, u);
  }

  lemma AttachedWeight(net: Net, st: State, b: BucketId, busy: Option<Ctl>)
    requires Inv(net, st, busy) && b in st.buckets
    ensures Sum(AttachedTo(st, b), WeightTerm(net.userWeight)) <= BucketWeight(net, st.users, b)
  {
    hide Inv;
    var g: UserId -> int := u => if u in st.users && net.BucketOf(u) == b && st.users[u].octets != 0 then net.userWeight(u) else 0;
    forall u | u in AttachedTo(st, b) ensures u in st.users && WeightTerm(net.userWeight)(u) == g(u) {
      AttachedCounts(net, st, b, u, busy);
    }
    UsersInNet(net, st, busy);
    SumSame(AttachedTo(st, b), WeightTerm(net.userWeight),
            u => if u in st.users && net.BucketOf(u) == b && st.users[u].octets != 0 then net.userWeight(u) else 0);
    SumSubset(AttachedTo(st, b), net.users,
              u => if u in st.users && net.BucketOf(u) == b && st.users[u].octets != 0 then net.userWeight(u) else 0);
  }

  lemma UsersInNet(net: Net, st: State, busy: Option<Ctl>)
    requires Inv(net, st, busy)
    ensures st.users.Keys == net.users
    ensures forall b :: b in st.buckets ==> st.buckets[b].weight == BucketWeight(net, st.users, b)
  {
    hide BucketWeight, BucketOctets;
    forall b | b in st.buckets ensures st.buckets[b].weight == BucketWeight(net, st.users, b) {
      assert BucketCounts(net, st.users, b, st.buckets[b]);
    }
  }

  /** ... and so are the users attached to a bucket. */
  lemma BucketCeilingsWithin(net: Net, st: State, b: BucketId, busy: Option<Ctl>, ceiling: nat)
    requires Inv(net, st, busy) && b in st.buckets && 0 < st.buckets[b].weight
    ensures Sum(AttachedTo(st, b), ShareTerm(ceiling, st.buckets[b].weight, net.userWeight)) <= ceiling
  {
    hide Inv, Share, ShareTerm, WeightTerm, BucketWeight;
    AttachedWeight(net, st, b, busy);
    UsersInNet(net, st, busy);
    SharesWithin(AttachedTo(st, b), net.userWeight, ceiling, st.buckets[b].weight);
  }
}

/** The state of the traffic scheduler: flows with queued packets, per-user and shared controllers,
    and the timer wheel, with the invariants that every step keeps.

    A lane is one user in one direction.  A flow belongs to a lane and matches a set of rules; for
    each of them its packets are charged to the user's controller and to the bucket shared by all
    users of that direction.  A flow with queued packets is parked under the user controller of
    one of its rules, and a user with parked flows may be attached to its bucket. */
module TbqState {
  import opened Basics
  import opened Sums
  import opened TbqToken
  import opened TbqDrr

  type FlowId = nat
  datatype UserId = UserId(lane: nat, rule: nat)
  datatype BucketId = BucketId(dir: nat, rule: nat)

  /** A member of the timer wheel. */
  datatype Ctl = U(user: UserId) | B(bucket: BucketId)

  datatype Packet = Packet(number: nat, length: nat)

  /** tbq_flow_backlog; `weight` is base.weight, which outlives an attachment. */
  datatype Flow = Flow(packets: seq<Packet>, octets: int, parked: Option<nat>, weight: nat)

  /** tbq_user: its controller (tc, units, octets, weight) and its own unit under the bucket
      (attached, queued). */
  datatype User = User(tc: Token, units: Drr<FlowId>, octets: int, weight: int, attached: bool, queued: int)

  /** tbq_bucket */
  datatype Bucket = Bucket(tc: Token, units: Drr<UserId>, octets: int, weight: int)

  /** What the configuration and the classification of flows fix. */
  datatype Net = Net(flows: set<FlowId>, users: set<UserId>, buckets: set<BucketId>,
                     lane: FlowId -> nat, dir: nat -> nat, mask: FlowId -> set<nat>,
                     weight: (FlowId, nat) -> nat, userWeight: UserId -> nat)
  {
    function UserOf(f: FlowId, rule: nat): UserId {
      UserId(lane(f), rule)
    }

    function BucketOf(u: UserId): BucketId {
      BucketId(dir(u.lane), u.rule)
    }

    /** The flow's packets are charged to this user controller. */
    predicate Matches(f: FlowId, u: UserId) {
      u.lane == lane(f) && u.rule in mask(f)
    }

    ghost predicate Valid() {
      && (forall f :: f in flows ==> forall u: UserId :: Matches(f, u) ==> u in users && 0 < weight(f, u.rule))
      && (forall u :: u in users ==> BucketOf(u) in buckets && 0 < userWeight(u))
    }
  }

  datatype State = State(flows: map<FlowId, Flow>, users: map<UserId, User>, buckets: map<BucketId, Bucket>)

  ghost predicate Domains(net: Net, st: State) {
    st.flows.Keys == net.flows && st.users.Keys == net.users && st.buckets.Keys == net.buckets
  }

  // ----- What the counters should be -----

  function Length(packets: seq<Packet>): nat {
    if packets == [] then 0 else packets[0].length + Length(packets[1..])
  }

  predicate ParkedAt(net: Net, flows: map<FlowId, Flow>, f: FlowId, u: UserId) {
    f in flows && net.lane(f) == u.lane && flows[f].parked == Some(u.rule)
  }

  /** Octets of the flows parked under a user. */
  ghost function QueuedAt(net: Net, flows: map<FlowId, Flow>, u: UserId): int {
    Sum(net.flows, f => if ParkedAt(net, flows, f, u) then flows[f].octets else 0)
  }

  /** Octets of all queued packets charged to a user, wherever their flows are parked. */
  ghost function OctetsAt(net: Net, flows: map<FlowId, Flow>, u: UserId): int {
    Sum(net.flows, f => if f in flows && net.Matches(f, u) then flows[f].octets else 0)
  }

  /** Weights of the backlogged flows that match a user. */
  ghost function WeightAt(net: Net, flows: map<FlowId, Flow>, u: UserId): int {
    Sum(net.flows, f => if f in flows && net.Matches(f, u) && flows[f].packets != [] then net.weight(f, u.rule) else 0)
  }

  ghost function BucketOctets(net: Net, users: map<UserId, User>, b: BucketId): int {
    Sum(net.users, u => if u in users && net.BucketOf(u) == b then users[u].octets else 0)
  }

  ghost function BucketWeight(net: Net, users: map<UserId, User>, b: BucketId): int {
    Sum(net.users, u => if u in users && net.BucketOf(u) == b && users[u].octets != 0 then net.userWeight(u) else 0)
  }

  ghost function PacketCount(net: Net, flows: map<FlowId, Flow>): int {
    Sum(net.flows, f => if f in flows then |flows[f].packets| else 0)
  }

  // ----- Invariants -----

  /** A flow's counters, and the user it is parked under. */
  ghost predicate FlowsOk(net: Net, st: State) {
    forall f :: f in st.flows ==> FlowOk(net, st, f)
  }

  ghost predicate FlowOk(net: Net, st: State, f: FlowId)
    requires f in st.flows
  {
    var F := st.flows[f];
    && F.octets == Length(F.packets) && (forall p <- F.packets :: 0 < p.length)
    && (F.packets != [] <==> F.parked.Some?)
    && (F.parked.Some? ==>
          var u := net.UserOf(f, F.parked.value);
          && F.parked.value in net.mask(f) && u in st.users && f in st.users[u].units.order
          && F.weight == net.weight(f, F.parked.value))
  }

  /** A user lists exactly the flows parked under it; its unit is where the bucket says it is. */
  ghost predicate UsersOk(net: Net, st: State) {
    forall u :: u in st.users ==> UserOk(net, st, u)
  }

  ghost predicate UserOk(net: Net, st: State, u: UserId)
    requires u in st.users
  {
    UserLists(net, st, u) && (st.users[u].attached ==> st.users[u].units.order != [])
  }

  ghost predicate UserLists(net: Net, st: State, u: UserId)
    requires u in st.users
  {
    var V := st.users[u];
    var b := net.BucketOf(u);
    && V.units.Valid() && (forall f :: f in V.units.order ==> ParkedAt(net, st.flows, f, u))
    && b in st.buckets && (V.attached <==> u in st.buckets[b].units.order)
  }

  ghost predicate BucketsOk(net: Net, st: State) {
    forall b :: b in st.buckets ==> BucketOk(net, st, b)
  }

  ghost predicate BucketOk(net: Net, st: State, b: BucketId)
    requires b in st.buckets
  {
    && st.buckets[b].units.Valid()
    && forall u :: u in st.buckets[b].units.order ==> u in st.users && net.BucketOf(u) == b
  }

  /** The accounting of tbq_user_backlog_update and of the units. */
  ghost predicate CountsOk(net: Net, st: State) {
    && (forall u :: u in st.users ==> UserCounts(net, st.flows, u, st.users[u]))
    && (forall b :: b in st.buckets ==> BucketCounts(net, st.users, b, st.buckets[b]))
  }

  ghost predicate UserCounts(net: Net, flows: map<FlowId, Flow>, u: UserId, V: User) {
    && V.queued == QueuedAt(net, flows, u)
    && V.octets == OctetsAt(net, flows, u)
    && V.weight == WeightAt(net, flows, u)
  }

  ghost predicate BucketCounts(net: Net, users: map<UserId, User>, b: BucketId, C: Bucket) {
    && C.octets == BucketOctets(net, users, b)
    && C.weight == BucketWeight(net, users, b)
  }

  /** No flow is stranded: a user with parked flows is on the wheel, or attached to a bucket that
      is.  `busy` is the controller whose dequeue loop is running, if any. */
  ghost predicate Progress(net: Net, st: State, busy: Option<Ctl>) {
    forall u :: u in st.users ==> UserProgress(net, st, u, busy)
  }

  ghost predicate UserProgress(net: Net, st: State, u: UserId, busy: Option<Ctl>)
    requires u in st.users
  {
    var V := st.users[u];
    var b := net.BucketOf(u);
    && (V.units.order != [] ==> V.tc.pending || V.attached || busy == Some(U(u)))
    && (V.attached ==> (b in st.buckets && st.buckets[b].tc.pending) || busy == Some(B(b)))
  }

  ghost predicate Inv(net: Net, st: State, busy: Option<Ctl>) {
    && net.Valid() && Domains(net, st)
    && FlowsOk(net, st) && UsersOk(net, st) && BucketsOk(net, st) && CountsOk(net, st)
    && Progress(net, st, busy)
  }

  // ----- What the invariants imply -----

  lemma {:induction false} LengthPositive(packets: seq<Packet>)
    requires packets != [] && forall p <- packets :: 0 < p.length
    ensures 0 < Length(packets)
  {
    if |packets| > 1 {
      LengthPositive(packets[1..]);
    }
  }

  /** The user controller under which a flow with queued packets is parked is on the wheel, or
      its unit is attached to a bucket that is. */
  lemma NoStranded(net: Net, st: State, f: FlowId)
    requires Inv(net, st, None) && f in st.flows
    ensures st.flows[f].packets != [] ==>
              && st.flows[f].parked.Some?
              && var u := net.UserOf(f, st.flows[f].parked.value);
                 && u in st.users && f in st.users[u].units.order
                 && (|| st.users[u].tc.pending
                     || (u in st.buckets[net.BucketOf(u)].units.order && st.buckets[net.BucketOf(u)].tc.pending))
  {
    assert FlowOk(net, st, f);
    if st.flows[f].packets != [] {
      var u := net.UserOf(f, st.flows[f].parked.value);
      assert UserOk(net, st, u) && UserProgress(net, st, u, None);
    }
  }

  /** With no controller on the wheel, nothing is queued. */
  lemma NothingPendingNothingQueued(net: Net, st: State)
    requires Inv(net, st, None)
    requires forall u :: u in st.users ==> !st.users[u].tc.pending
    requires forall b :: b in st.buckets ==> !st.buckets[b].tc.pending
    ensures forall f :: f in st.flows ==> st.flows[f].packets == []
    ensures PacketCount(net, st.flows) == 0
  {
    forall f | f in st.flows ensures st.flows[f].packets == [] {
      NoStranded(net, st, f);
    }
    SumZero(net.flows, f => if f in st.flows then |st.flows[f].packets| else 0);
  }

  /** ... and every counter and every list is back to where it started, so that the checks of
      tbq_token_ctrl_assert_unused and tbq_backlog_empty hold. */
  lemma NothingQueuedAllUnused(net: Net, st: State)
    requires Inv(net, st, None) && forall f :: f in st.flows ==> st.flows[f].packets == []
    ensures forall u :: u in st.users ==>
              var V := st.users[u];
              V.units.order == [] && V.octets == 0 && V.weight == 0 && !V.attached && V.queued == 0
    ensures forall b :: b in st.buckets ==>
              var C := st.buckets[b]; C.units.order == [] && C.octets == 0 && C.weight == 0
  {
    forall f | f in st.flows ensures st.flows[f].octets == 0 && st.flows[f].parked == None {
      assert FlowOk(net, st, f);
    }
    forall u | u in st.users
      ensures st.users[u].units.order == [] && !st.users[u].attached
      ensures st.users[u].octets == 0 && st.users[u].weight == 0 && st.users[u].queued == 0
    {
      UserUnused(net, st, u);
    }
    forall b | b in st.buckets
      ensures st.buckets[b].units.order == [] && st.buckets[b].octets == 0 && st.buckets[b].weight == 0
    {
      assert BucketOk(net, st, b) && BucketCounts(net, st.users, b, st.buckets[b]);
      SumZero(net.users, u => if u in st.users && net.BucketOf(u) == b then st.users[u].octets else 0);
      SumZero(net.users, u => if u in st.users && net.BucketOf(u) == b && st.users[u].octets != 0 then net.userWeight(u) else 0);
      assert forall u :: u in st.users ==> UserOk(net, st, u);
      NoMembers(st.buckets[b].units.order);
    }
  }

  lemma NoMembers<K(!new)>(s: seq<K>)
    ensures (forall k :: k !in s) ==> s == []
  {
    if s != [] {
      assert s[0] in s;
    }
  }

  lemma UserUnused(net: Net, st: State, u: UserId)
    requires Inv(net, st, None) && u in st.users
    requires forall f :: f in st.flows ==> st.flows[f].packets == [] && st.flows[f].octets == 0 && st.flows[f].parked == None
    ensures var V := st.users[u];
            V.units.order == [] && V.octets == 0 && V.weight == 0 && !V.attached && V.queued == 0
  {
    var V := st.users[u];
    assert UserOk(net, st, u) && UserCounts(net, st.flows, u, V);
    NoMembers(V.units.order);
    SumZero(net.flows, f => if ParkedAt(net, st.flows, f, u) then st.flows[f].octets else 0);
    SumZero(net.flows, f => if f in st.flows && net.Matches(f, u) then st.flows[f].octets else 0);
    SumZero(net.flows, f => if f in st.flows && net.Matches(f, u) && st.flows[f].packets != [] then net.weight(f, u.rule) else 0);
  }
}

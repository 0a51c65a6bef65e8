/** Every operation of the scheduler keeps its invariant. */
module TbqKeep {
  import opened Basics
  import opened TbqDrr
  import opened TbqState
  import opened TbqOps
  import opened TbqCounts
  import opened TbqWheel

  // ----- Accounts under tbq_packet_ctrl_backlog_update -----

  /** The accounts before an update, for a state whose flows have already changed at `f`: users
      still hold the totals for the old flow `F`. */
  ghost predicate Behind(net: Net, st: State, f: FlowId, F: Flow) {
    && Domains(net, st) && f in st.flows
    && (forall u :: u in st.users ==>
          && st.users[u].queued == QueuedAt(net, st.flows, u)
          && st.users[u].octets == OctetsAt(net, st.flows[f := F], u)
          && st.users[u].weight == WeightAt(net, st.flows[f := F], u))
    && (forall b :: b in st.buckets ==> BucketCounts(net, st.users, b, st.buckets[b]))
  }

  function Sign(old_: Flow, new_: Flow): int {
    if old_.packets == [] && new_.packets != [] then 1
    else if old_.packets != [] && new_.packets == [] then -1
    else 0
  }

  lemma UpdateCatchesUpUser(net: Net, st: State, f: FlowId, F: Flow, u: UserId)
    requires net.Valid() && Behind(net, st, f, F) && u in st.users
    ensures var G := st.flows[f];
            UserCounts(net, st.flows, u, UpdatedUser(net, f, u, st.users[u], G.octets - F.octets, Sign(F, G)))
  {
    hide QueuedAt, OctetsAt, WeightAt, BucketOctets, BucketWeight;
    var old_, G := st.flows[f := F], st.flows[f];
    assert old_[f := G] == st.flows;
    OctetsChange(net, old_, f, G, u);
    WeightChange(net, old_, f, G, u);
  }

  lemma UpdateCatchesUpBucket(net: Net, st: State, f: FlowId, delta: int, sign: int, b: BucketId)
    requires Domains(net, st) && b in st.buckets && BucketCounts(net, st.users, b, st.buckets[b])
    ensures var to := BacklogUpdate(net, st, f, delta, sign);
            b in to.buckets && BucketCounts(net, to.users, b, to.buckets[b])
  {
    hide BucketOctets, BucketWeight;
    var to := BacklogUpdate(net, st, f, delta, sign);
    var u := UserId(net.lane(f), b.rule);
    if net.Matches(f, u) && net.BucketOf(u) == b && u in st.users {
      BucketSumsChange(net, st.users, to.users, b, u);
    } else {
      forall x | x in st.users && net.BucketOf(x) == b ensures to.users[x].octets == st.users[x].octets {
        assert net.Matches(f, x) ==> x == u;
      }
      BucketSumsSame(net, st.users, to.users, b);
    }
  }

  /** After the update every count is what it should be. */
  lemma UpdateCatchesUp(net: Net, st: State, f: FlowId, F: Flow)
    requires net.Valid() && Behind(net, st, f, F)
    ensures var G := st.flows[f];
            var to := BacklogUpdate(net, st, f, G.octets - F.octets, Sign(F, G));
            Domains(net, to) && CountsOk(net, to)
  {
    hide QueuedAt, OctetsAt, WeightAt, BucketCounts, UserCounts, Net.Valid, UpdatedUser, UpdatedBucket;
    var G := st.flows[f];
    var to := BacklogUpdate(net, st, f, G.octets - F.octets, Sign(F, G));
    forall u | u in to.users ensures UserCounts(net, to.flows, u, to.users[u]) {
      UpdateCatchesUpUser(net, st, f, F, u);
    }
    forall b | b in to.buckets ensures BucketCounts(net, to.users, b, to.buckets[b]) {
      UpdateCatchesUpBucket(net, st, f, G.octets - F.octets, Sign(F, G), b);
    }
  }

  /** The update touches nothing but octets and weights. */
  ghost predicate SameShape(st: State, to: State) {
    && to.flows == st.flows && to.users.Keys == st.users.Keys && to.buckets.Keys == st.buckets.Keys
    && (forall u :: u in st.users ==>
          && to.users[u].tc == st.users[u].tc && to.users[u].units == st.users[u].units
          && to.users[u].attached == st.users[u].attached && to.users[u].queued == st.users[u].queued)
    && (forall b :: b in st.buckets ==>
          to.buckets[b].tc == st.buckets[b].tc && to.buckets[b].units == st.buckets[b].units)
  }

  /** The invariant without the accounts. */
  ghost predicate Structure(net: Net, st: State, busy: Option<Ctl>) {
    && net.Valid() && Domains(net, st)
    && FlowsOk(net, st) && UsersOk(net, st) && BucketsOk(net, st) && Progress(net, st, busy)
  }

  lemma SameShapeSameStructure(net: Net, st: State, to: State, busy: Option<Ctl>)
    requires Structure(net, st, busy) && SameShape(st, to)
    ensures Structure(net, to, busy)
  {
    hide Drr.Valid, Net.Valid, Length;
    forall f | f in to.flows ensures FlowOk(net, to, f) { assert FlowOk(net, st, f); }
    forall u | u in to.users ensures UserOk(net, to, u) && UserProgress(net, to, u, busy) {
      assert UserOk(net, st, u) && UserProgress(net, st, u, busy);
    }
    forall b | b in to.buckets ensures BucketOk(net, to, b) { assert BucketOk(net, st, b); }
  }

  lemma UpdateSameShape(net: Net, st: State, f: FlowId, delta: int, sign: int)
    ensures SameShape(st, BacklogUpdate(net, st, f, delta, sign))
  {
  }

  lemma UpdateKeeps(net: Net, st: State, f: FlowId, F: Flow, busy: Option<Ctl>)
    requires Structure(net, st, busy) && f in st.flows && Behind(net, st, f, F)
    ensures var G := st.flows[f];
            Inv(net, BacklogUpdate(net, st, f, G.octets - F.octets, Sign(F, G)), busy)
  {
    hide FlowsOk, UsersOk, BucketsOk, CountsOk, Progress, Behind, BacklogUpdate, SameShape, Net.Valid;
    var G := st.flows[f];
    UpdateCatchesUp(net, st, f, F);
    UpdateSameShape(net, st, f, G.octets - F.octets, Sign(F, G));
    SameShapeSameStructure(net, st, BacklogUpdate(net, st, f, G.octets - F.octets, Sign(F, G)), busy);
  }

  // ----- Taking a packet off a queue -----

  /** `left` is what remains of a queue once packets of `length` octets are gone. */
  ghost predicate Remains(F: Flow, left: seq<Packet>, length: nat) {
    && 0 < length && Length(left) == F.octets - length && (forall p <- left :: 0 < p.length)
  }

  /** The state after tbq_flow_backlog_dequeue, spelled out. */
  lemma DequeueEffect(net: Net, st: State, f: FlowId, left: seq<Packet>, length: nat)
    requires Parked(net, st, f)
    ensures var to := FlowDequeue(net, st, f, left, length);
            var F, u := st.flows[f], Host(net, st, f);
            var V, b := st.users[u], net.BucketOf(u);
            var emptied, idle := F.octets - length == 0, V.queued - length == 0;
            && to.flows == st.flows[f := F.(packets := left, octets := F.octets - length,
                                            parked := if emptied then None else F.parked)]
            && to.users == st.users[u := V.(queued := V.queued - length, attached := V.attached && !idle,
                                            units := if emptied then Detach(V.units, f) else V.units)]
            && to.buckets == if V.attached && idle
                             then st.buckets[b := st.buckets[b].(units := Detach(st.buckets[b].units, u))]
                             else st.buckets
  {
  }

  lemma InvParked(net: Net, st: State, f: FlowId, busy: Option<Ctl>)
    requires Inv(net, st, busy) && f in st.flows && st.flows[f].parked.Some?
    ensures Parked(net, st, f) && f in st.users[Host(net, st, f)].units.order && net.Matches(f, Host(net, st, f))
    ensures 0 < st.flows[f].octets <= st.users[Host(net, st, f)].queued
    ensures UserOk(net, st, Host(net, st, f))
  {
    hide QueuedAt, OctetsAt, WeightAt, BucketOctets, BucketWeight;
    assert FlowOk(net, st, f);
    var u := net.UserOf(f, st.flows[f].parked.value);
    LengthPositive(st.flows[f].packets);
    CountsCover(net, st, f, u);
    assert UserOk(net, st, u);
  }

  lemma EmptyOrPositive(left: seq<Packet>)
    requires forall p <- left :: 0 < p.length
    ensures Length(left) == 0 <==> left == []
  {
    if left != [] { LengthPositive(left); }
  }

  lemma DequeueBehind(net: Net, st: State, f: FlowId, left: seq<Packet>, length: nat, busy: Option<Ctl>)
    requires Inv(net, st, busy) && Parked(net, st, f) && Remains(st.flows[f], left, length)
    ensures Behind(net, FlowDequeue(net, st, f, left, length), f, st.flows[f])
  {
    hide QueuedAt, OctetsAt, WeightAt, BucketOctets, BucketWeight, FlowDequeue, FlowsOk, UsersOk, BucketsOk, Progress;
    var to := FlowDequeue(net, st, f, left, length);
    DequeueEffect(net, st, f, left, length);
    assert to.flows[f := st.flows[f]] == st.flows;
    forall u | u in to.users ensures to.users[u].queued == QueuedAt(net, to.flows, u) {
      QueuedChange(net, st.flows, f, to.flows[f], u);
    }
    forall b | b in to.buckets ensures BucketCounts(net, to.users, b, to.buckets[b]) {
      BucketSumsSame(net, st.users, to.users, b);
    }
  }

  lemma DequeueFlows(net: Net, st: State, f: FlowId, left: seq<Packet>, length: nat, busy: Option<Ctl>)
    requires Inv(net, st, busy) && Parked(net, st, f) && Remains(st.flows[f], left, length)
    ensures FlowsOk(net, FlowDequeue(net, st, f, left, length))
  {
    hide FlowDequeue, CountsOk, Progress, BucketsOk;
    var to := FlowDequeue(net, st, f, left, length);
    DequeueEffect(net, st, f, left, length);
    EmptyOrPositive(left);
    forall x | x in to.flows ensures FlowOk(net, to, x) {
      assert FlowOk(net, st, x);
    }
  }

  lemma DequeueUserLists(net: Net, st: State, f: FlowId, left: seq<Packet>, length: nat, x: UserId)
    requires Parked(net, st, f) && x in st.users && UserLists(net, st, x)
    requires 0 < length
    requires st.buckets[net.BucketOf(Host(net, st, f))].units.Valid()
    ensures var to := FlowDequeue(net, st, f, left, length); x in to.users && UserLists(net, to, x)
  {
    hide FlowDequeue, Drr.Valid;
    DequeueUserUnits(net, st, f, left, length, x);
    DequeueUserAttached(net, st, f, left, length, x);
  }

  lemma DequeueUserUnits(net: Net, st: State, f: FlowId, left: seq<Packet>, length: nat, x: UserId)
    requires Parked(net, st, f) && x in st.users && UserLists(net, st, x)
    requires 0 < length
    requires st.buckets[net.BucketOf(Host(net, st, f))].units.Valid()
    ensures var to := FlowDequeue(net, st, f, left, length);
            x in to.users && to.users[x].units.Valid() && forall g :: g in to.users[x].units.order ==> ParkedAt(net, to.flows, g, x)
  {
    hide FlowDequeue, Drr.Valid;
    DequeueEffect(net, st, f, left, length);
    KeepsValid(st.users[x].units, f, 0, 0, 0);
    if x == Host(net, st, f) {
      assert forall g :: g in Detach(st.users[x].units, f).order ==> g in st.users[x].units.order && g != f;
    } else {
      assert forall g :: g in st.users[x].units.order ==> g != f;
    }
  }

  lemma DequeueUserAttached(net: Net, st: State, f: FlowId, left: seq<Packet>, length: nat, x: UserId)
    requires Parked(net, st, f) && x in st.users && UserLists(net, st, x)
    requires 0 < length
    requires st.buckets[net.BucketOf(Host(net, st, f))].units.Valid()
    ensures var to := FlowDequeue(net, st, f, left, length);
            && x in to.users && net.BucketOf(x) in to.buckets
            && (to.users[x].attached <==> x in to.buckets[net.BucketOf(x)].units.order)
  {
    hide FlowDequeue, Drr.Valid, ParkedAt, NoDup;
    DequeueEffect(net, st, f, left, length);
  }

  lemma DequeueBucket(net: Net, st: State, f: FlowId, left: seq<Packet>, length: nat, b: BucketId)
    requires Parked(net, st, f) && b in st.buckets && BucketOk(net, st, b)
    ensures var to := FlowDequeue(net, st, f, left, length); b in to.buckets && BucketOk(net, to, b)
  {
    hide FlowDequeue, Drr.Valid;
    DequeueEffect(net, st, f, left, length);
    KeepsValid(st.buckets[b].units, Host(net, st, f), 0, 0, 0);
  }

  /** The unit is detached exactly when its last flow leaves it. */
  lemma DequeueProgress(net: Net, st: State, f: FlowId, left: seq<Packet>, length: nat, x: UserId, busy: Option<Ctl>)
    requires Parked(net, st, f) && x in st.users && UserOk(net, st, x) && UserProgress(net, st, x, busy)
    requires var to := FlowDequeue(net, st, f, left, length);
             x in to.users && UserLists(net, to, x) && (to.users[x].queued == 0 <==> to.users[x].units.order == [])
    ensures var to := FlowDequeue(net, st, f, left, length);
            UserOk(net, to, x) && UserProgress(net, to, x, busy)
  {
    hide FlowDequeue, Drr.Valid;
    var to := FlowDequeue(net, st, f, left, length);
    DequeueEffect(net, st, f, left, length);
    if x == Host(net, st, f) && to.users[x].units.order != [] {
      assert to.users[x].units.order[0] in to.users[x].units.order;
      NoMembers(st.users[x].units.order);
    }
  }

  lemma DequeueKeeps(net: Net, st: State, f: FlowId, left: seq<Packet>, length: nat, busy: Option<Ctl>)
    requires Inv(net, st, busy) && Parked(net, st, f) && Remains(st.flows[f], left, length)
    ensures var to := FlowDequeue(net, st, f, left, length);
            Structure(net, to, busy) && Behind(net, to, f, st.flows[f])
  {
    hide FlowDequeue, CountsOk, FlowsOk, QueuedAt, OctetsAt, WeightAt, BucketOctets, BucketWeight, UserLists, UserProgress,
      BucketOk, Net.Valid;
    var to := FlowDequeue(net, st, f, left, length);
    DequeueEffect(net, st, f, left, length);
    DequeueBehind(net, st, f, left, length, busy);
    DequeueFlows(net, st, f, left, length, busy);
    ListsValid(net, st, busy);
    forall b | b in to.buckets ensures BucketOk(net, to, b) { DequeueBucket(net, st, f, left, length, b); }
    forall x | x in to.users ensures UserOk(net, to, x) && UserProgress(net, to, x, busy) {
      DequeueUserLists(net, st, f, left, length, x);
      ListsParked(net, to, x);
      QueuedIsZero(net, to, x);
      DequeueProgress(net, st, f, left, length, x, busy);
    }
  }

  lemma ListsValid(net: Net, st: State, busy: Option<Ctl>)
    requires Inv(net, st, busy)
    ensures forall b :: b in st.buckets ==> BucketOk(net, st, b) && st.buckets[b].units.Valid()
    ensures forall u :: u in st.users ==> UserOk(net, st, u) && UserProgress(net, st, u, busy)
  {
    hide CountsOk, FlowsOk;
  }

  lemma ListsParked(net: Net, st: State, u: UserId)
    requires u in st.users && UserLists(net, st, u)
    ensures forall f :: f in st.users[u].units.order ==> ParkedAt(net, st.flows, f, u)
  {
  }

  /** Taking packets off a queue keeps the invariant: the accounts of every matching user and
      bucket follow, and the flow, the unit and the weight go when the queue is empty. */
  lemma TakeKeeps(net: Net, st: State, f: FlowId, left: seq<Packet>, length: nat, busy: Option<Ctl>)
    requires Inv(net, st, busy) && Parked(net, st, f) && Remains(st.flows[f], left, length)
    ensures Inv(net, Take(net, st, f, left, length), busy)
  {
    hide FlowDequeue, Inv, Structure, Behind, BacklogUpdate;
    var F, to := st.flows[f], FlowDequeue(net, st, f, left, length);
    DequeueEffect(net, st, f, left, length);
    DequeueKeeps(net, st, f, left, length, busy);
    EmptyOrPositive(left);
    QueueNotEmpty(net, st, f, busy);
    UpdateKeeps(net, to, f, F, busy);
  }

  lemma QueueNotEmpty(net: Net, st: State, f: FlowId, busy: Option<Ctl>)
    requires Inv(net, st, busy) && Parked(net, st, f)
    ensures var F := st.flows[f];
            F.packets != [] && F.octets == Length(F.packets) && forall p <- F.packets :: 0 < p.length
  {
    assert FlowOk(net, st, f);
  }

  lemma {:induction false} LengthSplit(a: seq<Packet>, b: seq<Packet>)
    ensures Length(a + b) == Length(a) + Length(b)
  {
    if a == [] {
      assert a + b == b;
    } else {
      assert (a + b)[1..] == a[1..] + b;
      LengthSplit(a[1..], b);
    }
  }

  lemma DropNewestKeeps(net: Net, st: State, f: FlowId, busy: Option<Ctl>)
    requires Inv(net, st, busy) && Parked(net, st, f) && st.flows[f].packets != []
    ensures Inv(net, DropNewest(net, st, f), busy)
  {
    hide Inv, Take;
    QueueNotEmpty(net, st, f, busy);
    var ps := st.flows[f].packets;
    var n := |ps| - 1;
    assert ps == ps[..n] + [ps[n]] && ps[n] in ps;
    LengthSplit(ps[..n], [ps[n]]);
    assert Length([ps[n]]) == ps[n].length;
    TakeKeeps(net, st, f, ps[..n], ps[n].length, busy);
  }

  // ----- The order of units -----

  lemma ScheduleMembers<K(!new)>(d: Drr<K>, k: K, length: nat)
    requires d.Valid() && k in d.order
    ensures k in d.deficit && k in d.weight
    ensures var r := Schedule(d, k, length); r.Valid() && forall x :: x in r.order <==> x in d.order
  {
    KeepsValid(d, k, 0, 0, length);
  }

  /** Two states that differ in nothing but the order of units and their deficits. */
  ghost predicate SameMembers(st: State, to: State) {
    && to.flows == st.flows && to.users.Keys == st.users.Keys && to.buckets.Keys == st.buckets.Keys
    && (forall u :: u in st.users ==>
          && to.users[u].(units := st.users[u].units) == st.users[u]
          && to.users[u].units.Valid() && forall f :: f in to.users[u].units.order <==> f in st.users[u].units.order)
    && (forall b :: b in st.buckets ==>
          && to.buckets[b].(units := st.buckets[b].units) == st.buckets[b]
          && to.buckets[b].units.Valid() && forall u :: u in to.buckets[b].units.order <==> u in st.buckets[b].units.order)
  }

  /** Nothing the accounts depend on has changed. */
  ghost predicate SameCounts(st: State, to: State) {
    && to.flows == st.flows && to.users.Keys == st.users.Keys && to.buckets.Keys == st.buckets.Keys
    && (forall u :: u in st.users ==>
          && to.users[u].octets == st.users[u].octets && to.users[u].weight == st.users[u].weight
          && to.users[u].queued == st.users[u].queued)
    && (forall b :: b in st.buckets ==>
          to.buckets[b].octets == st.buckets[b].octets && to.buckets[b].weight == st.buckets[b].weight)
  }

  lemma CountsCarry(net: Net, st: State, to: State)
    requires Domains(net, st) && CountsOk(net, st) && SameCounts(st, to)
    ensures CountsOk(net, to)
  {
    hide QueuedAt, OctetsAt, WeightAt, BucketOctets, BucketWeight;
    forall u | u in to.users ensures UserCounts(net, to.flows, u, to.users[u]) {
      assert UserCounts(net, st.flows, u, st.users[u]);
    }
    forall b | b in to.buckets ensures BucketCounts(net, to.users, b, to.buckets[b]) {
      assert BucketCounts(net, st.users, b, st.buckets[b]);
      BucketSumsSame(net, st.users, to.users, b);
    }
  }

  lemma SameMembersUser(net: Net, st: State, to: State, u: UserId, busy: Option<Ctl>)
    requires SameMembers(st, to) && u in st.users && UserOk(net, st, u) && UserProgress(net, st, u, busy)
    ensures UserOk(net, to, u) && UserProgress(net, to, u, busy)
  {
    hide Drr.Valid;
    NoMembers(to.users[u].units.order);
    NoMembers(st.users[u].units.order);
  }

  lemma SameMembersFlow(net: Net, st: State, to: State, f: FlowId)
    requires SameMembers(st, to) && f in st.flows && FlowOk(net, st, f)
    ensures FlowOk(net, to, f)
  {
    hide Drr.Valid;
  }

  lemma SameMembersBucket(net: Net, st: State, to: State, b: BucketId)
    requires SameMembers(st, to) && b in st.buckets && BucketOk(net, st, b)
    ensures BucketOk(net, to, b)
  {
    hide Drr.Valid;
  }

  lemma SameMembersCounts(st: State, to: State)
    requires SameMembers(st, to)
    ensures SameCounts(st, to)
  {
    hide Drr.Valid;
  }

  lemma SameMembersKeeps(net: Net, st: State, to: State, busy: Option<Ctl>)
    requires Inv(net, st, busy) && SameMembers(st, to)
    ensures Inv(net, to, busy)
  {
    hide CountsOk, SameMembers, SameCounts, UserLists, UserProgress, BucketOk, FlowOk, Net.Valid;
    assert to.flows == st.flows && to.users.Keys == st.users.Keys && to.buckets.Keys == st.buckets.Keys by {
      SameMembersDomains(st, to);
    }
    SameMembersCounts(st, to);
    CountsCarry(net, st, to);
    forall f | f in to.flows ensures FlowOk(net, to, f) { SameMembersFlow(net, st, to, f); }
    forall u | u in to.users ensures UserOk(net, to, u) && UserProgress(net, to, u, busy) {
      assert UserOk(net, st, u) && UserProgress(net, st, u, busy);
      SameMembersUser(net, st, to, u, busy);
    }
    forall b | b in to.buckets ensures BucketOk(net, to, b) { SameMembersBucket(net, st, to, b); }
  }

  lemma SameMembersDomains(st: State, to: State)
    requires SameMembers(st, to)
    ensures to.flows == st.flows && to.users.Keys == st.users.Keys && to.buckets.Keys == st.buckets.Keys
  {
  }

  lemma ScheduleShape(net: Net, st: State, f: FlowId, length: nat)
    requires Parked(net, st, f) && f in st.users[Host(net, st, f)].units.order
    requires UserLists(net, st, Host(net, st, f))
    requires forall u :: u in st.users ==> st.users[u].units.Valid()
    requires forall b :: b in st.buckets ==> st.buckets[b].units.Valid()
    ensures SameMembers(st, FlowSchedule(net, st, f, length))
  {
    hide Schedule, Drr.Valid;
    var u := Host(net, st, f);
    var b := net.BucketOf(u);
    var V, C := st.users[u], st.buckets[b];
    ScheduleMembers(V.units, f, length);
    var V' := V.(units := Schedule(V.units, f, length));
    if V.attached {
      ScheduleMembers(C.units, u, length);
      var C' := C.(units := Schedule(C.units, u, length));
      assert FlowSchedule(net, st, f, length) == st.(users := st.users[u := V'], buckets := st.buckets[b := C']);
    } else {
      assert FlowSchedule(net, st, f, length) == st.(users := st.users[u := V']);
    }
  }

  lemma FlowScheduleKeeps(net: Net, st: State, f: FlowId, length: nat, busy: Option<Ctl>)
    requires Inv(net, st, busy) && Parked(net, st, f)
    ensures var to := FlowSchedule(net, st, f, length);
            Inv(net, to, busy) && to.flows == st.flows && Parked(net, to, f)
  {
    hide FlowSchedule, CountsOk, FlowsOk, Progress, Drr.Valid;
    ListsValid(net, st, busy);
    InvParked(net, st, f, busy);
    ScheduleShape(net, st, f, length);
    SameMembersKeeps(net, st, FlowSchedule(net, st, f, length), busy);
  }

  lemma ReleaseOldestKeeps(net: Net, st: State, f: FlowId, busy: Option<Ctl>)
    requires Inv(net, st, busy) && Parked(net, st, f) && st.flows[f].packets != []
    ensures Inv(net, ReleaseOldest(net, st, f), busy)
  {
    hide Inv, Take, FlowSchedule;
    QueueNotEmpty(net, st, f, busy);
    var ps := st.flows[f].packets;
    assert ps[0] in ps;
    FlowScheduleKeeps(net, st, f, ps[0].length, busy);
    TakeKeeps(net, FlowSchedule(net, st, f, ps[0].length), f, ps[1..], ps[0].length, busy);
  }

  // ----- Parking a flow -----

  /** The invariant, but for a flow that is parked nowhere. */
  ghost predicate Loose(net: Net, st: State, f: FlowId, busy: Option<Ctl>) {
    && net.Valid() && Domains(net, st) && f in st.flows && st.flows[f].parked == None
    && (forall x :: x in st.flows && x != f ==> FlowOk(net, st, x))
    && UsersOk(net, st) && BucketsOk(net, st) && Progress(net, st, busy)
  }

  /** Parking the flow `f`, now with queue `G`, under the user of one of its rules. */
  function Place(net: Net, st: State, f: FlowId, rule: nat, G: Flow): State
    requires f in st.flows && Known(net, st, net.UserOf(f, rule))
  {
    var v := net.UserOf(f, rule);
    var c := net.BucketOf(v);
    var V, C := st.users[v], st.buckets[c];
    var joins := C.tc.pending && !V.attached;
    State(st.flows[f := G.(parked := Some(rule), weight := net.weight(f, rule))],
          st.users[v := V.(queued := V.queued + G.octets, attached := V.attached || C.tc.pending,
                           units := Attach(V.units, f, st.flows[f].weight, net.weight(f, rule)))],
          if joins then st.buckets[c := C.(units := Attach(C.units, v, net.userWeight(v), net.userWeight(v)))] else st.buckets)
  }

  lemma AttachIsPlace(net: Net, st: State, f: FlowId, rule: nat)
    requires f in st.flows && Known(net, st, net.UserOf(f, rule))
    ensures FlowAttach(net, st, f, rule) == Place(net, st, f, rule, st.flows[f])
  {
  }

  lemma AttachEnqueueIsPlace(net: Net, st: State, f: FlowId, rule: nat, p: Packet)
    requires f in st.flows && Known(net, st, net.UserOf(f, rule))
    ensures Parked(net, FlowAttach(net, st, f, rule), f)
    ensures var F := st.flows[f];
            FlowEnqueue(net, FlowAttach(net, st, f, rule), f, p)
            == Place(net, st, f, rule, F.(packets := F.packets + [p], octets := F.octets + p.length))
  {
  }

  lemma AttachMembers<K(!new)>(d: Drr<K>, k: K, had: nat, weight: nat)
    requires d.Valid()
    ensures var r := Attach(d, k, had, weight); r.Valid() && forall x :: x in r.order <==> x == k || x in d.order
  {
    KeepsValid(d, k, had, weight, 0);
  }

  /** What it takes to wait under a rule: the bucket or the user's controller is on the wheel. */
  ghost predicate Blocks(net: Net, st: State, f: FlowId, rule: nat) {
    && rule in net.mask(f) && Known(net, st, net.UserOf(f, rule))
    && var v := net.UserOf(f, rule);
       st.users[v].tc.pending || st.buckets[net.BucketOf(v)].tc.pending
  }

  lemma PlaceFlow(net: Net, st: State, f: FlowId, rule: nat, G: Flow, x: FlowId)
    requires f in st.flows && rule in net.mask(f) && Known(net, st, net.UserOf(f, rule))
    requires st.users[net.UserOf(f, rule)].units.Valid()
    requires G.packets != [] && G.octets == Length(G.packets) && forall p <- G.packets :: 0 < p.length
    requires x in st.flows && (x != f ==> FlowOk(net, st, x))
    ensures var to := Place(net, st, f, rule, G); x in to.flows && FlowOk(net, to, x)
  {
    hide Attach, Drr.Valid, Length;
    var v := net.UserOf(f, rule);
    AttachMembers(st.users[v].units, f, st.flows[f].weight, net.weight(f, rule));
  }

  lemma PlaceUser(net: Net, st: State, f: FlowId, rule: nat, G: Flow, x: UserId, busy: Option<Ctl>)
    requires f in st.flows && st.flows[f].parked == None && Blocks(net, st, f, rule)
    requires x in st.users && UserOk(net, st, x) && UserProgress(net, st, x, busy)
    requires st.buckets[net.BucketOf(net.UserOf(f, rule))].units.Valid()
    ensures var to := Place(net, st, f, rule, G);
            x in to.users && UserOk(net, to, x) && UserProgress(net, to, x, busy)
  {
    hide Attach, Drr.Valid;
    var to := Place(net, st, f, rule, G);
    var v := net.UserOf(f, rule);
    var c := net.BucketOf(v);
    AttachMembers(st.buckets[c].units, v, net.userWeight(v), net.userWeight(v));
    assert forall g :: g in st.users[x].units.order ==> g != f;
    if x == v {
      AttachMembers(st.users[v].units, f, st.flows[f].weight, net.weight(f, rule));
      assert f in to.users[v].units.order;
    }
  }

  lemma PlaceBucket(net: Net, st: State, f: FlowId, rule: nat, G: Flow, b: BucketId)
    requires f in st.flows && Known(net, st, net.UserOf(f, rule)) && b in st.buckets && BucketOk(net, st, b)
    ensures var to := Place(net, st, f, rule, G); b in to.buckets && BucketOk(net, to, b)
  {
    hide Attach, Drr.Valid;
    var v := net.UserOf(f, rule);
    AttachMembers(st.buckets[b].units, v, net.userWeight(v), net.userWeight(v));
  }

  lemma PlaceKeeps(net: Net, st: State, f: FlowId, rule: nat, G: Flow, busy: Option<Ctl>)
    requires Loose(net, st, f, busy) && Blocks(net, st, f, rule)
    requires G.packets != [] && G.octets == Length(G.packets) && forall p <- G.packets :: 0 < p.length
    ensures Structure(net, Place(net, st, f, rule, G), busy)
  {
    hide Place, Blocks, Drr.Valid, Net.Valid, UserProgress, BucketOk, UserLists, FlowOk;
    LooseLists(net, st, f, rule, busy);
    var to := Place(net, st, f, rule, G);
    assert to.flows.Keys == st.flows.Keys && to.users.Keys == st.users.Keys && to.buckets.Keys == st.buckets.Keys by {
      PlaceDomains(net, st, f, rule, G);
    }
    forall x | x in to.flows ensures FlowOk(net, to, x) { PlaceFlow(net, st, f, rule, G, x); }
    forall x | x in to.users ensures UserOk(net, to, x) && UserProgress(net, to, x, busy) {
      PlaceUser(net, st, f, rule, G, x, busy);
    }
    forall b | b in to.buckets ensures BucketOk(net, to, b) { PlaceBucket(net, st, f, rule, G, b); }
  }

  lemma PlaceDomains(net: Net, st: State, f: FlowId, rule: nat, G: Flow)
    requires f in st.flows && Blocks(net, st, f, rule)
    ensures var to := Place(net, st, f, rule, G);
            && to.flows.Keys == st.flows.Keys && to.users.Keys == st.users.Keys && to.buckets.Keys == st.buckets.Keys
  {
  }

  lemma LooseLists(net: Net, st: State, f: FlowId, rule: nat, busy: Option<Ctl>)
    requires Loose(net, st, f, busy) && Blocks(net, st, f, rule)
    ensures rule in net.mask(f) && Known(net, st, net.UserOf(f, rule)) && st.users[net.UserOf(f, rule)].units.Valid()
    ensures st.buckets[net.BucketOf(net.UserOf(f, rule))].units.Valid()
    ensures forall u :: u in st.users ==> UserOk(net, st, u) && UserProgress(net, st, u, busy)
    ensures forall b :: b in st.buckets ==> BucketOk(net, st, b)
  {
    assert UserOk(net, st, net.UserOf(f, rule)) && BucketOk(net, st, net.BucketOf(net.UserOf(f, rule)));
  }

  /** The unit of the user a flow is placed under counts the flow; nothing else does yet. */
  lemma PlaceQueued(net: Net, st: State, f: FlowId, rule: nat, G: Flow, u: UserId)
    requires Domains(net, st) && f in st.flows && st.flows[f].parked == None && Known(net, st, net.UserOf(f, rule))
    requires u in st.users && st.users[u].queued == QueuedAt(net, st.flows, u)
    ensures var to := Place(net, st, f, rule, G); u in to.users && to.users[u].queued == QueuedAt(net, to.flows, u)
  {
    hide QueuedAt;
    QueuedChange(net, st.flows, f, G.(parked := Some(rule), weight := net.weight(f, rule)), u);
  }

  lemma PlaceOthers(net: Net, st: State, f: FlowId, rule: nat, G: Flow)
    requires Domains(net, st) && f in st.flows && Known(net, st, net.UserOf(f, rule))
    ensures var to := Place(net, st, f, rule, G);
            && Domains(net, to)
            && (forall u :: u in st.users ==>
                  to.users[u].octets == st.users[u].octets && to.users[u].weight == st.users[u].weight)
            && (forall b :: b in st.buckets ==>
                  to.buckets[b].octets == st.buckets[b].octets && to.buckets[b].weight == st.buckets[b].weight)
  {
  }

  lemma PlaceBuckets(net: Net, st: State, f: FlowId, rule: nat, G: Flow)
    requires Domains(net, st) && f in st.flows && Known(net, st, net.UserOf(f, rule))
    requires forall b :: b in st.buckets ==> BucketCounts(net, st.users, b, st.buckets[b])
    ensures var to := Place(net, st, f, rule, G);
            forall b :: b in to.buckets ==> BucketCounts(net, to.users, b, to.buckets[b])
  {
    hide BucketOctets, BucketWeight, Place;
    var to := Place(net, st, f, rule, G);
    PlaceOthers(net, st, f, rule, G);
    forall b | b in to.buckets ensures BucketCounts(net, to.users, b, to.buckets[b]) {
      assert BucketCounts(net, st.users, b, st.buckets[b]);
      BucketSumsSame(net, st.users, to.users, b);
    }
  }

  lemma PlaceBehind(net: Net, st: State, f: FlowId, rule: nat, G: Flow)
    requires Domains(net, st) && f in st.flows && st.flows[f].parked == None && Known(net, st, net.UserOf(f, rule))
    requires CountsOk(net, st)
    ensures Behind(net, Place(net, st, f, rule, G), f, st.flows[f])
  {
    hide QueuedAt, OctetsAt, WeightAt, BucketOctets, BucketWeight;
    var to := Place(net, st, f, rule, G);
    PlaceOthers(net, st, f, rule, G);
    PlaceBuckets(net, st, f, rule, G);
    assert to.flows[f := st.flows[f]] == st.flows;
    forall u | u in to.users
      ensures to.users[u].queued == QueuedAt(net, to.flows, u)
      ensures to.users[u].octets == OctetsAt(net, st.flows, u) && to.users[u].weight == WeightAt(net, st.flows, u)
    {
      assert UserCounts(net, st.flows, u, st.users[u]);
      PlaceQueued(net, st, f, rule, G, u);
    }
  }

  /** tbq_enqueue of the first packet of a flow that has to wait. */
  lemma EnqueueFirstKeeps(net: Net, st: State, f: FlowId, rule: nat, p: Packet, busy: Option<Ctl>)
    requires Inv(net, st, busy) && f in st.flows && st.flows[f].packets == [] && Blocks(net, st, f, rule) && 0 < p.length
    ensures Inv(net, EnqueueFirst(net, st, f, rule, p), busy)
  {
    hide Place, BacklogUpdate, FlowAttach, FlowEnqueue, Behind, Structure, CountsOk, Blocks, UserLists, UserProgress,
      BucketOk, Net.Valid;
    assert FlowOk(net, st, f);
    var G := Flow([p], p.length, None, st.flows[f].weight);
    assert Length([p]) == p.length && [] + [p] == [p];
    assert st.flows[f].(packets := st.flows[f].packets + [p], octets := st.flows[f].octets + p.length) == G;
    LooseLists(net, st, f, rule, busy);
    AttachEnqueueIsPlace(net, st, f, rule, p);
    PlaceKeeps(net, st, f, rule, G, busy);
    PlaceBehind(net, st, f, rule, G);
    PlacedFlow(net, st, f, rule, G);
    UpdateKeeps(net, Place(net, st, f, rule, G), f, st.flows[f], busy);
  }

  lemma PlacedFlow(net: Net, st: State, f: FlowId, rule: nat, G: Flow)
    requires f in st.flows && Known(net, st, net.UserOf(f, rule))
    ensures var to := Place(net, st, f, rule, G);
            f in to.flows && to.flows[f].packets == G.packets && to.flows[f].octets == G.octets
  {
  }

  // ----- A further packet -----

  lemma EnqueueMoreUser(net: Net, st: State, f: FlowId, p: Packet, x: UserId, busy: Option<Ctl>)
    requires Parked(net, st, f) && x in st.users && UserOk(net, st, x) && UserProgress(net, st, x, busy)
    ensures var to := FlowEnqueue(net, st, f, p); x in to.users && UserOk(net, to, x) && UserProgress(net, to, x, busy)
  {
    hide Drr.Valid;
  }

  lemma EnqueueMoreFlow(net: Net, st: State, f: FlowId, p: Packet, x: FlowId)
    requires Parked(net, st, f) && x in st.flows && FlowOk(net, st, x) && 0 < p.length
    requires st.flows[f].packets != []
    ensures var to := FlowEnqueue(net, st, f, p); x in to.flows && FlowOk(net, to, x)
  {
    LengthSplit(st.flows[f].packets, [p]);
    assert Length([p]) == p.length;
  }

  lemma EnqueueMoreStructure(net: Net, st: State, f: FlowId, p: Packet, busy: Option<Ctl>)
    requires Inv(net, st, busy) && Parked(net, st, f) && 0 < p.length
    ensures Structure(net, FlowEnqueue(net, st, f, p), busy)
  {
    hide CountsOk, UserLists, UserProgress, FlowOk, Net.Valid;
    var to := FlowEnqueue(net, st, f, p);
    QueueNotEmpty(net, st, f, busy);
    ListsValid(net, st, busy);
    forall x | x in to.flows ensures FlowOk(net, to, x) { EnqueueMoreFlow(net, st, f, p, x); }
    forall b | b in to.buckets ensures BucketOk(net, to, b) { assert BucketOk(net, st, b); }
    forall x | x in to.users ensures UserOk(net, to, x) && UserProgress(net, to, x, busy) {
      EnqueueMoreUser(net, st, f, p, x, busy);
    }
  }

  lemma EnqueueMoreBehind(net: Net, st: State, f: FlowId, p: Packet, busy: Option<Ctl>)
    requires Inv(net, st, busy) && Parked(net, st, f)
    ensures Behind(net, FlowEnqueue(net, st, f, p), f, st.flows[f])
  {
    hide QueuedAt, OctetsAt, WeightAt, BucketOctets, BucketWeight, FlowsOk, UsersOk, BucketsOk, Progress;
    var to := FlowEnqueue(net, st, f, p);
    assert to.flows[f := st.flows[f]] == st.flows;
    forall u | u in to.users ensures to.users[u].queued == QueuedAt(net, to.flows, u) {
      QueuedChange(net, st.flows, f, to.flows[f], u);
    }
    forall b | b in to.buckets ensures BucketCounts(net, to.users, b, to.buckets[b]) {
      BucketSumsSame(net, st.users, to.users, b);
    }
  }

  lemma EnqueueMoreKeeps(net: Net, st: State, f: FlowId, p: Packet, busy: Option<Ctl>)
    requires Inv(net, st, busy) && Parked(net, st, f) && 0 < p.length
    ensures Inv(net, EnqueueMore(net, st, f, p), busy)
  {
    hide Inv, Structure, Behind, BacklogUpdate;
    QueueNotEmpty(net, st, f, busy);
    EnqueueMoreStructure(net, st, f, p, busy);
    EnqueueMoreBehind(net, st, f, p, busy);
    UpdateKeeps(net, FlowEnqueue(net, st, f, p), f, st.flows[f], busy);
  }

  // ----- Moving a flow to another controller -----

  lemma DetachEffect(net: Net, st: State, f: FlowId)
    requires Parked(net, st, f)
    ensures var to := FlowDetach(net, st, f);
            var F, u := st.flows[f], Host(net, st, f);
            var V, b := st.users[u], net.BucketOf(u);
            var idle := V.queued - F.octets == 0;
            && to.flows == st.flows[f := F.(parked := None)]
            && to.users == st.users[u := V.(queued := V.queued - F.octets, attached := V.attached && !idle,
                                            units := Detach(V.units, f))]
            && to.buckets == if V.attached && idle
                             then st.buckets[b := st.buckets[b].(units := Detach(st.buckets[b].units, u))]
                             else st.buckets
  {
  }

  lemma DetachCounts(net: Net, st: State, f: FlowId, busy: Option<Ctl>)
    requires Inv(net, st, busy) && Parked(net, st, f)
    ensures CountsOk(net, FlowDetach(net, st, f))
  {
    hide QueuedAt, OctetsAt, WeightAt, BucketOctets, BucketWeight, FlowDetach, FlowsOk, UsersOk, BucketsOk, Progress;
    var to := FlowDetach(net, st, f);
    DetachEffect(net, st, f);
    forall u | u in to.users ensures UserCounts(net, to.flows, u, to.users[u]) {
      assert UserCounts(net, st.flows, u, st.users[u]);
      QueuedChange(net, st.flows, f, to.flows[f], u);
      OctetsChange(net, st.flows, f, to.flows[f], u);
      WeightChange(net, st.flows, f, to.flows[f], u);
    }
    forall b | b in to.buckets ensures BucketCounts(net, to.users, b, to.buckets[b]) {
      assert BucketCounts(net, st.users, b, st.buckets[b]);
      BucketSumsSame(net, st.users, to.users, b);
    }
  }

  lemma DetachFlows(net: Net, st: State, f: FlowId, busy: Option<Ctl>)
    requires Inv(net, st, busy) && Parked(net, st, f)
    ensures var to := FlowDetach(net, st, f); forall x :: x in to.flows && x != f ==> FlowOk(net, to, x)
  {
    hide FlowDetach, CountsOk, Progress, BucketsOk, UsersOk, Length;
    var to := FlowDetach(net, st, f);
    DetachEffect(net, st, f);
    forall x | x in to.flows && x != f ensures FlowOk(net, to, x) { assert FlowOk(net, st, x); }
  }

  lemma DetachUserLists(net: Net, st: State, f: FlowId, x: UserId)
    requires Parked(net, st, f) && x in st.users && UserLists(net, st, x)
    requires st.buckets[net.BucketOf(Host(net, st, f))].units.Valid()
    ensures var to := FlowDetach(net, st, f); x in to.users && UserLists(net, to, x)
  {
    hide FlowDetach, Drr.Valid;
    var to := FlowDetach(net, st, f);
    DetachEffect(net, st, f);
    KeepsValid(st.users[x].units, f, 0, 0, 0);
    if x == Host(net, st, f) {
      assert forall g :: g in to.users[x].units.order ==> g in st.users[x].units.order && g != f;
    } else {
      assert to.users[x] == st.users[x];
      assert forall g :: g in st.users[x].units.order ==> g != f;
    }
  }

  lemma DetachBucket(net: Net, st: State, f: FlowId, b: BucketId)
    requires Parked(net, st, f) && b in st.buckets && BucketOk(net, st, b)
    ensures var to := FlowDetach(net, st, f); b in to.buckets && BucketOk(net, to, b)
  {
    hide FlowDetach, Drr.Valid;
    DetachEffect(net, st, f);
    KeepsValid(st.buckets[b].units, Host(net, st, f), 0, 0, 0);
  }

  lemma DetachProgress(net: Net, st: State, f: FlowId, x: UserId, busy: Option<Ctl>)
    requires Parked(net, st, f) && x in st.users && UserOk(net, st, x) && UserProgress(net, st, x, busy)
    requires var to := FlowDetach(net, st, f);
             x in to.users && UserLists(net, to, x) && (to.users[x].queued == 0 <==> to.users[x].units.order == [])
    ensures var to := FlowDetach(net, st, f); UserOk(net, to, x) && UserProgress(net, to, x, busy)
  {
    hide FlowDetach, Drr.Valid;
    var to := FlowDetach(net, st, f);
    DetachEffect(net, st, f);
    if x == Host(net, st, f) && to.users[x].units.order != [] {
      assert to.users[x].units.order[0] in to.users[x].units.order;
      NoMembers(st.users[x].units.order);
    }
  }

  /** A user's unit is empty exactly when no flow is parked under it, with one flow loose. */
  lemma LooseQueued(net: Net, st: State, f: FlowId, u: UserId)
    requires Domains(net, st) && f in st.flows && st.flows[f].parked == None && u in st.users && UserLists(net, st, u)
    requires forall x :: x in st.flows && x != f ==> FlowOk(net, st, x)
    requires st.users[u].queued == QueuedAt(net, st.flows, u)
    ensures st.users[u].queued == 0 <==> st.users[u].units.order == []
  {
    hide QueuedAt, OctetsAt;
    var idle := st.(flows := st.flows[f := Flow([], 0, None, 0)]);
    QueuedChange(net, st.flows, f, Flow([], 0, None, 0), u);
    forall x | x in idle.flows ensures FlowOk(net, idle, x) { }
    QueuedIsZero(net, idle, u);
  }

  lemma DetachKeeps(net: Net, st: State, f: FlowId, busy: Option<Ctl>)
    requires Inv(net, st, busy) && Parked(net, st, f)
    ensures var to := FlowDetach(net, st, f); Loose(net, to, f, busy) && CountsOk(net, to)
  {
    hide FlowDetach, FlowsOk, FlowOk, QueuedAt, OctetsAt, WeightAt, BucketOctets, BucketWeight, UserLists, UserProgress,
      BucketOk, Net.Valid;
    var to := FlowDetach(net, st, f);
    DetachEffect(net, st, f);
    DetachCounts(net, st, f, busy);
    DetachFlows(net, st, f, busy);
    ListsValid(net, st, busy);
    forall b | b in to.buckets ensures BucketOk(net, to, b) { DetachBucket(net, st, f, b); }
    forall x | x in to.users ensures UserOk(net, to, x) && UserProgress(net, to, x, busy) {
      DetachUserLists(net, st, f, x);
      assert UserCounts(net, to.flows, x, to.users[x]);
      LooseQueued(net, to, f, x);
      DetachProgress(net, st, f, x, busy);
    }
  }

  lemma BlocksAfterDetach(net: Net, st: State, f: FlowId, rule: nat)
    requires Parked(net, st, f) && Blocks(net, st, f, rule)
    ensures Blocks(net, FlowDetach(net, st, f), f, rule)
    ensures var to := FlowDetach(net, st, f);
            f in to.flows && to.flows[f].packets == st.flows[f].packets && to.flows[f].octets == st.flows[f].octets
  {
    DetachEffect(net, st, f);
  }

  /** Moving a flow under another controller that blocks it keeps the invariant: both units and
      both lists follow, and no total changes. */
  lemma SwitchKeeps(net: Net, st: State, f: FlowId, rule: nat, busy: Option<Ctl>)
    requires Inv(net, st, busy) && Parked(net, st, f) && Blocks(net, st, f, rule)
    ensures Known(net, FlowDetach(net, st, f), net.UserOf(f, rule))
    ensures Known(net, st, net.UserOf(f, rule)) && Inv(net, Switch(net, st, f, rule), busy)
  {
    hide Inv, FlowDetach, Loose, CountsOk, Place, FlowAttach, Structure, Blocks, Behind;
    var mid := FlowDetach(net, st, f);
    QueueNotEmpty(net, st, f, busy);
    DetachKeeps(net, st, f, busy);
    BlocksAfterDetach(net, st, f, rule);
    LooseLists(net, mid, f, rule, busy);
    BlocksKnown(net, st, f, rule);
    AttachIsPlace(net, mid, f, rule);
    PlaceKeeps(net, mid, f, rule, mid.flows[f], busy);
    LooseDomains(net, mid, f, busy);
    PlaceBehind(net, mid, f, rule, mid.flows[f]);
    PlacedFlow(net, mid, f, rule, mid.flows[f]);
    BehindNothing(net, Place(net, mid, f, rule, mid.flows[f]), f, mid.flows[f]);
    StructureAndCounts(net, Place(net, mid, f, rule, mid.flows[f]), busy);
  }

  lemma BlocksKnown(net: Net, st: State, f: FlowId, rule: nat)
    requires Blocks(net, st, f, rule)
    ensures Known(net, st, net.UserOf(f, rule))
  {
  }

  lemma LooseDomains(net: Net, st: State, f: FlowId, busy: Option<Ctl>)
    requires Loose(net, st, f, busy)
    ensures Domains(net, st) && f in st.flows && st.flows[f].parked == None
  {
  }

  lemma StructureAndCounts(net: Net, st: State, busy: Option<Ctl>)
    requires Structure(net, st, busy) && CountsOk(net, st)
    ensures Inv(net, st, busy)
  {
  }

  /** When a flow only moved, the accounts are not behind. */
  lemma BehindNothing(net: Net, st: State, f: FlowId, F: Flow)
    requires f in st.flows && Behind(net, st, f, F) && F.octets == st.flows[f].octets && F.packets == st.flows[f].packets
    ensures CountsOk(net, st)
  {
    hide QueuedAt, OctetsAt, WeightAt, BucketOctets, BucketWeight;
    forall u | u in st.users ensures UserCounts(net, st.flows, u, st.users[u]) {
      OctetsChange(net, st.flows, f, F, u);
      WeightChange(net, st.flows, f, F, u);
    }
  }

  // ----- Controllers and units -----

  /** Two states that differ in nothing but tokens, with more controllers on the wheel. */
  ghost predicate MorePending(st: State, to: State) {
    && to.flows == st.flows && to.users.Keys == st.users.Keys && to.buckets.Keys == st.buckets.Keys
    && (forall u :: u in st.users ==>
          to.users[u].(tc := st.users[u].tc) == st.users[u] && (st.users[u].tc.pending ==> to.users[u].tc.pending))
    && (forall b :: b in st.buckets ==>
          to.buckets[b].(tc := st.buckets[b].tc) == st.buckets[b] && (st.buckets[b].tc.pending ==> to.buckets[b].tc.pending))
  }

  lemma MorePendingKeeps(net: Net, st: State, to: State, busy: Option<Ctl>)
    requires Inv(net, st, busy) && MorePending(st, to)
    ensures Inv(net, to, busy)
  {
    hide CountsOk, Drr.Valid, Length, Net.Valid;
    CountsCarry(net, st, to);
    ListsValid(net, st, busy);
    forall f | f in to.flows ensures FlowOk(net, to, f) { assert FlowOk(net, st, f); }
    forall u | u in to.users ensures UserOk(net, to, u) && UserProgress(net, to, u, busy) {
      assert UserOk(net, st, u) && UserProgress(net, st, u, busy);
    }
    forall b | b in to.buckets ensures BucketOk(net, to, b) { assert BucketOk(net, st, b); }
  }

  /** The flows, their lists and the accounts are as they were; the rest is given. */
  lemma InvCarries(net: Net, st: State, to: State, busy: Option<Ctl>, after: Option<Ctl>)
    requires Inv(net, st, busy) && SameCounts(st, to)
    requires forall u :: u in st.users ==> to.users[u].units == st.users[u].units
    requires forall u :: u in to.users ==> UserOk(net, to, u) && UserProgress(net, to, u, after)
    requires forall b :: b in to.buckets ==> BucketOk(net, to, b)
    ensures Inv(net, to, after)
  {
    hide CountsOk, UserLists, UserProgress, BucketOk, Length, Net.Valid;
    CountsCarry(net, st, to);
    forall f | f in to.flows ensures FlowOk(net, to, f) { assert FlowOk(net, st, f); }
  }

  /** tbq_timer_del and the clearing of the inactive mask, on the controller that wakes up. */
  lemma WakeUserKeeps(net: Net, st: State, u: UserId)
    requires Inv(net, st, None) && u in st.users
    ensures Inv(net, SetTok(st, U(u), st.users[u].tc.(pending := false)), Some(U(u)))
  {
    hide CountsOk, FlowsOk, Drr.Valid, Net.Valid;
    var to := SetTok(st, U(u), st.users[u].tc.(pending := false));
    ListsValid(net, st, None);
    forall x | x in to.users ensures UserOk(net, to, x) && UserProgress(net, to, x, Some(U(u))) {
      assert UserOk(net, st, x) && UserProgress(net, st, x, None);
    }
    InvCarries(net, st, to, None, Some(U(u)));
  }

  lemma WakeBucketKeeps(net: Net, st: State, b: BucketId)
    requires Inv(net, st, None) && b in st.buckets
    ensures Inv(net, SetTok(st, B(b), st.buckets[b].tc.(pending := false)), Some(B(b)))
  {
    hide CountsOk, FlowsOk, Drr.Valid, Net.Valid;
    var to := SetTok(st, B(b), st.buckets[b].tc.(pending := false));
    ListsValid(net, st, None);
    forall x | x in to.users ensures UserOk(net, to, x) && UserProgress(net, to, x, Some(B(b))) {
      assert UserOk(net, st, x) && UserProgress(net, st, x, None);
    }
    InvCarries(net, st, to, None, Some(B(b)));
  }

  lemma AttachUnitUser(net: Net, st: State, u: UserId, x: UserId, busy: Option<Ctl>)
    requires Known(net, st, u) && st.users[u].units.order != [] && st.buckets[net.BucketOf(u)].tc.pending
    requires x in st.users && UserOk(net, st, x) && UserProgress(net, st, x, busy)
    requires st.buckets[net.BucketOf(u)].units.Valid()
    ensures var to := AttachUnit(net, st, u); x in to.users && UserOk(net, to, x) && UserProgress(net, to, x, busy)
  {
    hide Attach, Drr.Valid;
    AttachMembers(st.buckets[net.BucketOf(u)].units, u, net.userWeight(u), net.userWeight(u));
  }

  lemma AttachUnitBucket(net: Net, st: State, u: UserId, b: BucketId)
    requires Known(net, st, u) && b in st.buckets && BucketOk(net, st, b)
    ensures var to := AttachUnit(net, st, u); b in to.buckets && BucketOk(net, to, b)
  {
    hide Attach, Drr.Valid;
    AttachMembers(st.buckets[b].units, u, net.userWeight(u), net.userWeight(u));
  }

  /** tbq_user_dequeue hands its user over to a bucket that is on the wheel (tbq_core.c:1052). */
  lemma AttachUnitKeeps(net: Net, st: State, u: UserId, busy: Option<Ctl>)
    requires Inv(net, st, busy) && Known(net, st, u)
    requires st.users[u].units.order != [] && st.buckets[net.BucketOf(u)].tc.pending
    ensures Inv(net, AttachUnit(net, st, u), busy)
  {
    hide CountsOk, FlowsOk, Attach, UserLists, UserProgress, BucketOk, Net.Valid;
    var to := AttachUnit(net, st, u);
    ListsValid(net, st, busy);
    forall x | x in to.users ensures UserOk(net, to, x) && UserProgress(net, to, x, busy) {
      AttachUnitUser(net, st, u, x, busy);
    }
    forall b | b in to.buckets ensures BucketOk(net, to, b) { AttachUnitBucket(net, st, u, b); }
    InvCarries(net, st, to, busy, busy);
  }

  lemma DetachUnitUser(net: Net, st: State, u: UserId, x: UserId, busy: Option<Ctl>)
    requires Known(net, st, u) && st.users[u].tc.pending && st.buckets[net.BucketOf(u)].units.Valid()
    requires x in st.users && UserOk(net, st, x) && UserProgress(net, st, x, busy)
    ensures var to := DetachUnit(net, st, u); x in to.users && UserOk(net, to, x) && UserProgress(net, to, x, busy)
  {
    hide Detach, Drr.Valid;
    DetachMembers(st.buckets[net.BucketOf(u)].units, u);
  }

  lemma DetachUnitBucket(net: Net, st: State, u: UserId, b: BucketId)
    requires Known(net, st, u) && b in st.buckets && BucketOk(net, st, b)
    ensures var to := DetachUnit(net, st, u); b in to.buckets && BucketOk(net, to, b)
  {
    hide Detach, Drr.Valid;
    DetachMembers(st.buckets[b].units, u);
  }

  /** tbq_bucket_dequeue lets go of a user that is on the wheel itself (tbq_core.c:1076). */
  lemma DetachUnitKeeps(net: Net, st: State, u: UserId, busy: Option<Ctl>)
    requires Inv(net, st, busy) && Known(net, st, u) && st.users[u].tc.pending
    ensures Inv(net, DetachUnit(net, st, u), busy)
  {
    hide CountsOk, FlowsOk, Detach, UserLists, UserProgress, BucketOk, Net.Valid;
    var to := DetachUnit(net, st, u);
    ListsValid(net, st, busy);
    forall x | x in to.users ensures UserOk(net, to, x) && UserProgress(net, to, x, busy) {
      DetachUnitUser(net, st, u, x, busy);
    }
    forall b | b in to.buckets ensures BucketOk(net, to, b) { DetachUnitBucket(net, st, u, b); }
    InvCarries(net, st, to, busy, busy);
  }

  lemma DetachMembers<K(!new)>(d: Drr<K>, k: K)
    requires d.Valid()
    ensures var r := Detach(d, k);
            r.Valid() && (forall x :: x in r.order <==> x != k && x in d.order)
            && (k in d.order ==> |r.order| == |d.order| - 1)
  {
    KeepsValid(d, k, 0, 0, 0);
    WithoutNoDup(d.order, k);
  }

  /** The end of a dequeue loop: its controller is back on the wheel, or has nothing left, or has
      handed its flows to its bucket. */
  lemma UserLoopDone(net: Net, st: State, u: UserId)
    requires Inv(net, st, Some(U(u))) && u in st.users
    requires st.users[u].tc.pending || st.users[u].units.order == [] || st.users[u].attached
    ensures Inv(net, st, None)
  {
    forall x | x in st.users ensures UserProgress(net, st, x, None) {
      assert UserProgress(net, st, x, Some(U(u)));
    }
  }

  lemma BucketLoopDone(net: Net, st: State, b: BucketId)
    requires Inv(net, st, Some(B(b))) && b in st.buckets
    requires st.buckets[b].tc.pending || st.buckets[b].units.order == []
    ensures Inv(net, st, None)
  {
    forall x | x in st.users ensures UserProgress(net, st, x, None) {
      assert UserOk(net, st, x) && UserProgress(net, st, x, Some(B(b)));
    }
  }
}

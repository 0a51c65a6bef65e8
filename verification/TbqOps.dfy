/** The operations of the scheduler on its backlog, each as the composition of the source's own
    small functions, with the proof that it keeps the accounts and the parking of flows. */
module TbqOps {
  import opened Basics
  import opened TbqDrr
  import opened TbqState

  // ----- The source's functions -----

  predicate Known(net: Net, st: State, u: UserId) {
    u in st.users && net.BucketOf(u) in st.buckets
  }

  /** tbq_backlog_attach of a user's unit to its bucket. */
  function AttachUnit(net: Net, st: State, u: UserId): State
    requires Known(net, st, u)
  {
    if st.users[u].attached then st
    else
      var b := net.BucketOf(u);
      var C := st.buckets[b];
      st.(users := st.users[u := st.users[u].(attached := true)],
          buckets := st.buckets[b := C.(units := Attach(C.units, u, net.userWeight(u), net.userWeight(u)))])
  }

  /** tbq_backlog_detach of a user's unit. */
  function DetachUnit(net: Net, st: State, u: UserId): State
    requires Known(net, st, u)
  {
    if !st.users[u].attached then st
    else
      var b := net.BucketOf(u);
      var C := st.buckets[b];
      st.(users := st.users[u := st.users[u].(attached := false)],
          buckets := st.buckets[b := C.(units := Detach(C.units, u))])
  }

  /** tbq_backlog_enqueue and tbq_backlog_dequeue on a user's unit: the latter detaches it when
      nothing is left under it. */
  function UnitAdd(net: Net, st: State, u: UserId, octets: int): State
    requires Known(net, st, u)
  {
    st.(users := st.users[u := st.users[u].(queued := st.users[u].queued + octets)])
  }

  function UnitRemove(net: Net, st: State, u: UserId, octets: int): State
    requires Known(net, st, u)
  {
    var less := UnitAdd(net, st, u, -octets);
    if less.users[u].queued == 0 then DetachUnit(net, less, u) else less
  }

  predicate Parked(net: Net, st: State, f: FlowId) {
    f in st.flows && st.flows[f].parked.Some? && Known(net, st, net.UserOf(f, st.flows[f].parked.value))
  }

  function Host(net: Net, st: State, f: FlowId): UserId
    requires Parked(net, st, f)
  {
    net.UserOf(f, st.flows[f].parked.value)
  }

  /** tbq_flow_backlog_attach (tbq_core.c:816-837): the deficit is worth the weight of the flow's
      previous attachment, since the weight is stored last. */
  function FlowAttach(net: Net, st: State, f: FlowId, rule: nat): State
    requires f in st.flows && Known(net, st, net.UserOf(f, rule))
  {
    var u := net.UserOf(f, rule);
    var F := st.flows[f];
    var st1 := if st.buckets[net.BucketOf(u)].tc.pending then AttachUnit(net, st, u) else st;
    var st2 := UnitAdd(net, st1, u, F.octets);
    var V := st2.users[u];
    st2.(users := st2.users[u := V.(units := Attach(V.units, f, F.weight, net.weight(f, rule)))],
         flows := st2.flows[f := F.(parked := Some(rule), weight := net.weight(f, rule))])
  }

  /** tbq_backlog_detach of a flow. */
  function Unpark(net: Net, st: State, f: FlowId): State
    requires Parked(net, st, f)
  {
    var u := Host(net, st, f);
    var V := st.users[u];
    st.(users := st.users[u := V.(units := Detach(V.units, f))], flows := st.flows[f := st.flows[f].(parked := None)])
  }

  /** tbq_flow_backlog_detach */
  function FlowDetach(net: Net, st: State, f: FlowId): State
    requires Parked(net, st, f)
  {
    Unpark(net, UnitRemove(net, st, Host(net, st, f), st.flows[f].octets), f)
  }

  /** tbq_flow_backlog_enqueue */
  function FlowEnqueue(net: Net, st: State, f: FlowId, p: Packet): State
    requires Parked(net, st, f)
  {
    var F := st.flows[f];
    UnitAdd(net, st, Host(net, st, f), p.length)
      .(flows := st.flows[f := F.(packets := F.packets + [p], octets := F.octets + p.length)])
  }

  /** tbq_flow_backlog_dequeue: what is left of the queue is given. */
  function FlowDequeue(net: Net, st: State, f: FlowId, left: seq<Packet>, length: nat): State
    requires Parked(net, st, f)
  {
    var F := st.flows[f];
    var st1 := UnitRemove(net, st, Host(net, st, f), length);
    var st2 := st1.(flows := st1.flows[f := F.(packets := left, octets := F.octets - length)]);
    if F.octets - length == 0 then Unpark(net, st2, f) else st2
  }

  /** tbq_user_backlog_update on one user and on its bucket. */
  function UpdatedUser(net: Net, f: FlowId, u: UserId, V: User, delta: int, sign: int): User {
    if net.Matches(f, u)
    then V.(octets := V.octets + delta,
            weight := V.weight + (if sign > 0 then net.weight(f, u.rule) else if sign < 0 then 0 - net.weight(f, u.rule) else 0))
    else V
  }

  function UpdatedBucket(net: Net, users: map<UserId, User>, f: FlowId, b: BucketId, C: Bucket, delta: int): Bucket {
    var u := UserId(net.lane(f), b.rule);
    if net.Matches(f, u) && net.BucketOf(u) == b && u in users then
      C.(octets := C.octets + delta,
         weight := C.weight + (if users[u].octets == 0 then net.userWeight(u) else 0)
                            - (if users[u].octets + delta == 0 then net.userWeight(u) else 0))
    else C
  }

  /** tbq_packet_ctrl_backlog_update: every rule of the flow; `sign` is 1 when the flow has just
      become backlogged, -1 when it has just been emptied, else 0. */
  function BacklogUpdate(net: Net, st: State, f: FlowId, delta: int, sign: int): State {
    st.(users := map u | u in st.users :: UpdatedUser(net, f, u, st.users[u], delta, sign),
        buckets := map b | b in st.buckets :: UpdatedBucket(net, st.users, f, b, st.buckets[b], delta))
  }

  // ----- The operations between which the invariant holds -----

  /** tbq_enqueue on a flow with an empty backlog that has to wait (tbq_core.c:960-979). */
  function EnqueueFirst(net: Net, st: State, f: FlowId, rule: nat, p: Packet): State
    requires f in st.flows && Known(net, st, net.UserOf(f, rule))
  {
    BacklogUpdate(net, FlowEnqueue(net, FlowAttach(net, st, f, rule), f, p), f, p.length, 1)
  }

  /** tbq_enqueue on a flow that already waits. */
  function EnqueueMore(net: Net, st: State, f: FlowId, p: Packet): State
    requires Parked(net, st, f)
  {
    BacklogUpdate(net, FlowEnqueue(net, st, f, p), f, p.length, 0)
  }

  /** Taking a packet off either end of the queue. */
  function Take(net: Net, st: State, f: FlowId, left: seq<Packet>, length: nat): State
    requires Parked(net, st, f)
  {
    var emptied := st.flows[f].octets - length == 0;
    BacklogUpdate(net, FlowDequeue(net, st, f, left, length), f, 0 - length, if emptied then -1 else 0)
  }

  /** One turn of the drop loop (tbq_core.c:911-920): the newest packet goes. */
  function DropNewest(net: Net, st: State, f: FlowId): State
    requires Parked(net, st, f) && st.flows[f].packets != []
  {
    var ps := st.flows[f].packets;
    Take(net, st, f, ps[..|ps| - 1], ps[|ps| - 1].length)
  }

  /** tbq_flow_backlog_drr_schedule (tbq_core.c:805-814). */
  function FlowSchedule(net: Net, st: State, f: FlowId, length: nat): State
    requires Parked(net, st, f)
  {
    var u := Host(net, st, f);
    var b := net.BucketOf(u);
    var V, C := st.users[u], st.buckets[b];
    var units := if f in V.units.deficit && f in V.units.weight then Schedule(V.units, f, length) else V.units;
    var st1 := st.(users := st.users[u := V.(units := units)]);
    if V.attached && u in C.units.deficit && u in C.units.weight
    then st1.(buckets := st.buckets[b := C.(units := Schedule(C.units, u, length))])
    else st1
  }

  /** Releasing the oldest packet of a flow that could pay (tbq_core.c:1029-1036). */
  function ReleaseOldest(net: Net, st: State, f: FlowId): State
    requires Parked(net, st, f) && st.flows[f].packets != []
  {
    var ps := st.flows[f].packets;
    Take(net, FlowSchedule(net, st, f, ps[0].length), f, ps[1..], ps[0].length)
  }

  /** Moving a flow to the controller that blocks it (tbq_core.c:1018-1027). */
  function Switch(net: Net, st: State, f: FlowId, rule: nat): State
    requires Parked(net, st, f) && Known(net, st, net.UserOf(f, rule))
  {
    FlowAttach(net, FlowDetach(net, st, f), f, rule)
  }
}

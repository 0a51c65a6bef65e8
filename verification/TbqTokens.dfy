/** The backlog operations leave the controllers' tokens, and so the wheel, alone; and what they
    do to the counts that the dequeue loops go by. */
module TbqTokens {
  import opened Basics
  import opened Sums
  import opened TbqDrr
  import opened TbqState
  import opened TbqOps
  import opened TbqKeep
  import opened TbqWheel

  ghost predicate SameTokens(st: State, to: State) {
    && to.users.Keys == st.users.Keys && to.buckets.Keys == st.buckets.Keys
    && (forall u :: u in st.users ==> to.users[u].tc == st.users[u].tc)
    && (forall b :: b in st.buckets ==> to.buckets[b].tc == st.buckets[b].tc)
  }

  lemma SameTokensSameTok(st: State, to: State)
    requires SameTokens(st, to)
    ensures forall c :: Exists(to, c) <==> Exists(st, c)
    ensures forall c :: Exists(st, c) ==> Tok(to, c) == Tok(st, c)
  {
  }

  lemma WheelCarries(st: State, to: State, slots: seq<seq<Ctl>>, work: seq<Ctl>, position: int)
    requires SameTokens(st, to) && WheelOk(st, slots, work, position)
    ensures WheelOk(to, slots, work, position)
  {
    hide SameTokens;
    SameTokensSameTok(st, to);
    forall k | 0 <= k < SLOTS ensures SlotOk(to, slots[k], k, position) {
      assert SlotOk(st, slots[k], k, position);
    }
  }

  lemma TakeTokens(net: Net, st: State, f: FlowId, left: seq<Packet>, length: nat)
    requires Parked(net, st, f)
    ensures SameTokens(st, Take(net, st, f, left, length))
  {
    hide FlowDequeue;
    DequeueEffect(net, st, f, left, length);
  }

  lemma ScheduleTokens(net: Net, st: State, f: FlowId, length: nat)
    requires Parked(net, st, f)
    ensures SameTokens(st, FlowSchedule(net, st, f, length))
  {
  }

  lemma EnqueueFirstTokens(net: Net, st: State, f: FlowId, rule: nat, p: Packet)
    requires f in st.flows && Known(net, st, net.UserOf(f, rule))
    ensures SameTokens(st, EnqueueFirst(net, st, f, rule, p))
  {
    hide FlowAttach, FlowEnqueue;
    AttachEnqueueIsPlace(net, st, f, rule, p);
  }

  lemma EnqueueMoreTokens(net: Net, st: State, f: FlowId, p: Packet)
    requires Parked(net, st, f)
    ensures SameTokens(st, EnqueueMore(net, st, f, p))
  {
  }

  lemma DetachTokens(net: Net, st: State, f: FlowId)
    requires Parked(net, st, f)
    ensures SameTokens(st, FlowDetach(net, st, f))
  {
    hide FlowDetach;
    DetachEffect(net, st, f);
  }

  lemma AttachTokens(net: Net, st: State, f: FlowId, rule: nat)
    requires f in st.flows && Known(net, st, net.UserOf(f, rule))
    ensures SameTokens(st, FlowAttach(net, st, f, rule))
  {
    hide FlowAttach;
    AttachIsPlace(net, st, f, rule);
  }

  lemma SwitchTokens(net: Net, st: State, f: FlowId, rule: nat)
    requires Parked(net, st, f) && Known(net, st, net.UserOf(f, rule))
    ensures Known(net, FlowDetach(net, st, f), net.UserOf(f, rule))
    ensures SameTokens(st, Switch(net, st, f, rule))
  {
    DetachTokens(net, st, f);
    DetachEffect(net, st, f);
    hide FlowAttach, FlowDetach;
    AttachTokens(net, FlowDetach(net, st, f), f, rule);
  }

  lemma UnitTokens(net: Net, st: State, u: UserId)
    requires Known(net, st, u)
    ensures SameTokens(st, AttachUnit(net, st, u)) && SameTokens(st, DetachUnit(net, st, u))
  {
  }

  // ----- What each operation does to the flow -----

  lemma TakeFlow(net: Net, st: State, f: FlowId, left: seq<Packet>, length: nat)
    requires Parked(net, st, f)
    ensures var to := Take(net, st, f, left, length);
            var F := st.flows[f];
            to.flows == st.flows[f := F.(packets := left, octets := F.octets - length,
                                         parked := if F.octets - length == 0 then None else F.parked)]
  {
    hide FlowDequeue;
    DequeueEffect(net, st, f, left, length);
  }

  lemma EnqueueFirstFlow(net: Net, st: State, f: FlowId, rule: nat, p: Packet)
    requires f in st.flows && Known(net, st, net.UserOf(f, rule))
    ensures var F := st.flows[f];
            EnqueueFirst(net, st, f, rule, p).flows
            == st.flows[f := Flow(F.packets + [p], F.octets + p.length, Some(rule), net.weight(f, rule))]
  {
    hide FlowAttach, FlowEnqueue;
    AttachEnqueueIsPlace(net, st, f, rule, p);
  }

  lemma EnqueueMoreFlows(net: Net, st: State, f: FlowId, p: Packet)
    requires Parked(net, st, f)
    ensures var F := st.flows[f];
            EnqueueMore(net, st, f, p).flows == st.flows[f := F.(packets := F.packets + [p], octets := F.octets + p.length)]
  {
  }

  lemma SwitchFlow(net: Net, st: State, f: FlowId, rule: nat)
    requires Parked(net, st, f) && Known(net, st, net.UserOf(f, rule))
    ensures Known(net, FlowDetach(net, st, f), net.UserOf(f, rule))
    ensures Switch(net, st, f, rule).flows
            == st.flows[f := st.flows[f].(parked := Some(rule), weight := net.weight(f, rule))]
  {
    hide FlowAttach, FlowDetach;
    DetachEffect(net, st, f);
    AttachIsPlace(net, FlowDetach(net, st, f), f, rule);
  }

  // ----- Lists of units -----

  /** While a flow keeps packets, taking one off its queue leaves every list as it was. */
  lemma TakeLists(net: Net, st: State, f: FlowId, left: seq<Packet>, length: nat, busy: Option<Ctl>)
    requires Inv(net, st, busy) && Parked(net, st, f) && Remains(st.flows[f], left, length) && left != []
    ensures var to := Take(net, st, f, left, length);
            && to.users.Keys == st.users.Keys && to.buckets.Keys == st.buckets.Keys
            && (forall x :: x in st.users ==> to.users[x].units == st.users[x].units && to.users[x].attached == st.users[x].attached)
            && (forall b :: b in st.buckets ==> to.buckets[b].units == st.buckets[b].units)
  {
    hide FlowDequeue, Inv;
    LengthPositive(left);
    InvParked(net, st, f, busy);
    QueueNotEmpty(net, st, f, busy);
    DequeueEffect(net, st, f, left, length);
  }

  /** What a switch does to the lists: the flow leaves its host, whose unit may leave its bucket;
      no other list of that bucket's users changes. */
  lemma SwitchLists(net: Net, st: State, f: FlowId, rule: nat)
    requires Parked(net, st, f) && Known(net, st, net.UserOf(f, rule)) && Some(rule) != st.flows[f].parked
    ensures Known(net, FlowDetach(net, st, f), net.UserOf(f, rule))
    ensures var to := Switch(net, st, f, rule);
            var u := Host(net, st, f);
            var b := net.BucketOf(u);
            && u in to.users && to.users[u].units == Detach(st.users[u].units, f)
            && (to.users[u].attached ==> st.users[u].attached)
            && to.users.Keys == st.users.Keys
            && (forall x :: x in st.users && x != u && net.BucketOf(x) == b ==> to.users[x].units == st.users[x].units)
            && b in to.buckets
            && (to.buckets[b].units == st.buckets[b].units || to.buckets[b].units == Detach(st.buckets[b].units, u))
  {
    hide FlowAttach, FlowDetach, Detach, Attach;
    DetachEffect(net, st, f);
    AttachIsPlace(net, FlowDetach(net, st, f), f, rule);
  }

  /** Flows parked under the users of a bucket. */
  ghost function Listed(net: Net, st: State, b: BucketId): int {
    Sum(net.users, u => if u in st.users && net.BucketOf(u) == b then |st.users[u].units.order| else 0)
  }

  lemma SwitchListed(net: Net, st: State, f: FlowId, rule: nat, busy: Option<Ctl>)
    requires Inv(net, st, busy) && Parked(net, st, f) && Known(net, st, net.UserOf(f, rule))
    requires Some(rule) != st.flows[f].parked
    ensures Known(net, FlowDetach(net, st, f), net.UserOf(f, rule))
    ensures var to := Switch(net, st, f, rule);
            var u := Host(net, st, f);
            var b := net.BucketOf(u);
            && u in to.users && |to.users[u].units.order| == |st.users[u].units.order| - 1
            && Listed(net, to, b) == Listed(net, st, b) - 1
            && b in to.buckets && |to.buckets[b].units.order| <= |st.buckets[b].units.order|
  {
    hide Switch, CountsOk, FlowsOk, Progress, Listed, Detach, Drr.Valid;
    SwitchLists(net, st, f, rule);
    InvParked(net, st, f, busy);
    ListsValid(net, st, busy);
    var to := Switch(net, st, f, rule);
    var u := Host(net, st, f);
    var b := net.BucketOf(u);
    DetachMembers(st.users[u].units, f);
    DetachMembers(st.buckets[b].units, u);
    DetachShrinks(st.buckets[b].units, u);
    ListedChange(net, st, to, b, u);
  }

  lemma ListedChange(net: Net, st: State, to: State, b: BucketId, u: UserId)
    requires st.users.Keys == to.users.Keys && u in net.users && u in st.users && net.BucketOf(u) == b
    requires forall x :: x in st.users && x != u && net.BucketOf(x) == b ==> to.users[x].units == st.users[x].units
    ensures Listed(net, to, b) == Listed(net, st, b) - |st.users[u].units.order| + |to.users[u].units.order|
  {
    SumChange(net.users, x => if x in st.users && net.BucketOf(x) == b then |st.users[x].units.order| else 0,
              x => if x in to.users && net.BucketOf(x) == b then |to.users[x].units.order| else 0, u);
  }

  lemma DetachShrinks<K(!new)>(d: Drr<K>, k: K)
    requires d.Valid()
    ensures |Detach(d, k).order| <= |d.order|
  {
    WithoutNoDup(d.order, k);
  }

  lemma ListedNonNegative(net: Net, st: State, b: BucketId)
    ensures 0 <= Listed(net, st, b)
  {
    SumNonNegative(net.users, u => if u in st.users && net.BucketOf(u) == b then |st.users[u].units.order| else 0);
  }

  lemma CountNonNegative(net: Net, flows: map<FlowId, Flow>)
    ensures 0 <= PacketCount(net, flows)
  {
    SumNonNegative(net.flows, f => if f in flows then |flows[f].packets| else 0);
  }
}

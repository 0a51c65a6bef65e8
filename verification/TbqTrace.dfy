/** The lists of a state, and the turns by which the operations of the scheduler change them. */
module TbqTrace {
  import opened Basics
  import opened TbqDrr
  import opened TbqState
  import TbqToken
  import opened TbqWheel
  import opened TbqOps
  import opened TbqKeep
  import opened TbqTurns
  import opened TbqPaid

  ghost function ListsOf(st: State): Lists {
    Lists(map u | u in st.users :: st.users[u].units, map b | b in st.buckets :: st.buckets[b].units)
  }

  ghost function NoLists(net: Net): Lists {
    Lists(map u | u in net.users :: Empty<FlowId>(), map b | b in net.buckets :: Empty<UserId>())
  }

  /** The trace leads to these lists, and accounts for every byte released. */
  ghost predicate LeadsTo(net: Net, trace: seq<Turn>, l: Lists, released: Released) {
    && IsTrace(net, NoLists(net), trace) && Final(net, NoLists(net), trace) == l
    && forall f :: f in released ==> Length(released[f]) == BytesOf(net, NoLists(net), trace, f)
  }

  ghost predicate Traced(net: Net, st: State, trace: seq<Turn>, released: Released) {
    LeadsTo(net, trace, ListsOf(st), released)
  }

  // ----- One turn -----

  lemma TurnLeads(net: Net, trace: seq<Turn>, l: Lists, released: Released, t: Turn)
    requires LeadsTo(net, trace, l, released) && Possible(net, l, t) && !t.Release? && !t.Bypass?
    ensures LeadsTo(net, trace + [t], Next(net, l, t), released)
  {
    hide Next, Possible;
    TraceSnoc(net, NoLists(net), trace, t, 0);
    forall f | f in released ensures Length(released[f]) == BytesOf(net, NoLists(net), trace + [t], f) {
      TraceSnoc(net, NoLists(net), trace, t, f);
    }
  }

  lemma ReleaseLeads(net: Net, trace: seq<Turn>, l: Lists, released: Released, t: Turn, f: FlowId, p: Packet)
    requires LeadsTo(net, trace, l, released) && Possible(net, l, t) && f in released
    requires forall g :: FlowBytes(net, l, t, g) == if g == f then p.length else 0
    ensures LeadsTo(net, trace + [t], Next(net, l, t), released[f := released[f] + [p]])
  {
    hide Next, Possible, FlowBytes;
    TraceSnoc(net, NoLists(net), trace, t, f);
    LengthSplit(released[f], [p]);
    assert Length([p]) == p.length;
    var to := released[f := released[f] + [p]];
    forall g | g in to ensures Length(to[g]) == BytesOf(net, NoLists(net), trace + [t], g) {
      TraceSnoc(net, NoLists(net), trace, t, g);
    }
  }

  // ----- Leaving -----

  /** The turns by which a flow leaves its user, or the user's unit its bucket. */
  ghost function LeaveTurns(net: Net, st: State, f: FlowId, emptied: bool, idle: bool): seq<Turn>
    requires Parked(net, st, f)
  {
    var u := Host(net, st, f);
    (if st.users[u].attached && idle then [UnitTurn(net.BucketOf(u), Go(u))] else [])
    + (if emptied then [FlowTurn(u, Go(f))] else [])
  }

  /** The lists before and after. */
  ghost predicate Leaves(net: Net, st: State, to: State, f: FlowId, emptied: bool, idle: bool)
    requires Parked(net, st, f)
  {
    var u := Host(net, st, f);
    var l := ListsOf(st);
    ListsOf(to) == Lists(
      if emptied then l.users[u := Detach(l.users[u], f)] else l.users,
      if st.users[u].attached && idle then l.buckets[net.BucketOf(u) := Detach(l.buckets[net.BucketOf(u)], u)] else l.buckets)
  }

  lemma LeaveTraced(net: Net, st: State, to: State, f: FlowId, emptied: bool, idle: bool, trace: seq<Turn>, released: Released, busy: Option<Ctl>)
    requires Inv(net, st, busy) && Parked(net, st, f) && Leaves(net, st, to, f, emptied, idle)
    requires Traced(net, st, trace, released)
    ensures Traced(net, to, trace + LeaveTurns(net, st, f, emptied, idle), released)
  {
    hide Inv, LeadsTo, Detach;
    var u := Host(net, st, f);
    var b := net.BucketOf(u);
    HostListed(net, st, f, busy);
    var l, ts := ListsOf(st), trace;
    if st.users[u].attached && idle {
      TurnLeads(net, ts, l, released, UnitTurn(b, Go(u)));
      l, ts := Next(net, l, UnitTurn(b, Go(u))), ts + [UnitTurn(b, Go(u))];
    }
    if emptied {
      TurnLeads(net, ts, l, released, FlowTurn(u, Go(f)));
      l, ts := Next(net, l, FlowTurn(u, Go(f))), ts + [FlowTurn(u, Go(f))];
    }
    assert ts == trace + LeaveTurns(net, st, f, emptied, idle);
    assert l == ListsOf(to);
  }

  lemma HostListed(net: Net, st: State, f: FlowId, busy: Option<Ctl>)
    requires Inv(net, st, busy) && Parked(net, st, f)
    ensures var u := Host(net, st, f);
            var b := net.BucketOf(u);
            && f in st.users[u].units.order && st.users[u].units.Valid() && st.buckets[b].units.Valid()
            && (st.users[u].attached <==> u in st.buckets[b].units.order)
  {
    assert FlowOk(net, st, f) && UserOk(net, st, Host(net, st, f)) && BucketOk(net, st, net.BucketOf(Host(net, st, f)));
  }

  ghost function TakeTurns(net: Net, st: State, f: FlowId, length: nat): seq<Turn>
    requires Parked(net, st, f)
  {
    LeaveTurns(net, st, f, st.flows[f].octets - length == 0, st.users[Host(net, st, f)].queued - length == 0)
  }

  lemma ShapeLists(st: State, to: State)
    requires SameShape(st, to)
    ensures ListsOf(to) == ListsOf(st)
  {
  }

  lemma DequeueLeaves(net: Net, st: State, f: FlowId, left: seq<Packet>, length: nat)
    requires Parked(net, st, f)
    ensures Leaves(net, st, FlowDequeue(net, st, f, left, length), f, st.flows[f].octets - length == 0,
                   st.users[Host(net, st, f)].queued - length == 0)
  {
    hide FlowDequeue, Detach;
    DequeueEffect(net, st, f, left, length);
  }

  lemma TakeLeaves(net: Net, st: State, f: FlowId, left: seq<Packet>, length: nat)
    requires Parked(net, st, f)
    ensures Leaves(net, st, Take(net, st, f, left, length), f, st.flows[f].octets - length == 0,
                   st.users[Host(net, st, f)].queued - length == 0)
  {
    hide FlowDequeue, BacklogUpdate, ListsOf, SameShape;
    DequeueLeaves(net, st, f, left, length);
    var emptied := st.flows[f].octets - length == 0;
    UpdateSameShape(net, FlowDequeue(net, st, f, left, length), f, 0 - length, if emptied then -1 else 0);
    ShapeLists(FlowDequeue(net, st, f, left, length), Take(net, st, f, left, length));
  }

  lemma TakeTraced(net: Net, st: State, f: FlowId, left: seq<Packet>, length: nat, trace: seq<Turn>, released: Released, busy: Option<Ctl>)
    requires Inv(net, st, busy) && Parked(net, st, f) && Traced(net, st, trace, released)
    ensures Traced(net, Take(net, st, f, left, length), trace + TakeTurns(net, st, f, length), released)
  {
    hide Inv, Leaves, LeaveTurns, Take, Traced;
    TakeLeaves(net, st, f, left, length);
    LeaveTraced(net, st, Take(net, st, f, left, length), f, st.flows[f].octets - length == 0,
                st.users[Host(net, st, f)].queued - length == 0, trace, released, busy);
  }

  lemma DropTraced(net: Net, st: State, f: FlowId, trace: seq<Turn>, released: Released, busy: Option<Ctl>)
    requires Inv(net, st, busy) && Parked(net, st, f) && st.flows[f].packets != [] && Traced(net, st, trace, released)
    ensures var q := st.flows[f].packets;
            Traced(net, DropNewest(net, st, f), trace + TakeTurns(net, st, f, q[|q| - 1].length), released)
  {
    hide Inv, Traced, Take, TakeTurns;
    var q := st.flows[f].packets;
    TakeTraced(net, st, f, q[..|q| - 1], q[|q| - 1].length, trace, released, busy);
  }

  ghost function DetachTurns(net: Net, st: State, f: FlowId): seq<Turn>
    requires Parked(net, st, f)
  {
    LeaveTurns(net, st, f, true, st.users[Host(net, st, f)].queued - st.flows[f].octets == 0)
  }

  lemma DetachTraced(net: Net, st: State, f: FlowId, trace: seq<Turn>, released: Released, busy: Option<Ctl>)
    requires Inv(net, st, busy) && Parked(net, st, f) && Traced(net, st, trace, released)
    ensures Traced(net, FlowDetach(net, st, f), trace + DetachTurns(net, st, f), released)
  {
    hide Inv, LeaveTurns, FlowDetach, Traced, Detach;
    DetachEffect(net, st, f);
    LeaveTraced(net, st, FlowDetach(net, st, f), f, true,
                st.users[Host(net, st, f)].queued - st.flows[f].octets == 0, trace, released, busy);
  }

  // ----- Joining -----

  /** The turns by which a flow parks under a user, whose unit joins its bucket if that sleeps. */
  ghost function PlaceTurns(net: Net, st: State, f: FlowId, rule: nat): seq<Turn>
    requires f in st.flows && Known(net, st, net.UserOf(f, rule))
  {
    var v := net.UserOf(f, rule);
    var c := net.BucketOf(v);
    var w := net.userWeight(v);
    (if st.buckets[c].tc.pending && !st.users[v].attached then [UnitTurn(c, Come(v, w, w))] else [])
    + [FlowTurn(v, Come(f, st.flows[f].weight, net.weight(f, rule)))]
  }

  lemma PlaceTraced(net: Net, st: State, f: FlowId, rule: nat, G: Flow, trace: seq<Turn>, released: Released, busy: Option<Ctl>)
    requires Loose(net, st, f, busy) && Known(net, st, net.UserOf(f, rule)) && Traced(net, st, trace, released)
    ensures Traced(net, Place(net, st, f, rule, G), trace + PlaceTurns(net, st, f, rule), released)
  {
    hide Loose, LeadsTo, Attach, Place;
    var v := net.UserOf(f, rule);
    var c := net.BucketOf(v);
    var w := net.userWeight(v);
    LooseListed(net, st, f, v, busy);
    var l, ts := ListsOf(st), trace;
    if st.buckets[c].tc.pending && !st.users[v].attached {
      TurnLeads(net, ts, l, released, UnitTurn(c, Come(v, w, w)));
      l, ts := Next(net, l, UnitTurn(c, Come(v, w, w))), ts + [UnitTurn(c, Come(v, w, w))];
    }
    var t := FlowTurn(v, Come(f, st.flows[f].weight, net.weight(f, rule)));
    TurnLeads(net, ts, l, released, t);
    assert ts + [t] == trace + PlaceTurns(net, st, f, rule);
    PlacedLists(net, st, f, rule, G);
  }

  lemma PlacedLists(net: Net, st: State, f: FlowId, rule: nat, G: Flow)
    requires f in st.flows && Known(net, st, net.UserOf(f, rule))
    ensures var v := net.UserOf(f, rule);
            var c := net.BucketOf(v);
            var to, l := ListsOf(Place(net, st, f, rule, G)), ListsOf(st);
            && to.users == l.users[v := Attach(l.users[v], f, st.flows[f].weight, net.weight(f, rule))]
            && to.buckets == if st.buckets[c].tc.pending && !st.users[v].attached
                             then l.buckets[c := Attach(l.buckets[c], v, net.userWeight(v), net.userWeight(v))]
                             else l.buckets
  {
    hide Attach;
  }

  lemma LooseListed(net: Net, st: State, f: FlowId, v: UserId, busy: Option<Ctl>)
    requires Loose(net, st, f, busy) && Known(net, st, v)
    ensures f in st.flows && Nowhere(ListsOf(st), f)
    ensures st.users[v].units.Valid() && st.buckets[net.BucketOf(v)].units.Valid()
    ensures st.users[v].attached <==> v in st.buckets[net.BucketOf(v)].units.order
  {
    forall u | u in st.users ensures f !in st.users[u].units.order {
      assert UserOk(net, st, u);
    }
    assert UserOk(net, st, v) && BucketOk(net, st, net.BucketOf(v));
  }

  // ----- Units -----

  ghost function UnitTurns(net: Net, st: State, u: UserId, joins: bool): seq<Turn> {
    var w := net.userWeight(u);
    if u !in st.users || st.users[u].attached == joins then []
    else [UnitTurn(net.BucketOf(u), if joins then Come(u, w, w) else Go(u))]
  }

  lemma UnitListed(net: Net, st: State, u: UserId, busy: Option<Ctl>)
    requires Inv(net, st, busy) && Known(net, st, u)
    ensures st.buckets[net.BucketOf(u)].units.Valid()
    ensures st.users[u].attached <==> u in st.buckets[net.BucketOf(u)].units.order
  {
    assert UserOk(net, st, u) && BucketOk(net, st, net.BucketOf(u));
  }

  lemma AttachUnitTraced(net: Net, st: State, u: UserId, trace: seq<Turn>, released: Released, busy: Option<Ctl>)
    requires Inv(net, st, busy) && Known(net, st, u) && Traced(net, st, trace, released)
    ensures Traced(net, AttachUnit(net, st, u), trace + UnitTurns(net, st, u, true), released)
  {
    hide Inv, LeadsTo, Attach, Drr.Valid;
    UnitListed(net, st, u, busy);
    var b, w := net.BucketOf(u), net.userWeight(u);
    if st.users[u].attached {
      assert trace + UnitTurns(net, st, u, true) == trace;
    } else {
      TurnLeads(net, trace, ListsOf(st), released, UnitTurn(b, Come(u, w, w)));
      assert Next(net, ListsOf(st), UnitTurn(b, Come(u, w, w))) == ListsOf(AttachUnit(net, st, u));
    }
  }

  lemma DetachUnitTraced(net: Net, st: State, u: UserId, trace: seq<Turn>, released: Released, busy: Option<Ctl>)
    requires Inv(net, st, busy) && Known(net, st, u) && Traced(net, st, trace, released)
    ensures Traced(net, DetachUnit(net, st, u), trace + UnitTurns(net, st, u, false), released)
  {
    hide Inv, LeadsTo, Detach, Drr.Valid;
    UnitListed(net, st, u, busy);
    var b := net.BucketOf(u);
    if st.users[u].attached {
      TurnLeads(net, trace, ListsOf(st), released, UnitTurn(b, Go(u)));
      assert Next(net, ListsOf(st), UnitTurn(b, Go(u))) == ListsOf(DetachUnit(net, st, u));
    } else {
      assert trace + UnitTurns(net, st, u, false) == trace;
    }
  }

  // ----- The operations -----

  ghost function SwitchTurns(net: Net, st: State, f: FlowId, rule: nat): seq<Turn>
    requires Parked(net, st, f) && Known(net, FlowDetach(net, st, f), net.UserOf(f, rule)) && f in FlowDetach(net, st, f).flows
  {
    DetachTurns(net, st, f) + PlaceTurns(net, FlowDetach(net, st, f), f, rule)
  }

  lemma SwitchTraced(net: Net, st: State, f: FlowId, rule: nat, trace: seq<Turn>, released: Released, busy: Option<Ctl>)
    requires Inv(net, st, busy) && Parked(net, st, f) && Blocks(net, st, f, rule) && Traced(net, st, trace, released)
    ensures Known(net, st, net.UserOf(f, rule))
    ensures Known(net, FlowDetach(net, st, f), net.UserOf(f, rule)) && f in FlowDetach(net, st, f).flows
    ensures Traced(net, Switch(net, st, f, rule), trace + SwitchTurns(net, st, f, rule), released)
  {
    hide Inv, Traced, FlowDetach, FlowAttach, Loose, Place, DetachTurns, PlaceTurns;
    BlocksAfterDetach(net, st, f, rule);
    BlocksKnown(net, st, f, rule);
    BlocksKnown(net, FlowDetach(net, st, f), f, rule);
    DetachKeeps(net, st, f, busy);
    DetachTraced(net, st, f, trace, released, busy);
    var mid := FlowDetach(net, st, f);
    LooseFlow(net, mid, f, busy);
    AttachIsPlace(net, mid, f, rule);
    PlaceTraced(net, mid, f, rule, mid.flows[f], trace + DetachTurns(net, st, f), released, busy);
    assert trace + DetachTurns(net, st, f) + PlaceTurns(net, mid, f, rule) == trace + SwitchTurns(net, st, f, rule);
  }

  lemma LooseFlow(net: Net, st: State, f: FlowId, busy: Option<Ctl>)
    requires Loose(net, st, f, busy)
    ensures f in st.flows
  {
  }

  lemma UnparkedIsLoose(net: Net, st: State, f: FlowId, busy: Option<Ctl>)
    requires Inv(net, st, busy) && f in st.flows && st.flows[f].packets == []
    ensures Loose(net, st, f, busy)
  {
    assert FlowOk(net, st, f);
  }

  lemma EnqueueFirstTraced(net: Net, st: State, f: FlowId, rule: nat, p: Packet, trace: seq<Turn>, released: Released, busy: Option<Ctl>)
    requires Inv(net, st, busy) && f in st.flows && st.flows[f].packets == [] && Blocks(net, st, f, rule)
    requires Traced(net, st, trace, released)
    ensures Known(net, st, net.UserOf(f, rule))
    ensures Traced(net, EnqueueFirst(net, st, f, rule, p), trace + PlaceTurns(net, st, f, rule), released)
  {
    hide Inv, Traced, FlowAttach, FlowEnqueue, BacklogUpdate, Loose, Place, PlaceTurns, SameShape;
    BlocksKnown(net, st, f, rule);
    UnparkedIsLoose(net, st, f, busy);
    AttachEnqueueIsPlace(net, st, f, rule, p);
    var F := st.flows[f];
    var G := F.(packets := F.packets + [p], octets := F.octets + p.length);
    PlaceTraced(net, st, f, rule, G, trace, released, busy);
    var mid := Place(net, st, f, rule, G);
    UpdateSameShape(net, mid, f, p.length, 1);
    SameListsTraced(net, mid, EnqueueFirst(net, st, f, rule, p), trace + PlaceTurns(net, st, f, rule), released);
  }

  lemma SameListsTraced(net: Net, st: State, to: State, trace: seq<Turn>, released: Released)
    requires SameShape(st, to) && Traced(net, st, trace, released)
    ensures Traced(net, to, trace, released)
  {
    ShapeLists(st, to);
  }

  lemma EnqueueMoreTraced(net: Net, st: State, f: FlowId, p: Packet, trace: seq<Turn>, released: Released)
    requires Parked(net, st, f) && Traced(net, st, trace, released)
    ensures Traced(net, EnqueueMore(net, st, f, p), trace, released)
  {
    hide LeadsTo, BacklogUpdate, SameShape;
    var mid := FlowEnqueue(net, st, f, p);
    assert ListsOf(mid) == ListsOf(st);
    UpdateSameShape(net, mid, f, p.length, 0);
    SameListsTraced(net, mid, EnqueueMore(net, st, f, p), trace, released);
  }

  // ----- Releasing -----

  /** The flow at the head of its host's list, whose host is at the head of its bucket's list if
      it is attached there. */
  ghost predicate AtHead(net: Net, st: State, f: FlowId) {
    && Parked(net, st, f)
    && var u := Host(net, st, f);
       var b := net.BucketOf(u);
       && st.users[u].units.order != [] && st.users[u].units.order[0] == f
       && (st.users[u].attached ==> st.buckets[b].units.order != [] && st.buckets[b].units.order[0] == u)
  }

  lemma ScheduleLists(net: Net, st: State, f: FlowId, length: nat, busy: Option<Ctl>)
    requires Inv(net, st, busy) && AtHead(net, st, f)
    ensures var t := Release(Host(net, st, f), length);
            && Possible(net, ListsOf(st), t)
            && ListsOf(FlowSchedule(net, st, f, length)) == Next(net, ListsOf(st), t)
            && forall g :: FlowBytes(net, ListsOf(st), t, g) == if g == f then length else 0
  {
    hide Inv, Schedule;
    var u := Host(net, st, f);
    HostListed(net, st, f, busy);
    HeadHasItsTurn(st.users[u].units, f, length);
    HeadHasItsTurn(st.buckets[net.BucketOf(u)].units, u, length);
  }

  lemma ScheduleKeepsShape(net: Net, st: State, f: FlowId, length: nat)
    requires Parked(net, st, f)
    ensures var to := FlowSchedule(net, st, f, length);
            && to.flows == st.flows && Parked(net, to, f) && Host(net, to, f) == Host(net, st, f)
            && (forall g, i :: LeaveTurns(net, to, f, g, i) == LeaveTurns(net, st, f, g, i))
            && to.users[Host(net, st, f)].queued == st.users[Host(net, st, f)].queued
  {
    hide Schedule;
  }

  ghost function ReleaseTurns(net: Net, st: State, f: FlowId, length: nat): seq<Turn>
    requires Parked(net, st, f)
  {
    [Release(Host(net, st, f), length)] + TakeTurns(net, st, f, length)
  }

  lemma ReleaseTraced(net: Net, st: State, f: FlowId, trace: seq<Turn>, released: Released, busy: Option<Ctl>)
    requires Inv(net, st, busy) && AtHead(net, st, f) && st.flows[f].packets != []
    requires Traced(net, st, trace, released) && f in released
    ensures var p := st.flows[f].packets[0];
            Traced(net, ReleaseOldest(net, st, f), trace + ReleaseTurns(net, st, f, p.length), released[f := released[f] + [p]])
  {
    hide Inv, LeadsTo, FlowSchedule, Take, ListsOf, Next, Possible, FlowBytes, LeaveTurns;
    var p := st.flows[f].packets[0];
    var t := Release(Host(net, st, f), p.length);
    var mid := FlowSchedule(net, st, f, p.length);
    var to := released[f := released[f] + [p]];
    ScheduleLists(net, st, f, p.length, busy);
    ReleaseLeads(net, trace, ListsOf(st), released, t, f, p);
    FlowScheduleKeeps(net, st, f, p.length, busy);
    ScheduleKeepsShape(net, st, f, p.length);
    TakeTraced(net, mid, f, st.flows[f].packets[1..], p.length, trace + [t], to, busy);
    assert trace + [t] + TakeTurns(net, mid, f, p.length) == trace + ReleaseTurns(net, st, f, p.length);
  }

  lemma BypassTraced(net: Net, st: State, f: FlowId, p: Packet, trace: seq<Turn>, released: Released, busy: Option<Ctl>)
    requires Inv(net, st, busy) && f in st.flows && st.flows[f].packets == [] && Traced(net, st, trace, released) && f in released
    ensures Traced(net, st, trace + [Bypass(f, p.length)], released[f := released[f] + [p]])
  {
    hide Inv, LeadsTo;
    UnparkedIsLoose(net, st, f, busy);
    LooseIsNowhere(net, st, f, busy);
    ReleaseLeads(net, trace, ListsOf(st), released, Bypass(f, p.length), f, p);
  }

  lemma LooseIsNowhere(net: Net, st: State, f: FlowId, busy: Option<Ctl>)
    requires Loose(net, st, f, busy)
    ensures Nowhere(ListsOf(st), f)
  {
    forall u | u in st.users ensures f !in st.users[u].units.order {
      assert UserOk(net, st, u);
    }
  }

  // ----- What leaves the lists alone -----

  lemma TokTraced(net: Net, st: State, c: Ctl, t: TbqToken.Token, trace: seq<Turn>, released: Released)
    requires Exists(st, c) && Traced(net, st, trace, released)
    ensures Traced(net, SetTok(st, c, t), trace, released)
  {
    hide LeadsTo;
    assert ListsOf(SetTok(st, c, t)) == ListsOf(st);
  }

  // ----- Fairness of the scheduler -----

  lemma ListsDisjoint(net: Net, st: State, busy: Option<Ctl>)
    requires Inv(net, st, busy)
    ensures Disjoint(ListsOf(st))
    ensures forall u :: u in st.users ==> st.users[u].units.Valid()
    ensures forall b :: b in st.buckets ==> st.buckets[b].units.Valid()
  {
    hide Drr.Valid;
    forall u | u in st.users ensures st.users[u].units.Valid() && forall f :: f in st.users[u].units.order ==> ParkedAt(net, st.flows, f, u) {
      assert UserOk(net, st, u);
    }
    forall b | b in st.buckets ensures st.buckets[b].units.Valid() {
      assert BucketOk(net, st, b);
    }
    hide Inv, UserOk, BucketOk;
  }

  /** What was released between two states is what the turns between them release. */
  lemma ReleasedBetween(net: Net, st: State, trace: seq<Turn>, released: Released, more: seq<Turn>, to: State, after: Released, f: FlowId)
    requires Traced(net, st, trace, released) && Traced(net, to, trace + more, after)
    ensures IsTrace(net, ListsOf(st), more)
    ensures f in released && f in after ==> Length(after[f]) - Length(released[f]) == BytesOf(net, ListsOf(st), more, f)
  {
    TraceSplit(net, NoLists(net), trace, more, f);
  }

  /** From one state of the scheduler to a later one, whatever has happened between: for two flows
      that stayed in the list of one user, with packets within their quanta, the bytes released are
      in proportion to their weights, give or take three quanta. */
  lemma FlowsAreReleasedFairly(net: Net, st: State, trace: seq<Turn>, released: Released, more: seq<Turn>,
                               to: State, after: Released, busy: Option<Ctl>, u: UserId, a: FlowId, b: FlowId)
    requires Inv(net, st, busy) && Traced(net, st, trace, released) && Traced(net, to, trace + more, after)
    requires u in st.users && a != b && a in released && b in released && a in after && b in after
    requires IsRun(st.users[u].units, OfUser(more, u))
             ==> Stays(st.users[u].units, OfUser(more, u), a) && Stays(st.users[u].units, OfUser(more, u), b)
    requires InQuantum(st.users[u].units, a) && InQuantum(st.users[u].units, b)
    ensures WithinThreeQuanta(Length(after[a]) - Length(released[a]), st.users[u].units.weight[a],
                              Length(after[b]) - Length(released[b]), st.users[u].units.weight[b])
  {
    hide Inv, Stays, WithinThreeQuanta, Traced, InQuantum, ListsOf, IsTrace, IsRun, Length, BytesOf;
    ReleasedBetween(net, st, trace, released, more, to, after, a);
    ReleasedBetween(net, st, trace, released, more, to, after, b);
    FlowsAreTreatedFairly(net, st, more, busy, u, a, b);
  }

  lemma FlowsAreTreatedFairly(net: Net, st: State, more: seq<Turn>, busy: Option<Ctl>, u: UserId, a: FlowId, b: FlowId)
    requires Inv(net, st, busy) && IsTrace(net, ListsOf(st), more) && u in st.users && a != b
    requires IsRun(st.users[u].units, OfUser(more, u))
             ==> Stays(st.users[u].units, OfUser(more, u), a) && Stays(st.users[u].units, OfUser(more, u), b)
    requires InQuantum(st.users[u].units, a) && InQuantum(st.users[u].units, b)
    ensures WithinThreeQuanta(BytesOf(net, ListsOf(st), more, a), st.users[u].units.weight[a],
                              BytesOf(net, ListsOf(st), more, b), st.users[u].units.weight[b])
  {
    hide Inv, Stays, WithinThreeQuanta, Disjoint, Drr.Valid, InQuantum, Final, IsTrace, IsRun, BytesOf;
    ListsDisjoint(net, st, busy);
    UserRun(net, ListsOf(st), more, u);
    FlowsAreServedFairly(net, ListsOf(st), more, u, a, b);
  }

  /** The same for two users that stayed attached to their bucket, and the bytes released of all
      flows that waited under them. */
  lemma UsersAreReleasedFairly(net: Net, st: State, trace: seq<Turn>, released: Released, more: seq<Turn>,
                               to: State, after: Released, busy: Option<Ctl>, b: BucketId, x: UserId, y: UserId)
    requires Inv(net, st, busy) && Traced(net, st, trace, released) && Traced(net, to, trace + more, after)
    requires b in st.buckets && x != y && net.BucketOf(x) == b == net.BucketOf(y)
    requires IsTrace(net, ListsOf(st), more) && IsRun(st.buckets[b].units, OfBucket(net, ListsOf(st), more, b))
             ==> Stays(st.buckets[b].units, OfBucket(net, ListsOf(st), more, b), x)
                 && Stays(st.buckets[b].units, OfBucket(net, ListsOf(st), more, b), y)
    requires InQuantum(st.buckets[b].units, x) && InQuantum(st.buckets[b].units, y)
    ensures WithinThreeQuanta(BytesUnder(more, x), st.buckets[b].units.weight[x],
                              BytesUnder(more, y), st.buckets[b].units.weight[y])
  {
    hide Inv, Stays, WithinThreeQuanta, Drr.Valid, Traced, InQuantum;
    var l := ListsOf(st);
    ListsDisjoint(net, st, busy);
    ReleasedBetween(net, st, trace, released, more, to, after, 0);
    BucketRun(net, l, more, b);
    UsersAreServedFairly(net, l, more, b, x, y);
  }
}

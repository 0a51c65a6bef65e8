/** What happens to all the lists of the scheduler together: a trace of turns.  It is a run of each
    list, and the bytes released of a unit that stays in a list are the bytes it is served there. */
module TbqTurns {
  import opened TbqDrr
  import opened TbqState

  datatype Lists = Lists(users: map<UserId, Drr<FlowId>>, buckets: map<BucketId, Drr<UserId>>)

  /** A flow or a user's unit comes or goes; a user's list has its turn to release a packet, and so
      has its bucket's list if the user is attached; or a packet of a flow that does not wait goes on. */
  datatype Turn =
    | FlowTurn(u: UserId, flow: Event<FlowId>)
    | UnitTurn(b: BucketId, unit: Event<UserId>)
    | Release(u: UserId, length: nat)
    | Bypass(f: FlowId, length: nat)

  ghost predicate Nowhere(l: Lists, f: FlowId) {
    forall u :: u in l.users ==> f !in l.users[u].order
  }

  ghost predicate Possible(net: Net, l: Lists, t: Turn) {
    match t
    case FlowTurn(u, e) =>
      && u in l.users && l.users[u].Valid() && Enabled(l.users[u], e)
      && !e.Serve? && (e.Come? ==> Nowhere(l, e.k))
    case UnitTurn(b, e) => b in l.buckets && l.buckets[b].Valid() && Enabled(l.buckets[b], e) && !e.Serve?
    case Release(u, n) =>
      var b := net.BucketOf(u);
      && u in l.users && l.users[u].Valid() && l.users[u].order != []
      && b in l.buckets && l.buckets[b].Valid()
      && (u in l.buckets[b].order ==> l.buckets[b].order[0] == u)
    case Bypass(f, _) => Nowhere(l, f)
  }

  ghost function Next(net: Net, l: Lists, t: Turn): Lists
    requires Possible(net, l, t)
  {
    match t
    case FlowTurn(u, e) => l.(users := l.users[u := Apply(l.users[u], e)])
    case UnitTurn(b, e) => l.(buckets := l.buckets[b := Apply(l.buckets[b], e)])
    case Release(u, n) =>
      var b := net.BucketOf(u);
      Lists(l.users[u := Apply(l.users[u], Serve(n))],
            if u in l.buckets[b].order then l.buckets[b := Apply(l.buckets[b], Serve(n))] else l.buckets)
    case Bypass(_, _) => l
  }

  ghost predicate IsTrace(net: Net, l: Lists, ts: seq<Turn>)
    decreases |ts|, 0
  {
    ts == [] || (var n := |ts| - 1; IsTrace(net, l, ts[..n]) && Possible(net, Final(net, l, ts[..n]), ts[n]))
  }

  ghost function Final(net: Net, l: Lists, ts: seq<Turn>): Lists
    requires IsTrace(net, l, ts)
    decreases |ts|, 1
  {
    if ts == [] then l else var n := |ts| - 1; Next(net, Final(net, l, ts[..n]), ts[n])
  }

  /** Bytes a turn releases of a flow. */
  ghost function FlowBytes(net: Net, l: Lists, t: Turn, f: FlowId): nat
    requires Possible(net, l, t)
  {
    match t
    case Release(u, n) => if l.users[u].order[0] == f then n else 0
    case Bypass(g, n) => if g == f then n else 0
    case _ => 0
  }

  /** Bytes released of a flow over a trace. */
  ghost function BytesOf(net: Net, l: Lists, ts: seq<Turn>, f: FlowId): nat
    requires IsTrace(net, l, ts)
    decreases |ts|
  {
    if ts == [] then 0
    else var n := |ts| - 1; BytesOf(net, l, ts[..n], f) + FlowBytes(net, Final(net, l, ts[..n]), ts[n], f)
  }

  /** Bytes released of all the flows that waited under a user. */
  ghost function BytesUnder(ts: seq<Turn>, u: UserId): nat {
    if ts == [] then 0
    else var n := |ts| - 1; BytesUnder(ts[..n], u) + (if ts[n].Release? && ts[n].u == u then ts[n].length else 0)
  }

  // ----- Traces -----

  lemma TraceSnoc(net: Net, l: Lists, ts: seq<Turn>, t: Turn, f: FlowId)
    requires IsTrace(net, l, ts) && Possible(net, Final(net, l, ts), t)
    ensures IsTrace(net, l, ts + [t]) && Final(net, l, ts + [t]) == Next(net, Final(net, l, ts), t)
    ensures BytesOf(net, l, ts + [t], f) == BytesOf(net, l, ts, f) + FlowBytes(net, Final(net, l, ts), t, f)
  {
    hide Possible, Next, FlowBytes;
    var all := ts + [t];
    assert all[..|all| - 1] == ts && all[|all| - 1] == t;
  }

  lemma {:induction false} TraceSplit(net: Net, l: Lists, a: seq<Turn>, b: seq<Turn>, f: FlowId)
    requires IsTrace(net, l, a + b)
    ensures IsTrace(net, l, a) && IsTrace(net, Final(net, l, a), b)
    ensures Final(net, l, a + b) == Final(net, Final(net, l, a), b)
    ensures BytesOf(net, l, a + b, f) == BytesOf(net, l, a, f) + BytesOf(net, Final(net, l, a), b, f)
    decreases |b|
  {
    hide Possible, Next, FlowBytes;
    if b == [] {
      assert a + b == a;
    } else {
      var n := |b| - 1;
      var all := a + b;
      assert all[..|all| - 1] == a + b[..n] && all[|all| - 1] == b[n];
      TraceSplit(net, l, a, b[..n], f);
    }
  }

  // ----- One list -----

  /** What a turn is to one user's list, and to one bucket's: an event or nothing. */
  ghost function FlowEvents(t: Turn, u: UserId): seq<Event<FlowId>> {
    match t
    case FlowTurn(v, e) => if v == u then [e] else []
    case Release(v, n) => if v == u then [Serve(n)] else []
    case _ => []
  }

  ghost function UnitEvents(net: Net, l: Lists, t: Turn, b: BucketId): seq<Event<UserId>>
    requires Possible(net, l, t)
  {
    match t
    case UnitTurn(c, e) => if c == b then [e] else []
    case Release(v, n) => if net.BucketOf(v) == b && v in l.buckets[b].order then [Serve(n)] else []
    case _ => []
  }

  ghost function OfUser(ts: seq<Turn>, u: UserId): seq<Event<FlowId>> {
    if ts == [] then [] else var n := |ts| - 1; OfUser(ts[..n], u) + FlowEvents(ts[n], u)
  }

  ghost function OfBucket(net: Net, l: Lists, ts: seq<Turn>, b: BucketId): seq<Event<UserId>>
    requires IsTrace(net, l, ts)
    decreases |ts|
  {
    if ts == [] then []
    else var n := |ts| - 1; OfBucket(net, l, ts[..n], b) + UnitEvents(net, Final(net, l, ts[..n]), ts[n], b)
  }

  /** A turn is an event of the list, or leaves it as it is. */
  lemma FlowEventsApply(net: Net, l: Lists, t: Turn, u: UserId)
    requires Possible(net, l, t) && u in l.users && l.users[u].Valid()
    ensures u in Next(net, l, t).users
    ensures var es := FlowEvents(t, u);
            if es == [] then Next(net, l, t).users[u] == l.users[u]
            else |es| == 1 && Enabled(l.users[u], es[0]) && Next(net, l, t).users[u] == Apply(l.users[u], es[0])
  {
    hide Apply;
  }

  lemma UnitEventsApply(net: Net, l: Lists, t: Turn, b: BucketId)
    requires Possible(net, l, t) && b in l.buckets && l.buckets[b].Valid()
    ensures b in Next(net, l, t).buckets
    ensures var es := UnitEvents(net, l, t, b);
            if es == [] then Next(net, l, t).buckets[b] == l.buckets[b]
            else |es| == 1 && Enabled(l.buckets[b], es[0]) && Next(net, l, t).buckets[b] == Apply(l.buckets[b], es[0])
  {
    hide Apply;
  }

  /** A trace is a run of each user's list. */
  lemma {:induction false} UserRun(net: Net, l: Lists, ts: seq<Turn>, u: UserId)
    requires IsTrace(net, l, ts) && u in l.users && l.users[u].Valid()
    ensures IsRun(l.users[u], OfUser(ts, u))
    ensures u in Final(net, l, ts).users && Final(net, l, ts).users[u] == Last(l.users[u], OfUser(ts, u))
    ensures Final(net, l, ts).users[u].Valid()
    decreases |ts|
  {
    hide Apply, Enabled, Possible, Next, FlowEvents;
    if ts != [] {
      var n := |ts| - 1;
      UserRun(net, l, ts[..n], u);
      FlowEventsApply(net, Final(net, l, ts[..n]), ts[n], u);
      if FlowEvents(ts[n], u) != [] {
        RunSnoc(l.users[u], OfUser(ts[..n], u), FlowEvents(ts[n], u)[0], 0);
        ApplyValid(Final(net, l, ts[..n]).users[u], FlowEvents(ts[n], u)[0]);
        assert FlowEvents(ts[n], u) == [FlowEvents(ts[n], u)[0]];
      } else {
        assert OfUser(ts, u) == OfUser(ts[..n], u);
      }
    }
  }

  /** ... and of each bucket's. */
  lemma {:induction false} BucketRun(net: Net, l: Lists, ts: seq<Turn>, b: BucketId)
    requires IsTrace(net, l, ts) && b in l.buckets && l.buckets[b].Valid()
    ensures IsRun(l.buckets[b], OfBucket(net, l, ts, b))
    ensures b in Final(net, l, ts).buckets && Final(net, l, ts).buckets[b] == Last(l.buckets[b], OfBucket(net, l, ts, b))
    ensures Final(net, l, ts).buckets[b].Valid()
    decreases |ts|
  {
    hide Apply, Enabled, Possible, Next, UnitEvents;
    if ts != [] {
      var n := |ts| - 1;
      var mid := Final(net, l, ts[..n]);
      BucketRun(net, l, ts[..n], b);
      UnitEventsApply(net, mid, ts[n], b);
      if UnitEvents(net, mid, ts[n], b) != [] {
        RunSnoc(l.buckets[b], OfBucket(net, l, ts[..n], b), UnitEvents(net, mid, ts[n], b)[0], UserId(0, 0));
        ApplyValid(mid.buckets[b], UnitEvents(net, mid, ts[n], b)[0]);
        assert UnitEvents(net, mid, ts[n], b) == [UnitEvents(net, mid, ts[n], b)[0]];
      } else {
        assert OfBucket(net, l, ts, b) == OfBucket(net, l, ts[..n], b);
      }
    }
  }

  /** A flow is in one list at most. */
  ghost predicate Disjoint(l: Lists) {
    forall u, v, f :: u in l.users && v in l.users && f in l.users[u].order && f in l.users[v].order ==> u == v
  }

  lemma ApplyMembers<K(!new)>(d: Drr<K>, e: Event<K>)
    requires d.Valid() && Enabled(d, e)
    ensures forall k :: k in Apply(d, e).order ==> k in d.order || (e.Come? && k == e.k)
  {
    if e.Serve? {
      assert d.order[0] in d.order;
    }
  }

  lemma DisjointNext(net: Net, l: Lists, t: Turn)
    requires Disjoint(l) && Possible(net, l, t)
    ensures Disjoint(Next(net, l, t))
  {
    hide Apply, Drr.Valid;
    match t
    case FlowTurn(u, e) => ApplyMembers(l.users[u], e);
    case Release(u, n) => ApplyMembers(l.users[u], Serve(n));
    case _ =>
  }

  lemma {:induction false} DisjointKept(net: Net, l: Lists, ts: seq<Turn>)
    requires Disjoint(l) && IsTrace(net, l, ts)
    ensures Disjoint(Final(net, l, ts))
    decreases |ts|
  {
    hide Disjoint, Possible, Next;
    if ts != [] {
      DisjointKept(net, l, ts[..|ts| - 1]);
      DisjointNext(net, Final(net, l, ts[..|ts| - 1]), ts[|ts| - 1]);
    }
  }

  /** A turn releases of a flow in a list what it serves it there. */
  lemma TurnServesFlow(net: Net, l: Lists, t: Turn, u: UserId, f: FlowId)
    requires Disjoint(l) && Possible(net, l, t) && u in l.users && f in l.users[u].order
    ensures var es := FlowEvents(t, u);
            FlowBytes(net, l, t, f) == if es == [] then 0 else if Serves(l.users[u], es[0], f) then es[0].length else 0
  {
    hide Drr.Valid;
    if t.Release? {
      assert l.users[t.u].order[0] in l.users[t.u].order;
    }
  }

  /** While a flow stays in a user's list, what is released of it is what it is served there. */
  lemma {:induction false} ReleasedIsServed(net: Net, l: Lists, ts: seq<Turn>, u: UserId, f: FlowId)
    requires IsTrace(net, l, ts) && Disjoint(l) && u in l.users && l.users[u].Valid() && IsRun(l.users[u], OfUser(ts, u))
    requires Stays(l.users[u], OfUser(ts, u), f)
    ensures BytesOf(net, l, ts, f) == Served(l.users[u], OfUser(ts, u), f)
    decreases |ts|
  {
    hide Apply, Enabled, Disjoint, Stays, Possible, Next, FlowEvents, FlowBytes, Serves;
    if ts != [] {
      var n := |ts| - 1;
      var d, es, mid := l.users[u], OfUser(ts[..n], u), Final(net, l, ts[..n]);
      UserRun(net, l, ts[..n], u);
      FlowEventsApply(net, mid, ts[n], u);
      if FlowEvents(ts[n], u) != [] {
        var e := FlowEvents(ts[n], u)[0];
        assert OfUser(ts, u) == es + [e];
        RunSnoc(d, es, e, f);
        StaysSnoc(d, es, e, f);
      } else {
        assert OfUser(ts, u) == es;
      }
      StaysEnds(d, es, f);
      DisjointKept(net, l, ts[..n]);
      TurnServesFlow(net, mid, ts[n], u, f);
      ReleasedIsServed(net, l, ts[..n], u, f);
    }
  }

  lemma TurnServesUnit(net: Net, l: Lists, t: Turn, b: BucketId, x: UserId)
    requires Possible(net, l, t) && b in l.buckets && x in l.buckets[b].order && net.BucketOf(x) == b
    ensures var es := UnitEvents(net, l, t, b);
            (if t.Release? && t.u == x then t.length else 0)
            == if es == [] then 0 else if Serves(l.buckets[b], es[0], x) then es[0].length else 0
  {
    hide Drr.Valid;
  }

  /** While a user stays attached to its bucket, what is released of its flows is what its unit is
      served there. */
  lemma {:induction false} ReleasedIsServedUnder(net: Net, l: Lists, ts: seq<Turn>, b: BucketId, x: UserId)
    requires IsTrace(net, l, ts) && b in l.buckets && l.buckets[b].Valid() && net.BucketOf(x) == b
    requires IsRun(l.buckets[b], OfBucket(net, l, ts, b)) && Stays(l.buckets[b], OfBucket(net, l, ts, b), x)
    ensures BytesUnder(ts, x) == Served(l.buckets[b], OfBucket(net, l, ts, b), x)
    decreases |ts|
  {
    hide Apply, Enabled, Stays, Possible, Next, UnitEvents, Serves;
    if ts != [] {
      var n := |ts| - 1;
      var d, es, mid := l.buckets[b], OfBucket(net, l, ts[..n], b), Final(net, l, ts[..n]);
      BucketRun(net, l, ts[..n], b);
      UnitEventsApply(net, mid, ts[n], b);
      if UnitEvents(net, mid, ts[n], b) != [] {
        var e := UnitEvents(net, mid, ts[n], b)[0];
        assert OfBucket(net, l, ts, b) == es + [e];
        RunSnoc(d, es, e, x);
        StaysSnoc(d, es, e, x);
      } else {
        assert OfBucket(net, l, ts, b) == es;
      }
      StaysEnds(d, es, x);
      TurnServesUnit(net, mid, ts[n], b, x);
      ReleasedIsServedUnder(net, l, ts[..n], b, x);
    }
  }

  // ----- Fairness -----

  /** Over any part of a trace: two flows that stay in the same user's list, with packets within
      their quanta, have bytes released in proportion to their weights, give or take three quanta. */
  lemma FlowsAreServedFairly(net: Net, l: Lists, ts: seq<Turn>, u: UserId, a: FlowId, b: FlowId)
    requires IsTrace(net, l, ts) && Disjoint(l) && u in l.users && l.users[u].Valid() && IsRun(l.users[u], OfUser(ts, u))
    requires a != b && Stays(l.users[u], OfUser(ts, u), a) && Stays(l.users[u], OfUser(ts, u), b)
    requires InQuantum(l.users[u], a) && InQuantum(l.users[u], b)
    ensures WithinThreeQuanta(BytesOf(net, l, ts, a), l.users[u].weight[a], BytesOf(net, l, ts, b), l.users[u].weight[b])
  {
    hide Stays, Served, WithinThreeQuanta, Disjoint;
    ReleasedIsServed(net, l, ts, u, a);
    ReleasedIsServed(net, l, ts, u, b);
    Fairness(l.users[u], OfUser(ts, u), a, b);
  }

  /** The same for two users that stay attached to a bucket, and the bytes of all their flows. */
  lemma UsersAreServedFairly(net: Net, l: Lists, ts: seq<Turn>, b: BucketId, x: UserId, y: UserId)
    requires IsTrace(net, l, ts) && b in l.buckets && l.buckets[b].Valid() && net.BucketOf(x) == b == net.BucketOf(y)
    requires var es := OfBucket(net, l, ts, b);
             && IsRun(l.buckets[b], es) && x != y && Stays(l.buckets[b], es, x) && Stays(l.buckets[b], es, y)
    requires InQuantum(l.buckets[b], x) && InQuantum(l.buckets[b], y)
    ensures WithinThreeQuanta(BytesUnder(ts, x), l.buckets[b].weight[x], BytesUnder(ts, y), l.buckets[b].weight[y])
  {
    hide Stays, Served, WithinThreeQuanta;
    ReleasedIsServedUnder(net, l, ts, b, x);
    ReleasedIsServedUnder(net, l, ts, b, y);
    Fairness(l.buckets[b], OfBucket(net, l, ts, b), x, y);
  }
}

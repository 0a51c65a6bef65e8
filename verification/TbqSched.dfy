/** The scheduler as a machine: the steps taken under its lock, over the state and the wheel. */
module TbqSched {
  import opened Basics
  import opened Sums
  import opened TbqToken
  import TbqDrr
  import opened TbqState
  import opened TbqOps
  import opened TbqCounts
  import opened TbqKeep
  import opened TbqWheel
  import opened TbqTokens
  import opened TbqCeiling
  import opened TbqPaid
  import opened TbqTrace
  import TbqTurns

  datatype Status = Running | Stopped | Stopping | WaitingStop

  /** What is fixed while the scheduler runs.  `maxWait` ticks of any controller's rate pay for the
      largest packet; `start` is when the controllers were set up. */
  datatype Setup = Setup(net: Net, rate: Ctl -> nat, hz: nat, maxLength: nat, maxWait: nat, start: int) {
    ghost predicate Valid() {
      && net.Valid() && 1 <= hz
      && forall c :: 1 <= rate(c) && maxLength <= maxWait * rate(c)
    }
  }

  // ----- Controllers -----

  /** A controller is where its history of charges and wake-ups has brought it. */
  ghost predicate ControllerOk(s: Setup, c: Ctl, t: Token, history: map<Ctl, seq<Event>>, now: int) {
    && t.rate == s.rate(c) && t.Valid() && (!t.pending ==> t.jiffies <= now)
    && c in history && IsRun(Fresh(s.rate(c), s.start), history[c], s.start, s.hz)
    && After(Fresh(s.rate(c), s.start), history[c], s.start, s.hz) == t
    && s.start <= LastTime(history[c], s.start) <= now
  }

  ghost predicate ControllersOk(s: Setup, st: State, history: map<Ctl, seq<Event>>, now: int) {
    forall c :: Exists(st, c) ==> ControllerOk(s, c, Tok(st, c), history, now)
  }

  lemma EventKeeps(s: Setup, st: State, history: map<Ctl, seq<Event>>, now: int, c: Ctl, e: Event)
    requires s.Valid() && ControllersOk(s, st, history, now) && Exists(st, c)
    requires Enabled(Tok(st, c), e) && e.at == now
    ensures Tok(st, c).Valid()
    ensures ControllersOk(s, SetTok(st, c, Apply(Tok(st, c), e, s.hz)), history[c := history[c] + [e]], now)
  {
    assert ControllerOk(s, c, Tok(st, c), history, now);
    RunGrows(Fresh(s.rate(c), s.start), history[c], s.start, s.hz, e);
    var t := Apply(Tok(st, c), e, s.hz);
    SetTokEffect(st, c, t);
    hide SetTok;
    var to, h := SetTok(st, c, t), history[c := history[c] + [e]];
    forall x | Exists(to, x) ensures ControllerOk(s, x, Tok(to, x), h, now) {
      assert ControllerOk(s, x, Tok(st, x), history, now);
    }
  }

  /** Every controller, in every state the scheduler reaches, has kept to its rate. */
  lemma EveryControllerKeepsItsRate(s: Setup, st: State, history: map<Ctl, seq<Event>>, now: int, c: Ctl, most: nat)
    requires s.Valid() && ControllersOk(s, st, history, now) && Exists(st, c)
    requires c in history && Bounded(history[c], most)
    ensures Charged(history[c]) <= s.rate(c) * (now - s.start) + most
  {
    assert ControllerOk(s, c, Tok(st, c), history, now);
    var es := history[c];
    if es != [] {
      RateBound(s.rate(c), s.start, es, s.hz, most);
      MulMono(LastTime(es, s.start) - s.start, now - s.start, s.rate(c));
    } else {
      MulMono(0, now - s.start, s.rate(c));
    }
  }

  /** A controller's history obeys the bound for windows. */
  lemma WindowOf(s: Setup, st: State, history: map<Ctl, seq<Event>>, now: int, c: Ctl, was: map<Ctl, seq<Event>>, since: int)
    requires s.Valid() && ControllersOk(s, st, history, now) && Exists(st, c) && c in history && c in was
    requires Follows(was, history, since) && since <= now && Bounded(history[c], s.maxLength)
    ensures Charged(history[c]) - Charged(was[c]) <= s.rate(c) * (now - since) + 2 * (s.rate(c) * s.hz) + s.maxLength
  {
    assert ControllerOk(s, c, Tok(st, c), history, now);
    ChargedBetween(s.rate(c), s.start, was[c], history[c], since, now, s.hz, s.maxLength);
  }

  ghost predicate MasksOk(st: State, userMask: set<UserId>, bucketMask: set<BucketId>) {
    && (forall u :: u in userMask <==> u in st.users && st.users[u].tc.pending)
    && (forall b :: b in bucketMask <==> b in st.buckets && st.buckets[b].tc.pending)
  }

  // ----- Packets -----

  predicate Increasing(ps: seq<Packet>) {
    forall i, j :: 0 <= i < j < |ps| ==> ps[i].number < ps[j].number
  }

  /** Of the packets a flow has had accepted, in order: those released come first and in order,
      those queued after them and in order, and each is released, queued or dropped once. */
  ghost predicate LogOk(queued: seq<Packet>, accepted: seq<Packet>, released: seq<Packet>, dropped: seq<Packet>) {
    && (forall i :: 0 <= i < |accepted| ==> accepted[i].number == i)
    && Increasing(released + queued)
    && multiset(accepted) == multiset(released) + multiset(queued) + multiset(dropped)
  }

  /** Packets of a flow are numbered in the order in which they are accepted. */
  ghost predicate StampsOk(flows: set<FlowId>, stamps: map<FlowId, nat>, accepted: map<FlowId, seq<Packet>>) {
    forall f :: f in flows ==> f in stamps && f in accepted && stamps[f] == |accepted[f]|
  }

  lemma NumberedBelow(queued: seq<Packet>, accepted: seq<Packet>, released: seq<Packet>, dropped: seq<Packet>)
    requires LogOk(queued, accepted, released, dropped)
    ensures forall q :: q in released + queued ==> q.number < |accepted|
  {
    forall q | q in released + queued ensures q.number < |accepted| {
      assert q in multiset(released) + multiset(queued);
      assert q in multiset(accepted);
      assert q in accepted;
    }
  }

  lemma LogAccept(queued: seq<Packet>, accepted: seq<Packet>, released: seq<Packet>, dropped: seq<Packet>, length: nat)
    requires LogOk(queued, accepted, released, dropped)
    ensures var p := Packet(|accepted|, length);
            && LogOk(queued + [p], accepted + [p], released, dropped)
            && (queued == [] ==> LogOk([], accepted + [p], released + [p], dropped))
  {
    var p := Packet(|accepted|, length);
    NumberedBelow(queued, accepted, released, dropped);
    assert released + (queued + [p]) == (released + queued) + [p];
    if queued == [] {
      assert released + queued == released && (released + [p]) + [] == released + [p];
    }
  }

  lemma LogRelease(queued: seq<Packet>, accepted: seq<Packet>, released: seq<Packet>, dropped: seq<Packet>)
    requires LogOk(queued, accepted, released, dropped) && queued != []
    ensures LogOk(queued[1..], accepted, released + [queued[0]], dropped)
  {
    assert queued == [queued[0]] + queued[1..];
    assert (released + [queued[0]]) + queued[1..] == released + queued;
  }

  lemma LogDrop(queued: seq<Packet>, accepted: seq<Packet>, released: seq<Packet>, dropped: seq<Packet>)
    requires LogOk(queued, accepted, released, dropped) && queued != []
    ensures var n := |queued| - 1; LogOk(queued[..n], accepted, released, dropped + [queued[n]])
  {
    var n := |queued| - 1;
    assert queued == queued[..n] + [queued[n]];
    assert forall i :: 0 <= i < |released + queued[..n]| ==> (released + queued[..n])[i] == (released + queued)[i];
  }

  datatype Logs = Logs(accepted: map<FlowId, seq<Packet>>, released: map<FlowId, seq<Packet>>, dropped: map<FlowId, seq<Packet>>)

  ghost predicate LogsOk(flows: map<FlowId, Flow>, l: Logs, maxLength: nat) {
    forall f :: f in flows ==>
      && f in l.accepted && f in l.released && f in l.dropped
      && LogOk(flows[f].packets, l.accepted[f], l.released[f], l.dropped[f])
      && forall p <- flows[f].packets :: p.length <= maxLength
  }

  // ----- Ceilings -----

  const MAX_U32: nat := 0xFFFF_FFFF

  /** tbq_flow_backlog_max_octets (tbq_core.c:884-896); `latency` is 2^latency_shift ticks. */
  function MaxOctets(s: Setup, st: State, f: FlowId, latency: nat): nat
    requires Parked(s.net, st, f)
    requires var u := Host(s.net, st, f);
             0 < st.users[u].weight && (st.users[u].attached ==> 0 < st.buckets[s.net.BucketOf(u)].weight)
  {
    var u := Host(s.net, st, f);
    var b := s.net.BucketOf(u);
    var user := if st.users[u].attached
                then Share(Min(MAX_U32, s.rate(B(b)) * latency), st.buckets[b].weight, s.net.userWeight(u))
                else MAX_U32;
    Share(Min(user, s.rate(U(u)) * latency), st.users[u].weight, st.flows[f].weight)
  }

  function Ceiling(s: Setup, st: State, f: FlowId, latency: nat): nat {
    if Parked(s.net, st, f) && 0 < st.users[Host(s.net, st, f)].weight
       && 0 < st.buckets[s.net.BucketOf(Host(s.net, st, f))].weight
    then MaxOctets(s, st, f, latency) else 0
  }

  /** The divisors are not zero: the weights count the flow, and the user of the flow. */
  lemma WeightsPositive(s: Setup, st: State, f: FlowId, busy: Option<Ctl>)
    requires Inv(s.net, st, busy) && Parked(s.net, st, f)
    ensures var u := Host(s.net, st, f);
            0 < st.users[u].weight && 0 < st.buckets[s.net.BucketOf(u)].weight
  {
    hide QueuedAt, OctetsAt, WeightAt, BucketOctets;
    var net := s.net;
    var u := Host(net, st, f);
    var b := net.BucketOf(u);
    InvParked(net, st, f, busy);
    QueueNotEmpty(net, st, f, busy);
    CountsCover(net, st, f, u);
    assert BucketCounts(net, st.users, b, st.buckets[b]);
    SumAtLeast(net.users,
               x => if x in st.users && net.BucketOf(x) == b && st.users[x].octets != 0 then net.userWeight(x) else 0, u);
  }

  // ----- The machine -----

  /** tbq_dequeue_info: what a step releases and drops, until the lock is given back. */
  class DequeueInfo {
    var send: seq<Packet>
    var drop: seq<Packet>

    constructor ()
      ensures send == [] && drop == []
    {
      send, drop := [], [];
    }
  }

  /** The controller whose loop is running, and the list of the wheel being processed. */
  datatype Context = Context(busy: Option<Ctl>, work: seq<Ctl>)

  /** The inactive masks and struct tbq_timer. */
  datatype Timer = Timer(userMask: set<UserId>, bucketMask: set<BucketId>, slots: seq<seq<Ctl>>, position: int, nrPending: int)

  ghost predicate TimerOk(s: Setup, st: State, w: Timer, work: seq<Ctl>, now: int) {
    && WheelOk(st, w.slots, work, w.position) && w.nrPending == Total(w.slots) + |work|
    && MasksOk(st, w.userMask, w.bucketMask)
    && now + s.maxWait < w.position + SLOTS && w.position <= now + 1
    && (forall c :: c in work ==> Exists(st, c) && Tok(st, c).jiffies <= now)
  }

  /** TBQ_RULE_MASK_SET and tbq_timer_mod for a controller that has just been deactivated. */
  function Armed(w: Timer, c: Ctl, t: Token): Timer
    requires |w.slots| == SLOTS
  {
    if !t.pending then w
    else
      var k := t.jiffies % SLOTS;
      w.(slots := w.slots[k := w.slots[k] + [c]], nrPending := w.nrPending + 1,
         userMask := if c.U? then w.userMask + {c.user} else w.userMask,
         bucketMask := if c.B? then w.bucketMask + {c.bucket} else w.bucketMask)
  }

  lemma ChargeTimer(s: Setup, st: State, w: Timer, work: seq<Ctl>, now: int, c: Ctl, t: Token)
    requires TimerOk(s, st, w, work, now) && Exists(st, c) && !Tok(st, c).pending
    requires t.pending ==> now < t.jiffies <= now + s.maxWait
    ensures |w.slots| == SLOTS && TimerOk(s, SetTok(st, c, t), Armed(w, c, t), work, now)
  {
    hide WheelOk, Total;
    WheelSize(st, w.slots, work, w.position);
    WorkIsPending(st, w.slots, work, w.position);
    SetTokEffect(st, c, t);
    if t.pending {
      ArmKeeps(st, w.slots, work, w.position, c, t);
      var k := t.jiffies % SLOTS;
      TotalUpdate(w.slots, k, w.slots[k] + [c]);
    } else {
      ActiveKeeps(st, w.slots, work, w.position, c, t);
    }
  }

  lemma WorkIsPending(st: State, slots: seq<seq<Ctl>>, work: seq<Ctl>, position: int)
    requires WheelOk(st, slots, work, position)
    ensures forall c :: c in work ==> Exists(st, c) && Tok(st, c).pending
  {
  }

  lemma WheelSize(st: State, slots: seq<seq<Ctl>>, work: seq<Ctl>, position: int)
    requires WheelOk(st, slots, work, position)
    ensures |slots| == SLOTS
  {
  }

  lemma ChargeState(s: Setup, st: State, c: Ctl, length: nat, history: map<Ctl, seq<Event>>, now: int, busy: Option<Ctl>)
    requires s.Valid() && Inv(s.net, st, busy) && ControllersOk(s, st, history, now)
    requires Exists(st, c) && !Tok(st, c).pending && length <= s.maxLength
    ensures Tok(st, c).Valid() && c in history
    ensures var t := Charge(Tok(st, c), length, now, s.hz);
            && Inv(s.net, SetTok(st, c, t), busy) && MorePending(st, SetTok(st, c, t))
            && ControllersOk(s, SetTok(st, c, t), history[c := history[c] + [Debit(now, length)]], now)
            && (t.pending ==> now < t.jiffies <= now + s.maxWait)
  {
    hide Inv, SetTok;
    assert ControllerOk(s, c, Tok(st, c), history, now);
    var t := Charge(Tok(st, c), length, now, s.hz);
    SetTokEffect(st, c, t);
    TokFields(st, c, t);
    MorePendingKeeps(s.net, st, SetTok(st, c, t), busy);
    ChargeWakesInTime(Tok(st, c), length, now, s.hz, s.maxWait);
    EventKeeps(s, st, history, now, c, Debit(now, length));
  }

  lemma TokFields(st: State, c: Ctl, t: Token)
    requires Exists(st, c) && !Tok(st, c).pending
    ensures MorePending(st, SetTok(st, c, t))
  {
  }

  // ----- Rule masks -----

  lemma {:induction false} LowestExists(m: set<nat>, i: nat)
    requires i in m
    ensures exists l :: l in m && forall k :: k in m ==> l <= k
    decreases i
  {
    if j :| j in m && j < i {
      LowestExists(m, j);
    } else {
      assert i in m && forall k :: k in m ==> i <= k;
    }
  }

  /** __builtin_ffs(mask) - 1 */
  function Lowest(m: set<nat>): (i: nat)
    requires m != {}
    ensures i in m && forall k :: k in m ==> i <= k
  {
    assert exists l :: l in m && forall k :: k in m ==> l <= k by {
      var i :| i in m;
      LowestExists(m, i);
    }
    var i :| i in m && forall k :: k in m ==> i <= k;
    i
  }

  /** No controller of the flow is on the wheel. */
  ghost predicate Unblocked(net: Net, st: State, f: FlowId) {
    forall u :: net.Matches(f, u) ==>
      Known(net, st, u) && !st.users[u].tc.pending && !st.buckets[net.BucketOf(u)].tc.pending
  }

  ghost predicate TokenCharged(was: Token, to: Token, paid: bool, length: nat, now: int, hz: nat) {
    if paid then was.Valid() && !was.pending && to == Charge(was, length, now, hz) else to == was
  }

  /** Every user and bucket of the flow has been charged once for the packet, except those of the
      rules in `rest`; no other controller has changed. */
  ghost predicate ChargedBut(s: Setup, was: State, st: State, f: FlowId, length: nat, now: int, rest: set<nat>) {
    && MorePending(was, st)
    && (forall u :: u in was.users ==>
          TokenCharged(was.users[u].tc, st.users[u].tc, s.net.Matches(f, u) && u.rule !in rest, length, now, s.hz))
    && (forall b :: b in was.buckets ==>
          TokenCharged(was.buckets[b].tc, st.buckets[b].tc, Payer(s.net, f, b) && b.rule !in rest, length, now, s.hz))
  }

  lemma ChargedStart(s: Setup, st: State, f: FlowId, length: nat, now: int)
    ensures ChargedBut(s, st, st, f, length, now, s.net.mask(f))
  {
  }

  /** One turn of the loop over the rules of a packet (tbq_user_consume). */
  lemma ChargedNext(s: Setup, was: State, st: State, f: FlowId, length: nat, now: int, rest: set<nat>, i: nat, to: State)
    requires ChargedBut(s, was, st, f, length, now, rest) && i in rest && i in s.net.mask(f)
    requires Known(s.net, st, s.net.UserOf(f, i)) && MorePending(st, to)
    requires var u := s.net.UserOf(f, i);
             var b := s.net.BucketOf(u);
             && (forall x :: x in st.users ==> TokenCharged(st.users[x].tc, to.users[x].tc, x == u, length, now, s.hz))
             && (forall x :: x in st.buckets ==> TokenCharged(st.buckets[x].tc, to.buckets[x].tc, x == b, length, now, s.hz))
    ensures ChargedBut(s, was, to, f, length, now, rest - {i})
  {
    hide TokenCharged, Payer, Net.Matches;
    ChargedNextUsers(s, was, st, f, length, now, rest, i, to);
    ChargedNextBuckets(s, was, st, f, length, now, rest, i, to);
  }

  lemma ChargedNextUsers(s: Setup, was: State, st: State, f: FlowId, length: nat, now: int, rest: set<nat>, i: nat, to: State)
    requires ChargedBut(s, was, st, f, length, now, rest) && i in rest && i in s.net.mask(f)
    requires Known(s.net, st, s.net.UserOf(f, i)) && MorePending(st, to)
    requires var u := s.net.UserOf(f, i);
             var b := s.net.BucketOf(u);
             && (forall x :: x in st.users ==> TokenCharged(st.users[x].tc, to.users[x].tc, x == u, length, now, s.hz))
             && (forall x :: x in st.buckets ==> TokenCharged(st.buckets[x].tc, to.buckets[x].tc, x == b, length, now, s.hz))
    ensures forall x :: x in was.users ==>
              x in to.users
              && TokenCharged(was.users[x].tc, to.users[x].tc, s.net.Matches(f, x) && x.rule !in rest - {i}, length, now, s.hz)
  {
    hide Charge, Token.Valid;
    var u := s.net.UserOf(f, i);
    forall x | x in was.users
      ensures TokenCharged(was.users[x].tc, to.users[x].tc, s.net.Matches(f, x) && x.rule !in rest - {i}, length, now, s.hz)
    {
      assert TokenCharged(st.users[x].tc, to.users[x].tc, x == u, length, now, s.hz);
    }
  }

  lemma ChargedNextBuckets(s: Setup, was: State, st: State, f: FlowId, length: nat, now: int, rest: set<nat>, i: nat, to: State)
    requires ChargedBut(s, was, st, f, length, now, rest) && i in rest && i in s.net.mask(f)
    requires Known(s.net, st, s.net.UserOf(f, i)) && MorePending(st, to)
    requires var u := s.net.UserOf(f, i);
             var b := s.net.BucketOf(u);
             && (forall x :: x in st.users ==> TokenCharged(st.users[x].tc, to.users[x].tc, x == u, length, now, s.hz))
             && (forall x :: x in st.buckets ==> TokenCharged(st.buckets[x].tc, to.buckets[x].tc, x == b, length, now, s.hz))
    ensures forall x :: x in was.buckets ==>
              x in to.buckets
              && TokenCharged(was.buckets[x].tc, to.buckets[x].tc, Payer(s.net, f, x) && x.rule !in rest - {i}, length, now, s.hz)
  {
    hide Charge, Token.Valid;
    var b := s.net.BucketOf(s.net.UserOf(f, i));
    forall x | x in was.buckets
      ensures TokenCharged(was.buckets[x].tc, to.buckets[x].tc, Payer(s.net, f, x) && x.rule !in rest - {i}, length, now, s.hz)
    {
      assert TokenCharged(st.buckets[x].tc, to.buckets[x].tc, x == b, length, now, s.hz);
    }
  }

  lemma TwoCharges(net: Net, st: State, u: UserId, length: nat, now: int, hz: nat, to: State)
    requires Known(net, st, u)
    requires var b := net.BucketOf(u);
             && st.users[u].tc.Valid() && !st.users[u].tc.pending && st.buckets[b].tc.Valid() && !st.buckets[b].tc.pending
             && to == SetTok(SetTok(st, B(b), Charge(st.buckets[b].tc, length, now, hz)), U(u),
                             Charge(st.users[u].tc, length, now, hz))
    ensures MorePending(st, to)
    ensures forall x :: x in st.users ==> TokenCharged(st.users[x].tc, to.users[x].tc, x == u, length, now, hz)
    ensures forall x :: x in st.buckets ==>
              TokenCharged(st.buckets[x].tc, to.buckets[x].tc, x == net.BucketOf(u), length, now, hz)
  {
    hide Charge, Token.Valid;
  }

  /** The rules still to be charged have not been touched, so none of them is on the wheel. */
  lemma RestIsActive(s: Setup, was: State, st: State, f: FlowId, length: nat, now: int, rest: set<nat>, i: nat)
    requires ChargedBut(s, was, st, f, length, now, rest) && i in rest && i in s.net.mask(f) && Unblocked(s.net, was, f)
    ensures var u := s.net.UserOf(f, i);
            && Known(s.net, st, u) && !st.users[u].tc.pending && !st.buckets[s.net.BucketOf(u)].tc.pending
            && st.users[u].tc == was.users[u].tc && st.buckets[s.net.BucketOf(u)].tc == was.buckets[s.net.BucketOf(u)].tc
  {
    hide Charge;
    assert s.net.Matches(f, s.net.UserOf(f, i));
  }

  lemma Controllers(s: Setup, st: State, history: map<Ctl, seq<Event>>, now: int, c: Ctl)
    requires ControllersOk(s, st, history, now) && Exists(st, c)
    ensures c in history
    ensures Tok(st, c).Valid() && Tok(st, c).rate == s.rate(c) && (!Tok(st, c).pending ==> Tok(st, c).jiffies <= now)
  {
    assert ControllerOk(s, c, Tok(st, c), history, now);
  }

  // ----- Operations on the backlog, as seen by the machine -----

  lemma TimerCarries(s: Setup, st: State, to: State, w: Timer, work: seq<Ctl>, now: int)
    requires TimerOk(s, st, w, work, now) && SameTokens(st, to)
    ensures TimerOk(s, to, w, work, now)
  {
    hide WheelOk;
    WheelCarries(st, to, w.slots, work, w.position);
    SameTokensSameTok(st, to);
  }

  /** tbq_timer_del and TBQ_RULE_MASK_CLR for the controller that wakes up. */
  function Woken(w: Timer, c: Ctl): Timer {
    w.(nrPending := w.nrPending - 1,
       userMask := if c.U? then w.userMask - {c.user} else w.userMask,
       bucketMask := if c.B? then w.bucketMask - {c.bucket} else w.bucketMask)
  }

  lemma WakeTimer(s: Setup, st: State, w: Timer, work: seq<Ctl>, now: int)
    requires TimerOk(s, st, w, work, now) && work != []
    ensures var c := work[0];
            Exists(st, c) && TimerOk(s, SetTok(st, c, Tok(st, c).(pending := false)), Woken(w, c), work[1..], now)
  {
    hide WheelOk, Total;
    WakeKeeps(st, w.slots, work, w.position);
    SetTokEffect(st, work[0], Tok(st, work[0]).(pending := false));
  }

  lemma WorkIsDue(s: Setup, st: State, w: Timer, work: seq<Ctl>, now: int)
    requires TimerOk(s, st, w, work, now) && work != []
    ensures Exists(st, work[0]) && Tok(st, work[0]).pending && Tok(st, work[0]).jiffies <= now
  {
    hide Total;
    assert work[0] in work;
  }

  /** The list of the current tick comes off the wheel. */
  function Turned(w: Timer): Timer
    requires |w.slots| == SLOTS
  {
    w.(slots := w.slots[w.position % SLOTS := []], position := w.position + 1)
  }

  lemma TurnTimer(s: Setup, st: State, w: Timer, now: int)
    requires TimerOk(s, st, w, [], now) && w.position <= now
    ensures |w.slots| == SLOTS && TimerOk(s, st, Turned(w), w.slots[w.position % SLOTS], now)
    ensures w.nrPending == 0 ==> w.slots[w.position % SLOTS] == []
  {
    hide WheelOk, Total;
    WheelSize(st, w.slots, [], w.position);
    TurnKeeps(st, w.slots, w.position);
    TotalUpdate(w.slots, w.position % SLOTS, []);
    TotalAtLeast(w.slots, w.position % SLOTS);
  }

  /** Time passes, but not so much that a wake-up could be a whole turn away. */
  lemma TimePasses(s: Setup, st: State, w: Timer, history: map<Ctl, seq<Event>>, now: int, at: int)
    requires TimerOk(s, st, w, [], now) && ControllersOk(s, st, history, now)
    requires now <= at && at + s.maxWait < w.position + SLOTS
    ensures TimerOk(s, st, w, [], at) && ControllersOk(s, st, history, at)
  {
    hide WheelOk, MasksOk;
    forall c | Exists(st, c) ensures ControllerOk(s, c, Tok(st, c), history, at) {
      assert ControllerOk(s, c, Tok(st, c), history, now);
    }
  }

  lemma ControllersCarry(s: Setup, st: State, to: State, history: map<Ctl, seq<Event>>, now: int)
    requires ControllersOk(s, st, history, now) && SameTokens(st, to)
    ensures ControllersOk(s, to, history, now)
  {
    hide SameTokens, ControllerOk;
    SameTokensSameTok(st, to);
  }

  /** The logs follow a change to one flow. */
  lemma LogsChange(flows: map<FlowId, Flow>, l: Logs, maxLength: nat, f: FlowId, F: Flow, l': Logs)
    requires LogsOk(flows, l, maxLength) && f in flows
    requires l'.accepted.Keys == l.accepted.Keys && l'.released.Keys == l.released.Keys && l'.dropped.Keys == l.dropped.Keys
    requires f in l'.accepted && f in l'.released && f in l'.dropped
    requires l' == Logs(l.accepted[f := l'.accepted[f]], l.released[f := l'.released[f]], l.dropped[f := l'.dropped[f]])
    requires LogOk(F.packets, l'.accepted[f], l'.released[f], l'.dropped[f]) && forall p <- F.packets :: p.length <= maxLength
    ensures LogsOk(flows[f := F], l', maxLength)
  {
    hide LogOk;
  }

  function LogDropped(l: Logs, f: FlowId, p: Packet): Logs
    requires f in l.dropped
  {
    l.(dropped := l.dropped[f := l.dropped[f] + [p]])
  }

  function LogReleased(l: Logs, f: FlowId, p: Packet): Logs
    requires f in l.released
  {
    l.(released := l.released[f := l.released[f] + [p]])
  }

  function LogAccepted(l: Logs, f: FlowId, p: Packet): Logs
    requires f in l.accepted
  {
    l.(accepted := l.accepted[f := l.accepted[f] + [p]])
  }

  lemma DropLogs(flows: map<FlowId, Flow>, l: Logs, maxLength: nat, f: FlowId, F: Flow)
    requires LogsOk(flows, l, maxLength) && f in flows && flows[f].packets != []
    requires F.packets == flows[f].packets[..|flows[f].packets| - 1]
    ensures f in l.dropped && LogsOk(flows[f := F], LogDropped(l, f, flows[f].packets[|flows[f].packets| - 1]), maxLength)
  {
    hide LogOk;
    var q := flows[f].packets;
    LogDrop(q, l.accepted[f], l.released[f], l.dropped[f]);
    assert forall p <- F.packets :: p in q;
    LogsChange(flows, l, maxLength, f, F, LogDropped(l, f, q[|q| - 1]));
  }

  lemma ReleaseLogs(flows: map<FlowId, Flow>, l: Logs, maxLength: nat, f: FlowId, F: Flow)
    requires LogsOk(flows, l, maxLength) && f in flows && flows[f].packets != [] && F.packets == flows[f].packets[1..]
    ensures f in l.released && LogsOk(flows[f := F], LogReleased(l, f, flows[f].packets[0]), maxLength)
  {
    hide LogOk;
    var q := flows[f].packets;
    LogRelease(q, l.accepted[f], l.released[f], l.dropped[f]);
    assert forall p <- F.packets :: p in q;
    LogsChange(flows, l, maxLength, f, F, LogReleased(l, f, q[0]));
  }

  lemma EnqueueLogs(flows: map<FlowId, Flow>, l: Logs, maxLength: nat, f: FlowId, F: Flow, length: nat)
    requires LogsOk(flows, l, maxLength) && f in flows && f in l.accepted && length <= maxLength
    requires F.packets == flows[f].packets + [Packet(|l.accepted[f]|, length)]
    ensures LogsOk(flows[f := F], LogAccepted(l, f, Packet(|l.accepted[f]|, length)), maxLength)
  {
    hide LogOk;
    LogAccept(flows[f].packets, l.accepted[f], l.released[f], l.dropped[f], length);
    LogsChange(flows, l, maxLength, f, F, LogAccepted(l, f, Packet(|l.accepted[f]|, length)));
  }

  lemma PassLogs(flows: map<FlowId, Flow>, l: Logs, maxLength: nat, f: FlowId, length: nat)
    requires LogsOk(flows, l, maxLength) && f in flows && f in l.accepted && flows[f].packets == []
    ensures var p := Packet(|l.accepted[f]|, length);
            f in l.released && LogsOk(flows, LogReleased(LogAccepted(l, f, p), f, p), maxLength)
  {
    hide LogOk;
    var p := Packet(|l.accepted[f]|, length);
    LogAccept(flows[f].packets, l.accepted[f], l.released[f], l.dropped[f], length);
    assert flows[f := flows[f]] == flows;
    LogsChange(flows, l, maxLength, f, flows[f], LogReleased(LogAccepted(l, f, p), f, p));
  }

  /** One turn of the drop loop. */
  lemma DropStep(s: Setup, st: State, w: Timer, x: Context, now: int, history: map<Ctl, seq<Event>>, l: Logs, f: FlowId)
    requires Inv(s.net, st, x.busy) && TimerOk(s, st, w, x.work, now) && ControllersOk(s, st, history, now)
    requires LogsOk(st.flows, l, s.maxLength) && Parked(s.net, st, f) && st.flows[f].packets != []
    ensures f in l.dropped
    ensures var to := DropNewest(s.net, st, f);
            var q := st.flows[f].packets;
            && Inv(s.net, to, x.busy) && TimerOk(s, to, w, x.work, now) && ControllersOk(s, to, history, now)
            && LogsOk(to.flows, LogDropped(l, f, q[|q| - 1]), s.maxLength)
            && SameTokens(st, to) && f in to.flows && to.flows[f].packets == q[..|q| - 1]
            && PacketCount(s.net, to.flows) == PacketCount(s.net, st.flows) - 1
  {
    hide Inv, TimerOk, ControllersOk, LogsOk, Take, SameTokens, PacketCount;
    var q := st.flows[f].packets;
    var n := |q| - 1;
    var to := DropNewest(s.net, st, f);
    DropNewestKeeps(s.net, st, f, x.busy);
    TakeTokens(s.net, st, f, q[..n], q[n].length);
    TakeFlow(s.net, st, f, q[..n], q[n].length);
    TimerCarries(s, st, to, w, x.work, now);
    ControllersCarry(s, st, to, history, now);
    DropLogs(st.flows, l, s.maxLength, f, to.flows[f]);
    FlowInNet(s.net, st, f, x.busy);
    PacketCountChange(s.net, st.flows, f, to.flows[f]);
  }

  ghost predicate SameLists(st: State, to: State) {
    && to.users.Keys == st.users.Keys && to.buckets.Keys == st.buckets.Keys
    && (forall x :: x in st.users ==> to.users[x].units == st.users[x].units && to.users[x].attached == st.users[x].attached)
    && (forall b :: b in st.buckets ==> to.buckets[b].units == st.buckets[b].units)
  }

  /** `left` is what remains of `all` when the newest packets go while the rest exceeds `ceiling`. */
  ghost predicate NoMoreThan(all: seq<Packet>, left: seq<Packet>, ceiling: nat) {
    left <= all && (left != all ==> Length(all[..|left| + 1]) > ceiling)
  }

  lemma NoMoreThanStart(all: seq<Packet>, ceiling: nat)
    ensures NoMoreThan(all, all, ceiling)
  {
  }

  lemma NoMoreThanNext(net: Net, st: State, f: FlowId, all: seq<Packet>, ceiling: nat, busy: Option<Ctl>)
    requires Inv(net, st, busy) && Parked(net, st, f) && st.flows[f].octets > ceiling
    requires NoMoreThan(all, st.flows[f].packets, ceiling) && st.flows[f].packets != []
    ensures NoMoreThan(all, st.flows[f].packets[..|st.flows[f].packets| - 1], ceiling)
  {
    hide Inv;
    var q := st.flows[f].packets;
    QueueNotEmpty(net, st, f, busy);
    assert all[..|q|] == q;
  }

  /** What dropping from the tail of a queue leaves: nothing but that queue has changed while it is
      not empty, and no unit has been attached. */
  ghost predicate Shrunk(net: Net, was: State, st: State, f: FlowId) {
    && SameTokens(was, st) && was.users.Keys == st.users.Keys && f in was.flows && f in st.flows
    && st.flows[f].packets <= was.flows[f].packets
    && (st.flows[f].packets != [] ==> SameLists(was, st) && Parked(net, st, f) && st.flows[f].parked == was.flows[f].parked)
    && (forall u :: u in was.users && st.users[u].attached ==> was.users[u].attached)
  }

  lemma ShrunkNext(net: Net, was: State, st: State, f: FlowId, busy: Option<Ctl>)
    requires Shrunk(net, was, st, f) && Inv(net, st, busy) && Parked(net, st, f) && st.flows[f].packets != []
    ensures Shrunk(net, was, DropNewest(net, st, f), f)
  {
    hide Inv, Take, SameTokens;
    var q := st.flows[f].packets;
    var n := |q| - 1;
    var to := DropNewest(net, st, f);
    QueueNotEmpty(net, st, f, busy);
    assert q == q[..n] + [q[n]] && q[n] in q;
    LengthSplit(q[..n], [q[n]]);
    assert Length([q[n]]) == q[n].length;
    TakeTokens(net, st, f, q[..n], q[n].length);
    SameTokensTrans(was, st, to);
    TakeFlow(net, st, f, q[..n], q[n].length);
    TakeAttaches(net, st, f, q[..n], q[n].length);
    if q[..n] != [] {
      LengthPositive(q[..n]);
      TakeLists(net, st, f, q[..n], q[n].length, busy);
    }
  }

  lemma TakeAttaches(net: Net, st: State, f: FlowId, left: seq<Packet>, length: nat)
    requires Parked(net, st, f)
    ensures var to := Take(net, st, f, left, length);
            to.users.Keys == st.users.Keys && forall u :: u in st.users && to.users[u].attached ==> st.users[u].attached
  {
    hide FlowDequeue;
    DequeueEffect(net, st, f, left, length);
  }

  lemma SameTokensTrans(a: State, b: State, c: State)
    requires SameTokens(a, b) && SameTokens(b, c)
    ensures SameTokens(a, c) && a.users.Keys == c.users.Keys
  {
  }

  lemma SameTokensSelf(net: Net, st: State, f: FlowId)
    requires Parked(net, st, f)
    ensures SameTokens(st, st) && Shrunk(net, st, st, f)
  {
  }

  lemma SameQueueLogs(flows: map<FlowId, Flow>, l: Logs, maxLength: nat, f: FlowId, F: Flow)
    requires LogsOk(flows, l, maxLength) && f in flows && F.packets == flows[f].packets
    ensures LogsOk(flows[f := F], l, maxLength)
  {
    hide LogOk;
  }

  /** Moving the flow to the controller that blocks it. */
  lemma SwitchStep(s: Setup, st: State, w: Timer, x: Context, now: int, history: map<Ctl, seq<Event>>, l: Logs, f: FlowId, rule: nat)
    requires Inv(s.net, st, x.busy) && TimerOk(s, st, w, x.work, now) && ControllersOk(s, st, history, now)
    requires LogsOk(st.flows, l, s.maxLength) && Parked(s.net, st, f) && Blocks(s.net, st, f, rule)
    ensures Known(s.net, st, s.net.UserOf(f, rule)) && Known(s.net, FlowDetach(s.net, st, f), s.net.UserOf(f, rule))
    ensures var to := Switch(s.net, st, f, rule);
            && Inv(s.net, to, x.busy) && TimerOk(s, to, w, x.work, now) && ControllersOk(s, to, history, now)
            && LogsOk(to.flows, l, s.maxLength) && PacketCount(s.net, to.flows) == PacketCount(s.net, st.flows)
  {
    hide Inv, TimerOk, ControllersOk, LogsOk, Switch, SameTokens, PacketCount, Blocks, FlowDetach;
    SwitchKeeps(s.net, st, f, rule, x.busy);
    var to := Switch(s.net, st, f, rule);
    SwitchTokens(s.net, st, f, rule);
    SwitchFlow(s.net, st, f, rule);
    SameQueueLogs(st.flows, l, s.maxLength, f, to.flows[f]);
    TimerCarries(s, st, to, w, x.work, now);
    ControllersCarry(s, st, to, history, now);
    FlowInNet(s.net, st, f, x.busy);
    PacketCountChange(s.net, st.flows, f, to.flows[f]);
  }

  /** Releasing the oldest packet. */
  lemma ReleaseStep(s: Setup, st: State, w: Timer, x: Context, now: int, history: map<Ctl, seq<Event>>, l: Logs, f: FlowId)
    requires Inv(s.net, st, x.busy) && TimerOk(s, st, w, x.work, now) && ControllersOk(s, st, history, now)
    requires LogsOk(st.flows, l, s.maxLength) && Parked(s.net, st, f) && st.flows[f].packets != []
    ensures f in l.released
    ensures var to := ReleaseOldest(s.net, st, f);
            && Inv(s.net, to, x.busy) && TimerOk(s, to, w, x.work, now) && ControllersOk(s, to, history, now)
            && LogsOk(to.flows, LogReleased(l, f, st.flows[f].packets[0]), s.maxLength)
            && PacketCount(s.net, to.flows) == PacketCount(s.net, st.flows) - 1
            && to.users.Keys == st.users.Keys && to.buckets.Keys == st.buckets.Keys
            && forall u :: u in st.users && to.users[u].attached ==> st.users[u].attached
  {
    hide Inv, TimerOk, ControllersOk, LogsOk, Take, FlowSchedule, SameTokens, PacketCount;
    var q := st.flows[f].packets;
    var mid := FlowSchedule(s.net, st, f, q[0].length);
    ReleaseOldestKeeps(s.net, st, f, x.busy);
    FlowScheduleKeeps(s.net, st, f, q[0].length, x.busy);
    ScheduleTokens(s.net, st, f, q[0].length);
    ScheduleAttaches(s.net, st, f, q[0].length);
    var to := ReleaseOldest(s.net, st, f);
    TakeTokens(s.net, mid, f, q[1..], q[0].length);
    SameTokensTrans(st, mid, to);
    TakeFlow(s.net, mid, f, q[1..], q[0].length);
    TakeAttaches(s.net, mid, f, q[1..], q[0].length);
    TimerCarries(s, st, to, w, x.work, now);
    ControllersCarry(s, st, to, history, now);
    ReleaseLogs(st.flows, l, s.maxLength, f, to.flows[f]);
    FlowInNet(s.net, st, f, x.busy);
    PacketCountChange(s.net, st.flows, f, to.flows[f]);
    SameKeys(st, to);
  }

  lemma SameKeys(st: State, to: State)
    requires SameTokens(st, to)
    ensures to.users.Keys == st.users.Keys && to.buckets.Keys == st.buckets.Keys
  {
  }

  lemma ScheduleAttaches(net: Net, st: State, f: FlowId, length: nat)
    requires Parked(net, st, f)
    ensures var to := FlowSchedule(net, st, f, length);
            to.users.Keys == st.users.Keys && forall u :: u in st.users ==> to.users[u].attached == st.users[u].attached
  {
    hide TbqDrr.Schedule;
  }

  /** The flow is at the head, and neither its host nor its host's bucket is on the wheel. */
  ghost predicate Due(net: Net, st: State, f: FlowId) {
    && AtHead(net, st, f)
    && var u := Host(net, st, f);
       !st.users[u].tc.pending && !st.buckets[net.BucketOf(u)].tc.pending
  }

  /** The packet released is charged, in both lists, to the unit at their head: a turn of deficit
      round robin under the host and, if the host is attached, under its bucket. */
  ghost predicate HeadsServed(net: Net, st: State, to: State, f: FlowId, length: nat)
    requires Parked(net, st, f)
  {
    var u := Host(net, st, f);
    var b := net.BucketOf(u);
    && u in to.users && b in to.buckets
    && TbqDrr.Turn(st.users[u].units, to.users[u].units, f, length)
    && (st.users[u].attached ==> TbqDrr.Turn(st.buckets[b].units, to.buckets[b].units, u, length))
  }

  lemma ScheduleServesHeads(net: Net, st: State, f: FlowId, length: nat, busy: Option<Ctl>)
    requires Inv(net, st, busy) && AtHead(net, st, f)
    ensures HeadsServed(net, st, FlowSchedule(net, st, f, length), f, length)
  {
    hide Inv, FlowSchedule, TbqDrr.Schedule, TbqDrr.Drr.Valid, TbqDrr.Turn, UserOk, Length;
    var u := Host(net, st, f);
    InvParked(net, st, f, busy);
    HostLists(net, st, f, busy);
    TbqDrr.HeadHasItsTurn(st.users[u].units, f, length);
    TbqDrr.HeadHasItsTurn(st.buckets[net.BucketOf(u)].units, u, length);
    ScheduleEffect(net, st, f, length);
  }

  /** What an attempt to dequeue did: after the drops, which took no more than the ceiling made them,
      there was nothing left, or a controller blocked the flow and it moved there, or every
      controller was charged for the oldest packet, which was sent. */
  ghost predicate Attempt(s: Setup, was: State, st: State, f: FlowId, now: int, ceiling: nat,
                          dropped: State, charged: State, rule: Option<nat>, sent: seq<Packet>) {
    && Shrunk(s.net, was, dropped, f) && NoMoreThan(was.flows[f].packets, dropped.flows[f].packets, ceiling)
    && dropped.flows[f].octets <= ceiling
    && var q := dropped.flows[f].packets;
       if q == [] then sent == [] && st == dropped
       else if rule.Some? then
         sent == [] && Blocks(s.net, dropped, f, rule.value) && st == Switch(s.net, dropped, f, rule.value)
       else
         && sent == [q[0]] && ChargedBut(s, dropped, charged, f, q[0].length, now, {})
         && Parked(s.net, charged, f) && charged.flows == dropped.flows && st == ReleaseOldest(s.net, charged, f)
  }

  lemma DueIsParked(net: Net, st: State, f: FlowId)
    requires Due(net, st, f)
    ensures f in st.flows && Parked(net, st, f)
  {
  }

  lemma NothingLeft(s: Setup, was: State, st: State, f: FlowId, now: int, ceiling: nat, busy: Option<Ctl>)
    requires Inv(s.net, was, busy) && Due(s.net, was, f) && Shrunk(s.net, was, st, f)
    requires NoMoreThan(was.flows[f].packets, st.flows[f].packets, ceiling) && st.flows[f].octets <= ceiling
    requires st.flows[f].packets == [] && was.flows[f].packets != []
    requires PacketCount(s.net, was.flows) - PacketCount(s.net, st.flows) == |was.flows[f].packets|
    ensures Attempt(s, was, st, f, now, ceiling, st, st, None, [])
    ensures Closer(s.net, was, st, Host(s.net, was, f))
  {
    hide Inv, PacketCount, Shrunk, NoMoreThan, Closer;
    ShrunkKeys(s.net, was, st, f);
    FewerIsCloser(s.net, was, st, st, Host(s.net, was, f), f);
  }

  lemma ShrunkKeys(net: Net, was: State, st: State, f: FlowId)
    requires Shrunk(net, was, st, f)
    ensures f in was.flows && f in st.flows && st.users.Keys == was.users.Keys && st.buckets.Keys == was.buckets.Keys
  {
  }

  lemma AttemptMoved(s: Setup, was: State, st: State, f: FlowId, now: int, ceiling: nat, rule: nat)
    requires Shrunk(s.net, was, st, f) && st.flows[f].octets <= ceiling
    requires NoMoreThan(was.flows[f].packets, st.flows[f].packets, ceiling)
    requires st.flows[f].packets != [] && Blocks(s.net, st, f, rule)
    ensures Parked(s.net, st, f) && Known(s.net, st, s.net.UserOf(f, rule))
    ensures Attempt(s, was, Switch(s.net, st, f, rule), f, now, ceiling, st, st, Some(rule), [])
  {
    hide Switch, NoMoreThan;
  }

  lemma AttemptSent(s: Setup, was: State, mid: State, st: State, f: FlowId, now: int, ceiling: nat)
    requires Shrunk(s.net, was, mid, f) && mid.flows[f].octets <= ceiling
    requires NoMoreThan(was.flows[f].packets, mid.flows[f].packets, ceiling) && mid.flows[f].packets != []
    requires ChargedBut(s, mid, st, f, mid.flows[f].packets[0].length, now, {})
    requires Parked(s.net, st, f) && st.flows == mid.flows
    ensures Attempt(s, was, ReleaseOldest(s.net, st, f), f, now, ceiling, mid, st, None, [mid.flows[f].packets[0]])
  {
    hide Shrunk, ReleaseOldest, NoMoreThan, ChargedBut;
  }

  /** A packet that was sent took a turn of deficit round robin, at the head of both lists. */
  lemma AttemptServesHeads(s: Setup, was: State, st: State, f: FlowId, now: int, ceiling: nat,
                           dropped: State, charged: State, sent: seq<Packet>, busy: Option<Ctl>)
    requires Attempt(s, was, st, f, now, ceiling, dropped, charged, None, sent) && sent != []
    requires Due(s.net, was, f) && Inv(s.net, charged, busy)
    ensures Parked(s.net, charged, f)
    ensures HeadsServed(s.net, charged, FlowSchedule(s.net, charged, f, sent[0].length), f, sent[0].length)
  {
    hide Inv, HeadsServed, ReleaseOldest, FlowSchedule, TokenCharged;
    ScheduleServesHeads(s.net, charged, f, sent[0].length, busy);
  }

  lemma HostLists(net: Net, st: State, f: FlowId, busy: Option<Ctl>)
    requires Inv(net, st, busy) && Parked(net, st, f)
    ensures var u := Host(net, st, f);
            && st.users[u].units.Valid() && st.buckets[net.BucketOf(u)].units.Valid()
            && (st.users[u].attached ==> u in st.buckets[net.BucketOf(u)].units.order)
  {
    hide CountsOk, FlowsOk, Progress;
    var u := Host(net, st, f);
    assert UserOk(net, st, u) && BucketOk(net, st, net.BucketOf(u));
  }

  lemma ScheduleEffect(net: Net, st: State, f: FlowId, length: nat)
    requires Parked(net, st, f)
    requires var u := Host(net, st, f);
             var C := st.buckets[net.BucketOf(u)];
             && f in st.users[u].units.deficit && f in st.users[u].units.weight
             && (st.users[u].attached ==> u in C.units.deficit && u in C.units.weight)
    ensures var to := FlowSchedule(net, st, f, length);
            var u := Host(net, st, f);
            var b := net.BucketOf(u);
            && u in to.users && to.users[u].units == TbqDrr.Schedule(st.users[u].units, f, length)
            && b in to.buckets
            && (st.users[u].attached ==> to.buckets[b].units == TbqDrr.Schedule(st.buckets[b].units, u, length))
  {
    hide TbqDrr.Schedule;
  }

  /** What an attempt to dequeue achieves: fewer packets, or a flow fewer under its host. */
  ghost predicate Closer(net: Net, was: State, st: State, u: UserId) {
    var b := net.BucketOf(u);
    && u in was.users && u in st.users && b in was.buckets && b in st.buckets
    && (st.users[u].attached ==> was.users[u].attached)
    && (|| PacketCount(net, st.flows) < PacketCount(net, was.flows)
        || (&& PacketCount(net, st.flows) == PacketCount(net, was.flows)
            && |st.users[u].units.order| < |was.users[u].units.order|
            && Listed(net, st, b) < Listed(net, was, b)
            && |st.buckets[b].units.order| <= |was.buckets[b].units.order|))
  }

  lemma SwitchIsCloser(net: Net, was: State, st: State, f: FlowId, rule: nat, busy: Option<Ctl>)
    requires Inv(net, st, busy) && Shrunk(net, was, st, f) && Parked(net, was, f) && st.flows[f].packets != []
    requires PacketCount(net, st.flows) <= PacketCount(net, was.flows)
    requires Due(net, was, f) && Blocks(net, st, f, rule)
    ensures Parked(net, st, f) && Known(net, st, net.UserOf(f, rule)) && Known(net, FlowDetach(net, st, f), net.UserOf(f, rule))
    ensures Closer(net, was, Switch(net, st, f, rule), Host(net, was, f))
  {
    hide Inv, Switch, PacketCount, Listed, SameTokens, FlowDetach;
    DifferentRule(net, was, st, f, rule);
    BlocksKnown(net, st, f, rule);
    SwitchLists(net, st, f, rule);
    SwitchListed(net, st, f, rule, busy);
    SwitchFlow(net, st, f, rule);
    FlowInNet(net, st, f, busy);
    PacketCountChange(net, st.flows, f, Switch(net, st, f, rule).flows[f]);
    ListedSame(net, was, st, net.BucketOf(Host(net, was, f)));
  }

  lemma FewerIsCloser(net: Net, was: State, mid: State, st: State, u: UserId, f: FlowId)
    requires Shrunk(net, was, mid, f) && u in was.users && net.BucketOf(u) in was.buckets
    requires st.users.Keys == mid.users.Keys && st.buckets.Keys == mid.buckets.Keys
    requires forall x :: x in mid.users && st.users[x].attached ==> mid.users[x].attached
    requires PacketCount(net, st.flows) < PacketCount(net, was.flows)
    ensures Closer(net, was, st, u)
  {
    hide PacketCount, Listed;
  }

  /** The flow is blocked: it moves, and the list being dequeued is shorter. */
  lemma BlockedStep(s: Setup, was: State, st: State, w: Timer, x: Context, now: int, history: map<Ctl, seq<Event>>, l: Logs,
                    trace: seq<TbqTurns.Turn>, f: FlowId, rule: nat)
    requires Inv(s.net, st, x.busy) && TimerOk(s, st, w, x.work, now) && ControllersOk(s, st, history, now)
    requires LogsOk(st.flows, l, s.maxLength) && Traced(s.net, st, trace, l.released)
    requires Due(s.net, was, f) && Shrunk(s.net, was, st, f) && st.flows[f].packets != [] && Blocks(s.net, st, f, rule)
    requires PacketCount(s.net, st.flows) <= PacketCount(s.net, was.flows)
    ensures Parked(s.net, st, f) && Known(s.net, st, s.net.UserOf(f, rule))
    ensures Known(s.net, FlowDetach(s.net, st, f), s.net.UserOf(f, rule)) && f in FlowDetach(s.net, st, f).flows
    ensures var to := Switch(s.net, st, f, rule);
            && Inv(s.net, to, x.busy) && TimerOk(s, to, w, x.work, now) && ControllersOk(s, to, history, now)
            && LogsOk(to.flows, l, s.maxLength) && PacketCount(s.net, to.flows) == PacketCount(s.net, st.flows)
            && Traced(s.net, to, trace + SwitchTurns(s.net, st, f, rule), l.released)
            && Closer(s.net, was, to, Host(s.net, was, f))
  {
    hide Inv, TimerOk, ControllersOk, LogsOk, PacketCount, Traced, Shrunk, Switch, Closer, Blocks, SwitchTurns, FlowDetach;
    StillParked(s.net, was, st, f);
    SwitchIsCloser(s.net, was, st, f, rule, x.busy);
    SwitchStep(s, st, w, x, now, history, l, f, rule);
    SwitchTraced(s.net, st, f, rule, trace, l.released, x.busy);
  }

  /** Every controller has been charged: the oldest packet is released. */
  lemma SentStep(s: Setup, was: State, mid: State, st: State, w: Timer, x: Context, now: int, history: map<Ctl, seq<Event>>, l: Logs,
                 trace: seq<TbqTurns.Turn>, f: FlowId)
    requires Inv(s.net, st, x.busy) && TimerOk(s, st, w, x.work, now) && ControllersOk(s, st, history, now)
    requires LogsOk(st.flows, l, s.maxLength) && Traced(s.net, st, trace, l.released)
    requires Due(s.net, was, f) && Shrunk(s.net, was, mid, f) && mid.flows[f].packets != []
    requires ChargedBut(s, mid, st, f, mid.flows[f].packets[0].length, now, {})
    requires PacketCount(s.net, mid.flows) <= PacketCount(s.net, was.flows)
    ensures Parked(s.net, st, f) && st.flows == mid.flows && f in l.released && f in s.net.flows
    ensures var p := mid.flows[f].packets[0];
            var to := ReleaseOldest(s.net, st, f);
            && Inv(s.net, to, x.busy) && TimerOk(s, to, w, x.work, now) && ControllersOk(s, to, history, now)
            && LogsOk(to.flows, LogReleased(l, f, p), s.maxLength)
            && PacketCount(s.net, to.flows) == PacketCount(s.net, st.flows) - 1
            && Traced(s.net, to, trace + ReleaseTurns(s.net, st, f, p.length), l.released[f := l.released[f] + [p]])
            && Closer(s.net, was, to, Host(s.net, was, f))
  {
    hide Inv, TimerOk, ControllersOk, LogsOk, PacketCount, Traced, Shrunk, Closer, ReleaseOldest, ReleaseTurns, ChargedBut;
    StillParked(s.net, was, mid, f);
    var p := mid.flows[f].packets[0];
    ChargedParked(s, mid, st, f, p.length, now);
    FlowInNet(s.net, st, f, x.busy);
    ReleaseStep(s, st, w, x, now, history, l, f);
    FewerIsCloser(s.net, was, mid, ReleaseOldest(s.net, st, f), Host(s.net, was, f), f);
    HeadKept(s.net, was, mid, f);
    HeadCharged(s, mid, st, f, p.length, now);
    ReleaseTraced(s.net, st, f, trace, l.released, x.busy);
  }

  /** Charging does not touch the lists. */
  lemma HeadCharged(s: Setup, was: State, st: State, f: FlowId, length: nat, now: int)
    requires ChargedBut(s, was, st, f, length, now, {}) && AtHead(s.net, was, f)
    ensures AtHead(s.net, st, f)
  {
    hide TokenCharged;
  }

  /** Nor do drops that leave something. */
  lemma HeadKept(net: Net, was: State, st: State, f: FlowId)
    requires Shrunk(net, was, st, f) && AtHead(net, was, f) && st.flows[f].packets != []
    ensures AtHead(net, st, f)
  {
  }

  lemma PacketFits(flows: map<FlowId, Flow>, l: Logs, maxLength: nat, f: FlowId)
    requires LogsOk(flows, l, maxLength) && f in flows && flows[f].packets != []
    ensures flows[f].packets[0].length <= maxLength
  {
    hide LogOk;
    assert flows[f].packets[0] in flows[f].packets;
  }

  lemma StillParked(net: Net, was: State, st: State, f: FlowId)
    requires Shrunk(net, was, st, f) && Parked(net, was, f) && st.flows[f].packets != []
    ensures Parked(net, st, f) && Host(net, st, f) == Host(net, was, f)
  {
  }

  lemma ChargedParked(s: Setup, was: State, st: State, f: FlowId, length: nat, now: int)
    requires ChargedBut(s, was, st, f, length, now, {}) && Parked(s.net, was, f)
    ensures Parked(s.net, st, f) && st.flows == was.flows
    ensures st.users.Keys == was.users.Keys && st.buckets.Keys == was.buckets.Keys
    ensures forall x :: x in was.users ==> st.users[x].attached == was.users[x].attached
  {
    hide Charge;
  }

  /** The head of a user's list is due when neither the user nor its bucket is on the wheel. */
  lemma HeadIsDue(net: Net, st: State, u: UserId, busy: Option<Ctl>)
    requires Inv(net, st, busy) && Known(net, st, u) && st.users[u].units.order != []
    requires !st.users[u].tc.pending && !st.buckets[net.BucketOf(u)].tc.pending
    requires st.users[u].attached ==> st.buckets[net.BucketOf(u)].units.order != [] && st.buckets[net.BucketOf(u)].units.order[0] == u
    ensures var f := st.users[u].units.order[0]; Due(net, st, f) && Host(net, st, f) == u
  {
    hide CountsOk, FlowsOk, BucketsOk, Progress;
    var f := st.users[u].units.order[0];
    assert UserOk(net, st, u);
    assert f in st.users[u].units.order && ParkedAt(net, st.flows, f, u);
  }

  lemma UserKnown(net: Net, st: State, u: UserId, busy: Option<Ctl>)
    requires Inv(net, st, busy) && u in st.users
    ensures Known(net, st, u)
  {
  }

  /** A unit attached to a bucket belongs to a user that has flows. */
  lemma HeadOfBucket(net: Net, st: State, b: BucketId, busy: Option<Ctl>)
    requires Inv(net, st, busy) && b in st.buckets && st.buckets[b].units.order != []
    ensures var u := st.buckets[b].units.order[0];
            && Known(net, st, u) && net.BucketOf(u) == b && st.users[u].attached && st.users[u].units.order != []
  {
    hide CountsOk, FlowsOk, Progress;
    var u := st.buckets[b].units.order[0];
    assert u in st.buckets[b].units.order;
    assert BucketOk(net, st, b) && UserOk(net, st, u);
  }

  /** Letting go of a user: its bucket's list is one shorter. */
  lemma DetachUnitShrinks(net: Net, st: State, u: UserId, busy: Option<Ctl>)
    requires Inv(net, st, busy) && Known(net, st, u) && st.users[u].attached
    ensures var to := DetachUnit(net, st, u);
            var b := net.BucketOf(u);
            && b in to.buckets && |to.buckets[b].units.order| == |st.buckets[b].units.order| - 1
            && Listed(net, to, b) == Listed(net, st, b) && to.flows == st.flows
  {
    hide CountsOk, FlowsOk, Progress, Listed, TbqDrr.Detach;
    var b := net.BucketOf(u);
    assert UserOk(net, st, u) && BucketOk(net, st, b);
    DetachMembers(st.buckets[b].units, u);
    ListedChange(net, st, DetachUnit(net, st, u), b, u);
  }

  /** Changing where a unit is attached. */
  lemma UnitStep(s: Setup, st: State, to: State, w: Timer, x: Context, now: int, history: map<Ctl, seq<Event>>, l: Logs, u: UserId)
    requires Known(s.net, st, u) && (to == AttachUnit(s.net, st, u) || to == DetachUnit(s.net, st, u))
    requires TimerOk(s, st, w, x.work, now) && ControllersOk(s, st, history, now) && LogsOk(st.flows, l, s.maxLength)
    ensures TimerOk(s, to, w, x.work, now) && ControllersOk(s, to, history, now) && LogsOk(to.flows, l, s.maxLength)
    ensures to.flows == st.flows
  {
    hide TimerOk, ControllersOk, LogsOk, SameTokens;
    UnitTokens(s.net, st, u);
    TimerCarries(s, st, to, w, x.work, now);
    ControllersCarry(s, st, to, history, now);
  }

  lemma DifferentRule(net: Net, was: State, st: State, f: FlowId, rule: nat)
    requires Shrunk(net, was, st, f) && st.flows[f].packets != [] && Due(net, was, f) && Blocks(net, st, f, rule)
    ensures Parked(net, st, f) && Host(net, st, f) == Host(net, was, f) && st.flows[f].parked != Some(rule)
  {
  }

  lemma ListedSame(net: Net, st: State, to: State, b: BucketId)
    requires SameLists(st, to)
    ensures Listed(net, to, b) == Listed(net, st, b)
  {
    SumSame(net.users, u => if u in st.users && net.BucketOf(u) == b then |st.users[u].units.order| else 0,
            u => if u in to.users && net.BucketOf(u) == b then |to.users[u].units.order| else 0);
  }

  lemma FlowInNet(net: Net, st: State, f: FlowId, busy: Option<Ctl>)
    requires Inv(net, st, busy) && f in st.flows
    ensures f in net.flows
  {
  }

  // ----- Enqueueing -----

  lemma EnqueueFirstStep(s: Setup, st: State, w: Timer, now: int, history: map<Ctl, seq<Event>>, l: Logs, f: FlowId, rule: nat, length: nat)
    requires Inv(s.net, st, None) && TimerOk(s, st, w, [], now) && ControllersOk(s, st, history, now)
    requires LogsOk(st.flows, l, s.maxLength) && f in st.flows && st.flows[f].packets == [] && Blocks(s.net, st, f, rule)
    requires 0 < length <= s.maxLength && f in l.accepted
    ensures Known(s.net, st, s.net.UserOf(f, rule))
    ensures var p := Packet(|l.accepted[f]|, length);
            var to := EnqueueFirst(s.net, st, f, rule, p);
            && Inv(s.net, to, None) && TimerOk(s, to, w, [], now) && ControllersOk(s, to, history, now)
            && LogsOk(to.flows, LogAccepted(l, f, p), s.maxLength)
            && PacketCount(s.net, to.flows) == PacketCount(s.net, st.flows) + 1
  {
    hide Inv, TimerOk, ControllersOk, LogsOk, EnqueueFirst, SameTokens, PacketCount, Blocks;
    BlocksKnown(s.net, st, f, rule);
    var p := Packet(|l.accepted[f]|, length);
    var to := EnqueueFirst(s.net, st, f, rule, p);
    EnqueueFirstKeeps(s.net, st, f, rule, p, None);
    EnqueueFirstTokens(s.net, st, f, rule, p);
    EnqueueFirstFlow(s.net, st, f, rule, p);
    TimerCarries(s, st, to, w, [], now);
    ControllersCarry(s, st, to, history, now);
    EnqueueLogs(st.flows, l, s.maxLength, f, to.flows[f], length);
    FlowInNet(s.net, st, f, None);
    PacketCountChange(s.net, st.flows, f, to.flows[f]);
  }

  lemma EnqueueMoreStep(s: Setup, st: State, w: Timer, now: int, history: map<Ctl, seq<Event>>, l: Logs, f: FlowId, length: nat)
    requires Inv(s.net, st, None) && TimerOk(s, st, w, [], now) && ControllersOk(s, st, history, now)
    requires LogsOk(st.flows, l, s.maxLength) && Parked(s.net, st, f) && 0 < length <= s.maxLength && f in l.accepted
    ensures var p := Packet(|l.accepted[f]|, length);
            var to := EnqueueMore(s.net, st, f, p);
            && Inv(s.net, to, None) && TimerOk(s, to, w, [], now) && ControllersOk(s, to, history, now)
            && LogsOk(to.flows, LogAccepted(l, f, p), s.maxLength)
            && PacketCount(s.net, to.flows) == PacketCount(s.net, st.flows) + 1
  {
    hide Inv, TimerOk, ControllersOk, LogsOk, EnqueueMore, SameTokens, PacketCount;
    var p := Packet(|l.accepted[f]|, length);
    var to := EnqueueMore(s.net, st, f, p);
    EnqueueMoreKeeps(s.net, st, f, p, None);
    EnqueueMoreTokens(s.net, st, f, p);
    EnqueueMoreFlows(s.net, st, f, p);
    TimerCarries(s, st, to, w, [], now);
    ControllersCarry(s, st, to, history, now);
    EnqueueLogs(st.flows, l, s.maxLength, f, to.flows[f], length);
    FlowInNet(s.net, st, f, None);
    PacketCountChange(s.net, st.flows, f, to.flows[f]);
  }

  // ----- The idle state -----

  function Idle(s: Setup): State {
    State(map f | f in s.net.flows :: Flow([], 0, None, 0),
          map u | u in s.net.users :: User(Fresh(s.rate(U(u)), s.start), TbqDrr.Empty(), 0, 0, false, 0),
          map b | b in s.net.buckets :: Bucket(Fresh(s.rate(B(b)), s.start), TbqDrr.Empty(), 0, 0))
  }

  lemma IdleUser(s: Setup, u: UserId)
    requires u in s.net.users
    ensures UserCounts(s.net, Idle(s).flows, u, Idle(s).users[u])
  {
    var flows := Idle(s).flows;
    SumZero(s.net.flows, f => if ParkedAt(s.net, flows, f, u) then flows[f].octets else 0);
    SumZero(s.net.flows, f => if f in flows && s.net.Matches(f, u) then flows[f].octets else 0);
    SumZero(s.net.flows, f => if f in flows && s.net.Matches(f, u) && flows[f].packets != [] then s.net.weight(f, u.rule) else 0);
  }

  lemma IdleBucket(s: Setup, b: BucketId)
    requires b in s.net.buckets
    ensures BucketCounts(s.net, Idle(s).users, b, Idle(s).buckets[b])
  {
    var users := Idle(s).users;
    SumZero(s.net.users, u => if u in users && s.net.BucketOf(u) == b then users[u].octets else 0);
    SumZero(s.net.users, u => if u in users && s.net.BucketOf(u) == b && users[u].octets != 0 then s.net.userWeight(u) else 0);
  }

  lemma IdleCount(s: Setup)
    ensures PacketCount(s.net, Idle(s).flows) == 0
  {
    var flows := Idle(s).flows;
    SumZero(s.net.flows, f => if f in flows then |flows[f].packets| else 0);
  }

  lemma IdleCounts(s: Setup)
    ensures CountsOk(s.net, Idle(s))
  {
    hide UserCounts, BucketCounts;
    var st := Idle(s);
    forall u | u in st.users ensures UserCounts(s.net, st.flows, u, st.users[u]) { IdleUser(s, u); }
    forall b | b in st.buckets ensures BucketCounts(s.net, st.users, b, st.buckets[b]) { IdleBucket(s, b); }
  }

  lemma IdleStructure(s: Setup)
    requires s.Valid()
    ensures Structure(s.net, Idle(s), None)
  {
    assert TbqDrr.Empty<FlowId>().Valid();
    assert TbqDrr.Empty<UserId>().Valid();
  }

  lemma IdleInv(s: Setup)
    requires s.Valid()
    ensures Inv(s.net, Idle(s), None)
  {
    hide Idle, CountsOk, Structure;
    IdleCounts(s);
    IdleStructure(s);
    StructureAndCounts(s.net, Idle(s), None);
  }

  lemma {:induction false} TotalEmpty(slots: seq<seq<Ctl>>)
    requires forall k :: 0 <= k < |slots| ==> slots[k] == []
    ensures Total(slots) == 0
  {
    if slots != [] {
      TotalEmpty(slots[1..]);
    }
  }

  function IdleWheel(s: Setup): Timer {
    Timer({}, {}, seq(SLOTS, _ => []), s.start, 0)
  }

  lemma IdleTimer(s: Setup)
    requires s.maxWait < SLOTS
    ensures TimerOk(s, Idle(s), IdleWheel(s), [], s.start)
  {
    TotalEmpty(seq(SLOTS, _ => []));
  }

  function NoStamps(s: Setup): map<FlowId, nat> {
    map f | f in s.net.flows :: 0
  }

  lemma IdleStamps(s: Setup)
    ensures StampsOk(s.net.flows, NoStamps(s), NoLogs(s).accepted)
  {
  }

  lemma IdleFlows(s: Setup)
    ensures forall f :: f in Idle(s).flows ==> Idle(s).flows[f].packets == []
  {
  }

  ghost function NoLogs(s: Setup): Logs {
    Logs(map f | f in s.net.flows :: [], map f | f in s.net.flows :: [], map f | f in s.net.flows :: [])
  }

  ghost function NoHistory(s: Setup): map<Ctl, seq<Event>> {
    (map u | u in s.net.users :: U(u) := []) + (map b | b in s.net.buckets :: B(b) := [])
  }

  lemma IdleController(s: Setup, c: Ctl)
    requires s.Valid() && Exists(Idle(s), c)
    ensures ControllerOk(s, c, Tok(Idle(s), c), NoHistory(s), s.start)
  {
    hide NoHistory;
    assert Tok(Idle(s), c) == Fresh(s.rate(c), s.start);
    assert s.rate(c) >= 1;
    assert c in NoHistory(s) && NoHistory(s)[c] == [] by { NothingYet(s, c); }
  }

  lemma NothingYet(s: Setup, c: Ctl)
    requires Exists(Idle(s), c)
    ensures c in NoHistory(s) && NoHistory(s)[c] == []
  {
  }

  lemma IdleControllers(s: Setup)
    requires s.Valid()
    ensures ControllersOk(s, Idle(s), NoHistory(s), s.start)
  {
    hide Setup.Valid, Idle, NoHistory, ControllerOk, Exists;
    forall c | Exists(Idle(s), c) ensures ControllerOk(s, c, Tok(Idle(s), c), NoHistory(s), s.start) {
      IdleController(s, c);
    }
  }

  lemma IdleTraced(s: Setup)
    ensures Traced(s.net, Idle(s), [], NoLogs(s).released)
  {
    assert ListsOf(Idle(s)) == NoLists(s.net);
  }

  lemma IdlePaid(s: Setup)
    ensures Paid(s.net, NoHistory(s), NoLogs(s).released, s.maxLength)
  {
    NothingPaid(s.net, NoHistory(s), NoLogs(s).released, s.maxLength);
  }

  lemma IdleLogs(s: Setup)
    ensures LogsOk(Idle(s).flows, NoLogs(s), s.maxLength)
  {
  }

  /** What becomes of a packet: it goes on at once, is to be queued, is queued, or is refused. */
  datatype Verdict = Accept | Queue | Queued | Refuse

  class Tbq {
    const s: Setup
    var st: State
    var timer: Timer
    var now: int
    var backlogPackets: int
    var maxBacklog: nat
    var latency: nat
    var status: Status
    var disableDone: bool
    var stamps: map<FlowId, nat>
    ghost var logs: Logs
    ghost var history: map<Ctl, seq<Event>>
    ghost var trace: seq<TbqTurns.Turn>

    /** tbq_global_init and the set-up of an idle configuration. */
    constructor (s: Setup, maxBacklog: nat, latency: nat)
      requires s.Valid() && s.maxWait < SLOTS
      ensures Valid() && status == Running && this.s == s && now == s.start
      ensures forall f :: f in st.flows ==> st.flows[f].packets == []
    {
      this.s, this.maxBacklog, this.latency := s, maxBacklog, latency;
      st := Idle(s);
      timer := IdleWheel(s);
      now, backlogPackets, status, disableDone := s.start, 0, Running, false;
      stamps := NoStamps(s);
      logs := NoLogs(s);
      history := NoHistory(s);
      trace := [];
      new;
      hide Inv, TimerOk, ControllersOk, LogsOk, PacketCount, Setup.Valid, Paid, PaidAhead, Traced, Follows, NoHistory, NoLogs, Idle, StampsOk, Traced;
      IdleInv(s);
      IdlePaid(s);
      IdleTraced(s);
      IdleTimer(s);
      IdleCount(s);
      IdleControllers(s);
      IdleLogs(s);
      IdleStamps(s);
      IdleFlows(s);
    }

    /** The invariant of the scheduler, with `taken` packets off the queues and not yet off the
        count of queued packets. */
    ghost predicate Core(x: Context, taken: int)
      reads this
    {
      && s.Valid() && Inv(s.net, st, x.busy) && TimerOk(s, st, timer, x.work, now)
      && ControllersOk(s, st, history, now)
      && LogsOk(st.flows, logs, s.maxLength) && Traced(s.net, st, trace, logs.released)
      && StampsOk(s.net.flows, stamps, logs.accepted)
      && PacketCount(s.net, st.flows) == backlogPackets - taken
    }

    /** What has been released has been paid for, by every controller of its flow. */
    ghost predicate AllPaid()
      reads this
    {
      Paid(s.net, history, logs.released, s.maxLength)
    }

    /** A packet of `f` has been charged and is about to be released. */
    ghost predicate PaidFor(f: FlowId, length: nat)
      reads this
    {
      PaidAhead(s.net, history, logs.released, s.maxLength, f, length, {})
    }

    /** Inside a step. */
    ghost predicate Ok(x: Context, d: DequeueInfo)
      reads this, d
    {
      Core(x, |d.send| + |d.drop|) && AllPaid()
    }

    /** Between steps.  Once the scheduler has stopped, or knows that it may, the wheel is empty. */
    ghost predicate Valid()
      reads this
    {
      && Core(Context(None, []), 0) && AllPaid()
      && (status == Stopped || (status == WaitingStop && disableDone) ==> timer.nrPending == 0)
    }

    /** tbq_token_ctrl_consume and tbq_token_ctrl_deactivate on one controller, with its mask and
        its place on the wheel. */
    method ChargeController(c: Ctl, length: nat, ghost x: Context, ghost taken: int)
      requires Core(x, taken) && Exists(st, c) && !Tok(st, c).pending && length <= s.maxLength
      modifies this`st, this`timer, this`history
      ensures Follows(old(history), history, old(now))
      ensures Core(x, taken) && old(Tok(st, c).Valid())
      ensures c in old(history) && history == old(history)[c := old(history)[c] + [Debit(now, length)]]
      ensures st == old(SetTok(st, c, Charge(Tok(st, c), length, now, s.hz))) && MorePending(old(st), st)
      ensures timer.position == old(timer.position)
    {
      hide Inv, PacketCount, LogsOk, TimerOk, ControllersOk, Setup.Valid, SetTok, MorePending, Follows;
      ChargeState(s, st, c, length, history, now, x.busy);
      var t := Charge(Tok(st, c), length, now, s.hz);
      ChargeTimer(s, st, timer, x.work, now, c, t);
      SetTokEffect(st, c, t);
      TokTraced(s.net, st, c, t, trace, logs.released);
      FollowsEvent(history, c, Debit(now, length));
      history := history[c := history[c] + [Debit(now, length)]];
      timer := Armed(timer, c, t);
      st := SetTok(st, c, t);
    }

    /** tbq_user_consume (tbq_core.c:501-518): the bucket of one of the flow's users is charged, and
        then the user. */
    method UserConsume(u: UserId, length: nat, ghost x: Context, ghost taken: int)
      requires Core(x, taken) && Known(s.net, st, u) && length <= s.maxLength
      requires !st.users[u].tc.pending && !st.buckets[s.net.BucketOf(u)].tc.pending
      modifies this`st, this`timer, this`history
      ensures Follows(old(history), history, old(now))
      ensures Core(x, taken) && MorePending(old(st), st) && timer.position == old(timer.position)
      ensures forall v :: v in old(st).users ==>
                TokenCharged(old(st).users[v].tc, st.users[v].tc, v == u, length, now, s.hz)
      ensures forall b :: b in old(st).buckets ==>
                TokenCharged(old(st).buckets[b].tc, st.buckets[b].tc, b == s.net.BucketOf(u), length, now, s.hz)
      ensures var h, b := old(history), s.net.BucketOf(u);
              && U(u) in h && B(b) in h
              && history == h[B(b) := h[B(b)] + [Debit(now, length)]][U(u) := h[U(u)] + [Debit(now, length)]]
    {
      hide Inv, PacketCount, LogsOk, TimerOk, ControllersOk, MorePending, TokenCharged, Traced, StampsOk, Setup.Valid, Follows;
      Controllers(s, st, history, now, U(u));
      Controllers(s, st, history, now, B(s.net.BucketOf(u)));
      ghost var before := st;
      ChargeController(B(s.net.BucketOf(u)), length, x, taken);
      ghost var mid := history;
      ChargeController(U(u), length, x, taken);
      FollowsNext(old(history), mid, history, now, now);
      TwoCharges(s.net, before, u, length, now, s.hz, st);
    }

    /** tbq_packet_ctrl_consume (tbq_core.c:564-587): the lowest rule with an inactive bucket, else
        the lowest with an inactive user, else every controller of the flow is charged once. */
    method Consume(f: FlowId, length: nat, ghost x: Context, ghost taken: int) returns (blocked: Option<nat>)
      requires Core(x, taken) && AllPaid() && f in st.flows && length <= s.maxLength
      modifies this`st, this`timer, this`history
      ensures Follows(old(history), history, old(now))
      ensures Core(x, taken) && if blocked.Some? then AllPaid() else PaidFor(f, length)
      ensures blocked.Some? ==> st == old(st) && timer == old(timer) && Blocks(s.net, st, f, blocked.value)
      ensures blocked.None? <==> Unblocked(s.net, old(st), f)
      ensures blocked.None? ==> ChargedBut(s, old(st), st, f, length, now, {})
      ensures timer.position == old(timer.position)
    {
      hide Inv, PacketCount, LogsOk, WheelOk, ControllersOk, ChargedBut, MorePending, Unblocked, Paid, PaidAhead, Traced, Follows,
        Blocks, Setup.Valid, StampsOk,
        TokenCharged;
      var net := s.net;
      var buckets := set i | i in net.mask(f) && net.BucketOf(net.UserOf(f, i)) in timer.bucketMask;
      var users := set i | i in net.mask(f) && net.UserOf(f, i) in timer.userMask;
      FlowKnown(net, st, f, x.busy);
      MaskSays(net, st, f, timer.userMask, timer.bucketMask, users, buckets);
      FollowsSelf(history, now);
      if buckets != {} { return Some(Lowest(buckets)); }
      if users != {} { return Some(Lowest(users)); }
      var rest := net.mask(f);
      ghost var was := st;
      ChargedStart(s, st, f, length, now);
      AheadStart(net, history, logs.released, s.maxLength, f, length);
      FollowsSelf(history, now);
      while rest != {}
        invariant rest <= net.mask(f) && Core(x, taken)
        invariant timer.position == old(timer.position)
        invariant ChargedBut(s, was, st, f, length, now, rest)
        invariant PaidAhead(net, history, logs.released, s.maxLength, f, length, rest)
        invariant Follows(old(history), history, now)
        decreases rest
      {
        var i := Lowest(rest);
        var u := net.UserOf(f, i);
        RestIsActive(s, was, st, f, length, now, rest, i);
        ghost var before, h := st, history;
        UserConsume(u, length, x, taken);
        FollowsNext(old(history), h, history, now, now);
        ChargedNext(s, was, before, f, length, now, rest, i, st);
        AheadNext(net, h, logs.released, s.maxLength, f, length, rest, i, now, history);
        rest := rest - {i};
      }
      blocked := None;
    }

    /** tbq_flow_backlog_drop (tbq_core.c:898-922): the newest packets go until the flow is within
        its ceiling. */
    method DropExcess(f: FlowId, ghost x: Context, d: DequeueInfo)
      requires Ok(x, d) && Parked(s.net, st, f)
      modifies this`st, this`logs, this`trace, d`drop
      ensures old(trace) <= trace
      ensures Ok(x, d) && Shrunk(s.net, old(st), st, f)
      ensures f in st.flows && |st.flows[f].packets| <= old(|st.flows[f].packets|)
      ensures old(PacketCount(s.net, st.flows)) - PacketCount(s.net, st.flows)
              == old(|st.flows[f].packets|) - |st.flows[f].packets|
              == |d.drop| - old(|d.drop|)
      ensures st.flows[f].octets <= old(Ceiling(s, st, f, latency))
      ensures NoMoreThan(old(st.flows[f].packets), st.flows[f].packets, old(Ceiling(s, st, f, latency)))
    {
      hide Inv, TimerOk, ControllersOk, LogsOk, PacketCount, Setup.Valid, Paid, PaidAhead, Traced, Follows, MaxOctets, Shrunk, DropNewest, SameTokens,
        NoMoreThan, Length;
      WeightsPositive(s, st, f, x.busy);
      var max := MaxOctets(s, st, f, latency);
      ghost var all := st.flows[f].packets;
      ghost var was := st;
      SameTokensSelf(s.net, st, f);
      NoMoreThanStart(all, max);
      while st.flows[f].octets > max
        invariant f in st.flows && Ok(x, d) && Shrunk(s.net, was, st, f) && old(trace) <= trace
        invariant NoMoreThan(all, st.flows[f].packets, max) && |st.flows[f].packets| <= |all|
        invariant PacketCount(s.net, was.flows) - PacketCount(s.net, st.flows)
                  == |all| - |st.flows[f].packets| == |d.drop| - old(|d.drop|)
        decreases |st.flows[f].packets|
      {
        OctetsMeanPackets(s.net, st, f, x.busy);
        var q := st.flows[f].packets;
        NoMoreThanNext(s.net, st, f, all, max, x.busy);
        DropStep(s, st, timer, x, now, history, logs, f);
        ShrunkNext(s.net, was, st, f, x.busy);
        DropTraced(s.net, st, f, trace, logs.released, x.busy);
        trace := trace + TakeTurns(s.net, st, f, q[|q| - 1].length);
        logs := LogDropped(logs, f, q[|q| - 1]);
        d.drop := d.drop + [q[|q| - 1]];
        st := DropNewest(s.net, st, f);
      }
    }

    /** tbq_flow_backlog_try_dequeue (tbq_core.c:991-1037). */
    method TryDequeue(f: FlowId, ghost x: Context, d: DequeueInfo)
      returns (ghost dropped: State, ghost charged: State, ghost rule: Option<nat>, ghost sent: seq<Packet>)
      requires Ok(x, d) && Due(s.net, st, f)
      modifies this`st, this`timer, this`history, this`logs, this`trace, d
      ensures Follows(old(history), history, old(now))
      ensures old(trace) <= trace
      ensures d.send == old(d.send) + sent
      ensures Attempt(s, old(st), st, f, now, old(Ceiling(s, st, f, latency)), dropped, charged, rule, sent)
      ensures Ok(x, d) && Closer(s.net, old(st), st, old(Host(s.net, st, f)))
      ensures timer.position == old(timer.position)
    {
      hide Inv, TimerOk, ControllersOk, LogsOk, PacketCount, Setup.Valid, Paid, PaidAhead, Traced, Follows, Shrunk, ReleaseOldest,
        Switch, SameTokens, Length,
        Listed, MorePending, Blocks, Unblocked, NoMoreThan, ChargedBut, Ceiling, Attempt, Closer, SwitchTurns, ReleaseTurns,
        FlowDetach, AtHead, Due, Parked, StampsOk, Host, Known, LogsOk;
      ghost var was := st;
      FollowsSelf(history, now);
      DueIsParked(s.net, st, f);
      QueueNotEmpty(s.net, st, f, x.busy);
      DropExcess(f, x, d);
      ghost var mid := st;
      dropped, charged, rule, sent := st, st, None, [];
      if st.flows[f].packets == [] {
        NothingLeft(s, was, st, f, now, Ceiling(s, was, f, latency), x.busy);
        return;
      }
      var p := st.flows[f].packets[0];
      PacketFits(st.flows, logs, s.maxLength, f);
      var blocked := Consume(f, p.length, x, |d.send| + |d.drop|);
      if blocked.Some? {
        BlockedStep(s, was, st, timer, x, now, history, logs, trace, f, blocked.value);
        AttemptMoved(s, was, st, f, now, Ceiling(s, was, f, latency), blocked.value);
        trace := trace + SwitchTurns(s.net, st, f, blocked.value);
        st := Switch(s.net, st, f, blocked.value);
        rule := blocked;
        return;
      }
      charged, sent := st, [p];
      SentStep(s, was, mid, st, timer, x, now, history, logs, trace, f);
      AttemptSent(s, was, mid, st, f, now, Ceiling(s, was, f, latency));
      AheadRelease(s.net, history, logs.released, s.maxLength, f, p);
      trace := trace + ReleaseTurns(s.net, st, f, p.length);
      logs := LogReleased(logs, f, p);
      d.send := d.send + [p];
      st := ReleaseOldest(s.net, st, f);
    }

    /** tbq_user_dequeue (tbq_core.c:1039-1056): terminates because every turn takes a packet off a
        queue or a flow off the user's list. */
    method UserDequeue(u: UserId, ghost work: seq<Ctl>, d: DequeueInfo)
      requires Ok(Context(Some(U(u)), work), d) && u in st.users && !st.users[u].attached
      modifies this`st, this`timer, this`history, this`logs, this`trace, d
      ensures Follows(old(history), history, old(now))
      ensures old(trace) <= trace
      ensures Ok(Context(None, work), d)
      ensures timer.position == old(timer.position)
    {
      hide Inv, TimerOk, ControllersOk, LogsOk, PacketCount, Setup.Valid, Paid, PaidAhead, Traced, Follows, Listed;
      ghost var x := Context(Some(U(u)), work);
      UserKnown(s.net, st, u, x.busy);
      var b := s.net.BucketOf(u);
      CountNonNegative(s.net, st.flows);
      FollowsSelf(history, now);
      while !st.users[u].tc.pending && st.users[u].units.order != []
        invariant Ok(x, d) && Known(s.net, st, u) && !st.users[u].attached && 0 <= PacketCount(s.net, st.flows)
        invariant old(trace) <= trace && Follows(old(history), history, now)
        invariant timer.position == old(timer.position)
        decreases PacketCount(s.net, st.flows), |st.users[u].units.order|
      {
        if !st.buckets[b].tc.pending {
          HeadIsDue(s.net, st, u, x.busy);
          ghost var h := history;
          ghost var _, _, _, _ := TryDequeue(st.users[u].units.order[0], x, d);
          FollowsNext(old(history), h, history, now, now);
          CountNonNegative(s.net, st.flows);
        } else {
          AttachUnitKeeps(s.net, st, u, x.busy);
          UnitStep(s, st, AttachUnit(s.net, st, u), timer, x, now, history, logs, u);
          AttachUnitTraced(s.net, st, u, trace, logs.released, x.busy);
          trace := trace + UnitTurns(s.net, st, u, true);
          st := AttachUnit(s.net, st, u);
          break;
        }
      }
      UserLoopDone(s.net, st, u);
    }

    /** tbq_bucket_dequeue (tbq_core.c:1058-1079): terminates because every turn takes a packet off
        a queue, a flow off the list of one of the bucket's users, or a user off the bucket's. */
    method BucketDequeue(b: BucketId, ghost work: seq<Ctl>, d: DequeueInfo)
      requires Ok(Context(Some(B(b)), work), d) && b in st.buckets
      modifies this`st, this`timer, this`history, this`logs, this`trace, d
      ensures Follows(old(history), history, old(now))
      ensures old(trace) <= trace
      ensures Ok(Context(None, work), d)
      ensures timer.position == old(timer.position)
    {
      hide Inv, TimerOk, ControllersOk, LogsOk, PacketCount, Setup.Valid, Paid, PaidAhead, Traced, Follows, Listed;
      ghost var x := Context(Some(B(b)), work);
      CountNonNegative(s.net, st.flows);
      ListedNonNegative(s.net, st, b);
      FollowsSelf(history, now);
      while !st.buckets[b].tc.pending && st.buckets[b].units.order != []
        invariant Ok(x, d) && b in st.buckets && 0 <= PacketCount(s.net, st.flows) && 0 <= Listed(s.net, st, b)
        invariant old(trace) <= trace && Follows(old(history), history, now)
        invariant timer.position == old(timer.position)
        decreases PacketCount(s.net, st.flows), Listed(s.net, st, b), |st.buckets[b].units.order|
      {
        HeadOfBucket(s.net, st, b, x.busy);
        var u := st.buckets[b].units.order[0];
        if !st.users[u].tc.pending {
          HeadIsDue(s.net, st, u, x.busy);
          ghost var h := history;
          ghost var _, _, _, _ := TryDequeue(st.users[u].units.order[0], x, d);
          FollowsNext(old(history), h, history, now, now);
          CountNonNegative(s.net, st.flows);
          ListedNonNegative(s.net, st, b);
        } else {
          DetachUnitKeeps(s.net, st, u, x.busy);
          DetachUnitShrinks(s.net, st, u, x.busy);
          UnitStep(s, st, DetachUnit(s.net, st, u), timer, x, now, history, logs, u);
          DetachUnitTraced(s.net, st, u, trace, logs.released, x.busy);
          trace := trace + UnitTurns(s.net, st, u, false);
          st := DetachUnit(s.net, st, u);
        }
      }
      BucketLoopDone(s.net, st, b);
    }

    /** tbq_token_ctrl_activate (tbq_core.c:1081-1104) of the first controller of the list. */
    method Activate(c: Ctl, ghost work: seq<Ctl>, d: DequeueInfo)
      requires Ok(Context(None, work), d) && work != [] && c == work[0]
      modifies this`st, this`timer, this`history, this`logs, this`trace, d
      ensures Follows(old(history), history, old(now))
      ensures old(trace) <= trace
      ensures Ok(Context(None, work[1..]), d)
      ensures timer.position == old(timer.position)
    {
      hide Inv, TimerOk, ControllersOk, LogsOk, PacketCount, Setup.Valid, Paid, PaidAhead, Traced, Follows;
      WakeTimer(s, st, timer, work, now);
      WorkIsDue(s, st, timer, work, now);
      Controllers(s, st, history, now, c);
      EventKeeps(s, st, history, now, c, Wake(now));
      WakeIsFree(s.net, history, logs.released, s.maxLength, c, now);
      timer := Woken(timer, c);
      FollowsEvent(history, c, Wake(now));
      FollowsSelf(history[c := history[c] + [Wake(now)]], now);
      history := history[c := history[c] + [Wake(now)]];
      ghost var woken := history;
      match c {
        case U(u) =>
          WakeUserKeeps(s.net, st, u);
          TokTraced(s.net, st, c, st.users[u].tc.(pending := false), trace, logs.released);
          st := SetTok(st, c, st.users[u].tc.(pending := false));
          if !st.users[u].attached {
            UserDequeue(u, work[1..], d);
            FollowsNext(old(history), woken, history, now, now);
          } else {
            UserLoopDone(s.net, st, u);
          }
        case B(b) =>
          WakeBucketKeeps(s.net, st, b);
          TokTraced(s.net, st, c, st.buckets[b].tc.(pending := false), trace, logs.released);
          st := SetTok(st, c, st.buckets[b].tc.(pending := false));
          BucketDequeue(b, work[1..], d);
          FollowsNext(old(history), woken, history, now, now);
      }
    }

    /** tbq_timer_feed (tbq_core.c:1106-1132): every tick up to now, every controller due at it. */
    method TimerFeed(d: DequeueInfo)
      requires Ok(Context(None, []), d)
      modifies this`st, this`timer, this`history, this`logs, this`trace, d
      ensures Follows(old(history), history, old(now))
      ensures old(trace) <= trace
      ensures Ok(Context(None, []), d) && now < timer.position
      ensures old(timer.nrPending) == 0 ==> timer.nrPending == 0
    {
      hide Inv, ControllersOk, LogsOk, PacketCount, Setup.Valid, Paid, PaidAhead, Traced, Follows, WheelOk, MasksOk;
      ghost var idle := timer.nrPending == 0;
      FollowsSelf(history, now);
      while timer.position <= now
        invariant Ok(Context(None, []), d) && old(trace) <= trace && Follows(old(history), history, now)
        invariant idle ==> timer.nrPending == 0
      {
        ghost var before := timer.position;
        TurnTimer(s, st, timer, now);
        var work := timer.slots[timer.position % SLOTS];
        timer := Turned(timer);
        while work != []
          invariant Ok(Context(None, work), d) && timer.position == before + 1 && old(trace) <= trace
          invariant Follows(old(history), history, now)
          invariant idle ==> work == [] && timer.nrPending == 0
          decreases |work|
        {
          ghost var h := history;
          Activate(work[0], work, d);
          FollowsNext(old(history), h, history, now, now);
          work := work[1..];
        }
      }
    }

    /** tbq_timer_func (tbq_core.c:1134-1169), at most so late that no wake-up is a turn away. */
    method TimerFunc(at: int) returns (d: DequeueInfo)
      requires Valid() && now <= at && at + s.maxWait < timer.position + SLOTS
      modifies this`st, this`timer, this`history, this`logs, this`trace, this`now, this`backlogPackets, this`disableDone
      ensures Follows(old(history), history, old(now))
      ensures old(trace) <= trace
      ensures Valid() && now == at < timer.position
    {
      hide Inv, TimerOk, ControllersOk, LogsOk, PacketCount, Setup.Valid, Paid, PaidAhead, Traced, Follows, StampsOk;
      TimePasses(s, st, timer, history, now, at);
      now := at;
      d := new DequeueInfo();
      TimerFeed(d);
      FollowsSelf(old(history), old(now));
      FollowsNext(old(history), old(history), history, old(now), at);
      backlogPackets := backlogPackets - (|d.send| + |d.drop|);
      if status == WaitingStop && timer.nrPending == 0 {
        disableDone := true;
      }
    }

    /** A packet of a flow with nothing queued goes on at once and is released in its turn. */
    method Pass(f: FlowId, length: nat)
      requires Core(Context(None, []), 0) && status == Running && PaidFor(f, length)
      requires f in st.flows && st.flows[f].packets == []
      modifies this`logs, this`trace, this`stamps
      ensures old(trace) <= trace
      ensures Valid() && f in old(logs).accepted && f in old(logs).released
      ensures var p := Packet(|old(logs).accepted[f]|, length);
              logs == LogReleased(LogAccepted(old(logs), f, p), f, p)
    {
      hide Inv, TimerOk, ControllersOk, LogsOk, PacketCount, Setup.Valid, Paid, PaidAhead, Traced, Follows;
      FlowInNet(s.net, st, f, None);
      PassLogs(st.flows, logs, s.maxLength, f, length);
      ghost var p := Packet(|logs.accepted[f]|, length);
      AheadRelease(s.net, history, logs.released, s.maxLength, f, p);
      BypassTraced(s.net, st, f, p, trace, logs.released, None);
      stamps := stamps[f := stamps[f] + 1];
      trace := trace + [TbqTurns.Bypass(f, length)];
      logs := LogReleased(LogAccepted(logs, f, p), f, p);
    }

    /** tbq_filter_packet (tbq_core.c:589-643) for a flow and its rules. */
    method Filter(f: FlowId, length: nat, at: int) returns (v: Verdict)
      requires Valid() && status == Running && f in st.flows && length <= s.maxLength
      requires now <= at && at + s.maxWait < timer.position + SLOTS
      modifies this`st, this`timer, this`history, this`now, this`logs, this`trace, this`stamps
      ensures Follows(old(history), history, old(now))
      ensures old(trace) <= trace
      ensures Valid() && now == at
      ensures v == Accept <==> old(st.flows[f].packets) == [] && Unblocked(s.net, old(st), f)
      ensures v == Accept ==> ChargedBut(s, old(st), st, f, length, now, {})
      ensures v != Accept ==> st == old(st) && logs == old(logs) && v == if backlogPackets >= maxBacklog then Refuse else Queue
    {
      hide Inv, TimerOk, ControllersOk, LogsOk, PacketCount, Setup.Valid, Paid, PaidAhead, Traced, Follows, ChargedBut, Unblocked, StampsOk, Blocks;
      TimePasses(s, st, timer, history, now, at);
      now := at;
      FollowsSelf(history, old(now));
      if st.flows[f].packets == [] {
        var blocked := Consume(f, length, Context(None, []), 0);
        FollowsNext(old(history), old(history), history, old(now), at);
        if blocked == None {
          ChargedFlows(s, old(st), st, f, length, now);
          Pass(f, length);
          return Accept;
        }
      }
      v := if backlogPackets >= maxBacklog then Refuse else Queue;
    }

    /** The flow parks under the controller that blocks it, with its first packet. */
    method Park(f: FlowId, rule: nat, length: nat)
      requires Valid() && status == Running && f in st.flows && st.flows[f].packets == [] && 0 < length <= s.maxLength
      requires Blocks(s.net, st, f, rule)
      modifies this`st, this`logs, this`trace, this`stamps, this`backlogPackets
      ensures old(trace) <= trace
      ensures Valid() && f in st.flows && st.flows[f].packets == [Packet(old(|logs.accepted[f]|), length)]
    {
      hide Inv, TimerOk, ControllersOk, LogsOk, PacketCount, Setup.Valid, Paid, PaidAhead, Traced, Follows, EnqueueFirst, Blocks, PlaceTurns, Net.Valid;
      FlowInNet(s.net, st, f, None);
      EnqueueFirstStep(s, st, timer, now, history, logs, f, rule, length);
      var p := Packet(stamps[f], length);
      EnqueueFirstFlow(s.net, st, f, rule, p);
      EnqueueFirstTraced(s.net, st, f, rule, p, trace, logs.released, None);
      trace := trace + PlaceTurns(s.net, st, f, rule);
      st := EnqueueFirst(s.net, st, f, rule, p);
      logs := LogAccepted(logs, f, p);
      stamps := stamps[f := stamps[f] + 1];
      backlogPackets := backlogPackets + 1;
    }

    /** The packet joins the queue of its flow. */
    method Join(f: FlowId, length: nat)
      requires Valid() && status == Running && Parked(s.net, st, f) && 0 < length <= s.maxLength
      modifies this`st, this`logs, this`trace, this`stamps, this`backlogPackets
      ensures old(trace) <= trace
      ensures Valid() && f in st.flows
      ensures st.flows[f].packets == old(st.flows[f].packets) + [Packet(old(|logs.accepted[f]|), length)]
    {
      hide Inv, TimerOk, ControllersOk, LogsOk, PacketCount, Setup.Valid, Paid, PaidAhead, Traced, Follows, EnqueueMore;
      FlowInNet(s.net, st, f, None);
      EnqueueMoreStep(s, st, timer, now, history, logs, f, length);
      var p := Packet(stamps[f], length);
      EnqueueMoreFlows(s.net, st, f, p);
      EnqueueMoreTraced(s.net, st, f, p, trace, logs.released);
      st := EnqueueMore(s.net, st, f, p);
      logs := LogAccepted(logs, f, p);
      stamps := stamps[f := stamps[f] + 1];
      backlogPackets := backlogPackets + 1;
    }

    /** tbq_enqueue on a flow with an empty backlog: it pays and goes on, or starts to wait. */
    method EnqueueNew(f: FlowId, length: nat) returns (v: Verdict)
      requires Valid() && status == Running && f in st.flows && st.flows[f].packets == [] && 0 < length <= s.maxLength
      modifies this`st, this`timer, this`history, this`logs, this`trace, this`stamps, this`backlogPackets
      ensures Follows(old(history), history, old(now))
      ensures old(trace) <= trace
      ensures Valid() && v in {Accept, Queued}
      ensures v == Accept <==> Unblocked(s.net, old(st), f)
      ensures v == Accept ==> ChargedBut(s, old(st), st, f, length, now, {})
      ensures v == Queued ==> f in st.flows && st.flows[f].packets == [Packet(old(|logs.accepted[f]|), length)]
    {
      hide Inv, TimerOk, ControllersOk, LogsOk, PacketCount, Setup.Valid, Paid, PaidAhead, Traced, Follows, ChargedBut, Unblocked,
        EnqueueFirst, Blocks, PlaceTurns, Net.Valid;
      FlowInNet(s.net, st, f, None);
      var blocked := Consume(f, length, Context(None, []), 0);
      if blocked == None {
        ChargedFlows(s, old(st), st, f, length, now);
        Pass(f, length);
        return Accept;
      }
      Park(f, blocked.value, length);
      v := Queued;
    }

    /** tbq_enqueue on a flow that waits: the packet joins the queue, unless the queue was over its
        ceiling; then the newest packets go and this one is refused. */
    method EnqueueWaiting(f: FlowId, length: nat) returns (v: Verdict)
      requires Valid() && status == Running && f in st.flows && st.flows[f].packets != [] && 0 < length <= s.maxLength
      modifies this`st, this`logs, this`trace, this`stamps, this`backlogPackets
      ensures old(trace) <= trace
      ensures Valid() && v in {Queued, Refuse} && f in st.flows
      ensures v == Queued ==> st.flows[f].packets == old(st.flows[f].packets) + [Packet(old(|logs.accepted[f]|), length)]
      ensures v == Refuse <==> old(st.flows[f].octets) > old(Ceiling(s, st, f, latency))
      ensures v == Refuse ==>
                && NoMoreThan(old(st.flows[f].packets), st.flows[f].packets, old(Ceiling(s, st, f, latency)))
                && Length(st.flows[f].packets) <= old(Ceiling(s, st, f, latency))
    {
      hide Inv, TimerOk, ControllersOk, LogsOk, PacketCount, Setup.Valid, Paid, PaidAhead, Traced, Follows, EnqueueMore, Shrunk,
        NoMoreThan, Ceiling, Length, TakeTurns;
      FlowInNet(s.net, st, f, None);
      var d := new DequeueInfo();
      QueueIsParked(s.net, st, f, None);
      QueueNotEmpty(s.net, st, f, None);
      ghost var was := st;
      DropExcess(f, Context(None, []), d);
      OctetsAreLength(s.net, st, f, None);
      DropOutcome(was.flows[f], st.flows[f], Ceiling(s, was, f, latency));
      if d.drop != [] {
        backlogPackets := backlogPackets - |d.drop|;
        return Refuse;
      }
      StillQueued(s.net, was, st, f);
      Join(f, length);
      v := Queued;
    }

    /** tbq_enqueue (tbq_core.c:924-989). */
    method Enqueue(f: FlowId, length: nat, at: int) returns (v: Verdict)
      requires Valid() && status == Running && f in st.flows && 0 < length <= s.maxLength
      requires now <= at && at + s.maxWait < timer.position + SLOTS
      modifies this`st, this`timer, this`history, this`now, this`logs, this`trace, this`stamps, this`backlogPackets
      ensures Follows(old(history), history, old(now))
      ensures old(trace) <= trace
      ensures Valid() && now == at && f in st.flows
      ensures v == Accept <==> old(st.flows[f].packets) == [] && Unblocked(s.net, old(st), f)
      ensures v == Queued ==> st.flows[f].packets == old(st.flows[f].packets) + [Packet(old(|logs.accepted[f]|), length)]
      ensures v == Refuse ==> st.flows[f].packets < old(st.flows[f].packets)
      ensures v != Queue
    {
      hide Inv, TimerOk, ControllersOk, LogsOk, PacketCount, Setup.Valid, Paid, PaidAhead, Traced, Follows, ChargedBut, Unblocked, NoMoreThan, Ceiling;
      TimePasses(s, st, timer, history, now, at);
      now := at;
      FollowsSelf(history, old(now));
      if st.flows[f].packets == [] {
        v := EnqueueNew(f, length);
        FollowsNext(old(history), old(history), history, old(now), at);
        if v == Accept { ChargedFlows(s, old(st), st, f, length, now); }
      } else {
        ghost var was := st;
        QueueIsParked(s.net, st, f, None);
        QueueNotEmpty(s.net, st, f, None);
        v := EnqueueWaiting(f, length);
        if v == Refuse {
          RefusedShrinks(s, was, st, f, latency);
        }
      }
    }

    /** Whatever the scheduler has done: the bytes it has released of the flows that pay a controller
        are within the controller's rate, but for one packet. */
    lemma ReleasedWithinRate(c: Ctl)
      requires Valid() && Exists(st, c)
      ensures ReleasedBytes(s.net, logs.released, c) <= s.rate(c) * (now - s.start) + s.maxLength
    {
      hide Inv, TimerOk, LogsOk, PacketCount, ReleasedBytes;
      Controllers(s, st, history, now, c);
      EveryControllerKeepsItsRate(s, st, history, now, c, s.maxLength);
    }

    /** Over any window: the bytes released of the flows that pay a controller are within its rate
        times the length of the window, but for two seconds' worth of tokens and one packet. */
    twostate lemma ReleasedWithinWindow(c: Ctl)
      requires old(Valid()) && Valid() && Exists(old(st), c) && Exists(st, c)
      requires old(now) <= now && Follows(old(history), history, old(now))
      ensures ReleasedBytes(s.net, logs.released, c) - ReleasedBytes(s.net, old(logs).released, c)
              <= s.rate(c) * (now - old(now)) + 2 * (s.rate(c) * s.hz) + s.maxLength
    {
      hide Inv, TimerOk, LogsOk, PacketCount, ReleasedBytes, Traced, StampsOk, Setup.Valid;
      Controllers(s, st, history, now, c);
      Controllers(s, old(st), old(history), old(now), c);
      WindowOf(s, st, history, now, c, old(history), old(now));
    }

    /** Between any two moments: for two flows that stayed in the list of one user, with packets
        within their quanta, the bytes released are in proportion to their weights, give or take
        three quanta.  The turns between are `trace` from where it was then. */
    twostate lemma FlowsFairSince(u: UserId, a: FlowId, b: FlowId)
      requires old(Valid()) && Valid() && old(trace) <= trace
      requires a in old(st).flows && b in old(st).flows && a in st.flows && b in st.flows
      requires u in old(st).users && a != b
      requires var d, es := old(st).users[u].units, TbqTurns.OfUser(trace[|old(trace)|..], u);
               && TbqDrr.InQuantum(d, a) && TbqDrr.InQuantum(d, b)
               && (TbqDrr.IsRun(d, es) ==> TbqDrr.Stays(d, es, a) && TbqDrr.Stays(d, es, b))
      ensures a in old(logs).released && b in old(logs).released && a in logs.released && b in logs.released
      ensures var d := old(st).users[u].units;
              TbqDrr.WithinThreeQuanta(Length(logs.released[a]) - Length(old(logs).released[a]), d.weight[a],
                                       Length(logs.released[b]) - Length(old(logs).released[b]), d.weight[b])
    {
      hide Inv, TimerOk, ControllersOk, PacketCount, Setup.Valid, Paid, Traced, TbqDrr.Stays, TbqDrr.IsRun, TbqDrr.WithinThreeQuanta,
        TbqDrr.InQuantum;
      var more := trace[|old(trace)|..];
      assert trace == old(trace) + more;
      FlowsAreReleasedFairly(s.net, old(st), old(trace), old(logs).released, more, st, logs.released, None, u, a, b);
    }

    /** The same for two users that stayed attached to one bucket, and the bytes released of all the
        flows that waited under them. */
    twostate lemma UsersFairSince(b: BucketId, x: UserId, y: UserId)
      requires old(Valid()) && Valid() && old(trace) <= trace
      requires b in old(st).buckets && x != y && s.net.BucketOf(x) == b == s.net.BucketOf(y)
      requires var d, l, more := old(st).buckets[b].units, ListsOf(old(st)), trace[|old(trace)|..];
               && TbqDrr.InQuantum(d, x) && TbqDrr.InQuantum(d, y)
               && (TbqTurns.IsTrace(s.net, l, more) && TbqDrr.IsRun(d, TbqTurns.OfBucket(s.net, l, more, b)) ==>
                     TbqDrr.Stays(d, TbqTurns.OfBucket(s.net, l, more, b), x)
                     && TbqDrr.Stays(d, TbqTurns.OfBucket(s.net, l, more, b), y))
      ensures var d, more := old(st).buckets[b].units, trace[|old(trace)|..];
              TbqDrr.WithinThreeQuanta(TbqTurns.BytesUnder(more, x), d.weight[x], TbqTurns.BytesUnder(more, y), d.weight[y])
    {
      hide Inv, TimerOk, ControllersOk, PacketCount, Setup.Valid, Paid, Traced, LogsOk, StampsOk, TbqDrr.Stays, TbqDrr.IsRun,
        TbqDrr.WithinThreeQuanta, TbqDrr.InQuantum;
      var more := trace[|old(trace)|..];
      assert trace == old(trace) + more;
      UsersAreReleasedFairly(s.net, old(st), old(trace), old(logs).released, more, st, logs.released, None, b, x, y);
    }

    // ----- Stopping and starting -----

    /** tbq_disable up to the wait (tbq_config.c:674-688). */
    method BeginDisable()
      requires Valid() && status == Running
      modifies this`status, this`disableDone
      ensures Valid() && status == WaitingStop && !disableDone
    {
      hide Inv, TimerOk, ControllersOk, LogsOk, PacketCount, Setup.Valid, Paid, PaidAhead, Traced, Follows, StampsOk;
      status := Stopping;
      status := WaitingStop;
      disableDone := false;
    }

    /** The end of the wait (tbq_config.c:689-709): stopped if the timer has said so, else running
        again after a timeout or a signal. */
    method EndDisable() returns (ok: bool)
      requires Valid() && status == WaitingStop
      modifies this`status
      ensures Valid() && ok == old(disableDone) && status == if ok then Stopped else Running
    {
      hide Inv, TimerOk, ControllersOk, LogsOk, PacketCount, Setup.Valid, Paid, PaidAhead, Traced, Follows, StampsOk;
      ok := disableDone;
      status := if ok then Stopped else Running;
    }

    /** tbq_enable */
    method Enable()
      requires Valid() && status == Stopped
      modifies this`status
      ensures Valid() && status == Running
    {
      hide Inv, TimerOk, ControllersOk, LogsOk, PacketCount, Setup.Valid, Paid, PaidAhead, Traced, Follows, StampsOk;
      status := Running;
    }

    /** tbq_global_set_config (tbq_core.c:1206-1245) is reached only when the scheduler has stopped;
        then none of its checks fires. */
    lemma StoppedIsEmpty()
      requires Valid() && status == Stopped
      ensures backlogPackets == 0 && timer.userMask == {} && timer.bucketMask == {}
      ensures forall f :: f in st.flows ==> st.flows[f].packets == []
      ensures forall u :: u in st.users ==>
                var V := st.users[u];
                V.units.order == [] && V.octets == 0 && V.weight == 0 && !V.attached && V.queued == 0 && !V.tc.pending
      ensures forall b :: b in st.buckets ==>
                var C := st.buckets[b]; C.units.order == [] && C.octets == 0 && C.weight == 0 && !C.tc.pending
    {
      hide Inv, ControllersOk, LogsOk, PacketCount, WheelOk, Total;
      EmptyWheel(st, timer.slots, timer.position);
      NobodyPending(st, timer.userMask, timer.bucketMask);
      NothingPendingNothingQueued(s.net, st);
      NothingQueuedAllUnused(s.net, st);
    }
  }

  lemma NobodyPending(st: State, userMask: set<UserId>, bucketMask: set<BucketId>)
    requires MasksOk(st, userMask, bucketMask) && forall c :: Exists(st, c) ==> !Tok(st, c).pending
    ensures userMask == {} && bucketMask == {}
    ensures forall u :: u in st.users ==> !st.users[u].tc.pending
    ensures forall b :: b in st.buckets ==> !st.buckets[b].tc.pending
  {
    forall u | u in st.users ensures !st.users[u].tc.pending { assert Exists(st, U(u)); }
    forall b | b in st.buckets ensures !st.buckets[b].tc.pending { assert Exists(st, B(b)); }
  }

  /** Something was dropped exactly when the queue was over its ceiling. */
  lemma DropOutcome(was: Flow, left: Flow, ceiling: nat)
    requires was.octets == Length(was.packets) && left.octets == Length(left.packets) <= ceiling
    requires NoMoreThan(was.packets, left.packets, ceiling)
    ensures |left.packets| == |was.packets| <==> was.octets <= ceiling
    ensures |left.packets| == |was.packets| ==> left.packets == was.packets
  {
    var all, k := was.packets, |left.packets|;
    if k < |all| {
      assert all == all[..k + 1] + all[k + 1..];
      LengthSplit(all[..k + 1], all[k + 1..]);
    } else {
      assert left.packets == all[..k] == all;
    }
  }

  lemma OctetsAreLength(net: Net, st: State, f: FlowId, busy: Option<Ctl>)
    requires Inv(net, st, busy) && f in st.flows
    ensures st.flows[f].octets == Length(st.flows[f].packets)
  {
    assert FlowOk(net, st, f);
  }

  lemma RefusedShrinks(s: Setup, was: State, st: State, f: FlowId, latency: nat)
    requires f in was.flows && f in st.flows && was.flows[f].octets == Length(was.flows[f].packets)
    requires NoMoreThan(was.flows[f].packets, st.flows[f].packets, Ceiling(s, was, f, latency))
    requires Length(st.flows[f].packets) <= Ceiling(s, was, f, latency) < was.flows[f].octets
    ensures st.flows[f].packets < was.flows[f].packets
  {
    hide Ceiling, Length;
    assert st.flows[f].packets != was.flows[f].packets;
  }

  lemma ChargedFlows(s: Setup, was: State, st: State, f: FlowId, length: nat, now: int)
    requires ChargedBut(s, was, st, f, length, now, {})
    ensures st.flows == was.flows
  {
  }

  lemma QueueIsParked(net: Net, st: State, f: FlowId, busy: Option<Ctl>)
    requires Inv(net, st, busy) && f in st.flows && st.flows[f].packets != []
    ensures Parked(net, st, f)
  {
    assert FlowOk(net, st, f);
    UserKnown(net, st, net.UserOf(f, st.flows[f].parked.value), busy);
  }

  lemma StillQueued(net: Net, was: State, st: State, f: FlowId)
    requires Shrunk(net, was, st, f) && st.flows[f].packets != []
    ensures Parked(net, st, f)
  {
  }

  lemma OctetsMeanPackets(net: Net, st: State, f: FlowId, busy: Option<Ctl>)
    requires Inv(net, st, busy) && f in st.flows && 0 < st.flows[f].octets
    ensures Parked(net, st, f) && st.flows[f].packets != []
  {
    hide CountsOk, Progress;
    assert FlowOk(net, st, f);
    assert st.flows[f].packets != [];
    assert UserOk(net, st, net.UserOf(f, st.flows[f].parked.value));
  }

  lemma FlowKnown(net: Net, st: State, f: FlowId, busy: Option<Ctl>)
    requires Inv(net, st, busy) && f in st.flows
    ensures forall i :: i in net.mask(f) ==> Known(net, st, net.UserOf(f, i))
  {
    forall i | i in net.mask(f) ensures Known(net, st, net.UserOf(f, i)) {
      assert net.Matches(f, net.UserOf(f, i));
    }
  }

  lemma MaskSays(net: Net, st: State, f: FlowId, userMask: set<UserId>, bucketMask: set<BucketId>, users: set<nat>, buckets: set<nat>)
    requires MasksOk(st, userMask, bucketMask)
    requires forall i :: i in net.mask(f) ==> Known(net, st, net.UserOf(f, i))
    requires users == set i | i in net.mask(f) && net.UserOf(f, i) in userMask
    requires buckets == set i | i in net.mask(f) && net.BucketOf(net.UserOf(f, i)) in bucketMask
    ensures users == {} && buckets == {} <==> Unblocked(net, st, f)
    ensures forall i :: i in users || i in buckets ==> Blocks(net, st, f, i)
  {
    if users == {} && buckets == {} {
      forall u | net.Matches(f, u)
        ensures Known(net, st, u) && !st.users[u].tc.pending && !st.buckets[net.BucketOf(u)].tc.pending
      {
        assert u == net.UserOf(f, u.rule) && u.rule !in users && u.rule !in buckets;
      }
    } else {
      var i :| i in users || i in buckets;
      assert net.Matches(f, net.UserOf(f, i));
    }
  }
}

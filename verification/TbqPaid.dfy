/** What is released is paid for: the bytes charged to a controller are those of the packets
    released of the flows that pay it. */
module TbqPaid {
  import opened Sums
  import opened TbqToken
  import opened TbqState
  import opened TbqKeep

  type History = map<Ctl, seq<Event>>
  type Released = map<FlowId, seq<Packet>>

  ghost predicate Payer(net: Net, f: FlowId, b: BucketId) {
    b.rule in net.mask(f) && net.dir(net.lane(f)) == b.dir
  }

  /** The flow's packets are charged to this controller, for this rule. */
  ghost predicate Pays(net: Net, f: FlowId, c: Ctl) {
    match c case U(u) => net.Matches(f, u) case B(b) => Payer(net, f, b)
  }

  function RuleOf(c: Ctl): nat {
    match c case U(u) => u.rule case B(b) => b.rule
  }

  /** Bytes released of the flows that pay a controller. */
  ghost function ReleasedBytes(net: Net, released: Released, c: Ctl): int {
    Sum(net.flows, f => if f in released && Pays(net, f, c) then Length(released[f]) else 0)
  }

  /** Every controller has been charged exactly what was released, a packet at a time. */
  ghost predicate Paid(net: Net, history: History, released: Released, most: nat) {
    forall c :: c in history ==> Bounded(history[c], most) && Charged(history[c]) == ReleasedBytes(net, released, c)
  }

  /** As Paid, but a packet of `f` has been charged ahead, for all its rules except `rest`. */
  ghost predicate PaidAhead(net: Net, history: History, released: Released, most: nat, f: FlowId, length: nat, rest: set<nat>) {
    forall c :: c in history ==>
      && Bounded(history[c], most)
      && Charged(history[c]) == ReleasedBytes(net, released, c) + (if Pays(net, f, c) && RuleOf(c) !in rest then length else 0)
  }

  lemma {:induction false} ChargedSnoc(es: seq<Event>, e: Event)
    ensures Charged(es + [e]) == Charged(es) + (if e.Debit? then e.length else 0)
  {
    if es != [] {
      ChargedSnoc(es[1..], e);
      assert (es + [e])[1..] == es[1..] + [e];
    }
  }

  lemma NothingPaid(net: Net, history: History, released: Released, most: nat)
    requires forall c :: c in history ==> history[c] == []
    requires forall f :: f in released ==> released[f] == []
    ensures Paid(net, history, released, most)
  {
    forall c | c in history ensures ReleasedBytes(net, released, c) == 0 {
      SumZero(net.flows, f => if f in released && Pays(net, f, c) then Length(released[f]) else 0);
    }
  }

  lemma AheadStart(net: Net, history: History, released: Released, most: nat, f: FlowId, length: nat)
    requires Paid(net, history, released, most)
    ensures PaidAhead(net, history, released, most, f, length, net.mask(f))
  {
  }

  /** One rule's bucket and user have been charged. */
  lemma AheadNext(net: Net, history: History, released: Released, most: nat, f: FlowId, length: nat, rest: set<nat>, i: nat,
                  now: int, to: History)
    requires PaidAhead(net, history, released, most, f, length, rest) && i in rest && i in net.mask(f) && length <= most
    requires var u := net.UserOf(f, i);
             var b := net.BucketOf(u);
             && U(u) in history && B(b) in history
             && to == history[B(b) := history[B(b)] + [Debit(now, length)]][U(u) := history[U(u)] + [Debit(now, length)]]
    ensures PaidAhead(net, to, released, most, f, length, rest - {i})
  {
    hide ReleasedBytes;
    var u := net.UserOf(f, i);
    var b := net.BucketOf(u);
    ChargedSnoc(history[U(u)], Debit(now, length));
    ChargedSnoc(history[B(b)], Debit(now, length));
  }

  /** The packet charged ahead is released. */
  lemma AheadRelease(net: Net, history: History, released: Released, most: nat, f: FlowId, p: Packet)
    requires PaidAhead(net, history, released, most, f, p.length, {}) && f in released && f in net.flows
    ensures Paid(net, history, released[f := released[f] + [p]], most)
  {
    hide Charged;
    forall c | c in history
      ensures ReleasedBytes(net, released[f := released[f] + [p]], c)
              == ReleasedBytes(net, released, c) + if Pays(net, f, c) then p.length else 0
    {
      ReleasedMore(net, released, f, p, c);
    }
  }

  lemma ReleasedMore(net: Net, released: Released, f: FlowId, p: Packet, c: Ctl)
    requires f in released && f in net.flows
    ensures ReleasedBytes(net, released[f := released[f] + [p]], c)
            == ReleasedBytes(net, released, c) + if Pays(net, f, c) then p.length else 0
  {
    var to := released[f := released[f] + [p]];
    LengthSplit(released[f], [p]);
    assert Length([p]) == p.length;
    SumChange(net.flows,
              x => if x in released && Pays(net, x, c) then Length(released[x]) else 0,
              x => if x in to && Pays(net, x, c) then Length(to[x]) else 0, f);
  }

  lemma WakeIsFree(net: Net, history: History, released: Released, most: nat, c: Ctl, now: int)
    requires Paid(net, history, released, most) && c in history
    ensures Paid(net, history[c := history[c] + [Wake(now)]], released, most)
  {
    hide ReleasedBytes;
    ChargedSnoc(history[c], Wake(now));
  }

  // ----- Histories that go on -----

  /** What has been added to a history happened no earlier than `t`. */
  ghost predicate Follows(was: History, h: History, t: int) {
    && was.Keys == h.Keys
    && forall c :: c in was ==> was[c] <= h[c] && forall i :: |was[c]| <= i < |h[c]| ==> t <= h[c][i].at
  }

  lemma FollowsSelf(h: History, t: int)
    ensures Follows(h, h, t)
  {
  }

  lemma FollowsNext(was: History, mid: History, h: History, t: int, t': int)
    requires Follows(was, mid, t) && Follows(mid, h, t') && t <= t'
    ensures Follows(was, h, t)
  {
    forall c | c in was ensures was[c] <= h[c] && forall i :: |was[c]| <= i < |h[c]| ==> t <= h[c][i].at {
      forall i | |was[c]| <= i < |h[c]| ensures t <= h[c][i].at {
        assert i < |mid[c]| ==> h[c][i] == mid[c][i];
      }
    }
  }

  lemma FollowsEvent(h: History, c: Ctl, e: Event)
    requires c in h
    ensures Follows(h, h[c := h[c] + [e]], e.at)
  {
  }

  lemma {:induction false} ChargedSplit(a: seq<Event>, b: seq<Event>)
    ensures Charged(a + b) == Charged(a) + Charged(b)
  {
    if a == [] {
      assert a + b == b;
    } else {
      ChargedSplit(a[1..], b);
      assert (a + b)[1..] == a[1..] + b;
    }
  }

  /** What is charged between two moments, in a run that goes on from one to the other. */
  lemma ChargedBetween(rate: nat, start: int, was: seq<Event>, h: seq<Event>, since: int, now: int, hz: nat, most: nat)
    requires IsRun(Fresh(rate, start), h, start, hz) && 1 <= hz && Bounded(h, most) && since <= now
    requires was <= h && (forall i :: |was| <= i < |h| ==> since <= h[i].at) && LastTime(h, start) <= now
    ensures Charged(h) - Charged(was) <= rate * (now - since) + 2 * (rate * hz) + most
  {
    hide IsRun, Charged;
    var es := h[|was|..];
    assert h == was + es;
    ChargedSplit(was, es);
    if es == [] {
      NothingCharged();
      MulMono(0, now - since, rate);
      MulMono(0, hz, rate);
    } else {
      assert es[0] == h[|was|] && es[|es| - 1] == h[|h| - 1];
      WindowBound(rate, start, was, es, since, hz, most);
      MulMono(es[|es| - 1].at - since, now - since, rate);
    }
  }

  lemma NothingCharged()
    ensures Charged([]) == 0
  {
  }
}

/** Token controllers of the traffic scheduler (tbq_core.c:283-343): a bucket of tokens that is
    charged for every packet, refilled from the time that has passed, and put on the timer wheel
    when it cannot pay.  Time is counted in ticks; `HZ` ticks make a second. */
module TbqToken {

  /** `pending` is membership of the timer wheel (a non-empty `list`). */
  datatype Token = Token(tokens: int, jiffies: int, rate: nat, pending: bool) {
    predicate Valid() {
      0 <= tokens && 1 <= rate
    }
  }

  /** tbq_token_ctrl_init */
  function Fresh(rate: nat, now: int): Token {
    Token(0, now, rate, false)
  }

  function Min(a: int, b: int): int {
    if a < b then a else b
  }

  /** tbq_token_ctrl_feed: credit for the time since the last feed, at most a second of it, and
      only if it brings the controller out of debt. */
  function Feed(t: Token, now: int, hz: nat): (r: (Token, bool))
  {
    var elapsed := Min(now - t.jiffies, hz);
    if now - t.jiffies == 0 || t.tokens + t.rate * elapsed < 0 then (t, false)
    else (t.(tokens := t.tokens + t.rate * elapsed, jiffies := now), true)
  }

  /** tbq_token_ctrl_consume; the flag says that the controller stays active. */
  function Consume(t: Token, length: nat, now: int, hz: nat): (Token, bool) {
    var paid := t.(tokens := t.tokens - length);
    if paid.tokens >= 0 then (paid, true) else Feed(paid, now, hz)
  }

  /** Ticks needed to pay a debt, rounded up. */
  function Wait(debt: nat, rate: nat): (w: nat)
    requires 1 <= debt && 1 <= rate
    ensures debt <= w * rate <= debt + rate - 1 && 1 <= w
  {
    WaitCovers(debt, rate);
    (debt + rate - 1) / rate
  }

  lemma WaitCovers(debt: nat, rate: nat)
    requires 1 <= debt && 1 <= rate
    ensures var w := (debt + rate - 1) / rate; debt <= w * rate <= debt + rate - 1 && 1 <= w
  {
    var w := (debt + rate - 1) / rate;
    assert debt + rate - 1 == rate * w + (debt + rate - 1) % rate;
    assert w <= 0 ==> rate * w <= 0;
  }

  /** tbq_token_ctrl_deactivate: the debt is paid in advance and the controller wakes up when
      the time for it has passed. */
  function Deactivate(t: Token, now: int): Token
    requires t.tokens < 0 && 1 <= t.rate
  {
    var w := Wait(-t.tokens, t.rate);
    t.(tokens := t.tokens + w * t.rate, jiffies := now + w, pending := true)
  }

  /** The two calls of tbq_user_consume on one controller. */
  function Charge(t: Token, length: nat, now: int, hz: nat): (r: Token)
    requires t.Valid() && !t.pending
    ensures r.Valid() && r.rate == t.rate && (r.pending ==> now < r.jiffies)
  {
    var (u, active) := Consume(t, length, now, hz);
    if active then u else Deactivate(u, now)
  }

  // ----- Runs of one controller -----

  /** What happens to a controller: a packet is charged, or the wheel wakes it. */
  datatype Event = Debit(at: int, length: nat) | Wake(at: int)

  predicate Enabled(t: Token, e: Event) {
    match e
    case Debit(at, _) => !t.pending && t.jiffies <= at
    case Wake(at) => t.pending && t.jiffies <= at
  }

  function Apply(t: Token, e: Event, hz: nat): Token
    requires t.Valid() && Enabled(t, e)
  {
    match e
    case Debit(at, length) => Charge(t, length, at, hz)
    case Wake(_) => t.(pending := false)
  }

  /** A run of events in order of time, starting no earlier than `since`. */
  ghost predicate IsRun(t: Token, es: seq<Event>, since: int, hz: nat)
    decreases |es|
  {
    t.Valid() && (es == [] ||
      (since <= es[0].at && Enabled(t, es[0]) && IsRun(Apply(t, es[0], hz), es[1..], es[0].at, hz)))
  }

  /** Bytes charged over a run. */
  function Charged(es: seq<Event>): nat {
    if es == [] then 0 else (match es[0] case Debit(_, n) => n case Wake(_) => 0) + Charged(es[1..])
  }

  predicate Bounded(es: seq<Event>, most: nat) {
    forall e <- es :: e.Debit? ==> e.length <= most
  }

  /** Time before `since` for which the controller may still claim credit. */
  function Claim(t: Token, since: int, hz: nat): nat {
    if since <= t.jiffies then 0 else if since - t.jiffies < hz then since - t.jiffies else hz
  }

  function Later(a: int, b: int): int {
    if a < b then b else a
  }

  /** What a controller can pay, less the time it has accounted for. */
  function Balance(t: Token, since: int, hz: nat): int {
    t.tokens + t.rate * Claim(t, since, hz) - t.rate * Later(t.jiffies, since)
  }

  lemma BalanceAtLeast(t: Token, since: int, hz: nat, now: int)
    requires t.Valid() && Later(t.jiffies, since) <= now
    ensures 0 <= Balance(t, since, hz) + t.rate * now
  {
    MulMono(0, Claim(t, since, hz), t.rate);
    MulMono(Later(t.jiffies, since), now, t.rate);
  }

  lemma MulMono(a: int, b: int, rate: nat)
    requires a <= b
    ensures rate * a <= rate * b
  {
  }

  /** One charge never pays out more than the time it accounts for, beyond what was claimable
      from before `since`. */
  lemma ChargePays(t: Token, length: nat, now: int, since: int, hz: nat)
    requires t.Valid() && !t.pending && t.jiffies <= now && since <= now && 1 <= hz
    ensures var r := Charge(t, length, now, hz);
            length + Balance(r, since, hz) <= Balance(t, since, hz)
  {
    var paid := t.(tokens := t.tokens - length);
    assert length + Balance(paid, since, hz) == Balance(t, since, hz);
    hide Balance, Feed, Deactivate, Wait;
    if paid.tokens < 0 {
      FeedPays(paid, now, since, hz);
      if !Feed(paid, now, hz).1 {
        DeactivatePays(paid, now, since, hz);
      }
    }
  }

  lemma FeedPays(paid: Token, now: int, since: int, hz: nat)
    requires paid.jiffies <= now && since <= now
    ensures var (u, active) := Feed(paid, now, hz);
            && (active ==> Balance(u, since, hz) <= Balance(paid, since, hz))
            && (!active ==> u == paid)
  {
    var (u, active) := Feed(paid, now, hz);
    if active {
      assert u.jiffies == now && Claim(u, since, hz) == 0;
      FeedWithin(paid, Min(now - paid.jiffies, hz), now, since, hz);
    }
  }

  lemma DeactivatePays(paid: Token, now: int, since: int, hz: nat)
    requires paid.tokens < 0 && 1 <= paid.rate && paid.jiffies <= now && since <= now
    ensures Balance(Deactivate(paid, now), since, hz) <= Balance(paid, since, hz)
  {
    var w := Wait(-paid.tokens, paid.rate);
    var r := Deactivate(paid, now);
    assert Claim(r, since, hz) == 0 && Later(r.jiffies, since) == now + w;
    assert r.rate * Claim(r, since, hz) == 0;
    MulMono(Later(paid.jiffies, since) + w, now + w, paid.rate);
    assert paid.rate * (Later(paid.jiffies, since) + w) == paid.rate * Later(paid.jiffies, since) + w * paid.rate;
    MulMono(0, Claim(paid, since, hz), paid.rate);
  }

  lemma FeedWithin(t: Token, elapsed: int, now: int, since: int, hz: nat)
    requires t.jiffies <= now && since <= now && elapsed == Min(now - t.jiffies, hz)
    ensures t.rate * elapsed + t.rate * Later(t.jiffies, since) <= t.rate * Claim(t, since, hz) + t.rate * now
  {
    MulMono(elapsed + Later(t.jiffies, since), Claim(t, since, hz) + now, t.rate);
  }

  /** Over any run: the bytes charged are covered by the credit at its start, the time up to its
      last event, and one packet. */
  lemma {:induction false} RunIsCovered(t: Token, es: seq<Event>, since: int, start: int, hz: nat, most: nat)
    requires IsRun(t, es, start, hz) && since <= start && 1 <= hz && es != [] && Bounded(es, most)
    ensures Charged(es) <= Balance(t, since, hz) + t.rate * es[|es| - 1].at + most
    decreases |es|
  {
    hide Balance, Charge;
    var e, rest := es[0], es[1..];
    assert e in es;
    if rest == [] {
      BalanceAtLeast(t, since, hz, e.at);
    } else {
      var u := Apply(t, e, hz);
      assert rest[|rest| - 1] == es[|es| - 1];
      RunIsCovered(u, rest, since, e.at, hz, most);
      if e.Debit? {
        ChargePays(t, e.length, e.at, since, hz);
      } else {
        WakeKeepsBalance(t, since, hz);
      }
    }
  }

  lemma WakeKeepsBalance(t: Token, since: int, hz: nat)
    ensures Balance(t.(pending := false), since, hz) == Balance(t, since, hz)
  {
  }

  /** Rate bound since the start: a controller created at `start` has never been charged more
      than its rate allows, but for one packet. */
  lemma RateBound(rate: nat, start: int, es: seq<Event>, hz: nat, most: nat)
    requires IsRun(Fresh(rate, start), es, start, hz) && 1 <= hz && es != [] && Bounded(es, most)
    ensures Charged(es) <= rate * (es[|es| - 1].at - start) + most
  {
    RunIsCovered(Fresh(rate, start), es, start, start, hz, most);
    assert rate * (es[|es| - 1].at - start) == rate * es[|es| - 1].at - rate * start;
  }

  function After(t: Token, es: seq<Event>, start: int, hz: nat): Token
    requires IsRun(t, es, start, hz)
    decreases |es|
  {
    if es == [] then t else After(Apply(t, es[0], hz), es[1..], es[0].at, hz)
  }

  /** No controller ever holds more than a second's tokens. */
  lemma ChargeKeepsCredit(t: Token, length: nat, now: int, hz: nat)
    requires t.Valid() && !t.pending && t.jiffies <= now && 1 <= hz && t.tokens <= t.rate * hz
    ensures Charge(t, length, now, hz).tokens <= t.rate * hz
  {
    MulMono(1, hz, t.rate);
    MulMono(Min(now - t.jiffies, hz), hz, t.rate);
  }

  lemma {:induction false} RunKeepsCredit(t: Token, es: seq<Event>, start: int, hz: nat)
    requires IsRun(t, es, start, hz) && 1 <= hz && t.tokens <= t.rate * hz
    ensures var r := After(t, es, start, hz); r.Valid() && r.rate == t.rate && r.tokens <= r.rate * hz
    decreases |es|
  {
    if es != [] {
      if es[0].Debit? { ChargeKeepsCredit(t, es[0].length, es[0].at, hz); }
      RunKeepsCredit(Apply(t, es[0], hz), es[1..], es[0].at, hz);
    }
  }

  /** The second part of a run is a run, from wherever the window begins. */
  lemma {:induction false} RunSplits(t: Token, past: seq<Event>, es: seq<Event>, start: int, since: int, hz: nat)
    requires IsRun(t, past + es, start, hz) && es != [] && since <= es[0].at
    ensures IsRun(t, past, start, hz) && IsRun(After(t, past, start, hz), es, since, hz)
    decreases |past|
  {
    if past == [] {
      assert past + es == es;
    } else {
      assert (past + es)[0] == past[0] && (past + es)[1..] == past[1..] + es;
      RunSplits(Apply(t, past[0], hz), past[1..], es, past[0].at, since, hz);
    }
  }

  /** Rate bound over any window that opens at `since`, whatever happened before: the rate, two
      seconds' worth of tokens, and one packet. */
  lemma WindowBound(rate: nat, start: int, past: seq<Event>, es: seq<Event>, since: int, hz: nat, most: nat)
    requires IsRun(Fresh(rate, start), past + es, start, hz) && 1 <= hz
    requires es != [] && since <= es[0].at && Bounded(es, most)
    ensures Charged(es) <= rate * (es[|es| - 1].at - since) + 2 * (rate * hz) + most
  {
    var t := Fresh(rate, start);
    RunSplits(t, past, es, start, since, hz);
    RunKeepsCredit(t, past, start, hz);
    var u := After(t, past, start, hz);
    RunIsCovered(u, es, since, since, hz, most);
    MulMono(Claim(u, since, hz), hz, rate);
    MulMono(since, Later(u.jiffies, since), rate);
    assert rate * (es[|es| - 1].at - since) == rate * es[|es| - 1].at - rate * since;
  }

  function LastTime(es: seq<Event>, start: int): int {
    if es == [] then start else es[|es| - 1].at
  }

  /** A run goes on: one more event, no earlier than the last. */
  lemma {:induction false} RunGrows(t: Token, es: seq<Event>, start: int, hz: nat, e: Event)
    requires IsRun(t, es, start, hz) && Enabled(After(t, es, start, hz), e) && LastTime(es, start) <= e.at
    ensures After(t, es, start, hz).Valid()
    ensures IsRun(t, es + [e], start, hz)
    ensures After(t, es + [e], start, hz) == Apply(After(t, es, start, hz), e, hz)
    decreases |es|
  {
    if es == [] {
      assert es + [e] == [e] && [e][1..] == [];
      assert IsRun(Apply(t, e, hz), [], e.at, hz);
    } else {
      assert (es + [e])[0] == es[0] && (es + [e])[1..] == es[1..] + [e];
      RunGrows(Apply(t, es[0], hz), es[1..], es[0].at, hz, e);
    }
  }

  /** A debt of one packet is paid within the ticks the packet is worth. */
  lemma WaitAtMost(debt: nat, rate: nat, most: nat)
    requires 1 <= debt && 1 <= rate && debt <= most * rate
    ensures Wait(debt, rate) <= most
  {
    var w := Wait(debt, rate);
    assert rate * (most + 1) == most * rate + rate;
    if w > most {
      MulMono(most + 1, w, rate);
    }
  }

  /** A controller deactivated by a packet wakes up no later than the packet is worth. */
  lemma ChargeWakesInTime(t: Token, length: nat, now: int, hz: nat, most: nat)
    requires t.Valid() && !t.pending && t.jiffies <= now && length <= most * t.rate
    ensures var r := Charge(t, length, now, hz); r.jiffies <= now + most
  {
    var paid := t.(tokens := t.tokens - length);
    if paid.tokens < 0 && !Feed(paid, now, hz).1 {
      WaitAtMost(-paid.tokens, t.rate, most);
    }
  }
}

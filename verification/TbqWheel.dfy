/** The timer wheel: 256 lists of controllers, by the tick at which they wake up. */
module TbqWheel {
  import opened TbqToken
  import opened TbqDrr
  import opened TbqState

  const SLOTS := 256

  predicate Exists(st: State, c: Ctl) {
    match c
    case U(u) => u in st.users
    case B(b) => b in st.buckets
  }

  function Tok(st: State, c: Ctl): Token
    requires Exists(st, c)
  {
    match c
    case U(u) => st.users[u].tc
    case B(b) => st.buckets[b].tc
  }

  function SetTok(st: State, c: Ctl, t: Token): State
    requires Exists(st, c)
  {
    match c
    case U(u) => st.(users := st.users[u := st.users[u].(tc := t)])
    case B(b) => st.(buckets := st.buckets[b := st.buckets[b].(tc := t)])
  }

  lemma SetTokEffect(st: State, c: Ctl, t: Token)
    requires Exists(st, c)
    ensures var to := SetTok(st, c, t);
            && to.flows == st.flows && to.users.Keys == st.users.Keys && to.buckets.Keys == st.buckets.Keys
            && (forall x :: Exists(to, x) <==> Exists(st, x))
            && (forall x :: Exists(st, x) ==> Tok(to, x) == if x == c then t else Tok(st, x))
            && (forall u :: u in st.users ==> to.users[u].(tc := st.users[u].tc) == st.users[u])
            && (forall b :: b in st.buckets ==> to.buckets[b].(tc := st.buckets[b].tc) == st.buckets[b])
  {
  }

  function Total(slots: seq<seq<Ctl>>): nat {
    if slots == [] then 0 else |slots[0]| + Total(slots[1..])
  }

  lemma {:induction false} TotalUpdate(slots: seq<seq<Ctl>>, k: nat, l: seq<Ctl>)
    requires k < |slots|
    ensures Total(slots[k := l]) == Total(slots) - |slots[k]| + |l|
    decreases k
  {
    var to := slots[k := l];
    if k == 0 {
      assert to[1..] == slots[1..];
    } else {
      assert to[1..] == slots[1..][k - 1 := l];
      TotalUpdate(slots[1..], k - 1, l);
    }
  }

  /** The wheel holds exactly the pending controllers, each once, each in the slot of its tick,
      and none more than a turn ahead.  `work` is a list taken off the wheel to be processed. */
  ghost predicate WheelOk(st: State, slots: seq<seq<Ctl>>, work: seq<Ctl>, position: int) {
    && |slots| == SLOTS
    && (forall k :: 0 <= k < SLOTS ==> SlotOk(st, slots[k], k, position))
    && NoDup(work) && (forall c :: c in work ==> Exists(st, c) && Tok(st, c).pending)
    && (forall c :: Exists(st, c) && Tok(st, c).pending ==> c in work || OnWheel(st, slots, c))
    && (forall c, k :: 0 <= k < SLOTS && c in work ==> c !in slots[k])
  }

  ghost predicate SlotOk(st: State, slot: seq<Ctl>, k: nat, position: int) {
    && NoDup(slot)
    && forall c :: c in slot ==>
         && Exists(st, c) && Tok(st, c).pending
         && Tok(st, c).jiffies % SLOTS == k && position <= Tok(st, c).jiffies < position + SLOTS
  }

  ghost predicate OnWheel(st: State, slots: seq<seq<Ctl>>, c: Ctl)
    requires |slots| == SLOTS && Exists(st, c)
  {
    c in slots[Tok(st, c).jiffies % SLOTS]
  }

  /** The wheel is empty only if nothing is pending. */
  lemma EmptyWheel(st: State, slots: seq<seq<Ctl>>, position: int)
    requires WheelOk(st, slots, [], position) && Total(slots) == 0
    ensures forall c :: Exists(st, c) ==> !Tok(st, c).pending
  {
    forall c | Exists(st, c) ensures !Tok(st, c).pending {
      TotalAtLeast(slots, Tok(st, c).jiffies % SLOTS);
    }
  }

  lemma {:induction false} TotalAtLeast(slots: seq<seq<Ctl>>, k: nat)
    requires k < |slots|
    ensures |slots[k]| <= Total(slots)
    decreases k
  {
    if k > 0 {
      TotalAtLeast(slots[1..], k - 1);
    }
  }

  lemma NoDupAppend<K>(s: seq<K>, k: K)
    requires NoDup(s) && k !in s
    ensures NoDup(s + [k])
  {
  }

  /** tbq_timer_mod: a controller whose tick is less than a turn ahead joins the wheel. */
  lemma ArmKeeps(st: State, slots: seq<seq<Ctl>>, work: seq<Ctl>, position: int, c: Ctl, t: Token)
    requires WheelOk(st, slots, work, position) && Exists(st, c) && !Tok(st, c).pending
    requires t.pending && position <= t.jiffies < position + SLOTS
    ensures var k := t.jiffies % SLOTS;
            WheelOk(SetTok(st, c, t), slots[k := slots[k] + [c]], work, position)
  {
    var k := t.jiffies % SLOTS;
    var to, s2 := SetTok(st, c, t), slots[k := slots[k] + [c]];
    SetTokEffect(st, c, t);
    hide SetTok;
    assert c !in work && forall j :: 0 <= j < SLOTS ==> c !in slots[j] by {
      forall j | 0 <= j < SLOTS ensures c !in slots[j] { assert SlotOk(st, slots[j], j, position); }
    }
    forall j | 0 <= j < SLOTS ensures SlotOk(to, s2[j], j, position) {
      assert SlotOk(st, slots[j], j, position);
      NoDupAppend(slots[j], c);
    }
  }

  /** A charge that does not deactivate leaves the wheel as it is. */
  lemma ActiveKeeps(st: State, slots: seq<seq<Ctl>>, work: seq<Ctl>, position: int, c: Ctl, t: Token)
    requires WheelOk(st, slots, work, position) && Exists(st, c) && !Tok(st, c).pending && !t.pending
    ensures WheelOk(SetTok(st, c, t), slots, work, position)
  {
    var to := SetTok(st, c, t);
    SetTokEffect(st, c, t);
    hide SetTok;
    forall j | 0 <= j < SLOTS ensures SlotOk(to, slots[j], j, position) {
      assert SlotOk(st, slots[j], j, position);
    }
  }

  /** tbq_timer_del of the first controller of the list being processed. */
  lemma WakeKeeps(st: State, slots: seq<seq<Ctl>>, work: seq<Ctl>, position: int)
    requires WheelOk(st, slots, work, position) && work != []
    ensures var c := work[0];
            Exists(st, c) && WheelOk(SetTok(st, c, Tok(st, c).(pending := false)), slots, work[1..], position)
  {
    var c := work[0];
    assert c in work;
    SetTokEffect(st, c, Tok(st, c).(pending := false));
    WakeSlots(st, slots, work, position);
    WakeWork(st, slots, work, position);
    WakeAccounted(st, slots, work, position);
    hide SetTok, SlotOk, NoDup, OnWheel;
  }

  ghost function Awoken(st: State, work: seq<Ctl>): State
    requires work != [] && Exists(st, work[0])
  {
    SetTok(st, work[0], Tok(st, work[0]).(pending := false))
  }

  lemma WakeSlots(st: State, slots: seq<seq<Ctl>>, work: seq<Ctl>, position: int)
    requires WheelOk(st, slots, work, position) && work != []
    ensures Exists(st, work[0]) && forall j :: 0 <= j < SLOTS ==> SlotOk(Awoken(st, work), slots[j], j, position)
  {
    var c := work[0];
    assert c in work;
    SetTokEffect(st, c, Tok(st, c).(pending := false));
    hide SetTok;
    forall j | 0 <= j < SLOTS ensures SlotOk(Awoken(st, work), slots[j], j, position) {
      assert SlotOk(st, slots[j], j, position) && c !in slots[j];
    }
  }

  lemma WakeWork(st: State, slots: seq<seq<Ctl>>, work: seq<Ctl>, position: int)
    requires WheelOk(st, slots, work, position) && work != []
    ensures Exists(st, work[0])
    ensures NoDup(work[1..]) && forall c :: c in work[1..] ==> Exists(Awoken(st, work), c) && Tok(Awoken(st, work), c).pending
  {
    assert work[0] in work && work[0] !in work[1..];
    SetTokEffect(st, work[0], Tok(st, work[0]).(pending := false));
    hide SetTok, SlotOk;
    assert forall c :: c in work[1..] ==> c in work;
  }

  lemma WakeAccounted(st: State, slots: seq<seq<Ctl>>, work: seq<Ctl>, position: int)
    requires WheelOk(st, slots, work, position) && work != []
    ensures Exists(st, work[0])
    ensures forall c :: Exists(Awoken(st, work), c) && Tok(Awoken(st, work), c).pending ==>
              c in work[1..] || OnWheel(Awoken(st, work), slots, c)
    ensures forall c, k :: 0 <= k < SLOTS && c in work[1..] ==> c !in slots[k]
  {
    assert work[0] in work;
    SetTokEffect(st, work[0], Tok(st, work[0]).(pending := false));
    hide SetTok, SlotOk, NoDup;
    assert work == [work[0]] + work[1..];
    assert forall c :: c in work <==> c == work[0] || c in work[1..];
  }

  /** The wheel turns by one: the list of the current tick is taken off (tbq_core.c:1117-1119).
      All its members are due now, since none was more than a turn ahead. */
  lemma TurnKeeps(st: State, slots: seq<seq<Ctl>>, position: int)
    requires WheelOk(st, slots, [], position)
    ensures var k := position % SLOTS;
            && WheelOk(st, slots[k := []], slots[k], position + 1)
            && forall c :: c in slots[k] ==> Exists(st, c) && Tok(st, c).jiffies == position
  {
    var k := position % SLOTS;
    assert SlotOk(st, slots[k], k, position);
    forall c | c in slots[k] ensures Tok(st, c).jiffies == position {
      SameSlot(Tok(st, c).jiffies, position);
    }
    var turned := slots[k := []];
    forall j | 0 <= j < SLOTS ensures SlotOk(st, turned[j], j, position + 1) {
      assert SlotOk(st, slots[j], j, position);
    }
    forall c, j | 0 <= j < SLOTS && c in slots[k] ensures c !in turned[j] {
      assert SlotOk(st, slots[j], j, position);
    }
  }

  lemma SameSlot(a: int, b: int)
    requires b <= a < b + SLOTS && a % SLOTS == b % SLOTS
    ensures a == b
  {
  }
}

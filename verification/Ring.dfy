/** The ring shared by one producer and one consumer (ntrack_rbf.h, used by ntrack_msg.c:121-132 and
    nt_message.c:187-206), at the granularity of one check, one byte copied, one index advanced.  It
    refines a bounded queue. */
module Ring {
  import opened Basics

  type Message = seq<Byte>

  const NODE_SIZE := 2048

  /** The producer is between messages, or has a slot and has copied `done` bytes of a message. */
  datatype Producer = Resting | Writing(message: Message, done: nat)

  /** The consumer is between messages, or has a slot and has read some bytes of it. */
  datatype Consumer = Waiting | Reading(got: seq<Byte>)

  /** The shared header and slots, where the two sides are, and, for the record, what has been
      produced and what the consumer has read of each message. */
  datatype State = State(
    count: nat, r: nat, w: nat, slots: seq<seq<Byte>>,
    p: Producer, c: Consumer,
    ghost produced: seq<Message>, ghost consumed: seq<seq<Byte>>)

  /** rbf_get_buff: there is a free slot. */
  predicate HasBuff(s: State)
    requires s.count > 0
  {
    (s.w + 1) % s.count != s.r
  }

  /** rbf_get_data: there is a full slot. */
  predicate HasData(s: State) {
    s.r != s.w
  }

  datatype Step = Check(message: Message) | Copy | ReleaseBuff | CheckData | Read | ReleaseData

  ghost predicate Start(s: State) {
    && s.count > 0 && s.r == s.w == 0 && s.p == Resting && s.c == Waiting
    && |s.slots| == s.count && (forall k :: 0 <= k < s.count ==> |s.slots[k]| == NODE_SIZE)
    && s.produced == [] && s.consumed == []
  }

  ghost predicate Next(s: State, step: Step, t: State)
    requires s.count > 0 && s.r < |s.slots| && s.w < |s.slots|
  {
    match step
    case Check(m) =>
      && s.p.Resting? && |m| <= NODE_SIZE
      && t == if HasBuff(s) then s.(p := Writing(m, 0)) else s
    case Copy =>
      && s.p.Writing? && s.p.done < |s.p.message| && s.p.done < |s.slots[s.w]|
      && t == s.(slots := s.slots[s.w := s.slots[s.w][s.p.done := s.p.message[s.p.done]]],
                 p := Writing(s.p.message, s.p.done + 1))
    case ReleaseBuff =>
      && s.p.Writing? && s.p.done == |s.p.message|
      && t == s.(w := (s.w + 1) % s.count, p := Resting, produced := s.produced + [s.p.message])
    case CheckData =>
      && s.c.Waiting?
      && t == if HasData(s) then s.(c := Reading([])) else s
    case Read =>
      && s.c.Reading? && |s.c.got| < |s.slots[s.r]|
      && t == s.(c := Reading(s.c.got + [s.slots[s.r][|s.c.got|]]))
    case ReleaseData =>
      && s.c.Reading?
      && t == s.(r := (s.r + 1) % s.count, c := Waiting, consumed := s.consumed + [s.c.got])
  }

  // ----- The invariant -----

  /** What was read of a slot agrees with the message, as far as both go. */
  ghost predicate Agrees(got: seq<Byte>, m: Message) {
    forall k :: 0 <= k < |got| && k < |m| ==> got[k] == m[k]
  }

  /** The slot holds the first `n` bytes of the message. */
  ghost predicate Holds(slot: seq<Byte>, m: Message, n: nat) {
    && |slot| == NODE_SIZE && n <= |m| <= NODE_SIZE
    && forall k :: 0 <= k < n ==> slot[k] == m[k]
  }

  /** The slot of the message number `i`: round the ring. */
  function Slot(i: nat, n: nat): nat {
    if i == 0 then 0 else if Slot(i - 1, n) + 1 == n then 0 else Slot(i - 1, n) + 1
  }

  ghost predicate Indices(s: State) {
    && 0 < s.count == |s.slots|
    && s.w == Slot(|s.produced|, s.count) < s.count && s.r == Slot(|s.consumed|, s.count) < s.count
    && |s.consumed| <= |s.produced| < |s.consumed| + s.count
    && (s.p.Writing? ==> |s.produced| + 1 < |s.consumed| + s.count)
    && (s.c.Reading? ==> |s.consumed| < |s.produced|)
  }

  ghost predicate InFlight(s: State, i: int) {
    0 <= |s.consumed| <= i < |s.produced|
  }

  ghost predicate SlotHolds(s: State, i: int)
    requires Indices(s) && InFlight(s, i)
  {
    && Slot(i, s.count) < s.count
    && Holds(s.slots[Slot(i, s.count)], s.produced[i], |s.produced[i]|)
  }

  ghost predicate Inv(s: State) {
    && Indices(s)
    && (forall k :: 0 <= k < s.count ==> |s.slots[k]| == NODE_SIZE)
    && (forall i :: InFlight(s, i) ==> SlotHolds(s, i))
    && (s.p.Writing? ==> Holds(s.slots[s.w], s.p.message, s.p.done))
    && (s.c.Reading? ==> |s.c.got| <= NODE_SIZE && s.c.got == s.slots[s.r][..|s.c.got|])
    && (forall i :: 0 <= i < |s.consumed| ==> Agrees(s.consumed[i], s.produced[i]))
  }

  // ----- Going round -----

  lemma Successor(w: nat, n: nat)
    requires w < n
    ensures (w + 1) % n == if w + 1 == n then 0 else w + 1
  {
  }

  lemma {:induction false} SlotOffset(i: nat, d: nat, n: nat)
    requires n > 0 && d <= n
    ensures Slot(i, n) < n
    ensures Slot(i + d, n) == if Slot(i, n) + d < n then Slot(i, n) + d else Slot(i, n) + d - n
  {
    if d > 0 {
      SlotOffset(i, d - 1, n);
    } else if i > 0 {
      SlotOffset(i - 1, 0, n);
    }
  }

  lemma SlotNext(i: nat, n: nat)
    requires n > 0
    ensures Slot(i, n) < n && Slot(i + 1, n) == (Slot(i, n) + 1) % n
  {
    SlotOffset(i, 0, n);
    Successor(Slot(i, n), n);
  }

  lemma SameSlot(i: nat, j: nat, n: nat)
    requires n > 0 && i <= j <= i + n
    ensures Slot(i, n) == Slot(j, n) <==> i == j || j == i + n
  {
    SlotOffset(i, j - i, n);
  }

  // ----- The two checks are exact -----

  /** The messages released and not yet given back. */
  ghost function Queue(s: State): seq<Message>
    requires Indices(s)
  {
    s.produced[|s.consumed|..]
  }

  /** A slot is refused exactly when `count - 1` messages are in flight, and data exactly when none
      is. */
  lemma ChecksAreExact(s: State)
    requires Inv(s)
    ensures HasData(s) <==> Queue(s) != []
    ensures HasBuff(s) <==> |Queue(s)| < s.count - 1
  {
    SameSlot(|s.consumed|, |s.produced|, s.count);
    SlotNext(|s.produced|, s.count);
    SameSlot(|s.consumed|, |s.produced| + 1, s.count);
  }

  /** The slot being written is never the slot being read. */
  lemma SlotsDisjoint(s: State)
    requires Inv(s) && s.p.Writing? && s.c.Reading?
    ensures s.w != s.r
  {
    SameSlot(|s.consumed|, |s.produced|, s.count);
  }

  // ----- Every step keeps the invariant and is a step of a queue -----

  ghost predicate QueueStep(q: seq<Message>, step: Step, s: State, t: State, q': seq<Message>) {
    match step
    case ReleaseBuff => s.p.Writing? && q' == q + [s.p.message]
    case ReleaseData => q != [] && q' == q[1..] && s.c.Reading? && Agrees(s.c.got, q[0])
    case _ => q' == q
  }

  lemma StartInv(s: State)
    requires Start(s)
    ensures Inv(s) && Queue(s) == []
  {
  }

  lemma StepKeeps(s: State, step: Step, t: State)
    requires Inv(s) && Next(s, step, t)
    ensures Inv(t)
    ensures QueueStep(Queue(s), step, s, t, Queue(t))
  {
    match step
    case Check(m) => ChecksAreExact(s); NothingMoves(s, t);
    case Copy => CopyKeeps(s, t);
    case ReleaseBuff => ReleaseBuffKeeps(s, t);
    case CheckData => ChecksAreExact(s); NothingMoves(s, t);
    case Read => NothingMoves(s, t);
    case ReleaseData => ReleaseDataKeeps(s, t);
  }

  lemma NothingMoves(s: State, t: State)
    requires Inv(s) && t.(p := s.p, c := s.c) == s
    ensures Indices(t) ==> forall i :: InFlight(t, i) ==> SlotHolds(t, i)
  {
    if Indices(t) {
      forall i | InFlight(t, i) ensures SlotHolds(t, i) {
        assert InFlight(s, i);
      }
    }
  }

  lemma CopyKeeps(s: State, t: State)
    requires Inv(s) && Next(s, Copy, t)
    ensures Inv(t) && Queue(t) == Queue(s)
  {
    hide Slot;
    forall i | InFlight(t, i) ensures SlotHolds(t, i) {
      assert InFlight(s, i);
      SameSlot(i, |s.produced|, s.count);
    }
    if s.c.Reading? {
      SlotsDisjoint(s);
    }
  }

  lemma ReleaseBuffKeeps(s: State, t: State)
    requires Inv(s) && Next(s, ReleaseBuff, t)
    ensures Inv(t) && Queue(t) == Queue(s) + [s.p.message]
  {
    hide Slot;
    SlotNext(|s.produced|, s.count);
    forall i | InFlight(t, i) ensures Indices(t) && SlotHolds(t, i) {
      assert i < |s.produced| ==> InFlight(s, i);
    }
  }

  lemma ReleaseDataKeeps(s: State, t: State)
    requires Inv(s) && Next(s, ReleaseData, t)
    ensures Inv(t) && Queue(s) != [] && Queue(t) == Queue(s)[1..] && Agrees(s.c.got, Queue(s)[0])
  {
    hide Slot;
    SlotNext(|s.consumed|, s.count);
    assert InFlight(s, |s.consumed|);
    forall i | InFlight(t, i) ensures Indices(t) && SlotHolds(t, i) {
      assert InFlight(s, i);
    }
  }

  // ----- Runs -----

  ghost predicate IsRun(states: seq<State>, steps: seq<Step>) {
    && |states| == |steps| + 1 && Start(states[0])
    && forall i :: 0 <= i < |steps| ==>
         states[i].count > 0 && states[i].r < |states[i].slots| && states[i].w < |states[i].slots|
         && Next(states[i], steps[i], states[i + 1])
  }

  lemma {:induction false} RunKeeps(states: seq<State>, steps: seq<Step>, n: nat)
    requires IsRun(states, steps) && n < |states|
    ensures Inv(states[n])
  {
    if n == 0 {
      StartInv(states[0]);
    } else {
      RunKeeps(states, steps, n - 1);
      StepKeeps(states[n - 1], steps[n - 1], states[n]);
    }
  }

  /** In every interleaving: what is consumed is, in order, a prefix of what was produced; at most
      `count - 1` messages are in flight; and nobody reads the slot that is being written. */
  lemma RingIsSafe(states: seq<State>, steps: seq<Step>, n: nat)
    requires IsRun(states, steps) && n < |states|
    ensures var s := states[n];
            && |s.consumed| <= |s.produced| <= |s.consumed| + s.count - 1
            && (forall i :: 0 <= i < |s.consumed| ==> Agrees(s.consumed[i], s.produced[i]))
            && (s.p.Writing? && s.c.Reading? ==> s.w != s.r)
            && (s.c.Reading? ==> |s.consumed| < |s.produced| && Agrees(s.c.got, s.produced[|s.consumed|]))
  {
    RunKeeps(states, steps, n);
    var s := states[n];
    if s.p.Writing? && s.c.Reading? {
      SlotsDisjoint(s);
    }
    assert s.c.Reading? ==> InFlight(s, |s.consumed|);
  }
}

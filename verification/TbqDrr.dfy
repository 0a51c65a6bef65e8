/** Deficit round robin over the units attached to a controller (tbq_core.c:752-814): the unit at
    the head of the list is served until its deficit is used up, then gets a new quantum and goes
    to the tail. */
module TbqDrr {

  const QUANTUM := 2048

  ghost predicate NoDup<K>(s: seq<K>) {
    forall i, j :: 0 <= i < j < |s| ==> s[i] != s[j]
  }

  function Without<K(==, !new)>(s: seq<K>, k: K): (r: seq<K>)
    ensures k !in r
    ensures forall x :: x in r <==> x in s && x != k
  {
    if s == [] then []
    else if s[0] == k then Without(s[1..], k)
    else
      var r := [s[0]] + Without(s[1..], k);
      assert forall x :: x in s <==> x == s[0] || x in s[1..];
      r
  }

  /** The list of attached units, with the deficit and the weight of each. */
  datatype Drr<K> = Drr(order: seq<K>, deficit: map<K, int>, weight: map<K, nat>) {
    ghost predicate Valid() {
      && NoDup(order)
      && deficit.Keys == (set k | k in order) == weight.Keys
    }
  }

  function Empty<K>(): Drr<K> {
    Drr([], map[], map[])
  }

  /** tbq_backlog_attach: to the tail, with a quantum worth of the weight the unit had. */
  function Attach<K(==, !new)>(d: Drr<K>, k: K, had: nat, weight: nat): Drr<K> {
    if k in d.order then d
    else Drr(d.order + [k], d.deficit[k := had * QUANTUM], d.weight[k := weight])
  }

  /** tbq_backlog_detach */
  function Detach<K(==, !new)>(d: Drr<K>, k: K): Drr<K> {
    Drr(Without(d.order, k), d.deficit - {k}, d.weight - {k})
  }

  /** tbq_backlog_drr_schedule for a unit that is attached. */
  function Schedule<K(==, !new)>(d: Drr<K>, k: K, length: nat): Drr<K>
    requires k in d.deficit && k in d.weight
  {
    var left := d.deficit[k] - length;
    if left >= 0 then d.(deficit := d.deficit[k := left])
    else d.(order := Without(d.order, k) + [k], deficit := d.deficit[k := left + d.weight[k] * QUANTUM])
  }

  lemma {:induction false} WithoutNoDup<K(!new)>(s: seq<K>, k: K)
    requires NoDup(s)
    ensures NoDup(Without(s, k)) && |Without(s, k)| == |s| - (if k in s then 1 else 0)
  {
    if s != [] {
      assert NoDup(s[1..]);
      WithoutNoDup(s[1..], k);
      assert s[0] !in s[1..];
      assert k in s <==> k == s[0] || k in s[1..];
    }
  }

  lemma KeepsValid<K(!new)>(d: Drr<K>, k: K, had: nat, weight: nat, length: nat)
    requires d.Valid()
    ensures Attach(d, k, had, weight).Valid() && Detach(d, k).Valid()
    ensures k in d.order ==> Schedule(d, k, length).Valid()
  {
    DetachValid(d, k);
    if k in d.order {
      ScheduleValid(d, k, length);
    }
  }

  lemma DetachValid<K(!new)>(d: Drr<K>, k: K)
    requires d.Valid()
    ensures Detach(d, k).Valid() && NoDup(Without(d.order, k) + [k])
  {
    WithoutNoDup(d.order, k);
  }

  lemma ScheduleValid<K(!new)>(d: Drr<K>, k: K, length: nat)
    requires d.Valid() && k in d.order
    ensures Schedule(d, k, length).Valid()
  {
    hide NoDup;
    DetachValid(d, k);
    assert forall x :: x in Without(d.order, k) + [k] <==> x in d.order;
  }

  /** A unit that is attached starts within its quantum exactly when the weight it had is no
      larger than the weight it gets.  A user's unit keeps its weight; a flow that moves to a
      controller where it weighs less starts above its quantum. */
  lemma AttachInQuantum<K(!new)>(d: Drr<K>, k: K, had: nat, weight: nat)
    requires k !in d.order
    ensures InQuantum(Attach(d, k, had, weight), k) <==> had <= weight
  {
  }

  // ----- Runs -----

  /** What happens under one controller: units come, go, and the head of the list is served. */
  datatype Event<K> = Come(k: K, had: nat, weight: nat) | Go(k: K) | Serve(length: nat)

  ghost predicate Enabled<K(!new)>(d: Drr<K>, e: Event<K>) {
    match e
    case Come(k, _, _) => k !in d.order
    case Go(k) => k in d.order
    case Serve(_) => d.order != []
  }

  ghost function Apply<K(!new)>(d: Drr<K>, e: Event<K>): Drr<K>
    requires d.Valid() && Enabled(d, e)
  {
    match e
    case Come(k, had, weight) => Attach(d, k, had, weight)
    case Go(k) => Detach(d, k)
    case Serve(length) => assert d.order[0] in d.order; Schedule(d, d.order[0], length)
  }

  /** From `d` to `to` the unit `k` is the one at the head, and is served. */
  ghost predicate Turn<K(!new)>(d: Drr<K>, to: Drr<K>, k: K, length: nat) {
    && d.Valid() && d.order != [] && d.order[0] == k
    && to == Apply(d, Serve(length))
  }

  lemma HeadHasItsTurn<K(!new)>(d: Drr<K>, k: K, length: nat)
    requires d.Valid()
    ensures k in d.order <==> k in d.deficit && k in d.weight
    ensures d.order != [] && d.order[0] == k ==>
              k in d.deficit && k in d.weight && Turn(d, Schedule(d, k, length), k, length)
  {
    hide Schedule;
    assert d.order != [] ==> d.order[0] in d.order;
  }

  ghost predicate IsRun<K(!new)>(d: Drr<K>, es: seq<Event<K>>)
    decreases |es|
  {
    d.Valid() && (es == [] || (Enabled(d, es[0]) && IsRun(Apply(d, es[0]), es[1..])))
  }

  ghost function Last<K(!new)>(d: Drr<K>, es: seq<Event<K>>): Drr<K>
    requires IsRun(d, es)
    decreases |es|
  {
    if es == [] then d else Last(Apply(d, es[0]), es[1..])
  }

  ghost predicate Serves<K(!new)>(d: Drr<K>, e: Event<K>, k: K) {
    e.Serve? && d.order != [] && d.order[0] == k
  }

  /** Bytes a unit is served over a run. */
  ghost function Served<K(!new)>(d: Drr<K>, es: seq<Event<K>>, k: K): nat
    requires IsRun(d, es)
    decreases |es|
  {
    if es == [] then 0
    else (if Serves(d, es[0], k) then es[0].length else 0) + Served(Apply(d, es[0]), es[1..], k)
  }

  /** How often a unit goes to the tail over a run. */
  ghost function Rotations<K(!new)>(d: Drr<K>, es: seq<Event<K>>, k: K): nat
    requires IsRun(d, es)
    decreases |es|
  {
    if es == [] then 0
    else (if Serves(d, es[0], k) && k in d.deficit && d.deficit[k] < es[0].length then 1 else 0)
         + Rotations(Apply(d, es[0]), es[1..], k)
  }

  /** A unit that stays attached, with packets no larger than its quantum. */
  ghost predicate Stays<K(!new)>(d: Drr<K>, es: seq<Event<K>>, k: K)
    requires IsRun(d, es)
    decreases |es|
  {
    && k in d.order
    && (es == [] ||
        (&& es[0] != Go(k)
         && (Serves(d, es[0], k) ==> k in d.weight && es[0].length <= d.weight[k] * QUANTUM)
         && Stays(Apply(d, es[0]), es[1..], k)))
  }

  /** The deficit is within the quantum. */
  ghost predicate InQuantum<K(!new)>(d: Drr<K>, k: K) {
    k in d.deficit && k in d.weight && 0 <= d.deficit[k] <= d.weight[k] * QUANTUM
  }

  /** A run goes on. */
  lemma {:induction false} RunSnoc<K(!new)>(d: Drr<K>, es: seq<Event<K>>, e: Event<K>, k: K)
    requires IsRun(d, es) && Enabled(Last(d, es), e)
    ensures Last(d, es).Valid()
    ensures IsRun(d, es + [e]) && Last(d, es + [e]) == Apply(Last(d, es), e)
    ensures Served(d, es + [e], k) == Served(d, es, k) + (if Serves(Last(d, es), e, k) then e.length else 0)
    decreases |es|
  {
    hide Apply, Enabled, Serves;
    var all := es + [e];
    if es == [] {
      assert all[1..] == [];
      ApplyValid(d, e);
    } else {
      assert all[0] == es[0] && all[1..] == es[1..] + [e];
      RunSnoc(Apply(d, es[0]), es[1..], e, k);
    }
  }

  lemma ApplyValid<K(!new)>(d: Drr<K>, e: Event<K>)
    requires d.Valid() && Enabled(d, e)
    ensures Apply(d, e).Valid()
  {
    match e
    case Come(k, had, weight) => KeepsValid(d, k, had, weight, 0);
    case Go(k) => KeepsValid(d, k, 0, 0, 0);
    case Serve(length) => assert d.order[0] in d.order; KeepsValid(d, d.order[0], 0, 0, length);
  }

  /** A unit that stays for a run stays for its beginning, and is attached at the end. */
  lemma {:induction false} StaysSnoc<K(!new)>(d: Drr<K>, es: seq<Event<K>>, e: Event<K>, k: K)
    requires IsRun(d, es) && IsRun(d, es + [e]) && Stays(d, es + [e], k)
    ensures Stays(d, es, k)
    decreases |es|
  {
    hide Apply, Enabled, Serves;
    var all := es + [e];
    if es != [] {
      assert all[0] == es[0] && all[1..] == es[1..] + [e];
      StaysSnoc(Apply(d, es[0]), es[1..], e, k);
    }
  }

  lemma {:induction false} StaysEnds<K(!new)>(d: Drr<K>, es: seq<Event<K>>, k: K)
    requires IsRun(d, es) && Stays(d, es, k)
    ensures k in Last(d, es).order
    decreases |es|
  {
    if es != [] {
      StaysEnds(Apply(d, es[0]), es[1..], k);
    }
  }

  // ----- One unit -----

  lemma StepUnit<K(!new)>(d: Drr<K>, e: Event<K>, k: K)
    requires d.Valid() && Enabled(d, e) && InQuantum(d, k) && k in d.order && e != Go(k)
    requires Serves(d, e, k) ==> e.length <= d.weight[k] * QUANTUM
    ensures var n := Apply(d, e);
            && n.Valid() && k in n.order && InQuantum(n, k) && n.weight[k] == d.weight[k]
            && n.deficit[k] == d.deficit[k] - (if Serves(d, e, k) then e.length else 0)
                               + (if Serves(d, e, k) && d.deficit[k] < e.length then d.weight[k] * QUANTUM else 0)
  {
    match e
    case Come(c, had, weight) => KeepsValid(d, c, had, weight, 0);
    case Go(c) => KeepsValid(d, c, 0, 0, 0);
    case Serve(length) => assert d.order[0] in d.order; KeepsValid(d, d.order[0], 0, 0, length);
  }

  function Times(n: nat, q: nat): nat {
    n * q
  }

  lemma TimesNext(n: nat, q: nat)
    ensures Times(1 + n, q) == q + Times(n, q) && Times(0, q) == 0
  {
  }

  /** Over a whole run: the deficit stays within the quantum, and the bytes served are the
      quanta received, give or take the deficit. */
  lemma {:induction false} UnitAccount<K(!new)>(d: Drr<K>, es: seq<Event<K>>, k: K)
    requires IsRun(d, es) && Stays(d, es, k) && InQuantum(d, k)
    ensures InQuantum(Last(d, es), k) && Last(d, es).weight[k] == d.weight[k]
    ensures Served(d, es, k)
            == Times(Rotations(d, es, k), d.weight[k] * QUANTUM) + d.deficit[k] - Last(d, es).deficit[k]
    decreases |es|
  {
    hide Apply, Times;
    if es == [] {
      TimesNext(0, d.weight[k] * QUANTUM);
    } else {
      StepUnit(d, es[0], k);
      var n := Apply(d, es[0]);
      UnitAccount(n, es[1..], k);
      TimesNext(Rotations(n, es[1..], k), d.weight[k] * QUANTUM);
    }
  }

  // ----- Two units -----

  ghost predicate Before<K(!new)>(s: seq<K>, a: K, b: K) {
    exists i, j :: 0 <= i < j < |s| && s[i] == a && s[j] == b
  }

  lemma {:induction false} WithoutBefore<K(!new)>(s: seq<K>, k: K, a: K, b: K)
    requires NoDup(s) && Before(s, a, b) && k != a && k != b
    ensures Before(Without(s, k), a, b)
    decreases |s|
  {
    var i, j :| 0 <= i < j < |s| && s[i] == a && s[j] == b;
    var t := s[1..];
    assert t[j - 1] == b;
    if i == 0 {
      assert b in t && b in Without(t, k);
      var m :| 0 <= m < |Without(t, k)| && Without(t, k)[m] == b;
      assert Without(s, k)[0] == a && Without(s, k)[m + 1] == b;
    } else {
      assert t[i - 1] == a;
      WithoutBefore(t, k, a, b);
      var x, y :| 0 <= x < y < |Without(t, k)| && Without(t, k)[x] == a && Without(t, k)[y] == b;
      if s[0] != k {
        assert Without(s, k)[x + 1] == a && Without(s, k)[y + 1] == b;
      }
    }
  }

  lemma BeforeAppend<K(!new)>(s: seq<K>, k: K, a: K, b: K)
    requires Before(s, a, b)
    ensures Before(s + [k], a, b)
  {
    var i, j :| 0 <= i < j < |s| && s[i] == a && s[j] == b;
    assert (s + [k])[i] == a && (s + [k])[j] == b;
  }

  /** The unit ahead stays ahead until it goes to the tail; the one behind is not served meanwhile. */
  lemma StepOrder<K(!new)>(d: Drr<K>, e: Event<K>, a: K, b: K)
    requires d.Valid() && Enabled(d, e) && a != b && Before(d.order, a, b) && e != Go(a) && e != Go(b)
    ensures !Serves(d, e, b)
    ensures var n := Apply(d, e).order;
            if Serves(d, e, a) && d.deficit[a] < e.length then Before(n, b, a) else Before(n, a, b)
  {
    var i, j :| 0 <= i < j < |d.order| && d.order[i] == a && d.order[j] == b;
    match e
    case Come(c, _, _) => BeforeAppend(d.order, c, a, b);
    case Go(c) => WithoutBefore(d.order, c, a, b);
    case Serve(length) =>
      var k := d.order[0];
      assert k in d.order;
      if d.deficit[k] < length {
        if k == a {
          var w := Without(d.order, a);
          assert b in w;
          var m :| 0 <= m < |w| && w[m] == b;
          assert (w + [a])[m] == b && (w + [a])[|w|] == a;
        } else {
          WithoutBefore(d.order, k, a, b);
          BeforeAppend(Without(d.order, k), k, a, b);
        }
      }
  }

  /** Rotation counts of two units that stay attached differ by at most one, and the one that
      started ahead is never the one behind. */
  lemma {:induction false} RotationsAlternate<K(!new)>(d: Drr<K>, es: seq<Event<K>>, a: K, b: K)
    requires IsRun(d, es) && a != b && Stays(d, es, a) && Stays(d, es, b) && Before(d.order, a, b)
    ensures 0 <= Rotations(d, es, a) - Rotations(d, es, b) <= 1
    decreases |es|
  {
    if es != [] {
      StepOrder(d, es[0], a, b);
      var n := Apply(d, es[0]);
      if Serves(d, es[0], a) && d.deficit[a] < es[0].length {
        RotationsAlternate(n, es[1..], b, a);
      } else {
        RotationsAlternate(n, es[1..], a, b);
      }
    }
  }

  lemma AttachedInSomeOrder<K(!new)>(s: seq<K>, a: K, b: K)
    requires a in s && b in s && a != b
    ensures Before(s, a, b) || Before(s, b, a)
  {
    var i :| 0 <= i < |s| && s[i] == a;
    var j :| 0 <= j < |s| && s[j] == b;
    if i < j {
      assert Before(s, a, b);
    } else {
      assert Before(s, b, a);
    }
  }

  /** `sa / wa` and `sb / wb` differ by at most three quanta, multiplied out. */
  ghost predicate WithinThreeQuanta(sa: int, wa: nat, sb: int, wb: nat) {
    -3 * QUANTUM * (wa * wb) <= sa * wb - sb * wa <= 3 * QUANTUM * (wa * wb)
  }

  /** Fairness: for any two units that stay attached over a run, with packets within their quanta,
      the bytes served per unit of weight differ by at most three quanta. */
  lemma Fairness<K(!new)>(d: Drr<K>, es: seq<Event<K>>, a: K, b: K)
    requires IsRun(d, es) && a != b && Stays(d, es, a) && Stays(d, es, b) && InQuantum(d, a) && InQuantum(d, b)
    ensures -1 <= Rotations(d, es, a) - Rotations(d, es, b) <= 1
    ensures InQuantum(Last(d, es), a) && InQuantum(Last(d, es), b)
    ensures WithinThreeQuanta(Served(d, es, a), d.weight[a], Served(d, es, b), d.weight[b])
  {
    hide Times, Rotations, Served, Last, WithinThreeQuanta;
    AttachedInSomeOrder(d.order, a, b);
    if Before(d.order, a, b) {
      RotationsAlternate(d, es, a, b);
    } else {
      RotationsAlternate(d, es, b, a);
    }
    UnitAccount(d, es, a);
    UnitAccount(d, es, b);
    FairnessArithmetic(d.weight[a], d.weight[b], Rotations(d, es, a), Rotations(d, es, b),
                       d.deficit[a] - Last(d, es).deficit[a], d.deficit[b] - Last(d, es).deficit[b]);
  }

  lemma FairnessArithmetic(wa: nat, wb: nat, ra: nat, rb: nat, da: int, db: int)
    requires -1 <= ra - rb <= 1
    requires -(wa * QUANTUM) <= da <= wa * QUANTUM && -(wb * QUANTUM) <= db <= wb * QUANTUM
    ensures WithinThreeQuanta(Times(ra, wa * QUANTUM) + da, wa, Times(rb, wb * QUANTUM) + db, wb)
  {
    hide Times;
    UnitTerm(ra, wa, wb, da);
    UnitTerm(rb, wb, wa, db);
    RotationTerm(ra, rb, wa * wb);
    Combine((Times(ra, wa * QUANTUM) + da) * wb, (Times(rb, wb * QUANTUM) + db) * wa, ra * (wa * wb), rb * (wa * wb), wa * wb);
  }

  lemma UnitTerm(r: nat, w: nat, v: nat, d: int)
    requires -(w * QUANTUM) <= d <= w * QUANTUM
    ensures var s := (Times(r, w * QUANTUM) + d) * v;
            QUANTUM * (r * (w * v)) - QUANTUM * (w * v) <= s <= QUANTUM * (r * (w * v)) + QUANTUM * (w * v)
    ensures r * (w * v) == r * (v * w) && w * v == v * w
  {
    Distribute(Times(r, w * QUANTUM), d, v);
    Reorder(r, w, v);
    MulBound(d, w * QUANTUM, v);
    Reorder(1, w, v);
  }

  lemma RotationTerm(ra: int, rb: int, p: int)
    requires -1 <= ra - rb <= 1 && 0 <= p
    ensures -p <= ra * p - rb * p <= p
  {
    Distribute(ra, -rb, p);
    MulBound(ra - rb, 1, p);
  }

  lemma Combine(x: int, y: int, ap: int, bp: int, p: int)
    requires QUANTUM * ap - QUANTUM * p <= x <= QUANTUM * ap + QUANTUM * p
    requires QUANTUM * bp - QUANTUM * p <= y <= QUANTUM * bp + QUANTUM * p
    requires -p <= ap - bp <= p
    ensures -3 * QUANTUM * p <= x - y <= 3 * QUANTUM * p
  {
  }

  lemma MulBound(x: int, m: int, y: nat)
    requires -m <= x <= m
    ensures -(m * y) <= x * y <= m * y
  {
  }

  lemma Distribute(x: int, y: int, z: int)
    ensures (x + y) * z == x * z + y * z
  {
  }

  lemma Reorder(r: nat, w: nat, v: nat)
    ensures Times(r, w * QUANTUM) * v == QUANTUM * (r * (w * v))
  {
    assert r * (w * QUANTUM) == QUANTUM * (r * w);
    assert QUANTUM * (r * w) * v == QUANTUM * (r * w * v);
  }
}

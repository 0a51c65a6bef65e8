/** The library sort of the pattern matcher (QSORT.c): quicksort with an explicit stack of 30
    pending sub-arrays, the smaller part first, and a selection sort for short sub-arrays. */
module Quicksort {
  import opened Powers

  const CUTOFF := 8
  const STACK := 30

  /** The comparison orders any two elements, the signs of both ways round agree, and it is
      transitive. */
  ghost predicate TotalPreorder<T(!new)>(comp: (T, T) -> int) {
    && (forall x, y :: comp(x, y) < 0 <==> comp(y, x) > 0)
    && (forall x, y, z :: comp(x, y) <= 0 && comp(y, z) <= 0 ==> comp(x, z) <= 0)
  }

  ghost predicate Sorted<T(!new)>(comp: (T, T) -> int, s: seq<T>) {
    forall i, j :: 0 <= i < j < |s| ==> comp(s[i], s[j]) <= 0
  }

  // ----- Pending sub-arrays -----

  /** A sub-array, both ends included. */
  datatype Block = Block(lo: nat, hi: nat)

  /** `tag` names, for every position, the first position of the block it belongs to: positions
      of different blocks are in order, and only pending blocks have two positions or more. */
  ghost predicate Partitioned<T(!new)>(comp: (T, T) -> int, s: seq<T>, tag: seq<nat>) {
    && |tag| == |s|
    && forall i, j :: 0 <= i < j < |s| && tag[i] != tag[j] ==> comp(s[i], s[j]) <= 0
  }

  ghost predicate IsBlock(tag: seq<nat>, b: Block) {
    && b.lo <= b.hi < |tag|
    && (forall i :: b.lo <= i <= b.hi ==> tag[i] == b.lo)
    && forall i :: 0 <= i < |tag| && b.lo <= tag[i] <= b.hi ==> b.lo <= i <= b.hi
  }

  ghost predicate IsPending(tag: seq<nat>, pending: seq<Block>, i: nat)
    requires i < |tag|
  {
    exists k :: 0 <= k < |pending| && pending[k].lo == tag[i]
  }

  ghost predicate Pending(tag: seq<nat>, pending: seq<Block>) {
    && (forall k :: 0 <= k < |pending| ==> IsBlock(tag, pending[k]))
    && (forall j, k :: 0 <= j < k < |pending| ==> pending[j].lo != pending[k].lo)
    && (forall i :: 0 <= i < |tag| ==> tag[i] == i || IsPending(tag, pending, i))
  }

  function Size(b: Block): nat {
    if b.hi < b.lo then 0 else b.hi - b.lo + 1
  }

  /** Every pending block is at most half as large as the one below it could have been. */
  ghost predicate Halving(pending: seq<Block>, n: nat) {
    forall k :: 0 <= k < |pending| ==> Size(pending[k]) * Pow2(k) <= n
  }

  ghost function Work(pending: seq<Block>): nat {
    if pending == [] then 0 else Work(pending[..|pending| - 1]) + Size(pending[|pending| - 1])
  }

  lemma WorkPush(pending: seq<Block>, b: Block)
    ensures Work(pending + [b]) == Work(pending) + Size(b)
  {
    assert (pending + [b])[..|pending|] == pending;
  }

  // ----- Steps on the blocks -----

  /** A rearrangement of one block that leaves the rest alone. */
  ghost predicate Rearranged<T(!new)>(s: seq<T>, t: seq<T>, lo: nat, hi: nat) {
    && hi < |s| == |t|
    && (forall i :: 0 <= i < |s| && !(lo <= i <= hi) ==> t[i] == s[i])
    && multiset(s) == multiset(t)
  }

  lemma Middle<T(!new)>(x: seq<T>, a: seq<T>, b: seq<T>, z: seq<T>)
    requires multiset(x + a + z) == multiset(x + b + z)
    ensures multiset(a) == multiset(b)
  {
    assert multiset(x + a + z) == multiset(x) + multiset(z) + multiset(a);
    assert multiset(x + b + z) == multiset(x) + multiset(z) + multiset(b);
    Cancel(multiset(x) + multiset(z), multiset(a), multiset(b));
  }

  lemma Cancel<T(!new)>(rest: multiset<T>, a: multiset<T>, b: multiset<T>)
    requires rest + a == rest + b
    ensures a == b
  {
    forall e ensures a[e] == b[e] {
      assert (rest + a)[e] == (rest + b)[e];
    }
  }

  lemma RearrangedFrom<T(!new)>(s: seq<T>, t: seq<T>, lo: nat, hi: nat, i: nat) returns (j: nat)
    requires Rearranged(s, t, lo, hi) && lo <= i <= hi
    ensures lo <= j <= hi && t[i] == s[j]
  {
    var s2, t2 := s[lo..hi + 1], t[lo..hi + 1];
    assert s == s[..lo] + s2 + s[hi + 1..] && t == s[..lo] + t2 + s[hi + 1..];
    Middle(s[..lo], s2, t2, s[hi + 1..]);
    assert t[i] == t2[i - lo];
    assert t[i] in multiset(t2);
    var m :| 0 <= m < |s2| && s2[m] == t[i];
    j := lo + m;
  }

  /** The new tags split the block and nothing else. */
  ghost predicate Splits(tag: seq<nat>, to: seq<nat>, lo: nat, hi: nat) {
    && lo <= hi < |tag| == |to|
    && (forall i :: 0 <= i < |tag| && !(lo <= i <= hi) ==> to[i] == tag[i])
    && (forall i :: lo <= i <= hi ==> lo <= to[i] <= hi)
  }

  ghost predicate BlockOrdered<T(!new)>(comp: (T, T) -> int, t: seq<T>, to: seq<nat>, lo: nat, hi: nat)
    requires lo <= hi < |t| == |to|
  {
    forall i, j :: lo <= i < j <= hi && to[i] != to[j] ==> comp(t[i], t[j]) <= 0
  }

  /** Splitting one block correctly keeps the whole array partitioned. */
  lemma SplitKeeps<T(!new)>(comp: (T, T) -> int, s: seq<T>, t: seq<T>, tag: seq<nat>, to: seq<nat>, b: Block)
    requires Partitioned(comp, s, tag) && IsBlock(tag, b) && Rearranged(s, t, b.lo, b.hi)
    requires Splits(tag, to, b.lo, b.hi) && BlockOrdered(comp, t, to, b.lo, b.hi)
    ensures Partitioned(comp, t, to)
  {
    forall i, j | 0 <= i < j < |t| && to[i] != to[j] ensures comp(t[i], t[j]) <= 0 {
      var i', j' := i, j;
      if b.lo <= i <= b.hi && !(b.lo <= j <= b.hi) {
        i' := RearrangedFrom(s, t, b.lo, b.hi, i);
        assert tag[i'] != tag[j];
      } else if !(b.lo <= i <= b.hi) && b.lo <= j <= b.hi {
        j' := RearrangedFrom(s, t, b.lo, b.hi, j);
        assert tag[i] != tag[j'];
      } else if !(b.lo <= i <= b.hi) {
        assert tag[i] != tag[j];
      }
    }
  }

  /** The tags after a block has been split into a left part, single positions and a right part. */
  ghost function SplitTags(tag: seq<nat>, lo: nat, hi: nat, higuy: nat, loguy: nat): (to: seq<nat>)
    ensures |to| == |tag|
  {
    seq(|tag|, i requires 0 <= i < |tag| =>
      if i < lo || hi < i then tag[i]
      else if i < higuy then lo
      else if i < loguy then i
      else loguy)
  }

  /** The parts of a split block that hold two positions or more, the smaller one last. */
  ghost function Parts(lo: nat, hi: nat, higuy: nat, loguy: nat): seq<Block>
    requires lo <= higuy < loguy <= hi + 1
  {
    var left := if lo + 1 < higuy then [Block(lo, higuy - 1)] else [];
    var right := if loguy < hi then [Block(loguy, hi)] else [];
    if higuy - lo > hi - loguy then left + right else right + left
  }

  lemma SplitOther(tag: seq<nat>, c: Block, b: Block, higuy: nat, loguy: nat)
    requires IsBlock(tag, c) && IsBlock(tag, b) && c.lo != b.lo && b.lo <= higuy < loguy <= b.hi + 1
    ensures IsBlock(SplitTags(tag, b.lo, b.hi, higuy, loguy), c)
  {
    assert tag[c.lo] == c.lo && tag[b.lo] == b.lo;
    assert c.hi < b.lo || b.hi < c.lo;
  }

  lemma SplitParts(tag: seq<nat>, b: Block, higuy: nat, loguy: nat)
    requires IsBlock(tag, b) && b.lo <= higuy < loguy <= b.hi + 1
    ensures var to := SplitTags(tag, b.lo, b.hi, higuy, loguy);
            && Splits(tag, to, b.lo, b.hi)
            && forall p <- Parts(b.lo, b.hi, higuy, loguy) :: IsBlock(to, p) && b.lo <= p.lo <= b.hi
  {
    var to := SplitTags(tag, b.lo, b.hi, higuy, loguy);
    assert b.lo < higuy ==> IsBlock(to, Block(b.lo, higuy - 1));
    assert loguy <= b.hi ==> IsBlock(to, Block(loguy, b.hi));
  }

  lemma SplitCovers(tag: seq<nat>, pending: seq<Block>, b: Block, higuy: nat, loguy: nat, i: nat)
    requires i < |tag| && IsBlock(tag, b) && b.lo <= higuy < loguy <= b.hi + 1
    requires tag[i] == i || IsPending(tag, pending + [b], i)
    ensures var to := SplitTags(tag, b.lo, b.hi, higuy, loguy);
            to[i] == i || IsPending(to, pending + Parts(b.lo, b.hi, higuy, loguy), i)
  {
    var to := SplitTags(tag, b.lo, b.hi, higuy, loguy);
    var parts := Parts(b.lo, b.hi, higuy, loguy);
    if i < b.lo || b.hi < i {
      if tag[i] != i {
        var k :| 0 <= k < |pending + [b]| && (pending + [b])[k].lo == tag[i];
        assert k < |pending|;
        assert (pending + parts)[k].lo == to[i];
      }
    } else if i < higuy && i != b.lo {
      assert Block(b.lo, higuy - 1) in parts;
      InConcat(pending, parts, Block(b.lo, higuy - 1));
    } else if loguy < i {
      assert Block(loguy, b.hi) in parts;
      InConcat(pending, parts, Block(loguy, b.hi));
    }
  }

  lemma SplitDistinct(tag: seq<nat>, pending: seq<Block>, b: Block, parts: seq<Block>)
    requires Pending(tag, pending + [b])
    requires forall p <- parts :: b.lo <= p.lo <= b.hi
    requires |parts| == 2 ==> parts[0].lo != parts[1].lo
    requires |parts| <= 2
    ensures IsBlock(tag, b)
    ensures forall k :: 0 <= k < |pending| ==> IsBlock(tag, pending[k]) && pending[k].lo != b.lo
    ensures forall j, k :: 0 <= j < k < |pending + parts| ==> (pending + parts)[j].lo != (pending + parts)[k].lo
  {
    assert (pending + [b])[|pending|] == b;
    forall k | 0 <= k < |pending|
      ensures IsBlock(tag, pending[k]) && pending[k].lo != b.lo && !(b.lo <= pending[k].lo <= b.hi)
    {
      assert (pending + [b])[k] == pending[k];
      assert tag[pending[k].lo] == pending[k].lo && tag[b.lo] == b.lo;
    }
    forall j, k | 0 <= j < k < |pending + parts| ensures (pending + parts)[j].lo != (pending + parts)[k].lo {
      if k < |pending| {
        assert (pending + [b])[j] == pending[j] && (pending + [b])[k] == pending[k];
      } else {
        assert (pending + parts)[k] == parts[k - |pending|];
      }
    }
  }

  lemma SplitPending(tag: seq<nat>, pending: seq<Block>, b: Block, higuy: nat, loguy: nat)
    requires Pending(tag, pending + [b]) && b.lo <= higuy < loguy <= b.hi + 1
    ensures IsBlock(tag, b)
    ensures var to := SplitTags(tag, b.lo, b.hi, higuy, loguy);
            Pending(to, pending + Parts(b.lo, b.hi, higuy, loguy)) && Splits(tag, to, b.lo, b.hi)
  {
    hide IsBlock, IsPending, SplitTags;
    var to := SplitTags(tag, b.lo, b.hi, higuy, loguy);
    var parts := Parts(b.lo, b.hi, higuy, loguy);
    assert (pending + [b])[|pending|] == b;
    SplitParts(tag, b, higuy, loguy);
    SplitDistinct(tag, pending, b, parts);
    forall k | 0 <= k < |pending + parts| ensures IsBlock(to, (pending + parts)[k]) {
      if k < |pending| {
        SplitOther(tag, pending[k], b, higuy, loguy);
      } else {
        assert (pending + parts)[k] in parts;
      }
    }
    forall i | 0 <= i < |to| ensures to[i] == i || IsPending(to, pending + parts, i) {
      SplitCovers(tag, pending, b, higuy, loguy, i);
    }
  }

  lemma InConcat(s: seq<Block>, t: seq<Block>, b: Block)
    requires b in t
    ensures exists k :: 0 <= k < |s + t| && (s + t)[k].lo == b.lo
  {
    var k :| 0 <= k < |t| && t[k] == b;
    assert (s + t)[|s| + k] == b;
  }

  lemma SplitHalves(pending: seq<Block>, b: Block, higuy: nat, loguy: nat, n: nat)
    requires Halving(pending + [b], n) && b.lo <= higuy < loguy <= b.hi + 1
    ensures Halving(pending + Parts(b.lo, b.hi, higuy, loguy), n)
    ensures Work(pending + Parts(b.lo, b.hi, higuy, loguy)) < Work(pending + [b])
  {
    var parts := Parts(b.lo, b.hi, higuy, loguy);
    var d := |pending|;
    assert (pending + [b])[d] == b;
    forall k | 0 <= k < |pending + parts| ensures Size((pending + parts)[k]) * Pow2(k) <= n {
      if k < d {
        assert (pending + [b])[k] == pending[k];
      } else if k == d {
        Monotone(Size(parts[0]), Size(b), Pow2(d));
      } else {
        Monotone(2 * Size(parts[1]), Size(b), Pow2(d));
        Doubling(Size(parts[1]), Pow2(d));
      }
    }
    WorkPush(pending, b);
    if |parts| >= 1 {
      WorkPush(pending, parts[0]);
      assert |parts| == 1 ==> pending + parts == pending + [parts[0]];
    }
    if |parts| == 2 {
      WorkPush(pending + [parts[0]], parts[1]);
      assert pending + parts == pending + [parts[0]] + [parts[1]];
    }
    assert |parts| == 0 ==> pending + parts == pending;
  }

  lemma Monotone(x: int, y: int, p: nat)
    requires x <= y
    ensures x * p <= y * p
  {
  }

  lemma Doubling(x: int, p: nat)
    ensures x * (2 * p) == 2 * x * p
  {
  }

  /** Fewer than 2^32 elements and blocks above the cutoff: the stack has room. */
  lemma {:induction false} StackFits(size: int, depth: nat, n: nat)
    requires CUTOFF < size && size * Pow2(depth) <= n < 0x1_0000_0000
    ensures depth + 1 < STACK
  {
    if depth >= 29 {
      Pow2Monotone(29, depth);
      Monotone(9, size, Pow2(depth));
      assert Pow2(29) == 0x2000_0000 by { Pow2Value(); }
    }
  }

  lemma Pow2Value()
    ensures Pow2(29) == 0x2000_0000
  {
    assert Pow2(5) == 32;
    assert Pow2(10) == 1024;
    assert Pow2(15) == 0x8000;
    assert Pow2(20) == 0x10_0000;
    assert Pow2(25) == 0x200_0000;
  }

  // ----- Partitioning a block -----

  /** The pivot is at `higuy`: no greater element is before it, no smaller one from `loguy` on,
      and what is between is equivalent to it. */
  ghost predicate Divided<T(!new)>(comp: (T, T) -> int, s: seq<T>, lo: nat, hi: nat, higuy: nat, loguy: nat) {
    && lo <= higuy < loguy <= hi + 1 <= |s|
    && (forall i :: lo <= i < loguy ==> comp(s[i], s[higuy]) <= 0)
    && (forall i :: higuy < i <= hi ==> comp(s[higuy], s[i]) <= 0)
  }

  lemma DividedOrdered<T(!new)>(comp: (T, T) -> int, s: seq<T>, tag: seq<nat>, lo: nat, hi: nat, higuy: nat, loguy: nat)
    requires TotalPreorder(comp) && |tag| == |s| && Divided(comp, s, lo, hi, higuy, loguy)
    ensures BlockOrdered(comp, s, SplitTags(tag, lo, hi, higuy, loguy), lo, hi)
  {
    var to := SplitTags(tag, lo, hi, higuy, loguy);
    forall i, j | lo <= i < j <= hi && to[i] != to[j] ensures comp(s[i], s[j]) <= 0 {
      assert i < loguy && higuy <= j;
      assert comp(s[i], s[higuy]) <= 0;
      assert j != higuy ==> comp(s[higuy], s[j]) <= 0;
    }
  }

  // ----- The sort -----

  method Swap<T(!new)>(a: array<T>, p: nat, q: nat)
    requires p < a.Length && q < a.Length
    modifies a
    ensures a[p] == old(a[q]) && a[q] == old(a[p])
    ensures forall i :: 0 <= i < a.Length && i != p && i != q ==> a[i] == old(a[i])
    ensures multiset(a[..]) == multiset(old(a[..]))
  {
    a[p], a[q] := a[q], a[p];
  }

  /** The inner loop of the sort of short blocks. */
  method Largest<T(!new)>(a: array<T>, comp: (T, T) -> int, lo: nat, hi: nat) returns (max: nat)
    requires TotalPreorder(comp) && lo <= hi < a.Length
    ensures lo <= max <= hi && forall i :: lo <= i <= hi ==> comp(a[i], a[max]) <= 0
  {
    max := lo;
    var p := lo + 1;
    while p <= hi
      invariant lo <= max <= hi && max < p <= hi + 1
      invariant forall i :: lo <= i < p ==> comp(a[i], a[max]) <= 0
    {
      if comp(a[p], a[max]) > 0 {
        max := p;
      }
      p := p + 1;
    }
  }

  /** Sorts a short block in place: the greatest element goes to the end, over and over. */
  method ShortSort<T(!new)>(a: array<T>, comp: (T, T) -> int, lo: nat, hi: nat)
    requires TotalPreorder(comp) && lo <= hi < a.Length
    modifies a
    ensures Rearranged(old(a[..]), a[..], lo, hi)
    ensures forall i, j :: lo <= i < j <= hi ==> comp(a[i], a[j]) <= 0
  {
    hide Rearranged;
    RearrangedSame(a[..], lo, hi);
    var h := hi;
    while h > lo
      invariant lo <= h <= hi
      invariant Rearranged(old(a[..]), a[..], lo, hi)
      invariant forall i, j :: lo <= i <= j <= hi && h < j ==> comp(a[i], a[j]) <= 0
    {
      var max := Largest(a, comp, lo, h);
      ghost var was := a[..];
      Swap(a, max, h);
      RearrangedSwap(old(a[..]), was, a[..], lo, hi, max, h);
      h := h - 1;
    }
  }

  lemma RearrangedSame<T(!new)>(s: seq<T>, lo: nat, hi: nat)
    requires hi < |s|
    ensures Rearranged(s, s, lo, hi)
  {
  }

  lemma RearrangedSwap<T(!new)>(s: seq<T>, t: seq<T>, u: seq<T>, lo: nat, hi: nat, p: nat, q: nat)
    requires Rearranged(s, t, lo, hi) && lo <= p <= hi && lo <= q <= hi && |u| == |t| && multiset(u) == multiset(t)
    requires forall i :: 0 <= i < |u| && i != p && i != q ==> u[i] == t[i]
    ensures Rearranged(s, u, lo, hi)
  {
  }

  lemma Flip<T(!new)>(comp: (T, T) -> int, x: T, y: T)
    requires TotalPreorder(comp)
    ensures comp(x, x) == 0
    ensures comp(x, y) >= 0 <==> comp(y, x) <= 0
  {
  }

  lemma PivotInPlace<T(!new)>(comp: (T, T) -> int, s: seq<T>, t: seq<T>, lo: nat, hi: nat, higuy: nat, loguy: nat)
    requires TotalPreorder(comp) && lo <= higuy < loguy <= hi + 1 <= |s| == |t|
    requires forall i :: lo <= i < loguy ==> comp(s[i], s[lo]) <= 0
    requires forall i :: higuy < i <= hi ==> comp(s[i], s[lo]) >= 0
    requires t[lo] == s[higuy] && t[higuy] == s[lo]
    requires forall i :: 0 <= i < |s| && i != lo && i != higuy ==> t[i] == s[i]
    ensures Divided(comp, t, lo, hi, higuy, loguy)
  {
    forall i | higuy < i <= hi ensures comp(s[lo], t[i]) <= 0 {
      Flip(comp, s[i], s[lo]);
    }
  }

  /** The next position after `from` whose element is greater than the pivot at `lo`. */
  method ScanUp<T(!new)>(a: array<T>, comp: (T, T) -> int, lo: nat, hi: nat, from: nat) returns (loguy: nat)
    requires lo <= from <= hi < a.Length
    ensures from < loguy <= hi + 1
    ensures forall i :: from < i < loguy ==> comp(a[i], a[lo]) <= 0
    ensures loguy <= hi ==> comp(a[loguy], a[lo]) > 0
  {
    loguy := from + 1;
    while loguy <= hi && comp(a[loguy], a[lo]) <= 0
      invariant from < loguy <= hi + 1
      invariant forall i :: from < i < loguy ==> comp(a[i], a[lo]) <= 0
    {
      loguy := loguy + 1;
    }
  }

  /** The next position before `from` whose element is smaller than the pivot at `lo`, or `lo`. */
  method ScanDown<T(!new)>(a: array<T>, comp: (T, T) -> int, lo: nat, hi: nat, from: nat) returns (higuy: nat)
    requires lo < from <= hi + 1 <= a.Length
    ensures lo <= higuy < from
    ensures forall i :: higuy < i < from ==> comp(a[i], a[lo]) >= 0
    ensures lo < higuy ==> comp(a[higuy], a[lo]) < 0
  {
    higuy := from - 1;
    while higuy > lo && comp(a[higuy], a[lo]) >= 0
      invariant lo <= higuy < from
      invariant forall i :: higuy < i < from ==> comp(a[i], a[lo]) >= 0
    {
      higuy := higuy - 1;
    }
  }

  /** Moves greater elements up and smaller ones down until the two scans cross. */
  method Cross<T(!new)>(a: array<T>, comp: (T, T) -> int, lo: nat, hi: nat) returns (higuy: nat, loguy: nat)
    requires TotalPreorder(comp) && lo < hi < a.Length
    modifies a
    ensures Rearranged(old(a[..]), a[..], lo, hi)
    ensures lo <= higuy < loguy <= hi + 1 && a[lo] == old(a[lo])
    ensures forall i :: lo <= i < loguy ==> comp(a[i], a[lo]) <= 0
    ensures forall i :: higuy < i <= hi ==> comp(a[i], a[lo]) >= 0
  {
    hide Rearranged, TotalPreorder;
    RearrangedSame(a[..], lo, hi);
    Flip(comp, a[lo], a[lo]);
    loguy := lo;
    higuy := hi + 1;
    while true
      invariant lo <= loguy < hi && lo < higuy <= hi + 1 && loguy < higuy
      invariant Rearranged(old(a[..]), a[..], lo, hi)
      invariant a[lo] == old(a[lo])
      invariant forall i :: lo <= i <= loguy ==> comp(a[i], a[lo]) <= 0
      invariant forall i :: higuy <= i <= hi ==> comp(a[i], a[lo]) >= 0
      decreases higuy - loguy
    {
      loguy := ScanUp(a, comp, lo, hi, loguy);
      higuy := ScanDown(a, comp, lo, hi, higuy);
      if higuy < loguy {
        break;
      }
      ghost var was := a[..];
      Swap(a, loguy, higuy);
      RearrangedSwap(old(a[..]), was, a[..], lo, hi, loguy, higuy);
    }
  }

  /** Divides a block around the element in its middle. */
  method Partition<T(!new)>(a: array<T>, comp: (T, T) -> int, lo: nat, hi: nat) returns (higuy: nat, loguy: nat)
    requires TotalPreorder(comp) && lo + CUTOFF <= hi < a.Length
    modifies a
    ensures Rearranged(old(a[..]), a[..], lo, hi)
    ensures Divided(comp, a[..], lo, hi, higuy, loguy)
  {
    hide TotalPreorder, Divided;
    var size := hi - lo + 1;
    var mid := lo + size / 2;
    Swap(a, mid, lo);
    higuy, loguy := Cross(a, comp, lo, hi);
    ghost var was := a[..];
    Swap(a, lo, higuy);
    PivotInPlace(comp, was, a[..], lo, hi, higuy, loguy);
  }

  /** Half way through sorting `from`: the array is `s`, and the blocks of `todo` are pending. */
  ghost predicate InProgress<T(!new)>(comp: (T, T) -> int, from: seq<T>, s: seq<T>, tag: seq<nat>, todo: seq<Block>) {
    && multiset(s) == multiset(from) && |s| == |from|
    && Partitioned(comp, s, tag) && Pending(tag, todo) && Halving(todo, |s|)
  }

  lemma Start<T(!new)>(comp: (T, T) -> int, s: seq<T>, tag: seq<nat>)
    requires |s| == |tag| > 0 && forall i :: 0 <= i < |tag| ==> tag[i] == 0
    ensures InProgress(comp, s, s, tag, [Block(0, |s| - 1)])
  {
    var todo := [Block(0, |s| - 1)];
    assert Pow2(0) == 1;
    assert todo[0].lo == 0;
    forall i | 0 <= i < |tag| ensures IsPending(tag, todo, i) {
    }
  }

  lemma Finish<T(!new)>(comp: (T, T) -> int, from: seq<T>, s: seq<T>, tag: seq<nat>)
    requires InProgress(comp, from, s, tag, [])
    ensures Sorted(comp, s) && multiset(s) == multiset(from)
  {
    forall i, j | 0 <= i < j < |s| ensures comp(s[i], s[j]) <= 0 {
      assert !IsPending(tag, [], i) && !IsPending(tag, [], j);
    }
  }

  lemma BlockInRange<T(!new)>(comp: (T, T) -> int, from: seq<T>, s: seq<T>, tag: seq<nat>, pending: seq<Block>, b: Block)
    requires InProgress(comp, from, s, tag, pending + [b])
    ensures b.lo <= b.hi < |s| && Size(b) * Pow2(|pending|) <= |s|
  {
    assert (pending + [b])[|pending|] == b;
  }

  lemma DividedStep<T(!new)>(comp: (T, T) -> int, from: seq<T>, s: seq<T>, t: seq<T>, tag: seq<nat>,
                             pending: seq<Block>, b: Block, higuy: nat, loguy: nat)
    requires TotalPreorder(comp) && InProgress(comp, from, s, tag, pending + [b])
    requires Rearranged(s, t, b.lo, b.hi) && Divided(comp, t, b.lo, b.hi, higuy, loguy)
    ensures InProgress(comp, from, t, SplitTags(tag, b.lo, b.hi, higuy, loguy), pending + Parts(b.lo, b.hi, higuy, loguy))
    ensures Work(pending + Parts(b.lo, b.hi, higuy, loguy)) < Work(pending + [b])
  {
    hide Work, Parts, SplitTags, Splits, IsBlock, Pending, BlockOrdered, TotalPreorder;
    DividedOrdered(comp, t, tag, b.lo, b.hi, higuy, loguy);
    SplitPending(tag, pending, b, higuy, loguy);
    SplitHalves(pending, b, higuy, loguy, |s|);
    SplitKeeps(comp, s, t, tag, SplitTags(tag, b.lo, b.hi, higuy, loguy), b);
  }

  lemma SortedStep<T(!new)>(comp: (T, T) -> int, from: seq<T>, s: seq<T>, t: seq<T>, tag: seq<nat>, pending: seq<Block>, b: Block)
    requires InProgress(comp, from, s, tag, pending + [b])
    requires b.lo <= b.hi && Rearranged(s, t, b.lo, b.hi)
    requires forall i, j :: b.lo <= i < j <= b.hi ==> comp(t[i], t[j]) <= 0
    ensures InProgress(comp, from, t, SplitTags(tag, b.lo, b.hi, b.lo, b.hi + 1), pending)
    ensures Work(pending) < Work(pending + [b])
  {
    hide Work, Splits, IsBlock, Pending;
    assert pending + Parts(b.lo, b.hi, b.lo, b.hi + 1) == pending;
    SplitPending(tag, pending, b, b.lo, b.hi + 1);
    SplitHalves(pending, b, b.lo, b.hi + 1, |s|);
    SplitKeeps(comp, s, t, tag, SplitTags(tag, b.lo, b.hi, b.lo, b.hi + 1), b);
  }

  /** The work on a short block, and what is still pending after it. */
  method SortBlock<T(!new)>(a: array<T>, comp: (T, T) -> int, lo: nat, hi: nat, ghost from: seq<T>, ghost tag: seq<nat>, ghost pending: seq<Block>)
    returns (ghost now: seq<nat>)
    requires TotalPreorder(comp) && InProgress(comp, from, a[..], tag, pending + [Block(lo, hi)])
    modifies a
    ensures InProgress(comp, from, a[..], now, pending)
    ensures Work(pending) < Work(pending + [Block(lo, hi)])
  {
    hide TotalPreorder, InProgress, Rearranged, Work, SplitTags;
    ghost var was, b := a[..], Block(lo, hi);
    BlockInRange(comp, from, was, tag, pending, b);
    ShortSort(a, comp, lo, hi);
    SortedStep(comp, from, was, a[..], tag, pending, b);
    now := SplitTags(tag, lo, hi, lo, hi + 1);
  }

  /** ... and on a longer one. */
  method DivideBlock<T(!new)>(a: array<T>, comp: (T, T) -> int, lo: nat, hi: nat, ghost from: seq<T>, ghost tag: seq<nat>, ghost pending: seq<Block>)
    returns (higuy: nat, loguy: nat, ghost now: seq<nat>)
    requires TotalPreorder(comp) && InProgress(comp, from, a[..], tag, pending + [Block(lo, hi)]) && lo + CUTOFF <= hi
    modifies a
    ensures lo <= higuy < loguy <= hi + 1
    ensures InProgress(comp, from, a[..], now, pending + Parts(lo, hi, higuy, loguy))
    ensures Work(pending + Parts(lo, hi, higuy, loguy)) < Work(pending + [Block(lo, hi)])
  {
    hide TotalPreorder, InProgress, Divided, Rearranged, Work, SplitTags, Parts;
    ghost var was, b := a[..], Block(lo, hi);
    BlockInRange(comp, from, was, tag, pending, b);
    higuy, loguy := Partition(a, comp, lo, hi);
    DividedRange(comp, a[..], lo, hi, higuy, loguy);
    DividedStep(comp, from, was, a[..], tag, pending, b, higuy, loguy);
    now := SplitTags(tag, lo, hi, higuy, loguy);
  }

  lemma ShortIsSorted<T(!new)>(comp: (T, T) -> int, s: seq<T>)
    requires |s| < 2
    ensures Sorted(comp, s)
  {
  }

  lemma DividedRange<T(!new)>(comp: (T, T) -> int, s: seq<T>, lo: nat, hi: nat, higuy: nat, loguy: nat)
    requires Divided(comp, s, lo, hi, higuy, loguy)
    ensures lo <= higuy < loguy <= hi + 1
  {
  }

  /** What is pending while `again` says that the block from `lo` to `hi` is being worked on. */
  ghost function Todo(pending: seq<Block>, again: bool, lo: nat, hi: nat): seq<Block> {
    if again then pending + [Block(lo, hi)] else pending
  }

  /** The two arrays hold the ends of the pending blocks. */
  ghost predicate Stacked(lostk: array<nat>, histk: array<nat>, pending: seq<Block>)
    reads lostk, histk
  {
    && lostk.Length == histk.Length == STACK && lostk != histk && |pending| < STACK
    && forall k :: 0 <= k < |pending| ==> pending[k] == Block(lostk[k], histk[k])
  }

  method Push(lostk: array<nat>, histk: array<nat>, stkptr: nat, lo: nat, hi: nat, ghost pending: seq<Block>)
    requires Stacked(lostk, histk, pending) && stkptr == |pending| && stkptr + 1 < STACK
    modifies lostk, histk
    ensures Stacked(lostk, histk, pending + [Block(lo, hi)])
  {
    lostk[stkptr], histk[stkptr] := lo, hi;
  }

  method Pop(lostk: array<nat>, histk: array<nat>, stkptr: nat, ghost pending: seq<Block>) returns (lo: nat, hi: nat)
    requires Stacked(lostk, histk, pending) && stkptr + 1 == |pending|
    ensures Stacked(lostk, histk, pending[..stkptr])
    ensures pending == pending[..stkptr] + [Block(lo, hi)]
  {
    lo, hi := lostk[stkptr], histk[stkptr];
  }

  /** After a partition: the larger part is pushed, the smaller one is to be worked on next. */
  method SaveLarger(lostk: array<nat>, histk: array<nat>, stkptr: nat, lo: nat, hi: nat, higuy: nat, loguy: nat, ghost pending: seq<Block>)
    returns (ptr: nat, again: bool, lo': nat, hi': nat, ghost now: seq<Block>)
    requires Stacked(lostk, histk, pending) && stkptr == |pending| && stkptr + 1 < STACK
    requires lo <= higuy < loguy <= hi + 1
    modifies lostk, histk
    ensures Stacked(lostk, histk, now) && ptr == |now|
    ensures Todo(now, again, lo', hi') == pending + Parts(lo, hi, higuy, loguy)
  {
    hide Stacked;
    ptr, again, lo', hi', now := stkptr, false, lo, hi, pending;
    if higuy - lo > hi - loguy {
      if lo + 1 < higuy {
        Push(lostk, histk, ptr, lo, higuy - 1, now);
        ptr, now := ptr + 1, now + [Block(lo, higuy - 1)];
      }
      if loguy < hi {
        lo', again := loguy, true;
      }
    } else {
      if loguy < hi {
        Push(lostk, histk, ptr, loguy, hi, now);
        ptr, now := ptr + 1, now + [Block(loguy, hi)];
      }
      if lo + 1 < higuy {
        hi', again := higuy - 1, true;
      }
    }
  }

  /** Sorts the array in place: a sorted permutation, and the stack of pending blocks never
      overflows. */
  method Sort<T(!new)>(a: array<T>, comp: (T, T) -> int)
    requires TotalPreorder(comp) && a.Length < 0x1_0000_0000
    modifies a
    ensures Sorted(comp, a[..]) && multiset(a[..]) == multiset(old(a[..]))
  {
    hide Sorted, TotalPreorder, InProgress, Divided, Rearranged, Work, SplitTags, Pow2, Parts;
    if a.Length < 2 {
      ShortIsSorted(comp, a[..]);
      return;
    }
    ghost var before := a[..];
    var lostk, histk := new nat[STACK], new nat[STACK];
    var stkptr: nat := 0;
    var lo: nat, hi: nat := 0, a.Length - 1;
    var again := true;
    ghost var tag: seq<nat> := seq(a.Length, i => 0);
    ghost var pending: seq<Block> := [];
    Start(comp, a[..], tag);
    assert Todo(pending, again, lo, hi) == [Block(0, a.Length - 1)];
    assert Stacked(lostk, histk, pending);
    hide Stacked;
    while again
      invariant stkptr == |pending| && Stacked(lostk, histk, pending)
      invariant InProgress(comp, before, a[..], tag, Todo(pending, again, lo, hi))
      invariant !again ==> pending == []
      decreases Work(Todo(pending, again, lo, hi))
    {
      BlockInRange(comp, before, a[..], tag, pending, Block(lo, hi));
      var size := hi - lo + 1;
      if size <= CUTOFF {
        tag := SortBlock(a, comp, lo, hi, before, tag, pending);
        again := false;
      } else {
        StackFits(size, stkptr, a.Length);
        var higuy, loguy;
        higuy, loguy, tag := DivideBlock(a, comp, lo, hi, before, tag, pending);
        stkptr, again, lo, hi, pending := SaveLarger(lostk, histk, stkptr, lo, hi, higuy, loguy, pending);
      }
      if !again && stkptr > 0 {
        stkptr := stkptr - 1;
        lo, hi := Pop(lostk, histk, stkptr, pending);
        pending := pending[..stkptr];
        again := true;
      }
    }
    Finish(comp, before, a[..], tag);
  }
}

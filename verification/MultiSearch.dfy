/** What a multi-pattern search has to report: a scan of the text position by position. */
module MultiSearch {
  import opened Basics
  import opened PatternOrder
  import Quicksort

  ghost predicate Occurs(p: Pattern, text: seq<Byte>, at: nat) {
    at + |p.bytes| <= |text| && text[at..at + |p.bytes|] == p.bytes
  }

  predicate InWindow(p: Pattern, at: nat) {
    p.offset <= at && at + |p.bytes| <= p.offset + p.depth
  }

  ghost predicate Matches(p: Pattern, text: seq<Byte>, at: nat) {
    Occurs(p, text, at) && InWindow(p, at)
  }

  /** The first pattern from `i` on that matches at a position, or the number of patterns. */
  ghost function FirstFrom(ps: seq<Pattern>, text: seq<Byte>, at: nat, i: nat): (k: nat)
    requires i <= |ps|
    ensures i <= k <= |ps|
    decreases |ps| - i
  {
    if i == |ps| || Matches(ps[i], text, at) then i else FirstFrom(ps, text, at, i + 1)
  }

  /** A call of the callback. */
  datatype Hit = Hit(pattern: Pattern, at: nat)

  /** The calls of a scan from position `at` on, after the calls `calls`: one for each position
      where a pattern matches, for the first such pattern, until the callback answers a negative
      number.  The callback's answer may depend on all the calls so far. */
  ghost function Scan(ps: seq<Pattern>, text: seq<Byte>, at: nat, calls: seq<Hit>, answer: seq<Hit> -> int): seq<Hit>
    requires at <= |text|
    decreases |text| - at
  {
    if at == |text| then calls
    else
      var i := FirstFrom(ps, text, at, 0);
      if i == |ps| then Scan(ps, text, at + 1, calls, answer)
      else
        var now := calls + [Hit(ps[i], at)];
        if answer(now) < 0 then now else Scan(ps, text, at + 1, now, answer)
  }

  lemma {:induction false} FirstIs(ps: seq<Pattern>, text: seq<Byte>, at: nat, i: nat, k: nat)
    requires i <= k <= |ps|
    requires forall j :: i <= j < k ==> !Matches(ps[j], text, at)
    requires k < |ps| ==> Matches(ps[k], text, at)
    ensures FirstFrom(ps, text, at, i) == k
    decreases k - i
  {
    if i < k {
      FirstIs(ps, text, at, i + 1, k);
    }
  }

  lemma {:induction false} FirstMatches(ps: seq<Pattern>, text: seq<Byte>, at: nat, i: nat)
    requires i <= |ps|
    ensures var k := FirstFrom(ps, text, at, i);
            && i <= k <= |ps|
            && (forall j :: i <= j < k ==> !Matches(ps[j], text, at))
            && (k < |ps| ==> Matches(ps[k], text, at))
    decreases |ps| - i
  {
    if i < |ps| && !Matches(ps[i], text, at) {
      FirstMatches(ps, text, at, i + 1);
    }
  }

  /** Positions where nothing matches are passed over. */
  lemma {:induction false} ScanSkips(ps: seq<Pattern>, text: seq<Byte>, at: nat, to: nat, calls: seq<Hit>, answer: seq<Hit> -> int)
    requires at <= to <= |text|
    requires forall q, i :: at <= q < to && 0 <= i < |ps| ==> !Matches(ps[i], text, q)
    ensures Scan(ps, text, at, calls, answer) == Scan(ps, text, to, calls, answer)
    decreases |text| - at
  {
    if at < to {
      FirstIs(ps, text, at, 0, |ps|);
      ScanSkips(ps, text, at + 1, to, calls, answer);
    }
  }

  // ----- What the scan reports -----

  /** A position is reported by a hit list if some hit is at it. */
  ghost predicate Reported(calls: seq<Hit>, at: nat) {
    exists k :: 0 <= k < |calls| && calls[k].at == at
  }

  ghost predicate Ascending(calls: seq<Hit>) {
    forall j, k :: 0 <= j < k < |calls| ==> calls[j].at < calls[k].at
  }

  ghost predicate Ends(calls: seq<Hit>, answer: seq<Hit> -> int) {
    calls != [] && answer(calls) < 0
  }

  /** A hit names a pattern that matches there, and none that matches there is shorter. */
  ghost predicate Shortest(ps: seq<Pattern>, text: seq<Byte>, h: Hit) {
    && h.pattern in ps && Matches(h.pattern, text, h.at)
    && forall p <- ps :: Matches(p, text, h.at) ==> |h.pattern.bytes| <= |p.bytes|
  }

  /** Of two patterns that occur at the same position, the one sorted first is not longer. */
  lemma SortedFirstIsShorter(p: Pattern, q: Pattern, text: seq<Byte>, at: nat)
    requires Occurs(p, text, at) && Occurs(q, text, at) && SortCmp(p, q) <= 0
    ensures |p.bytes| <= |q.bytes|
  {
    if |q.bytes| < |p.bytes| {
      assert q.bytes == p.bytes[..|q.bytes|];
      PrefixComparesLess(p.bytes, q.bytes);
    }
  }

  lemma FirstIsShortest(ps: seq<Pattern>, text: seq<Byte>, at: nat)
    requires Quicksort.Sorted(SortCmp, ps) && FirstFrom(ps, text, at, 0) < |ps|
    ensures Shortest(ps, text, Hit(ps[FirstFrom(ps, text, at, 0)], at))
  {
    hide Occurs;
    FirstMatches(ps, text, at, 0);
    var k := FirstFrom(ps, text, at, 0);
    forall p | p in ps && Matches(p, text, at) ensures |ps[k].bytes| <= |p.bytes| {
      var j :| 0 <= j < |ps| && ps[j] == p;
      assert k <= j;
      if k < j {
        SortedFirstIsShorter(ps[k], ps[j], text, at);
      }
    }
  }

  /** The scan of a sorted array reports, in ascending order and once each, positions where some
      pattern matches, with the shortest pattern that matches there. */
  lemma {:induction false} ScanIsSound(ps: seq<Pattern>, text: seq<Byte>, at: nat, calls: seq<Hit>, answer: seq<Hit> -> int)
    requires Quicksort.Sorted(SortCmp, ps) && at <= |text|
    requires Ascending(calls) && forall h <- calls :: h.at < at && Shortest(ps, text, h)
    ensures var all := Scan(ps, text, at, calls, answer);
            Ascending(all) && forall h <- all :: h.at < |text| && Shortest(ps, text, h)
    decreases |text| - at
  {
    hide Quicksort.Sorted, Shortest, Matches;
    if at < |text| {
      var i := FirstFrom(ps, text, at, 0);
      if i == |ps| {
        ScanIsSound(ps, text, at + 1, calls, answer);
      } else {
        FirstIsShortest(ps, text, at);
        var now := calls + [Hit(ps[i], at)];
        if !(answer(now) < 0) {
          ScanIsSound(ps, text, at + 1, now, answer);
        }
      }
    }
  }

  /** It reports every position where some pattern matches, unless the callback ended it before. */
  lemma {:induction false} ScanIsComplete(ps: seq<Pattern>, text: seq<Byte>, at: nat, calls: seq<Hit>, answer: seq<Hit> -> int, i: nat, q: nat)
    requires i < |ps| && at <= q < |text| && Matches(ps[i], text, q)
    ensures var all := Scan(ps, text, at, calls, answer);
            && calls <= all
            && (Reported(all, q) || (Ends(all, answer) && all[|all| - 1].at < q))
    decreases |text| - at
  {
    hide Matches;
    FirstMatches(ps, text, at, 0);
    var k := FirstFrom(ps, text, at, 0);
    if k == |ps| {
      ScanIsComplete(ps, text, at + 1, calls, answer, i, q);
    } else {
      var now := calls + [Hit(ps[k], at)];
      assert now[|calls|].at == at;
      if !(answer(now) < 0) {
        ScanExtends(ps, text, at + 1, now, answer);
        assert Scan(ps, text, at, calls, answer)[|calls|].at == at;
        if at < q {
          ScanIsComplete(ps, text, at + 1, now, answer, i, q);
        }
      }
    }
  }

  /** The callback answers a negative number to no call but the last. */
  lemma {:induction false} ScanExtends(ps: seq<Pattern>, text: seq<Byte>, at: nat, calls: seq<Hit>, answer: seq<Hit> -> int)
    requires at <= |text|
    ensures var all := Scan(ps, text, at, calls, answer);
            && calls <= all
            && forall k :: |calls| < k < |all| ==> answer(all[..k]) >= 0
    decreases |text| - at
  {
    if at < |text| {
      var i := FirstFrom(ps, text, at, 0);
      if i == |ps| {
        ScanExtends(ps, text, at + 1, calls, answer);
      } else {
        var now := calls + [Hit(ps[i], at)];
        if !(answer(now) < 0) {
          ScanExtends(ps, text, at + 1, now, answer);
          assert Scan(ps, text, at, calls, answer)[..|now|] == now;
        }
      }
    }
  }

  /** Sorting changes which patterns are where, not which there are. */
  lemma SamePatterns(ps: seq<Pattern>, list: seq<Pattern>)
    requires multiset(ps) == multiset(list)
    ensures |ps| == |list| && forall p :: p in ps <==> p in list
  {
    assert |multiset(ps)| == |multiset(list)|;
    forall p ensures p in ps <==> p in list {
      assert p in ps <==> p in multiset(ps);
    }
  }

  /** The scan of the sorted array, in terms of the patterns as they were added: the hits are in
      ascending order, one at most for a position, each with a shortest pattern that matches there;
      and no position with a match is left out unless the callback ended the scan before it. */
  lemma ScanOfList(ps: seq<Pattern>, list: seq<Pattern>, text: seq<Byte>, answer: seq<Hit> -> int)
    requires Quicksort.Sorted(SortCmp, ps) && multiset(ps) == multiset(list)
    ensures var all := Scan(ps, text, 0, [], answer);
            && Ascending(all)
            && (forall h <- all :: h.at < |text| && Shortest(list, text, h))
            && (forall k :: 0 < k < |all| ==> answer(all[..k]) >= 0)
            && (forall p, q: nat :: p in list && q < |text| && Matches(p, text, q) ==>
                  Reported(all, q) || (Ends(all, answer) && all[|all| - 1].at < q))
  {
    hide Quicksort.Sorted, Matches, Scan;
    SamePatterns(ps, list);
    ScanIsSound(ps, text, 0, [], answer);
    ScanExtends(ps, text, 0, [], answer);
    var all := Scan(ps, text, 0, [], answer);
    forall p, q: nat | p in list && q < |text| && Matches(p, text, q)
      ensures Reported(all, q) || (Ends(all, answer) && all[|all| - 1].at < q)
    {
      var i :| 0 <= i < |ps| && ps[i] == p;
      ScanIsComplete(ps, text, 0, [], answer, i, q);
    }
  }
}

/** The multi-pattern search over a sorted pattern array with groups of patterns that share their
    first two bytes, and shifts by the last two bytes of the window (mwm.c). */
module Mwm {
  import opened Basics
  import opened PatternOrder
  import opened MultiSearch
  import Quicksort

  const HASH_TABLE_SIZE := 0x1_0000
  const HASH_EMPTY: Word := 0xFFFF
  const MAX_PAT_LEN := 32000
  const DEFAULT_DEPTH := 32767

  // ----- Tables -----

  ghost predicate Starts(ps: seq<Pattern>, i: nat, w: Word)
    requires i < |ps| && LongEnough(ps)
  {
    Word16(ps[i].bytes, 0) == w
  }

  ghost predicate InGroup(i: nat, index: nat, count: nat) {
    index <= i < index + count
  }

  /** The entry of a word is the first pattern that starts with it, and the count there covers
      exactly the patterns that do; words no pattern starts with have the empty entry. */
  ghost predicate GroupOk(ps: seq<Pattern>, hash: seq<Word>, num: seq<Word>, w: Word)
    requires |hash| == HASH_TABLE_SIZE && |num| == |ps| && LongEnough(ps)
  {
    if hash[w] == HASH_EMPTY then forall i :: 0 <= i < |ps| ==> !Starts(ps, i, w)
    else
      && hash[w] < |ps| && 0 < num[hash[w]] && hash[w] + num[hash[w]] <= |ps|
      && forall i :: 0 <= i < |ps| ==> (Starts(ps, i, w) <==> InGroup(i, hash[w], num[hash[w]]))
  }

  ghost predicate HashOk(ps: seq<Pattern>, hash: seq<Word>, num: seq<Word>) {
    && |hash| == HASH_TABLE_SIZE && |num| == |ps| && LongEnough(ps)
    && forall w: Word :: GroupOk(ps, hash, num, w)
  }

  /** The word at offset `k` of a pattern is `w`, within the part every pattern has. */
  ghost predicate HasWord(ps: seq<Pattern>, m: nat, i: nat, k: nat, w: Word)
    requires i < |ps|
  {
    k + 2 <= m <= |ps[i].bytes| && Word16(ps[i].bytes, k) == w
  }

  /** The shift of a word is its least distance from the end of the first `m` bytes of a pattern,
      or `m - 1` if no pattern has it there. */
  ghost predicate ShiftIs(ps: seq<Pattern>, m: nat, w: Word, shift: nat) {
    && shift < m
    && (forall i, k :: 0 <= i < |ps| && 0 <= k && HasWord(ps, m, i, k, w) ==> shift <= m - 2 - k)
    && (shift < m - 1 ==> exists i, k :: 0 <= i < |ps| && 0 <= k && HasWord(ps, m, i, k, w) && shift == m - 2 - k)
  }

  ghost predicate ShiftOk(ps: seq<Pattern>, m: nat, shift: seq<Byte>) {
    && |shift| == HASH_TABLE_SIZE && 2 <= m <= 255
    && (forall p <- ps :: m <= |p.bytes|)
    && (forall w: Word :: ShiftIs(ps, m, w, shift[w]))
  }

  // ----- No shift skips an occurrence -----

  /** If the last word of the window at `at` has shift `s`, nothing occurs at the next `s` positions. */
  lemma ShiftIsSafe(ps: seq<Pattern>, m: nat, shift: seq<Byte>, text: seq<Byte>, at: nat, q: nat, i: nat)
    requires ShiftOk(ps, m, shift) && at + m <= |text| && i < |ps|
    requires at <= q < at + shift[Word16(text, at + m - 2)]
    ensures !Occurs(ps[i], text, q)
  {
    var w := Word16(text, at + m - 2);
    assert ShiftIs(ps, m, w, shift[w]);
    OccurrenceHasWord(ps, m, text, at, q, i);
  }

  lemma OccurrenceHasWord(ps: seq<Pattern>, m: nat, text: seq<Byte>, at: nat, q: nat, i: nat)
    requires i < |ps| && 2 <= m <= |ps[i].bytes| && at + m <= |text| && at <= q <= at + m - 2
    ensures Occurs(ps[i], text, q) ==> HasWord(ps, m, i, m - 2 - (q - at), Word16(text, at + m - 2))
  {
    if Occurs(ps[i], text, q) {
      var p, k := ps[i].bytes, m - 2 - (q - at);
      assert p[k] == text[q..q + |p|][k] && p[k + 1] == text[q..q + |p|][k + 1];
    }
  }

  /** A pattern that occurs starts with the word at that position. */
  lemma OccurrenceStarts(ps: seq<Pattern>, text: seq<Byte>, at: nat, i: nat)
    requires LongEnough(ps) && i < |ps| && at + 2 <= |text|
    ensures Occurs(ps[i], text, at) ==> Starts(ps, i, Word16(text, at))
  {
    if Occurs(ps[i], text, at) {
      var p := ps[i].bytes;
      assert p[0] == text[at..at + |p|][0] && p[1] == text[at..at + |p|][1];
    }
  }

  lemma MatchStarts(ps: seq<Pattern>, text: seq<Byte>, at: nat, i: nat)
    requires LongEnough(ps) && i < |ps| && at + 2 <= |text|
    ensures Matches(ps[i], text, at) ==> Starts(ps, i, Word16(text, at))
    ensures Matches(ps[i], text, at) <==> Occurs(ps[i], text, at) && InWindow(ps[i], at)
  {
    OccurrenceStarts(ps, text, at, i);
  }

  /** Past the last window nothing occurs. */
  lemma WindowPastEnd(ps: seq<Pattern>, m: nat, text: seq<Byte>, at: nat, q: nat, i: nat)
    requires i < |ps| && m <= |ps[i].bytes| && |text| < at + m && at <= q
    ensures !Occurs(ps[i], text, q)
  {
  }

  lemma Window(text: seq<Byte>, p: Pattern, at: nat)
    requires at + |p.bytes| <= |text|
    ensures Occurs(p, text, at) <==> forall k :: 0 <= k < |p.bytes| ==> p.bytes[k] == text[at + k]
  {
    var s := text[at..at + |p.bytes|];
    assert forall k :: 0 <= k < |p.bytes| ==> s[k] == text[at + k];
  }

  // ----- The search -----

  function Sign(n: int): int {
    if n < 0 then -1 else if n > 0 then 1 else 0
  }

  /** The reverse comparison of everything behind the first two bytes. */
  method SameTail(p: Pattern, text: seq<Byte>, at: nat) returns (same: bool)
    requires |p.bytes| >= 2 && at + |p.bytes| <= |text|
    ensures same <==> forall j :: 2 <= j < |p.bytes| ==> p.bytes[j] == text[at + j]
  {
    var k := |p.bytes| - 2 - 1;
    while k >= 0 && p.bytes[2 + k] == text[at + 2 + k]
      invariant -1 <= k <= |p.bytes| - 3
      invariant forall j :: 2 + k < j < |p.bytes| ==> p.bytes[j] == text[at + j]
    {
      k := k - 1;
    }
    same := k < 0;
  }

  lemma TailDecides(ps: seq<Pattern>, i: nat, text: seq<Byte>, at: nat)
    requires LongEnough(ps) && i < |ps| && at + |ps[i].bytes| <= |text| && Starts(ps, i, Word16(text, at))
    ensures Occurs(ps[i], text, at) <==> forall j :: 2 <= j < |ps[i].bytes| ==> ps[i].bytes[j] == text[at + j]
  {
    var p := ps[i].bytes;
    WordIsTwoBytes(p, 0, text, at);
    Window(text, ps[i], at);
  }

  /** Tries the patterns of one group at one position: calls back for the first that matches.  The
      sign of `found` is that of the callback's answer. */
  method GroupMatch(ps: seq<Pattern>, num: seq<Word>, index: nat, text: seq<Byte>, at: nat, calls: seq<Hit>, answer: seq<Hit> -> int)
    returns (found: int, now: seq<Hit>)
    requires LongEnough(ps) && |num| == |ps| && at + 2 <= |text|
    requires index < |ps| && index + num[index] <= |ps|
    requires forall i :: 0 <= i < |ps| ==> (Starts(ps, i, Word16(text, at)) <==> InGroup(i, index, num[index]))
    ensures var k := FirstFrom(ps, text, at, 0);
            if k == |ps| then found == 0 && now == calls
            else now == calls + [Hit(ps[k], at)] && found == Sign(answer(now))
  {
    hide Matches, Starts;
    found, now := 0, calls;
    forall i | 0 <= i < |ps|
      ensures Matches(ps[i], text, at) ==> InGroup(i, index, num[index])
      ensures Matches(ps[i], text, at) <==> Occurs(ps[i], text, at) && InWindow(ps[i], at)
    {
      MatchStarts(ps, text, at, i);
    }
    var patrn := index;
    while patrn < index + num[index]
      invariant index <= patrn <= index + num[index]
      invariant forall i :: 0 <= i < patrn ==> !Matches(ps[i], text, at)
    {
      var p := ps[patrn];
      if |p.bytes| <= |text| - at && InWindow(p, at) {
        var same := SameTail(p, text, at);
        TailDecides(ps, patrn, text, at);
        assert same == Occurs(p, text, at);
        if same {
          FirstIs(ps, text, at, 0, patrn);
          now := calls + [Hit(p, at)];
          found := Sign(answer(now));
          return;
        }
      }
      patrn := patrn + 1;
    }
    FirstIs(ps, text, at, 0, |ps|);
  }

  /** Nothing matches from `at` on, so the scan is over. */
  lemma ScanIsOver(ps: seq<Pattern>, m: nat, text: seq<Byte>, at: nat, calls: seq<Hit>, answer: seq<Hit> -> int)
    requires (forall p <- ps :: m <= |p.bytes|) && at <= |text| < at + m
    ensures Scan(ps, text, at, calls, answer) == calls
  {
    forall q, i | at <= q < |text| && 0 <= i < |ps| ensures !Matches(ps[i], text, q) {
      WindowPastEnd(ps, m, text, at, q, i);
    }
    ScanSkips(ps, text, at, |text|, calls, answer);
  }

  lemma ScanShifts(ps: seq<Pattern>, m: nat, shift: seq<Byte>, text: seq<Byte>, at: nat, calls: seq<Hit>, answer: seq<Hit> -> int)
    requires ShiftOk(ps, m, shift) && at + m <= |text|
    ensures var s := shift[Word16(text, at + m - 2)];
            && s < m
            && Scan(ps, text, at + s, calls, answer) == Scan(ps, text, at, calls, answer)
  {
    var w := Word16(text, at + m - 2);
    assert ShiftIs(ps, m, w, shift[w]);
    forall q, i | at <= q < at + shift[w] && 0 <= i < |ps| ensures !Matches(ps[i], text, q) {
      ShiftIsSafe(ps, m, shift, text, at, q, i);
    }
    ScanSkips(ps, text, at, at + shift[w], calls, answer);
  }

  lemma ScanNoGroup(ps: seq<Pattern>, text: seq<Byte>, at: nat, calls: seq<Hit>, answer: seq<Hit> -> int)
    requires LongEnough(ps) && at + 2 <= |text|
    requires forall i :: 0 <= i < |ps| ==> !Starts(ps, i, Word16(text, at))
    ensures Scan(ps, text, at + 1, calls, answer) == Scan(ps, text, at, calls, answer)
  {
    forall q, i | at <= q < at + 1 && 0 <= i < |ps| ensures !Matches(ps[i], text, q) {
      MatchStarts(ps, text, at, i);
    }
    ScanSkips(ps, text, at, at + 1, calls, answer);
  }

  lemma ScanUnfolds(ps: seq<Pattern>, text: seq<Byte>, at: nat, calls: seq<Hit>, answer: seq<Hit> -> int)
    requires at < |text|
    ensures var k := FirstFrom(ps, text, at, 0);
            Scan(ps, text, at, calls, answer)
            == if k == |ps| then Scan(ps, text, at + 1, calls, answer)
               else
                 var now := calls + [Hit(ps[k], at)];
                 if answer(now) < 0 then now else Scan(ps, text, at + 1, now, answer)
  {
  }

  /** No pattern starts with the word at a position. */
  ghost predicate NoGroup(ps: seq<Pattern>, text: seq<Byte>, at: nat)
    requires LongEnough(ps) && at + 2 <= |text|
  {
    forall i :: 0 <= i < |ps| ==> !Starts(ps, i, Word16(text, at))
  }

  /** The number a search from `at` on returns, when the group tried before gave `found`: the result
      of the last group tried, and 1 if the callback ends the search.  The positions tried are those
      the shifts lead to. */
  ghost function Result(ps: seq<Pattern>, m: nat, shift: seq<Byte>, text: seq<Byte>, at: nat, found: int,
                        calls: seq<Hit>, answer: seq<Hit> -> int): int
    requires LongEnough(ps) && |shift| == HASH_TABLE_SIZE && 2 <= m
    decreases |text| - at
  {
    if |text| < at + m then found
    else
      var s := shift[Word16(text, at + m - 2)];
      if s > 0 then Result(ps, m, shift, text, at + s, found, calls, answer)
      else if NoGroup(ps, text, at) then Result(ps, m, shift, text, at + 1, found, calls, answer)
      else
        var k := FirstFrom(ps, text, at, 0);
        if k == |ps| then Result(ps, m, shift, text, at + 1, 0, calls, answer)
        else
          var now := calls + [Hit(ps[k], at)];
          if answer(now) < 0 then 1 else Result(ps, m, shift, text, at + 1, Sign(answer(now)), now, answer)
  }

  lemma ResultIsOver(ps: seq<Pattern>, m: nat, shift: seq<Byte>, text: seq<Byte>, at: nat, found: int, calls: seq<Hit>, answer: seq<Hit> -> int)
    requires LongEnough(ps) && |shift| == HASH_TABLE_SIZE && 2 <= m && |text| < at + m
    ensures Result(ps, m, shift, text, at, found, calls, answer) == found
  {
  }

  lemma ResultShifts(ps: seq<Pattern>, m: nat, shift: seq<Byte>, text: seq<Byte>, at: nat, found: int, calls: seq<Hit>, answer: seq<Hit> -> int)
    requires LongEnough(ps) && |shift| == HASH_TABLE_SIZE && 2 <= m && at + m <= |text|
    ensures var s := shift[Word16(text, at + m - 2)];
            Result(ps, m, shift, text, at, found, calls, answer) == Result(ps, m, shift, text, at + s, found, calls, answer)
  {
  }

  lemma ResultTries(ps: seq<Pattern>, m: nat, shift: seq<Byte>, text: seq<Byte>, at: nat, found: int, calls: seq<Hit>, answer: seq<Hit> -> int)
    requires LongEnough(ps) && |shift| == HASH_TABLE_SIZE && 2 <= m && at + m <= |text| && shift[Word16(text, at + m - 2)] == 0
    ensures var k := FirstFrom(ps, text, at, 0);
            Result(ps, m, shift, text, at, found, calls, answer)
            == if NoGroup(ps, text, at) then Result(ps, m, shift, text, at + 1, found, calls, answer)
               else if k == |ps| then Result(ps, m, shift, text, at + 1, 0, calls, answer)
               else
                 var now := calls + [Hit(ps[k], at)];
                 if answer(now) < 0 then 1 else Result(ps, m, shift, text, at + 1, Sign(answer(now)), now, answer)
  {
  }

  // ----- Building the tables -----

  ghost predicate PrefixSorted(ps: seq<Pattern>) {
    && LongEnough(ps)
    && forall i, j :: 0 <= i <= j < |ps| ==> Word16(ps[i].bytes, 0) <= Word16(ps[j].bytes, 0)
  }

  /** The groups of the first `n` patterns are entered, and the pattern at `n`, if there is one,
      starts a new group. */
  ghost predicate GroupsUpTo(ps: seq<Pattern>, hash: seq<Word>, num: seq<Word>, n: nat, w: Word)
    requires |hash| == HASH_TABLE_SIZE && |num| == |ps| && LongEnough(ps) && n <= |ps|
  {
    if hash[w] == HASH_EMPTY then forall i :: 0 <= i < n ==> !Starts(ps, i, w)
    else
      && hash[w] < n && 0 < num[hash[w]] && hash[w] + num[hash[w]] <= n
      && forall i :: 0 <= i < |ps| ==> (Starts(ps, i, w) <==> InGroup(i, hash[w], num[hash[w]]))
  }

  /** mwmPrepHashedPatternGroupsW */
  method PrepGroups(ps: array<Pattern>, hash: array<Word>, num: array<Word>)
    requires PrefixSorted(ps[..]) && ps.Length <= 0xFFFF
    requires hash.Length == HASH_TABLE_SIZE && num.Length == ps.Length && hash != num
    modifies hash, num
    ensures HashOk(ps[..], hash[..], num[..])
  {
    hide PrefixSorted, GroupsUpTo, HashOk;
    var k := 0;
    while k < HASH_TABLE_SIZE
      invariant 0 <= k <= HASH_TABLE_SIZE
      invariant forall j :: 0 <= j < k ==> hash[j] == HASH_EMPTY
    {
      hash[k] := HASH_EMPTY;
      k := k + 1;
    }
    PrefixLong(ps[..]);
    NoGroups(ps[..], hash[..], num[..]);
    var i: nat := 0;
    while i < ps.Length
      invariant i <= ps.Length
      invariant NewGroup(ps[..], i)
      invariant forall w: Word :: GroupsUpTo(ps[..], hash[..], num[..], i, w)
    {
      var hindex := Word16(ps[i].bytes, 0);
      ghost var hash0, num0 := hash[..], num[..];
      var sindex: Word := i;
      hash[hindex] := sindex;
      var ningroup: Word := 1;
      i := i + 1;
      while i < ps.Length && Word16(ps[i].bytes, 0) == hindex
        invariant sindex < i <= ps.Length && ningroup == i - sindex
        invariant forall j :: sindex <= j < i ==> Word16(ps[j].bytes, 0) == hindex
      {
        ningroup := ningroup + 1;
        i := i + 1;
      }
      num[sindex] := ningroup;
      assert hash[..] == hash0[hindex := sindex] && num[..] == num0[sindex := ningroup];
      ghost var P := ps[..];
      assert forall j :: sindex <= j < i ==> Word16(P[j].bytes, 0) == hindex;
      forall w: Word ensures GroupsUpTo(P, hash[..], num[..], i, w) {
        GroupAdded(P, hash0, num0, sindex, i, ningroup, w);
      }
      GroupEnds(P, sindex, i);
    }
    GroupsComplete(ps[..], hash[..], num[..]);
  }

  /** The patterns before `i` have smaller first words than the one at `i`. */
  ghost predicate NewGroup(ps: seq<Pattern>, i: nat)
    requires LongEnough(ps)
  {
    forall j :: 0 <= j < i < |ps| ==> Word16(ps[j].bytes, 0) < Word16(ps[i].bytes, 0)
  }

  lemma PrefixLong(ps: seq<Pattern>)
    requires PrefixSorted(ps)
    ensures LongEnough(ps)
  {
  }

  lemma NoGroups(ps: seq<Pattern>, hash: seq<Word>, num: seq<Word>)
    requires |hash| == HASH_TABLE_SIZE && |num| == |ps| && LongEnough(ps)
    requires forall j :: 0 <= j < |hash| ==> hash[j] == HASH_EMPTY
    ensures forall w: Word :: GroupsUpTo(ps, hash, num, 0, w)
  {
  }

  lemma GroupsComplete(ps: seq<Pattern>, hash: seq<Word>, num: seq<Word>)
    requires |hash| == HASH_TABLE_SIZE && |num| == |ps| && LongEnough(ps)
    requires forall w: Word :: GroupsUpTo(ps, hash, num, |ps|, w)
    ensures HashOk(ps, hash, num)
  {
    forall w: Word ensures GroupOk(ps, hash, num, w) {
      assert GroupsUpTo(ps, hash, num, |ps|, w);
    }
  }

  lemma GroupEnds(ps: seq<Pattern>, s: nat, e: nat)
    requires PrefixSorted(ps) && s < e <= |ps|
    requires forall j :: s <= j < e ==> Word16(ps[j].bytes, 0) == Word16(ps[s].bytes, 0)
    requires e < |ps| ==> Word16(ps[e].bytes, 0) != Word16(ps[s].bytes, 0)
    ensures NewGroup(ps, e)
    ensures forall j :: e <= j < |ps| ==> Word16(ps[s].bytes, 0) < Word16(ps[j].bytes, 0)
  {
    if e < |ps| {
      assert Word16(ps[s].bytes, 0) < Word16(ps[e].bytes, 0);
    }
  }

  lemma GroupAdded(ps: seq<Pattern>, hash: seq<Word>, num: seq<Word>, s: Word, e: nat, count: Word, w: Word)
    requires count == e - s && PrefixSorted(ps) && |hash| == HASH_TABLE_SIZE && |num| == |ps| && s < e <= |ps| <= 0xFFFF
    requires GroupsUpTo(ps, hash, num, s, w) && NewGroup(ps, s)
    requires forall j :: s <= j < e ==> Word16(ps[j].bytes, 0) == Word16(ps[s].bytes, 0)
    requires e < |ps| ==> Word16(ps[e].bytes, 0) != Word16(ps[s].bytes, 0)
    ensures GroupsUpTo(ps, hash[Word16(ps[s].bytes, 0) := s], num[s := count], e, w)
  {
    GroupEnds(ps, s, e);
  }

  /** The words of the patterns before `row`, and those before `col` in the pattern at `row`. */
  ghost predicate Visited(i: nat, k: nat, row: nat, col: nat) {
    i < row || (i == row && k < col)
  }

  ghost predicate ShiftSoFar(ps: seq<Pattern>, m: nat, w: Word, shift: nat, row: nat, col: nat) {
    && shift < m
    && (forall i, k :: 0 <= i < |ps| && 0 <= k && Visited(i, k, row, col) && HasWord(ps, m, i, k, w) ==> shift <= m - 2 - k)
    && (shift < m - 1 ==> exists i, k :: 0 <= i < |ps| && 0 <= k && HasWord(ps, m, i, k, w) && shift == m - 2 - k)
  }

  lemma ShiftStep(ps: seq<Pattern>, m: nat, w: Word, shift: nat, row: nat, col: nat)
    requires row < |ps| && col + 2 <= m <= |ps[row].bytes| && ShiftSoFar(ps, m, w, shift, row, col)
    ensures Word16(ps[row].bytes, col) == w && m - 2 - col < shift ==> ShiftSoFar(ps, m, w, m - 2 - col, row, col + 1)
    ensures !(Word16(ps[row].bytes, col) == w && m - 2 - col < shift) ==> ShiftSoFar(ps, m, w, shift, row, col + 1)
  {
    assert Word16(ps[row].bytes, col) == w ==> HasWord(ps, m, row, col, w);
  }

  lemma ShiftRowEnds(ps: seq<Pattern>, m: nat, w: Word, shift: nat, row: nat)
    requires m >= 1 && ShiftSoFar(ps, m, w, shift, row, m - 1)
    ensures ShiftSoFar(ps, m, w, shift, row + 1, 0)
  {
  }

  lemma ShiftStarts(ps: seq<Pattern>, m: nat, w: Word)
    requires m >= 1
    ensures ShiftSoFar(ps, m, w, m - 1, 0, 0)
  {
  }

  lemma ShiftComplete(ps: seq<Pattern>, m: nat, shift: seq<Byte>)
    requires |shift| == HASH_TABLE_SIZE && 2 <= m <= 255 && forall p <- ps :: m <= |p.bytes|
    requires forall w: Word :: ShiftSoFar(ps, m, w, shift[w], |ps|, 0)
    ensures ShiftOk(ps, m, shift)
  {
    forall w: Word ensures ShiftIs(ps, m, w, shift[w]) {
      assert ShiftSoFar(ps, m, w, shift[w], |ps|, 0);
    }
  }

  /** The length of the shortest pattern, no more than 255. */
  method WindowLength(ps: array<Pattern>) returns (m: nat)
    requires LongEnough(ps[..])
    ensures 2 <= m <= 255 && forall i :: 0 <= i < ps.Length ==> m <= |ps[i].bytes|
    ensures m == 255 || exists i :: 0 <= i < ps.Length && m == |ps[i].bytes|
  {
    var small := MAX_PAT_LEN;
    var i := 0;
    while i < ps.Length
      invariant 0 <= i <= ps.Length
      invariant 2 <= small <= MAX_PAT_LEN && forall j :: 0 <= j < i ==> small <= |ps[j].bytes|
      invariant small == MAX_PAT_LEN || exists j :: 0 <= j < i && small == |ps[j].bytes|
    {
      assert ps[i] in ps[..];
      if |ps[i].bytes| < small {
        small := |ps[i].bytes|;
      }
      i := i + 1;
    }
    m := small;
    if m > 255 {
      m := 255;
    }
  }

  /** mwmPrepBadWordTable */
  method PrepShifts(ps: array<Pattern>, shift: array<Byte>) returns (m: nat)
    requires LongEnough(ps[..]) && shift.Length == HASH_TABLE_SIZE
    modifies shift
    ensures ShiftOk(ps[..], m, shift[..])
  {
    hide ShiftSoFar, ShiftOk, LongEnough;
    m := WindowLength(ps);
    var j := 0;
    while j < HASH_TABLE_SIZE
      invariant 0 <= j <= HASH_TABLE_SIZE
      invariant forall w :: 0 <= w < j ==> shift[w] == m - 1
    {
      shift[j] := m - 1;
      j := j + 1;
    }
    ghost var P := ps[..];
    forall w: Word ensures ShiftSoFar(P, m, w, shift[w], 0, 0) {
      ShiftStarts(P, m, w);
    }
    var i := 0;
    while i < ps.Length
      invariant 0 <= i <= ps.Length
      invariant forall w: Word :: ShiftSoFar(P, m, w, shift[w], i, 0)
    {
      var k := 0;
      while k < m - 1
        invariant 0 <= k <= m - 1
        invariant forall w: Word :: ShiftSoFar(P, m, w, shift[w], i, k)
      {
        var s := m - 2 - k;
        var cindex := Word16(ps[i].bytes, k);
        forall w: Word ensures ShiftSoFar(P, m, w, if cindex == w && s < shift[w] then s else shift[w], i, k + 1) {
          ShiftStep(P, m, w, shift[w], i, k);
        }
        if s < shift[cindex] {
          shift[cindex] := s;
        }
        k := k + 1;
      }
      forall w: Word ensures ShiftSoFar(P, m, w, shift[w], i + 1, 0) {
        ShiftRowEnds(P, m, w, shift[w], i);
      }
      i := i + 1;
    }
    ShiftComplete(P, m, shift[..]);
  }

  /** The number a search returns: 1 if the callback ended the search; otherwise at most 1, and 1
      only if the last call was answered with a positive number. */
  ghost predicate ResultOk(found: int, calls: seq<Hit>, answer: seq<Hit> -> int) {
    && 0 <= found <= 1
    && (Ends(calls, answer) ==> found == 1)
    && (found == 1 ==> calls != [] && answer(calls) != 0)
  }

  lemma SortedPrefixes(ps: seq<Pattern>, list: seq<Pattern>)
    requires Quicksort.Sorted(SortCmp, ps) && multiset(ps) == multiset(list) && LongEnough(list)
    ensures LongEnough(ps) && PrefixSorted(ps) && |ps| == |list|
  {
    hide Quicksort.Sorted;
    SamePatterns(ps, list);
    forall i, j | 0 <= i <= j < |ps| ensures Word16(ps[i].bytes, 0) <= Word16(ps[j].bytes, 0) {
      GroupsAreContiguous(ps, i, i, j);
      GroupsAreContiguous(ps, i, j, j);
    }
  }

  class Patterns {
    var list: seq<Pattern>
    var patArray: array<Pattern>
    var numArray: array<Word>
    var hash: array<Word>
    var shift2: array<Byte>
    var shiftLen: nat

    /** The tables suit the pattern array. */
    ghost predicate Ready()
      reads this, patArray, numArray, hash, shift2
    {
      && HashOk(patArray[..], hash[..], numArray[..])
      && ShiftOk(patArray[..], shiftLen, shift2[..])
    }

    /** The list holds what Add lets in. */
    ghost predicate Valid()
      reads this
    {
      |list| <= 0xFFFF && LongEnough(list)
    }

    constructor ()
      ensures Valid() && list == []
    {
      list := [];
      patArray := new Pattern[0];
      numArray := new Word[0];
      hash := new Word[0];
      shift2 := new Byte[0];
      shiftLen := 0;
    }

    /** mwmAddPattern: 1 if the pattern is added at the end, 0 if it is already there and had to be
        new, a negative number if it is refused. */
    method Add(bytes: seq<Byte>, offset: int, depth: int, data: nat, unique: bool) returns (result: int)
      requires Valid()
      modifies this`list
      ensures Valid()
      ensures result == -2 <==> |bytes| < 2
      ensures result == -1 <==> |bytes| >= 2 && |old(list)| >= 0xFFFF
      ensures result == 0 <==> |bytes| >= 2 && |old(list)| < 0xFFFF && unique && exists p <- old(list) :: p.bytes == bytes
      ensures -2 <= result <= 1
      ensures list == if result == 1 then old(list) + [Pattern(bytes, offset, if depth != 0 then depth else DEFAULT_DEPTH, data)]
                      else old(list)
    {
      if |bytes| < 2 {
        return -2;
      }
      if !(|list| < HASH_TABLE_SIZE - 1) {
        return -1;
      }
      if unique {
        var i := 0;
        while i < |list|
          invariant 0 <= i <= |list|
          invariant list == old(list) && forall j :: 0 <= j < i ==> list[j].bytes != bytes
        {
          if |list[i].bytes| == |bytes| {
            CompareEqual(bytes, list[i].bytes);
            if MemCmp(bytes, list[i].bytes, |bytes|) == 0 {
              return 0;
            }
          }
          i := i + 1;
        }
      }
      list := list + [Pattern(bytes, offset, if depth != 0 then depth else DEFAULT_DEPTH, data)];
      result := 1;
    }

    /** mwmPrepPatterns, for five patterns or more: sorts the patterns and builds the tables. */
    method Prepare()
      requires Valid()
      modifies this`patArray, this`numArray, this`hash, this`shift2, this`shiftLen
      ensures Valid() && Ready()
      ensures Quicksort.Sorted(SortCmp, patArray[..]) && multiset(patArray[..]) == multiset(list)
    {
      hide HashOk, ShiftOk, Quicksort.Sorted, Quicksort.TotalPreorder, PrefixSorted;
      var src, n := list, |list|;
      var ps := new Pattern[n](i requires 0 <= i < |src| => src[i]);
      assert ps[..] == list;
      SortCmpOrders();
      Quicksort.Sort(ps, SortCmp);
      SortedPrefixes(ps[..], list);
      var num, h, s := new Word[n], new Word[HASH_TABLE_SIZE], new Byte[HASH_TABLE_SIZE];
      PrepGroups(ps, h, num);
      shiftLen := PrepShifts(ps, s);
      patArray, numArray, hash, shift2 := ps, num, h, s;
    }

    /** mwmSearchExBW: makes the calls of the scan. */
    method Search(text: seq<Byte>, answer: seq<Hit> -> int) returns (found: int, calls: seq<Hit>)
      requires Ready()
      ensures calls == Scan(patArray[..], text, 0, [], answer)
      ensures LongEnough(patArray[..]) && shift2.Length == HASH_TABLE_SIZE && 2 <= shiftLen
      ensures found == Result(patArray[..], shiftLen, shift2[..], text, 0, 0, [], answer)
      ensures ResultOk(found, calls, answer)
    {
      hide ShiftOk, HashOk, GroupOk, Scan, Starts, FirstFrom, Result, NoGroup;
      ghost var ps := patArray[..];
      ShiftFacts(ps, shiftLen, shift2[..]);
      HashFacts(ps, hash[..], numArray[..]);
      var n := |text|;
      found, calls := 0, [];
      ghost var shift := shift2[..];
      if n < shiftLen {
        ResultIsOver(ps, shiftLen, shift, text, 0, found, calls, answer);
        ScanIsOver(ps, shiftLen, text, 0, [], answer);
        return;
      }
      var t: nat, b: nat := 0, shiftLen - 1;
      while b < n
        invariant b == t + shiftLen - 1 && t <= n
        invariant Scan(ps, text, t, calls, answer) == Scan(ps, text, 0, [], answer)
        invariant Result(ps, shiftLen, shift, text, t, found, calls, answer) == Result(ps, shiftLen, shift, text, 0, 0, [], answer)
        invariant ResultOk(found, calls, answer) && !Ends(calls, answer)
        decreases n - b
      {
        var tshift := shift2[Word16(text, b - 1)];
        ScanShifts(ps, shiftLen, shift2[..], text, t, calls, answer);
        while tshift != 0
          invariant b == t + shiftLen - 1 && b < n && tshift == shift2[Word16(text, b - 1)]
          invariant Scan(ps, text, t, calls, answer) == Scan(ps, text, 0, [], answer)
          invariant Result(ps, shiftLen, shift, text, t, found, calls, answer) == Result(ps, shiftLen, shift, text, 0, 0, [], answer)
          decreases n - b
        {
          ScanShifts(ps, shiftLen, shift2[..], text, t, calls, answer);
          ResultShifts(ps, shiftLen, shift, text, t, found, calls, answer);
          b := b + tshift;
          t := t + tshift;
          if b >= n {
            ScanIsOver(ps, shiftLen, text, t, calls, answer);
            ResultIsOver(ps, shiftLen, shift, text, t, found, calls, answer);
            return;
          }
          tshift := shift2[Word16(text, b - 1)];
        }
        assert n - t >= 2;  // so that the source's test for a last single byte never succeeds
        ResultTries(ps, shiftLen, shift, text, t, found, calls, answer);
        var index := hash[Word16(text, t)];
        HashEntry(ps, hash[..], numArray[..], Word16(text, t));
        GroupOrNone(ps, hash[..], numArray[..], text, t);
        if index == HASH_EMPTY {
          ScanNoGroup(ps, text, t, calls, answer);
        } else {
          ScanUnfolds(ps, text, t, calls, answer);
          found, calls := GroupMatch(patArray[..], numArray[..], index, text, t, calls, answer);
          if found < 0 {
            found := -found;
            return;
          }
        }
        t, b := t + 1, b + 1;
      }
      ScanIsOver(ps, shiftLen, text, t, calls, answer);
      ResultIsOver(ps, shiftLen, shift, text, t, found, calls, answer);
    }
  }

  lemma GroupOrNone(ps: seq<Pattern>, hash: seq<Word>, num: seq<Word>, text: seq<Byte>, at: nat)
    requires HashOk(ps, hash, num) && at + 2 <= |text|
    ensures NoGroup(ps, text, at) <==> hash[Word16(text, at)] == HASH_EMPTY
  {
    var w := Word16(text, at);
    assert GroupOk(ps, hash, num, w);
    assert hash[w] != HASH_EMPTY ==> InGroup(hash[w], hash[w], num[hash[w]]) && Starts(ps, hash[w], w);
  }

  lemma ShiftFacts(ps: seq<Pattern>, m: nat, shift: seq<Byte>)
    requires ShiftOk(ps, m, shift)
    ensures |shift| == HASH_TABLE_SIZE && 2 <= m <= 255 && forall p <- ps :: m <= |p.bytes|
  {
  }

  lemma HashFacts(ps: seq<Pattern>, hash: seq<Word>, num: seq<Word>)
    requires HashOk(ps, hash, num)
    ensures |hash| == HASH_TABLE_SIZE && |num| == |ps| && LongEnough(ps)
  {
  }

  lemma HashEntry(ps: seq<Pattern>, hash: seq<Word>, num: seq<Word>, w: Word)
    requires HashOk(ps, hash, num)
    ensures if hash[w] == HASH_EMPTY then forall i :: 0 <= i < |ps| ==> !Starts(ps, i, w)
            else
              && hash[w] < |ps| && hash[w] + num[hash[w]] <= |ps|
              && forall i :: 0 <= i < |ps| ==> (Starts(ps, i, w) <==> InGroup(i, hash[w], num[hash[w]]))
  {
    assert GroupOk(ps, hash, num, w);
  }
}

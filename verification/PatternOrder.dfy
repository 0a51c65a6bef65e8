/** The patterns of the multi-pattern search, and the order they are sorted in
    (mwm.c:334-337, 891-921). */
module PatternOrder {
  import opened Basics
  import Quicksort

  /** A pattern, the first position it may start at, the number of bytes after that it has to lie
      within, and what the callback is told. */
  datatype Pattern = Pattern(bytes: seq<Byte>, offset: int, depth: int, data: nat)

  type Word = w: nat | w < 0x1_0000

  /** HASH16: two bytes as a number. */
  function Word16(s: seq<Byte>, i: nat): Word
    requires i + 1 < |s|
  {
    var high: int, low: int := s[i], s[i + 1];
    high * 256 + low
  }

  lemma WordIsTwoBytes(s: seq<Byte>, i: nat, t: seq<Byte>, j: nat)
    requires i + 1 < |s| && j + 1 < |t|
    ensures Word16(s, i) == Word16(t, j) <==> s[i] == t[j] && s[i + 1] == t[j + 1]
  {
  }

  function MemCmp(a: seq<Byte>, b: seq<Byte>, n: nat): int
    requires n <= |a| && n <= |b|
  {
    if n == 0 then 0
    else if a[0] != b[0] then a[0] - b[0]
    else MemCmp(a[1..], b[1..], n - 1)
  }

  /** bcompare */
  function Compare(a: seq<Byte>, b: seq<Byte>): int {
    if |a| == |b| then MemCmp(a, b, |a|)
    else if |a| < |b| then (var c := MemCmp(a, b, |a|); if c != 0 then c else -1)
    else (var c := MemCmp(a, b, |b|); if c != 0 then c else 1)
  }

  /** sortcmp */
  function SortCmp(p: Pattern, q: Pattern): int {
    Compare(p.bytes, q.bytes)
  }

  /** The comparison looks at the heads first. */
  lemma CompareTails(a: seq<Byte>, b: seq<Byte>)
    requires a != [] && b != []
    ensures Compare(a, b) == if a[0] != b[0] then a[0] - b[0] else Compare(a[1..], b[1..])
  {
  }

  lemma {:induction false} CompareFlips(a: seq<Byte>, b: seq<Byte>)
    ensures Compare(a, b) < 0 <==> Compare(b, a) > 0
  {
    if a != [] && b != [] {
      CompareTails(a, b);
      CompareTails(b, a);
      CompareFlips(a[1..], b[1..]);
    }
  }

  lemma {:induction false} CompareTransitive(a: seq<Byte>, b: seq<Byte>, c: seq<Byte>)
    requires Compare(a, b) <= 0 && Compare(b, c) <= 0
    ensures Compare(a, c) <= 0
  {
    if a != [] && b != [] && c != [] {
      CompareTails(a, b);
      CompareTails(b, c);
      CompareTails(a, c);
      if a[0] == b[0] == c[0] {
        CompareTransitive(a[1..], b[1..], c[1..]);
      }
    }
  }

  /** Two patterns compare equal exactly when they have the same bytes. */
  lemma {:induction false} CompareEqual(a: seq<Byte>, b: seq<Byte>)
    ensures Compare(a, b) == 0 <==> a == b
  {
    if a != [] && b != [] {
      CompareTails(a, b);
      CompareEqual(a[1..], b[1..]);
      assert a == [a[0]] + a[1..] && b == [b[0]] + b[1..];
    }
  }

  /** The comparison meets the sort's demands. */
  lemma SortCmpOrders()
    ensures Quicksort.TotalPreorder(SortCmp)
  {
    forall p: Pattern, q: Pattern ensures SortCmp(p, q) < 0 <==> SortCmp(q, p) > 0 {
      CompareFlips(p.bytes, q.bytes);
    }
    forall p: Pattern, q: Pattern, r: Pattern | SortCmp(p, q) <= 0 && SortCmp(q, r) <= 0 ensures SortCmp(p, r) <= 0 {
      CompareTransitive(p.bytes, q.bytes, r.bytes);
    }
  }

  lemma CompareWords(a: seq<Byte>, b: seq<Byte>)
    requires |a| >= 2 && |b| >= 2 && Compare(a, b) <= 0
    ensures Word16(a, 0) <= Word16(b, 0)
  {
    CompareTails(a, b);
    CompareTails(a[1..], b[1..]);
  }

  ghost predicate LongEnough(ps: seq<Pattern>) {
    forall p <- ps :: |p.bytes| >= 2
  }

  /** In the sorted array the patterns with the same first two bytes are next to each other. */
  lemma GroupsAreContiguous(ps: seq<Pattern>, i: nat, j: nat, k: nat)
    requires Quicksort.Sorted(SortCmp, ps) && LongEnough(ps) && i <= j <= k < |ps|
    ensures Word16(ps[i].bytes, 0) <= Word16(ps[j].bytes, 0) <= Word16(ps[k].bytes, 0)
    ensures Word16(ps[i].bytes, 0) == Word16(ps[k].bytes, 0) ==> Word16(ps[j].bytes, 0) == Word16(ps[i].bytes, 0)
  {
    if i < j {
      assert SortCmp(ps[i], ps[j]) <= 0;
      CompareWords(ps[i].bytes, ps[j].bytes);
    }
    if j < k {
      assert SortCmp(ps[j], ps[k]) <= 0;
      CompareWords(ps[j].bytes, ps[k].bytes);
    }
  }

  lemma {:induction false} PrefixComparesLess(a: seq<Byte>, b: seq<Byte>)
    requires |b| < |a| && b == a[..|b|]
    ensures Compare(a, b) > 0
  {
    if b != [] {
      CompareTails(a, b);
      assert b[1..] == a[1..][..|b| - 1];
      PrefixComparesLess(a[1..], b[1..]);
    }
  }
}

/** Sums over finite sets. */
module Sums {

  ghost function Sum<K(!new)>(ks: set<K>, g: K -> int): int {
    if ks == {} then 0 else var k :| k in ks; g(k) + Sum(ks - {k}, g)
  }

  lemma {:induction false} SumRemove<K(!new)>(ks: set<K>, g: K -> int, k: K)
    requires k in ks
    ensures Sum(ks, g) == g(k) + Sum(ks - {k}, g)
  {
    var p :| p in ks && Sum(ks, g) == g(p) + Sum(ks - {p}, g);
    if p != k {
      SumRemove(ks - {p}, g, k);
      SumRemove(ks - {k}, g, p);
      assert ks - {p} - {k} == ks - {k} - {p};
    }
  }

  lemma {:induction false} SumSame<K(!new)>(ks: set<K>, g: K -> int, h: K -> int)
    requires forall k :: k in ks ==> g(k) == h(k)
    ensures Sum(ks, g) == Sum(ks, h)
  {
    if ks != {} {
      var k :| k in ks;
      SumRemove(ks, g, k);
      SumRemove(ks, h, k);
      SumSame(ks - {k}, g, h);
    }
  }

  /** A sum changes by what changes at the one point where the terms differ. */
  lemma SumChange<K(!new)>(ks: set<K>, g: K -> int, h: K -> int, k: K)
    requires k in ks && forall x :: x in ks && x != k ==> g(x) == h(x)
    ensures Sum(ks, h) == Sum(ks, g) - g(k) + h(k)
  {
    SumRemove(ks, g, k);
    SumRemove(ks, h, k);
    SumSame(ks - {k}, g, h);
  }

  lemma {:induction false} SumNonNegative<K(!new)>(ks: set<K>, g: K -> int)
    requires forall k :: k in ks ==> 0 <= g(k)
    ensures 0 <= Sum(ks, g)
  {
    if ks != {} {
      var k :| k in ks;
      SumRemove(ks, g, k);
      SumNonNegative(ks - {k}, g);
    }
  }

  lemma SumAtLeast<K(!new)>(ks: set<K>, g: K -> int, k: K)
    requires k in ks && forall x :: x in ks ==> 0 <= g(x)
    ensures g(k) <= Sum(ks, g)
  {
    SumRemove(ks, g, k);
    SumNonNegative(ks - {k}, g);
  }

  lemma {:induction false} SumZero<K(!new)>(ks: set<K>, g: K -> int)
    requires forall k :: k in ks ==> g(k) == 0
    ensures Sum(ks, g) == 0
  {
    if ks != {} {
      var k :| k in ks;
      SumRemove(ks, g, k);
      SumZero(ks - {k}, g);
    }
  }

  lemma {:induction false} SumSubset<K(!new)>(a: set<K>, b: set<K>, g: K -> int)
    requires a <= b && forall k :: 0 <= g(k)
    ensures Sum(a, g) <= Sum(b, g)
    decreases |b|
  {
    if a == {} {
      SumNonNegative(b, g);
    } else {
      var k :| k in a;
      SumRemove(a, g, k);
      SumRemove(b, g, k);
      SumSubset(a - {k}, b - {k}, g);
    }
  }
}

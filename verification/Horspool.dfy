/** The two single-pattern Horspool searches: the plain one (bmh.c) and the one with separated scan
    and match loops (mwm.c:769-832, 1043-1059). */
module Horspool {
  import opened Basics

  type Short = n: int | -0x8000 <= n < 0x8000

  ghost predicate OccursAt(pat: seq<Byte>, text: seq<Byte>, at: nat) {
    at + |pat| <= |text| && text[at..at + |pat|] == pat
  }

  ghost predicate NoneBefore(pat: seq<Byte>, text: seq<Byte>, at: int) {
    forall q :: 0 <= q < at ==> !OccursAt(pat, text, q)
  }

  /** The leftmost occurrence, or -1 if there is none. */
  ghost predicate Leftmost(pat: seq<Byte>, text: seq<Byte>, r: int) {
    if r < 0 then r == -1 && forall q: nat :: !OccursAt(pat, text, q)
    else OccursAt(pat, text, r) && NoneBefore(pat, text, r)
  }

  /** The shift of a byte: its distance from the end of the pattern where it comes last among the
      first `limit` bytes, or the length of the pattern. */
  ghost predicate ShiftIs(pat: seq<Byte>, limit: nat, c: Byte, shift: int)
    requires limit <= |pat|
  {
    && (forall k :: 0 <= k < limit && pat[k] == c ==> shift <= |pat| - 1 - k)
    && (shift == |pat| || exists k :: 0 <= k < limit && pat[k] == c && shift == |pat| - 1 - k)
  }

  /** The shift of a byte, from the end of the pattern. */
  function LastShift(pat: seq<Byte>, limit: nat, c: Byte): nat
    requires limit <= |pat|
  {
    if limit == 0 then |pat| else if pat[limit - 1] == c then |pat| - limit else LastShift(pat, limit - 1, c)
  }

  lemma {:induction false} LastShiftRange(pat: seq<Byte>, limit: nat, c: Byte)
    requires limit <= |pat|
    ensures LastShift(pat, limit, c) <= |pat|
    ensures limit > 0 ==> LastShift(pat, limit, c) >= |pat| - limit
    ensures forall k :: 0 <= k < limit && pat[k] == c ==> LastShift(pat, limit, c) <= |pat| - 1 - k
    ensures LastShift(pat, limit, c) == |pat| || exists k :: 0 <= k < limit && pat[k] == c && LastShift(pat, limit, c) == |pat| - 1 - k
    decreases limit
  {
    if limit > 0 {
      LastShiftRange(pat, limit - 1, c);
      assert pat[limit - 1] == c ==> LastShift(pat, limit, c) == |pat| - 1 - (limit - 1);
    }
  }

  /** There is one shift for a byte. */
  lemma ShiftIsLast(pat: seq<Byte>, limit: nat, c: Byte, shift: int)
    requires limit <= |pat|
    ensures ShiftIs(pat, limit, c, shift) <==> shift == LastShift(pat, limit, c)
  {
    LastShiftRange(pat, limit, c);
  }

  /** An int stored in a short. */
  function ToShort(n: nat): Short {
    (n + 0x8000) % 0x1_0000 - 0x8000
  }

  /** A shift by the byte under the end of the window passes over no occurrence. */
  lemma ShiftIsSafe(pat: seq<Byte>, limit: nat, text: seq<Byte>, at: nat, shift: int, q: nat)
    requires |pat| - 1 <= limit <= |pat| && 0 < |pat| && at + |pat| <= |text|
    requires ShiftIs(pat, limit, text[at + |pat| - 1], shift) && at <= q < at + shift
    requires limit == |pat| || q != at
    ensures shift <= |pat| && !OccursAt(pat, text, q)
  {
    var k := |pat| - 1 - (q - at);
    if q + |pat| <= |text| {
      WindowAgrees(pat, text, q);
      assert 0 <= k < limit && text[q + k] == text[at + |pat| - 1];
    }
  }

  lemma WindowAgrees(pat: seq<Byte>, text: seq<Byte>, at: nat)
    requires at + |pat| <= |text|
    ensures OccursAt(pat, text, at) <==> forall j :: 0 <= j < |pat| ==> pat[j] == text[at + j]
  {
    var s := text[at..at + |pat|];
    assert forall j :: 0 <= j < |pat| ==> s[j] == text[at + j];
  }

  /** bmh.c */
  class Bmh {
    var patt: seq<Byte>
    var m: nat
    var d: array<int>

    ghost predicate Valid()
      reads this, d
    {
      && m == |patt| && d.Length == 256
      && forall c: Byte :: ShiftIs(patt, if m == 0 then 0 else m - 1, c, d[c]) && (m > 0 ==> 0 < d[c])
    }

    constructor (pat: seq<Byte>)
      ensures Valid() && patt == pat
    {
      patt := pat;
      m := |pat|;
      d := new int[256];
      new;
      var k := 0;
      while k < 256
        invariant 0 <= k <= 256 && d.Length == 256 && fresh(d)
        invariant patt == pat && m == |pat|
        invariant forall j :: 0 <= j < k ==> d[j] == m
      {
        d[k] := m;
        k := k + 1;
      }
      k := 0;
      while k < m - 1
        invariant 0 <= k && (k <= m - 1 || k == 0) && d.Length == 256 && fresh(d)
        invariant patt == pat && m == |pat|
        invariant forall c: Byte :: ShiftIs(patt, k, c, d[c]) && (m > 0 ==> 0 < d[c])
      {
        d[patt[k]] := m - k - 1;
        k := k + 1;
      }
    }

    /** The leftmost occurrence in the buffer; the empty pattern is found at the start. */
    method Chr(buf: seq<Byte>) returns (r: int)
      requires Valid()
      ensures Leftmost(patt, buf, r)
    {
      hide ShiftIs;
      var nlen := |buf|;
      var k := m - 1;
      if m > nlen {
        return -1;
      }
      while k < nlen
        invariant m - 1 <= k
        invariant NoneBefore(patt, buf, k - m + 1)
        decreases nlen - k
      {
        ghost var at := k - m + 1;
        var j, i := m - 1, k;
        while j >= 0 && buf[i] == patt[j]
          invariant -1 <= j < m && i == at + j
          invariant forall l :: j < l < m ==> patt[l] == buf[at + l]
          decreases j
        {
          j := j - 1;
          i := i - 1;
        }
        WindowAgrees(patt, buf, at);
        if j == -1 {
          return i + 1;
        }
        assert ShiftIs(patt, m - 1, buf[k], d[buf[k]]);
        forall q | at < q < at + d[buf[k]] ensures !OccursAt(patt, buf, q) {
          ShiftIsSafe(patt, m - 1, buf, at, d[buf[k]], q);
        }
        k := k + d[buf[k]];
      }
      r := -1;
    }
  }

  /** The pattern of a small set (hbm_t). */
  class Hbm {
    var P: seq<Byte>
    var M: nat
    var bcShift: array<Short>

    ghost predicate Valid()
      reads this, bcShift
    {
      && M == |P| && 0 < M && bcShift.Length == 256
      && forall c: Byte :: ShiftIs(P, M, c, bcShift[c]) && 0 <= bcShift[c]
    }

    /** bmhPrepBmh; the shifts are stored as 16-bit numbers.  The table can be searched with exactly if
        all of them fit, which they do for every pattern of fewer than 32768 bytes. */
    constructor (pat: seq<Byte>)
      requires 0 < |pat|
      ensures P == pat && bcShift.Length == 256
      ensures Valid() <==> forall c: Byte :: LastShift(pat, |pat|, c) < 0x8000
      ensures |pat| < 0x8000 ==> Valid()
    {
      P := pat;
      M := |pat|;
      bcShift := new Short[256];
      new;
      var k := 0;
      while k < 256
        invariant 0 <= k <= 256 && bcShift.Length == 256 && fresh(bcShift)
        invariant P == pat && M == |pat|
        invariant forall j :: 0 <= j < k ==> bcShift[j] == ToShort(M)
      {
        bcShift[k] := ToShort(M);
        k := k + 1;
      }
      k := 0;
      while k < M
        invariant 0 <= k <= M && bcShift.Length == 256 && fresh(bcShift)
        invariant P == pat && M == |pat|
        invariant forall c: Byte :: bcShift[c] == ToShort(LastShift(pat, k, c))
      {
        bcShift[P[k]] := ToShort(M - k - 1);
        k := k + 1;
      }
      forall c: Byte
        ensures ShiftIs(pat, |pat|, c, bcShift[c]) && 0 <= bcShift[c] <==> LastShift(pat, |pat|, c) < 0x8000
        ensures |pat| < 0x8000 ==> LastShift(pat, |pat|, c) < 0x8000
      {
        ShiftIsLast(pat, |pat|, c, bcShift[c]);
        if |pat| < 0x8000 {
          LastShiftRange(pat, |pat|, c);
        }
      }
    }

    /** The comparison from the end, four bytes at a time while more than four are left. */
    method SameAt(text: seq<Byte>, q: nat) returns (same: bool)
      requires Valid() && q + M <= |text|
      ensures same <==> OccursAt(P, text, q)
    {
      WindowAgrees(P, text, q);
      var k := M - 1;
      while k >= 4
        invariant -1 <= k < M
        invariant forall j :: k < j < M ==> P[j] == text[q + j]
      {
        if P[k] != text[q + k] { return false; }
        k := k - 1;
        if P[k] != text[q + k] { return false; }
        k := k - 1;
        if P[k] != text[q + k] { return false; }
        k := k - 1;
        if P[k] != text[q + k] { return false; }
        k := k - 1;
      }
      while k >= 0
        invariant -1 <= k < M
        invariant forall j :: k < j < M ==> P[j] == text[q + j]
      {
        if P[k] != text[q + k] { return false; }
        k := k - 1;
      }
      same := true;
    }

    /** Shifts twice, and again until the second shift is nothing. */
    method Skip(text: seq<Byte>, from: nat) returns (t: nat)
      requires Valid() && M - 1 <= from < |text|
      requires NoneBefore(P, text, from - M + 1)
      ensures from <= t
      ensures t < |text| ==> NoneBefore(P, text, t - M + 1)
      ensures t >= |text| ==> forall q: nat :: !OccursAt(P, text, q)
    {
      hide ShiftIs;
      t := from;
      var k := 1;
      while k != 0
        invariant from <= t < |text|
        invariant NoneBefore(P, text, t - M + 1)
        invariant 0 <= k
        decreases |text| - t, if k == 0 then 0 else 1
      {
        ShiftOnce(text, t);
        t := t + bcShift[text[t]];
        if t >= |text| {
          return;
        }
        ShiftOnce(text, t);
        k := bcShift[text[t]];
        t := t + k;
        if t >= |text| {
          return;
        }
      }
    }

    lemma ShiftOnce(text: seq<Byte>, t: nat)
      requires Valid() && M - 1 <= t < |text| && NoneBefore(P, text, t - M + 1)
      ensures 0 <= bcShift[text[t]] && NoneBefore(P, text, t + bcShift[text[t]] - M + 1)
    {
      var s, at := bcShift[text[t]], t - M + 1;
      assert ShiftIs(P, M, text[t], s);
      forall q | at <= q < at + s ensures !OccursAt(P, text, q) {
        ShiftIsSafe(P, M, text, at, s, q);
      }
    }

    /** bmhSearch */
    method Search(text: seq<Byte>) returns (r: int)
      requires Valid()
      ensures Leftmost(P, text, r)
    {
      var m1 := M - 1;
      var t: nat := m1;
      if m1 == 0 {
        while t < |text|
          invariant NoneBefore(P, text, t) && t <= |text|
        {
          WindowAgrees(P, text, t);
          if text[t] == P[0] {
            return t;
          }
          t := t + 1;
        }
        return -1;
      }
      while t < |text|
        invariant m1 <= t && NoneBefore(P, text, t - m1)
        decreases |text| - t
      {
        t := Skip(text, t);
        if t >= |text| {
          return -1;
        }
        var same := SameAt(text, t - m1);
        if same {
          return t - m1;
        }
        t := t + 1;
      }
      r := -1;
    }
  }
}

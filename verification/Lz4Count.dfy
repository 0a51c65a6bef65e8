/** LZ4_count: the length of a common prefix, a machine word at a time. */
module Lz4Count {
  import opened Basics

  /** The value of a word read from memory, low byte first. */
  function Word(bytes: seq<Byte>): nat {
    if bytes == [] then 0 else bytes[0] + 256 * Word(bytes[1..])
  }

  function Xor(a: nat, b: nat): nat
    decreases a + b
  {
    if a == 0 && b == 0 then 0 else (if a % 2 == b % 2 then 0 else 1) + 2 * Xor(a / 2, b / 2)
  }

  /** __builtin_ctz, for a non-zero argument. */
  function TrailingZeros(v: nat): nat
    requires v != 0
  {
    if v % 2 == 1 then 0 else 1 + TrailingZeros(v / 2)
  }

  /** LZ4_NbCommonBytes on a little-endian machine (lz4.c:248-275). */
  function NbCommonBytes(diff: nat): nat
    requires diff != 0
  {
    TrailingZeros(diff) / 8
  }

  // ----- The lowest set bit of the exclusive or lies in the first byte that differs -----

  lemma XorIsZero(a: nat, b: nat)
    ensures Xor(a, b) == 0 <==> a == b
    decreases a + b
  {
    if a != 0 || b != 0 {
      XorIsZero(a / 2, b / 2);
    }
  }

  lemma Half(a: nat, c: nat)
    requires c < 2
    ensures (2 * a + c) / 2 == a && (2 * a + c) % 2 == c
  {
  }

  lemma {:induction false} XorEven(a: nat, b: nat, c: nat)
    requires c < 2
    ensures Xor(2 * a + c, 2 * b + c) == 2 * Xor(a, b)
  {
    Half(a, c);
    Half(b, c);
    var x, y := 2 * a + c, 2 * b + c;
    assert Xor(x, y) == if x == 0 && y == 0 then 0 else (if x % 2 == y % 2 then 0 else 1) + 2 * Xor(x / 2, y / 2);
    hide Xor;
    if x == 0 && y == 0 {
      XorIsZero(a, b);
    }
  }

  lemma XorShiftNibble(a: nat, b: nat, c: nat)
    requires c < 16
    ensures Xor(16 * a + c, 16 * b + c) == 16 * Xor(a, b)
  {
    hide Xor;
    var c1 := c / 2;
    var c2 := c1 / 2;
    var c3 := c2 / 2;
    XorEven(8 * a + c1, 8 * b + c1, c - 2 * c1);
    XorEven(4 * a + c2, 4 * b + c2, c1 - 2 * c2);
    XorEven(2 * a + c3, 2 * b + c3, c2 - 2 * c3);
    XorEven(a, b, c3);
  }

  /** An equal low byte shifts out of the exclusive or. */
  lemma XorShift(a: nat, b: nat, c: Byte)
    ensures Xor(256 * a + c, 256 * b + c) == 256 * Xor(a, b)
  {
    hide Xor;
    XorShiftNibble(16 * a + c / 16, 16 * b + c / 16, c % 16);
    XorShiftNibble(a, b, c / 16);
  }

  lemma ZerosDouble(v: nat)
    requires v != 0
    ensures TrailingZeros(2 * v) == 1 + TrailingZeros(v)
  {
  }

  lemma ZerosShift(v: nat)
    requires v != 0
    ensures TrailingZeros(256 * v) == 8 + TrailingZeros(v)
  {
    hide TrailingZeros;
    ZerosDouble(v);
    ZerosDouble(2 * v);
    ZerosDouble(4 * v);
    ZerosDouble(8 * v);
    ZerosDouble(16 * v);
    ZerosDouble(32 * v);
    ZerosDouble(64 * v);
    ZerosDouble(128 * v);
  }

  predicate SameLowBits(a: nat, b: nat, k: nat) {
    k == 0 || (a % 2 == b % 2 && SameLowBits(a / 2, b / 2, k - 1))
  }

  lemma {:induction false} ZerosBelow(a: nat, b: nat, k: nat)
    requires !SameLowBits(a, b, k)
    ensures Xor(a, b) != 0 && TrailingZeros(Xor(a, b)) < k
    decreases k
  {
    if a % 2 == b % 2 {
      ZerosBelow(a / 2, b / 2, k - 1);
      ZerosDouble(Xor(a / 2, b / 2));
    }
  }

  lemma SameStep(a: nat, b: nat, x: nat, y: nat, k: nat)
    requires x < 2 && y < 2 && 0 < k && SameLowBits(2 * a + x, 2 * b + y, k)
    ensures x == y && SameLowBits(a, b, k - 1)
  {
    Half(a, x);
    Half(b, y);
  }

  lemma SameTwoSteps(a: nat, b: nat, x: nat, y: nat, k: nat)
    requires x < 4 && y < 4 && 2 <= k && SameLowBits(4 * a + x, 4 * b + y, k)
    ensures x == y && SameLowBits(a, b, k - 2)
  {
    hide SameLowBits;
    var x1, y1 := x / 2, y / 2;
    SameStep(2 * a + x1, 2 * b + y1, x - 2 * x1, y - 2 * y1, k);
    SameStep(a, b, x1, y1, k - 1);
  }

  lemma SameLowNibble(a: nat, b: nat, x: nat, y: nat, k: nat)
    requires x < 16 && y < 16 && 4 <= k && SameLowBits(16 * a + x, 16 * b + y, k)
    ensures x == y && SameLowBits(a, b, k - 4)
  {
    hide SameLowBits;
    var x1, y1 := x / 4, y / 4;
    SameTwoSteps(4 * a + x1, 4 * b + y1, x - 4 * x1, y - 4 * y1, k);
    SameTwoSteps(a, b, x1, y1, k - 2);
  }

  lemma SameLowByte(a: nat, b: nat, x: Byte, y: Byte)
    requires SameLowBits(256 * a + x, 256 * b + y, 8)
    ensures x == y
  {
    hide SameLowBits;
    SameLowNibble(16 * a + x / 16, 16 * b + y / 16, x % 16, y % 16, 8);
    SameLowNibble(a, b, x / 16, y / 16, 4);
  }

  /** The index of the first byte in which two words differ. */
  lemma {:induction false} FirstDifference(a: seq<Byte>, b: seq<Byte>)
    requires |a| == |b| && a != b
    ensures var d := Xor(Word(a), Word(b));
            && d != 0 && NbCommonBytes(d) < |a|
            && a[..NbCommonBytes(d)] == b[..NbCommonBytes(d)]
            && a[NbCommonBytes(d)] != b[NbCommonBytes(d)]
    decreases |a|
  {
    hide Xor, TrailingZeros;
    var a', b' := Word(a[1..]), Word(b[1..]);
    var d := Xor(Word(a), Word(b));
    if a[0] == b[0] {
      assert a == [a[0]] + a[1..] && b == [b[0]] + b[1..];
      FirstDifference(a[1..], b[1..]);
      var n := NbCommonBytes(Xor(a', b'));
      XorShift(a', b', a[0]);
      ZerosShift(Xor(a', b'));
      assert NbCommonBytes(d) == 1 + n;
      assert a[..1 + n] == [a[0]] + a[1..][..n];
      assert b[..1 + n] == [b[0]] + b[1..][..n];
    } else {
      if SameLowBits(Word(a), Word(b), 8) { SameLowByte(a', b', a[0], b[0]); }
      ZerosBelow(Word(a), Word(b), 8);
    }
  }

  /** `n` is the length of the longest common prefix of the two positions, up to `limit`. */
  ghost predicate IsCommonLength(src: seq<Byte>, at: nat, from: nat, limit: nat, n: nat) {
    && from <= at && at + n <= limit <= |src|
    && (forall k :: at <= k < at + n ==> src[k] == src[k - (at - from)])
    && (at + n < limit ==> src[at + n] != src[from + n])
  }

  lemma Agree(src: seq<Byte>, from: nat, at: nat, n: nat)
    requires from <= at && at + n <= |src| && src[from..from + n] == src[at..at + n]
    ensures forall k :: at <= k < at + n ==> src[k] == src[k - (at - from)]
  {
    forall k | at <= k < at + n ensures src[k] == src[k - (at - from)] {
      assert src[from..from + n][k - at] == src[at..at + n][k - at];
    }
  }

  /** A pair of words that differ: the number of leading bytes they share. */
  lemma WordsDiffer(src: seq<Byte>, from: nat, at: nat, step: nat)
    requires from <= at && at + step <= |src|
    requires Xor(Word(src[from..from + step]), Word(src[at..at + step])) != 0
    ensures var c := NbCommonBytes(Xor(Word(src[from..from + step]), Word(src[at..at + step])));
            && c < step && src[at + c] != src[from + c]
            && forall k :: at <= k < at + c ==> src[k] == src[k - (at - from)]
  {
    hide Word, NbCommonBytes, Xor;
    var a, b := src[from..from + step], src[at..at + step];
    XorIsZero(Word(a), Word(b));
    FirstDifference(a, b);
    var c := NbCommonBytes(Xor(Word(a), Word(b)));
    assert a[..c] == src[from..from + c] && b[..c] == src[at..at + c];
    Agree(src, from, at, c);
  }

  lemma WordsAgree(src: seq<Byte>, from: nat, at: nat, step: nat)
    requires from <= at && at + step <= |src|
    requires Xor(Word(src[from..from + step]), Word(src[at..at + step])) == 0
    ensures forall k :: at <= k < at + step ==> src[k] == src[k - (at - from)]
  {
    hide Word, NbCommonBytes, Xor;
    if src[from..from + step] != src[at..at + step] {
      FirstDifference(src[from..from + step], src[at..at + step]);
    }
    Agree(src, from, at, step);
  }

  /** How far two slices of at most `n` bytes agree. */
  function Common(a: seq<Byte>, b: seq<Byte>): (n: nat)
    requires |a| == |b|
    ensures n <= |a|
  {
    if a == [] || a[0] != b[0] then 0 else 1 + Common(a[1..], b[1..])
  }

  lemma CommonLengthNext(src: seq<Byte>, at: nat, from: nat, limit: nat, n: nat)
    requires from <= at < limit <= |src| && src[at] == src[from] && IsCommonLength(src, at + 1, from + 1, limit, n)
    ensures IsCommonLength(src, at, from, limit, n + 1)
  {
  }

  lemma {:induction false} CommonIsCommonLength(src: seq<Byte>, at: nat, from: nat, limit: nat)
    requires from <= at <= limit <= |src|
    ensures var n := Common(src[at..limit], src[from..from + (limit - at)]);
            IsCommonLength(src, at, from, limit, n)
    decreases limit - at
  {
    var a, b := src[at..limit], src[from..from + (limit - at)];
    assert at < limit ==> a[0] == src[at] && b[0] == src[from];
    if at < limit && a[0] == b[0] {
      assert a[1..] == src[at + 1..limit] && b[1..] == src[from + 1..from + (limit - at)];
      CommonIsCommonLength(src, at + 1, from + 1, limit);
      CommonLengthNext(src, at, from, limit, Common(a[1..], b[1..]));
    } else {
      assert IsCommonLength(src, at, from, limit, 0);
    }
    hide IsCommonLength;
  }

  lemma CommonFour(a: seq<Byte>, b: seq<Byte>)
    requires |a| == |b| && 4 <= |a|
    ensures a[..4] == b[..4] ==> Common(a, b) == 4 + Common(a[4..], b[4..])
    ensures a[..4] != b[..4] ==> Common(a, b) < 4
  {
    CommonTwo(a, b);
    CommonTwo(a[2..], b[2..]);
    assert a[..4] == a[..2] + a[2..][..2] && b[..4] == b[..2] + b[2..][..2];
    assert a[..2] == a[..4][..2] && b[..2] == b[..4][..2] && a[2..][..2] == a[..4][2..] && b[2..][..2] == b[..4][2..];
    assert a[2..][2..] == a[4..] && b[2..][2..] == b[4..];
  }

  lemma CommonTwo(a: seq<Byte>, b: seq<Byte>)
    requires |a| == |b| && 2 <= |a|
    ensures a[..2] == b[..2] ==> Common(a, b) == 2 + Common(a[2..], b[2..])
    ensures a[..2] != b[..2] ==> Common(a, b) < 2
  {
    assert a[..2] == [a[0], a[1]] && b[..2] == [b[0], b[1]];
    assert a[1..][1..] == a[2..] && b[1..][1..] == b[2..];
    assert Common(a[1..], b[1..]) == if a[1] != b[1] then 0 else 1 + Common(a[2..], b[2..]);
  }

  /** The last comparisons, of four, two and one bytes. */
  method CountTail(src: seq<Byte>, start: nat, source: nat, limit: nat, step: nat) returns (n: nat)
    requires source <= start <= limit <= |src| && (step == 4 || step == 8) && limit - start < step
    ensures IsCommonLength(src, start, source, limit, n)
  {
    hide Common;
    CommonIsCommonLength(src, start, source, limit);
    var a, b := src[start..limit], src[source..source + (limit - start)];
    ghost var total := Common(a, b);
    n := 0;
    if step == 8 && 4 <= |a| {
      CommonFour(a, b);
      if a[..4] == b[..4] { n, a, b := 4, a[4..], b[4..]; }
    }
    if 2 <= |a| {
      CommonTwo(a, b);
      if a[..2] == b[..2] { n, a, b := n + 2, a[2..], b[2..]; }
    }
    CommonOne(a, b);
    if 1 <= |a| && a[0] == b[0] { n := n + 1; }
  }

  lemma CommonOne(a: seq<Byte>, b: seq<Byte>)
    requires |a| == |b|
    ensures a != [] && a[0] == b[0] ==> Common(a, b) == 1 + Common(a[1..], b[1..])
    ensures a == [] || a[0] != b[0] ==> Common(a, b) == 0
  {
  }

  /** LZ4_count (lz4.c:315-331), with words of `step` bytes: four or eight. */
  method Count(src: seq<Byte>, start: nat, source: nat, limit: nat, step: nat) returns (n: nat)
    requires source <= start <= limit <= |src| && (step == 4 || step == 8)
    ensures IsCommonLength(src, start, source, limit, n)
  {
    hide Word, NbCommonBytes, Xor;
    var at, from := start, source;
    while at < limit - (step - 1)
      invariant start <= at <= limit && at - from == start - source
      invariant forall k :: start <= k < at ==> src[k] == src[k - (start - source)]
    {
      var diff := Xor(Word(src[from..from + step]), Word(src[at..at + step]));
      if diff == 0 {
        WordsAgree(src, from, at, step);
        at, from := at + step, from + step;
      } else {
        WordsDiffer(src, from, at, step);
        at := at + NbCommonBytes(diff);
        return at - start;
      }
    }
    var tail := CountTail(src, at, from, limit, step);
    n := at - start + tail;
  }
}

/** The copies of the LZ4 codec: eight bytes at a time, past the end of what was asked for,
    and, for matches, from a region that overlaps the one being written. */
module Lz4Copy {
  import opened Basics
  import opened Lz4Format

  /** Where LZ4_wildCopy stops when asked to copy up to `end`: it copies at least once. */
  function WildEnd(at: nat, end: nat): (r: nat)
    ensures at + 8 <= r && end <= r
    ensures if at < end then r < end + 8 else r == at + 8
  {
    if at < end then at + (end - at + 7) / 8 * 8 else at + 8
  }

  /** LZ4_wildCopy out of a buffer that is not written (lz4.c:207-213). */
  method WildCopyFrom(dst: array<Byte>, at: nat, src: seq<Byte>, from: nat, end: nat)
    requires WildEnd(at, end) <= dst.Length && from + (WildEnd(at, end) - at) <= |src|
    modifies dst
    ensures forall k :: at <= k < WildEnd(at, end) ==> dst[k] == src[from + k - at]
    ensures forall k :: 0 <= k < at || WildEnd(at, end) <= k < dst.Length ==> dst[k] == old(dst[k])
  {
    var d, s := at, from;
    ghost var stop := WildEnd(at, end);
    ghost var left := (stop - at) / 8;
    while true
      invariant at <= d && s - from == d - at && stop == d + 8 * left && 1 <= left
      invariant stop - 8 < end || end <= at
      invariant forall k :: at <= k < d ==> dst[k] == src[from + k - at]
      invariant forall k :: 0 <= k < at || d <= k < dst.Length ==> dst[k] == old(dst[k])
      decreases left
    {
      forall i | 0 <= i < 8 { dst[d + i] := src[s + i]; }
      d, s, left := d + 8, s + 8, left - 1;
      if d >= end { break; }
    }
  }

  /** LZ4_wildCopy inside the output buffer.  When the two ends are at least eight apart every
      byte written equals the byte that distance back, whether or not the regions overlap. */
  method WildCopyWithin(dst: array<Byte>, at: nat, from: nat, end: nat)
    requires from <= at && WildEnd(at, end) <= dst.Length
    modifies dst
    ensures from + 8 <= at ==> forall k :: at <= k < WildEnd(at, end) ==> dst[k] == dst[k - (at - from)]
    ensures forall k :: 0 <= k < at || WildEnd(at, end) <= k < dst.Length ==> dst[k] == old(dst[k])
  {
    var d, s := at, from;
    ghost var stop := WildEnd(at, end);
    ghost var left := (stop - at) / 8;
    while true
      invariant at <= d && s - from == d - at && stop == d + 8 * left && 1 <= left
      invariant stop - 8 < end || end <= at
      invariant from + 8 <= at ==> forall k :: at <= k < d ==> dst[k] == dst[k - (at - from)]
      invariant forall k :: 0 <= k < at || d <= k < dst.Length ==> dst[k] == old(dst[k])
      decreases left
    {
      forall i | 0 <= i < 8 { dst[d + i] := dst[s + i]; }
      d, s, left := d + 8, s + 8, left - 1;
      if d >= end { break; }
    }
  }

  // ----- Overlapping match copies -----

  /** `out` continues its first `op` bytes by repeating what lies `offset` back. */
  ghost predicate Repeats(out: seq<Byte>, op: nat, offset: nat)
    requires 1 <= offset <= op <= |out|
  {
    forall k :: op <= k < |out| ==> out[k] == out[k - offset]
  }

  /** The relation determines the copied bytes: it is what copying one byte at a time gives. */
  lemma {:induction false} RepeatsIsCopyMatch(out: seq<Byte>, op: nat, offset: nat)
    requires 1 <= offset <= op <= |out| && Repeats(out, op, offset)
    ensures out == CopyMatch(out[..op], offset, |out| - op)
    decreases |out| - op
  {
    if op == |out| {
      assert out[..op] == out;
    } else {
      assert out[..op + 1] == out[..op] + [out[op - offset]];
      RepeatsIsCopyMatch(out, op + 1, offset);
    }
  }

  predicate Multiple(distance: nat, offset: nat)
    requires 1 <= offset
  {
    distance == 0 || (offset <= distance && Multiple(distance - offset, offset))
  }

  /** `j` modulo `offset`. */
  function Wrap(j: nat, offset: nat): nat
    requires 1 <= offset
  {
    if j < offset then j else Wrap(j - offset, offset)
  }

  lemma {:induction false} WrapMultiple(j: nat, distance: nat, offset: nat)
    requires 1 <= offset && distance <= j && Multiple(distance, offset)
    ensures Wrap(j - distance, offset) == Wrap(j, offset)
    decreases distance
  {
    if distance != 0 {
      WrapMultiple(j - offset, distance - offset, offset);
    }
  }

  /** The bytes a decoder has after a prelude of eight bytes copied from `offset` back and
      copies from `distance` back after that. */
  ghost predicate Unrolled(out: seq<Byte>, op: nat, offset: nat, distance: nat) {
    && 1 <= offset <= op <= |out| && 8 <= distance <= 8 + offset && Multiple(distance, offset)
    && (forall k :: op <= k < |out| && k < op + 8 ==> out[k] == out[k - offset])
    && (forall k :: op + 8 <= k < |out| ==> out[k] == out[k - distance])
  }

  lemma {:induction false} UnrolledIsPeriodic(out: seq<Byte>, op: nat, offset: nat, distance: nat, j: nat)
    requires Unrolled(out, op, offset, distance) && op - offset + j < |out|
    ensures 0 <= Wrap(j, offset) <= j && out[op - offset + j] == out[op - offset + Wrap(j, offset)]
    decreases j
  {
    var m := op - offset;
    if j >= offset {
      var back := if j < offset + 8 then offset else distance;
      assert out[m + j] == out[m + j - back];
      UnrolledIsPeriodic(out, op, offset, distance, j - back);
      assert Multiple(0, offset);
      WrapMultiple(j, back, offset);
    }
  }

  /** Copying from a multiple of the offset back is as good as copying from the offset back. */
  lemma UnrolledRepeats(out: seq<Byte>, op: nat, offset: nat, distance: nat)
    requires Unrolled(out, op, offset, distance)
    ensures Repeats(out, op, offset)
  {
    var m := op - offset;
    forall k | op <= k < |out| ensures out[k] == out[k - offset] {
      UnrolledIsPeriodic(out, op, offset, distance, k - m);
      UnrolledIsPeriodic(out, op, offset, distance, k - m - offset);
    }
  }

  const DEC32 := [4, 1, 2, 1, 4, 4, 4, 4]
  const DEC64 := [0, 0, 0, -1, 0, 1, 2, 3]

  /** How far back the copy goes on from after the prelude, for a small offset. */
  function SmallDistance(offset: nat): int
    requires offset < 8
  {
    8 + offset - DEC32[offset] + DEC64[offset]
  }

  lemma SmallDistanceIsMultiple(offset: nat)
    requires 1 <= offset < 8
    ensures 8 <= SmallDistance(offset) <= 8 + offset && Multiple(SmallDistance(offset), offset)
  {
    assert Multiple(0, offset) && Multiple(offset, offset) && Multiple(2 * offset, offset);
    assert Multiple(8, 1) by { assert Multiple(2, 1) && Multiple(4, 1) && Multiple(6, 1); }
    assert Multiple(8, 2) by { assert Multiple(4, 2); }
    assert Multiple(9, 3) by { assert Multiple(6, 3); }
  }

  /** Four bytes that repeat at a distance below eight, and four more from where the table points. */
  lemma StepsRepeat(was: seq<Byte>, now: seq<Byte>, op: nat, offset: nat)
    requires 1 <= offset < 8 && offset <= op && op + 8 <= |was| == |now|
    requires forall k :: op <= k < op + 4 ==> was[k] == was[k - offset]
    requires forall k :: 0 <= k < op + 4 ==> now[k] == was[k]
    requires forall k :: op + 4 <= k < op + 8 ==> now[k] == was[op - offset + DEC32[offset] + k - op - 4]
    ensures forall k :: op <= k < op + 8 ==> now[k] == now[k - offset]
  {
    assert now[op + 4] == was[op - offset + DEC32[offset]];
    assert now[op + 5] == was[op - offset + DEC32[offset] + 1];
    assert now[op + 6] == was[op - offset + DEC32[offset] + 2];
    assert now[op + 7] == was[op - offset + DEC32[offset] + 3];
  }

  /** Four bytes, one at a time. */
  method CopyFour(dst: array<Byte>, op: nat, offset: nat)
    requires offset <= op && op + 4 <= dst.Length
    modifies dst
    ensures forall k :: 0 <= k < op || op + 4 <= k < dst.Length ==> dst[k] == old(dst[k])
    ensures 1 <= offset ==> forall k :: op <= k < op + 4 ==> dst[k] == dst[k - offset]
    ensures offset == 0 ==> forall k :: op <= k < op + 4 ==> dst[k] == old(dst[k])
  {
    var m := op - offset;
    dst[op] := dst[m];
    dst[op + 1] := dst[m + 1];
    dst[op + 2] := dst[m + 2];
    dst[op + 3] := dst[m + 3];
  }

  method CopyPreludeSmall(dst: array<Byte>, op: nat, offset: nat) returns (from: nat)
    requires offset <= op && op + 8 <= dst.Length && offset < 8
    modifies dst
    ensures forall k :: 0 <= k < op || op + 8 <= k < dst.Length ==> dst[k] == old(dst[k])
    ensures 1 <= offset ==> forall k :: op <= k < op + 8 ==> dst[k] == dst[k - offset]
    ensures offset == 0 ==> forall k :: op <= k < op + 8 ==> dst[k] == old(dst[k])
    ensures op + 8 - from == SmallDistance(offset) && from <= op + 8
  {
    CopyFour(dst, op, offset);
    var m := op - offset + DEC32[offset];
    label Four:
    forall i | 0 <= i < 4 { dst[op + 4 + i] := dst[m + i]; }
    from := m - DEC64[offset];
    if 1 <= offset {
      StepsRepeat(old@Four(dst[..]), dst[..], op, offset);
      assert forall k :: 0 <= k < dst.Length ==> dst[k] == dst[..][k];
    }
  }

  /** The first eight bytes of a match, written whatever its length (lz4.c:1248-1258).  The
      result is the position to go on copying from: a multiple of the offset back, and far
      enough back for eight-byte copies. */
  method CopyPrelude(dst: array<Byte>, op: nat, offset: nat) returns (from: nat)
    requires offset <= op && op + 8 <= dst.Length
    modifies dst
    ensures forall k :: 0 <= k < op || op + 8 <= k < dst.Length ==> dst[k] == old(dst[k])
    ensures 1 <= offset ==> forall k :: op <= k < op + 8 ==> dst[k] == dst[k - offset]
    ensures offset == 0 ==> forall k :: op <= k < op + 8 ==> dst[k] == old(dst[k])
    ensures from <= op + 8
    ensures 1 <= offset ==> var d := op + 8 - from; 8 <= d <= 8 + offset && Multiple(d, offset)
  {
    if offset < 8 {
      from := CopyPreludeSmall(dst, op, offset);
      if 1 <= offset { SmallDistanceIsMultiple(offset); }
    } else {
      var m := op - offset;
      forall i | 0 <= i < 8 { dst[op + i] := dst[m + i]; }
      from := m + 8;
      assert Multiple(0, offset);
    }
  }

  /** The prelude and the copies after it are the byte-at-a-time copy. */
  lemma UnrolledIsCopyMatch(out: seq<Byte>, op: nat, offset: nat, distance: nat)
    requires Unrolled(out, op, offset, distance)
    ensures out == CopyMatch(out[..op], offset, |out| - op)
  {
    UnrolledRepeats(out, op, offset, distance);
    RepeatsIsCopyMatch(out, op, offset);
  }

  /** The copy of a match that ends within twelve bytes of the end of the buffer: eight bytes at
      a time while that is safe, then one at a time (lz4.c:1260-1270). */
  method CopyNearEnd(dst: array<Byte>, start: nat, source: nat, end: nat)
    requires source <= start <= dst.Length - 4 && end <= dst.Length - LAST_LITERALS
    modifies dst
    ensures forall k :: 0 <= k < start ==> dst[k] == old(dst[k])
    ensures source + 8 <= start ==> forall k :: start <= k < end ==> dst[k] == dst[k - (start - source)]
  {
    var at, from, limit := start, source, dst.Length;
    ghost var distance := start - source;
    if at < limit - 8 {
      WildCopyWithin(dst, at, from, limit - 8);
      from := from + (limit - 8 - at);
      at := limit - 8;
    }
    while at < end
      invariant at - from == distance && start <= at <= limit
      invariant forall k :: 0 <= k < start ==> dst[k] == old(dst[k])
      invariant source + 8 <= start ==> forall k :: start <= k < at ==> dst[k] == dst[k - distance]
    {
      dst[at] := dst[from];
      at, from := at + 1, from + 1;
    }
  }

  /** The match copy of the decoder (lz4.c:1246-1273).  Every index is within the buffer, the
      call fails exactly when the match would reach the last five bytes, and for every offset
      of at least one the bytes are those of the byte-at-a-time copy.  For an offset of zero the
      first eight bytes of the match are what the buffer held before. */
  method CopyMatchFast(dst: array<Byte>, op: nat, offset: nat, length: nat) returns (ok: bool)
    requires MIN_MATCH <= length && offset <= op <= dst.Length - MF_LIMIT
    modifies dst
    ensures ok <==> op + length <= dst.Length - LAST_LITERALS
    ensures dst[..op] == old(dst[..op])
    ensures ok && 1 <= offset ==> dst[..op + length] == CopyMatch(old(dst[..op]), offset, length)
    ensures ok && offset == 0 ==> forall k :: op <= k < op + length && k < op + 8 ==> dst[k] == old(dst[k])
  {
    hide CopyMatch, Multiple, WildEnd;
    var end := op + length;
    var from := CopyPrelude(dst, op, offset);
    assert dst[..op] == old(dst[..op]);
    if end > dst.Length - LAST_LITERALS { return false; }
    if end > dst.Length - 12 {
      CopyNearEnd(dst, op + 8, from, end);
    } else {
      WildCopyWithin(dst, op + 8, from, end);
    }
    ok := true;
    assert dst[..op] == old(dst[..op]);
    if 1 <= offset {
      ghost var out := dst[..end];
      assert out[..op] == dst[..op];
      assert Unrolled(out, op, offset, op + 8 - from);
      UnrolledIsCopyMatch(out, op, offset, op + 8 - from);
    }
  }
}

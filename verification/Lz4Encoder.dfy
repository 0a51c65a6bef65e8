/** LZ4_compress_generic (lz4.c:435-654) for a single block: noDict, notLimited, and a hash table
    of 16- or 32-bit positions.  The hash is any function of the position, so nothing rests on
    its quality: every candidate is compared before it is used. */
module Lz4Encoder {
  import opened Basics
  import opened Lz4Format
  import opened Lz4Copy
  import opened Lz4Count

  datatype TableType = ByU16 | ByU32

  const LIMIT_64K := 65536 + (MF_LIMIT - 1)
  const MIN_LENGTH := MF_LIMIT + 1
  const SKIP_TRIGGER := 64

  function CompressBound(n: nat): nat {
    if n > MAX_INPUT_SIZE then 0 else n + n / 255 + 16
  }

  // ----- Blocks grown at the right -----

  lemma {:induction false} EncodeSnoc(ss: seq<Sequence>, s: Sequence)
    requires s.Valid() && forall t <- ss :: t.Valid()
    ensures forall t <- ss + [s] :: t.Valid()
    ensures EncodeSequences(ss + [s]) == EncodeSequences(ss) + EncodeSequence(s)
    decreases |ss|
  {
    hide EncodeSequence;
    var all := ss + [s];
    forall t <- all ensures t.Valid() {
      assert t in ss || t == s;
    }
    if ss == [] {
      assert all[1..] == [] && EncodeSequences(all) == EncodeSequence(s) + [];
    } else {
      assert all[0] == ss[0] && all[1..] == ss[1..] + [s];
      EncodeSnoc(ss[1..], s);
    }
  }

  lemma {:induction false} GuaranteedSnoc(ss: seq<Sequence>, s: Sequence, done: nat, n: nat)
    requires Guaranteed(ss, done, n) && s.Valid()
    requires var p := done + TotalSize(ss);
             1 <= s.offset <= p + |s.literals| <= n - MF_LIMIT && p + s.Size() <= n - LAST_LITERALS
    ensures Guaranteed(ss + [s], done, n)
    decreases |ss|
  {
    var all := ss + [s];
    if ss == [] {
      assert all[1..] == [];
    } else {
      assert all[0] == ss[0] && all[1..] == ss[1..] + [s];
      GuaranteedSnoc(ss[1..], s, done + ss[0].Size(), n);
    }
  }

  // ----- The size of the output -----

  lemma {:induction false} ChainLength(n: nat)
    ensures |Chain(n)| == 1 + n / 255
  {
    if n >= 255 {
      ChainLength(n - 255);
    }
  }

  /** A sequence never takes more than the bytes it stands for, but for one byte in 255 literals. */
  lemma SequenceBound(s: Sequence)
    requires s.Valid()
    ensures |EncodeSequence(s)| <= s.Size() + |s.literals| / 255
  {
    hide Chain;
    SequenceLength(s);
    if 15 <= |s.literals| { ChainLength(|s.literals| - 15); }
    if 15 <= s.matchLength - MIN_MATCH { ChainLength(s.matchLength - MIN_MATCH - 15); }
  }

  lemma {:induction false} SequencesBound(ss: seq<Sequence>)
    requires forall t <- ss :: t.Valid()
    ensures |EncodeSequences(ss)| <= TotalSize(ss) + TotalSize(ss) / 255
    decreases |ss|
  {
    if ss != [] {
      assert ss[0] in ss;
      SequenceBound(ss[0]);
      SequencesBound(ss[1..]);
      DivSum(|ss[0].literals|, TotalSize(ss[1..]), TotalSize(ss));
    }
  }

  lemma DivSum(a: nat, b: nat, c: nat)
    requires a + b <= c
    ensures a / 255 + b / 255 <= c / 255
  {
  }

  /** Output bound: every encoded block is within LZ4_compressBound of what it stands for. */
  lemma BlockBound(b: Block)
    requires b.Valid()
    ensures |EncodeBlock(b)| <= BlockSize(b) + BlockSize(b) / 255 + 2
  {
    hide EncodeSequences;
    SequencesBound(b.sequences);
    if 15 <= |b.last| { ChainLength(|b.last| - 15); }
    DivSum(TotalSize(b.sequences), |b.last|, BlockSize(b));
  }

  // ----- Writing one sequence -----

  /** The bytes of a literal length past its nibble (lz4.c:546-547, 641-642). */
  method WriteChain(dst: array<Byte>, start: nat, n: nat) returns (op: nat)
    requires start + |Chain(n)| <= dst.Length
    modifies dst
    ensures op == start + |Chain(n)| && dst[..op] == old(dst[..start]) + Chain(n)
  {
    var len := n;
    op := start;
    while len >= 255
      invariant start <= op && op + |Chain(len)| <= dst.Length && 0 <= len
      invariant dst[..op] + Chain(len) == old(dst[..start]) + Chain(n)
    {
      ghost var before := dst[..op];
      assert before + Chain(len) == before + [255] + Chain(len - 255);
      dst[op] := 255;
      op, len := op + 1, len - 255;
      assert dst[..op] == before + [255];
    }
    ghost var before := dst[..op];
    dst[op] := len;
    op := op + 1;
    assert dst[..op] == before + [len];
  }

  /** The same bytes for a match length, written in pairs (lz4.c:591-593). */
  method WriteChainInPairs(dst: array<Byte>, start: nat, n: nat) returns (op: nat)
    requires start + |Chain(n)| <= dst.Length
    modifies dst
    ensures op == start + |Chain(n)| && dst[..op] == old(dst[..start]) + Chain(n)
  {
    var len := n;
    op := start;
    while len >= 510
      invariant start <= op && op + |Chain(len)| <= dst.Length && 0 <= len
      invariant dst[..op] + Chain(len) == old(dst[..start]) + Chain(n)
    {
      ghost var before := dst[..op];
      assert before + Chain(len) == before + [255, 255] + Chain(len - 510) by {
        assert Chain(len) == [255] + Chain(len - 255) && Chain(len - 255) == [255] + Chain(len - 510);
      }
      dst[op] := 255;
      dst[op + 1] := 255;
      op, len := op + 2, len - 510;
      assert dst[..op] == before + [255, 255];
    }
    op := WriteChain(dst, op, len);
  }

  lemma Appended(now: seq<Byte>, head: seq<Byte>, src: seq<Byte>, from: nat, length: nat)
    requires |head| + length <= |now| && from + length <= |src| && now[..|head|] == head
    requires forall k :: |head| <= k < |head| + length ==> now[k] == src[from + k - |head|]
    ensures now[..|head| + length] == head + src[from..from + length]
  {
  }

  lemma HeadAndLiterals(before: seq<Byte>, literals: seq<Byte>, length: nat)
    requires length == |literals|
    ensures before + [16 * Nibble(length)] + Extension(length) + literals == before + EncodeLiterals(literals, 0)
  {
  }

  /** The token and the literal length (lz4.c:536-548); the low nibble of the token stays 0. */
  method WriteLiteralLength(dst: array<Byte>, start: nat, length: nat) returns (op: nat)
    requires start + 1 + |Extension(length)| <= dst.Length
    modifies dst
    ensures op == start + 1 + |Extension(length)|
    ensures dst[..op] == old(dst[..start]) + [16 * Nibble(length)] + Extension(length)
  {
    hide Chain;
    op := start + 1;
    dst[start] := 16 * Nibble(length);
    assert dst[..op] == old(dst[..start]) + [16 * Nibble(length)];
    if length >= 15 {
      op := WriteChain(dst, op, length - 15);
    }
  }

  /** ... and the literals (lz4.c:551-554). */
  method WriteLiterals(src: seq<Byte>, anchor: nat, ip: nat, dst: array<Byte>, start: nat) returns (op: nat)
    requires anchor <= ip && ip + 8 <= |src|
    requires start + 1 + |Extension(ip - anchor)| + (ip - anchor) + 8 <= dst.Length
    modifies dst
    ensures op <= dst.Length && dst[..op] == old(dst[..start]) + EncodeLiterals(src[anchor..ip], 0)
  {
    hide EncodeLiterals, Extension, Nibble;
    var length := ip - anchor;
    op := WriteLiteralLength(dst, start, length);
    ghost var head := dst[..op];
    WildCopyFrom(dst, op, src, anchor, op + length);
    Appended(dst[..], head, src, anchor, length);
    op := op + length;
    HeadAndLiterals(old(dst[..start]), src[anchor..ip], length);
  }

  /** The offset, the match length and the low nibble of the token (lz4.c:556-596). */
  method WriteMatch(dst: array<Byte>, token: nat, start: nat, distance: nat, matchLength: nat) returns (op: nat)
    requires token < start && 1 <= distance <= MAX_DISTANCE && MIN_MATCH <= matchLength
    requires start + 2 + |Extension(matchLength - MIN_MATCH)| <= dst.Length && dst[token] % 16 == 0
    modifies dst
    ensures op <= dst.Length
    ensures dst[..op] == old(dst[..start])[token := old(dst[token]) + Nibble(matchLength - MIN_MATCH)]
                         + EncodeMatch(distance, matchLength)
  {
    hide Chain;
    var code := matchLength - MIN_MATCH;
    var u16 := distance % 65536;
    var lo, hi := u16 % 256, u16 / 256;
    assert lo == distance % 256 && hi == distance / 256 < 256;
    ghost var updated := old(dst[..start])[token := old(dst[token]) + Nibble(code)];
    dst[token] := dst[token] + Nibble(code);
    assert dst[..start] == updated;
    dst[start], dst[start + 1] := lo, hi;
    op := start + 2;
    assert dst[..op] == dst[..start] + [lo, hi] == updated + [lo, hi];
    if code >= 15 {
      op := WriteChainInPairs(dst, op, code - 15);
    }
    assert dst[..op] == updated + ([lo, hi] + Extension(code));
  }

  /** Filling in the low nibble of a token already written. */
  lemma TokenUpdate(before: seq<Byte>, literals: seq<Byte>, low: nat)
    requires low < 16
    ensures var all := before + EncodeLiterals(literals, 0);
            && all[|before|] == 16 * Nibble(|literals|)
            && all[|before| := all[|before|] + low] == before + EncodeLiterals(literals, low)
  {
    hide Extension;
  }

  // ----- Finding matches -----

  /** Every position in the table lies before `ip`. */
  ghost predicate TableBelow(table: seq<nat>, ip: nat) {
    forall h :: 0 <= h < |table| ==> table[h] < ip
  }

  /** `ip` repeats what lies `distance` back, up to `end`. */
  ghost predicate Agrees(src: seq<Byte>, ip: nat, distance: nat, end: nat) {
    distance <= ip && end <= |src| && forall k :: ip <= k < end ==> src[k] == src[k - distance]
  }

  /** What a table of 16- or 32-bit entries keeps of a position (lz4.c:400-408). */
  function Stored(p: nat, tableType: TableType): nat {
    if tableType.ByU16? then p % 0x1_0000 else p % 0x1_0000_0000
  }

  lemma StoredExactly(p: nat, tableType: TableType, n: nat)
    requires p + MF_LIMIT <= n <= MAX_INPUT_SIZE && (tableType.ByU16? ==> n < LIMIT_64K)
    ensures Stored(p, tableType) == p && (tableType.ByU16? ==> p <= MAX_DISTANCE)
  {
  }

  /** The search loop (lz4.c:502-530): steps grow as it fails, and a candidate is taken only if its
      first four bytes agree. */
  method FindMatch(src: seq<Byte>, table: array<nat>, tableType: TableType, hash: nat -> nat, start: nat, acceleration: nat)
    returns (found: bool, ip: nat, candidate: nat)
    requires MIN_LENGTH <= |src| <= MAX_INPUT_SIZE && (tableType.ByU16? ==> |src| < LIMIT_64K)
    requires 1 <= acceleration && forall p :: hash(p) < table.Length
    requires 1 <= start <= |src| - MF_LIMIT + 1 && TableBelow(table[..], start)
    modifies table
    ensures found ==> start <= ip < |src| - MF_LIMIT && candidate < ip && ip - candidate <= MAX_DISTANCE
    ensures found ==> Agrees(src, ip, ip - candidate, ip + MIN_MATCH) && TableBelow(table[..], ip + 1)
  {
    var mflimit := |src| - MF_LIMIT;
    var forwardIp, step, searchMatchNb := start, 1, acceleration * SKIP_TRIGGER;
    assert searchMatchNb >= SKIP_TRIGGER;
    var forwardH := hash(start);
    while true
      invariant start <= forwardIp <= mflimit + 1 && 1 <= step && SKIP_TRIGGER <= searchMatchNb
      invariant forwardH == hash(forwardIp)
      invariant TableBelow(table[..], forwardIp)
      decreases mflimit + 1 - forwardIp
    {
      var h := forwardH;
      ip := forwardIp;
      forwardIp := forwardIp + step;
      step, searchMatchNb := searchMatchNb / SKIP_TRIGGER, searchMatchNb + 1;
      if forwardIp > mflimit { return false, ip, 0; }
      candidate := table[h];
      assert candidate == table[..][h];
      forwardH := hash(forwardIp);
      StoredExactly(ip, tableType, |src|);
      table[h] := Stored(ip, tableType);
      if !(tableType.ByU32? && candidate + MAX_DISTANCE < ip) && src[candidate..candidate + 4] == src[ip..ip + 4] {
        Agree(src, candidate, ip, 4);
        return true, ip, candidate;
      }
    }
  }

  /** Extending a match to the left (lz4.c:534). */
  method CatchUp(src: seq<Byte>, anchor: nat, start: nat, distance: nat, ghost end: nat) returns (ip: nat)
    requires anchor <= start <= |src| && 1 <= distance <= start <= end && Agrees(src, start, distance, end)
    ensures anchor <= ip <= start && Agrees(src, ip, distance, end)
  {
    ip := start;
    while ip > anchor && ip - distance > 0 && src[ip - 1] == src[ip - distance - 1]
      invariant anchor <= ip <= start && distance <= ip && Agrees(src, ip, distance, end)
    {
      ip := ip - 1;
    }
  }

  // ----- The encoder -----

  /** The sequences `ss` encode the first `anchor` bytes of the input, as written in `out`. */
  ghost predicate Encoded(src: seq<Byte>, ss: seq<Sequence>, anchor: nat, out: seq<Byte>) {
    && Guaranteed(ss, 0, |src|) && TotalSize(ss) == anchor <= |src|
    && Expandable(ss, 0) && (forall t <- ss :: t.Valid())
    && Expand(ss, []) == src[..anchor]
    && out == EncodeSequences(ss)
  }

  /** A match at `ip`, known to agree as far as `top + MIN_MATCH`. */
  ghost predicate MatchAt(src: seq<Byte>, anchor: nat, ip: nat, distance: nat, top: nat) {
    && anchor <= ip <= top && top + MF_LIMIT <= |src| && 1 <= distance <= MAX_DISTANCE
    && Agrees(src, ip, distance, top + MIN_MATCH)
  }

  /** One more sequence: the literals up to `ip` and the match from there to `end`. */
  lemma EncodedNext(src: seq<Byte>, ss: seq<Sequence>, anchor: nat, out: seq<Byte>, ip: nat, distance: nat, end: nat)
    requires Encoded(src, ss, anchor, out)
    requires anchor <= ip && ip + MF_LIMIT <= |src| && ip + MIN_MATCH <= end <= |src| - LAST_LITERALS
    requires 1 <= distance <= MAX_DISTANCE && Agrees(src, ip, distance, end)
    ensures var s := Sequence(src[anchor..ip], distance, end - ip);
            s.Valid() && Encoded(src, ss + [s], end, out + EncodeSequence(s))
  {
    hide EncodeSequence, EncodeSequences, Guaranteed, Expand, Expandable, TotalSize, CopyMatch;
    var s := Sequence(src[anchor..ip], distance, end - ip);
    EncodeSnoc(ss, s);
    GuaranteedSnoc(ss, s, 0, |src|);
    ExpandSnoc(ss, s, []);
    AgreesIsCopy(src, anchor, ip, distance, end);
  }

  lemma AgreesIsCopy(src: seq<Byte>, anchor: nat, ip: nat, distance: nat, end: nat)
    requires anchor <= ip <= end && 1 <= distance && Agrees(src, ip, distance, end)
    ensures CopyMatch(src[..anchor] + src[anchor..ip], distance, end - ip) == src[..end]
  {
    hide CopyMatch;
    assert src[..anchor] + src[anchor..ip] == src[..ip] == src[..end][..ip];
    assert Repeats(src[..end], ip, distance);
    RepeatsIsCopyMatch(src[..end], ip, distance);
  }

  /** Room for the token, the literals and the over-copy of a sequence. */
  lemma RoomForLiterals(src: seq<Byte>, ss: seq<Sequence>, anchor: nat, out: seq<Byte>, ip: nat)
    requires Encoded(src, ss, anchor, out) && anchor <= ip && ip + MF_LIMIT <= |src| <= MAX_INPUT_SIZE
    ensures |out| + 1 + |Extension(ip - anchor)| + (ip - anchor) + 8 <= CompressBound(|src|)
  {
    SequencesBound(ss);
    if ip - anchor >= 15 { ChainLength(ip - anchor - 15); }
    DivSum(anchor, ip - anchor, |src|);
  }

  lemma RoomForMatch(src: seq<Byte>, ss: seq<Sequence>, anchor: nat, out: seq<Byte>)
    requires Encoded(src, ss, anchor, out) && |src| <= MAX_INPUT_SIZE
    ensures |out| + 13 <= CompressBound(|src|)
  {
    SequencesBound(ss);
    DivSum(anchor, 0, |src|);
  }

  /** The match part of a sequence (from the label _next_match): count, then write. */
  method EmitMatch(src: seq<Byte>, dst: array<Byte>, start: nat, ghost ss: seq<Sequence>, anchor: nat, token: nat,
                   at: nat, distance: nat, ghost top: nat, step: nat)
    returns (op: nat, ip: nat, ghost s: Sequence)
    requires |src| <= MAX_INPUT_SIZE && CompressBound(|src|) <= dst.Length && (step == 4 || step == 8)
    requires start <= dst.Length && token <= dst.Length && Encoded(src, ss, anchor, dst[..token])
    requires MatchAt(src, anchor, at, distance, top)
    requires dst[..start] == dst[..token] + EncodeLiterals(src[anchor..at], 0)
    modifies dst
    ensures op <= dst.Length && top + MIN_MATCH <= ip <= |src| - LAST_LITERALS
    ensures Encoded(src, ss + [s], ip, dst[..op])
  {
    hide EncodeMatch, EncodeSequences, Extension, EncodeLiterals, Encoded;
    var n := Count(src, at + MIN_MATCH, at + MIN_MATCH - distance, |src| - LAST_LITERALS, step);
    ip := at + MIN_MATCH + n;
    CountCovers(src, at, distance, top, n);
    ghost var before := dst[..token];
    s := Sequence(src[anchor..at], distance, MIN_MATCH + n);
    EncodedNext(src, ss, anchor, before, at, distance, ip);
    RoomForMatch(src, ss + [s], ip, before + EncodeSequence(s));
    SequenceLength(s);
    LiteralsSize(s.literals, 0);
    LiteralsSize(s.literals, Nibble(n));
    TokenUpdate(before, s.literals, Nibble(n));
    assert dst[token] == dst[..start][token];
    op := WriteMatch(dst, token, start, distance, MIN_MATCH + n);
    assert dst[..op] == before + EncodeSequence(s);
  }

  lemma LiteralsSize(literals: seq<Byte>, low: nat)
    requires low < 16
    ensures |EncodeLiterals(literals, low)| == 1 + |Extension(|literals|)| + |literals|
  {
  }

  /** Counting from MIN_MATCH on finds at least what the search and the catch-up compared. */
  lemma CountCovers(src: seq<Byte>, at: nat, distance: nat, top: nat, n: nat)
    requires at <= top && top + MF_LIMIT <= |src| && 1 <= distance
    requires Agrees(src, at, distance, top + MIN_MATCH)
    requires IsCommonLength(src, at + MIN_MATCH, at + MIN_MATCH - distance, |src| - LAST_LITERALS, n)
    ensures top + MIN_MATCH <= at + MIN_MATCH + n && Agrees(src, at, distance, at + MIN_MATCH + n)
  {
    var end := at + MIN_MATCH + n;
    assert end < |src| - LAST_LITERALS ==> src[end] != src[end - distance];
  }

  lemma NoLiterals(src: seq<Byte>, ip: nat)
    requires ip <= |src|
    ensures EncodeLiterals(src[ip..ip], 0) == [0]
  {
  }

  lemma AgreesFour(src: seq<Byte>, from: nat, at: nat)
    requires from <= at && at + 4 <= |src| && src[from..from + 4] == src[at..at + 4]
    ensures Agrees(src, at, at - from, at + MIN_MATCH)
  {
    Agree(src, from, at, 4);
  }

  /** Filling the table and testing the position after a match (lz4.c:603-625). */
  method TestNext(src: seq<Byte>, table: array<nat>, tableType: TableType, hash: nat -> nat, ip: nat)
    returns (hit: bool, distance: nat)
    requires |src| <= MAX_INPUT_SIZE && (tableType.ByU16? ==> |src| < LIMIT_64K)
    requires (forall p :: hash(p) < table.Length) && 2 <= ip <= |src| - MF_LIMIT && TableBelow(table[..], ip)
    modifies table
    ensures TableBelow(table[..], ip + 1)
    ensures hit ==> 1 <= distance <= MAX_DISTANCE && Agrees(src, ip, distance, ip + MIN_MATCH)
  {
    StoredExactly(ip, tableType, |src|);
    StoredExactly(ip - 2, tableType, |src|);
    table[hash(ip - 2)] := Stored(ip - 2, tableType);
    var candidate := table[hash(ip)];
    assert candidate == table[..][hash(ip)];
    table[hash(ip)] := Stored(ip, tableType);
    hit := candidate + MAX_DISTANCE >= ip && src[candidate..candidate + 4] == src[ip..ip + 4];
    distance := ip - candidate;
    if hit { AgreesFour(src, candidate, ip); }
  }

  /** The run of sequences that starts where a search has found a match: one with its literals,
      then as many as match at once (lz4.c:533-628).  `more` says that the search goes on. */
  method EmitRun(src: seq<Byte>, dst: array<Byte>, start: nat, ghost ss0: seq<Sequence>, anchor0: nat,
                 table: array<nat>, tableType: TableType, hash: nat -> nat, at: nat, distance0: nat, ghost top0: nat,
                 step: nat)
    returns (more: bool, op: nat, ip: nat, anchor: nat, ghost ss: seq<Sequence>)
    requires MIN_LENGTH <= |src| <= MAX_INPUT_SIZE && (tableType.ByU16? ==> |src| < LIMIT_64K)
    requires CompressBound(|src|) <= dst.Length && (step == 4 || step == 8) && table as object != dst
    requires (forall p :: hash(p) < table.Length) && TableBelow(table[..], top0 + 1)
    requires start <= dst.Length && Encoded(src, ss0, anchor0, dst[..start])
    requires MatchAt(src, anchor0, at, distance0, top0)
    modifies dst, table
    ensures op <= dst.Length && Encoded(src, ss, anchor, dst[..op])
    ensures anchor0 < anchor <= |src| - LAST_LITERALS && ss != []
    ensures more ==> anchor < ip <= |src| - MF_LIMIT + 1 && TableBelow(table[..], ip)
  {
    hide EncodeLiterals, Encoded, Extension, Agrees;
    ss, anchor, ip := ss0, anchor0, at;
    var distance: nat, token: nat := distance0, start;
    ghost var top: nat := top0;
    RoomForLiterals(src, ss, anchor, dst[..start], ip);
    op := WriteLiterals(src, anchor, ip, dst, start);
    assert dst[..start] == dst[..op][..start] == old(dst[..start]);
    while true
      invariant anchor0 <= anchor && MatchAt(src, anchor, ip, distance, top) && TableBelow(table[..], top + 1)
      invariant token <= dst.Length && op <= dst.Length && Encoded(src, ss, anchor, dst[..token])
      invariant dst[..op] == dst[..token] + EncodeLiterals(src[anchor..ip], 0)
      decreases |src| - ip
    {
      ghost var s;
      op, ip, s := EmitMatch(src, dst, op, ss, anchor, token, ip, distance, top, step);
      ss, anchor := ss + [s], ip;
      if ip > |src| - MF_LIMIT { return false, op, ip, anchor, ss; }
      var hit;
      hit, distance := TestNext(src, table, tableType, hash, ip);
      if !hit { return true, op, ip + 1, anchor, ss; }
      top, token := ip, op;
      RoomForMatch(src, ss, anchor, dst[..op]);
      dst[op] := 0;
      op := op + 1;
      NoLiterals(src, ip);
      assert dst[..op] == dst[..token] + [0];
    }
  }

  /** The literals that close the block (lz4.c:631-650). */
  method WriteLast(literals: seq<Byte>, dst: array<Byte>, start: nat) returns (op: nat)
    requires start + |EncodeLiterals(literals, 0)| <= dst.Length
    modifies dst
    ensures op <= dst.Length && dst[..op] == old(dst[..start]) + EncodeLiterals(literals, 0)
  {
    hide Chain;
    var length := |literals|;
    op := start + 1;
    dst[start] := 16 * Nibble(length);
    assert dst[..op] == old(dst[..start]) + [16 * Nibble(length)];
    if length >= 15 {
      op := WriteChain(dst, op, length - 15);
    }
    ghost var head := old(dst[..start]) + [16 * Nibble(length)] + Extension(length);
    assert dst[..op] == head;
    forall i | 0 <= i < length { dst[op + i] := literals[i]; }
    assert dst[..op + length] == head + literals;
    op := op + length;
  }

  lemma BlockCloses(src: seq<Byte>, ss: seq<Sequence>, anchor: nat, out: seq<Byte>)
    requires |src| <= MAX_INPUT_SIZE && Encoded(src, ss, anchor, out)
    requires ss != [] ==> anchor <= |src| - LAST_LITERALS
    ensures IsCompressed(out + EncodeLiterals(src[anchor..], 0), src, Block(ss, src[anchor..], 0))
  {
    hide Extension, EncodeSequences;
    var b := Block(ss, src[anchor..], 0);
    BlockBound(b);
    LiteralsSize(b.last, 0);
    assert src == src[..anchor] + src[anchor..];
  }

  /** `out` is an encoding of `src` by the block `b`, and `b` keeps the encoder's guarantees. */
  ghost predicate IsCompressed(out: seq<Byte>, src: seq<Byte>, b: Block) {
    && b.Valid() && b.low == 0 && out == EncodeBlock(b) && 0 < |out| <= CompressBound(|src|)
    && Expandable(b.sequences, 0) && ExpandBlock(b) == src && BlockSize(b) == |src|
    && Guaranteed(b.sequences, 0, |src|) && (b.sequences != [] ==> LAST_LITERALS <= |b.last|)
  }

  /** LZ4_compress_generic.  For every input within the limits, every hash function and every
      acceleration, the bytes written are an encoding of the input, within the bound. */
  method CompressGeneric(src: seq<Byte>, dst: array<Byte>, table: array<nat>, tableType: TableType, hash: nat -> nat,
                         acceleration: nat, step: nat)
    returns (result: nat, ghost b: Block)
    requires (step == 4 || step == 8) && 1 <= acceleration && table as object != dst
    requires (forall p :: hash(p) < table.Length) && TableBelow(table[..], 1)
    requires CompressBound(|src|) <= dst.Length
    modifies dst, table
    ensures |src| > MAX_INPUT_SIZE || (tableType.ByU16? && |src| >= LIMIT_64K) ==> result == 0
    ensures |src| <= MAX_INPUT_SIZE && (tableType.ByU16? ==> |src| < LIMIT_64K) ==>
              result <= dst.Length && IsCompressed(dst[..result], src, b)
  {
    hide Guaranteed, Agrees;
    if |src| > MAX_INPUT_SIZE || (tableType.ByU16? && |src| >= LIMIT_64K) { return 0, Block([], [], 0); }
    var op: nat, anchor: nat := 0, 0;
    ghost var ss: seq<Sequence> := [];
    NothingEncoded(src);
    assert dst[..0] == [];
    if |src| >= MIN_LENGTH {
      StoredExactly(0, tableType, |src|);
      table[hash(0)] := Stored(0, tableType);
      var ip, more := 1, true;
      while more
        invariant op <= dst.Length && Encoded(src, ss, anchor, dst[..op])
        invariant ss != [] ==> anchor <= |src| - LAST_LITERALS
        invariant more ==> anchor < ip <= |src| - MF_LIMIT + 1 && TableBelow(table[..], ip)
        decreases |src| - anchor, more
      {
        var found, candidate;
        found, ip, candidate := FindMatch(src, table, tableType, hash, ip, acceleration);
        if !found { break; }
        var distance := ip - candidate;
        ghost var top := ip;
        ip := CatchUp(src, anchor, ip, distance, top + MIN_MATCH);
        more, op, ip, anchor, ss :=
          EmitRun(src, dst, op, ss, anchor, table, tableType, hash, ip, distance, top, step);
      }
    }
    BlockCloses(src, ss, anchor, dst[..op]);
    b := Block(ss, src[anchor..], 0);
    result := WriteLast(src[anchor..], dst, op);
  }

  lemma NothingEncoded(src: seq<Byte>)
    ensures Encoded(src, [], 0, [])
  {
  }

  /** LZ4_compress_default with a buffer of at least LZ4_compressBound bytes (lz4.c:657-700): the
      table is cleared, and its type follows from the size of the input. */
  method CompressDefault(src: seq<Byte>, dst: array<Byte>, tableSize: nat, hash: nat -> nat, step: nat)
    returns (result: nat, ghost b: Block)
    requires (step == 4 || step == 8) && forall p :: hash(p) < tableSize
    requires CompressBound(|src|) <= dst.Length
    modifies dst
    ensures |src| > MAX_INPUT_SIZE ==> result == 0
    ensures |src| <= MAX_INPUT_SIZE ==> result <= dst.Length && IsCompressed(dst[..result], src, b)
  {
    var table := new nat[tableSize](_ => 0);
    var tableType := if |src| < LIMIT_64K then ByU16 else ByU32;
    result, b := CompressGeneric(src, dst, table, tableType, hash, 1, step);
  }
}

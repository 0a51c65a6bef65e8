/** LZ4_decompress_safe (lz4.c:1110-1291 with endOnInputSize, full, noDict): the loop over the
    bytes of the input, proved against the parser and the meaning of a block. */
module Lz4Decoder {
  import opened Basics
  import opened Lz4Format
  import opened Lz4Copy

  // ----- Blocks read from the left -----

  function Prepend(ss: seq<Sequence>, b: Option<Block>): Option<Block> {
    match b
    case None => None
    case Some(v) => Some(Block(ss + v.sequences, v.last, v.low))
  }

  // ----- The two length chains -----

  /** lz4.c:1157-1169.  `mem` holds the `n` bytes of input and then whatever follows them.
      Only a chain that starts at the very end of the input reads past it, by one byte. */
  method ReadLiteralLength(mem: seq<Byte>, n: nat, token: Byte, start: nat) returns (length: nat, ip: nat)
    requires start < |mem| && n <= |mem|
    ensures start <= ip
    ensures token / 16 < 15 ==> ip == start && length == token / 16
    ensures n <= start && token / 16 == 15 ==> ip == start + 1 && 15 <= length
    ensures start < n ==> ip <= n
    ensures start <= n && (start < n || token / 16 < 15) ==>
              LiteralLength(token, mem[start..n]) == Length(length, ip - start)
    ensures start == n && token / 16 == 15 ==> LiteralLength(token, mem[start..n]).Short?
  {
    length, ip := token / 16, start;
    if length == 15 {
      while true
        invariant start <= ip < |mem| && (ip < n || ip == start) && 15 <= length
        invariant start < n ==>
          LiteralChain(mem[start..n]) == Length(length - 15 + LiteralChain(mem[ip..n]).value,
                                                ip - start + LiteralChain(mem[ip..n]).used)
        decreases |mem| - ip
      {
        var s := mem[ip];
        assert start < n ==> mem[ip..n][0] == s && mem[ip..n][1..] == mem[ip + 1..n];
        ip, length := ip + 1, length + s;
        if !(ip < n - 15 && s == 255) { break; }
      }
    }
  }

  /** lz4.c:1199-1211.  Never reads past the input. */
  method ReadMatchLength(mem: seq<Byte>, n: nat, token: Byte, start: nat) returns (length: Length, ip: nat)
    requires start <= n <= |mem|
    ensures length == MatchLength(token, mem[start..n])
    ensures start <= ip <= n && (length.Length? ==> ip == start + length.used)
  {
    var m: nat := token % 16;
    ip := start;
    if m == 15 {
      while true
        invariant start <= ip <= n && 15 <= m
        invariant MatchChain(mem[start..n]) ==
          match MatchChain(mem[ip..n]) case Short => Short case Length(v, u) => Length(m - 15 + v, ip - start + u)
        decreases n - ip
      {
        if ip > n - LAST_LITERALS { return Short, ip; }
        var s := mem[ip];
        assert mem[ip..n][0] == s && mem[ip..n][1..] == mem[ip + 1..n];
        ip, m := ip + 1, m + s;
        if s != 255 { break; }
      }
    }
    length := Length(MIN_MATCH + m, ip - start);
  }

  // ----- One turn of the main loop -----

  datatype Status = More | Finished | Failed

  /** Whether a turn that starts at `ip` reads past the `n` bytes of input. */
  predicate OverReads(mem: seq<Byte>, n: nat, ip: nat)
    requires n < |mem|
  {
    ip == n || (ip + 1 == n && mem[ip] >= 0xF0)
  }

  function Max(a: nat, b: nat): nat {
    if a < b then b else a
  }

  /** The match half of a turn, after the literals (lz4.c:1194-1273). */
  method TakeMatch(mem: seq<Byte>, n: nat, token: Byte, start: nat, dst: array<Byte>, done: nat)
    returns (ok: bool, ip: nat, op: nat)
    requires start + 8 <= n <= |mem| && done <= dst.Length - MF_LIMIT
    modifies dst
    ensures var r := ReadMatch(token, mem[start..n], done, dst.Length);
            && (ok <==> r.Some?)
            && (!ok ==> start <= ip <= n && op == done)
            && (ok ==>
                  var (offset, m) := r.value;
                  && ip == start + 2 + m.used <= n && op == done + m.value && offset <= done && op <= dst.Length
                  && (1 <= offset ==> dst[..op] == CopyMatch(old(dst[..done]), offset, m.value))
                  && (offset == 0 ==> dst[..done] == old(dst[..done])
                                      && forall k :: done <= k < op && k < done + 8 ==> dst[k] == old(dst[k])))
  {
    ip, op := start, done;
    assert mem[start..n][0] == mem[start] && mem[start..n][1] == mem[start + 1];
    assert mem[start..n][2..] == mem[start + 2..n];
    var offset: int := mem[ip] + 256 * (mem[ip + 1] as int);
    ip := ip + 2;
    if offset > op { return false, ip, op; }
    var m;
    m, ip := ReadMatchLength(mem, n, token, ip);
    if m.Short? { return false, ip, op; }
    ok := CopyMatchFast(dst, op, offset, m.value);
    if ok { op := op + m.value; }
  }

  /** What a turn leaves behind, against what the parser says it reads. */
  ghost predicate TurnDone(t: Turn, status: Status, old_: seq<Byte>, new_: seq<Byte>, used: int) {
    match t
    case Bad => status == Failed
    case Close(last, _) => status == Finished && new_ == old_ + last
    case Next(s, u) =>
      && status == More && used == u && |new_| == |old_| + s.Size() && s.offset <= |old_| + |s.literals|
      && new_ == CopyOrFill(old_ + s.literals, s.offset, s.matchLength, new_[|old_| + |s.literals|..])
  }

  /** What the first eight bytes of a match with an offset of zero are: bytes of the input, as far as
      the copy of the literals before it went too far, and then what the buffer held before. */
  ghost predicate Leaves(mem: seq<Byte>, from: nat, done: nat, literals: nat, length: nat, was: seq<Byte>, now: seq<Byte>)
    requires done + literals + length <= |was| == |now|
  {
    var end := done + literals;
    forall k :: end <= k < end + length && k < end + 8 ==>
      now[k] == if k < WildEnd(done, end) && from + (k - done) < |mem| then mem[from + (k - done)] else was[k]
  }

  /** Where the literals of a turn start. */
  ghost function LiteralsAt(mem: seq<Byte>, start: nat, n: nat): nat
    requires start <= n <= |mem|
  {
    if start == n then start
    else match LiteralLength(mem[start], mem[start + 1..n]) case Length(_, used) => start + 1 + used case Short => start
  }

  /** A match with an offset of zero has left what it found. */
  ghost predicate FirstLeft(mem: seq<Byte>, start: nat, n: nat, done: nat, s: Sequence, was: seq<Byte>, now: seq<Byte>)
    requires start <= n <= |mem|
  {
    && |was| == |now| && done + |s.literals| + s.matchLength <= |was|
    && Leaves(mem, LiteralsAt(mem, start, n), done, |s.literals|, s.matchLength, was, now)
  }

  lemma TurnLeavesFour(rest: seq<Byte>, done: nat, capacity: nat)
    ensures var t := ReadTurn(rest, done, capacity); t.Next? ==> t.used + 4 <= |rest|
  {
    hide ReadTurn;
    TurnIsSound(rest, done, capacity);
  }

  /** The literals that close the block (lz4.c:1186-1189). */
  method TakeLast(mem: seq<Byte>, ip: nat, length: nat, dst: array<Byte>, op: nat)
    requires ip + length <= |mem| && op + length <= dst.Length
    modifies dst
    ensures dst[..op + length] == old(dst[..op]) + mem[ip..ip + length]
  {
    forall i | 0 <= i < length { dst[op + i] := mem[ip + i]; }
  }

  /** The literals of a sequence, by a wild copy that stays inside both buffers, then its match. */
  method TakeSequence(mem: seq<Byte>, n: nat, token: Byte, start: nat, length: nat, dst: array<Byte>, done: nat)
    returns (ok: bool, ip: nat, op: nat, ghost reach: nat)
    requires start + length + 8 <= n <= |mem| && done + length <= dst.Length - MF_LIMIT
    modifies dst
    ensures start <= ip <= reach <= n && done <= op <= dst.Length
    ensures var r := ReadMatch(token, mem[start + length..n], done + length, dst.Length);
            && (ok <==> r.Some?)
            && (ok ==>
                  var (offset, m) := r.value;
                  && ip == start + length + 2 + m.used && op == done + length + m.value && offset <= done + length
                  && dst[..op] == CopyOrFill(old(dst[..done]) + mem[start..start + length], offset, m.value, dst[done + length..op])
                  && (offset == 0 ==> Leaves(mem, start, done, length, m.value, old(dst[..]), dst[..])))
  {
    hide ReadMatch, CopyMatch;
    var end := done + length;
    WildCopyFrom(dst, done, mem, start, end);
    assert dst[..end] == old(dst[..done]) + mem[start..start + length];
    ghost var mid := dst[..];
    ok, ip, op := TakeMatch(mem, n, token, start + length, dst, end);
    if ok && ReadMatch(token, mem[start + length..n], end, dst.Length).value.0 == 0 {
      assert dst[..op] == dst[..end] + dst[end..op];
      assert dst[..end] == mid[..end];
    }
    reach := Max(ip, start + (WildEnd(done, end) - done));
  }

  /** The turn that starts at `start`, its literals at `from`, when it closes the block. */
  lemma ClosesInPlace(mem: seq<Byte>, start: nat, n: nat, from: nat, length: nat, done: nat, capacity: nat)
    requires start < from <= n <= |mem|
    requires LiteralLength(mem[start], mem[start + 1..n]) == Length(length, from - start - 1)
    requires MustClose(done, length, n - from, capacity)
    ensures ReadTurn(mem[start..n], done, capacity)
            == if from + length == n && done + length <= capacity then Close(mem[from..n], mem[start] % 16) else Bad
  {
    hide ReadTurn, LiteralLength;
    var rest := mem[start..n];
    assert rest[0] == mem[start] && rest[1..] == mem[start + 1..n] && rest[from - start..] == mem[from..n];
    TurnMustClose(rest, done, capacity, length, from - start - 1);
  }

  /** ... and when it goes on with a match. */
  lemma GoesOnInPlace(mem: seq<Byte>, start: nat, n: nat, from: nat, length: nat, done: nat, capacity: nat)
    requires start < from <= n <= |mem|
    requires LiteralLength(mem[start], mem[start + 1..n]) == Length(length, from - start - 1)
    requires !MustClose(done, length, n - from, capacity)
    ensures from + length <= n
    ensures ReadTurn(mem[start..n], done, capacity)
            == match ReadMatch(mem[start], mem[from + length..n], done + length, capacity)
               case None => Bad
               case Some((offset, m)) =>
                 Next(Sequence(mem[from..from + length], offset, m.value), from - start + length + 2 + m.used)
  {
    hide ReadTurn, LiteralLength, ReadMatch;
    var rest := mem[start..n];
    assert rest[0] == mem[start] && rest[1..] == mem[start + 1..n];
    var body := rest[from - start..];
    assert body == mem[from..n];
    assert body[..length] == mem[from..from + length] && body[length..] == mem[from + length..n];
    TurnGoesOn(rest, done, capacity, length, from - start - 1);
  }

  /** A turn that goes on with a match. */
  method GoOn(mem: seq<Byte>, n: nat, start: nat, from: nat, length: nat, dst: array<Byte>, done: nat)
    returns (status: Status, ip: nat, op: nat, ghost reach: nat)
    requires start < from && from + length + 8 <= n <= |mem| && done + length <= dst.Length - MF_LIMIT
    requires LiteralLength(mem[start], mem[start + 1..n]) == Length(length, from - start - 1)
    modifies dst
    ensures done <= op <= dst.Length && start < ip && reach <= n
    ensures TurnDone(ReadTurn(mem[start..n], done, dst.Length), status, old(dst[..done]), dst[..op], ip - start)
    ensures status == More ==> ip + 4 <= n
    ensures var t := ReadTurn(mem[start..n], done, dst.Length);
            t.Next? && t.s.offset == 0 ==> FirstLeft(mem, start, n, done, t.s, old(dst[..]), dst[..])
  {
    hide ReadTurn, LiteralLength, ReadMatch, CopyMatch, CopyOrFill, Leaves;
    TurnLeavesFour(mem[start..n], done, dst.Length);
    GoesOnInPlace(mem, start, n, from, length, done, dst.Length);
    var ok;
    ok, ip, op, reach := TakeSequence(mem, n, mem[start], from, length, dst, done);
    status := if ok then More else Failed;
  }

  method TakeTurn(mem: seq<Byte>, n: nat, start: nat, dst: array<Byte>, done: nat)
    returns (status: Status, ip: nat, op: nat, ghost reach: nat)
    requires n + 2 <= |mem| && start <= n && done <= dst.Length
    modifies dst
    ensures done <= op <= dst.Length && start < ip
    ensures TurnDone(ReadTurn(mem[start..n], done, dst.Length), status, old(dst[..done]), dst[..op], ip - start)
    ensures status == More ==> ip + 4 <= n
    ensures reach <= n <==> !OverReads(mem, n, start)
    ensures var t := ReadTurn(mem[start..n], done, dst.Length);
            t.Next? && t.s.offset == 0 ==> FirstLeft(mem, start, n, done, t.s, old(dst[..]), dst[..])
  {
    hide ReadTurn, LiteralLength, ReadMatch, CopyMatch, Leaves;
    ghost var rest := mem[start..n];
    var token := mem[start];
    var length;
    length, ip := ReadLiteralLength(mem, n, token, start + 1);
    op, reach := done, ip;
    assert start < n ==> rest[0] == token && rest[1..] == mem[start + 1..n];
    if OverReads(mem, n, start) {
      TurnIsShort(rest, done, dst.Length);
    }
    if op + length > dst.Length - MF_LIMIT || ip + length > n - (2 + 1 + LAST_LITERALS) {
      if !OverReads(mem, n, start) {
        ClosesInPlace(mem, start, n, ip, length, done, dst.Length);
      }
      if ip + length != n || op + length > dst.Length { return Failed, ip, op, reach; }
      TakeLast(mem, ip, length, dst, op);
      return Finished, n, op + length, n;
    }
    status, ip, op, reach := GoOn(mem, n, start, ip, length, dst, op);
  }

  // ----- The decoder -----

  /** The decoder's state after the sequences `ss`, on the way to reading all of `src`. */
  ghost predicate Progress(ss: seq<Sequence>, fills: seq<seq<Byte>>, src: seq<Byte>, ip: nat, out: seq<Byte>, capacity: nat) {
    && ip <= |src|
    && Parse(src, 0, capacity) == Prepend(ss, Parse(src[ip..], |out|, capacity))
    && Expandable(ss, 0) && TotalSize(ss) == |out|
    && FillsFor(ss, fills) && out == ExpandFilled(ss, [], fills)
  }

  lemma ProgressStart(src: seq<Byte>, capacity: nat)
    ensures Progress([], [], src, 0, [], capacity)
  {
    assert src[0..] == src;
    match Parse(src, 0, capacity)
    case None =>
    case Some(b) => assert [] + b.sequences == b.sequences;
  }

  lemma ProgressNext(ss: seq<Sequence>, fills: seq<seq<Byte>>, src: seq<Byte>, ip: nat, out: seq<Byte>, capacity: nat,
                     s: Sequence, used: nat, new_: seq<Byte>)
    requires Progress(ss, fills, src, ip, out, capacity) && ip + used <= |src|
    requires ReadTurn(src[ip..], |out|, capacity) == Next(s, used)
    requires TurnDone(Next(s, used), More, out, new_, used)
    ensures Progress(ss + [s], fills + [new_[|out| + |s.literals|..]], src, ip + used, new_, capacity)
  {
    hide ReadTurn, CopyMatch, CopyOrFill, ExpandFilled;
    assert src[ip..][used..] == src[ip + used..];
    ExpandSnoc(ss, s, []);
    ExpandFilledSnoc(ss, s, [], fills, new_[|out| + |s.literals|..]);
    match Parse(src[ip + used..], |new_|, capacity)
    case None =>
    case Some(b) => assert (ss + [s]) + b.sequences == ss + ([s] + b.sequences);
  }

  lemma ProgressFails(ss: seq<Sequence>, fills: seq<seq<Byte>>, src: seq<Byte>, ip: nat, out: seq<Byte>, capacity: nat)
    requires Progress(ss, fills, src, ip, out, capacity) && ReadTurn(src[ip..], |out|, capacity) == Bad
    ensures Parse(src, 0, capacity) == None
  {
    hide ReadTurn;
    ParseFails(src[ip..], |out|, capacity);
  }

  lemma ProgressClose(ss: seq<Sequence>, fills: seq<seq<Byte>>, src: seq<Byte>, ip: nat, out: seq<Byte>, capacity: nat,
                      last: seq<Byte>, low: nat)
    requires Progress(ss, fills, src, ip, out, capacity)
    requires ReadTurn(src[ip..], |out|, capacity) == Close(last, low)
    ensures Parse(src, 0, capacity) == Some(Block(ss, last, low))
    ensures Expandable(ss, 0) && BlockSize(Block(ss, last, low)) == |out + last|
    ensures FillsFor(ss, fills) && out + last == ExpandFilled(ss, [], fills) + last
    ensures Block(ss, last, low).NoZeroOffset() ==> out + last == ExpandBlock(Block(ss, last, low))
  {
    hide ReadTurn;
    if Block(ss, last, low).NoZeroOffset() {
      NothingToFill(ss, [], fills);
    }
    ParseClosed(src[ip..], |out|, capacity, last, low);
    assert ss + [] == ss;
  }

  /** LZ4_decompress_safe on the `n` bytes of `mem`, into the whole of `dst`.  For every input:
      it succeeds exactly when the input encodes a block within the limits of a buffer this
      size, it returns the size of that block, and the first bytes of the buffer are what the
      block means, with some bytes for each match that has an offset of zero.  If the first match
      has, its first eight bytes are what has been left there.  It reads past its input only for
      an empty input, or for a single byte whose literal length goes on. */
  method DecompressSafe(mem: seq<Byte>, n: nat, dst: array<Byte>)
    returns (result: int, ghost reach: nat, ghost fills: seq<seq<Byte>>)
    requires n + 2 <= |mem|
    modifies dst
    ensures match ParseInput(mem[..n], dst.Length)
            case None => if dst.Length == 0 then result == -1 else result <= -2
            case Some(b) =>
              && Expandable(b.sequences, 0) && result == BlockSize(b) <= dst.Length
              && FillsFor(b.sequences, fills) && dst[..result] == ExpandFilled(b.sequences, [], fills) + b.last
              && (b.NoZeroOffset() ==> dst[..result] == ExpandBlock(b))
              && (b.sequences != [] && b.sequences[0].offset == 0 ==>
                    FirstFill(mem, n, b.sequences[0], old(dst[..]), fills[0]))
    ensures reach <= n <==> dst.Length == 0 || (n != 0 && !(n == 1 && mem[0] >= 0xF0))
  {
    hide ReadTurn, CopyMatch, ExpandFilled, FirstFill, FirstLeft, CopyOrFill, Parse, Progress;
    ghost var src := mem[..n];
    fills := [];
    if dst.Length == 0 {
      NothingToFill([], [], []);
      reach := n;
      assert src == [0] <==> n == 1 && mem[0] == 0;
      result := if n == 1 && mem[0] == 0 then 0 else -1;
      return;
    }
    var ip, op := 0, 0;
    ghost var ss: seq<Sequence> := [];
    reach := 0;
    ProgressStart(src, dst.Length);
    assert dst[..0] == [];
    while true
      invariant ip <= n && op <= dst.Length && (ip == 0 || ip + 4 <= n)
      invariant |ss| == |fills| && Progress(ss, fills, src, ip, dst[..op], dst.Length)
      invariant ss == [] ==> ip == 0 && op == 0 && dst[..] == old(dst[..])
      invariant ss != [] && ss[0].offset == 0 ==> FirstFill(mem, n, ss[0], old(dst[..]), fills[0])
      invariant if ip == 0 then reach == 0 else reach <= n && n >= 2
      decreases n - ip
    {
      ghost var before, out, was := ip, dst[..op], dst[..];
      var status;
      ghost var r;
      status, ip, op, r := TakeTurn(mem, n, ip, dst, op);
      reach := Max(reach, r);
      assert mem[before..n] == src[before..];
      ghost var t := ReadTurn(src[before..], |out|, dst.Length);
      match status {
        case Failed =>
          ProgressFails(ss, fills, src, before, out, dst.Length);
          return -ip - 1, reach, fills;
        case Finished =>
          ProgressClose(ss, fills, src, before, out, dst.Length, t.last, t.low);
          return op, reach, fills;
        case More =>
          ProgressNext(ss, fills, src, before, out, dst.Length, t.s, t.used, dst[..op]);
          if ss == [] && t.s.offset == 0 {
            FillIsLeft(mem, n, t.s, was, dst[..], op);
          }
          fills := fills + [dst[..op][|out| + |t.s.literals|..]];
          ss := ss + [t.s];
      }
    }
  }

  /** The first bytes of the first match, if it has an offset of zero: bytes of the input behind its
      literals, and then what the buffer held at the start. */
  ghost predicate FirstFill(mem: seq<Byte>, n: nat, s: Sequence, was: seq<Byte>, fill: seq<Byte>) {
    && n <= |mem| && |fill| == s.matchLength && |s.literals| + s.matchLength <= |was|
    && forall k :: 0 <= k < s.matchLength && k < 8 ==>
         var at := |s.literals| + k;
         fill[k] == if at < WildEnd(0, |s.literals|) && LiteralsAt(mem, 0, n) + at < |mem| then mem[LiteralsAt(mem, 0, n) + at] else was[at]
  }

  lemma FillIsLeft(mem: seq<Byte>, n: nat, s: Sequence, was: seq<Byte>, now: seq<Byte>, op: nat)
    requires n <= |mem| && FirstLeft(mem, 0, n, 0, s, was, now) && op == |s.literals| + s.matchLength <= |now|
    ensures FirstFill(mem, n, s, was, now[..op][|s.literals|..])
  {
  }

  lemma ParseFails(rest: seq<Byte>, done: nat, capacity: nat)
    requires ReadTurn(rest, done, capacity) == Bad
    ensures Parse(rest, done, capacity) == None
  {
  }
}

/** The LZ4 block format, as an encoding of a list of sequences and as a parser of bytes.

    A block is a list of sequences (literals, then a match copied from `offset` bytes back)
    closed by a run of literals.  `EncodeBlock` and `ExpandBlock` are the reference meaning
    of a block; `Parse` follows the branches of the safe decoder, with its limits on how
    close to the ends of the two buffers a sequence may come.  The lemmas show that the
    parser accepts exactly the encodings of blocks that respect those limits. */
module Lz4Format {
  import opened Basics

  const MIN_MATCH := 4
  const LAST_LITERALS := 5
  const MF_LIMIT := 12
  const MAX_DISTANCE := 65535
  const MAX_INPUT_SIZE := 0x7E000000

  /** `matchLength` is the number of bytes copied; the token stores it less MIN_MATCH. */
  datatype Sequence = Sequence(literals: seq<Byte>, offset: nat, matchLength: nat) {
    predicate Valid() {
      MIN_MATCH <= matchLength && offset <= MAX_DISTANCE
    }

    function Size(): nat {
      |literals| + matchLength
    }
  }

  /** `low` is the low half of the closing token, which decoders ignore. */
  datatype Block = Block(sequences: seq<Sequence>, last: seq<Byte>, low: nat) {
    ghost predicate Valid() {
      low < 16 && forall s <- sequences :: s.Valid()
    }

    predicate NoZeroOffset() {
      forall s <- sequences :: s.offset != 0
    }

    function Cons(s: Sequence): Block {
      Block([s] + sequences, last, low)
    }

    function Tail(): Block
      requires sequences != []
    {
      Block(sequences[1..], last, low)
    }
  }

  // ----- What a block encodes to -----

  function Nibble(length: nat): nat {
    if length < 15 then length else 15
  }

  /** The bytes that carry what is left of a length once the nibble is saturated. */
  function Chain(n: nat): seq<Byte> {
    if n < 255 then [n] else [255] + Chain(n - 255)
  }

  function Extension(length: nat): seq<Byte> {
    if length < 15 then [] else Chain(length - 15)
  }

  function EncodeLiterals(literals: seq<Byte>, low: nat): seq<Byte>
    requires low < 16
  {
    [16 * Nibble(|literals|) + low] + Extension(|literals|) + literals
  }

  function EncodeMatch(offset: nat, matchLength: nat): seq<Byte>
    requires offset <= MAX_DISTANCE && MIN_MATCH <= matchLength
  {
    [offset % 256, offset / 256] + Extension(matchLength - MIN_MATCH)
  }

  function EncodeSequence(s: Sequence): seq<Byte>
    requires s.Valid()
  {
    EncodeLiterals(s.literals, Nibble(s.matchLength - MIN_MATCH)) + EncodeMatch(s.offset, s.matchLength)
  }

  function EncodeSequences(ss: seq<Sequence>): seq<Byte>
    requires forall s <- ss :: s.Valid()
  {
    if ss == [] then [] else EncodeSequence(ss[0]) + EncodeSequences(ss[1..])
  }

  function EncodeBlock(b: Block): seq<Byte>
    requires b.Valid()
  {
    EncodeSequences(b.sequences) + EncodeLiterals(b.last, b.low)
  }

  // ----- What a block means -----

  /** Byte-at-a-time copy of `length` bytes from `offset` back, so that the copy may overlap
      itself.  An offset of zero names no earlier byte; the bytes it yields are left at 0 here. */
  function CopyMatch(out: seq<Byte>, offset: nat, length: nat): (r: seq<Byte>)
    requires offset <= |out|
    ensures |r| == |out| + length && out <= r
    decreases length
  {
    if length == 0 then out
    else CopyMatch(out + [if offset == 0 then 0 else out[|out| - offset]], offset, length - 1)
  }

  ghost predicate Expandable(ss: seq<Sequence>, done: nat) {
    ss == [] || (ss[0].offset <= done + |ss[0].literals| && Expandable(ss[1..], done + ss[0].Size()))
  }

  function Expand(ss: seq<Sequence>, out: seq<Byte>): (r: seq<Byte>)
    requires Expandable(ss, |out|)
    decreases |ss|
  {
    if ss == [] then out
    else Expand(ss[1..], CopyMatch(out + ss[0].literals, ss[0].offset, ss[0].matchLength))
  }

  /** The same with given bytes for the matches that have an offset of zero. */
  function CopyOrFill(out: seq<Byte>, offset: nat, length: nat, fill: seq<Byte>): (r: seq<Byte>)
    requires offset <= |out| && |fill| == length
    ensures |r| == |out| + length && out <= r
  {
    if offset == 0 then out + fill else CopyMatch(out, offset, length)
  }

  ghost predicate FillsFor(ss: seq<Sequence>, fills: seq<seq<Byte>>) {
    |fills| == |ss| && forall i :: 0 <= i < |ss| ==> |fills[i]| == ss[i].matchLength
  }

  /** What sequences mean when the matches with an offset of zero give the bytes of `fills`. */
  function ExpandFilled(ss: seq<Sequence>, out: seq<Byte>, fills: seq<seq<Byte>>): (r: seq<Byte>)
    requires Expandable(ss, |out|) && FillsFor(ss, fills)
    decreases |ss|
  {
    if ss == [] then out
    else ExpandFilled(ss[1..], CopyOrFill(out + ss[0].literals, ss[0].offset, ss[0].matchLength, fills[0]), fills[1..])
  }

  function TotalSize(ss: seq<Sequence>): nat {
    if ss == [] then 0 else ss[0].Size() + TotalSize(ss[1..])
  }

  function BlockSize(b: Block): nat {
    TotalSize(b.sequences) + |b.last|
  }

  function ExpandBlock(b: Block): seq<Byte>
    requires Expandable(b.sequences, 0)
  {
    Expand(b.sequences, []) + b.last
  }

  // ----- How the safe decoder reads a block -----

  datatype Length = Length(value: nat, used: nat) | Short

  /** lz4.c:1158-1169: stops early within 15 bytes of the end of the input. */
  function LiteralChain(rest: seq<Byte>): (r: Length)
    ensures r.Length? ==> r.used <= |rest|
    ensures r.Length? <==> rest != []
  {
    if rest == [] then Short
    else if |rest| - 1 > 15 && rest[0] == 255 then
      var t := LiteralChain(rest[1..]);
      if t.Short? then Short else Length(255 + t.value, 1 + t.used)
    else Length(rest[0], 1)
  }

  /** lz4.c:1200-1210: fails within LAST_LITERALS bytes of the end of the input. */
  function MatchChain(rest: seq<Byte>): (r: Length)
    ensures r.Length? ==> r.used <= |rest|
  {
    if |rest| < LAST_LITERALS then Short
    else if rest[0] == 255 then
      var t := MatchChain(rest[1..]);
      if t.Short? then Short else Length(255 + t.value, 1 + t.used)
    else Length(rest[0], 1)
  }

  function LiteralLength(token: Byte, rest: seq<Byte>): (r: Length)
    ensures r.Length? ==> r.used <= |rest|
  {
    if token / 16 < 15 then Length(token / 16, 0)
    else match LiteralChain(rest) case Short => Short case Length(v, u) => Length(15 + v, u)
  }

  function MatchLength(token: Byte, rest: seq<Byte>): (r: Length)
    ensures r.Length? ==> r.used <= |rest| && r.value >= MIN_MATCH
  {
    if token % 16 < 15 then Length(MIN_MATCH + token % 16, 0)
    else match MatchChain(rest) case Short => Short case Length(v, u) => Length(MIN_MATCH + 15 + v, u)
  }

  /** True when the run of literals must close the block (lz4.c:1173-1174). */
  predicate MustClose(done: nat, length: nat, left: nat, capacity: nat) {
    done + length > capacity - MF_LIMIT || length > left - (2 + 1 + LAST_LITERALS)
  }

  /** One turn of the decoder's main loop: a sequence and the number of bytes it took, the
      literals that close the block, or an error. */
  datatype Turn = Next(s: Sequence, used: nat) | Close(last: seq<Byte>, low: nat) | Bad

  /** The turn taken on `rest` when `done` bytes of a buffer of `capacity` are written. */
  function ReadTurn(rest: seq<Byte>, done: nat, capacity: nat): (r: Turn)
    ensures r.Next? ==> 0 < r.used <= |rest|
  {
    if rest == [] then Bad
    else
      var token := rest[0];
      var lit := LiteralLength(token, rest[1..]);
      if lit.Short? then Bad
      else
        var body := rest[1 + lit.used..];
        if MustClose(done, lit.value, |body|, capacity) then
          if lit.value == |body| && done + lit.value <= capacity then Close(body, token % 16) else Bad
        else
          match ReadMatch(token, body[lit.value..], done + lit.value, capacity)
          case None => Bad
          case Some((offset, m)) => Next(Sequence(body[..lit.value], offset, m.value), 1 + lit.used + lit.value + 2 + m.used)
  }

  function ReadMatch(token: Byte, rest: seq<Byte>, done: nat, capacity: nat): (r: Option<(nat, Length)>)
    requires 2 <= |rest|
    ensures r.Some? ==> r.value.1.Length? && 2 + r.value.1.used <= |rest|
  {
    var offset: int := rest[0] + 256 * (rest[1] as int);
    var m := MatchLength(token, rest[2..]);
    if offset > done || m.Short? || done + m.value > capacity - LAST_LITERALS then None else Some((offset, m))
  }

  /** The block the decoder reads from `rest`. */
  function Parse(rest: seq<Byte>, done: nat, capacity: nat): Option<Block>
    decreases |rest|
  {
    match ReadTurn(rest, done, capacity)
    case Bad => None
    case Close(last, low) => Some(Block([], last, low))
    case Next(s, used) =>
      match Parse(rest[used..], done + s.Size(), capacity)
      case None => None
      case Some(b) => Some(b.Cons(s))
  }

  /** LZ4_decompress_safe's view of its input; an empty buffer is a case of its own (lz4.c:1145). */
  function ParseInput(src: seq<Byte>, capacity: nat): Option<Block> {
    if capacity == 0 then (if src == [0] then Some(Block([], [], 0)) else None)
    else Parse(src, 0, capacity)
  }

  // ----- The limits, stated on the block alone -----

  /** What the decoder asks of a block that starts after `done` bytes of output. */
  ghost predicate Fits(b: Block, done: nat, capacity: nat)
    requires b.Valid()
    decreases |b.sequences|
  {
    if b.sequences == [] then done + |b.last| <= capacity
    else
      var s := b.sequences[0];
      assert s in b.sequences && s.Valid();
      var after := |EncodeBlock(b.Tail())|;
      && s.offset <= done + |s.literals| <= capacity - MF_LIMIT
      && done + s.Size() <= capacity - LAST_LITERALS
      && 8 <= |EncodeMatch(s.offset, s.matchLength)| + after
      && (15 <= s.matchLength - MIN_MATCH ==> 4 <= after)
      && Fits(b.Tail(), done + s.Size(), capacity)
  }

  /** What the encoder guarantees of its sequences, for an input of `n` bytes. */
  ghost predicate Guaranteed(ss: seq<Sequence>, done: nat, n: nat)
    decreases |ss|
  {
    if ss == [] then true
    else
      var s := ss[0];
      && s.Valid()
      && 1 <= s.offset <= done + |s.literals| <= n - MF_LIMIT
      && done + s.Size() <= n - LAST_LITERALS
      && Guaranteed(ss[1..], done + s.Size(), n)
  }

  // ----- Lemmas -----

  lemma {:induction false} LiteralChainInvertsChain(n: nat, rest: seq<Byte>)
    requires n + 15 <= |rest|
    ensures LiteralChain(Chain(n) + rest) == Length(n, |Chain(n)|)
  {
    if n < 255 {
      assert (Chain(n) + rest)[0] == n;
    } else {
      var t := Chain(n) + rest;
      assert t[0] == 255 && t[1..] == Chain(n - 255) + rest;
      LiteralChainInvertsChain(n - 255, rest);
      assert |t| - 1 > 15;
    }
  }

  lemma {:induction false} MatchChainInvertsChain(n: nat, rest: seq<Byte>)
    requires 4 <= |rest|
    ensures MatchChain(Chain(n) + rest) == Length(n, |Chain(n)|)
  {
    if n < 255 {
      assert (Chain(n) + rest)[0] == n;
    } else {
      var t := Chain(n) + rest;
      assert t[0] == 255 && t[1..] == Chain(n - 255) + rest;
      MatchChainInvertsChain(n - 255, rest);
      assert |t| >= LAST_LITERALS;
    }
  }

  /** A chain the decoder read to its end (not cut short by the input limit) is canonical. */
  lemma {:induction false} LiteralChainIsChain(rest: seq<Byte>)
    requires LiteralChain(rest).Length?
    requires LiteralChain(rest).value <= |rest| - LiteralChain(rest).used
    ensures var r := LiteralChain(rest); rest[..r.used] == Chain(r.value)
  {
    var r := LiteralChain(rest);
    if |rest| - 1 > 15 && rest[0] == 255 {
      LiteralChainIsChain(rest[1..]);
      assert rest[..r.used] == [255] + rest[1..][..r.used - 1];
    } else {
      assert rest[..1] == [rest[0]];
    }
  }

  lemma {:induction false} MatchChainIsChain(rest: seq<Byte>)
    requires MatchChain(rest).Length?
    ensures var r := MatchChain(rest); rest[..r.used] == Chain(r.value) && 4 <= |rest| - r.used
  {
    var r := MatchChain(rest);
    if rest[0] == 255 {
      MatchChainIsChain(rest[1..]);
      assert rest[..r.used] == [255] + rest[1..][..r.used - 1];
    } else {
      assert rest[..1] == [rest[0]];
    }
  }

  /** Reading back a token and its extension, whatever follows the literals. */
  lemma LiteralsReadBack(literals: seq<Byte>, low: nat, after: seq<Byte>)
    requires low < 16
    ensures var rest := EncodeLiterals(literals, low) + after;
            && rest[0] / 16 == Nibble(|literals|) && rest[0] % 16 == low
            && LiteralLength(rest[0], rest[1..]) == Length(|literals|, |Extension(|literals|)|)
            && rest[1 + |Extension(|literals|)|..] == literals + after
  {
    var rest := EncodeLiterals(literals, low) + after;
    var ext := Extension(|literals|);
    assert rest[0] == 16 * Nibble(|literals|) + low;
    assert rest[1..] == ext + (literals + after);
    assert rest[1 + |ext|..] == rest[1..][|ext|..];
    if 15 <= |literals| {
      LiteralChainInvertsChain(|literals| - 15, literals + after);
    }
  }

  lemma MatchReadBack(token: Byte, offset: nat, matchLength: nat, after: seq<Byte>)
    requires offset <= MAX_DISTANCE && MIN_MATCH <= matchLength
    requires token % 16 == Nibble(matchLength - MIN_MATCH)
    requires 15 <= matchLength - MIN_MATCH ==> 4 <= |after|
    ensures var rest := EncodeMatch(offset, matchLength) + after;
            && rest[0] + 256 * (rest[1] as int) == offset
            && MatchLength(token, rest[2..]) == Length(matchLength, |Extension(matchLength - MIN_MATCH)|)
            && rest[2 + |Extension(matchLength - MIN_MATCH)|..] == after
  {
    var rest := EncodeMatch(offset, matchLength) + after;
    var ext := Extension(matchLength - MIN_MATCH);
    assert rest[0] == offset % 256 && rest[1] == offset / 256;
    assert rest[2..] == ext + after;
    assert rest[2 + |ext|..] == rest[2..][|ext|..];
    if 15 <= matchLength - MIN_MATCH {
      MatchChainInvertsChain(matchLength - MIN_MATCH - 15, after);
    }
  }

  lemma TurnMustClose(rest: seq<Byte>, done: nat, capacity: nat, length: nat, used: nat)
    requires rest != [] && LiteralLength(rest[0], rest[1..]) == Length(length, used)
    requires 1 + used <= |rest| && MustClose(done, length, |rest| - 1 - used, capacity)
    ensures var body := rest[1 + used..];
            ReadTurn(rest, done, capacity)
            == if length == |body| && done + length <= capacity then Close(body, rest[0] % 16) else Bad
  {
    hide LiteralLength, ReadMatch;
  }

  lemma TurnGoesOn(rest: seq<Byte>, done: nat, capacity: nat, length: nat, used: nat)
    requires rest != [] && LiteralLength(rest[0], rest[1..]) == Length(length, used)
    requires 1 + used <= |rest| && !MustClose(done, length, |rest| - 1 - used, capacity)
    ensures var body := rest[1 + used..];
            ReadTurn(rest, done, capacity)
            == match ReadMatch(rest[0], body[length..], done + length, capacity)
               case None => Bad
               case Some((offset, m)) => Next(Sequence(body[..length], offset, m.value), 1 + used + length + 2 + m.used)
  {
    hide LiteralLength, ReadMatch;
  }

  lemma TurnIsShort(rest: seq<Byte>, done: nat, capacity: nat)
    requires rest == [] || LiteralLength(rest[0], rest[1..]).Short?
    ensures ReadTurn(rest, done, capacity) == Bad
  {
  }

  lemma TurnCloses(literals: seq<Byte>, low: nat, done: nat, capacity: nat)
    requires low < 16 && done + |literals| <= capacity
    ensures ReadTurn(EncodeLiterals(literals, low), done, capacity) == Close(literals, low)
  {
    LiteralsReadBack(literals, low, []);
    assert EncodeLiterals(literals, low) + [] == EncodeLiterals(literals, low);
    assert literals + [] == literals;
  }

  lemma SequenceLength(s: Sequence)
    requires s.Valid()
    ensures |EncodeMatch(s.offset, s.matchLength)| == 2 + |Extension(s.matchLength - MIN_MATCH)|
    ensures |EncodeSequence(s)|
            == 1 + |Extension(|s.literals|)| + |s.literals| + 2 + |Extension(s.matchLength - MIN_MATCH)|
  {
  }

  lemma TurnReadsSequence(s: Sequence, after: seq<Byte>, done: nat, capacity: nat)
    requires s.Valid() && s.offset <= done + |s.literals| <= capacity - MF_LIMIT
    requires done + s.Size() <= capacity - LAST_LITERALS
    requires 8 <= |EncodeMatch(s.offset, s.matchLength)| + |after|
    requires 15 <= s.matchLength - MIN_MATCH ==> 4 <= |after|
    ensures var rest := EncodeSequence(s) + after;
            ReadTurn(rest, done, capacity) == Next(s, |EncodeSequence(s)|) && rest[|EncodeSequence(s)|..] == after
  {
    hide ReadTurn, LiteralLength, MatchLength, Extension, EncodeLiterals, EncodeMatch;
    SequenceLength(s);
    var low := Nibble(s.matchLength - MIN_MATCH);
    var tail := EncodeMatch(s.offset, s.matchLength) + after;
    var rest := EncodeSequence(s) + after;
    assert rest == EncodeLiterals(s.literals, low) + tail;
    LiteralsReadBack(s.literals, low, tail);
    var body := rest[1 + |Extension(|s.literals|)|..];
    assert body[..|s.literals|] == s.literals && body[|s.literals|..] == tail;
    TurnGoesOn(rest, done, capacity, |s.literals|, |Extension(|s.literals|)|);
    MatchReadBack(rest[0], s.offset, s.matchLength, after);
  }

  lemma EncodeBlockUnfold(b: Block)
    requires b.Valid() && b.sequences != []
    ensures b.sequences[0].Valid() && b.Tail().Valid()
    ensures EncodeBlock(b) == EncodeSequence(b.sequences[0]) + EncodeBlock(b.Tail())
  {
    assert b.sequences[0] in b.sequences;
  }

  lemma ParseNext(rest: seq<Byte>, done: nat, capacity: nat, s: Sequence, used: nat, b: Block)
    requires used <= |rest| && ReadTurn(rest, done, capacity) == Next(s, used)
    requires Parse(rest[used..], done + s.Size(), capacity) == Some(b)
    ensures Parse(rest, done, capacity) == Some(b.Cons(s))
  {
    hide ReadTurn;
  }

  lemma ParseClosed(rest: seq<Byte>, done: nat, capacity: nat, last: seq<Byte>, low: nat)
    requires ReadTurn(rest, done, capacity) == Close(last, low)
    ensures Parse(rest, done, capacity) == Some(Block([], last, low))
  {
  }

  /** The decoder reads every block that respects its limits. */
  lemma {:induction false} ParseCompletes(b: Block, done: nat, capacity: nat)
    requires b.Valid() && Fits(b, done, capacity)
    ensures Parse(EncodeBlock(b), done, capacity) == Some(b)
    decreases |b.sequences|
  {
    hide ReadTurn;
    if b.sequences == [] {
      TurnCloses(b.last, b.low, done, capacity);
      ParseClosed(EncodeLiterals(b.last, b.low), done, capacity, b.last, b.low);
      assert EncodeBlock(b) == EncodeLiterals(b.last, b.low);
    } else {
      var s, tail := b.sequences[0], b.Tail();
      EncodeBlockUnfold(b);
      TurnReadsSequence(s, EncodeBlock(tail), done, capacity);
      ParseCompletes(tail, done + s.Size(), capacity);
      ParseNext(EncodeBlock(b), done, capacity, s, |EncodeSequence(s)|, tail);
      assert tail.Cons(s) == b;
    }
  }

  lemma LiteralLengthIsExtension(token: Byte, rest: seq<Byte>)
    requires var lit := LiteralLength(token, rest); lit.Length? && lit.value <= |rest| - lit.used
    ensures var lit := LiteralLength(token, rest);
            rest[..lit.used] == Extension(lit.value) && token / 16 == Nibble(lit.value)
  {
    hide LiteralChain, Chain;
    if token / 16 == 15 {
      LiteralChainIsChain(rest);
    }
  }

  lemma LiteralsAreEncoded(rest: seq<Byte>)
    requires rest != []
    requires var lit := LiteralLength(rest[0], rest[1..]); lit.Length? && lit.value <= |rest| - 1 - lit.used
    ensures var lit := LiteralLength(rest[0], rest[1..]);
            var body := rest[1 + lit.used..];
            rest == EncodeLiterals(body[..lit.value], rest[0] % 16) + body[lit.value..]
  {
    var lit := LiteralLength(rest[0], rest[1..]);
    var body := rest[1 + lit.used..];
    LiteralLengthIsExtension(rest[0], rest[1..]);
    hide LiteralLength, Extension;
    assert rest == [rest[0]] + rest[1..][..lit.used] + body;
    assert body == body[..lit.value] + body[lit.value..];
  }

  lemma MatchIsEncoded(token: Byte, rest: seq<Byte>)
    requires 2 <= |rest| && MatchLength(token, rest[2..]).Length?
    ensures var m := MatchLength(token, rest[2..]);
            && token % 16 == Nibble(m.value - MIN_MATCH)
            && rest == EncodeMatch(rest[0] + 256 * (rest[1] as int), m.value) + rest[2 + m.used..]
            && (15 <= m.value - MIN_MATCH ==> 4 <= |rest[2 + m.used..]|)
  {
    var m := MatchLength(token, rest[2..]);
    if token % 16 == 15 {
      MatchChainIsChain(rest[2..]);
    }
    assert rest[2..][..m.used] == Extension(m.value - MIN_MATCH);
    assert rest == [rest[0], rest[1]] + rest[2..][..m.used] + rest[2 + m.used..];
  }

  /** What a turn that was not an error says about the bytes it read. */
  ghost predicate TurnSound(r: Turn, rest: seq<Byte>, done: nat, capacity: nat) {
    match r
    case Bad => true
    case Close(last, low) => low < 16 && rest == EncodeLiterals(last, low) && done + |last| <= capacity
    case Next(s, used) =>
      && s.Valid() && used <= |rest| && rest[..used] == EncodeSequence(s)
      && s.offset <= done + |s.literals| <= capacity - MF_LIMIT
      && done + s.Size() <= capacity - LAST_LITERALS
      && 8 <= |EncodeMatch(s.offset, s.matchLength)| + (|rest| - used)
      && (15 <= s.matchLength - MIN_MATCH ==> 4 <= |rest| - used)
  }

  lemma TurnIsSound(rest: seq<Byte>, done: nat, capacity: nat)
    ensures TurnSound(ReadTurn(rest, done, capacity), rest, done, capacity)
  {
    hide LiteralLength, EncodeLiterals, MatchLength, EncodeSequence, EncodeMatch;
    if rest == [] || LiteralLength(rest[0], rest[1..]).Short? {
      return;
    }
    var token := rest[0];
    var lit := LiteralLength(token, rest[1..]);
    var body := rest[1 + lit.used..];
    if lit.value <= |body| {
      LiteralsAreEncoded(rest);
      if MustClose(done, lit.value, |body|, capacity) {
        assert lit.value == |body| ==> body[..lit.value] == body && body[lit.value..] == [];
      } else {
        SequenceIsEncoded(rest, body[..lit.value], body[lit.value..]);
      }
    }
  }

  lemma SequenceIsEncoded(rest: seq<Byte>, literals: seq<Byte>, after: seq<Byte>)
    requires 8 <= |after| && rest != [] && rest == EncodeLiterals(literals, rest[0] % 16) + after
    ensures var m := MatchLength(rest[0], after[2..]);
            m.Length? ==>
              var s := Sequence(literals, after[0] + 256 * (after[1] as int), m.value);
              var used := |rest| - |after| + 2 + m.used;
              && s.Valid() && rest[..used] == EncodeSequence(s)
              && |EncodeMatch(s.offset, s.matchLength)| + (|rest| - used) == |after|
              && (15 <= m.value - MIN_MATCH ==> 4 <= |rest| - used)
  {
    hide EncodeLiterals, MatchLength;
    var m := MatchLength(rest[0], after[2..]);
    if m.Length? {
      MatchIsEncoded(rest[0], after);
      var used := |rest| - |after| + 2 + m.used;
      assert rest[..used] == rest[..|rest| - |after|] + after[..2 + m.used];
      assert rest[..|rest| - |after|] == EncodeLiterals(literals, rest[0] % 16);
      var e := EncodeMatch(after[0] + 256 * (after[1] as int), m.value);
      assert |after[2 + m.used..]| == |after| - 2 - m.used;
      assert after[..2 + m.used] == e;
    }
  }

  /** Putting a sequence that has been read in front of a block keeps it within the limits. */
  lemma ConsFits(s: Sequence, b: Block, done: nat, capacity: nat)
    requires s.Valid() && b.Valid() && Fits(b, done + s.Size(), capacity)
    requires s.offset <= done + |s.literals| <= capacity - MF_LIMIT
    requires done + s.Size() <= capacity - LAST_LITERALS
    requires 8 <= |EncodeMatch(s.offset, s.matchLength)| + |EncodeBlock(b)|
    requires 15 <= s.matchLength - MIN_MATCH ==> 4 <= |EncodeBlock(b)|
    ensures var c := b.Cons(s); c.Valid() && c.Tail() == b && Fits(c, done, capacity)
  {
    var c := b.Cons(s);
    assert c.sequences[1..] == b.sequences;
    forall t <- c.sequences ensures t.Valid() {
      assert t == s || t in b.sequences;
    }
  }

  /** Whatever the decoder accepts is the encoding of a block within its limits. */
  lemma {:induction false} ParseIsSound(rest: seq<Byte>, done: nat, capacity: nat)
    requires Parse(rest, done, capacity).Some?
    ensures var b := Parse(rest, done, capacity).value;
            b.Valid() && EncodeBlock(b) == rest && Fits(b, done, capacity)
    decreases |rest|
  {
    hide ReadTurn, EncodeSequence, EncodeLiterals, EncodeMatch;
    TurnIsSound(rest, done, capacity);
    match ReadTurn(rest, done, capacity)
    case Close(last, low) =>
    case Next(s, used) =>
      ParseIsSound(rest[used..], done + s.Size(), capacity);
      var tail := Parse(rest[used..], done + s.Size(), capacity).value;
      assert EncodeBlock(tail) == rest[used..];
      ConsFits(s, tail, done, capacity);
      EncodeBlockUnfold(tail.Cons(s));
      assert rest == rest[..used] + rest[used..];
  }

  /** For a non-empty buffer: the input is accepted if and only if it encodes a block within the
      limits, and then that block is the only one it encodes. */
  lemma AcceptedExactlyBlocks(src: seq<Byte>, capacity: nat)
    requires 0 < capacity
    ensures ParseInput(src, capacity).Some? <==>
            exists b: Block :: b.Valid() && Fits(b, 0, capacity) && EncodeBlock(b) == src
    ensures forall b: Block :: b.Valid() && Fits(b, 0, capacity) && EncodeBlock(b) == src
                               ==> ParseInput(src, capacity) == Some(b)
  {
    if Parse(src, 0, capacity).Some? {
      ParseIsSound(src, 0, capacity);
    }
    forall b: Block | b.Valid() && Fits(b, 0, capacity) && EncodeBlock(b) == src
      ensures ParseInput(src, capacity) == Some(b)
    {
      ParseCompletes(b, 0, capacity);
    }
  }

  /** The decoder's limits do not rule out an offset of zero, which names no byte: such blocks are
      accepted, and what they mean is not determined. */
  lemma ZeroOffsetIsAccepted(literals: seq<Byte>, last: seq<Byte>, capacity: nat)
    requires LAST_LITERALS <= |last| && |literals| + MF_LIMIT + |last| <= capacity
    ensures var b := Block([Sequence(literals, 0, MIN_MATCH)], last, 0);
            b.Valid() && !b.NoZeroOffset() && ParseInput(EncodeBlock(b), capacity) == Some(b)
  {
    var s := Sequence(literals, 0, MIN_MATCH);
    var b := Block([s], last, 0);
    assert b.sequences[0] in b.sequences;
    assert b.Tail() == Block([], last, 0);
    assert EncodeBlock(b.Tail()) == EncodeLiterals(last, 0);
    ParseCompletes(b, 0, capacity);
  }

  /** A block that fits can be expanded, into exactly BlockSize bytes and within the buffer. */
  lemma {:induction false} FitsExpands(b: Block, out: seq<Byte>, capacity: nat)
    requires b.Valid() && Fits(b, |out|, capacity)
    ensures Expandable(b.sequences, |out|)
    ensures |Expand(b.sequences, out)| == |out| + TotalSize(b.sequences)
    ensures |out| + BlockSize(b) <= capacity
    decreases |b.sequences|
  {
    if b.sequences != [] {
      var s := b.sequences[0];
      FitsExpands(b.Tail(), CopyMatch(out + s.literals, s.offset, s.matchLength), capacity);
    }
  }

  /** The encoder's guarantees satisfy the decoder's limits in every buffer that holds the input. */
  lemma {:induction false} GuaranteedFits(b: Block, done: nat, n: nat, capacity: nat)
    requires b.low < 16 && Guaranteed(b.sequences, done, n) && done + BlockSize(b) == n <= capacity
    requires b.sequences != [] ==> LAST_LITERALS <= |b.last|
    ensures b.Valid() && Fits(b, done, capacity)
    ensures b.sequences != [] ==> LAST_LITERALS + 1 <= |EncodeBlock(b)|
    decreases |b.sequences|
  {
    if b.sequences != [] {
      GuaranteedFits(b.Tail(), done + b.sequences[0].Size(), n, capacity);
      assert b.sequences == [b.sequences[0]] + b.sequences[1..];
      EncodeBlockUnfold(b);
    }
  }

  // ----- Blocks grown at the right -----

  lemma {:induction false} ExpandSnoc(ss: seq<Sequence>, s: Sequence, out: seq<Byte>)
    requires Expandable(ss, |out|) && s.offset <= |out| + TotalSize(ss) + |s.literals|
    ensures TotalSize(ss + [s]) == TotalSize(ss) + s.Size()
    ensures Expandable(ss + [s], |out|)
    ensures |Expand(ss, out)| == |out| + TotalSize(ss)
    ensures Expand(ss + [s], out) == CopyMatch(Expand(ss, out) + s.literals, s.offset, s.matchLength)
    decreases |ss|
  {
    var all := ss + [s];
    if ss != [] {
      assert all[0] == ss[0] && all[1..] == ss[1..] + [s];
      ExpandSnoc(ss[1..], s, CopyMatch(out + ss[0].literals, ss[0].offset, ss[0].matchLength));
    } else {
      assert all[1..] == [];
      assert Expandable([], |out| + s.Size());
    }
  }

  lemma {:induction false} ExpandFilledSnoc(ss: seq<Sequence>, s: Sequence, out: seq<Byte>, fills: seq<seq<Byte>>, fill: seq<Byte>)
    requires Expandable(ss, |out|) && s.offset <= |out| + TotalSize(ss) + |s.literals|
    requires FillsFor(ss, fills) && |fill| == s.matchLength
    ensures Expandable(ss + [s], |out|) && FillsFor(ss + [s], fills + [fill])
    ensures |ExpandFilled(ss, out, fills)| == |out| + TotalSize(ss)
    ensures ExpandFilled(ss + [s], out, fills + [fill])
            == CopyOrFill(ExpandFilled(ss, out, fills) + s.literals, s.offset, s.matchLength, fill)
    decreases |ss|
  {
    hide CopyOrFill;
    var all, more := ss + [s], fills + [fill];
    if ss != [] {
      assert all[0] == ss[0] && all[1..] == ss[1..] + [s] && more[0] == fills[0] && more[1..] == fills[1..] + [fill];
      ExpandFilledSnoc(ss[1..], s, CopyOrFill(out + ss[0].literals, ss[0].offset, ss[0].matchLength, fills[0]), fills[1..], fill);
    } else {
      assert all[1..] == [] && more[1..] == [];
      assert Expandable([], |out| + s.Size());
    }
  }

  /** Without zero offsets the given bytes play no part. */
  lemma {:induction false} NothingToFill(ss: seq<Sequence>, out: seq<Byte>, fills: seq<seq<Byte>>)
    requires Expandable(ss, |out|) && FillsFor(ss, fills) && forall s <- ss :: s.offset != 0
    ensures ExpandFilled(ss, out, fills) == Expand(ss, out)
    decreases |ss|
  {
    if ss != [] {
      assert ss[0] in ss && forall s <- ss[1..] :: s in ss;
      NothingToFill(ss[1..], CopyMatch(out + ss[0].literals, ss[0].offset, ss[0].matchLength), fills[1..]);
    }
  }
}

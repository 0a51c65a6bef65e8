/** The message envelope of libencrypt.c: a four-byte header (length and type), then the bytes as
    they are (type 0), exclusive-ored with a seed (type 1), or compressed with LZ4 (type 2). */
module Envelope {
  import opened Basics
  import opened Powers
  import opened Lz4Format
  import opened Lz4Encoder
  import Lz4Count
  import Lz4Decoder

  const MAX_MESSAGE := 10 * 1024 * 1024

  /** Null is a NULL result, Exit the end of the process at a BUG_ON. */
  datatype Outcome = Value(bytes: seq<Byte>) | Null | Exit

  // ----- The LZ4 round trip -----

  /** What the encoder wrote is read back as the same block, in every buffer that holds the input. */
  lemma CompressedParses(out: seq<Byte>, src: seq<Byte>, b: Block, capacity: nat)
    requires IsCompressed(out, src, b) && |src| <= capacity
    ensures ParseInput(out, capacity) == Some(b) && b.NoZeroOffset()
  {
    GuaranteedOffsets(b.sequences, 0, |src|);
    if capacity == 0 {
      assert b.sequences == [] && b.last == [];
      assert EncodeLiterals([], 0) == [0];
    } else {
      GuaranteedFits(b, 0, |src|, capacity);
      ParseCompletes(b, 0, capacity);
    }
  }

  lemma {:induction false} GuaranteedOffsets(ss: seq<Sequence>, done: nat, n: nat)
    requires Guaranteed(ss, done, n)
    ensures forall s <- ss :: s.offset != 0
    decreases |ss|
  {
    if ss != [] {
      GuaranteedOffsets(ss[1..], done + ss[0].Size(), n);
      assert ss == [ss[0]] + ss[1..];
    }
  }

  /** Compressing and then decompressing: for every input up to the size limit, every hash
      function, both word sizes and every buffer at least as large as the input. */
  method RoundTrip(src: seq<Byte>, capacity: nat, tableSize: nat, hash: nat -> nat, step: nat, after: seq<Byte>)
    returns (size: int, back: array<Byte>)
    requires |src| <= MAX_INPUT_SIZE && |src| <= capacity && 2 <= |after|
    requires (step == 4 || step == 8) && forall p :: hash(p) < tableSize
    ensures size == |src| && back.Length == capacity && back[..size] == src
  {
    var packed := new Byte[CompressBound(|src|)](_ => 0);
    ghost var b;
    var n;
    n, b := CompressDefault(src, packed, tableSize, hash, step);
    var mem := packed[..n] + after;
    assert mem[..n] == packed[..n];
    CompressedParses(packed[..n], src, b, capacity);
    back := new Byte[capacity](_ => 0);
    ghost var reach;
    ghost var fills;
    size, reach, fills := Lz4Decoder.DecompressSafe(mem, n, back);
  }

  // ----- The header -----

  /** A 32-bit number in network byte order. */
  function Big32(v: nat): (r: seq<Byte>)
    requires v < 0x1_0000_0000
    ensures |r| == 4
  {
    [v / 0x100_0000, v / 0x1_0000 % 256, v / 256 % 256, v % 256]
  }

  function FromBig32(s: seq<Byte>): (r: nat)
    requires |s| == 4
    ensures r < 0x1_0000_0000
  {
    (s[0] as int) * 0x100_0000 + (s[1] as int) * 0x1_0000 + (s[2] as int) * 256 + s[3]
  }

  lemma Big32RoundTrip(v: nat)
    requires v < 0x1_0000_0000
    ensures FromBig32(Big32(v)) == v
  {
    var a, b := v / 256, v / 0x1_0000;
    assert b == a / 256 && v / 0x100_0000 == b / 256;
    assert v == 256 * a + v % 256 && a == 256 * b + a % 256 && b == 256 * (b / 256) + b % 256;
  }

  /** encrypt_set_header on 32-bit unsigned arithmetic, for the three types in use. */
  function SetHeader(type_: nat, length: nat): (h: nat)
    requires type_ < 16
    ensures h < 0x1_0000_0000
  {
    (length * 16) % 0x1_0000_0000 + type_
  }

  lemma HeaderRoundTrip(type_: nat, length: nat)
    requires type_ < 16 && length < 0x1000_0000
    ensures SetHeader(type_, length) % 16 == type_ && SetHeader(type_, length) / 16 == length
  {
  }

  // ----- Types 0 and 1 -----

  const SEED1: seq<Byte> := [0x7E, 0x3A, 0xEF, 0xBC]

  lemma {:induction false} XorBelow(a: nat, b: nat, k: nat)
    requires a < Pow2(k) && b < Pow2(k)
    ensures Lz4Count.Xor(a, b) < Pow2(k)
    decreases k
  {
    if k > 0 && (a != 0 || b != 0) {
      XorBelow(a / 2, b / 2, k - 1);
    }
  }

  lemma {:induction false} XorTwice(a: nat, b: nat)
    ensures Lz4Count.Xor(Lz4Count.Xor(a, b), b) == a
    decreases a + b
  {
    if a != 0 || b != 0 {
      XorTwice(a / 2, b / 2);
      var x := Lz4Count.Xor(a, b);
      assert x / 2 == Lz4Count.Xor(a / 2, b / 2);
    }
  }

  function XorByte(a: Byte, b: Byte): Byte {
    assert Pow2(8) == 256 by { assert Pow2(4) == 16; assert Pow2(6) == 64; }
    XorBelow(a, b, 8);
    Lz4Count.Xor(a, b)
  }

  /** Four bytes exclusive-ored with the seed. */
  function MaskedWord(s: seq<Byte>): (r: seq<Byte>)
    requires |s| == 4
    ensures |r| == 4
  {
    [XorByte(s[0], SEED1[0]), XorByte(s[1], SEED1[1]), XorByte(s[2], SEED1[2]), XorByte(s[3], SEED1[3])]
  }

  /** Whole words of the message are masked; up to three trailing bytes are left alone. */
  function Masked(s: seq<Byte>): (r: seq<Byte>)
    ensures |r| == |s|
  {
    if |s| < 4 then s else MaskedWord(s[..4]) + Masked(s[4..])
  }

  /** Masking is its own inverse. */
  lemma {:induction false} MaskedTwice(s: seq<Byte>)
    ensures Masked(Masked(s)) == s
  {
    if |s| >= 4 {
      hide Lz4Count.Xor;
      MaskedTwice(s[4..]);
      XorTwice(s[0], SEED1[0]);
      XorTwice(s[1], SEED1[1]);
      XorTwice(s[2], SEED1[2]);
      XorTwice(s[3], SEED1[3]);
      var m := Masked(s);
      assert m[..4] == MaskedWord(s[..4]) && m[4..] == Masked(s[4..]);
      assert s == [s[0], s[1], s[2], s[3]] + s[4..];
    }
  }

  method XorWord(buff: array<Byte>, pos: nat)
    requires pos + 4 <= buff.Length
    modifies buff
    ensures buff[..pos + 4] == old(buff[..pos]) + MaskedWord(old(buff[pos..pos + 4]))
    ensures buff[pos + 4..] == old(buff[pos + 4..])
  {
    hide XorByte;
    buff[pos] := XorByte(buff[pos], SEED1[0]);
    buff[pos + 1] := XorByte(buff[pos + 1], SEED1[1]);
    buff[pos + 2] := XorByte(buff[pos + 2], SEED1[2]);
    buff[pos + 3] := XorByte(buff[pos + 3], SEED1[3]);
  }

  /** xor (libencrypt.c:12-17), on the bytes of the buffer from `start` on. */
  method XorInPlace(buff: array<Byte>, start: nat)
    requires start <= buff.Length
    modifies buff
    ensures buff[..] == old(buff[..start]) + Masked(old(buff[start..]))
  {
    hide MaskedWord;
    var pos := start;
    while buff.Length > pos && buff.Length - pos >= 4
      invariant start <= pos <= buff.Length
      invariant buff[..pos] + Masked(buff[pos..]) == old(buff[..start]) + Masked(old(buff[start..]))
    {
      ghost var before, word, rest := buff[..pos], buff[pos..pos + 4], buff[pos + 4..];
      assert buff[pos..][..4] == word && buff[pos..][4..] == rest;
      assert before + Masked(buff[pos..]) == before + MaskedWord(word) + Masked(rest);
      XorWord(buff, pos);
      pos := pos + 4;
    }
    assert buff[..] == buff[..pos] + buff[pos..];
  }

  /** The envelope of a message of type 0 or 1. */
  function Sealed01(type_: nat, s: seq<Byte>): seq<Byte>
    requires type_ < 2
  {
    Big32(SetHeader(type_, 4 + |s|)) + if type_ == 0 then s else Masked(s)
  }

  /** encrypt_encode01 (libencrypt.c:19-45). */
  method Encode01(type_: nat, s: seq<Byte>) returns (n: array<Byte>)
    requires type_ < 2
    ensures fresh(n) && n[..] == Sealed01(type_, s)
  {
    hide Masked;
    var header := Big32(SetHeader(type_, 4 + |s|));
    n := new Byte[4 + |s|](i requires 0 <= i < 4 + |s| => if i < 4 then header[i] else s[i - 4]);
    assert n[..4] == header && n[4..] == s;
    assert n[..] == n[..4] + n[4..];
    if type_ == 1 {
      XorInPlace(n, 4);
    }
  }

  /** encrypt_decode01 (libencrypt.c:119-145); the caller has checked that the header is there. */
  method Decode01(type_: nat, buf: seq<Byte>) returns (r: Outcome)
    requires type_ < 2 && 4 <= |buf|
    ensures var h := FromBig32(buf[..4]);
            if h % 16 != type_ || h / 16 != |buf| || !(0 < |buf| - 4 <= MAX_MESSAGE) then r == Exit
            else r == Value(if type_ == 0 then buf[4..] else Masked(buf[4..]))
  {
    hide Masked;
    var h := FromBig32(buf[..4]);
    if h % 16 != type_ || h / 16 != |buf| { return Exit; }
    var total := |buf| - 4;
    if total <= 0 || total > MAX_MESSAGE { return Exit; }
    var n := new Byte[total](i requires 0 <= i < total => buf[4 + i]);
    assert n[..] == buf[4..];
    if type_ == 1 {
      assert n[0..] == buf[4..] && n[..0] == [];
      XorInPlace(n, 0);
    }
    r := Value(n[..]);
  }

  /** Decoding undoes encoding, for every message a caller may pass. */
  lemma Open01(type_: nat, s: seq<Byte>)
    requires type_ < 2 && 1 <= |s| <= MAX_MESSAGE
    ensures var buf := Sealed01(type_, s);
            && |buf| == 4 + |s| && FromBig32(buf[..4]) % 16 == type_ && FromBig32(buf[..4]) / 16 == |buf|
            && (if type_ == 0 then buf[4..] else Masked(buf[4..])) == s
  {
    hide Masked;
    var h := SetHeader(type_, 4 + |s|);
    var buf := Sealed01(type_, s);
    assert buf[..4] == Big32(h);
    Big32RoundTrip(h);
    HeaderRoundTrip(type_, 4 + |s|);
    MaskedTwice(s);
    assert buf[4..] == if type_ == 0 then s else Masked(s);
  }

  // ----- Type 2 -----

  /** The environment of the codec: how positions are hashed, and the size of a machine word. */
  datatype Machine = Machine(tableSize: nat, hash: nat -> nat, step: nat) {
    ghost predicate Valid() {
      (step == 4 || step == 8) && forall p :: hash(p) < tableSize
    }
  }

  /** Messages that encrypt_encode2 accepts (libencrypt.c:54). */
  predicate Compressible(n: nat) {
    n <= MAX_INPUT_SIZE && CompressBound(n) + 4 <= MAX_MESSAGE
  }

  /** The envelope of a compressed message. */
  ghost predicate Sealed2(out: seq<Byte>, s: seq<Byte>, b: Block) {
    && 8 <= |out| && |s| <= MAX_INPUT_SIZE && |out| < 0x1000_0000
    && out[..4] == Big32(SetHeader(2, |out|)) && out[4..8] == Big32(|s|)
    && IsCompressed(out[8..], s, b)
  }

  /** encrypt_encode2 (libencrypt.c:47-73).  Its check of the compressor's result never fails: the
      only way to end the process is a message whose bound exceeds the limit.  (An input past the
      compressor's own limit has bound 0 and is refused by the result check.)  The space left behind
      the header and the size is four bytes less than what the compressor is told, and suffices. */
  method Encode2(s: seq<Byte>, m: Machine) returns (r: Outcome, ghost b: Block)
    requires m.Valid()
    ensures r.Value? <==> Compressible(|s|)
    ensures r == Exit || r.Value?
    ensures r.Value? ==> Sealed2(r.bytes, s, b)
  {
    b := Block([], [], 0);
    var max := CompressBound(|s|) + 4;
    if max > MAX_MESSAGE { return Exit, b; }
    var p := new Byte[CompressBound(|s|)](_ => 0);
    var ret;
    ret, b := CompressDefault(s, p, m.tableSize, m.hash, m.step);
    if ret <= 0 || ret >= max { return Exit, b; }
    var length := ret + 8;
    var out := Big32(SetHeader(2, length)) + Big32(|s|) + p[..ret];
    assert out[8..] == p[..ret] && out[..4] == Big32(SetHeader(2, length)) && out[4..8] == Big32(|s|);
    r := Value(out);
  }

  /** A 32-bit pattern read as a C int. */
  function Signed32(v: nat): int
    requires v < 0x1_0000_0000
  {
    if v < 0x8000_0000 then v else v - 0x1_0000_0000
  }

  /** A sound length and a block that fits a buffer of the stated size and two bytes more. */
  ghost predicate Holds(buf: seq<Byte>, b: Block) {
    && 8 < |buf| && FromBig32(buf[..4]) / 16 == |buf| && FromBig32(buf[4..8]) < MAX_MESSAGE
    && ParseInput(buf[8..], FromBig32(buf[4..8]) + 2) == Some(b)
  }

  /** encrypt_decode2 (libencrypt.c:75-117) for type 2; `after` is what follows the message in
      memory.  malloc of a negative size is taken to fail. */
  method Decode2(buf: seq<Byte>, after: seq<Byte>) returns (r: Outcome, ghost fills: seq<seq<Byte>>)
    requires 2 <= |after|
    ensures |buf| <= 8 ==> r == Null
    ensures 8 < |buf| && FromBig32(buf[..4]) / 16 != |buf| ==> r == Null
    ensures 8 < |buf| && Signed32(FromBig32(buf[4..8])) >= MAX_MESSAGE ==> r == Null
    ensures forall b :: Holds(buf, b) ==>
              var orig := FromBig32(buf[4..8]);
              if BlockSize(b) > orig then r == Exit
              else if BlockSize(b) < orig then r == Null
              else r.Value? && |r.bytes| == orig && Expandable(b.sequences, 0) && FillsFor(b.sequences, fills)
                   && r.bytes == ExpandFilled(b.sequences, [], fills) + b.last
                   && (b.NoZeroOffset() ==> Expandable(b.sequences, 0) && r.bytes == ExpandBlock(b))
    ensures 8 < |buf| && (forall b :: !Holds(buf, b)) ==> r == Null || r == Exit
  {
    hide ParseInput;
    fills := [];
    if |buf| <= 8 { return Null, fills; }
    var h := FromBig32(buf[..4]);
    var orig := Signed32(FromBig32(buf[4..8]));
    if h / 16 != |buf| || orig >= MAX_MESSAGE { return Null, fills; }
    if orig + 2 < 0 { return Exit, fills; }
    var n := new Byte[orig + 2](_ => 0);
    var mem := buf[8..] + after;
    assert mem[..|buf| - 8] == buf[8..];
    ghost var reach;
    var ret;
    ret, reach, fills := Lz4Decoder.DecompressSafe(mem, |buf| - 8, n);
    assert ret >= 0 && orig >= 0 ==> Holds(buf, ParseInput(buf[8..], orig + 2).value);
    if ret > orig { return Exit, fills; }
    if ret != orig { return Null, fills; }
    r := Value(n[..orig]);
  }

  lemma Open2(out: seq<Byte>, s: seq<Byte>, b: Block)
    requires Sealed2(out, s, b) && |s| < MAX_MESSAGE
    ensures 8 < |out| && FromBig32(out[..4]) % 16 == 2 && FromBig32(out[..4]) / 16 == |out|
    ensures FromBig32(out[4..8]) == |s| && Holds(out, b)
    ensures BlockSize(b) == |s| && b.NoZeroOffset() && Expandable(b.sequences, 0) && ExpandBlock(b) == s
  {
    hide ParseInput;
    Big32RoundTrip(SetHeader(2, |out|));
    HeaderRoundTrip(2, |out|);
    Big32RoundTrip(|s|);
    CompressedParses(out[8..], s, b, |s| + 2);
  }

  // ----- Whole messages -----

  /** l_encode (luawrap.c:37-78). */
  method Encode(type_: nat, s: seq<Byte>, m: Machine) returns (r: Outcome, ghost b: Block)
    requires m.Valid()
    ensures r.Value? <==> 1 <= |s| <= MAX_MESSAGE && type_ <= 2 && (type_ == 2 ==> Compressible(|s|))
    ensures r.Value? && type_ < 2 ==> r.bytes == Sealed01(type_, s)
    ensures r.Value? && type_ == 2 ==> Sealed2(r.bytes, s, b)
  {
    b := Block([], [], 0);
    if |s| <= 0 || |s| > MAX_MESSAGE || type_ > 2 { return Null, b; }
    if type_ < 2 {
      var n := Encode01(type_, s);
      r := Value(n[..]);
    } else {
      r, b := Encode2(s, m);
    }
  }

  /** l_decode (luawrap.c:80-127).  Of a message shorter than a header it reads on into what follows,
      and refuses it whatever that is. */
  method Decode(buf: seq<Byte>, after: seq<Byte>) returns (r: Outcome)
    requires 2 <= |after| && 4 <= |buf| + |after|
    ensures |buf| <= 4 ==> r == Null
    ensures forall type_: nat, s :: type_ < 2 && 1 <= |s| <= MAX_MESSAGE && buf == Sealed01(type_, s) ==> r == Value(s)
    ensures forall s, b :: |s| < MAX_MESSAGE && Sealed2(buf, s, b) ==> r == Value(s)
  {
    hide Sealed01, Sealed2, Holds, ExpandBlock;
    forall type_: nat, s | type_ < 2 && 1 <= |s| <= MAX_MESSAGE && buf == Sealed01(type_, s)
      ensures |buf| == 4 + |s| && FromBig32(buf[..4]) % 16 == type_ && FromBig32(buf[..4]) / 16 == |buf|
      ensures (if type_ == 0 then buf[4..] else Masked(buf[4..])) == s
    {
      Open01(type_, s);
    }
    forall s, b | |s| < MAX_MESSAGE && Sealed2(buf, s, b)
      ensures 8 < |buf| && FromBig32(buf[..4]) % 16 == 2 && FromBig32(buf[..4]) / 16 == |buf|
      ensures FromBig32(buf[4..8]) == |s| && Holds(buf, b)
      ensures BlockSize(b) == |s| && b.NoZeroOffset() && Expandable(b.sequences, 0) && ExpandBlock(b) == s
    {
      Open2(buf, s, b);
    }
    var h := FromBig32((buf + after)[..4]);
    assert 4 <= |buf| ==> (buf + after)[..4] == buf[..4];
    if |buf| <= 4 || h / 16 != |buf| || h % 16 > 2 { return Null; }
    if h % 16 < 2 {
      r := Decode01(h % 16, buf);
    } else {
      ghost var fills;
      r, fills := Decode2(buf, after);
    }
  }

  /** Every message that can be sealed opens to the bytes it was made from. */
  method SealAndOpen(type_: nat, s: seq<Byte>, m: Machine, after: seq<Byte>) returns (sealed: Outcome, unsealed: Outcome)
    requires m.Valid() && 2 <= |after|
    ensures sealed.Value? <==> 1 <= |s| <= MAX_MESSAGE && type_ <= 2 && (type_ == 2 ==> Compressible(|s|))
    ensures sealed.Value? ==> unsealed == Value(s)
  {
    ghost var b;
    sealed, b := Encode(type_, s, m);
    unsealed := Null;
    if sealed.Value? {
      if type_ < 2 { Open01(type_, s); }
      unsealed := Decode(sealed.bytes, after);
    }
  }
}

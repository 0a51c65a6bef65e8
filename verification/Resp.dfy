/** The request protocol of the streaming parser (rdsparser.c): arrays of bulk strings, as in the
    sections "Arrays" and "Bulk strings" of the Redis serialization protocol specification.  The
    parser is a machine over the bytes not consumed yet; what it delivers does not depend on how
    the bytes were cut into chunks. */
module Resp {
  import opened Basics

  type Message = seq<seq<Byte>>

  const CR: Byte := 13
  const LF: Byte := 10
  const STAR: Byte := 42
  const DOLLAR: Byte := 36
  const ZERO: Byte := 48
  const CRLF: seq<Byte> := [CR, LF]
  const TOO_LARGE := 100_000_000
  const MAX_INT := 0x7FFF_FFFF

  // ----- Lengths -----

  /** `Overflow`: the digits are more than an int holds; the code has no defined meaning then. */
  datatype Length = Length(value: nat, size: nat) | More | Bad | Overflow

  predicate IsDigit(b: Byte) {
    ZERO <= b <= ZERO + 9
  }

  function Longer(l: Length): Length {
    if l.Length? then Length(l.value, l.size + 1) else l
  }

  /** Digits up to a line end, after `count` has been read. */
  function ReadDigits(s: seq<Byte>, count: nat): Length {
    if |s| < 2 then More
    else if s[0] == CR && s[1] == LF then (if count >= TOO_LARGE then Bad else Length(count, 2))
    else if !IsDigit(s[0]) then Bad
    else
      var digit: int := s[0] - ZERO;
      if count * 10 + digit > MAX_INT then Overflow else Longer(ReadDigits(s[1..], count * 10 + digit))
  }

  /** read_rds_len: the mark, digits and a line end; `size` is the number of bytes read. */
  function ReadLength(s: seq<Byte>, mark: Byte): Length
    requires s != []
  {
    if s[0] != mark then Bad else Longer(ReadDigits(s[1..], 0))
  }

  // ----- The machine -----

  /** The strings read so far of a message of `count` strings. */
  datatype Partial = Idle | Partial(count: nat, items: Message)

  /** `Undefined`: a number has overflowed. */
  datatype Parser = Reading(buffer: seq<Byte>, partial: Partial) | Failed | Aborted | Undefined

  datatype Move = Stuck | To(next: Parser) | Deliver(message: Message, next: Parser)

  function StepHeader(buffer: seq<Byte>): Move
    requires buffer != []
  {
    match ReadLength(buffer, STAR)
    case Bad => To(Failed)
    case Overflow => To(Undefined)
    case More => Stuck
    case Length(n, size) =>
      LengthInside(buffer, STAR);
      if n == 0 then To(Aborted) else To(Reading(buffer[size..], Partial(n, [])))
  }

  function StepString(buffer: seq<Byte>, count: nat, items: Message): Move
    requires buffer != []
  {
    match ReadLength(buffer, DOLLAR)
    case Bad => To(Failed)
    case Overflow => To(Undefined)
    case More => Stuck
    case Length(len, size) =>
      LengthInside(buffer, DOLLAR);
      if |buffer| - size < len + 2 then Stuck
      else if buffer[size + len] != CR || buffer[size + len + 1] != LF then To(Failed)
      else
        var now := items + [buffer[size..size + len]];
        var rest := buffer[size + len + 2..];
        if |now| == count then Deliver(now, Reading(rest, Idle)) else To(Reading(rest, Partial(count, now)))
  }

  function Step(p: Parser): Move {
    match p
    case Failed => Stuck
    case Aborted => Stuck
    case Undefined => Stuck
    case Reading(buffer, partial) =>
      if buffer == [] then Stuck
      else if partial.Idle? then StepHeader(buffer)
      else StepString(buffer, partial.count, partial.items)
  }

  function Rank(p: Parser): nat {
    if p.Reading? then |p.buffer| + 1 else 0
  }

  lemma {:induction false} DigitsInside(s: seq<Byte>, count: nat)
    ensures var l := ReadDigits(s, count); l.Length? ==> 2 <= l.size <= |s|
  {
    if |s| >= 2 && !(s[0] == CR && s[1] == LF) && IsDigit(s[0]) {
      var digit: int := s[0] - ZERO;
      DigitsInside(s[1..], count * 10 + digit);
    }
  }

  lemma LengthInside(s: seq<Byte>, mark: Byte)
    requires s != []
    ensures var l := ReadLength(s, mark); l.Length? ==> 3 <= l.size <= |s|
  {
    DigitsInside(s[1..], 0);
  }

  lemma StepConsumes(p: Parser)
    ensures Step(p) != Stuck ==> Rank(Step(p).next) < Rank(p)
  {
    if p.Reading? && p.buffer != [] {
      LengthInside(p.buffer, STAR);
      LengthInside(p.buffer, DOLLAR);
    }
  }

  /** All the messages that can be delivered, and what is left then. */
  function Drain(p: Parser): (seq<Message>, Parser)
    decreases Rank(p)
  {
    StepConsumes(p);
    match Step(p)
    case Stuck => ([], p)
    case To(next) => Drain(next)
    case Deliver(m, next) => var (ms, last) := Drain(next); ([m] + ms, last)
  }

  /** Bytes that arrive. */
  function Append(p: Parser, bytes: seq<Byte>): Parser {
    if p.Reading? then Reading(p.buffer + bytes, p.partial) else p
  }

  // ----- Chunks do not matter -----

  lemma {:induction false} DigitsAppend(s: seq<Byte>, x: seq<Byte>, count: nat)
    ensures ReadDigits(s, count) != More ==> ReadDigits(s + x, count) == ReadDigits(s, count)
  {
    if |s| >= 2 && !(s[0] == CR && s[1] == LF) && IsDigit(s[0]) {
      var digit: int := s[0] - ZERO;
      DigitsAppend(s[1..], x, count * 10 + digit);
      assert (s + x)[1..] == s[1..] + x;
    }
  }

  lemma LengthAppend(s: seq<Byte>, x: seq<Byte>, mark: Byte)
    requires s != []
    ensures ReadLength(s, mark) != More ==> ReadLength(s + x, mark) == ReadLength(s, mark)
  {
    DigitsAppend(s[1..], x, 0);
    assert (s + x)[1..] == s[1..] + x;
  }

  function AppendMove(m: Move, x: seq<Byte>): Move {
    match m
    case Stuck => Stuck
    case To(next) => To(Append(next, x))
    case Deliver(message, next) => Deliver(message, Append(next, x))
  }

  /** A step that can be made is the same step when more bytes have arrived. */
  lemma StepAppend(p: Parser, x: seq<Byte>)
    ensures Step(p) != Stuck ==> Step(Append(p, x)) == AppendMove(Step(p), x)
  {
    if p.Reading? && p.buffer != [] {
      var b := p.buffer;
      var mark := if p.partial.Idle? then STAR else DOLLAR;
      LengthAppend(b, x, mark);
      LengthInside(b, mark);
      var l := ReadLength(b, mark);
      if l.Length? {
        assert (b + x)[l.size..] == b[l.size..] + x;
        if l.size + l.value + 2 <= |b| {
          assert (b + x)[l.size..l.size + l.value] == b[l.size..l.size + l.value];
          assert (b + x)[l.size + l.value + 2..] == b[l.size + l.value + 2..] + x;
        }
      }
    }
  }

  /** Draining, then receiving more and draining again, is draining everything at once. */
  lemma {:induction false} DrainAppend(p: Parser, x: seq<Byte>)
    ensures var (ms, q) := Drain(p);
            var (more, last) := Drain(Append(q, x));
            Drain(Append(p, x)) == (ms + more, last)
    decreases Rank(p)
  {
    hide Step;
    StepConsumes(p);
    StepAppend(p, x);
    match Step(p)
    case Stuck => assert [] + Drain(Append(p, x)).0 == Drain(Append(p, x)).0;
    case To(next) => DrainAppend(next, x);
    case Deliver(m, next) =>
      DrainAppend(next, x);
      var (ms, q) := Drain(next);
      assert [m] + (ms + Drain(Append(q, x)).0) == [m] + ms + Drain(Append(q, x)).0;
  }

  // ----- Any run of calls -----

  /** Steps up to the first delivery. */
  function Advance(p: Parser): Move
    decreases Rank(p)
  {
    StepConsumes(p);
    match Step(p)
    case Stuck => To(p)
    case To(next) => Advance(next)
    case Deliver(m, next) => Deliver(m, next)
  }

  /** One call of the decoder with a chunk: at most one message is delivered. */
  function Call(p: Parser, chunk: seq<Byte>): Move {
    Advance(Append(p, chunk))
  }

  /** The messages of a series of calls with these chunks (a call may bring no bytes), and the
      parser after it. */
  function Calls(p: Parser, chunks: seq<seq<Byte>>): (seq<Message>, Parser)
    decreases |chunks|
  {
    if chunks == [] then ([], p)
    else
      match Call(p, chunks[0])
      case Deliver(m, q) => var (ms, last) := Calls(q, chunks[1..]); ([m] + ms, last)
      case To(q) => Calls(q, chunks[1..])
      case Stuck => ([], p)
  }

  function Join(chunks: seq<seq<Byte>>): seq<Byte> {
    if chunks == [] then [] else chunks[0] + Join(chunks[1..])
  }

  lemma {:induction false} AdvanceDrains(p: Parser)
    ensures match Advance(p)
            case Stuck => false
            case To(q) => Drain(p) == ([], q) && Step(q) == Stuck
            case Deliver(m, q) => Drain(p) == ([m] + Drain(q).0, Drain(q).1)
    decreases Rank(p)
  {
    hide Step;
    StepConsumes(p);
    match Step(p)
    case Stuck =>
    case To(next) => AdvanceDrains(next);
    case Deliver(m, next) =>
  }

  /** However the stream is cut and whenever calls are made: what has been delivered, followed by
      what can still be drained, is what draining the whole stream delivers, and the parser that
      remains is the same. */
  lemma {:induction false} CallsDeliverTheStream(p: Parser, chunks: seq<seq<Byte>>)
    ensures var (ms, q) := Calls(p, chunks);
            var (more, last) := Drain(q);
            Drain(Append(p, Join(chunks))) == (ms + more, last)
    decreases |chunks|
  {
    hide Drain, Advance, Step;
    if chunks == [] {
      assert p.Reading? ==> p.buffer + [] == p.buffer;
      assert [] + Drain(p).0 == Drain(p).0;
    } else {
      var c, rest := chunks[0], Join(chunks[1..]);
      AdvanceDrains(Append(p, c));
      assert p.Reading? ==> p.buffer + (c + rest) == p.buffer + c + rest;
      assert Append(Append(p, c), rest) == Append(p, Join(chunks));
      DrainAppend(Append(p, c), rest);
      match Call(p, c)
      case Deliver(m, q) =>
        DrainAppend(q, rest);
        CallsDeliverTheStream(q, chunks[1..]);
        var (ms, last) := Calls(q, chunks[1..]);
        var (now, after) := Drain(q);
        assert [m] + now + Drain(Append(after, rest)).0 == [m] + (now + Drain(Append(after, rest)).0);
        assert [m] + (ms + Drain(last).0) == [m] + ms + Drain(last).0;
      case To(q) =>
        CallsDeliverTheStream(q, chunks[1..]);
        assert [] + Drain(Append(q, rest)).0 == Drain(Append(q, rest)).0;
    }
  }

  lemma StuckDrains(p: Parser)
    requires Step(p) == Stuck
    ensures Drain(p) == ([], p)
  {
  }

  /** Two ways of cutting the same stream: once nothing more can be drained, the messages and the
      parser are the same. */
  lemma ChunksDoNotMatter(p: Parser, one: seq<seq<Byte>>, two: seq<seq<Byte>>)
    requires Join(one) == Join(two)
    requires Step(Calls(p, one).1) == Stuck && Step(Calls(p, two).1) == Stuck
    ensures Calls(p, one) == Calls(p, two)
  {
    hide Step, Calls, Drain;
    CallsDeliverTheStream(p, one);
    CallsDeliverTheStream(p, two);
    StuckDrains(Calls(p, one).1);
    StuckDrains(Calls(p, two).1);
    assert Calls(p, one).0 + [] == Calls(p, one).0 && Calls(p, two).0 + [] == Calls(p, two).0;
  }

  // ----- Encoding -----

  function Decimal(n: nat): (s: seq<Byte>)
    ensures s != []
  {
    var last: Byte := ZERO + n % 10;
    if n < 10 then [last] else Decimal(n / 10) + [last]
  }

  function EncodeLength(mark: Byte, n: nat): seq<Byte> {
    [mark] + Decimal(n) + CRLF
  }

  function EncodeString(s: seq<Byte>): seq<Byte> {
    EncodeLength(DOLLAR, |s|) + s + CRLF
  }

  function EncodeStrings(m: Message): seq<Byte> {
    if m == [] then [] else EncodeString(m[0]) + EncodeStrings(m[1..])
  }

  function EncodeMessage(m: Message): seq<Byte> {
    EncodeLength(STAR, |m|) + EncodeStrings(m)
  }

  function EncodeMessages(ms: seq<Message>): seq<Byte> {
    if ms == [] then [] else EncodeMessage(ms[0]) + EncodeMessages(ms[1..])
  }

  function Shifted(l: Length, n: nat): Length {
    if l.Length? then Length(l.value, l.size + n) else l
  }

  /** Digits are read as their number, exactly if an int holds it. */
  lemma {:induction false} DecimalRead(n: nat, t: seq<Byte>)
    requires |t| >= 2
    ensures ReadDigits(Decimal(n) + t, 0) == if n > MAX_INT then Overflow else Shifted(ReadDigits(t, n), |Decimal(n)|)
  {
    var last: Byte := ZERO + n % 10;
    if n < 10 {
      DigitFirst(last, t, 0);
    } else {
      assert Decimal(n) + t == Decimal(n / 10) + ([last] + t);
      DecimalRead(n / 10, [last] + t);
      DigitFirst(last, t, n / 10);
    }
  }

  lemma DigitFirst(d: Byte, t: seq<Byte>, count: nat)
    requires IsDigit(d) && |t| >= 1
    ensures var n := count * 10 + (d - ZERO);
            ReadDigits([d] + t, count) == if n > MAX_INT then Overflow else Longer(ReadDigits(t, n))
  {
    assert ([d] + t)[1..] == t;
  }

  lemma LengthRead(mark: Byte, n: nat, t: seq<Byte>)
    ensures ReadLength(EncodeLength(mark, n) + t, mark)
            == if n > MAX_INT then Overflow else if n >= TOO_LARGE then Bad else Length(n, |EncodeLength(mark, n)|)
  {
    var s := EncodeLength(mark, n) + t;
    assert s[1..] == Decimal(n) + (CRLF + t);
    DecimalRead(n, CRLF + t);
    assert ReadDigits(CRLF + t, n) == if n >= TOO_LARGE then Bad else Length(n, 2);
  }

  /** The number 4294967297, on which an int of 32 bits that wraps around arrives at 1: the model says
      that it overflows, and what is read after it is not defined. */
  lemma WrappedCount(rest: seq<Byte>)
    ensures ReadLength(EncodeLength(STAR, 0x1_0000_0001) + rest, STAR) == Overflow
    ensures Drain(Reading(EncodeLength(STAR, 0x1_0000_0001) + rest, Idle)) == ([], Undefined)
    ensures 0x1_0000_0001 % 0x1_0000_0000 == 1
  {
    LengthRead(STAR, 0x1_0000_0001, rest);
  }

  lemma StringStep(s: seq<Byte>, count: nat, items: Message, rest: seq<Byte>)
    requires |s| < TOO_LARGE
    ensures Step(Reading(EncodeString(s) + rest, Partial(count, items)))
            == if |items| + 1 == count then Deliver(items + [s], Reading(rest, Idle))
               else To(Reading(rest, Partial(count, items + [s])))
  {
    var head := EncodeLength(DOLLAR, |s|);
    var b := EncodeString(s) + rest;
    assert b == head + (s + CRLF + rest);
    LengthRead(DOLLAR, |s|, s + CRLF + rest);
    assert b[|head|..|head| + |s|] == s;
    assert b[|head| + |s|] == CR && b[|head| + |s| + 1] == LF;
    assert b[|head| + |s| + 2..] == rest;
  }

  /** The limits of the decoder: a count that is not zero, and no number too large. */
  predicate Readable(m: Message) {
    0 < |m| < TOO_LARGE && forall s <- m :: |s| < TOO_LARGE
  }

  lemma {:induction false} StringsDrain(m: Message, i: nat, rest: seq<Byte>)
    requires Readable(m) && i < |m|
    ensures Drain(Reading(EncodeStrings(m[i..]) + rest, Partial(|m|, m[..i])))
            == ([m] + Drain(Reading(rest, Idle)).0, Drain(Reading(rest, Idle)).1)
    decreases |m| - i
  {
    hide Step, Readable;
    var s, after := m[i], EncodeStrings(m[i + 1..]) + rest;
    assert m[i..][1..] == m[i + 1..] && m[..i] + [s] == m[..i + 1];
    assert EncodeStrings(m[i..]) + rest == EncodeString(s) + after;
    assert |s| < TOO_LARGE by { ReadableString(m, i); }
    StringStep(s, |m|, m[..i], after);
    if i + 1 == |m| {
      assert m[i + 1..] == [] && after == rest && m[..i + 1] == m;
    } else {
      StringsDrain(m, i + 1, rest);
    }
  }

  lemma ReadableString(m: Message, i: nat)
    requires Readable(m) && i < |m|
    ensures |m[i]| < TOO_LARGE
  {
  }

  lemma MessageDrains(m: Message, rest: seq<Byte>)
    requires Readable(m)
    ensures Drain(Reading(EncodeMessage(m) + rest, Idle))
            == ([m] + Drain(Reading(rest, Idle)).0, Drain(Reading(rest, Idle)).1)
  {
    var head := EncodeLength(STAR, |m|);
    var b := EncodeMessage(m) + rest;
    assert b == head + (EncodeStrings(m) + rest);
    LengthRead(STAR, |m|, EncodeStrings(m) + rest);
    assert b[|head|..] == EncodeStrings(m) + rest;
    assert Step(Reading(b, Idle)) == To(Reading(EncodeStrings(m) + rest, Partial(|m|, [])));
    assert m[0..] == m && m[..0] == [];
    StringsDrain(m, 0, rest);
  }

  /** A stream of encoded messages is drained into exactly these messages, with nothing left. */
  lemma {:induction false} RoundTrip(ms: seq<Message>)
    requires forall m <- ms :: Readable(m)
    ensures Drain(Reading(EncodeMessages(ms), Idle)) == (ms, Reading([], Idle))
  {
    hide Step, Readable;
    if ms == [] {
      assert Step(Reading([], Idle)) == Stuck by { NothingToRead(); }
    } else {
      MessageDrains(ms[0], EncodeMessages(ms[1..]));
      RoundTrip(ms[1..]);
      assert [ms[0]] + ms[1..] == ms;
    }
  }

  lemma NothingToRead()
    ensures Step(Reading([], Idle)) == Stuck
  {
  }

  /** And however the stream is cut: once the parser is stuck, exactly these messages have been
      delivered, and the parser is empty. */
  lemma StreamRoundTrip(ms: seq<Message>, chunks: seq<seq<Byte>>)
    requires (forall m <- ms :: Readable(m)) && Join(chunks) == EncodeMessages(ms)
    requires Step(Calls(Reading([], Idle), chunks).1) == Stuck
    ensures Calls(Reading([], Idle), chunks) == (ms, Reading([], Idle))
  {
    hide Step, Calls, Drain;
    CallsDeliverTheStream(Reading([], Idle), chunks);
    StuckDrains(Calls(Reading([], Idle), chunks).1);
    RoundTrip(ms);
    assert [] + Join(chunks) == EncodeMessages(ms);
    assert Calls(Reading([], Idle), chunks).0 + [] == Calls(Reading([], Idle), chunks).0;
  }

  /** A count the decoder refuses: the encoding of such a message fails. */
  lemma LargeCountFails(m: Message, rest: seq<Byte>)
    requires |m| >= TOO_LARGE
    ensures Drain(Reading(EncodeMessage(m) + rest, Idle)) == ([], if |m| > MAX_INT then Undefined else Failed)
  {
    LengthRead(STAR, |m|, EncodeStrings(m) + rest);
    assert EncodeMessage(m) + rest == EncodeLength(STAR, |m|) + (EncodeStrings(m) + rest);
  }
}

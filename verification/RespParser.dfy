/** The streaming parser itself, with its growing buffer, and the encoder (rdsparser.c). */
module RespParser {
  import opened Basics
  import opened Powers
  import opened Resp

  const DEFAULT_BUFF_SIZE := 32 * 1024
  const EXPECT_BUFF_SIZE := 128 * 1024
  const LARGEST_BUFF_SIZE := 512 * 1024
  const LARGEST_STRING := 128 * 1024

  datatype State = New | Run | Err

  /** What a call of the decoder comes to; `Exit` is the end of the process, and after `Overflowed` the
      code has no defined meaning. */
  datatype Outcome = Complete(message: Message) | Incomplete | Error | Exit | Overflowed

  const LARGEST_SIZE := 0x80_0000

  /** adjust_size: the least power of two that is large enough, if it is less than 2^24. */
  method AdjustSize(size: nat) returns (n: nat)
    ensures n == 0 <==> size > LARGEST_SIZE
    ensures n > 0 ==> size <= n && exists i: nat :: n == Pow2(i) && (i > 0 ==> Pow2(i - 1) < size)
    ensures n == 0 || n > LARGEST_BUFF_SIZE <==> size > LARGEST_BUFF_SIZE
  {
    var i := 0;
    n := 1;
    while i < 24
      invariant 0 <= i <= 24 && n == Pow2(i)
      invariant i > 0 ==> Pow2(i - 1) < size
    {
      if n >= size {
        Pow2Monotone(i, 23);
        LargestSize();
        LeastPower(size, n, i);
        return;
      }
      i := i + 1;
      n := 2 * n;
    }
    LargestSize();
    n := 0;
  }

  lemma LargestSize()
    ensures Pow2(23) == LARGEST_SIZE && Pow2(19) == LARGEST_BUFF_SIZE
  {
    assert Pow2(10) == 1024;
    assert Pow2(19) == LARGEST_BUFF_SIZE;
  }

  /** A power of two that is the least one large enough exceeds the limit exactly if the size does. */
  lemma LeastPower(size: nat, n: nat, i: nat)
    requires n == Pow2(i) && size <= n && (i > 0 ==> Pow2(i - 1) < size)
    ensures n > LARGEST_BUFF_SIZE <==> size > LARGEST_BUFF_SIZE
  {
    LargestSize();
    if i <= 19 {
      Pow2Monotone(i, 19);
    } else {
      Pow2Monotone(19, i - 1);
    }
  }

  lemma AdvanceNothing(p: Parser)
    requires p.Reading? && p.buffer == []
    ensures Advance(p) == To(p)
  {
  }

  /** What the first string in the buffer does to the parser. */
  lemma AdvanceString(b: seq<Byte>, count: nat, items: Message)
    requires b != []
    ensures var p, l := Reading(b, Partial(count, items)), ReadLength(b, DOLLAR);
            match l
            case Bad => Advance(p) == To(Failed)
            case Overflow => Advance(p) == To(Undefined)
            case More => Advance(p) == To(p)
            case Length(len, size) =>
              && 3 <= size <= |b|
              && if |b| - size < len + 2 then Advance(p) == To(p)
                 else if b[size + len] != CR || b[size + len + 1] != LF then Advance(p) == To(Failed)
                 else
                   var now, rest := items + [b[size..size + len]], b[size + len + 2..];
                   Advance(p) == if |now| == count then Deliver(now, Reading(rest, Idle))
                                 else Advance(Reading(rest, Partial(count, now)))
  {
    LengthInside(b, DOLLAR);
  }

  /** What the count in the buffer does to the parser. */
  lemma AdvanceHeader(b: seq<Byte>)
    requires b != []
    ensures var p, l := Reading(b, Idle), ReadLength(b, STAR);
            match l
            case Bad => Advance(p) == To(Failed)
            case Overflow => Advance(p) == To(Undefined)
            case More => Advance(p) == To(p)
            case Length(n, size) =>
              && 3 <= size <= |b|
              && Advance(p) == if n == 0 then To(Aborted) else Advance(Reading(b[size..], Partial(n, [])))
  {
    LengthInside(b, STAR);
  }

  class Rds {
    var buff: array?<Byte>
    var cursize: nat
    var maxsize: nat
    var state: State
    var items: Message
    var count: nat

    ghost predicate Valid()
      reads this
    {
      && (buff == null ==> cursize == 0)
      && (buff != null ==> cursize <= maxsize == buff.Length) && maxsize <= LARGEST_BUFF_SIZE
      && (state.New? ==> items == [] && count == 0)
      && (state.Run? ==> |items| < count)
    }

    ghost function Bytes(): seq<Byte>
      requires Valid()
      reads this, buff
    {
      if buff == null then [] else buff[..cursize]
    }

    ghost function View(): Parser
      requires Valid()
      reads this, buff
    {
      match state
      case New => Reading(Bytes(), Idle)
      case Run => Reading(Bytes(), Partial(count, items))
      case Err => Failed
    }

    constructor ()
      ensures Valid() && View() == Reading([], Idle) && buff == null
    {
      buff, cursize, maxsize, state, items, count := null, 0, 0, New, [], 0;
    }

    /** There is room for the bytes in the largest buffer. */
    ghost predicate HasRoom(size: nat)
      reads this
    {
      cursize + size <= LARGEST_BUFF_SIZE
    }

    /** What a refusal for lack of room leaves: `maxsize` has grown to hold the bytes refused, the
        buffer has not, and the state does not tell. */
    ghost predicate Outgrown(size: nat)
      reads this
    {
      && !state.Err? && buff != null && cursize <= buff.Length < cursize + size <= maxsize
      && LARGEST_BUFF_SIZE < maxsize
    }

    /** Bytes that pass the test for room without growing the buffer, and do not fit in it. */
    ghost predicate Overruns(size: nat)
      reads this
    {
      buff != null && cursize + size <= maxsize && buff.Length < cursize + size
    }

    /** In a valid parser no number of bytes does; after a refusal some do, exactly those that do not
        fit in the buffer and are no more than those refused made room for. */
    lemma RefusalIsNotSafe(size: nat)
      requires Valid() || Outgrown(size)
      ensures Valid() <==> forall n: nat :: !Overruns(n)
      ensures Outgrown(size) ==> Overruns(size) && forall n: nat :: Overruns(n) <==> buff.Length - cursize < n <= maxsize - cursize
    {
      assert Outgrown(size) ==> Overruns(size);
    }

    /** realloc, after `maxsize` has been set. */
    method Resize()
      requires buff != null && cursize <= maxsize && cursize <= buff.Length
      modifies this`buff
      ensures buff != null && fresh(buff) && buff.Length == maxsize
      ensures buff[..cursize] == old(buff[..cursize])
    {
      var larger := new Byte[maxsize];
      forall k | 0 <= k < cursize {
        larger[k] := buff[k];
      }
      buff := larger;
    }

    /** Makes room for so many bytes, if the buffer need not become larger than the largest. */
    method Grow(size: nat) returns (result: Outcome)
      requires Valid() && !state.Err?
      modifies this`buff, this`maxsize
      ensures result.Incomplete? <==> old(HasRoom(size))
      ensures result.Exit? <==> !old(HasRoom(size)) && cursize + size > LARGEST_SIZE
      ensures !result.Exit? ==> (Valid() <==> old(HasRoom(size)))
      ensures result.Error? ==> Outgrown(size) && (buff == old(buff) || fresh(buff))
      ensures result.Incomplete? ==>
                && Valid() && buff != null && cursize + size <= maxsize
                && (buff == old(buff) || fresh(buff)) && Bytes() == old(Bytes())
      ensures result.Incomplete? || result.Error? || result.Exit?
    {
      hide Pow2;
      if buff == null {
        maxsize := DEFAULT_BUFF_SIZE;
        buff := new Byte[maxsize];
      }
      if cursize + size > maxsize {
        var nsize := AdjustSize(cursize + size);
        if nsize == 0 {
          return Exit;
        }
        maxsize := nsize;
        if maxsize > LARGEST_BUFF_SIZE {
          return Error;
        }
        Resize();
      }
      result := Incomplete;
    }

    /** rds_cache */
    method Cache(bytes: seq<Byte>) returns (result: Outcome)
      requires Valid() && !state.Err?
      modifies this`buff, this`maxsize, this`cursize, buff
      ensures result.Incomplete? <==> old(HasRoom(|bytes|))
      ensures result.Exit? <==> !old(HasRoom(|bytes|)) && old(cursize) + |bytes| > LARGEST_SIZE
      ensures !result.Exit? ==> (Valid() <==> old(HasRoom(|bytes|)))
      ensures result.Error? ==> Outgrown(|bytes|) && cursize == old(cursize) && state == old(state)
      ensures result.Incomplete? ==> Valid() && (buff == old(buff) || fresh(buff)) && View() == Append(old(View()), bytes)
      ensures result.Incomplete? || result.Error? || result.Exit?
    {
      result := Grow(|bytes|);
      if !result.Incomplete? {
        return;
      }
      forall k | 0 <= k < |bytes| {
        buff[cursize + k] := bytes[k];
      }
      cursize := cursize + |bytes|;
      assert buff[..cursize] == old(Bytes()) + bytes;
    }

    /** read_rds_len, on what is in the buffer. */
    method ReadLen(mark: Byte) returns (l: Length)
      requires Valid() && cursize > 0
      ensures l == ReadLength(Bytes(), mark)
    {
      ghost var s := Bytes();
      if buff[0] != mark {
        return Bad;
      }
      var p := 1;
      if p >= cursize {
        return More;
      }
      var n: nat := 0;
      while true
        invariant 1 <= p <= cursize && n <= MAX_INT
        invariant ReadDigits(s[1..], 0) == Shifted(ReadDigits(s[p..], n), p - 1)
        decreases cursize - p
      {
        if p + 1 >= cursize {
          return More;
        }
        if buff[p] == CR && buff[p + 1] == LF {
          p := p + 2;
          break;
        }
        if buff[p] < ZERO || buff[p] > ZERO + 9 {
          return Bad;
        }
        var digit: int := buff[p] - ZERO;
        assert s[p..][1..] == s[p + 1..];
        if n * 10 + digit > MAX_INT {
          return Overflow;
        }
        n := n * 10 + digit;
        p := p + 1;
      }
      if n >= TOO_LARGE {
        return Bad;
      }
      l := Length(n, p);
    }

    /** Takes the first bytes out of the buffer. */
    method Consume(size: nat)
      requires Valid() && size <= cursize
      modifies this`cursize, buff
      ensures Valid() && Bytes() == old(Bytes())[size..]
    {
      if buff != null {
        forall k | 0 <= k < cursize - size {
          buff[k] := buff[size + k];
        }
      }
      cursize := cursize - size;
    }

    /** A complete string is taken; the last one completes the message. */
    method TakeItem(from: nat, length: nat) returns (result: Option<Outcome>)
      requires Valid() && state.Run? && from + length + 2 <= cursize
      modifies this`cursize, this`items, this`count, this`state, buff
      ensures Valid() && !state.Err? && cursize < old(cursize)
      ensures var b := old(Bytes());
              var now, rest := old(items) + [b[from..from + length]], b[from + length + 2..];
              if |now| == old(count) then result == Some(Complete(now)) && View() == Reading(rest, Idle)
              else result == None && state.Run? && View() == Reading(rest, Partial(old(count), now))
    {
      var item := buff[from..from + length];
      assert item == Bytes()[from..from + length];
      Consume(from + length + 2);
      items := items + [item];
      result := None;
      if |items| == count {
        result := Some(Complete(items));
        state, items, count := New, [], 0;
      }
    }

    /** One turn of the loop for strings: the outcome, if there is one. */
    method ReadString() returns (result: Option<Outcome>)
      requires Valid() && state.Run?
      modifies this`cursize, this`items, this`count, this`state, buff
      ensures Valid()
      ensures match result
              case None => state.Run? && cursize < old(cursize) && Advance(View()) == Advance(old(View()))
              case Some(Complete(m)) => !state.Err? && Advance(old(View())) == Deliver(m, View())
              case Some(Incomplete) => !state.Err? && Advance(old(View())) == To(View())
              case Some(Error) => state.Err? && Advance(old(View())) == To(Failed)
              case Some(Overflowed) => !state.Err? && Advance(old(View())) == To(Undefined)
              case Some(Exit) => false
    {
      hide ReadLength, Advance, Step;
      if cursize == 0 {
        AdvanceNothing(View());
        return Some(Incomplete);
      }
      var l := ReadLen(DOLLAR);
      AdvanceString(Bytes(), count, items);
      if l.Bad? {
        state := Err;
        return Some(Error);
      }
      if l.Overflow? {
        return Some(Overflowed);
      }
      if l.More? {
        return Some(Incomplete);
      }
      var left := cursize - l.size;
      if left < l.value + 2 {
        return Some(Incomplete);
      }
      if buff[l.size + l.value] != CR || buff[l.size + l.value + 1] != LF {
        state := Err;
        return Some(Error);
      }
      result := TakeItem(l.size, l.value);
    }

    /** read_param_content: strings until the message is complete. */
    method ReadParams() returns (result: Outcome)
      requires Valid() && state.Run?
      modifies this`cursize, this`items, this`count, this`state, buff
      ensures Valid() && (state.Err? <==> result.Error?)
      ensures match result
              case Complete(m) => Advance(old(View())) == Deliver(m, View())
              case Incomplete => Advance(old(View())) == To(View())
              case Error => Advance(old(View())) == To(Failed)
              case Overflowed => Advance(old(View())) == To(Undefined)
              case Exit => false
    {
      hide Advance;
      while true
        invariant Valid() && state.Run?
        invariant Advance(View()) == Advance(old(View()))
        decreases cursize
      {
        var turn := ReadString();
        if turn.Some? {
          return turn.value;
        }
      }
    }

    /** shrink_buff, when the buffer is empty. */
    method Shrink()
      requires Valid() && cursize == 0
      modifies this`buff, this`maxsize
      ensures Valid() && Bytes() == [] && (buff == old(buff) || fresh(buff))
    {
      if maxsize <= EXPECT_BUFF_SIZE {
        return;
      }
      maxsize := EXPECT_BUFF_SIZE;
      if buff != null {
        Resize();
      }
    }

    /** rds_decode: one call of the specification, if there is room for the bytes.  The parser can be
        used again exactly if there was. */
    method Decode(bytes: seq<Byte>) returns (result: Outcome)
      requires Valid() && !state.Err?
      modifies this, buff
      ensures !result.Exit? ==> (Valid() <==> old(HasRoom(|bytes|)) || |bytes| == 0)
      ensures !result.Exit? && Valid() ==> buff == old(buff) || fresh(buff)
      ensures result.Complete? || result.Incomplete? ==> !state.Err?
      ensures !old(HasRoom(|bytes|)) && |bytes| > 0 ==>
                if old(cursize) + |bytes| > LARGEST_SIZE then result.Exit?
                else result.Error? && Outgrown(|bytes|) && cursize == old(cursize) && state == old(state)
      ensures old(HasRoom(|bytes|)) || |bytes| == 0 ==>
                match result
                case Complete(m) => Call(old(View()), bytes) == Deliver(m, View())
                case Incomplete => Call(old(View()), bytes) == To(View())
                case Error => Valid() && View() == Failed && Call(old(View()), bytes) == To(Failed)
                case Overflowed => Call(old(View()), bytes) == To(Undefined)
                case Exit => Call(old(View()), bytes) == To(Aborted)
    {
      hide ReadLength, Advance, Step;
      if |bytes| > 0 {
        result := Cache(bytes);
        if !result.Incomplete? {
          return;
        }
      }
      assert View() == Append(old(View()), bytes);
      if cursize == 0 {
        AdvanceNothing(View());
        return Incomplete;
      }
      if state == New {
        var l := ReadLen(STAR);
        AdvanceHeader(Bytes());
        if l.Bad? {
          state := Err;
          return Error;
        }
        if l.Overflow? {
          return Overflowed;
        }
        if l.More? {
          return Incomplete;
        }
        if l.value == 0 {
          return Exit;
        }
        count, state := l.value, Run;
        Consume(l.size);
      }
      result := ReadParams();
      if result.Complete? && cursize == 0 {
        Shrink();
      }
    }
  }

  /** A parser that gets these chunks has room for each of them, and never fails. */
  ghost predicate AllRead(p: Parser, chunks: seq<seq<Byte>>)
    decreases |chunks|
  {
    chunks == [] ||
    (&& p.Reading? && (chunks[0] == [] || |p.buffer| + |chunks[0]| <= LARGEST_BUFF_SIZE)
     && match Call(p, chunks[0])
        case Deliver(m, q) => AllRead(q, chunks[1..])
        case To(q) => q.Reading? && AllRead(q, chunks[1..])
        case Stuck => false)
  }

  /** Calling the decoder with one chunk after the other is the series of calls of the specification,
      as long as there is room and nothing fails. */
  method DecodeAll(p: Rds, chunks: seq<seq<Byte>>) returns (ms: seq<Message>, ok: bool)
    requires p.Valid() && !p.state.Err?
    modifies p, p.buff
    ensures ok <==> AllRead(old(p.View()), chunks)
    ensures ok ==> p.Valid() && (ms, p.View()) == Calls(old(p.View()), chunks)
  {
    hide Call;
    ms := [];
    var i := 0;
    ghost var p0 := p.View();
    assert chunks[0..] == chunks;
    assert ms + Calls(p0, chunks).0 == Calls(p0, chunks).0;
    while i < |chunks|
      invariant 0 <= i <= |chunks| && p.Valid() && !p.state.Err? && (p.buff == old(p.buff) || fresh(p.buff))
      invariant AllRead(p0, chunks) <==> AllRead(p.View(), chunks[i..])
      invariant Calls(p0, chunks) == (ms + Calls(p.View(), chunks[i..]).0, Calls(p.View(), chunks[i..]).1)
    {
      assert chunks[i..][0] == chunks[i] && chunks[i..][1..] == chunks[i + 1..];
      var result := p.Decode(chunks[i]);
      match result {
        case Complete(m) =>
          Regroup(ms, m, Calls(p.View(), chunks[i + 1..]).0);
          ms := ms + [m];
        case Incomplete =>
        case _ => return ms, false;
      }
      i := i + 1;
    }
    assert ms + [] == ms;
    ok := true;
  }

  lemma Regroup(a: seq<Message>, m: Message, b: seq<Message>)
    ensures a + ([m] + b) == a + [m] + b
  {
  }

  /** A new parser that gets the encodings of messages, in any chunks there is room for, delivers these
      messages and is empty, once it cannot go on without more bytes. */
  method Receive(chunks: seq<seq<Byte>>, ghost messages: seq<Message>) returns (p: Rds, ms: seq<Message>)
    requires (forall m <- messages :: Readable(m)) && Join(chunks) == EncodeMessages(messages)
    requires AllRead(Reading([], Idle), chunks) && Step(Calls(Reading([], Idle), chunks).1) == Stuck
    ensures fresh(p) && p.Valid() && ms == messages && p.View() == Reading([], Idle)
  {
    hide Step, Calls, AllRead;
    p := new Rds();
    var ok;
    ms, ok := DecodeAll(p, chunks);
    StreamRoundTrip(messages, chunks);
  }

  /** A new parser is given one byte more than the largest buffer holds.  The call fails; made again,
      it passes the test for room, and the bytes do not fit in the buffer. */
  method RefuseOnce() returns (p: Rds, bytes: seq<Byte>)
    ensures fresh(p) && !p.Valid() && p.state.New? && p.Overruns(|bytes|) && |bytes| == LARGEST_BUFF_SIZE + 1
  {
    p := new Rds();
    bytes := seq(LARGEST_BUFF_SIZE + 1, _ => 0);
    var result := p.Decode(bytes);
    p.RefusalIsNotSafe(|bytes|);
  }
}

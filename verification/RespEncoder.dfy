/** The encoder of messages (rdsparser.c:49-86): it sizes its buffer before it writes, and ends the
    process when the size turns out too small. */
module RespEncoder {
  import opened Basics
  import opened Resp
  import opened RespParser

  datatype Encoded = Encoded(bytes: seq<Byte>) | Abort

  function Lengths(m: Message): nat {
    if m == [] then 0 else |m[0]| + Lengths(m[1..])
  }

  /** The size of the buffer: ten digits for each length, and the line ends. */
  function Total(m: Message): nat {
    |m| * 10 + (|m| * 2 + 1) * 2 + Lengths(m)
  }

  /** What the encoder demands of its callers. */
  predicate Encodable(m: Message) {
    0 < |m| && forall s <- m :: 0 < |s| <= LARGEST_STRING
  }

  lemma {:induction false} DecimalSize(n: nat)
    ensures n < 10 ==> |Decimal(n)| == 1
    ensures n >= 10 ==> |Decimal(n)| == |Decimal(n / 10)| + 1 && |Decimal(n)| >= 2
    ensures |Decimal(n)| <= n + 1
  {
    if n >= 10 {
      DecimalSize(n / 10);
    }
  }

  /** Six digits exactly from a hundred thousand on. */
  function Pow10(d: nat): (p: nat)
    ensures 1 <= p && (d >= 1 ==> 10 <= p)
  {
    if d == 0 then 1 else 10 * Pow10(d - 1)
  }

  lemma {:induction false} DecimalLength(n: nat, d: nat)
    requires 1 <= d
    ensures |Decimal(n)| <= d <==> n < Pow10(d)
  {
    DecimalSize(n);
    if n >= 10 && d > 1 {
      DecimalLength(n / 10, d - 1);
    }
  }

  lemma StringDigits(n: nat)
    requires n <= LARGEST_STRING
    ensures |Decimal(n)| <= 6
    ensures |Decimal(n)| == 6 <==> n >= 100_000
  {
    DecimalLength(n, 6);
    DecimalLength(n, 5);
    assert Pow10(5) == 100_000;
  }

  lemma {:induction false} LengthsSplit(m: Message, i: nat)
    requires i < |m|
    ensures Lengths(m[..i + 1]) == Lengths(m[..i]) + |m[i]|
    ensures Lengths(m[..i + 1]) + Lengths(m[i + 1..]) == Lengths(m)
    ensures EncodeStrings(m[..i + 1]) == EncodeStrings(m[..i]) + EncodeString(m[i])
  {
    if i == 0 {
      assert m[..1] == [m[0]] && m[..0] == [] && m[..1][1..] == [];
      assert EncodeStrings(m[..1]) == EncodeString(m[0]) + [];
    } else {
      LengthsSplit(m[1..], i - 1);
      assert m[..i + 1][1..] == m[1..][..i] && m[..i][1..] == m[1..][..i - 1] && m[1..][i..] == m[i + 1..];
      assert EncodeString(m[0]) + (EncodeStrings(m[1..][..i - 1]) + EncodeString(m[i]))
          == EncodeString(m[0]) + EncodeStrings(m[1..][..i - 1]) + EncodeString(m[i]);
    }
  }

  /** What is written for `n` strings: at most eleven bytes around each. */
  lemma {:induction false} StringsSize(m: Message)
    requires forall s <- m :: |s| <= LARGEST_STRING
    ensures |EncodeStrings(m)| <= Lengths(m) + 11 * |m|
    ensures |m| == 1 ==> |EncodeStrings(m)| == |m[0]| + 5 + |Decimal(|m[0]|)|
  {
    if m != [] {
      StringDigits(|m[0]|);
      StringsSize(m[1..]);
    }
  }

  lemma CountDigits(n: nat)
    requires n > 0
    ensures |Decimal(n)| <= n && (n == 1 ==> |Decimal(n)| == 1)
  {
    DecimalSize(n);
    DecimalSize(n / 10);
  }

  /** The buffer is large enough, with a byte to spare for the terminator and one the check wants,
      unless a single string has six digits of length. */
  lemma TotalSuffices(m: Message)
    requires Encodable(m)
    ensures |EncodeMessage(m)| < Total(m)
    ensures |EncodeMessage(m)| + 1 < Total(m) <==> !(|m| == 1 && |m[0]| >= 100_000)
  {
    CountDigits(|m|);
    StringsSize(m);
    if |m| == 1 {
      StringDigits(|m[0]|);
      assert Lengths(m) == |m[0]|;
    }
  }

  lemma {:induction false} LengthsAtLeast(m: Message, i: nat)
    requires i <= |m|
    ensures Lengths(m[..i]) <= Lengths(m)
  {
    if i > 0 {
      LengthsAtLeast(m[1..], i - 1);
      assert m[..i][1..] == m[1..][..i - 1];
    }
  }

  /** The buffer also passes the checks on the way. */
  lemma PrefixFits(m: Message, i: nat)
    requires Encodable(m) && i < |m|
    ensures |EncodeLength(STAR, |m|)| < Total(m)
    ensures |EncodeLength(STAR, |m|)| + |EncodeStrings(m[..i + 1])| < Total(m)
  {
    CountDigits(|m|);
    StringsSize(m[..i + 1]);
    LengthsAtLeast(m, i + 1);
    if |m| == 1 {
      assert m[..1] == m;
      StringDigits(|m[0]|);
      assert Lengths(m) == |m[0]|;
    }
  }

  /** Messages the encoder accepts, of less than a hundred million strings, can be read back: with
      StreamRoundTrip, however their encodings are cut into chunks. */
  lemma EncodableIsReadable(m: Message)
    requires Encodable(m)
    ensures Readable(m) <==> |m| < TOO_LARGE
  {
    forall s | s in m ensures |s| < TOO_LARGE {
      assert |s| <= LARGEST_STRING;
    }
  }

  /** Writes one string; neither of the checks on the way fails. */
  method PutString(buff: array<Byte>, from: nat, s: seq<Byte>) returns (pos: nat)
    requires from + |EncodeString(s)| < buff.Length
    modifies buff
    ensures pos == from + |EncodeString(s)|
    ensures buff[..pos] == old(buff[..from]) + EncodeString(s)
  {
    StringParts(s);
    var line := EncodeLength(DOLLAR, |s|);
    assert from + |line| < buff.Length;
    Put(buff, from, line);
    pos := from + |line|;
    assert pos + |s| + 2 < buff.Length;
    Put(buff, pos, s);
    pos := pos + |s|;
    Put(buff, pos, CRLF);
    pos := pos + 2;
  }

  /** rds_encode: succeeds for all it accepts but a single string of 100000 bytes or more. */
  method Encode(m: Message) returns (result: Encoded)
    ensures result == if Encodable(m) && !(|m| == 1 && |m[0]| >= 100_000) then Encoded(EncodeMessage(m)) else Abort
  {
    hide EncodeLength, EncodeString, EncodeStrings, Total, Lengths;
    if !Encodable(m) {
      return Abort;
    }
    var total := Total(m);
    var buff := new Byte[total];
    TotalSuffices(m);
    PrefixFits(m, 0);
    var head := EncodeLength(STAR, |m|);
    assert |head| < total;                       // the first check never fails
    Put(buff, 0, head);
    var pos := |head|;
    var i := 0;
    NoStrings(m);
    while i < |m|
      invariant 0 <= i <= |m| && pos == |head| + |EncodeStrings(m[..i])| < total
      invariant buff[..pos] == head + EncodeStrings(m[..i])
    {
      PrefixFits(m, i);
      LengthsSplit(m, i);
      pos := PutString(buff, pos, m[i]);
      Regroup(head, EncodeStrings(m[..i]), EncodeString(m[i]));
      i := i + 1;
    }
    assert m[..i] == m;
    MessageParts(m);
    if pos + 1 >= total {
      return Abort;
    }
    buff[pos] := 0;
    assert buff[..pos] == EncodeMessage(m);
    result := Encoded(buff[..pos]);
  }

  lemma Regroup(head: seq<Byte>, done: seq<Byte>, s: seq<Byte>)
    ensures head + done + s == head + (done + s)
  {
  }

  lemma NoStrings(m: Message)
    ensures m[..0] == [] && EncodeStrings(m[..0]) == []
  {
  }

  lemma StringParts(s: seq<Byte>)
    ensures EncodeString(s) == EncodeLength(DOLLAR, |s|) + s + CRLF
  {
  }

  lemma MessageParts(m: Message)
    ensures EncodeMessage(m) == EncodeLength(STAR, |m|) + EncodeStrings(m)
  {
  }
}

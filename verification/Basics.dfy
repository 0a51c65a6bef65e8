/** Bytes, optional values, and copying bytes to a place in memory. */
module Basics {

  type Byte = b: int | 0 <= b < 256

  datatype Option<T> = None | Some(value: T)

  /** memcpy */
  method Put(a: array<Byte>, at: nat, bytes: seq<Byte>)
    requires at + |bytes| <= a.Length
    modifies a
    ensures a[..] == old(a[..at]) + bytes + old(a[at + |bytes|..])
  {
    forall k | 0 <= k < |bytes| {
      a[at + k] := bytes[k];
    }
  }
}

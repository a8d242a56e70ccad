/** Bytes, 16-bit numbers and the few sequence facts the other modules share. */
module Bytes {

  type byte = b: int | 0 <= b < 256
  type bytes = seq<byte>
  type uint16 = n: int | 0 <= n < 0x1_0000

  datatype Option<+T> = None | Some(value: T)

  /** The byte strings in parts, one after the other. */
  function Flatten(parts: seq<bytes>): bytes {
    if parts == [] then [] else Flatten(parts[..|parts| - 1]) + parts[|parts| - 1]
  }

  lemma FlattenSnoc(parts: seq<bytes>, last: bytes)
    ensures Flatten(parts + [last]) == Flatten(parts) + last
  {
    assert (parts + [last])[..|parts|] == parts;
  }

  lemma {:induction false} FlattenAppend(a: seq<bytes>, b: seq<bytes>)
    ensures Flatten(a + b) == Flatten(a) + Flatten(b)
    decreases |b|
  {
    if b == [] {
      assert a + b == a;
    } else {
      var front, last := b[..|b| - 1], b[|b| - 1];
      assert a + b == (a + front) + [last];
      FlattenSnoc(a + front, last);
      FlattenAppend(a, front);
    }
  }

  /** Big-endian encoding of a 16-bit number. */
  function Put16(n: uint16): (b: bytes)
    ensures |b| == 2 && Get16(b) == n
  {
    [n / 256, n % 256]
  }

  function Get16(b: bytes): uint16
    requires |b| >= 2
  {
    b[0] as int * 256 + b[1] as int
  }

  lemma Put16OfGet16(b: bytes)
    requires |b| >= 2
    ensures Put16(Get16(b)) == b[..2]
  {
  }
}

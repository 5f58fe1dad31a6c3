/** Bytes in network order, and the bit fields of the packet headers. */
module Bytes {
  import opened Wrappers

  type byte = b: int | 0 <= b < 256

  /** The 16-bit word at offset i, most significant byte first (`ntohs`). */
  function U16(b: seq<byte>, i: nat): (w: nat)
    requires i + 1 < |b|
    ensures w < 0x1_0000
  {
    256 * b[i] as nat + b[i + 1] as nat
  }

  /** The 32-bit word at offset i, most significant byte first (`ntohl`). */
  function U32(b: seq<byte>, i: nat): (w: nat)
    requires i + 3 < |b|
    ensures w < 0x1_0000_0000
  {
    U16(b, i) * 0x1_0000 + U16(b, i + 2)
  }

  // ---------- reads that fail past the end ----------

  /** One byte through a header pointer: None when it lies past the bytes there are. */
  function ReadU8(b: seq<byte>, i: nat): Option<byte> {
    if i < |b| then Some(b[i]) else None
  }

  function ReadU16(b: seq<byte>, i: nat): Option<nat> {
    var high :- ReadU8(b, i);
    var low :- ReadU8(b, i + 1);
    Some(256 * high as nat + low as nat)
  }

  function ReadU32(b: seq<byte>, i: nat): Option<nat> {
    var high :- ReadU16(b, i);
    var low :- ReadU16(b, i + 2);
    Some(high * 0x1_0000 + low)
  }

  /** n bytes read one after the other, from offset i on. */
  function ReadSpan(b: seq<byte>, i: nat, n: nat): Option<seq<byte>>
    decreases n
  {
    if n == 0 then Some([]) else
      var first :- ReadU8(b, i);
      var rest :- ReadSpan(b, i + 1, n - 1);
      Some([first] + rest)
  }

  lemma ByteInside(b: seq<byte>, i: nat)
    ensures ReadU8(b, i) == if i < |b| then Some(b[i]) else None
  {
  }

  lemma WordInside(b: seq<byte>, i: nat)
    ensures ReadU16(b, i) == if i + 1 < |b| then Some(U16(b, i)) else None
  {
  }

  lemma DoubleInside(b: seq<byte>, i: nat)
    ensures ReadU32(b, i) == if i + 3 < |b| then Some(U32(b, i)) else None
  {
  }

  /** A span can be read exactly when it ends inside; an empty one reads nothing and always can. */
  lemma {:induction false} ReadSpanInside(b: seq<byte>, i: nat, n: nat)
    ensures ReadSpan(b, i, n) == if n == 0 then Some([]) else if i + n <= |b| then Some(b[i..i + n]) else None
    decreases n
  {
    if n == 0 {
    } else {
      ReadSpanInside(b, i + 1, n - 1);
      if i + n <= |b| {
        assert b[i..i + n] == [b[i]] + b[i + 1..i + n];
      }
    }
  }

  /** Reduction of an integer to `uint32_t`. */
  function ToUint32(x: int): (u: nat)
    ensures u < 0x1_0000_0000
  {
    x % 0x1_0000_0000
  }

  /** Reinterpretation of a `uint32_t` as a two's complement `int`. */
  function Uint32ToInt(u: nat): int
    requires u < 0x1_0000_0000
  {
    if u < 0x8000_0000 then u else u - 0x1_0000_0000
  }

  /** A byte shifted right by k bits. */
  function Shr(x: byte, k: nat): byte {
    if k == 0 then x else Shr(x, k - 1) / 2
  }

  /** Bit k of a byte, as the C bit fields of the TCP header see it. */
  predicate Bit(x: byte, k: nat) {
    Shr(x, k) % 2 == 1
  }

  /** A one-bit field moved to position k. */
  function Shifted(on: bool, k: nat): nat {
    if !on then 0 else if k == 0 then 1 else 2 * Shifted(on, k - 1)
  }
}

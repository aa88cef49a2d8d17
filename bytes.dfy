/** Bytes and the little-endian integer layouts the wire format uses. */
module Bytes {

  /** An unsigned 8-bit value, as a .NET `byte`. */
  type byte = b: int | 0 <= b < 0x100

  const Int32Min: int := -0x8000_0000
  const Int32Max: int := 0x7FFF_FFFF

  predicate IsInt32(x: int) {
    Int32Min <= x <= Int32Max
  }

  /** The contents of a .NET `byte[]`, whose `Length` is an `int`. */
  type ByteArray = s: seq<byte> | |s| <= Int32Max

  lemma DivMod256(a: int, q: int, r: int)
    requires a == 0x100 * q + r && 0 <= r < 0x100
    ensures a / 0x100 == q && a % 0x100 == r
  {
  }

  /** `BitConverter.GetBytes(int)` on a little-endian machine: two's complement, low byte first. */
  function Int32ToBytes(x: int): (r: seq<byte>)
    requires IsInt32(x)
    ensures |r| == 4
    ensures BytesToInt32(r) == x
  {
    var u := if x < 0 then x + 0x1_0000_0000 else x;
    var q1 := u / 0x100;
    var q2 := q1 / 0x100;
    var q3 := q2 / 0x100;
    [u % 0x100, q1 % 0x100, q2 % 0x100, q3]
  }

  /** `BitConverter.ToInt32` on a little-endian machine. */
  function BytesToInt32(b: seq<byte>): (x: int)
    requires |b| == 4
    ensures IsInt32(x)
  {
    var b0: int, b1: int, b2: int, b3: int := b[0], b[1], b[2], b[3];
    var u := b0 + 0x100 * (b1 + 0x100 * (b2 + 0x100 * b3));
    if u <= Int32Max then u else u - 0x1_0000_0000
  }

  /** Decoding then re-encoding four bytes gives them back: the two layouts are inverse bijections. */
  lemma BytesToInt32Inverse(b: seq<byte>)
    requires |b| == 4
    ensures Int32ToBytes(BytesToInt32(b)) == b
  {
    var b0: int, b1: int, b2: int, b3: int := b[0], b[1], b[2], b[3];
    var u := b0 + 0x100 * (b1 + 0x100 * (b2 + 0x100 * b3));
    DivMod256(u, b1 + 0x100 * (b2 + 0x100 * b3), b0);
    DivMod256(b1 + 0x100 * (b2 + 0x100 * b3), b2 + 0x100 * b3, b1);
    DivMod256(b2 + 0x100 * b3, b3, b2);
  }

  /** `BitConverter.ToUInt16` on a little-endian machine. */
  function BytesToUInt16(b: seq<byte>): (x: nat)
    requires |b| == 2
    ensures x < 0x1_0000
  {
    var lo: int, hi: int := b[0], b[1];
    lo + 0x100 * hi
  }

  /** The two bytes a writer emits for a 16-bit unsigned value. */
  function UInt16ToBytes(x: nat): (r: seq<byte>)
    requires x < 0x1_0000
    ensures |r| == 2 && BytesToUInt16(r) == x
  {
    [x % 0x100, x / 0x100]
  }
}

/** Bytes and the fixed-width integers of the JVM, and the little-endian layouts
    in which the directory file stores them. */
module Bytes {

  newtype byte = b: int | 0 <= b < 0x100

  const TWO_31: int := 0x8000_0000
  const TWO_32: int := 0x1_0000_0000

  type uint16 = x: int | 0 <= x < 0x1_0000
  type uint32 = x: int | 0 <= x < 0x1_0000_0000
  type int32 = x: int | -0x8000_0000 <= x < 0x8000_0000
  type int64 = x: int | -0x8000_0000_0000_0000 <= x < 0x8000_0000_0000_0000

  /** Java `int` arithmetic: `x` reduced to 32 bits and read as two's complement. */
  function Wrap32(x: int): (r: int32)
    ensures (r - x) % TWO_32 == 0
    ensures -TWO_31 <= x < TWO_31 ==> r == x
    ensures TWO_31 <= x < TWO_32 ==> r == x - TWO_32
  {
    var m := x % TWO_32;
    assert x == TWO_32 * (x / TWO_32) + m;
    if m < TWO_31 then m else m - TWO_32
  }

  /** `x & 0xffffffffL`: a Java `int` widened to `long` without its sign. */
  function Unsigned32(x: int32): (r: uint32)
    ensures (r - x) % TWO_32 == 0
    ensures 0 <= x ==> r == x
  {
    if x < 0 then x + TWO_32 else x
  }

  /** Widening undoes wrap-around: an unsigned 32-bit value read as a signed
      `int` and widened again is the value itself. */
  lemma UnsignedOfWrapped(u: uint32)
    ensures Unsigned32(Wrap32(u)) == u
  {
  }

  function LeUint16(b0: byte, b1: byte): uint16
  {
    b0 as int + 0x100 * b1 as int
  }

  /** The two bytes, least significant first, that store `x`. */
  function Le16(x: uint16): (b: seq<byte>)
    ensures |b| == 2 && LeUint16(b[0], b[1]) == x
  {
    [(x % 0x100) as byte, (x / 0x100) as byte]
  }

  function LeUint32(b: seq<byte>): uint32
    requires |b| == 4
  {
    b[0] as int + 0x100 * b[1] as int + 0x1_0000 * b[2] as int + 0x100_0000 * b[3] as int
  }

  /** The four bytes, least significant first, that store `x`. */
  function Le32(x: uint32): (b: seq<byte>)
    ensures |b| == 4 && LeUint32(b) == x
  {
    var b0, r0 := x % 0x100, x / 0x100;
    var b1, r1 := r0 % 0x100, r0 / 0x100;
    var b2, b3 := r1 % 0x100, r1 / 0x100;
    assert x == b0 + 0x100 * (b1 + 0x100 * (b2 + 0x100 * b3));
    [b0 as byte, b1 as byte, b2 as byte, b3 as byte]
  }

  /** Wrap-around undoes widening: a Java `int` widened without its sign and
      narrowed again is the value itself. */
  lemma WrappedOfUnsigned(x: int32)
    ensures Wrap32(Unsigned32(x)) == x
  {
  }

  /** Decoding loses nothing: four bytes are the encoding of the value they decode to. */
  lemma LeUint32Injective(b: seq<byte>)
    requires |b| == 4
    ensures Le32(LeUint32(b)) == b
  {
    var x := LeUint32(b);
    var r0 := b[1] as int + 0x100 * b[2] as int + 0x1_0000 * b[3] as int;
    assert x == b[0] as int + 0x100 * r0;
    assert x % 0x100 == b[0] as int && x / 0x100 == r0;
    var r1 := b[2] as int + 0x100 * b[3] as int;
    assert r0 == b[1] as int + 0x100 * r1;
    assert r0 % 0x100 == b[1] as int && r0 / 0x100 == r1;
    assert r1 % 0x100 == b[2] as int && r1 / 0x100 == b[3] as int;
  }
}

/** CRC-32 as `java.util.zip.CRC32` computes it (the ISO-HDLC / IEEE 802.3
    checksum): the reflected polynomial 0xEDB88320, the register preset to all
    ones and the result complemented. */
module Crc {
  import opened Bytes

  const POLYNOMIAL: bv32 := 0xEDB8_8320

  /** `k` steps of the bitwise division register. */
  function Shift(c: bv32, k: nat): bv32
    decreases k
  {
    if k == 0 then c
    else Shift(if c & 1 == 1 then (c >> 1) ^ POLYNOMIAL else c >> 1, k - 1)
  }

  /** The register after one byte, least significant bit first. */
  function FeedByte(c: bv32, b: byte): bv32
  {
    Shift(c ^ (b as bv32), 8)
  }

  /** The register after the bytes of `data`. */
  function Feed(c: bv32, data: seq<byte>): bv32
    decreases |data|
  {
    if data == [] then c else Feed(FeedByte(c, data[0]), data[1..])
  }

  /** The register of a fresh accumulator. */
  const INITIAL: bv32 := 0xFFFF_FFFF

  /** The checksum of `data` as `getValue()` returns it: the complement of the
      register after a fresh accumulator is fed all of `data`. */
  function Checksum(data: seq<byte>): uint32
  {
    Complement(Feed(INITIAL, data))
  }

  /** The value `getValue()` reports for a register: its complement, as a
      non-negative number. */
  function Complement(register: bv32): uint32
  {
    (!register) as int
  }

  /** The incremental law of `update`: feeding `a` and then `b` is feeding
      `a + b`, so the checksum does not depend on how the bytes are split
      into chunks. */
  lemma {:induction false} FeedAppend(c: bv32, a: seq<byte>, b: seq<byte>)
    ensures Feed(c, a + b) == Feed(Feed(c, a), b)
    decreases |a|
  {
    if a == [] {
      assert a + b == b;
    } else {
      assert (a + b)[0] == a[0] && (a + b)[1..] == a[1..] + b;
      FeedAppend(FeedByte(c, a[0]), a[1..], b);
    }
  }

  lemma FeedCons(c: bv32, b: byte, rest: seq<byte>)
    ensures Feed(c, [b] + rest) == Feed(FeedByte(c, b), rest)
  {
    assert ([b] + rest)[1..] == rest;
  }

  lemma Digit1()
    ensures FeedByte(0xFFFF_FFFF, 0x31) == 0x7C23_1048
  {
    assert Shift(0xFFFF_FFCE, 8) == 0x7C23_1048;
  }

  lemma Digit2()
    ensures FeedByte(0x7C23_1048, 0x32) == 0xB0AC_BB32
  {
    assert Shift(0x7C23_107A, 8) == 0xB0AC_BB32;
  }

  lemma Digit3()
    ensures FeedByte(0xB0AC_BB32, 0x33) == 0x77B7_9C2D
  {
    assert Shift(0xB0AC_BB01, 8) == 0x77B7_9C2D;
  }

  lemma Digit4()
    ensures FeedByte(0x77B7_9C2D, 0x34) == 0x641C_1F5C
  {
    assert Shift(0x77B7_9C19, 8) == 0x641C_1F5C;
  }

  lemma Digit5()
    ensures FeedByte(0x641C_1F5C, 0x35) == 0x340A_C5E3
  {
    assert Shift(0x641C_1F69, 8) == 0x340A_C5E3;
  }

  lemma Digit6()
    ensures FeedByte(0x340A_C5E3, 0x36) == 0xF68D_2C9E
  {
    assert Shift(0x340A_C5D5, 8) == 0xF68D_2C9E;
  }

  lemma Digit7()
    ensures FeedByte(0xF68D_2C9E, 0x37) == 0xAFFC_9660
  {
    assert Shift(0xF68D_2CA9, 8) == 0xAFFC_9660;
  }

  lemma Digit8()
    ensures FeedByte(0xAFFC_9660, 0x38) == 0x651F_2550
  {
    assert Shift(0xAFFC_9658, 8) == 0x651F_2550;
  }

  lemma Digit9()
    ensures FeedByte(0x651F_2550, 0x39) == 0x340B_C6D9
  {
    assert Shift(0x651F_2569, 8) == 0x340B_C6D9;
  }

  /** The register after the ASCII digits "123", from a fresh register. */
  lemma RegisterAfter123()
    ensures Feed(0xFFFF_FFFF, [0x31, 0x32, 0x33]) == 0x77B7_9C2D
  {
    Digit1();
    Digit2();
    Digit3();
    FeedCons(0xB0AC_BB32, 0x33, []);
    FeedCons(0x7C23_1048, 0x32, [0x33]);
    FeedCons(0xFFFF_FFFF, 0x31, [0x32, 0x33]);
  }

  /** The register after the ASCII digits "456", from the register after "123". */
  lemma RegisterAfter456()
    ensures Feed(0x77B7_9C2D, [0x34, 0x35, 0x36]) == 0xF68D_2C9E
  {
    Digit4();
    Digit5();
    Digit6();
    FeedCons(0x340A_C5E3, 0x36, []);
    FeedCons(0x641C_1F5C, 0x35, [0x36]);
    FeedCons(0x77B7_9C2D, 0x34, [0x35, 0x36]);
  }

  /** The register after the ASCII digits "789", from the register after "123456". */
  lemma RegisterAfter789()
    ensures Feed(0xF68D_2C9E, [0x37, 0x38, 0x39]) == 0x340B_C6D9
  {
    Digit7();
    Digit8();
    Digit9();
    FeedCons(0x651F_2550, 0x39, []);
    FeedCons(0xAFFC_9660, 0x38, [0x39]);
    FeedCons(0xF68D_2C9E, 0x37, [0x38, 0x39]);
  }

  /** The register after the ASCII digits "123456789", three bytes at a time. */
  lemma RegisterAfterDigits()
    ensures Feed(INITIAL, [0x31, 0x32, 0x33, 0x34, 0x35, 0x36, 0x37, 0x38, 0x39]) == 0x340B_C6D9
  {
    var a: seq<byte>, b: seq<byte>, c: seq<byte> := [0x31, 0x32, 0x33], [0x34, 0x35, 0x36], [0x37, 0x38, 0x39];
    assert a + b + c == [0x31, 0x32, 0x33, 0x34, 0x35, 0x36, 0x37, 0x38, 0x39];
    RegisterAfter123();
    RegisterAfter456();
    RegisterAfter789();
    FeedAppend(INITIAL, a, b);
    FeedAppend(INITIAL, a + b, c);
  }

  /** The standard check value of CRC-32/ISO-HDLC, over the ASCII digits "123456789". */
  lemma CheckValue()
    ensures Checksum([0x31, 0x32, 0x33, 0x34, 0x35, 0x36, 0x37, 0x38, 0x39]) == 0xCBF4_3926
  {
    RegisterAfterDigits();
    assert Complement(0x340B_C6D9) == 0xCBF4_3926;
  }

  /** Feeding one more byte is one more step of the register. */
  lemma FeedSnoc(c: bv32, a: seq<byte>, b: byte)
    ensures Feed(c, a + [b]) == FeedByte(Feed(c, a), b)
  {
    FeedAppend(c, a, [b]);
    assert [b][1..] == [];
  }

  lemma SliceSnoc(prefix: seq<byte>, data: seq<byte>, lo: nat, hi: nat)
    requires lo <= hi < |data|
    ensures prefix + data[lo..hi + 1] == (prefix + data[lo..hi]) + [data[hi]]
  {
    assert data[lo..hi + 1] == data[lo..hi] + [data[hi]];
  }

  /** A `java.util.zip.CRC32` object: the register, and the bytes fed to it
      so far. */
  class Accumulator {
    var register: bv32
    ghost var fed: seq<byte>

    ghost predicate Valid()
      reads this
    {
      register == Feed(INITIAL, fed)
    }

    constructor ()
      ensures Valid() && fed == []
    {
      register := INITIAL;
      fed := [];
    }

    /** `update(buf, off, len)`: feeds `len` bytes of `buf` from `off`. */
    method Update(buf: array<byte>, off: nat, len: nat)
      requires Valid() && off + len <= buf.Length
      modifies this
      ensures Valid() && fed == old(fed) + buf[off..off + len]
    {
      ghost var fed0 := fed;
      var i := off;
      while i < off + len
        invariant off <= i <= off + len
        invariant Valid() && fed == fed0 + buf[off..i]
      {
        var b := buf[i];
        FeedSnoc(INITIAL, fed, b);
        SliceSnoc(fed0, buf[..], off, i);
        register := FeedByte(register, b);
        fed := fed + [b];
        i := i + 1;
      }
    }

    /** `getValue()`: the checksum of everything fed so far. */
    function Value(): (v: uint32)
      reads this
      requires Valid()
      ensures v == Checksum(fed)
    {
      Complement(register)
    }
  }
}

/** Big-endian decoding of a 32-bit unsigned integer from four bytes, as the
    header reader composes the `width` and `height` fields, together with the
    matching encoder used to state round trips. */
module BigEndian {

  /** An unsigned 8-bit value, as Rust's `u8`. */
  type Byte = bv8

  /** Composes four bytes into an unsigned 32-bit value, most significant
      byte first, by widening each byte, shifting it into place and OR-ing
      the four together. */
  function ReadU32(buffer: seq<Byte>): (r: bv32)
    requires |buffer| == 4
  {
    ((buffer[0] as bv32) << 24)
    | ((buffer[1] as bv32) << 16)
    | ((buffer[2] as bv32) << 8)
    | (buffer[3] as bv32)
  }

  /** The four bytes of `v`, most significant first. */
  function U32ToBE(v: bv32): (r: seq<Byte>)
    ensures |r| == 4
  {
    [ (v >> 24) as Byte,
      ((v >> 16) & 0xFF) as Byte,
      ((v >> 8) & 0xFF) as Byte,
      (v & 0xFF) as Byte ]
  }

  /** Appending one byte below an accumulator of at most three bytes is
      multiplication by 256 plus that byte. */
  lemma ShiftInByte(acc: bv32, b: Byte)
    requires acc as int < 0x100_0000
    ensures ((acc << 8) | (b as bv32)) as int == acc as int * 256 + b as int
  {
  }

  /** The first `k` bytes of `buffer` shifted into a 32-bit accumulator one
      at a time, most significant first. */
  function ShiftedIn(buffer: seq<Byte>, k: nat): bv32
    requires k <= |buffer| <= 4
  {
    if k == 0 then 0 else (ShiftedIn(buffer, k - 1) << 8) | (buffer[k - 1] as bv32)
  }

  /** The numeric value of a big-endian byte string. */
  function Value(bytes: seq<Byte>): nat
  {
    if |bytes| == 0 then 0 else Value(bytes[..|bytes| - 1]) * 256 + bytes[|bytes| - 1] as nat
  }

  /** The four shifts and ORs build the same value as shifting in one byte
      at a time. */
  lemma ByteAtATime(buffer: seq<Byte>)
    requires |buffer| == 4
    ensures ReadU32(buffer) == ShiftedIn(buffer, 4)
  {
    assert ShiftedIn(buffer, 1) == buffer[0] as bv32;
    assert ShiftedIn(buffer, 2) == ((buffer[0] as bv32) << 8) | (buffer[1] as bv32);
  }

  /** A big-endian string of `n` bytes has a value below 256^n. */
  lemma {:induction false} ValueBound(bytes: seq<Byte>)
    ensures Value(bytes) < Pow256(|bytes|)
  {
    if |bytes| > 0 {
      ValueBound(bytes[..|bytes| - 1]);
    }
  }

  /** At most three bytes have a value below 2^24. */
  lemma ValueBelow(bytes: seq<Byte>)
    requires |bytes| <= 3
    ensures Value(bytes) < 0x100_0000
  {
    ValueBound(bytes);
    assert Pow256(1) == 0x100 && Pow256(2) == 0x1_0000 && Pow256(3) == 0x100_0000;
  }

  /** Shifting in byte `k - 1` multiplies the accumulator by 256 and adds
      the byte. */
  lemma ShiftedInStep(buffer: seq<Byte>, k: nat)
    requires 0 < k <= |buffer| <= 4
    requires ShiftedIn(buffer, k - 1) as int < 0x100_0000
    ensures ShiftedIn(buffer, k) as int == ShiftedIn(buffer, k - 1) as int * 256 + buffer[k - 1] as int
  {
    ShiftInByte(ShiftedIn(buffer, k - 1), buffer[k - 1]);
  }

  /** The value of a non-empty byte string is that of all but its last
      byte, times 256, plus its last byte. */
  lemma ValueSnoc(buffer: seq<Byte>, k: nat)
    requires 0 < k <= |buffer|
    ensures Value(buffer[..k]) == Value(buffer[..k - 1]) * 256 + buffer[k - 1] as int
  {
    assert buffer[..k][..k - 1] == buffer[..k - 1];
  }

  /** Shifting in the first `k` bytes gives their big-endian value. */
  lemma {:induction false} ShiftedInValue(buffer: seq<Byte>, k: nat)
    requires k <= |buffer| <= 4
    ensures ShiftedIn(buffer, k) as int == Value(buffer[..k])
  {
    if k > 0 {
      ShiftedInValue(buffer, k - 1);
      ValueBelow(buffer[..k - 1]);
      ShiftedInStep(buffer, k);
      ValueSnoc(buffer, k);
    }
  }

  /** 256 to the power `k`. */
  function Pow256(k: nat): nat
  {
    if k == 0 then 1 else 256 * Pow256(k - 1)
  }

  /** The value of four big-endian bytes, written out. */
  lemma {:induction false} ValueOfFour(bytes: seq<Byte>)
    requires |bytes| == 4
    ensures Value(bytes)
            == bytes[0] as int * 0x100_0000 + bytes[1] as int * 0x1_0000
               + bytes[2] as int * 0x100 + bytes[3] as int
  {
    assert Value(bytes[..1]) == bytes[0] as int by {
      assert bytes[..1][..0] == [];
    }
    assert Value(bytes[..2]) == bytes[0] as int * 0x100 + bytes[1] as int by {
      assert bytes[..2][..1] == bytes[..1];
    }
    assert Value(bytes[..3]) == bytes[0] as int * 0x1_0000 + bytes[1] as int * 0x100 + bytes[2] as int by {
      assert bytes[..3][..2] == bytes[..2];
    }
    assert bytes[..3] == bytes[..|bytes| - 1];
  }

  /** The numeric value of the decoded integer: byte 0 weighs 2^24, byte 1
      2^16, byte 2 2^8 and byte 3 one, so the result is below 2^32. */
  lemma {:induction false} ReadU32Value(buffer: seq<Byte>)
    requires |buffer| == 4
    ensures ReadU32(buffer) as int
            == buffer[0] as int * 0x100_0000 + buffer[1] as int * 0x1_0000
               + buffer[2] as int * 0x100 + buffer[3] as int
    ensures ReadU32(buffer) as int < 0x1_0000_0000
  {
    ByteAtATime(buffer);
    ShiftedInValue(buffer, 4);
    assert buffer[..4] == buffer;
    ValueOfFour(buffer);
    ValueBound(buffer);
    assert Pow256(4) == 0x1_0000_0000 by {
      assert Pow256(2) == 0x1_0000;
    }
  }

  /** Decoding the big-endian encoding of any 32-bit value gives it back. */
  lemma DecodeEncode(v: bv32)
    ensures ReadU32(U32ToBE(v)) == v
  {
  }

  /** Encoding a decoded buffer gives the buffer back: the decoder loses no
      information. */
  lemma EncodeDecode(buffer: seq<Byte>)
    requires |buffer| == 4
    ensures U32ToBE(ReadU32(buffer)) == buffer
  {
  }

  /** Two buffers decode to the same value only when they are equal. */
  lemma ReadU32Injective(a: seq<Byte>, b: seq<Byte>)
    requires |a| == 4 && |b| == 4
    ensures ReadU32(a) == ReadU32(b) <==> a == b
  {
    EncodeDecode(a);
    EncodeDecode(b);
  }
}

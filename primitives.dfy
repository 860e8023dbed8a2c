/**
  The primitive decoder: big-endian fixed-width reads at a byte offset of an
  immutable buffer, and the two's-complement reinterpretations that Go's
  `int16(...)`, `int32(...)`, `int64(...)` and `int8(...)` conversions perform.

  Go's `binary.BigEndian.UintNN(payload[offset:])` panics when fewer than NN/8
  bytes remain; here every read returns `None` instead.  The encoders are the
  partners of the reads: each read returns exactly the value whose encoding
  sits at the offset.
*/
module Primitives {
  import opened Wrappers

  type byte = x: int | 0 <= x < 0x100
  type u16 = x: int | 0 <= x < 0x1_0000
  type u32 = x: int | 0 <= x < 0x1_0000_0000
  type u64 = x: int | 0 <= x < 0x1_0000_0000_0000_0000
  type i8 = x: int | -0x80 <= x < 0x80
  type i16 = x: int | -0x8000 <= x < 0x8000
  type i32 = x: int | -0x8000_0000 <= x < 0x8000_0000
  type i64 = x: int | -0x8000_0000_0000_0000 <= x < 0x8000_0000_0000_0000

  // ---------------------------------------------------------------------
  // Two's-complement reinterpretation (Go's signed conversions of an
  // unsigned value of the same width) and its inverse.

  function ToI8(u: byte): (r: i8)
    ensures r % 0x100 == u
  {
    if u < 0x80 then u else u - 0x100
  }

  function ToI16(u: u16): (r: i16)
    ensures r % 0x1_0000 == u
  {
    if u < 0x8000 then u else u - 0x1_0000
  }

  function ToI32(u: u32): (r: i32)
    ensures r % 0x1_0000_0000 == u
  {
    if u < 0x8000_0000 then u else u - 0x1_0000_0000
  }

  function ToI64(u: u64): (r: i64)
    ensures r % 0x1_0000_0000_0000_0000 == u
  {
    if u < 0x8000_0000_0000_0000 then u else u - 0x1_0000_0000_0000_0000
  }

  /** The bit pattern of a signed value, as Go's `uintNN(x)` gives it. */
  function FromI8(x: i8): (u: byte)
    ensures ToI8(u) == x
  {
    x % 0x100
  }

  function FromI16(x: i16): (u: u16)
    ensures ToI16(u) == x
  {
    x % 0x1_0000
  }

  function FromI32(x: i32): (u: u32)
    ensures ToI32(u) == x
  {
    x % 0x1_0000_0000
  }

  function FromI64(x: i64): (u: u64)
    ensures ToI64(u) == x
  {
    x % 0x1_0000_0000_0000_0000
  }

  // ---------------------------------------------------------------------
  // Big-endian encoders.

  /** The bytes of `x`, most significant first. */
  function Bytes16(x: u16): (b: seq<byte>)
    ensures |b| == 2
  {
    [x / 0x100, x % 0x100]
  }

  function Bytes32(x: u32): (b: seq<byte>)
    ensures |b| == 4
  {
    Bytes16(x / 0x1_0000) + Bytes16(x % 0x1_0000)
  }

  function Bytes64(x: u64): (b: seq<byte>)
    ensures |b| == 8
  {
    Bytes32(x / 0x1_0000_0000) + Bytes32(x % 0x1_0000_0000)
  }

  /**
    The encoders below give the same bytes, built element by element, so
    that a proof mentioning an encoding sees the arithmetic of a byte only
    when it looks that byte up.
  */
  function EncodeU16(x: u16): (b: seq<byte>)
    ensures |b| == 2
  {
    seq(2, k requires 0 <= k < 2 => Bytes16(x)[k])
  }

  function EncodeU32(x: u32): (b: seq<byte>)
    ensures |b| == 4
  {
    seq(4, k requires 0 <= k < 4 => Bytes32(x)[k])
  }

  function EncodeU64(x: u64): (b: seq<byte>)
    ensures |b| == 8
  {
    seq(8, k requires 0 <= k < 8 => Bytes64(x)[k])
  }

  function EncodeI16(x: i16): (b: seq<byte>)
    ensures |b| == 2
  {
    seq(2, k requires 0 <= k < 2 => Bytes16(FromI16(x))[k])
  }

  function EncodeI32(x: i32): (b: seq<byte>)
    ensures |b| == 4
  {
    seq(4, k requires 0 <= k < 4 => Bytes32(FromI32(x))[k])
  }

  function EncodeI64(x: i64): (b: seq<byte>)
    ensures |b| == 8
  {
    seq(8, k requires 0 <= k < 8 => Bytes64(FromI64(x))[k])
  }

  // ---------------------------------------------------------------------
  // Big-endian reads at offset `o`; `None` when the buffer is too short.
  // Each read succeeds exactly when enough bytes remain.

  function ReadU8(s: seq<byte>, o: nat): (r: Option<byte>)
    ensures r.Some? <==> o + 1 <= |s|
  {
    if o + 1 <= |s| then Some(s[o]) else None
  }

  function ReadU16(s: seq<byte>, o: nat): (r: Option<u16>)
    ensures r.Some? <==> o + 2 <= |s|
  {
    if o + 2 <= |s| then Some((s[o] as int) * 0x100 + s[o + 1]) else None
  }

  function ReadU32(s: seq<byte>, o: nat): (r: Option<u32>)
    ensures r.Some? <==> o + 4 <= |s|
  {
    if o + 4 <= |s| then
      var hi, lo := ReadU16(s, o).value, ReadU16(s, o + 2).value;
      Some(hi * 0x1_0000 + lo)
    else None
  }

  function ReadU64(s: seq<byte>, o: nat): (r: Option<u64>)
    ensures r.Some? <==> o + 8 <= |s|
  {
    if o + 8 <= |s| then
      var hi, lo := ReadU32(s, o).value, ReadU32(s, o + 4).value;
      Some(hi * 0x1_0000_0000 + lo)
    else None
  }

  function ReadI8(s: seq<byte>, o: nat): (r: Option<i8>)
    ensures r.Some? <==> o + 1 <= |s|
  {
    if o + 1 <= |s| then Some(ToI8(s[o])) else None
  }

  function ReadI16(s: seq<byte>, o: nat): (r: Option<i16>)
    ensures r.Some? <==> o + 2 <= |s|
  {
    if o + 2 <= |s| then Some(ToI16(ReadU16(s, o).value)) else None
  }

  function ReadI32(s: seq<byte>, o: nat): (r: Option<i32>)
    ensures r.Some? <==> o + 4 <= |s|
  {
    if o + 4 <= |s| then Some(ToI32(ReadU32(s, o).value)) else None
  }

  function ReadI64(s: seq<byte>, o: nat): (r: Option<i64>)
    ensures r.Some? <==> o + 8 <= |s|
  {
    if o + 8 <= |s| then Some(ToI64(ReadU64(s, o).value)) else None
  }

  /** Go's `payload[o:o+n]`: the next n bytes, when they are all there. */
  function ReadBytes(s: seq<byte>, o: nat, n: nat): (r: Option<seq<byte>>)
    ensures r.Some? <==> o + n <= |s|
    ensures r.Some? ==> |r.value| == n && r.value == s[o..o + n]
  {
    if o + n <= |s| then Some(s[o..o + n]) else None
  }

  // ---------------------------------------------------------------------
  // A read returns the value whose encoding it covers.

  lemma ReadU16Encodes(s: seq<byte>, o: nat)
    requires o + 2 <= |s|
    ensures Bytes16(ReadU16(s, o).value) == s[o..o + 2]
  {
  }

  lemma Split16(hi: u16, lo: u16)
    ensures (hi * 0x1_0000 + lo) / 0x1_0000 == hi
    ensures (hi * 0x1_0000 + lo) % 0x1_0000 == lo
  {
  }

  lemma Split32(hi: u32, lo: u32)
    ensures (hi * 0x1_0000_0000 + lo) / 0x1_0000_0000 == hi
    ensures (hi * 0x1_0000_0000 + lo) % 0x1_0000_0000 == lo
  {
  }

  lemma ReadU32Encodes(s: seq<byte>, o: nat)
    requires o + 4 <= |s|
    ensures Bytes32(ReadU32(s, o).value) == s[o..o + 4]
  {
    var hi, lo := ReadU16(s, o).value, ReadU16(s, o + 2).value;
    Split16(hi, lo);
    assert Bytes32(ReadU32(s, o).value) == Bytes16(hi) + Bytes16(lo);
    ReadU16Encodes(s, o);
    ReadU16Encodes(s, o + 2);
    assert s[o..o + 4] == s[o..o + 2] + s[o + 2..o + 4];
  }

  lemma ReadU64Encodes(s: seq<byte>, o: nat)
    requires o + 8 <= |s|
    ensures Bytes64(ReadU64(s, o).value) == s[o..o + 8]
  {
    var hi, lo := ReadU32(s, o).value, ReadU32(s, o + 4).value;
    Split32(hi, lo);
    assert Bytes64(ReadU64(s, o).value) == Bytes32(hi) + Bytes32(lo);
    ReadU32Encodes(s, o);
    ReadU32Encodes(s, o + 4);
    assert s[o..o + 8] == s[o..o + 4] + s[o + 4..o + 8];
  }

  lemma ReadI32Encodes(s: seq<byte>, o: nat)
    requires o + 4 <= |s|
    ensures EncodeI32(ReadI32(s, o).value) == s[o..o + 4]
  {
    ReadU32Encodes(s, o);
    assert FromI32(ReadI32(s, o).value) == ReadU32(s, o).value;
  }

  // ---------------------------------------------------------------------
  // The other direction: the read of an encoding gives back the value.

  lemma ReadBytes16(s: seq<byte>, o: nat, x: u16)
    requires o + 2 <= |s| && s[o..o + 2] == Bytes16(x)
    ensures ReadU16(s, o) == Some(x)
  {
    assert s[o] == x / 0x100 && s[o + 1] == x % 0x100 by {
      assert s[o] == s[o..o + 2][0] && s[o + 1] == s[o..o + 2][1];
    }
  }

  lemma ReadBytes32(s: seq<byte>, o: nat, x: u32)
    requires o + 4 <= |s| && s[o..o + 4] == Bytes32(x)
    ensures ReadU32(s, o) == Some(x)
  {
    assert s[o..o + 2] == s[o..o + 4][..2];
    assert s[o + 2..o + 4] == s[o..o + 4][2..];
    ReadBytes16(s, o, x / 0x1_0000);
    ReadBytes16(s, o + 2, x % 0x1_0000);
  }

  lemma ReadBytes64(s: seq<byte>, o: nat, x: u64)
    requires o + 8 <= |s| && s[o..o + 8] == Bytes64(x)
    ensures ReadU64(s, o) == Some(x)
  {
    assert s[o..o + 4] == s[o..o + 8][..4];
    assert s[o + 4..o + 8] == s[o..o + 8][4..];
    ReadBytes32(s, o, x / 0x1_0000_0000);
    ReadBytes32(s, o + 4, x % 0x1_0000_0000);
  }

  lemma ReadEncodedU16(s: seq<byte>, o: nat, x: u16)
    requires o + 2 <= |s| && s[o..o + 2] == EncodeU16(x)
    ensures ReadU16(s, o) == Some(x)
  {
    assert EncodeU16(x) == Bytes16(x);
    ReadBytes16(s, o, x);
  }

  lemma ReadEncodedU32(s: seq<byte>, o: nat, x: u32)
    requires o + 4 <= |s| && s[o..o + 4] == EncodeU32(x)
    ensures ReadU32(s, o) == Some(x)
  {
    assert EncodeU32(x) == Bytes32(x);
    ReadBytes32(s, o, x);
  }

  lemma ReadEncodedU64(s: seq<byte>, o: nat, x: u64)
    requires o + 8 <= |s| && s[o..o + 8] == EncodeU64(x)
    ensures ReadU64(s, o) == Some(x)
  {
    assert EncodeU64(x) == Bytes64(x);
    ReadBytes64(s, o, x);
  }

  lemma ReadEncodedI16(s: seq<byte>, o: nat, x: i16)
    requires o + 2 <= |s| && s[o..o + 2] == EncodeI16(x)
    ensures ReadI16(s, o) == Some(x)
  {
    assert EncodeI16(x) == Bytes16(FromI16(x));
    ReadBytes16(s, o, FromI16(x));
  }

  lemma ReadEncodedI32(s: seq<byte>, o: nat, x: i32)
    requires o + 4 <= |s| && s[o..o + 4] == EncodeI32(x)
    ensures ReadI32(s, o) == Some(x)
  {
    assert EncodeI32(x) == Bytes32(FromI32(x));
    ReadBytes32(s, o, FromI32(x));
  }

  lemma ReadEncodedI64(s: seq<byte>, o: nat, x: i64)
    requires o + 8 <= |s| && s[o..o + 8] == EncodeI64(x)
    ensures ReadI64(s, o) == Some(x)
  {
    assert EncodeI64(x) == Bytes64(FromI64(x));
    ReadBytes64(s, o, FromI64(x));
  }

  lemma ReadEncodedI8(s: seq<byte>, o: nat, x: i8)
    requires o + 1 <= |s| && s[o..o + 1] == [FromI8(x)]
    ensures ReadI8(s, o) == Some(x)
  {
    assert s[o] == s[o..o + 1][0];
  }

  // ---------------------------------------------------------------------
  // Lengths as an encoder writes them: Go's `uint16(len(x))` and
  // `uint32(len(x))` keep the low bits.

  function EncodeLength16(n: nat): (b: seq<byte>)
    ensures |b| == 2
  {
    seq(2, k requires 0 <= k < 2 => Bytes16(n % 0x1_0000)[k])
  }

  function EncodeLength32(n: nat): (b: seq<byte>)
    ensures |b| == 4
  {
    seq(4, k requires 0 <= k < 4 => Bytes32(n % 0x1_0000_0000)[k])
  }

  lemma ReadEncodedLength16(s: seq<byte>, o: nat, n: nat)
    requires n < 0x1_0000
    requires o + 2 <= |s| && s[o..o + 2] == EncodeLength16(n)
    ensures ReadU16(s, o) == Some(n)
  {
    assert EncodeLength16(n) == Bytes16(n);
    ReadBytes16(s, o, n);
  }

  lemma ReadEncodedLength32(s: seq<byte>, o: nat, n: nat)
    requires n < 0x1_0000_0000
    requires o + 4 <= |s| && s[o..o + 4] == EncodeLength32(n)
    ensures ReadU32(s, o) == Some(n)
  {
    assert EncodeLength32(n) == Bytes32(n);
    ReadBytes32(s, o, n);
  }

  /** A length below 2^31 also reads back as a signed int32. */
  lemma ReadEncodedSignedLength(s: seq<byte>, o: nat, n: nat)
    requires n < 0x8000_0000
    requires o + 4 <= |s| && s[o..o + 4] == EncodeLength32(n)
    ensures ReadI32(s, o) == Some(n)
  {
    assert EncodeLength32(n) == Bytes32(n);
    ReadBytes32(s, o, n);
  }
}


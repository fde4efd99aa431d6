/**
 * Fixed-width integers and their byte layout. The Swift code stores integers with
 * `initialize(with:)` and reads them back through `pointee`, in the machine's native
 * byte order; this model fixes that order as little-endian.
 */
module Bytes {
  type byte = b: int | 0 <= b < 256

  type int32 = i: int | -0x8000_0000 <= i < 0x8000_0000
  type uint32 = u: int | 0 <= u < 0x1_0000_0000
  type int64 = i: int | -0x8000_0000_0000_0000 <= i < 0x8000_0000_0000_0000
  type uint64 = u: int | 0 <= u < 0x1_0000_0000_0000_0000

  /** 256 to the power k: the number of distinct k-byte patterns. */
  function Pow256(k: nat): (r: nat)
    ensures r > 0
  {
    if k == 0 then 1 else 256 * Pow256(k - 1)
  }

  lemma Pow256Widths()
    ensures Pow256(4) == 0x1_0000_0000
    ensures Pow256(8) == 0x1_0000_0000_0000_0000
  {
    assert Pow256(2) == 0x1_0000;
    assert Pow256(4) == 256 * (256 * Pow256(2));
    assert Pow256(6) == 256 * (256 * Pow256(4));
    assert Pow256(8) == 256 * (256 * Pow256(6));
  }

  /** The `width`-byte little-endian layout of n. */
  function LittleEndian(n: nat, width: nat): (r: seq<byte>)
    requires n < Pow256(width)
    ensures |r| == width
  {
    if width == 0 then [] else [n % 256] + LittleEndian(n / 256, width - 1)
  }

  /** The number whose little-endian layout is s. */
  function FromLittleEndian(s: seq<byte>): (r: nat)
    ensures r < Pow256(|s|)
  {
    if s == [] then 0 else s[0] + 256 * FromLittleEndian(s[1..])
  }

  lemma {:induction false} FromLittleEndianOfLittleEndian(n: nat, width: nat)
    requires n < Pow256(width)
    ensures FromLittleEndian(LittleEndian(n, width)) == n
  {
    if width > 0 {
      var s := LittleEndian(n, width);
      assert s[1..] == LittleEndian(n / 256, width - 1);
      FromLittleEndianOfLittleEndian(n / 256, width - 1);
    }
  }

  lemma {:induction false} LittleEndianOfFromLittleEndian(s: seq<byte>)
    ensures LittleEndian(FromLittleEndian(s), |s|) == s
  {
    if s != [] {
      var n := FromLittleEndian(s);
      assert n % 256 == s[0] && n / 256 == FromLittleEndian(s[1..]);
      LittleEndianOfFromLittleEndian(s[1..]);
    }
  }

  /** The two's-complement bit pattern of i in `width` bytes, read as an unsigned number. */
  function TwosComplement(i: int, width: nat): (u: nat)
    requires 0 < width && 0 <= Pow256(width) + 2 * i && 2 * i < Pow256(width)
    ensures u < Pow256(width)
    ensures i >= 0 ==> u == i
  {
    if i >= 0 then i else i + Pow256(width)
  }

  /** The signed number whose `width`-byte two's-complement bit pattern is u. */
  function Signed(u: nat, width: nat): (i: int)
    requires 0 < width && u < Pow256(width)
    ensures 0 <= Pow256(width) + 2 * i && 2 * i < Pow256(width)
    ensures i >= 0 <==> 2 * u < Pow256(width)
  {
    if 2 * u < Pow256(width) then u else u - Pow256(width)
  }

  lemma SignedOfTwosComplement(i: int, width: nat)
    requires 0 < width && 0 <= Pow256(width) + 2 * i && 2 * i < Pow256(width)
    ensures Signed(TwosComplement(i, width), width) == i
  {
  }

  /** The bytes `buffer.initialize(with: Int64(n))` stores: read as unsigned, n below zero gains 2^64. */
  function Int64Bytes(n: int64): (r: seq<byte>)
    ensures |r| == 8
    ensures FromLittleEndian(r) == if n >= 0 then n else n + 0x1_0000_0000_0000_0000
  {
    Pow256Widths();
    FromLittleEndianOfLittleEndian(TwosComplement(n, 8), 8);
    LittleEndian(TwosComplement(n, 8), 8)
  }

  /** The bytes `buffer.initialize(with: UInt64(u))` stores. */
  function UInt64Bytes(u: uint64): (r: seq<byte>)
    ensures |r| == 8 && FromLittleEndian(r) == u
  {
    Pow256Widths();
    FromLittleEndianOfLittleEndian(u, 8);
    LittleEndian(u, 8)
  }

  /** The bytes a 32-bit store of the unsigned number u leaves in memory. */
  function UInt32Bytes(u: uint32): (r: seq<byte>)
    ensures |r| == 4 && FromLittleEndian(r) == u
  {
    Pow256Widths();
    FromLittleEndianOfLittleEndian(u, 4);
    LittleEndian(u, 4)
  }

  /** The bytes a 32-bit store of the signed number n leaves in memory: read as unsigned, n below zero gains 2^32. */
  function Int32Bytes(n: int32): (r: seq<byte>)
    ensures |r| == 4
    ensures FromLittleEndian(r) == if n >= 0 then n else n + 0x1_0000_0000
  {
    Pow256Widths();
    FromLittleEndianOfLittleEndian(TwosComplement(n, 4), 4);
    LittleEndian(TwosComplement(n, 4), 4)
  }

  /** `UnsafeMutablePointer<UInt32>(buffer).pointee`: the number whose 32-bit store is the first four bytes. */
  function ReadUInt32(s: seq<byte>): (r: uint32)
    requires |s| >= 4
    ensures UInt32Bytes(r) == s[..4]
  {
    Pow256Widths();
    LittleEndianOfFromLittleEndian(s[..4]);
    FromLittleEndian(s[..4])
  }

  /** `UnsafeMutablePointer<Int32>(buffer).pointee`: negative exactly when the top bit of the pattern is set. */
  function ReadInt32(s: seq<byte>): (r: int32)
    requires |s| >= 4
    ensures Int32Bytes(r) == s[..4]
    ensures r < 0 <==> ReadUInt32(s) >= 0x8000_0000
  {
    Pow256Widths();
    Signed(ReadUInt32(s), 4)
  }

  /** `UnsafeMutablePointer<UInt64>(buffer).pointee`: the number whose 64-bit store is the first eight bytes. */
  function ReadUInt64(s: seq<byte>): (r: uint64)
    requires |s| >= 8
    ensures UInt64Bytes(r) == s[..8]
  {
    Pow256Widths();
    LittleEndianOfFromLittleEndian(s[..8]);
    FromLittleEndian(s[..8])
  }

  /** `UnsafeMutablePointer<Int64>(buffer).pointee`: negative exactly when the top bit of the pattern is set. */
  function ReadInt64(s: seq<byte>): (r: int64)
    requires |s| >= 8
    ensures Int64Bytes(r) == s[..8]
    ensures r < 0 <==> ReadUInt64(s) >= 0x8000_0000_0000_0000
  {
    Pow256Widths();
    Signed(ReadUInt64(s), 8)
  }

  lemma ReadUInt32OfUInt32Bytes(u: uint32, rest: seq<byte>)
    ensures ReadUInt32(UInt32Bytes(u) + rest) == u
  {
    Pow256Widths();
    assert (UInt32Bytes(u) + rest)[..4] == LittleEndian(u, 4);
    FromLittleEndianOfLittleEndian(u, 4);
  }

  lemma ReadInt32OfInt32Bytes(n: int32, rest: seq<byte>)
    ensures ReadInt32(Int32Bytes(n) + rest) == n
  {
    Pow256Widths();
    assert (Int32Bytes(n) + rest)[..4] == LittleEndian(TwosComplement(n, 4), 4);
    FromLittleEndianOfLittleEndian(TwosComplement(n, 4), 4);
    SignedOfTwosComplement(n, 4);
  }

  lemma ReadUInt64OfUInt64Bytes(u: uint64, rest: seq<byte>)
    ensures ReadUInt64(UInt64Bytes(u) + rest) == u
  {
    Pow256Widths();
    assert (UInt64Bytes(u) + rest)[..8] == LittleEndian(u, 8);
    FromLittleEndianOfLittleEndian(u, 8);
  }

  lemma ReadInt64OfInt64Bytes(n: int64, rest: seq<byte>)
    ensures ReadInt64(Int64Bytes(n) + rest) == n
  {
    Pow256Widths();
    assert (Int64Bytes(n) + rest)[..8] == LittleEndian(TwosComplement(n, 8), 8);
    FromLittleEndianOfLittleEndian(TwosComplement(n, 8), 8);
    SignedOfTwosComplement(n, 8);
  }

  /** Reading an unsigned 64-bit layout back as signed gives the two's-complement reading. */
  lemma ReadInt64OfUInt64Bytes(u: uint64)
    ensures ReadInt64(UInt64Bytes(u)) == if u < 0x8000_0000_0000_0000 then u else u - 0x1_0000_0000_0000_0000
  {
    Pow256Widths();
    assert UInt64Bytes(u)[..8] == LittleEndian(u, 8);
    FromLittleEndianOfLittleEndian(u, 8);
  }

  /** Every eight-byte pattern is the layout of exactly one signed 64-bit number. */
  lemma Int64BytesOfReadInt64(s: seq<byte>)
    requires |s| == 8
    ensures Int64Bytes(ReadInt64(s)) == s
  {
    Pow256Widths();
    assert s[..8] == s;
    LittleEndianOfFromLittleEndian(s);
  }
}

/**
 * A `MYSQL_BIND` descriptor as a value: each pointer it owns is replaced by the
 * contents of the memory it points to, or by None when the pointer is nil. This is
 * the state the Bind class of Bind.swift builds and the `value` getter reads.
 */
module Slots {
  import opened Wrappers
  import opened Bytes
  import Utf8
  import opened Values
  import opened Protocol

  /** The content of a `my_bool` cell. */
  type Flag = byte

  datatype Slot = Slot(
    bufferType: FieldType,
    buffer: Option<seq<byte>>,  // `buffer`, nil or the bytes it points to
    bufferLength: nat,          // `buffer_length`
    length: Option<nat>,        // the cell `length` points to
    isNull: Option<Flag>,       // the cell `is_null` points to
    error: Option<Flag>,        // the cell `error` points to
    isUnsigned: Flag)           // `is_unsigned`

  // ---------------------------------------------------------------------------
  // The descriptors the initialisers build

  /** `init()`: the NULL sentinel, owning nothing. */
  function NullSlot(): (r: Slot)
    ensures r.bufferType.TypeNull? && Owned(r) == {}
  {
    Slot(TypeNull, None, 0, None, None, None, 0)
  }

  /**
   * `init(_ field:)` before the driver fetches into it: the field's tag, a buffer of
   * the field's length, and all three cells. The Swift code does not initialise the
   * buffer or the cells, so their contents are left open. `Int(field.cField.length)`
   * traps above `Int.max`.
   */
  predicate IsFieldSlot(s: Slot, f: Field)
    ensures IsFieldSlot(s, f) ==> Owned(s) == {BufferMemory, LengthCell, IsNullCell, ErrorCell}
  {
    f.length < 0x8000_0000_0000_0000 &&
    s.bufferType == f.fieldType && s.bufferLength == f.length &&
    s.buffer.Some? && |s.buffer.value| == f.length &&
    s.length.Some? && s.isNull.Some? && s.error.Some? && s.isUnsigned == 0
  }

  /** `init(type:buffer:bufferLength:unsigned:)`: no `is_null` or `error` cell is allocated. */
  function GenericSlot(t: FieldType, buffer: seq<byte>, bufferLength: nat, unsigned: bool): (r: Slot)
    ensures Owned(r) == {BufferMemory, LengthCell}
    ensures r.bufferType == t && r.buffer == Some(buffer) && r.bufferLength == bufferLength
    ensures r.length == Some(bufferLength) && (r.isUnsigned == 1 <==> unsigned)
  {
    Slot(t, Some(buffer), bufferLength, Some(bufferLength), None, None, if unsigned then 1 else 0)
  }

  /** `Bind(_ string:)`: `Char(byte)` is `Int8(UInt8)`, which traps on a byte of 0x80 or more. */
  function StringSlot(s: string): (r: Slot)
    requires Utf8.AllBelow128(Utf8.Encode(s))
    ensures r.bufferType == TypeString && r.buffer.Some? && r.bufferLength == |r.buffer.value|
    ensures Utf8.Decode(r.buffer.value) == s
    ensures 0 in r.buffer.value <==> '\0' in s
  {
    Utf8.DecodeOfEncode(s);
    Utf8.EncodeHasZeroIffNul(s);
    GenericSlot(TypeString, Utf8.Encode(s), |Utf8.Encode(s)|, false)
  }

  /** `Bind(_ int: Int)`. */
  function IntSlot(n: int64): (r: Slot)
    ensures r.bufferType == TypeLongLong && r.isUnsigned == 0
    ensures r.buffer.Some? && r.bufferLength == |r.buffer.value| == 8 && ReadInt64(r.buffer.value) == n
  {
    ReadInt64OfInt64Bytes(n, []);
    assert Int64Bytes(n) + [] == Int64Bytes(n);
    GenericSlot(TypeLongLong, Int64Bytes(n), 8, false)
  }

  /** `Bind(_ int: UInt)`: tagged LONGLONG and, as written, signed. */
  function UIntSlot(u: uint64): (r: Slot)
    ensures r.bufferType == TypeLongLong && r.isUnsigned == 0
    ensures r.buffer.Some? && r.bufferLength == |r.buffer.value| == 8 && ReadUInt64(r.buffer.value) == u
  {
    ReadUInt64OfUInt64Bytes(u, []);
    assert UInt64Bytes(u) + [] == UInt64Bytes(u);
    GenericSlot(TypeLongLong, UInt64Bytes(u), 8, false)
  }

  /** `Bind(_ int: Double)`: tagged LONGLONG, as written. */
  function DoubleSlot(d: Float64Bits): (r: Slot)
    ensures r.bufferType == TypeLongLong && !r.bufferType.TypeDouble? && r.isUnsigned == 0
    ensures r.buffer == Some(d) && r.bufferLength == 8
  {
    GenericSlot(TypeLongLong, d, 8, false)
  }

  /** The values `Value.bind` accepts without trapping; a Swift array holds at most `Int.max` bytes. */
  predicate Bindable(v: Value)
  {
    v.String? ==> Utf8.AllBelow128(Utf8.Encode(v.s)) && |Utf8.Encode(v.s)| < 0x8000_0000_0000_0000
  }

  /** `Value.bind`: one initialiser per case, `.null` to the sentinel. */
  function BindOf(v: Value): (r: Slot)
    requires Bindable(v)
    ensures v.Null? <==> r.buffer.None?
    ensures v.Null? <==> r.bufferType.TypeNull?
    ensures r.buffer.Some? ==> |r.buffer.value| == r.bufferLength && r.length == Some(r.bufferLength)
    ensures r.isNull.None? && r.error.None? && r.isUnsigned == 0
  {
    match v
    case Int(n) => IntSlot(n)
    case Double(d) => DoubleSlot(d)
    case String(s) => StringSlot(s)
    case UInt(u) => UIntSlot(u)
    case Null => NullSlot()
  }

  /** The descriptor as the `value` getter sees it once an `is_null` cell holding `flag` is attached to it. */
  function WithNullCell(s: Slot, flag: Flag): (r: Slot)
  {
    s.(isNull := Some(flag))
  }

  /** The driver's fetch into a result descriptor: it overwrites the buffer in place and sets the cells. */
  function Fetched(s: Slot, bytes: seq<byte>, dataLength: nat, isNull: Flag, error: Flag): (r: Slot)
    requires s.buffer.Some? && |bytes| == |s.buffer.value|
    requires s.length.Some? && s.isNull.Some? && s.error.Some?
  {
    s.(buffer := Some(bytes), length := Some(dataLength), isNull := Some(isNull), error := Some(error))
  }

  // ---------------------------------------------------------------------------
  // The `value` getter

  /**
   * The bytes the arm for tag t reads lie inside the buffer: `String(cString:)` reads
   * up to the first zero byte, `pointee` reads 4 or 8 bytes. Reading beyond is undefined.
   */
  predicate ReadFits(t: FieldType, b: seq<byte>)
  {
    if IsTextFamily(t) then 0 in b
    else if t.TypeLong? then |b| >= 4
    else if t.TypeLongLong? || t.TypeDouble? then |b| >= 8
    else true
  }

  /** The switch on the tag, for a buffer that is not null. */
  function DecodeBytes(t: FieldType, isUnsigned: Flag, b: seq<byte>): (v: Value)
    requires ReadFits(t, b)
    ensures v.String? <==> IsTextFamily(t)
    ensures v.Int? || v.UInt? <==> t.TypeLong? || t.TypeLongLong?
    ensures v.UInt? <==> (t.TypeLong? || t.TypeLongLong?) && isUnsigned == 1
    ensures v.Double? <==> t.TypeDouble?
    ensures v.Null? <==> !IsDecoded(t)
    ensures t.TypeLong? && v.UInt? ==> v.u < 0x1_0000_0000
    ensures t.TypeLong? && v.Int? ==> -0x8000_0000 <= v.i < 0x8000_0000
    ensures v.Double? ==> v.bits == b[..8]
  {
    if IsTextFamily(t) then String(Utf8.Decode(Utf8.BeforeZero(b)))
    else if t.TypeLong? then
      if isUnsigned == 1 then UInt(ReadUInt32(b)) else Int(ReadInt32(b))
    else if t.TypeLongLong? then
      if isUnsigned == 1 then UInt(ReadUInt64(b)) else Int(ReadInt64(b))
    else if t.TypeDouble? then Double(b[..8])
    else Null
  }

  /**
   * What the getter demands: with a buffer present it dereferences `is_null`, which
   * traps when the cell is absent, and then reads inside the buffer.
   */
  predicate Readable(s: Slot)
    ensures s.buffer.None? ==> Readable(s)
    ensures Readable(s) && s.buffer.Some? ==> s.isNull.Some?
  {
    s.buffer.None? ||
    (s.isNull.Some? && (s.isNull.value == 1 || ReadFits(s.bufferType, s.buffer.value)))
  }

  /** `var value: Value?`. */
  function Decode(s: Slot): (r: Option<Value>)
    requires Readable(s)
    ensures r.None? <==> s.buffer.None? || s.isNull == Some(1)
    ensures r.Some? ==> (r.value.Null? <==> !IsDecoded(s.bufferType))
  {
    if s.buffer.None? then None
    else if s.isNull.value == 1 then None
    else Some(DecodeBytes(s.bufferType, s.isUnsigned, s.buffer.value))
  }

  // ---------------------------------------------------------------------------
  // What decoding gives back

  lemma NullBindDecodesToNil()
    ensures Readable(NullSlot()) && Decode(NullSlot()) == None
  {
  }

  /** A fetched slot flagged null decodes to nil whatever its buffer holds. */
  lemma FetchedNullDecodesToNil(s: Slot, f: Field, bytes: seq<byte>, dataLength: nat, error: Flag)
    requires IsFieldSlot(s, f) && |bytes| == f.length
    ensures Readable(Fetched(s, bytes, dataLength, 1, error))
    ensures Decode(Fetched(s, bytes, dataLength, 1, error)) == None
  {
  }

  /** Every parameter bind of a non-null value has a buffer but no `is_null` cell, so the getter traps on it. */
  lemma ParameterBindUnreadable(v: Value)
    requires Bindable(v) && !v.Null?
    ensures !Readable(BindOf(v))
  {
  }

  /** With a zero `is_null` cell attached, a `Bind(Int)` decodes to the same Int. */
  lemma IntBindDecodes(n: int64)
    ensures Readable(WithNullCell(IntSlot(n), 0))
    ensures Decode(WithNullCell(IntSlot(n), 0)) == Some(Int(n))
  {
    ReadInt64OfInt64Bytes(n, []);
    assert Int64Bytes(n) + [] == Int64Bytes(n);
  }

  /**
   * The descriptor `Bind(UInt)` hands over is signed, so once an `is_null` cell holding 0
   * is attached (the getter traps without one) it reads back as an Int, negative from 2^63 on.
   */
  lemma UIntBindDecodesAsInt(u: uint64)
    ensures Readable(WithNullCell(UIntSlot(u), 0))
    ensures Decode(WithNullCell(UIntSlot(u), 0))
         == Some(Int(if u < 0x8000_0000_0000_0000 then u else u - 0x1_0000_0000_0000_0000))
  {
    ReadInt64OfUInt64Bytes(u);
  }

  /**
   * The descriptor `Bind(Double)` hands over is tagged LONGLONG, so once an `is_null` cell
   * holding 0 is attached it reads back as the Int with the same bytes, never as a Double.
   */
  lemma DoubleBindDecodesAsInt(d: Float64Bits)
    ensures Readable(WithNullCell(DoubleSlot(d), 0))
    ensures Decode(WithNullCell(DoubleSlot(d), 0)) == Some(Int(ReadInt64(d)))
    ensures Int64Bytes(ReadInt64(d)) == d
  {
    Int64BytesOfReadInt64(d);
  }

  /**
   * `Bind(String)` writes no terminator, so once an `is_null` cell holding 0 is attached (the
   * getter traps without one), the C-string read of a string without U+0000 runs past the buffer.
   */
  lemma StringBindOverreads(s: string)
    requires Utf8.AllBelow128(Utf8.Encode(s)) && '\0' !in s
    ensures !Readable(WithNullCell(StringSlot(s), 0))
  {
    Utf8.EncodeHasZeroIffNul(s);
  }

  /** A string holding U+0000 stays in bounds and decodes to its part before the first U+0000. */
  lemma StringBindWithNulDecodes(s: string)
    requires Utf8.AllBelow128(Utf8.Encode(s)) && '\0' in s
    ensures Readable(WithNullCell(StringSlot(s), 0))
    ensures Decode(WithNullCell(StringSlot(s), 0)) == Some(String(Utf8.BeforeNul(s)))
  {
    var b := Utf8.Encode(s);
    Utf8.EncodeHasZeroIffNul(s);
    Utf8.BeforeZeroOfNulString(s);
    Utf8.DecodeOfEncode(Utf8.BeforeNul(s));
    assert WithNullCell(StringSlot(s), 0).buffer == Some(b);
    assert DecodeBytes(TypeString, 0, b) == String(Utf8.Decode(Utf8.BeforeZero(b)));
  }

  /** An unsigned LONG slot gives back its unsigned 32-bit number; a signed one its signed number. */
  lemma LongSlotDecodes(u: uint32, n: int32)
    ensures Decode(WithNullCell(GenericSlot(TypeLong, UInt32Bytes(u), 4, true), 0)) == Some(UInt(u))
    ensures Decode(WithNullCell(GenericSlot(TypeLong, Int32Bytes(n), 4, false), 0)) == Some(Int(n))
  {
    ReadUInt32OfUInt32Bytes(u, []);
    assert UInt32Bytes(u) + [] == UInt32Bytes(u);
    ReadInt32OfInt32Bytes(n, []);
    assert Int32Bytes(n) + [] == Int32Bytes(n);
  }

  /** A LONGLONG slot gives back the signed or the unsigned 64-bit number it holds, as its flag says. */
  lemma LongLongSlotDecodes(u: uint64, n: int64)
    ensures Decode(WithNullCell(GenericSlot(TypeLongLong, UInt64Bytes(u), 8, true), 0)) == Some(UInt(u))
    ensures Decode(WithNullCell(GenericSlot(TypeLongLong, Int64Bytes(n), 8, false), 0)) == Some(Int(n))
  {
    ReadUInt64OfUInt64Bytes(u, []);
    assert UInt64Bytes(u) + [] == UInt64Bytes(u);
    ReadInt64OfInt64Bytes(n, []);
    assert Int64Bytes(n) + [] == Int64Bytes(n);
  }

  /** A text-family result into which the driver fetched a terminated UTF-8 string decodes to that string. */
  lemma FetchedTextDecodes(slot: Slot, f: Field, s: string, tail: seq<byte>, dataLength: nat, error: Flag)
    requires IsFieldSlot(slot, f) && IsTextFamily(f.fieldType) && '\0' !in s
    requires |Utf8.Encode(s) + [0] + tail| == f.length
    ensures Readable(Fetched(slot, Utf8.Encode(s) + [0] + tail, dataLength, 0, error))
    ensures Decode(Fetched(slot, Utf8.Encode(s) + [0] + tail, dataLength, 0, error)) == Some(String(s))
  {
    var b := Utf8.Encode(s) + [0] + tail;
    assert b[|Utf8.Encode(s)|] == 0;
    Utf8.BeforeZeroOfEncode(s, tail);
    Utf8.DecodeOfEncode(s);
  }

  /**
   * `String(cString:)` ignores `buffer_length`: a text-family result into which the driver
   * fetched a value filling the whole buffer without a zero byte is read past its end.
   */
  lemma FetchedTextOverreads(s: Slot, f: Field, bytes: seq<byte>, dataLength: nat, error: Flag)
    requires IsFieldSlot(s, f) && IsTextFamily(f.fieldType) && |bytes| == f.length && 0 !in bytes
    ensures !Readable(Fetched(s, bytes, dataLength, 0, error))
  {
  }

  /**
   * `init(_ field:)` sizes the buffer from the column's length, its display width, which for a
   * numeric column can be less than the 4 or 8 bytes `pointee` reads: `INT(2)` or `DOUBLE(5,2)`.
   */
  lemma FetchedNumberOverreads(s: Slot, f: Field, bytes: seq<byte>, dataLength: nat, error: Flag)
    requires IsFieldSlot(s, f) && |bytes| == f.length
    requires (f.fieldType.TypeLong? && f.length < 4) || ((f.fieldType.TypeLongLong? || f.fieldType.TypeDouble?) && f.length < 8)
    ensures !Readable(Fetched(s, bytes, dataLength, 0, error))
  {
  }

  /** A result slot whose tag has no arm decodes to `.null` once fetched non-null. */
  lemma UnrecognisedTagDecodesToNull(s: Slot, f: Field, bytes: seq<byte>, dataLength: nat, error: Flag)
    requires IsFieldSlot(s, f) && |bytes| == f.length && !IsDecoded(f.fieldType)
    ensures Decode(Fetched(s, bytes, dataLength, 0, error)) == Some(Null)
  {
  }

  // ---------------------------------------------------------------------------
  // What `deinit` releases

  datatype Allocation = BufferMemory | LengthCell | IsNullCell | ErrorCell

  /** The allocations a descriptor holds. */
  function Owned(s: Slot): (r: set<Allocation>)
  {
    (if s.buffer.Some? then {BufferMemory} else {}) +
    (if s.length.Some? then {LengthCell} else {}) +
    (if s.isNull.Some? then {IsNullCell} else {}) +
    (if s.error.Some? then {ErrorCell} else {})
  }

  /**
   * `deinit` unwraps `buffer` and `length` for every tag but NULL, and traps if either is nil;
   * `Int(cBind.buffer_length)` traps above `Int.max`.
   */
  predicate CanRelease(s: Slot)
    ensures s.bufferType.TypeNull? ==> CanRelease(s)
    ensures CanRelease(s) && !s.bufferType.TypeNull? ==> {BufferMemory, LengthCell} <= Owned(s)
  {
    !s.bufferType.TypeNull? ==> s.buffer.Some? && s.length.Some? && s.bufferLength < 0x8000_0000_0000_0000
  }

  /** What `deinit` releases, in order: nothing for the NULL tag, otherwise buffer, length, then the cells present. */
  function Releases(s: Slot): (r: seq<Allocation>)
    requires CanRelease(s)
    ensures forall i, j | 0 <= i < j < |r| :: r[i] != r[j]
    ensures forall a | a in r :: a in Owned(s)
    ensures s.bufferType.TypeNull? <==> r == []
  {
    if s.bufferType.TypeNull? then []
    else
      [BufferMemory, LengthCell] +
      (if s.isNull.Some? then [IsNullCell] else []) +
      (if s.error.Some? then [ErrorCell] else [])
  }

  /** Every bind `Value.bind` makes releases exactly what it holds. */
  lemma ParameterBindReleasesAll(v: Value)
    requires Bindable(v)
    ensures CanRelease(BindOf(v))
    ensures forall a :: a in Releases(BindOf(v)) <==> a in Owned(BindOf(v))
  {
  }

  /** A result bind releases exactly what it holds, unless its tag is NULL. */
  lemma FieldBindReleasesAll(s: Slot, f: Field)
    requires IsFieldSlot(s, f) && !f.fieldType.TypeNull?
    ensures forall a :: a in Releases(s) <==> a in Owned(s)
  {
  }

  /** A result bind for a NULL-typed column holds four allocations and releases none. */
  lemma NullFieldBindLeaks(s: Slot, f: Field)
    requires IsFieldSlot(s, f) && f.fieldType.TypeNull?
    ensures Releases(s) == []
    ensures Owned(s) == {BufferMemory, LengthCell, IsNullCell, ErrorCell}
  {
  }

  /** Counterexample input for `Bind(String)`: "é" encodes to 0xC3 0xA9, and `Int8(0xC3)` traps. */
  lemma NonAsciiStringTraps()
    ensures Utf8.Encode("é") == [0xC3, 0xA9]
    ensures !Utf8.AllBelow128(Utf8.Encode("é"))
    ensures !Bindable(String("é"))
  {
    assert "é"[1..] == [];
  }
}

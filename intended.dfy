/**
 * Corrected counterparts of the parts of Bind.swift that lose values, trap or leak
 * (see README, "Findings"). Each correction is the smallest change to the code as
 * written, and the decode round trip is proved for it.
 */
module Intended {
  import opened Wrappers
  import opened Bytes
  import Utf8
  import opened Values
  import opened Protocol
  import opened Slots

  /**
   * `Value.bind` with the initialisers corrected: `Bind(UInt)` passes `unsigned: true`,
   * `Bind(Double)` is tagged DOUBLE, and `Bind(String)` copies bytes with
   * `Int8(bitPattern:)`, so every string can be bound.
   */
  function BindOf(v: Value): (r: Slot)
    ensures v.Null? <==> r.buffer.None?
    ensures r.buffer.Some? ==> |r.buffer.value| == r.bufferLength && r.length == Some(r.bufferLength)
    ensures v.UInt? <==> r.isUnsigned == 1
  {
    match v
    case Int(n) => GenericSlot(TypeLongLong, Int64Bytes(n), 8, false)
    case UInt(u) => GenericSlot(TypeLongLong, UInt64Bytes(u), 8, true)
    case Double(d) => GenericSlot(TypeDouble, d, 8, false)
    case String(s) => GenericSlot(TypeString, Utf8.Encode(s), |Utf8.Encode(s)|, false)
    case Null => NullSlot()
  }

  /** The corrected getter reads text within `buffer_length` and needs no `is_null` cell. */
  predicate Readable(s: Slot)
  {
    s.buffer.None? || s.isNull == Some(1) ||
    (s.bufferLength <= |s.buffer.value| &&
     (IsTextFamily(s.bufferType) || ReadFits(s.bufferType, s.buffer.value)))
  }

  /** The `value` getter, corrected: an absent `is_null` cell means "not null", and text is length-bounded. */
  function Decode(s: Slot): (r: Option<Value>)
    requires Readable(s)
    ensures r.None? <==> s.buffer.None? || s.isNull == Some(1)
    ensures r.Some? ==> (r.value.Null? <==> !IsDecoded(s.bufferType))
  {
    if s.buffer.None? || s.isNull == Some(1) then None
    else
      var b := s.buffer.value;
      if IsTextFamily(s.bufferType) then Some(String(Utf8.Decode(Utf8.BeforeZero(b[..s.bufferLength]))))
      else Some(DecodeBytes(s.bufferType, s.isUnsigned, b))
  }

  /** Every value without U+0000 survives binding and decoding; `.null` comes back as nil, as from `Bind()`. */
  lemma RoundTrip(v: Value)
    requires v.String? ==> '\0' !in v.s
    ensures Readable(BindOf(v))
    ensures Decode(BindOf(v)) == if v.Null? then None else Some(v)
  {
    match v
    case Int(n) =>
      ReadInt64OfInt64Bytes(n, []);
      assert Int64Bytes(n) + [] == Int64Bytes(n);
    case UInt(u) =>
      ReadUInt64OfUInt64Bytes(u, []);
      assert UInt64Bytes(u) + [] == UInt64Bytes(u);
    case Double(d) =>
      assert d[..8] == d;
    case String(s) =>
      StringTruncatesAtNul(s);
    case Null =>
  }

  /** A string is read back up to its first U+0000, and whole when it has none. */
  lemma StringTruncatesAtNul(s: string)
    ensures Readable(BindOf(String(s)))
    ensures Decode(BindOf(String(s))) == Some(String(Utf8.BeforeNul(s)))
  {
    var b := Utf8.Encode(s);
    assert b[..|b|] == b;
    if '\0' in s {
      Utf8.BeforeZeroOfNulString(s);
    } else {
      Utf8.EncodeHasZeroIffNul(s);
    }
    Utf8.DecodeOfEncode(Utf8.BeforeNul(s));
  }

  /** A text-family result filling its whole buffer without a zero byte is read within `buffer_length`, all of it. */
  lemma FetchedTextReadWithinLength(s: Slot, f: Field, bytes: seq<byte>, dataLength: nat, error: Flag)
    requires IsFieldSlot(s, f) && IsTextFamily(f.fieldType) && |bytes| == f.length && 0 !in bytes
    ensures Readable(Fetched(s, bytes, dataLength, 0, error))
    ensures Decode(Fetched(s, bytes, dataLength, 0, error)) == Some(String(Utf8.Decode(bytes)))
  {
    assert bytes[..f.length] == bytes;
  }

  /** The bytes the getter's `pointee` read takes for tag t; 0 for the tags it reads as text or not at all. */
  function StorageSize(t: FieldType): (n: nat)
    ensures n > 0 <==> t.TypeLong? || t.TypeLongLong? || t.TypeDouble?
    ensures n <= 8
  {
    if t.TypeLong? then 4 else if t.TypeLongLong? || t.TypeDouble? then 8 else 0
  }

  /** `init(_ field:)` corrected: the buffer holds the column's length, and never less than the tag's storage size. */
  function ResultBufferLength(f: Field): (n: nat)
    ensures n >= f.length && n >= StorageSize(f.fieldType)
    ensures n == f.length || n == StorageSize(f.fieldType)
  {
    if f.length < StorageSize(f.fieldType) then StorageSize(f.fieldType) else f.length
  }

  /** A result descriptor with the corrected buffer size, otherwise as `init(_ field:)` builds it. */
  predicate IsSizedFieldSlot(s: Slot, f: Field)
  {
    ResultBufferLength(f) < 0x8000_0000_0000_0000 &&
    s.bufferType == f.fieldType && s.bufferLength == ResultBufferLength(f) &&
    s.buffer.Some? && |s.buffer.value| == ResultBufferLength(f) &&
    s.length.Some? && s.isNull.Some? && s.error.Some? && s.isUnsigned == 0
  }

  /** With the corrected size, a fetched non-null numeric result is read inside its buffer, by both getters. */
  lemma SizedFetchedNumberReadable(s: Slot, f: Field, bytes: seq<byte>, dataLength: nat, error: Flag)
    requires IsSizedFieldSlot(s, f) && |bytes| == ResultBufferLength(f) && StorageSize(f.fieldType) > 0
    ensures Slots.Readable(Fetched(s, bytes, dataLength, 0, error))
    ensures Readable(Fetched(s, bytes, dataLength, 0, error))
  {
  }

  /** The correction changes nothing for a column whose length already covers its storage size. */
  lemma SizedFieldSlotAgrees(s: Slot, f: Field)
    requires f.length >= StorageSize(f.fieldType)
    ensures IsSizedFieldSlot(s, f) <==> IsFieldSlot(s, f)
  {
  }

  /** The corrected getter gives what the source's gives wherever the source's can run on a well-sized buffer. */
  lemma DecodeAgreesWithSource(s: Slot)
    requires Slots.Readable(s)
    requires s.buffer.Some? ==> s.bufferLength == |s.buffer.value|
    ensures Readable(s) && Decode(s) == Slots.Decode(s)
  {
    if s.buffer.Some? {
      assert s.buffer.value[..s.bufferLength] == s.buffer.value;
    }
  }

  /** The correction leaves the Int, String (ASCII) and `.null` binds as they are. */
  lemma BindAgreesWithSource(v: Value)
    requires Bindable(v) && !v.UInt? && !v.Double?
    ensures BindOf(v) == Slots.BindOf(v)
  {
  }

  /** `deinit` corrected: it releases every allocation the descriptor holds, for every tag. */
  function Releases(s: Slot): (r: seq<Allocation>)
    ensures forall a :: a in r <==> a in Owned(s)
    ensures forall i, j | 0 <= i < j < |r| :: r[i] != r[j]
  {
    (if s.buffer.Some? then [BufferMemory] else []) +
    (if s.length.Some? then [LengthCell] else []) +
    (if s.isNull.Some? then [IsNullCell] else []) +
    (if s.error.Some? then [ErrorCell] else [])
  }

  /** For every tag but NULL the corrected release is the source's. */
  lemma ReleasesAgreeWithSource(s: Slot)
    requires CanRelease(s) && !s.bufferType.TypeNull?
    ensures Releases(s) == Slots.Releases(s)
  {
  }
}

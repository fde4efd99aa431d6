/**
 * The Bind class of Bind.swift. Its `cBind` is a `let`, so the descriptor's own
 * fields are constants here; what changes after construction is the memory they
 * point to (the buffer array and the three cells), which the driver writes in place,
 * and the release at `deinit`, kept as a flag.
 */
module Binding {
  import opened Wrappers
  import opened Bytes
  import Utf8
  import opened Values
  import opened Protocol
  import opened Slots

  /** One heap cell, as `UnsafeMutablePointer<T>(allocatingCapacity: 1)`. */
  class Cell<T(0)> {
    var contents: T

    /** `allocatingCapacity(1)` alone: the contents are whatever the memory held. */
    constructor Allocate()
    {
    }

    /** `allocatingCapacity(1)` followed by `initialize(with: x)`. */
    constructor (x: T)
      ensures contents == x
    {
      contents := x;
    }
  }

  class Bind {
    const bufferType: FieldType
    const buffer: array?<byte>
    const bufferLength: nat
    const length: Cell?<nat>
    const isNull: Cell?<Flag>
    const error: Cell?<Flag>
    const isUnsigned: Flag
    var released: bool

    /** The descriptor with the memory it points to, as the `value` getter and `deinit` see it. */
    function Snapshot(): (r: Slot)
      reads buffer, length, isNull, error
    {
      Slot(bufferType,
           if buffer == null then None else Some(buffer[..]),
           bufferLength,
           if length == null then None else Some(length.contents),
           if isNull == null then None else Some(isNull.contents),
           if error == null then None else Some(error.contents),
           isUnsigned)
    }

    /** `init()`. */
    constructor Empty()
      ensures bufferType == TypeNull && buffer == null && bufferLength == 0
      ensures length == null && isNull == null && error == null && isUnsigned == 0
      ensures !released
      ensures Snapshot() == NullSlot()
    {
      bufferType, buffer, bufferLength := TypeNull, null, 0;
      length, isNull, error, isUnsigned := null, null, null, 0;
      released := false;
    }

    /** `init(_ field:)`: a result slot of the field's tag with a buffer of the field's length. */
    constructor FromField(f: Field)
      requires f.length < 0x8000_0000_0000_0000
      ensures bufferType == f.fieldType && bufferLength == f.length
      ensures buffer != null && fresh(buffer) && buffer.Length == f.length
      ensures length != null && isNull != null && error != null
      ensures fresh(length) && fresh(isNull) && fresh(error) && isNull != error
      ensures isUnsigned == 0 && !released
      ensures IsFieldSlot(Snapshot(), f)
    {
      bufferType := f.fieldType;
      var n: nat := f.length;
      bufferLength := n;
      buffer := new byte[n];
      length := new Cell.Allocate();
      isNull := new Cell.Allocate();
      error := new Cell.Allocate();
      isUnsigned := 0;
      released := false;
    }

    /**
     * `init(type:buffer:bufferLength:unsigned:)`: takes over the caller's buffer,
     * allocates the length cell holding `buffer_length`, and leaves `is_null` and
     * `error` unallocated. `bufferLength` is a Swift `Int`, and `UInt(bufferLength)` traps below zero.
     */
    constructor (t: FieldType, buffer: array<byte>, bufferLength: int, unsigned: bool := false)
      requires 0 <= bufferLength < 0x8000_0000_0000_0000
      ensures this.buffer == buffer && bufferType == t && this.bufferLength == bufferLength
      ensures length != null && fresh(length) && length.contents == bufferLength
      ensures isNull == null && error == null
      ensures isUnsigned == (if unsigned then 1 else 0)
      ensures !released
      ensures Snapshot() == GenericSlot(t, buffer[..], bufferLength, unsigned)
    {
      this.buffer := buffer;
      this.bufferLength := bufferLength;
      length := new Cell(bufferLength);
      bufferType := t;
      isUnsigned := if unsigned then 1 else 0;
      isNull, error := null, null;
      released := false;
    }

    /** `convenience init(_ string:)`: copies the UTF-8 bytes one by one; `Char(byte)` traps from 0x80 on. */
    static method FromString(s: string) returns (b: Bind)
      requires Utf8.AllBelow128(Utf8.Encode(s)) && |Utf8.Encode(s)| < 0x8000_0000_0000_0000
      ensures fresh(b) && fresh(b.buffer) && fresh(b.length)
      ensures b.bufferType == TypeString && b.bufferLength == |Utf8.Encode(s)|
      ensures b.buffer != null && b.buffer[..] == Utf8.Encode(s)
      ensures b.isUnsigned == 0 && !b.released
      ensures b.Snapshot() == StringSlot(s)
    {
      var bytes := Utf8.Encode(s);
      var buffer := new byte[|bytes|];
      for i := 0 to |bytes|
        invariant buffer[..i] == bytes[..i]
      {
        buffer[i] := bytes[i];
      }
      assert buffer[..] == bytes;
      b := new Bind(TypeString, buffer, |bytes|);
    }

    /** `convenience init(_ int: Int)`. */
    static method FromInt(n: int64) returns (b: Bind)
      ensures fresh(b) && fresh(b.buffer) && fresh(b.length)
      ensures b.bufferType == TypeLongLong && b.bufferLength == 8
      ensures b.buffer != null && b.buffer[..] == Int64Bytes(n)
      ensures b.isUnsigned == 0 && !b.released
      ensures b.Snapshot() == IntSlot(n)
    {
      var buffer := Store(Int64Bytes(n));
      b := new Bind(TypeLongLong, buffer, 8);
    }

    /** `convenience init(_ int: UInt)`: no `unsigned: true` is passed. */
    static method FromUInt(u: uint64) returns (b: Bind)
      ensures fresh(b) && fresh(b.buffer) && fresh(b.length)
      ensures b.bufferType == TypeLongLong && b.bufferLength == 8
      ensures b.buffer != null && b.buffer[..] == UInt64Bytes(u)
      ensures b.isUnsigned == 0 && !b.released
      ensures b.Snapshot() == UIntSlot(u)
    {
      var buffer := Store(UInt64Bytes(u));
      b := new Bind(TypeLongLong, buffer, 8);
    }

    /** `convenience init(_ int: Double)`: tagged LONGLONG, as written. */
    static method FromDouble(d: Float64Bits) returns (b: Bind)
      ensures fresh(b) && fresh(b.buffer) && fresh(b.length)
      ensures b.bufferType == TypeLongLong && b.bufferLength == 8
      ensures b.buffer != null && b.buffer[..] == d
      ensures b.isUnsigned == 0 && !b.released
      ensures b.Snapshot() == DoubleSlot(d)
    {
      var buffer := Store(d);
      b := new Bind(TypeLongLong, buffer, 8);
    }

    /**
     * `var value: Value?`, read from the memory the descriptor points to: nil for a nil
     * buffer or an `is_null` cell holding 1, `.null` for a tag without an arm.
     */
    function Value(): (r: Option<Values.Value>)
      reads buffer, length, isNull, error
      requires Readable(Snapshot())
      ensures r.None? <==> buffer == null || isNull.contents == 1
      ensures r.Some? ==> (r.value.Null? <==> !IsDecoded(bufferType))
    {
      Decode(Snapshot())
    }

    /**
     * `deinit`: nothing for the NULL tag; otherwise the buffer, the length cell and
     * whichever of `is_null` and `error` exist, each once.
     */
    method Deinit() returns (freed: seq<Allocation>)
      requires !released && CanRelease(Snapshot())
      modifies this
      ensures released
      ensures freed == Releases(Snapshot())
    {
      released := true;
      if bufferType == TypeNull {
        return [];
      }
      freed := [BufferMemory, LengthCell];
      if isNull != null {
        freed := freed + [IsNullCell];
      }
      if error != null {
        freed := freed + [ErrorCell];
      }
    }
  }

  /** `allocatingCapacity(1)` followed by `initialize(with:)`: a fresh buffer holding one stored value. */
  method Store(bytes: seq<byte>) returns (buffer: array<byte>)
    ensures fresh(buffer) && buffer[..] == bytes
  {
    buffer := new byte[|bytes|](i requires 0 <= i < |bytes| => bytes[i]);
  }

  /** `Value.bind`. */
  method BindValue(v: Values.Value) returns (b: Bind)
    requires Bindable(v)
    ensures fresh(b) && !b.released
    ensures b.buffer != null ==> fresh(b.buffer)
    ensures b.length != null ==> fresh(b.length)
    ensures b.Snapshot() == BindOf(v)
  {
    if v.Int? {
      b := Bind.FromInt(v.i);
    } else if v.Double? {
      b := Bind.FromDouble(v.bits);
    } else if v.String? {
      b := Bind.FromString(v.s);
    } else if v.UInt? {
      b := Bind.FromUInt(v.u);
    } else {
      b := new Bind.Empty();
    }
  }

  /** A parameter bind made from a value and released at once releases exactly what it held. */
  method BindAndRelease(v: Values.Value) returns (freed: seq<Allocation>)
    requires Bindable(v)
    ensures forall a :: a in freed <==> a in Owned(BindOf(v))
    ensures forall i, j | 0 <= i < j < |freed| :: freed[i] != freed[j]
  {
    var b := BindValue(v);
    ParameterBindReleasesAll(v);
    freed := b.Deinit();
  }
}

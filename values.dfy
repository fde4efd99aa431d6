/**
 * The application-level scalar the MySQL package exchanges with statements. Its
 * declaration lives in Value.swift, which is not part of this model; the five cases
 * below are the ones `Value.bind` and the `value` getter of Bind.swift switch over.
 */
module Values {
  import opened Bytes

  /** A Double is carried as its eight stored bytes; IEEE-754 arithmetic is not modelled. */
  type Float64Bits = s: seq<byte> | |s| == 8 witness [0, 0, 0, 0, 0, 0, 0, 0]

  datatype Value =
    | Int(i: int64)
    | UInt(u: uint64)
    | Double(bits: Float64Bits)
    | String(s: string)
    | Null
}

/**
 * Protocol metadata: MySQL's `enum_field_types` tags and the field descriptor the
 * result metadata supplies (Field.swift and the C headers are not part of this model).
 */
module Protocol {
  import opened Bytes

  datatype FieldType =
    | TypeDecimal | TypeTiny | TypeShort | TypeLong | TypeFloat | TypeDouble | TypeNull
    | TypeTimestamp | TypeLongLong | TypeInt24 | TypeDate | TypeTime | TypeDateTime | TypeYear
    | TypeNewDate | TypeVarChar | TypeBit | TypeTimestamp2 | TypeDateTime2 | TypeTime2 | TypeJson
    | TypeNewDecimal | TypeEnum | TypeSet | TypeTinyBlob | TypeMediumBlob | TypeLongBlob
    | TypeBlob | TypeVarString | TypeString | TypeGeometry

  /** `field.cField.type` and `field.cField.length` (an `unsigned long`). */
  datatype Field = Field(fieldType: FieldType, length: uint64)

  /** The tags whose buffer the `value` getter reads as a C string. */
  predicate IsTextFamily(t: FieldType)
  {
    t.TypeString? || t.TypeVarString? || t.TypeBlob? || t.TypeDecimal? ||
    t.TypeNewDecimal? || t.TypeEnum? || t.TypeSet?
  }

  /** The tags the `value` getter has an arm for; every other tag decodes to `.null`. */
  predicate IsDecoded(t: FieldType)
  {
    IsTextFamily(t) || t.TypeLong? || t.TypeLongLong? || t.TypeDouble?
  }
}

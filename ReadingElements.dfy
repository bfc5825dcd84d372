/** The public reading type and the sensor-type enumeration
    (Hwinfo.SharedMemory/ReadingElements.cs). */
module ReadingElements {

  import opened Bytes

  /** A `double` carried as its 64-bit pattern: it is copied, never computed with. */
  type DoubleBits = uint64

  /** The sensor type. The wire stores a 4-byte tag and nothing range-checks it,
      so a tag outside the enumeration is carried through as `Unknown(tag)`. */
  datatype SensorType =
    | None      // 0
    | Temp      // 1
    | Volt      // 2
    | Fan       // 3
    | Current   // 4
    | Power     // 5
    | Clock     // 6
    | Usage     // 7
    | Other     // 8
    | Unknown(tag: uint32)

  /** Every named member has its own tag; `Unknown` stands only for tags past the last one. */
  predicate ValidSensorType(t: SensorType)
  {
    t.Unknown? ==> t.tag > 8
  }

  /** The tag stored in a reading record, as the enumeration it names. */
  function SensorTypeOf(tag: uint32): (t: SensorType)
    ensures ValidSensorType(t)
    ensures t.Unknown? <==> tag > 8
    ensures t.Unknown? ==> t.tag == tag
  {
    if tag == 0 then None
    else if tag == 1 then Temp
    else if tag == 2 then Volt
    else if tag == 3 then Fan
    else if tag == 4 then Current
    else if tag == 5 then Power
    else if tag == 6 then Clock
    else if tag == 7 then Usage
    else if tag == 8 then Other
    else Unknown(tag)
  }

  /** The 4-byte tag a sensor type is stored as. */
  function Tag(t: SensorType): (tag: uint32)
    ensures !t.Unknown? ==> tag <= 8
    ensures t.Unknown? ==> tag == t.tag
  {
    match t
    case None => 0
    case Temp => 1
    case Volt => 2
    case Fan => 3
    case Current => 4
    case Power => 5
    case Clock => 6
    case Usage => 7
    case Other => 8
    case Unknown(tag) => tag
  }

  /** Decoding a tag never fails and never loses the tag. */
  lemma TagRoundTrip(tag: uint32)
    ensures ValidSensorType(SensorTypeOf(tag)) && Tag(SensorTypeOf(tag)) == tag
  {
  }

  lemma SensorTypeRoundTrip(t: SensorType)
    requires ValidSensorType(t)
    ensures SensorTypeOf(Tag(t)) == t
  {
  }

  /** One sensor reading: ten fields of the reading record followed by four of
      its owning group. An immutable value; equality is field by field. */
  datatype SensorReading = SensorReading(
    id: uint32,
    index: uint32,
    sensorType: SensorType,
    labelOrig: seq<byte>,
    labelUser: seq<byte>,
    unit: seq<byte>,
    value: DoubleBits,
    valueMin: DoubleBits,
    valueMax: DoubleBits,
    valueAvg: DoubleBits,
    groupId: uint32,
    groupInstanceId: uint32,
    groupLabelUser: seq<byte>,
    groupLabelOrig: seq<byte>
  )
}

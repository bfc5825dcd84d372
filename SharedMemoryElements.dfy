/** The three packed wire records of the shared region (1-byte packing, no
    padding) and their field-by-field decoders
    (Hwinfo.SharedMemory/SharedMemoryElements.cs). Each record also has an
    encoder, the inverse used to state the layout as a round trip. */
module SharedMemoryElements {

  import opened Bytes
  import opened ReadingElements

  /** Width of a label field (HWiNFO_SENSORS_STRING_LEN2). */
  const SensorsStringLen: nat := 128
  /** Width of a unit field (HWiNFO_UNIT_STRING_LEN). */
  const UnitStringLen: nat := 16

  /** Record sizes, summed field by field. */
  const HeaderSize: nat := 4 + 4 + 4 + 8 + 3 * 4 + 3 * 4
  const SensorElementSize: nat := 4 + 4 + SensorsStringLen + SensorsStringLen
  const ReadingElementSize: nat :=
    4 + 4 + 4 + SensorsStringLen + SensorsStringLen + UnitStringLen + 4 * 8

  lemma RecordSizes()
    ensures HeaderSize == 44 && SensorElementSize == 264 && ReadingElementSize == 316
  {
  }

  /** The region header (SmSensorsSharedMem2), always at offset 0. */
  datatype SharedMemHeader = SharedMemHeader(
    signature: uint32,
    version: uint32,
    revision: uint32,
    pollTime: int64,
    sensorSectionOffset: uint32,
    sensorSectionSizeOfElement: uint32,
    sensorSectionNumElements: uint32,
    readingSectionOffset: uint32,
    readingSectionSizeOfElement: uint32,
    readingElementsNumElements: uint32
  )

  /** One sensor group (SmSensorsSensorElement). */
  datatype SensorElement = SensorElement(
    id: uint32,
    instance: uint32,
    labelOrig: seq<byte>,
    labelUser: seq<byte>
  )

  /** One reading (SmSensorsReadingElement). */
  datatype ReadingElement = ReadingElement(
    sensorType: SensorType,
    idx: uint32,
    id: uint32,
    labelOrig: seq<byte>,
    labelUser: seq<byte>,
    unit: seq<byte>,
    value: DoubleBits,
    valueMin: DoubleBits,
    valueMax: DoubleBits,
    valueAvg: DoubleBits
  )

  predicate WellFormedSensorElement(e: SensorElement)
  {
    FitsField(e.labelOrig, SensorsStringLen) && FitsField(e.labelUser, SensorsStringLen)
  }

  predicate WellFormedReadingElement(r: ReadingElement)
  {
    && ValidSensorType(r.sensorType)
    && FitsField(r.labelOrig, SensorsStringLen)
    && FitsField(r.labelUser, SensorsStringLen)
    && FitsField(r.unit, UnitStringLen)
  }

  // ---------------------------------------------------------------- header

  function DecodeHeader(b: seq<byte>): (h: SharedMemHeader)
    requires |b| == HeaderSize
    ensures U32Bytes(h.signature) == b[0..4] && U32Bytes(h.version) == b[4..8]
    ensures U32Bytes(h.revision) == b[8..12] && I64Bytes(h.pollTime) == b[12..20]
    ensures U32Bytes(h.sensorSectionOffset) == b[20..24]
    ensures U32Bytes(h.sensorSectionSizeOfElement) == b[24..28]
    ensures U32Bytes(h.sensorSectionNumElements) == b[28..32]
    ensures U32Bytes(h.readingSectionOffset) == b[32..36]
    ensures U32Bytes(h.readingSectionSizeOfElement) == b[36..40]
    ensures U32Bytes(h.readingElementsNumElements) == b[40..44]
  {
    U32BytesRoundTrip(b[0..4]);
    U32BytesRoundTrip(b[4..8]);
    U32BytesRoundTrip(b[8..12]);
    I64BytesRoundTrip(b[12..20]);
    U32BytesRoundTrip(b[20..24]);
    U32BytesRoundTrip(b[24..28]);
    U32BytesRoundTrip(b[28..32]);
    U32BytesRoundTrip(b[32..36]);
    U32BytesRoundTrip(b[36..40]);
    U32BytesRoundTrip(b[40..44]);
    SharedMemHeader(
      signature := U32(b[0..4]),
      version := U32(b[4..8]),
      revision := U32(b[8..12]),
      pollTime := I64(b[12..20]),
      sensorSectionOffset := U32(b[20..24]),
      sensorSectionSizeOfElement := U32(b[24..28]),
      sensorSectionNumElements := U32(b[28..32]),
      readingSectionOffset := U32(b[32..36]),
      readingSectionSizeOfElement := U32(b[36..40]),
      readingElementsNumElements := U32(b[40..44]))
  }

  function EncodeHeader(h: SharedMemHeader): (b: seq<byte>)
    ensures |b| == HeaderSize
  {
    U32Bytes(h.signature) + U32Bytes(h.version) + U32Bytes(h.revision) + I64Bytes(h.pollTime)
    + U32Bytes(h.sensorSectionOffset) + U32Bytes(h.sensorSectionSizeOfElement)
    + U32Bytes(h.sensorSectionNumElements)
    + U32Bytes(h.readingSectionOffset) + U32Bytes(h.readingSectionSizeOfElement)
    + U32Bytes(h.readingElementsNumElements)
  }

  /** The decoder reads every field back from the offset the encoder wrote it to. */
  lemma HeaderRoundTrip(h: SharedMemHeader)
    ensures DecodeHeader(EncodeHeader(h)) == h
  {
    var b := EncodeHeader(h);
    assert b[0..4] == U32Bytes(h.signature);
    assert b[4..8] == U32Bytes(h.version);
    assert b[8..12] == U32Bytes(h.revision);
    assert b[12..20] == I64Bytes(h.pollTime);
    assert b[20..24] == U32Bytes(h.sensorSectionOffset);
    assert b[24..28] == U32Bytes(h.sensorSectionSizeOfElement);
    assert b[28..32] == U32Bytes(h.sensorSectionNumElements);
    assert b[32..36] == U32Bytes(h.readingSectionOffset);
    assert b[36..40] == U32Bytes(h.readingSectionSizeOfElement);
    assert b[40..44] == U32Bytes(h.readingElementsNumElements);
    U32RoundTrip(h.signature);
    U32RoundTrip(h.version);
    U32RoundTrip(h.revision);
    I64RoundTrip(h.pollTime);
    U32RoundTrip(h.sensorSectionOffset);
    U32RoundTrip(h.sensorSectionSizeOfElement);
    U32RoundTrip(h.sensorSectionNumElements);
    U32RoundTrip(h.readingSectionOffset);
    U32RoundTrip(h.readingSectionSizeOfElement);
    U32RoundTrip(h.readingElementsNumElements);
  }

  /** The header has no padding: every one of its 44 bytes belongs to a field,
      so re-encoding a decoded header gives back the same bytes. */
  lemma HeaderHasNoPadding(b: seq<byte>)
    requires |b| == HeaderSize
    ensures EncodeHeader(DecodeHeader(b)) == b
  {
    assert b == b[0..4] + b[4..8] + b[8..12] + b[12..20] + b[20..24] + b[24..28]
              + b[28..32] + b[32..36] + b[36..40] + b[40..44];
  }

  // ---------------------------------------------------------- group record

  function DecodeSensorElement(b: seq<byte>): (e: SensorElement)
    requires |b| == SensorElementSize
    ensures WellFormedSensorElement(e)
  {
    SensorElement(
      id := U32(b[0..4]),
      instance := U32(b[4..8]),
      labelOrig := FieldText(b[8..136]),
      labelUser := FieldText(b[136..264]))
  }

  function EncodeSensorElement(e: SensorElement): (b: seq<byte>)
    ensures |b| == SensorElementSize
  {
    U32Bytes(e.id) + U32Bytes(e.instance)
    + FieldBytes(e.labelOrig, SensorsStringLen) + FieldBytes(e.labelUser, SensorsStringLen)
  }

  lemma SensorElementRoundTrip(e: SensorElement)
    requires WellFormedSensorElement(e)
    ensures DecodeSensorElement(EncodeSensorElement(e)) == e
  {
    var b := EncodeSensorElement(e);
    assert b[0..4] == U32Bytes(e.id);
    assert b[4..8] == U32Bytes(e.instance);
    assert b[8..136] == FieldBytes(e.labelOrig, SensorsStringLen);
    assert b[136..264] == FieldBytes(e.labelUser, SensorsStringLen);
    U32RoundTrip(e.id);
    U32RoundTrip(e.instance);
    FieldTextRoundTrip(e.labelOrig, SensorsStringLen);
    FieldTextRoundTrip(e.labelUser, SensorsStringLen);
  }

  // -------------------------------------------------------- reading record

  function DecodeReadingElement(b: seq<byte>): (r: ReadingElement)
    requires |b| == ReadingElementSize
    ensures WellFormedReadingElement(r)
  {
    TagRoundTrip(U32(b[0..4]));
    ReadingElement(
      sensorType := SensorTypeOf(U32(b[0..4])),
      idx := U32(b[4..8]),
      id := U32(b[8..12]),
      labelOrig := FieldText(b[12..140]),
      labelUser := FieldText(b[140..268]),
      unit := FieldText(b[268..284]),
      value := U64(b[284..292]),
      valueMin := U64(b[292..300]),
      valueMax := U64(b[300..308]),
      valueAvg := U64(b[308..316]))
  }

  function EncodeReadingElement(r: ReadingElement): (b: seq<byte>)
    ensures |b| == ReadingElementSize
  {
    U32Bytes(Tag(r.sensorType)) + U32Bytes(r.idx) + U32Bytes(r.id)
    + FieldBytes(r.labelOrig, SensorsStringLen) + FieldBytes(r.labelUser, SensorsStringLen)
    + FieldBytes(r.unit, UnitStringLen)
    + U64Bytes(r.value) + U64Bytes(r.valueMin) + U64Bytes(r.valueMax) + U64Bytes(r.valueAvg)
  }

  lemma ReadingElementRoundTrip(r: ReadingElement)
    requires WellFormedReadingElement(r)
    ensures DecodeReadingElement(EncodeReadingElement(r)) == r
  {
    var b := EncodeReadingElement(r);
    assert b[0..4] == U32Bytes(Tag(r.sensorType));
    assert b[4..8] == U32Bytes(r.idx);
    assert b[8..12] == U32Bytes(r.id);
    assert b[12..140] == FieldBytes(r.labelOrig, SensorsStringLen);
    assert b[140..268] == FieldBytes(r.labelUser, SensorsStringLen);
    assert b[268..284] == FieldBytes(r.unit, UnitStringLen);
    assert b[284..292] == U64Bytes(r.value);
    assert b[292..300] == U64Bytes(r.valueMin);
    assert b[300..308] == U64Bytes(r.valueMax);
    assert b[308..316] == U64Bytes(r.valueAvg);
    U32RoundTrip(Tag(r.sensorType));
    SensorTypeRoundTrip(r.sensorType);
    U32RoundTrip(r.idx);
    U32RoundTrip(r.id);
    FieldTextRoundTrip(r.labelOrig, SensorsStringLen);
    FieldTextRoundTrip(r.labelUser, SensorsStringLen);
    FieldTextRoundTrip(r.unit, UnitStringLen);
    U64RoundTrip(r.value);
    U64RoundTrip(r.valueMin);
    U64RoundTrip(r.valueMax);
    U64RoundTrip(r.valueAvg);
  }

  /** Each field is decoded from its own window only: two records that agree
      on a field's window decode to the same value of that field, whatever the
      other bytes hold. */
  lemma ReadingFieldsIndependent(b1: seq<byte>, b2: seq<byte>)
    requires |b1| == |b2| == ReadingElementSize
    ensures b1[0..4] == b2[0..4] ==> DecodeReadingElement(b1).sensorType == DecodeReadingElement(b2).sensorType
    ensures b1[4..8] == b2[4..8] ==> DecodeReadingElement(b1).idx == DecodeReadingElement(b2).idx
    ensures b1[8..12] == b2[8..12] ==> DecodeReadingElement(b1).id == DecodeReadingElement(b2).id
    ensures b1[12..140] == b2[12..140] ==> DecodeReadingElement(b1).labelOrig == DecodeReadingElement(b2).labelOrig
    ensures b1[140..268] == b2[140..268] ==> DecodeReadingElement(b1).labelUser == DecodeReadingElement(b2).labelUser
    ensures b1[268..284] == b2[268..284] ==> DecodeReadingElement(b1).unit == DecodeReadingElement(b2).unit
    ensures b1[284..292] == b2[284..292] ==> DecodeReadingElement(b1).value == DecodeReadingElement(b2).value
    ensures b1[292..300] == b2[292..300] ==> DecodeReadingElement(b1).valueMin == DecodeReadingElement(b2).valueMin
    ensures b1[300..308] == b2[300..308] ==> DecodeReadingElement(b1).valueMax == DecodeReadingElement(b2).valueMax
    ensures b1[308..316] == b2[308..316] ==> DecodeReadingElement(b1).valueAvg == DecodeReadingElement(b2).valueAvg
  {
  }

  lemma SensorFieldsIndependent(b1: seq<byte>, b2: seq<byte>)
    requires |b1| == |b2| == SensorElementSize
    ensures b1[0..4] == b2[0..4] ==> DecodeSensorElement(b1).id == DecodeSensorElement(b2).id
    ensures b1[4..8] == b2[4..8] ==> DecodeSensorElement(b1).instance == DecodeSensorElement(b2).instance
    ensures b1[8..136] == b2[8..136] ==> DecodeSensorElement(b1).labelOrig == DecodeSensorElement(b2).labelOrig
    ensures b1[136..264] == b2[136..264] ==> DecodeSensorElement(b1).labelUser == DecodeSensorElement(b2).labelUser
  {
  }
}

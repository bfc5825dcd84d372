# HWiNFO shared-memory reader, modelled in Dafny

HWiNFO publishes live sensor telemetry in a named, memory-mapped region. The
`Hwinfo.SharedMemory` library opens that region and decodes it. The region holds:

- a 44-byte header (`SmSensorsSharedMem2`);
- a section of 264-byte group records (`SmSensorsSensorElement`);
- a section of 316-byte reading records (`SmSensorsReadingElement`).

The library joins each reading to the group its `Idx` names and returns the
readings as `SensorReading` values. It also keeps the group records of the last
read in a cache (`_sensors`). It reads the groups again only when the header's
group count differs from the cache's length.

The model has these modules:

- `Bytes`: little-endian `uint`, 8-byte and `long` fields, and fixed-width
  text fields. A text field is the bytes before the first zero byte of its
  window, or the whole window when it has none.
- `ReadingElements`: the `SensorReading` record and the `SensorType`
  enumeration. A tag outside 0–8 is carried through as `Unknown(tag)`.
- `SharedMemoryElements`: the three packed records. Each has a decoder that
  reads every field at its byte offset, and an encoder. For the header the
  two are inverses both ways. For the group and reading records the encoder
  is a right inverse on well-formed records: decoding an encoded record gives
  it back. Encoding a decoded record need not give the bytes back, because
  the bytes after a text field's zero byte are dropped.
- `Reader`: the reader itself.
  - The named mapping is a parameter: `Absent`, or the bytes it holds.
  - Each step the source performs is a function that may fail: open, map a
    view, copy the view into the reused buffer, marshal the buffer.
  - A section is one step per record. `Collect` runs the steps in order and
    stops at the first failure, as the source's loops do when an exception
    escapes.
  - `ReadSmResult` and `ReadResult` specify a whole call: the readings and the
    new cache, given the old cache.
  - The class `SharedMemoryReader` implements them with the source's loops
    over fresh arrays and one reused byte buffer per section. It keeps
    `_sensors` as a field that the methods reassign.
- `ReaderProperties`: what one call promises. This covers the missing-mapping
  policy, failure propagation, the cache, and where each entry of the result
  comes from.
- `Snapshot`: a region as its writer lays it out. It has the header, then the
  groups back to back, then the readings back to back. Reading such a region
  gives every reading joined to its group, in section order.

Offsets are computed as the source computes them: `offset + idx * stride` in
unchecked 32-bit unsigned arithmetic, so the product and the sum wrap
(`Reader.BlockStart`). A failure is one of:

- `FileNotFound`: no mapping of that name exists;
- `ViewOutOfRange`: a view reaches past the end of the mapping;
- `NoBytesRead`: the marshaller is handed a zero-length buffer;
- `IndexOutOfRange`: a reading names a group the cache does not hold.

`Read` turns only `FileNotFound` into an empty result and an empty cache.
Every other failure propagates and aborts the whole read.

A reading whose `Idx` names no cached group aborts the whole read
(`SharedMemoryReader.cs:98`); no partial result is returned. The only entry
point is `Read()` (`:35`), on one fixed mapping name (`:16`).

The cache is keyed only by the group count. If the group records change but
their count does not, the stale cache is served. `Snapshot.SnapshotRoundTrip`
states this case explicitly.

## Model

| member | source | states |
|---|---|---|
| Bytes.U32 | Hwinfo.SharedMemory/SharedMemoryElements.cs:49-51 | a 4-byte `uint` field is little-endian: its low byte is the first byte and its high byte the last |
| Bytes.U64 | Hwinfo.SharedMemory/SharedMemoryElements.cs:27-30 | an 8-byte field's low 32 bits are the first 4 bytes and its high 32 bits the last 4 |
| Bytes.I64 | Hwinfo.SharedMemory/SharedMemoryElements.cs:52 | a `long` field has the same 64 bits as the raw pattern, and is negative exactly when the top bit of its last byte is set |
| Bytes.U32BytesRoundTrip | Hwinfo.SharedMemory/SharedMemoryElements.cs:49-51 | every 4 bytes are the encoding of the `uint` they decode to, least significant byte first |
| Bytes.U32RoundTrip | Hwinfo.SharedMemory/SharedMemoryElements.cs:49-51 | encoding a `uint` in 4 little-endian bytes and decoding it gives it back |
| Bytes.U64RoundTrip | Hwinfo.SharedMemory/SharedMemoryElements.cs:27-30 | an 8-byte `double` field is carried bit for bit: encoding and decoding its 64-bit pattern gives it back |
| Bytes.U64BytesRoundTrip | Hwinfo.SharedMemory/SharedMemoryElements.cs:27-30 | every 8 bytes are the encoding of the 64-bit pattern they decode to |
| Bytes.I64RoundTrip | Hwinfo.SharedMemory/SharedMemoryElements.cs:52 | the two's-complement `long` PollTime round-trips through its 8 bytes, negative values included |
| Bytes.I64BytesRoundTrip | Hwinfo.SharedMemory/SharedMemoryElements.cs:52 | every 8 bytes are the encoding of the `long` they decode to |
| Bytes.FieldText | Hwinfo.SharedMemory/SharedMemoryElements.cs:18-19 | a fixed-width text field's value is a prefix of its window, holds no zero byte, and is followed by a zero byte whenever it is shorter than the window |
| Bytes.FieldBytes | Hwinfo.SharedMemory/SharedMemoryElements.cs:18-19 | the window written for a text is exactly the field's width: the text followed by zero bytes |
| Bytes.FieldTextOfPadded | Hwinfo.SharedMemory/SharedMemoryElements.cs:18-19 | text without a zero byte followed by any number of zero bytes reads back as that text |
| Bytes.FieldTextRoundTrip | Hwinfo.SharedMemory/SharedMemoryElements.cs:18-25 | text that fits its field and has no zero byte is read back unchanged from its window |
| ReadingElements.SensorTypeOf | Hwinfo.SharedMemory/ReadingElements.cs:26-37 | a stored tag names a well-formed sensor type; it is `Unknown` exactly when the tag is past 8, and then it keeps the tag |
| ReadingElements.Tag | Hwinfo.SharedMemory/ReadingElements.cs:26-37 | a named member is stored as a tag of at most 8; `Unknown(tag)` is stored as its own tag |
| ReadingElements.TagRoundTrip | Hwinfo.SharedMemory/ReadingElements.cs:26-37 | every 4-byte tag decodes to a sensor type that encodes back to the same tag: tags 0–8 name the members in declaration order, and any other tag is kept as `Unknown(tag)` |
| ReadingElements.SensorTypeRoundTrip | Hwinfo.SharedMemory/ReadingElements.cs:26-37 | every sensor type, the named members included, is decoded from its own tag |
| SharedMemoryElements.RecordSizes | Hwinfo.SharedMemory/SharedMemoryElements.cs:5-9 | with label width 128 and unit width 16, the packed records are 44, 264 and 316 bytes |
| SharedMemoryElements.DecodeHeader | Hwinfo.SharedMemory/SharedMemoryElements.cs:46-59 | each of the ten header fields encodes back to exactly the bytes at its offset: 0, 4, 8, 12, 20, 24, 28, 32, 36, 40 |
| SharedMemoryElements.HeaderRoundTrip | Hwinfo.SharedMemory/SharedMemoryElements.cs:46-59 | each header field is read back from the offset it is written to (0, 4, 8, 12, 20, 24, 28, 32, 36, 40) |
| SharedMemoryElements.HeaderHasNoPadding | Hwinfo.SharedMemory/SharedMemoryElements.cs:46-59 | every 44-byte block is the encoding of the header it decodes to: no byte of the packed layout is ignored |
| SharedMemoryElements.EncodeHeader | Hwinfo.SharedMemory/SharedMemoryElements.cs:46-59 | the packed header is 44 bytes |
| SharedMemoryElements.DecodeSensorElement | Hwinfo.SharedMemory/SharedMemoryElements.cs:33-44 | a decoded group record's two labels fit their 128-byte fields and have no zero byte |
| SharedMemoryElements.EncodeSensorElement | Hwinfo.SharedMemory/SharedMemoryElements.cs:33-44 | the packed group record is 264 bytes |
| SharedMemoryElements.SensorElementRoundTrip | Hwinfo.SharedMemory/SharedMemoryElements.cs:33-44 | Id at 0, Instance at 4, LabelOrig in 8..136 and LabelUser in 136..264 are read back from where they are written |
| SharedMemoryElements.SensorFieldsIndependent | Hwinfo.SharedMemory/SharedMemoryElements.cs:33-44 | each group field is decoded from its own window only |
| SharedMemoryElements.DecodeReadingElement | Hwinfo.SharedMemory/SharedMemoryElements.cs:11-31 | a decoded reading record has a well-formed sensor type, and labels and unit that fit their fields and have no zero byte |
| SharedMemoryElements.EncodeReadingElement | Hwinfo.SharedMemory/SharedMemoryElements.cs:11-31 | the packed reading record is 316 bytes |
| SharedMemoryElements.ReadingElementRoundTrip | Hwinfo.SharedMemory/SharedMemoryElements.cs:11-31 | Type, Idx, Id, LabelOrig, LabelUser, Unit and the four values are read back from offsets 0, 4, 8, 12, 140, 268, 284, 292, 300 and 308 |
| SharedMemoryElements.ReadingFieldsIndependent | Hwinfo.SharedMemory/SharedMemoryElements.cs:11-31 | each reading field, each string in particular, is decoded from its own window only |
| Reader.View | Hwinfo.SharedMemory/SharedMemoryReader.cs:89-93 | a view succeeds exactly when it lies within the mapping and then holds exactly `size` bytes; otherwise it fails with `ViewOutOfRange(offset, size)` |
| Reader.BlockStart | Hwinfo.SharedMemory/SharedMemoryReader.cs:90 | a block starts at `offset + idx * stride` reduced modulo 2^32: wrapping the product first, as unchecked `uint` arithmetic does, changes nothing |
| Reader.BlockStartNoWrap | Hwinfo.SharedMemory/SharedMemoryReader.cs:90 | when `offset + idx * stride` does not overflow 32 bits, block `idx` starts `idx` strides past the section offset |
| Reader.BufferToStruct | Hwinfo.SharedMemory/SharedMemoryReader.cs:142-159 | the marshaller fails with "No bytes read" exactly on an empty buffer, and otherwise takes the record from the start of the buffer |
| Reader.RecordAt | Hwinfo.SharedMemory/SharedMemoryReader.cs:89-97 | a record is fetched exactly when its stride-long view fits the mapping and the stride is not 0, and it is then the record's bytes at `start`; otherwise the failure is the view's or the marshaller's |
| Reader.Collect | Hwinfo.SharedMemory/SharedMemoryReader.cs:87-116 | a loop that completes yields one value per record |
| Reader.CollectStep | Hwinfo.SharedMemory/SharedMemoryReader.cs:87-116 | one more iteration fails if the loop had already failed or the record fails, and otherwise appends the record's value |
| Reader.CollectAllOk | Hwinfo.SharedMemory/SharedMemoryReader.cs:87-116 | a loop completes exactly when every record succeeds, and then entry k is record k's value |
| Reader.CollectFirstFailure | Hwinfo.SharedMemory/SharedMemoryReader.cs:87-116 | when records before k succeed and record k fails, the loop fails with record k's failure, whatever follows |
| Reader.CollectFailureIsFirst | Hwinfo.SharedMemory/SharedMemoryReader.cs:87-116 | a failed loop failed at some record whose predecessors all succeeded, with that record's failure |
| Reader.SensorElementAt | Hwinfo.SharedMemory/SharedMemoryReader.cs:129-136 | fetching a group record never reports a missing mapping or a bad index |
| Reader.ReadingAt | Hwinfo.SharedMemory/SharedMemoryReader.cs:89-115 | fetching a reading never reports a missing mapping |
| Reader.SensorSteps | Hwinfo.SharedMemory/SharedMemoryReader.cs:127-137 | one step per group record the header announces, step k being group k's view, copy and decode |
| Reader.ReadingSteps | Hwinfo.SharedMemory/SharedMemoryReader.cs:87-116 | one step per reading record the header announces, step k being reading k's view, decode and join |
| Reader.Join | Hwinfo.SharedMemory/SharedMemoryReader.cs:100-115 | the joined reading's ten reading fields are the reading record's and its four group fields are the group record's |
| Reader.JoinOfParts | Hwinfo.SharedMemory/ReadingElements.cs:6-21 | a `SensorReading` is exactly its ten reading fields and its four group fields |
| Reader.JoinInjective | Hwinfo.SharedMemory/ReadingElements.cs:6-21 | two joined readings are equal exactly when their reading parts and group parts are (value equality) |
| Reader.HeaderOf | Hwinfo.SharedMemory/SharedMemoryReader.cs:65-71 | the header is decoded from the first 44 bytes of the mapping, and encodes back to exactly those bytes |
| Reader.ReadSmResult | Hwinfo.SharedMemory/SharedMemoryReader.cs:62-79 | a missing mapping fails with not-found and keeps the cache; the cache is either kept or replaced by groups numbering the header's count, which it did not match before; a success returns as many readings as the header announces, and the cache then holds its group count |
| Reader.ReadResult | Hwinfo.SharedMemory/SharedMemoryReader.cs:35-58 | `ReadSm`'s outcome and cache, except that not-found becomes no readings and an empty cache; it never reports not-found |
| Reader.ReadBlock | Hwinfo.SharedMemory/SharedMemoryReader.cs:89-95 | the reused buffer ends up holding the block's bytes, or the view's failure is returned and the buffer is left untouched |
| Reader.SharedMemoryReader.constructor | Hwinfo.SharedMemory/SharedMemoryReader.cs:25-29 | the cache starts empty |
| Reader.SharedMemoryReader.Read | Hwinfo.SharedMemory/SharedMemoryReader.cs:35-58 | result and new cache are `ReadResult` of the mapping and the old cache; a missing mapping gives no readings and an empty cache |
| Reader.SharedMemoryReader.ReadSm | Hwinfo.SharedMemory/SharedMemoryReader.cs:62-79 | result and new cache are `ReadSmResult`: header from offset 0 over 44 bytes, groups re-read only when the count differs, then the readings |
| Reader.SharedMemoryReader.ReadSensors | Hwinfo.SharedMemory/SharedMemoryReader.cs:81-119 | the readings are the reading section's records, in order, each joined to its cached group, or the first record's failure |
| Reader.SharedMemoryReader.ReadReading | Hwinfo.SharedMemory/SharedMemoryReader.cs:89-115 | one iteration of the reading loop yields `ReadingAt` of its index |
| Reader.SharedMemoryReader.ReadSensorsGroups | Hwinfo.SharedMemory/SharedMemoryReader.cs:121-140 | the groups are the group section's records, in order, or the first record's failure |
| Reader.SharedMemoryReader.ReadSensorsGroup | Hwinfo.SharedMemory/SharedMemoryReader.cs:129-136 | one iteration of the group loop yields `SensorElementAt` of its index |
| ReaderProperties.MissingRegionReadsNothing | Hwinfo.SharedMemory/SharedMemoryReader.cs:42-46 | a missing mapping makes `ReadSm` fail with "not found" and `Read` return no readings with an emptied cache |
| ReaderProperties.PresentRegionNeverReportsNotFound | Hwinfo.SharedMemory/SharedMemoryReader.cs:35-58 | once the mapping exists no step reports "not found", so `Read` passes every failure through unchanged |
| ReaderProperties.ShortRegionFailsOnHeader | Hwinfo.SharedMemory/SharedMemoryReader.cs:65-71 | a mapping shorter than 44 bytes fails on the header's view and the cache is kept |
| ReaderProperties.CacheUpdate | Hwinfo.SharedMemory/SharedMemoryReader.cs:73-78 | a cache whose length equals the group count is reused unchanged; otherwise it becomes the freshly read groups even if a reading then fails, or stays as it was if the groups cannot be read |
| ReaderProperties.CacheHitIgnoresGroupSection | Hwinfo.SharedMemory/SharedMemoryReader.cs:73-78 | when the cache's length equals the group count, any group stride is accepted and the readings are joined to the cache unchanged, which is kept |
| ReaderProperties.SuccessfulReadCounts | Hwinfo.SharedMemory/SharedMemoryReader.cs:73-85 | after a successful read the cache holds as many groups as the header announces and the result as many readings |
| ReaderProperties.GroupComesFromItsBlock | Hwinfo.SharedMemory/SharedMemoryReader.cs:127-137 | group k is the record decoded from the block at `offset + k * stride` |
| ReaderProperties.ReadingComesFromItsBlock | Hwinfo.SharedMemory/SharedMemoryReader.cs:87-116 | reading k's reading fields are decoded from the block at `offset + k * stride`, and its group fields are those of the cached group its `Idx` names |
| ReaderProperties.BadGroupIndexFailsTheRead | Hwinfo.SharedMemory/SharedMemoryReader.cs:98 | a reading whose `Idx` names no cached group fails the whole read with `IndexOutOfRange`, with no partial result |
| ReaderProperties.MissingGroupBlockFailsTheRead | Hwinfo.SharedMemory/SharedMemoryReader.cs:129-133 | a group block beyond the end of the mapping fails the group read with that view's failure |
| ReaderProperties.ZeroStrideFailsTheRead | Hwinfo.SharedMemory/SharedMemoryReader.cs:144-147 | a zero reading stride fails the read with "No bytes read" |
| Snapshot.FlattenLength | Hwinfo.SharedMemory/SharedMemoryReader.cs:87-90 | n records of one size laid end to end take n times that size |
| Snapshot.SnapshotGroups | Hwinfo.SharedMemory/SharedMemoryReader.cs:121-140 | the group section of a region laid out by its writer reads back as the writer's groups |
| Snapshot.SnapshotReadings | Hwinfo.SharedMemory/SharedMemoryReader.cs:81-119 | the reading section of such a region reads back as the writer's readings, each joined to the group its `Idx` names |
| Snapshot.SnapshotRoundTrip | Hwinfo.SharedMemory/SharedMemoryReader.cs:62-119 | reading a region laid out by its writer gives every reading joined to its group, in section order, and leaves the writer's groups in the cache unless the cache already had as many groups, in which case that cache is used as it is |

## Left out

- The named mutex and its 2000 ms wait (`SharedMemoryReader.cs:15`, `:17`, `:39`, `:47-57`) and `Dispose`. The model has no concurrency: a read sees one fixed snapshot of the region. Whether the wait timed out does not change what the source does next, and a failure to release the mutex is ignored.
- The operating-system calls `OpenExisting`, `CreateViewAccessor` and `CreateViewStream`. The mapping is a parameter, `Absent` or its bytes. The model ignores that a mapping's capacity is rounded up to whole pages.
- `GCHandle` pinning and `Marshal.PtrToStructure`. They are replaced by the explicit decoders, and the "Failed to parse" branch (`:153`) cannot happen for a value type.
- Reader.SharedMemoryReader.Read: requires (`Admissible`) that the reading stride is 0 or at least 316 bytes when there are readings, and that the group stride is 0 or at least 264 bytes when there are groups and the cache's length differs from the group count, that is whenever the group section is read (`:73`). With a smaller stride the source marshals a record from a buffer shorter than the record, and reads memory outside the buffer.
- Reader.SharedMemoryReader.ReadSensors: does not model strides of 2^31 or more. For those, `new byte[stride]` (`:84`, `:124`) throws before the loop, even when the section's count is 0. Were the buffer allocated, the unchecked `(int)` cast (`:95`, `:135`) would wrap to a negative count, which `Stream.Read` rejects. Other array allocations too large for the runtime are also not modelled.
- `double` fields are 64-bit patterns (`DoubleBits`). The record's equality compares these bit patterns, not as .NET compares `double`: .NET treats +0.0 and -0.0 as equal, and `double.Equals` treats NaN as equal to NaN.
- Bytes are a `newtype byte` over `int` (0 to 255) rather than `bv8`. The source never applies a bitwise operation to a byte; it only assembles integers and compares with zero. With integer arithmetic the little-endian proofs stay linear.
- Text fields are byte sequences. The ANSI code-page conversion that `CharSet.Ansi` applies after the zero byte is found is not modelled.
- The enumeration's underlying type is a signed `int`. The model reads the tag as unsigned, and tags are only compared with 0–8, so the two agree on every tag.
- `Benchmark/Benchmark.cs` and `Tests/UnitTests.cs` are not part of this model. The test calls a `ReadLocal` method that the library does not have.

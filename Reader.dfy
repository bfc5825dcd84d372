/** The shared-memory reader (Hwinfo.SharedMemory/SharedMemoryReader.cs).

    The named mapping is a parameter: `Absent` when no mapping of that name
    exists, otherwise its readable bytes. Each step the source performs on it
    (open, map a view, copy the view into a byte buffer, marshal the buffer)
    is a function here, the whole call is specified by `ReadResult`, and the
    `SharedMemoryReader` class implements it with the source's loops and its
    group cache. */
module Reader {

  import opened Bytes
  import opened ReadingElements
  import opened SharedMemoryElements

  datatype Region = Absent | Present(bytes: seq<byte>)

  /** Why a read stops: the exceptions the source lets escape, plus the one it catches. */
  datatype Failure =
    | FileNotFound                           // no mapping of that name exists
    | ViewOutOfRange(offset: int, size: int) // a view reaches past the end of the mapping
    | NoBytesRead                            // a zero-length buffer was handed to the marshaller
    | IndexOutOfRange(index: uint32)         // a reading names a group that is not cached

  datatype Outcome<+T> = Ok(value: T) | Fail(failure: Failure) {
    predicate IsFailure() { Fail? }
    function PropagateFailure<U>(): Outcome<U> requires Fail? { Fail(failure) }
    function Extract(): T requires Ok? { value }
  }

  // ------------------------------------------------------ access to the mapping

  /** The bytes of a view of `size` bytes at `offset`. */
  function View(bytes: seq<byte>, offset: nat, size: nat): (r: Outcome<seq<byte>>)
    ensures r.Ok? <==> offset + size <= |bytes|
    ensures r.Ok? ==> |r.value| == size
    ensures r.Fail? ==> r.failure == ViewOutOfRange(offset, size)
  {
    if offset + size <= |bytes| then Ok(bytes[offset..offset + size])
    else Fail(ViewOutOfRange(offset, size))
  }

  /** `offset + idx * stride` as the source computes it: in unchecked 32-bit
      unsigned arithmetic, so both the product and the sum wrap. */
  function BlockStart(offset: uint32, stride: uint32, idx: uint32): (start: uint32)
    ensures start as int == (offset as int + idx as int * stride as int) % TwoTo32
  {
    WrappedAddend(offset as int, idx as int * stride as int);
    ((offset as int + (idx as int * stride as int) % TwoTo32) % TwoTo32) as uint32
  }

  /** Without 32-bit overflow a block starts `idx` strides past the section offset. */
  lemma BlockStartNoWrap(offset: uint32, stride: uint32, idx: uint32)
    requires offset as int + idx as int * stride as int < TwoTo32
    ensures BlockStart(offset, stride, idx) as int == offset as int + idx as int * stride as int
  {
    var p := idx as int * stride as int;
    NonNegativeProduct(idx as int, stride as int);
    SmallModulus(p);
    SmallModulus(offset as int + p);
  }

  /** Reducing an addend modulo 2^32 first does not change the sum's remainder. */
  lemma WrappedAddend(a: int, p: int)
    ensures (a + p % TwoTo32) % TwoTo32 == (a + p) % TwoTo32
  {
    assert a + p == (a + p % TwoTo32) + TwoTo32 * (p / TwoTo32);
  }

  lemma NonNegativeProduct(a: nat, b: nat)
    ensures a * b >= 0
  {
  }

  lemma SmallModulus(x: int)
    requires 0 <= x < TwoTo32
    ensures x % TwoTo32 == x
  {
  }

  /** The guard in front of the marshaller, which reads `size` bytes from the
      start of the buffer. */
  function BufferToStruct(buffer: seq<byte>, size: nat): (r: Outcome<seq<byte>>)
    requires |buffer| == 0 || size <= |buffer|
    ensures r.Fail? <==> |buffer| == 0
    ensures r.Fail? ==> r.failure == NoBytesRead
    ensures r.Ok? ==> |r.value| == size && r.value <= buffer
  {
    if |buffer| == 0 then Fail(NoBytesRead) else Ok(buffer[..size])
  }

  /** One record as the loops fetch it: a view of one stride at `start`,
      copied out and handed to the marshaller, which keeps its first `size`
      bytes. */
  function RecordAt(bytes: seq<byte>, start: nat, stride: nat, size: nat): (r: Outcome<seq<byte>>)
    requires stride == 0 || size <= stride
    ensures r.Ok? <==> start + stride <= |bytes| && stride != 0
    ensures r.Ok? ==> r.value == bytes[start..start + size]
    ensures r.Fail? ==> r.failure == if start + stride > |bytes| then ViewOutOfRange(start, stride) else NoBytesRead
  {
    var block :- View(bytes, start, stride);
    BufferToStruct(block, size)
  }

  // ------------------------------------------------ running steps in order

  /** Steps run in order until one fails, as the source's loops do with an
      exception: the first failure, or the values of every step. */
  function Collect<T>(steps: seq<Outcome<T>>): (r: Outcome<seq<T>>)
    ensures r.Ok? ==> |r.value| == |steps|
  {
    if steps == [] then Ok([])
    else
      var init :- Collect(steps[..|steps| - 1]);
      var last :- steps[|steps| - 1];
      Ok(init + [last])
  }

  /** One more step: how the loops extend what they have collected. */
  lemma CollectStep<T>(steps: seq<Outcome<T>>, i: nat)
    requires i < |steps|
    ensures Collect(steps[..i + 1])
         == if Collect(steps[..i]).Fail? then Collect(steps[..i])
            else if steps[i].Fail? then Fail(steps[i].failure)
            else Ok(Collect(steps[..i]).value + [steps[i].value])
  {
    assert steps[..i + 1][..i] == steps[..i];
  }

  /** All steps succeed exactly when the whole run does, and then the run
      yields each step's value at the step's position. */
  lemma {:induction false} CollectAllOk<T>(steps: seq<Outcome<T>>)
    ensures Collect(steps).Ok? <==> forall k | 0 <= k < |steps| :: steps[k].Ok?
    ensures Collect(steps).Ok? ==> forall k | 0 <= k < |steps| :: Collect(steps).value[k] == steps[k].value
  {
    if steps != [] {
      var n := |steps| - 1;
      CollectAllOk(steps[..n]);
      assert forall k | 0 <= k < n :: steps[..n][k] == steps[k];
    }
  }

  /** Once the first k steps succeed and step k fails, the whole run fails
      with step k's failure: nothing after it is looked at. */
  lemma {:induction false} CollectFirstFailure<T>(steps: seq<Outcome<T>>, k: nat)
    requires k < |steps| && Collect(steps[..k]).Ok? && steps[k].Fail?
    ensures Collect(steps) == Fail(steps[k].failure)
  {
    if |steps| == k + 1 {
      assert steps[..|steps| - 1] == steps[..k];
    } else {
      var n := |steps| - 1;
      assert steps[..n][..k] == steps[..k];
      CollectFirstFailure(steps[..n], k);
    }
  }

  /** A failed run failed at some step whose predecessors all succeeded. */
  lemma {:induction false} CollectFailureIsFirst<T>(steps: seq<Outcome<T>>)
    requires Collect(steps).Fail?
    ensures exists k | 0 <= k < |steps| ::
              Collect(steps[..k]).Ok? && steps[k] == Fail(Collect(steps).failure)
  {
    var n := |steps| - 1;
    if Collect(steps[..n]).Fail? {
      CollectFailureIsFirst(steps[..n]);
      var k :| 0 <= k < n && Collect(steps[..n][..k]).Ok? && steps[..n][k] == Fail(Collect(steps[..n]).failure);
      assert steps[..n][..k] == steps[..k];
    } else {
      assert Collect(steps[..n]).Ok? && steps[n] == Fail(Collect(steps).failure);
    }
  }

  // --------------------------------------------------------- the group section

  /** A non-empty group section has a stride that is either 0 (rejected by
      `BufferToStruct`) or large enough to hold a group record. */
  predicate GroupStrideFits(h: SharedMemHeader)
  {
    || h.sensorSectionNumElements == 0
    || h.sensorSectionSizeOfElement == 0
    || h.sensorSectionSizeOfElement as nat >= SensorElementSize
  }

  predicate ReadingStrideFits(h: SharedMemHeader)
  {
    || h.readingElementsNumElements == 0
    || h.readingSectionSizeOfElement == 0
    || h.readingSectionSizeOfElement as nat >= ReadingElementSize
  }

  /** Group record `idx`, decoded from its stride-sized block. */
  function SensorElementAt(bytes: seq<byte>, h: SharedMemHeader, idx: nat): (r: Outcome<SensorElement>)
    requires GroupStrideFits(h) && idx < h.sensorSectionNumElements as nat
    ensures r.Fail? ==> !r.failure.FileNotFound? && !r.failure.IndexOutOfRange?
  {
    var stride := h.sensorSectionSizeOfElement;
    var raw :- RecordAt(bytes, BlockStart(h.sensorSectionOffset, stride, idx as uint32) as nat, stride as nat, SensorElementSize);
    Ok(DecodeSensorElement(raw))
  }

  /** One step per group record, in section order. */
  function SensorSteps(bytes: seq<byte>, h: SharedMemHeader): (steps: seq<Outcome<SensorElement>>)
    requires GroupStrideFits(h)
    ensures |steps| == h.sensorSectionNumElements as nat
    ensures forall idx | 0 <= idx < |steps| :: steps[idx] == SensorElementAt(bytes, h, idx)
  {
    seq(h.sensorSectionNumElements as nat,
        idx requires 0 <= idx < h.sensorSectionNumElements as nat => SensorElementAt(bytes, h, idx))
  }

  // ------------------------------------------------------- the reading section

  /** The public reading built from a reading record and its group record. */
  function Join(reading: ReadingElement, group: SensorElement): (s: SensorReading)
    ensures ReadingOf(s) == reading && GroupOf(s) == group
  {
    SensorReading(
      id := reading.id,
      index := reading.idx,
      sensorType := reading.sensorType,
      labelOrig := reading.labelOrig,
      labelUser := reading.labelUser,
      unit := reading.unit,
      value := reading.value,
      valueMin := reading.valueMin,
      valueMax := reading.valueMax,
      valueAvg := reading.valueAvg,
      groupId := group.id,
      groupInstanceId := group.instance,
      groupLabelUser := group.labelUser,
      groupLabelOrig := group.labelOrig)
  }

  /** The reading-record part of a public reading. */
  function ReadingOf(s: SensorReading): ReadingElement
  {
    ReadingElement(s.sensorType, s.index, s.id, s.labelOrig, s.labelUser, s.unit,
                   s.value, s.valueMin, s.valueMax, s.valueAvg)
  }

  /** The group-record part of a public reading. */
  function GroupOf(s: SensorReading): SensorElement
  {
    SensorElement(s.groupId, s.groupInstanceId, s.groupLabelOrig, s.groupLabelUser)
  }

  /** A public reading is nothing but its two parts: splitting it and joining
      the parts again gives it back, so two readings are equal exactly when
      both their parts are. */
  lemma JoinOfParts(s: SensorReading)
    ensures Join(ReadingOf(s), GroupOf(s)) == s
  {
  }

  lemma JoinInjective(r1: ReadingElement, g1: SensorElement, r2: ReadingElement, g2: SensorElement)
    ensures Join(r1, g1) == Join(r2, g2) <==> r1 == r2 && g1 == g2
  {
  }

  /** Reading `idx`, decoded from its stride-sized block and joined to the group it names. */
  function ReadingAt(bytes: seq<byte>, h: SharedMemHeader, groups: seq<SensorElement>, idx: nat)
    : (r: Outcome<SensorReading>)
    requires ReadingStrideFits(h) && idx < h.readingElementsNumElements as nat
    ensures r.Fail? ==> !r.failure.FileNotFound?
  {
    var stride := h.readingSectionSizeOfElement;
    var raw :- RecordAt(bytes, BlockStart(h.readingSectionOffset, stride, idx as uint32) as nat, stride as nat, ReadingElementSize);
    var reading := DecodeReadingElement(raw);
    if reading.idx as nat < |groups| then Ok(Join(reading, groups[reading.idx]))
    else Fail(IndexOutOfRange(reading.idx))
  }

  /** One step per reading record, in section order. */
  function ReadingSteps(bytes: seq<byte>, h: SharedMemHeader, groups: seq<SensorElement>)
    : (steps: seq<Outcome<SensorReading>>)
    requires ReadingStrideFits(h)
    ensures |steps| == h.readingElementsNumElements as nat
    ensures forall idx | 0 <= idx < |steps| :: steps[idx] == ReadingAt(bytes, h, groups, idx)
  {
    seq(h.readingElementsNumElements as nat,
        idx requires 0 <= idx < h.readingElementsNumElements as nat => ReadingAt(bytes, h, groups, idx))
  }

  // ------------------------------------------------------------ the whole call

  /** The header as `ReadSm` reads it: the first 44 bytes of the mapping. */
  function HeaderOf(bytes: seq<byte>): (h: SharedMemHeader)
    requires |bytes| >= HeaderSize
    ensures EncodeHeader(h) == bytes[..HeaderSize]
  {
    HeaderHasNoPadding(bytes[..HeaderSize]);
    DecodeHeader(bytes[..HeaderSize])
  }

  /** What the marshaller needs of the header, given the cache: each section
      that is read has a stride of 0 or at least its record's size. The group
      section is read only when the cache's length differs from its count. */
  predicate Admissible(region: Region, cache: seq<SensorElement>)
  {
    region.Present? && |region.bytes| >= HeaderSize ==>
      var h := HeaderOf(region.bytes);
      && ReadingStrideFits(h)
      && (|cache| != h.sensorSectionNumElements as nat ==> GroupStrideFits(h))
  }

  /** `ReadSm`: the readings and the new group cache, given the old cache. The
      groups are re-read only when the cache's length differs from the
      header's group count; a failure while re-reading them leaves the cache
      as it was. */
  function ReadSmResult(region: Region, cache: seq<SensorElement>)
    : (res: (Outcome<seq<SensorReading>>, seq<SensorElement>))
    requires Admissible(region, cache)
    ensures region.Absent? ==> res == (Fail(FileNotFound), cache)
    ensures res.1 == cache
            || (&& region.Present? && |region.bytes| >= HeaderSize
                && |cache| != HeaderOf(region.bytes).sensorSectionNumElements as nat
                && |res.1| == HeaderOf(region.bytes).sensorSectionNumElements as nat)
    ensures res.0.Ok? ==>
              && region.Present? && |region.bytes| >= HeaderSize
              && |res.1| == HeaderOf(region.bytes).sensorSectionNumElements as nat
              && |res.0.value| == HeaderOf(region.bytes).readingElementsNumElements as nat
  {
    match region
    case Absent => (Fail(FileNotFound), cache)
    case Present(bytes) =>
      match View(bytes, 0, HeaderSize)
      case Fail(f) => (Fail(f), cache)
      case Ok(headerBytes) =>
        var h := DecodeHeader(headerBytes);
        var groups :=
          if |cache| == h.sensorSectionNumElements as nat then Ok(cache)
          else Collect(SensorSteps(bytes, h));
        match groups
        case Fail(f) => (Fail(f), cache)
        case Ok(gs) => (Collect(ReadingSteps(bytes, h, gs)), gs)
  }

  /** `Read`: as `ReadSm`, except that a missing mapping empties the cache and
      gives no readings instead of a failure. */
  function ReadResult(region: Region, cache: seq<SensorElement>)
    : (res: (Outcome<seq<SensorReading>>, seq<SensorElement>))
    requires Admissible(region, cache)
    ensures res.0 != Fail(FileNotFound)
    ensures region.Absent? ==> res == (Ok([]), [])
    ensures ReadSmResult(region, cache).0 != Fail(FileNotFound) ==> res == ReadSmResult(region, cache)
  {
    var (r, c) := ReadSmResult(region, cache);
    if r == Fail(FileNotFound) then (Ok([]), []) else (r, c)
  }

  // ------------------------------------------------------------------ the class

  /** Maps a view of `buffer.Length` bytes at `offset` and copies it into the
      buffer, which the caller reuses from block to block. */
  method ReadBlock(bytes: seq<byte>, offset: nat, buffer: array<byte>) returns (r: Outcome<()>)
    modifies buffer
    ensures View(bytes, offset, buffer.Length) == if r.Ok? then Ok(buffer[..]) else Fail(r.failure)
    ensures r.Fail? ==> buffer[..] == old(buffer[..])
  {
    if offset + buffer.Length > |bytes| {
      return Fail(ViewOutOfRange(offset, buffer.Length));
    }
    var i := 0;
    while i < buffer.Length
      invariant i <= buffer.Length
      invariant buffer[..i] == bytes[offset..offset + i]
    {
      buffer[i] := bytes[offset + i];
      i := i + 1;
    }
    assert buffer[..] == buffer[..buffer.Length];
    return Ok(());
  }

  class SharedMemoryReader {

    /** `_sensors`: the group records of the last snapshot read. */
    var sensors: seq<SensorElement>

    constructor()
      ensures sensors == []
    {
      sensors := [];
    }

    method Read(region: Region) returns (r: Outcome<seq<SensorReading>>)
      requires Admissible(region, sensors)
      modifies this
      ensures (r, sensors) == ReadResult(region, old(sensors))
      ensures region.Absent? ==> r == Ok([]) && sensors == []
    {
      r := ReadSm(region);
      if r.Fail? && r.failure == FileNotFound {
        sensors := [];
        r := Ok([]);
      }
    }

    method ReadSm(region: Region) returns (r: Outcome<seq<SensorReading>>)
      requires Admissible(region, sensors)
      modifies this
      ensures (r, sensors) == ReadSmResult(region, old(sensors))
    {
      if region.Absent? {
        return Fail(FileNotFound);
      }
      var bytes := region.bytes;
      var headerBytes :- View(bytes, 0, HeaderSize);
      var sharedMem := DecodeHeader(headerBytes);
      if |sensors| != sharedMem.sensorSectionNumElements as nat {
        var groups :- ReadSensorsGroups(bytes, sharedMem);
        sensors := groups;
      }
      r := ReadSensors(bytes, sharedMem);
    }

    /** Fills a fresh reading array, one block at a time, through one reused byte buffer. */
    method ReadSensors(bytes: seq<byte>, sharedMem: SharedMemHeader) returns (r: Outcome<seq<SensorReading>>)
      requires ReadingStrideFits(sharedMem)
      ensures r == Collect(ReadingSteps(bytes, sharedMem, sensors))
    {
      var count := sharedMem.readingElementsNumElements as nat;
      var byteBuffer := new byte[sharedMem.readingSectionSizeOfElement];
      var readings := new SensorReading[count];
      ghost var steps := ReadingSteps(bytes, sharedMem, sensors);
      var idx := 0;
      while idx < count
        invariant idx <= count
        invariant byteBuffer.Length == sharedMem.readingSectionSizeOfElement as nat
        invariant Collect(steps[..idx]) == Ok(readings[..idx])
      {
        var reading := ReadReading(bytes, sharedMem, idx, byteBuffer);
        assert steps[idx] == reading;
        CollectStep(steps, idx);
        if reading.Fail? {
          CollectFirstFailure(steps, idx);
          return Fail(reading.failure);
        }
        readings[idx] := reading.value;
        assert readings[..idx + 1] == readings[..idx] + [readings[idx]];
        idx := idx + 1;
      }
      assert readings[..] == readings[..count] && steps == steps[..count];
      return Ok(readings[..]);
    }

    /** One iteration of `ReadSensors`: reading `idx`, through the reused buffer. */
    method ReadReading(bytes: seq<byte>, sharedMem: SharedMemHeader, idx: nat, byteBuffer: array<byte>)
      returns (r: Outcome<SensorReading>)
      requires ReadingStrideFits(sharedMem) && idx < sharedMem.readingElementsNumElements as nat
      requires byteBuffer.Length == sharedMem.readingSectionSizeOfElement as nat
      modifies byteBuffer
      ensures r == ReadingAt(bytes, sharedMem, sensors, idx)
    {
      var start := BlockStart(sharedMem.readingSectionOffset, sharedMem.readingSectionSizeOfElement, idx as uint32);
      var read := ReadBlock(bytes, start as nat, byteBuffer);
      if read.Fail? {
        return Fail(read.failure);
      }
      var raw :- BufferToStruct(byteBuffer[..], ReadingElementSize);
      var reading := DecodeReadingElement(raw);
      if reading.idx as nat >= |sensors| {
        return Fail(IndexOutOfRange(reading.idx));
      }
      var sensor := sensors[reading.idx];
      return Ok(Join(reading, sensor));
    }

    /** Fills a fresh group array, one block at a time, through one reused byte buffer. */
    method ReadSensorsGroups(bytes: seq<byte>, sharedMem: SharedMemHeader) returns (r: Outcome<seq<SensorElement>>)
      requires GroupStrideFits(sharedMem)
      ensures r == Collect(SensorSteps(bytes, sharedMem))
    {
      var count := sharedMem.sensorSectionNumElements as nat;
      var byteBuffer := new byte[sharedMem.sensorSectionSizeOfElement];
      var sensors := new SensorElement[count];
      ghost var steps := SensorSteps(bytes, sharedMem);
      var idx := 0;
      while idx < count
        invariant idx <= count
        invariant byteBuffer.Length == sharedMem.sensorSectionSizeOfElement as nat
        invariant Collect(steps[..idx]) == Ok(sensors[..idx])
      {
        var sensor := ReadSensorsGroup(bytes, sharedMem, idx, byteBuffer);
        assert steps[idx] == sensor;
        CollectStep(steps, idx);
        if sensor.Fail? {
          CollectFirstFailure(steps, idx);
          return Fail(sensor.failure);
        }
        sensors[idx] := sensor.value;
        assert sensors[..idx + 1] == sensors[..idx] + [sensors[idx]];
        idx := idx + 1;
      }
      assert sensors[..] == sensors[..count] && steps == steps[..count];
      return Ok(sensors[..]);
    }

    /** One iteration of `ReadSensorsGroups`: group record `idx`, through the reused buffer. */
    method ReadSensorsGroup(bytes: seq<byte>, sharedMem: SharedMemHeader, idx: nat, byteBuffer: array<byte>)
      returns (r: Outcome<SensorElement>)
      requires GroupStrideFits(sharedMem) && idx < sharedMem.sensorSectionNumElements as nat
      requires byteBuffer.Length == sharedMem.sensorSectionSizeOfElement as nat
      modifies byteBuffer
      ensures r == SensorElementAt(bytes, sharedMem, idx)
    {
      var start := BlockStart(sharedMem.sensorSectionOffset, sharedMem.sensorSectionSizeOfElement, idx as uint32);
      var read := ReadBlock(bytes, start as nat, byteBuffer);
      if read.Fail? {
        return Fail(read.failure);
      }
      var raw :- BufferToStruct(byteBuffer[..], SensorElementSize);
      return Ok(DecodeSensorElement(raw));
    }
  }
}

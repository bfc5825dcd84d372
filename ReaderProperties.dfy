/** What a read promises about the snapshot it returns and the group cache it
    keeps, stated over `ReadResult` / `ReadSmResult`, which the
    `SharedMemoryReader` class implements. */
module ReaderProperties {

  import opened Bytes
  import opened ReadingElements
  import opened SharedMemoryElements
  import opened Reader

  // --------------------------------------------------------- missing mapping

  /** A missing mapping is the one failure `Read` absorbs: no readings, and an
      emptied cache, whatever the cache held. */
  lemma MissingRegionReadsNothing(cache: seq<SensorElement>)
    ensures ReadSmResult(Absent, cache) == (Fail(FileNotFound), cache)
    ensures ReadResult(Absent, cache) == (Ok([]), [])
  {
  }

  /** Every other failure passes through `Read` unchanged: once the mapping
      exists nothing reports "not found", so `Read` is `ReadSm`. */
  lemma PresentRegionNeverReportsNotFound(bytes: seq<byte>, cache: seq<SensorElement>)
    requires Admissible(Present(bytes), cache)
    ensures ReadSmResult(Present(bytes), cache).0 != Fail(FileNotFound)
    ensures ReadResult(Present(bytes), cache) == ReadSmResult(Present(bytes), cache)
  {
    if |bytes| >= HeaderSize {
      var h := HeaderOf(bytes);
      assert View(bytes, 0, HeaderSize) == Ok(bytes[..HeaderSize]);
      if |cache| != h.sensorSectionNumElements as nat {
        var steps := SensorSteps(bytes, h);
        if Collect(steps).Fail? {
          CollectFailureIsFirst(steps);
          var k :| 0 <= k < |steps| && Collect(steps[..k]).Ok? && steps[k] == Fail(Collect(steps).failure);
          assert steps[k] == SensorElementAt(bytes, h, k);
        }
      }
      var gs := ReadSmResult(Present(bytes), cache).1;
      var steps := ReadingSteps(bytes, h, gs);
      if ReadSmResult(Present(bytes), cache).0 == Collect(steps) && Collect(steps).Fail? {
        CollectFailureIsFirst(steps);
        var k :| 0 <= k < |steps| && Collect(steps[..k]).Ok? && steps[k] == Fail(Collect(steps).failure);
        assert steps[k] == ReadingAt(bytes, h, gs, k);
      }
    }
  }

  /** A mapping too short for the header fails on the header's view, before
      anything else is read, and the cache is left alone. */
  lemma ShortRegionFailsOnHeader(bytes: seq<byte>, cache: seq<SensorElement>)
    requires |bytes| < HeaderSize
    ensures ReadResult(Present(bytes), cache) == (Fail(ViewOutOfRange(0, HeaderSize)), cache)
  {
  }

  // -------------------------------------------------------------- the cache

  /** The groups are re-read only when the cache's length differs from the
      header's group count. A cache of the right length is reused as it is;
      otherwise it is replaced by the freshly read groups as soon as they are
      read, even when a reading fails afterwards, and kept when they cannot
      be read. */
  lemma CacheUpdate(bytes: seq<byte>, cache: seq<SensorElement>)
    requires Admissible(Present(bytes), cache) && |bytes| >= HeaderSize
    ensures var h := HeaderOf(bytes);
            var (r, c) := ReadResult(Present(bytes), cache);
            && (|cache| == h.sensorSectionNumElements as nat ==>
                  c == cache && r == Collect(ReadingSteps(bytes, h, cache)))
            && (|cache| != h.sensorSectionNumElements as nat && Collect(SensorSteps(bytes, h)).Ok? ==>
                  c == Collect(SensorSteps(bytes, h)).value
                  && r == Collect(ReadingSteps(bytes, h, c)))
            && (|cache| != h.sensorSectionNumElements as nat && Collect(SensorSteps(bytes, h)).Fail? ==>
                  c == cache && r == Fail(Collect(SensorSteps(bytes, h)).failure))
  {
    PresentRegionNeverReportsNotFound(bytes, cache);
    assert View(bytes, 0, HeaderSize) == Ok(bytes[..HeaderSize]);
  }

  /** When the cache's length equals the group count the group section is
      never read, so its stride is unconstrained: only the reading stride has
      to fit, and the readings are joined to the cache as it is. */
  lemma CacheHitIgnoresGroupSection(bytes: seq<byte>, cache: seq<SensorElement>)
    requires |bytes| >= HeaderSize && |cache| == HeaderOf(bytes).sensorSectionNumElements as nat
    requires ReadingStrideFits(HeaderOf(bytes))
    ensures Admissible(Present(bytes), cache)
    ensures ReadResult(Present(bytes), cache) == (Collect(ReadingSteps(bytes, HeaderOf(bytes), cache)), cache)
  {
    CacheUpdate(bytes, cache);
  }

  /** After a successful read the cache holds exactly as many groups as the
      header announces, and the result exactly as many readings. */
  lemma SuccessfulReadCounts(bytes: seq<byte>, cache: seq<SensorElement>)
    requires Admissible(Present(bytes), cache)
    requires ReadResult(Present(bytes), cache).0.Ok?
    ensures |bytes| >= HeaderSize
    ensures var (r, c) := ReadResult(Present(bytes), cache);
            && |c| == HeaderOf(bytes).sensorSectionNumElements as nat
            && |r.value| == HeaderOf(bytes).readingElementsNumElements as nat
  {
    PresentRegionNeverReportsNotFound(bytes, cache);
    if |bytes| >= HeaderSize {
      CacheUpdate(bytes, cache);
    }
  }

  // ---------------------------------------------------------- the sections

  /** Group k of a successful group read is the record decoded from the first
      264 bytes of the block at `offset + k * stride`. */
  lemma GroupComesFromItsBlock(bytes: seq<byte>, h: SharedMemHeader, k: nat)
    requires GroupStrideFits(h) && k < h.sensorSectionNumElements as nat
    requires Collect(SensorSteps(bytes, h)).Ok?
    ensures var start := BlockStart(h.sensorSectionOffset, h.sensorSectionSizeOfElement, k as uint32) as nat;
            && start + SensorElementSize <= |bytes|
            && Collect(SensorSteps(bytes, h)).value[k] == DecodeSensorElement(bytes[start..start + SensorElementSize])
  {
    var steps := SensorSteps(bytes, h);
    CollectAllOk(steps);
    assert steps[k] == SensorElementAt(bytes, h, k);
  }

  /** Reading k of a successful reading read is the reading record decoded
      from the first 316 bytes of the block at `offset + k * stride`, joined to
      the group its `Idx` names: its ten reading fields are that record's and
      its four group fields are that group's. */
  lemma ReadingComesFromItsBlock(bytes: seq<byte>, h: SharedMemHeader, groups: seq<SensorElement>, k: nat)
    requires ReadingStrideFits(h) && k < h.readingElementsNumElements as nat
    requires Collect(ReadingSteps(bytes, h, groups)).Ok?
    ensures var start := BlockStart(h.readingSectionOffset, h.readingSectionSizeOfElement, k as uint32) as nat;
            var s := Collect(ReadingSteps(bytes, h, groups)).value[k];
            && start + ReadingElementSize <= |bytes|
            && ReadingOf(s) == DecodeReadingElement(bytes[start..start + ReadingElementSize])
            && s.index as nat < |groups|
            && GroupOf(s) == groups[s.index]
  {
    var steps := ReadingSteps(bytes, h, groups);
    CollectAllOk(steps);
    assert steps[k] == ReadingAt(bytes, h, groups, k);
  }

  /** A reading whose `Idx` names no cached group fails the whole read: the
      readings before it are dropped and those after it are never looked at. */
  lemma BadGroupIndexFailsTheRead(bytes: seq<byte>, h: SharedMemHeader, groups: seq<SensorElement>, k: nat)
    requires ReadingStrideFits(h) && k < h.readingElementsNumElements as nat
    requires Collect(ReadingSteps(bytes, h, groups)[..k]).Ok?
    requires h.readingSectionSizeOfElement != 0
    requires var start := BlockStart(h.readingSectionOffset, h.readingSectionSizeOfElement, k as uint32) as nat;
             && start + h.readingSectionSizeOfElement as nat <= |bytes|
             && DecodeReadingElement(bytes[start..start + ReadingElementSize]).idx as nat >= |groups|
    ensures var start := BlockStart(h.readingSectionOffset, h.readingSectionSizeOfElement, k as uint32) as nat;
            Collect(ReadingSteps(bytes, h, groups))
              == Fail(IndexOutOfRange(DecodeReadingElement(bytes[start..start + ReadingElementSize]).idx))
  {
    var steps := ReadingSteps(bytes, h, groups);
    var start := BlockStart(h.readingSectionOffset, h.readingSectionSizeOfElement, k as uint32) as nat;
    assert steps[k] == ReadingAt(bytes, h, groups, k);
    CollectFirstFailure(steps, k);
  }

  /** A block the mapping does not hold fails the section with the view's
      failure, whatever the blocks after it hold. */
  lemma MissingGroupBlockFailsTheRead(bytes: seq<byte>, h: SharedMemHeader, k: nat)
    requires GroupStrideFits(h) && k < h.sensorSectionNumElements as nat
    requires Collect(SensorSteps(bytes, h)[..k]).Ok?
    requires var start := BlockStart(h.sensorSectionOffset, h.sensorSectionSizeOfElement, k as uint32) as nat;
             start + h.sensorSectionSizeOfElement as nat > |bytes|
    ensures var start := BlockStart(h.sensorSectionOffset, h.sensorSectionSizeOfElement, k as uint32) as nat;
            Collect(SensorSteps(bytes, h))
              == Fail(ViewOutOfRange(start, h.sensorSectionSizeOfElement as nat))
  {
    var steps := SensorSteps(bytes, h);
    assert steps[k] == SensorElementAt(bytes, h, k);
    CollectFirstFailure(steps, k);
  }

  /** A zero stride hands the marshaller an empty buffer, which it rejects. */
  lemma ZeroStrideFailsTheRead(bytes: seq<byte>, h: SharedMemHeader, groups: seq<SensorElement>)
    requires ReadingStrideFits(h) && h.readingElementsNumElements != 0
    requires h.readingSectionSizeOfElement == 0 && h.readingSectionOffset as nat <= |bytes|
    ensures Collect(ReadingSteps(bytes, h, groups)) == Fail(NoBytesRead)
  {
    var steps := ReadingSteps(bytes, h, groups);
    assert steps[0] == ReadingAt(bytes, h, groups, 0);
    assert steps[..0] == [];
    CollectFirstFailure(steps, 0);
  }
}

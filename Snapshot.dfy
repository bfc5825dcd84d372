/** The region as its writer lays it out: the 44-byte header, then the group
    records back to back, then the reading records back to back. Reading such
    a region gives back every reading joined to the group it names. */
module Snapshot {

  import opened Bytes
  import opened ReadingElements
  import opened SharedMemoryElements
  import opened Reader
  import opened ReaderProperties

  // ---------------------------------------------------------- byte layout

  /** Blocks laid end to end. */
  function Flatten(blocks: seq<seq<byte>>): seq<byte>
  {
    if blocks == [] then [] else Flatten(blocks[..|blocks| - 1]) + blocks[|blocks| - 1]
  }

  predicate Uniform(blocks: seq<seq<byte>>, size: nat)
  {
    forall i | 0 <= i < |blocks| :: |blocks[i]| == size
  }

  lemma MulMonotone(a: nat, b: nat, c: nat)
    requires a <= b
    ensures a * c <= b * c
  {
  }

  lemma {:induction false} FlattenLength(blocks: seq<seq<byte>>, size: nat)
    requires Uniform(blocks, size)
    ensures |Flatten(blocks)| == |blocks| * size
  {
    if blocks != [] {
      var n := |blocks| - 1;
      FlattenLength(blocks[..n], size);
      assert (n + 1) * size == n * size + size;
    }
  }

  lemma {:induction false} FlattenAppend(x: seq<seq<byte>>, y: seq<seq<byte>>)
    ensures Flatten(x + y) == Flatten(x) + Flatten(y)
  {
    if y == [] {
      assert x + y == x;
    } else {
      var n := |y| - 1;
      assert (x + y)[..|x + y| - 1] == x + y[..n];
      FlattenAppend(x, y[..n]);
    }
  }

  lemma FlattenOne(block: seq<byte>)
    ensures Flatten([block]) == block
  {
    assert [block][..0] == [];
  }

  lemma SplitAt(blocks: seq<seq<byte>>, k: nat)
    requires k < |blocks|
    ensures blocks == (blocks[..k] + [blocks[k]]) + blocks[k + 1..]
  {
  }

  /** Block k of blocks laid end to end, between what precedes it and what follows it. */
  lemma FlattenAround(blocks: seq<seq<byte>>, k: nat)
    requires k < |blocks|
    ensures Flatten(blocks) == Flatten(blocks[..k]) + blocks[k] + Flatten(blocks[k + 1..])
  {
    var pre, one, post := blocks[..k], [blocks[k]], blocks[k + 1..];
    calc {
      Flatten(blocks);
      { SplitAt(blocks, k); }
      Flatten((pre + one) + post);
      { FlattenAppend(pre + one, post); }
      Flatten(pre + one) + Flatten(post);
      { FlattenAppend(pre, one); FlattenOne(blocks[k]); }
      Flatten(pre) + blocks[k] + Flatten(post);
    }
  }

  lemma SliceOfMiddle(a: seq<byte>, b: seq<byte>, c: seq<byte>, i: nat, j: nat)
    requires i <= j <= |b|
    ensures (a + b + c)[|a| + i..|a| + j] == b[i..j]
  {
    assert forall t | 0 <= t < j - i :: (a + b + c)[|a| + i..|a| + j][t] == b[i..j][t];
  }

  /** A block of the middle part of `a + blocks... + c`. */
  lemma MiddleBlock(a: seq<byte>, blocks: seq<seq<byte>>, c: seq<byte>, size: nat, k: nat)
    requires Uniform(blocks, size) && k < |blocks|
    ensures |a| + k * size + size <= |a + Flatten(blocks) + c|
    ensures (a + Flatten(blocks) + c)[|a| + k * size..|a| + k * size + size] == blocks[k]
  {
    var pre, post := Flatten(blocks[..k]), Flatten(blocks[k + 1..]);
    FlattenAround(blocks, k);
    FlattenLength(blocks[..k], size);
    assert a + Flatten(blocks) + c == (a + pre) + blocks[k] + (post + c);
    SliceOfMiddle(a + pre, blocks[k], post + c, 0, size);
  }

  /** A block of the last part of `a + b + blocks...`. */
  lemma LastBlock(a: seq<byte>, b: seq<byte>, blocks: seq<seq<byte>>, size: nat, k: nat)
    requires Uniform(blocks, size) && k < |blocks|
    ensures |a| + |b| + k * size + size <= |a + b + Flatten(blocks)|
    ensures (a + b + Flatten(blocks))[|a| + |b| + k * size..|a| + |b| + k * size + size] == blocks[k]
  {
    MiddleBlock(a + b, blocks, [], size, k);
    assert a + b + Flatten(blocks) + [] == a + b + Flatten(blocks);
  }

  // ------------------------------------------------------------ snapshots

  /** A header describing g groups and r readings packed right after it. */
  predicate Packs(h: SharedMemHeader, g: nat, r: nat)
  {
    && h.sensorSectionOffset as nat == HeaderSize
    && h.sensorSectionSizeOfElement as nat == SensorElementSize
    && h.sensorSectionNumElements as nat == g
    && h.readingSectionOffset as nat == HeaderSize + g * SensorElementSize
    && h.readingSectionSizeOfElement as nat == ReadingElementSize
    && h.readingElementsNumElements as nat == r
    && HeaderSize + g * SensorElementSize + r * ReadingElementSize <= TwoTo32
  }

  function GroupBlocks(groups: seq<SensorElement>): (blocks: seq<seq<byte>>)
    ensures |blocks| == |groups| && Uniform(blocks, SensorElementSize)
  {
    seq(|groups|, i requires 0 <= i < |groups| => EncodeSensorElement(groups[i]))
  }

  function ReadingBlocks(readings: seq<ReadingElement>): (blocks: seq<seq<byte>>)
    ensures |blocks| == |readings| && Uniform(blocks, ReadingElementSize)
  {
    seq(|readings|, i requires 0 <= i < |readings| => EncodeReadingElement(readings[i]))
  }

  function SnapshotBytes(h: SharedMemHeader, groups: seq<SensorElement>, readings: seq<ReadingElement>): seq<byte>
  {
    EncodeHeader(h) + Flatten(GroupBlocks(groups)) + Flatten(ReadingBlocks(readings))
  }

  /** What the writer's records make together: every reading joined to the
      group its `Idx` names. */
  function Joined(readings: seq<ReadingElement>, groups: seq<SensorElement>): seq<SensorReading>
    requires forall r <- readings :: r.idx as nat < |groups|
  {
    seq(|readings|, k requires 0 <= k < |readings| => Join(readings[k], groups[readings[k].idx]))
  }

  predicate WellFormedSnapshot(h: SharedMemHeader, groups: seq<SensorElement>, readings: seq<ReadingElement>)
  {
    && Packs(h, |groups|, |readings|)
    && (forall g <- groups :: WellFormedSensorElement(g))
    && (forall r <- readings :: WellFormedReadingElement(r) && r.idx as nat < |groups|)
  }

  lemma SnapshotHeader(h: SharedMemHeader, groups: seq<SensorElement>, readings: seq<ReadingElement>)
    ensures var bytes := SnapshotBytes(h, groups, readings);
            |bytes| >= HeaderSize && DecodeHeader(bytes[..HeaderSize]) == h
  {
    var bytes := SnapshotBytes(h, groups, readings);
    assert bytes[..HeaderSize] == EncodeHeader(h);
    HeaderRoundTrip(h);
  }

  /** Group k's block in a snapshot holds group k's encoding. */
  lemma SnapshotGroupBlock(h: SharedMemHeader, groups: seq<SensorElement>, readings: seq<ReadingElement>, k: nat)
    requires Packs(h, |groups|, |readings|) && k < |groups|
    ensures var start := BlockStart(h.sensorSectionOffset, h.sensorSectionSizeOfElement, k as uint32) as nat;
            && start + SensorElementSize <= |SnapshotBytes(h, groups, readings)|
            && SnapshotBytes(h, groups, readings)[start..start + SensorElementSize] == GroupBlocks(groups)[k]
  {
    RecordSizes();
    MiddleBlock(EncodeHeader(h), GroupBlocks(groups), Flatten(ReadingBlocks(readings)), SensorElementSize, k);
    MulMonotone(k + 1, |groups|, SensorElementSize);
    BlockStartNoWrap(h.sensorSectionOffset, h.sensorSectionSizeOfElement, k as uint32);
  }

  /** Reading k's block in a snapshot holds reading k's encoding. */
  lemma SnapshotReadingBlock(h: SharedMemHeader, groups: seq<SensorElement>, readings: seq<ReadingElement>, k: nat)
    requires Packs(h, |groups|, |readings|) && k < |readings|
    ensures var start := BlockStart(h.readingSectionOffset, h.readingSectionSizeOfElement, k as uint32) as nat;
            && start + ReadingElementSize <= |SnapshotBytes(h, groups, readings)|
            && SnapshotBytes(h, groups, readings)[start..start + ReadingElementSize] == ReadingBlocks(readings)[k]
  {
    RecordSizes();
    FlattenLength(GroupBlocks(groups), SensorElementSize);
    LastBlock(EncodeHeader(h), Flatten(GroupBlocks(groups)), ReadingBlocks(readings), ReadingElementSize, k);
    MulMonotone(k + 1, |readings|, ReadingElementSize);
    BlockStartNoWrap(h.readingSectionOffset, h.readingSectionSizeOfElement, k as uint32);
  }

  lemma SnapshotGroup(h: SharedMemHeader, groups: seq<SensorElement>, readings: seq<ReadingElement>, k: nat)
    requires WellFormedSnapshot(h, groups, readings) && k < |groups|
    ensures SensorElementAt(SnapshotBytes(h, groups, readings), h, k) == Ok(groups[k])
  {
    SnapshotGroupBlock(h, groups, readings, k);
    assert groups[k] in groups;
    SensorElementRoundTrip(groups[k]);
  }

  lemma SnapshotReading(h: SharedMemHeader, groups: seq<SensorElement>, readings: seq<ReadingElement>,
                        cache: seq<SensorElement>, k: nat)
    requires WellFormedSnapshot(h, groups, readings) && k < |readings| && |cache| == |groups|
    ensures ReadingAt(SnapshotBytes(h, groups, readings), h, cache, k)
         == Ok(Join(readings[k], cache[readings[k].idx]))
  {
    SnapshotReadingBlock(h, groups, readings, k);
    assert readings[k] in readings;
    ReadingElementRoundTrip(readings[k]);
  }

  lemma CollectAll<T>(steps: seq<Outcome<T>>, values: seq<T>)
    requires |steps| == |values| && forall k | 0 <= k < |steps| :: steps[k] == Ok(values[k])
    ensures Collect(steps) == Ok(values)
  {
    CollectAllOk(steps);
    assert Collect(steps).value == values;
  }

  /** The group section of a snapshot reads back as the writer's groups. */
  lemma SnapshotGroups(h: SharedMemHeader, groups: seq<SensorElement>, readings: seq<ReadingElement>)
    requires WellFormedSnapshot(h, groups, readings)
    ensures Collect(SensorSteps(SnapshotBytes(h, groups, readings), h)) == Ok(groups)
  {
    var steps := SensorSteps(SnapshotBytes(h, groups, readings), h);
    forall k | 0 <= k < |groups|
      ensures steps[k] == Ok(groups[k])
    {
      SnapshotGroup(h, groups, readings, k);
    }
    CollectAll(steps, groups);
  }

  /** The reading section of a snapshot reads back as the writer's readings,
      each joined to the group of the given list that its `Idx` names. */
  lemma SnapshotReadings(h: SharedMemHeader, groups: seq<SensorElement>, readings: seq<ReadingElement>,
                         cache: seq<SensorElement>)
    requires WellFormedSnapshot(h, groups, readings) && |cache| == |groups|
    ensures Collect(ReadingSteps(SnapshotBytes(h, groups, readings), h, cache)) == Ok(Joined(readings, cache))
  {
    var steps := ReadingSteps(SnapshotBytes(h, groups, readings), h, cache);
    forall k | 0 <= k < |readings|
      ensures steps[k] == Ok(Joined(readings, cache)[k])
    {
      SnapshotReading(h, groups, readings, cache, k);
    }
    CollectAll(steps, Joined(readings, cache));
  }

  /** Reading a region its writer filled gives every reading joined to its
      group, in section order. The groups come from the region unless the
      cache already holds as many groups as the header announces, in which
      case the cache is trusted as it is. */
  lemma SnapshotRoundTrip(h: SharedMemHeader, groups: seq<SensorElement>, readings: seq<ReadingElement>,
                          cache: seq<SensorElement>)
    requires WellFormedSnapshot(h, groups, readings)
    ensures var bytes := SnapshotBytes(h, groups, readings);
            var c := if |cache| == |groups| then cache else groups;
            && Admissible(Present(bytes), cache)
            && ReadResult(Present(bytes), cache) == (Ok(Joined(readings, c)), c)
  {
    var bytes := SnapshotBytes(h, groups, readings);
    var c := if |cache| == |groups| then cache else groups;
    SnapshotHeader(h, groups, readings);
    assert View(bytes, 0, HeaderSize) == Ok(bytes[..HeaderSize]);
    if |cache| != |groups| {
      SnapshotGroups(h, groups, readings);
    }
    SnapshotReadings(h, groups, readings, c);
    PresentRegionNeverReportsNotFound(bytes, cache);
  }
}

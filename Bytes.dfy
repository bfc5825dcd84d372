/** Byte-level building blocks of the shared-memory wire format: fixed-width
    integers stored little-endian, and fixed-width zero-terminated text fields. */
module Bytes {

  newtype byte = b: int | 0 <= b < 0x100
  newtype uint32 = x: int | 0 <= x < 0x1_0000_0000
  newtype uint64 = x: int | 0 <= x < 0x1_0000_0000_0000_0000
  newtype int64 = x: int | -0x8000_0000_0000_0000 <= x < 0x8000_0000_0000_0000

  const TwoTo32: int := 0x1_0000_0000
  const TwoTo63: int := 0x8000_0000_0000_0000
  const TwoTo64: int := 0x1_0000_0000_0000_0000

  /** A 4-byte unsigned field (`uint`), least significant byte first. */
  function U32(b: seq<byte>): (x: uint32)
    requires |b| == 4
    ensures x as int % 0x100 == b[0] as int
    ensures x as int / 0x100_0000 == b[3] as int
  {
    (b[0] as int + 0x100 * b[1] as int + 0x1_0000 * b[2] as int + 0x100_0000 * b[3] as int) as uint32
  }

  function U32Bytes(x: uint32): (b: seq<byte>)
    ensures |b| == 4
  {
    var x1 := x as int / 0x100;
    var x2 := x1 / 0x100;
    [(x as int % 0x100) as byte, (x1 % 0x100) as byte, (x2 % 0x100) as byte, (x2 / 0x100) as byte]
  }

  /** An 8-byte field kept as its raw bit pattern (a `double` is never
      interpreted): the low 4 bytes first. */
  function U64(b: seq<byte>): (x: uint64)
    requires |b| == 8
    ensures x as int % TwoTo32 == U32(b[..4]) as int
    ensures x as int / TwoTo32 == U32(b[4..]) as int
  {
    (U32(b[..4]) as int + TwoTo32 * U32(b[4..]) as int) as uint64
  }

  function U64Bytes(x: uint64): (b: seq<byte>)
    ensures |b| == 8
  {
    U32Bytes((x as int % TwoTo32) as uint32) + U32Bytes((x as int / TwoTo32) as uint32)
  }

  /** An 8-byte two's-complement field (`long`). */
  function I64(b: seq<byte>): (x: int64)
    requires |b| == 8
    ensures x as int % TwoTo64 == U64(b) as int
    ensures x < 0 <==> b[7] >= 0x80
  {
    var u := U64(b) as int;
    if u < TwoTo63 then u as int64 else (u - TwoTo64) as int64
  }

  function I64Bytes(x: int64): (b: seq<byte>)
    ensures |b| == 8
  {
    U64Bytes((if x < 0 then x as int + TwoTo64 else x as int) as uint64)
  }

  /** Splitting off the low byte of `lo + 0x100 * hi`. */
  lemma LowByte(lo: int, hi: int)
    requires 0 <= lo < 0x100
    ensures (lo + 0x100 * hi) % 0x100 == lo && (lo + 0x100 * hi) / 0x100 == hi
  {
  }

  lemma U32RoundTrip(x: uint32)
    ensures U32(U32Bytes(x)) == x
  {
    var x1 := x as int / 0x100;
    var x2 := x1 / 0x100;
    assert x as int == x as int % 0x100 + 0x100 * x1;
    assert x1 == x1 % 0x100 + 0x100 * x2;
    assert x2 == x2 % 0x100 + 0x100 * (x2 / 0x100);
  }

  lemma U32BytesRoundTrip(b: seq<byte>)
    requires |b| == 4
    ensures U32Bytes(U32(b)) == b
  {
    var b0, b1, b2, b3 := b[0] as int, b[1] as int, b[2] as int, b[3] as int;
    var x2 := b2 + 0x100 * b3;
    var x1 := b1 + 0x100 * x2;
    var x := b0 + 0x100 * x1;
    assert U32(b) as int == x;
    LowByte(b0, x1);
    LowByte(b1, x2);
    LowByte(b2, b3);
  }

  lemma U64RoundTrip(x: uint64)
    ensures U64(U64Bytes(x)) == x
  {
    var b := U64Bytes(x);
    var lo, hi := (x as int % TwoTo32) as uint32, (x as int / TwoTo32) as uint32;
    assert b[..4] == U32Bytes(lo) && b[4..] == U32Bytes(hi);
    U32RoundTrip(lo);
    U32RoundTrip(hi);
  }

  lemma U64BytesRoundTrip(b: seq<byte>)
    requires |b| == 8
    ensures U64Bytes(U64(b)) == b
  {
    var lo, hi := U32(b[..4]), U32(b[4..]);
    assert U64(b) as int % TwoTo32 == lo as int && U64(b) as int / TwoTo32 == hi as int;
    U32BytesRoundTrip(b[..4]);
    U32BytesRoundTrip(b[4..]);
    assert b == b[..4] + b[4..];
  }

  lemma I64RoundTrip(x: int64)
    ensures I64(I64Bytes(x)) == x
  {
    U64RoundTrip((if x < 0 then x as int + TwoTo64 else x as int) as uint64);
  }

  lemma I64BytesRoundTrip(b: seq<byte>)
    requires |b| == 8
    ensures I64Bytes(I64(b)) == b
  {
    U64BytesRoundTrip(b);
  }

  /** The text of a fixed-width field: the bytes before the first zero byte of
      the window, or the whole window when it holds no zero byte. */
  function FieldText(window: seq<byte>): (s: seq<byte>)
    ensures s <= window
    ensures 0 !in s
    ensures |s| < |window| ==> window[|s|] == 0
  {
    if window == [] || window[0] == 0 then [] else [window[0]] + FieldText(window[1..])
  }

  /** The n-byte window that stores text s: s followed by zero bytes, or the
      first n bytes of s when s does not fit. */
  function FieldBytes(s: seq<byte>, n: nat): (window: seq<byte>)
    ensures |window| == n
    ensures |s| <= n ==> s <= window && forall i | |s| <= i < n :: window[i] == 0
  {
    if |s| >= n then s[..n] else s + seq(n - |s|, _ => 0)
  }

  /** Text that fits its field and holds no zero byte. */
  predicate FitsField(s: seq<byte>, n: nat)
  {
    |s| <= n && 0 !in s
  }

  lemma {:induction false} FieldTextOfPadded(s: seq<byte>, k: nat)
    requires 0 !in s
    ensures FieldText(s + seq(k, _ => 0)) == s
  {
    var w := s + seq(k, _ => 0);
    if s != [] {
      assert w[1..] == s[1..] + seq(k, _ => 0);
      FieldTextOfPadded(s[1..], k);
    }
  }

  lemma FieldTextRoundTrip(s: seq<byte>, n: nat)
    requires FitsField(s, n)
    ensures FieldText(FieldBytes(s, n)) == s
  {
    if |s| == n {
      assert s + seq(0, _ => 0) == s;
    }
    FieldTextOfPadded(s, n - |s|);
  }
}

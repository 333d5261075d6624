/** Bytes, positioned reads from an in-memory file, and the little-endian
    integer layouts of the format (Go's encoding/binary.LittleEndian). */
module Bytes {
  import opened Results

  type byte = b: int | 0 <= b < 0x100

  const TWO_16: int := 0x1_0000
  const TWO_32: int := 0x1_0000_0000
  const TWO_64: int := 0x1_0000_0000_0000_0000

  /** A positioned read of `n` bytes at offset `off`. A read that would run past
      the end of the file fails (the end-of-file outcome of os.File.ReadAt); an
      empty read always succeeds, as ReadAt does for an empty buffer. */
  function ReadAt(file: seq<byte>, off: nat, n: nat): (r: Option<seq<byte>>)
    ensures r.Some? <==> n == 0 || off + n <= |file|
    ensures r.Some? ==> |r.value| == n
    ensures r.Some? && n > 0 ==> r.value == file[off..off + n]
  {
    if n == 0 then Some([])
    else if off + n <= |file| then Some(file[off..off + n])
    else None
  }

  /** Index of the first zero byte, or |bs| when there is none (bytes.IndexByte,
      with the "not found" answer replaced by the length). */
  function IndexOfNul(bs: seq<byte>): (k: nat)
    ensures k <= |bs|
    ensures k < |bs| ==> bs[k] == 0
    ensures forall i :: 0 <= i < k ==> bs[i] != 0
  {
    if |bs| == 0 || bs[0] == 0 then 0 else 1 + IndexOfNul(bs[1..])
  }

  function Uint16(b: seq<byte>): (x: nat)
    requires |b| == 2
    ensures x < TWO_16
  {
    b[0] as int + 0x100 * (b[1] as int)
  }

  function Uint32(b: seq<byte>): (x: nat)
    requires |b| == 4
    ensures x < TWO_32
  {
    b[0] as int + 0x100 * (b[1] as int) + 0x1_0000 * (b[2] as int) + 0x100_0000 * (b[3] as int)
  }

  function Uint64(b: seq<byte>): (x: nat)
    requires |b| == 8
    ensures x < TWO_64
  {
    Uint32(b[..4]) + TWO_32 * Uint32(b[4..])
  }

  function PutUint16(x: nat): (b: seq<byte>)
    requires x < TWO_16
    ensures |b| == 2
  {
    [x % 0x100, x / 0x100]
  }

  function PutUint32(x: nat): (b: seq<byte>)
    requires x < TWO_32
    ensures |b| == 4
  {
    var r1 := x / 0x100;
    var r2 := r1 / 0x100;
    [x % 0x100, r1 % 0x100, r2 % 0x100, r2 / 0x100]
  }

  function PutUint64(x: nat): (b: seq<byte>)
    requires x < TWO_64
    ensures |b| == 8
  {
    PutUint32(x % TWO_32) + PutUint32(x / TWO_32)
  }

  /** The two's-complement reading of a 32-bit pattern: the unique integer in
      the int32 range that is congruent to the pattern modulo 2^32. */
  function Int32(u: nat): (i: int)
    requires u < TWO_32
    ensures -0x8000_0000 <= i < 0x8000_0000
    ensures i % TWO_32 == u
  {
    if u < 0x8000_0000 then u else u - TWO_32
  }

  /** The two's-complement reading of a 64-bit pattern. */
  function Int64(u: nat): (i: int)
    requires u < TWO_64
    ensures -0x8000_0000_0000_0000 <= i < 0x8000_0000_0000_0000
    ensures i % TWO_64 == u
  {
    if u < 0x8000_0000_0000_0000 then u else u - TWO_64
  }

  lemma Uint16RoundTrip(x: nat)
    requires x < TWO_16
    ensures Uint16(PutUint16(x)) == x
  {
  }

  lemma PutUint16RoundTrip(b: seq<byte>)
    requires |b| == 2
    ensures PutUint16(Uint16(b)) == b
  {
  }

  lemma Uint32RoundTrip(x: nat)
    requires x < TWO_32
    ensures Uint32(PutUint32(x)) == x
  {
  }

  lemma PutUint32RoundTrip(b: seq<byte>)
    requires |b| == 4
    ensures PutUint32(Uint32(b)) == b
  {
    var x := Uint32(b);
    var r1 := b[1] as int + 0x100 * (b[2] as int) + 0x1_0000 * (b[3] as int);
    var r2 := b[2] as int + 0x100 * (b[3] as int);
    assert x == b[0] as int + 0x100 * r1;
    assert x / 0x100 == r1 && x % 0x100 == b[0];
    assert r1 == b[1] as int + 0x100 * r2;
    assert r1 / 0x100 == r2 && r1 % 0x100 == b[1];
    assert r2 / 0x100 == b[3] && r2 % 0x100 == b[2];
  }

  lemma Uint64RoundTrip(x: nat)
    requires x < TWO_64
    ensures Uint64(PutUint64(x)) == x
  {
    var b := PutUint64(x);
    assert b[..4] == PutUint32(x % TWO_32);
    assert b[4..] == PutUint32(x / TWO_32);
    Uint32RoundTrip(x % TWO_32);
    Uint32RoundTrip(x / TWO_32);
  }

  lemma PutUint64RoundTrip(b: seq<byte>)
    requires |b| == 8
    ensures PutUint64(Uint64(b)) == b
  {
    var lo, hi := Uint32(b[..4]), Uint32(b[4..]);
    var x := Uint64(b);
    assert x % TWO_32 == lo && x / TWO_32 == hi;
    PutUint32RoundTrip(b[..4]);
    PutUint32RoundTrip(b[4..]);
    assert b == b[..4] + b[4..];
  }

  /** Encoding a signed 32-bit integer as its two's-complement pattern and
      reading it back gives the integer. */
  lemma Int32RoundTrip(i: int)
    requires -0x8000_0000 <= i < 0x8000_0000
    ensures Int32(Uint32(PutUint32(i % TWO_32))) == i
  {
    Uint32RoundTrip(i % TWO_32);
  }

  lemma Int64RoundTrip(i: int)
    requires -0x8000_0000_0000_0000 <= i < 0x8000_0000_0000_0000
    ensures Int64(Uint64(PutUint64(i % TWO_64))) == i
  {
    Uint64RoundTrip(i % TWO_64);
  }

  // ---------------------------------------------------------------------------
  // Layouts of consecutive spans

  /** The spans laid end to end. */
  function Concat(chunks: seq<seq<byte>>): (bs: seq<byte>)
    ensures chunks != [] ==> |bs| >= |chunks[0]| && bs[..|chunks[0]|] == chunks[0]
    decreases |chunks|
  {
    if chunks == [] then [] else chunks[0] + Concat(chunks[1..])
  }

  lemma {:induction false} ConcatAppend(a: seq<seq<byte>>, b: seq<seq<byte>>)
    ensures Concat(a + b) == Concat(a) + Concat(b)
    decreases |a|
  {
    if a == [] {
      assert a + b == b;
    } else {
      assert (a + b)[1..] == a[1..] + b;
      ConcatAppend(a[1..], b);
    }
  }

  /** Span `j` sits right after the spans before it. */
  lemma ConcatSlice(chunks: seq<seq<byte>>, j: nat)
    requires j < |chunks|
    ensures var s := |Concat(chunks[..j])|;
      s + |chunks[j]| <= |Concat(chunks)| && Concat(chunks)[s..s + |chunks[j]|] == chunks[j]
  {
    assert chunks == chunks[..j] + ([chunks[j]] + chunks[j + 1..]);
    ConcatAppend(chunks[..j], [chunks[j]] + chunks[j + 1..]);
    assert ([chunks[j]] + chunks[j + 1..])[1..] == chunks[j + 1..];
  }

  /** Spans of one width `w`: span `j` starts at w·j. */
  lemma {:induction false} ConcatUniform(chunks: seq<seq<byte>>, w: nat)
    requires forall i :: 0 <= i < |chunks| ==> |chunks[i]| == w
    ensures |Concat(chunks)| == w * |chunks|
    decreases |chunks|
  {
    if chunks != [] {
      ConcatUniform(chunks[1..], w);
    }
  }
}

/** Little-endian integers and the RIFF/WAVE layout (chapters 2 and 3 of the Multimedia
    Programming Interface and Data Specifications 1.0). */
module WavFormat {
  import opened Wrappers

  type Byte = x: int | 0 <= x < 256
  type Int16 = x: int | -0x8000 <= x < 0x8000
  type Int32 = x: int | -0x8000_0000 <= x < 0x8000_0000

  const RIFF: Int32 := 0x46464952
  const WAVE: Int32 := 0x45564157
  const JUNK: Int32 := 0x4b4e554a
  const FMT: Int32 := 0x20746d66
  const DATA: Int32 := 0x61746164

  // ---- Little-endian two's complement ----

  /** The bound 2^(8n - 1) of n-byte two's complement. */
  function Bound(n: nat): (r: int)
    requires n > 0
    ensures r > 0
  {
    if n == 1 then 0x80 else 0x100 * Bound(n - 1)
  }

  /** Byte i of x, least significant first. */
  function ByteOf(x: int, i: nat): Byte
    decreases i
  {
    if i == 0 then x % 0x100 else ByteOf(x / 0x100, i - 1)
  }

  function Encode(x: int, n: nat): (b: seq<Byte>)
    ensures |b| == n
  {
    seq(n, i requires 0 <= i < n => ByteOf(x, i))
  }

  /** The n-byte integer that stands at p. */
  function Decode(b: seq<Byte>, p: nat, n: nat): (x: int)
    requires n > 0 && p + n <= |b|
    ensures -Bound(n) <= x < Bound(n)
    decreases n
  {
    if n == 1 then Signed8(b[p]) else Pair(b[p], Decode(b, p + 1, n - 1))
  }

  function Pair(low: int, high: int): int {
    low + 0x100 * high
  }

  function Signed8(x: int): int {
    if x < 0x80 then x else x - 0x100
  }

  lemma Bounds()
    ensures Bound(2) == 0x8000 && Bound(4) == 0x8000_0000
  {
    assert Bound(3) == 0x80_0000;
  }

  lemma PairParts(x: int, low: int, high: int)
    requires 0 <= low < 0x100
    ensures Pair(low, high) == x <==> low == x % 0x100 && high == x / 0x100
  {
  }

  /** The bytes of x stand at p exactly when x is the integer there. */
  lemma {:induction false} Coded(b: seq<Byte>, p: nat, x: int, n: nat)
    requires n > 0 && p + n <= |b| && -Bound(n) <= x < Bound(n)
    ensures b[p..p + n] == Encode(x, n) <==> Decode(b, p, n) == x
    decreases n
  {
    var s, e := b[p..p + n], Encode(x, n);
    assert s[0] == b[p] && e[0] == x % 0x100;
    if n == 1 {
      assert s == e <==> s[0] == e[0];
    } else {
      Coded(b, p + 1, x / 0x100, n - 1);
      PairParts(x, b[p], Decode(b, p + 1, n - 1));
      assert s[1..] == b[p + 1..p + n];
      assert e[1..] == Encode(x / 0x100, n - 1);
      assert s == [s[0]] + s[1..] && e == [e[0]] + e[1..];
    }
  }

  function Encode16(x: Int16): (b: seq<Byte>)
    ensures |b| == 2
  {
    Encode(x, 2)
  }

  function Encode32(x: Int32): (b: seq<Byte>)
    ensures |b| == 4
  {
    Encode(x, 4)
  }

  function I16(b: seq<Byte>, p: nat): Int16
    requires p + 2 <= |b|
  {
    Bounds();
    Decode(b, p, 2)
  }

  function I32(b: seq<Byte>, p: nat): Int32
    requires p + 4 <= |b|
  {
    Bounds();
    Decode(b, p, 4)
  }

  // ---- The arithmetic of the header fields ----

  /** Conversion to int32_t, and int32_t arithmetic that wraps around. */
  function Wrap32(x: int): Int32 {
    var u := x % 0x1_0000_0000;
    if u < 0x8000_0000 then u else u - 0x1_0000_0000
  }

  /** Conversion to int8_t. */
  function ToInt8(x: int): (r: int)
    ensures -0x80 <= r < 0x80
  {
    var u := x % 0x100;
    if u < 0x80 then u else u - 0x100
  }

  /** Division that truncates toward zero. */
  function DivideBy8(x: int): int {
    if x < 0 then -((-x) / 8) else x / 8
  }

  function ByteRate(rate: Int32, channels: Int16, bits: Int16): int {
    DivideBy8(Wrap32(Wrap32(rate * channels) * bits))
  }

  function BlockAlign(channels: Int16, bits: Int16): int {
    DivideBy8(channels * bits)
  }

  // ---- Layout ----

  /** The chunks the reader skips. */
  datatype Chunks = NoChunks | Chunk(id: Int32, body: seq<Byte>, tail: Chunks)

  /** A WAVE file: an optional JUNK chunk before the format, a 16- or 18-byte PCM format chunk,
      any chunks before the data, the data, and whatever follows it. */
  datatype Layout = Layout(riffSize: Int32, junk: Option<seq<Byte>>, extended: bool, rate: Int32,
    channels: Int16, skipped: Chunks, data: seq<Byte>, rest: seq<Byte>)

  ghost predicate ValidLayout(w: Layout) {
    && (w.junk.Some? ==> |w.junk.value| < 0x8000_0000)
    && -0x4000 <= w.channels < 0x4000
    && ValidChunks(w.skipped)
    && |w.data| < 0x8000_0000 && |w.data| % 2 == 0
  }

  ghost predicate ValidChunks(chunks: Chunks) {
    chunks.Chunk? ==> chunks.id != DATA && |chunks.body| < 0x8000_0000 && ValidChunks(chunks.tail)
  }

  function ChunkBytes(id: Int32, body: seq<Byte>): seq<Byte>
    requires |body| < 0x8000_0000
  {
    Encode32(id) + Encode32(|body|) + body
  }

  ghost function SkippedBytes(chunks: Chunks): seq<Byte>
    requires ValidChunks(chunks)
  {
    match chunks
    case NoChunks => []
    case Chunk(id, body, tail) => ChunkBytes(id, body) + SkippedBytes(tail)
  }

  function FormatBody(extended: bool, rate: Int32, channels: Int16): (b: seq<Byte>)
    requires -0x4000 <= channels < 0x4000
    ensures |b| == if extended then 18 else 16
  {
    Encode16(1) + Encode16(channels) + Encode32(rate) + Encode32(ByteRate(rate, channels, 16)) +
    Encode16(BlockAlign(channels, 16)) + Encode16(16) + if extended then Encode16(0) else []
  }

  function HeaderBytes(riffSize: Int32, junk: Option<seq<Byte>>): seq<Byte>
    requires junk.Some? ==> |junk.value| < 0x8000_0000
  {
    Encode32(RIFF) + Encode32(riffSize) + Encode32(WAVE) +
    if junk.Some? then ChunkBytes(JUNK, junk.value) else []
  }

  ghost function Bytes(w: Layout): seq<Byte>
    requires ValidLayout(w)
  {
    HeaderBytes(w.riffSize, w.junk) +
    ChunkBytes(FMT, FormatBody(w.extended, w.rate, w.channels)) +
    (SkippedBytes(w.skipped) + (ChunkBytes(DATA, w.data) + w.rest))
  }
}

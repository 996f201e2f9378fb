/** The reader and writer as they run: a stream position that moves, header fields that are
    overwritten one by one, and sample buffers filled in loops. */
module WavIo {
  import opened WavFormat
  import opened Wav
  import opened Wrappers

  /** A binary input stream over the bytes of a file.  A read past the end takes what is left and
      fails; once failed, every operation does nothing. */
  class InputStream {
    const bytes: seq<Byte>
    var pos: nat
    var good: bool

    constructor (bytes: seq<Byte>)
      ensures this.bytes == bytes && pos == 0 && good
    {
      this.bytes, pos, good := bytes, 0, true;
    }

    /** Read into a variable that holds the bytes of before; on a short read the tail keeps them. */
    method Read(before: seq<Byte>) returns (after: seq<Byte>)
      modifies this
      ensures |after| == |before|
      ensures good == (old(good) && (before == [] || old(pos) + |before| <= |bytes|))
      ensures pos == old(pos) + if !old(good) then 0 else if good then |before| else |Rest(old(pos))|
      ensures good && before != [] ==> after == bytes[old(pos)..pos]
      ensures !old(good) ==> after == before
      ensures old(good) && !good ==>
        |Rest(old(pos))| < |before| && after == Rest(old(pos)) + before[|Rest(old(pos))|..]
    {
      if !good || before == [] {
        after := before;
      } else if pos + |before| <= |bytes| {
        after := bytes[pos..pos + |before|];
        pos := pos + |before|;
      } else {
        var rest := Rest(pos);
        after := rest + before[|rest|..];
        pos := pos + |rest|;
        good := false;
      }
    }

    /** What a read at p can still get. */
    function Rest(p: nat): seq<Byte> {
      if p <= |bytes| then bytes[p..] else []
    }

    method Read32(before: Int32) returns (x: Int32)
      modifies this
      ensures good == (old(good) && old(pos) + 4 <= |bytes|)
      ensures good ==> pos == old(pos) + 4 && x == I32(bytes, old(pos))
    {
      var b := Read(Encode32(before));
      x := I32(b, 0);
    }

    method Read16(before: Int16) returns (x: Int16)
      modifies this
      ensures good == (old(good) && old(pos) + 2 <= |bytes|)
      ensures good ==> pos == old(pos) + 2 && x == I16(bytes, old(pos))
    {
      var b := Read(Encode16(before));
      x := I16(b, 0);
    }

    /** Seek relative to the position: beyond the end is allowed, before the start fails. */
    method Seek(n: Int32)
      modifies this
      ensures good == (old(good) && old(pos) + n >= 0)
      ensures pos == if good then old(pos) + n else old(pos)
    {
      if good {
        if pos + n >= 0 {
          pos := pos + n;
        } else {
          good := false;
        }
      }
    }
  }

  /** The id and size of the chunk at p have just been read. */
  ghost predicate AtChunkHeader(input: InputStream, p: nat, id: Int32, size: Int32)
    reads input
  {
    input.pos == p + 8 <= |input.bytes| && id == I32(input.bytes, p) && size == I32(input.bytes, p + 4)
  }

  method ReadChunkHeader(input: InputStream, oldId: Int32, oldSize: Int32, ghost p: nat)
    returns (id: Int32, size: Int32)
    requires input.good ==> input.pos == p
    modifies input
    ensures input.good <==> old(input.good) && p + 8 <= |input.bytes|
    ensures input.good ==> AtChunkHeader(input, p, id, size)
  {
    id := input.Read32(oldId);
    size := input.Read32(oldSize);
  }

  /** The chunk walk, where it ends.  The chunk header read last stands at header. */
  method SeekToDataChunk(input: InputStream, id: Int32, size: Int32, ghost header: nat) returns (newSize: Int32)
    requires input.good ==> AtChunkHeader(input, header, id, size)
    requires !input.good ==> header + 8 > |input.bytes|
    requires FindData(input.bytes, header) != NeverEnds
    modifies input
    ensures FindData(input.bytes, header) == if input.good then Found(input.pos, newSize) else NotFound
  {
    var subchunk2Id := id;
    newSize := size;
    ghost var p: nat := header;
    ghost var steps: nat :| EndsWithin(input.bytes, header, steps);
    FindStep(input.bytes, p);
    while input.good && subchunk2Id != DATA
      invariant input.good ==> AtChunkHeader(input, p, subchunk2Id, newSize) && EndsWithin(input.bytes, p, steps)
      invariant FindData(input.bytes, header) == if input.good then FindData(input.bytes, p) else NotFound
      decreases input.good, steps
    {
      subchunk2Id, newSize, p := NextChunk(input, subchunk2Id, newSize, p);
      steps := steps - 1;
    }
    FindStep(input.bytes, p);
  }

  /** One round of the walk, from the header at p to the one at q. */
  method NextChunk(input: InputStream, id: Int32, size: Int32, ghost p: nat)
    returns (nextId: Int32, nextSize: Int32, ghost q: nat)
    requires input.good && AtChunkHeader(input, p, id, size) && id != DATA
    modifies input
    ensures input.good ==> Next(input.bytes, p) == q && AtChunkHeader(input, q, nextId, nextSize)
    ensures FindData(input.bytes, p) == if input.good then FindData(input.bytes, q) else NotFound
  {
    FindStep(input.bytes, p);
    input.Seek(size);
    q := if input.good then input.pos else p;
    FindStep(input.bytes, q);
    nextId, nextSize := ReadChunkHeader(input, id, size, q);
  }

  /** The RIFF header and, past an optional JUNK chunk, the next chunk header. */
  method ReadStart(input: InputStream) returns (ok: bool, id: Int32, size: Int32)
    requires input.pos == 0 && input.good
    modifies input
    ensures ok && input.good <==> FormatStart(input.bytes).Found?
    ensures ok && input.good ==>
      8 <= input.pos && FormatStart(input.bytes) == Found(input.pos - 8, size) &&
      AtChunkHeader(input, input.pos - 8, id, size)
  {
    ok, id, size := false, 0, 0;
    var chunkId := input.Read32(0);
    if chunkId != RIFF {
      return;
    }
    var chunkSize := input.Read32(0);
    var format := input.Read32(0);
    if format != WAVE {
      return;
    }
    ok := true;
    id, size := ReadChunkHeader(input, id, size, input.pos);
    if id == JUNK {
      input.Seek(size);
      id, size := ReadChunkHeader(input, id, size, input.pos);
    }
  }

  /** The PCM format chunk, whose header stands at h. */
  method ReadFmt(input: InputStream, id: Int32, size: Int32, ghost h: nat)
    returns (ok: bool, rate: Int32, channels: Int16)
    requires input.good && AtChunkHeader(input, h, id, size)
    modifies input
    ensures ok && input.good <==> ReadFormat(input.bytes, h).Some?
    ensures ok && input.good ==> ReadFormat(input.bytes, h) == Some(Format(rate, channels, input.pos))
  {
    ok, rate, channels := false, 0, 0;
    if id != FMT {
      return;
    }
    if size != 16 && size != 18 {
      return;
    }
    var audioFormat := input.Read16(0);
    if audioFormat != 1 {
      return;
    }
    channels := input.Read16(0);
    rate := input.Read32(0);
    var byteRate := input.Read32(0);
    var blockAlign := input.Read16(0);
    var bitsPerSample := input.Read16(0);
    if byteRate != ByteRate(rate, channels, bitsPerSample) {
      return;
    }
    if blockAlign != BlockAlign(channels, bitsPerSample) {
      return;
    }
    if bitsPerSample != 16 {
      return;
    }
    if size == 18 {
      var extraSize := input.Read16(-1);
      if extraSize != 0 {
        return;
      }
    }
    ok := true;
  }

  /** The data, through a buffer of size / 2 16-bit samples and back to bytes.  The half of a negative
      size below -1 is no size for a buffer, and a read of -1 bytes fails. */
  method ReadSamples(input: InputStream, rate: Int32, channels: Int16, size: Int32) returns (r: WaveResult)
    requires input.good && input.pos <= |input.bytes|
    modifies input
    ensures r == ReadSampleData(input.bytes, rate, channels, old(input.pos), size)
  {
    if size <= -2 {
      return Throws;
    }
    if size == -1 {
      return Rejected;
    }
    var buffer := input.Read(seq(size, _ => 0));
    if !input.good {
      return Rejected;
    }
    if size % 2 == 1 {
      return Undefined;
    }
    var samples := SamplesOf(buffer);
    var ans := BytesOf(samples);
    Halves(buffer);
    return Ok(rate, ToInt8(channels), ans);
  }

  /** The 16-bit samples stored in a buffer on a little-endian machine. */
  function SamplesOf(b: seq<Byte>): (s: seq<Int16>)
    requires |b| % 2 == 0
    ensures |s| == |b| / 2
  {
    seq(|b| / 2, i requires 0 <= i < |b| / 2 => I16(b, 2 * i))
  }

  /** The little-endian bytes of samples. */
  ghost function SampleBytes(s: seq<Int16>): (b: seq<Byte>)
    ensures |b| == 2 * |s|
  {
    if s == [] then [] else SampleBytes(s[..|s| - 1]) + Encode16(s[|s| - 1])
  }

  /** An integer depends only on the bytes it stands on. */
  lemma {:induction false} SameInt(a: seq<Byte>, b: seq<Byte>, p: nat, n: nat)
    requires a <= b && n > 0 && p + n <= |a|
    ensures Decode(a, p, n) == Decode(b, p, n)
    decreases n
  {
    if n > 1 {
      SameInt(a, b, p + 1, n - 1);
    }
  }

  lemma TwoBytes(x: Int16)
    ensures Encode16(x) == [x % 0x100, (x / 0x100) % 0x100]
  {
    assert ByteOf(x, 1) == ByteOf(x / 0x100, 0);
  }

  method BytesOf(samples: seq<Int16>) returns (ans: seq<Byte>)
    ensures ans == SampleBytes(samples)
  {
    var a := new Byte[2 * |samples|](_ => 0);
    for i := 0 to |samples|
      invariant a[..2 * i] == SampleBytes(samples[..i])
    {
      var k := 2 * i;
      a[k] := samples[i] % 0x100;
      a[k + 1] := (samples[i] / 0x100) % 0x100;
      assert samples[..i + 1][..i] == samples[..i];
      assert a[..k + 2] == a[..k] + [a[k], a[k + 1]];
      TwoBytes(samples[i]);
    }
    assert samples[..|samples|] == samples;
    ans := a[..];
  }

  lemma {:induction false} Halves(b: seq<Byte>)
    requires |b| % 2 == 0
    ensures SampleBytes(SamplesOf(b)) == b
  {
    if b != [] {
      var k := |b| - 2;
      Halves(b[..k]);
      forall i | 0 <= i < k / 2 ensures SamplesOf(b)[i] == SamplesOf(b[..k])[i] {
        SameInt(b[..k], b, 2 * i, 2);
      }
      assert SamplesOf(b)[..k / 2] == SamplesOf(b[..k]);
      LastHalf(b, k);
    }
  }

  lemma LastHalf(b: seq<Byte>, k: nat)
    requires |b| == k + 2 && k % 2 == 0
    ensures b[..k] + Encode16(SamplesOf(b)[k / 2]) == b
  {
    At16(b, k, SamplesOf(b)[k / 2]);
    assert b == b[..k] + b[k..k + 2];
  }

  /** The reader, on every file on which it ends. */
  method ReadWaveImpl(input: InputStream) returns (r: WaveResult)
    requires input.pos == 0 && input.good && ParseWave(input.bytes) != Endless
    modifies input
    ensures r == ParseWave(input.bytes)
  {
    var ok, id, size := ReadStart(input);
    if !ok || !input.good {
      return Rejected;
    }
    ghost var h := input.pos - 8;
    var rate, channels;
    ok, rate, channels := ReadFmt(input, id, size, h);
    if !ok || !input.good {
      return Rejected;
    }
    ghost var next := input.pos;
    id, size := ReadChunkHeader(input, 0, 0, next);
    size := SeekToDataChunk(input, id, size, next);
    if !input.good {
      return Rejected;
    }
    r := ReadSamples(input, rate, channels, size);
  }

  // ---- The writer ----

  lemma Even(n: nat)
    ensures (2 * n) % 2 == 0
  {
  }

  /** The file WriteWave produces is the plainest layout. */
  ghost function WrittenLayout(rate: Int32, samples: seq<Int16>, channels: int): (w: Layout)
    requires 0 <= channels < 0x100 && 2 * |samples| < 0x8000_0000 - 36
    ensures ValidLayout(w)
  {
    Even(|samples|);
    Layout(36 + 2 * |samples|, None, false, rate, channels, NoChunks, SampleBytes(samples), [])
  }

  lemma HeaderArithmetic(count: nat, channels: Int16)
    requires count * 16 < 0x8000_0000 && 0 <= channels < 0x100
    ensures DivideBy8(count * 16) == 2 * count && DivideBy8(channels * 16) == 2 * channels
  {
  }

  /** The 44 header bytes and the data, grouped as the layout groups them. */
  lemma PlainBytes(w: Layout, head: seq<Byte>, format: seq<Byte>, data: seq<Byte>)
    requires ValidLayout(w) && w.junk == None && !w.extended && w.skipped == NoChunks && w.rest == []
    requires head == Encode32(RIFF) + Encode32(w.riffSize) + Encode32(WAVE)
    requires format == Encode32(FMT) + Encode32(16) + FormatBody(false, w.rate, w.channels)
    requires data == Encode32(DATA) + Encode32(|w.data|) + w.data
    ensures head + format + data == Bytes(w)
  {
    Empty(head);
    Empty(data);
    Empty(FormatBody(false, w.rate, w.channels));
    assert HeaderBytes(w.riffSize, w.junk) == head;
    assert ChunkBytes(FMT, FormatBody(w.extended, w.rate, w.channels)) == format;
    assert SkippedBytes(w.skipped) + (ChunkBytes(DATA, w.data) + w.rest) == data;
  }

  lemma Empty(a: seq<Byte>)
    ensures a + [] == a == [] + a
  {
  }

  method CopySamples(samples: seq<Int16>, count: nat) returns (data: seq<Byte>)
    requires count <= |samples|
    ensures data == SampleBytes(samples[..count])
  {
    var copy := new Int16[count](_ => 0);
    for i := 0 to count
      invariant copy[..i] == samples[..i]
    {
      copy[i] := samples[i];
    }
    assert copy[..count] == copy[..];
    data := BytesOf(copy[..]);
  }

  /** The samples must be there, and the sizes in the header must fit int32_t.  creates and writes tell
      whether the file system lets the file be created and written; only a whole file is returned. */
  method WriteWave(rate: Int32, samples: seq<Int16>, n: nat, channels: int, creates: bool, writes: bool)
    returns (ok: bool, file: Option<seq<Byte>>)
    requires 0 <= channels < 0x100 && n * channels <= |samples|
    requires n * channels * 16 < 0x8000_0000
    ensures ok <==> creates && writes
    ensures file == if ok then Some(Bytes(WrittenLayout(rate, samples[..n * channels], channels))) else None
  {
    var bitsPerSample := 16;
    var count := n * channels;
    var byteRate := DivideBy8(Wrap32(Wrap32(rate * channels) * bitsPerSample));
    var blockAlign := DivideBy8(channels * bitsPerSample);
    var subchunk2Size := DivideBy8(count * bitsPerSample);
    HeaderArithmetic(count, channels);

    var data := CopySamples(samples, count);

    if !creates {
      return false, None;
    }
    var head := Encode32(RIFF) + Encode32(36 + subchunk2Size) + Encode32(WAVE);
    var format := Encode32(FMT) + Encode32(16) + (Encode16(1) + Encode16(channels) + Encode32(rate) +
      Encode32(byteRate) + Encode16(blockAlign) + Encode16(bitsPerSample));
    var chunk := Encode32(DATA) + Encode32(subchunk2Size) + data;
    if !writes {
      return false, None;
    }
    PlainFormat(rate, channels);
    PlainBytes(WrittenLayout(rate, samples[..count], channels), head, format, chunk);
    return true, Some(head + format + chunk);
  }

  lemma PlainFormat(rate: Int32, channels: Int16)
    requires 0 <= channels < 0x100
    ensures FormatBody(false, rate, channels) ==
            Encode16(1) + Encode16(channels) + Encode32(rate) + Encode32(ByteRate(rate, channels, 16)) +
            Encode16(BlockAlign(channels, 16)) + Encode16(16)
  {
  }

  lemma NarrowCount(channels: int)
    requires 0 <= channels < 0x100
    ensures ToInt8(channels) == if channels < 128 then channels else channels - 256
  {
  }

  lemma WrittenIsParsed(rate: Int32, samples: seq<Int16>, channels: int, file: seq<Byte>)
    requires 0 <= channels < 0x100 && 2 * |samples| < 0x8000_0000 - 36
    requires file == Bytes(WrittenLayout(rate, samples, channels))
    ensures ParseWave(file) == Ok(rate, ToInt8(channels), SampleBytes(samples))
  {
    LayoutIsRead(WrittenLayout(rate, samples, channels));
  }

  /** Reading back what the writer wrote gives the rate and the little-endian bytes of the
      samples; the channel count survives its conversion to int8_t exactly up to 127. */
  lemma WrittenIsRead(rate: Int32, samples: seq<Int16>, channels: int)
    requires 0 <= channels < 0x100 && 2 * |samples| < 0x8000_0000 - 36
    ensures ParseWave(Bytes(WrittenLayout(rate, samples, channels)))
            == Ok(rate, if channels < 128 then channels else channels - 256, SampleBytes(samples))
  {
    var file := Bytes(WrittenLayout(rate, samples, channels));
    WrittenIsParsed(rate, samples, channels, file);
    NarrowCount(channels);
  }

  lemma ChannelCountSurvives(channels: int)
    requires 0 <= channels < 0x100
    ensures ToInt8(channels) == channels <==> channels <= 127
  {
  }
}

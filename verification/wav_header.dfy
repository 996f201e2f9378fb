/** The bytes of a written WAVE file, field by field, as unsigned little-endian numbers. */
module WavHeader {
  import opened Wav
  import opened WavFormat
  import opened WavIo
  import opened Wrappers

  // ---- Numbers and letters in a file ----

  function Unsigned16(b: seq<Byte>, p: nat): int
    requires p + 2 <= |b|
  {
    b[p] as int + 0x100 * (b[p + 1] as int)
  }

  function Unsigned32(b: seq<Byte>, p: nat): int
    requires p + 4 <= |b|
  {
    b[p] as int + 0x100 * (b[p + 1] as int + 0x100 * (b[p + 2] as int + 0x100 * (b[p + 3] as int)))
  }

  /** A signed number is the unsigned one, less 2^16 or 2^32 if the highest bit is set. */
  lemma SignedNumbers(b: seq<Byte>, p: nat)
    ensures p + 2 <= |b| ==> I16(b, p) == Unsigned16(b, p) - if b[p + 1] >= 0x80 then 0x1_0000 else 0
    ensures p + 4 <= |b| ==> I32(b, p) == Unsigned32(b, p) - if b[p + 3] >= 0x80 then 0x1_0000_0000 else 0
  {
    if p + 4 <= |b| {
      assert Decode(b, p + 3, 1) == Signed8(b[p + 3]);
      assert Decode(b, p + 2, 2) == Pair(b[p + 2], Decode(b, p + 3, 1));
      assert Decode(b, p + 1, 3) == Pair(b[p + 1], Decode(b, p + 2, 2));
    }
  }

  ghost predicate Letters(b: seq<Byte>, p: nat, text: string) {
    p + |text| <= |b| && forall i :: 0 <= i < |text| ==> b[p + i] == text[i] as int
  }

  /** The identifiers of the chunks are these letters. */
  lemma Identifiers(b: seq<Byte>, p: nat)
    requires p + 4 <= |b|
    ensures I32(b, p) == RIFF <==> Letters(b, p, "RIFF")
    ensures I32(b, p) == WAVE <==> Letters(b, p, "WAVE")
    ensures I32(b, p) == JUNK <==> Letters(b, p, "JUNK")
    ensures I32(b, p) == FMT <==> Letters(b, p, "fmt ")
    ensures I32(b, p) == DATA <==> Letters(b, p, "data")
  {
    SignedNumbers(b, p);
    LettersIff(b, p, "RIFF", RIFF);
    LettersIff(b, p, "WAVE", WAVE);
    LettersIff(b, p, "JUNK", JUNK);
    LettersIff(b, p, "fmt ", FMT);
    LettersIff(b, p, "data", DATA);
  }

  lemma LettersIff(b: seq<Byte>, p: nat, text: string, id: Int32)
    requires p + 4 <= |b| && |text| == 4 && text[3] < 128 as char
    requires forall i :: 0 <= i < 4 ==> text[i] < 256 as char
    requires id == text[0] as int + 0x100 * (text[1] as int + 0x100 * (text[2] as int + 0x100 * (text[3] as int)))
    ensures I32(b, p) == id <==> Letters(b, p, text)
  {
    SignedNumbers(b, p);
    var x2, y2 := b[p + 2] as int + 0x100 * (b[p + 3] as int), text[2] as int + 0x100 * (text[3] as int);
    var x1, y1 := b[p + 1] as int + 0x100 * x2, text[1] as int + 0x100 * y2;
    SameDigit(b[p], x1, text[0] as int, y1);
    SameDigit(b[p + 1], x2, text[1] as int, y2);
    SameDigit(b[p + 2], b[p + 3], text[2] as int, text[3] as int);
  }

  lemma SameDigit(a: int, x: int, c: int, y: int)
    requires 0 <= a < 0x100 && 0 <= c < 0x100
    ensures a + 0x100 * x == c + 0x100 * y <==> a == c && x == y
  {
  }

  // ---- Conversions and division ----

  /** Conversions to fewer bits take off a multiple of 2^32 and of 2^8. */
  lemma Conversions(x: int)
    ensures exists k: int :: x - Wrap32(x) == 0x1_0000_0000 * k
    ensures exists k: int :: x - ToInt8(x) == 0x100 * k
  {
    var q, r := x / 0x1_0000_0000, x / 0x100;
    assert x - Wrap32(x) == 0x1_0000_0000 * (if Wrap32(x) < 0 then q + 1 else q);
    assert x - ToInt8(x) == 0x100 * (if ToInt8(x) < 0 then r + 1 else r);
  }

  /** Division by 8 drops the rest, toward zero. */
  lemma Truncates(x: int)
    ensures x >= 0 ==> 0 <= x - 8 * DivideBy8(x) < 8
    ensures x <= 0 ==> -8 < x - 8 * DivideBy8(x) <= 0
  {
  }

  // ---- The fields of any layout ----

  ghost predicate ChunkHeader(b: seq<Byte>, p: nat, id: Int32, size: nat) {
    p + 8 <= |b| && I32(b, p) == id && Unsigned32(b, p + 4) == size
  }

  /** The file starts with RIFF, its size and WAVE; a JUNK chunk may stand before the format. */
  ghost predicate StartFields(b: seq<Byte>, riffSize: Int32, junk: Option<seq<Byte>>) {
    && 12 <= |b| && I32(b, 0) == RIFF && (riffSize >= 0 ==> Unsigned32(b, 4) == riffSize) && I32(b, 8) == WAVE
    && (junk.Some? ==> ChunkHeader(b, 12, JUNK, |junk.value|) && At(b, 20, junk.value))
  }

  lemma StartOfLayout(b: seq<Byte>, riffSize: Int32, junk: Option<seq<Byte>>)
    requires (junk.Some? ==> |junk.value| < 0x8000_0000) && At(b, 0, HeaderBytes(riffSize, junk))
    ensures |HeaderBytes(riffSize, junk)| == if junk.Some? then 20 + |junk.value| else 12
    ensures StartFields(b, riffSize, junk)
  {
    AtHeader(b, riffSize, junk);
    SignedNumbers(b, 4);
    if junk.Some? {
      HeaderOfChunk(b, 12, JUNK, junk.value);
    }
  }

  lemma HeaderOfChunk(b: seq<Byte>, p: nat, id: Int32, body: seq<Byte>)
    requires |body| < 0x8000_0000 && At(b, p, ChunkBytes(id, body))
    ensures ChunkHeader(b, p, id, |body|) && At(b, p + 8, body)
  {
    AtChunk(b, p, id, body);
    SignedNumbers(b, p + 4);
  }

  /** The numbers in the body of the format chunk.  The byte rate is that of 16-bit samples as long as it
      does not overflow. */
  ghost predicate FormatNumbers(b: seq<Byte>, p: nat, extended: bool, rate: Int32, channels: Int16) {
    && p + (if extended then 18 else 16) <= |b|
    && Unsigned16(b, p) == 1 && Unsigned16(b, p + 14) == 16 && (extended ==> Unsigned16(b, p + 16) == 0)
    && (0 <= channels ==> Unsigned16(b, p + 2) == channels && Unsigned16(b, p + 12) == 2 * channels)
    && (0 <= rate ==> Unsigned32(b, p + 4) == rate)
    && (0 <= rate && 0 <= channels && rate * channels * 16 < 0x8000_0000 ==>
          Unsigned32(b, p + 8) == rate * channels * 2)
  }

  lemma Rates(rate: Int32, channels: Int16)
    requires -0x4000 <= channels < 0x4000
    ensures 0 <= channels ==> BlockAlign(channels, 16) == 2 * channels
    ensures 0 <= rate && 0 <= channels && rate * channels * 16 < 0x8000_0000 ==>
              ByteRate(rate, channels, 16) == rate * channels * 2
  {
    if 0 <= rate && 0 <= channels {
      NotNegative(rate, channels);
      SixteenBits(rate * channels);
    }
  }

  lemma NotNegative(x: int, y: int)
    requires 0 <= x && 0 <= y
    ensures 0 <= x * y
  {
  }

  lemma SixteenBits(x: int)
    requires 0 <= x
    ensures x * 16 < 0x8000_0000 ==> Wrap32(x) == x && Wrap32(x * 16) == x * 16 && DivideBy8(x * 16) == x * 2
  {
  }

  lemma NumbersOfFormat(b: seq<Byte>, p: nat, extended: bool, rate: Int32, channels: Int16)
    requires -0x4000 <= channels < 0x4000 && FormatFields(b, p, extended, rate, channels)
    ensures FormatNumbers(b, p, extended, rate, channels)
  {
    NumbersFrom(b, p);
    Rates(rate, channels);
    if 0 <= rate && 0 <= channels && rate * channels * 16 < 0x8000_0000 {
      NotNegative(rate, channels);
    }
  }

  lemma FormatOfLayout(b: seq<Byte>, h: nat, extended: bool, rate: Int32, channels: Int16)
    requires -0x4000 <= channels < 0x4000
    requires At(b, h, ChunkBytes(FMT, FormatBody(extended, rate, channels)))
    ensures ChunkHeader(b, h, FMT, if extended then 18 else 16)
    ensures FormatNumbers(b, h + 8, extended, rate, channels)
  {
    HeaderOfChunk(b, h, FMT, FormatBody(extended, rate, channels));
    AtFormat(b, h + 8, extended, rate, channels);
    NumbersOfFormat(b, h + 8, extended, rate, channels);
  }

  /** The signed and the unsigned numbers of a format chunk whose body is at p. */
  lemma NumbersFrom(b: seq<Byte>, p: nat)
    requires p + 16 <= |b|
    ensures I16(b, p) >= 0 ==> Unsigned16(b, p) == I16(b, p)
    ensures I16(b, p + 2) >= 0 ==> Unsigned16(b, p + 2) == I16(b, p + 2)
    ensures I32(b, p + 4) >= 0 ==> Unsigned32(b, p + 4) == I32(b, p + 4)
    ensures I32(b, p + 8) >= 0 ==> Unsigned32(b, p + 8) == I32(b, p + 8)
    ensures I16(b, p + 12) >= 0 ==> Unsigned16(b, p + 12) == I16(b, p + 12)
    ensures I16(b, p + 14) >= 0 ==> Unsigned16(b, p + 14) == I16(b, p + 14)
    ensures p + 18 <= |b| && I16(b, p + 16) >= 0 ==> Unsigned16(b, p + 16) == I16(b, p + 16)
  {
    SignedNumbers(b, p);
    SignedNumbers(b, p + 2);
    SignedNumbers(b, p + 4);
    SignedNumbers(b, p + 8);
    SignedNumbers(b, p + 12);
    SignedNumbers(b, p + 14);
    SignedNumbers(b, p + 16);
  }

  /** The data chunk at q, and what follows it. */
  ghost predicate DataFields(b: seq<Byte>, q: nat, data: seq<Byte>, rest: seq<Byte>) {
    ChunkHeader(b, q, DATA, |data|) && At(b, q + 8, data) && b[q + 8 + |data|..] == rest
  }

  lemma DataOfLayout(b: seq<Byte>, p: nat, s: seq<Byte>, data: seq<Byte>, rest: seq<Byte>, q: nat)
    requires |data| < 0x8000_0000 && Tail(b, p, s, ChunkBytes(DATA, data), rest) && q == p + |s|
    ensures DataFields(b, q, data, rest)
  {
    HeaderOfChunk(b, q, DATA, data);
    var end := q + 8 + |data|;
    assert b[end..] == rest;
  }

  lemma HeaderOfLayout(b: seq<Byte>, w: Layout, h: nat)
    requires ValidLayout(w) && b == Bytes(w) && h == |HeaderBytes(w.riffSize, w.junk)|
    ensures h == if w.junk.Some? then 20 + |w.junk.value| else 12
    ensures StartFields(b, w.riffSize, w.junk)
    ensures ChunkHeader(b, h, FMT, if w.extended then 18 else 16)
    ensures FormatNumbers(b, h + 8, w.extended, w.rate, w.channels)
    ensures Tail(b, h + |FormatChunk(w)|, SkippedBytes(w.skipped), ChunkBytes(DATA, w.data), w.rest)
  {
    PartsOfBytes(b, w);
    StartOfLayout(b, w.riffSize, w.junk);
    FormatOfLayout(b, h, w.extended, w.rate, w.channels);
  }

  /** The bytes of all header fields of a layout, and where its format, its data and the rest stand. */
  lemma LayoutFields(b: seq<Byte>, w: Layout) returns (h: nat, q: nat)
    requires ValidLayout(w) && b == Bytes(w)
    ensures h == if w.junk.Some? then 20 + |w.junk.value| else 12
    ensures q == h + (if w.extended then 26 else 24) + |SkippedBytes(w.skipped)|
    ensures StartFields(b, w.riffSize, w.junk)
    ensures ChunkHeader(b, h, FMT, if w.extended then 18 else 16)
    ensures FormatNumbers(b, h + 8, w.extended, w.rate, w.channels)
    ensures DataFields(b, q, w.data, w.rest)
  {
    h := |HeaderBytes(w.riffSize, w.junk)|;
    HeaderOfLayout(b, w, h);
    q := h + |FormatChunk(w)| + |SkippedBytes(w.skipped)|;
    DataOfLayout(b, h + |FormatChunk(w)|, SkippedBytes(w.skipped), w.data, w.rest, q);
  }

  // ---- The file the writer writes ----

  /** A sample is two bytes, the lower one first. */
  lemma {:induction false} SampleBytesAt(samples: seq<Int16>, i: nat)
    requires i < |samples|
    ensures var b := SampleBytes(samples);
            b[2 * i] as int == samples[i] % 0x100 && b[2 * i + 1] as int == (samples[i] / 0x100) % 0x100
    decreases |samples|
  {
    TwoBytes(samples[|samples| - 1]);
    if i < |samples| - 1 {
      SampleBytesAt(samples[..|samples| - 1], i);
    }
  }

  /** The written file: a header of 44 bytes with these fields, then the sample bytes. */
  lemma WrittenHeader(rate: Int32, samples: seq<Int16>, channels: int)
    requires 0 <= channels < 0x100 && 2 * |samples| < 0x8000_0000 - 36
    ensures var b, n := Bytes(WrittenLayout(rate, samples, channels)), 2 * |samples|;
      && |b| == 44 + n && b[44..] == SampleBytes(samples)
      && ChunkHeader(b, 0, RIFF, 36 + n) && I32(b, 8) == WAVE
      && ChunkHeader(b, 12, FMT, 16) && FormatNumbers(b, 20, false, rate, channels)
      && ChunkHeader(b, 36, DATA, n)
  {
    var w := WrittenLayout(rate, samples, channels);
    var h, q := LayoutFields(Bytes(w), w);
    DataAtEnd(Bytes(w), 44, w.data);
  }

  lemma DataAtEnd(b: seq<Byte>, p: nat, data: seq<Byte>)
    requires At(b, p, data) && b[p + |data|..] == []
    ensures |b| == p + |data| && b[p..] == data
  {
    assert |b[p + |data|..]| == 0;
    assert b[p..] == b[p..p + |data|];
  }

  /** Sample i stands at 44 + 2 i. */
  lemma WrittenSample(rate: Int32, samples: seq<Int16>, channels: int, i: nat)
    requires 0 <= channels < 0x100 && 2 * |samples| < 0x8000_0000 - 36 && i < |samples|
    ensures var b := Bytes(WrittenLayout(rate, samples, channels));
      45 + 2 * i < |b| && I16(b, 44 + 2 * i) == samples[i]
  {
    var b := Bytes(WrittenLayout(rate, samples, channels));
    WrittenHeader(rate, samples, channels);
    SampleBytesAt(samples, i);
    assert b[44..][2 * i] == b[44 + 2 * i] && b[44..][2 * i + 1] == b[45 + 2 * i];
    SignedNumbers(b, 44 + 2 * i);
    TwoByteNumber(samples[i]);
  }

  lemma TwoByteNumber(x: Int16)
    ensures x == x % 0x100 + 0x100 * ((x / 0x100) % 0x100) - if (x / 0x100) % 0x100 >= 0x80 then 0x1_0000 else 0
  {
  }
}

/** The WAV reader and writer of the audio examples. */
module Wav {
  import opened WavFormat
  import opened Wrappers

  // ---- What the reader computes, by position in the file ----

  /** Throws: the buffer of 16-bit samples cannot have the size asked for.  Undefined: the data size is
      odd and the data is there, so that its last byte goes past that buffer.  Endless: the chunk walk
      never ends. */
  datatype WaveResult = Ok(rate: Int32, channels: int, data: seq<Byte>) | Rejected | Throws | Undefined | Endless

  datatype Format = Format(rate: Int32, channels: Int16, next: nat)

  datatype Search = Found(start: nat, size: Int32) | NotFound | NeverEnds

  /** Where the format chunk should start; a JUNK chunk before it is skipped, backwards if its size is
      negative. */
  function FormatStart(b: seq<Byte>): (r: Search)
    ensures r != NeverEnds
  {
    if |b| < 20 || I32(b, 0) != RIFF || I32(b, 8) != WAVE then NotFound
    else
      var h := if I32(b, 12) == JUNK then 20 + I32(b, 16) else 12;
      if 0 <= h && h + 8 <= |b| then Found(h, I32(b, h + 4)) else NotFound
  }

  function ReadFormat(b: seq<Byte>, h: nat): Option<Format>
    requires h + 8 <= |b|
  {
    var size, p := I32(b, h + 4), h + 8;
    if I32(b, h) != FMT || (size != 16 && size != 18) || p + size > |b| then None
    else
      var channels, rate, bits := I16(b, p + 2), I32(b, p + 4), I16(b, p + 14);
      if I16(b, p) == 1 && I32(b, p + 8) == ByteRate(rate, channels, bits) &&
         I16(b, p + 12) == BlockAlign(channels, bits) && bits == 16 && (size == 18 ==> I16(b, p + 16) == 0)
      then Some(Format(rate, channels, p + size))
      else None
  }

  /** The walk stops where no whole chunk header or a data chunk stands. */
  predicate AtEnd(b: seq<Byte>, p: nat) {
    p + 8 > |b| || I32(b, p) == DATA
  }

  /** The position after the chunk at p; sizes may be negative. */
  function Next(b: seq<Byte>, p: nat): int
    requires !AtEnd(b, p)
  {
    p + 8 + I32(b, p + 4)
  }

  /** The walk from p ends within n steps; a seek to before the start of the file fails and ends it. */
  ghost predicate EndsWithin(b: seq<Byte>, p: nat, n: nat)
    decreases n
  {
    AtEnd(b, p) || (n > 0 && (Next(b, p) < 0 || EndsWithin(b, Next(b, p), n - 1)))
  }

  ghost function FindWithin(b: seq<Byte>, p: nat, n: nat): (r: Search)
    requires EndsWithin(b, p, n)
    ensures r.Found? ==> r.start <= |b|
    ensures r != NeverEnds
    decreases n
  {
    if p + 8 > |b| then NotFound
    else if I32(b, p) == DATA then Found(p + 8, I32(b, p + 4))
    else if Next(b, p) < 0 then NotFound
    else FindWithin(b, Next(b, p), n - 1)
  }

  /** The chunk walk from the header at p. */
  ghost function FindData(b: seq<Byte>, p: nat): (r: Search)
    ensures r.Found? ==> r.start <= |b|
  {
    if exists n: nat :: EndsWithin(b, p, n) then
      var n: nat :| EndsWithin(b, p, n);
      FindWithin(b, p, n)
    else NeverEnds
  }

  function ReadSampleData(b: seq<Byte>, rate: Int32, channels: Int16, p: nat, n: Int32): WaveResult {
    if n <= -2 then Throws
    else if n == -1 || p + n > |b| then Rejected
    else if n % 2 == 1 then Undefined
    else Ok(rate, ToInt8(channels), b[p..p + n])
  }

  ghost function ReadData(b: seq<Byte>, f: Format): WaveResult {
    match FindData(b, f.next)
    case NotFound => Rejected
    case NeverEnds => Endless
    case Found(p, n) => ReadSampleData(b, f.rate, f.channels, p, n)
  }

  ghost function ParseWave(b: seq<Byte>): WaveResult {
    var start := FormatStart(b);
    if !start.Found? then Rejected
    else
      match ReadFormat(b, start.start)
      case None => Rejected
      case Some(f) => ReadData(b, f)
  }

  // ---- When the walk ends ----

  lemma {:induction false} AnyBound(b: seq<Byte>, p: nat, m: nat, n: nat)
    requires EndsWithin(b, p, m) && EndsWithin(b, p, n)
    ensures FindWithin(b, p, m) == FindWithin(b, p, n)
    decreases n
  {
    if !AtEnd(b, p) && Next(b, p) >= 0 {
      AnyBound(b, Next(b, p), m - 1, n - 1);
    }
  }

  lemma FindGives(b: seq<Byte>, p: nat, n: nat)
    requires EndsWithin(b, p, n)
    ensures FindData(b, p) == FindWithin(b, p, n)
  {
    var m: nat :| EndsWithin(b, p, m) && FindData(b, p) == FindWithin(b, p, m);
    AnyBound(b, p, m, n);
  }

  /** One step of the walk. */
  lemma FindStep(b: seq<Byte>, p: nat)
    ensures p + 8 > |b| ==> FindData(b, p) == NotFound
    ensures p + 8 <= |b| && I32(b, p) == DATA ==> FindData(b, p) == Found(p + 8, I32(b, p + 4))
    ensures !AtEnd(b, p) && Next(b, p) < 0 ==> FindData(b, p) == NotFound
    ensures !AtEnd(b, p) && Next(b, p) >= 0 ==> FindData(b, p) == FindData(b, Next(b, p))
  {
    if AtEnd(b, p) {
      FindGives(b, p, 0);
    } else if Next(b, p) < 0 {
      FindGives(b, p, 1);
    } else {
      FollowOne(b, p, Next(b, p));
    }
  }

  lemma FollowOne(b: seq<Byte>, p: nat, q: nat)
    requires !AtEnd(b, p) && Next(b, p) == q
    ensures FindData(b, p) == FindData(b, q)
  {
    forall n: nat | EndsWithin(b, p, n) ensures n > 0 && EndsWithin(b, q, n - 1) {
    }
    if n: nat :| EndsWithin(b, q, n) {
      FindGives(b, p, n + 1);
      FindGives(b, q, n);
    }
  }

  /** n steps of the walk lead from the header at p to the one at q. */
  ghost predicate Leads(b: seq<Byte>, p: nat, q: nat, n: nat)
    decreases n
  {
    if n == 0 then p == q else !AtEnd(b, p) && Next(b, p) >= 0 && Leads(b, Next(b, p), q, n - 1)
  }

  /** A header that the walk from p meets again after n steps. */
  ghost predicate MetAgain(b: seq<Byte>, p: nat, q: nat, n: nat) {
    n > 0 && Leads(b, q, q, n) && exists i: nat :: Leads(b, p, q, i)
  }

  /** The walk never ends exactly when it meets a header twice. */
  lemma EndlessIff(b: seq<Byte>, p: nat)
    ensures FindData(b, p) == NeverEnds <==> exists q: nat, n: nat :: MetAgain(b, p, q, n)
  {
    if q: nat, n: nat :| MetAgain(b, p, q, n) {
      var i: nat :| Leads(b, p, q, i);
      if m: nat :| EndsWithin(b, p, m) {
        EndsAfter(b, p, q, i, m);
        RoundNeverEnds(b, q, n, m - i);
      }
    }
    if FindData(b, p) == NeverEnds {
      if m: nat :| EndsWithin(b, p, m) {
        FindGives(b, p, m);
      }
      MeetsAgain(b, p, p, 0, {});
    }
  }

  lemma {:induction false} EndsAfter(b: seq<Byte>, p: nat, q: nat, i: nat, m: nat)
    requires Leads(b, p, q, i) && EndsWithin(b, p, m)
    ensures AtEnd(b, q) || (i <= m && EndsWithin(b, q, m - i))
    ensures i <= m
    decreases i
  {
    if i > 0 {
      EndsAfter(b, Next(b, p), q, i - 1, m - 1);
    }
  }

  lemma {:induction false} RoundNeverEnds(b: seq<Byte>, q: nat, n: nat, m: nat)
    requires n > 0 && Leads(b, q, q, n) && EndsWithin(b, q, m)
    ensures false
    decreases m
  {
    EndsAfter(b, q, q, n, m);
    RoundNeverEnds(b, q, n, m - n);
  }

  lemma {:induction false} OneMoreStep(b: seq<Byte>, p: nat, q: nat, n: nat)
    requires Leads(b, p, q, n) && !AtEnd(b, q) && Next(b, q) >= 0
    ensures Leads(b, p, Next(b, q), n + 1)
    decreases n
  {
    if n > 0 {
      OneMoreStep(b, Next(b, p), q, n - 1);
    }
  }

  lemma {:induction false} EndsBefore(b: seq<Byte>, p: nat, q: nat, i: nat)
    requires Leads(b, p, q, i) && EndsWithin(b, q, 1)
    ensures EndsWithin(b, p, i + 1)
    decreases i
  {
    if i > 0 {
      EndsBefore(b, Next(b, p), q, i - 1);
    }
  }

  /** The walk has passed these headers on its way to p. */
  ghost predicate Passed(b: seq<Byte>, seen: set<nat>, p: nat) {
    forall q :: q in seen ==> q < |b| && LeadsOn(b, q, p)
  }

  ghost predicate LeadsOn(b: seq<Byte>, q: nat, p: nat) {
    exists k: nat :: k > 0 && Leads(b, q, p, k)
  }

  lemma PassedOneMore(b: seq<Byte>, seen: set<nat>, p: nat, r: nat)
    requires Passed(b, seen, p) && !AtEnd(b, p) && Next(b, p) == r
    ensures Passed(b, seen + {p}, r)
  {
    forall q | q in seen + {p} ensures LeadsOn(b, q, r) {
      var k: nat := 0;
      if q in seen {
        k :| k > 0 && Leads(b, q, p, k);
      }
      OneMoreStep(b, q, p, k);
    }
  }

  lemma FoundAgain(b: seq<Byte>, start: nat, p: nat, i: nat)
    requires Leads(b, start, p, i) && LeadsOn(b, p, p)
    ensures exists q: nat, n: nat :: MetAgain(b, start, q, n)
  {
    var k: nat :| k > 0 && Leads(b, p, p, k);
    assert MetAgain(b, start, p, k);
  }

  /** There are only |b| places for a header, so a walk that goes on meets one of them again. */
  lemma {:induction false} MeetsAgain(b: seq<Byte>, start: nat, p: nat, i: nat, seen: set<nat>)
    requires Leads(b, start, p, i) && forall n: nat :: !EndsWithin(b, start, n)
    requires Passed(b, seen, p)
    ensures exists q: nat, n: nat :: MetAgain(b, start, q, n)
    decreases |b| + 1 - |seen|
  {
    if AtEnd(b, p) || Next(b, p) < 0 {
      EndsBefore(b, start, p, i);
    } else if p in seen {
      FoundAgain(b, start, p, i);
    } else {
      SeenIsBounded(seen, |b|);
      OneMoreStep(b, start, p, i);
      PassedOneMore(b, seen, p, Next(b, p));
      MeetsAgain(b, start, Next(b, p), i + 1, seen + {p});
    }
  }

  lemma {:induction false} SeenIsBounded(seen: set<nat>, n: nat)
    requires forall q :: q in seen ==> q < n
    ensures |seen| <= n
  {
    if n == 0 {
      assert seen == {};
    } else {
      SeenIsBounded(seen - {n - 1}, n - 1);
    }
  }

  /** A chunk of size -8 that is not the data chunk is met again at once. */
  lemma SizeMinusEight(b: seq<Byte>, p: nat)
    requires p + 8 <= |b| && I32(b, p) != DATA && I32(b, p + 4) == -8
    ensures FindData(b, p) == NeverEnds
  {
    assert Leads(b, p, p, 0) && Leads(b, p, p, 1);
    assert MetAgain(b, p, p, 1);
    EndlessIff(b, p);
  }

  /** No size that the walk from p meets is negative. */
  ghost predicate Forward(b: seq<Byte>, p: nat)
    decreases |b| - p
  {
    AtEnd(b, p) || (I32(b, p + 4) >= 0 && Forward(b, Next(b, p)))
  }

  /** No chunk size is negative up to the data. */
  ghost predicate GoesForward(b: seq<Byte>) {
    && FormatStart(b).Found? && (I32(b, 12) == JUNK ==> I32(b, 16) >= 0)
    && var f := ReadFormat(b, FormatStart(b).start); f.Some? && Forward(b, f.value.next)
  }

  // ---- Where the parts of a file stand ----

  ghost predicate At(b: seq<Byte>, p: nat, part: seq<Byte>) {
    p + |part| <= |b| && b[p..p + |part|] == part
  }

  lemma AtConcat(b: seq<Byte>, p: nat, x: seq<Byte>, y: seq<Byte>)
    ensures At(b, p, x + y) <==> At(b, p, x) && At(b, p + |x|, y)
  {
    var n := p + |x| + |y|;
    if n <= |b| {
      assert b[p..n] == b[p..p + |x|] + b[p + |x|..n];
      if b[p..n] == x + y {
        assert b[p..p + |x|] == (x + y)[..|x|];
        assert b[p + |x|..n] == (x + y)[|x|..];
      }
    }
  }

  lemma At32(b: seq<Byte>, p: nat, x: Int32)
    requires p + 4 <= |b|
    ensures At(b, p, Encode32(x)) <==> I32(b, p) == x
  {
    Bounds();
    Coded(b, p, x, 4);
  }

  lemma At16(b: seq<Byte>, p: nat, x: Int16)
    requires p + 2 <= |b|
    ensures At(b, p, Encode16(x)) <==> I16(b, p) == x
  {
    Bounds();
    Coded(b, p, x, 2);
  }

  lemma AtChunk(b: seq<Byte>, p: nat, id: Int32, body: seq<Byte>)
    requires |body| < 0x8000_0000
    ensures At(b, p, ChunkBytes(id, body)) <==>
            p + 8 <= |b| && I32(b, p) == id && I32(b, p + 4) == |body| && At(b, p + 8, body)
  {
    AtConcat(b, p, Encode32(id) + Encode32(|body|), body);
    AtConcat(b, p, Encode32(id), Encode32(|body|));
    if p + 8 <= |b| {
      At32(b, p, id);
      At32(b, p + 4, |body|);
    }
  }

  ghost predicate FormatFields(b: seq<Byte>, p: nat, extended: bool, rate: Int32, channels: Int16)
    requires -0x4000 <= channels < 0x4000
  {
    && p + (if extended then 18 else 16) <= |b|
    && I16(b, p) == 1 && I16(b, p + 2) == channels && I32(b, p + 4) == rate
    && I32(b, p + 8) == ByteRate(rate, channels, 16)
    && I16(b, p + 12) == BlockAlign(channels, 16) && I16(b, p + 14) == 16
    && (extended ==> I16(b, p + 16) == 0)
  }

  lemma AtFormat(b: seq<Byte>, p: nat, extended: bool, rate: Int32, channels: Int16)
    requires -0x4000 <= channels < 0x4000
    ensures At(b, p, FormatBody(extended, rate, channels)) <==> FormatFields(b, p, extended, rate, channels)
  {
    var f1 := Encode16(1) + Encode16(channels);
    var f2 := f1 + Encode32(rate);
    var f3 := f2 + Encode32(ByteRate(rate, channels, 16));
    var f4 := f3 + Encode16(BlockAlign(channels, 16));
    var f5 := f4 + Encode16(16);
    AtConcat(b, p, Encode16(1), Encode16(channels));
    AtConcat(b, p, f1, Encode32(rate));
    AtConcat(b, p, f2, Encode32(ByteRate(rate, channels, 16)));
    AtConcat(b, p, f3, Encode16(BlockAlign(channels, 16)));
    AtConcat(b, p, f4, Encode16(16));
    AtConcat(b, p, f5, if extended then Encode16(0) else []);
    if p + 16 <= |b| {
      At16(b, p, 1);
      At16(b, p + 2, channels);
      At32(b, p + 4, rate);
      At32(b, p + 8, ByteRate(rate, channels, 16));
      At16(b, p + 12, BlockAlign(channels, 16));
      At16(b, p + 14, 16);
    }
    if extended && p + 18 <= |b| {
      At16(b, p + 16, 0);
    }
  }

  // ---- The reader accepts exactly the files with a valid layout ----

  lemma FormatIsRead(b: seq<Byte>, h: nat, extended: bool, rate: Int32, channels: Int16)
    requires -0x4000 <= channels < 0x4000
    ensures At(b, h, ChunkBytes(FMT, FormatBody(extended, rate, channels))) <==>
            h + 8 <= |b| && I32(b, h + 4) == (if extended then 18 else 16) &&
            ReadFormat(b, h) == Some(Format(rate, channels, h + 8 + if extended then 18 else 16))
  {
    AtChunk(b, h, FMT, FormatBody(extended, rate, channels));
    AtFormat(b, h + 8, extended, rate, channels);
  }

  /** The walk passes over any chunks of other kinds. */
  lemma {:induction false} WalkSkips(b: seq<Byte>, p: nat, chunks: Chunks, q: nat)
    requires ChunksAt(b, p, chunks, q)
    ensures FindData(b, p) == FindData(b, q) && (Forward(b, p) <==> Forward(b, q))
    decreases chunks
  {
    match chunks
    case NoChunks =>
    case Chunk(id, body, tail) =>
      AtConcat(b, p, ChunkBytes(id, body), SkippedBytes(tail));
      var r := SkipOne(b, p, id, body);
      WalkSkips(b, r, tail, q);
  }

  lemma SkipOne(b: seq<Byte>, p: nat, id: Int32, body: seq<Byte>) returns (q: nat)
    requires |body| < 0x8000_0000 && id != DATA && At(b, p, ChunkBytes(id, body))
    ensures q == p + |ChunkBytes(id, body)|
    ensures FindData(b, p) == FindData(b, q) && (Forward(b, p) <==> Forward(b, q))
  {
    q := p + |ChunkBytes(id, body)|;
    AtChunk(b, p, id, body);
    FollowForward(b, p, q);
  }

  lemma FollowForward(b: seq<Byte>, p: nat, q: nat)
    requires !AtEnd(b, p) && Next(b, p) == q && I32(b, p + 4) >= 0
    ensures FindData(b, p) == FindData(b, q) && (Forward(b, p) <==> Forward(b, q))
  {
    FindStep(b, p);
  }

  /** These chunks stand from p up to q. */
  ghost predicate ChunksAt(b: seq<Byte>, p: nat, chunks: Chunks, q: nat) {
    ValidChunks(chunks) && At(b, p, SkippedBytes(chunks)) && q == p + |SkippedBytes(chunks)|
  }

  lemma OneMoreChunk(b: seq<Byte>, p: nat, id: Int32, body: seq<Byte>, r: nat, rest: Chunks, q: nat)
    requires |body| < 0x8000_0000 && id != DATA && At(b, p, ChunkBytes(id, body))
    requires r == p + |ChunkBytes(id, body)| && ChunksAt(b, r, rest, q)
    ensures ChunksAt(b, p, Chunk(id, body, rest), q)
  {
    AtConcat(b, p, ChunkBytes(id, body), SkippedBytes(rest));
  }

  /** The chunks that a walk without negative sizes passes over. */
  lemma {:induction false} WalkedChunks(b: seq<Byte>, p: nat) returns (chunks: Chunks, q: nat)
    requires Forward(b, p) && FindData(b, p).Found?
    ensures ChunksAt(b, p, chunks, q)
    ensures q + 8 <= |b| && I32(b, q) == DATA && FindData(b, p) == Found(q + 8, I32(b, q + 4))
    decreases |b| - p
  {
    FindStep(b, p);
    if I32(b, p) == DATA {
      chunks, q := NoChunks, p;
      AtNothing(b, p);
    } else {
      var id, body, r := SkippedChunk(b, p);
      var rest;
      rest, q := WalkedChunks(b, r);
      chunks := Chunk(id, body, rest);
      OneMoreChunk(b, p, id, body, r, rest, q);
    }
  }

  lemma AtNothing(b: seq<Byte>, p: nat)
    requires p <= |b|
    ensures At(b, p, [])
  {
  }

  lemma SkippedChunk(b: seq<Byte>, p: nat) returns (id: Int32, body: seq<Byte>, q: nat)
    requires Forward(b, p) && FindData(b, p).Found? && !AtEnd(b, p)
    ensures p < q && id != DATA && |body| < 0x8000_0000 && At(b, p, ChunkBytes(id, body))
    ensures q == p + |ChunkBytes(id, body)| && FindData(b, p) == FindData(b, q) && Forward(b, q)
  {
    q := Next(b, p);
    FindStep(b, p);
    FindStep(b, q);
    id, body := I32(b, p), b[p + 8..q];
    AtChunk(b, p, id, body);
  }

  lemma AtHeader(b: seq<Byte>, riffSize: Int32, junk: Option<seq<Byte>>)
    requires junk.Some? ==> |junk.value| < 0x8000_0000
    ensures At(b, 0, HeaderBytes(riffSize, junk)) <==>
            |b| >= 12 && I32(b, 0) == RIFF && I32(b, 4) == riffSize && I32(b, 8) == WAVE &&
            (junk.Some? ==> At(b, 12, ChunkBytes(JUNK, junk.value)))
  {
    var h1 := Encode32(RIFF) + Encode32(riffSize);
    var h2 := h1 + Encode32(WAVE);
    AtConcat(b, 0, Encode32(RIFF), Encode32(riffSize));
    AtConcat(b, 0, h1, Encode32(WAVE));
    AtConcat(b, 0, h2, if junk.Some? then ChunkBytes(JUNK, junk.value) else []);
    if |b| >= 12 {
      At32(b, 0, RIFF);
      At32(b, 4, riffSize);
      At32(b, 8, WAVE);
    }
  }

  lemma AtWhole(b: seq<Byte>, x: seq<Byte>)
    ensures b == x <==> |b| == |x| && At(b, 0, x)
  {
    assert b[0..|b|] == b;
  }

  lemma AtTheEnd(b: seq<Byte>, p: nat, x: seq<Byte>)
    requires p <= |b|
    ensures b[p..] == x <==> |b| == p + |x| && At(b, p, x)
  {
    assert b[p..] == b[p..|b|];
  }

  ghost function FormatChunk(w: Layout): (c: seq<Byte>)
    requires ValidLayout(w)
    ensures |c| == if w.extended then 26 else 24
  {
    ChunkBytes(FMT, FormatBody(w.extended, w.rate, w.channels))
  }

  /** The parts of a file with the given layout, and where they stand. */
  ghost predicate Parts(b: seq<Byte>, w: Layout)
    requires ValidLayout(w)
  {
    Spread(b, HeaderBytes(w.riffSize, w.junk), FormatChunk(w), SkippedBytes(w.skipped),
           ChunkBytes(DATA, w.data), w.rest)
  }

  ghost predicate Spread(b: seq<Byte>, h: seq<Byte>, f: seq<Byte>, s: seq<Byte>, d: seq<Byte>, r: seq<Byte>) {
    At(b, 0, h) && At(b, |h|, f) && Tail(b, |h| + |f|, s, d, r)
  }

  ghost predicate Tail(b: seq<Byte>, p: nat, s: seq<Byte>, d: seq<Byte>, r: seq<Byte>) {
    At(b, p, s) && At(b, p + |s|, d) && b[p + |s| + |d|..] == r
  }

  lemma PartsOfBytes(b: seq<Byte>, w: Layout)
    requires ValidLayout(w)
    ensures b == Bytes(w) <==> Parts(b, w)
  {
    FiveParts(b, HeaderBytes(w.riffSize, w.junk), FormatChunk(w), SkippedBytes(w.skipped),
              ChunkBytes(DATA, w.data), w.rest);
  }

  lemma FiveParts(b: seq<Byte>, h: seq<Byte>, f: seq<Byte>, s: seq<Byte>, d: seq<Byte>, r: seq<Byte>)
    ensures b == h + f + (s + (d + r)) <==> Spread(b, h, f, s, d, r)
  {
    var p, tail := |h| + |f|, s + (d + r);
    AtWhole(b, h + f + tail);
    AtConcat(b, 0, h + f, tail);
    AtConcat(b, 0, h, f);
    TailParts(b, p, s, d, r);
  }

  lemma TailParts(b: seq<Byte>, p: nat, s: seq<Byte>, d: seq<Byte>, r: seq<Byte>)
    ensures |b| == p + |s + (d + r)| && At(b, p, s + (d + r)) <==> Tail(b, p, s, d, r)
  {
    var q := p + |s|;
    AtConcat(b, p, s, d + r);
    AtConcat(b, q, d, r);
    if q + |d| <= |b| {
      AtTheEnd(b, q + |d|, r);
    }
  }

  lemma StartIsRead(b: seq<Byte>, riffSize: Int32, junk: Option<seq<Byte>>)
    requires junk.Some? ==> |junk.value| < 0x8000_0000
    requires At(b, 0, HeaderBytes(riffSize, junk))
    requires var h := |HeaderBytes(riffSize, junk)|; h + 8 <= |b| && I32(b, h) != JUNK
    ensures var h := |HeaderBytes(riffSize, junk)|; FormatStart(b) == Found(h, I32(b, h + 4))
  {
    AtHeader(b, riffSize, junk);
    if junk.Some? {
      AtChunk(b, 12, JUNK, junk.value);
    }
  }

  lemma DataIsRead(b: seq<Byte>, f: Format, w: Layout)
    requires ValidLayout(w)
    requires Tail(b, f.next, SkippedBytes(w.skipped), ChunkBytes(DATA, w.data), w.rest)
    ensures ReadData(b, f) == Ok(f.rate, ToInt8(f.channels), w.data) && Forward(b, f.next)
  {
    var q := f.next + |SkippedBytes(w.skipped)|;
    WalkSkips(b, f.next, w.skipped, q);
    DataAt(b, f, q, w.data);
  }

  lemma DataAt(b: seq<Byte>, f: Format, q: nat, data: seq<Byte>)
    requires |data| < 0x8000_0000 && |data| % 2 == 0
    requires FindData(b, f.next) == FindData(b, q) && At(b, q, ChunkBytes(DATA, data))
    ensures ReadData(b, f) == Ok(f.rate, ToInt8(f.channels), data) && Forward(b, q)
  {
    AtChunk(b, q, DATA, data);
    FindStep(b, q);
  }

  /** Reading a file of any valid layout gives its rate, channels and data: neither the JUNK
      chunk, the size of the format chunk, the skipped chunks nor what follows the data matter. */
  lemma LayoutIsRead(w: Layout)
    requires ValidLayout(w)
    ensures ParseWave(Bytes(w)) == Ok(w.rate, ToInt8(w.channels), w.data) && GoesForward(Bytes(w))
  {
    var b := Bytes(w);
    var h := |HeaderBytes(w.riffSize, w.junk)|;
    PartsOfBytes(b, w);
    FormatIsRead(b, h, w.extended, w.rate, w.channels);
    AtChunk(b, h, FMT, FormatBody(w.extended, w.rate, w.channels));
    StartIsRead(b, w.riffSize, w.junk);
    DataIsRead(b, Format(w.rate, w.channels, h + |FormatChunk(w)|), w);
  }

  lemma StartHasLayout(b: seq<Byte>) returns (junk: Option<seq<Byte>>)
    requires FormatStart(b).Found? && (I32(b, 12) == JUNK ==> I32(b, 16) >= 0)
    ensures junk.Some? ==> |junk.value| < 0x8000_0000
    ensures At(b, 0, HeaderBytes(I32(b, 4), junk))
    ensures FormatStart(b).start == |HeaderBytes(I32(b, 4), junk)|
  {
    if I32(b, 12) == JUNK {
      var body := b[20..20 + I32(b, 16)];
      junk := Some(body);
      AtChunk(b, 12, JUNK, body);
    } else {
      junk := None;
    }
    AtHeader(b, I32(b, 4), junk);
  }

  lemma DataHasLayout(b: seq<Byte>, f: Format) returns (skipped: Chunks, data: seq<Byte>, rest: seq<Byte>)
    requires ReadData(b, f).Ok? && Forward(b, f.next)
    ensures ReadData(b, f).data == data && |data| < 0x8000_0000 && |data| % 2 == 0
    ensures ValidChunks(skipped)
    ensures Tail(b, f.next, SkippedBytes(skipped), ChunkBytes(DATA, data), rest)
  {
    var q;
    skipped, q := WalkedChunks(b, f.next);
    data := DataChunk(b, f, q);
    rest := b[q + |ChunkBytes(DATA, data)|..];
  }

  lemma DataChunk(b: seq<Byte>, f: Format, q: nat) returns (data: seq<Byte>)
    requires ReadData(b, f).Ok? && q + 8 <= |b| && I32(b, q) == DATA
    requires FindData(b, f.next) == Found(q + 8, I32(b, q + 4))
    ensures ReadData(b, f).data == data && |data| < 0x8000_0000 && |data| % 2 == 0
    ensures At(b, q, ChunkBytes(DATA, data))
  {
    data := b[q + 8..q + 8 + I32(b, q + 4)];
    AtChunk(b, q, DATA, data);
  }

  lemma FormatHasLayout(b: seq<Byte>, h: nat) returns (extended: bool, f: Format)
    requires h + 8 <= |b| && ReadFormat(b, h).Some?
    ensures ReadFormat(b, h) == Some(f) && -0x4000 <= f.channels < 0x4000
    ensures At(b, h, ChunkBytes(FMT, FormatBody(extended, f.rate, f.channels)))
    ensures f.next == h + 8 + if extended then 18 else 16
  {
    f := ReadFormat(b, h).value;
    extended := I32(b, h + 4) == 18;
    FormatIsRead(b, h, extended, f.rate, f.channels);
  }

  /** The layout of an accepted file without negative chunk sizes. */
  lemma ReadHasLayout(b: seq<Byte>) returns (w: Layout)
    requires ParseWave(b).Ok? && GoesForward(b)
    ensures ValidLayout(w) && b == Bytes(w)
  {
    var h := FormatStart(b).start;
    var junk := StartHasLayout(b);
    var extended, f := FormatHasLayout(b, h);
    var skipped, data, rest := DataHasLayout(b, f);
    w := Assemble(b, h, junk, extended, f, skipped, data, rest);
  }

  lemma Assemble(b: seq<Byte>, h: nat, junk: Option<seq<Byte>>, extended: bool, f: Format,
      skipped: Chunks, data: seq<Byte>, rest: seq<Byte>) returns (w: Layout)
    requires |b| >= 8 && (junk.Some? ==> |junk.value| < 0x8000_0000)
    requires At(b, 0, HeaderBytes(I32(b, 4), junk)) && h == |HeaderBytes(I32(b, 4), junk)|
    requires -0x4000 <= f.channels < 0x4000 && f.next == h + 8 + if extended then 18 else 16
    requires At(b, h, ChunkBytes(FMT, FormatBody(extended, f.rate, f.channels)))
    requires ValidChunks(skipped) && |data| < 0x8000_0000 && |data| % 2 == 0
    requires Tail(b, f.next, SkippedBytes(skipped), ChunkBytes(DATA, data), rest)
    ensures ValidLayout(w) && b == Bytes(w)
  {
    w := Layout(I32(b, 4), junk, extended, f.rate, f.channels, skipped, data, rest);
    assert Parts(b, w);
    PartsOfBytes(b, w);
  }

  /** A file has a valid layout exactly if the reader succeeds without meeting a negative chunk size. */
  lemma ReadIffLayout(b: seq<Byte>)
    ensures (exists w :: ValidLayout(w) && b == Bytes(w)) <==> ParseWave(b).Ok? && GoesForward(b)
  {
    if ParseWave(b).Ok? && GoesForward(b) {
      var w := ReadHasLayout(b);
    }
    if w :| ValidLayout(w) && b == Bytes(w) {
      LayoutIsRead(w);
    }
  }

  /** A file whose last chunk leads back into its JUNK chunk, where a data chunk stands. */
  function BackwardFile(rate: Int32, channels: Int16): seq<Byte>
    requires -0x4000 <= channels < 0x4000
  {
    HeaderBytes(0, Some(Encode32(DATA) + Encode32(0))) +
    (ChunkBytes(FMT, FormatBody(false, rate, channels)) + (Encode32(0) + Encode32(-40)))
  }

  /** Such a file is read, though it has no layout. */
  lemma BackwardIsRead(rate: Int32, channels: Int16)
    requires -0x4000 <= channels < 0x4000
    ensures var b := BackwardFile(rate, channels);
      ParseWave(b) == Ok(rate, ToInt8(channels), []) && !GoesForward(b)
  {
    var b := BackwardFile(rate, channels);
    var junk := Encode32(DATA) + Encode32(0);
    BackwardParts(b, HeaderBytes(0, Some(junk)), ChunkBytes(FMT, FormatBody(false, rate, channels)),
                  Encode32(0) + Encode32(-40));
    FormatIsRead(b, 28, false, rate, channels);
    BackwardStart(b, junk);
    TwoInts(b, 20, DATA, 0);
    BackwardWalk(b);
    ParseGives(b, 28, Format(rate, channels, 52), 28);
  }

  lemma ParseGives(b: seq<Byte>, h: nat, f: Format, q: nat)
    requires h + 8 <= |b| && FormatStart(b) == Found(h, I32(b, h + 4)) && ReadFormat(b, h) == Some(f)
    requires FindData(b, f.next) == Found(q, 0)
    ensures ParseWave(b) == Ok(f.rate, ToInt8(f.channels), []) && (GoesForward(b) ==> Forward(b, f.next))
  {
    assert b[q..q] == [];
  }

  lemma BackwardParts(b: seq<Byte>, head: seq<Byte>, f: seq<Byte>, last: seq<Byte>)
    requires b == head + (f + last)
    ensures At(b, 0, head) && At(b, |head|, f) && At(b, |head| + |f|, last)
  {
    AtWhole(b, head + (f + last));
    AtConcat(b, 0, head, f + last);
    AtConcat(b, |head|, f, last);
  }

  lemma TwoInts(b: seq<Byte>, p: nat, x: Int32, y: Int32)
    requires At(b, p, Encode32(x) + Encode32(y))
    ensures p + 8 <= |b| && I32(b, p) == x && I32(b, p + 4) == y
  {
    AtConcat(b, p, Encode32(x), Encode32(y));
    At32(b, p, x);
    At32(b, p + 4, y);
  }

  lemma BackwardStart(b: seq<Byte>, junk: seq<Byte>)
    requires |junk| == 8 && At(b, 0, HeaderBytes(0, Some(junk)))
    requires 36 <= |b| && I32(b, 28) == FMT
    ensures FormatStart(b) == Found(28, I32(b, 32)) && At(b, 20, junk)
  {
    StartIsRead(b, 0, Some(junk));
    AtHeader(b, 0, Some(junk));
    AtChunk(b, 12, JUNK, junk);
  }

  lemma BackwardWalk(b: seq<Byte>)
    requires |b| == 60 && I32(b, 20) == DATA && I32(b, 24) == 0 && At(b, 52, Encode32(0) + Encode32(-40))
    ensures FindData(b, 52) == Found(28, 0) && !Forward(b, 52)
  {
    TwoInts(b, 52, 0, -40);
    FindStep(b, 52);
    FindStep(b, 20);
  }
}

/** The message checksum of the low-level controllers: three bit-serial loops over 32-bit words,
    proved to compute one function, which is division by the CRC-32 generator over GF(2). */
module Crc {
  import opened Gf2

  // ---- Unsigned 32-bit words, most significant bit first ----

  type Word = w: Bits | |w| == 32 witness Zeros(32)

  /** The low k binary digits of n. */
  function Digits(n: nat, k: nat): (b: Bits)
    ensures |b| == k
  {
    if k == 0 then [] else Digits(n / 2, k - 1) + [n % 2 == 1]
  }

  const POLYNOMIAL: Word := Digits(0x04c11db7, 32)
  const ALL_ONES: Word := Digits(0xFFFF_FFFF, 32)

  /** 0x80000000 shifted right i times. */
  function OneBit(i: nat): (w: Word)
    ensures forall j {:trigger w[j]} :: 0 <= j < 32 ==> w[j] == (i == j)
  {
    seq(32, j => i == j)
  }

  function ShiftLeft(w: Word): Word {
    w[1..] + [false]
  }

  function ShiftRight(w: Word): Word {
    [false] + w[..31]
  }

  function And(a: Word, b: Word): (c: Word)
    ensures forall i {:trigger c[i]} :: 0 <= i < 32 ==> c[i] == (a[i] && b[i])
  {
    seq(32, i requires 0 <= i < 32 => a[i] && b[i])
  }

  predicate NonZero(w: Word) {
    exists i :: 0 <= i < 32 && w[i]
  }

  lemma TestBit(w: Word, i: nat)
    requires i < 32
    ensures NonZero(And(w, OneBit(i))) == w[i]
  {
    var c := And(w, OneBit(i));
    assert c[i] == w[i];
  }

  lemma ShiftRest(w: Word, b: nat)
    requires b < 32
    ensures ShiftLeft(w[b..] + Zeros(b)) == w[b + 1..] + Zeros(b + 1)
  {
  }

  lemma NextMask(i: nat)
    ensures ShiftRight(OneBit(i)) == OneBit(i + 1)
  {
  }

  // ---- The checksum as a function of the words ----

  /** A message as a polynomial: words in memory order. */
  function MessageBits(words: seq<Word>): (b: Bits)
    ensures |b| == 32 * |words|
  {
    if words == [] then [] else MessageBits(words[..|words| - 1]) + words[|words| - 1]
  }

  function Feed(crc: Word, bits: Bits): Word {
    Run(POLYNOMIAL, crc, bits)
  }

  function Crc32(words: seq<Word>): Word {
    Feed(ALL_ONES, MessageBits(words))
  }

  lemma Crc32Snoc(words: seq<Word>, n: nat)
    requires n < |words|
    ensures Crc32(words[..n + 1]) == Feed(Crc32(words[..n]), words[n])
  {
    assert words[..n + 1][..n] == words[..n];
    RunAppend(POLYNOMIAL, ALL_ONES, MessageBits(words[..n]), words[n]);
  }

  lemma FeedNext(crc: Word, word: Word, k: nat)
    requires k < 32
    ensures Feed(crc, word[..k + 1]) == Step(POLYNOMIAL, Feed(crc, word[..k]), word[k])
  {
    RunTake(POLYNOMIAL, crc, word, k);
  }

  /** Shifting, subtracting for the bit shifted out and subtracting again for the bit coming in
      subtracts exactly when the two differ. */
  lemma StepInParts(crc: Word, d: bool)
    ensures Step(POLYNOMIAL, crc, d) ==
            var s := if crc[0] then Xor(ShiftLeft(crc), POLYNOMIAL) else ShiftLeft(crc);
            if d then Xor(s, POLYNOMIAL) else s
  {
    var s := ShiftLeft(crc);
    XorZeros(s);
    assert Xor(Xor(s, POLYNOMIAL), POLYNOMIAL) == s;
  }

  // ---- The three loops ----

  /** The data-shifting loop: the word is shifted left and its top bit tested. */
  method Crc32DataShifting(ptr: array<Word>, len: nat) returns (crc: Word)
    requires len <= ptr.Length
    ensures crc == Crc32(ptr[..len])
  {
    crc := ALL_ONES;
    ghost var words := ptr[..len];
    for i := 0 to len
      invariant crc == Crc32(words[..i])
    {
      Crc32Snoc(words, i);
      var word := ptr[i];
      var data := word;
      ghost var start := crc;
      for b := 0 to 32
        invariant crc == Feed(start, word[..b])
        invariant data == word[b..] + Zeros(b)
      {
        TestBit(crc, 0);
        TestBit(data, 0);
        StepInParts(crc, word[b]);
        FeedNext(start, word, b);
        if NonZero(And(crc, OneBit(0))) {
          crc := Xor(ShiftLeft(crc), POLYNOMIAL);
        } else {
          crc := ShiftLeft(crc);
        }
        if NonZero(And(data, OneBit(0))) {
          crc := Xor(crc, POLYNOMIAL);
        }
        ShiftRest(word, b);
        data := ShiftLeft(data);
      }
      assert word[..32] == word;
    }
    assert words[..len] == words;
  }

  /** The moving-mask loop: the word is fixed and the tested bit moves right. */
  method Crc32MovingMask(ptr: array<Word>, len: nat) returns (crc: Word)
    requires len <= ptr.Length
    ensures crc == Crc32(ptr[..len])
  {
    crc := ALL_ONES;
    ghost var words := ptr[..len];
    for i := 0 to len
      invariant crc == Crc32(words[..i])
    {
      Crc32Snoc(words, i);
      var xbit := OneBit(0);
      var data := ptr[i];
      ghost var start := crc;
      for bits := 0 to 32
        invariant crc == Feed(start, data[..bits])
        invariant xbit == OneBit(bits)
      {
        TestBit(crc, 0);
        TestBit(data, bits);
        StepInParts(crc, data[bits]);
        FeedNext(start, data, bits);
        if NonZero(And(crc, OneBit(0))) {
          crc := ShiftLeft(crc);
          crc := Xor(crc, POLYNOMIAL);
        } else {
          crc := ShiftLeft(crc);
        }
        if NonZero(And(data, xbit)) {
          crc := Xor(crc, POLYNOMIAL);
        }
        NextMask(bits);
        xbit := ShiftRight(xbit);
      }
      assert data[..32] == data;
    }
    assert words[..len] == words;
  }

  /** The conditional-expression loop. */
  method Crc32Conditional(ptr: array<Word>, len: nat) returns (crc: Word)
    requires len <= ptr.Length
    ensures crc == Crc32(ptr[..len])
  {
    crc := ALL_ONES;
    ghost var words := ptr[..len];
    for i := 0 to len
      invariant crc == Crc32(words[..i])
    {
      Crc32Snoc(words, i);
      var data, bit := ptr[i], OneBit(0);
      ghost var start := crc;
      for j := 0 to 32
        invariant crc == Feed(start, data[..j])
        invariant bit == OneBit(j)
      {
        TestBit(crc, 0);
        TestBit(data, j);
        StepInParts(crc, data[j]);
        FeedNext(start, data, j);
        crc := if NonZero(And(crc, OneBit(0))) then Xor(ShiftLeft(crc), POLYNOMIAL) else ShiftLeft(crc);
        if NonZero(And(data, bit)) {
          crc := Xor(crc, POLYNOMIAL);
        }
        NextMask(j);
        bit := ShiftRight(bit);
      }
      assert data[..32] == data;
    }
    assert words[..len] == words;
  }
}

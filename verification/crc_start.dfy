/** The two constants of the checksum: the terms of its generator, and the register of all ones with
    which it starts, which is why zero words in front of a message, or nothing but zeros, are noticed. */
module CrcStart {
  import opened Crc
  import opened CrcDetection
  import opened CrcPeriod
  import opened Divisibility
  import opened Gf2
  import opened Powers
  import opened WordProduct

  // ---- Bits of machine words ----

  /** The first k bits of v are those of the powers of x in terms. */
  predicate Listed(v: bv32, terms: nat -> bool, k: nat)
    requires k <= 32
  {
    forall i :: 0 <= i < k ==> (Bit(v, i) <==> terms(31 - i))
  }

  lemma ListNibble(v: bv32, terms: nat -> bool, k: nat, c: bv32)
    requires k <= 28 && c == Ups(v, k) && Listed(v, terms, k)
    requires (c & 0x8000_0000 != 0 <==> terms(31 - k)) && (c & 0x4000_0000 != 0 <==> terms(30 - k))
    requires (c & 0x2000_0000 != 0 <==> terms(29 - k)) && (c & 0x1000_0000 != 0 <==> terms(28 - k))
    ensures Listed(v, terms, k + 4) && Ups(v, k + 4) == c << 4
  {
    MaskBits(c);
    UpsAdd(v, k, 1);
    UpsAdd(v, k, 2);
    UpsAdd(v, k, 3);
    UpsAdd(v, k, 4);
  }

  predicate IsTerm(e: nat) {
    e in {26, 23, 22, 16, 12, 11, 10, 8, 7, 5, 4, 2, 1, 0}
  }

  lemma GeneratorListed()
    ensures Listed(GENERATOR, IsTerm, 32)
  {
    HighTermsListed();
    ListNibble(GENERATOR, IsTerm, 16, 0x1db7_0000);
    ListNibble(GENERATOR, IsTerm, 20, 0xdb70_0000);
    ListNibble(GENERATOR, IsTerm, 24, 0xb700_0000);
    ListNibble(GENERATOR, IsTerm, 28, 0x7000_0000);
  }

  lemma HighTermsListed()
    ensures Listed(GENERATOR, IsTerm, 16) && Ups(GENERATOR, 16) == 0x1db7_0000
  {
    ListNibble(GENERATOR, IsTerm, 0, 0x04c1_1db7);
    ListNibble(GENERATOR, IsTerm, 4, 0x4c11_db70);
    ListNibble(GENERATOR, IsTerm, 8, 0xc11d_b700);
    ListNibble(GENERATOR, IsTerm, 12, 0x11db_7000);
  }

  /** The generator is x^32 + x^26 + x^23 + x^22 + x^16 + x^12 + x^11 + x^10 + x^8 + x^7 + x^5 + x^4 +
      x^2 + x + 1. */
  lemma GeneratorTerms(e: nat)
    requires e <= 32
    ensures Generator()[32 - e] <==> e in {32, 26, 23, 22, 16, 12, 11, 10, 8, 7, 5, 4, 2, 1, 0}
  {
    GeneratorIsPolynomial();
    GeneratorListed();
    if e < 32 {
      assert Generator()[32 - e] == ToWord(GENERATOR)[31 - e] == Bit(GENERATOR, 31 - e);
    }
  }

  const ONES: bv32 := 0xFFFF_FFFF

  lemma OnesListed(terms: nat -> bool)
    requires forall e :: terms(e)
    ensures Listed(ONES, terms, 32)
  {
    ListNibble(ONES, terms, 0, 0xFFFF_FFFF);
    ListNibble(ONES, terms, 4, 0xFFFF_FFF0);
    ListNibble(ONES, terms, 8, 0xFFFF_FF00);
    ListNibble(ONES, terms, 12, 0xFFFF_F000);
    ListNibble(ONES, terms, 16, 0xFFFF_0000);
    ListNibble(ONES, terms, 20, 0xFFF0_0000);
    ListNibble(ONES, terms, 24, 0xFF00_0000);
    ListNibble(ONES, terms, 28, 0xF000_0000);
  }

  lemma FirstOnes(digits: Bits) returns (more: Bits)
    requires |digits| <= 24 && StartsWith(ONES, digits, 0x0, 0xFFFF_FFFF)
    ensures |more| == |digits| + 8 && StartsWith(ONES, more, 0xFF, 0xFFFF_FF00)
  {
    more := NextNibble(ONES, digits, 0x0, 0xFFFF_FFFF, 0xF, 0xFFFF_FFF0);
    more := NextNibble(ONES, more, 0xF, 0xFFFF_FFF0, 0xFF, 0xFFFF_FF00);
  }

  lemma SecondOnes(digits: Bits) returns (more: Bits)
    requires |digits| <= 24 && StartsWith(ONES, digits, 0xFF, 0xFFFF_FF00)
    ensures |more| == |digits| + 8 && StartsWith(ONES, more, 0xFFFF, 0xFFFF_0000)
  {
    more := NextNibble(ONES, digits, 0xFF, 0xFFFF_FF00, 0xFFF, 0xFFFF_F000);
    more := NextNibble(ONES, more, 0xFFF, 0xFFFF_F000, 0xFFFF, 0xFFFF_0000);
  }

  lemma ThirdOnes(digits: Bits) returns (more: Bits)
    requires |digits| <= 24 && StartsWith(ONES, digits, 0xFFFF, 0xFFFF_0000)
    ensures |more| == |digits| + 8 && StartsWith(ONES, more, 0xFF_FFFF, 0xFF00_0000)
  {
    more := NextNibble(ONES, digits, 0xFFFF, 0xFFFF_0000, 0xF_FFFF, 0xFFF0_0000);
    more := NextNibble(ONES, more, 0xF_FFFF, 0xFFF0_0000, 0xFF_FFFF, 0xFF00_0000);
  }

  lemma FourthOnes(digits: Bits) returns (more: Bits)
    requires |digits| <= 24 && StartsWith(ONES, digits, 0xFF_FFFF, 0xFF00_0000)
    ensures |more| == |digits| + 8 && StartsWith(ONES, more, 0xFFFF_FFFF, 0x0000_0000)
  {
    more := NextNibble(ONES, digits, 0xFF_FFFF, 0xFF00_0000, 0xFFF_FFFF, 0xF000_0000);
    more := NextNibble(ONES, more, 0xFFF_FFFF, 0xF000_0000, 0xFFFF_FFFF, 0x0000_0000);
  }

  lemma OnesAreAllOnes()
    ensures ToWord(ONES) == ALL_ONES
  {
    var digits := FirstOnes([]);
    digits := SecondOnes(digits);
    digits := ThirdOnes(digits);
    digits := FourthOnes(digits);
    assert ToWord(ONES)[..|digits|] == ToWord(ONES);
  }

  /** The checksum of nothing, with which every checksum starts, is all ones. */
  lemma InitialRegister(i: nat)
    requires i < 32
    ensures Crc32([])[i]
  {
    OnesAreAllOnes();
    OnesListed(_ => true);
    assert Bit(ONES, i);
  }

  // ---- All ones as a power of x ----

  predicate IsConstantTerm(e: nat) {
    e == 0
  }

  lemma OneListed()
    ensures Listed(1, IsConstantTerm, 32)
  {
    ListNibble(1, IsConstantTerm, 0, 0x0000_0001);
    ListNibble(1, IsConstantTerm, 4, 0x0000_0010);
    ListNibble(1, IsConstantTerm, 8, 0x0000_0100);
    ListNibble(1, IsConstantTerm, 12, 0x0000_1000);
    ListNibble(1, IsConstantTerm, 16, 0x0001_0000);
    ListNibble(1, IsConstantTerm, 20, 0x0010_0000);
    ListNibble(1, IsConstantTerm, 24, 0x0100_0000);
    ListNibble(1, IsConstantTerm, 28, 0x1000_0000);
  }

  lemma OneIsPower(poly: Word)
    ensures IsPower(poly, 0, 1)
  {
    OneListed();
    RaisedOnce(poly, One(32));
    assert ToWord(1) == One(32);
  }

  lemma NextPower(poly: Word, k: nat, u: bv32, w: bv32)
    requires poly == ToWord(GENERATOR) && IsPower(poly, k, u) && !Top(u) && w == Up(u)
    ensures IsPower(poly, k + 1, w)
  {
    DoubledIsTimesX(poly, u, w);
    RaisedTimesX(poly, One(32), k);
  }

  lemma SmallPowers(poly: Word)
    requires poly == ToWord(GENERATOR)
    ensures IsPower(poly, 4, 0x10) && IsPower(poly, 6, 0x40) && IsPower(poly, 8, 0x100)
    ensures IsPower(poly, 9, 0x200) && IsPower(poly, 11, 0x800)
  {
    OneIsPower(poly);
    NextPower(poly, 0, 0x1, 0x2);
    NextPower(poly, 1, 0x2, 0x4);
    NextPower(poly, 2, 0x4, 0x8);
    NextPower(poly, 3, 0x8, 0x10);
    NextPower(poly, 4, 0x10, 0x20);
    NextPower(poly, 5, 0x20, 0x40);
    NextPower(poly, 6, 0x40, 0x80);
    NextPower(poly, 7, 0x80, 0x100);
    NextPower(poly, 8, 0x100, 0x200);
    NextPower(poly, 9, 0x200, 0x400);
    NextPower(poly, 10, 0x400, 0x800);
  }

  /** x^(16 k + d) from x^k and x^d. */
  lemma NextDigit(poly: Word, k: nat, u: bv32, u2: bv32, u4: bv32, u8: bv32, u16: bv32, d: nat, v: bv32, w: bv32)
    requires poly == ToWord(GENERATOR) && IsPower(poly, k, u) && IsPower(poly, d, v)
    requires Product(u, u) == u2 && Product(u2, u2) == u4 && Product(u4, u4) == u8 && Product(u8, u8) == u16
    requires Product(u16, v) == w
    ensures IsPower(poly, 16 * k + d, w)
  {
    Raised16(poly, k, u, u2, u4, u8, u16);
    Multiplied(poly, 16 * k, u16, d, v, w);
  }

  const LOG := 0xb844_9066

  lemma PowerB8(poly: Word)
    requires poly == ToWord(GENERATOR) && IsPower(poly, 0xb, 0x800) && IsPower(poly, 8, 0x100)
    ensures IsPower(poly, 0xb8, 0x3402_8fd6)
  {
    NextDigit(poly, 0xb, 0x800, 0x0040_0000, 0x1051_9b13, 0x5ba1_dcca, 0x0a1b_8859, 8, 0x100, 0x3402_8fd6);
  }

  lemma PowerB84(poly: Word)
    requires poly == ToWord(GENERATOR) && IsPower(poly, 0xb8, 0x3402_8fd6) && IsPower(poly, 4, 0x10)
    ensures IsPower(poly, 0xb84, 0x1014_595b)
  {
    NextDigit(poly, 0xb8, 0x3402_8fd6, 0xee43_390a, 0x34e4_5a63, 0xf474_0741, 0x507d_1323, 4, 0x10, 0x1014_595b);
  }

  lemma PowerB844(poly: Word)
    requires poly == ToWord(GENERATOR) && IsPower(poly, 0xb84, 0x1014_595b) && IsPower(poly, 4, 0x10)
    ensures IsPower(poly, 0xb844, 0xa662_21e4)
  {
    NextDigit(poly, 0xb84, 0x1014_595b, 0x5324_915e, 0x65f7_4202, 0x1a49_a264, 0xc936_eba8, 4, 0x10, 0xa662_21e4);
  }

  lemma PowerB8449(poly: Word)
    requires poly == ToWord(GENERATOR) && IsPower(poly, 0xb844, 0xa662_21e4) && IsPower(poly, 9, 0x200)
    ensures IsPower(poly, 0xb_8449, 0xf1d2_a53f)
  {
    NextDigit(poly, 0xb844, 0xa662_21e4, 0xf57e_3e4a, 0x7366_b94a, 0x1e17_e2d8, 0x6d67_e19c, 9, 0x200, 0xf1d2_a53f);
  }

  lemma PowerB84490(poly: Word)
    requires poly == ToWord(GENERATOR) && IsPower(poly, 0xb_8449, 0xf1d2_a53f)
    ensures IsPower(poly, 0xb8_4490, 0x02a6_7d71)
  {
    Raised16(poly, 0xb_8449, 0xf1d2_a53f, 0x535c_82c9, 0xd718_0806, 0x0785_4015, 0x02a6_7d71);
  }

  lemma PowerB844906(poly: Word)
    requires poly == ToWord(GENERATOR) && IsPower(poly, 0xb8_4490, 0x02a6_7d71) && IsPower(poly, 6, 0x40)
    ensures IsPower(poly, 0xb84_4906, 0x8a85_2594)
  {
    NextDigit(poly, 0xb8_4490, 0x02a6_7d71, 0x4944_4754, 0xccb2_f197, 0xddd8_efb6, 0x73ce_6196, 6, 0x40, 0x8a85_2594);
  }

  lemma PowerLog(poly: Word)
    requires poly == ToWord(GENERATOR) && IsPower(poly, 0xb84_4906, 0x8a85_2594) && IsPower(poly, 6, 0x40)
    ensures IsPower(poly, LOG, ONES)
  {
    NextDigit(poly, 0xb84_4906, 0x8a85_2594, 0xaddd_e812, 0x6c87_1850, 0xfb92_4541, 0x6644_9f52, 6, 0x40, ONES);
  }

  lemma OnesArePower(poly: Word)
    requires poly == ToWord(GENERATOR)
    ensures IsPower(poly, LOG, ONES)
  {
    SmallPowers(poly);
    PowerB8(poly);
    PowerB84(poly);
    PowerB844(poly);
    PowerB8449(poly);
    PowerB84490(poly);
    PowerB844906(poly);
    PowerLog(poly);
  }

  // ---- Zeros in front of a message ----

  function ZeroWords(n: nat): (words: seq<Word>)
    ensures |words| == n && forall i :: 0 <= i < n ==> words[i] == Zeros(32)
  {
    seq(n, _ => Zeros(32))
  }

  lemma {:induction false} ZeroWordBits(n: nat)
    ensures MessageBits(ZeroWords(n)) == Zeros(32 * n)
  {
    if n > 0 {
      ZeroWordBits(n - 1);
      assert ZeroWords(n)[..n - 1] == ZeroWords(n - 1);
    }
  }

  lemma {:induction false} BitsAppend(a: seq<Word>, b: seq<Word>)
    ensures MessageBits(a + b) == MessageBits(a) + MessageBits(b)
    decreases |b|
  {
    if b == [] {
      assert a + b == a && MessageBits(a) + [] == MessageBits(a);
    } else {
      var front, word := b[..|b| - 1], b[|b| - 1];
      BitsAppend(a, front);
      BitsSnoc(a + front, word);
      BitsSnoc(front, word);
      assert b == front + [word] && a + (front + [word]) == a + front + [word];
      assert MessageBits(a) + (MessageBits(front) + word) == MessageBits(a) + MessageBits(front) + word;
    }
  }

  lemma BitsSnoc(words: seq<Word>, word: Word)
    ensures MessageBits(words + [word]) == MessageBits(words) + word
  {
    assert (words + [word])[..|words|] == words;
  }

  /** Words follow each other in memory order, each from its most significant bit on. */
  lemma {:induction false} MessageOrder(words: seq<Word>, i: nat, j: nat)
    requires i < |words| && j < 32
    ensures 32 * i + j < |MessageBits(words)| && MessageBits(words)[32 * i + j] == words[i][j]
    decreases |words|
  {
    if i < |words| - 1 {
      MessageOrder(words[..|words| - 1], i, j);
    }
  }

  lemma StartShifted(n: nat, words: seq<Word>)
    ensures Crc32(ZeroWords(n) + words) == Feed(Raised(POLYNOMIAL, ALL_ONES, 32 * n), MessageBits(words))
  {
    ZeroWordBits(n);
    BitsAppend(ZeroWords(n), words);
    RunAppend(POLYNOMIAL, ALL_ONES, Zeros(32 * n), MessageBits(words));
  }

  lemma SameRegister(a: Word, b: Word, bits: Bits)
    ensures Feed(a, bits) == Feed(b, bits) <==> a == b
  {
    ConstantTerm();
    RunUnrun(POLYNOMIAL, a, bits);
    RunUnrun(POLYNOMIAL, b, bits);
  }

  /** Raising all ones gives them back exactly for the exponents that return. */
  lemma OnesReturnIff(poly: Word, ones: Word, k: nat)
    requires poly[31] && ones == Power(poly, LOG)
    ensures Raised(poly, ones, k) == ones <==> Returns(poly, k)
  {
    RaisedTwice(poly, One(32), LOG, k);
    SamePower(poly, LOG, k);
  }

  lemma ThirtyTwoTimes(n: nat, q: nat, r: nat, c: nat, t: nat)
    requires n == PERIOD * q + r && r < PERIOD && 32 * n == PERIOD * c + t && t < PERIOD
    ensures t == 0 <==> r == 0
  {
    if t == 0 {
      NoCommonFactor(q, r, c);
    }
    if r == 0 {
      NoRest(32 * n, 32 * q, c, t);
    }
  }

  /** 32 r is a multiple of the period for no smaller r than 0, since 2^27 * 32 exceeds it by one. */
  lemma NoCommonFactor(q: nat, r: nat, c: nat)
    requires r < PERIOD && 32 * (PERIOD * q + r) == PERIOD * c
    ensures r == 0
  {
    var m := c - 32 * q;
    assert 32 * r == PERIOD * m;
    assert r == PERIOD * (0x800_0000 * m - r);
  }

  /** Zero words in front of a message go unnoticed exactly if their number is a multiple of 2^32 - 1. */
  lemma LeadingZeros(n: nat, words: seq<Word>)
    ensures Crc32(ZeroWords(n) + words) == Crc32(words) <==> n % PERIOD == 0
  {
    ConstantTerm();
    GeneratorIsPolynomial();
    OnesAreAllOnes();
    OnesArePower(POLYNOMIAL);
    StartShifted(n, words);
    SameRegister(Raised(POLYNOMIAL, ALL_ONES, 32 * n), ALL_ONES, MessageBits(words));
    OnesReturnIff(POLYNOMIAL, ALL_ONES, 32 * n);
    PeriodOfCrc(32 * n);
    ThirtyTwoTimes(n, n / PERIOD, n % PERIOD, 32 * n / PERIOD, 32 * n % PERIOD);
  }

  /** A message of nothing but zeros is rejected. */
  lemma ZerosRejected(n: nat)
    requires n > 0
    ensures !Accepts(ZeroWords(n))
  {
    InitialRegister(0);
    AcceptsIffEmptied(ZeroWords(n));
    ZeroWordBits(n);
    RunZeros(POLYNOMIAL, Zeros(32 * n));
    SameRegister(ALL_ONES, Zeros(32), Zeros(32 * n));
  }

  lemma PowerOfZeroWord(poly: Word, ones: Word)
    requires poly == ToWord(GENERATOR) && ones == ToWord(ONES)
    ensures Raised(poly, ones, 32) == ToWord(0xc704_dd7b)
  {
    OnesArePower(poly);
    GeneratorIsPower(poly);
    Multiplied(poly, LOG, ONES, 32, GENERATOR, 0xc704_dd7b);
    RaisedTwice(poly, One(32), LOG, 32);
  }

  /** The checksum of a single zero word. */
  lemma ChecksumOfZero()
    ensures Crc32([Zeros(32)]) == ToWord(0xc704_dd7b)
  {
    GeneratorIsPolynomial();
    OnesAreAllOnes();
    PowerOfZeroWord(POLYNOMIAL, ALL_ONES);
    StartShifted(1, []);
    assert ZeroWords(1) + [] == [Zeros(32)];
  }
}

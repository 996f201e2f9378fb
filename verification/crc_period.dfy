/** How far apart two wrong bits may be without cancelling in the checksum: the powers of x modulo
    its generator repeat only after 2^32 - 1 steps, which is longer than any message here. */
module CrcPeriod {
  import opened Crc
  import opened CrcDetection
  import opened Divisibility
  import opened Gf2
  import opened Powers
  import opened WordProduct

  // ---- Powers as machine words ----

  ghost predicate IsPower(poly: Word, k: nat, v: bv32) {
    ToWord(v) == Power(poly, k)
  }

  lemma Multiplied(poly: Word, i: nat, u: bv32, j: nat, v: bv32, w: bv32)
    requires poly == ToWord(GENERATOR) && IsPower(poly, i, u) && IsPower(poly, j, v) && Product(u, v) == w
    ensures IsPower(poly, i + j, w)
  {
    ProductIsHorner(poly, u, v);
    PowersMultiply(poly, i, j);
  }

  /** Four squarings. */
  lemma Raised16(poly: Word, k: nat, u: bv32, u2: bv32, u4: bv32, u8: bv32, u16: bv32)
    requires poly == ToWord(GENERATOR) && IsPower(poly, k, u)
    requires Product(u, u) == u2 && Product(u2, u2) == u4 && Product(u4, u4) == u8 && Product(u8, u8) == u16
    ensures IsPower(poly, 2 * k, u2) && IsPower(poly, 4 * k, u4)
    ensures IsPower(poly, 8 * k, u8) && IsPower(poly, 16 * k, u16)
  {
    Multiplied(poly, k, u, k, u, u2);
    Multiplied(poly, 2 * k, u2, 2 * k, u2, u4);
    Multiplied(poly, 4 * k, u4, 4 * k, u4, u8);
    Multiplied(poly, 8 * k, u8, 8 * k, u8, u16);
  }

  lemma GeneratorIsPower(poly: Word)
    requires poly == ToWord(GENERATOR)
    ensures IsPower(poly, 32, GENERATOR)
  {
    GeneratorPower(poly);
  }

  const TOP: bv32 := 0x8000_0000

  lemma TopIsPower(poly: Word)
    ensures IsPower(poly, 31, TOP)
  {
    SmallPower(poly, 31);
    assert Up(TOP) == 0;
    forall i | 0 < i < 32 ensures !Bit(TOP, i) {
      UpsAdd(TOP, 1, i - 1);
      UpsZero(i - 1);
    }
    assert Bit(TOP, 0);
    assert ToWord(TOP) == Zeros(0) + [true] + Zeros(31);
  }

  // x^32 raised to the powers 2^4, 2^8, ..., and in the last four squarings x to 2^32.

  lemma Power4(poly: Word)
    requires poly == ToWord(GENERATOR) && IsPower(poly, 0x20, 0x04c1_1db7)
    ensures IsPower(poly, 0x200, 0xe622_8b11)
  {
    Raised16(poly, 0x20, 0x04c1_1db7, 0x490d_678d, 0xe8a4_5605, 0x75be_46b7, 0xe622_8b11);
  }

  lemma Power8(poly: Word)
    requires poly == ToWord(GENERATOR) && IsPower(poly, 0x200, 0xe622_8b11)
    ensures IsPower(poly, 0x2000, 0x7001_e426)
  {
    Raised16(poly, 0x200, 0xe622_8b11, 0x567f_ddeb, 0x88fe_2237, 0x0e85_7e71, 0x7001_e426);
  }

  lemma Power12(poly: Word)
    requires poly == ToWord(GENERATOR) && IsPower(poly, 0x2000, 0x7001_e426)
    ensures IsPower(poly, 0x2_0000, 0x58f4_6c0c)
  {
    Raised16(poly, 0x2000, 0x7001_e426, 0x075d_e2b2, 0xf12a_7f90, 0xf0b4_a1c1, 0x58f4_6c0c);
  }

  lemma Power16(poly: Word)
    requires poly == ToWord(GENERATOR) && IsPower(poly, 0x2_0000, 0x58f4_6c0c)
    ensures IsPower(poly, 0x20_0000, 0x23b7_b136)
  {
    Raised16(poly, 0x2_0000, 0x58f4_6c0c, 0xc339_5ade, 0x9683_7f8c, 0x5440_37f9, 0x23b7_b136);
  }

  lemma Power20(poly: Word)
    requires poly == ToWord(GENERATOR) && IsPower(poly, 0x20_0000, 0x23b7_b136)
    ensures IsPower(poly, 0x200_0000, 0xf77a_7274)
  {
    Raised16(poly, 0x20_0000, 0x23b7_b136, 0xb2e1_6ba8, 0x725e_7bfa, 0xec70_9b5d, 0xf77a_7274);
  }

  lemma Power24(poly: Word)
    requires poly == ToWord(GENERATOR) && IsPower(poly, 0x200_0000, 0xf77a_7274)
    ensures IsPower(poly, 0x2000_0000, 0x540c_b128)
  {
    Raised16(poly, 0x200_0000, 0xf77a_7274, 0x2845_d572, 0x034e_2515, 0x7969_5942, 0x540c_b128);
  }

  lemma Power28(poly: Word)
    requires poly == ToWord(GENERATOR) && IsPower(poly, 0x2000_0000, 0x540c_b128)
    ensures IsPower(poly, 0x1_0000_0000, 0x0000_0002)
  {
    Raised16(poly, 0x2000_0000, 0x540c_b128, 0x0b65_d023, 0x3c34_4723, 0x0000_0002, 0x0000_0004);
  }

  // ---- The period ----

  lemma DifferentPowers(poly: Word, i: nat, u: bv32, k: nat, v: bv32, j: nat)
    requires poly[31] && IsPower(poly, i, u) && IsPower(poly, i + k, v) && j < 32 && Bit(u, j) != Bit(v, j)
    ensures !Returns(poly, k)
  {
    assert ToWord(u)[j] != ToWord(v)[j];
    SamePower(poly, i, k);
  }

  lemma LastBitsDiffer(u: bv32, v: bv32)
    requires u ^ v == 1
    ensures Bit(u, 31) != Bit(v, 31)
  {
    LastBitMask();
    UpsXor(u, v, 1, 31);
    UpXor(Ups(u, 31), Ups(v, 31));
  }

  /** x^(2^32) is x. */
  lemma PeriodReturns(poly: Word)
    requires poly == ToWord(GENERATOR) && poly[31] && IsPower(poly, 0x1_0000_0000, 0x0000_0002)
    ensures Returns(poly, PERIOD)
  {
    TopIsPower(poly);
    GeneratorIsPower(poly);
    Multiplied(poly, 0x1_0000_0000, 0x0000_0002, 31, TOP, GENERATOR);
    SamePower(poly, 32, PERIOD);
  }

  /** x^32 to the powers that 2^32 - 1 leaves when one of its primes is taken out is never 1. */
  lemma Cofactor65537(poly: Word)
    requires poly[31] && IsPower(poly, 32, GENERATOR) && IsPower(poly, 0x20_0000, 0x23b7_b136)
    ensures !Returns(poly, 32 * 0xFFFF)
  {
    DifferentPowers(poly, 32, GENERATOR, 32 * 0xFFFF, 0x23b7_b136, 2);
  }

  lemma Cofactor257(poly: Word)
    requires poly == ToWord(GENERATOR) && poly[31] && IsPower(poly, 32, GENERATOR)
    requires IsPower(poly, 0x2000, 0x7001_e426) && IsPower(poly, 0x20_0000, 0x23b7_b136)
    requires IsPower(poly, 0x2000_0000, 0x540c_b128)
    ensures !Returns(poly, 32 * 0xFF_00FF)
    ensures IsPower(poly, 32 * 0x101_0101, 0xf2e8_2a85)
  {
    Multiplied(poly, 32, GENERATOR, 0x20_0000, 0x23b7_b136, 0xeb8f_3c49);
    Multiplied(poly, 0x2000, 0x7001_e426, 0x2000_0000, 0x540c_b128, 0xbc6b_2905);
    Multiplied(poly, 32 * 0x1_0001, 0xeb8f_3c49, 32 * 0x100_0100, 0xbc6b_2905, 0xf2e8_2a85);
    DifferentPowers(poly, 32 * 0x1_0001, 0xeb8f_3c49, 32 * 0xFF_00FF, 0xbc6b_2905, 1);
  }

  lemma Cofactor17(poly: Word)
    requires poly == ToWord(GENERATOR) && poly[31] && IsPower(poly, 32 * 0x101_0101, 0xf2e8_2a85)
    ensures !Returns(poly, 32 * 0xF0F_0F0F)
    ensures IsPower(poly, 32 * 0x1111_1111, 0xca31_ae5f)
  {
    Raised16(poly, 32 * 0x101_0101, 0xf2e8_2a85, 0xa50c_3fc8, 0xcc76_43e0, 0x85da_d68c, 0x38d9_84da);
    Multiplied(poly, 32 * 0x101_0101, 0xf2e8_2a85, 32 * 0x1010_1010, 0x38d9_84da, 0xca31_ae5f);
    DifferentPowers(poly, 32 * 0x101_0101, 0xf2e8_2a85, 32 * 0xF0F_0F0F, 0x38d9_84da, 0);
  }

  lemma Cofactor5(poly: Word)
    requires poly == ToWord(GENERATOR) && poly[31] && IsPower(poly, 32 * 0x1111_1111, 0xca31_ae5f)
    ensures !Returns(poly, 32 * 0x3333_3333)
    ensures IsPower(poly, 32 * 0x5555_5555, 0x4ad7_6ce2)
  {
    Multiplied(poly, 32 * 0x1111_1111, 0xca31_ae5f, 32 * 0x1111_1111, 0xca31_ae5f, 0x80e6_c2bd);
    Multiplied(poly, 32 * 0x2222_2222, 0x80e6_c2bd, 32 * 0x2222_2222, 0x80e6_c2bd, 0xca31_ae5e);
    Multiplied(poly, 32 * 0x1111_1111, 0xca31_ae5f, 32 * 0x4444_4444, 0xca31_ae5e, 0x4ad7_6ce2);
    LastBitsDiffer(0xca31_ae5f, 0xca31_ae5e);
    DifferentPowers(poly, 32 * 0x1111_1111, 0xca31_ae5f, 32 * 0x3333_3333, 0xca31_ae5e, 31);
  }

  lemma Cofactor3(poly: Word)
    requires poly == ToWord(GENERATOR) && poly[31] && IsPower(poly, 32, GENERATOR)
    requires IsPower(poly, 32 * 0x5555_5555, 0x4ad7_6ce2)
    ensures !Returns(poly, 32 * 0x5555_5555)
  {
    Multiplied(poly, 32, GENERATOR, 32 * 0x5555_5555, 0x4ad7_6ce2, 0x74bd_e8a5);
    DifferentPowers(poly, 32, GENERATOR, 32 * 0x5555_5555, 0x74bd_e8a5, 1);
  }

  lemma PowersOfGenerator(poly: Word)
    requires poly == ToWord(GENERATOR) && poly[31]
    ensures Returns(poly, PERIOD) && !Returns(poly, 32 * 0xFFFF) && !Returns(poly, 32 * 0xFF_00FF)
    ensures !Returns(poly, 32 * 0xF0F_0F0F) && !Returns(poly, 32 * 0x3333_3333) && !Returns(poly, 32 * 0x5555_5555)
  {
    GeneratorIsPower(poly);
    Power4(poly);
    Power8(poly);
    Power12(poly);
    Power16(poly);
    Power20(poly);
    Power24(poly);
    Power28(poly);
    PeriodReturns(poly);
    Cofactor65537(poly);
    Cofactor257(poly);
    Cofactor17(poly);
    Cofactor5(poly);
    Cofactor3(poly);
  }

  lemma NotReturning(s: iset<nat>, k: nat)
    requires Closed(s) && 32 * k !in s
    ensures k !in s
  {
    if k in s {
      MultipleInClosed(s, k, 32);
    }
  }

  /** A divisor of the period that returns is the period itself. */
  lemma OnlyPeriodReturns(s: iset<nat>, g: nat, m: nat)
    requires Closed(s) && g in s && PERIOD == g * m
    requires 0xFFFF !in s && 0xFF_00FF !in s && 0xF0F_0F0F !in s && 0x3333_3333 !in s && 0x5555_5555 !in s
    ensures m == 1
  {
    if m != 1 {
      ProperFactorMissesPrime(g, m);
      if IsFactor(3, m) {
        CofactorInClosed(s, g, m, 3, 0x5555_5555);
      } else if IsFactor(5, m) {
        CofactorInClosed(s, g, m, 5, 0x3333_3333);
      } else if IsFactor(17, m) {
        CofactorInClosed(s, g, m, 17, 0xF0F_0F0F);
      } else if IsFactor(257, m) {
        CofactorInClosed(s, g, m, 257, 0xFF_00FF);
      } else {
        CofactorInClosed(s, g, m, 65537, 0xFFFF);
      }
    }
  }

  lemma CofactorInClosed(s: iset<nat>, g: nat, m: nat, p: nat, k: nat)
    requires Closed(s) && g in s && PERIOD == g * m && IsFactor(p, m) && PERIOD == p * k && p > 0
    ensures k in s
  {
    var c: int :| m == p * c;
    assert p * k == p * (g * c);
    assert k == g * c;
    assert c >= 0;
    MultipleInClosed(s, g, c);
  }

  /** x^k is 1 modulo the generator of the checksum exactly for the multiples of 2^32 - 1. */
  lemma PeriodOfCrc(k: nat)
    ensures Returns(POLYNOMIAL, k) <==> k % PERIOD == 0
  {
    GeneratorIsPolynomial();
    ConstantTerm();
    PowersOfGenerator(POLYNOMIAL);
    var s := ReturningIsClosed(POLYNOMIAL);
    PeriodOfClosed(s, k);
  }

  lemma PeriodOfClosed(s: iset<nat>, k: nat)
    requires Closed(s) && PERIOD in s
    requires 32 * 0xFFFF !in s && 32 * 0xFF_00FF !in s && 32 * 0xF0F_0F0F !in s
    requires 32 * 0x3333_3333 !in s && 32 * 0x5555_5555 !in s
    ensures k in s <==> k % PERIOD == 0
  {
    if k % PERIOD == 0 {
      MultipleInClosed(s, PERIOD, k / PERIOD);
    }
    if k in s {
      NotReturning(s, 0xFFFF);
      NotReturning(s, 0xFF_00FF);
      NotReturning(s, 0xF0F_0F0F);
      NotReturning(s, 0x3333_3333);
      NotReturning(s, 0x5555_5555);
      GcdInClosed(s, k, PERIOD);
      var m := PeriodOverGcd(k);
      OnlyPeriodReturns(s, Gcd(k, PERIOD), m);
      WholeFactor(k);
    }
  }

  lemma PeriodOverGcd(k: nat) returns (m: nat)
    ensures PERIOD == Gcd(k, PERIOD) * m
  {
    GcdIsFactor(k, PERIOD);
    var c: int :| PERIOD == Gcd(k, PERIOD) * c;
    assert c >= 0;
    m := c;
  }

  lemma WholeFactor(k: nat)
    requires Gcd(k, PERIOD) == PERIOD
    ensures k % PERIOD == 0
  {
    GcdIsFactor(k, PERIOD);
    var c: int :| k == PERIOD * c;
    NoRest(k, c, k / PERIOD, k % PERIOD);
  }

  lemma NoRest(k: nat, c: int, q: int, r: int)
    requires k == PERIOD * c == PERIOD * q + r && 0 <= r < PERIOD
    ensures r == 0
  {
  }

  // ---- Two wrong bits in a message ----

  ghost predicate DifferInTwo(a: Bits, b: Bits, i: nat, j: nat) {
    |a| == |b| && i < j < |a| && forall t :: 0 <= t < |a| ==> (a[t] != b[t] <==> t == i || t == j)
  }

  lemma ErrorOfTwo(a: Bits, b: Bits, i: nat, j: nat)
    requires DifferInTwo(a, b, i, j)
    ensures Xor(a, b) == TwoBits(i, j - i, |a| - 1 - j)
  {
  }

  /** Two flipped bits of an accepted message go unnoticed exactly if their distance is a multiple of
      2^32 - 1. */
  lemma TwoBitErrors(sent: seq<Word>, received: seq<Word>, i: nat, j: nat)
    requires |sent| == |received| > 0 && Accepts(sent)
    requires DifferInTwo(MessageBits(sent), MessageBits(received), i, j)
    ensures Accepts(received) <==> (j - i) % PERIOD == 0
  {
    AcceptsIffEmptied(sent);
    AcceptsIffEmptied(received);
    TwoBitsInBits(MessageBits(sent), MessageBits(received), i, j);
  }

  lemma TwoBitsInBits(v: Bits, u: Bits, i: nat, j: nat)
    requires DifferInTwo(v, u, i, j) && Feed(ALL_ONES, v) == Zeros(32)
    ensures Feed(ALL_ONES, u) == Zeros(32) <==> (j - i) % PERIOD == 0
  {
    ConstantTerm();
    PeriodOfCrc(j - i);
    ErrorOfTwo(v, u, i, j);
    XorBack(v, u);
    ErrorAlone(POLYNOMIAL, ALL_ONES, v, Xor(v, u));
    TwoBitsCancelIff(POLYNOMIAL, i, j - i, |v| - 1 - j);
  }

  /** So in messages of at most 2^32 - 32 bits they are always rejected. */
  lemma TwoBitErrorsRejected(sent: seq<Word>, received: seq<Word>, i: nat, j: nat)
    requires 0 < |sent| == |received| <= 0x7FF_FFFF && Accepts(sent)
    requires DifferInTwo(MessageBits(sent), MessageBits(received), i, j)
    ensures !Accepts(received)
  {
    TwoBitErrors(sent, received, i, j);
  }
}

/** Checksum words as machine integers: their product modulo the generator of the checksum, computed
    by shifting and masking, is the product of the polynomials. */
module WordProduct {
  import opened Crc
  import opened Gf2
  import opened Powers

  // ---- Words as machine integers ----

  predicate Top(v: bv32) {
    v & 0x8000_0000 != 0
  }

  /** v shifted left by one place, and by n. */
  function Up(v: bv32): bv32 {
    v << 1
  }

  function Ups(v: bv32, n: nat): bv32
    decreases n
  {
    if n == 0 then v else Up(Ups(v, n - 1))
  }

  /** Bit i of v, most significant first. */
  predicate Bit(v: bv32, i: nat) {
    Top(Ups(v, i))
  }

  function ToWord(v: bv32): Word {
    seq(32, i requires 0 <= i < 32 => Bit(v, i))
  }

  lemma UpXor(u: bv32, v: bv32)
    ensures Up(u ^ v) == Up(u) ^ Up(v) && Top(u ^ v) == (Top(u) != Top(v))
  {
  }

  lemma {:induction false} UpsXor(u: bv32, v: bv32, w: bv32, n: nat)
    requires w == u ^ v
    ensures Ups(w, n) == Ups(u, n) ^ Ups(v, n)
    decreases n
  {
    if n > 0 {
      UpsXor(u, v, w, n - 1);
      UpXor(Ups(u, n - 1), Ups(v, n - 1));
    }
  }

  lemma WordXor(u: bv32, v: bv32)
    ensures ToWord(u ^ v) == Xor(ToWord(u), ToWord(v))
  {
    forall i | 0 <= i < 32 ensures ToWord(u ^ v)[i] == Xor(ToWord(u), ToWord(v))[i] {
      UpsXor(u, v, u ^ v, i);
      UpXor(Ups(u, i), Ups(v, i));
    }
  }

  lemma {:induction false} UpsAdd(v: bv32, j: nat, k: nat)
    ensures Ups(v, j + k) == Ups(Ups(v, j), k)
    decreases k
  {
    if k > 0 {
      UpsAdd(v, j, k - 1);
    }
  }

  /** Shifting keeps two words without a common bit apart. */
  lemma {:induction false} UpsApart(u: bv32, v: bv32, n: nat) returns (x: bv32, y: bv32)
    requires u & v == 0
    ensures x == Ups(u, n) && y == Ups(v, n) && x & y == 0
    decreases n
  {
    x, y := u, v;
    if n > 0 {
      x, y := UpsApart(u, v, n - 1);
      x, y := UpApart(x, y);
    }
  }

  lemma UpApart(u: bv32, v: bv32) returns (x: bv32, y: bv32)
    requires u & v == 0
    ensures x == Up(u) && y == Up(v) && x & y == 0
  {
    x, y := Up(u), Up(v);
  }

  lemma LastBitMask()
    ensures Ups(1, 31) == 0x8000_0000
  {
    assert Ups(1, 8) == 0x100 && Ups(0x100, 8) == 0x1_0000;
    assert Ups(0x1_0000, 8) == 0x100_0000 && Ups(0x100_0000, 7) == 0x8000_0000;
    UpsAdd(1, 8, 8);
    UpsAdd(1, 16, 8);
    UpsAdd(1, 24, 7);
  }

  lemma LastBitOfUp(v: bv32)
    ensures !Bit(Up(v), 31)
  {
    LastBitMask();
    EvenAnd(v);
    var x, y := UpsApart(Up(v), 1, 31);
  }

  lemma EvenAnd(v: bv32)
    ensures Up(v) & 1 == 0
  {
  }

  /** Shifting a word is shifting its bits. */
  lemma WordUp(v: bv32)
    ensures ToWord(Up(v)) == ToWord(v)[1..] + [false]
  {
    forall i | 0 <= i < 31 ensures Bit(Up(v), i) == Bit(v, i + 1) {
      UpsAdd(v, 1, i);
    }
    LastBitOfUp(v);
  }

  // ---- The generator as a machine word ----

  const GENERATOR: bv32 := 0x04c1_1db7

  function Halved(n: nat, j: nat): nat
    decreases j
  {
    if j == 0 then n else Halved(n / 2, j - 1)
  }

  lemma {:induction false} DigitsSplit(n: nat, k: nat, j: nat)
    ensures Digits(n, k + j) == Digits(Halved(n, j), k) + Digits(n, j)
    decreases j
  {
    if j > 0 {
      DigitsSplit(n / 2, k, j - 1);
    }
  }

  /** m is n and one more hexadecimal digit, the one at the top of u; w is what follows in u. */
  predicate IsNibble(n: nat, u: bv32, m: nat, w: bv32) {
    m / 16 == n && w == Ups(u, 4) && Digits(m, 4) == [Top(u), Top(Ups(u, 1)), Top(Ups(u, 2)), Top(Ups(u, 3))]
  }

  /** v starts with these digits, the binary digits of n; u is what follows. */
  ghost predicate StartsWith(v: bv32, digits: Bits, n: nat, u: bv32)
    requires |digits| <= 32
  {
    ToWord(v)[..|digits|] == digits == Digits(n, |digits|) && u == Ups(v, |digits|)
  }

  lemma NextNibble(v: bv32, digits: Bits, n: nat, u: bv32, m: nat, w: bv32) returns (more: Bits)
    requires |digits| <= 28 && StartsWith(v, digits, n, u) && IsNibble(n, u, m, w)
    ensures |more| == |digits| + 4 && StartsWith(v, more, m, w)
  {
    var k, d := |digits|, Digits(m, 4);
    more := digits + d;
    FourBits(v, k, u);
    UpsAdd(v, k, 4);
    DigitsSplit(m, k, 4);
    assert Halved(m, 4) == m / 16;
  }

  lemma FourBits(v: bv32, k: nat, u: bv32)
    requires k <= 28 && u == Ups(v, k)
    ensures ToWord(v)[..k + 4] == ToWord(v)[..k] + [Top(u), Top(Ups(u, 1)), Top(Ups(u, 2)), Top(Ups(u, 3))]
  {
    UpsAdd(v, k, 1);
    UpsAdd(v, k, 2);
    UpsAdd(v, k, 3);
    FourMore(ToWord(v), k);
  }

  lemma FourMore(w: Bits, k: nat)
    requires k + 4 <= |w|
    ensures w[..k + 4] == w[..k] + [w[k], w[k + 1], w[k + 2], w[k + 3]]
  {
  }

  lemma FirstByte(v: bv32, digits: Bits) returns (more: Bits)
    requires |digits| <= 24 && StartsWith(v, digits, 0x0, 0x04c1_1db7)
    ensures |more| == |digits| + 8 && StartsWith(v, more, 0x4, 0xc11d_b700)
  {
    more := NextNibble(v, digits, 0x0, 0x04c1_1db7, 0x0, 0x4c11_db70);
    more := NextNibble(v, more, 0x0, 0x4c11_db70, 0x4, 0xc11d_b700);
  }

  lemma SecondByte(v: bv32, digits: Bits) returns (more: Bits)
    requires |digits| <= 24 && StartsWith(v, digits, 0x4, 0xc11d_b700)
    ensures |more| == |digits| + 8 && StartsWith(v, more, 0x4c1, 0x1db7_0000)
  {
    more := NextNibble(v, digits, 0x4, 0xc11d_b700, 0x4c, 0x11db_7000);
    more := NextNibble(v, more, 0x4c, 0x11db_7000, 0x4c1, 0x1db7_0000);
  }

  lemma ThirdByte(v: bv32, digits: Bits) returns (more: Bits)
    requires |digits| <= 24 && StartsWith(v, digits, 0x4c1, 0x1db7_0000)
    ensures |more| == |digits| + 8 && StartsWith(v, more, 0x4_c11d, 0xb700_0000)
  {
    more := NextNibble(v, digits, 0x4c1, 0x1db7_0000, 0x4c11, 0xdb70_0000);
    more := NextNibble(v, more, 0x4c11, 0xdb70_0000, 0x4_c11d, 0xb700_0000);
  }

  lemma FourthByte(v: bv32, digits: Bits) returns (more: Bits)
    requires |digits| <= 24 && StartsWith(v, digits, 0x4_c11d, 0xb700_0000)
    ensures |more| == |digits| + 8 && StartsWith(v, more, 0x4c1_1db7, 0x0000_0000)
  {
    more := NextNibble(v, digits, 0x4_c11d, 0xb700_0000, 0x4c_11db, 0x7000_0000);
    more := NextNibble(v, more, 0x4c_11db, 0x7000_0000, 0x4c1_1db7, 0x0000_0000);
  }

  lemma GeneratorIsPolynomial()
    ensures ToWord(GENERATOR) == POLYNOMIAL
  {
    var digits := FirstByte(GENERATOR, []);
    digits := SecondByte(GENERATOR, digits);
    digits := ThirdByte(GENERATOR, digits);
    digits := FourthByte(GENERATOR, digits);
    assert ToWord(GENERATOR)[..|digits|] == ToWord(GENERATOR);
  }

  // ---- Multiplying machine words modulo the generator ----

  /** One step of Horner's rule. */
  function Next(r: bv32, a: bv32, b: bool): bv32 {
    var d := if Top(r) then Up(r) ^ GENERATOR else Up(r);
    if b then d ^ a else d
  }

  /** Four steps with the top bits of b. */
  function Next4(r: bv32, a: bv32, b: bv32): bv32 {
    var r1 := Next(r, a, b & 0x8000_0000 != 0);
    var r2 := Next(r1, a, b & 0x4000_0000 != 0);
    var r3 := Next(r2, a, b & 0x2000_0000 != 0);
    Next(r3, a, b & 0x1000_0000 != 0)
  }

  function MultiplyRest(r: bv32, a: bv32, b: bv32, n: nat): bv32
    decreases n
  {
    if n == 0 then r else MultiplyRest(Next4(r, a, b), a, b << 4, n - 1)
  }

  /** Four hexadecimal digits of b. */
  function Half(r: bv32, a: bv32, b: bv32): bv32 {
    var r1, b1 := Next4(r, a, b), b << 4;
    var r2, b2 := Next4(r1, a, b1), b1 << 4;
    var r3, b3 := Next4(r2, a, b2), b2 << 4;
    Next4(r3, a, b3)
  }

  lemma HalfIsRest(r: bv32, a: bv32, b: bv32)
    ensures Half(r, a, b) == MultiplyRest(r, a, b, 4)
  {
  }

  function Product(a: bv32, b: bv32): bv32 {
    Half(Half(0, a, b), a, b << 16)
  }

  lemma Masks(b: bv32) returns (c: bv32, d: bv32, e: bv32, f: bv32)
    ensures c == Up(b) && d == Up(c) && e == Up(d) && f == Up(e) && f == b << 4
    ensures Top(c) == (b & 0x4000_0000 != 0) && Top(d) == (b & 0x2000_0000 != 0) && Top(e) == (b & 0x1000_0000 != 0)
  {
    c := Up(b);
    d := Up(c);
    e := Up(d);
    f := Up(e);
  }

  /** The masks pick the next four bits. */
  lemma MaskBits(b: bv32)
    ensures Ups(b, 0) == b && Ups(b, 4) == b << 4
    ensures Top(Ups(b, 1)) == (b & 0x4000_0000 != 0)
    ensures Top(Ups(b, 2)) == (b & 0x2000_0000 != 0)
    ensures Top(Ups(b, 3)) == (b & 0x1000_0000 != 0)
  {
    var c, d, e, f := Masks(b);
    assert Ups(b, 1) == c;
    assert Ups(b, 2) == d;
    assert Ups(b, 3) == e;
    assert Ups(b, 4) == f;
  }

  lemma {:induction false} UpsZero(n: nat)
    ensures Ups(0, n) == 0
    decreases n
  {
    if n > 0 {
      UpsZero(n - 1);
    }
  }

  lemma WordZero()
    ensures ToWord(0) == Zeros(32)
  {
    forall i | 0 <= i < 32 ensures !Bit(0, i) {
      UpsZero(i);
    }
  }

  lemma SumIsXor(u: bv32, c: bool, v: bv32, w: bv32)
    requires w == if c then u ^ v else u
    ensures ToWord(w) == Xor(ToWord(u), Scale(c, ToWord(v)))
  {
    if c {
      WordXor(u, v);
    } else {
      XorZeros(ToWord(u));
    }
  }

  lemma DoubledIsTimesX(poly: Word, r: bv32, d: bv32)
    requires poly == ToWord(GENERATOR) && d == if Top(r) then Up(r) ^ GENERATOR else Up(r)
    ensures ToWord(d) == TimesX(poly, ToWord(r))
  {
    SumIsXor(Up(r), Top(r), GENERATOR, d);
    WordUp(r);
    TimesXOfWord(poly, r);
  }

  lemma TimesXOfWord(poly: Word, r: bv32)
    ensures TimesX(poly, ToWord(r)) == Xor(ToWord(r)[1..] + [false], Scale(Top(r), poly))
  {
    assert ToWord(r)[0] == Top(Ups(r, 0)) == Top(r);
  }

  lemma NextIsStep(poly: Word, r: bv32, a: bv32, b: bool)
    requires poly == ToWord(GENERATOR)
    ensures ToWord(Next(r, a, b)) == Xor(TimesX(poly, ToWord(r)), Scale(b, ToWord(a)))
  {
    var d := if Top(r) then Up(r) ^ GENERATOR else Up(r);
    DoubledIsTimesX(poly, r, d);
    SumIsXor(d, b, a, Next(r, a, b));
  }

  /** The product of a and the first k bits of b. */
  function Partial(poly: Word, a: bv32, b: bv32, k: nat): Word
    requires k <= 32
  {
    Horner(poly, ToWord(a), ToWord(b)[..k])
  }

  lemma TrackNext(poly: Word, r: bv32, a: bv32, b: bv32, k: nat)
    requires poly == ToWord(GENERATOR) && k < 32 && ToWord(r) == Partial(poly, a, b, k)
    ensures ToWord(Next(r, a, Top(Ups(b, k)))) == Partial(poly, a, b, k + 1)
  {
    NextIsStep(poly, r, a, Top(Ups(b, k)));
    HornerTake(poly, ToWord(a), ToWord(b), k);
  }

  lemma TrackNext4(poly: Word, r: bv32, a: bv32, b: bv32, k: nat, c: bv32)
    requires poly == ToWord(GENERATOR) && k <= 28 && ToWord(r) == Partial(poly, a, b, k) && c == Ups(b, k)
    ensures ToWord(Next4(r, a, c)) == Partial(poly, a, b, k + 4) && Ups(b, k + 4) == c << 4
  {
    var s := TrackTwo(poly, r, a, b, k);
    s := TrackTwo(poly, s, a, b, k + 2);
    FourNext(r, a, b, k, c);
  }

  lemma TrackTwo(poly: Word, r: bv32, a: bv32, b: bv32, k: nat) returns (s: bv32)
    requires poly == ToWord(GENERATOR) && k <= 30 && ToWord(r) == Partial(poly, a, b, k)
    ensures s == Next(Next(r, a, Top(Ups(b, k))), a, Top(Ups(b, k + 1)))
    ensures ToWord(s) == Partial(poly, a, b, k + 2)
  {
    var q := Next(r, a, Top(Ups(b, k)));
    TrackNext(poly, r, a, b, k);
    TrackNext(poly, q, a, b, k + 1);
    s := Next(q, a, Top(Ups(b, k + 1)));
  }

  lemma FourNext(r: bv32, a: bv32, b: bv32, k: nat, c: bv32)
    requires c == Ups(b, k)
    ensures Ups(b, k + 4) == c << 4
    ensures Next4(r, a, c) == Next(Next(Next(Next(r, a, Top(Ups(b, k))), a, Top(Ups(b, k + 1))), a,
                                        Top(Ups(b, k + 2))), a, Top(Ups(b, k + 3)))
  {
    MaskBits(c);
    UpsAdd(b, k, 1);
    UpsAdd(b, k, 2);
    UpsAdd(b, k, 3);
    UpsAdd(b, k, 4);
  }

  lemma {:induction false} RestIsPartial(poly: Word, r: bv32, a: bv32, b: bv32, k: nat, c: bv32, n: nat, end: nat)
    requires poly == ToWord(GENERATOR) && end == k + 4 * n && end <= 32
    requires ToWord(r) == Partial(poly, a, b, k) && c == Ups(b, k)
    ensures ToWord(MultiplyRest(r, a, c, n)) == Partial(poly, a, b, end)
    decreases n
  {
    if n > 0 {
      var s, d := MultiplyFour(poly, r, a, b, k, c, n);
      RestIsPartial(poly, s, a, b, k + 4, d, n - 1, end);
    }
  }

  lemma MultiplyFour(poly: Word, r: bv32, a: bv32, b: bv32, k: nat, c: bv32, n: nat) returns (s: bv32, d: bv32)
    requires poly == ToWord(GENERATOR) && k <= 28 && n > 0
    requires ToWord(r) == Partial(poly, a, b, k) && c == Ups(b, k)
    ensures ToWord(s) == Partial(poly, a, b, k + 4) && d == Ups(b, k + 4)
    ensures MultiplyRest(r, a, c, n) == MultiplyRest(s, a, d, n - 1)
  {
    s, d := Next4(r, a, c), c << 4;
    TrackNext4(poly, r, a, b, k, c);
  }

  lemma Ups16(b: bv32)
    ensures Ups(b, 16) == b << 16
  {
    MaskBits(b);
    MaskBits(b << 4);
    MaskBits(b << 8);
    MaskBits(b << 12);
    UpsAdd(b, 4, 4);
    UpsAdd(b, 8, 4);
    UpsAdd(b, 12, 4);
    Shifts(b);
  }

  lemma Shifts(b: bv32)
    ensures (b << 4) << 4 == b << 8 && (b << 8) << 4 == b << 12 && (b << 12) << 4 == b << 16
  {
  }

  lemma HalfIsPartial(poly: Word, r: bv32, a: bv32, b: bv32, k: nat, c: bv32)
    requires poly == ToWord(GENERATOR) && k <= 16
    requires ToWord(r) == Partial(poly, a, b, k) && c == Ups(b, k)
    ensures ToWord(Half(r, a, c)) == Partial(poly, a, b, k + 16)
  {
    HalfIsRest(r, a, c);
    RestIsPartial(poly, r, a, b, k, c, 4, k + 16);
  }

  lemma FirstHalf(poly: Word, a: bv32, b: bv32) returns (r: bv32)
    requires poly == ToWord(GENERATOR)
    ensures r == Half(0, a, b) && ToWord(r) == Partial(poly, a, b, 16)
  {
    WordZero();
    r := Half(0, a, b);
    HalfIsPartial(poly, 0, a, b, 0, b);
  }

  lemma SecondHalf(poly: Word, r: bv32, a: bv32, b: bv32)
    requires poly == ToWord(GENERATOR) && ToWord(r) == Partial(poly, a, b, 16)
    ensures ToWord(Half(r, a, b << 16)) == Partial(poly, a, b, 32)
  {
    Ups16(b);
    HalfIsPartial(poly, r, a, b, 16, b << 16);
  }

  /** The product of words is that of their polynomials. */
  lemma ProductIsHorner(poly: Word, a: bv32, b: bv32)
    requires poly == ToWord(GENERATOR)
    ensures ToWord(Product(a, b)) == Horner(poly, ToWord(a), ToWord(b))
  {
    var r := FirstHalf(poly, a, b);
    SecondHalf(poly, r, a, b);
    assert ToWord(b)[..32] == ToWord(b);
  }
}

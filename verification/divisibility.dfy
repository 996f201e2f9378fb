/** Factors, the greatest common divisor and primes, as far as a period has to be factored. */
module Divisibility {

  ghost predicate IsFactor(d: int, n: int) {
    exists c: int :: n == d * c
  }

  lemma FactorTimes(d: int, n: int, k: int)
    requires IsFactor(d, n)
    ensures IsFactor(d, n * k)
  {
    var c: int :| n == d * c;
    assert n * k == d * (c * k);
  }

  lemma FactorMinus(d: int, a: int, b: int)
    requires IsFactor(d, a) && IsFactor(d, b)
    ensures IsFactor(d, a - b)
  {
    var x: int :| a == d * x;
    var y: int :| b == d * y;
    assert a - b == d * (x - y);
  }

  function Gcd(a: nat, b: nat): nat
    decreases b
  {
    if b == 0 then a else Gcd(b, a % b)
  }

  lemma {:induction false} GcdIsFactor(a: nat, b: nat)
    ensures IsFactor(Gcd(a, b), a) && IsFactor(Gcd(a, b), b)
    decreases b
  {
    if b == 0 {
      assert a == a * 1 && b == a * 0;
    } else {
      GcdIsFactor(b, a % b);
      FactorTimes(Gcd(a, b), b, -(a / b));
      FactorMinus(Gcd(a, b), a % b, b * -(a / b));
      assert a == a % b - b * -(a / b);
    }
  }

  /** What divides two multiples of q divides the same multiple by their common divisor. */
  lemma {:induction false} GcdKeepsFactor(m: int, a: nat, b: nat, q: int)
    requires IsFactor(m, a * q) && IsFactor(m, b * q)
    ensures IsFactor(m, Gcd(a, b) * q)
    decreases b
  {
    if b > 0 {
      FactorTimes(m, b * q, a / b);
      FactorMinus(m, a * q, b * q * (a / b));
      RestTimes(a, b, q);
      GcdKeepsFactor(m, b, a % b, q);
    }
  }

  lemma RestTimes(a: nat, b: nat, q: int)
    requires b > 0
    ensures a * q - b * q * (a / b) == (a % b) * q
  {
    assert a == b * (a / b) + a % b;
    assert a * q == b * (a / b) * q + (a % b) * q;
  }

  /** Adding j leaves membership as it is. */
  ghost predicate Keeps(s: iset<nat>, j: nat, k: nat) {
    j + k in s <==> k in s
  }

  /** A set of numbers that holds the sums and differences of its members. */
  ghost predicate Closed(s: iset<nat>) {
    0 in s && forall j: nat, k: nat {:trigger Keeps(s, j, k)} :: j in s ==> Keeps(s, j, k)
  }

  lemma {:induction false} MultipleInClosed(s: iset<nat>, k: nat, c: nat)
    requires Closed(s) && k in s
    ensures k * c in s
    decreases c
  {
    if c > 0 {
      MultipleInClosed(s, k, c - 1);
      assert Keeps(s, k * (c - 1), k);
      assert k * c == k * (c - 1) + k;
    }
  }

  lemma {:induction false} GcdInClosed(s: iset<nat>, a: nat, b: nat)
    requires Closed(s) && a in s && b in s
    ensures Gcd(a, b) in s
    decreases b
  {
    if b > 0 {
      MultipleInClosed(s, b, a / b);
      assert Keeps(s, b * (a / b), a % b);
      assert a == b * (a / b) + a % b;
      GcdInClosed(s, b, a % b);
    }
  }

  ghost predicate Prime(p: nat) {
    p > 1 && forall d: nat :: IsFactor(d, p) ==> d == 1 || d == p
  }

  /** A prime that is no factor of m leaves the other factor. */
  lemma OtherFactor(m: nat, p: nat, q: int)
    requires Prime(p) && !IsFactor(p, m) && IsFactor(m, p * q)
    ensures IsFactor(m, q)
  {
    GcdIsFactor(m, p);
    assert Gcd(m, p) == 1;
    assert IsFactor(m, m * q);
    GcdKeepsFactor(m, m, p, q);
  }

  /** A number with no factor up to its square root is prime. */
  lemma PrimeBelowSquare(p: nat, q: nat)
    requires 1 < p < q * q && forall d :: 2 <= d < q ==> !IsFactor(d, p)
    ensures Prime(p)
  {
    forall d: nat | IsFactor(d, p) ensures d == 1 || d == p {
      var c: int :| p == d * c;
      Positive(d, c);
      OneIsSmall(q, d, c);
      if c < q {
        assert p == c * d;
        assert IsFactor(c, p);
      }
    }
  }

  lemma Positive(d: nat, c: int)
    requires d * c > 0
    ensures d > 0 && c > 0
  {
  }

  lemma OneIsSmall(q: nat, d: nat, c: nat)
    requires d * c < q * q
    ensures d < q || c < q
  {
    if d >= q && c >= q {
      LargerProduct(q, d, c);
    }
  }

  lemma LargerProduct(q: nat, d: nat, c: nat)
    requires q <= d && q <= c
    ensures q * q <= d * c
  {
    assert q * q <= q * c;
    assert q * c <= d * c;
  }

  /** The prime factors of 2^32 - 1. */
  lemma FermatPrimes()
    ensures Prime(3) && Prime(5) && Prime(17) && Prime(257) && Prime(65537)
  {
    PrimeBelowSquare(3, 2);
    forall d | 2 <= d < 3 ensures !IsFactor(d, 5) {
    }
    PrimeBelowSquare(5, 3);
    forall d | 2 <= d < 5 ensures !IsFactor(d, 17) {
    }
    PrimeBelowSquare(17, 5);
    Prime257();
    Prime65537();
  }

  lemma Prime257()
    ensures Prime(257)
  {
    forall d | 2 <= d < 17 ensures !IsFactor(d, 257) {
    }
    PrimeBelowSquare(257, 17);
  }

  lemma Prime65537()
    ensures Prime(65537)
  {
    forall d | 2 <= d < 257 ensures !IsFactor(d, 65537) {
    }
    PrimeBelowSquare(65537, 257);
  }

  const PERIOD := 0xFFFF_FFFF

  /** Any proper factor of 2^32 - 1 leaves one of its primes to the cofactor. */
  lemma ProperFactorMissesPrime(g: nat, m: nat)
    requires PERIOD == g * m && m != 1
    ensures IsFactor(3, m) || IsFactor(5, m) || IsFactor(17, m) || IsFactor(257, m) || IsFactor(65537, m)
  {
    FermatPrimes();
    assert PERIOD == m * g;
    if !IsFactor(3, m) && !IsFactor(5, m) && !IsFactor(17, m) && !IsFactor(257, m) && !IsFactor(65537, m) {
      OtherFactor(m, 3, 0x5555_5555);
      OtherFactor(m, 5, 0x1111_1111);
      OtherFactor(m, 17, 0x0101_0101);
      OtherFactor(m, 257, 0x0001_0001);
    }
  }
}

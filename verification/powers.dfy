/** The powers of x modulo a generator, as register contents, and when they repeat. */
module Powers {
  import opened Divisibility
  import opened Gf2

  function One(n: nat): (r: Bits)
    requires n > 0
    ensures |r| == n && r[n - 1] && forall i :: 0 <= i < n - 1 ==> !r[i]
  {
    Zeros(n - 1) + [true]
  }

  /** r * x^k modulo the generator: k clocks without input. */
  function Raised(poly: Bits, r: Bits, k: nat): (s: Bits)
    requires |r| == |poly| > 0
    ensures |s| == |r|
  {
    Run(poly, r, Zeros(k))
  }

  function TimesX(poly: Bits, r: Bits): (s: Bits)
    requires |r| == |poly| > 0
    ensures |s| == |r|
  {
    Step(poly, r, false)
  }

  function Power(poly: Bits, k: nat): (s: Bits)
    requires |poly| > 0
    ensures |s| == |poly|
  {
    Raised(poly, One(|poly|), k)
  }

  lemma RaisedTwice(poly: Bits, r: Bits, m: nat, k: nat)
    requires |r| == |poly| > 0
    ensures Raised(poly, r, m + k) == Raised(poly, Raised(poly, r, m), k)
  {
    assert Zeros(m + k) == Zeros(m) + Zeros(k);
    RunAppend(poly, r, Zeros(m), Zeros(k));
  }

  lemma RaisedOnce(poly: Bits, r: Bits)
    requires |r| == |poly| > 0
    ensures Raised(poly, r, 0) == r && Raised(poly, r, 1) == TimesX(poly, r)
  {
    assert Zeros(0) == [] && Zeros(1) == [] + [false];
    RunSnoc(poly, r, [], false);
  }

  lemma RaisedTimesX(poly: Bits, r: Bits, k: nat)
    requires |r| == |poly| > 0
    ensures Raised(poly, TimesX(poly, r), k) == TimesX(poly, Raised(poly, r, k)) == Raised(poly, r, k + 1)
  {
    RaisedTwice(poly, r, 1, k);
    RaisedTwice(poly, r, k, 1);
    RaisedOnce(poly, r);
    RaisedOnce(poly, Raised(poly, r, k));
  }

  lemma RaisedXor(poly: Bits, r: Bits, s: Bits, k: nat)
    requires |r| == |s| == |poly| > 0
    ensures Raised(poly, Xor(r, s), k) == Xor(Raised(poly, r, k), Raised(poly, s, k))
  {
    RunXor(poly, r, Zeros(k), s, Zeros(k));
    XorZeros(Zeros(k));
  }

  lemma RaisedScale(poly: Bits, b: bool, r: Bits, k: nat)
    requires |r| == |poly| > 0
    ensures Raised(poly, Scale(b, r), k) == Scale(b, Raised(poly, r, k))
  {
    RunZeros(poly, Zeros(k));
  }

  lemma RaisedIsOneToOne(poly: Bits, r: Bits, s: Bits, k: nat)
    requires |r| == |s| == |poly| > 0 && poly[|poly| - 1]
    ensures Raised(poly, r, k) == Raised(poly, s, k) <==> r == s
  {
    RunUnrun(poly, r, Zeros(k));
    RunUnrun(poly, s, Zeros(k));
  }

  // ---- The exponents of 1 ----

  /** x^k is 1. */
  predicate Returns(poly: Bits, k: nat)
    requires |poly| > 0
  {
    Power(poly, k) == One(|poly|)
  }

  /** Two powers agree exactly if the exponents differ by a power that is 1. */
  lemma SamePower(poly: Bits, i: nat, k: nat)
    requires |poly| > 0 && poly[|poly| - 1]
    ensures Power(poly, i + k) == Power(poly, i) <==> Returns(poly, k)
  {
    var one := One(|poly|);
    RaisedTwice(poly, one, k, i);
    RaisedIsOneToOne(poly, Raised(poly, one, k), one, i);
  }

  lemma AfterReturn(poly: Bits, j: nat, k: nat)
    requires |poly| > 0 && Returns(poly, j)
    ensures Power(poly, j + k) == Power(poly, k)
  {
    RaisedTwice(poly, One(|poly|), j, k);
  }

  /** The exponents that return are closed under sums and differences. */
  lemma ReturningIsClosed(poly: Bits) returns (s: iset<nat>)
    requires |poly| > 0
    ensures Closed(s) && forall k :: k in s <==> Returns(poly, k)
  {
    s := iset k: nat | Returns(poly, k);
    RaisedOnce(poly, One(|poly|));
    forall j: nat, k: nat | j in s ensures Keeps(s, j, k) {
      AfterReturn(poly, j, k);
    }
  }

  // ---- Products ----

  /** a * w modulo the generator, by Horner's rule on w. */
  function Horner(poly: Bits, a: Bits, w: Bits): (s: Bits)
    requires |a| == |poly| > 0
    ensures |s| == |a|
    decreases |w|
  {
    if w == [] then Zeros(|poly|)
    else
      var k := |w| - 1;
      Xor(TimesX(poly, Horner(poly, a, w[..k])), Scale(w[k], a))
  }

  lemma HornerTake(poly: Bits, a: Bits, w: Bits, k: nat)
    requires |a| == |poly| > 0 && k < |w|
    ensures Horner(poly, a, w[..k + 1]) == Xor(TimesX(poly, Horner(poly, a, w[..k])), Scale(w[k], a))
  {
    assert w[..k + 1][..k] == w[..k];
  }

  /** Every remainder is its own product with 1. */
  lemma {:induction false} HornerOne(poly: Bits, w: Bits)
    requires |w| <= |poly| && |poly| > 0
    ensures Horner(poly, One(|poly|), w) == Zeros(|poly| - |w|) + w
    decreases |w|
  {
    if w == [] {
      assert Zeros(|poly|) + [] == Zeros(|poly|);
    } else {
      var k := |w| - 1;
      HornerOne(poly, w[..k]);
      OneMoreDigit(poly, w, Zeros(|poly| - k) + w[..k]);
    }
  }

  lemma OneMoreDigit(poly: Bits, w: Bits, h: Bits)
    requires 0 < |w| <= |poly| && h == Zeros(|poly| + 1 - |w|) + w[..|w| - 1]
    ensures Xor(TimesX(poly, h), Scale(w[|w| - 1], One(|poly|))) == Zeros(|poly| - |w|) + w
  {
    TimesXShifts(poly, h);
    LastDigit(|poly|, w);
  }

  lemma TimesXShifts(poly: Bits, r: Bits)
    requires |r| == |poly| > 0 && !r[0]
    ensures TimesX(poly, r) == r[1..] + [false]
  {
    XorZeros(r[1..] + [false]);
  }

  lemma LastDigit(n: nat, w: Bits)
    requires 0 < |w| <= n
    ensures var k := |w| - 1;
            Xor((Zeros(n - k) + w[..k])[1..] + [false], Scale(w[k], One(n))) == Zeros(n - |w|) + w
  {
    var k := |w| - 1;
    var x, y := (Zeros(n - k) + w[..k])[1..] + [false], Zeros(n - |w|) + w;
    forall i | 0 <= i < n ensures Xor(x, Scale(w[k], One(n)))[i] == y[i] {
      assert i < n - 1 ==> !One(n)[i] && x[i] == (Zeros(n - k) + w[..k])[i + 1];
    }
  }

  lemma {:induction false} RaisedHorner(poly: Bits, a: Bits, w: Bits, m: nat)
    requires |a| == |poly| > 0
    ensures Raised(poly, Horner(poly, a, w), m) == Horner(poly, Raised(poly, a, m), w)
    decreases |w|
  {
    if w == [] {
      RunZeros(poly, Zeros(m));
    } else {
      var k := |w| - 1;
      var h := Horner(poly, a, w[..k]);
      RaisedHorner(poly, a, w[..k], m);
      RaisedXor(poly, TimesX(poly, h), Scale(w[k], a), m);
      RaisedTimesX(poly, h, m);
      RaisedScale(poly, w[k], a, m);
    }
  }

  /** The product of two powers is the power of the sum. */
  lemma PowersMultiply(poly: Bits, m: nat, k: nat)
    requires |poly| > 0
    ensures Horner(poly, Power(poly, m), Power(poly, k)) == Power(poly, m + k)
  {
    var one := One(|poly|);
    RaisedHorner(poly, one, Power(poly, k), m);
    HornerOne(poly, Power(poly, k));
    assert Zeros(0) + Power(poly, k) == Power(poly, k);
    RaisedTwice(poly, one, k, m);
  }

  // ---- Two wrong bits ----

  /** x^j stands alone at its place as long as it is smaller than the generator. */
  lemma {:induction false} SmallPower(poly: Bits, j: nat)
    requires j < |poly|
    ensures Power(poly, j) == Zeros(|poly| - 1 - j) + [true] + Zeros(j)
  {
    RaisedOnce(poly, One(|poly|));
    if j > 0 {
      SmallPower(poly, j - 1);
      RaisedTimesX(poly, One(|poly|), j - 1);
      TimesXShifts(poly, Power(poly, j - 1));
    }
  }

  /** x^n is the low part of the generator. */
  lemma GeneratorPower(poly: Bits)
    requires |poly| > 0
    ensures Power(poly, |poly|) == poly
  {
    TopPower(poly);
    RaisedTimesX(poly, One(|poly|), |poly| - 1);
    TimesXOfTop(poly);
  }

  lemma TopPower(poly: Bits)
    requires |poly| > 0
    ensures Power(poly, |poly| - 1) == TopBit(|poly|)
  {
    SmallPower(poly, |poly| - 1);
    assert Zeros(0) + [true] + Zeros(|poly| - 1) == TopBit(|poly|);
  }

  function TwoBits(before: nat, k: nat, after: nat): (e: Bits)
    requires k > 0
  {
    Zeros(before) + ([true] + Zeros(k - 1)) + ([true] + Zeros(after))
  }

  /** An error of two bits k places apart cancels exactly if x^k is 1. */
  lemma TwoBitsCancelIff(poly: Bits, before: nat, k: nat, after: nat)
    requires |poly| > 0 && poly[|poly| - 1] && k > 0
    ensures Run(poly, Zeros(|poly|), TwoBits(before, k, after)) == Zeros(|poly|) <==> Returns(poly, k)
  {
    var first := Zeros(before) + ([true] + Zeros(k - 1));
    RunAppend(poly, Zeros(|poly|), first, [true] + Zeros(after));
    FirstBit(poly, before, k);
    SecondBit(poly, Run(poly, Zeros(|poly|), first), after);
    TopReturnsIff(poly, k);
  }

  /** x^(n - 1), the highest power that fits the register. */
  function TopBit(n: nat): (r: Bits)
    requires n > 0
    ensures |r| == n
  {
    [true] + Zeros(n - 1)
  }

  lemma TopReturnsIff(poly: Bits, k: nat)
    requires |poly| > 0 && poly[|poly| - 1]
    ensures Raised(poly, TopBit(|poly|), k) == TopBit(|poly|) <==> Returns(poly, k)
  {
    var n := |poly|;
    TopPower(poly);
    RaisedTwice(poly, One(n), n - 1, k);
    SamePower(poly, n - 1, k);
  }

  /** After the first bit the register holds what x^(n - 1) would after k clocks. */
  lemma FirstBit(poly: Bits, before: nat, k: nat)
    requires |poly| > 0 && k > 0
    ensures Run(poly, Zeros(|poly|), Zeros(before) + ([true] + Zeros(k - 1)))
            == Raised(poly, TopBit(|poly|), k)
  {
    var z := Zeros(|poly|);
    RunAppend(poly, z, Zeros(before), [true] + Zeros(k - 1));
    RunZeros(poly, Zeros(before));
    RunCons(poly, z, true, Zeros(k - 1));
    StepFromZero(poly, true);
    RaisedTimesX(poly, TopBit(|poly|), k - 1);
    TimesXOfTop(poly);
  }

  lemma RunCons(poly: Bits, r: Bits, b: bool, ds: Bits)
    requires |r| == |poly| > 0
    ensures Run(poly, r, [b] + ds) == Run(poly, Step(poly, r, b), ds)
  {
    assert ([b] + ds)[1..] == ds;
  }

  lemma TimesXOfTop(poly: Bits)
    requires |poly| > 0
    ensures TimesX(poly, TopBit(|poly|)) == poly
  {
    var top := TopBit(|poly|);
    assert top[1..] + [false] == Zeros(|poly|);
    XorZeros(poly);
  }

  lemma SecondBit(poly: Bits, r: Bits, after: nat)
    requires |r| == |poly| > 0 && poly[|poly| - 1]
    ensures Run(poly, r, [true] + Zeros(after)) == Zeros(|poly|) <==> r == TopBit(|poly|)
  {
    RunAppend(poly, r, [true], Zeros(after));
    ZeroBackwards(poly, Run(poly, r, [true]), Zeros(after));
    RunToZero(poly, r, [true]);
  }
}

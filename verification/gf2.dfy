/** Polynomials over GF(2) as bit sequences, most significant coefficient first, and the
    shift register that divides by a monic generator.  A polynomial of formal degree n - 1
    is a sequence of n bits; leading zeros are allowed, so lengths are part of every statement. */
module Gf2 {

  type Bits = seq<bool>

  function Zeros(n: nat): (z: Bits)
    ensures |z| == n && forall i :: 0 <= i < n ==> !z[i]
  {
    seq(n, _ => false)
  }

  /** Sum (and difference) of two polynomials. */
  function Xor(a: Bits, b: Bits): (c: Bits)
    requires |a| == |b|
    ensures |c| == |a| && forall i {:trigger c[i]} :: 0 <= i < |a| ==> c[i] == (a[i] != b[i])
  {
    seq(|a|, i requires 0 <= i < |a| => a[i] != b[i])
  }

  function Scale(c: bool, p: Bits): (r: Bits)
    ensures |r| == |p|
  {
    if c then p else Zeros(|p|)
  }

  lemma XorZeros(a: Bits)
    ensures Xor(a, Zeros(|a|)) == a == Xor(Zeros(|a|), a)
  {
  }

  /** The product q * g, by Horner's rule on q: (q * x + b) * g == (q * g) * x + b * g. */
  ghost function Mul(q: Bits, g: Bits): (r: Bits)
    requires |g| > 0
    ensures |r| == |q| + |g| - 1
  {
    if q == [] then Zeros(|g| - 1)
    else
      var k := |q| - 1;
      Xor(Mul(q[..k], g) + [false], Zeros(k) + Scale(q[k], g))
  }

  /** p == q * g + r with r of smaller degree than g: division with remainder. */
  ghost predicate Divides(p: Bits, g: Bits, q: Bits, r: Bits)
  {
    |g| > 0 && |r| == |g| - 1 && |p| == |q| + |r| &&
    p == Xor(Mul(q, g), Zeros(|q|) + r)
  }

  ghost predicate IsRemainder(p: Bits, g: Bits, r: Bits)
  {
    exists q :: Divides(p, g, q, r)
  }

  lemma {:induction false} MulZeros(n: nat, g: Bits)
    requires |g| > 0
    ensures Mul(Zeros(n), g) == Zeros(n + |g| - 1)
  {
    if n > 0 {
      assert Zeros(n)[..n - 1] == Zeros(n - 1);
      MulZeros(n - 1, g);
    }
  }

  lemma {:induction false} MulXor(a: Bits, b: Bits, g: Bits)
    requires |a| == |b| && |g| > 0
    ensures Mul(Xor(a, b), g) == Xor(Mul(a, g), Mul(b, g))
  {
    if a != [] {
      var k := |a| - 1;
      MulXor(a[..k], b[..k], g);
      assert Xor(a, b)[..k] == Xor(a[..k], b[..k]);
      MulXorLast(Mul(a[..k], g), Mul(b[..k], g), k, a[k], b[k], g);
    }
  }

  /** The last step of Horner's rule commutes with the sum. */
  lemma MulXorLast(ma: Bits, mb: Bits, k: nat, x: bool, y: bool, g: Bits)
    requires |ma| == |mb| && |ma| + 1 == k + |g|
    ensures Xor(Xor(ma, mb) + [false], Zeros(k) + Scale(x != y, g)) ==
            Xor(Xor(ma + [false], Zeros(k) + Scale(x, g)), Xor(mb + [false], Zeros(k) + Scale(y, g)))
  {
    var sa, sb := Scale(x, g), Scale(y, g);
    ScaleXor(x, y, g);
    XorSnoc(ma, mb);
    XorPrefix(k, sa, sb);
    XorMiddle(ma + [false], mb + [false], Zeros(k) + sa, Zeros(k) + sb);
  }

  lemma ScaleXor(x: bool, y: bool, g: Bits)
    ensures Scale(x != y, g) == Xor(Scale(x, g), Scale(y, g))
  {
  }

  lemma XorMiddle(a: Bits, b: Bits, c: Bits, d: Bits)
    requires |a| == |b| == |c| == |d|
    ensures Xor(Xor(a, b), Xor(c, d)) == Xor(Xor(a, c), Xor(b, d))
  {
  }

  lemma XorTranspose(a: Bits, b: Bits, c: Bits, d: Bits)
    requires |a| == |b| == |c| == |d| && Xor(a, b) == Xor(c, d)
    ensures Xor(a, c) == Xor(b, d)
  {
    forall i | 0 <= i < |a| ensures Xor(a, c)[i] == Xor(b, d)[i] {
      assert Xor(a, b)[i] == Xor(c, d)[i];
    }
  }

  lemma XorIsZero(a: Bits, b: Bits)
    requires |a| == |b|
    ensures Xor(a, b) == Zeros(|a|) <==> a == b
  {
    if Xor(a, b) == Zeros(|a|) {
      forall i | 0 <= i < |a| ensures a[i] == b[i] {
        assert !Xor(a, b)[i];
      }
    }
  }

  /** With a monic g the first set bit of q is also the first set bit of the product. */
  lemma {:induction false} MulLead(q: Bits, g: Bits, k: nat)
    requires |g| > 0 && g[0] && k < |q| && q[k]
    requires forall i :: 0 <= i < k ==> !q[i]
    ensures Mul(q, g)[k]
  {
    var n := |q| - 1;
    if k < n {
      MulLead(q[..n], g, k);
    } else {
      assert q[..n] == Zeros(n);
      MulZeros(n, g);
    }
  }

  ghost function FirstSet(q: Bits): (k: nat)
    ensures k <= |q|
    ensures forall i :: 0 <= i < k ==> !q[i]
    ensures k < |q| ==> q[k]
  {
    if q == [] || q[0] then 0 else 1 + FirstSet(q[1..])
  }

  /** Quotient and remainder by a monic polynomial are unique. */
  lemma DivisionUnique(p: Bits, g: Bits, q1: Bits, r1: Bits, q2: Bits, r2: Bits)
    requires |g| > 0 && g[0]
    requires Divides(p, g, q1, r1) && Divides(p, g, q2, r2)
    ensures q1 == q2 && r1 == r2
  {
    var n, q, r := |q1|, Xor(q1, q2), Xor(r1, r2);
    MulXor(q1, q2, g);
    XorTranspose(Mul(q1, g), Zeros(n) + r1, Mul(q2, g), Zeros(n) + r2);
    XorPrefix(n, r1, r2);
    QuotientOfRemainder(q, g, r);
    XorIsZero(q1, q2);
    XorIsZero(r1, r2);
  }

  /** A polynomial of smaller degree than g is a multiple of g only if it is zero. */
  lemma QuotientOfRemainder(q: Bits, g: Bits, r: Bits)
    requires |g| > 0 && g[0] && |r| == |g| - 1
    requires Mul(q, g) == Zeros(|q|) + r
    ensures q == Zeros(|q|) && r == Zeros(|r|)
  {
    var k := FirstSet(q);
    if k < |q| {
      assert !(Zeros(|q|) + r)[k];
      MulLead(q, g, k);
      assert false;
    }
    assert q == Zeros(|q|);
    MulZeros(|q|, g);
    ZeroTail(|q|, r);
  }

  lemma ZeroTail(n: nat, r: Bits)
    requires Zeros(n) + r == Zeros(n + |r|)
    ensures r == Zeros(|r|)
  {
    forall i | 0 <= i < |r| ensures !r[i] {
      assert (Zeros(n) + r)[n + i] == r[i];
    }
  }

  // ---- The shift register ----

  /** One clock of the register: shift out the top bit and, when it differs from the incoming
      bit, subtract the low part of the generator. */
  function Step(poly: Bits, r: Bits, d: bool): (s: Bits)
    requires |r| == |poly| > 0
    ensures |s| == |r|
  {
    Xor(r[1..] + [false], Scale(r[0] != d, poly))
  }

  function Run(poly: Bits, r: Bits, ds: Bits): (s: Bits)
    requires |r| == |poly| > 0
    ensures |s| == |r|
    decreases |ds|
  {
    if ds == [] then r else Run(poly, Step(poly, r, ds[0]), ds[1..])
  }

  lemma {:induction false} RunAppend(poly: Bits, r: Bits, a: Bits, b: Bits)
    requires |r| == |poly| > 0
    ensures Run(poly, r, a + b) == Run(poly, Run(poly, r, a), b)
    decreases |a|
  {
    if a == [] {
      assert a + b == b;
    } else {
      var ab := a + b;
      assert ab[0] == a[0] && ab[1..] == a[1..] + b;
      RunAppend(poly, Step(poly, r, a[0]), a[1..], b);
      assert Run(poly, r, ab) == Run(poly, Step(poly, r, a[0]), ab[1..]);
    }
  }

  lemma RunSnoc(poly: Bits, r: Bits, a: Bits, d: bool)
    requires |r| == |poly| > 0
    ensures Run(poly, r, a + [d]) == Step(poly, Run(poly, r, a), d)
  {
    RunAppend(poly, r, a, [d]);
    assert [d][1..] == [];
    var s := Run(poly, r, a);
    assert Run(poly, s, [d]) == Run(poly, Step(poly, s, d), []);
  }

  lemma RunTake(poly: Bits, r: Bits, ds: Bits, k: nat)
    requires |r| == |poly| > 0 && k < |ds|
    ensures Run(poly, r, ds[..k + 1]) == Step(poly, Run(poly, r, ds[..k]), ds[k])
  {
    assert ds[..k + 1] == ds[..k] + [ds[k]];
    RunSnoc(poly, r, ds[..k], ds[k]);
  }

  /** The register is linear in its contents and its input together. */
  lemma {:induction false} RunXor(poly: Bits, r1: Bits, a: Bits, r2: Bits, b: Bits)
    requires |r1| == |r2| == |poly| > 0 && |a| == |b|
    ensures Run(poly, Xor(r1, r2), Xor(a, b)) == Xor(Run(poly, r1, a), Run(poly, r2, b))
    decreases |a|
  {
    if a != [] {
      var s1, s2 := Step(poly, r1, a[0]), Step(poly, r2, b[0]);
      assert Step(poly, Xor(r1, r2), Xor(a, b)[0]) == Xor(s1, s2);
      assert Xor(a, b)[1..] == Xor(a[1..], b[1..]);
      RunXor(poly, s1, a[1..], s2, b[1..]);
    }
  }

  /** The clock can be undone when the generator has a constant term, that is, when x is
      invertible modulo the generator: the last bit tells whether poly was subtracted. */
  function Unstep(poly: Bits, s: Bits, d: bool): (r: Bits)
    requires |s| == |poly| > 0
    ensures |r| == |s|
  {
    var k := |s| - 1;
    [s[k] != d] + Xor(s, Scale(s[k], poly))[..k]
  }

  function Unrun(poly: Bits, s: Bits, ds: Bits): (r: Bits)
    requires |s| == |poly| > 0
    ensures |r| == |s|
    decreases |ds|
  {
    if ds == [] then s else Unstep(poly, Unrun(poly, s, ds[1..]), ds[0])
  }

  lemma StepUnstep(poly: Bits, r: Bits, d: bool)
    requires |r| == |poly| > 0 && poly[|poly| - 1]
    ensures Unstep(poly, Step(poly, r, d), d) == r
  {
    var k := |r| - 1;
    var s := Step(poly, r, d);
    assert s[k] == (r[0] != d);
    var x := Xor(s, Scale(s[k], poly));
    assert x[..k] == r[1..];
    assert r == [r[0]] + r[1..];
  }

  lemma UnstepStep(poly: Bits, r: Bits, d: bool)
    requires |r| == |poly| > 0 && poly[|poly| - 1]
    ensures Step(poly, Unstep(poly, r, d), d) == r
  {
    var k := |r| - 1;
    var x := Xor(r, Scale(r[k], poly));
    var u := Unstep(poly, r, d);
    assert (u[0] != d) == r[k];
    assert u[1..] == x[..k];
    var y := x[..k] + [false];
    assert !x[k];
    assert y == x;
    assert Xor(y, Scale(r[k], poly)) == r;
  }

  /** For fixed input the register map is a permutation of the register states. */
  lemma {:induction false} RunUnrun(poly: Bits, r: Bits, ds: Bits)
    requires |r| == |poly| > 0 && poly[|poly| - 1]
    ensures Unrun(poly, Run(poly, r, ds), ds) == r
    ensures Run(poly, Unrun(poly, r, ds), ds) == r
    decreases |ds|
  {
    if ds != [] {
      StepUnstep(poly, r, ds[0]);
      RunUnrun(poly, Step(poly, r, ds[0]), ds[1..]);
      RunUnrun(poly, r, ds[1..]);
      UnstepStep(poly, Unrun(poly, r, ds[1..]), ds[0]);
    }
  }

  /** A register is emptied by at most |poly| bits exactly when those bits are its contents. */
  lemma {:induction false} RunToZero(poly: Bits, r: Bits, ds: Bits)
    requires |r| == |poly| > 0 && poly[|poly| - 1] && |ds| <= |r|
    ensures Run(poly, r, ds) == Zeros(|r|) <==> r == ds + Zeros(|r| - |ds|)
    decreases |ds|
  {
    if ds == [] {
      assert [] + Zeros(|r|) == Zeros(|r|);
    } else {
      var s, k := Step(poly, r, ds[0]), |r| - |ds|;
      RunToZero(poly, s, ds[1..]);
      assert s[|r| - 1] == (r[0] != ds[0]);
      assert !(ds[1..] + Zeros(k + 1))[|r| - 1];
      if r[0] == ds[0] {
        assert s == r[1..] + [false];
        ShiftedMatches(r, ds, k);
      } else {
        assert (ds + Zeros(k))[0] == ds[0];
      }
    }
  }

  lemma ShiftedMatches(r: Bits, ds: Bits, k: nat)
    requires r != [] && ds != [] && |r| == |ds| + k && r[0] == ds[0]
    ensures r[1..] + [false] == ds[1..] + Zeros(k + 1) <==> r == ds + Zeros(k)
  {
    var t := ds[1..] + Zeros(k);
    assert ds[1..] + Zeros(k + 1) == t + [false];
    assert r == [r[0]] + r[1..] && ds + Zeros(k) == [ds[0]] + t;
    SameSnoc(r[1..], t, false);
    HeadTail(r[0], r[1..], ds[0], t);
  }

  lemma SameSnoc(a: Bits, b: Bits, c: bool)
    ensures a + [c] == b + [c] <==> a == b
  {
    if a + [c] == b + [c] {
      assert (a + [c])[..|a|] == a && (b + [c])[..|b|] == b;
    }
  }

  lemma {:induction false} RunZeros(poly: Bits, ds: Bits)
    requires |poly| > 0 && ds == Zeros(|ds|)
    ensures Run(poly, Zeros(|poly|), ds) == Zeros(|poly|)
    decreases |ds|
  {
    if ds != [] {
      assert Step(poly, Zeros(|poly|), false) == Zeros(|poly|);
      assert ds[1..] == Zeros(|ds| - 1);
      RunZeros(poly, ds[1..]);
    }
  }

  // ---- The register computes a remainder ----

  /** init * x^|ds| + ds * x^|init|. */
  function Dividend(init: Bits, ds: Bits): (p: Bits)
    ensures |p| == |init| + |ds|
  {
    Xor(init + Zeros(|ds|), ds + Zeros(|init|))
  }

  /** The quotient bits are the feedback bits, in the order the register produces them. */
  ghost function Quotient(poly: Bits, init: Bits, ds: Bits): (q: Bits)
    requires |init| == |poly| > 0
    ensures |q| == |ds|
  {
    if ds == [] then []
    else
      var k := |ds| - 1;
      Quotient(poly, init, ds[..k]) + [Run(poly, init, ds[..k])[0] != ds[k]]
  }

  lemma {:induction false} RunDivides(poly: Bits, init: Bits, ds: Bits)
    requires |init| == |poly| > 0
    ensures Divides(Dividend(init, ds), [true] + poly, Quotient(poly, init, ds), Run(poly, init, ds))
    decreases |ds|
  {
    var g, q, r := [true] + poly, Quotient(poly, init, ds), Run(poly, init, ds);
    if ds == [] {
      assert Dividend(init, ds) == init;
      assert Xor(Mul(q, g), Zeros(0) + r) == r;
    } else {
      var k := |ds| - 1;
      var ds', d := ds[..k], ds[k];
      assert ds == ds' + [d];
      RunDivides(poly, init, ds');
      RunSnoc(poly, init, ds', d);
      DividendSnoc(init, ds', d);
      DivideStep(poly, Dividend(init, ds'), Quotient(poly, init, ds'), Run(poly, init, ds'), d);
    }
  }

  /** Bringing down one more bit in the long division: if p == q * g + r, then
      p * x + d * x^w == (q * x + b) * g + Step(r, d) with b the feedback bit. */
  lemma DivideStep(poly: Bits, p: Bits, q: Bits, r: Bits, d: bool)
    requires |r| == |poly| > 0 && Divides(p, [true] + poly, q, r)
    ensures Divides(Xor(p + [false], Zeros(|q|) + ([d] + Zeros(|poly|))), [true] + poly,
                    q + [r[0] != d], Step(poly, r, d))
  {
    var g, k, b := [true] + poly, |q|, r[0] != d;
    var s, z, m, u := Step(poly, r, d), Zeros(k), Mul(q, g), [d] + Zeros(|poly|);
    XorSnoc(m, z + r);
    ConcatAssoc(z, r, [false]);
    MulSnoc(q, b, g);
    StepEquation(poly, r, d);
    XorPrefix(k, r + [false], u);
    XorPrefix(k, Scale(b, g), [false] + s);
    XorExchange(p + [false], m + [false], z + (r + [false]), z + u, z + Scale(b, g), z + ([false] + s));
    ConcatAssoc(z, [false], s);
    assert z + [false] == Zeros(k + 1);
  }

  lemma ConcatAssoc(a: Bits, b: Bits, c: Bits)
    ensures a + (b + c) == (a + b) + c
  {
  }

  lemma XorSnoc(a: Bits, b: Bits)
    requires |a| == |b|
    ensures Xor(a, b) + [false] == Xor(a + [false], b + [false])
  {
  }

  /** r * x + d * x^w is b * g plus the next register contents. */
  lemma StepEquation(poly: Bits, r: Bits, d: bool)
    requires |r| == |poly| > 0
    ensures Xor(r + [false], [d] + Zeros(|r|)) ==
            Xor(Scale(r[0] != d, [true] + poly), [false] + Step(poly, r, d))
  {
    var s, b := Step(poly, r, d), r[0] != d;
    var x, y := Scale(b, [true] + poly), Scale(b, poly);
    assert x == [b] + y;
    assert Xor(y, s) == r[1..] + [false];
  }

  lemma XorPrefix(k: nat, a: Bits, b: Bits)
    requires |a| == |b|
    ensures Xor(Zeros(k) + a, Zeros(k) + b) == Zeros(k) + Xor(a, b)
  {
  }

  lemma XorExchange(p: Bits, m: Bits, r: Bits, t: Bits, s: Bits, u: Bits)
    requires |p| == |m| == |r| == |t| == |s| == |u|
    requires p == Xor(m, r) && Xor(r, t) == Xor(s, u)
    ensures Xor(p, t) == Xor(Xor(m, s), u)
  {
    forall i | 0 <= i < |p| ensures Xor(p, t)[i] == Xor(Xor(m, s), u)[i] {
      assert Xor(r, t)[i] == Xor(s, u)[i];
    }
  }

  lemma MulSnoc(q: Bits, b: bool, g: Bits)
    requires |g| > 0
    ensures Mul(q + [b], g) == Xor(Mul(q, g) + [false], Zeros(|q|) + Scale(b, g))
  {
    assert (q + [b])[..|q|] == q;
  }

  lemma DividendSnoc(init: Bits, ds: Bits, d: bool)
    requires |init| > 0
    ensures Dividend(init, ds + [d]) ==
            Xor(Dividend(init, ds) + [false], Zeros(|ds|) + ([d] + Zeros(|init|)))
  {
    var p, e := Dividend(init, ds + [d]), Dividend(init, ds);
    var f := e + [false];
    var t := Zeros(|ds|) + ([d] + Zeros(|init|));
    forall i | 0 <= i < |p| ensures p[i] == Xor(f, t)[i] {
      assert p[i] == ((init + Zeros(|ds| + 1))[i] != (ds + [d] + Zeros(|init|))[i]);
      if i < |e| {
        assert e[i] == ((init + Zeros(|ds|))[i] != (ds + Zeros(|init|))[i]);
      }
    }
  }

  lemma RunIsRemainder(poly: Bits, init: Bits, ds: Bits, r: Bits)
    requires |init| == |poly| > 0
    ensures IsRemainder(Dividend(init, ds), [true] + poly, r) <==> r == Run(poly, init, ds)
  {
    RunDivides(poly, init, ds);
    if IsRemainder(Dividend(init, ds), [true] + poly, r) {
      var q :| Divides(Dividend(init, ds), [true] + poly, q, r);
      DivisionUnique(Dividend(init, ds), [true] + poly, q, r,
                     Quotient(poly, init, ds), Run(poly, init, ds));
    }
  }

  // ---- Error detection ----

  ghost predicate IsMultiple(e: Bits, g: Bits)
    requires |g| > 0
  {
    exists q :: |e| == |q| + |g| - 1 && e == Mul(q, g)
  }

  /** A message that empties the register still empties it after the error e is added exactly
      when e is a multiple of the generator. */
  lemma UndetectedIffMultiple(poly: Bits, init: Bits, v: Bits, e: Bits)
    requires |init| == |poly| > 0 && poly[|poly| - 1]
    requires |v| == |e| >= |poly|
    requires Run(poly, init, v) == Zeros(|poly|)
    ensures Run(poly, init, Xor(v, e)) == Zeros(|poly|) <==> IsMultiple(e, [true] + poly)
  {
    var w := |poly|;
    ErrorAlone(poly, init, v, e);
    var k := |e| - w;
    var a, b := e[..k], e[k..];
    assert e == a + b;
    var r := Run(poly, Zeros(w), a);
    RunAppend(poly, Zeros(w), a, b);
    RunToZero(poly, r, b);
    assert b + Zeros(0) == b;
    assert Run(poly, Zeros(w), e) == Zeros(w) <==> r == b;
    MultipleIffRemainder(poly, a, b);
    RunIsRemainder(poly, Zeros(w), a, b);
  }

  lemma ErrorAlone(poly: Bits, init: Bits, v: Bits, e: Bits)
    requires |init| == |poly| > 0 && |v| == |e|
    requires Run(poly, init, v) == Zeros(|poly|)
    ensures Run(poly, init, Xor(v, e)) == Run(poly, Zeros(|poly|), e)
  {
    var z := Zeros(|poly|);
    RunXor(poly, init, v, z, e);
    XorZeros(init);
    XorZeros(Run(poly, z, e));
  }

  /** a * x^w + b is a multiple of g exactly when b is the remainder of a * x^w. */
  lemma MultipleIffRemainder(poly: Bits, a: Bits, b: Bits)
    requires |b| == |poly| > 0
    ensures IsMultiple(a + b, [true] + poly) <==>
            IsRemainder(Dividend(Zeros(|poly|), a), [true] + poly, b)
  {
    var g, p := [true] + poly, Dividend(Zeros(|poly|), a);
    assert p == a + Zeros(|poly|);
    forall q: Bits | |q| == |a|
      ensures a + b == Mul(q, g) <==> Divides(p, g, q, b)
    {
      var t := Zeros(|q|) + b;
      assert p == Xor(a + b, t) && a + b == Xor(p, t);
      if p == Xor(Mul(q, g), t) {
        assert Xor(Xor(Mul(q, g), t), t) == Mul(q, g);
      }
    }
    if IsMultiple(a + b, g) {
      var q :| |a + b| == |q| + |g| - 1 && a + b == Mul(q, g);
      assert Divides(p, g, q, b);
    }
    if IsRemainder(p, g, b) {
      var q :| Divides(p, g, q, b);
      assert |q| == |a|;
    }
  }

  /** An error confined to the window w bits wide, at any place. */
  lemma BurstDetected(poly: Bits, init: Bits, v: Bits, before: nat, burst: Bits, after: nat)
    requires |init| == |poly| > 0 && poly[|poly| - 1]
    requires |v| == before + |burst| + after
    requires Run(poly, init, v) == Zeros(|poly|)
    requires |burst| <= |poly| + 1
    ensures Run(poly, init, Xor(v, Zeros(before) + burst + Zeros(after))) == Zeros(|poly|) <==>
            burst == Zeros(|burst|) || burst == [true] + poly
  {
    var w := |poly|;
    var z := Zeros(w);
    ErrorAlone(poly, init, v, Zeros(before) + burst + Zeros(after));
    RunAppend(poly, z, Zeros(before) + burst, Zeros(after));
    RunAppend(poly, z, Zeros(before), burst);
    RunZeros(poly, Zeros(before));
    var s := Run(poly, z, burst);
    ZeroBackwards(poly, s, Zeros(after));
    ShortBurst(poly, burst);
  }

  /** From an empty register, at most w + 1 bits lead back to zero only if they are all zero or
      are the generator itself. */
  lemma ShortBurst(poly: Bits, burst: Bits)
    requires 0 < |poly| && poly[|poly| - 1] && |burst| <= |poly| + 1
    ensures Run(poly, Zeros(|poly|), burst) == Zeros(|poly|) <==>
            burst == Zeros(|burst|) || burst == [true] + poly
  {
    if |burst| <= |poly| {
      RunToZero(poly, Zeros(|poly|), burst);
      PadZeros(burst, |poly|);
    } else {
      FullBurst(poly, burst);
    }
  }

  lemma FullBurst(poly: Bits, burst: Bits)
    requires 0 < |poly| && poly[|poly| - 1] && |burst| == |poly| + 1
    ensures Run(poly, Zeros(|poly|), burst) == Zeros(|poly|) <==>
            burst == Zeros(|burst|) || burst == [true] + poly
  {
    var z, b, t := Zeros(|poly|), burst[0], burst[1..];
    StepFromZero(poly, b);
    RunToZero(poly, Scale(b, poly), t);
    assert t + Zeros(0) == t;
    HeadTail(b, t, true, poly);
    HeadTail(b, t, false, z);
    assert [b] + t == burst;
    ZerosCons(|poly|);
  }

  lemma ZerosCons(n: nat)
    ensures [false] + Zeros(n) == Zeros(n + 1)
  {
  }

  lemma StepFromZero(poly: Bits, b: bool)
    requires |poly| > 0
    ensures Step(poly, Zeros(|poly|), b) == Scale(b, poly)
  {
    var z := Zeros(|poly|);
    assert z[1..] + [false] == z;
    XorZeros(Scale(b, poly));
  }

  lemma PadZeros(a: Bits, w: nat)
    requires |a| <= w
    ensures Zeros(w) == a + Zeros(w - |a|) <==> a == Zeros(|a|)
  {
    if Zeros(w) == a + Zeros(w - |a|) {
      assert a == Zeros(w)[..|a|];
    }
    assert Zeros(|a|) + Zeros(w - |a|) == Zeros(w);
  }

  lemma HeadTail(b: bool, t: Bits, c: bool, u: Bits)
    ensures [b] + t == [c] + u <==> b == c && t == u
  {
    if [b] + t == [c] + u {
      assert ([b] + t)[0] == b && ([b] + t)[1..] == t;
      assert ([c] + u)[0] == c && ([c] + u)[1..] == u;
    }
  }

  /** Zero input never brings a non-zero register to zero. */
  lemma ZeroBackwards(poly: Bits, s: Bits, ds: Bits)
    requires |s| == |poly| > 0 && poly[|poly| - 1] && ds == Zeros(|ds|)
    ensures Run(poly, s, ds) == Zeros(|poly|) <==> s == Zeros(|poly|)
  {
    RunZeros(poly, ds);
    RunUnrun(poly, s, ds);
    RunUnrun(poly, Zeros(|poly|), ds);
  }
}

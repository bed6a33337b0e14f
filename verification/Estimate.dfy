/** The estimate of the decimal exponent (bignum-dtoa.cc:37-44 and 369-412). The logarithm is never
    needed: 205/681 < log10(2) < 146/485, and no fraction with a denominator below 1166 lies
    strictly between the two. */
module Estimates {
  import opened Limbs
  import opened Powers
  import opened Reals
  import opened Ieee

  // ------------------------------------------------------ powers compared

  lemma {:induction false} PowStrict(a: nat, b: nat, n: nat)
    requires a < b && n > 0
    ensures Pow(a, n) < Pow(b, n)
  {
    if n > 1 {
      PowStrict(a, b, n - 1);
      MulBound(a, Pow(a, n - 1), a, Pow(b, n - 1));
      SumScale(b - a, a, Pow(b, n - 1));
      MulPositive(b - a, Pow(b, n - 1));
    }
  }

  predicate Product(z: nat, x: nat, y: nat)
  {
    z == x * y
  }

  predicate Below(c: nat, x: nat, d: nat, y: nat)
  {
    c * x <= d * y
  }

  lemma PowerIs(b: nat, m: nat, n: nat, mn: nat)
    requires Product(mn, m, n)
    ensures Pow(Pow(b, m), n) == Pow(b, mn)
  {
    PowPower(b, m, n);
  }

  lemma SumIs(b: nat, m: nat, n: nat, s: nat)
    requires s == m + n
    ensures Product(Pow(b, s), Pow(b, m), Pow(b, n))
  {
    PowAdd(b, m, n);
  }

  // From one pair of exponents to every pair on the same side of their ratio.
  lemma Compared(a: nat, b: nat, p: nat, q: nat, m: nat, n: nat)
    requires a > 0 && q > 0 && Pow(a, p) <= Pow(b, q) && Below(m, q, p, n)
    ensures Pow(a, m) <= Pow(b, n)
  {
    PowersPowered(a, b, p, q, m, n, m * q, p * n, q * n);
    if Pow(a, m) > Pow(b, n) { PowStrict(Pow(b, n), Pow(a, m), q); }
  }

  lemma PowersPowered(a: nat, b: nat, p: nat, q: nat, m: nat, n: nat, mq: nat, pn: nat, qn: nat)
    requires a > 0 && Pow(a, p) <= Pow(b, q) && mq <= pn
    requires Product(mq, m, q) && Product(pn, p, n) && Product(qn, q, n) && Product(qn, n, q)
    ensures Pow(Pow(a, m), q) <= Pow(Pow(b, n), q)
  {
    PowerIs(a, m, q, mq);
    PowMonotone(a, mq, pn);
    PowerIs(a, p, n, pn);
    PowBaseMonotone(Pow(a, p), Pow(b, q), n);
    PowerIs(b, q, n, qn);
    PowerIs(b, n, q, qn);
  }

  lemma ProductPower(c: nat, x: nat, k: nat, cx: nat)
    requires Product(cx, c, x)
    ensures Product(Pow(cx, k), Pow(c, k), Pow(x, k))
  {
    PowProduct(c, x, k);
  }

  lemma BelowIff(c: nat, x: nat, d: nat, y: nat, cx: nat, dy: nat)
    requires Product(cx, c, x) && Product(dy, d, y)
    ensures Below(c, x, d, y) <==> cx <= dy
  {
  }

  lemma ScaledPowers(c: nat, x: nat, d: nat, y: nat, k: nat)
    requires Below(c, x, d, y)
    ensures Below(Pow(c, k), Pow(x, k), Pow(d, k), Pow(y, k))
  {
    PoweredProducts(c, x, d, y, k, c * x, d * y);
  }

  lemma PoweredProducts(c: nat, x: nat, d: nat, y: nat, k: nat, cx: nat, dy: nat)
    requires Product(cx, c, x) && Product(dy, d, y) && cx <= dy
    ensures Below(Pow(c, k), Pow(x, k), Pow(d, k), Pow(y, k))
  {
    ProductPower(c, x, k, cx);
    ProductPower(d, y, k, dy);
    PowBaseMonotone(cx, dy, k);
    BelowIff(Pow(c, k), Pow(x, k), Pow(d, k), Pow(y, k), Pow(cx, k), Pow(dy, k));
  }

  // The same for powers of powers.
  lemma PoweredBelow(c: nat, a: nat, p: nat, d: nat, b: nat, q: nat, k: nat, pk: nat, qk: nat)
    requires Below(c, Pow(a, p), d, Pow(b, q)) && Product(pk, p, k) && Product(qk, q, k)
    ensures Below(Pow(c, k), Pow(a, pk), Pow(d, k), Pow(b, qk))
  {
    ScaledPowers(c, Pow(a, p), d, Pow(b, q), k);
    PowerIs(a, p, k, pk);
    PowerIs(b, q, k, qk);
  }

  lemma Cancel(d: nat, x: nat, c: nat, y: nat, u: nat, v: nat)
    requires d > 0 && Below(d, x, c, y) && Below(c, u, d, v)
    ensures Below(x, u, y, v)
  {
    MulBound(d * x, u, c * y, u);
    MulBound(c * u, y, d * v, y);
    assert d * (x * u) == (d * x) * u && (c * y) * u == (c * u) * y && (d * v) * y == d * (y * v);
    if x * u > y * v { MulBound(d, y * v + 1, d, x * u); }
  }

  lemma Extended(a: nat, b: nat, d: nat, m: nat, c: nat, n: nat, u: nat, v: nat, p: nat, q: nat)
    requires d > 0 && Below(d, Pow(a, m), c, Pow(b, n)) && Below(c, Pow(a, u), d, Pow(b, v))
    requires p == m + u && q == n + v
    ensures Pow(a, p) <= Pow(b, q)
  {
    SumIs(a, m, u, p);
    SumIs(b, n, v, q);
    Cancelled(d, Pow(a, m), c, Pow(b, n), Pow(a, u), Pow(b, v), Pow(a, p), Pow(b, q));
  }

  lemma Cancelled(d: nat, x: nat, c: nat, y: nat, u: nat, v: nat, xu: nat, yv: nat)
    requires d > 0 && Below(d, x, c, y) && Below(c, u, d, v) && Product(xu, x, u) && Product(yv, y, v)
    ensures xu <= yv
  {
    Cancel(d, x, c, y, u, v);
  }

  // 2^90 and 10^27 are close.
  lemma NearPowers() returns (s: nat, t: nat)
    ensures s == 90 && t == 27
    ensures Below(8077, Pow(2, s), 10000, Pow(10, t)) && Below(10000, Pow(10, t), 8078, Pow(2, s))
  {
    s := Ninety();
    t := TwentySeven();
  }

  lemma Ninety() returns (n: nat)
    ensures n == 90 && Pow(2, n) == 1237940039285380274899124224
  {
    n := 15;
    assert Pow(2, 15) == 32768;
    PowPower(2, n, 6);
    n := 90;
  }

  lemma TwentySeven() returns (n: nat)
    ensures n == 27 && Pow(10, n) == 1000000000000000000000000000
  {
    n := 9;
    assert Pow(10, 9) == 1000000000;
    PowPower(10, n, 3);
    n := 27;
  }

  lemma TenBelow() returns (p: nat, q: nat)
    ensures p == 205 && q == 681 && Pow(10, p) <= Pow(2, q)
  {
    var s, t := NearPowers();
    var k, u, v := SevenTimes();
    p, q := 205, 681;
    PoweredBelow(10000, 10, t, 8078, 2, s, k, 189, 630);
    Extended(10, 2, Pow(10000, k), 189, Pow(8078, k), 630, u, v, p, q);
  }

  lemma SevenTimes() returns (k: nat, u: nat, v: nat)
    ensures k == 7 && u == 16 && v == 51 && Pow(10000, k) > 0
    ensures Below(Pow(8078, k), Pow(10, u), Pow(10000, k), Pow(2, v))
  {
    k, u, v := 7, 8, 10;
    assert Pow(8078, 7) == 2244537893729514613800278912 && Pow(10000, 7) == 10000000000000000000000000000;
    assert Pow(10, 8) == 100000000 && Pow(2, 10) == 1024;
    PowPower(10, u, 2);
    PowPower(2, v, 5);
    PowAdd(2, 5 * v, 1);
    u, v := 16, 51;
  }

  lemma TwoBelow() returns (p: nat, q: nat)
    ensures p == 485 && q == 146 && Pow(2, p) <= Pow(10, q)
  {
    var s, t := NearPowers();
    var k, u, v := FiveTimes();
    p, q := 485, 146;
    PoweredBelow(8077, 2, s, 10000, 10, t, k, 450, 135);
    Extended(2, 10, Pow(8077, k), 450, Pow(10000, k), 135, u, v, p, q);
  }

  lemma FiveTimes() returns (k: nat, u: nat, v: nat)
    ensures k == 5 && u == 35 && v == 11 && Pow(8077, k) > 0
    ensures Below(Pow(10000, k), Pow(2, u), Pow(8077, k), Pow(10, v))
  {
    k, u, v := 5, 7, 5;
    assert Pow(8077, 5) == 34375610069948424157 && Pow(10000, 5) == 100000000000000000000;
    assert Pow(2, 7) == 128 && Pow(10, 5) == 100000 && Pow(10, 6) == 1000000;
    PowPower(2, u, 5);
    PowAdd(10, v, 6);
    u, v := 35, 11;
  }

  // ---------------------------------------------------- for every exponent

  lemma SmallerInverse(x: real, y: real, p: real, q: real)
    requires 0.0 < p <= q && x * p == 1.0 && y * q == 1.0
    ensures y <= x
  {
    RealMonotone(0.0, x, p);
    var r := q - p;
    assert x * r >= 0.0;
    assert x * q == x * p + x * r;
    RealMonotone(x, y, q);
  }

  lemma {:induction false} AroundOne(n: int)
    ensures if n >= 0 then TwoScale(1.0, n) >= 1.0 && TenScale(1.0, n) >= 1.0
      else TwoScale(1.0, n) <= 1.0 && TenScale(1.0, n) <= 1.0
    decreases if n >= 0 then n else -n
  {
    if n > 0 { AroundOne(n - 1); } else if n < 0 { AroundOne(n + 1); }
  }

  lemma ScaledCompare(m: nat, n: nat)
    ensures Pow(10, m) <= Pow(2, n) ==>
      TenScale(1.0, m) <= TwoScale(1.0, n) && TwoScale(1.0, 0 - n) <= TenScale(1.0, 0 - m)
    ensures Pow(2, n) <= Pow(10, m) ==>
      TwoScale(1.0, n) <= TenScale(1.0, m) && TenScale(1.0, 0 - m) <= TwoScale(1.0, 0 - n)
  {
    var x, y := Pow(10, m), Pow(2, n);
    TenScalePow(1.0, m);
    TwoScalePow(1.0, n);
    TenScaleUnder(1.0, m);
    TwoScaleUnder(1.0, n);
    PowPositive(10, m);
    PowPositive(2, n);
    if x <= y { SmallerInverse(TenScale(1.0, 0 - m), TwoScale(1.0, 0 - n), x as real, y as real); }
    if y <= x { SmallerInverse(TwoScale(1.0, 0 - n), TenScale(1.0, 0 - m), y as real, x as real); }
  }

  // 10^m <= 2^n.
  lemma TenBelowTwo(m: int, n: int)
    requires if n >= 0 then 681 * m <= 205 * n else 146 * (0 - n) <= 485 * (0 - m)
    ensures TenScale(1.0, m) <= TwoScale(1.0, n)
  {
    if n < 0 {
      var p, q := TwoBelow();
      Compared(2, 10, p, q, 0 - n, 0 - m);
      ScaledCompare(0 - m, 0 - n);
    } else if m >= 0 {
      var p, q := TenBelow();
      Compared(10, 2, p, q, m, n);
      ScaledCompare(m, n);
    } else {
      AroundOne(m);
      AroundOne(n);
    }
  }

  // 2^n <= 10^m.
  lemma TwoBelowTen(n: int, m: int)
    requires if n >= 0 then 146 * n <= 485 * m else 681 * (0 - m) <= 205 * (0 - n)
    ensures TwoScale(1.0, n) <= TenScale(1.0, m)
  {
    if n >= 0 {
      var p, q := TwoBelow();
      Compared(2, 10, p, q, n, m);
      ScaledCompare(m, n);
    } else if m < 0 {
      var p, q := TenBelow();
      Compared(10, 2, p, q, 0 - m, 0 - n);
      ScaledCompare(0 - m, 0 - n);
    } else {
      AroundOne(m);
      AroundOne(n);
    }
  }

  // --------------------------------------------------------- the estimate

  const K1_LOG10: real := 0.30102999566398114
  const OFFSET: real := 0.0000000001
  const EPSILON: real := 0.00000000000000023 // a little more than 2^-52

  // The relative errors of the two constants and the two operations.
  datatype Rounding = Rounding(constant: real, offset: real, product: real, difference: real)

  // Rounding is off by less than one unit in the last place, in whatever direction.
  predicate Small(delta: real)
  {
    0.0 - EPSILON <= delta <= EPSILON
  }

  predicate Rounds(r: Rounding)
  {
    Small(r.constant) && Small(r.offset) && Small(r.product) && Small(r.difference)
  }

  function Rounded(x: real, delta: real): real
  {
    x + x * delta
  }

  function Ceiling(x: real): (n: int)
    ensures (n - 1) as real < x <= n as real
  {
    0 - (0.0 - x).Floor
  }

  // What the processor computes for n * k1Log10 - 1e-10.
  function Logarithm(n: int, r: Rounding): real
  {
    Computed(n as real * Rounded(K1_LOG10, r.constant), Rounded(OFFSET, r.offset), r)
  }

  function Computed(product: real, offset: real, r: Rounding): real
  {
    Rounded(Rounded(product, r.product) - offset, r.difference)
  }

  function EstimatePower(exponent: int, r: Rounding): int
  {
    Ceiling(Logarithm(exponent + 52, r))
  }

  predicate Within(x: real, y: real, d: real)
  {
    y - d <= x <= y + d
  }

  lemma RealAtMost(x: real, y: real, k: real)
    requires k >= 0.0 && x <= y
    ensures x * k <= y * k
  {
    if k > 0.0 { RealMonotone(y, x, k); }
  }

  lemma ProductBound(x: real, y: real, bound: real, d: real)
    requires Within(x, 0.0, bound) && Within(y, 0.0, d)
    ensures Within(x * y, 0.0, bound * d)
  {
    if x >= 0.0 {
      PositiveBound(x, y, bound, d, x * y, bound * d);
    } else {
      Negatives(x, y);
      PositiveBound(0.0 - x, y, bound, d, (0.0 - x) * y, bound * d);
    }
  }

  lemma PositiveBound(x: real, y: real, bound: real, d: real, xy: real, bd: real)
    requires 0.0 <= x <= bound && Within(y, 0.0, d) && xy == x * y && bd == bound * d
    ensures Within(xy, 0.0, bd)
  {
    RealAtMost(x, bound, d);
    RealAtMost(y, d, x);
    RealAtMost(0.0 - y, d, x);
    Negatives(x, y);
  }

  lemma Negatives(x: real, y: real)
    ensures (0.0 - x) * y == 0.0 - x * y && (0.0 - y) * x == 0.0 - x * y
  {
  }

  lemma RoundedNear(x: real, delta: real, bound: real, d: real)
    requires Small(delta) && Within(x, 0.0, bound) && bound * EPSILON <= d
    ensures Within(Rounded(x, delta), x, d)
  {
    ProductBound(x, delta, bound, EPSILON);
  }

  lemma ProductNear(x: real, k: real, c: real, bound: real, d: real, bd: real)
    requires Within(x, 0.0, bound) && Within(k, c, d) && bound * d <= bd
    ensures Within(x * k, x * c, bd)
  {
    var e := k - c;
    ProductBound(x, e, bound, d);
    SplitFactor(x, k, c, e, x * k, x * c, x * e);
  }

  lemma SplitFactor(x: real, k: real, c: real, e: real, xk: real, xc: real, xe: real)
    requires k == c + e && xk == x * k && xc == x * c && xe == x * e
    ensures xk == xc + xe
  {
  }

  lemma LogarithmNear(n: int, r: Rounding)
    requires -1074 <= n <= 1074 && Rounds(r)
    ensures Within(Logarithm(n, r), n as real * K1_LOG10 - OFFSET, 0.00000000001)
  {
    RoundedNear(K1_LOG10, r.constant, 1.0, 0.000000000000001);
    RoundedNear(OFFSET, r.offset, 1.0, 0.000000000000001);
    FromConstants(n as real, Rounded(K1_LOG10, r.constant), Rounded(OFFSET, r.offset), r);
  }

  lemma FromConstants(n: real, k: real, o: real, r: Rounding)
    requires Rounds(r) && Within(n, 0.0, 1074.0)
    requires Within(k, K1_LOG10, 0.000000000000001) && Within(o, OFFSET, 0.000000000000001)
    ensures Within(Computed(n * k, o, r), n * K1_LOG10 - OFFSET, 0.00000000001)
  {
    ProductNear(n, k, K1_LOG10, 1074.0, 0.000000000000001, 0.000000000002);
    ProductBound(n, K1_LOG10, 1074.0, 0.31);
    FromProduct(n * K1_LOG10, n * k, o, r);
  }

  lemma FromProduct(exact: real, p: real, o: real, r: Rounding)
    requires Rounds(r) && Within(exact, 0.0, 340.0) && Within(p, exact, 0.000000000002)
    requires Within(o, OFFSET, 0.000000000000001)
    ensures Within(Computed(p, o, r), exact - OFFSET, 0.00000000001)
  {
    RoundedNear(p, r.product, 400.0, 0.000000000001);
    RoundedNear(Rounded(p, r.product) - o, r.difference, 500.0, 0.000000000001);
  }

  // No fraction with a small denominator lies between the two bounds of the logarithm.
  lemma NothingBetween(m: int, n: nat)
    requires n < 1166
    ensures 485 * m < 146 * n ==> 681 * m <= 205 * n
    ensures 681 * m > 205 * n ==> 485 * m >= 146 * n
  {
  }

  /** 10^(ep-1) <= 2^n and 2^(n+1) <= 10^(ep+1), for every binary exponent a double can have,
      however the processor rounds. */
  lemma EstimateBrackets(exponent: int, r: Rounding)
    requires -1074 <= exponent + 52 <= 1023 && Rounds(r)
    ensures var n, ep := exponent + 52, EstimatePower(exponent, r);
      && TenScale(1.0, ep - 1) <= TwoScale(1.0, n) && TwoScale(1.0, n + 1) <= TenScale(1.0, ep + 1)
      && -330 <= ep <= 330 && (n >= 0 ==> ep >= 0)
  {
    LogarithmNear(exponent + 52, r);
    Brackets(exponent + 52, Logarithm(exponent + 52, r));
  }

  lemma Brackets(n: int, x: real)
    requires -1074 <= n <= 1023 && Within(x, n as real * K1_LOG10 - OFFSET, 0.00000000001)
    ensures var ep := Ceiling(x);
      && TenScale(1.0, ep - 1) <= TwoScale(1.0, n) && TwoScale(1.0, n + 1) <= TenScale(1.0, ep + 1)
      && -330 <= ep <= 330 && (n >= 0 ==> ep >= 0)
  {
    var ep := Ceiling(x);
    if n >= 0 {
      NothingBetween(ep - 1, n);
    } else {
      NothingBetween(1 - ep, 0 - n);
    }
    TenBelowTwo(ep - 1, n);
    TwoBelowTen(n + 1, ep + 1);
  }

  // ------------------------------------------------ the normalized exponent

  lemma FullSignificand(f: nat)
    requires HIDDEN_BIT <= f < 2 * HIDDEN_BIT
    ensures BitSize(f) == 53
  {
    FiftyThreeBits();
    BitSizeAtMost(f, 53);
    BitSizeBounds(f);
    if BitSize(f) < 53 { PowMonotone(2, BitSize(f), 52); }
  }

  /** The exponent with the leading bit of the significand moved to the place of the hidden bit. */
  method NormalizedExponent(significand: u64, exponent: int) returns (e: int)
    requires 0 < significand < 2 * HIDDEN_BIT
    ensures e + 53 == exponent + BitSize(significand)
  {
    var f: u64 := significand;
    e := exponent;
    while f / HIDDEN_BIT % 2 == 0 // (f & kHiddenBit) == 0
      invariant 0 < f < 2 * HIDDEN_BIT && e + BitSize(f) == exponent + BitSize(significand)
      decreases 2 * HIDDEN_BIT - f
    {
      assert BitSize(2 * f) == 1 + BitSize(f);
      f := 2 * f;
      e := e - 1;
    }
    FullSignificand(f);
  }
}

/** What the start values and the digits mean as real numbers. */
module Meaning {
  import opened Limbs
  import opened Reals
  import Ieee
  import opened Shortest
  import opened StartValues

  // digits * 10^t.
  function DecimalReal(c: nat, t: int): real { TenScale(c as real, t) }

  function Ratio(a: int, d: nat): real
    requires d > 0
  {
    (a as real) / (d as real)
  }

  // The interval, times 10^t, is [lo, hi] around val.
  ghost predicate Represents(v: Interval, t: int, lo: real, val: real, hi: real)
  {
    && v.d > 0 && v.minus <= v.n
    && lo == TenScale(Ratio(v.n - v.minus, v.d), t)
    && val == TenScale(Ratio(v.n, v.d), t)
    && hi == TenScale(Ratio(v.n + v.plus, v.d), t)
  }

  ghost predicate Between(even: bool, lo: real, x: real, hi: real)
  {
    if even then lo <= x <= hi else lo < x < hi
  }

  // ------------------------------------------------------------ candidates

  lemma {:induction false} RatioTens(a: nat, d: nat, j: nat)
    requires d > 0
    ensures TenScale(Ratio(a, d), j) == Ratio(Tens(a, j), d)
  {
    if j > 0 {
      RatioTens(a, d, j - 1);
      TenfoldRatio(Tens(a, j - 1), d);
    }
  }

  lemma TenfoldRatio(a: nat, d: nat)
    requires d > 0
    ensures Ratio(10 * a, d) == 10.0 * Ratio(a, d)
  {
    assert (10 * a) as real == 10.0 * (a as real);
  }

  lemma RatioCompare(c: nat, a: nat, d: nat)
    requires d > 0
    ensures c * d < a <==> (c as real) < Ratio(a, d)
    ensures c * d == a <==> (c as real) == Ratio(a, d)
  {
    RealOfProduct(c, d);
    RealMonotone(c as real, Ratio(a, d), d as real);
    RatioTimes(a as real, d as real);
  }

  lemma RatioTimes(a: real, d: real)
    requires d > 0.0
    ensures (a / d) * d == a
  {
  }

  // c*d against 10^j*a is c*10^(t-j) against (a/d)*10^t.
  lemma CandidateCompare(c: nat, a: nat, d: nat, j: nat, t: int)
    requires d > 0
    ensures c * d < Tens(a, j) <==> DecimalReal(c, t - j) < TenScale(Ratio(a, d), t)
    ensures c * d == Tens(a, j) <==> DecimalReal(c, t - j) == TenScale(Ratio(a, d), t)
  {
    var r := Ratio(Tens(a, j), d);
    RatioTens(a, d, j);
    TenScaleCompose(Ratio(a, d), j, t - j);
    RatioCompare(c, Tens(a, j), d);
    TenScaleOrder(c as real, r, t - j);
    TenScaleOrder(r, c as real, t - j);
  }

  /** A candidate lies in the integer interval exactly when its real value lies between the ends. */
  lemma HoldsMeans(v: Interval, t: int, lo: real, val: real, hi: real, c: nat, j: nat)
    requires Represents(v, t, lo, val, hi)
    ensures Holds(v, c, j) <==> Between(v.even, lo, DecimalReal(c, t - j), hi)
  {
    TensOrder(v.n, v.plus, j);
    TensOrder(v.n - v.minus, v.minus, j);
    CandidateCompare(c, v.n + v.plus, v.d, j, t);
    CandidateCompare(c, v.n - v.minus, v.d, j, t);
  }

  // ----------------------------------------------------------- start values

  function LowerEnd(f: nat, e: int, closer: bool): real
  {
    if closer then Ieee.Dyadic(4 * f - 1, e - 2) else Ieee.Dyadic(2 * f - 1, e - 1)
  }

  function UpperEnd(f: nat, e: int): real { Ieee.Dyadic(2 * f + 1, e - 1) }

  // How the start values share a unit w (half the gap between neighbours) and the denominator.
  ghost predicate Shares(v: Interval, f: nat)
  {
    v.plus == v.minus && v.n == (2 * f) * v.plus && v.d > 0 && v.plus > 0
  }

  // s = y * (2w) / d stands for y * 2^e over 10^ep.
  ghost predicate Stands(v: Interval, e: int, ep: int, y: real, s: real)
  {
    s * (v.d as real) == y * (2.0 * (v.plus as real)) && TenScale(s, ep) == TwoScale(y, e)
  }

  lemma CommonShares(f: nat, e: int, ep: int, even: bool)
    requires InRange(f, e, ep)
    ensures Shares(CommonInterval(f, e, ep, even), f)
  {
    if e >= 0 {
      PowPositive(2, e);
      PowPositive(10, ep);
      SwapFactors(2, Pow(2, e), f);
    } else if ep >= 0 {
      PowPositive(2, -e);
      PowPositive(10, ep);
      MulPositive(Pow(2, -e), Pow(10, ep));
    } else {
      PowPositive(2, -e);
      PowPositive(10, -ep);
      MulAssociative(2, f, Pow(10, -ep));
    }
  }

  lemma CommonUnit(f: nat, e: int, ep: int, even: bool, y: real) returns (s: real)
    requires InRange(f, e, ep)
    ensures Stands(CommonInterval(f, e, ep, even), e, ep, y, s)
  {
    if e >= 0 {
      s := PositiveCase(CommonInterval(f, e, ep, even), e, ep, y);
    } else if ep >= 0 {
      s := MixedCase(CommonInterval(f, e, ep, even), e, ep, y);
    } else {
      s := NegativeCase(CommonInterval(f, e, ep, even), e, ep, y);
    }
  }

  lemma StandsIs(v: Interval, e: int, ep: int, y: real, s: real, d: real, w: real)
    requires d == v.d as real && w == 2.0 * (v.plus as real) && s * d == y * w && TenScale(s, ep) == TwoScale(y, e)
    ensures Stands(v, e, ep, y, s)
  {
  }

  lemma PositiveCase(v: Interval, e: nat, ep: nat, y: real) returns (s: real)
    requires v.d == 2 * Pow(10, ep) && v.plus == Pow(2, e)
    ensures Stands(v, e, ep, y, s)
  {
    var p, q := Pow(2, e), Pow(10, ep);
    PowPositive(10, ep);
    TwoScalePow(y, e);
    s := OverTen(y, p as real, q as real);
    TenScalePow(s, ep);
    TwiceReal(q);
    StandsIs(v, e, ep, y, s, 2.0 * (q as real), 2.0 * (p as real));
  }

  // The three quotients, in real numbers.
  lemma OverTen(y: real, p: real, q: real) returns (s: real)
    requires q > 0.0
    ensures s * q == y * p && s * (2.0 * q) == y * (2.0 * p)
  {
    s := y * p / q;
    RatioTimes(y * p, q);
    RealRegroup(2.0, s, q);
    RealRegroup(2.0, y, p);
  }

  lemma OverBoth(y: real, z: real, p: real, q: real) returns (s: real)
    requires q > 0.0 && z * p == y
    ensures s * q == z && s * (2.0 * (p * q)) == 2.0 * y
  {
    s := z / q;
    RatioTimes(z, q);
    RealRegroup(2.0, s, p * q);
    RealRegroup(p, s, q);
  }

  lemma OverTwo(y: real, z: real, p: real, q: real)
    requires z * p == y
    ensures (z * q) * (2.0 * p) == y * (2.0 * q)
  {
    RealRegroup(2.0, z * q, p);
    RealRegroup(2.0, y, q);
    RealRegroup(p, z, q);
  }

  lemma TwiceReal(x: nat)
    ensures (2 * x) as real == 2.0 * (x as real)
  {
  }

  lemma MixedCase(v: Interval, e: int, ep: nat, y: real) returns (s: real)
    requires e < 0 && v.d == 2 * (Pow(2, -e) * Pow(10, ep)) && v.plus == 1
    ensures Stands(v, e, ep, y, s)
  {
    var p, q := Pow(2, -e), Pow(10, ep);
    PowPositive(10, ep);
    RealOfProduct(p, q);
    assert 0 - (-e) == e;
    TwoScaleUnder(y, -e);
    s := OverBoth(y, TwoScale(y, e), p as real, q as real);
    TenScalePow(s, ep);
    TwiceReal(p * q);
    StandsIs(v, e, ep, y, s, 2.0 * ((p as real) * (q as real)), 2.0);
  }

  lemma NegativeCase(v: Interval, e: int, ep: int, y: real) returns (s: real)
    requires e < 0 && ep < 0 && v.d == 2 * Pow(2, -e) && v.plus == Pow(10, -ep)
    ensures Stands(v, e, ep, y, s)
  {
    var p, q := Pow(2, -e), Pow(10, -ep);
    assert 0 - (-e) == e;
    TwoScaleUnder(y, -e);
    var z := TwoScale(y, e);
    s := TenScale(z, -ep);
    TenScalePow(z, -ep);
    TenScaleCompose(z, -ep, ep);
    TwiceReal(p);
    OverTwo(y, z, p as real, q as real);
    StandsIs(v, e, ep, y, s, 2.0 * (p as real), 2.0 * (q as real));
  }

  // a/(k*d) counts y double units; so it stands for y * 2^e.
  lemma EndMeans(v: Interval, e: int, ep: int, s: real, a: int, k: nat, d: nat, y: real)
    requires k > 0 && v.d > 0 && d == k * v.d && Stands(v, e, ep, y, s)
    requires a as real == (k as real) * (y * (2.0 * (v.plus as real)))
    ensures d > 0 && TenScale(Ratio(a, d), ep) == TwoScale(y, e)
  {
    MulPositive(k, v.d);
    RealOfProduct(k, v.d);
    RatioIs(a as real, k as real, v.d as real, s, y * (2.0 * (v.plus as real)), d as real);
  }

  lemma RatioIs(a: real, k: real, d: real, s: real, u: real, kd: real)
    requires kd == k * d && kd > 0.0 && a == k * u && s * d == u
    ensures a / kd == s
  {
    RealRegroup(k, s, d);
    SameRatio(a, kd, s);
  }

  lemma SameRatio(a: real, d: real, r: real)
    requires d != 0.0 && r * d == a
    ensures a / d == r
  {
  }

  /** The start values are v, its two boundaries and nothing else, exactly. */
  lemma StartRepresents(f: nat, e: int, closer: bool, ep: int, even: bool)
    requires InRange(f, e, ep)
    ensures Represents(StartInterval(f, e, closer, ep, even), ep,
                       LowerEnd(f, e, closer), Ieee.Dyadic(f, e), UpperEnd(f, e))
    ensures var v := StartInterval(f, e, closer, ep, even);
            0 < v.minus < v.n && v.plus > 0 && v.n <= (4 * f) * v.minus
  {
    CommonShares(f, e, ep, even);
    MultipleOfUnit(f, CommonInterval(f, e, ep, even).plus);
    Ends(f, e);
    if closer { CloserRepresents(f, e, ep, even); } else { CommonRepresents(f, e, ep, even); }
  }

  // The end q quarters of a gap away from f * 2^e.
  lemma QuarterEnd(v: Interval, f: nat, e: int, ep: int, k: nat, q: int, a: int, d: nat, s: real)
    requires k > 0 && Shares(v, f) && Stands(v, e, ep, f as real + q as real / 4.0, s)
    requires 2 * a == k * (2 * v.n + q * v.plus) && d == k * v.d
    ensures d > 0 && TenScale(Ratio(a, d), ep) == TwoScale(f as real + q as real / 4.0, e)
  {
    var y := f as real + q as real / 4.0;
    QuarterUnits(f, v.plus, v.n, q, k, a, y);
    EndMeans(v, e, ep, s, a, k, d, y);
  }

  lemma QuarterUnits(f: nat, w: nat, n: nat, q: int, k: nat, a: int, y: real)
    requires n == (2 * f) * w && 2 * a == k * (2 * n + q * w) && y == f as real + q as real / 4.0
    ensures a as real == (k as real) * (y * (2.0 * (w as real)))
  {
    var m := 2 * n + q * w;
    RealOfProduct(2 * f, w);
    RealOfProduct(q, w);
    RealOfProduct(m, k);
    assert y * (2.0 * (w as real)) == (2.0 * (f as real)) * (w as real) + ((q as real) * (w as real)) / 2.0;
    assert m as real == 2.0 * (y * (2.0 * (w as real)));
    Halve(a as real, k as real, y * (2.0 * (w as real)), m as real);
  }

  lemma Halve(a: real, k: real, u: real, m: real)
    requires 2.0 * a == m * k && m == 2.0 * u
    ensures a == k * u
  {
  }

  lemma CommonRepresents(f: nat, e: int, ep: int, even: bool)
    requires InRange(f, e, ep) && Shares(CommonInterval(f, e, ep, even), f)
    ensures var v, x := CommonInterval(f, e, ep, even), f as real;
            && TenScale(Ratio(v.n - v.minus, v.d), ep) == TwoScale(x - 0.5, e)
            && TenScale(Ratio(v.n, v.d), ep) == TwoScale(x, e)
            && TenScale(Ratio(v.n + v.plus, v.d), ep) == TwoScale(x + 0.5, e)
  {
    var x := f as real;
    var low := CommonUnit(f, e, ep, even, x - 0.5);
    var mid := CommonUnit(f, e, ep, even, x);
    var high := CommonUnit(f, e, ep, even, x + 0.5);
    SharedEnds(CommonInterval(f, e, ep, even), f, e, ep, low, mid, high);
  }

  lemma SharedEnds(v: Interval, f: nat, e: int, ep: int, low: real, mid: real, high: real)
    requires Shares(v, f) && Stands(v, e, ep, f as real - 0.5, low)
    requires Stands(v, e, ep, f as real, mid) && Stands(v, e, ep, f as real + 0.5, high)
    ensures TenScale(Ratio(v.n - v.minus, v.d), ep) == TwoScale(f as real - 0.5, e)
    ensures TenScale(Ratio(v.n, v.d), ep) == TwoScale(f as real, e)
    ensures TenScale(Ratio(v.n + v.plus, v.d), ep) == TwoScale(f as real + 0.5, e)
  {
    QuarterEnd(v, f, e, ep, 1, -2, v.n - v.minus, v.d, low);
    QuarterEnd(v, f, e, ep, 1, 0, v.n, v.d, mid);
    QuarterEnd(v, f, e, ep, 1, 2, v.n + v.plus, v.d, high);
  }

  lemma CloserRepresents(f: nat, e: int, ep: int, even: bool)
    requires InRange(f, e, ep) && Shares(CommonInterval(f, e, ep, even), f)
    ensures var v, x := CommonInterval(f, e, ep, even), f as real;
            && TenScale(Ratio(2 * v.n - v.minus, 2 * v.d), ep) == TwoScale(x - 0.25, e)
            && TenScale(Ratio(2 * v.n, 2 * v.d), ep) == TwoScale(x, e)
            && TenScale(Ratio(2 * v.n + 2 * v.plus, 2 * v.d), ep) == TwoScale(x + 0.5, e)
  {
    var x := f as real;
    var low := CommonUnit(f, e, ep, even, x - 0.25);
    var mid := CommonUnit(f, e, ep, even, x);
    var high := CommonUnit(f, e, ep, even, x + 0.5);
    SharedCloserEnds(CommonInterval(f, e, ep, even), f, e, ep, low, mid, high);
  }

  lemma SharedCloserEnds(v: Interval, f: nat, e: int, ep: int, low: real, mid: real, high: real)
    requires Shares(v, f) && Stands(v, e, ep, f as real - 0.25, low)
    requires Stands(v, e, ep, f as real, mid) && Stands(v, e, ep, f as real + 0.5, high)
    ensures TenScale(Ratio(2 * v.n - v.minus, 2 * v.d), ep) == TwoScale(f as real - 0.25, e)
    ensures TenScale(Ratio(2 * v.n, 2 * v.d), ep) == TwoScale(f as real, e)
    ensures TenScale(Ratio(2 * v.n + 2 * v.plus, 2 * v.d), ep) == TwoScale(f as real + 0.5, e)
  {
    QuarterEnd(v, f, e, ep, 2, -1, 2 * v.n - v.minus, 2 * v.d, low);
    QuarterEnd(v, f, e, ep, 2, 0, 2 * v.n, 2 * v.d, mid);
    QuarterEnd(v, f, e, ep, 2, 2, 2 * v.n + 2 * v.plus, 2 * v.d, high);
  }

  lemma MultipleOfUnit(f: nat, w: nat)
    requires f > 0 && w > 0
    ensures w < (2 * f) * w && 2 * ((2 * f) * w) == (4 * f) * w
  {
    MulBound(2, w, 2 * f, w);
  }

  lemma Ends(f: nat, e: int)
    ensures UpperEnd(f, e) == TwoScale(f as real + 0.5, e)
    ensures LowerEnd(f, e, false) == TwoScale(f as real - 0.5, e)
    ensures LowerEnd(f, e, true) == TwoScale(f as real - 0.25, e)
  {
    var x := f as real;
    assert (2 * f + 1) as real == 2.0 * (x + 0.5);
    TwoScaleInner(x + 0.5, e - 1);
    assert (2 * f - 1) as real == 2.0 * (x - 0.5);
    TwoScaleInner(x - 0.5, e - 1);
    assert (4 * f - 1) as real == 2.0 * (2.0 * (x - 0.25));
    TwoScaleInner(2.0 * (x - 0.25), e - 2);
    TwoScaleInner(x - 0.25, e - 1);
  }

  // Scaling up by ten and moving the decimal point cancel.
  lemma FixedUpRepresents(v: Interval, t: int, lo: real, val: real, hi: real)
    requires Represents(v, t, lo, val, hi)
    ensures Represents(FixedUp(v), t - 1, lo, val, hi)
  {
    TenfoldRatio(v.n - v.minus, v.d);
    TenfoldRatio(v.n, v.d);
    TenfoldRatio(v.n + v.plus, v.d);
    TenScaleInner(Ratio(v.n - v.minus, v.d), t - 1);
    TenScaleInner(Ratio(v.n, v.d), t - 1);
    TenScaleInner(Ratio(v.n + v.plus, v.d), t - 1);
  }
}

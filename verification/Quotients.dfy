/** The arithmetic of schoolbook division with small quotients, bignum.cc:486-546. */
module Quotients {
  import opened Limbs

  lemma QuotientIs(v: nat, w: nat, q: nat, r: nat)
    requires w > 0 && r < w && v == r + Times(q, w)
    ensures q == v / w && r == v % w
  {
    TimesIs(q, w);
    var q', r' := v / w, v % w;
    assert v == w * q' + r';
    if q < q' { MulBound(q + 1, w, q', w); SumScale(q, 1, w); }
    if q > q' { MulBound(q' + 1, w, q, w); SumScale(q', 1, w); }
  }

  lemma QuotientInSteps(v: nat, w: nat, q: nat, left: nat, more: nat, r: nat)
    requires w > 0 && r < w && v == left + Times(q, w) && left == r + Times(more, w)
    ensures q + more == v / w && r == v % w
  {
    TimesAdd(q, more, w);
    QuotientIs(v, w, q + more, r);
  }

  lemma FewMultiples(v: nat, w: nat, sofar: nat, q: nat)
    requires Times(q, w) <= v && v + Times(sofar, w) < 0x1_0000 * w
    ensures sofar + q < 0x1_0000
  {
    TimesAdd(sofar, q, w);
    TimesIs(sofar + q, w);
    if sofar + q >= 0x1_0000 { MulBound(0x1_0000, w, sofar + q, w); }
  }

  lemma RemovalStep(v: nat, rest: nat, w: nat, p: nat, result: nat, top: nat)
    requires 0 < w < p && top > 0 && top * p <= rest
    requires v == rest + Times(result, w) && v < 0x1_0000 * w
    ensures 0 < Times(top, w) < rest && result + top < 0x1_0000
    ensures v == (rest - Times(top, w)) + Times(result + top, w)
    ensures rest - Times(top, w) + w >= p
  {
    TimesAdd(result, top, w);
    TimesAdd(1, top - 1, w);
    TimesIs(top, w);
    assert top * p == top * w + top * (p - w);
    MulBound(1, p - w, top, p - w);
    FewMultiples(rest, w, result, top);
  }

  // If the dividend came out shorter than the divisor, the divisor's top limb is all ones.
  lemma ShorterRemainder(v: nat, w: nat, p: nat, y: nat)
    requires v < p && w < (y + 1) * p && v + w >= BASE * p && y < BASE
    ensures y == BASE - 1 && w != y * p
  {
    if y < BASE - 1 { MulBound(y + 1, p, BASE - 1, p); SumScale(BASE - 1, 1, p); }
    SumScale(y, 1, p);
  }

  lemma TopQuotient(x: nat, y: nat)
    requires y > 0
    ensures y * (x / y) <= x && x - y * (x / y) == x % y < y
  {
  }

  // What removing y*q from the top limb x does to the whole number.
  lemma TopLimbDrop(low: nat, x: nat, y: nat, q: nat, n: nat, e: nat)
    requires y * q <= x
    ensures Scale(low + (x - y * q) * Pow(BASE, n), e) == Scale(low + x * Pow(BASE, n), e) - Times(q, Scale(y, n + e))
  {
    var p, r := Pow(BASE, n), Pow(BASE, e);
    ScaleIs(low + (x - y * q) * p, e);
    ScaleIs(low + x * p, e);
    ScaleIs(y, n + e);
    PowAdd(BASE, n, e);
    TimesIs(q, Scale(y, n + e));
    SumScale(x - y * q, y * q, p);
    SumScale(low + (x - y * q) * p, (y * q) * p, r);
    RegroupFactors(y, q, p, r);
  }

  lemma RegroupFactors(y: int, q: int, p: int, r: int)
    ensures ((y * q) * p) * r == q * (y * (p * r))
  {
    MulAssociative(y * q, p, r);
    MulAssociative(q, y, p * r);
    assert y * q == q * y;
  }

  // Equal lengths, one-limb divisor: the top limbs give the exact quotient.
  lemma OneLimbQuotient(v: nat, p: nat, x: nat, y: nat)
    requires y > 0 && x * p <= v < (x + 1) * p
    ensures Times(x / y, y * p) <= v < Times(x / y, y * p) + y * p
  {
    var q := x / y;
    TimesIs(q, y * p);
    TopQuotient(x, y);
    MulAssociative(q, y, p);
    assert q * y == y * q;
    MulBound(q * y, p, x, p);
    MulBound(x + 1, p, q * y + y, p);
    SumScale(q * y, y, p);
  }

  // Equal lengths: the estimate never takes too much, and the early exit is right.
  lemma EstimateFits(v: nat, w: nat, p: nat, x: nat, y: nat, q: nat)
    requires (y + 1) * q <= x
    requires x * p <= v < (x + 1) * p && y * p <= w < (y + 1) * p
    ensures Times(q, w) <= v
    ensures y * (q + 1) > x ==> v < Times(q + 1, w)
  {
    EstimateBelow(v, w, p, x, y, q);
    if y * (q + 1) > x { EstimateLast(v, w, p, x, y, q); }
  }

  lemma EstimateBounds(x: nat, y: nat, q: nat)
    requires x < BASE && 0 < y < BASE && (y + 1) * q <= x
    ensures q < BASE && y * (q + 1) < 0x1_0000_0000
  {
    assert (y + 1) * q == y * q + q && y * (q + 1) == y * q + y;
  }

  lemma EstimateBelow(v: nat, w: nat, p: nat, x: nat, y: nat, q: nat)
    requires (y + 1) * q <= x && x * p <= v && w < (y + 1) * p
    ensures Times(q, w) <= v
  {
    TimesIs(q, w);
    MulBound(q, w, q, (y + 1) * p);
    MulAssociative(q, y + 1, p);
    assert q * (y + 1) == (y + 1) * q;
    MulBound((y + 1) * q, p, x, p);
  }

  lemma EstimateLast(v: nat, w: nat, p: nat, x: nat, y: nat, q: nat)
    requires y * (q + 1) > x && v < (x + 1) * p && y * p <= w
    ensures v < Times(q + 1, w)
  {
    TimesIs(q + 1, w);
    MulBound(x + 1, p, y * (q + 1), p);
    MulAssociative(q + 1, y, p);
    assert (q + 1) * y == y * (q + 1);
    MulBound(q + 1, y * p, q + 1, w);
  }
}

/** What the digit generation of Grisu3 means: the grid of decimals, the common unit in which the loops
    of util/double-conversion/fast-dtoa.cc count, and when a decimal is certain to be right. */
module Grisu {
  import opened Limbs
  import opened Powers
  import opened Reals

  // ------------------------------------------------------- the last digit

  // The last digit d stands d multiples of tenKappa above prev, with rest left over.
  ghost predicate Last(buffer: seq<nat>, tenKappa: nat, prev: nat, rest: nat)
  {
    buffer != [] && prev == buffer[|buffer| - 1] * tenKappa + rest
  }

  /** No neighbour of the chosen number that lies within the interval can be closer to a point
      between small and big. All are given by their distance from the upper end. */
  ghost predicate Nearest(rest: int, tenKappa: int, small: int, big: int, interval: int)
  {
    && (rest >= big || rest + tenKappa > interval || 2 * big <= 2 * rest + tenKappa)
    && (rest < tenKappa || (rest - tenKappa < small && (rest < small || 2 * rest - tenKappa <= 2 * small)))
  }

  lemma NearestIs(rest: int, tenKappa: int, small: int, big: int, interval: int, x: real, c: real)
    requires Nearest(rest, tenKappa, small, big, interval) && tenKappa > 0
    requires (small as real) < x < (big as real) && 0.0 <= c <= (interval as real)
    requires c >= (rest + tenKappa) as real || c <= (rest - tenKappa) as real
    ensures Abs(rest as real - x) < Abs(c - x)
  {
  }

  function Abs(x: real): real { if x < 0.0 then -x else x }

  lemma LowerDigit(d: nat, tenKappa: nat, rest: nat)
    requires d > 0
    ensures d * tenKappa + rest == (d - 1) * tenKappa + (rest + tenKappa)
  {
  }

  // The digit is not zero while the interval has room: prev lies outside of it.
  lemma DigitLeft(d: nat, tenKappa: nat, prev: nat, rest: nat, interval: nat)
    requires prev == d * tenKappa + rest && interval <= prev && rest + tenKappa <= interval && tenKappa > 0
    ensures d > 0
  {
  }

  // ---------------------------------------------------------- the promise

  // The number m * 10^kappa in units of the last place: one is 2^-e.
  function Value(m: int, one: nat, kappa: int): real
  {
    TenScale((m * one) as real, kappa)
  }

  /** The promise of DigitGen: strictly inside the true boundaries; nothing with fewer digits is;
      and everything else with as many digits that is inside is farther from the true number. */
  ghost predicate ShortestClosest(buffer: seq<nat>, kappa: int, one: nat, low: real, w: real, high: real)
  {
    var v, coarse := Value(Decimal(buffer), one, kappa), kappa + 1;
    && low < v < high
    && (forall m: int :: !(low < Value(m, one, coarse) < high))
    && (forall m: int :: m != Decimal(buffer) && low < Value(m, one, kappa) < high ==>
          Abs(v - w) < Abs(Value(m, one, kappa) - w))
  }

  // One digit of the scaled number: multiples of tenKappa against the common unit.
  lemma ValueScaled(m: int, one: nat, kappa: int, tenKappa: nat, unit: nat)
    requires Units(one, kappa, tenKappa, unit)
    ensures Value(m, one, kappa) * (unit as real) == (m * tenKappa) as real
  {
    if kappa >= 0 {
      TenScalePow((m * one) as real, kappa);
      Product3(m, one, Pow(10, kappa));
    } else {
      TenScaleUnder((m * one) as real, 0 - kappa);
    }
  }

  lemma Product3(m: int, a: int, b: int)
    ensures ((m * a) as real) * (b as real) == (m * (b * a)) as real
  {
    assert m * (b * a) == (m * a) * b;
    RealOfProduct(m * a, b);
  }

  lemma ValueTenfold(m: int, one: nat, kappa: int)
    ensures Value(m, one, kappa + 1) == 10.0 * Value(m, one, kappa)
  {
    TenScaleInner((m * one) as real, kappa);
  }

  // The inputs of DigitGen and the numbers they stand for, each less than one unit away.
  datatype Inputs = Inputs(low: nat, w: nat, high: nat, trueLow: real, trueW: real, trueHigh: real)

  predicate Known(i: Inputs)
  {
    && 0 < i.low && i.low + 1 <= i.high - 1 && i.low < i.w < i.high
    && Near(i.trueLow, i.low) && Near(i.trueW, i.w) && Near(i.trueHigh, i.high)
  }

  predicate Near(t: real, x: int)
  {
    Abs(t - x as real) < 1.0
  }

  // Digit generation in the common unit: p stands for the digits before the last; low, w and high
  // are the true numbers times the unit.
  datatype Scaled = Scaled(whole: nat, unit: nat, interval: nat, distance: nat, tenKappa: nat, p: nat, prev: nat,
                           low: real, w: real, high: real)

  predicate Within(q: Scaled)
  {
    && Around(q.low, q.whole - q.interval + q.unit, q.unit)
    && Around(q.high, q.whole - q.unit, q.unit)
    && Around(q.w, q.whole - q.distance, q.unit)
  }

  // t is less than r away from x.
  predicate Around(t: real, x: int, r: int)
  {
    (x - r) as real < t < (x + r) as real
  }

  predicate OnGrid(q: Scaled)
  {
    q.tenKappa > 0 && q.whole == q.p * (10 * q.tenKappa) + q.prev && q.interval <= q.prev < 10 * q.tenKappa
  }

  predicate Times(product: int, x: int, unit: int)
  {
    product == x * unit
  }

  predicate RealTimes(product: real, x: real, u: real)
  {
    product == x * u
  }

  predicate Scales(i: Inputs, q: Scaled)
  {
    && q.unit > 0 && Times(q.whole, i.high + 1, q.unit) && Times(q.interval, i.high - i.low + 2, q.unit)
    && Times(q.distance, i.high + 1 - i.w, q.unit) && Truth(i, q, q.unit as real)
  }

  lemma TruthScaled(i: Inputs, q: Scaled)
    requires Known(i) && Scales(i, q)
    ensures Within(q)
  {
    AllScaled(i.trueLow, i.trueW, i.trueHigh, i.low, i.w, i.high, q.unit, q.whole, q.interval, q.distance,
              q.low, q.w, q.high);
  }

  lemma AllScaled(trueLow: real, trueW: real, trueHigh: real, low: nat, w: nat, high: nat, unit: nat,
                  whole: int, interval: int, distance: int, lowU: real, wU: real, highU: real)
    requires Near(trueLow, low) && Near(trueW, w) && Near(trueHigh, high)
    requires unit > 0 && RealTimes(lowU, trueLow, unit as real)
    requires RealTimes(wU, trueW, unit as real) && RealTimes(highU, trueHigh, unit as real)
    requires Times(whole, high + 1, unit) && Times(interval, high - low + 2, unit)
    requires Times(distance, high + 1 - w, unit)
    ensures Around(lowU, whole - interval + unit, unit)
    ensures Around(highU, whole - unit, unit)
    ensures Around(wU, whole - distance, unit)
  {
    LowScaled(trueLow, low, high, unit, whole, interval, lowU);
    HighScaled(trueHigh, high, unit, whole, highU);
    MiddleScaled(trueW, w, high, unit, whole, distance, wU);
  }

  lemma LowScaled(t: real, low: nat, high: nat, unit: nat, whole: int, interval: int, tu: real)
    requires Near(t, low) && unit > 0 && tu == t * (unit as real)
    requires Times(whole, high + 1, unit) && Times(interval, high - low + 2, unit)
    ensures Around(tu, whole - interval + unit, unit)
  {
    AroundScaled(t, low, unit, tu);
    Difference(high + 1, high - low + 2, low - 1, unit);
    SumScale(low - 1, 1, unit);
  }

  lemma HighScaled(t: real, high: nat, unit: nat, whole: int, tu: real)
    requires Near(t, high) && unit > 0 && tu == t * (unit as real) && Times(whole, high + 1, unit)
    ensures Around(tu, whole - unit, unit)
  {
    AroundScaled(t, high, unit, tu);
    SumScale(high, 1, unit);
  }

  lemma MiddleScaled(t: real, w: nat, high: nat, unit: nat, whole: int, distance: int, tu: real)
    requires Near(t, w) && unit > 0 && tu == t * (unit as real)
    requires Times(whole, high + 1, unit) && Times(distance, high + 1 - w, unit)
    ensures Around(tu, whole - distance, unit)
  {
    AroundScaled(t, w, unit, tu);
    Difference(high + 1, high + 1 - w, w, unit);
  }

  lemma Difference(x: int, y: int, z: int, unit: int)
    requires x == y + z
    ensures x * unit - y * unit == z * unit
  {
    SumScale(y, z, unit);
  }

  lemma AroundScaled(t: real, x: nat, unit: nat, tu: real)
    requires Near(t, x) && unit > 0 && tu == t * (unit as real)
    ensures Around(tu, x * unit, unit)
  {
    RealOfProduct(x, unit);
    AroundReal(t, x as real, unit as real, tu, (x as real) * (unit as real));
  }

  lemma AroundReal(t: real, y: real, u: real, tu: real, yu: real)
    requires Abs(t - y) < 1.0 && u > 0.0 && tu == t * u && yu == y * u
    ensures yu - u < tu < yu + u
  {
    var d := t - y;
    assert -1.0 < d < 1.0;
    assert t * u == y * u + d * u;
    RealLess(-1.0, d, u);
    RealLess(d, 1.0, u);
    assert (-1.0) * u < d * u < 1.0 * u;
    assert tu == yu + d * u;
  }

  lemma RealLess(x: real, y: real, k: real)
    requires k > 0.0 && x < y
    ensures x * k < y * k
  {
    RealMonotone(x, y, k);
  }

  lemma RealSum(x: real, y: real, z: real, u: real)
    requires z == x + y
    ensures z * u == x * u + y * u
  {
  }

  lemma AbsScaled(x: real, y: real, w: real, u: real)
    requires u > 0.0 && Abs(x * u - w * u) < Abs(y * u - w * u)
    ensures Abs(x - w) < Abs(y - w)
  {
    var a, b := x - w, y - w;
    RealSum(a, w, x, u);
    RealSum(b, w, y, u);
    AbsOrder(a, b, u);
  }

  lemma AbsOrder(a: real, b: real, u: real)
    requires u > 0.0 && Abs(a * u) < Abs(b * u)
    ensures Abs(a) < Abs(b)
  {
    AbsProduct(a, u);
    AbsProduct(b, u);
    RealMonotone(Abs(a), Abs(b), u);
  }

  lemma AbsProduct(a: real, u: real)
    requires u > 0.0
    ensures Abs(a * u) == Abs(a) * u
  {
    RealMonotone(a, 0.0, u);
    RealSum(a, -a, 0.0, u);
  }

  // Nothing on the coarser grid is inside.
  lemma CoarseMisses(q: Scaled, m: int)
    requires OnGrid(q)
    ensures m * (10 * q.tenKappa) <= q.whole - q.interval || m * (10 * q.tenKappa) > q.whole
  {
    var t := 10 * q.tenKappa;
    if m <= q.p {
      GridOrder(m, q.p, t);
    } else {
      GridOrder(q.p + 1, m, t);
      assert (q.p + 1) * t == q.p * t + t;
    }
  }

  lemma GridOrder(m: int, n: int, t: nat)
    requires m <= n
    ensures m * t <= n * t
  {
    assert (n - m) * t >= 0;
    assert n * t == m * t + (n - m) * t;
  }

  // Neighbours on the grid are at least one step away.
  lemma GridApart(b: int, m: int, t: nat)
    requires m != b
    ensures m * t >= b * t + t || m * t <= b * t - t
  {
    if m > b {
      GridOrder(b + 1, m, t);
      assert (b + 1) * t == b * t + t;
    } else {
      GridOrder(m, b - 1, t);
      assert (b - 1) * t == b * t - t;
    }
  }

  // Order carries over to the common unit.
  lemma Less(x: real, y: real, u: real, xu: real, yu: real)
    requires u > 0.0 && xu == x * u && yu == y * u
    ensures x < y <==> xu < yu
  {
    RealMonotone(x, y, u);
  }

  lemma NothingCoarse(q: Scaled, m: int, vu: real)
    requires Within(q) && OnGrid(q) && vu == (m * (10 * q.tenKappa)) as real
    ensures !(q.low < vu < q.high)
  {
    CoarseMisses(q, m);
  }

  // In the common unit.
  lemma CloserScaled(q: Scaled, rest: nat, g: int, h: int)
    requires Within(q) && q.tenKappa > 0 && g == q.whole - rest && (h >= g + q.tenKappa || h <= g - q.tenKappa)
    requires Nearest(rest, q.tenKappa, q.distance - q.unit, q.distance + q.unit, q.interval)
    requires q.low < h as real < q.high
    ensures Abs(g as real - q.w) < Abs(h as real - q.w)
  {
    NearestIs(rest, q.tenKappa, q.distance - q.unit, q.distance + q.unit, q.interval, q.whole as real - q.w,
              (q.whole - h) as real);
  }

  lemma NothingCloser(q: Scaled, rest: nat, b: int, m: int, vu: real, xu: real)
    requires Within(q) && q.tenKappa > 0 && b * q.tenKappa == q.whole - rest
    requires vu == (b * q.tenKappa) as real && xu == (m * q.tenKappa) as real
    requires Nearest(rest, q.tenKappa, q.distance - q.unit, q.distance + q.unit, q.interval)
    requires q.low < xu < q.high && m != b
    ensures Abs(vu - q.w) < Abs(xu - q.w)
  {
    GridApart(b, m, q.tenKappa);
    CloserScaled(q, rest, b * q.tenKappa, m * q.tenKappa);
  }

  predicate Units(one: nat, kappa: int, tenKappa: nat, unit: nat)
  {
    if kappa >= 0 then unit == 1 && tenKappa == Pow(10, kappa) * one else unit == Pow(10, 0 - kappa) && tenKappa == one
  }

  lemma CoarseScaled(m: int, one: nat, kappa: int, tenKappa: nat, unit: nat)
    requires Units(one, kappa, tenKappa, unit)
    ensures Value(m, one, kappa + 1) * (unit as real) == (m * (10 * tenKappa)) as real
  {
    ValueScaled(m, one, kappa, tenKappa, unit);
    ValueTenfold(m, one, kappa);
    RealRegroup(10.0, Value(m, one, kappa), unit as real);
    TenTimes(m, tenKappa);
  }

  lemma TenTimes(m: int, t: int)
    ensures m * (10 * t) == 10 * (m * t)
  {
  }

  // The true numbers, times the unit.
  predicate Truth(i: Inputs, q: Scaled, u: real)
  {
    u > 0.0 && RealTimes(q.low, i.trueLow, u) && RealTimes(q.w, i.trueW, u) && RealTimes(q.high, i.trueHigh, u)
  }

  lemma Inside(i: Inputs, q: Scaled, u: real, v: real, vu: real)
    requires Truth(i, q, u) && vu == v * u
    ensures i.trueLow < v < i.trueHigh <==> q.low < vu < q.high
  {
    Less(i.trueLow, v, u, q.low, vu);
    Less(v, i.trueHigh, u, vu, q.high);
  }

  lemma Closer(i: Inputs, q: Scaled, u: real, v: real, vu: real, x: real, xu: real)
    requires Truth(i, q, u) && vu == v * u && xu == x * u && Abs(vu - q.w) < Abs(xu - q.w)
    ensures Abs(v - i.trueW) < Abs(x - i.trueW)
  {
    AbsScaled(v, x, i.trueW, u);
  }

  lemma PromiseInside(i: Inputs, q: Scaled, one: nat, kappa: int, b: int, rest: nat)
    requires Within(q) && Truth(i, q, q.unit as real)
    requires Units(one, kappa, q.tenKappa, q.unit) && b * q.tenKappa == q.whole - rest
    requires 2 * q.unit <= rest <= q.interval - 4 * q.unit
    ensures i.trueLow < Value(b, one, kappa) < i.trueHigh
  {
    ValueScaled(b, one, kappa, q.tenKappa, q.unit);
    Inside(i, q, q.unit as real, Value(b, one, kappa), (q.whole - rest) as real);
  }

  lemma PromiseClosest(i: Inputs, q: Scaled, one: nat, kappa: int, b: int, m: int, rest: nat)
    requires Within(q) && Truth(i, q, q.unit as real) && Units(one, kappa, q.tenKappa, q.unit)
    requires q.tenKappa > 0 && b * q.tenKappa == q.whole - rest
    requires Nearest(rest, q.tenKappa, q.distance - q.unit, q.distance + q.unit, q.interval)
    requires i.trueLow < Value(m, one, kappa) < i.trueHigh && m != b
    ensures Abs(Value(b, one, kappa) - i.trueW) < Abs(Value(m, one, kappa) - i.trueW)
  {
    ValueScaled(b, one, kappa, q.tenKappa, q.unit);
    ValueScaled(m, one, kappa, q.tenKappa, q.unit);
    PromiseCloser(i, q, q.unit as real, b, m, rest,
      Value(b, one, kappa), (b * q.tenKappa) as real, Value(m, one, kappa), (m * q.tenKappa) as real);
  }

  /** RoundWeed's tests give the promise. */
  lemma Promise(i: Inputs, q: Scaled, one: nat, kappa: int, buffer: seq<nat>, rest: nat)
    requires Within(q) && Truth(i, q, q.unit as real) && OnGrid(q) && Units(one, kappa, q.tenKappa, q.unit)
    requires Decimal(buffer) * q.tenKappa == q.whole - rest
    requires 2 * q.unit <= rest <= q.interval - 4 * q.unit
    requires Nearest(rest, q.tenKappa, q.distance - q.unit, q.distance + q.unit, q.interval)
    ensures ShortestClosest(buffer, kappa, one, i.trueLow, i.trueW, i.trueHigh)
  {
    var b, coarse := Decimal(buffer), kappa + 1;
    PromiseInside(i, q, one, kappa, b, rest);
    forall m: int ensures !(i.trueLow < Value(m, one, coarse) < i.trueHigh) {
      PromiseCoarse(i, q, one, kappa, m);
    }
    forall m: int | m != b && i.trueLow < Value(m, one, kappa) < i.trueHigh
      ensures Abs(Value(b, one, kappa) - i.trueW) < Abs(Value(m, one, kappa) - i.trueW)
    {
      PromiseClosest(i, q, one, kappa, b, m, rest);
    }
  }

  lemma PromiseCoarse(i: Inputs, q: Scaled, one: nat, kappa: int, m: int)
    requires Within(q) && Truth(i, q, q.unit as real) && OnGrid(q) && Units(one, kappa, q.tenKappa, q.unit)
    ensures !(i.trueLow < Value(m, one, kappa + 1) < i.trueHigh)
  {
    var vu := (m * (10 * q.tenKappa)) as real;
    CoarseScaled(m, one, kappa, q.tenKappa, q.unit);
    NothingCoarse(q, m, vu);
    Inside(i, q, q.unit as real, Value(m, one, kappa + 1), vu);
  }

  lemma PromiseCloser(i: Inputs, q: Scaled, u: real, b: int, m: int, rest: nat, v: real, vu: real, x: real, xu: real)
    requires Within(q) && Truth(i, q, u) && q.tenKappa > 0 && b * q.tenKappa == q.whole - rest
    requires vu == (b * q.tenKappa) as real && xu == (m * q.tenKappa) as real && vu == v * u && xu == x * u
    requires Nearest(rest, q.tenKappa, q.distance - q.unit, q.distance + q.unit, q.interval)
    requires i.trueLow < x < i.trueHigh && m != b
    ensures Abs(v - i.trueW) < Abs(x - i.trueW)
  {
    Inside(i, q, u, x, xu);
    NothingCloser(q, rest, b, m, vu, xu);
    Closer(i, q, u, v, vu, x, xu);
  }

  lemma BufferStep(p: int, d: int, t: int)
    ensures (10 * p + d) * t == p * (10 * t) + d * t
  {
  }

  // -------------------------------------------------------------- certainty

  // v is at least as close to x as v'.
  predicate NotFarther(x: real, v: real, v': real)
  {
    Abs(v - x) <= Abs(v' - x)
  }

  // v is one of the closest to x among the multiples of 10^kappa in the unsafe interval.
  ghost predicate ClosestIn(x: real, v: real, one: nat, kappa: int, low: int, high: int)
  {
    forall m: int :: (low - 1) as real <= Value(m, one, kappa) <= (high + 1) as real ==>
      NotFarther(x, v, Value(m, one, kappa))
  }

  /** m * 10^kappa is right whatever the true numbers are, each within one unit: in the safe interval
      and closest to everything that w may stand for. */
  ghost predicate Certain(m: int, one: nat, kappa: int, low: int, w: int, high: int)
  {
    && (low + 3) as real <= Value(m, one, kappa) <= (high - 1) as real
    && forall x: real :: (w - 1) as real < x < (w + 1) as real ==>
         ClosestIn(x, Value(m, one, kappa), one, kappa, low, high)
  }

  // In the unsafe interval.
  predicate Reached(v: real, low: int, high: int)
  {
    (low - 1) as real < v <= (high + 1) as real
  }

  /** 10^kappa is the biggest power of ten with a multiple in the unsafe interval. */
  ghost predicate Coarsest(one: nat, kappa: int, low: int, high: int)
  {
    var coarse := kappa + 1;
    && (exists m: int :: Reached(Value(m, one, kappa), low, high))
    && (forall m: int :: !Reached(Value(m, one, coarse), low, high))
  }

  // What lowering the last digit leaves: nothing is closer to small, and a tie is taken downwards.
  predicate Settled(rest: int, tenKappa: int, small: int, interval: int)
  {
    && 0 <= rest <= interval
    && (rest >= small || rest + tenKappa > interval || (rest + tenKappa >= small && 2 * small < 2 * rest + tenKappa))
    && (rest < tenKappa || (rest - tenKappa < small && (rest < small || 2 * rest - tenKappa <= 2 * small)))
  }

  // One that is closest near both ends of what w may be is the settled one, and it is nearest.
  lemma OnlySettled(rest: int, star: int, n: int, tenKappa: int, small: int, big: int, interval: int)
    requires Settled(rest, tenKappa, small, interval) && small < big && tenKappa > 0
    requires n == 0 ==> star == rest
    requires n > 0 ==> star >= rest + tenKappa
    requires n < 0 ==> star <= rest - tenKappa
    requires 0 <= star <= interval && NotFarther(small as real + 0.25, star as real, rest as real)
    requires rest + tenKappa <= interval ==> NotFarther(big as real - 0.25, star as real, (rest + tenKappa) as real)
    ensures star == rest && Nearest(rest, tenKappa, small, big, interval)
  {
  }

  // ------------------------------------------- certainty in the common unit

  lemma IntScaled(k: int, v: real, unit: nat, vu: real)
    requires unit > 0 && vu == v * (unit as real)
    ensures (k as real) < v <==> ((k * unit) as real) < vu
    ensures v < (k as real) <==> vu < ((k * unit) as real)
  {
    RealOfProduct(k, unit);
    Less(k as real, v, unit as real, (k as real) * (unit as real), vu);
    Less(v, k as real, unit as real, vu, (k as real) * (unit as real));
  }

  // The places that matter, counted in the common unit.
  lemma Places(i: Inputs, q: Scaled)
    requires Known(i) && Scales(i, q)
    ensures Times(q.whole - q.interval, i.low - 1, q.unit)
    ensures Times(q.whole - q.interval + 4 * q.unit, i.low + 3, q.unit)
    ensures Times(q.whole - 2 * q.unit, i.high - 1, q.unit) && Times(q.whole, i.high + 1, q.unit)
    ensures Times(q.whole - (q.distance + q.unit), i.w - 1, q.unit)
    ensures Times(q.whole - (q.distance - q.unit), i.w + 1, q.unit)
  {
    TimesLess(q.whole, i.high + 1, q.interval, i.high - i.low + 2, i.low - 1, q.unit);
    TimesLess(q.whole - q.interval, i.low - 1, -4 * q.unit, -4, i.low + 3, q.unit);
    TimesLess(q.whole, i.high + 1, 2 * q.unit, 2, i.high - 1, q.unit);
    TimesLess(q.whole, i.high + 1, q.distance, i.high + 1 - i.w, i.w, q.unit);
    TimesLess(q.whole - q.distance, i.w, q.unit, 1, i.w - 1, q.unit);
    TimesLess(q.whole - q.distance, i.w, 0 - q.unit, -1, i.w + 1, q.unit);
  }

  lemma TimesLess(p: int, x: int, r: int, y: int, z: int, unit: int)
    requires Times(p, x, unit) && Times(r, y, unit) && z == x - y
    ensures Times(p - r, z, unit)
  {
    SumScale(z, y, unit);
  }

  lemma NotFartherScaled(x: real, v: real, v': real, u: real, xu: real, vu: real, vu': real)
    requires u > 0.0 && RealTimes(xu, x, u) && RealTimes(vu, v, u) && RealTimes(vu', v', u)
    ensures NotFarther(x, v, v') <==> NotFarther(xu, vu, vu')
  {
    AbsTimes(x, v, u, xu, vu);
    AbsTimes(x, v', u, xu, vu');
    OrderScaled(Abs(v - x), Abs(v' - x), u, Abs(vu - xu), Abs(vu' - xu));
  }

  lemma OrderScaled(a: real, b: real, u: real, au: real, bu: real)
    requires u > 0.0 && RealTimes(au, a, u) && RealTimes(bu, b, u)
    ensures a <= b <==> au <= bu
  {
    RealMonotone(b, a, u);
  }

  lemma AbsTimes(x: real, v: real, u: real, xu: real, vu: real)
    requires u > 0.0 && RealTimes(xu, x, u) && RealTimes(vu, v, u)
    ensures RealTimes(Abs(vu - xu), Abs(v - x), u)
  {
    var a := v - x;
    RealSum(a, x, v, u);
    AbsProduct(a, u);
    assert vu - xu == a * u;
  }

  // Seen from the upper end.
  lemma NotFartherFlipped(whole: real, x: real, v: real, v': real)
    ensures NotFarther(x, v, v') <==> NotFarther(whole - x, whole - v, whole - v')
  {
  }

  lemma PlaceOrder(k: int, place: int, v: real, unit: nat, at: int)
    requires unit > 0 && Times(place, k, unit) && RealTimes(at as real, v, unit as real)
    ensures (k as real) <= v <==> place <= at
    ensures v <= (k as real) <==> at <= place
  {
    IntScaled(k, v, unit, at as real);
  }

  lemma SafeScaled(i: Inputs, q: Scaled, v: real, rest: int)
    requires Known(i) && Scales(i, q) && RealTimes((q.whole - rest) as real, v, q.unit as real)
    ensures (i.low + 3) as real <= v <= (i.high - 1) as real <==> 2 * q.unit <= rest <= q.interval - 4 * q.unit
    ensures (i.low - 1) as real <= v <= (i.high + 1) as real <==> 0 <= rest <= q.interval
    ensures Reached(v, i.low, i.high) <==> 0 <= rest < q.interval
  {
    Places(i, q);
    PlaceOrder(i.low + 3, q.whole - q.interval + 4 * q.unit, v, q.unit, q.whole - rest);
    PlaceOrder(i.high - 1, q.whole - 2 * q.unit, v, q.unit, q.whole - rest);
    PlaceOrder(i.low - 1, q.whole - q.interval, v, q.unit, q.whole - rest);
    PlaceOrder(i.high + 1, q.whole, v, q.unit, q.whole - rest);
  }

  // A multiple of 10^kappa, its place from the upper end.
  lemma Placed(q: Scaled, one: nat, kappa: int, m: int) returns (rest: int)
    requires Units(one, kappa, q.tenKappa, q.unit)
    ensures rest == q.whole - m * q.tenKappa
    ensures RealTimes((q.whole - rest) as real, Value(m, one, kappa), q.unit as real)
  {
    rest := q.whole - m * q.tenKappa;
    ValueScaled(m, one, kappa, q.tenKappa, q.unit);
  }

  // What the neighbours are like, counted in steps.
  lemma StepsApart(whole: int, b: int, m: int, t: nat, rest: int, star: int)
    requires rest == whole - b * t && star == whole - m * t
    ensures m == b ==> star == rest
    ensures m < b ==> star >= rest + t
    ensures m > b ==> star <= rest - t
  {
    if m != b { GridApart(b, m, t); }
    if m < b { GridOrder(m, b, t); } else { GridOrder(b, m, t); }
  }

  lemma NearestIsClosest(i: Inputs, q: Scaled, one: nat, kappa: int, b: int, rest: nat, x: real, m: int)
    requires Known(i) && Scales(i, q) && Units(one, kappa, q.tenKappa, q.unit) && q.tenKappa > 0
    requires rest == q.whole - b * q.tenKappa
    requires Nearest(rest, q.tenKappa, q.distance - q.unit, q.distance + q.unit, q.interval)
    requires (i.w - 1) as real < x < (i.w + 1) as real
    requires (i.low - 1) as real <= Value(m, one, kappa) <= (i.high + 1) as real
    ensures NotFarther(x, Value(b, one, kappa), Value(m, one, kappa))
  {
    if m != b {
      var r := Placed(q, one, kappa, b);
      var star := Placed(q, one, kappa, m);
      SafeScaled(i, q, Value(m, one, kappa), star);
      StepsApart(q.whole, b, m, q.tenKappa, rest, star);
      var y := Above(i, q, x);
      NearestIs(rest, q.tenKappa, q.distance - q.unit, q.distance + q.unit, q.interval, y, star as real);
      NotFartherFlipped(q.whole as real, q.whole as real - y, (q.whole - rest) as real, (q.whole - star) as real);
      NotFartherScaled(x, Value(b, one, kappa), Value(m, one, kappa), q.unit as real, q.whole as real - y,
                       (q.whole - rest) as real, (q.whole - star) as real);
    }
  }

  // How far below the upper end x lies, if w may be x.
  lemma Above(i: Inputs, q: Scaled, x: real) returns (y: real)
    requires Known(i) && Scales(i, q) && (i.w - 1) as real < x < (i.w + 1) as real
    ensures RealTimes(q.whole as real - y, x, q.unit as real)
    ensures ((q.distance - q.unit) as real) < y < ((q.distance + q.unit) as real)
  {
    Places(i, q);
    y := AbovePlaces(q.whole, q.unit, x, i.w, q.distance);
  }

  lemma AbovePlaces(whole: int, unit: nat, x: real, w: int, distance: int) returns (y: real)
    requires unit > 0 && (w - 1) as real < x < (w + 1) as real
    requires Times(whole - (distance + unit), w - 1, unit) && Times(whole - (distance - unit), w + 1, unit)
    ensures RealTimes(whole as real - y, x, unit as real)
    ensures ((distance - unit) as real) < y < ((distance + unit) as real)
  {
    var xu := x * (unit as real);
    y := whole as real - xu;
    IntScaled(w - 1, x, unit, xu);
    IntScaled(w + 1, x, unit, xu);
  }

  /** RoundWeed's tests show certainty. */
  lemma TestsShowCertain(i: Inputs, q: Scaled, one: nat, kappa: int, b: int, rest: nat)
    requires Known(i) && Scales(i, q) && Units(one, kappa, q.tenKappa, q.unit) && q.tenKappa > 0
    requires rest == q.whole - b * q.tenKappa && 2 * q.unit <= rest <= q.interval - 4 * q.unit
    requires Nearest(rest, q.tenKappa, q.distance - q.unit, q.distance + q.unit, q.interval)
    ensures Certain(b, one, kappa, i.low, i.w, i.high)
  {
    var r := Placed(q, one, kappa, b);
    SafeScaled(i, q, Value(b, one, kappa), rest);
    forall x: real | (i.w - 1) as real < x < (i.w + 1) as real
      ensures ClosestIn(x, Value(b, one, kappa), one, kappa, i.low, i.high)
    {
      forall m: int | (i.low - 1) as real <= Value(m, one, kappa) <= (i.high + 1) as real
        ensures NotFarther(x, Value(b, one, kappa), Value(m, one, kappa))
      {
        NearestIsClosest(i, q, one, kappa, b, rest, x, m);
      }
    }
  }

  // What lies y below the upper end, within what w may be.
  lemma Below(i: Inputs, q: Scaled, y: real) returns (x: real)
    requires Known(i) && Scales(i, q)
    requires ((q.distance - q.unit) as real) < y < ((q.distance + q.unit) as real)
    ensures RealTimes(q.whole as real - y, x, q.unit as real) && (i.w - 1) as real < x < (i.w + 1) as real
  {
    Places(i, q);
    x := BelowPlaces(q.whole, q.unit, y, i.w, q.distance);
  }

  lemma BelowPlaces(whole: int, unit: nat, y: real, w: int, distance: int) returns (x: real)
    requires unit > 0 && ((distance - unit) as real) < y < ((distance + unit) as real)
    requires Times(whole - (distance + unit), w - 1, unit) && Times(whole - (distance - unit), w + 1, unit)
    ensures RealTimes(whole as real - y, x, unit as real) && (w - 1) as real < x < (w + 1) as real
  {
    x := (whole as real - y) / (unit as real);
    DivideTimes(whole as real - y, unit as real);
    IntScaled(w - 1, x, unit, whole as real - y);
    IntScaled(w + 1, x, unit, whole as real - y);
  }

  lemma DivideTimes(a: real, u: real)
    requires u > 0.0
    ensures a == a / u * u
  {
  }

  lemma ClosestNear(i: Inputs, q: Scaled, one: nat, kappa: int, m: int, star: int, b: int, rest: int, y: real)
    requires Known(i) && Scales(i, q) && Units(one, kappa, q.tenKappa, q.unit)
    requires Certain(m, one, kappa, i.low, i.w, i.high)
    requires star == q.whole - m * q.tenKappa && rest == q.whole - b * q.tenKappa && 0 <= rest <= q.interval
    requires ((q.distance - q.unit) as real) < y < ((q.distance + q.unit) as real)
    ensures NotFarther(y, star as real, rest as real)
  {
    var whole := q.whole as real;
    var x := Below(i, q, y);
    var r := Placed(q, one, kappa, b);
    var s := Placed(q, one, kappa, m);
    SafeScaled(i, q, Value(b, one, kappa), rest);
    CertainHere(m, one, kappa, i, x, b);
    NotFartherScaled(x, Value(m, one, kappa), Value(b, one, kappa), q.unit as real, whole - y,
                     (q.whole - star) as real, (q.whole - rest) as real);
    NotFartherFlipped(whole, y, star as real, rest as real);
  }

  lemma CertainHere(m: int, one: nat, kappa: int, i: Inputs, x: real, b: int)
    requires Certain(m, one, kappa, i.low, i.w, i.high) && (i.w - 1) as real < x < (i.w + 1) as real
    requires (i.low - 1) as real <= Value(b, one, kappa) <= (i.high + 1) as real
    ensures NotFarther(x, Value(m, one, kappa), Value(b, one, kappa))
  {
    assert ClosestIn(x, Value(m, one, kappa), one, kappa, i.low, i.high);
  }

  /** What is certain is what RoundWeed has settled on, and passes its tests. */
  lemma CertainPassesTests(i: Inputs, q: Scaled, one: nat, kappa: int, m: int, b: int, rest: int)
    requires Known(i) && Scales(i, q) && Units(one, kappa, q.tenKappa, q.unit) && q.tenKappa > 0
    requires rest == q.whole - b * q.tenKappa && Settled(rest, q.tenKappa, q.distance - q.unit, q.interval)
    requires Certain(m, one, kappa, i.low, i.w, i.high)
    ensures 2 * q.unit <= rest <= q.interval - 4 * q.unit
    ensures Nearest(rest, q.tenKappa, q.distance - q.unit, q.distance + q.unit, q.interval)
  {
    var small, big := q.distance - q.unit, q.distance + q.unit;
    var star := Placed(q, one, kappa, m);
    SafeScaled(i, q, Value(m, one, kappa), star);
    StepsApart(q.whole, b, m, q.tenKappa, rest, star);
    ClosestNear(i, q, one, kappa, m, star, b, rest, small as real + 0.25);
    if rest + q.tenKappa <= q.interval {
      assert rest + q.tenKappa == q.whole - (b - 1) * q.tenKappa by { SumScale(b - 1, 1, q.tenKappa); }
      ClosestNear(i, q, one, kappa, m, star, b - 1, rest + q.tenKappa, big as real - 0.25);
    }
    OnlySettled(rest, star, b - m, q.tenKappa, small, big, q.interval);
  }

  /** Where the loops stop is determined: before the last digit nothing reached the interval. */
  lemma StopsAtCoarsest(i: Inputs, q: Scaled, one: nat, kappa: int, b: int, rest: nat)
    requires Known(i) && Scales(i, q) && OnGrid(q) && Units(one, kappa, q.tenKappa, q.unit)
    requires rest == q.whole - b * q.tenKappa && rest < q.interval
    ensures Coarsest(one, kappa, i.low, i.high)
  {
    var r := Placed(q, one, kappa, b);
    SafeScaled(i, q, Value(b, one, kappa), rest);
    var coarse := kappa + 1;
    forall m: int ensures !Reached(Value(m, one, coarse), i.low, i.high) {
      CoarserUnreached(i, q, one, kappa, m, m * (10 * q.tenKappa));
    }
  }

  lemma CoarserUnreached(i: Inputs, q: Scaled, one: nat, kappa: int, m: int, mt: int)
    requires Known(i) && Scales(i, q) && OnGrid(q) && Units(one, kappa, q.tenKappa, q.unit)
    requires mt == m * (10 * q.tenKappa)
    ensures !Reached(Value(m, one, kappa + 1), i.low, i.high)
  {
    CoarseScaled(m, one, kappa, q.tenKappa, q.unit);
    CoarseMisses(q, m);
    SafeScaled(i, q, Value(m, one, kappa + 1), q.whole - mt);
  }

  /** The outcome of digit generation: where it stops, and success exactly if something there is certain. */
  ghost predicate Outcome(ok: bool, buffer: seq<nat>, kappa: int, one: nat, i: Inputs)
  {
    && Coarsest(one, kappa, i.low, i.high)
    && (ok <==> exists m: int :: Certain(m, one, kappa, i.low, i.w, i.high))
    && (ok ==> Certain(Decimal(buffer), one, kappa, i.low, i.w, i.high))
    && (ok ==> ShortestClosest(buffer, kappa, one, i.trueLow, i.trueW, i.trueHigh))
  }

  lemma OutcomeIs(ok: bool, buffer: seq<nat>, i: Inputs, q: Scaled, one: nat, kappa: int, rest: nat)
    requires Known(i) && Scales(i, q) && OnGrid(q) && Units(one, kappa, q.tenKappa, q.unit)
    requires rest == q.whole - Decimal(buffer) * q.tenKappa && Coarsest(one, kappa, i.low, i.high)
    requires Settled(rest, q.tenKappa, q.distance - q.unit, q.interval)
    requires ok <==>
      && 2 * q.unit <= rest <= q.interval - 4 * q.unit
      && Nearest(rest, q.tenKappa, q.distance - q.unit, q.distance + q.unit, q.interval)
    ensures Outcome(ok, buffer, kappa, one, i)
  {
    if ok {
      TruthScaled(i, q);
      Promise(i, q, one, kappa, buffer, rest);
      TestsShowCertain(i, q, one, kappa, Decimal(buffer), rest);
    }
    forall m: int ensures Certain(m, one, kappa, i.low, i.w, i.high) ==> ok {
      if Certain(m, one, kappa, i.low, i.w, i.high) {
        CertainPassesTests(i, q, one, kappa, m, Decimal(buffer), rest);
      }
    }
  }
}

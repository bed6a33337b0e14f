/** Printing a double and reading it back: the digits round to the double, nothing shorter
    does, and the reader returns the same bits from either of the guesses it may start with. */
module RoundTrip {
  import opened Limbs
  import opened Powers
  import opened Reals
  import opened Ieee
  import opened Shortest
  import opened StartValues
  import opened Meaning
  import opened Estimates
  import Strtod

  /** What EstimatePower promises about its result (bignum-dtoa.cc:369-383). */
  ghost predicate EstimateOk(d: nat, ep: int)
  {
    && InRange(Significand(d), Exponent(d), ep)
    && TenScale(1.0, ep - 1) <= Val(d) && Upper(d) < TenScale(1.0, ep + 1)
  }

  ghost function Start(d: nat, ep: int): Interval
    requires InRange(Significand(d), Exponent(d), ep)
  {
    StartInterval(Significand(d), Exponent(d), LowerBoundaryIsCloser(d), ep, Significand(d) % 2 == 0)
  }

  // The interval the digits are generated from, and its decimal exponent.
  ghost function Generated(d: nat, ep: int): Interval
    requires InRange(Significand(d), Exponent(d), ep)
  {
    if AlreadyInRange(Start(d, ep)) then Start(d, ep) else FixedUp(Start(d, ep))
  }

  ghost function Point(d: nat, ep: int): int
    requires InRange(Significand(d), Exponent(d), ep)
  {
    if AlreadyInRange(Start(d, ep)) then ep + 1 else ep
  }

  lemma StartEstimated(d: nat, ep: int)
    requires EstimateOk(d, ep)
    ensures Estimated(Start(d, ep))
  {
    var f, e, closer := Significand(d), Exponent(d), LowerBoundaryIsCloser(d);
    var v := Start(d, ep);
    StartRepresents(f, e, closer, ep, f % 2 == 0);
    TenScaleInner(0.1, ep - 1);
    TenScaleOrder(Ratio(v.n, v.d), 0.1, ep);
    TenfoldRatio(v.n, v.d);
    RatioCompare(1, 10 * v.n, v.d);
    TenScaleInner(1.0, ep);
    TenScaleOrder(Ratio(v.n + v.plus, v.d), 10.0, ep);
    RatioCompare(10, v.n + v.plus, v.d);
  }

  lemma GeneratedRepresents(d: nat, ep: int)
    requires EstimateOk(d, ep)
    ensures Represents(Generated(d, ep), Point(d, ep) - 1, Lower(d), Val(d), Upper(d))
    ensures Bounded(Generated(d, ep)) && Scaled(Generated(d, ep))
  {
    var f, e, closer := Significand(d), Exponent(d), LowerBoundaryIsCloser(d);
    StartEstimated(d, ep);
    FixupBounded(Start(d, ep));
    StartRepresents(f, e, closer, ep, f % 2 == 0);
    FixedUpRepresents(Start(d, ep), ep, Lower(d), Val(d), Upper(d));
  }

  // ------------------------------------------------------------ length

  /** Once the scaled rooms together exceed the denominator, some decimal fits. */
  lemma LengthBound(v: Interval, digits: seq<nat>, m: nat)
    requires Bounded(v) && IsShortest(v, digits) && v.d < Tens(v.minus, m) + Tens(v.plus, m)
    ensures |digits| <= m + 1
  {
    if |digits| > m + 1 {
      ChosenFits(v, m);
    }
  }

  // The rooms in terms of the significand.
  lemma RoomShares(d: nat, ep: int)
    requires EstimateOk(d, ep)
    ensures var w, f := Generated(d, ep), Significand(d);
      w.plus > 0 && w.n == (2 * f) * w.plus && w.plus == if LowerBoundaryIsCloser(d) then 2 * w.minus else w.minus
  {
    var f, e := Significand(d), Exponent(d);
    CommonShares(f, e, ep, f % 2 == 0);
    var p := CommonInterval(f, e, ep, f % 2 == 0).plus;
    ScaleShares(2, 2 * f, p);
    ScaleShares(10, 2 * f, p);
    ScaleShares(10, 2 * f, 2 * p);
  }

  lemma ScaleShares(k: int, x: int, p: int)
    ensures k * (x * p) == x * (k * p)
  {
    SwapFactors(x, k, p);
  }

  lemma SignificandBound(d: nat)
    requires Finite(d)
    ensures Significand(d) < 2 * HIDDEN_BIT && (LowerBoundaryIsCloser(d) ==> Significand(d) == HIDDEN_BIT)
  {
  }

  /** Seventeen digits are enough for every double. */
  lemma FewDigits(d: nat, ep: int, digits: seq<nat>)
    requires Finite(d) && EstimateOk(d, ep) && IsShortest(Generated(d, ep), digits)
    ensures |digits| <= 17
  {
    var f, w := Significand(d), Generated(d, ep);
    GeneratedRepresents(d, ep);
    RoomShares(d, ep);
    SignificandBound(d);
    var m := SixteenDigits(w.minus, w.plus);
    RoomsCover(f, w.d, w.n, w.minus, w.plus, LowerBoundaryIsCloser(d));
    LengthBound(w, digits, m);
  }

  lemma SixteenDigits(minus: nat, plus: nat) returns (m: nat)
    ensures m == 16
    ensures Tens(minus, m) == 10_000_000_000_000_000 * minus && Tens(plus, m) == 10_000_000_000_000_000 * plus
  {
    m := 16;
    TensIs(minus, m);
    TensIs(plus, m);
    assert Pow(10, 4) == 10000;
    PowAdd(10, 4, 4);
    PowAdd(10, 8, 8);
  }

  lemma RoomsCover(f: nat, d: nat, n: nat, minus: nat, plus: nat, closer: bool)
    requires plus > 0 && n == (2 * f) * plus && d <= n + plus && f < 2 * HIDDEN_BIT
    requires if closer then plus == 2 * minus && f == HIDDEN_BIT else plus == minus
    ensures d < 10_000_000_000_000_000 * minus + 10_000_000_000_000_000 * plus
  {
    if !closer { MulBound(2 * f, plus, 4 * HIDDEN_BIT - 2, plus); }
  }

  // ---------------------------------------------------------- the estimate

  lemma {:induction false} PowerScaled(k: nat, e: int)
    ensures TwoScale(Pow(2, k) as real, e) == TwoScale(1.0, k + e)
  {
    if k > 0 {
      PowerScaled(k - 1, e + 1);
      TwoScaleInner(Pow(2, k - 1) as real, e);
    }
  }

  lemma DoubleFields(d: nat)
    requires 0 < d && Finite(d)
    ensures 0 < Significand(d) < 2 * HIDDEN_BIT && -1074 <= Exponent(d) <= 971
  {
  }

  // Between 2^n and 2^(n+1), upper boundary included, also for denormals.
  lemma Binade(d: nat, b: nat)
    requires 0 < Significand(d) && b == BitSize(Significand(d))
    ensures TwoScale(1.0, Exponent(d) + b - 1) <= Val(d) && Upper(d) < TwoScale(1.0, Exponent(d) + b)
  {
    var f, e := Significand(d), Exponent(d);
    BitSizeBounds(f);
    PowerScaled(b - 1, e);
    TwoScaleOrder(f as real, Pow(2, b - 1) as real, e);
    PowerScaled(b + 1, e - 1);
    TwoScaleOrder((2 * f + 1) as real, Pow(2, b + 1) as real, e - 1);
  }

  // The exponent of v with a full significand.
  function Normalized(d: nat): int
  {
    Exponent(d) + BitSize(Significand(d)) - 53
  }

  /** The computed estimate keeps the promise, for every positive finite double. */
  lemma EstimateKeepsPromise(d: nat, r: Rounding)
    requires 0 < d && Finite(d) && Rounds(r)
    ensures EstimateOk(d, EstimatePower(Normalized(d), r))
  {
    var f, b := Significand(d), BitSize(Significand(d));
    DoubleFields(d);
    FiftyThreeBits();
    BitSizeAtMost(f, 53);
    Binade(d, b);
    EstimateBrackets(Normalized(d), r);
  }

  // ------------------------------------------------------------ meaning

  /** A decimal rounds to d exactly when it is a candidate of the generated interval. */
  lemma RoundsToHolds(d: nat, ep: int, c: nat, j: nat)
    requires EstimateOk(d, ep)
    ensures Holds(Generated(d, ep), c, j) <==> RoundsTo(DecimalReal(c, Point(d, ep) - 1 - j), d)
  {
    GeneratedRepresents(d, ep);
    HoldsMeans(Generated(d, ep), Point(d, ep) - 1, Lower(d), Val(d), Upper(d), c, j);
  }

  /** No decimal with fewer significant digits, wherever its point is, rounds to d. */
  lemma NothingShorter(d: nat, ep: int, digits: seq<nat>, c: nat, s: int, p: nat)
    requires EstimateOk(d, ep) && IsShortest(Generated(d, ep), digits)
    requires p < |digits| && c < Pow(10, p)
    ensures !RoundsTo(DecimalReal(c, s), d)
  {
    var v, t := Generated(d, ep), Point(d, ep) - 1;
    GeneratedRepresents(d, ep);
    if s <= t {
      FewerDigitsMiss(v, digits, c, t - s, p);
      RoundsToHolds(d, ep, c, t - s);
    } else {
      var c' := Tens(c, s - t);
      WholeNumber(c, s, t);
      RoundsToHolds(d, ep, c', 0);
      if |digits| == 1 {
        assert Pow(10, 0) == 1;
        TensIs(0, s - t);
        MulZero(Pow(10, s - t), 0);
        ZeroMisses(v, 0);
      }
    }
  }

  // c * 10^s with s above t is an integer times 10^t.
  lemma WholeNumber(c: nat, s: int, t: int)
    requires t < s
    ensures DecimalReal(c, s) == DecimalReal(Tens(c, s - t), t)
  {
    TensReal(c, s - t);
    TenScaleCompose(c as real, s - t, t);
  }

  lemma {:induction false} TensReal(c: nat, j: nat)
    ensures TenScale(c as real, j) == Tens(c, j) as real
  {
    if j > 0 { TensReal(c, j - 1); }
  }

  // Of the decimals with as many digits that round to d, none is closer.
  lemma NothingCloser(d: nat, ep: int, digits: seq<nat>, c: nat)
    requires EstimateOk(d, ep) && IsShortest(Generated(d, ep), digits)
    requires RoundsTo(DecimalReal(c, Point(d, ep) - |digits|), d)
    ensures Gap(DecimalReal(Decimal(digits), Point(d, ep) - |digits|), Val(d))
      <= Gap(DecimalReal(c, Point(d, ep) - |digits|), Val(d))
  {
    var v, j, t := Generated(d, ep), |digits| - 1, Point(d, ep) - 1;
    GeneratedRepresents(d, ep);
    RoundsToHolds(d, ep, c, j);
    assert t - j == Point(d, ep) - |digits|;
    GapMeans(v, Decimal(digits), j, t, Val(d));
    GapMeans(v, c, j, t, Val(d));
    var a, b := Ratio(Distance(v, Decimal(digits), j), v.d), Ratio(Distance(v, c, j), v.d);
    RatioOrder(Distance(v, Decimal(digits), j), Distance(v, c, j), v.d);
    TenScaleOrder(b, a, t - j);
  }

  // Of two that are equally close, the even one.
  lemma EvenOfTwo(d: nat, ep: int, digits: seq<nat>, c: nat)
    requires EstimateOk(d, ep) && IsShortest(Generated(d, ep), digits) && c != Decimal(digits)
    requires RoundsTo(DecimalReal(c, Point(d, ep) - |digits|), d)
    requires Gap(DecimalReal(c, Point(d, ep) - |digits|), Val(d))
      == Gap(DecimalReal(Decimal(digits), Point(d, ep) - |digits|), Val(d))
    ensures Decimal(digits) % 2 == 0
  {
    var v, j, t := Generated(d, ep), |digits| - 1, Point(d, ep) - 1;
    GeneratedRepresents(d, ep);
    RoundsToHolds(d, ep, c, j);
    assert t - j == Point(d, ep) - |digits|;
    GapMeans(v, Decimal(digits), j, t, Val(d));
    GapMeans(v, c, j, t, Val(d));
    SameScaled(Distance(v, Decimal(digits), j), Distance(v, c, j), v.d, t - j);
  }

  lemma SameScaled(x: nat, y: nat, d: nat, n: int)
    requires d > 0 && TenScale(Ratio(x, d), n) == TenScale(Ratio(y, d), n)
    ensures x == y
  {
    TenScaleOrder(Ratio(x, d), Ratio(y, d), n);
    TenScaleOrder(Ratio(y, d), Ratio(x, d), n);
    RatioTimes(x as real, d as real);
    RatioTimes(y as real, d as real);
  }

  function Gap(x: real, y: real): real { if x <= y then y - x else x - y }

  lemma RatioOrder(a: nat, b: nat, d: nat)
    requires d > 0 && a <= b
    ensures Ratio(a, d) <= Ratio(b, d)
  {
    RatioTimes(a as real, d as real);
    RatioTimes(b as real, d as real);
    RealMonotone(Ratio(b, d), Ratio(a, d), d as real);
  }

  lemma GapMeans(v: Interval, c: nat, j: nat, t: int, val: real)
    requires v.d > 0 && val == TenScale(Ratio(v.n, v.d), t)
    ensures Gap(DecimalReal(c, t - j), val) == TenScale(Ratio(Distance(v, c, j), v.d), t - j)
  {
    var a := Tens(v.n, j);
    RatioTens(v.n, v.d, j);
    TenScaleCompose(Ratio(v.n, v.d), j, t - j);
    CandidateCompare(c, v.n, v.d, j, t);
    RatioDifference(c, a, v.d);
    if c * v.d <= a {
      TenScaleSubtract(Ratio(a, v.d), c as real, t - j);
    } else {
      TenScaleSubtract(c as real, Ratio(a, v.d), t - j);
    }
  }

  lemma RatioDifference(c: nat, a: nat, d: nat)
    requires d > 0
    ensures Ratio(a - c * d, d) == Ratio(a, d) - (c as real)
    ensures Ratio(c * d - a, d) == (c as real) - Ratio(a, d)
  {
    RealOfProduct(c, d);
    DifferenceRatio(a as real, c as real, d as real);
  }

  lemma DifferenceRatio(a: real, c: real, d: real)
    requires d > 0.0
    ensures (a - c * d) / d == a / d - c && (c * d - a) / d == c - a / d
  {
    RatioTimes(a, d);
    SameRatio(a - c * d, d, a / d - c);
    SameRatio(c * d - a, d, c - a / d);
  }

  lemma {:induction false} TenScaleSubtract(x: real, y: real, n: int)
    ensures TenScale(x - y, n) == TenScale(x, n) - TenScale(y, n)
    decreases if n >= 0 then n else -n
  {
    if n > 0 { TenScaleSubtract(x, y, n - 1); } else if n < 0 { TenScaleSubtract(x, y, n + 1); }
  }

  // ------------------------------------------------------------ the theorem

  // No decimal with fewer than n significant digits rounds to d, wherever its point is.
  ghost predicate NoneShorter(d: nat, n: nat)
  {
    forall c: nat, s: int, p: nat :: p < n && c < Pow(10, p) ==> !RoundsTo(DecimalReal(c, s), d)
  }

  // Of the multiples of 10^t that round to d, c is one of the closest.
  ghost predicate NoneCloser(d: nat, c: nat, t: int)
  {
    forall c': nat :: RoundsTo(DecimalReal(c', t), d) ==>
      Gap(DecimalReal(c, t), Val(d)) <= Gap(DecimalReal(c', t), Val(d))
  }

  // c is even, unless no other of the multiples of 10^t that round to d is as close.
  ghost predicate EvenOnTies(d: nat, c: nat, t: int)
  {
    c % 2 == 0
    || forall c': nat :: RoundsTo(DecimalReal(c', t), d) && c' != c ==>
         Gap(DecimalReal(c', t), Val(d)) != Gap(DecimalReal(c, t), Val(d))
  }

  // x is not beyond what still rounds to d.
  ghost predicate Reaches(d: nat, x: real)
  {
    if Significand(d) % 2 == 0 then x <= Upper(d) else x < Upper(d)
  }

  /** What is printed for d: digits that round to d, none shorter, none of that length closer, even
      on ties; and the power of ten of the first digit is the biggest that d reaches. */
  ghost predicate Printed(d: nat, buffer: seq<nat>, decimalPoint: int)
  {
    var c, t := Decimal(buffer), decimalPoint - |buffer|;
    && IsDigits(buffer) && 1 <= |buffer| <= 17
    && Reaches(d, TenScale(1.0, decimalPoint - 1)) && !Reaches(d, TenScale(1.0, decimalPoint))
    && RoundsTo(DecimalReal(c, t), d)
    && NoneShorter(d, |buffer|) && NoneCloser(d, c, t) && EvenOnTies(d, c, t)
  }

  lemma PointReaches(d: nat, ep: int)
    requires EstimateOk(d, ep)
    ensures Reaches(d, TenScale(1.0, Point(d, ep) - 1)) && !Reaches(d, TenScale(1.0, Point(d, ep)))
  {
    var w, t := Generated(d, ep), Point(d, ep) - 1;
    GeneratedRepresents(d, ep);
    TenScaleInner(1.0, t);
    var r := Ratio(w.n + w.plus, w.d);
    RatioCompare(1, w.n + w.plus, w.d);
    RatioCompare(10, w.n + w.plus, w.d);
    TenScaleOrder(1.0, r, t);
    TenScaleOrder(r, 1.0, t);
    TenScaleOrder(10.0, r, t);
    TenScaleOrder(r, 10.0, t);
  }

  /** The shortest digits of a positive double. */
  method PrintShortest(d: nat, r: Rounding) returns (buffer: seq<nat>, decimalPoint: int)
    requires 0 < d < 0x7FF0_0000_0000_0000 && Rounds(r)
    ensures Printed(d, buffer, decimalPoint)
    ensures -MAX_POWER <= decimalPoint <= MAX_POWER + 1
    ensures decimalPoint == EstimatePower(Normalized(d), r) || decimalPoint == EstimatePower(Normalized(d), r) + 1
  {
    DoubleFields(d);
    var normalizedExponent := NormalizedExponent(Significand(d), Exponent(d));
    var estimatedPower := EstimatePower(normalizedExponent, r);
    EstimateKeepsPromise(d, r);
    buffer, decimalPoint := PrintFromEstimate(d, estimatedPower);
  }

  method PrintFromEstimate(d: nat, ep: int) returns (buffer: seq<nat>, decimalPoint: int)
    requires 0 < d && Finite(d) && EstimateOk(d, ep)
    ensures Printed(d, buffer, decimalPoint)
    ensures -MAX_POWER <= ep <= MAX_POWER && (decimalPoint == ep || decimalPoint == ep + 1)
  {
    StartEstimated(d, ep);
    buffer, decimalPoint := ShortestDtoa(Significand(d), Exponent(d), LowerBoundaryIsCloser(d), ep);
    FewDigits(d, ep, buffer);
    RoundsToHolds(d, ep, Decimal(buffer), |buffer| - 1);
    PointReaches(d, ep);
    ShortestIsPrinted(d, ep, buffer);
  }

  lemma ShortestIsPrinted(d: nat, ep: int, digits: seq<nat>)
    requires EstimateOk(d, ep) && IsShortest(Generated(d, ep), digits)
    ensures var c, t := Decimal(digits), Point(d, ep) - |digits|;
      NoneShorter(d, |digits|) && NoneCloser(d, c, t) && EvenOnTies(d, c, t)
  {
    forall c: nat, s: int, p: nat | p < |digits| && c < Pow(10, p) ensures !RoundsTo(DecimalReal(c, s), d) {
      NothingShorter(d, ep, digits, c, s, p);
    }
    var t := Point(d, ep) - |digits|;
    forall c: nat | RoundsTo(DecimalReal(c, t), d)
      ensures Gap(DecimalReal(Decimal(digits), t), Val(d)) <= Gap(DecimalReal(c, t), Val(d))
    {
      NothingCloser(d, ep, digits, c);
    }
    forall c: nat | RoundsTo(DecimalReal(c, t), d) && c != Decimal(digits)
      ensures Gap(DecimalReal(c, t), Val(d)) == Gap(DecimalReal(Decimal(digits), t), Val(d)) ==>
        Decimal(digits) % 2 == 0
    {
      if Gap(DecimalReal(c, t), Val(d)) == Gap(DecimalReal(Decimal(digits), t), Val(d)) {
        EvenOfTwo(d, ep, digits, c);
      }
    }
  }

  /** Whatever the guess, the reader gives back the double that was printed. */
  method PrintThenRead(d: nat, r: Rounding, guess: nat) returns (result: nat)
    requires 0 < d < 0x7FF0_0000_0000_0000 && Rounds(r)
    requires guess == d || guess + 1 == d
    ensures result == d
  {
    var buffer, decimalPoint := PrintShortest(d, r);
    result := Strtod.FinalDecision(buffer, decimalPoint - |buffer|, guess);
    RoundsToUnique(DecimalReal(Decimal(buffer), decimalPoint - |buffer|), result, d);
  }
}

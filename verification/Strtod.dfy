/** The exact last step of reading a number (util/double-conversion/strtod.cc:392-472), and
    the proof that it undoes printing. */
module Strtod {
  import opened Limbs
  import opened Powers
  import opened Bignums
  import opened Reals
  import opened Ieee
  import StartValues
  import Meaning

  const MAX_DIGITS: nat := 780

  // Wider than the source's own preconditions, which come from the range of doubles.
  predicate Comparable(buffer: seq<nat>, exponent: int, diyFp: DiyFp)
  {
    && IsDigits(buffer) && |buffer| <= MAX_DIGITS
    && -1110 <= exponent && |buffer| + exponent <= 340
    && diyFp.f < 0x1_0000_0000_0000_0000
  }

  // ------------------------------------------------------------ capacities

  // A number of limbs that holds f * 5^n; shifts go to the hidden exponent.
  lemma FiveBits(f: nat, n: nat) returns (limit: nat)
    requires f < 0x1_0000_0000_0000_0000 && n <= 1110
    ensures limit <= 122 && Fives(f, n) < Pow(BASE, limit)
  {
    limit := (64 + 3 * n) / 28 + 1;
    FivesIs(f, n);
    PowBaseMonotone(5, 8, n);
    assert Pow(2, 3) == 8;
    PowPower(2, 3, n);
    PowTwo64();
    PowPositive(2, 3 * n);
    MulBound(Pow(5, n), f, Pow(2, 3 * n), f);
    MulStrict(f, Pow(2, 64), Pow(2, 3 * n));
    PowAdd(2, 64, 3 * n);
    PowMonotone(2, 64 + 3 * n, 28 * limit);
    PowTwoAsBase(limit);
  }

  lemma DigitsFit(n: nat) returns (limit: nat)
    requires n <= MAX_DIGITS
    ensures 3 <= limit <= 114 && Pow(10, n) <= Pow(BASE, limit)
  {
    StartValues.TenBits(n);
    limit := n / 7 + 3;
    PowMonotone(BASE, n / 7 + 1, limit);
  }

  lemma TenTimesFits(m: nat, v: nat, digits: nat, exponent: nat) returns (limit: nat)
    requires m <= v < Pow(10, digits) && digits + exponent <= 340
    ensures limit <= 50 && Fives(m, exponent) < Pow(BASE, limit)
  {
    var n := digits + exponent;
    limit := n / 7 + 1;
    StartValues.TenBits(n);
    TenFits(m, v, digits, exponent, n, limit);
  }

  // ------------------------------------------------------------ comparison

  method ScaleBuffer(buffer: seq<nat>, exponent: int, e: int) returns (a: Bignum)
    requires IsDigits(buffer) && |buffer| <= MAX_DIGITS && |buffer| + exponent <= 340
    ensures fresh(a) && fresh(a.bigits) && a.Canonical()
    ensures a.Value() == Pow(2, NegativePart(e)) * (Pow(10, PositivePart(exponent)) * Decimal(buffer))
  {
    a := ScaleDecimal(buffer, exponent);
    if e <= 0 {
      a.ShiftLeft(-e);
    }
  }

  method ScaleDecimal(buffer: seq<nat>, exponent: int) returns (a: Bignum)
    requires IsDigits(buffer) && |buffer| <= MAX_DIGITS && |buffer| + exponent <= 340
    ensures fresh(a) && fresh(a.bigits) && a.Canonical() && a.used < CAPACITY
    ensures a.Value() == Pow(10, PositivePart(exponent)) * Decimal(buffer)
  {
    a := new Bignum();
    ghost var limit := DigitsFit(|buffer|);
    DecimalBound(buffer);
    a.AssignDecimalString(buffer, limit);
    if exponent >= 0 {
      a.MantissaAtMostValue();
      limit := TenTimesFits(a.Mantissa(), a.Value(), |buffer|, exponent);
      a.MultiplyByPowerOfTen(exponent, limit);
    }
  }

  method ScaleDiyFp(diyFp: DiyFp, exponent: int) returns (b: Bignum)
    requires diyFp.f < 0x1_0000_0000_0000_0000 && -1110 <= exponent
    ensures fresh(b) && fresh(b.bigits) && b.Canonical()
    ensures b.Value() == Pow(2, PositivePart(diyFp.e)) * (Pow(10, NegativePart(exponent)) * diyFp.f)
  {
    b := new Bignum();
    b.AssignUInt64(diyFp.f);
    if exponent < 0 {
      b.MantissaAtMostValue();
      ghost var limit := FiveBits(b.Mantissa(), -exponent);
      b.MultiplyByPowerOfTen(-exponent, limit);
    }
    if diyFp.e > 0 {
      b.ShiftLeft(diyFp.e);
    }
  }

  function PositivePart(n: int): nat { if n >= 0 then n else 0 }
  function NegativePart(n: int): nat { if n >= 0 then 0 else -n }

  method CompareBufferWithDiyFp(buffer: seq<nat>, exponent: int, diyFp: DiyFp) returns (r: int)
    requires Comparable(buffer, exponent, diyFp)
    ensures r < 0 <==> Meaning.DecimalReal(Decimal(buffer), exponent) < Dyadic(diyFp.f, diyFp.e)
    ensures r > 0 <==> Meaning.DecimalReal(Decimal(buffer), exponent) > Dyadic(diyFp.f, diyFp.e)
  {
    var bufferBignum := ScaleBuffer(buffer, exponent, diyFp.e);
    var diyFpBignum := ScaleDiyFp(diyFp, exponent);
    r := Bignum.Compare(bufferBignum, diyFpBignum);
    CrossCompare(Decimal(buffer), exponent, diyFp.f, diyFp.e);
  }

  // ------------------------------------------------- why the comparison is right

  lemma TenParts(x: nat, n: int)
    ensures TenScale(x as real, n) * (Pow(10, NegativePart(n)) as real) == (Pow(10, PositivePart(n)) * x) as real
  {
    RealOfProduct(Pow(10, PositivePart(n)), x);
    if n >= 0 {
      TenScalePow(x as real, n);
      assert Pow(10, 0) == 1;
    } else {
      assert 0 - (-n) == n && Pow(10, 0) == 1;
      TenScaleUnder(x as real, -n);
    }
  }

  lemma TwoParts(x: nat, n: int)
    ensures TwoScale(x as real, n) * (Pow(2, NegativePart(n)) as real) == (Pow(2, PositivePart(n)) * x) as real
  {
    RealOfProduct(Pow(2, PositivePart(n)), x);
    if n >= 0 {
      TwoScalePow(x as real, n);
      assert Pow(2, 0) == 1;
    } else {
      assert 0 - (-n) == n && Pow(2, 0) == 1;
      TwoScaleUnder(x as real, -n);
    }
  }

  /** Clearing both denominators turns the comparison of reals into one of natural numbers. */
  lemma CrossCompare(c: nat, t: int, f: nat, e: int)
    ensures var a := Pow(2, NegativePart(e)) * (Pow(10, PositivePart(t)) * c);
            var b := Pow(2, PositivePart(e)) * (Pow(10, NegativePart(t)) * f);
            && (a < b <==> Meaning.DecimalReal(c, t) < Dyadic(f, e))
            && (a > b <==> Meaning.DecimalReal(c, t) > Dyadic(f, e))
  {
    PowPositive(10, NegativePart(t));
    PowPositive(2, NegativePart(e));
    TenParts(c, t);
    TwoParts(f, e);
    Cleared(Meaning.DecimalReal(c, t), Dyadic(f, e), Pow(10, NegativePart(t)), Pow(2, NegativePart(e)),
            Pow(10, PositivePart(t)) * c, Pow(2, PositivePart(e)), f);
  }

  lemma Cleared(x: real, y: real, p: nat, q: nat, cx: nat, r: nat, f: nat)
    requires p > 0 && q > 0 && x * (p as real) == cx as real && y * (q as real) == (r * f) as real
    ensures q * cx < r * (p * f) <==> x < y
    ensures q * cx > r * (p * f) <==> x > y
  {
    RealOfProduct(q, cx);
    RealOfProduct(p, r * f);
    MulAssociative(p, r, f);
    MulAssociative(r, p, f);
    assert r * (p * f) == p * (r * f);
    ClearedReal(x, y, p as real, q as real, cx as real, (r * f) as real);
  }

  lemma ClearedReal(x: real, y: real, p: real, q: real, cx: real, fy: real)
    requires p > 0.0 && q > 0.0 && x * p == cx && y * q == fy
    ensures q * cx < p * fy <==> x < y
    ensures q * cx > p * fy <==> x > y
  {
    RealProductPositive(p, q);
    RealMonotone(x, y, p * q);
    RealMonotone(y, x, p * q);
    RealRegroup(x, q, p);
    RealRegroup(y, p, q);
  }

  // ------------------------------------------------------------ the decision

  /** Strtod's last step: if the guess is right or one too low, the answer is correctly rounded. */
  method FinalDecision(buffer: seq<nat>, exponent: int, guess: nat) returns (result: nat)
    requires Finite(guess) && Comparable(buffer, exponent, UpperBoundary(guess))
    requires var x := Meaning.DecimalReal(Decimal(buffer), exponent);
             RoundsTo(x, guess) || RoundsTo(x, NextDouble(guess))
    ensures RoundsTo(Meaning.DecimalReal(Decimal(buffer), exponent), result)
    ensures result == guess || result == NextDouble(guess)
  {
    var comparison := CompareBufferWithDiyFp(buffer, exponent, UpperBoundary(guess));
    if comparison < 0 {
      result := guess;
    } else if comparison > 0 {
      result := NextDouble(guess);
    } else if Significand(guess) % 2 == 0 {
      result := guess;
    } else {
      result := NextDouble(guess);
    }
    AfterComparison(Meaning.DecimalReal(Decimal(buffer), exponent), guess);
  }

  // On which side of the shared boundary x lies decides between the two neighbours.
  lemma AfterComparison(x: real, d: nat)
    requires Finite(d) && (RoundsTo(x, d) || RoundsTo(x, d + 1))
    ensures x < Upper(d) ==> RoundsTo(x, d)
    ensures x > Upper(d) ==> RoundsTo(x, d + 1)
    ensures x == Upper(d) ==> RoundsTo(x, if Significand(d) % 2 == 0 then d else d + 1)
  {
    Neighbours(d);
    Parity(d);
    Parity(d + 1);
  }
}

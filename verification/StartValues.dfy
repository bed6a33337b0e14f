/** The exact start values of digit generation (bignum-dtoa.cc:416-638). */
module StartValues {
  import opened Limbs
  import opened Powers
  import opened Bignums
  import opened Shortest
  import opened BignumDtoa

  // The exponents a double or a float can have, and the decimal powers they lead to.
  const MAX_EXPONENT: int := 1100
  const MAX_POWER: int := 330

  predicate InRange(f: nat, e: int, ep: int)
  {
    && 0 < f < 0x1_0000_0000_0000_0000
    && -MAX_EXPONENT <= e <= MAX_EXPONENT && -MAX_POWER <= ep <= MAX_POWER
    && (e >= 0 ==> ep >= 0)
  }

  /** v = f * 2^e over 10^ep as a ratio with a common denominator, and the distances to the
      boundaries halfway to the neighbours; the lower one is half as far when `closer`. */
  function StartInterval(f: nat, e: int, closer: bool, ep: int, even: bool): Interval
    requires InRange(f, e, ep)
  {
    var v := CommonInterval(f, e, ep, even);
    if closer then Interval(2 * v.n, 2 * v.d, v.minus, 2 * v.plus, even) else v
  }

  function CommonInterval(f: nat, e: int, ep: int, even: bool): Interval
    requires InRange(f, e, ep)
  {
    if e >= 0 then Interval(2 * (Pow(2, e) * f), 2 * Pow(10, ep), Pow(2, e), Pow(2, e), even)
    else if ep >= 0 then Interval(2 * f, 2 * (Pow(2, -e) * Pow(10, ep)), 1, 1, even)
    else Interval(2 * (f * Pow(10, -ep)), 2 * Pow(2, -e), Pow(10, -ep), Pow(10, -ep), even)
  }

  // ------------------------------------------------------------ capacities

  lemma TenBits(n: nat)
    ensures Pow(10, n) < Pow(BASE, n / 7 + 1)
  {
    PowBaseMonotone(10, 16, n);
    assert Pow(2, 4) == 16;
    PowPower(2, 4, n);
    PowTwoStrict(4 * n, 28 * (n / 7 + 1));
    PowTwoAsBase(n / 7 + 1);
  }

  lemma PowerOfTenFits(n: nat)
    requires n <= MAX_POWER
    ensures n > 0 ==> BitSize(OddPart(10)) * n / 28 + 2 <= CAPACITY
  {
    assert OddPart(10) == 5 && BitSize(5) == 3;
  }

  method AssignPowerOfTen(a: Bignum, n: nat)
    requires a.Valid() && n <= MAX_POWER
    modifies a, a.bigits
    ensures a.Canonical() && a.Value() == Pow(10, n) && a.BigitLength() <= 48
  {
    PowerOfTenFits(n);
    a.AssignPowerUInt16(10, n);
    TenBits(n);
    a.UsedBound(n / 7 + 1);
  }

  // Times two; shifting by one bit takes at most one more limb.
  method Double(a: Bignum)
    requires a.Canonical() && a.used < CAPACITY
    modifies a, a.bigits
    ensures a.Canonical() && a.Value() == 2 * old(a.Value())
    ensures a.BigitLength() <= old(a.BigitLength()) + 1 && a.used <= old(a.used) + 1
  {
    a.ShiftLeft(1);
    assert Pow(2, 1) == 2;
  }

  // -------------------------------------------------------- the three cases

  method PositiveExponent(f: u64, e: nat, ep: nat, numerator: Bignum, denominator: Bignum, minus: Bignum, plus: Bignum)
    requires AllSeparate(numerator, denominator, minus, plus)
    requires numerator.Valid() && denominator.Valid() && minus.Valid() && plus.Valid()
    requires e <= MAX_EXPONENT && ep <= MAX_POWER
    modifies numerator, numerator.bigits, denominator, denominator.bigits, minus, minus.bigits, plus, plus.bigits
    ensures numerator.Canonical() && denominator.Canonical() && minus.Canonical() && plus.Canonical()
    ensures numerator.Value() == 2 * (Pow(2, e) * f) && denominator.Value() == 2 * Pow(10, ep)
    ensures minus.Value() == Pow(2, e) && plus.Value() == Pow(2, e)
    ensures numerator.used <= 100 && plus.used <= 100 && denominator.BigitLength() <= 100
  {
    numerator.AssignUInt64(f);
    numerator.ShiftLeft(e);
    AssignPowerOfTen(denominator, ep);
    DoubleBoth(numerator, denominator);
    PowersOfTwo(minus, plus, e);
  }

  method PowersOfTwo(minus: Bignum, plus: Bignum, e: nat)
    requires Separate(minus, plus) && minus.Valid() && plus.Valid() && e <= MAX_EXPONENT
    modifies minus, minus.bigits, plus, plus.bigits
    ensures minus.Canonical() && minus.Value() == Pow(2, e)
    ensures plus.Canonical() && plus.Value() == Pow(2, e) && plus.used <= 5
  {
    PowerOfTwo(plus, e);
    PowerOfTwo(minus, e);
  }

  method PowerOfTwo(a: Bignum, e: nat)
    requires a.Valid() && e <= MAX_EXPONENT
    modifies a, a.bigits
    ensures a.Canonical() && a.Value() == Pow(2, e) && a.BigitLength() <= 45 && a.used <= 5
  {
    a.AssignUInt16(1);
    OneUsed(a);
    a.ShiftLeft(e);
    assert Pow(2, e) * 1 == Pow(2, e);
  }

  lemma OneUsed(a: Bignum)
    requires a.Canonical() && a.Value() == 1
    ensures a.BigitLength() <= 1
  {
    assert Pow(BASE, 1) == BASE;
    a.UsedBound(1);
  }

  method NegativeExponentPositivePower(f: u64, e: nat, ep: nat, numerator: Bignum, denominator: Bignum, minus: Bignum,
                                       plus: Bignum)
    requires AllSeparate(numerator, denominator, minus, plus)
    requires numerator.Valid() && denominator.Valid() && minus.Valid() && plus.Valid()
    requires e <= MAX_EXPONENT && ep <= MAX_POWER
    modifies numerator, numerator.bigits, denominator, denominator.bigits, minus, minus.bigits, plus, plus.bigits
    ensures numerator.Canonical() && denominator.Canonical() && minus.Canonical() && plus.Canonical()
    ensures numerator.Value() == 2 * f && denominator.Value() == 2 * (Pow(2, e) * Pow(10, ep))
    ensures minus.Value() == 1 && plus.Value() == 1
    ensures numerator.used <= 100 && plus.used <= 100 && denominator.BigitLength() <= 100
  {
    numerator.AssignUInt64(f);
    AssignPowerOfTen(denominator, ep);
    denominator.ShiftLeft(e);
    Double(denominator);
    Double(numerator);
    Ones(minus, plus);
  }

  method Ones(minus: Bignum, plus: Bignum)
    requires Separate(minus, plus) && minus.Valid() && plus.Valid()
    modifies minus, minus.bigits, plus, plus.bigits
    ensures minus.Canonical() && minus.Value() == 1
    ensures plus.Canonical() && plus.Value() == 1 && plus.used <= 1
  {
    plus.AssignUInt16(1);
    minus.AssignUInt16(1);
    OneUsed(plus);
  }

  // power_ten is built in the numerator and copied before the numerator is finished.
  method NegativeExponentNegativePower(f: u64, e: nat, ep: nat, numerator: Bignum, denominator: Bignum, minus: Bignum,
                                       plus: Bignum)
    requires AllSeparate(numerator, denominator, minus, plus)
    requires numerator.Valid() && denominator.Valid() && minus.Valid() && plus.Valid()
    requires e <= MAX_EXPONENT && ep <= MAX_POWER
    modifies numerator, numerator.bigits, denominator, denominator.bigits, minus, minus.bigits, plus, plus.bigits
    ensures numerator.Canonical() && denominator.Canonical() && minus.Canonical() && plus.Canonical()
    ensures numerator.Value() == 2 * (f * Pow(10, ep)) && denominator.Value() == 2 * Pow(2, e)
    ensures minus.Value() == Pow(10, ep) && plus.Value() == Pow(10, ep)
    ensures numerator.used <= 100 && plus.used <= 100 && denominator.BigitLength() <= 100
  {
    AssignPowerOfTen(numerator, ep);
    CopyTo(numerator, minus, plus);
    TimesSignificand(numerator, f);
    PowerOfTwo(denominator, e);
    DoubleBoth(numerator, denominator);
  }

  method CopyTo(power: Bignum, minus: Bignum, plus: Bignum)
    requires Separate(minus, plus) && Separate(minus, power) && Separate(plus, power)
    requires power.Canonical() && minus.Valid() && plus.Valid()
    modifies minus, minus.bigits, plus, plus.bigits
    ensures minus.Canonical() && minus.Value() == power.Value()
    ensures plus.Canonical() && plus.Value() == power.Value() && plus.used == power.used
  {
    plus.AssignBignum(power);
    minus.AssignBignum(power);
  }

  method DoubleBoth(a: Bignum, b: Bignum)
    requires Separate(a, b) && a.Canonical() && b.Canonical() && a.used < CAPACITY && b.used < CAPACITY
    modifies a, a.bigits, b, b.bigits
    ensures a.Canonical() && a.Value() == 2 * old(a.Value()) && a.used <= old(a.used) + 1
    ensures b.Canonical() && b.Value() == 2 * old(b.Value()) && b.BigitLength() <= old(b.BigitLength()) + 1
  {
    Double(a);
    Double(b);
  }

  method TimesSignificand(a: Bignum, f: u64)
    requires a.Canonical() && a.BigitLength() <= 48
    modifies a, a.bigits
    ensures a.Canonical() && a.Value() == f * old(a.Value()) && a.used <= 52
  {
    a.Magnitude();
    SignificandFits(f, a.Mantissa(), a.used);
    a.MultiplyByUInt64(f, 52);
    if a.used > 0 { a.Magnitude(); a.UsedMantissaBound(52); }
  }

  lemma SignificandFits(f: u64, m: nat, used: nat)
    requires used <= 48 && m < Pow(BASE, used)
    ensures f * m < Pow(BASE, 52)
  {
    PowMonotone(BASE, used, 48);
    PowAdd(BASE, 4, 48);
    assert Pow(BASE, 4) == BASE * (BASE * (BASE * BASE));
    MulBound(f, m, Pow(BASE, 4), m);
    MulStrict(m, Pow(BASE, 48), Pow(BASE, 4));
  }

  method InitialScaledStartValues(f: u64, e: int, closer: bool, ep: int, even: bool,
                                  numerator: Bignum, denominator: Bignum, minus: Bignum, plus: Bignum)
    requires AllSeparate(numerator, denominator, minus, plus)
    requires numerator.Valid() && denominator.Valid() && minus.Valid() && plus.Valid()
    requires InRange(f, e, ep)
    modifies numerator, numerator.bigits, denominator, denominator.bigits, minus, minus.bigits, plus, plus.bigits
    ensures numerator.Canonical() && denominator.Canonical() && minus.Canonical() && plus.Canonical()
    ensures IntervalOf(numerator, denominator, minus, plus, even) == StartInterval(f, e, closer, ep, even)
    ensures denominator.BigitLength() <= 101
  {
    CommonStartValues(f, e, ep, even, numerator, denominator, minus, plus);
    if closer {
      Double(denominator);
      Double(numerator);
      Double(plus);
    }
  }

  method CommonStartValues(f: u64, e: int, ep: int, ghost even: bool, numerator: Bignum, denominator: Bignum,
                           minus: Bignum, plus: Bignum)
    requires AllSeparate(numerator, denominator, minus, plus)
    requires numerator.Valid() && denominator.Valid() && minus.Valid() && plus.Valid()
    requires InRange(f, e, ep)
    modifies numerator, numerator.bigits, denominator, denominator.bigits, minus, minus.bigits, plus, plus.bigits
    ensures numerator.Canonical() && denominator.Canonical() && minus.Canonical() && plus.Canonical()
    ensures IntervalOf(numerator, denominator, minus, plus, even) == CommonInterval(f, e, ep, even)
    ensures numerator.used <= 100 && plus.used <= 100 && denominator.BigitLength() <= 100
  {
    if e >= 0 {
      PositiveExponent(f, e, ep, numerator, denominator, minus, plus);
    } else if ep >= 0 {
      NegativeExponentPositivePower(f, -e, ep, numerator, denominator, minus, plus);
    } else {
      NegativeExponentNegativePower(f, -e, -ep, numerator, denominator, minus, plus);
    }
  }

  // ------------------------------------------------------------ fix-up

  /** What the estimate promises (bignum-dtoa.cc:369-383): 10^(ep-1) <= v, and even the upper
      boundary stays below 10^(ep+1). */
  predicate Estimated(v: Interval)
  {
    && v.d > 0 && v.minus > 0 && v.plus > 0 && v.minus < v.n
    && v.d <= 10 * v.n && v.n + v.plus < 10 * v.d
  }

  function FixedUp(v: Interval): Interval
  {
    Interval(10 * v.n, v.d, 10 * v.minus, 10 * v.plus, v.even)
  }

  // The estimate was one too low, and nothing needs to be scaled.
  predicate AlreadyInRange(v: Interval)
  {
    RoomPlus(v.even, v.n, v.plus, v.d)
  }

  // After the fix-up the parity-aware bound holds and the first digit is not zero.
  lemma FixupBounded(v: Interval)
    requires Estimated(v)
    ensures var w := if AlreadyInRange(v) then v else FixedUp(v);
            Bounded(w) && Scaled(w)
  {
  }

  method FixupMultiply10(ep: int, even: bool, numerator: Bignum, denominator: Bignum, minus: Bignum, plus: Bignum)
    returns (decimalPoint: int)
    requires AllSeparate(numerator, denominator, minus, plus)
    requires numerator.Canonical() && denominator.Canonical() && minus.Canonical() && plus.Canonical()
    requires Estimated(IntervalOf(numerator, denominator, minus, plus, even))
    requires denominator.BigitLength() < CAPACITY
    modifies numerator, numerator.bigits, minus, minus.bigits, plus, plus.bigits
    ensures numerator.Canonical() && denominator.Canonical() && minus.Canonical() && plus.Canonical()
    ensures var v := old(IntervalOf(numerator, denominator, minus, plus, even));
            var w := IntervalOf(numerator, denominator, minus, plus, even);
            if AlreadyInRange(v) then w == v && decimalPoint == ep + 1 else w == FixedUp(v) && decimalPoint == ep
  {
    var compare := Bignum.PlusCompare(numerator, plus, denominator);
    var inRange := if even then compare >= 0 else compare > 0;
    if inRange {
      decimalPoint := ep + 1;
    } else {
      decimalPoint := ep;
      ScaleTenfold(numerator, denominator, minus, plus);
    }
  }

  method ScaleTenfold(numerator: Bignum, denominator: Bignum, minus: Bignum, plus: Bignum)
    requires AllSeparate(numerator, denominator, minus, plus)
    requires numerator.Canonical() && denominator.Canonical() && minus.Canonical() && plus.Canonical()
    requires numerator.Value() + plus.Value() <= denominator.Value() && minus.Value() <= denominator.Value()
    requires denominator.BigitLength() < CAPACITY
    modifies numerator, numerator.bigits, minus, minus.bigits, plus, plus.bigits
    ensures numerator.Canonical() && minus.Canonical() && plus.Canonical()
    ensures numerator.Value() == 10 * old(numerator.Value())
    ensures minus.Value() == 10 * old(minus.Value()) && plus.Value() == 10 * old(plus.Value())
  {
    TimesTenFits(numerator, denominator);
    TimesTenFits(minus, denominator);
    TimesTenFits(plus, denominator);
    numerator.Times10();
    var equal := Bignum.Equal(minus, plus);
    if equal {
      minus.Times10();
      plus.AssignBignum(minus);
    } else {
      minus.Times10();
      plus.Times10();
    }
  }

  /** Shortest digits of f * 2^e, and the place of the decimal point. */
  method ShortestDtoa(f: u64, e: int, closer: bool, ep: int) returns (buffer: seq<nat>, decimalPoint: int)
    requires InRange(f, e, ep)
    requires Estimated(StartInterval(f, e, closer, ep, f % 2 == 0))
    ensures var v := StartInterval(f, e, closer, ep, f % 2 == 0);
            if AlreadyInRange(v) then decimalPoint == ep + 1 && IsShortest(v, buffer)
            else decimalPoint == ep && IsShortest(FixedUp(v), buffer)
  {
    var even := f % 2 == 0;
    var numerator := new Bignum();
    var denominator := new Bignum();
    var minus := new Bignum();
    var plus := new Bignum();
    InitialScaledStartValues(f, e, closer, ep, even, numerator, denominator, minus, plus);
    buffer, decimalPoint := PrintScaled(ep, even, numerator, denominator, minus, plus);
  }

  // From the start values on.
  method PrintScaled(ep: int, even: bool, numerator: Bignum, denominator: Bignum, minus: Bignum, plus: Bignum)
    returns (buffer: seq<nat>, decimalPoint: int)
    requires AllSeparate(numerator, denominator, minus, plus)
    requires numerator.Canonical() && denominator.Canonical() && minus.Canonical() && plus.Canonical()
    requires Estimated(IntervalOf(numerator, denominator, minus, plus, even)) && denominator.BigitLength() < CAPACITY
    modifies numerator, numerator.bigits, minus, minus.bigits, plus, plus.bigits
    ensures var v := old(IntervalOf(numerator, denominator, minus, plus, even));
            if AlreadyInRange(v) then decimalPoint == ep + 1 && IsShortest(v, buffer)
            else decimalPoint == ep && IsShortest(FixedUp(v), buffer)
  {
    FixupBounded(IntervalOf(numerator, denominator, minus, plus, even));
    decimalPoint := FixupMultiply10(ep, even, numerator, denominator, minus, plus);
    buffer := GenerateShortestDigits(numerator, denominator, minus, plus, even);
  }
}

/** Positive IEEE 754 doubles by their bit pattern, as util/double-conversion/ieee.h reads
    them, and what rounding a real number to the nearest of them means. */
module Ieee {
  import opened Limbs
  import opened Reals

  const HIDDEN_BIT: nat := 0x10_0000_0000_0000
  const INFINITY: nat := 0x7FF0_0000_0000_0000
  const EXPONENT_BIAS: int := 0x3FF + 52
  const DENORMAL_EXPONENT: int := -EXPONENT_BIAS + 1

  // Bit patterns of +0.0 up to the largest finite double.
  predicate Finite(d: nat) { d < INFINITY }

  predicate IsDenormal(d: nat) { d / HIDDEN_BIT == 0 }

  function Exponent(d: nat): int
  {
    if IsDenormal(d) then DENORMAL_EXPONENT else d / HIDDEN_BIT - EXPONENT_BIAS
  }

  function Significand(d: nat): nat
  {
    if IsDenormal(d) then d % HIDDEN_BIT else d % HIDDEN_BIT + HIDDEN_BIT
  }

  predicate LowerBoundaryIsCloser(d: nat)
  {
    d % HIDDEN_BIT == 0 && Exponent(d) != DENORMAL_EXPONENT
  }

  function NextDouble(d: nat): nat
  {
    if d == INFINITY then d else d + 1
  }

  datatype DiyFp = DiyFp(f: nat, e: int)

  function UpperBoundary(d: nat): DiyFp
  {
    DiyFp(Significand(d) * 2 + 1, Exponent(d) - 1)
  }

  // ------------------------------------------------------------- meaning

  function Dyadic(f: int, e: int): real
  {
    TwoScale(f as real, e)
  }

  function Val(d: nat): real { Dyadic(Significand(d), Exponent(d)) }

  // The ends of the interval that rounds to d.
  function Upper(d: nat): real { Dyadic(2 * Significand(d) + 1, Exponent(d) - 1) }

  function Lower(d: nat): real
  {
    if LowerBoundaryIsCloser(d) then Dyadic(4 * Significand(d) - 1, Exponent(d) - 2)
    else Dyadic(2 * Significand(d) - 1, Exponent(d) - 1)
  }

  // x rounds to d: to nearest, ties to even (IEEE 754-2008, section 4.3.1).
  ghost predicate RoundsTo(x: real, d: nat)
  {
    if Significand(d) % 2 == 0 then Lower(d) <= x <= Upper(d) else Lower(d) < x < Upper(d)
  }

  lemma DyadicDouble(f: int, e: int)
    ensures Dyadic(f, e) == Dyadic(2 * f, e - 1)
  {
    TwoScaleInner(f as real, e - 1);
    assert (2 * f) as real == 2.0 * (f as real);
  }

  lemma DyadicAdd(f: int, g: int, e: int)
    ensures Dyadic(f + g, e) == Dyadic(f, e) + Dyadic(g, e)
  {
    TwoScaleAdd(f as real, g as real, e);
    assert (f + g) as real == (f as real) + (g as real);
  }

  lemma DyadicOrder(f: int, g: int, e: int)
    requires f < g
    ensures Dyadic(f, e) < Dyadic(g, e)
  {
    TwoScaleOrder(f as real, g as real, e);
  }

  // Stepping the bit pattern either increments the significand or enters the next binade.
  lemma NextFields(d: nat)
    requires Finite(d)
    ensures
      || (Significand(d + 1) == Significand(d) + 1 && Exponent(d + 1) == Exponent(d) && !LowerBoundaryIsCloser(d + 1))
      || (Significand(d) == 2 * HIDDEN_BIT - 1 && Significand(d + 1) == HIDDEN_BIT
          && Exponent(d + 1) == Exponent(d) + 1 && LowerBoundaryIsCloser(d + 1))
  {
    var q, r := d / HIDDEN_BIT, d % HIDDEN_BIT;
    if r < HIDDEN_BIT - 1 {
      assert (d + 1) / HIDDEN_BIT == q && (d + 1) % HIDDEN_BIT == r + 1;
    } else {
      assert (d + 1) / HIDDEN_BIT == q + 1 && (d + 1) % HIDDEN_BIT == 0;
    }
  }

  lemma Parity(d: nat)
    ensures Significand(d) % 2 == d % 2
  {
    assert d == HIDDEN_BIT * (d / HIDDEN_BIT) + d % HIDDEN_BIT;
  }

  /** Neighbouring intervals share their boundary, which is the midpoint of the two doubles. */
  lemma Neighbours(d: nat)
    requires Finite(d)
    ensures Upper(d) == Lower(d + 1)
    ensures Upper(d) + Upper(d) == Val(d) + Val(d + 1)
    ensures Val(d) < Upper(d) < Val(d + 1)
  {
    NextFields(d);
    var f, e := Significand(d), Exponent(d);
    DyadicDouble(f, e);
    DyadicOrder(2 * f, 2 * f + 1, e - 1);
    DyadicOrder(2 * f + 1, 2 * f + 2, e - 1);
    DyadicAdd(2 * f + 1, 2 * f + 1, e - 1);
    DyadicAdd(2 * f, 2 * f + 2, e - 1);
    if Exponent(d + 1) == e {
      DyadicDouble(f + 1, e);
    } else {
      assert 4 * HIDDEN_BIT - 1 == 2 * f + 1 && Exponent(d + 1) - 2 == e - 1;
      DyadicDouble(HIDDEN_BIT, e + 1);
      DyadicDouble(2 * HIDDEN_BIT, e);
    }
  }

  lemma {:induction false} ValOrder(d: nat, d': nat)
    requires d < d' <= INFINITY
    ensures Val(d) < Val(d') && Upper(d) <= Lower(d')
    decreases d' - d
  {
    Neighbours(d);
    if d + 1 < d' {
      ValOrder(d + 1, d');
      Neighbours(d + 1);
    }
  }

  /** RoundsTo means nearest: no double is closer to x. */
  lemma RoundsToNearest(x: real, d: nat, d': nat)
    requires Finite(d) && Finite(d') && RoundsTo(x, d)
    ensures (if x <= Val(d) then Val(d) - x else x - Val(d)) <= (if x <= Val(d') then Val(d') - x else x - Val(d'))
  {
    if d < d' {
      Neighbours(d);
      if d + 1 < d' { ValOrder(d + 1, d'); }
    } else if d' < d {
      Neighbours(d - 1);
      if d' < d - 1 { ValOrder(d', d - 1); }
    }
  }

  /** A real number rounds to at most one double. */
  lemma RoundsToUnique(x: real, d: nat, d': nat)
    requires d <= INFINITY && d' <= INFINITY && RoundsTo(x, d) && RoundsTo(x, d')
    ensures d == d'
  {
    if d < d' {
      UniqueBelow(x, d, d');
    } else if d' < d {
      UniqueBelow(x, d', d);
    }
  }

  lemma UniqueBelow(x: real, d: nat, d': nat)
    requires d < d' <= INFINITY
    ensures !(RoundsTo(x, d) && RoundsTo(x, d'))
  {
    Parity(d);
    Parity(d');
    if d + 1 < d' { WideGap(d, d'); } else { Neighbours(d); }
  }

  lemma WideGap(d: nat, d': nat)
    requires d + 1 < d' <= INFINITY
    ensures Upper(d) < Lower(d')
  {
    Neighbours(d);
    Neighbours(d + 1);
    ValOrder(d + 1, d');
  }

  // --------------------------------------------------------- known values

  /** The bit patterns of 1, of the smallest positive double and of the largest finite one. */
  lemma KnownValues()
    ensures Val(0x3FF0_0000_0000_0000) == 1.0
    ensures Val(1) == TwoScale(1.0, -1074)
    ensures Val(0x7FEF_FFFF_FFFF_FFFF) == TwoScale(0x1F_FFFF_FFFF_FFFF as real, 971)
    ensures Val(0x000F_FFFF_FFFF_FFFF) == TwoScale(0xF_FFFF_FFFF_FFFF as real, -1074)
    ensures Val(0x0010_0000_0000_0000) == TwoScale(0x10_0000_0000_0000 as real, -1074)
  {
    FiftyThreeBits();
    TwoScaleUnder(HIDDEN_BIT as real, 52);
  }

  lemma FiftyThreeBits()
    ensures Pow(2, 52) == HIDDEN_BIT && Pow(2, 53) == 2 * HIDDEN_BIT
  {
    assert Pow(2, 13) == 8192;
    PowAdd(2, 13, 13);
    PowAdd(2, 26, 26);
    PowAdd(2, 52, 1);
  }
}

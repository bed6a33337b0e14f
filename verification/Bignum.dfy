/** The fixed-capacity big integer of util/double-conversion/bignum.h and bignum.cc:
    28-bit limbs in an array of 128, of which `used` are in use, and a hidden limb
    exponent. Every method is specified by the natural number the object stands for. */
module Bignums {
  import opened Limbs
  import opened LimbLoops
  import opened Powers
  import opened Quotients
  import Squaring

  class Bignum {
    const bigits: array<nat>
    var used: nat
    var exponent: nat

    ghost predicate Valid()
      reads this, bigits
    {
      && bigits.Length == CAPACITY
      && used <= CAPACITY
      && Limbed(bigits[..])
      && forall i :: used <= i < CAPACITY ==> bigits[i] == 0
    }

    // Valid, no leading zero limb, and zero has no hidden limbs.
    ghost predicate Canonical()
      reads this, bigits
    {
      && Valid()
      && (used == 0 ==> exponent == 0)
      && (used > 0 ==> bigits[used - 1] != 0)
    }

    ghost function Mantissa(): nat
      reads this, bigits
    {
      Low(bigits[..], used)
    }

    ghost function Value(): nat
      reads this, bigits
    {
      Scale(Mantissa(), exponent)
    }

    function BigitLength(): nat
      reads this
    {
      used + exponent
    }

    // -------------------------------------------------- what the limbs say

    // All limbs, the hidden ones included.
    ghost function Digits(): seq<nat>
      requires Valid()
      reads this, bigits
    {
      seq(exponent, i => 0) + bigits[..used]
    }

    lemma DigitsValue()
      requires Valid()
      ensures Limbed(Digits()) && |Digits()| == BigitLength()
      ensures Value() == Low(Digits(), BigitLength())
      ensures forall i :: 0 <= i < exponent ==> At(Digits(), i) == 0
      ensures Low(Digits(), exponent) == 0
    {
      var d := Digits();
      LowShift(bigits[..], d, exponent, used);
      LowZero(d, exponent);
      ScaleIs(Mantissa(), exponent);
    }

    // A canonical number lies between the powers its limb length names.
    lemma Magnitude()
      requires Canonical()
      ensures Value() < Pow(BASE, BigitLength())
      ensures Mantissa() < Pow(BASE, used)
      ensures used > 0 ==> 0 < Pow(BASE, BigitLength() - 1) <= Value()
      ensures used > 0 ==> 0 < Pow(BASE, used - 1) <= Mantissa()
      ensures used == 0 <==> Value() == 0
    {
      var m, p := Mantissa(), Pow(BASE, exponent);
      ScaleIs(m, exponent);
      LowBound(bigits[..], used);
      PowPositive(BASE, exponent);
      PowAdd(BASE, used, exponent);
      MulStrict(m, Pow(BASE, used), p);
      if used > 0 {
        TopLimb(bigits[..], used);
        PowAdd(BASE, used - 1, exponent);
        PowPositive(BASE, used - 1);
        PowPositive(BASE, BigitLength() - 1);
        MulBound(Pow(BASE, used - 1), p, m, p);
      }
    }

    // A longer canonical number is a bigger one.
    lemma LongerIsBigger(other: Bignum)
      requires Canonical() && other.Canonical()
      requires BigitLength() < other.BigitLength()
      ensures Value() < other.Value()
    {
      Magnitude();
      other.Magnitude();
      PowMonotone(BASE, BigitLength(), other.BigitLength() - 1);
    }

    // A bound on the value bounds the limbs in use.
    lemma UsedBound(n: nat)
      requires Canonical() && Value() < Pow(BASE, n)
      ensures BigitLength() <= n
    {
      if BigitLength() > n {
        Magnitude();
        PowMonotone(BASE, n, BigitLength() - 1);
        assert false;
      }
    }

    lemma UsedMantissaBound(n: nat)
      requires Canonical() && Mantissa() < Pow(BASE, n)
      ensures used <= n
    {
      if used > n {
        Magnitude();
        PowMonotone(BASE, n, used - 1);
        assert false;
      }
    }

    lemma MantissaAtMostValue()
      requires Valid()
      ensures Mantissa() <= Value()
    {
      ScaleAtLeast(Mantissa(), exponent);
    }

    // ---------------------------------------------------------- assignment

    constructor ()
      ensures Canonical() && Value() == 0 && fresh(bigits)
    {
      bigits := new nat[CAPACITY](i => 0);
      used, exponent := 0, 0;
    }

    method Zero()
      requires Valid()
      modifies `used, `exponent, bigits
      ensures Canonical() && Value() == 0 && exponent == 0 && used == 0
    {
      for i := 0 to used
        modifies bigits
        invariant forall j :: 0 <= j < i ==> bigits[j] == 0
        invariant forall j :: i <= j < CAPACITY ==> bigits[j] == old(bigits[j])
      {
        bigits[i] := 0;
      }
      used, exponent := 0, 0;
    }

    method Clamp()
      requires Valid()
      modifies `used, `exponent
      ensures Canonical() && Value() == old(Value()) && used <= old(used)
      ensures exponent == old(exponent) || (used == 0 && exponent == 0)
    {
      ghost var limbs := bigits[..];
      while used > 0 && bigits[used - 1] == 0
        modifies `used
        invariant used <= old(used)
        invariant forall j :: used <= j < CAPACITY ==> bigits[j] == 0
      {
        used := used - 1;
      }
      LowPad(limbs, used, old(used));
      if used == 0 {
        ScaleAtLeast(0, exponent);
        exponent := 0;
      }
    }

    method AssignUInt16(value: u16)
      requires Valid()
      modifies `used, `exponent, bigits
      ensures Canonical() && Value() == value && exponent == 0
    {
      Zero();
      if value == 0 { return; }
      bigits[0] := value;
      used := 1;
      assert Low(bigits[..], 1) == value;
    }

    method AssignUInt64(value: u64)
      requires Valid()
      modifies `used, `exponent, bigits
      ensures Canonical() && Value() == value && exponent == 0 && used <= 3
    {
      Zero();
      if value == 0 { return; }
      used := SplitUInt64(bigits, value);
      Clamp();
    }

    method AssignBignum(other: Bignum)
      requires Valid() && other.Canonical() && other.bigits != bigits
      modifies `used, `exponent, bigits
      ensures Canonical() && Value() == other.Value()
      ensures used == other.used && exponent == other.exponent
    {
      exponent := other.exponent;
      for i := 0 to other.used
        modifies bigits
        invariant forall j :: 0 <= j < i ==> bigits[j] == other.bigits[j]
        invariant forall j :: i <= j < CAPACITY ==> bigits[j] == old(bigits[j])
      {
        bigits[i] := other.bigits[i];
      }
      var k := other.used;
      while k < used
        modifies bigits
        invariant other.used <= k <= Max(used, other.used)
        invariant forall j :: 0 <= j < k ==> bigits[j] == other.bigits[j]
        invariant forall j :: k <= j < CAPACITY ==> bigits[j] == old(bigits[j])
      {
        bigits[k] := 0;
        k := k + 1;
      }
      used := other.used;
      assert bigits[..] == other.bigits[..];
    }

    // -------------------------------------------------- common exponent

    /** Trades hidden limbs for zero limbs until the exponent is at most other's. */
    method Align(other: Bignum)
      requires Canonical()
      requires exponent > other.exponent ==> BigitLength() - other.exponent <= CAPACITY
      modifies `used, `exponent, bigits
      ensures Canonical() && Value() == old(Value())
      ensures exponent == Min(old(exponent), old(other.exponent))
      ensures BigitLength() == old(BigitLength())
    {
      if exponent > other.exponent {
        var zeroDigits := exponent - other.exponent;
        ghost var m := Mantissa();
        MoveUp(bigits, used, zeroDigits);
        ScaleAdd(m, zeroDigits, other.exponent);
        used := used + zeroDigits;
        exponent := exponent - zeroDigits;
      }
    }

    // ---------------------------------------------------------- addition

    /** Reads limbs of this above `used`: they are zero, which Valid() promises. */
    method AddBignum(other: Bignum)
      requires Canonical() && other.Canonical() && other.bigits != bigits
      requires 1 + Max(BigitLength(), other.BigitLength()) - Min(exponent, other.exponent) <= CAPACITY
      modifies `used, `exponent, bigits
      ensures Canonical() && Value() == old(Value()) + other.Value()
      ensures exponent == Min(old(exponent), other.exponent)
    {
      Align(other);
      AddAligned(other);
    }

    method AddAligned(other: Bignum)
      requires Canonical() && other.Canonical() && other.bigits != bigits
      requires exponent <= other.exponent
      requires 1 + Max(BigitLength(), other.BigitLength()) - exponent <= CAPACITY
      modifies `used, bigits
      ensures Canonical() && Value() == old(Value()) + other.Value()
    {
      used := AddInto(bigits, used, other.bigits, other.used, other.exponent - exponent, exponent);
    }

    // -------------------------------------------------------- subtraction

    method SubtractBignum(other: Bignum)
      requires Canonical() && other.Canonical() && other.bigits != bigits
      requires other.Value() <= Value()
      requires exponent > other.exponent ==> BigitLength() - other.exponent <= CAPACITY
      modifies `used, `exponent, bigits
      ensures Canonical() && Value() == old(Value()) - other.Value()
      ensures exponent == Min(old(exponent), other.exponent) || (used == 0 && exponent == 0)
      ensures BigitLength() <= old(BigitLength())
    {
      Align(other);
      SubtractAligned(other);
      Clamp();
    }

    lemma NotLonger(other: Bignum)
      requires Canonical() && other.Canonical() && other.Value() <= Value()
      ensures other.BigitLength() <= BigitLength()
    {
      if BigitLength() < other.BigitLength() { LongerIsBigger(other); }
    }

    method SubtractAligned(other: Bignum)
      requires Canonical() && other.Canonical() && other.bigits != bigits
      requires other.Value() <= Value() && exponent <= other.exponent
      modifies bigits
      ensures Valid() && Value() == old(Value()) - other.Value()
    {
      NotLonger(other);
      var offset := other.exponent - exponent;
      ghost var o, b := bigits[..], other.bigits[..];
      var borrow := SubtractLimbs(bigits, other.bigits, other.used, offset);
      BorrowUp(bigits, offset + other.used, used, borrow, o, b, other.used, offset, exponent);
      LinearFinish(bigits[..], o, used, b, other.used, offset, used, used, exponent, -1);
    }

    // ----------------------------------------------------- multiplication

    /** The product fits in `limit` limbs; the source checks this limb by limb. */
    method MultiplyByUInt32(factor: u32, ghost limit: nat)
      requires Canonical() && limit <= CAPACITY
      requires factor * Mantissa() < Pow(BASE, limit)
      modifies `used, `exponent, bigits
      ensures Canonical() && Value() == factor * old(Value())
      ensures factor > 0 ==> exponent == old(exponent) && Mantissa() == factor * old(Mantissa())
    {
      if factor == 1 { return; }
      if factor == 0 {
        Zero();
        return;
      }
      if used == 0 {
        ZeroTimes(factor);
        return;
      }
      ghost var m := Mantissa();
      MulAtLeast(m, factor);
      UsedMantissaBound(limit);
      used := MultiplyInto32(bigits, used, factor, limit);
      ScaleMultiply(factor, m, exponent);
    }

    lemma ZeroTimes(factor: nat)
      requires Canonical() && used == 0
      ensures Mantissa() == factor * Mantissa() && Value() == factor * Value()
    {
      MulZero(factor, Mantissa());
      MulZero(factor, Value());
    }

    /** Exact for every 64-bit factor and every length: the running carry stays below 2^64. */
    method MultiplyByUInt64(factor: u64, ghost limit: nat)
      requires Canonical() && limit <= CAPACITY
      requires factor * Mantissa() < Pow(BASE, limit)
      modifies `used, `exponent, bigits
      ensures Canonical() && Value() == factor * old(Value())
      ensures factor > 0 ==> exponent == old(exponent) && Mantissa() == factor * old(Mantissa())
    {
      if factor == 1 { return; }
      if factor == 0 {
        Zero();
        return;
      }
      ghost var m := Mantissa();
      MulAtLeast(m, factor);
      UsedMantissaBound(limit);
      used := MultiplyInto64(bigits, used, factor, limit);
      ScaleMultiply(factor, m, exponent);
    }

    method Times10()
      requires Canonical() && used < CAPACITY
      modifies `used, `exponent, bigits
      ensures Canonical() && Value() == 10 * old(Value())
    {
      Magnitude();
      MultiplyByUInt32(10, used + 1);
    }

    method ShiftLeft(shiftAmount: nat)
      requires Canonical()
      requires used + 1 <= CAPACITY
      modifies `used, `exponent, bigits
      ensures Canonical() && Value() == Pow(2, shiftAmount) * old(Value())
      ensures used <= old(used) + 1 && exponent <= old(exponent) + shiftAmount / 28
    {
      if used == 0 {
        assert Pow(2, shiftAmount) * 0 == 0;
        return;
      }
      ghost var m, e := Mantissa(), exponent;
      exponent := exponent + shiftAmount / BIGIT_SIZE;
      used := ShiftInto(bigits, used, shiftAmount % BIGIT_SIZE);
      ScaleShift(m, e, shiftAmount);
    }

    // -------------------------------------------------------- comparison

    function BigitAt(index: nat): (limb: nat)
      requires Valid()
      reads this, bigits
      ensures limb == At(Digits(), index) && limb < BASE
    {
      if index >= BigitLength() then 0
      else if index < exponent then 0
      else bigits[index - exponent]
    }

    static method Compare(a: Bignum, b: Bignum) returns (r: int)
      requires a.Canonical() && b.Canonical()
      ensures r == Sign(a.Value() - b.Value())
    {
      var lengthA, lengthB := a.BigitLength(), b.BigitLength();
      if lengthA < lengthB {
        a.LongerIsBigger(b);
        return -1;
      }
      if lengthA > lengthB {
        b.LongerIsBigger(a);
        return 1;
      }
      ghost var da, db := a.Digits(), b.Digits();
      a.DigitsValue();
      b.DigitsValue();
      var i, low := lengthA, Min(a.exponent, b.exponent);
      while i > low
        invariant low <= i <= lengthA
        invariant Top(da, i) == Top(db, i)
      {
        i := i - 1;
        TopStep(da, i);
        TopStep(db, i);
        var bigitA, bigitB := a.BigitAt(i), b.BigitAt(i);
        if bigitA < bigitB {
          TopDecides(da, db, i);
          return -1;
        }
        if bigitA > bigitB {
          TopDecides(db, da, i);
          return 1;
        }
      }
      SplitAt(da, low);
      SplitAt(db, low);
      LowZero(da, low);
      LowZero(db, low);
      return 0;
    }

    static method LessEqual(a: Bignum, b: Bignum) returns (r: bool)
      requires a.Canonical() && b.Canonical()
      ensures r <==> a.Value() <= b.Value()
    {
      var c := Compare(a, b);
      r := c <= 0;
    }

    static method Less(a: Bignum, b: Bignum) returns (r: bool)
      requires a.Canonical() && b.Canonical()
      ensures r <==> a.Value() < b.Value()
    {
      var c := Compare(a, b);
      r := c < 0;
    }

    static method Equal(a: Bignum, b: Bignum) returns (r: bool)
      requires a.Canonical() && b.Canonical()
      ensures r <==> a.Value() == b.Value()
    {
      var c := Compare(a, b);
      r := c == 0;
    }

    /** Compares a + b with c without computing the sum. */
    static method PlusCompare(a: Bignum, b: Bignum, c: Bignum) returns (r: int)
      requires a.Canonical() && b.Canonical() && c.Canonical()
      ensures r == Sign(a.Value() + b.Value() - c.Value())
      decreases if a.BigitLength() < b.BigitLength() then 1 else 0
    {
      if a.BigitLength() < b.BigitLength() {
        r := PlusCompare(b, a, c);
        return;
      }
      if a.BigitLength() + 1 < c.BigitLength() {
        SumShorter(a, b, c);
        return -1;
      }
      if a.BigitLength() > c.BigitLength() {
        c.LongerIsBigger(a);
        return 1;
      }
      if a.exponent >= b.BigitLength() && a.BigitLength() < c.BigitLength() {
        NoOverlap(a, b, c);
        return -1;
      }
      r := PlusCompareDown(a, b, c);
    }

    // From the top limb down to the lowest one that any of the three has.
    static method PlusCompareDown(a: Bignum, b: Bignum, c: Bignum) returns (r: int)
      requires a.Canonical() && b.Canonical() && c.Canonical()
      requires a.BigitLength() <= c.BigitLength() && b.BigitLength() <= c.BigitLength()
      ensures r == Sign(a.Value() + b.Value() - c.Value())
    {
      var low := Min(Min(a.exponent, b.exponent), c.exponent);
      a.DigitsValue();
      b.DigitsValue();
      c.DigitsValue();
      NothingBelow(a, b, c, low);
      r := PlusCompareLimbs(a, b, c, low, a.Digits(), b.Digits(), c.Digits());
    }

    static method PlusCompareLimbs(a: Bignum, b: Bignum, c: Bignum, low: nat, ghost da: seq<nat>, ghost db: seq<nat>,
                                   ghost dc: seq<nat>)
      returns (r: int)
      requires a.Valid() && b.Valid() && c.Valid()
      requires da == a.Digits() && db == b.Digits() && dc == c.Digits()
      requires Limbed(da) && Limbed(db) && Limbed(dc)
      requires low <= |dc| && |da| <= |dc| && |db| <= |dc|
      requires var diff := Low(da, |da|) + Low(db, |db|) - Low(dc, |dc|);
               Sign(diff) == Sign(Top(da, low) + Top(db, low) - Top(dc, low))
      ensures r == Sign(Low(da, |da|) + Low(db, |db|) - Low(dc, |dc|))
    {
      var borrow: u32 := 0;
      var i := c.BigitLength();
      while i > low
        invariant low <= i <= |dc| && (borrow == 0 || borrow == BASE)
        invariant Top(dc, i) == Top(da, i) + Top(db, i) + (if borrow == 0 then 0 else 1)
      {
        i := i - 1;
        var decided;
        decided, r, borrow := PlusCompareAt(a, b, c, i, borrow, da, db, dc);
        if decided { return; }
      }
      if borrow == 0 { return 0; }
      return -1;
    }

    // One limb of the comparison.
    static method PlusCompareAt(a: Bignum, b: Bignum, c: Bignum, i: nat, borrow: u32, ghost da: seq<nat>,
                                ghost db: seq<nat>, ghost dc: seq<nat>)
      returns (decided: bool, r: int, borrow': u32)
      requires a.Valid() && b.Valid() && c.Valid()
      requires da == a.Digits() && db == b.Digits() && dc == c.Digits()
      requires Limbed(da) && Limbed(db) && Limbed(dc) && (borrow == 0 || borrow == BASE)
      requires Top(dc, i + 1) == Top(da, i + 1) + Top(db, i + 1) + (if borrow == 0 then 0 else 1)
      ensures decided ==> r == Sign(Low(da, |da|) + Low(db, |db|) - Low(dc, |dc|))
      ensures !decided ==>
        (borrow' == 0 || borrow' == BASE) && Top(dc, i) == Top(da, i) + Top(db, i) + (if borrow' == 0 then 0 else 1)
    {
      PlusCompareStep(da, db, dc, i, if borrow == 0 then 0 else 1);
      var chunkA: u32, chunkB: u32, chunkC: u32 := a.BigitAt(i), b.BigitAt(i), c.BigitAt(i);
      var sum: u32 := chunkA + chunkB;
      if sum > chunkC + borrow {
        return true, 1, borrow;
      }
      borrow' := chunkC + borrow - sum;
      if borrow' > 1 { return true, -1, borrow'; }
      if borrow' == 1 { borrow' := BASE; } // borrow <<= kBigitSize
      decided, r := false, 0;
    }

    // ----------------------------------------------------------- division

    // A canonical number lies between consecutive multiples of its top limb position.
    lemma TopBounds()
      requires Canonical() && used > 0
      ensures bigits[used - 1] * Pow(BASE, BigitLength() - 1) <= Value()
        < (bigits[used - 1] + 1) * Pow(BASE, BigitLength() - 1)
    {
      var s, t, n := Digits(), bigits[used - 1], BigitLength();
      DigitsValue();
      LowBound(s, n - 1);
      assert At(s, n - 1) == t;
      SumScale(t, 1, Pow(BASE, n - 1));
    }

    /** this -= factor * other. The loop over the limbs above other's advances twice a
        round; that is enough because at most one such limb exists. */
    method SubtractTimes(other: Bignum, factor: nat)
      requires Canonical() && other.Canonical() && other.bigits != bigits
      requires exponent <= other.exponent && BigitLength() <= other.BigitLength() + 1
      requires factor < BASE && Times(factor, other.Value()) <= Value()
      modifies `used, `exponent, bigits
      ensures Canonical() && Value() == old(Value()) - Times(factor, other.Value())
      ensures exponent == old(exponent) || (used == 0 && exponent == 0)
      ensures BigitLength() <= old(BigitLength())
    {
      if factor < 3 {
        SubtractFew(other, factor);
        return;
      }
      assert other.BigitLength() <= BigitLength() by {
        TimesAdd(1, factor - 1, other.Value());
        if BigitLength() < other.BigitLength() { LongerIsBigger(other); }
      }
      var offset := other.exponent - exponent;
      var early := SubtractTimesInto(bigits, used, other.bigits, other.used, offset, factor, exponent);
      if early { return; }
      Clamp();
    }

    method SubtractFew(other: Bignum, factor: nat)
      requires Canonical() && other.Canonical() && other.bigits != bigits
      requires exponent <= other.exponent
      requires Times(factor, other.Value()) <= Value()
      modifies `used, `exponent, bigits
      ensures Canonical() && Value() == old(Value()) - Times(factor, other.Value())
      ensures exponent == old(exponent) || (used == 0 && exponent == 0)
      ensures BigitLength() <= old(BigitLength())
    {
      for i := 0 to factor
        invariant Canonical() && Value() == old(Value()) - Times(i, other.Value())
        invariant exponent == old(exponent) || (used == 0 && exponent == 0)
        invariant BigitLength() <= old(BigitLength())
      {
        TimesMonotone(i + 1, factor, other.Value());
        SubtractBignum(other);
      }
    }

    /** Quotient and remainder, for a quotient that fits 16 bits. */
    method DivideModuloIntBignum(other: Bignum) returns (result: u16)
      requires Canonical() && other.Canonical() && other.bigits != bigits
      requires other.used > 0
      requires Value() < 0x1_0000 * other.Value()
      requires exponent > other.exponent ==> BigitLength() - other.exponent <= CAPACITY
      modifies `used, `exponent, bigits
      ensures Canonical() && other.Value() > 0
      ensures Value() == old(Value()) % other.Value() && result == old(Value()) / other.Value()
      ensures BigitLength() <= old(BigitLength())
    {
      ghost var v, w := Value(), other.Value();
      other.Magnitude();
      if BigitLength() < other.BigitLength() {
        LongerIsBigger(other);
        QuotientIs(v, w, 0, v);
        return 0;
      }
      ShortQuotient(this, other);
      Align(other);
      result := RemoveMultiples(other);
      ghost var left := Value();
      var more := FinishDivision(other, result);
      QuotientInSteps(v, w, result, left, more, Value());
      result := result + more;
    }

    // Until this is no longer than other: subtract top-limb many multiples of other.
    method RemoveMultiples(other: Bignum) returns (result: u16)
      requires Canonical() && other.Canonical() && other.bigits != bigits && other.used > 0
      requires exponent <= other.exponent
      requires other.BigitLength() <= BigitLength() <= other.BigitLength() + 1
      requires Value() < 0x1_0000 * other.Value()
      modifies `used, `exponent, bigits
      ensures Canonical() && exponent <= other.exponent && used > 0
      ensures old(Value()) == Value() + Times(result, other.Value())
      ensures BigitLength() <= other.BigitLength() && BigitLength() <= old(BigitLength())
      ensures BigitLength() < other.BigitLength() ==> Value() + other.Value() >= Pow(BASE, other.BigitLength())
    {
      result := 0;
      ghost var v, w, p := Value(), other.Value(), Pow(BASE, other.BigitLength());
      other.Magnitude();
      Magnitude();
      while BigitLength() > other.BigitLength()
        invariant Canonical() && exponent <= other.exponent && used > 0
        invariant v == Value() + Times(result, w)
        invariant BigitLength() <= other.BigitLength() + 1 && BigitLength() <= old(BigitLength())
        invariant BigitLength() < other.BigitLength() ==> Value() + w >= p
        decreases Value()
      {
        var top := RemoveTop(other, v, result);
        result := result + top;
      }
    }

    method RemoveTop(other: Bignum, ghost v: nat, ghost result: u16) returns (top: nat)
      requires Canonical() && other.Canonical() && other.bigits != bigits && other.used > 0 && used > 0
      requires exponent <= other.exponent && BigitLength() == other.BigitLength() + 1
      requires v == Value() + Times(result, other.Value()) && v < 0x1_0000 * other.Value()
      modifies `used, `exponent, bigits
      ensures Canonical() && exponent <= other.exponent && used > 0 && Value() < old(Value())
      ensures v == Value() + Times(result + top, other.Value()) && result + top < 0x1_0000
      ensures BigitLength() <= old(BigitLength())
      ensures Value() + other.Value() >= Pow(BASE, other.BigitLength())
    {
      top := bigits[used - 1];
      TopBounds();
      other.Magnitude();
      assert bigits[..][used - 1] < BASE;
      RemovalStep(v, Value(), other.Value(), Pow(BASE, other.BigitLength()), result, top);
      SubtractTimes(other, top);
      Magnitude();
    }

    // Both numbers are equally long, or this is already the remainder.
    method FinishDivision(other: Bignum, ghost sofar: u16) returns (more: u16)
      requires Canonical() && other.Canonical() && other.bigits != bigits && other.used > 0 && used > 0
      requires exponent <= other.exponent && BigitLength() <= other.BigitLength()
      requires BigitLength() < other.BigitLength() ==> Value() + other.Value() >= Pow(BASE, other.BigitLength())
      requires Value() + Times(sofar, other.Value()) < 0x1_0000 * other.Value()
      modifies `used, `exponent, bigits
      ensures Canonical() && Value() < other.Value()
      ensures old(Value()) == Value() + Times(more, other.Value()) && sofar + more < 0x1_0000
      ensures BigitLength() <= old(BigitLength())
    {
      if other.used == 1 {
        OneLimbDivision(this, other);
        var quotient := bigits[used - 1] / other.bigits[0];
        FewMultiples(Value(), other.Value(), sofar, quotient);
        more := quotient;
        DropTopMultiple(other, quotient);
        Clamp();
        return;
      }
      more := EstimateQuotient(other, sofar);
    }

    method EstimateQuotient(other: Bignum, ghost sofar: u16) returns (more: u16)
      requires Canonical() && other.Canonical() && other.bigits != bigits && other.used > 1 && used > 0
      requires exponent <= other.exponent && BigitLength() <= other.BigitLength()
      requires BigitLength() < other.BigitLength() ==> Value() + other.Value() >= Pow(BASE, other.BigitLength())
      requires Value() + Times(sofar, other.Value()) < 0x1_0000 * other.Value()
      modifies `used, `exponent, bigits
      ensures Canonical() && Value() < other.Value()
      ensures old(Value()) == Value() + Times(more, other.Value()) && sofar + more < 0x1_0000
      ensures BigitLength() <= old(BigitLength())
    {
      var estimate, exhausted := TopEstimate(other);
      FewMultiples(Value(), other.Value(), sofar, estimate);
      TimesAdd(1, estimate, other.Value());
      SubtractTimes(other, estimate);
      if exhausted {
        return estimate;
      }
      more := CorrectQuotient(other, sofar, estimate);
    }

    // How many multiples the top limbs alone guarantee, and whether one more is out of question.
    method TopEstimate(other: Bignum) returns (estimate: nat, exhausted: bool)
      requires Canonical() && other.Canonical() && other.used > 1 && used > 0
      requires BigitLength() <= other.BigitLength()
      requires BigitLength() < other.BigitLength() ==> Value() + other.Value() >= Pow(BASE, other.BigitLength())
      ensures estimate < BASE && Times(estimate, other.Value()) <= Value()
      ensures exhausted ==> Value() < Times(estimate + 1, other.Value())
    {
      var thisBigit, otherBigit := bigits[used - 1], other.bigits[other.used - 1];
      estimate := thisBigit / (otherBigit + 1);
      TopQuotient(thisBigit, otherBigit + 1);
      EstimateDivision(this, other, estimate);
      var next: u32 := otherBigit * (estimate + 1);
      exhausted := next > thisBigit;
    }

    // The correction loop: at most a few multiples are left.
    method CorrectQuotient(other: Bignum, ghost sofar: u16, estimate: u16) returns (more: u16)
      requires Canonical() && other.Canonical() && other.bigits != bigits && other.used > 0
      requires exponent <= other.exponent
      requires Value() + Times(estimate, other.Value()) + Times(sofar, other.Value()) < 0x1_0000 * other.Value()
      requires sofar + estimate < 0x1_0000
      modifies `used, `exponent, bigits
      ensures Canonical() && Value() < other.Value() && sofar + more < 0x1_0000
      ensures old(Value()) + Times(estimate, other.Value()) == Value() + Times(more, other.Value())
      ensures BigitLength() <= old(BigitLength())
    {
      ghost var v, w := Value() + Times(estimate, other.Value()), other.Value();
      other.Magnitude();
      more := estimate;
      var again := LessEqual(other, this);
      while again
        invariant Canonical() && exponent <= other.exponent
        invariant v == Value() + Times(more, w) && sofar + more < 0x1_0000
        invariant again <==> w <= Value()
        invariant BigitLength() <= old(BigitLength())
        decreases Value()
      {
        again := CorrectOnce(other, v, sofar, more);
        more := more + 1;
      }
    }

    method CorrectOnce(other: Bignum, ghost v: nat, ghost sofar: u16, ghost more: u16) returns (again: bool)
      requires Canonical() && other.Canonical() && other.bigits != bigits && 0 < other.Value() <= Value()
      requires exponent <= other.exponent
      requires v == Value() + Times(more, other.Value()) && v + Times(sofar, other.Value()) < 0x1_0000 * other.Value()
      modifies `used, `exponent, bigits
      ensures Canonical() && exponent <= other.exponent && Value() < old(Value())
      ensures v == Value() + Times(more + 1, other.Value()) && sofar + more + 1 < 0x1_0000
      ensures BigitLength() <= old(BigitLength())
      ensures again <==> other.Value() <= Value()
    {
      SubtractOnce(other, v, sofar, more);
      again := LessEqual(other, this);
    }

    method SubtractOnce(other: Bignum, ghost v: nat, ghost sofar: u16, ghost more: u16)
      requires Canonical() && other.Canonical() && other.bigits != bigits && 0 < other.Value() <= Value()
      requires exponent <= other.exponent
      requires v == Value() + Times(more, other.Value()) && v + Times(sofar, other.Value()) < 0x1_0000 * other.Value()
      modifies `used, `exponent, bigits
      ensures Canonical() && exponent <= other.exponent && Value() < old(Value())
      ensures v == Value() + Times(more + 1, other.Value()) && sofar + more + 1 < 0x1_0000
      ensures BigitLength() <= old(BigitLength())
    {
      TimesAdd(1, more, other.Value());
      FewMultiples(v, other.Value(), sofar, more + 1);
      SubtractBignum(other);
    }

    // The one-limb shortcut: only the top limb changes.
    method DropTopMultiple(other: Bignum, quotient: nat)
      requires Canonical() && other.Canonical() && other.bigits != bigits && other.used == 1 && used > 0
      requires BigitLength() == other.BigitLength()
      requires quotient == bigits[used - 1] / other.bigits[0]
      modifies bigits
      ensures Valid() && Value() == old(Value()) - Times(quotient, other.Value())
    {
      ghost var o := bigits[..];
      var y := other.bigits[0];
      TopQuotient(bigits[used - 1], y);
      bigits[used - 1] := bigits[used - 1] - y * quotient;
      LowFrame(bigits[..], o, used - 1);
      TopLimbDrop(Low(o, used - 1), o[used - 1], y, quotient, used - 1, exponent);
      OneLimb(other);
    }

    // -------------------------------------------------- squares and powers

    method Square()
      requires Canonical() && 2 * used <= CAPACITY
      modifies `used, `exponent, bigits
      ensures Canonical() && Value() == old(Value()) * old(Value())
      ensures old(exponent) == 0 ==> exponent == 0
    {
      ghost var m, e := Mantissa(), exponent;
      used := Squaring.SquareInto(bigits, used);
      exponent := 2 * exponent;
      ScaleSquare(m, e);
      Clamp();
    }

    /** base^power: factors of two become a final shift; the odd part is raised by left-to-right
        exponentiation, first in 64 bits, then on limbs. */
    method AssignPowerUInt16(base: u16, power: nat)
      requires Valid() && base > 0
      requires power > 0 ==> BitSize(OddPart(base)) * power / 28 + 2 <= CAPACITY
      modifies `used, `exponent, bigits
      ensures Canonical() && Value() == Pow(base, power)
    {
      if power == 0 {
        AssignUInt16(1);
        return;
      }
      var odd, shifts := StripTwos(base);
      ghost var limit := CapacityInBits(BitSize(odd), power);
      AssignOddPower(odd, power, limit);
      ShiftLeft(shifts * power);
      PowerOfProduct(base, odd, shifts, power);
    }

    method AssignOddPower(odd: u16, power: nat, ghost limit: nat)
      requires Valid() && odd > 0 && power > 0
      requires BitSize(odd) * power < 28 * limit && limit < CAPACITY
      modifies `used, `exponent, bigits
      ensures Canonical() && Value() == Pow(odd, power) && used <= limit
    {
      var bitSize := CountBits(odd);
      BitSizeBounds(odd);
      var mask, j := TopMask(power);
      var value, delayed;
      value, delayed, mask, j := PowerIn64(odd, bitSize, power, mask, j);
      AssignUInt64(value);
      if delayed {
        PowerFits(odd, bitSize, power, Shr(power, j), limit);
        MultiplyByUInt32(odd, limit);
      }
      RaiseBits(odd, bitSize, power, mask, j, limit);
      PowerFits(odd, bitSize, power, power, limit);
      UsedBound(limit);
    }

    // The bignum phase of AssignPowerUInt16.
    method RaiseBits(odd: u16, ghost bitSize: nat, power: nat, startMask: nat, ghost startBits: nat, ghost limit: nat)
      requires Canonical() && exponent == 0 && 0 < odd < Pow(2, bitSize) && power > 0
      requires bitSize * power < 28 * limit && limit < CAPACITY
      requires startMask == (if startBits == 0 then 0 else Pow(2, startBits - 1))
      requires Value() == Pow(odd, Shr(power, startBits))
      modifies `used, `exponent, bigits
      ensures Canonical() && exponent == 0 && Value() == Pow(odd, power)
    {
      var mask := startMask;
      ghost var j := startBits;
      while mask != 0
        invariant Canonical() && exponent == 0
        invariant mask == (if j == 0 then 0 else Pow(2, j - 1))
        invariant Value() == Pow(odd, Shr(power, j))
        decreases mask
      {
        ghost var e := Shr(power, j);
        MaskTest(power, mask, j - 1);
        ShrAtMost(power, j - 1);
        Magnitude();
        if used > 0 { SquareFits(odd, bitSize, power, e, used); }
        PowSquare(odd, e);
        Square();
        if (power / mask) % 2 == 1 {
          PowSquare(odd, 2 * e);
          PowerFits(odd, bitSize, power, 2 * e + 1, limit);
          MultiplyByUInt32(odd, limit);
        }
        mask := mask / 2;
        j := j - 1;
      }
      if j > 0 { PowPositive(2, j - 1); }
    }

    /** this *= 10^power, as 5^power in chunks that fit 64 and 32 bits and then a shift. */
    method MultiplyByPowerOfTen(power: nat, ghost limit: nat)
      requires Canonical() && limit < CAPACITY
      requires Fives(Mantissa(), power) < Pow(BASE, limit)
      modifies `used, `exponent, bigits
      ensures Canonical() && Value() == Pow(10, power) * old(Value())
      ensures used <= Max(old(used), limit + 1)
    {
      if power == 0 { return; }
      if used == 0 {
        MulZero(Pow(10, power), Value());
        return;
      }
      ghost var m := Mantissa();
      MultiplyByPowerOfFive(power, limit);
      UsedMantissaBound(limit);
      ShiftLeft(power);
      TenFactors(m, power, old(exponent));
    }

    method MultiplyByPowerOfFive(power: nat, ghost limit: nat)
      requires Canonical() && limit <= CAPACITY
      requires Fives(Mantissa(), power) < Pow(BASE, limit)
      modifies `used, `exponent, bigits
      ensures Canonical() && exponent == old(exponent)
      ensures Mantissa() == Fives(old(Mantissa()), power)
    {
      var remaining: nat := power;
      while remaining >= 27
        invariant Canonical() && exponent == old(exponent)
        invariant Fives(Mantissa(), remaining) == Fives(old(Mantissa()), power)
      {
        FiveChunk27(Mantissa(), remaining, Pow(BASE, limit));
        MultiplyByUInt64(FIVE_27, limit);
        remaining := remaining - 27;
      }
      while remaining >= 13
        invariant Canonical() && exponent == old(exponent)
        invariant Fives(Mantissa(), remaining) == Fives(old(Mantissa()), power)
      {
        FiveChunk13(Mantissa(), remaining, Pow(BASE, limit));
        MultiplyByUInt32(FIVE_13, limit);
        remaining := remaining - 13;
      }
      if remaining > 0 {
        FiveChunkLast(Mantissa(), remaining, Pow(BASE, limit));
        MultiplyByUInt32(FiveUpTo12(remaining), limit);
      }
    }

    // -------------------------------------------------- decimal input

    method AddUInt64(operand: u64)
      requires Canonical() && 1 + Max(BigitLength(), 3) <= CAPACITY
      modifies `used, `exponent, bigits
      ensures Canonical() && Value() == old(Value()) + operand
    {
      if operand == 0 { return; }
      var other := new Bignum();
      other.AssignUInt64(operand);
      AddBignum(other);
    }

    /** The number a decimal digit string denotes, read 19 digits at a time. */
    method AssignDecimalString(value: seq<nat>, ghost limit: nat)
      requires Valid() && IsDigits(value)
      requires 3 <= limit < CAPACITY && Pow(10, |value|) <= Pow(BASE, limit)
      modifies `used, `exponent, bigits
      ensures Canonical() && Value() == Decimal(value) && BigitLength() <= limit
    {
      Zero();
      var length: nat, pos: nat := |value|, 0;
      while length >= 19
        invariant pos + length == |value|
        invariant Canonical() && Value() == Decimal(value[..pos]) && BigitLength() <= limit
      {
        AppendDigits(value, pos, 19, limit);
        pos, length := pos + 19, length - 19;
      }
      AppendDigits(value, pos, length, limit);
      assert value[..pos + length] == value;
      DecimalBound(value);
      Clamp();
      UsedBound(limit);
    }

    method AppendDigits(value: seq<nat>, pos: nat, count: nat, ghost limit: nat)
      requires Canonical() && IsDigits(value) && pos + count <= |value| && count <= 19
      requires Value() == Decimal(value[..pos]) && BigitLength() <= limit
      requires 3 <= limit < CAPACITY && Pow(10, |value|) <= Pow(BASE, limit)
      modifies `used, `exponent, bigits
      ensures Canonical() && Value() == Decimal(value[..pos + count]) && BigitLength() <= limit
    {
      var digits := ReadUInt64(value, pos, count);
      AppendedValue(value, pos, count, limit);
      MantissaAtMostValue();
      TenFits(Mantissa(), Value(), pos, count, |value|, limit);
      MultiplyByPowerOfTen(count, limit);
      UsedBound(limit);
      AddUInt64(digits);
      UsedBound(limit);
    }
  }

  // a + b is less than two units of a's top limb position, so at most one limb longer.
  lemma SumShorter(a: Bignum, b: Bignum, c: Bignum)
    requires a.Canonical() && b.Canonical() && c.Canonical()
    requires b.BigitLength() <= a.BigitLength() && a.BigitLength() + 1 < c.BigitLength()
    ensures a.Value() + b.Value() < c.Value()
  {
    var n := a.BigitLength();
    a.Magnitude();
    b.Magnitude();
    c.Magnitude();
    PowMonotone(BASE, b.BigitLength(), n);
    PowMonotone(BASE, n + 1, c.BigitLength() - 1);
  }

  // b fits below a's limbs, so the sum is no longer than a.
  lemma NoOverlap(a: Bignum, b: Bignum, c: Bignum)
    requires a.Canonical() && b.Canonical() && c.Canonical()
    requires b.BigitLength() <= a.exponent && a.BigitLength() < c.BigitLength()
    ensures a.Value() + b.Value() < c.Value()
  {
    var m, p := a.Mantissa(), Pow(BASE, a.exponent);
    a.Magnitude();
    b.Magnitude();
    c.Magnitude();
    PowMonotone(BASE, b.BigitLength(), a.exponent);
    PowMonotone(BASE, a.BigitLength(), c.BigitLength() - 1);
    PowAdd(BASE, a.used, a.exponent);
    ScaleIs(m, a.exponent);
    MulBound(m + 1, p, Pow(BASE, a.used), p);
    SumScale(m, 1, p);
  }

  lemma NothingBelow(a: Bignum, b: Bignum, c: Bignum, low: nat)
    requires a.Valid() && b.Valid() && c.Valid()
    requires low <= a.exponent && low <= b.exponent && low <= c.exponent
    ensures Sign(a.Value() + b.Value() - c.Value())
      == Sign(Top(a.Digits(), low) + Top(b.Digits(), low) - Top(c.Digits(), low))
  {
    var da, db, dc, p := a.Digits(), b.Digits(), c.Digits(), Pow(BASE, low);
    a.DigitsValue();
    b.DigitsValue();
    c.DigitsValue();
    SplitAt(da, low);
    SplitAt(db, low);
    SplitAt(dc, low);
    LowZero(da, low);
    LowZero(db, low);
    LowZero(dc, low);
    PowPositive(BASE, low);
    SignScale(Top(da, low), Top(db, low), Top(dc, low), p);
  }

  lemma SignScale(x: nat, y: nat, z: nat, p: nat)
    requires p > 0
    ensures Sign(x * p + y * p - z * p) == Sign(x + y - z)
  {
    SumScale(x, y, p);
    if x + y < z { MulStrict(x + y, z, p); }
    if x + y > z { MulStrict(z, x + y, p); }
  }

  // A quotient below 2^16 leaves at most one limb above the divisor.
  lemma ShortQuotient(a: Bignum, b: Bignum)
    requires a.Canonical() && b.Canonical() && a.Value() < 0x1_0000 * b.Value()
    ensures a.BigitLength() <= b.BigitLength() + 1
  {
    a.Magnitude();
    b.Magnitude();
    if a.BigitLength() > b.BigitLength() + 1 {
      PowMonotone(BASE, b.BigitLength() + 1, a.BigitLength() - 1);
    }
  }

  lemma OneLimb(b: Bignum)
    requires b.Canonical() && b.used == 1
    ensures b.Mantissa() == b.bigits[0]
    ensures b.Value() == Scale(b.bigits[0], b.exponent) == b.bigits[0] * Pow(BASE, b.exponent)
  {
    assert Low(b.bigits[..], 1) == b.bigits[0];
    ScaleIs(b.bigits[0], b.exponent);
  }

  lemma LengthsAfterRemoval(a: Bignum, b: Bignum)
    requires a.Canonical() && b.Canonical() && a.used > 0 && b.used > 0
    requires a.BigitLength() < b.BigitLength()
    requires a.Value() + b.Value() >= Pow(BASE, b.BigitLength())
    ensures b.used > 1 && b.bigits[b.used - 1] == BASE - 1 && a.Value() < b.Value()
  {
    var k := b.BigitLength();
    a.LongerIsBigger(b);
    a.Magnitude();
    PowMonotone(BASE, a.BigitLength(), k - 1);
    b.TopBounds();
    assert b.bigits[..][b.used - 1] < BASE;
    ShorterRemainder(a.Value(), b.Value(), Pow(BASE, k - 1), b.bigits[b.used - 1]);
    if b.used == 1 { OneLimb(b); }
  }

  lemma OneLimbDivision(a: Bignum, b: Bignum)
    requires a.Canonical() && b.Canonical() && a.used > 0 && b.used == 1
    requires a.BigitLength() <= b.BigitLength()
    requires a.BigitLength() < b.BigitLength() ==> a.Value() + b.Value() >= Pow(BASE, b.BigitLength())
    ensures a.BigitLength() == b.BigitLength()
    ensures var q := a.bigits[a.used - 1] / b.bigits[0];
            Times(q, b.Value()) <= a.Value() < Times(q, b.Value()) + b.Value()
  {
    if a.BigitLength() < b.BigitLength() { LengthsAfterRemoval(a, b); }
    a.TopBounds();
    OneLimb(b);
    OneLimbQuotient(a.Value(), Pow(BASE, a.BigitLength() - 1), a.bigits[a.used - 1], b.bigits[0]);
  }

  lemma EstimateDivision(a: Bignum, b: Bignum, q: nat)
    requires a.Canonical() && b.Canonical() && a.used > 0 && b.used > 1
    requires a.BigitLength() <= b.BigitLength()
    requires a.BigitLength() < b.BigitLength() ==> a.Value() + b.Value() >= Pow(BASE, b.BigitLength())
    requires (b.bigits[b.used - 1] + 1) * q <= a.bigits[a.used - 1]
    ensures var x, y := a.bigits[a.used - 1], b.bigits[b.used - 1];
            && q < BASE && y * (q + 1) < 0x1_0000_0000
            && Times(q, b.Value()) <= a.Value()
            && (y * (q + 1) > x ==> a.Value() < Times(q + 1, b.Value()))
  {
    var x, y := a.bigits[a.used - 1], b.bigits[b.used - 1];
    assert a.bigits[..][a.used - 1] < BASE && b.bigits[..][b.used - 1] < BASE;
    EstimateBounds(x, y, q);
    if a.BigitLength() < b.BigitLength() {
      LengthsAfterRemoval(a, b);
      if q > 0 { MulBound(y + 1, 1, y + 1, q); }
      TimesAdd(1, 0, b.Value());
    } else {
      a.TopBounds();
      b.TopBounds();
      EstimateFits(a.Value(), b.Value(), Pow(BASE, a.BigitLength() - 1), x, y, q);
    }
  }

  // ------------------------------------------------ arithmetic of powers

  // base == odd * 2^shifts.
  method StripTwos(base: u16) returns (odd: u16, shifts: nat)
    requires base > 0
    ensures odd == OddPart(base) > 0 && base == odd * Pow(2, shifts)
  {
    odd, shifts := base, 0;
    while odd % 2 == 0
      invariant 0 < odd <= base && OddPart(odd) == OddPart(base) && base == odd * Pow(2, shifts)
      decreases odd
    {
      HalveFactor(odd, Pow(2, shifts));
      odd, shifts := odd / 2, shifts + 1;
    }
  }

  lemma HalveFactor(odd: nat, p: nat)
    requires odd % 2 == 0
    ensures odd * p == (odd / 2) * (2 * p)
  {
    var h := odd / 2;
    assert odd == 2 * h;
    assert (2 * h) * p == h * (2 * p);
  }

  method CountBits(n: u16) returns (bits: nat)
    ensures bits == BitSize(n) <= 16
  {
    var rest := n;
    bits := 0;
    while rest != 0
      invariant rest >= 0 && bits + BitSize(rest) == BitSize(n)
      decreases rest
    {
      rest, bits := rest / 2, bits + 1;
    }
    PowTwo64();
    BitSizeAtMost(n, 16);
  }

  // The mask two below the bit length of power: the leading 1-bit is already spent.
  method TopMask(power: nat) returns (mask: nat, ghost j: nat)
    requires power > 0
    ensures mask == (if j == 0 then 0 else Pow(2, j - 1)) && Shr(power, j) == 1
  {
    mask, j := 1, 0;
    while power >= mask
      invariant mask == Pow(2, j) && (j > 0 ==> Pow(2, j - 1) <= power)
      decreases power + 1 - mask
    {
      PowPositive(2, j);
      mask, j := 2 * mask, j + 1;
    }
    j := j - 1;
    ShrBounds(power, j);
    PowPositive(2, j);
    OneUnit(power, Pow(2, j), Shr(power, j));
    mask := mask / 4;
  }

  lemma OneUnit(power: nat, p: nat, h: nat)
    requires 0 < p <= power < 2 * p && p * h <= power < p * h + p
    ensures h == 1
  {
    if h == 0 { MulZero(p, h); }
    if h >= 2 { MulBound(p, 2, p, h); }
  }

  /** The 64-bit phase. A multiplication by the base that might not fit is left for later; it
      can only be the last step of this phase. */
  method PowerIn64(odd: u16, bitSize: nat, power: nat, startMask: nat, ghost startBits: nat)
    returns (value: u64, delayed: bool, mask: nat, ghost j: nat)
    requires 0 < odd < Pow(2, bitSize) && 0 < bitSize <= 16
    requires startMask == (if startBits == 0 then 0 else Pow(2, startBits - 1)) && Shr(power, startBits) == 1
    ensures mask == (if j == 0 then 0 else Pow(2, j - 1))
    ensures Pow(odd, Shr(power, j)) == if delayed then odd * value else value
    ensures delayed ==> Shr(power, j) <= power
  {
    value, delayed, mask, j := odd, false, startMask, startBits;
    assert Pow(odd, 1) == odd;
    while mask != 0 && value <= 0xffff_ffff
      invariant mask == (if j == 0 then 0 else Pow(2, j - 1))
      invariant Pow(odd, Shr(power, j)) == if delayed then odd * value else value
      invariant delayed ==> value > 0xffff_ffff
      decreases mask
    {
      ghost var e := Shr(power, j);
      MaskTest(power, mask, j - 1);
      PowSquare(odd, e);
      PowSquare(odd, 2 * e);
      value, delayed := SquareIn64(value, odd, bitSize, (power / mask) % 2 == 1);
      mask := mask / 2;
      j := j - 1;
    }
    ShrAtMost(power, j);
  }

  method SquareIn64(start: u64, odd: u16, bitSize: nat, bit: bool) returns (value: u64, delayed: bool)
    requires 0 < odd < Pow(2, bitSize) && 0 < bitSize <= 16 && start <= 0xffff_ffff
    ensures !bit ==> !delayed && value == start * start
    ensures bit ==> odd * (start * start) == if delayed then odd * value else value
    ensures delayed ==> value > 0xffff_ffff
  {
    MulBound(start, start, 0xffff_ffff, 0xffff_ffff);
    value, delayed := start * start, false;
    if bit {
      HighBits(bitSize, value, odd);
      var highBitsZero := value < Pow(2, 64 - bitSize);
      if highBitsZero {
        value := value * odd;
      } else {
        delayed := true;
      }
    }
  }

  // If the top bitSize bits are free, one more factor fits; if not, 32 bits are long exceeded.
  lemma HighBits(bitSize: nat, value: nat, odd: nat)
    requires 0 < odd < Pow(2, bitSize) && 0 < bitSize <= 16
    ensures value < Pow(2, 64 - bitSize) ==> value * odd < 0x1_0000_0000_0000_0000
    ensures value >= Pow(2, 64 - bitSize) ==> value > 0xffff_ffff
  {
    var p, q := Pow(2, 64 - bitSize), Pow(2, bitSize);
    PowTwo64();
    PowAdd(2, 64 - bitSize, bitSize);
    PowMonotone(2, 32, 64 - bitSize);
    if value < p {
      MulStrict(value, p, odd);
      MulBound(p, odd, p, q);
    }
  }

  // The capacity check of AssignPowerUInt16, as a number of limbs that hold every power.
  lemma CapacityInBits(bitSize: nat, power: nat) returns (limit: nat)
    requires bitSize * power / 28 + 2 <= CAPACITY
    ensures limit < CAPACITY && bitSize * power < 28 * limit
  {
    var bits := bitSize * power;
    limit := bits / 28 + 1;
  }

  lemma PowerOfProduct(base: nat, odd: nat, shifts: nat, power: nat)
    requires base == odd * Pow(2, shifts)
    ensures Pow(2, shifts * power) * Pow(odd, power) == Pow(base, power)
  {
    PowPower(2, shifts, power);
    PowProduct(odd, Pow(2, shifts), power);
  }

  lemma TenFactors(m: nat, power: nat, e: nat)
    ensures Pow(2, power) * Scale(Fives(m, power), e) == Pow(10, power) * Scale(m, e)
  {
    FivesIs(m, power);
    ScaleMultiply(Pow(5, power), m, e);
    PowProduct(2, 5, power);
    MulAssociative(Pow(2, power), Pow(5, power), Scale(m, e));
  }
}

/** Shortest decimal digits by exact arithmetic (util/double-conversion/bignum-dtoa.cc). */
module BignumDtoa {
  import Limbs
  import Powers
  import opened Bignums
  import opened Shortest

  // Different objects with different limb arrays.
  predicate Separate(a: Bignum, b: Bignum)
  {
    a != b && a.bigits != b.bigits
  }

  predicate AllSeparate(a: Bignum, b: Bignum, c: Bignum, d: Bignum)
  {
    Separate(a, b) && Separate(a, c) && Separate(a, d) && Separate(b, c) && Separate(b, d) && Separate(c, d)
  }

  ghost function IntervalOf(numerator: Bignum, denominator: Bignum, minus: Bignum, plus: Bignum, even: bool): Interval
    reads numerator, numerator.bigits, denominator, denominator.bigits, minus, minus.bigits, plus, plus.bigits
  {
    Interval(numerator.Value(), denominator.Value(), minus.Value(), plus.Value(), even)
  }

  // What is at most the denominator has room left to be multiplied by ten.
  lemma TimesTenFits(a: Bignum, denominator: Bignum)
    requires a.Canonical() && denominator.Canonical() && denominator.BigitLength() < Limbs.CAPACITY
    requires a.Value() <= denominator.Value()
    ensures a.used < Limbs.CAPACITY
  {
    if denominator.BigitLength() < a.BigitLength() { denominator.LongerIsBigger(a); }
  }

  method GenerateShortestDigits(numerator: Bignum, denominator: Bignum, deltaMinus: Bignum, deltaPlus: Bignum,
                                isEven: bool)
    returns (buffer: seq<nat>)
    requires AllSeparate(numerator, denominator, deltaMinus, deltaPlus)
    requires numerator.Canonical() && denominator.Canonical() && deltaMinus.Canonical() && deltaPlus.Canonical()
    requires Bounded(IntervalOf(numerator, denominator, deltaMinus, deltaPlus, isEven))
    requires denominator.BigitLength() < Limbs.CAPACITY
    modifies numerator, numerator.bigits, deltaMinus, deltaMinus.bigits, deltaPlus, deltaPlus.bigits
    ensures IsShortest(old(IntervalOf(numerator, denominator, deltaMinus, deltaPlus, isEven)), buffer)
  {
    var plus := deltaPlus;
    var same := Bignum.Equal(deltaMinus, deltaPlus);
    if same { plus := deltaMinus; }
    buffer := DigitLoop(IntervalOf(numerator, denominator, deltaMinus, deltaPlus, isEven),
                        numerator, denominator, deltaMinus, plus, isEven);
  }

  // The loop itself; the two deltas may be one object.
  method DigitLoop(ghost v: Interval, numerator: Bignum, denominator: Bignum, minus: Bignum, plus: Bignum, isEven: bool)
    returns (buffer: seq<nat>)
    requires Separate(numerator, denominator) && Separate(numerator, minus) && Separate(numerator, plus)
    requires Separate(denominator, minus) && Separate(denominator, plus) && (minus == plus || Separate(minus, plus))
    requires numerator.Canonical() && denominator.Canonical() && minus.Canonical() && plus.Canonical()
    requires v == IntervalOf(numerator, denominator, minus, plus, isEven) && Bounded(v)
    requires denominator.BigitLength() < Limbs.CAPACITY
    modifies numerator, numerator.bigits, minus, minus.bigits, plus, plus.bigits
    ensures IsShortest(v, buffer)
  {
    buffer := [];
    var done := false;
    while !done
      invariant if done then IsShortest(v, buffer) else Looping(v, buffer, numerator, denominator, minus, plus)
      decreases !done, v.d - minus.Value()
    {
      done, buffer := DigitRound(v, buffer, numerator, denominator, minus, plus, isEven);
    }
  }

  ghost predicate Looping(v: Interval, buffer: seq<nat>, numerator: Bignum, denominator: Bignum, minus: Bignum,
                          plus: Bignum)
    reads numerator, numerator.bigits, denominator, denominator.bigits, minus, minus.bigits, plus, plus.bigits
  {
    && numerator.Canonical() && denominator.Canonical() && minus.Canonical() && plus.Canonical()
    && denominator.Value() == v.d && denominator.BigitLength() < Limbs.CAPACITY
    && AtDigit(v, |buffer|, numerator.Value(), minus.Value(), plus.Value())
    && buffer == DigitsOf(v.n, v.d, |buffer|) && Powers.IsDigits(buffer)
  }

  // One round of the loop.
  method DigitRound(ghost v: Interval, start: seq<nat>, numerator: Bignum, denominator: Bignum, minus: Bignum,
                    plus: Bignum, isEven: bool)
    returns (done: bool, buffer: seq<nat>)
    requires Separate(numerator, denominator) && Separate(numerator, minus) && Separate(numerator, plus)
    requires Separate(denominator, minus) && Separate(denominator, plus) && (minus == plus || Separate(minus, plus))
    requires Looping(v, start, numerator, denominator, minus, plus) && isEven == v.even
    modifies numerator, numerator.bigits, minus, minus.bigits, plus, plus.bigits
    ensures done ==> IsShortest(v, buffer)
    ensures !done ==> Looping(v, buffer, numerator, denominator, minus, plus)
    ensures !done ==> old(minus.Value()) < minus.Value() && old(minus.Value()) <= v.d
  {
    ghost var k := |start|;
    var digit, inMinus, inPlus := DigitAndRooms(v, k, numerator, denominator, minus, plus, isEven);
    buffer := start + [digit];
    if inMinus || inPlus {
      buffer := RoundLast(v, k, buffer, numerator, denominator, inMinus, inPlus);
      return true, buffer;
    }
    Continue(v, k, buffer, numerator, denominator, minus, plus);
    done := false;
  }

  method Continue(ghost v: Interval, ghost k: nat, ghost buffer: seq<nat>, numerator: Bignum, denominator: Bignum,
                  minus: Bignum, plus: Bignum)
    requires Separate(numerator, denominator) && Separate(numerator, minus) && Separate(numerator, plus)
    requires Separate(denominator, minus) && Separate(denominator, plus) && (minus == plus || Separate(minus, plus))
    requires numerator.Canonical() && denominator.Canonical() && minus.Canonical() && plus.Canonical()
    requires denominator.Value() == v.d && denominator.BigitLength() < Limbs.CAPACITY
    requires v.d > 0 && AtDigit(v, k, Head(v.n, v.d, k), minus.Value(), plus.Value()) && !StopsAt(v, k)
    requires numerator.Value() == Rest(v.n, v.d, k) && buffer == DigitsOf(v.n, v.d, k + 1) && Powers.IsDigits(buffer)
    modifies numerator, numerator.bigits, minus, minus.bigits, plus, plus.bigits
    ensures Looping(v, buffer, numerator, denominator, minus, plus)
    ensures old(minus.Value()) < minus.Value() && old(minus.Value()) <= v.d
  {
    NextDigit(v, k);
    ScaleUp(numerator, denominator, minus, plus);
  }

  // A digit, and whether the loop may stop after it.
  method DigitAndRooms(ghost v: Interval, ghost k: nat, numerator: Bignum, denominator: Bignum, minus: Bignum,
                       plus: Bignum, isEven: bool)
    returns (digit: nat, inMinus: bool, inPlus: bool)
    requires Separate(numerator, denominator) && Separate(numerator, minus) && Separate(numerator, plus)
    requires numerator.Canonical() && denominator.Canonical() && minus.Canonical() && plus.Canonical()
    requires denominator.Value() == v.d && isEven == v.even
    requires AtDigit(v, k, numerator.Value(), minus.Value(), plus.Value())
    requires denominator.BigitLength() < Limbs.CAPACITY
    modifies numerator, numerator.bigits
    ensures numerator.Canonical() && numerator.Value() == Rest(v.n, v.d, k)
    ensures digit == Quot(Head(v.n, v.d, k), v.d) <= 9
    ensures inMinus == RoomMinus(v.even, Rest(v.n, v.d, k), Tens(v.minus, k))
    ensures inPlus == RoomPlus(v.even, Rest(v.n, v.d, k), Tens(v.plus, k), v.d)
  {
    digit := GenerateDigit(v, k, numerator, denominator);
    inMinus, inPlus := InRooms(numerator, denominator, minus, plus, isEven);
  }

  // Where the loop stands before digit k: the bignums, and that no earlier digit could stop it.
  ghost predicate AtDigit(v: Interval, k: nat, numerator: nat, minus: nat, plus: nat)
  {
    && Bounded(v)
    && numerator == Head(v.n, v.d, k) && minus == Tens(v.minus, k) && plus == Tens(v.plus, k)
    && HeadBound(v, k) && NoStopBefore(v, k)
  }

  lemma NextDigit(v: Interval, k: nat)
    requires Bounded(v)
    requires AtDigit(v, k, Head(v.n, v.d, k), Tens(v.minus, k), Tens(v.plus, k)) && !StopsAt(v, k)
    ensures AtDigit(v, k + 1, 10 * Rest(v.n, v.d, k), 10 * Tens(v.minus, k), 10 * Tens(v.plus, k))
    ensures 0 < Tens(v.minus, k) <= v.d && Tens(v.plus, k) <= v.d && Rest(v.n, v.d, k) < v.d
  {
    HeadBoundNext(v, k);
    TensPositive(v.minus, k);
  }

  // Prepare for the next digit. The deltas may be one object; it is scaled once.
  method ScaleUp(numerator: Bignum, denominator: Bignum, minus: Bignum, plus: Bignum)
    requires Separate(numerator, minus) && Separate(numerator, plus) && (minus == plus || Separate(minus, plus))
    requires numerator.Canonical() && denominator.Canonical() && minus.Canonical() && plus.Canonical()
    requires numerator.Value() <= denominator.Value()
    requires minus.Value() <= denominator.Value() && plus.Value() <= denominator.Value()
    requires denominator.BigitLength() < Limbs.CAPACITY
    modifies numerator, numerator.bigits, minus, minus.bigits, plus, plus.bigits
    ensures numerator.Canonical() && minus.Canonical() && plus.Canonical()
    ensures numerator.Value() == 10 * old(numerator.Value())
    ensures minus.Value() == 10 * old(minus.Value()) && plus.Value() == 10 * old(plus.Value())
  {
    TimesTenFits(numerator, denominator);
    TimesTenFits(minus, denominator);
    TimesTenFits(plus, denominator);
    numerator.Times10();
    minus.Times10();
    if minus != plus {
      plus.Times10();
    }
  }

  method GenerateDigit(ghost v: Interval, ghost k: nat, numerator: Bignum, denominator: Bignum) returns (digit: nat)
    requires Separate(numerator, denominator) && numerator.Canonical() && denominator.Canonical()
    requires Bounded(v) && HeadBound(v, k) && numerator.Value() == Head(v.n, v.d, k) && denominator.Value() == v.d
    requires denominator.BigitLength() < Limbs.CAPACITY
    modifies numerator, numerator.bigits
    ensures numerator.Canonical() && numerator.Value() == Rest(v.n, v.d, k)
    ensures digit == Quot(Head(v.n, v.d, k), v.d) <= 9
  {
    DigitFits(v, k);
    denominator.Magnitude();
    numerator.UsedBound(denominator.BigitLength() + 1);
    QuotModIs(numerator.Value(), v.d);
    digit := numerator.DivideModuloIntBignum(denominator);
  }

  method InRooms(numerator: Bignum, denominator: Bignum, minus: Bignum, plus: Bignum, isEven: bool)
      returns (inMinus: bool, inPlus: bool)
    requires numerator.Canonical() && denominator.Canonical() && minus.Canonical() && plus.Canonical()
    ensures inMinus <==> RoomMinus(isEven, numerator.Value(), minus.Value())
    ensures inPlus <==> RoomPlus(isEven, numerator.Value(), plus.Value(), denominator.Value())
  {
    if isEven {
      inMinus := Bignum.LessEqual(numerator, minus);
    } else {
      inMinus := Bignum.Less(numerator, minus);
    }
    var compare := Bignum.PlusCompare(numerator, plus, denominator);
    inPlus := if isEven then compare >= 0 else compare > 0;
  }

  method RoundLast(ghost v: Interval, ghost k: nat, start: seq<nat>, numerator: Bignum, denominator: Bignum,
                   inMinus: bool, inPlus: bool)
    returns (buffer: seq<nat>)
    requires numerator.Canonical() && denominator.Canonical() && denominator.Value() == v.d
    requires Bounded(v) && HeadBound(v, k) && StopsAt(v, k) && NoStopBefore(v, k)
    requires start == DigitsOf(v.n, v.d, k + 1) && Powers.IsDigits(start) && numerator.Value() == Rest(v.n, v.d, k)
    requires inMinus == RoomMinus(v.even, Rest(v.n, v.d, k), Tens(v.minus, k))
    requires inPlus == RoomPlus(v.even, Rest(v.n, v.d, k), Tens(v.plus, k), v.d)
    ensures IsShortest(v, buffer)
  {
    var up;
    if inMinus && inPlus {
      var compare := Bignum.PlusCompare(numerator, numerator, denominator);
      if compare < 0 {
        up := false;
      } else if compare > 0 {
        up := true;
      } else {
        up := start[|start| - 1] % 2 != 0;
      }
    } else {
      up := inPlus;
    }
    assert start[k] == Quot(Head(v.n, v.d, k), v.d);
    DigitFits(v, k);
    assert up == RoundsUp(v, k);
    buffer := start;
    if up {
      buffer := start[|start| - 1 := start[|start| - 1] + 1];
      assert buffer[..|buffer| - 1] == start[..|start| - 1];
    }
    Finish(v, k, buffer);
  }
}

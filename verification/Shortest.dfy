/** What "shortest" and "closest" mean for a rational value with room on both sides, and why
    generating digits from the left until one fits is right (bignum-dtoa.cc:172-274). */
module Shortest {
  import opened Limbs
  import opened Powers

  /** The value n/d, which may be rounded down by minus/d and up by plus/d; the ends belong
      to the interval exactly when `even`. */
  datatype Interval = Interval(n: nat, d: nat, minus: nat, plus: nat, even: bool)

  // x * 10^k.
  function Tens(x: nat, k: nat): nat
  {
    if k == 0 then x else 10 * Tens(x, k - 1)
  }

  // c / 10^j lies in the interval.
  ghost predicate Holds(v: Interval, c: nat, j: nat)
  {
    var x := c * v.d;
    if v.even then Tens(v.n, j) <= x + Tens(v.minus, j) && x <= Tens(v.n, j) + Tens(v.plus, j)
    else Tens(v.n, j) < x + Tens(v.minus, j) && x < Tens(v.n, j) + Tens(v.plus, j)
  }

  // How far c / 10^j is from the value, in units of 1 / (d * 10^j).
  ghost function Distance(v: Interval, c: nat, j: nat): nat
  {
    if c * v.d <= Tens(v.n, j) then Tens(v.n, j) - c * v.d else c * v.d - Tens(v.n, j)
  }

  // c is even, unless no other candidate of this length is as close.
  ghost predicate EvenTies(v: Interval, c: nat, j: nat)
  {
    c % 2 == 0 || forall c' :: Holds(v, c', j) && c' != c ==> Distance(v, c', j) != Distance(v, c, j)
  }

  /** The digits d1.d2d3... lie in the interval, no shorter decimal does, and none of the same
      length in the interval is closer to the value; of two that are equally close, the even one. */
  ghost predicate IsShortest(v: Interval, digits: seq<nat>)
  {
    && digits != [] && IsDigits(digits)
    && var k := |digits| - 1;
       && Holds(v, Decimal(digits), k)
       && (forall c, j :: 0 <= j < k ==> !Holds(v, c, j))
       && (forall c :: Holds(v, c, k) ==> Distance(v, Decimal(digits), k) <= Distance(v, c, k))
       && EvenTies(v, Decimal(digits), k)
  }

  /** The parity-aware bound under which the first digit cannot overflow. */
  predicate Bounded(v: Interval)
  {
    && v.d > 0 && v.minus > 0 && v.plus > 0
    && if v.even then v.n + v.plus < 10 * v.d else v.n + v.plus <= 10 * v.d
  }

  // ------------------------------------------------- long division in base ten

  // Division by repeated subtraction.
  function Quot(h: nat, d: nat): nat
    requires d > 0
    decreases h
  {
    if h < d then 0 else 1 + Quot(h - d, d)
  }

  lemma {:induction false} QuotMod(h: nat, d: nat)
    requires d > 0
    ensures h == Quot(h, d) * d + Rem(h, d)
    decreases h
  {
    if h >= d {
      QuotMod(h - d, d);
      SumScale(1, Quot(h - d, d), d);
    }
  }

  lemma QuotModIs(h: nat, d: nat)
    requires d > 0
    ensures Quot(h, d) == h / d && Rem(h, d) == h % d
  {
    QuotMod(h, d);
    DivisionUnique(h, d, Quot(h, d), Rem(h, d));
    assert h == d * (h / d) + h % d;
  }

  // The numerator before digit k is divided off.
  function Head(n: nat, d: nat, k: nat): nat
    requires d > 0
  {
    if k == 0 then n else 10 * Rem(Head(n, d, k - 1), d)
  }

  function DigitsOf(n: nat, d: nat, k: nat): (s: seq<nat>)
    requires d > 0
    ensures |s| == k
  {
    if k == 0 then [] else DigitsOf(n, d, k - 1) + [Quot(Head(n, d, k - 1), d)]
  }

  function Rest(n: nat, d: nat, k: nat): (r: nat)
    requires d > 0
    ensures r < d
  {
    Rem(Head(n, d, k), d)
  }

  // The number spelled by the first k+1 digits.
  function Spelled(n: nat, d: nat, k: nat): nat
    requires d > 0
  {
    Decimal(DigitsOf(n, d, k + 1))
  }

  lemma SpelledStep(n: nat, d: nat, k: nat)
    requires d > 0
    ensures Spelled(n, d, k) == (if k == 0 then 0 else 10 * Spelled(n, d, k - 1)) + Quot(Head(n, d, k), d)
  {
    var s := DigitsOf(n, d, k + 1);
    assert s[..|s| - 1] == DigitsOf(n, d, k) && s[|s| - 1] == Quot(Head(n, d, k), d);
    assert Decimal(s) == 10 * Decimal(s[..|s| - 1]) + s[|s| - 1];
    if k == 0 { assert s[..|s| - 1] == []; } else { assert (k - 1) + 1 == k; }
  }

  lemma {:induction false} LongDivision(n: nat, d: nat, k: nat)
    requires d > 0
    ensures Spelled(n, d, k) * d + Rest(n, d, k) == Tens(n, k)
  {
    SpelledStep(n, d, k);
    var h := Head(n, d, k);
    if k == 0 {
      DivisionStep(0, h, d);
    } else {
      LongDivision(n, d, k - 1);
      DivisionStep(Spelled(n, d, k - 1), h, d);
    }
  }

  lemma DivisionStep(c: nat, h: nat, d: nat)
    requires d > 0
    ensures (10 * c + Quot(h, d)) * d + Rem(h, d) == 10 * (c * d) + h
  {
    QuotMod(h, d);
    SumScale(10 * c, Quot(h, d), d);
    MulAssociative(10, c, d);
  }

  // ---------------------------------------------------------- when to stop

  predicate RoomMinus(even: bool, rest: nat, minus: nat)
  {
    if even then rest <= minus else rest < minus
  }

  predicate RoomPlus(even: bool, rest: nat, plus: nat, d: nat)
  {
    if even then rest + plus >= d else rest + plus > d
  }

  predicate StopsAt(v: Interval, k: nat)
    requires v.d > 0
  {
    RoomMinus(v.even, Rest(v.n, v.d, k), Tens(v.minus, k)) || RoomPlus(v.even, Rest(v.n, v.d, k), Tens(v.plus, k), v.d)
  }

  predicate NoStopBefore(v: Interval, k: nat)
    requires v.d > 0
  {
    k == 0 || (NoStopBefore(v, k - 1) && !StopsAt(v, k - 1))
  }

  lemma {:induction false} TensPositive(x: nat, k: nat)
    requires x > 0
    ensures Tens(x, k) > 0
  {
    if k > 0 { TensPositive(x, k - 1); }
  }

  // Multiples of d at or below c, or above it.
  lemma MultipleOrder(c: nat, c': nat, d: nat)
    requires c <= c'
    ensures c * d <= c' * d
  {
    MulBound(c, d, c', d);
  }

  /** If neither neighbour fits, nothing of this length does. */
  lemma NothingFits(v: Interval, k: nat, c: nat)
    requires v.d > 0 && !StopsAt(v, k)
    ensures !Holds(v, c, k)
  {
    var s := Spelled(v.n, v.d, k);
    LongDivision(v.n, v.d, k);
    SumScale(s, 1, v.d);
    if c <= s { MultipleOrder(c, s, v.d); } else { MultipleOrder(s + 1, c, v.d); }
  }

  lemma DownFits(v: Interval, k: nat)
    requires v.d > 0 && v.plus > 0
    requires RoomMinus(v.even, Rest(v.n, v.d, k), Tens(v.minus, k))
    ensures Holds(v, Spelled(v.n, v.d, k), k)
  {
    LongDivision(v.n, v.d, k);
    TensPositive(v.plus, k);
  }

  lemma UpFits(v: Interval, k: nat)
    requires v.d > 0 && v.minus > 0
    requires RoomPlus(v.even, Rest(v.n, v.d, k), Tens(v.plus, k), v.d)
    ensures Holds(v, Spelled(v.n, v.d, k) + 1, k)
  {
    LongDivision(v.n, v.d, k);
    TensPositive(v.minus, k);
    SumScale(Spelled(v.n, v.d, k), 1, v.d);
  }

  // Whether the last digit is incremented once the loop stops.
  predicate RoundsUp(v: Interval, k: nat)
    requires v.d > 0
  {
    var r := Rest(v.n, v.d, k);
    var minus, plus := RoomMinus(v.even, r, Tens(v.minus, k)), RoomPlus(v.even, r, Tens(v.plus, k), v.d);
    plus && (!minus || 2 * r > v.d || (2 * r == v.d && Quot(Head(v.n, v.d, k), v.d) % 2 == 1))
  }

  function Chosen(v: Interval, k: nat): nat
    requires v.d > 0
  {
    Spelled(v.n, v.d, k) + (if RoundsUp(v, k) then 1 else 0)
  }

  lemma ChosenFits(v: Interval, k: nat)
    requires v.d > 0 && v.minus > 0 && v.plus > 0 && StopsAt(v, k)
    ensures Holds(v, Chosen(v, k), k)
  {
    if RoundsUp(v, k) { UpFits(v, k); } else { DownFits(v, k); }
  }

  /** Among the decimals of this length in the interval the chosen one is closest. */
  lemma ChosenClosest(v: Interval, k: nat, c: nat)
    requires v.d > 0 && StopsAt(v, k) && Holds(v, c, k)
    ensures Distance(v, Chosen(v, k), k) <= Distance(v, c, k)
  {
    var s, r := Spelled(v.n, v.d, k), Rest(v.n, v.d, k);
    LongDivision(v.n, v.d, k);
    SumScale(s, 1, v.d);
    if c <= s {
      MultipleOrder(c, s, v.d);
      assert Distance(v, c, k) >= r && RoomMinus(v.even, r, Tens(v.minus, k));
    } else {
      MultipleOrder(s + 1, c, v.d);
      assert Distance(v, c, k) >= v.d - r && RoomPlus(v.even, r, Tens(v.plus, k), v.d);
    }
  }

  /** Half way between two candidates the chosen one is even. */
  lemma ChosenEven(v: Interval, k: nat)
    requires v.d > 0 && StopsAt(v, k)
    ensures EvenTies(v, Chosen(v, k), k)
  {
    forall c | Holds(v, c, k) && c != Chosen(v, k) && Distance(v, c, k) == Distance(v, Chosen(v, k), k)
      ensures Chosen(v, k) % 2 == 0
    {
      TieIsEven(v, k, c);
    }
  }

  lemma TieIsEven(v: Interval, k: nat, c: nat)
    requires v.d > 0 && StopsAt(v, k) && Holds(v, c, k) && c != Chosen(v, k)
    requires Distance(v, c, k) == Distance(v, Chosen(v, k), k)
    ensures Chosen(v, k) % 2 == 0
  {
    var s, r, digit := Spelled(v.n, v.d, k), Rest(v.n, v.d, k), Quot(Head(v.n, v.d, k), v.d);
    var minus, plus := RoomMinus(v.even, r, Tens(v.minus, k)), RoomPlus(v.even, r, Tens(v.plus, k), v.d);
    SameParity(v.n, v.d, k);
    var sd, cd := FitsOnItsSide(v, k, c);
    ChosenDistance(v, k);
    TieDecides(RoundsUp(v, k), minus, plus, digit, s, c, v.d, r, sd, cd);
  }

  lemma ChosenDistance(v: Interval, k: nat)
    requires v.d > 0
    ensures Distance(v, Chosen(v, k), k) == if RoundsUp(v, k) then v.d - Rest(v.n, v.d, k) else Rest(v.n, v.d, k)
  {
    LongDivision(v.n, v.d, k);
    SumScale(Spelled(v.n, v.d, k), 1, v.d);
  }

  // A candidate shows room on its side of the value.
  lemma FitsOnItsSide(v: Interval, k: nat, c: nat) returns (sd: nat, cd: nat)
    requires v.d > 0 && Holds(v, c, k)
    ensures var s, r := Spelled(v.n, v.d, k), Rest(v.n, v.d, k);
      && (if c <= s then RoomMinus(v.even, r, Tens(v.minus, k)) else RoomPlus(v.even, r, Tens(v.plus, k), v.d))
      && Apart(c, s, v.d, sd, cd)
      && Distance(v, c, k) == if cd <= sd + r then sd + r - cd else cd - (sd + r)
  {
    var s := Spelled(v.n, v.d, k);
    LongDivision(v.n, v.d, k);
    sd, cd := s * v.d, c * v.d;
    Neighbours(c, s, v.d, sd, cd);
  }

  // Where cd, c times d, is, seen from sd, s times d.
  predicate Apart(c: nat, s: nat, d: nat, sd: nat, cd: nat)
  {
    && (c < s ==> cd + d <= sd) && (c == s ==> cd == sd) && (c == s + 1 ==> cd == sd + d)
    && (c > s + 1 ==> cd >= sd + d + d)
  }

  lemma SameParity(n: nat, d: nat, k: nat)
    requires d > 0
    ensures Spelled(n, d, k) % 2 == Quot(Head(n, d, k), d) % 2
  {
    SpelledStep(n, d, k);
    LastDigitParity(if k == 0 then 0 else Spelled(n, d, k - 1), Quot(Head(n, d, k), d));
  }

  lemma LastDigitParity(x: nat, digit: nat)
    ensures (10 * x + digit) % 2 == digit % 2
  {
  }

  // With multiples sd and cd of the denominator and the remainder r of the value.
  lemma TieDecides(up: bool, minus: bool, plus: bool, digit: nat, s: nat, c: nat, d: nat, r: nat, sd: nat, cd: nat)
    requires r < d && (minus || plus) && s % 2 == digit % 2
    requires up == (plus && (!minus || 2 * r > d || (2 * r == d && digit % 2 == 1)))
    requires if c <= s then minus else plus
    requires Apart(c, s, d, sd, cd)
    requires c != (if up then s + 1 else s)
    requires (if cd <= sd + r then sd + r - cd else cd - (sd + r)) == if up then d - r else r
    ensures (if up then s + 1 else s) % 2 == 0
  {
  }

  lemma Neighbours(c: nat, s: nat, d: nat, sd: nat, cd: nat)
    requires sd == s * d && cd == c * d
    ensures Apart(c, s, d, sd, cd)
  {
    if c < s { BelowNeighbour(c, s, d); }
    SumScale(s, 1, d);
    if c > s + 1 { BelowNeighbour(s + 1, c, d); }
  }

  lemma BelowNeighbour(c: nat, s: nat, d: nat)
    requires c < s
    ensures c * d + d <= s * d
  {
    MultipleOrder(c + 1, s, d);
    SumScale(c, 1, d);
  }

  // ------------------------------------------------------- digits stay digits

  /** The bound on the first digit, kept from digit to digit while the loop goes on. */
  predicate HeadBound(v: Interval, k: nat)
    requires v.d > 0
  {
    var h, plus := Head(v.n, v.d, k), Tens(v.plus, k);
    if v.even then h + plus < 10 * v.d else h + plus <= 10 * v.d
  }

  lemma HeadBoundNext(v: Interval, k: nat)
    requires v.d > 0 && HeadBound(v, k) && !StopsAt(v, k)
    ensures HeadBound(v, k + 1)
  {
  }

  /** No digit exceeds 9, and a digit that is rounded up is not a 9. */
  lemma DigitFits(v: Interval, k: nat)
    requires v.d > 0 && v.plus > 0 && HeadBound(v, k)
    ensures Head(v.n, v.d, k) < 10 * v.d && Quot(Head(v.n, v.d, k), v.d) <= 9
    ensures RoundsUp(v, k) ==> Quot(Head(v.n, v.d, k), v.d) <= 8
  {
    var h := Head(v.n, v.d, k);
    TensPositive(v.plus, k);
    QuotMod(h, v.d);
    DigitBelow(h, v.d, Quot(h, v.d), Rem(h, v.d), Tens(v.plus, k), v.even);
  }

  // A head below ten times the denominator, with room to spare.
  lemma DigitBelow(h: nat, d: nat, q: nat, r: nat, plus: nat, even: bool)
    requires h == q * d + r && r < d && plus > 0 && if even then h + plus < 10 * d else h + plus <= 10 * d
    ensures h < 10 * d && q <= 9 && (RoomPlus(even, r, plus, d) ==> q <= 8)
  {
    if q >= 9 { MultipleOrder(9, q, d); }
    if q >= 10 { MultipleOrder(10, q, d); }
  }

  lemma {:induction false} EarlierStop(v: Interval, j: nat, k: nat)
    requires v.d > 0 && j < k && NoStopBefore(v, k)
    ensures !StopsAt(v, j)
  {
    if j < k - 1 { EarlierStop(v, j, k - 1); }
  }

  /** The digits the loop leaves behind are the shortest ones. */
  lemma Finish(v: Interval, k: nat, digits: seq<nat>)
    requires Bounded(v) && StopsAt(v, k) && HeadBound(v, k)
    requires NoStopBefore(v, k)
    requires |digits| == k + 1 && IsDigits(digits) && Decimal(digits) == Chosen(v, k)
    ensures IsShortest(v, digits)
  {
    ChosenFits(v, k);
    ChosenEven(v, k);
    forall c, j | 0 <= j < k ensures !Holds(v, c, j) {
      EarlierStop(v, j, k);
      NothingFits(v, j, c);
    }
    forall c | Holds(v, c, k) ensures Distance(v, Chosen(v, k), k) <= Distance(v, c, k) {
      ChosenClosest(v, k, c);
    }
  }

  // ---------------------------------------------------- significant digits

  /** The value is scaled so that its first digit is not zero: 1 <= (n + plus) / d, and the
      interval does not reach down to zero. */
  predicate Scaled(v: Interval)
  {
    && v.minus < v.n
    && if v.even then v.d <= v.n + v.plus else v.d < v.n + v.plus || v.d <= v.n
  }

  /** Shortest in significant digits: whatever the position of the decimal point, a decimal
      c * 10^-j with fewer digits than the result is outside the interval. */
  lemma FewerDigitsMiss(v: Interval, digits: seq<nat>, c: nat, j: nat, p: nat)
    requires Bounded(v) && Scaled(v) && IsShortest(v, digits)
    requires c < Pow(10, p) && p < |digits|
    ensures !Holds(v, c, j)
  {
    if j < |digits| - 1 {
    } else if Holds(v, c, j) {
      // c / 10^j is below 1, so 1 would lie in the interval and one digit would do.
      PowMonotone(10, p, j);
      BelowOne(v, c, j);
      assert |digits| == 1;
      assert Pow(10, p) == 1;
      ZeroMisses(v, j);
    }
  }

  lemma {:induction false} TensIs(x: nat, j: nat)
    ensures Tens(x, j) == Pow(10, j) * x
  {
    if j > 0 {
      TensIs(x, j - 1);
      MulAssociative(10, Pow(10, j - 1), x);
    }
  }

  lemma {:induction false} TensOrder(x: nat, y: nat, j: nat)
    ensures x < y <==> Tens(x, j) < Tens(y, j)
    ensures x <= y <==> Tens(x, j) <= Tens(y, j)
    ensures Tens(x + y, j) == Tens(x, j) + Tens(y, j)
  {
    if j > 0 { TensOrder(x, y, j - 1); }
  }

  lemma ZeroMisses(v: Interval, j: nat)
    requires v.minus < v.n
    ensures !Holds(v, 0, j)
  {
    TensOrder(v.minus, v.n, j);
    assert 0 * v.d == 0;
  }

  lemma BelowOne(v: Interval, c: nat, j: nat)
    requires v.d > 0 && v.plus > 0 && Scaled(v) && c < Pow(10, j) && Holds(v, c, j)
    ensures Holds(v, 1, 0)
  {
    var x := c * v.d;
    TensIs(v.d, j);
    MulStrict(c, Pow(10, j), v.d);
    assert x < Tens(v.d, j);
    TensOrder(v.n, v.d + v.minus, j);
    TensOrder(v.d, v.minus, j);
    TensOrder(v.n, v.d, j);
  }
}

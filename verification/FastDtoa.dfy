/** Grisu3's digit generation (util/double-conversion/fast-dtoa.cc:61-166, 240-259, 303-397):
    64-bit arithmetic on numbers that are known to within one unit in the last place. */
module FastDtoa {
  import opened Limbs
  import opened Powers
  import opened Reals
  import opened Grisu

  // ------------------------------------------------------- BiggestPowerTen

  // kSmallPowersOfTen.
  function Small(i: nat): u32
    requires i <= 10
  {
    [0, 1, 10, 100, 1000, 10000, 100000, 1000000, 10000000, 100000000, 1000000000][i]
  }

  lemma SmallStep(i: nat)
    requires 1 <= i < 10
    ensures Small(i + 1) == 10 * Small(i)
  {
  }

  lemma {:induction false} SmallIs(i: nat)
    requires 1 <= i <= 10
    ensures Small(i) == Pow(10, i - 1)
  {
    if i > 1 {
      SmallIs(i - 1);
      SmallStep(i - 1);
    }
  }

  function Guess(bits: nat): nat
  {
    (bits + 1) * 1233 / 4096 + 1
  }

  // The guess is never too small.
  lemma GuessBound(bits: nat)
    requires bits <= 32
    ensures 1 <= Guess(bits) <= 10 && Pow(2, bits + 1) <= 10 * Small(Guess(bits))
  {
    var top := if bits < 3 then 3 else if bits < 6 then 6 else if bits < 9 then 9 else if bits < 13 then 13
      else if bits < 16 then 16 else if bits < 19 then 19 else if bits < 23 then 23 else if bits < 26 then 26
      else if bits < 29 then 29 else if bits < 33 then 33 else 0;
    PowMonotone(2, bits + 1, top);
    PowersOfTwo();
  }

  lemma PowersOfTwo()
    ensures Pow(2, 3) == 8 && Pow(2, 6) == 64 && Pow(2, 9) == 512 && Pow(2, 13) == 8192 && Pow(2, 16) == 65536
    ensures Pow(2, 19) == 524288 && Pow(2, 23) == 8388608 && Pow(2, 26) == 67108864 && Pow(2, 29) == 536870912
    ensures Pow(2, 32) == 0x1_0000_0000 && Pow(2, 33) == 8589934592 && Pow(2, 60) == 0x1000_0000_0000_0000
    ensures Pow(2, 64) == 0x1_0000_0000_0000_0000
  {
    PowAdd(2, 3, 3);
    PowAdd(2, 6, 3);
    PowAdd(2, 7, 6);
    PowAdd(2, 13, 3);
    PowAdd(2, 16, 3);
    PowAdd(2, 16, 7);
    PowAdd(2, 23, 3);
    PowAdd(2, 26, 3);
    PowAdd(2, 16, 16);
    PowAdd(2, 32, 1);
    PowAdd(2, 32, 28);
    PowAdd(2, 26, 2);
    PowAdd(2, 32, 32);
  }

  /** The biggest power of ten that is at most the number. */
  method BiggestPowerTen(number: u32, bits: nat) returns (power: u32, exponentPlusOne: nat)
    requires bits <= 32 && number < Pow(2, bits + 1)
    ensures number == 0 ==> power == 0 && exponentPlusOne == 0
    ensures number > 0 ==>
      1 <= exponentPlusOne <= 10 && power == Pow(10, exponentPlusOne - 1) && power <= number < 10 * power
  {
    GuessBound(bits);
    exponentPlusOne := Guess(bits);
    while number < Small(exponentPlusOne)
      invariant exponentPlusOne <= 10 && (exponentPlusOne == 0 ==> number == 0)
      invariant exponentPlusOne > 0 ==> number < 10 * Small(exponentPlusOne)
    {
      if exponentPlusOne > 1 { SmallStep(exponentPlusOne - 1); }
      exponentPlusOne := exponentPlusOne - 1;
    }
    power := Small(exponentPlusOne);
    if exponentPlusOne > 0 { SmallIs(exponentPlusOne); }
  }

  // --------------------------------------------------------------- RoundWeed

  // While the buffer is above w, lower its last digit. Never below zero.
  method LowerLast(buffer: seq<nat>, small: u64, interval: u64, rest0: u64, tenKappa: u64, ghost prev: nat)
      returns (buffer': seq<nat>, rest: u64)
    requires IsDigits(buffer) && Last(buffer, tenKappa, prev, rest0)
    requires rest0 < tenKappa && rest0 <= interval <= prev
    ensures |buffer'| == |buffer| && IsDigits(buffer') && buffer'[..|buffer| - 1] == buffer[..|buffer| - 1]
    ensures Last(buffer', tenKappa, prev, rest) && rest <= interval && Settled(rest, tenKappa, small, interval)
  {
    buffer', rest := buffer, rest0;
    var n := |buffer| - 1;
    while true
      invariant |buffer'| == |buffer| && IsDigits(buffer') && buffer'[..n] == buffer[..n]
      invariant Last(buffer', tenKappa, prev, rest) && rest <= interval
      invariant rest < tenKappa || (rest - tenKappa < small && (rest < small || 2 * rest - tenKappa <= 2 * small))
      decreases interval - rest
    {
      if rest >= small { break; }
      var room: u64 := interval - rest;
      if room < tenKappa { break; }
      var next: u64 := rest + tenKappa;
      if next >= small {
        var above: u64, below: u64 := small - rest, next - small;
        if above < below { break; }
      }
      DigitLeft(buffer'[n], tenKappa, prev, rest, interval);
      LowerDigit(buffer'[n], tenKappa, rest);
      buffer' := buffer'[n := buffer'[n] - 1];
      rest := next;
    }
  }

  /** Success exactly if the number is safely inside and no neighbour is closer to anything w may be. */
  method RoundWeed(buffer: seq<nat>, distanceTooHighW: u64, unsafeInterval: u64, rest0: u64, tenKappa: u64, unit: u64,
                   ghost prev: nat)
      returns (ok: bool, buffer': seq<nat>, rest: u64)
    requires IsDigits(buffer) && Last(buffer, tenKappa, prev, rest0)
    requires rest0 < tenKappa && rest0 < unsafeInterval <= prev
    requires unit <= distanceTooHighW && distanceTooHighW + unit <= unsafeInterval && 4 * unit <= unsafeInterval
    ensures |buffer'| == |buffer| && IsDigits(buffer') && buffer'[..|buffer| - 1] == buffer[..|buffer| - 1]
    ensures Last(buffer', tenKappa, prev, rest)
    ensures Settled(rest, tenKappa, distanceTooHighW - unit, unsafeInterval)
    ensures ok <==>
      && 2 * unit <= rest <= unsafeInterval - 4 * unit
      && Nearest(rest, tenKappa, distanceTooHighW - unit, distanceTooHighW + unit, unsafeInterval)
  {
    var smallDistance: u64 := distanceTooHighW - unit;
    var bigDistance: u64 := distanceTooHighW + unit;
    buffer', rest := LowerLast(buffer, smallDistance, unsafeInterval, rest0, tenKappa, prev);
    if rest < bigDistance {
      var room: u64 := unsafeInterval - rest;
      if room >= tenKappa {
        var next: u64 := rest + tenKappa;
        if next < bigDistance { return false, buffer', rest; }
        var above: u64, below: u64 := bigDistance - rest, next - bigDistance;
        if above > below { return false, buffer', rest; }
      }
    }
    var twoUnits: u64, safe: u64 := 2 * unit, unsafeInterval - 4 * unit;
    ok := twoUnits <= rest && rest <= safe;
  }

  // ---------------------------------------------------------------- the loops

  // The scaled numbers of a run with these inputs.
  ghost function ScaledFor(i: Inputs, unit: nat, tenKappa: nat, p: nat, prev: nat): Scaled
    requires Known(i)
  {
    var u := unit as real;
    Scaled((i.high + 1) * unit, unit, (i.high - i.low + 2) * unit, (i.high + 1 - i.w) * unit, tenKappa, p, prev,
           i.trueLow * u, i.trueW * u, i.trueHigh * u)
  }

  // The last digit was generated; p is what the digits before it denote.
  method Finish(buffer: seq<nat>, distance: u64, interval: u64, rest0: u64, tenKappa: u64, unit: u64,
                ghost i: Inputs, ghost q: Scaled, ghost one: nat, ghost kappa: int)
      returns (ok: bool, buffer': seq<nat>)
    requires IsDigits(buffer) && Last(buffer, tenKappa, q.prev, rest0) && rest0 < tenKappa && rest0 < interval
    requires unit <= distance && distance + unit <= interval && 4 * unit <= interval
    requires Known(i) && Scales(i, q) && OnGrid(q) && Units(one, kappa, tenKappa, unit)
    requires q.distance == distance && q.interval == interval && q.tenKappa == tenKappa && q.unit == unit
    requires q.p == Decimal(buffer[..|buffer| - 1])
    ensures |buffer'| == |buffer| && IsDigits(buffer') && buffer'[..|buffer| - 1] == buffer[..|buffer| - 1]
    ensures Outcome(ok, buffer', kappa, one, i)
    ensures ok && |buffer| == 1 && q.p == 0 ==> buffer'[0] > 0
  {
    var rest;
    ok, buffer', rest := RoundWeed(buffer, distance, interval, rest0, tenKappa, unit, q.prev);
    LastPlace(buffer, q.p, tenKappa, q.prev, rest0);
    LastPlace(buffer', q.p, tenKappa, q.prev, rest);
    StopsAtCoarsest(i, q, one, kappa, Decimal(buffer), rest0);
    OutcomeIs(ok, buffer', i, q, one, kappa, rest);
    if ok { LastNotZero(buffer'[|buffer| - 1], tenKappa, q.prev, rest, interval); }
  }

  lemma LastPlace(buffer: seq<nat>, p: nat, tenKappa: nat, prev: nat, rest: nat)
    requires Last(buffer, tenKappa, prev, rest) && p == Decimal(buffer[..|buffer| - 1])
    ensures p * (10 * tenKappa) + prev - rest == Decimal(buffer) * tenKappa
  {
    BufferStep(p, buffer[|buffer| - 1], tenKappa);
  }

  lemma LastNotZero(d: nat, tenKappa: nat, prev: nat, rest: nat, interval: nat)
    requires prev == d * tenKappa + rest && rest < interval <= prev
    ensures d > 0
  {
  }

  lemma ScaledForScales(i: Inputs, unit: nat, tenKappa: nat, p: nat, prev: nat)
    requires Known(i) && unit > 0
    ensures Scales(i, ScaledFor(i, unit, tenKappa, p, prev))
  {
  }

  lemma DivMod(x: nat, y: nat)
    requires y > 0
    ensures x / y >= 0 && x == x / y * y + x % y && x % y < y
  {
  }

  lemma DigitBound(x: nat, y: nat)
    requires 0 < y && x < 10 * y
    ensures x / y <= 9
  {
    DivMod(x, y);
    if x / y >= 10 { GridOrder(10, x / y, y); }
  }

  // No product in the loops leaves 64 bits: all stay below the interval, and that below one.
  lemma Bounds(i: Inputs, unit: nat)
    requires Known(i) && unit > 0
    ensures var d, u := (i.high + 1 - i.w) * unit, (i.high - i.low + 2) * unit;
      unit <= d && d + unit <= u && 4 * unit <= u
  {
    GridOrder(1, i.high + 1 - i.w, unit);
    GridOrder(4, i.high - i.low + 2, unit);
    SumScale(i.high + 1 - i.w, 1, unit);
    GridOrder(i.high + 1 - i.w + 1, i.high - i.low + 2, unit);
  }

  lemma FractionStep(h: nat, unit: nat, b: nat, one: nat, f: nat, digit: nat, f': nat)
    requires h * unit == b * one + f && 10 * f == digit * one + f'
    ensures h * (10 * unit) == b * (10 * one) + 10 * f == (10 * b + digit) * one + f'
  {
    TenTimes(h, unit);
    TenTimes(b, one);
    BufferStep(b, digit, one);
  }

  lemma DecimalSnoc(buffer: seq<nat>, digit: nat)
    ensures Decimal(buffer + [digit]) == 10 * Decimal(buffer) + digit
    ensures (buffer + [digit])[..|buffer|] == buffer
  {
    assert (buffer + [digit])[..|buffer|] == buffer;
  }

  // One more digit of the fraction.
  ghost predicate FractionState(i: Inputs, buffer: seq<nat>, one: nat, j: nat, unit: nat, interval: nat,
                                fractionals: nat)
    requires Known(i)
  {
    && IsDigits(buffer) && unit == Pow(10, j) && unit > 0
    && interval == (i.high - i.low + 2) * unit
    && (i.high + 1) * unit == Decimal(buffer) * one + fractionals
    && interval <= fractionals < one
  }

  lemma FractionDigit(i: Inputs, buffer: seq<nat>, one: nat, j: nat, unit: nat, interval: nat, fractionals: nat,
                      digit: nat, f': nat)
    requires Known(i) && FractionState(i, buffer, one, j, unit, interval, fractionals)
    requires digit == 10 * fractionals / one && f' == 10 * fractionals % one
    ensures digit <= 9 && f' < one && IsDigits(buffer + [digit])
    ensures 10 * unit == Pow(10, j + 1) && 10 * interval == (i.high - i.low + 2) * (10 * unit)
    ensures f' >= 10 * interval ==> FractionState(i, buffer + [digit], one, j + 1, 10 * unit, 10 * interval, f')
    ensures var q := ScaledFor(i, 10 * unit, one, Decimal(buffer), 10 * fractionals);
      && Scales(i, q) && OnGrid(q) && Last(buffer + [digit], one, q.prev, f') && q.interval == 10 * interval
      && q.distance == (i.high + 1 - i.w) * (10 * unit)
  {
    DivMod(10 * fractionals, one);
    DigitBound(10 * fractionals, one);
    FractionStep(i.high + 1, unit, Decimal(buffer), one, fractionals, digit, f');
    DecimalSnoc(buffer, digit);
    TenTimes(i.high - i.low + 2, unit);
    FractionScaled(i, buffer, one, 10 * unit, 10 * interval, 10 * fractionals, digit, f');
  }

  lemma FractionScaled(i: Inputs, buffer: seq<nat>, one: nat, unit: nat, interval: nat, prev: nat, digit: nat, f': nat)
    requires Known(i) && unit > 0 && one > 0 && interval == (i.high - i.low + 2) * unit
    requires (i.high + 1) * unit == Decimal(buffer) * (10 * one) + prev && interval <= prev < 10 * one
    requires prev == digit * one + f'
    ensures var q := ScaledFor(i, unit, one, Decimal(buffer), prev);
      && Scales(i, q) && OnGrid(q) && Last(buffer + [digit], one, q.prev, f') && q.interval == interval
      && q.distance == (i.high + 1 - i.w) * unit
  {
    ScaledForScales(i, unit, one, Decimal(buffer), prev);
  }

  // The body of the loop over the fraction.
  method FractionRound(buffer: seq<nat>, distance: u64, interval0: u64, fractionals0: u64, unit0: u64, one: u64,
                       kappa: int, ghost i: Inputs)
      returns (done: bool, ok: bool, buffer': seq<nat>, interval: u64, fractionals: u64, unit: u64)
    requires Known(i) && 0 < one <= 0x1000_0000_0000_0000 && distance == i.high + 1 - i.w && kappa <= 0
    requires FractionState(i, buffer, one, 0 - kappa, unit0, interval0, fractionals0)
    ensures |buffer'| == |buffer| + 1 && IsDigits(buffer') && buffer <= buffer' && interval == 10 * interval0
    ensures done ==> Outcome(ok, buffer', kappa - 1, one, i)
    ensures !done ==> FractionState(i, buffer', one, 1 - kappa, unit, interval, fractionals)
  {
    Bounds(i, unit0);
    fractionals := fractionals0 * 10;
    unit := unit0 * 10;
    interval := interval0 * 10;
    DivMod(fractionals, one);
    var digit: nat := fractionals / one;
    buffer' := buffer + [digit];
    fractionals := fractionals % one;
    FractionDigit(i, buffer, one, 0 - kappa, unit0, interval0, fractionals0, digit, fractionals);
    done, ok := fractionals < interval, false;
    if done {
      Bounds(i, unit);
      var scaledDistance: u64 := distance * unit;
      ghost var q := ScaledFor(i, unit, one, Decimal(buffer), 10 * fractionals0);
      var weeded;
      DecimalSnoc(buffer, digit);
      ok, weeded := Finish(buffer', scaledDistance, interval, fractionals, one, unit, i, q, one, kappa - 1);
      assert weeded[..|buffer|] == buffer;
      buffer' := weeded;
    }
  }

  // Digits after the decimal point, until one of them can be the last.
  method FractionDigits(buffer0: seq<nat>, distance: u64, interval0: u64, fractionals0: u64, one: u64, ghost i: Inputs)
      returns (ok: bool, buffer: seq<nat>, kappa: int)
    requires Known(i) && 0 < one <= 0x1000_0000_0000_0000 && distance == i.high + 1 - i.w
    requires FractionState(i, buffer0, one, 0, 1, interval0, fractionals0)
    ensures kappa < 0 && |buffer| == |buffer0| - kappa && IsDigits(buffer) && buffer0 <= buffer
    ensures Outcome(ok, buffer, kappa, one, i)
  {
    var fractionals: u64, unit: u64, interval: u64 := fractionals0, 1, interval0;
    kappa, buffer := 0, buffer0;
    while true
      invariant kappa <= 0 && |buffer| == |buffer0| - kappa && buffer0 <= buffer
      invariant FractionState(i, buffer, one, 0 - kappa, unit, interval, fractionals)
      decreases one - interval
    {
      var done;
      Bounds(i, unit);
      done, ok, buffer, interval, fractionals, unit :=
        FractionRound(buffer, distance, interval, fractionals, unit, one, kappa, i);
      kappa := kappa - 1;
      if done { return; }
    }
  }

  // The digits before the decimal point: number is the integral part of too_high.
  ghost predicate IntegralState(i: Inputs, buffer: seq<nat>, one: nat, kappa: nat, number: nat, integrals: nat,
                                fractionals: nat)
    requires Known(i)
  {
    && IsDigits(buffer) && fractionals < one
    && i.high + 1 == number * one + fractionals
    && number == Decimal(buffer) * Pow(10, kappa) + integrals && integrals < Pow(10, kappa)
    && i.high - i.low + 2 <= integrals * one + fractionals
    && (buffer != [] ==> buffer[0] > 0) && (buffer == [] ==> integrals == number)
  }

  // From the number b * p + n, with p = 10 * t, to one digit more; in units of one.
  lemma IntegralStep(b: nat, p: nat, t: nat, n: nat, digit: nat, n': nat, one: nat, f: nat)
    requires p == 10 * t && n == digit * t + n'
    ensures b * p + n == (10 * b + digit) * t + n'
    ensures n * one + f == digit * (t * one) + (n' * one + f)
    ensures (b * p + n) * one + f == b * (10 * (t * one)) + (n * one + f)
  {
    BufferStep(b, digit, t);
    SumScale(digit * t, n', one);
    MulAssociative(digit, t, one);
    SumScale(b * p, n, one);
    MulAssociative(b, p, one);
    MulAssociative(10, t, one);
  }

  lemma BelowGrid(n: nat, p: nat, one: nat, f: nat)
    requires n < p && f < one
    ensures n * one + f < p * one
  {
    GridOrder(n + 1, p, one);
    SumScale(n, 1, one);
  }

  lemma IntegralDigit(i: Inputs, buffer: seq<nat>, one: nat, kappa: nat, number: nat, integrals: nat, fractionals: nat,
                      divisor: nat, digit: nat, n': nat, tenKappa: nat, prev: nat, rest: nat)
    requires Known(i) && kappa > 0 && IntegralState(i, buffer, one, kappa, number, integrals, fractionals)
    requires divisor == Pow(10, kappa - 1) && 0 < divisor <= number
    requires digit == integrals / divisor && n' == integrals % divisor
    requires tenKappa == divisor * one && prev == integrals * one + fractionals && rest == n' * one + fractionals
    ensures digit <= 9 && n' < divisor && IsDigits(buffer + [digit]) && (buffer == [] ==> digit > 0)
    ensures rest < tenKappa <= i.high + 1
    ensures i.high - i.low + 2 <= rest ==> IntegralState(i, buffer + [digit], one, kappa - 1, number, n', fractionals)
    ensures var q := ScaledFor(i, 1, tenKappa, Decimal(buffer), prev);
      && Scales(i, q) && OnGrid(q) && Last(buffer + [digit], tenKappa, prev, rest)
      && q.interval == i.high - i.low + 2 && q.distance == i.high + 1 - i.w
  {
    DivMod(integrals, divisor);
    DigitBound(integrals, divisor);
    IntegralStep(Decimal(buffer), Pow(10, kappa), divisor, integrals, digit, n', one, fractionals);
    DecimalSnoc(buffer, digit);
    BelowGrid(n', divisor, one, fractionals);
    BelowGrid(integrals, Pow(10, kappa), one, fractionals);
    MulAssociative(10, divisor, one);
    GridOrder(divisor, number, one);
    ScaledForScales(i, 1, tenKappa, Decimal(buffer), prev);
  }

  lemma Product(x: nat, y: nat) returns (z: nat)
    ensures z == x * y
  {
    z := x * y;
  }

  // The body of the loop over the integral part.
  method IntegralRound(buffer: seq<nat>, distance: u64, interval: u64, integrals0: u32, fractionals: u64, divisor: u32,
                       one: u64, ghost kappa: nat, ghost number: nat, ghost i: Inputs)
      returns (done: bool, ok: bool, buffer': seq<nat>, integrals: u32)
    requires Known(i) && i.high + 1 < 0x1_0000_0000_0000_0000 && one > 0 && kappa > 0
    requires distance == i.high + 1 - i.w && interval == i.high - i.low + 2
    requires IntegralState(i, buffer, one, kappa, number, integrals0, fractionals)
    requires divisor == Pow(10, kappa - 1) && 0 < divisor <= number
    ensures |buffer'| == |buffer| + 1 && IsDigits(buffer')
    ensures done ==> Outcome(ok, buffer', kappa - 1, one, i) && (ok ==> buffer'[0] > 0)
    ensures !done ==> IntegralState(i, buffer', one, kappa - 1, number, integrals, fractionals)
  {
    DivMod(integrals0, divisor);
    var digit: nat := integrals0 / divisor;
    buffer' := buffer + [digit];
    integrals := integrals0 % divisor;
    ghost var t := Product(divisor, one);
    ghost var prev := Product(integrals0, one);
    ghost var r := Product(integrals, one);
    IntegralDigit(i, buffer, one, kappa, number, integrals0, fractionals, divisor, digit, integrals, t,
                  prev + fractionals, r + fractionals);
    var rest: u64 := integrals * one + fractionals;
    done, ok := rest < interval, false;
    if done {
      Bounds(i, 1);
      var tenKappa: u64 := divisor * one;
      ghost var q := ScaledFor(i, 1, tenKappa, Decimal(buffer), prev + fractionals);
      DecimalSnoc(buffer, digit);
      var weeded;
      ok, weeded := Finish(buffer', distance, interval, rest, tenKappa, 1, i, q, one, kappa - 1);
      assert weeded[..|buffer|] == buffer;
      if buffer != [] { assert weeded[0] == weeded[..|buffer|][0]; }
      buffer' := weeded;
    }
  }

  method IntegralDigits(distance: u64, interval: u64, number: u32, fractionals: u64, divisor0: u32, kappa0: nat,
                        one: u64, ghost i: Inputs)
      returns (done: bool, ok: bool, buffer: seq<nat>, kappa: nat)
    requires Known(i) && i.high + 1 < 0x1_0000_0000_0000_0000 && one > 0
    requires distance == i.high + 1 - i.w && interval == i.high - i.low + 2
    requires i.high + 1 == number * one + fractionals && fractionals < one && number < Pow(10, kappa0)
    requires kappa0 > 0 ==> divisor0 == Pow(10, kappa0 - 1) && 0 < divisor0 <= number
    requires kappa0 == 0 ==> number == 0
    ensures IsDigits(buffer) && (number > 0 ==> |buffer| == kappa0 - kappa)
    ensures done ==> Outcome(ok, buffer, kappa, one, i) && (ok ==> buffer != [] && buffer[0] > 0)
    ensures !done ==> kappa == 0 && IntegralState(i, buffer, one, 0, number, 0, fractionals)
  {
    var integrals, divisor := number, divisor0;
    kappa, buffer, done, ok := kappa0, [], false, false;
    while kappa > 0
      invariant 0 <= kappa <= kappa0 && |buffer| == kappa0 - kappa
      invariant kappa > 0 ==> divisor == Pow(10, kappa - 1) && 0 < divisor <= number
      invariant IntegralState(i, buffer, one, kappa, number, integrals, fractionals)
    {
      done, ok, buffer, integrals :=
        IntegralRound(buffer, distance, interval, integrals, fractionals, divisor, one, kappa, number, i);
      kappa := kappa - 1;
      if done { return; }
      if kappa > 0 { TenthOf(divisor, Pow(10, kappa - 1)); }
      divisor := divisor / 10;
    }
  }

  lemma TenthOf(x: nat, y: nat)
    requires x == 10 * y && x > 0
    ensures x / 10 == y && 0 < y < x
  {
  }

  method One(s: nat) returns (one: u64)
    requires 32 <= s <= 60
    ensures one == Pow(2, s) && 0x1_0000_0000 <= one <= 0x1000_0000_0000_0000
  {
    PowersOfTwo();
    PowMonotone(2, 32, s);
    PowMonotone(2, s, 60);
    one := 1;
    for k := 0 to s
      invariant one == Pow(2, k) && Pow(2, s) <= 0x1000_0000_0000_0000
    {
      PowMonotone(2, k + 1, s);
      one := one * 2;
    }
  }

  // Where BiggestPowerTen is asked: the integral part has at most 64 - s bits.
  lemma IntegralBits(h: nat, s: nat, one: nat)
    requires h < 0x1_0000_0000_0000_0000 && s <= 60 && one == Pow(2, s) && one > 0
    ensures h / one < Pow(2, 64 - s) <= Pow(2, 64 - s + 1)
  {
    PowersOfTwo();
    PowAdd(2, 64 - s, s);
    DivMod(h, one);
    if h / one >= Pow(2, 64 - s) { GridOrder(Pow(2, 64 - s), h / one, one); }
    PowMonotone(2, 64 - s, 64 - s + 1);
  }

  /** Digits down to the biggest power of ten that has a multiple in the unsafe interval; success exactly
      if one of its multiples is certain to be right, and then it is found: strictly inside the true
      boundaries, shortest and closest. The exponent of the inputs is -s, with s between 32 and 60. */
  method DigitGen(low: u64, w: u64, high: u64, s: nat, ghost i: Inputs) returns (ok: bool, buffer: seq<nat>, kappa: int)
    requires 32 <= s <= 60 && Known(i) && i.low == low && i.w == w
    requires i.high == high && high + 1 < 0x1_0000_0000_0000_0000
    ensures IsDigits(buffer)
    ensures Outcome(ok, buffer, kappa, Pow(2, s), i)
    ensures ok && high + 1 >= Pow(2, s) ==> buffer != [] && buffer[0] > 0
  {
    var one := One(s);
    var tooLow: u64, tooHigh: u64 := low - 1, high + 1;
    var unsafeInterval: u64 := tooHigh - tooLow;
    DivMod(tooHigh, one);
    IntegralBits(tooHigh, s, one);
    IntegralFits(tooHigh, one);
    var integrals: u32 := tooHigh / one;
    var fractionals: u64 := tooHigh % one;
    var divisor, kappa0 := BiggestPowerTen(integrals, 64 - s);
    var done, k;
    done, ok, buffer, k := IntegralDigits(tooHigh - w, unsafeInterval, integrals, fractionals, divisor, kappa0, one, i);
    kappa := k;
    if !done {
      FractionStart(i, buffer, one, integrals, fractionals);
      ghost var front := buffer;
      ok, buffer, kappa := FractionDigits(buffer, tooHigh - w, unsafeInterval, fractionals, one, i);
      if front != [] { assert buffer[0] == front[0]; }
      if integrals == 0 { assert tooHigh < one; }
    }
  }

  lemma IntegralFits(h: nat, one: nat)
    requires h < 0x1_0000_0000_0000_0000 && one >= 0x1_0000_0000
    ensures 0 <= h / one < 0x1_0000_0000
  {
    DivMod(h, one);
    if h / one >= 0x1_0000_0000 { GridOrder(0x1_0000_0000, h / one, one); }
  }

  lemma FractionStart(i: Inputs, buffer: seq<nat>, one: nat, number: nat, fractionals: nat)
    requires Known(i) && IntegralState(i, buffer, one, 0, number, 0, fractionals)
    ensures FractionState(i, buffer, one, 0, 1, i.high - i.low + 2, fractionals)
  {
    assert Pow(10, 0) == 1;
  }

  // --------------------------------------------------------- fewer digits

  // m at a higher exponent is a multiple at a lower one.
  lemma {:induction false} CoarserIsMultiple(m: nat, one: nat, kappa: int, d: nat)
    ensures Value(m, one, kappa + d) == Value(m * Pow(10, d), one, kappa)
  {
    if d > 0 {
      CoarserIsMultiple(m, one, kappa, d - 1);
      ValueTenfold(m, one, kappa + d - 1);
      ValueTenfoldInner(m * Pow(10, d - 1), one, kappa);
      TenTimes(m, Pow(10, d - 1));
    }
  }

  lemma ValueTenfoldInner(m: int, one: nat, kappa: int)
    ensures Value(10 * m, one, kappa) == 10.0 * Value(m, one, kappa)
  {
    TenScaleInner((m * one) as real, kappa);
    MulAssociative(10, m, one);
  }

  lemma {:induction false} ValueZero(one: nat, n: int)
    ensures Value(0, one, n) == 0.0
    decreases if n >= 0 then n else -n
  {
    if n > 0 { ValueZero(one, n - 1); } else if n < 0 { ValueZero(one, n + 1); }
  }

  lemma ValueOrder(m: nat, n: nat, one: nat, kappa: int)
    requires m <= n
    ensures Value(m, one, kappa) <= Value(n, one, kappa)
  {
    GridOrder(m, n, one);
    TenScaleOrder((n * one) as real, (m * one) as real, kappa);
  }

  lemma {:induction false} LeadingDigit(buffer: seq<nat>)
    requires buffer != [] && buffer[0] > 0
    ensures Decimal(buffer) >= Pow(10, |buffer| - 1)
  {
    if |buffer| > 1 { LeadingDigit(buffer[..|buffer| - 1]); }
  }

  /** No number with fewer digits, at any exponent, lies between the true boundaries. */
  lemma FewerDigitsMiss(buffer: seq<nat>, kappa: int, one: nat, low: real, w: real, high: real, c: nat, k: int)
    requires ShortestClosest(buffer, kappa, one, low, w, high) && buffer != [] && buffer[0] > 0
    requires c < Pow(10, |buffer| - 1)
    ensures !(low < Value(c, one, k) < high)
  {
    var coarse := kappa + 1;
    if k > kappa {
      CoarserIsMultiple(c, one, coarse, k - coarse);
    } else {
      BetweenCoarse(buffer, kappa, one, c, k);
      var m := if |buffer| == 1 then 0 else Pow(10, |buffer| - 2);
      assert !(low < Value(m, one, coarse) < high);
    }
  }

  // Below the power of ten that the digits reach.
  lemma BetweenCoarse(buffer: seq<nat>, kappa: int, one: nat, c: nat, k: int)
    requires buffer != [] && buffer[0] > 0 && c < Pow(10, |buffer| - 1) && k <= kappa
    ensures var m := if |buffer| == 1 then 0 else Pow(10, |buffer| - 2);
      Value(c, one, k) <= Value(m, one, kappa + 1) <= Value(Decimal(buffer), one, kappa)
  {
    LeadingDigit(buffer);
    TenScaleGrows((c * one) as real, k, kappa);
    if |buffer| == 1 {
      ValueZero(one, k);
      ValueZero(one, kappa + 1);
      ValueZero(one, kappa);
      ValueOrder(0, Decimal(buffer), one, kappa);
    } else {
      var m := Pow(10, |buffer| - 2);
      CoarserIsMultiple(m, one, kappa, 1);
      assert m * Pow(10, 1) == Pow(10, |buffer| - 1);
      ValueOrder(c, m * Pow(10, 1), one, kappa);
      ValueOrder(m * Pow(10, 1), Decimal(buffer), one, kappa);
    }
  }
}

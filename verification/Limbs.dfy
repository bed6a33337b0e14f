/** Powers and little-endian limb sums: the arithmetic behind every loop of the
    big integer in util/double-conversion/bignum.cc. */
module Limbs {

  // kBigitSize bits per limb (bignum.h:110), so limbs range below 2^28.
  const BIGIT_SIZE: nat := 28
  const BASE: nat := 0x1000_0000
  // kBigitCapacity limbs, 3584 bits (bignum.h:114).
  const CAPACITY: nat := 128

  // The machine widths the source computes in. Assigning to a variable of one of
  // these types is a proof that the value did not wrap.
  type u16 = x: int | 0 <= x < 0x1_0000
  type u32 = x: int | 0 <= x < 0x1_0000_0000
  type u64 = x: int | 0 <= x < 0x1_0000_0000_0000_0000

  function Min(a: nat, b: nat): nat { if a <= b then a else b }
  function Max(a: nat, b: nat): nat { if a <= b then b else a }

  // ---------------------------------------------------------------- powers

  function Pow(b: nat, n: nat): nat
  {
    if n == 0 then 1 else b * Pow(b, n - 1)
  }

  lemma {:induction false} PowPositive(b: nat, n: nat)
    requires b > 0
    ensures Pow(b, n) > 0
  {
    if n > 0 {
      PowPositive(b, n - 1);
      MulPositive(b, Pow(b, n - 1));
    }
  }

  lemma MulPositive(x: nat, y: nat)
    requires x > 0 && y > 0
    ensures x * y > 0
  {
  }

  lemma {:induction false} PowAdd(b: nat, m: nat, n: nat)
    ensures Pow(b, m + n) == Pow(b, m) * Pow(b, n)
  {
    if m > 0 {
      PowAdd(b, m - 1, n);
      calc {
        Pow(b, m + n);
        b * Pow(b, m - 1 + n);
        b * (Pow(b, m - 1) * Pow(b, n));
        { MulAssociative(b, Pow(b, m - 1), Pow(b, n)); }
        (b * Pow(b, m - 1)) * Pow(b, n);
      }
    }
  }

  lemma {:induction false} PowMonotone(b: nat, m: nat, n: nat)
    requires b > 0 && m <= n
    ensures Pow(b, m) <= Pow(b, n)
  {
    PowAdd(b, m, n - m);
    PowPositive(b, n - m);
    PowPositive(b, m);
    MulAtLeast(Pow(b, m), Pow(b, n - m));
  }

  lemma {:induction false} PowBaseMonotone(a: nat, b: nat, n: nat)
    requires a <= b
    ensures Pow(a, n) <= Pow(b, n)
  {
    if n > 0 {
      PowBaseMonotone(a, b, n - 1);
      MulBound(a, Pow(a, n - 1), b, Pow(b, n - 1));
    }
  }

  lemma {:induction false} PowProduct(a: nat, b: nat, n: nat)
    ensures Pow(a * b, n) == Pow(a, n) * Pow(b, n)
  {
    if n > 0 {
      PowProduct(a, b, n - 1);
      MulExchange(a, b, Pow(a, n - 1), Pow(b, n - 1));
    }
  }

  lemma {:induction false} PowPower(b: nat, m: nat, n: nat)
    ensures Pow(Pow(b, m), n) == Pow(b, m * n)
  {
    if n > 0 {
      PowPower(b, m, n - 1);
      assert m * n == m + m * (n - 1);
      PowAdd(b, m, m * (n - 1));
    } else {
      assert m * n == 0;
    }
  }

  lemma BaseIsPowerOfTwo()
    ensures Pow(2, 28) == BASE
  {
    assert Pow(2, 4) == 16;
    PowAdd(2, 4, 4);
    PowAdd(2, 8, 4);
    PowAdd(2, 12, 8);
    PowAdd(2, 20, 8);
  }

  lemma {:induction false} PowTwoAsBase(n: nat)
    ensures Pow(2, 28 * n) == Pow(BASE, n)
  {
    BaseIsPowerOfTwo();
    PowPower(2, 28, n);
  }

  // ------------------------------------------------------- multiplication

  lemma MulAssociative(x: int, y: int, z: int)
    ensures x * (y * z) == (x * y) * z
  {
  }

  lemma MulZero(x: int, y: int)
    requires y == 0
    ensures x * y == 0
  {
  }

  lemma MulAtLeast(x: nat, y: nat)
    requires y > 0
    ensures x <= x * y
  {
  }

  lemma MulBound(x: nat, y: nat, X: nat, Y: nat)
    requires x <= X && y <= Y
    ensures x * y <= X * Y
  {
    assert x * y <= X * y by { assert (X - x) * y >= 0; }
    assert X * y <= X * Y by { assert X * (Y - y) >= 0; }
  }

  lemma MulStrict(x: nat, y: nat, z: nat)
    requires x < y && z > 0
    ensures x * z < y * z
  {
    assert (y - x) * z >= z by { MulBound(1, z, y - x, z); }
  }

  lemma MulExchange(a: int, b: int, c: int, d: int)
    ensures (a * b) * (c * d) == (a * c) * (b * d)
  {
    assert (a * b) * (c * d) == a * (b * (c * d));
    assert b * (c * d) == c * (b * d);
    assert (a * c) * (b * d) == a * (c * (b * d));
  }

  // ------------------------------------------------------------ limb sums

  // The limb at index i; every limb past the end reads as zero.
  function At(s: seq<nat>, i: nat): nat
  {
    if i < |s| then s[i] else 0
  }

  // The value of the limbs below index n.
  function Low(s: seq<nat>, n: nat): nat
  {
    if n == 0 then 0 else Low(s, n - 1) + At(s, n - 1) * Pow(BASE, n - 1)
  }

  // The value of the limbs at index i and above, counted in units of BASE^i.
  function Top(s: seq<nat>, i: nat): nat
    decreases if i < |s| then |s| - i else 0
  {
    if i >= |s| then 0 else s[i] + BASE * Top(s, i + 1)
  }

  predicate Limbed(s: seq<nat>)
  {
    forall i :: 0 <= i < |s| ==> s[i] < BASE
  }

  lemma {:induction false} LowFrame(s: seq<nat>, t: seq<nat>, n: nat)
    requires forall i :: 0 <= i < n ==> At(s, i) == At(t, i)
    ensures Low(s, n) == Low(t, n)
  {
    if n > 0 {
      LowFrame(s, t, n - 1);
    }
  }

  lemma {:induction false} LowZero(s: seq<nat>, n: nat)
    requires forall i :: 0 <= i < n ==> At(s, i) == 0
    ensures Low(s, n) == 0
  {
    if n > 0 {
      LowZero(s, n - 1);
    }
  }

  // Zero limbs on top add nothing.
  lemma {:induction false} LowPad(s: seq<nat>, m: nat, n: nat)
    requires m <= n && forall i :: m <= i < n ==> At(s, i) == 0
    ensures Low(s, n) == Low(s, m)
  {
    if m < n {
      LowPad(s, m, n - 1);
      assert At(s, n - 1) == 0;
    }
  }

  lemma {:induction false} LowBound(s: seq<nat>, n: nat)
    requires Limbed(s)
    ensures Low(s, n) < Pow(BASE, n)
  {
    if n > 0 {
      LowBound(s, n - 1);
      MulBound(At(s, n - 1), Pow(BASE, n - 1), BASE - 1, Pow(BASE, n - 1));
    }
  }

  // n limbs reach BASE^(n-1) exactly when the top one is not zero.
  lemma TopLimb(s: seq<nat>, n: nat)
    requires Limbed(s) && n > 0
    ensures At(s, n - 1) != 0 <==> Pow(BASE, n - 1) <= Low(s, n)
  {
    LowBound(s, n - 1);
    if At(s, n - 1) != 0 {
      MulBound(1, Pow(BASE, n - 1), At(s, n - 1), Pow(BASE, n - 1));
    }
  }

  // Moving limbs up by z positions multiplies by BASE^z.
  lemma {:induction false} LowShift(s: seq<nat>, t: seq<nat>, z: nat, n: nat)
    requires forall i :: 0 <= i < z ==> At(t, i) == 0
    requires forall i :: 0 <= i < n ==> At(t, z + i) == At(s, i)
    ensures Low(t, z + n) == Low(s, n) * Pow(BASE, z)
  {
    if n == 0 {
      LowZero(t, z);
    } else {
      LowShift(s, t, z, n - 1);
      PowAdd(BASE, z, n - 1);
      assert At(t, z + (n - 1)) == At(s, n - 1);
      ShiftScale(Low(s, n - 1), At(s, n - 1), Pow(BASE, n - 1), Pow(BASE, z));
    }
  }

  lemma ShiftScale(l: int, a: int, p: int, q: int)
    ensures l * q + a * (q * p) == (l + a * p) * q
  {
    assert a * (q * p) == (a * p) * q;
  }

  lemma {:induction false} LowTop(s: seq<nat>, i: nat)
    requires i <= |s|
    ensures Low(s, |s|) == Low(s, i) + Top(s, i) * Pow(BASE, i)
    decreases |s| - i
  {
    if i < |s| {
      LowTop(s, i + 1);
      var t, p := Top(s, i + 1), Pow(BASE, i);
      assert t * (BASE * p) == (BASE * t) * p;
      assert (s[i] + BASE * t) * p == s[i] * p + (BASE * t) * p;
    }
  }

  // ----------------------------------------------------------- hidden limbs

  // m * BASE^e: the number with mantissa m and e hidden limbs.
  function Scale(m: nat, e: nat): nat
  {
    if e == 0 then m else BASE * Scale(m, e - 1)
  }

  lemma {:induction false} ScaleIs(m: nat, e: nat)
    ensures Scale(m, e) == m * Pow(BASE, e)
  {
    if e > 0 {
      ScaleIs(m, e - 1);
      assert BASE * (m * Pow(BASE, e - 1)) == m * (BASE * Pow(BASE, e - 1));
    }
  }

  lemma {:induction false} ScaleAtLeast(m: nat, e: nat)
    ensures m <= Scale(m, e)
    ensures m == 0 ==> Scale(m, e) == 0
  {
    if e > 0 {
      ScaleAtLeast(m, e - 1);
    }
  }

  lemma {:induction false} ScaleAdd(m: nat, z: nat, e: nat)
    ensures Scale(Scale(m, z), e) == Scale(m, z + e)
  {
    if e > 0 {
      ScaleAdd(m, z, e - 1);
    }
  }

  lemma {:induction false} ScaleMultiply(k: nat, m: nat, e: nat)
    ensures Scale(k * m, e) == k * Scale(m, e)
  {
    if e > 0 {
      ScaleMultiply(k, m, e - 1);
      assert BASE * (k * Scale(m, e - 1)) == k * (BASE * Scale(m, e - 1));
    }
  }

  lemma ScaleSquare(m: nat, e: nat)
    ensures Scale(m * m, 2 * e) == Scale(m, e) * Scale(m, e)
  {
    ScaleIs(m * m, 2 * e);
    ScaleIs(m, e);
    PowAdd(BASE, e, e);
    MulExchange(m, m, Pow(BASE, e), Pow(BASE, e));
  }

  lemma ScaleShift(m: nat, e: nat, shift: nat)
    ensures Scale(Pow(2, shift % 28) * m, e + shift / 28) == Pow(2, shift) * Scale(m, e)
  {
    var p, q := Pow(2, shift % 28), shift / 28;
    ScaleMultiply(p, m, e + q);
    ScaleAdd(m, e, q);
    ScaleIs(Scale(m, e), q);
    ShiftSplit(shift);
    SwapFactors(p, Scale(m, e), Pow(BASE, q));
  }

  lemma ShiftSplit(shift: nat)
    ensures Pow(2, shift) == Pow(2, shift % 28) * Pow(BASE, shift / 28)
  {
    PowTwoAsBase(shift / 28);
    PowAdd(2, shift % 28, 28 * (shift / 28));
    assert shift == shift % 28 + 28 * (shift / 28);
  }

  lemma SwapFactors(x: int, y: int, z: int)
    ensures x * (y * z) == (x * z) * y
  {
  }

  // ---------------------------------------------------------- multiples

  // q * w, as q additions.
  function Times(q: nat, w: nat): nat
  {
    if q == 0 then 0 else w + Times(q - 1, w)
  }

  lemma {:induction false} TimesIs(q: nat, w: nat)
    ensures Times(q, w) == q * w
  {
    if q > 0 {
      TimesIs(q - 1, w);
    }
  }

  lemma {:induction false} TimesAdd(a: nat, b: nat, w: nat)
    ensures Times(a + b, w) == Times(a, w) + Times(b, w)
  {
    if a > 0 {
      TimesAdd(a - 1, b, w);
    }
  }

  lemma TimesMonotone(a: nat, b: nat, w: nat)
    requires a <= b
    ensures Times(a, w) <= Times(b, w)
  {
    TimesAdd(a, b - a, w);
  }

  // ----------------------------------------------------- carries and borrows

  /** The carry chain of a limb loop: a[i] + BASE*carry' == o[i] + k*b[i] + carry for
      every i < n, starting without a carry and ending with the signed carry c.
      Addition, subtraction, multiplication, and subtraction of a multiple are the
      cases k = 1, k = -1, o = [], and k = -factor. */
  ghost predicate Linear(a: seq<nat>, o: seq<nat>, b: seq<nat>, n: nat, k: int, c: int)
    decreases n
  {
    if n == 0 then c == 0
    else Linear(a, o, b, n - 1, k, At(a, n - 1) + BASE * c - At(o, n - 1) - k * At(b, n - 1))
  }

  lemma {:induction false} LinearFrame(a: seq<nat>, a': seq<nat>, o: seq<nat>, b: seq<nat>, n: nat, k: int, c: int)
    requires Linear(a, o, b, n, k, c)
    requires forall i :: 0 <= i < n ==> At(a', i) == At(a, i)
    ensures Linear(a', o, b, n, k, c)
  {
    if n > 0 {
      LinearFrame(a, a', o, b, n - 1, k, At(a, n - 1) + BASE * c - At(o, n - 1) - k * At(b, n - 1));
    }
  }

  lemma LinearStep(a: seq<nat>, a': seq<nat>, o: seq<nat>, b: seq<nat>, n: nat, k: int, c: int, c': int)
    requires Linear(a, o, b, n, k, c)
    requires forall i :: 0 <= i < n ==> At(a', i) == At(a, i)
    requires At(a', n) + BASE * c' == At(o, n) + k * At(b, n) + c
    ensures Linear(a', o, b, n + 1, k, c')
  {
    LinearFrame(a, a', o, b, n, k, c);
  }

  // What the carry chain says about the numbers.
  lemma {:induction false} LinearSum(a: seq<nat>, o: seq<nat>, b: seq<nat>, n: nat, k: int, c: int)
    requires Linear(a, o, b, n, k, c)
    ensures Low(a, n) + c * Pow(BASE, n) == Low(o, n) + k * Low(b, n)
    decreases n
  {
    if n > 0 {
      var c0 := At(a, n - 1) + BASE * c - At(o, n - 1) - k * At(b, n - 1);
      LinearSum(a, o, b, n - 1, k, c0);
      LinearScale(Pow(BASE, n - 1), Low(a, n - 1), Low(o, n - 1), Low(b, n - 1),
                  At(a, n - 1), At(o, n - 1), At(b, n - 1), k, c0, c);
    }
  }

  lemma LinearScale(p: nat, la: int, lo: int, lb: int, x: int, y: int, z: int, k: int, c: int, c': int)
    requires la + c * p == lo + k * lb
    requires x + BASE * c' == y + k * z + c
    ensures (la + x * p) + c' * (BASE * p) == (lo + y * p) + k * (lb + z * p)
  {
    var e := x + BASE * c';
    assert x * p + c' * (BASE * p) == e * p;
    assert e * p == y * p + (k * z) * p + c * p;
    assert (k * z) * p == k * (z * p);
    assert k * (lb + z * p) == k * lb + k * (z * p);
  }

  // Limbs below the point where b starts do not change anything.
  lemma {:induction false} LinearStart(o: seq<nat>, b: seq<nat>, n: nat, k: int)
    requires forall i :: 0 <= i < n ==> At(b, i) == 0
    ensures Linear(o, o, b, n, k, 0)
  {
    if n > 0 {
      LinearStart(o, b, n - 1, k);
      assert k * At(b, n - 1) == 0;
    }
  }

  // The first n limbs of s, moved up by z positions.
  function Shifted(s: seq<nat>, z: nat, n: nat): (t: seq<nat>)
    requires n <= |s|
    ensures |t| == z + n
    ensures forall i :: 0 <= i < z ==> t[i] == 0
    ensures forall i :: 0 <= i < n ==> t[z + i] == s[i]
  {
    seq(z, i => 0) + s[..n]
  }

  // Past the end of b, limbs that were not touched keep the account balanced.
  lemma {:induction false} LinearExtend(a: seq<nat>, o: seq<nat>, b: seq<nat>, m: nat, n: nat, k: int)
    requires m <= n && Linear(a, o, b, m, k, 0)
    requires forall i :: m <= i < n ==> At(a, i) == At(o, i) && At(b, i) == 0
    ensures Linear(a, o, b, n, k, 0)
  {
    if m < n {
      LinearExtend(a, o, b, m, n - 1, k);
      assert k * At(b, n - 1) == 0;
      LinearStep(a, a, o, b, n - 1, k, 0, 0);
    }
  }

  // What a balanced account says about the numbers, hidden limbs included.
  lemma LinearValue(a: seq<nat>, o: seq<nat>, ou: nat, ob: seq<nat>, bu: nat, off: nat, n: nat, e: nat, k: int)
    requires bu <= |ob| && ou <= n && off + bu <= n
    requires Linear(a, o, Shifted(ob, off, bu), n, k, 0)
    requires forall i :: ou <= i < n ==> At(o, i) == 0
    ensures Scale(Low(a, n), e) == Scale(Low(o, ou), e) + k * Scale(Low(ob, bu), off + e)
  {
    var b := Shifted(ob, off, bu);
    LinearSum(a, o, b, n, k, 0);
    LowPad(o, ou, n);
    LowPad(b, off + bu, n);
    LowShift(ob, b, off, bu);
    PowAdd(BASE, off, e);
    OffsetScale(Low(o, ou), Low(ob, bu), Pow(BASE, off), Pow(BASE, e), k);
    ScaleIs(Low(a, n), e);
    ScaleIs(Low(o, ou), e);
    ScaleIs(Low(ob, bu), off + e);
  }

  lemma OffsetScale(m: int, b: int, p: int, q: int, k: int)
    ensures (m + k * (b * p)) * q == m * q + k * (b * (p * q))
  {
    assert (k * (b * p)) * q == k * ((b * p) * q);
    assert (b * p) * q == b * (p * q);
  }

  lemma LinearFinish(a: seq<nat>, o: seq<nat>, ou: nat, ob: seq<nat>, bu: nat, off: nat, m: nat, n: nat, e: nat, k: int)
    requires bu <= |ob| && ou <= n && off + bu <= m <= n
    requires Linear(a, o, Shifted(ob, off, bu), m, k, 0)
    requires forall i :: m <= i < n ==> At(a, i) == At(o, i)
    requires forall i :: ou <= i < n ==> At(o, i) == 0
    ensures Scale(Low(a, n), e) == Scale(Low(o, ou), e) + k * Scale(Low(ob, bu), off + e)
  {
    LinearExtend(a, o, Shifted(ob, off, bu), m, n, k);
    LinearValue(a, o, ou, ob, bu, off, n, e, k);
  }

  // A carry above the top limb means the product is too big for that many limbs.
  lemma CarryFits(a: seq<nat>, b: seq<nat>, n: nat, k: nat, c: nat, cap: nat)
    requires Linear(a, [], b, n, k, c) && c > 0
    requires k * Low(b, n) < Pow(BASE, cap)
    ensures n < cap
  {
    LinearSum(a, [], b, n, k, c);
    LowZero([], n);
    PowPositive(BASE, n);
    MulBound(1, Pow(BASE, n), c, Pow(BASE, n));
    if n >= cap { PowMonotone(BASE, cap, n); }
  }

  // ------------------------------------------------------------- comparison

  function Sign(x: int): int { if x < 0 then -1 else if x == 0 then 0 else 1 }

  lemma TopStep(s: seq<nat>, i: nat)
    ensures Top(s, i) == At(s, i) + BASE * Top(s, i + 1)
  {
  }

  // Limbs above the end count for nothing, so any cut splits the whole value.
  lemma SplitAt(s: seq<nat>, i: nat)
    ensures Low(s, |s|) == Low(s, i) + Top(s, i) * Pow(BASE, i)
  {
    if i <= |s| {
      LowTop(s, i);
    } else {
      LowPad(s, |s|, i);
      MulZero(Pow(BASE, i), Top(s, i));
    }
  }

  // Lower parts below one unit p do not outweigh a difference of whole units.
  lemma UnitsDecide(l: nat, x: nat, l': nat, x': nat, p: nat)
    requires l < p && x < x'
    ensures l + x * p < l' + x' * p
  {
    SumScale(x, 1, p);
    MulBound(x + 1, p, x', p);
  }

  lemma UnitsAbove(l: nat, x: nat, m: nat, y: nat, n: nat, z: nat, p: nat)
    requires n < p && x + y > z
    ensures (l + x * p) + (m + y * p) > n + z * p
  {
    SumScale(x, y, p);
    UnitsDecide(n, z, l + m, x + y, p);
  }

  lemma UnitsBelow(l: nat, x: nat, m: nat, y: nat, n: nat, z: nat, p: nat)
    requires l < p && m < p && x + y + 1 < z
    ensures (l + x * p) + (m + y * p) < n + z * p
  {
    SumScale(x, y, p);
    SumScale(x + y, 2, p);
    MulBound(x + y + 2, p, z, p);
  }

  // Numbers that differ above limb i compare as the parts above limb i do.
  lemma TopDecides(s: seq<nat>, t: seq<nat>, i: nat)
    requires Limbed(s) && Limbed(t) && Top(s, i) < Top(t, i)
    ensures Low(s, |s|) < Low(t, |t|)
  {
    SplitAt(s, i);
    SplitAt(t, i);
    LowBound(s, i);
    UnitsDecide(Low(s, i), Top(s, i), Low(t, i), Top(t, i), Pow(BASE, i));
  }

  // The same for a sum: two lower parts together stay below two units of limb i.
  lemma TopSumAbove(a: seq<nat>, b: seq<nat>, c: seq<nat>, i: nat)
    requires Limbed(c) && Top(a, i) + Top(b, i) > Top(c, i)
    ensures Low(a, |a|) + Low(b, |b|) > Low(c, |c|)
  {
    SplitAt(a, i);
    SplitAt(b, i);
    SplitAt(c, i);
    LowBound(c, i);
    UnitsAbove(Low(a, i), Top(a, i), Low(b, i), Top(b, i), Low(c, i), Top(c, i), Pow(BASE, i));
  }

  lemma TopSumBelow(a: seq<nat>, b: seq<nat>, c: seq<nat>, i: nat)
    requires Limbed(a) && Limbed(b) && Top(a, i) + Top(b, i) + 1 < Top(c, i)
    ensures Low(a, |a|) + Low(b, |b|) < Low(c, |c|)
  {
    SplitAt(a, i);
    SplitAt(b, i);
    SplitAt(c, i);
    LowBound(a, i);
    LowBound(b, i);
    UnitsBelow(Low(a, i), Top(a, i), Low(b, i), Top(b, i), Low(c, i), Top(c, i), Pow(BASE, i));
  }

  /** One limb of PlusCompare: with at most one unit carried over from above, this limb
      decides the comparison or leaves at most one unit again. */
  lemma PlusCompareStep(a: seq<nat>, b: seq<nat>, c: seq<nat>, i: nat, unit: nat)
    requires Limbed(a) && Limbed(b) && Limbed(c)
    requires Top(c, i + 1) == Top(a, i + 1) + Top(b, i + 1) + unit
    ensures var left := At(c, i) + BASE * unit - At(a, i) - At(b, i);
            && (left < 0 ==> Low(a, |a|) + Low(b, |b|) > Low(c, |c|))
            && (left > 1 ==> Low(a, |a|) + Low(b, |b|) < Low(c, |c|))
            && Top(c, i) == Top(a, i) + Top(b, i) + left
  {
    TopStep(a, i);
    TopStep(b, i);
    TopStep(c, i);
    var left := At(c, i) + BASE * unit - At(a, i) - At(b, i);
    if left < 0 { TopSumAbove(a, b, c, i); }
    if left > 1 { TopSumBelow(a, b, c, i); }
  }

  lemma SumScale(x: int, y: int, p: int)
    ensures (x + y) * p == x * p + y * p
  {
  }

  lemma LinearTimes(a: seq<nat>, o: seq<nat>, used: nat, ob: seq<nat>, bu: nat, off: nat, e: nat, factor: nat)
    requires bu <= |ob| && off + bu <= used
    requires Linear(a, o, Shifted(ob, off, bu), used, Negate(factor), 0)
    ensures Scale(Low(a, used), e) == Scale(Low(o, used), e) - Times(factor, Scale(Low(ob, bu), off + e))
  {
    var w := Scale(Low(ob, bu), off + e);
    LinearValue(a, o, used, ob, bu, off, used, e, Negate(factor));
    NegatedTimes(factor, w);
  }

  lemma NegatedTimes(factor: nat, w: nat)
    ensures Negate(factor) * w == 0 - Times(factor, w)
  {
    TimesIs(factor, w);
  }

  function Negate(x: int): int { 0 - x }
}

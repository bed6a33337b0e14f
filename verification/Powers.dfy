/** Number facts for AssignPowerUInt16, MultiplyByPowerOfTen and AssignDecimalString. */
module Powers {
  import opened Limbs

  // --------------------------------------------------------------- bits

  function BitSize(n: nat): nat
  {
    if n == 0 then 0 else 1 + BitSize(n / 2)
  }

  lemma {:induction false} BitSizeBounds(n: nat)
    ensures n < Pow(2, BitSize(n))
    ensures n > 0 ==> Pow(2, BitSize(n) - 1) <= n
  {
    if n > 1 {
      BitSizeBounds(n / 2);
    }
  }

  lemma {:induction false} BitSizeAtMost(n: nat, k: nat)
    requires n < Pow(2, k)
    ensures BitSize(n) <= k
  {
    if n > 0 {
      BitSizeBounds(n);
      if BitSize(n) > k { PowMonotone(2, k, BitSize(n) - 1); }
    }
  }

  function OddPart(n: nat): nat
    requires n > 0
  {
    if n % 2 == 0 then OddPart(n / 2) else n
  }

  lemma PowTwo64()
    ensures Pow(2, 16) == 0x1_0000
    ensures Pow(2, 32) == 0x1_0000_0000
    ensures Pow(2, 64) == 0x1_0000_0000_0000_0000
  {
    BaseIsPowerOfTwo();
    PowAdd(2, 4, 4);
    PowAdd(2, 8, 8);
    PowAdd(2, 16, 16);
    PowAdd(2, 32, 32);
  }

  // power >> j: the exponent left-to-right exponentiation has reached with j bits to go.
  function Shr(power: nat, j: nat): nat
  {
    if j == 0 then power else Shr(power, j - 1) / 2
  }

  lemma {:induction false} ShrBounds(power: nat, j: nat)
    ensures Pow(2, j) * Shr(power, j) <= power < Pow(2, j) * Shr(power, j) + Pow(2, j)
  {
    if j > 0 {
      ShrBounds(power, j - 1);
      var p, h := Pow(2, j - 1), Shr(power, j - 1);
      HalveMultiple(p, h);
    }
  }

  lemma HalveMultiple(p: nat, h: nat)
    ensures (2 * p) * (h / 2) <= p * h
    ensures p * h + p <= (2 * p) * (h / 2) + 2 * p
  {
    var q := h / 2;
    MulBound(p, 2 * q, p, h);
    MulBound(p, h, p, 2 * q + 1);
    assert p * (2 * q) == (2 * p) * q;
    assert p * (2 * q + 1) == p * (2 * q) + p;
  }

  lemma ShrAtMost(power: nat, j: nat)
    ensures Shr(power, j) <= power
  {
    ShrBounds(power, j);
    PowPositive(2, j);
    MulAtLeast(Shr(power, j), Pow(2, j));
  }

  // The mask test: power & mask is bit j-1 of power when mask is 2^(j-1).
  lemma MaskTest(power: nat, mask: nat, j: nat)
    requires mask == Pow(2, j)
    ensures mask > 0 && power / mask == Shr(power, j)
  {
    PowPositive(2, j);
    ShrBounds(power, j);
    DivisionUnique(power, mask, Shr(power, j), power - mask * Shr(power, j));
  }

  // h mod n, by repeated subtraction.
  function Rem(h: nat, n: nat): (r: nat)
    requires n > 0
    ensures r < n
    decreases h
  {
    if h < n then h else Rem(h - n, n)
  }

  lemma DivisionUnique(v: nat, w: nat, q: nat, r: nat)
    requires w > 0 && r < w && v == w * q + r
    ensures v / w == q
  {
    var q', r' := v / w, v % w;
    assert v == w * q' + r';
    if q < q' { MulBound(q + 1, w, q', w); SumScale(q, 1, w); }
    if q > q' { MulBound(q' + 1, w, q, w); SumScale(q', 1, w); }
  }

  lemma {:induction false} PowSquare(b: nat, e: nat)
    ensures Pow(b, e) * Pow(b, e) == Pow(b, 2 * e)
    ensures b * Pow(b, e) == Pow(b, e + 1)
  {
    PowAdd(b, e, e);
  }

  // A base below 2^bits has powers below 2^(bits*e).
  lemma {:induction false} PowBits(b: nat, bits: nat, e: nat)
    requires 0 < b < Pow(2, bits)
    ensures Pow(b, e) <= Pow(2, bits * e)
    ensures e > 0 ==> Pow(b, e) < Pow(2, bits * e)
  {
    if e == 0 {
      MulZero(bits, e);
    } else {
      PowBits(b, bits, e - 1);
      assert bits * e == bits + bits * (e - 1);
      PowAdd(2, bits, bits * (e - 1));
      PowPositive(b, e - 1);
      MulStrict(b, Pow(2, bits), Pow(b, e - 1));
      MulBound(Pow(2, bits), Pow(b, e - 1), Pow(2, bits), Pow(2, bits * (e - 1)));
    }
  }

  // ----------------------------------------------------------- powers of 5

  const FIVE_27: u64 := 0x6765_c793_fa10_079d
  const FIVE_13: u32 := 1220703125

  function FiveUpTo12(n: nat): (r: u32)
    requires 1 <= n <= 12
  {
    [5, 25, 125, 625, 3125, 15625, 78125, 390625, 1953125, 9765625, 48828125, 244140625][n - 1]
  }

  lemma FivePowers()
    ensures Pow(5, 6) == 15625 && Pow(5, 7) == 78125
    ensures Pow(5, 13) == FIVE_13
    ensures Pow(5, 27) == FIVE_27
  {
    assert Pow(5, 3) == 125;
    PowAdd(5, 3, 3);
    PowAdd(5, 1, 6);
    PowAdd(5, 6, 7);
    PowAdd(5, 13, 13);
    PowAdd(5, 1, 26);
  }

  lemma FiveTable(n: nat)
    requires 1 <= n <= 12
    ensures FiveUpTo12(n) == Pow(5, n)
  {
    FivePowers();
    if n <= 4 {
    } else if n <= 6 {
      assert Pow(5, 5) == 3125;
    } else {
      PowAdd(5, 7, n - 7);
      assert Pow(5, n - 7) == [1, 5, 25, 125, 625, 3125][n - 7];
    }
  }

  // m * 5^r, one factor at a time.
  function Fives(m: nat, r: nat): nat
  {
    if r == 0 then m else 5 * Fives(m, r - 1)
  }

  lemma {:induction false} FivesIs(m: nat, r: nat)
    ensures Fives(m, r) == Pow(5, r) * m
  {
    if r > 0 {
      FivesIs(m, r - 1);
      MulAssociative(5, Pow(5, r - 1), m);
    }
  }

  lemma {:induction false} FivesSplit(m: nat, n: nat, r: nat)
    ensures Fives(Fives(m, n), r) == Fives(m, n + r)
  {
    if r > 0 {
      FivesSplit(m, n, r - 1);
    }
  }

  // A chunk of n of the remaining r factors: what the multiplication by 5^n is worth, and that it fits.
  lemma FiveChunk(m: nat, n: nat, r: nat, factor: nat, bound: nat)
    requires n <= r && factor == Pow(5, n) && Fives(m, r) < bound
    ensures factor * m < bound && Fives(factor * m, r - n) == Fives(m, r)
  {
    FivesIs(m, n);
    FivesSplit(m, n, r - n);
    FivesIs(factor * m, r - n);
    PowPositive(5, r - n);
    MulAtLeast(factor * m, Pow(5, r - n));
  }

  lemma FiveChunk27(m: nat, r: nat, bound: nat)
    requires 27 <= r && Fives(m, r) < bound
    ensures FIVE_27 * m < bound && Fives(FIVE_27 * m, r - 27) == Fives(m, r)
  {
    FivePowers();
    FiveChunk(m, 27, r, FIVE_27, bound);
  }

  lemma FiveChunk13(m: nat, r: nat, bound: nat)
    requires 13 <= r && Fives(m, r) < bound
    ensures FIVE_13 * m < bound && Fives(FIVE_13 * m, r - 13) == Fives(m, r)
  {
    FivePowers();
    FiveChunk(m, 13, r, FIVE_13, bound);
  }

  lemma FiveChunkLast(m: nat, r: nat, bound: nat)
    requires 1 <= r <= 12 && Fives(m, r) < bound
    ensures FiveUpTo12(r) * m < bound && FiveUpTo12(r) * m == Fives(m, r) && FiveUpTo12(r) > 0
  {
    FiveTable(r);
    FiveChunk(m, r, r, FiveUpTo12(r), bound);
    PowPositive(5, r);
  }

  // One more chunk of decimal digits still fits the limbs that hold the whole string.
  lemma TenFits(m: nat, v: nat, pos: nat, count: nat, length: nat, limit: nat)
    requires m <= v < Pow(10, pos) && pos + count <= length
    requires Pow(10, length) <= Pow(BASE, limit)
    ensures Fives(m, count) < Pow(BASE, limit)
  {
    FivesIs(m, count);
    PowAdd(10, pos, count);
    PowMonotone(10, pos + count, length);
    PowBaseMonotone(5, 10, count);
    PowPositive(5, count);
    StrictProduct(Pow(5, count), m, Pow(10, count), Pow(10, pos));
  }

  lemma StrictProduct(f: nat, m: nat, g: nat, t: nat)
    requires 0 < f <= g && m < t
    ensures f * m < t * g
  {
    MulStrict(m, t, f);
    MulBound(t, f, t, g);
  }

  lemma AppendedValue(value: seq<nat>, pos: nat, count: nat, limit: nat)
    requires IsDigits(value) && pos + count <= |value| && Pow(10, |value|) <= Pow(BASE, limit)
    ensures Decimal(value[..pos + count]) == Pow(10, count) * Decimal(value[..pos]) + Decimal(value[pos..pos + count])
    ensures Decimal(value[..pos]) < Pow(10, pos)
    ensures Decimal(value[..pos + count]) < Pow(BASE, limit)
  {
    var head, tail := value[..pos], value[pos..pos + count];
    assert value[..pos + count] == head + tail;
    AppendedNumber(head, tail);
    PrefixBound(value, pos);
    PrefixBound(value, pos + count);
  }

  lemma AppendedNumber(head: seq<nat>, tail: seq<nat>)
    ensures Decimal(head + tail) == Pow(10, |tail|) * Decimal(head) + Decimal(tail)
  {
    DecimalAppend(head, tail);
    Commute(Decimal(head), Pow(10, |tail|));
  }

  lemma Commute(x: int, y: int)
    ensures x * y == y * x
  {
  }

  lemma PrefixBound(value: seq<nat>, n: nat)
    requires IsDigits(value) && n <= |value|
    ensures Decimal(value[..n]) < Pow(10, n) <= Pow(10, |value|)
  {
    DecimalBound(value[..n]);
    PowMonotone(10, n, |value|);
  }

  lemma PowTwoStrict(x: nat, y: nat)
    requires x < y
    ensures Pow(2, x) < Pow(2, y)
  {
    PowMonotone(2, x + 1, y);
    PowPositive(2, x);
  }

  // Every power up to `power` of a number of `bits` bits stays below n limbs.
  lemma PowerFits(b: nat, bits: nat, power: nat, e: nat, n: nat)
    requires 0 < b < Pow(2, bits) && e <= power && bits * power < 28 * n
    ensures Pow(b, e) < Pow(BASE, n)
  {
    PowBits(b, bits, e);
    MulBound(bits, e, bits, power);
    PowTwoStrict(bits * e, 28 * n);
    PowTwoAsBase(n);
  }

  // n limbs of b^e: doubling them stays within two limbs of what the whole power needs.
  lemma SquareFits(b: nat, bits: nat, power: nat, e: nat, n: nat)
    requires 0 < b < Pow(2, bits) && 2 * e <= power && n > 0
    requires Pow(BASE, n - 1) <= Pow(b, e)
    ensures 28 * (2 * n) <= bits * power + 56
  {
    PowBits(b, bits, e);
    PowTwoAsBase(n - 1);
    if 28 * (n - 1) > bits * e {
      PowTwoStrict(bits * e, 28 * (n - 1));
    }
    MulBound(bits, 2 * e, bits, power);
    DoubleProduct(bits, e);
  }

  lemma DoubleProduct(x: int, y: int)
    ensures x * (2 * y) == 2 * (x * y)
  {
  }

  // -------------------------------------------------------- decimal digits

  predicate IsDigits(s: seq<nat>)
  {
    forall i :: 0 <= i < |s| ==> s[i] <= 9
  }

  // The number a digit string denotes, most significant digit first.
  function Decimal(s: seq<nat>): nat
  {
    if s == [] then 0 else 10 * Decimal(s[..|s| - 1]) + s[|s| - 1]
  }

  lemma {:induction false} DecimalBound(s: seq<nat>)
    requires IsDigits(s)
    ensures Decimal(s) < Pow(10, |s|)
  {
    if s != [] {
      DecimalBound(s[..|s| - 1]);
    }
  }

  lemma {:induction false} DecimalAppend(s: seq<nat>, t: seq<nat>)
    ensures Decimal(s + t) == Decimal(s) * Pow(10, |t|) + Decimal(t)
  {
    if t == [] {
      assert s + t == s;
    } else {
      var t' := t[..|t| - 1];
      DecimalAppend(s, t');
      assert (s + t)[..|s + t| - 1] == s + t';
      assert Decimal(s) * (10 * Pow(10, |t'|)) == 10 * (Decimal(s) * Pow(10, |t'|));
    }
  }

  lemma Ten19()
    ensures Pow(10, 19) == 10_000_000_000_000_000_000
  {
    assert Pow(10, 4) == 10000;
    PowAdd(10, 4, 4);
    PowAdd(10, 8, 8);
    PowAdd(10, 3, 16);
  }

  // strtod.cc's digit reader (bignum.cc:88-99): up to 19 digits fit 64 bits.
  method ReadUInt64(buffer: seq<nat>, from: nat, digitsToRead: nat) returns (result: u64)
    requires from + digitsToRead <= |buffer| && digitsToRead <= 19 && IsDigits(buffer)
    ensures result == Decimal(buffer[from..from + digitsToRead])
  {
    result := 0;
    for i := from to from + digitsToRead
      invariant result == Decimal(buffer[from..i])
    {
      assert buffer[from..i + 1][..i - from] == buffer[from..i];
      ReadStep(buffer, from, i);
      result := result * 10 + buffer[i];
    }
  }

  lemma ReadStep(buffer: seq<nat>, from: nat, i: nat)
    requires from <= i < |buffer| && i + 1 - from <= 19 && IsDigits(buffer)
    ensures Decimal(buffer[from..i + 1]) < 0x1_0000_0000_0000_0000
  {
    DecimalBound(buffer[from..i + 1]);
    PowMonotone(10, i + 1 - from, 19);
    Ten19();
  }
}

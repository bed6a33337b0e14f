/** x * 2^n and x * 10^n for integer n, as exact real numbers: what a significand with a
    binary exponent and a digit string with a decimal exponent mean. */
module Reals {
  import opened Limbs

  function TwoScale(x: real, n: int): real
    decreases if n >= 0 then n else -n
  {
    if n == 0 then x else if n > 0 then 2.0 * TwoScale(x, n - 1) else TwoScale(x, n + 1) / 2.0
  }

  function TenScale(x: real, n: int): real
    decreases if n >= 0 then n else -n
  {
    if n == 0 then x else if n > 0 then 10.0 * TenScale(x, n - 1) else TenScale(x, n + 1) / 10.0
  }

  lemma {:induction false} TwoScaleInner(x: real, n: int)
    ensures TwoScale(2.0 * x, n) == TwoScale(x, n + 1) == 2.0 * TwoScale(x, n)
    decreases if n >= 0 then n else -n
  {
    if n > 0 { TwoScaleInner(x, n - 1); } else if n < 0 { TwoScaleInner(x, n + 1); }
  }

  lemma {:induction false} TenScaleInner(x: real, n: int)
    ensures TenScale(10.0 * x, n) == TenScale(x, n + 1) == 10.0 * TenScale(x, n)
    decreases if n >= 0 then n else -n
  {
    if n > 0 { TenScaleInner(x, n - 1); } else if n < 0 { TenScaleInner(x, n + 1); }
  }

  lemma {:induction false} TwoScaleAdd(x: real, y: real, n: int)
    ensures TwoScale(x + y, n) == TwoScale(x, n) + TwoScale(y, n)
    decreases if n >= 0 then n else -n
  {
    if n > 0 { TwoScaleAdd(x, y, n - 1); } else if n < 0 { TwoScaleAdd(x, y, n + 1); }
  }

  lemma {:induction false} TwoScaleOrder(x: real, y: real, n: int)
    ensures x < y <==> TwoScale(x, n) < TwoScale(y, n)
    decreases if n >= 0 then n else -n
  {
    if n > 0 { TwoScaleOrder(x, y, n - 1); } else if n < 0 { TwoScaleOrder(x, y, n + 1); }
  }

  lemma {:induction false} TenScaleOrder(x: real, y: real, n: int)
    ensures x < y <==> TenScale(x, n) < TenScale(y, n)
    decreases if n >= 0 then n else -n
  {
    if n > 0 { TenScaleOrder(x, y, n - 1); } else if n < 0 { TenScaleOrder(x, y, n + 1); }
  }

  lemma {:induction false} TenScaleCompose(x: real, m: nat, n: int)
    ensures TenScale(TenScale(x, m), n) == TenScale(x, m + n)
  {
    if m > 0 {
      TenScaleCompose(x, m - 1, n);
      TenScaleInner(TenScale(x, m - 1), n);
      TenScaleInner(x, m - 1 + n);
    }
  }

  lemma {:induction false} TenScaleGrows(x: real, m: int, n: int)
    requires x >= 0.0 && m <= n
    ensures 0.0 <= TenScale(x, m) <= TenScale(x, n)
    decreases n - m
  {
    if m < n {
      TenScaleGrows(x, m + 1, n);
      TenScaleInner(x, m);
    } else {
      TenScaleNonNegative(x, m);
    }
  }

  lemma {:induction false} TenScaleNonNegative(x: real, n: int)
    requires x >= 0.0
    ensures TenScale(x, n) >= 0.0
    decreases if n >= 0 then n else -n
  {
    if n > 0 { TenScaleNonNegative(x, n - 1); } else if n < 0 { TenScaleNonNegative(x, n + 1); }
  }

  // ------------------------------------------------- as products of numbers

  lemma {:induction false} TwoScalePow(x: real, n: nat)
    ensures TwoScale(x, n) == x * (Pow(2, n) as real)
  {
    if n > 0 {
      TwoScalePow(x, n - 1);
      RealRegroup(2.0, x, Pow(2, n - 1) as real);
    }
  }

  lemma {:induction false} TenScalePow(x: real, n: nat)
    ensures TenScale(x, n) == x * (Pow(10, n) as real)
  {
    if n > 0 {
      TenScalePow(x, n - 1);
      RealRegroup(10.0, x, Pow(10, n - 1) as real);
    }
  }

  lemma {:induction false} TwoScaleUnder(x: real, n: nat)
    ensures TwoScale(x, 0 - n) * (Pow(2, n) as real) == x
  {
    if n > 0 {
      TwoScaleUnder(x, n - 1);
      var y := TwoScale(x, 0 - n);
      assert TwoScale(x, 0 - (n - 1)) == 2.0 * y;
      RealRegroup(2.0, y, Pow(2, n - 1) as real);
    }
  }

  lemma {:induction false} TenScaleUnder(x: real, n: nat)
    ensures TenScale(x, 0 - n) * (Pow(10, n) as real) == x
  {
    if n > 0 {
      TenScaleUnder(x, n - 1);
      var y := TenScale(x, 0 - n);
      assert TenScale(x, 0 - (n - 1)) == 10.0 * y;
      RealRegroup(10.0, y, Pow(10, n - 1) as real);
    }
  }

  lemma RealRegroup(b: real, x: real, y: real)
    ensures b * (x * y) == x * (b * y) == (b * x) * y
  {
  }

  lemma RealMonotone(x: real, y: real, k: real)
    requires k > 0.0
    ensures x < y <==> x * k < y * k
    ensures x == y <==> x * k == y * k
  {
    assert (y - x) * k == y * k - x * k;
    if x < y { RealProductPositive(y - x, k); }
    if x > y { RealProductPositive(x - y, k); }
  }

  lemma RealProductPositive(x: real, k: real)
    requires x > 0.0 && k > 0.0
    ensures x * k > 0.0
  {
  }

  lemma RealOfProduct(x: int, y: int)
    ensures (x * y) as real == (x as real) * (y as real)
  {
  }
}

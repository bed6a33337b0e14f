/** What is promised of the printed digits leaves no choice: there is one answer for each double. */
module PrintedDigits {
  import opened Powers
  import opened Reals
  import opened Ieee
  import opened Meaning
  import opened RoundTrip

  lemma {:induction false} SameDigits(s: seq<nat>, t: seq<nat>)
    requires IsDigits(s) && IsDigits(t) && |s| == |t| && Decimal(s) == Decimal(t)
    ensures s == t
  {
    if s != [] {
      var n := |s| - 1;
      SameDigits(s[..n], t[..n]);
      assert s == s[..n] + [s[n]] && t == t[..n] + [t[n]];
    }
  }

  lemma PointNotBelow(d: nat, p: int, q: int)
    requires Reaches(d, TenScale(1.0, p - 1)) && !Reaches(d, TenScale(1.0, q))
    ensures p <= q
  {
    if q < p { TenScaleGrows(1.0, q, p - 1); }
  }

  // Half way between two even multiples lies one that is closer than both.
  lemma MiddleIsCloser(d: nat, a: nat, b: nat, t: int)
    requires a < b && a % 2 == 0 && b % 2 == 0
    requires Gap(DecimalReal(a, t), Val(d)) == Gap(DecimalReal(b, t), Val(d))
    ensures DecimalReal((a + b) / 2, t) == Val(d) && Gap(DecimalReal(a, t), Val(d)) > 0.0
  {
    var m := (a + b) / 2;
    TenScaleSubtract(m as real, a as real, t);
    TenScaleSubtract(b as real, m as real, t);
    assert (m as real) - (a as real) == (b as real) - (m as real);
    TenScaleOrder(a as real, m as real, t);
  }

  lemma MiddleWins(d: nat, a: nat, b: nat, t: int)
    requires 0 < d && Finite(d) && a < b && a % 2 == 0 && b % 2 == 0
    requires Gap(DecimalReal(a, t), Val(d)) == Gap(DecimalReal(b, t), Val(d))
    ensures !NoneCloser(d, a, t)
  {
    MiddleIsCloser(d, a, b, t);
    ValInside(d);
    assert RoundsTo(DecimalReal((a + b) / 2, t), d);
  }

  lemma ValInside(d: nat)
    requires 0 < d && Finite(d)
    ensures RoundsTo(Val(d), d)
  {
    Neighbours(d);
    Neighbours(d - 1);
  }

  /** The printed digits and the place of the decimal point are determined. */
  lemma PrintedIsUnique(d: nat, buffer: seq<nat>, point: int, buffer': seq<nat>, point': int)
    requires 0 < d && Finite(d) && Printed(d, buffer, point) && Printed(d, buffer', point')
    ensures buffer == buffer' && point == point'
  {
    PointNotBelow(d, point, point');
    PointNotBelow(d, point', point);
    DecimalBound(buffer);
    DecimalBound(buffer');
    assert |buffer| == |buffer'|;
    var a, b, t := Decimal(buffer), Decimal(buffer'), point - |buffer|;
    if a < b { MiddleWins(d, a, b, t); }
    if b < a { MiddleWins(d, b, a, t); }
    SameDigits(buffer, buffer');
  }
}

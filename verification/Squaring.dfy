/** Comba squaring in place (bignum.cc:360-421): columns of limb products, their sum, and
    the loops that overwrite the very copy they read from. */
module Squaring {
  import opened Limbs

  // The first k products of column i: limb j times limb i-j.
  function Column(s: seq<nat>, i: nat, k: nat): nat
    requires k <= i + 1
    decreases k
  {
    if k == 0 then 0 else Column(s, i, k - 1) + At(s, k - 1) * At(s, i - (k - 1))
  }

  // All columns below m, at their weights.
  function Columns(s: seq<nat>, m: nat): nat
  {
    if m == 0 then 0 else Columns(s, m - 1) + Column(s, m - 1, m) * Pow(BASE, m - 1)
  }

  // The same triangle of products, summed by rows: limb j times all limbs below m-j.
  function Rows(s: seq<nat>, m: nat, k: nat): nat
    requires k <= m
    decreases k
  {
    if k == 0 then 0 else Rows(s, m, k - 1) + (At(s, k - 1) * Pow(BASE, k - 1)) * Low(s, m - (k - 1))
  }

  lemma {:induction false} RowsStep(s: seq<nat>, m: nat, k: nat)
    requires k <= m
    ensures Rows(s, m + 1, k) == Rows(s, m, k) + Column(s, m, k) * Pow(BASE, m)
    decreases k
  {
    if k > 0 {
      RowsStep(s, m, k - 1);
      PowAdd(BASE, k - 1, m - (k - 1));
      RowCell(At(s, k - 1), Pow(BASE, k - 1), Low(s, m - (k - 1)), At(s, m - (k - 1)), Pow(BASE, m - (k - 1)));
      SumScale(Column(s, m, k - 1), At(s, k - 1) * At(s, m - (k - 1)), Pow(BASE, m));
    }
  }

  lemma RowCell(a: int, p: int, low: int, b: int, q: int)
    ensures (a * p) * (low + b * q) == (a * p) * low + (a * b) * (p * q)
  {
    MulExchange(a, p, b, q);
  }

  lemma {:induction false} ColumnsAreRows(s: seq<nat>, m: nat)
    ensures Columns(s, m) == Rows(s, m, m)
  {
    if m > 0 {
      ColumnsAreRows(s, m - 1);
      RowsStep(s, m - 1, m - 1);
      var a, p := At(s, m - 1), Pow(BASE, m - 1);
      assert Low(s, 1) == At(s, 0);
      assert Rows(s, m, m) == Rows(s, m, m - 1) + (a * p) * Low(s, 1);
      assert Column(s, m - 1, m) == Column(s, m - 1, m - 1) + a * At(s, 0);
      LastCell(Column(s, m - 1, m - 1), a, At(s, 0), p);
    }
  }

  lemma LastCell(c: int, a: int, b: int, p: int)
    ensures (c + a * b) * p == c * p + (a * p) * b
  {
    SumScale(c, a * b, p);
    SwapFactors(a, p, b);
    MulAssociative(a, p, b);
  }

  // Every row of a full square has the whole number as its second factor.
  lemma {:induction false} RowsFactor(s: seq<nat>, m: nat, k: nat)
    requires 2 * |s| <= m && k <= m
    ensures Rows(s, m, k) == Low(s, k) * Low(s, |s|)
    decreases k
  {
    if k == 0 {
      MulZero(Low(s, |s|), Low(s, k));
    } else {
      RowsFactor(s, m, k - 1);
      var cell, v := At(s, k - 1) * Pow(BASE, k - 1), Low(s, |s|);
      SumScale(Low(s, k - 1), cell, v);
      if k - 1 < |s| {
        LowPad(s, |s|, m - (k - 1));
      } else {
        assert cell == 0;
        MulZero(Low(s, m - (k - 1)), cell);
        MulZero(v, cell);
      }
    }
  }

  lemma ColumnsSquare(s: seq<nat>, m: nat)
    requires 2 * |s| <= m
    ensures Columns(s, m) == Low(s, |s|) * Low(s, |s|)
  {
    ColumnsAreRows(s, m);
    RowsFactor(s, m, m);
    LowPad(s, |s|, m);
  }

  lemma {:induction false} ColumnStartsLate(s: seq<nat>, i: nat, k: nat)
    requires k <= i + 1 && k + |s| <= i + 1
    ensures Column(s, i, k) == 0
  {
    if k > 0 {
      ColumnStartsLate(s, i, k - 1);
      MulZero(At(s, k - 1), At(s, i - (k - 1)));
    }
  }

  lemma {:induction false} ColumnEndsEarly(s: seq<nat>, i: nat, k: nat)
    requires |s| <= k <= i + 1
    ensures Column(s, i, k) == Column(s, i, |s|)
  {
    if k > |s| {
      ColumnEndsEarly(s, i, k - 1);
      MulZero(At(s, i - (k - 1)), At(s, k - 1));
    }
  }

  // The carry chain of the result limbs over the columns.
  ghost predicate Chain(a: seq<nat>, o: seq<nat>, n: nat, c: int)
    decreases n
  {
    if n == 0 then c == 0 else Chain(a, o, n - 1, At(a, n - 1) + BASE * c - Column(o, n - 1, n))
  }

  lemma {:induction false} ChainFrame(a: seq<nat>, a': seq<nat>, o: seq<nat>, n: nat, c: int)
    requires Chain(a, o, n, c) && forall i :: 0 <= i < n ==> At(a', i) == At(a, i)
    ensures Chain(a', o, n, c)
  {
    if n > 0 {
      ChainFrame(a, a', o, n - 1, At(a, n - 1) + BASE * c - Column(o, n - 1, n));
    }
  }

  lemma {:induction false} ChainSum(a: seq<nat>, o: seq<nat>, n: nat, c: int)
    requires Chain(a, o, n, c)
    ensures Low(a, n) + c * Pow(BASE, n) == Columns(o, n)
    decreases n
  {
    if n > 0 {
      var col, p := Column(o, n - 1, n), Pow(BASE, n - 1);
      var c0 := At(a, n - 1) + BASE * c - col;
      ChainSum(a, o, n - 1, c0);
      LinearScale(p, Low(a, n - 1), Columns(o, n - 1), 0, At(a, n - 1), col, 0, 1, c0, c);
    }
  }

  /** Nothing is left in the accumulator after the last column, and the limbs are the square. */
  lemma ChainSquare(a: seq<nat>, o: seq<nat>, acc: nat)
    requires Limbed(a) && Limbed(o) && Chain(a, o, 2 * |o|, acc)
    ensures acc == 0 && Low(a, 2 * |o|) == Low(o, |o|) * Low(o, |o|)
  {
    var n := |o|;
    var v, p := Low(o, n), Pow(BASE, 2 * n);
    ChainSum(a, o, 2 * n, acc);
    ColumnsSquare(o, 2 * n);
    LowBound(o, n);
    PowAdd(BASE, n, n);
    MulBound(v, v, Pow(BASE, n), v);
    MulStrictRight(Pow(BASE, n), v, Pow(BASE, n));
    NoCarryLeft(Low(a, 2 * n), acc, p, v * v);
  }

  lemma MulStrictRight(x: nat, y: nat, z: nat)
    requires x > 0 && y < z
    ensures x * y < x * z
  {
    MulStrict(y, z, x);
  }

  lemma NoCarryLeft(low: nat, acc: nat, p: nat, total: nat)
    requires low + acc * p == total < p
    ensures acc == 0
  {
    if acc > 0 { MulBound(1, p, acc, p); }
  }

  // ------------------------------------------------------------------ loops

  // The copied limbs from index `from` on are still intact.
  ghost predicate Copied(a: seq<nat>, o: seq<nat>, from: nat)
  {
    && 2 * |o| <= |a|
    && forall j :: from <= j < |o| ==> a[|o| + j] == o[j]
  }

  function Product(chunk1: nat, chunk2: nat): (r: u64)
    requires chunk1 < BASE && chunk2 < BASE
    ensures r < 0x100_0000_0000_0000 && r == chunk2 * chunk1
  {
    MulBound(chunk1, chunk2, 0xfff_ffff, 0xfff_ffff);
    chunk1 * chunk2
  }

  lemma NextProduct(s: seq<nat>, i: nat, k: nat)
    requires k <= i < 2 * |s| && k < |s| && i - k < |s|
    ensures Column(s, i, k + 1) == Column(s, i, k) + s[k] * s[i - k]
  {
  }

  // One column of the lower half, i < used.
  method LowColumn(a: array<nat>, used: nat, i: nat, start: u64, ghost o: seq<nat>) returns (acc: u64)
    requires |o| == used <= 64 && i < used && 2 * used <= a.Length && Limbed(o)
    requires Copied(a[..], o, 0) && start < 0x10_0000_0000
    ensures acc == start + Column(o, i, i + 1) && acc < 0x4000_0010_0000_0000
  {
    acc := start;
    var index1, index2 := i, 0;
    while index1 >= 0
      invariant -1 <= index1 && index1 + index2 == i
      invariant acc == start + Column(o, i, index2)
      invariant acc < 0x10_0000_0000 + index2 * 0x100_0000_0000_0000
    {
      var chunk1, chunk2 := a[used + index1], a[used + index2];
      assert chunk1 == o[index1] && chunk2 == o[index2];
      NextProduct(o, i, index2);
      acc := acc + Product(chunk1, chunk2);
      index1, index2 := index1 - 1, index2 + 1;
    }
  }

  // One column of the upper half, used <= i; it reads only limbs above i - used.
  method HighColumn(a: array<nat>, used: nat, i: nat, start: u64, ghost o: seq<nat>) returns (acc: u64)
    requires |o| == used <= 64 && used <= i < 2 * used <= a.Length && Limbed(o)
    requires Copied(a[..], o, i - used + 1) && start < 0x10_0000_0000
    ensures acc == start + Column(o, i, i + 1) && acc < 0x4000_0010_0000_0000
  {
    acc := start;
    var index1 := used - 1;
    var index2 := i - index1;
    ColumnStartsLate(o, i, index2);
    while index2 < used
      invariant i - used + 1 <= index2 <= used && index1 + index2 == i
      invariant acc == start + Column(o, i, index2)
      invariant acc < 0x10_0000_0000 + index2 * 0x100_0000_0000_0000
    {
      var chunk1, chunk2 := a[used + index1], a[used + index2];
      assert chunk1 == o[index1] && chunk2 == o[index2];
      NextProduct(o, i, index2);
      acc := acc + Product(chunk1, chunk2);
      index1, index2 := index1 - 1, index2 + 1;
    }
    ColumnEndsEarly(o, i, i + 1);
  }

  lemma ChainStep(a: seq<nat>, a': seq<nat>, o: seq<nat>, n: nat, c: int, c': int)
    requires Chain(a, o, n, c) && forall i :: 0 <= i < n ==> At(a', i) == At(a, i)
    requires At(a', n) + BASE * c' == c + Column(o, n, n + 1)
    ensures Chain(a', o, n + 1, c')
  {
    ChainFrame(a, a', o, n, c);
  }

  method LowHalf(a: array<nat>, used: nat, ghost o: seq<nat>) returns (acc: u64)
    requires |o| == used <= 64 && 2 * used <= a.Length && Limbed(o) && Limbed(a[..])
    requires Copied(a[..], o, 0)
    modifies a
    ensures acc < 0x10_0000_0000 && Limbed(a[..]) && Chain(a[..], o, used, acc) && Copied(a[..], o, 0)
    ensures forall j :: 2 * used <= j < a.Length ==> a[j] == old(a[j])
  {
    acc := 0;
    for i := 0 to used
      invariant acc < 0x10_0000_0000 && Limbed(a[..])
      invariant Chain(a[..], o, i, acc) && Copied(a[..], o, 0)
      invariant forall j :: 2 * used <= j < a.Length ==> a[j] == old(a[j])
    {
      ghost var before, c: int := a[..], acc;
      acc := LowColumn(a, used, i, acc, o);
      a[i] := acc % BASE;
      acc := acc / BASE;
      ChainStep(before, a[..], o, i, c, acc);
    }
  }

  method HighHalf(a: array<nat>, used: nat, start: u64, ghost o: seq<nat>) returns (acc: u64)
    requires |o| == used <= 64 && 2 * used <= a.Length && Limbed(o) && Limbed(a[..])
    requires start < 0x10_0000_0000 && Chain(a[..], o, used, start) && Copied(a[..], o, 0)
    modifies a
    ensures Limbed(a[..]) && Chain(a[..], o, 2 * used, acc)
    ensures forall j :: 2 * used <= j < a.Length ==> a[j] == old(a[j])
  {
    acc := start;
    for i := used to 2 * used
      invariant acc < 0x10_0000_0000 && Limbed(a[..])
      invariant Chain(a[..], o, i, acc) && Copied(a[..], o, i - used)
      invariant forall j :: 2 * used <= j < a.Length ==> a[j] == old(a[j])
    {
      ghost var before, c: int := a[..], acc;
      acc := HighColumn(a, used, i, acc, o);
      a[i] := acc % BASE;
      acc := acc / BASE;
      ChainStep(before, a[..], o, i, c, acc);
    }
  }

  method SquareInto(a: array<nat>, used: nat) returns (n: nat)
    requires used <= 64 && 2 * used <= a.Length && Limbed(a[..])
    requires forall j :: used <= j < a.Length ==> a[j] == 0
    modifies a
    ensures n == 2 * used && Limbed(a[..])
    ensures Low(a[..], n) == old(Low(a[..], used)) * old(Low(a[..], used))
    ensures forall j :: n <= j < a.Length ==> a[j] == 0
  {
    ghost var o := a[..used];
    for i := 0 to used
      invariant forall j :: 0 <= j < used ==> a[j] == o[j]
      invariant forall j :: 0 <= j < i ==> a[used + j] == o[j]
      invariant forall j :: 2 * used <= j < a.Length ==> a[j] == 0
      invariant Limbed(a[..])
    {
      a[used + i] := a[i];
    }
    LowFrame(old(a[..]), o, used);
    var acc := LowHalf(a, used, o);
    acc := HighHalf(a, used, acc, o);
    n := 2 * used;
    ChainSquare(a[..], o, acc);
  }
}

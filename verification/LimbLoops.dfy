/** The loops of bignum.cc over limb arrays. Each is specified by its carry chain or by
    the number the limbs below `used` stand for. */
module LimbLoops {
  import opened Limbs

  // uint32 arithmetic wraps.
  function Wrap32(x: int): (r: u32) { x % 0x1_0000_0000 }

  /** One limb of a subtraction as the source computes it: a 32-bit difference that
      may wrap, its low 28 bits, and its top bit as the borrow. */
  lemma BorrowStep(limb: nat, remove: nat, low: nat, high: nat)
    requires limb < BASE && low < BASE && remove == low + BASE * high
    ensures var d := Wrap32(limb - low);
            d % BASE - BASE * (d / 0x8000_0000 + high) == limb - remove
  {
    if limb >= low {
      assert Wrap32(limb - low) == limb - low;
    } else {
      assert Wrap32(limb - low) == 0x1_0000_0000 + limb - low;
    }
  }

  // One limb of MultiplyByUInt32.
  function Step32(factor: u32, limb: nat, carry: u64): (r: (nat, u64))
    requires limb < BASE && carry < 0x1_0000_0000
    ensures r.0 < BASE && r.1 < 0x1_0000_0000
    ensures factor * limb + carry == r.0 + BASE * r.1
    ensures factor > 0 && limb > 0 ==> r.0 > 0 || r.1 > 0
  {
    MulBound(factor, limb, 0xffff_ffff, 0xfff_ffff);
    if factor > 0 && limb > 0 then
      MulPositive(factor, limb);
      Split32(factor * limb + carry)
    else Split32(factor * limb + carry)
  }

  function Split32(product: u64): (r: (nat, u64)) { (product % BASE, product / BASE) }

  /** One limb of MultiplyByUInt64. No 64-bit intermediate wraps, whatever the carry was. */
  function Step64(factor: u64, limb: nat, carry: u64): (r: (nat, u64))
    requires limb < BASE
    ensures r.0 < BASE
    ensures factor * limb + carry == r.0 + BASE * r.1
  {
    var low: u64 := factor % 0x1_0000_0000;
    var high: u64 := factor / 0x1_0000_0000;
    MulBound(low, limb, 0xffff_ffff, 0xfff_ffff);
    MulBound(high, limb, 0xffff_ffff, 0xfff_ffff);
    HighLow(low, high, limb);
    var productLow: u64 := low * limb;
    var productHigh: u64 := high * limb;
    var tmp: u64 := carry % BASE + productLow;
    (tmp % BASE, carry / BASE + tmp / BASE + productHigh * 16)
  }

  lemma HighLow(low: nat, high: nat, limb: nat)
    ensures (low + 0x1_0000_0000 * high) * limb == low * limb + 0x1_0000_0000 * (high * limb)
  {
  }

  method MultiplyInto32(a: array<nat>, used: nat, factor: u32, ghost limit: nat) returns (n: nat)
    requires 0 < used <= a.Length && Limbed(a[..]) && a[used - 1] > 0 && factor > 0
    requires forall j :: used <= j < a.Length ==> a[j] == 0
    requires used <= limit <= a.Length && factor * Low(a[..], used) < Pow(BASE, limit)
    modifies a
    ensures used <= n <= limit && Limbed(a[..]) && a[n - 1] > 0
    ensures forall j :: n <= j < a.Length ==> a[j] == 0
    ensures Low(a[..], n) == factor * Low(old(a[..]), used)
  {
    ghost var o := a[..];
    var carry: u64 := 0;
    for i := 0 to used
      invariant carry < 0x1_0000_0000 && Limbed(a[..])
      invariant Linear(a[..], [], o, i, factor, carry)
      invariant forall j :: i <= j < a.Length ==> a[j] == o[j]
      invariant i > 0 && o[i - 1] > 0 && carry == 0 ==> a[i - 1] > 0
    {
      ghost var before, c := a[..], carry;
      assert o[i] == before[i] < BASE;
      var (limb, c') := Step32(factor, a[i], carry);
      a[i], carry := limb, c';
      LinearStep(before, a[..], [], o, i, factor, c, carry);
    }
    n := PushCarry(a, used, carry, o, factor, limit);
  }

  method MultiplyInto64(a: array<nat>, used: nat, factor: u64, ghost limit: nat) returns (n: nat)
    requires used <= a.Length && Limbed(a[..]) && (used > 0 ==> a[used - 1] > 0) && factor > 0
    requires forall j :: used <= j < a.Length ==> a[j] == 0
    requires used <= limit <= a.Length && factor * Low(a[..], used) < Pow(BASE, limit)
    modifies a
    ensures used <= n <= limit && Limbed(a[..]) && (n > 0 ==> used > 0 && a[n - 1] > 0)
    ensures forall j :: n <= j < a.Length ==> a[j] == 0
    ensures Low(a[..], n) == factor * Low(old(a[..]), used)
  {
    ghost var o := a[..];
    var carry: u64 := 0;
    for i := 0 to used
      invariant Limbed(a[..]) && (i == 0 ==> carry == 0)
      invariant Linear(a[..], [], o, i, factor, carry)
      invariant forall j :: i <= j < a.Length ==> a[j] == o[j]
      invariant i > 0 && o[i - 1] > 0 && carry == 0 ==> a[i - 1] > 0
    {
      ghost var before, c := a[..], carry;
      assert o[i] == before[i] < BASE;
      var (limb, c') := Step64(factor, a[i], carry);
      if o[i] > 0 { MulPositive(factor, o[i]); }
      a[i], carry := limb, c';
      LinearStep(before, a[..], [], o, i, factor, c, carry);
    }
    n := PushCarry(a, used, carry, o, factor, limit);
  }

  // Appends what is left of the carry as new limbs.
  method PushCarry(a: array<nat>, used: nat, carryIn: u64, ghost o: seq<nat>, ghost k: nat, ghost limit: nat)
      returns (n: nat)
    requires used <= limit <= a.Length == |o| && Limbed(a[..])
    requires Linear(a[..], [], o, used, k, carryIn)
    requires forall j :: used <= j < a.Length ==> a[j] == o[j] == 0
    requires k * Low(o, used) < Pow(BASE, limit)
    requires used > 0 && carryIn == 0 ==> a[used - 1] > 0
    requires used == 0 ==> carryIn == 0
    modifies a
    ensures used <= n <= limit && Limbed(a[..]) && (n > 0 ==> used > 0 && a[n - 1] > 0)
    ensures forall j :: n <= j < a.Length ==> a[j] == 0
    ensures Low(a[..], n) == k * Low(o, used)
  {
    var carry: u64 := carryIn;
    n := used;
    while carry != 0
      invariant used <= n <= limit && Limbed(a[..])
      invariant Linear(a[..], [], o, n, k, carry)
      invariant forall j :: n <= j < a.Length ==> a[j] == 0
      invariant n > 0 && carry == 0 ==> a[n - 1] > 0
      invariant used == 0 ==> carry == 0 && n == used
      decreases carry
    {
      LowPad(o, used, n);
      CarryFits(a[..], o, n, k, carry, limit);
      ghost var before, c := a[..], carry;
      a[n] := carry % BASE;
      carry := carry / BASE;
      assert k * At(o, n) == 0;
      LinearStep(before, a[..], [], o, n, k, c, carry);
      n := n + 1;
    }
    LinearSum(a[..], [], o, n, k, 0);
    LowZero([], n);
    LowPad(o, used, n);
  }

  // One limb of BigitsShiftLeft: a 32-bit shift that drops high bits, then the mask.
  function ShiftStep(limb: nat, carry: nat, shift: nat): (r: (nat, nat))
    requires limb < BASE && shift < 28 && carry < Pow(2, shift)
    ensures r.0 < BASE && r.1 < Pow(2, shift)
    ensures Pow(2, shift) * limb + carry == r.0 + BASE * r.1
  {
    ShiftDivides(limb, carry, shift);
    (Wrap32(Wrap32(Pow(2, shift) * limb) + carry) % BASE, limb / Pow(2, 28 - shift))
  }

  lemma ShiftDivides(limb: nat, carry: nat, shift: nat)
    requires limb < BASE && shift < 28 && carry < Pow(2, shift)
    ensures Pow(2, 28 - shift) > 0
    ensures var p, h := Pow(2, shift), Pow(2, 28 - shift);
      && p * limb >= 0 && 0 <= limb / h < p
      && p * limb + carry == Wrap32(Wrap32(p * limb) + carry) % BASE + BASE * (limb / h)
  {
    ShiftFactors(shift);
    ShiftExact(limb, carry, Pow(2, shift), Pow(2, 28 - shift));
  }

  lemma ShiftFactors(shift: nat)
    requires shift <= 28
    ensures Pow(2, 28 - shift) > 0 && Pow(2, shift) * Pow(2, 28 - shift) == BASE
  {
    PowPositive(2, 28 - shift);
    PowAdd(2, shift, 28 - shift);
    BaseIsPowerOfTwo();
  }

  lemma ShiftExact(limb: nat, carry: nat, p: nat, h: nat)
    requires limb < BASE && h > 0 && p * h == BASE && carry < p
    ensures p * limb >= 0 && 0 <= limb / h < p
    ensures p * limb + carry == Wrap32(Wrap32(p * limb) + carry) % BASE + BASE * (limb / h)
  {
    var q, r := limb / h, limb % h;
    ShiftParts(limb, q, r, p, h);
    ShiftBounds(limb, q, r, p, h);
    WrapExact(q, p * r, carry);
  }

  lemma ShiftBounds(limb: nat, q: nat, r: nat, p: nat, h: nat)
    requires limb < BASE == p * h && limb == h * q + r && r < h
    ensures q < p && 0 <= p * r <= BASE - p
  {
    MulBound(p, r, p, h - 1);
    assert p * (h - 1) == p * h - p;
    if q >= p { MulBound(h, p, h, q); }
  }

  lemma ShiftParts(limb: nat, q: nat, r: nat, p: nat, h: nat)
    requires limb == h * q + r && p * h == BASE
    ensures p * limb == BASE * q + p * r
  {
    MulAssociative(p, h, q);
    assert p * (h * q + r) == p * (h * q) + p * r;
  }

  lemma WrapExact(q: nat, low: nat, carry: nat)
    requires low + carry < BASE
    ensures Wrap32(Wrap32(BASE * q + low) + carry) % BASE == low + carry
  {
    assert Wrap32(BASE * q + low) == BASE * (q % 16) + low;
  }

  method ShiftInto(a: array<nat>, used: nat, shift: nat) returns (n: nat)
    requires 0 < used < a.Length && Limbed(a[..]) && a[used - 1] > 0 && shift < 28
    requires forall j :: used <= j < a.Length ==> a[j] == 0
    modifies a
    ensures used <= n <= used + 1 && Limbed(a[..]) && a[n - 1] > 0
    ensures forall j :: n <= j < a.Length ==> a[j] == 0
    ensures Low(a[..], n) == Pow(2, shift) * Low(old(a[..]), used)
  {
    ghost var o, p := a[..], Pow(2, shift);
    var carry := 0;
    PowPositive(2, shift);
    for i := 0 to used
      invariant carry < p && Limbed(a[..])
      invariant Linear(a[..], [], o, i, p, carry)
      invariant forall j :: i <= j < a.Length ==> a[j] == o[j]
      invariant i > 0 && o[i - 1] > 0 && carry == 0 ==> a[i - 1] > 0
    {
      ghost var before, c := a[..], carry;
      assert o[i] == before[i] < BASE;
      var (limb, c') := ShiftStep(a[i], carry, shift);
      if o[i] > 0 { MulPositive(p, o[i]); }
      a[i], carry := limb, c';
      LinearStep(before, a[..], [], o, i, p, c, carry);
    }
    n := used;
    if carry != 0 {
      ghost var before := a[..];
      SmallPower(shift);
      a[n] := carry;
      assert p * At(o, n) == 0;
      LinearStep(before, a[..], [], o, n, p, carry, 0);
      n := n + 1;
    }
    LinearSum(a[..], [], o, n, p, 0);
    LowZero([], n);
    LowPad(o, used, n);
  }

  lemma SmallPower(shift: nat)
    requires shift < 28
    ensures Pow(2, shift) < BASE
  {
    BaseIsPowerOfTwo();
    PowMonotone(2, shift + 1, 28);
    PowPositive(2, shift);
  }


  // Cuts a 64-bit number into 64 / kBigitSize + 1 limbs.
  method SplitUInt64(a: array<nat>, value: u64) returns (n: nat)
    requires a.Length == CAPACITY && forall j :: 0 <= j < a.Length ==> a[j] == 0
    modifies a
    ensures n == 3 && Limbed(a[..]) && Low(a[..], n) == value
    ensures forall j :: n <= j < a.Length ==> a[j] == 0
  {
    var rest: u64 := value;
    n := 64 / BIGIT_SIZE + 1;
    for i := 0 to n
      invariant Limbed(a[..])
      invariant forall j :: i <= j < a.Length ==> a[j] == 0
      invariant Linear(a[..], [value], [], i, 0, if i == 0 then 0 else rest)
      invariant i == 0 ==> rest == value
      invariant i == 1 ==> rest < 0x10_0000_0000
      invariant i == 2 ==> rest < 0x100
      invariant i == 3 ==> rest == 0
    {
      ghost var before, r := a[..], if i == 0 then 0 else rest;
      a[i] := rest % BASE;
      rest := rest / BASE;
      LinearStep(before, a[..], [value], [], i, 0, r, rest);
    }
    LinearSum(a[..], [value], [], n, 0, 0);
    LowPad([value], 1, n);
    assert Low([value], 1) == value;
  }

  // Moves the limbs in use up by z positions and clears the ones below.
  method MoveUp(a: array<nat>, used: nat, z: nat)
    requires used + z <= a.Length && Limbed(a[..])
    requires forall j :: used <= j < a.Length ==> a[j] == 0
    modifies a
    ensures Limbed(a[..])
    ensures forall j :: used + z <= j < a.Length ==> a[j] == 0
    ensures used > 0 ==> a[used + z - 1] == old(a[used - 1])
    ensures Low(a[..], used + z) == Scale(Low(old(a[..]), used), z)
  {
    ghost var o := a[..];
    CopyUp(a, used, z);
    ClearBelow(a, z);
    LowShift(o, a[..], z, used);
    ScaleIs(Low(o, used), z);
  }

  method CopyUp(a: array<nat>, used: nat, z: nat)
    requires used + z <= a.Length && Limbed(a[..])
    modifies a
    ensures Limbed(a[..])
    ensures forall j :: z <= j < used + z ==> a[j] == old(a[j - z])
    ensures forall j :: used + z <= j < a.Length ==> a[j] == old(a[j])
  {
    var i := used;
    while i > 0
      invariant 0 <= i <= used && Limbed(a[..])
      invariant forall j :: 0 <= j < i ==> a[j] == old(a[j])
      invariant forall j :: i + z <= j < used + z ==> a[j] == old(a[j - z])
      invariant forall j :: used + z <= j < a.Length ==> a[j] == old(a[j])
    {
      i := i - 1;
      assert a[..][i] < BASE;
      a[i + z] := a[i];
    }
  }

  method ClearBelow(a: array<nat>, z: nat)
    requires z <= a.Length && Limbed(a[..])
    modifies a
    ensures Limbed(a[..])
    ensures forall j :: 0 <= j < z ==> a[j] == 0
    ensures forall j :: z <= j < a.Length ==> a[j] == old(a[j])
  {
    for k := 0 to z
      invariant Limbed(a[..])
      invariant forall j :: 0 <= j < k ==> a[j] == 0
      invariant forall j :: z <= j < a.Length ==> a[j] == old(a[j])
    {
      a[k] := 0;
    }
  }

  method AddInto(a: array<nat>, used: nat, b: array<nat>, bu: nat, offset: nat, ghost e: nat) returns (n: nat)
    requires a != b && bu <= b.Length && Max(used, offset + bu) < a.Length
    requires Limbed(a[..]) && Limbed(b[..])
    requires forall j :: used <= j < a.Length ==> a[j] == 0
    requires used > 0 ==> a[used - 1] > 0
    requires if bu > 0 then b[bu - 1] > 0 else offset == 0
    modifies a
    ensures Limbed(a[..]) && used <= n <= a.Length
    ensures forall j :: n <= j < a.Length ==> a[j] == 0
    ensures n > 0 ==> a[n - 1] > 0
    ensures Scale(Low(a[..], n), e) == Scale(Low(old(a[..]), used), e) + Scale(Low(b[..], bu), offset + e)
  {
    ghost var o := a[..];
    var carry := AddLimbs(a, b, bu, offset);
    var pos := CarryUp(a, offset + bu, carry, Max(used, offset + bu), o, Shifted(b[..], offset, bu));
    n := Max(pos, used);
    LinearFinish(a[..], o, used, b[..], bu, offset, pos, n, e, 1);
  }

  method AddLimbs(a: array<nat>, b: array<nat>, bu: nat, offset: nat) returns (carry: u32)
    requires a != b && bu <= b.Length && offset + bu <= a.Length
    requires Limbed(a[..]) && Limbed(b[..])
    modifies a
    ensures carry <= 1 && Limbed(a[..])
    ensures Linear(a[..], old(a[..]), Shifted(b[..], offset, bu), offset + bu, 1, carry)
    ensures forall j :: offset + bu <= j < a.Length ==> a[j] == old(a[j])
    ensures bu > 0 && b[bu - 1] > 0 && carry == 0 ==> a[offset + bu - 1] > 0
    ensures bu == 0 ==> carry == 0
  {
    carry := 0;
    ghost var o, s := a[..], Shifted(b[..], offset, bu);
    LinearStart(o, s, offset, 1);
    for i := 0 to bu
      invariant carry <= 1 && (i == 0 ==> carry == 0)
      invariant Limbed(a[..]) && Linear(a[..], o, s, offset + i, 1, carry)
      invariant forall j :: offset + i <= j < a.Length ==> a[j] == o[j]
      invariant i > 0 && b[i - 1] > 0 && carry == 0 ==> a[offset + i - 1] > 0
    {
      ghost var before, c: int := a[..], carry;
      var sum: u32 := a[offset + i] + b[i] + carry;
      a[offset + i] := sum % BASE;
      carry := sum / BASE;
      LinearStep(before, a[..], o, s, offset + i, 1, c, carry);
    }
  }

  // Runs a carry up through the limbs from position `from`; it dies at m at the latest.
  method CarryUp(a: array<nat>, from: nat, carryIn: u32, m: nat, ghost o: seq<nat>, ghost s: seq<nat>)
      returns (pos: nat)
    requires from <= m < a.Length && |s| <= from && carryIn <= 1 && |o| == a.Length
    requires Limbed(a[..]) && Linear(a[..], o, s, from, 1, carryIn)
    requires forall j :: from <= j < a.Length ==> a[j] == o[j]
    requires forall j :: m <= j < a.Length ==> o[j] == 0
    modifies a
    ensures from <= pos <= m + 1 && Limbed(a[..])
    ensures Linear(a[..], o, s, pos, 1, 0)
    ensures forall j :: pos <= j < a.Length ==> a[j] == o[j]
    ensures if carryIn == 0 then pos == from && a[..] == old(a[..]) else pos > from && a[pos - 1] > 0
  {
    var carry: u32 := carryIn;
    pos := from;
    while carry != 0
      invariant from <= pos <= m + 1 && carry <= 1
      invariant pos <= m || carry == 0
      invariant Limbed(a[..]) && Linear(a[..], o, s, pos, 1, carry)
      invariant forall j :: pos <= j < a.Length ==> a[j] == o[j]
      invariant if pos == from then carry == carryIn && a[..] == old(a[..])
                else carryIn != 0 && (carry == 0 ==> a[pos - 1] > 0)
      decreases m + 1 - pos
    {
      ghost var before, c: int := a[..], carry;
      assert a[..][pos] < BASE;
      var sum: u32 := a[pos] + carry;
      a[pos] := sum % BASE;
      carry := sum / BASE;
      LinearStep(before, a[..], o, s, pos, 1, c, carry);
      pos := pos + 1;
    }
  }

  method SubtractLimbs(a: array<nat>, b: array<nat>, bu: nat, offset: nat) returns (borrow: u32)
    requires a != b && bu <= b.Length && offset + bu <= a.Length
    requires Limbed(a[..]) && Limbed(b[..])
    modifies a
    ensures borrow <= 1 && Limbed(a[..])
    ensures Linear(a[..], old(a[..]), Shifted(b[..], offset, bu), offset + bu, -1, Negate(borrow))
    ensures forall j :: offset + bu <= j < a.Length ==> a[j] == old(a[j])
  {
    borrow := 0;
    ghost var o, s := a[..], Shifted(b[..], offset, bu);
    LinearStart(o, s, offset, -1);
    for i := 0 to bu
      invariant borrow <= 1
      invariant Limbed(a[..]) && Linear(a[..], o, s, offset + i, -1, Negate(borrow))
      invariant forall j :: offset + i <= j < a.Length ==> a[j] == o[j]
    {
      ghost var before, c: int := a[..], borrow;
      var difference: u32 := Wrap32(a[i + offset] - b[i] - borrow);
      SubtractStep(a[i + offset], b[i] + borrow);
      a[i + offset] := difference % BASE;
      borrow := difference / 0x8000_0000;
      LinearStep(before, a[..], o, s, offset + i, -1, Negate(c), Negate(borrow));
    }
  }

  // Runs a borrow up; below `used` it always finds a limb to take from.
  method BorrowUp(a: array<nat>, from: nat, used: nat, borrowIn: u32,
                  ghost o: seq<nat>, ghost b: seq<nat>, ghost bu: nat, ghost off: nat, ghost e: nat)
    requires off + bu == from <= used <= a.Length == |o| && bu <= |b| && borrowIn <= 1
    requires Limbed(a[..]) && Linear(a[..], o, Shifted(b, off, bu), from, -1, Negate(borrowIn))
    requires forall j :: from <= j < a.Length ==> a[j] == o[j]
    requires Scale(Low(b, bu), off + e) <= Scale(Low(o, used), e)
    modifies a
    ensures Limbed(a[..]) && Linear(a[..], o, Shifted(b, off, bu), used, -1, 0)
    ensures forall j :: used <= j < a.Length ==> a[j] == o[j]
  {
    var borrow: u32, i := borrowIn, from;
    ghost var s := Shifted(b, off, bu);
    while borrow != 0
      invariant from <= i <= used && borrow <= 1
      invariant Limbed(a[..]) && Linear(a[..], o, s, i, -1, Negate(borrow))
      invariant forall j :: i <= j < a.Length ==> a[j] == o[j]
      decreases used - i
    {
      assert i < used by {
        if i == used { BorrowEnds(a[..], o, b, bu, off, used, e, 1, borrow); }
      }
      ghost var before, c: int := a[..], borrow;
      assert a[..][i] < BASE;
      var difference: u32 := Wrap32(a[i] - borrow);
      SubtractStep(a[i], borrow);
      a[i] := difference % BASE;
      borrow := difference / 0x8000_0000;
      LinearStep(before, a[..], o, s, i, -1, Negate(c), Negate(borrow));
      i := i + 1;
    }
    LinearExtend(a[..], o, s, i, used, -1);
  }

  lemma NegatedProduct(x: int, y: int)
    ensures Negate(x) * y == Negate(x * y)
  {
  }

  // One limb of SubtractTimes.
  function TimesStep(limb: nat, b: nat, factor: nat, borrow: u32): (r: (nat, u32))
    requires limb < BASE && b < BASE && factor < BASE && borrow <= BASE
    ensures r.0 < BASE && r.1 <= BASE
    ensures r.0 + BASE * Negate(r.1) == limb + Negate(factor) * b + Negate(borrow)
  {
    MulBound(factor, b, 0xfff_ffff, 0xfff_ffff);
    NegatedProduct(factor, b);
    var product: u64 := factor * b;
    var remove: u64 := borrow + product;
    var difference: u32 := Wrap32(limb - remove % BASE);
    BorrowStep(limb, remove, remove % BASE, remove / BASE);
    (difference % BASE, difference / 0x8000_0000 + remove / BASE)
  }

  method SubtractTimesLimbs(a: array<nat>, b: array<nat>, bu: nat, offset: nat, factor: nat) returns (borrow: u32)
    requires a != b && bu <= b.Length && offset + bu <= a.Length && factor < BASE
    requires Limbed(a[..]) && Limbed(b[..])
    modifies a
    ensures borrow <= BASE && Limbed(a[..])
    ensures Linear(a[..], old(a[..]), Shifted(b[..], offset, bu), offset + bu, Negate(factor), Negate(borrow))
    ensures forall j :: offset + bu <= j < a.Length ==> a[j] == old(a[j])
  {
    borrow := 0;
    ghost var o, s := a[..], Shifted(b[..], offset, bu);
    LinearStart(o, s, offset, Negate(factor));
    for i := 0 to bu
      invariant borrow <= BASE
      invariant Limbed(a[..]) && Linear(a[..], o, s, offset + i, Negate(factor), Negate(borrow))
      invariant forall j :: offset + i <= j < a.Length ==> a[j] == o[j]
    {
      ghost var before, c: int := a[..], borrow;
      assert a[..][offset + i] < BASE && b[..][i] < BASE;
      var (limb, c') := TimesStep(a[i + offset], b[i], factor, borrow);
      a[i + offset], borrow := limb, c';
      LinearStep(before, a[..], o, s, offset + i, Negate(factor), Negate(c), Negate(borrow));
    }
  }

  // The limbs above other's: the source's loop advances twice a round.
  method BorrowTop(a: array<nat>, from: nat, used: nat, borrowIn: u32, ghost o: seq<nat>, ghost s: seq<nat>,
                   ghost k: int)
    returns (borrow: u32, early: bool)
    requires |s| == from <= used <= from + 1 && used <= a.Length == |o| && borrowIn <= BASE
    requires Limbed(a[..]) && Linear(a[..], o, s, from, k, Negate(borrowIn))
    requires forall j :: from <= j < a.Length ==> a[j] == o[j]
    modifies a
    ensures Limbed(a[..]) && Linear(a[..], o, s, used, k, Negate(borrow))
    ensures forall j :: used <= j < a.Length ==> a[j] == o[j]
    ensures early ==> borrow == 0 && used > 0 && a[used - 1] == o[used - 1]
  {
    var i := from;
    borrow, early := borrowIn, false;
    while i < used
      invariant i == from || i == from + 2
      invariant Limbed(a[..]) && borrow <= BASE
      invariant if i == from then
                  && Linear(a[..], o, s, from, k, Negate(borrow))
                  && (forall j :: from <= j < a.Length ==> a[j] == o[j])
                else
                  && used == from + 1 && Linear(a[..], o, s, used, k, Negate(borrow))
                  && (forall j :: used <= j < a.Length ==> a[j] == o[j])
    {
      MulZero(k, At(s, i));
      if borrow == 0 {
        LinearStep(a[..], a[..], o, s, i, k, 0, 0);
        early := true;
        return;
      }
      ghost var before, c: int := a[..], borrow;
      assert a[..][i] < BASE;
      var difference: u32 := Wrap32(a[i] - borrow);
      SubtractStep(a[i], borrow);
      a[i] := difference % BASE;
      borrow := difference / 0x8000_0000;
      LinearStep(before, a[..], o, s, i, k, Negate(c), Negate(borrow));
      i := i + 1;
      i := i + 1;
    }
  }

  method SubtractTimesInto(a: array<nat>, used: nat, b: array<nat>, bu: nat, offset: nat, factor: nat, ghost e: nat)
      returns (early: bool)
    requires a != b && bu <= b.Length && offset + bu <= used <= offset + bu + 1 && used <= a.Length && factor < BASE
    requires Limbed(a[..]) && Limbed(b[..])
    requires Times(factor, Scale(Low(b[..], bu), offset + e)) <= Scale(Low(a[..], used), e)
    modifies a
    ensures Limbed(a[..])
    ensures Scale(Low(a[..], used), e)
      == Scale(Low(old(a[..]), used), e) - Times(factor, Scale(Low(b[..], bu), offset + e))
    ensures forall j :: used <= j < a.Length ==> a[j] == old(a[j])
    ensures early ==> used > 0 && a[used - 1] == old(a[used - 1])
  {
    ghost var o := a[..];
    var borrow := SubtractTimesLimbs(a, b, bu, offset, factor);
    borrow, early := BorrowTop(a, offset + bu, used, borrow, o, Shifted(b[..], offset, bu), Negate(factor));
    BorrowEnds(a[..], o, b[..], bu, offset, used, e, factor, borrow);
    LinearTimes(a[..], o, used, b[..], bu, offset, e, factor);
  }

  lemma SubtractStep(limb: nat, remove: nat)
    requires limb < BASE && remove <= BASE
    ensures var d := Wrap32(limb - remove);
            d / 0x8000_0000 <= 1 && d % BASE - BASE * (d / 0x8000_0000) == limb - remove
  {
    if limb >= remove {
      assert Wrap32(limb - remove) == limb - remove;
    } else {
      assert Wrap32(limb - remove) == 0x1_0000_0000 + limb - remove;
    }
  }

  /** A borrow left over at the top would make the difference negative. */
  lemma BorrowEnds(a: seq<nat>, o: seq<nat>, ob: seq<nat>, bu: nat, off: nat, n: nat, e: nat, k: nat, borrow: nat)
    requires bu <= |ob| && off + bu <= n && Limbed(a)
    requires Linear(a, o, Shifted(ob, off, bu), n, Negate(k), Negate(borrow))
    requires Times(k, Scale(Low(ob, bu), off + e)) <= Scale(Low(o, n), e)
    ensures borrow == 0
  {
    var b, p, q := Shifted(ob, off, bu), Pow(BASE, n), Pow(BASE, e);
    LinearSum(a, o, b, n, Negate(k), Negate(borrow));
    LowBound(a, n);
    LowPad(b, off + bu, n);
    LowShift(ob, b, off, bu);
    PowAdd(BASE, off, e);
    PowPositive(BASE, e);
    ScaleIs(Low(ob, bu), off + e);
    ScaleIs(Low(o, n), e);
    TimesIs(k, Scale(Low(ob, bu), off + e));
    NoDebt(Low(a, n), p, Low(o, n), Low(ob, bu), Pow(BASE, off), q, k, borrow);
  }

  lemma NoDebt(la: nat, p: nat, lo: nat, lb: nat, r: nat, q: nat, k: nat, borrow: nat)
    requires la < p && q > 0
    requires la + Negate(borrow) * p == lo + Negate(k) * (lb * r)
    requires k * (lb * (r * q)) <= lo * q
    ensures borrow == 0
  {
    var owed := k * (lb * r);
    assert owed * q == k * (lb * (r * q)) by { OffsetScale(0, lb, r, q, k); }
    assert owed <= lo by {
      if lo < owed { MulStrict(lo, owed, q); }
    }
    assert Negate(k) * (lb * r) == 0 - owed;
    assert Negate(borrow) * p == 0 - borrow * p;
    if borrow > 0 { MulBound(1, p, borrow, p); }
  }
}

/** DecodeUTF8 (util/utf8.hh) and code-point boundaries, against UTF-8 as defined in sections 3
    and 4 of RFC 3629. */
module Utf8 {

  type Byte = b: int | 0 <= b < 256

  // The octets of a text of ASCII characters.
  function Octets(text: string): (r: seq<Byte>)
    requires forall i :: 0 <= i < |text| ==> text[i] < 128 as char
    ensures |r| == |text| && forall i :: 0 <= i < |r| ==> r[i] == text[i] as int
  {
    seq(|text|, i requires 0 <= i < |text| => text[i] as int)
  }

  datatype Decoded = Bad | Good(cp: nat, len: nat)

  predicate IsTrailByte(b: Byte)
  {
    0x80 <= b < 0xC0
  }

  predicate IsValidCodepoint(c: nat)
  {
    c < 0xD800 || 0xE000 <= c <= 0x10FFFF
  }

  // The masks and shifts of the source keep the low bits of each byte.
  function Two(a: int, b: int): nat
  {
    a % 32 * 64 + b % 64
  }

  function Three(a: int, b: int, c: int): nat
  {
    a % 16 * 4096 + b % 64 * 64 + c % 64
  }

  function Four(a: int, b: int, c: int, d: int): nat
  {
    a % 8 * 262144 + b % 64 * 4096 + c % 64 * 64 + d % 64
  }

  function DecodeUTF8(s: seq<Byte>): (r: Decoded)
    requires s != []
    ensures r.Good? ==> 1 <= r.len <= 4 && r.len <= |s| && IsValidCodepoint(r.cp)
  {
    if s[0] < 0x80 then Good(s[0], 1)
    else if |s| >= 2 && 0xC0 <= s[0] < 0xE0 then
      var cp := Two(s[0], s[1]);
      if IsTrailByte(s[1]) && cp >= 0x80 && IsValidCodepoint(cp) then Good(cp, 2) else Bad
    else if |s| >= 3 && 0xE0 <= s[0] < 0xF0 then
      var cp := Three(s[0], s[1], s[2]);
      if IsTrailByte(s[1]) && IsTrailByte(s[2]) && cp >= 0x800 && IsValidCodepoint(cp) then Good(cp, 3) else Bad
    else if |s| >= 4 && 0xF0 <= s[0] < 0xF8 then
      var cp := Four(s[0], s[1], s[2], s[3]);
      if IsTrailByte(s[1]) && IsTrailByte(s[2]) && IsTrailByte(s[3]) && cp >= 0x10000 && IsValidCodepoint(cp) then
        Good(cp, 4)
      else Bad
    else Bad
  }

  // The octets of a character number (RFC 3629, section 3).
  function Encode(c: nat): seq<Byte>
    requires IsValidCodepoint(c)
  {
    if c < 0x80 then [c]
    else if c < 0x800 then [0xC0 + c / 64, 0x80 + c % 64]
    else if c < 0x10000 then [0xE0 + c / 4096, 0x80 + c / 64 % 64, 0x80 + c % 64]
    else [0xF0 + c / 262144, 0x80 + c / 4096 % 64, 0x80 + c / 64 % 64, 0x80 + c % 64]
  }

  // Base-64 digits, from both sides.
  lemma DigitsOf(x: nat, b: nat, d: nat, e: nat)
    requires b < 64 && d < 64 && e < 64
    ensures var c := x * 262144 + b * 4096 + d * 64 + e;
      c % 64 == e && c / 64 % 64 == d && c / 4096 % 64 == b && c / 262144 == x
  {
    var c := x * 262144 + b * 4096 + d * 64 + e;
    assert c / 64 == x * 4096 + b * 64 + d;
    assert c / 4096 == x * 64 + b;
  }

  lemma FromDigits(c: nat)
    ensures c == c / 262144 * 262144 + c / 4096 % 64 * 4096 + c / 64 % 64 * 64 + c % 64
  {
    assert c / 262144 == c / 4096 / 64;
    assert c / 4096 == c / 64 / 64;
  }

  lemma Small(c: nat, n: nat)
    requires c < n * 4096 && n <= 64
    ensures c / 4096 < n && c / 4096 % 64 == c / 4096 && c / 262144 == 0
  {
  }

  lemma TwoIs(a: Byte, b: Byte, c: nat)
    requires 0xC0 <= a < 0xE0 && IsTrailByte(b)
    ensures Two(a, b) == c <==> c < 0x800 && a == 0xC0 + c / 64 && b == 0x80 + c % 64
  {
    assert a % 32 == a - 0xC0 && b % 64 == b - 0x80;
  }

  lemma ThreeIs(a: Byte, b: Byte, d: Byte, c: nat)
    requires 0xE0 <= a < 0xF0 && IsTrailByte(b) && IsTrailByte(d)
    ensures Three(a, b, d) == c <==>
      c < 0x10000 && a == 0xE0 + c / 4096 && b == 0x80 + c / 64 % 64 && d == 0x80 + c % 64
  {
    assert a % 16 == a - 0xE0 && b % 64 == b - 0x80 && d % 64 == d - 0x80;
    DigitsOf(0, a - 0xE0, b - 0x80, d - 0x80);
    FromDigits(c);
    if c < 0x10000 { Small(c, 16); }
  }

  lemma FourIs(a: Byte, b: Byte, d: Byte, e: Byte, c: nat)
    requires 0xF0 <= a < 0xF8 && IsTrailByte(b) && IsTrailByte(d) && IsTrailByte(e)
    ensures Four(a, b, d, e) == c <==>
      && c < 0x200000 && a == 0xF0 + c / 262144
      && b == 0x80 + c / 4096 % 64 && d == 0x80 + c / 64 % 64 && e == 0x80 + c % 64
  {
    assert a % 8 == a - 0xF0 && b % 64 == b - 0x80 && d % 64 == d - 0x80 && e % 64 == e - 0x80;
    DigitsOf(a - 0xF0, b - 0x80, d - 0x80, e - 0x80);
    FromDigits(c);
  }

  /** Decoding succeeds exactly on what starts with an encoded character, and gives that one. */
  lemma DecodeIsInverse(s: seq<Byte>, c: nat)
    requires s != [] && IsValidCodepoint(c)
    ensures DecodeUTF8(s) == Good(c, |Encode(c)|) <==> Encode(c) <= s
    ensures DecodeUTF8(s).Good? && DecodeUTF8(s).cp == c ==> DecodeUTF8(s).len == |Encode(c)|
  {
    if Encode(c) <= s { EncodedDecodes(s, c); }
    if DecodeUTF8(s).Good? && DecodeUTF8(s).cp == c { DecodedIsEncoded(s, c); }
  }

  lemma EncodedDecodes(s: seq<Byte>, c: nat)
    requires IsValidCodepoint(c) && Encode(c) <= s
    ensures DecodeUTF8(s) == Good(c, |Encode(c)|)
  {
    assert forall i :: 0 <= i < |Encode(c)| ==> s[i] == Encode(c)[i];
    if c < 0x80 {
    } else if c < 0x800 {
      TwoIs(s[0], s[1], c);
    } else if c < 0x10000 {
      ThreeIs(s[0], s[1], s[2], c);
    } else {
      FourIs(s[0], s[1], s[2], s[3], c);
    }
  }

  lemma DecodedIsEncoded(s: seq<Byte>, c: nat)
    requires s != [] && DecodeUTF8(s).Good? && DecodeUTF8(s).cp == c
    ensures Encode(c) <= s && DecodeUTF8(s).len == |Encode(c)|
  {
    if s[0] < 0x80 {
    } else if s[0] < 0xE0 {
      DecodedTwo(s, c);
    } else if s[0] < 0xF0 {
      DecodedThree(s, c);
    } else {
      DecodedFour(s, c);
    }
  }

  lemma SamePrefix(s: seq<int>, e: seq<int>)
    requires 3 <= |e| <= 4 && |e| <= |s| && s[0] == e[0] && s[1] == e[1] && s[2] == e[2] && (|e| == 4 ==> s[3] == e[3])
    ensures e <= s
  {
  }

  lemma DecodedTwo(s: seq<Byte>, c: nat)
    requires |s| >= 2 && 0xC0 <= s[0] < 0xE0 && IsTrailByte(s[1]) && c == Two(s[0], s[1]) && c >= 0x80
    ensures IsValidCodepoint(c) && |Encode(c)| == 2 && Encode(c) <= s
  {
    TwoIs(s[0], s[1], c);
    assert s[..2] == Encode(c);
  }

  lemma DecodedThree(s: seq<Byte>, c: nat)
    requires |s| >= 3 && 0xE0 <= s[0] < 0xF0 && IsTrailByte(s[1]) && IsTrailByte(s[2])
    requires c == Three(s[0], s[1], s[2]) && c >= 0x800 && IsValidCodepoint(c)
    ensures |Encode(c)| == 3 && Encode(c) <= s
  {
    ThreeEncodes(s[0], s[1], s[2], c);
    SamePrefix(s, Encode(c));
  }

  lemma ThreeEncodes(a: Byte, b: Byte, d: Byte, c: nat)
    requires 0xE0 <= a < 0xF0 && IsTrailByte(b) && IsTrailByte(d)
    requires c == Three(a, b, d) && c >= 0x800 && IsValidCodepoint(c)
    ensures Encode(c) == [a, b, d]
  {
    ThreeIs(a, b, d, c);
    EncodeThree(c, a, b, d);
  }

  lemma EncodeThree(c: nat, a: Byte, b: Byte, d: Byte)
    requires 0x800 <= c < 0x10000 && IsValidCodepoint(c)
    requires a == 0xE0 + c / 4096 && b == 0x80 + c / 64 % 64 && d == 0x80 + c % 64
    ensures Encode(c) == [a, b, d]
  {
  }

  lemma DecodedFour(s: seq<Byte>, c: nat)
    requires |s| >= 4 && 0xF0 <= s[0] < 0xF8 && IsTrailByte(s[1]) && IsTrailByte(s[2]) && IsTrailByte(s[3])
    requires c == Four(s[0], s[1], s[2], s[3]) && c >= 0x10000 && IsValidCodepoint(c)
    ensures |Encode(c)| == 4 && Encode(c) <= s
  {
    FourEncodes(s[0], s[1], s[2], s[3]);
    SamePrefix(s, Encode(c));
  }

  lemma FourEncodes(a: Byte, b: Byte, d: Byte, e: Byte)
    requires 0xF0 <= a < 0xF8 && IsTrailByte(b) && IsTrailByte(d) && IsTrailByte(e)
    requires var c := Four(a, b, d, e); c >= 0x10000 && IsValidCodepoint(c)
    ensures Encode(Four(a, b, d, e)) == [a, b, d, e]
  {
    FourIs(a, b, d, e, Four(a, b, d, e));
    EncodeFromDigits(Four(a, b, d, e), a, b, d, e);
  }

  lemma EncodeFromDigits(c: nat, a: Byte, b: Byte, d: Byte, e: Byte)
    requires 0x10000 <= c && IsValidCodepoint(c)
    requires a == 0xF0 + c / 262144 && b == 0x80 + c / 4096 % 64 && d == 0x80 + c / 64 % 64 && e == 0x80 + c % 64
    ensures Encode(c) == [a, b, d, e]
  {
  }

  // ------------------------------------------------------------- grammar

  predicate Range(b: Byte, lo: int, hi: int)
  {
    lo <= b <= hi
  }

  predicate Tail(b: Byte)
  {
    Range(b, 0x80, 0xBF)
  }

  // UTF8-3 and UTF8-4: what the first two octets may be.
  predicate StartOfThree(a: Byte, b: Byte)
  {
    || (a == 0xE0 && Range(b, 0xA0, 0xBF)) || (Range(a, 0xE1, 0xEC) && Tail(b))
    || (a == 0xED && Range(b, 0x80, 0x9F)) || (Range(a, 0xEE, 0xEF) && Tail(b))
  }

  predicate StartOfFour(a: Byte, b: Byte)
  {
    (a == 0xF0 && Range(b, 0x90, 0xBF)) || (Range(a, 0xF1, 0xF3) && Tail(b)) || (a == 0xF4 && Range(b, 0x80, 0x8F))
  }

  // The character number of two, three and four octets.
  function OfTwo(a: int, b: int): int
  {
    (a - 0xC0) * 64 + (b - 0x80)
  }

  function OfThree(a: int, b: int, c: int): int
  {
    (a - 0xE0) * 4096 + (b - 0x80) * 64 + (c - 0x80)
  }

  function OfFour(a: int, b: int, c: int, d: int): int
  {
    (a - 0xF0) * 262144 + (b - 0x80) * 4096 + (c - 0x80) * 64 + (d - 0x80)
  }

  /** The grammar of RFC 3629, section 4, and the character numbers of its section 3. */
  function ByGrammar(s: seq<Byte>): Decoded
    requires s != []
  {
    if Range(s[0], 0x00, 0x7F) then Good(s[0], 1)
    else if |s| >= 2 && Range(s[0], 0xC2, 0xDF) && Tail(s[1]) then Good(OfTwo(s[0], s[1]), 2)
    else if |s| >= 3 && StartOfThree(s[0], s[1]) && Tail(s[2]) then Good(OfThree(s[0], s[1], s[2]), 3)
    else if |s| >= 4 && StartOfFour(s[0], s[1]) && Tail(s[2]) && Tail(s[3]) then
      Good(OfFour(s[0], s[1], s[2], s[3]), 4)
    else Bad
  }

  /** Exactly the octet sequences of the grammar are decoded, each to its character number. */
  lemma DecodesGrammar(s: seq<Byte>)
    requires s != []
    ensures DecodeUTF8(s) == ByGrammar(s)
  {
    if |s| >= 2 && 0xC0 <= s[0] < 0xE0 && IsTrailByte(s[1]) {
      TwoNumber(s[0], s[1]);
    } else if |s| >= 3 && 0xE0 <= s[0] < 0xF0 && IsTrailByte(s[1]) && IsTrailByte(s[2]) {
      ThreeNumber(s[0], s[1], s[2]);
    } else if |s| >= 4 && 0xF0 <= s[0] < 0xF8 && IsTrailByte(s[1]) && IsTrailByte(s[2]) && IsTrailByte(s[3]) {
      FourNumber(s[0], s[1], s[2], s[3]);
    }
  }

  lemma TwoNumber(a: Byte, b: Byte)
    requires 0xC0 <= a < 0xE0 && IsTrailByte(b)
    ensures Two(a, b) == OfTwo(a, b)
    ensures Two(a, b) >= 0x80 && IsValidCodepoint(Two(a, b)) <==> Range(a, 0xC2, 0xDF)
  {
    assert a % 32 == a - 0xC0 && b % 64 == b - 0x80;
  }

  lemma ThreeNumber(a: Byte, b: Byte, c: Byte)
    requires 0xE0 <= a < 0xF0 && IsTrailByte(b) && IsTrailByte(c)
    ensures Three(a, b, c) == OfThree(a, b, c)
    ensures Three(a, b, c) >= 0x800 && IsValidCodepoint(Three(a, b, c)) <==> StartOfThree(a, b)
  {
    assert a % 16 == a - 0xE0 && b % 64 == b - 0x80 && c % 64 == c - 0x80;
  }

  lemma FourNumber(a: Byte, b: Byte, c: Byte, d: Byte)
    requires 0xF0 <= a < 0xF8 && IsTrailByte(b) && IsTrailByte(c) && IsTrailByte(d)
    ensures Four(a, b, c, d) == OfFour(a, b, c, d)
    ensures Four(a, b, c, d) >= 0x10000 && IsValidCodepoint(Four(a, b, c, d)) <==> StartOfFour(a, b)
  {
    assert a % 8 == a - 0xF0 && b % 64 == b - 0x80 && c % 64 == c - 0x80 && d % 64 == d - 0x80;
  }

  // Only the octets of the character matter.
  lemma DecodePrefix(s: seq<Byte>, t: seq<Byte>)
    requires s != [] && t != [] && DecodeUTF8(s).Good?
    requires s <= t || (t <= s && DecodeUTF8(s).len <= |t|)
    ensures DecodeUTF8(t) == DecodeUTF8(s)
  {
  }

  // ------------------------------------------------------------ boundaries

  // The length of the character at p, or zero.
  function LengthAt(s: seq<Byte>, p: nat): (n: nat)
    ensures n <= 4 && (n > 0 ==> p + n <= |s|)
  {
    if p < |s| && DecodeUTF8(s[p..]).Good? then DecodeUTF8(s[p..]).len else 0
  }

  // Whole characters lead from a to p.
  predicate Reach(s: seq<Byte>, a: nat, p: nat)
    decreases p - a
  {
    a == p || (a < p && LengthAt(s, a) > 0 && Reach(s, a + LengthAt(s, a), p))
  }

  predicate Boundary(s: seq<Byte>, p: nat)
  {
    p <= |s| && Reach(s, 0, p)
  }

  predicate WellFormed(s: seq<Byte>)
  {
    Reach(s, 0, |s|)
  }

  lemma {:induction false} ReachThen(s: seq<Byte>, a: nat, p: nat, q: nat)
    requires Reach(s, a, p) && Reach(s, p, q)
    ensures Reach(s, a, q)
    decreases p - a
  {
    if a < p {
      ReachThen(s, a + LengthAt(s, a), p, q);
      ReachOrder(s, p, q);
      ReachOrder(s, a + LengthAt(s, a), p);
    }
  }

  lemma {:induction false} ReachOrder(s: seq<Byte>, a: nat, p: nat)
    requires Reach(s, a, p)
    ensures a <= p && (a <= |s| ==> p <= |s|)
    decreases p - a
  {
    if a < p { ReachOrder(s, a + LengthAt(s, a), p); }
  }

  lemma ReachOne(s: seq<Byte>, a: nat, p: nat)
    requires Reach(s, a, p) && LengthAt(s, p) > 0
    ensures Reach(s, a, p + LengthAt(s, p))
  {
    ReachThen(s, a, p, p + LengthAt(s, p));
  }

  // Of two places reached from the same one, the first leads to the second.
  lemma {:induction false} ReachBetween(s: seq<Byte>, a: nat, p: nat, q: nat)
    requires Reach(s, a, p) && Reach(s, a, q) && p <= q
    ensures Reach(s, p, q)
    decreases p - a
  {
    if a < p { ReachBetween(s, a + LengthAt(s, a), p, q); }
  }

  lemma ReachNext(s: seq<Byte>, a: nat, p: nat, q: nat)
    requires Reach(s, a, p) && Reach(s, a, q) && p < q
    ensures LengthAt(s, p) > 0 && p + LengthAt(s, p) <= q
  {
    ReachBetween(s, a, p, q);
    ReachOrder(s, p + LengthAt(s, p), q);
  }

  // Cutting at two boundaries gives well-formed text.
  lemma {:induction false} SliceReach(s: seq<Byte>, a: nat, p: nat, q: nat)
    requires a <= p <= q <= |s| && Reach(s, p, q)
    ensures Reach(s[a..q], p - a, q - a)
    decreases q - p
  {
    if p < q {
      var n := LengthAt(s, p);
      ReachOrder(s, p + n, q);
      SliceReach(s, a, p + n, q);
      SliceLength(s, a, p, q);
    }
  }

  lemma SliceLength(s: seq<Byte>, a: nat, p: nat, q: nat)
    requires a <= p < q <= |s| && LengthAt(s, p) > 0 && p + LengthAt(s, p) <= q
    ensures LengthAt(s[a..q], p - a) == LengthAt(s, p)
  {
    assert s[a..q][p - a..] == s[p..q] && s[p..q] <= s[p..];
    DecodePrefix(s[p..], s[p..q]);
  }

  lemma SliceWellFormed(s: seq<Byte>, a: nat, q: nat)
    requires a <= q <= |s| && Reach(s, a, q)
    ensures WellFormed(s[a..q])
  {
    SliceReach(s, a, a, q);
  }

  // A place reached inside a slice is reached in the whole.
  lemma {:induction false} WholeReach(s: seq<Byte>, a: nat, q: nat, x: nat, y: nat)
    requires a <= q <= |s| && y <= q - a && Reach(s[a..q], x, y)
    ensures Reach(s, a + x, a + y)
    decreases y - x
  {
    if x < y {
      var n := LengthAt(s[a..q], x);
      WholeReach(s, a, q, x + n, y);
      assert s[a..q][x..] == s[a + x..q] && s[a + x..q] <= s[a + x..];
      DecodePrefix(s[a + x..q], s[a + x..]);
    }
  }
}

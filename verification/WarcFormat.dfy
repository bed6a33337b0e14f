/** What WARCReader takes a record to be (preprocess/warc.cc; record model of section 4 of
    ISO 28500): lines up to a blank one, a Content-Length among them, the content, CR LF CR LF. */
module WarcFormat {
  import opened Common
  import opened Utf8

  const LF: Byte := 10
  const CR: Byte := 13
  const SIZE: int := 0x1_0000_0000_0000_0000
  const LLONG_MAX: int := 0x7FFF_FFFF_FFFF_FFFF

  // kRead: how much the header reader asks for at a time.
  const READ_SIZE: nat := 4096

  // "WARC/1.0", "Content-Length:" in lower case, and the end of a record.
  function Version(): seq<Byte> { [87, 65, 82, 67, 47, 49, 46, 48] }
  function LengthName(): (r: seq<Byte>)
    ensures |r| == 15
  {
    [99, 111, 110, 116, 101, 110, 116, 45, 108, 101, 110, 103, 116, 104, 58]
  }
  function Trailer(): seq<Byte> { [CR, LF, CR, LF] }

  // ----------------------------------------------------------------- lines

  // The first newline at or after i, or the end.
  function FindNewline(s: seq<Byte>, i: nat): (r: nat)
    requires i <= |s|
    ensures i <= r <= |s| && (r < |s| ==> s[r] == LF)
    decreases |s| - i
  {
    if i == |s| || s[i] == LF then i else FindNewline(s, i + 1)
  }

  // [a, newline) without a carriage return at its end.
  function LineEnd(s: seq<Byte>, a: nat, newline: nat): (e: nat)
    requires a <= newline <= |s|
    ensures a <= e <= newline && (newline < |s| && s[newline] == LF ==> s[e] == LF || s[e] == CR)
  {
    if a < newline && s[newline - 1] == CR then newline - 1 else newline
  }

  // More text does not move a newline that was found.
  lemma {:induction false} FindNewlinePrefix(s: seq<Byte>, t: seq<Byte>, i: nat)
    requires s <= t && i <= |s|
    ensures FindNewline(s, i) < |s| ==> FindNewline(t, i) == FindNewline(s, i)
    ensures FindNewline(s, i) == |s| ==> FindNewline(t, i) >= |s| && FindNewline(t, i) == FindNewline(t, |s|)
    decreases |s| - i
  {
    if i < |s| {
      assert s[i] == t[i];
      if s[i] != LF { FindNewlinePrefix(s, t, i + 1); }
    }
  }

  // --------------------------------------------------------------- strtoll

  predicate IsSpace(b: Byte)
  {
    b == 32 || 9 <= b <= 13
  }

  predicate IsDigit(b: Byte)
  {
    48 <= b <= 57
  }

  function SkipSpace(s: seq<Byte>, i: nat): (j: nat)
    requires i <= |s|
    ensures i <= j <= |s| && (j < |s| ==> !IsSpace(s[j]))
    decreases |s| - i
  {
    if i < |s| && IsSpace(s[i]) then SkipSpace(s, i + 1) else i
  }

  function SkipDigits(s: seq<Byte>, i: nat): (j: nat)
    requires i <= |s|
    ensures i <= j <= |s| && (j < |s| ==> !IsDigit(s[j]))
    decreases |s| - i
  {
    if i < |s| && IsDigit(s[i]) then SkipDigits(s, i + 1) else i
  }

  // The number written from lo to hi.
  function Number(s: seq<Byte>, lo: nat, hi: nat): nat
    requires lo <= hi <= |s|
    decreases hi - lo
  {
    if lo == hi then 0 else Number(s, lo, hi - 1) * 10 + (if s[hi - 1] >= 48 then s[hi - 1] - 48 else 0)
  }

  function SignEnd(s: seq<Byte>, j: nat): (k: nat)
    requires j <= |s|
    ensures j <= k <= |s|
  {
    if j < |s| && (s[j] == 43 || s[j] == 45) then j + 1 else j
  }

  function Clamp(v: int): int
  {
    if v > LLONG_MAX then LLONG_MAX else if v < -LLONG_MAX - 1 then -LLONG_MAX - 1 else v
  }

  datatype Scan = Scan(value: int, end: nat)

  // The value and the end of the number at a; without digits the end is a itself.
  function Strtoll(s: seq<Byte>, a: nat): (r: Scan)
    requires a <= |s|
    ensures a <= r.end <= |s|
  {
    var j := SkipSpace(s, a);
    var k := SignEnd(s, j);
    var e := SkipDigits(s, k);
    if e == k then Scan(0, a)
    else Scan(Clamp(if s[j] == 45 then 0 - Number(s, k, e) else Number(s, k, e)), e)
  }

  // ---------------------------------------------------------------- header

  function Lower(b: Byte): Byte
  {
    if 65 <= b <= 90 then b + 32 else b
  }

  // strncasecmp with the name.
  predicate IsLengthLine(s: seq<Byte>, a: nat, e: nat)
    requires a <= e <= |s|
  {
    e - a >= 15 && forall i :: 0 <= i < 15 ==> Lower(s[a + i]) == LengthName()[i]
  }

  datatype Header = Broken | Parsed(consumed: nat, length: int)

  // The value of a Content-Length line, read inside the line.
  function ValueIn(s: seq<Byte>, v: nat, e: nat): Option<int>
    requires v <= e <= |s|
  {
    var r := Strtoll(s[v..e], 0);
    if v < e && r.end == e - v then Some(r.value) else None
  }

  // How much can be buffered when the newline is found.
  function Ahead(s: seq<Byte>, newline: nat): (n: nat)
    ensures n <= |s| && (newline < |s| ==> newline < n)
  {
    if |s| < newline + READ_SIZE then |s| else newline + READ_SIZE
  }

  // A number follows a line that ends without a value, near enough to be buffered with it.
  predicate NumberAhead(s: seq<Byte>, v: nat, newline: nat)
    requires v <= newline < |s|
  {
    Strtoll(s[..Ahead(s, newline)], v).end != v
  }

  // Lines from a on, up to and including the blank one. A Content-Length line without a value
  // means zero; strictly, it is refused if a number ahead of it is seen.
  function HeaderFrom(s: seq<Byte>, a: nat, seen: Option<int>, strict: bool): (h: Header)
    requires a <= |s|
    ensures h.Parsed? ==> a < h.consumed <= |s|
    decreases |s| - a
  {
    var newline := FindNewline(s, a);
    if newline == |s| then Broken
    else
      var e := LineEnd(s, a, newline);
      if IsLengthLine(s, a, e) then
        if seen.Some? then Broken
        else if a + 15 == e then
          if strict && NumberAhead(s, a + 15, newline) then Broken else HeaderFrom(s, newline + 1, Some(0), strict)
        else if ValueIn(s, a + 15, e).None? then Broken
        else HeaderFrom(s, newline + 1, ValueIn(s, a + 15, e), strict)
      else if e > a then HeaderFrom(s, newline + 1, seen, strict)
      else if seen.None? then Broken
      else Parsed(newline + 1, seen.value)
  }

  // One line at a time.
  lemma HeaderLength(s: seq<Byte>, a: nat, newline: nat, e: nat, n: int, strict: bool)
    requires a <= |s| && FindNewline(s, a) == newline < |s| && e == LineEnd(s, a, newline)
    requires IsLengthLine(s, a, e) && ValueIn(s, a + 15, e) == Some(n)
    ensures HeaderFrom(s, a, None, strict) == HeaderFrom(s, newline + 1, Some(n), strict)
  {
  }

  lemma HeaderNoValue(s: seq<Byte>, a: nat, newline: nat, strict: bool)
    requires a <= |s| && FindNewline(s, a) == newline < |s| && LineEnd(s, a, newline) == a + 15
    requires IsLengthLine(s, a, a + 15)
    ensures HeaderFrom(s, a, None, strict)
         == if strict && NumberAhead(s, a + 15, newline) then Broken else HeaderFrom(s, newline + 1, Some(0), strict)
  {
  }

  lemma HeaderOther(s: seq<Byte>, a: nat, newline: nat, e: nat, seen: Option<int>, strict: bool)
    requires a <= |s| && FindNewline(s, a) == newline < |s| && e == LineEnd(s, a, newline)
    requires !IsLengthLine(s, a, e) && e > a
    ensures HeaderFrom(s, a, seen, strict) == HeaderFrom(s, newline + 1, seen, strict)
  {
  }

  lemma HeaderBlank(s: seq<Byte>, a: nat, newline: nat, n: int, strict: bool)
    requires a <= |s| && FindNewline(s, a) == newline < |s| && a == LineEnd(s, a, newline)
    ensures HeaderFrom(s, a, Some(n), strict) == Parsed(newline + 1, n)
  {
  }

  // The end of the Content-Length line from a on whose outcome depends on what is buffered.
  function Risky(s: seq<Byte>, a: nat): (r: Option<nat>)
    requires a <= |s|
    ensures r.Some? ==> a <= r.value < |s|
    decreases |s| - a
  {
    var newline := FindNewline(s, a);
    if newline == |s| then None
    else
      var e := LineEnd(s, a, newline);
      if IsLengthLine(s, a, e) then
        if a + 15 == e && NumberAhead(s, a + 15, newline) then Some(newline) else None
      else if e > a then Risky(s, newline + 1)
      else None
  }

  lemma RiskyOther(s: seq<Byte>, a: nat, newline: nat, e: nat)
    requires a <= |s| && FindNewline(s, a) == newline < |s| && e == LineEnd(s, a, newline)
    requires !IsLengthLine(s, a, e) && e > a
    ensures Risky(s, a) == Risky(s, newline + 1)
  {
  }

  // After the Content-Length line nothing depends on it any more.
  lemma {:induction false} SettledHeader(s: seq<Byte>, a: nat, n: int)
    requires a <= |s|
    ensures HeaderFrom(s, a, Some(n), true) == HeaderFrom(s, a, Some(n), false)
    decreases |s| - a
  {
    var newline := FindNewline(s, a);
    if newline < |s| && LineEnd(s, a, newline) > a { SettledHeader(s, newline + 1, n); }
  }

  lemma {:induction false} StrictHeader(s: seq<Byte>, a: nat)
    requires a <= |s|
    ensures HeaderFrom(s, a, None, true) == if Risky(s, a).Some? then Broken else HeaderFrom(s, a, None, false)
    decreases |s| - a
  {
    var newline := FindNewline(s, a);
    if newline < |s| {
      var e := LineEnd(s, a, newline);
      if IsLengthLine(s, a, e) {
        SettledHeader(s, newline + 1, 0);
        if a + 15 < e && ValueIn(s, a + 15, e).Some? { SettledHeader(s, newline + 1, ValueIn(s, a + 15, e).value); }
      } else if e > a {
        StrictHeader(s, newline + 1);
      }
    }
  }

  datatype Frame = End | Thrown | Record(size: nat)

  // size_t arithmetic.
  function Total(consumed: nat, length: int): (t: nat)
  {
    (consumed + length + 4) % SIZE
  }

  // A record of this size ends as a record must.
  predicate Closed(s: seq<Byte>, total: nat)
  {
    4 <= total <= |s| && s[total - 4..total] == Trailer()
  }

  // The record at the front of a stream.
  function FirstRecord(s: seq<Byte>, strict: bool): (f: Frame)
    ensures f.Record? ==> 4 <= f.size <= |s|
  {
    if s == [] then End
    else
      var newline := FindNewline(s, 0);
      if newline == |s| then Thrown
      else if s[..LineEnd(s, 0, newline)] != Version() then Thrown
      else Framed(s, HeaderFrom(s, newline + 1, None, strict))
  }

  function Framed(s: seq<Byte>, h: Header): (f: Frame)
    ensures f.Record? ==> 4 <= f.size <= |s|
  {
    if h.Parsed? && Closed(s, Total(h.consumed, h.length)) then Record(Total(h.consumed, h.length)) else Thrown
  }

  // All records of a stream, up to its end or the first error.
  function Records(s: seq<Byte>): seq<seq<Byte>>
    decreases |s|
  {
    match FirstRecord(s, false)
    case Record(n) => [s[..n]] + Records(s[n..])
    case _ => []
  }

  function RiskyLine(s: seq<Byte>): (r: Option<nat>)
    ensures r.Some? ==> r.value < |s|
  {
    var newline := FindNewline(s, 0);
    if newline == |s| then None else Risky(s, newline + 1)
  }

  /** Where the first record whose outcome depends on the chunks has the line that makes it so. */
  function RiskAt(s: seq<Byte>): (r: Option<nat>)
    ensures r.Some? ==> r.value < |s|
    decreases |s|
  {
    if FirstRecord(s, true) != FirstRecord(s, false) then RiskyLine(s)
    else
      match FirstRecord(s, false)
      case Record(n) => (match RiskAt(s[n..]) case Some(p) => Some(n + p) case None => None)
      case _ => None
  }

  /** The records do not depend on the chunks. */
  predicate Clear(s: seq<Byte>)
    decreases |s|
  {
    FirstRecord(s, true) == FirstRecord(s, false) &&
    match FirstRecord(s, false)
    case Record(n) => Clear(s[n..])
    case _ => true
  }

  /** The two readings differ exactly if there is a record without the number in view and a risky
      line in its header; with the number in view it is then refused. */
  lemma Differing(s: seq<Byte>)
    ensures FirstRecord(s, true) != FirstRecord(s, false) <==> FirstRecord(s, false).Record? && RiskyLine(s).Some?
    ensures FirstRecord(s, true) != FirstRecord(s, false) ==> FirstRecord(s, true) == Thrown
  {
    if FindNewline(s, 0) < |s| { StrictHeader(s, FindNewline(s, 0) + 1); }
  }

  lemma {:induction false} ClearIffNoRisk(s: seq<Byte>)
    ensures Clear(s) <==> RiskAt(s) == None
    decreases |s|
  {
    if FirstRecord(s, true) != FirstRecord(s, false) {
      Differing(s);
    } else if FirstRecord(s, false).Record? {
      ClearIffNoRisk(s[FirstRecord(s, false).size..]);
    }
  }

  lemma RecordsStep(left: seq<Byte>, record: seq<Byte>, rest: seq<Byte>)
    requires left == record + rest && FirstRecord(left, false) == Record(|record|)
    ensures Records(left) == [record] + Records(rest)
    ensures FirstRecord(left, true) == FirstRecord(left, false) ==> Clear(left) == Clear(rest)
    ensures FirstRecord(left, true) == FirstRecord(left, false) ==>
      RiskAt(left) == match RiskAt(rest) case Some(p) => Some(|record| + p) case None => None
  {
    assert left[..|record|] == record && left[|record|..] == rest;
  }

  // ------------------------------------------------- the end of the header

  lemma {:induction false} FindNewlineBefore(s: seq<Byte>, a: nat, t: nat)
    requires a <= t < |s| && s[t] == LF
    ensures FindNewline(s, a) <= t
    decreases t - a
  {
    if s[a] != LF { FindNewlineBefore(s, a + 1, t); }
  }

  // A blank line ends the header, so none is inside it.
  lemma {:induction false} NoBlankInside(s: seq<Byte>, a: nat, seen: Option<int>, strict: bool, t: nat)
    requires a <= |s| && HeaderFrom(s, a, seen, strict).Parsed?
    requires 3 <= t <= |s| && a + 2 <= t && s[t - 3] == LF && s[t - 2] == CR && s[t - 1] == LF
    ensures HeaderFrom(s, a, seen, strict).consumed <= t
    decreases |s| - a
  {
    var newline := FindNewline(s, a);
    if a == t - 2 {
      assert FindNewline(s, t - 1) == t - 1;
      assert newline == t - 1;
    } else {
      FindNewlineBefore(s, a, t - 3);
      var e := LineEnd(s, a, newline);
      if IsLengthLine(s, a, e) {
        NoBlankInside(s, newline + 1, if a + 15 == e then Some(0) else ValueIn(s, a + 15, e), strict, t);
      } else if e > a {
        NoBlankInside(s, newline + 1, seen, strict, t);
      }
    }
  }

  /** A record is at least as long as its header, whatever length it claims. */
  lemma RecordCoversHeader(s: seq<Byte>, strict: bool)
    requires FirstRecord(s, strict).Record?
    ensures var h := HeaderFrom(s, FindNewline(s, 0) + 1, None, strict);
      h.Parsed? && h.consumed <= FirstRecord(s, strict).size
  {
    ClosedCovers(s, FindNewline(s, 0), strict, FirstRecord(s, strict).size);
  }

  lemma ClosedCovers(s: seq<Byte>, newline: nat, strict: bool, t: nat)
    requires Closed(s, t) && newline == FindNewline(s, 0) < |s| && HeaderFrom(s, newline + 1, None, strict).Parsed?
    ensures HeaderFrom(s, newline + 1, None, strict).consumed <= t
  {
    TrailerBytes(s, t);
    FindNewlineBefore(s, 0, t - 3);
    NoBlankInside(s, newline + 1, None, strict, t);
  }

  lemma TrailerBytes(s: seq<Byte>, t: nat)
    requires Closed(s, t)
    ensures s[t - 3] == LF && s[t - 2] == CR && s[t - 1] == LF
  {
    var tail := s[t - 4..t];
    assert s[t - 3] == tail[1] && s[t - 2] == tail[2] && s[t - 1] == tail[3];
  }

  // ------------------------------------------- parsing inside a longer buffer

  lemma {:induction false} SkipSpaceInside(s: seq<Byte>, t: seq<Byte>, v: nat, i: nat)
    requires v + i <= v + |t| < |s| && t == s[v..v + |t|] && !IsDigit(s[v + |t|])
    ensures SkipSpace(t, i) < |t| ==> SkipSpace(s, v + i) == v + SkipSpace(t, i)
    ensures SkipSpace(t, i) == |t| ==> SkipSpace(s, v + i) >= v + |t|
    decreases |t| - i
  {
    if i < |t| && IsSpace(t[i]) { SkipSpaceInside(s, t, v, i + 1); }
  }

  lemma {:induction false} SkipDigitsInside(s: seq<Byte>, t: seq<Byte>, v: nat, i: nat)
    requires v + i <= v + |t| < |s| && t == s[v..v + |t|] && !IsDigit(s[v + |t|])
    ensures SkipDigits(s, v + i) == v + SkipDigits(t, i)
    decreases |t| - i
  {
    if i < |t| && IsDigit(t[i]) { SkipDigitsInside(s, t, v, i + 1); }
  }

  lemma {:induction false} NumberInside(s: seq<Byte>, t: seq<Byte>, v: nat, lo: nat, hi: nat)
    requires v + |t| <= |s| && t == s[v..v + |t|] && lo <= hi <= |t|
    ensures Number(s, v + lo, v + hi) == Number(t, lo, hi)
    decreases hi - lo
  {
    if lo < hi { NumberInside(s, t, v, lo, hi - 1); }
  }

  /** On a value that is not empty, reading ahead in the buffer and reading inside the line agree:
      the number ends where the line ends, or the line is refused. */
  lemma StrtollInside(s: seq<Byte>, t: seq<Byte>, v: nat)
    requires 0 < |t| && v + |t| < |s| && t == s[v..v + |t|] && (s[v + |t|] == LF || s[v + |t|] == CR)
    ensures Strtoll(s, v).end == v + |t| <==> Strtoll(t, 0).end == |t|
    ensures Strtoll(t, 0).end == |t| ==> Strtoll(s, v).value == Strtoll(t, 0).value
  {
    SkipSpaceInside(s, t, v, 0);
    var j := SkipSpace(t, 0);
    if j < |t| {
      var k := SignEnd(t, j);
      assert SignEnd(s, v + j) == v + k;
      SkipDigitsInside(s, t, v, k);
      NumberInside(s, t, v, k, SkipDigits(t, k));
    }
  }

  // ------------------------------------------------------------- no value

  // More text can only add a number.
  lemma NumberStays(s: seq<Byte>, t: seq<Byte>, v: nat)
    requires s <= t && v <= |s| && Strtoll(s, v).end != v
    ensures Strtoll(t, v).end != v
  {
    SkipSpaceStays(s, t, v);
  }

  lemma {:induction false} SkipSpaceStays(s: seq<Byte>, t: seq<Byte>, i: nat)
    requires s <= t && i <= |s|
    ensures SkipSpace(s, i) < |s| ==> SkipSpace(t, i) == SkipSpace(s, i)
    decreases |s| - i
  {
    if i < |s| {
      assert s[i] == t[i];
      if IsSpace(s[i]) { SkipSpaceStays(s, t, i + 1); }
    }
  }

  // Only the end of the line is buffered: no number.
  lemma OnlyTheLine(s: seq<Byte>, v: nat, newline: nat)
    requires v <= newline <= v + 1 && |s| == newline + 1 && s[newline] == LF && (v < newline ==> s[v] == CR)
    ensures Strtoll(s, v).end == v
  {
    assert SkipSpace(s, newline + 1) == newline + 1;
    assert SkipSpace(s, newline) == newline + 1;
  }
}

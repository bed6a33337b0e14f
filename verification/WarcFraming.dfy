/** Records written as section 4 of ISO 28500 has them are read back whole: the framing that
    preprocess/warc.cc applies undoes the writing. */
module WarcFraming {
  import opened Utf8
  import opened WarcFormat
  import opened Common
  import Powers

  function Line(f: seq<Byte>): (r: seq<Byte>)
    ensures r == f + [CR, LF]
  {
    f + Octets("\r\n")
  }

  function Banner(): (r: seq<Byte>)
    ensures r == Version()
  {
    Octets("WARC/1.0")
  }

  function RecordEnd(): (r: seq<Byte>)
    ensures r == Trailer()
  {
    Octets("\r\n\r\n")
  }

  function Lines(fields: seq<seq<Byte>>): seq<Byte>
  {
    if fields == [] then [] else Line(fields[0]) + Lines(fields[1..])
  }

  // A header field other than Content-Length.
  predicate PlainField(f: seq<Byte>)
  {
    f != [] && LF !in f && !IsLengthLine(f, 0, |f|)
  }

  predicate PlainFields(fields: seq<seq<Byte>>)
  {
    forall i :: 0 <= i < |fields| ==> PlainField(fields[i])
  }

  // A Content-Length field that gives n.
  predicate LengthField(f: seq<Byte>, n: nat)
  {
    LF !in f && IsLengthLine(f, 0, |f|) && ValueIn(f, 15, |f|) == Some(n)
  }

  datatype Warc = Warc(before: seq<seq<Byte>>, length: seq<Byte>, after: seq<seq<Byte>>, content: seq<Byte>)

  predicate Proper(w: Warc)
  {
    PlainFields(w.before) && LengthField(w.length, |w.content|) && PlainFields(w.after)
    && |Written(w)| < 0x1_0000_0000_0000_0000
  }

  function HeaderOf(w: Warc): seq<Byte>
  {
    Line(Banner()) + (Lines(w.before) + (Line(w.length) + (Lines(w.after) + Line([]))))
  }

  function Written(w: Warc): seq<Byte>
  {
    HeaderOf(w) + (w.content + RecordEnd())
  }

  // s has p at a.
  predicate Has(s: seq<Byte>, a: nat, p: seq<Byte>)
  {
    a + |p| <= |s| && s[a..a + |p|] == p
  }

  lemma HasParts(s: seq<Byte>, a: nat, p: seq<Byte>, q: seq<Byte>)
    requires Has(s, a, p + q)
    ensures Has(s, a, p) && Has(s, a + |p|, q)
  {
    var t := s[a..a + |p + q|];
    assert t[..|p|] == p && t[|p|..] == q;
  }

  lemma {:induction false} NewlineAt(s: seq<Byte>, a: nat, f: seq<Byte>, i: nat)
    requires Has(s, a, Line(f)) && LF !in f && i <= |f| + 1
    ensures FindNewline(s, a + i) == a + |f| + 1
    decreases |f| + 1 - i
  {
    assert s[a + i] == Line(f)[i];
    if i <= |f| {
      if i < |f| { assert f[i] in f; }
      NewlineAt(s, a, f, i + 1);
    }
  }

  lemma OneLine(s: seq<Byte>, a: nat, f: seq<Byte>)
    requires Has(s, a, Line(f)) && LF !in f
    ensures FindNewline(s, a) == a + |f| + 1 < |s| && LineEnd(s, a, a + |f| + 1) == a + |f|
    ensures s[a..a + |f|] == f && IsLengthLine(s, a, a + |f|) == IsLengthLine(f, 0, |f|)
  {
    NewlineAt(s, a, f, 0);
    HasParts(s, a, f, [CR, LF]);
    assert s[a + |f|] == s[a + |f|..a + |f| + 2][0];
    assert forall i :: 0 <= i < |f| ==> s[a + i] == f[i];
  }

  lemma PlainLine(s: seq<Byte>, a: nat, f: seq<Byte>, b: nat, seen: Option<int>, strict: bool)
    requires Has(s, a, Line(f)) && PlainField(f) && b == a + |f| + 2
    ensures b <= |s| && HeaderFrom(s, a, seen, strict) == HeaderFrom(s, b, seen, strict)
  {
    OneLine(s, a, f);
    HeaderOther(s, a, b - 1, b - 2, seen, strict);
  }

  lemma {:induction false} SkipFields(s: seq<Byte>, a: nat, fields: seq<seq<Byte>>, b: nat, seen: Option<int>,
                                      strict: bool)
    requires Has(s, a, Lines(fields)) && PlainFields(fields) && b == a + |Lines(fields)|
    ensures b <= |s| && HeaderFrom(s, a, seen, strict) == HeaderFrom(s, b, seen, strict)
    decreases |fields|
  {
    if fields != [] {
      var f, more := fields[0], fields[1..];
      var c := a + |f| + 2;
      HasParts(s, a, Line(f), Lines(more));
      PlainLine(s, a, f, c, seen, strict);
      SkipFields(s, c, more, b, seen, strict);
    }
  }

  // The line f at a is taken for a length of n.
  ghost predicate Means(s: seq<Byte>, a: nat, f: seq<Byte>, n: nat, strict: bool)
  {
    a + |f| + 2 <= |s| && HeaderFrom(s, a, None, strict) == HeaderFrom(s, a + |f| + 2, Some(n), strict)
  }

  lemma LengthLine(s: seq<Byte>, a: nat, f: seq<Byte>, n: nat, strict: bool)
    requires Has(s, a, Line(f)) && LengthField(f, n)
    ensures Means(s, a, f, n, strict)
  {
    OneLine(s, a, f);
    SameValue(s, a, f);
    HeaderLength(s, a, a + |f| + 1, a + |f|, n, strict);
  }

  lemma SameValue(s: seq<Byte>, a: nat, f: seq<Byte>)
    requires 15 <= |f| && a + |f| <= |s| && s[a..a + |f|] == f
    ensures ValueIn(s, a + 15, a + |f|) == ValueIn(f, 15, |f|)
  {
    assert s[a + 15..a + |f|] == f[15..|f|];
  }

  lemma BlankLine(s: seq<Byte>, a: nat, n: nat, strict: bool)
    requires Has(s, a, Line([]))
    ensures HeaderFrom(s, a, Some(n), strict) == Parsed(a + 2, n)
  {
    OneLine(s, a, []);
    HeaderBlank(s, a, a + 1, n, strict);
  }

  // From the Content-Length line to the blank line.
  lemma LengthToBlank(s: seq<Byte>, a: nat, f: seq<Byte>, n: nat, after: seq<seq<Byte>>, b: nat, c: nat, strict: bool)
    requires Means(s, a, f, n, strict) && b == a + |f| + 2 && Has(s, b, Lines(after))
    requires c == b + |Lines(after)| && Has(s, c, Line([]))
    requires PlainFields(after)
    ensures HeaderFrom(s, a, None, strict) == Parsed(c + 2, n)
  {
    SkipFields(s, b, after, c, Some(n), strict);
    BlankLine(s, c, n, strict);
  }

  lemma HasFive(s: seq<Byte>, p: seq<Byte>, q: seq<Byte>, r: seq<Byte>, t: seq<Byte>, u: seq<Byte>)
    requires Has(s, 0, p + (q + (r + (t + u))))
    ensures Has(s, 0, p) && Has(s, |p|, q) && Has(s, |p| + |q|, r)
    ensures Has(s, |p| + |q| + |r|, t) && Has(s, |p| + |q| + |r| + |t|, u)
  {
    HasParts(s, 0, p, q + (r + (t + u)));
    HasParts(s, |p|, q, r + (t + u));
    HasParts(s, |p| + |q|, r, t + u);
    HasParts(s, |p| + |q| + |r|, t, u);
  }

  lemma VersionLine(s: seq<Byte>)
    requires Has(s, 0, Line(Version()))
    ensures FindNewline(s, 0) == 9 < |s| && LineEnd(s, 0, 9) == 8 && s[..8] == Version()
  {
    assert LF !in Version();
    OneLine(s, 0, Version());
    assert s[0..8] == s[..8];
  }

  lemma HeaderSize(w: Warc)
    ensures |HeaderOf(w)| == 10 + |Lines(w.before)| + |w.length| + 2 + |Lines(w.after)| + 2
    ensures |Line(Version())| == 10 && |Line(w.length)| == |w.length| + 2
  {
  }

  // Where the fields of a written record are, for any text that starts with it.
  lemma Parts(s: seq<Byte>, w: Warc)
    requires Has(s, 0, HeaderOf(w))
    ensures Has(s, 0, Line(Version())) && Has(s, 10, Lines(w.before)) && Has(s, LengthPlace(w), Line(w.length))
    ensures Has(s, LengthPlace(w) + |w.length| + 2, Lines(w.after)) && Has(s, |HeaderOf(w)| - 2, Line([]))
    ensures |HeaderOf(w)| == LengthPlace(w) + |w.length| + 2 + |Lines(w.after)| + 2
  {
    HasFive(s, Line(Version()), Lines(w.before), Line(w.length), Lines(w.after), Line([]));
    HeaderSize(w);
  }

  // The place of the Content-Length line.
  function LengthPlace(w: Warc): nat
  {
    10 + |Lines(w.before)|
  }

  lemma HeaderIsRead(s: seq<Byte>, w: Warc, strict: bool)
    requires Has(s, 0, HeaderOf(w)) && PlainFields(w.before) && PlainFields(w.after)
    requires Means(s, LengthPlace(w), w.length, |w.content|, strict)
    ensures Has(s, 0, Line(Version()))
    ensures HeaderFrom(s, 10, None, strict) == Parsed(|HeaderOf(w)|, |w.content|)
  {
    Parts(s, w);
    SkipFields(s, 10, w.before, LengthPlace(w), None, strict);
    LengthToBlank(s, LengthPlace(w), w.length, |w.content|, w.after, LengthPlace(w) + |w.length| + 2,
                  |HeaderOf(w)| - 2, strict);
  }

  lemma RecordIs(s: seq<Byte>, consumed: nat, n: nat, strict: bool)
    requires Has(s, 0, Line(Version()))
    requires HeaderFrom(s, 10, None, strict) == Parsed(consumed, n) && consumed + n + 4 < SIZE
    requires Has(s, consumed + n, Trailer())
    ensures FirstRecord(s, strict) == Record(consumed + n + 4)
  {
    VersionLine(s);
    TotalIs(consumed, n);
    assert Closed(s, consumed + n + 4);
  }

  // s starts with the written record.
  ghost predicate StartsWith(s: seq<Byte>, w: Warc)
  {
    Has(s, 0, HeaderOf(w)) && Has(s, |HeaderOf(w)| + |w.content|, Trailer())
  }

  lemma WrittenHas(w: Warc, rest: seq<Byte>)
    ensures StartsWith(Written(w) + rest, w) && |Written(w)| == |HeaderOf(w)| + |w.content| + 4
  {
    var s := Written(w) + rest;
    assert Has(s, 0, Written(w));
    HasParts(s, 0, HeaderOf(w), w.content + Trailer());
    HasParts(s, |HeaderOf(w)|, w.content, Trailer());
  }

  lemma ReadAs(s: seq<Byte>, w: Warc, strict: bool)
    requires StartsWith(s, w) && PlainFields(w.before) && PlainFields(w.after)
    requires Means(s, LengthPlace(w), w.length, |w.content|, strict) && |HeaderOf(w)| + |w.content| + 4 < SIZE
    ensures FirstRecord(s, strict) == Record(|HeaderOf(w)| + |w.content| + 4)
  {
    HeaderIsRead(s, w, strict);
    RecordIs(s, |HeaderOf(w)|, |w.content|, strict);
  }

  lemma LengthMeans(s: seq<Byte>, w: Warc, strict: bool)
    requires Has(s, 0, HeaderOf(w)) && LengthField(w.length, |w.content|)
    ensures Means(s, LengthPlace(w), w.length, |w.content|, strict)
  {
    Parts(s, w);
    LengthLine(s, LengthPlace(w), w.length, |w.content|, strict);
  }

  /** A written record, whatever follows it and whatever is buffered, is read back as one record of
      exactly its size. */
  lemma WrittenIsRead(w: Warc, rest: seq<Byte>, strict: bool)
    requires Proper(w)
    ensures FirstRecord(Written(w) + rest, strict) == Record(|Written(w)|)
  {
    WrittenHas(w, rest);
    LengthMeans(Written(w) + rest, w, strict);
    ReadAs(Written(w) + rest, w, strict);
  }

  lemma TotalIs(consumed: nat, length: nat)
    requires consumed + length + 4 < SIZE
    ensures Total(consumed, length) == consumed + length + 4
  {
  }

  function WrittenAll(ws: seq<Warc>): seq<Byte>
  {
    if ws == [] then [] else Written(ws[0]) + WrittenAll(ws[1..])
  }

  /** A stream of written records is split into exactly those records. */
  lemma {:induction false} StreamIsRead(ws: seq<Warc>)
    requires forall i :: 0 <= i < |ws| ==> Proper(ws[i])
    ensures Clear(WrittenAll(ws)) && |Records(WrittenAll(ws))| == |ws|
    ensures forall i :: 0 <= i < |ws| ==> Records(WrittenAll(ws))[i] == Written(ws[i])
    decreases |ws|
  {
    if ws != [] {
      var s, rest := WrittenAll(ws), WrittenAll(ws[1..]);
      WrittenIsRead(ws[0], rest, true);
      WrittenIsRead(ws[0], rest, false);
      StreamIsRead(ws[1..]);
      RecordsStep(s, Written(ws[0]), rest);
    }
  }

  // ---------------------------------------------------------------- decimals

  function DecimalText(n: nat): (r: seq<Byte>)
    ensures r != [] && forall i :: 0 <= i < |r| ==> IsDigit(r[i])
  {
    if n < 10 then [48 + n] else DecimalText(n / 10) + [48 + n % 10]
  }

  lemma {:induction false} AllDigits(s: seq<Byte>, i: nat)
    requires i <= |s| && forall k :: i <= k < |s| ==> IsDigit(s[k])
    ensures SkipDigits(s, i) == |s|
    decreases |s| - i
  {
    if i < |s| { AllDigits(s, i + 1); }
  }

  lemma {:induction false} NumberOfText(p: seq<Byte>, n: nat)
    ensures Number(p + DecimalText(n), |p|, |p + DecimalText(n)|) == n
    decreases n
  {
    var s := p + DecimalText(n);
    if n < 10 {
      assert s[|s| - 1] == 48 + n;
      assert Number(s, |p|, |s| - 1) == 0;
    } else {
      var t := p + DecimalText(n / 10);
      NumberOfText(p, n / 10);
      assert t == s[0..0 + |t|];
      NumberInside(s, t, 0, |p|, |t|);
      assert s[|s| - 1] == 48 + n % 10;
    }
  }

  // ------------------------------------------------------------ the number

  predicate White(b: Byte)
  {
    b in {' ' as int, '\t' as int, '\n' as int, 11, 12, '\r' as int}
  }

  predicate Digit(b: Byte)
  {
    '0' as int <= b <= '9' as int
  }

  // White space from a, an optional sign at j, digits from k to e and no further.
  predicate NumberAt(s: seq<Byte>, a: nat, j: nat, k: nat, e: nat)
  {
    && a <= j <= k < e <= |s|
    && (forall i :: a <= i < j ==> White(s[i]))
    && (k == j || (k == j + 1 && (s[j] == '+' as int || s[j] == '-' as int)))
    && (forall i :: k <= i < e ==> Digit(s[i])) && (e < |s| ==> !Digit(s[e]))
  }

  function DigitOf(b: int): nat
  {
    if b < '0' as int then 0 else b - '0' as int
  }

  function DigitsOf(s: seq<Byte>): seq<nat>
  {
    seq(|s|, i requires 0 <= i < |s| => DigitOf(s[i]))
  }

  lemma {:induction false} NumberIsDecimal(s: seq<Byte>, k: nat, e: nat)
    requires k <= e <= |s| && forall i :: k <= i < e ==> Digit(s[i])
    ensures Number(s, k, e) == Powers.Decimal(DigitsOf(s[k..e]))
    decreases e - k
  {
    if k < e {
      NumberIsDecimal(s, k, e - 1);
      var d := DigitsOf(s[k..e]);
      assert d[..|d| - 1] == DigitsOf(s[k..e - 1]);
    }
  }

  lemma {:induction false} SkipsSpace(s: seq<Byte>, a: nat, j: nat)
    requires a <= j <= |s| && (forall i :: a <= i < j ==> White(s[i])) && (j < |s| ==> !White(s[j]))
    ensures SkipSpace(s, a) == j
    decreases j - a
  {
    if a < j { SkipsSpace(s, a + 1, j); }
  }

  lemma {:induction false} SkipsDigits(s: seq<Byte>, k: nat, e: nat)
    requires k <= e <= |s| && (forall i :: k <= i < e ==> Digit(s[i])) && (e < |s| ==> !Digit(s[e]))
    ensures SkipDigits(s, k) == e
    decreases e - k
  {
    if k < e { SkipsDigits(s, k + 1, e); }
  }

  function LongLong(n: nat, negative: bool): int
  {
    if negative then (if n > 0x8000_0000_0000_0000 then -0x8000_0000_0000_0000 else 0 - n)
    else if n > 0x7FFF_FFFF_FFFF_FFFF then 0x7FFF_FFFF_FFFF_FFFF
    else n
  }

  /** strtoll (section 7.22.1.4 of ISO/IEC 9899:2011): the number is read, up to the limits of a long
      long. */
  lemma StrtollReads(s: seq<Byte>, a: nat, j: nat, k: nat, e: nat)
    requires NumberAt(s, a, j, k, e)
    ensures Strtoll(s, a) == Scan(LongLong(Powers.Decimal(DigitsOf(s[k..e])), s[j] == '-' as int), e)
  {
    SkipsSpace(s, a, j);
    SkipsDigits(s, k, e);
    NumberIsDecimal(s, k, e);
  }

  lemma {:induction false} WhiteSkipped(s: seq<Byte>, a: nat)
    requires a <= |s|
    ensures forall i :: a <= i < SkipSpace(s, a) ==> White(s[i])
    decreases |s| - a
  {
    if a < |s| && IsSpace(s[a]) { WhiteSkipped(s, a + 1); }
  }

  lemma {:induction false} DigitsSkipped(s: seq<Byte>, k: nat)
    requires k <= |s|
    ensures forall i :: k <= i < SkipDigits(s, k) ==> Digit(s[i])
    decreases |s| - k
  {
    if k < |s| && IsDigit(s[k]) { DigitsSkipped(s, k + 1); }
  }

  /** Where there is no number, nothing is read. */
  lemma StrtollNothing(s: seq<Byte>, a: nat)
    requires a <= |s| && forall j: nat, k: nat, e: nat :: !NumberAt(s, a, j, k, e)
    ensures Strtoll(s, a) == Scan(0, a)
  {
    var j := SkipSpace(s, a);
    var k := SignEnd(s, j);
    WhiteSkipped(s, a);
    DigitsSkipped(s, k);
    assert !NumberAt(s, a, j, k, SkipDigits(s, k));
  }

  // -------------------------------------------------------------- the field

  // The letter of the other case.
  predicate OtherCase(b: Byte, c: char)
  {
    ('A' <= c <= 'Z' && b == c as int + 32) || ('a' <= c <= 'z' && b == c as int - 32)
  }

  /** The name of the field is understood in every mix of cases, and nothing else is. */
  lemma LengthLineIs(f: seq<Byte>)
    ensures IsLengthLine(f, 0, |f|) <==>
      && |f| >= 15
      && forall i :: 0 <= i < 15 ==> f[i] == "Content-Length:"[i] as int || OtherCase(f[i], "Content-Length:"[i])
  {
    if |f| >= 15 {
      forall i | 0 <= i < 15
        ensures Lower(f[i]) == LengthName()[i] <==>
          f[i] == "Content-Length:"[i] as int || OtherCase(f[i], "Content-Length:"[i])
      {
        LetterIs(f[i], i);
      }
    }
  }

  lemma LetterIs(b: Byte, i: nat)
    requires i < 15
    ensures Lower(b) == LengthName()[i] <==> b == "Content-Length:"[i] as int || OtherCase(b, "Content-Length:"[i])
  {
  }

  /** The usual way to write the field is understood. */
  lemma UsualLengthField(n: nat)
    requires n <= 0x7FFF_FFFF_FFFF_FFFF
    ensures LengthField(Octets("Content-Length: ") + DecimalText(n), n)
  {
    var v, name := [32] + DecimalText(n), Octets("Content-Length: ");
    var f := name + DecimalText(n);
    assert name[15] == 32;
    assert f[15..|f|] == v;
    assert forall i :: 0 <= i < 15 ==> f[i] == name[i] == "Content-Length: "[i] as int == "Content-Length:"[i] as int;
    LengthLineIs(f);
    AllDigits(v, 1);
    NumberOfText([32], n);
    assert v[1] == DecimalText(n)[0];
    assert SkipSpace(v, 0) == 1 by { assert SkipSpace(v, 1) == 1; }
    assert LF !in f;
  }

  /** A record as it is usually written, between any other fields and whatever follows it. */
  lemma UsualRecord(before: seq<seq<Byte>>, after: seq<seq<Byte>>, content: seq<Byte>, rest: seq<Byte>, strict: bool)
    requires PlainFields(before) && PlainFields(after)
    requires |UsualText(before, after, content)| < 0x1_0000_0000_0000_0000 && |content| <= 0x7FFF_FFFF_FFFF_FFFF
    ensures FirstRecord(UsualText(before, after, content) + rest, strict) == Record(|UsualText(before, after, content)|)
  {
    var w := Warc(before, Octets("Content-Length: ") + DecimalText(|content|), after, content);
    UsualLengthField(|content|);
    UsualIsWritten(w, Octets("Content-Length: "), DecimalText(|content|));
    WrittenIsRead(w, rest, strict);
  }

  lemma UsualIsWritten(w: Warc, name: seq<Byte>, number: seq<Byte>)
    requires name == Octets("Content-Length: ") && number == DecimalText(|w.content|) && w.length == name + number
    ensures Written(w) == UsualText(w.before, w.after, w.content)
  {
    assert Octets("WARC/1.0\r\n") == Line(Banner());
    assert Octets("\r\n") == [CR, LF] == Line([]);
    Regrouped(Line(Banner()), Lines(w.before), name, number, [CR, LF], Lines(w.after), w.content, RecordEnd());
  }

  lemma Regrouped(a: seq<Byte>, b: seq<Byte>, c: seq<Byte>, d: seq<Byte>, e: seq<Byte>, f: seq<Byte>, g: seq<Byte>,
                  h: seq<Byte>)
    ensures (a + (b + (((c + d) + e) + (f + e)))) + (g + h) == a + b + c + d + e + f + e + g + h
  {
    assert a + (b + (((c + d) + e) + (f + e))) == a + b + c + d + e + f + e;
  }

  function UsualText(before: seq<seq<Byte>>, after: seq<seq<Byte>>, content: seq<Byte>): seq<Byte>
  {
    Octets("WARC/1.0\r\n") + Lines(before)
    + Octets("Content-Length: ") + DecimalText(|content|) + Octets("\r\n") + Lines(after)
    + Octets("\r\n") + content + Octets("\r\n\r\n")
  }

  lemma NameIsLower()
    ensures forall i :: 0 <= i < 15 ==> Lower(LengthName()[i]) == LengthName()[i]
    ensures LF !in LengthName()
  {
  }

  // ------------------------------------------------------------- no value

  // A record of length zero whose Content-Length field has no value.
  predicate Valueless(w: Warc)
  {
    && PlainFields(w.before) && PlainFields(w.after) && w.content == [] && |Written(w)| < 0x1_0000_0000_0000_0000
    && |w.length| == 15 && LF !in w.length && IsLengthLine(w.length, 0, 15)
  }

  lemma ValuelessLine(s: seq<Byte>, w: Warc, strict: bool)
    requires Valueless(w) && Has(s, LengthPlace(w), Line(w.length))
    ensures LengthPlace(w) + 17 <= |s|
    ensures !(strict && NumberAhead(s, LengthPlace(w) + 15, LengthPlace(w) + 16)) ==>
      Means(s, LengthPlace(w), w.length, 0, strict)
    ensures strict && NumberAhead(s, LengthPlace(w) + 15, LengthPlace(w) + 16) ==>
      HeaderFrom(s, LengthPlace(w), None, strict) == Broken
  {
    OneLine(s, LengthPlace(w), w.length);
    HeaderNoValue(s, LengthPlace(w), LengthPlace(w) + 16, strict);
  }

  lemma ValuelessRead(s: seq<Byte>, w: Warc, strict: bool)
    requires Valueless(w) && StartsWith(s, w) && |HeaderOf(w)| + 4 < SIZE
    ensures LengthPlace(w) + 17 <= |s|
    ensures FirstRecord(s, strict)
         == if strict && NumberAhead(s, LengthPlace(w) + 15, LengthPlace(w) + 16) then Thrown
            else Record(|HeaderOf(w)| + 4)
  {
    Parts(s, w);
    ValuelessLine(s, w, strict);
    if strict && NumberAhead(s, LengthPlace(w) + 15, LengthPlace(w) + 16) {
      SkipFields(s, 10, w.before, LengthPlace(w), None, strict);
      VersionLine(s);
    } else {
      ReadAs(s, w, strict);
    }
  }

  /** Such a record is one of length zero, unless a number follows the line and is in view. */
  lemma ValuelessExactly(w: Warc, rest: seq<Byte>, strict: bool)
    requires Valueless(w)
    ensures var s, v := Written(w) + rest, LengthPlace(w) + 15;
      && v + 2 <= |s|
      && FirstRecord(s, strict) == if strict && NumberAhead(s, v, v + 1) then Thrown else Record(|Written(w)|)
  {
    WrittenHas(w, rest);
    ValuelessRead(Written(w) + rest, w, strict);
  }

  // The line's end and the first byte of the next line.
  lemma ThreeBytes(s: seq<Byte>, w: Warc, v: nat)
    requires Has(s, 0, HeaderOf(w)) && |w.length| == 15 && v == LengthPlace(w) + 15 && w.after != [] && w.after[0] != []
    ensures v + 3 <= |s| && s[v] == CR && s[v + 1] == LF && s[v + 2] == w.after[0][0]
  {
    Parts(s, w);
    HasParts(s, LengthPlace(w), w.length, [CR, LF]);
    HasParts(s, v + 2, Line(w.after[0]), Lines(w.after[1..]));
    HasByte(s, v, [CR, LF], 0);
    HasByte(s, v, [CR, LF], 1);
    HasByte(s, v + 2, Line(w.after[0]), 0);
  }

  lemma HasByte(s: seq<Byte>, a: nat, p: seq<Byte>, i: nat)
    requires Has(s, a, p) && i < |p|
    ensures s[a + i] == p[i]
  {
    assert s[a..a + |p|][i] == p[i];
  }

  lemma DigitInView(w: Warc, rest: seq<Byte>)
    requires Valueless(w) && w.after != [] && IsDigit(w.after[0][0])
    ensures var s, v := Written(w) + rest, LengthPlace(w) + 15;
      v + 2 <= |s| && NumberAhead(s, v, v + 1) && FirstRecord(s, true) == Thrown && FirstRecord(s, false).Record?
  {
    var s, v := Written(w) + rest, LengthPlace(w) + 15;
    ValuelessExactly(w, rest, true);
    ValuelessExactly(w, rest, false);
    WrittenHas(w, rest);
    ThreeBytes(s, w, v);
    DigitFollows(s[..Ahead(s, v + 1)], v);
  }

  /** With a field that starts with a digit behind it, the chunks decide. */
  lemma DigitMakesRisk(w: Warc, rest: seq<Byte>)
    requires Valueless(w) && w.after != [] && IsDigit(w.after[0][0])
    ensures !Clear(Written(w) + rest)
  {
    DigitInView(w, rest);
  }

  lemma DigitFollows(t: seq<Byte>, v: nat)
    requires |t| >= v + 3 && t[v] == CR && t[v + 1] == LF && IsDigit(t[v + 2])
    ensures Strtoll(t, v).end != v
  {
    assert SkipSpace(t, v + 2) == v + 2;
    assert SkipSpace(t, v + 1) == v + 2;
    assert SkipDigits(t, v + 2) > v + 2;
  }

  /** With nothing but line ends behind it, it is a record whatever the chunks. */
  lemma AloneIsClear(w: Warc)
    requires Valueless(w) && w.after == []
    ensures Clear(Written(w)) && Records(Written(w)) == [Written(w)]
  {
    var s := Written(w);
    assert s + [] == s;
    ValuelessExactly(w, [], true);
    ValuelessExactly(w, [], false);
    NoNumberAhead(s, w);
    RecordsStep(s, s, []);
  }

  lemma NoNumberAhead(s: seq<Byte>, w: Warc)
    requires Valueless(w) && w.after == [] && s == Written(w)
    ensures LengthPlace(w) + 17 <= |s| && !NumberAhead(s, LengthPlace(w) + 15, LengthPlace(w) + 16)
  {
    OnlyLineEnds(s, w);
    AllSpace(s[..Ahead(s, LengthPlace(w) + 16)], LengthPlace(w) + 15);
  }

  lemma OnlyLineEnds(s: seq<Byte>, w: Warc)
    requires Valueless(w) && w.after == [] && s == Written(w)
    ensures LengthPlace(w) + 17 <= |s| && forall i :: LengthPlace(w) + 15 <= i < |s| ==> IsSpace(s[i])
  {
    var p, q := Line(Version()) + Lines(w.before) + w.length, [CR, LF] + [CR, LF] + [CR, LF, CR, LF];
    assert s == p + q;
    assert |p| == LengthPlace(w) + 15 && forall i :: 0 <= i < |q| ==> IsSpace(q[i]);
  }

  lemma {:induction false} AllSpace(s: seq<Byte>, i: nat)
    requires i <= |s| && forall k :: i <= k < |s| ==> IsSpace(s[k])
    ensures SkipSpace(s, i) == |s| && Strtoll(s, i).end == i
    decreases |s| - i
  {
    if i < |s| { AllSpace(s, i + 1); }
  }

  lemma {:induction false} RiskAfter(s: seq<Byte>, a: nat, fields: seq<seq<Byte>>, b: nat)
    requires Has(s, a, Lines(fields)) && PlainFields(fields) && b == a + |Lines(fields)|
    ensures b <= |s| && Risky(s, a) == Risky(s, b)
    decreases |fields|
  {
    if fields != [] {
      var f, more := fields[0], fields[1..];
      var c := a + |f| + 2;
      HasParts(s, a, Line(f), Lines(more));
      PlainRisk(s, a, f, c);
      RiskAfter(s, c, more, b);
    }
  }

  lemma PlainRisk(s: seq<Byte>, a: nat, f: seq<Byte>, b: nat)
    requires Has(s, a, Line(f)) && PlainField(f) && b == a + |f| + 2
    ensures b <= |s| && Risky(s, a) == Risky(s, b)
  {
    OneLine(s, a, f);
    RiskyOther(s, a, b - 1, b - 2);
  }

  /** The risk is at the end of the line without a value. */
  lemma RiskPlace(w: Warc, rest: seq<Byte>)
    requires Valueless(w) && w.after != [] && IsDigit(w.after[0][0])
    ensures RiskAt(Written(w) + rest) == Some(LengthPlace(w) + 16)
  {
    var s := Written(w) + rest;
    DigitInView(w, rest);
    WrittenHas(w, rest);
    Parts(s, w);
    VersionLine(s);
    RiskAfter(s, 10, w.before, LengthPlace(w));
    OneLine(s, LengthPlace(w), w.length);
  }

  // WARC/1.0, Content-Length: without a value, a field 0:x, and no content.
  function Example(): Warc
  {
    Warc([], LengthName(), [[48, 58, 120]], [])
  }

  /** A stream with two outcomes: its one record byte by byte, and none if the read that brings the
      end of the second line, at position 26, is a big one. */
  lemma ExampleDepends()
    ensures Records(Written(Example())) == [Written(Example())]
    ensures RiskAt(Written(Example())) == Some(26) && !Clear(Written(Example()))
  {
    var w := Example();
    ExampleIsValueless();
    RiskPlace(w, []);
    DigitMakesRisk(w, []);
    ValuelessExactly(w, [], false);
    assert Written(w) + [] == Written(w);
    RecordsStep(Written(w), Written(w), []);
  }

  lemma ExampleIsValueless()
    ensures Valueless(Example()) && LengthPlace(Example()) == 10
  {
    var w := Example();
    NameIsLower();
    assert PlainField(w.after[0]);
    HeaderSize(w);
    assert Lines(w.after) == Line(w.after[0]) + Lines([]);
  }
}

/** When a header is accepted (preprocess/warc.cc:65-82): it ends in a blank line, and exactly one of its
    lines is a Content-Length line, with a number up to the line's end or with nothing. */
module WarcHeader {
  import opened Utf8
  import opened WarcFormat
  import opened Common

  datatype Fields = Endless | Fields(lines: seq<seq<Byte>>, consumed: nat)

  // The lines from a on up to the first blank one, without their line ends.
  function FieldsFrom(s: seq<Byte>, a: nat): (f: Fields)
    requires a <= |s|
    decreases |s| - a
  {
    var newline := FindNewline(s, a);
    if newline == |s| then Endless
    else
      var e := LineEnd(s, a, newline);
      if a == e then Fields([], newline + 1)
      else
        match FieldsFrom(s, newline + 1)
        case Endless => Endless
        case Fields(lines, consumed) => Fields([s[a..e]] + lines, consumed)
  }

  predicate IsLength(line: seq<Byte>)
  {
    IsLengthLine(line, 0, |line|)
  }

  function Lengths(lines: seq<seq<Byte>>): seq<seq<Byte>>
  {
    if lines == [] then [] else (if IsLength(lines[0]) then [lines[0]] else []) + Lengths(lines[1..])
  }

  // What a Content-Length line says.
  function Said(line: seq<Byte>): Option<int>
    requires IsLength(line)
  {
    if |line| == 15 then Some(0) else ValueIn(line, 15, |line|)
  }

  function ByLines(f: Fields): Header
  {
    if f.Endless? then Broken
    else
      var lengths := Lengths(f.lines);
      if |lengths| == 1 && IsLength(lengths[0]) && Said(lengths[0]).Some? then
        Parsed(f.consumed, Said(lengths[0]).value)
      else Broken
  }

  lemma LineIs(s: seq<Byte>, a: nat, e: nat)
    requires a <= e <= |s|
    ensures IsLength(s[a..e]) <==> IsLengthLine(s, a, e)
    ensures IsLengthLine(s, a, e) ==> Said(s[a..e]) == if e == a + 15 then Some(0) else ValueIn(s, a + 15, e)
  {
    assert forall i :: 0 <= i < e - a ==> s[a..e][i] == s[a + i];
    if e >= a + 15 { assert s[a..e][15..e - a] == s[a + 15..e]; }
  }

  // After the Content-Length line a second one is an error.
  lemma {:induction false} HeaderAfter(s: seq<Byte>, a: nat, n: int)
    requires a <= |s|
    ensures HeaderFrom(s, a, Some(n), false) == match FieldsFrom(s, a)
      case Endless => Broken
      case Fields(lines, consumed) => if Lengths(lines) == [] then Parsed(consumed, n) else Broken
    decreases |s| - a
  {
    var newline := FindNewline(s, a);
    if newline < |s| {
      var e := LineEnd(s, a, newline);
      LineIs(s, a, e);
      if e > a { HeaderAfter(s, newline + 1, n); }
    }
  }

  lemma OneMoreLine(line: seq<Byte>, f: Fields)
    requires f.Fields?
    ensures ByLines(Fields([line] + f.lines, f.consumed)) ==
      if !IsLength(line) then ByLines(f)
      else if Lengths(f.lines) == [] && Said(line).Some? then Parsed(f.consumed, Said(line).value)
      else Broken
  {
    assert ([line] + f.lines)[1..] == f.lines;
    if IsLength(line) { assert Lengths([line] + f.lines) == [line] + Lengths(f.lines); }
  }

  /** The header from a on is accepted exactly if its lines say one length. */
  lemma {:induction false} HeaderByLines(s: seq<Byte>, a: nat)
    requires a <= |s|
    ensures HeaderFrom(s, a, None, false) == ByLines(FieldsFrom(s, a))
    decreases |s| - a
  {
    var newline := FindNewline(s, a);
    if newline < |s| {
      var e := LineEnd(s, a, newline);
      LineIs(s, a, e);
      if e > a {
        var f := FieldsFrom(s, newline + 1);
        if f.Fields? { OneMoreLine(s[a..e], f); }
        if IsLengthLine(s, a, e) {
          HeaderWithLength(s, a, newline, e);
        } else {
          HeaderByLines(s, newline + 1);
        }
      }
    }
  }

  lemma HeaderWithLength(s: seq<Byte>, a: nat, newline: nat, e: nat)
    requires a <= |s| && FindNewline(s, a) == newline < |s| && e == LineEnd(s, a, newline) && IsLengthLine(s, a, e)
    ensures HeaderFrom(s, a, None, false) ==
      match FieldsFrom(s, newline + 1)
      case Endless => Broken
      case Fields(lines, consumed) =>
        if Lengths(lines) == [] && IsLength(s[a..e]) && Said(s[a..e]).Some? then Parsed(consumed, Said(s[a..e]).value)
        else Broken
  {
    LineIs(s, a, e);
    if Said(s[a..e]).Some? { HeaderAfter(s, newline + 1, Said(s[a..e]).value); }
  }

  lemma Spelled()
    ensures Octets("WARC/1.0") == Version() && Octets("\r\n\r\n") == Trailer()
  {
  }

  // The size that a header asks for is there, and the record ends as it must.
  predicate Fits(s: seq<Byte>, h: Header, n: nat)
  {
    && h.Parsed? && n == (h.consumed + h.length + 4) % 0x1_0000_0000_0000_0000
    && 4 <= n <= |s| && s[n - 4..n] == Octets("\r\n\r\n")
  }

  lemma FramedFits(s: seq<Byte>, h: Header, n: nat)
    ensures Framed(s, h) == Record(n) <==> Fits(s, h, n)
  {
    Spelled();
  }

  /** A record is accepted exactly if its first line is WARC/1.0, its header is accepted, and the size
      that follows, in 64 bits, is there and ends with two line ends. */
  lemma AcceptedExactly(s: seq<Byte>, n: nat)
    ensures FirstRecord(s, false) == Record(n) <==>
      && FindNewline(s, 0) < |s| && s[..LineEnd(s, 0, FindNewline(s, 0))] == Octets("WARC/1.0")
      && Fits(s, ByLines(FieldsFrom(s, FindNewline(s, 0) + 1)), n)
  {
    Spelled();
    var newline := FindNewline(s, 0);
    if newline < |s| {
      HeaderByLines(s, newline + 1);
      FramedFits(s, HeaderFrom(s, newline + 1, None, false), n);
    }
  }
}

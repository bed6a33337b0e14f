/** WARCReader (preprocess/warc.cc): when the records depend on how the reads are chunked, and that
    otherwise they do not. */
module WarcReaders {
  import opened Utf8
  import opened WarcFormat
  import opened Sources
  import opened Common

  datatype Status = Fine | AtEnd | Threw

  // On a clean end the buffer is left with the bytes reserved for the read.
  method ReadMore(reader: ReadCompressed, out: seq<Byte>) returns (status: Status, out': seq<Byte>)
    modifies reader
    ensures status.Fine? ==> out <= out' && |out'| > |out| && out' + reader.rest == out + old(reader.rest)
    ensures !status.Fine? ==> old(reader.rest) == [] == reader.rest && (status.AtEnd? <==> out == [])
    ensures status.Fine? ==> |out'| <= |out| + 4096 && reader.calls == old(reader.calls) + 1
    ensures status.Fine? && reader.pick(old(reader.calls)) == 1 ==> |out'| == |out| + 1
    ensures status.Fine? && reader.pick(old(reader.calls)) >= 4096 ==>
      |out'| == |out| + 4096 || reader.rest == []
  {
    var got := reader.Read(READ_SIZE);
    if got == [] {
      if out != [] { return Threw, out; }
      return AtEnd, seq(READ_SIZE, _ => 0);
    }
    status, out' := Fine, out + got;
  }

  // With one byte to a call, the calls count the bytes. Base is their difference.
  ghost predicate Paced(base: int, size: nat, calls: nat, limit: nat)
  {
    base + size <= limit ==> calls == base + size
  }

  // The chunk that starts at start and brings the newline.
  ghost predicate LastChunk(base: int, start: nat, newline: nat, size: nat, limit: nat, pick: nat, whole: nat)
  {
    && start <= newline < size
    && (base + start < limit ==> size == start + 1)
    && (base + start == limit && pick >= READ_SIZE ==> size == start + READ_SIZE || size == whole)
  }

  class HeaderReader {
    const reader: ReadCompressed
    var out: seq<Byte>
    var consumed: nat

    constructor (reader: ReadCompressed, out: seq<Byte>)
      ensures this.reader == reader && this.out == out && consumed == 0
    {
      this.reader, this.out, consumed := reader, out, 0;
    }

    // What is buffered and what is still to come.
    ghost function Whole(): seq<Byte>
      reads this, reader
    {
      out + reader.rest
    }

    // Nothing beyond what was consumed is buffered.
    ghost predicate Tight()
      reads this
    {
      |out| == consumed
    }

    /** The next line is the next line of the whole input, however much of it is buffered. If the
        reads before limit give one byte each, what is buffered is known. */
    method Line(ghost limit: nat) returns (status: Status, a: nat, e: nat)
      requires consumed <= |out| <= consumed + READ_SIZE
      requires forall c :: 0 <= c < limit ==> reader.pick(c) == 1
      modifies this, reader
      ensures status.Fine? ==> Whole() == old(Whole()) && a == old(consumed) < consumed <= |out| < consumed + READ_SIZE
      ensures status.Fine? ==> FindNewline(Whole(), a) == consumed - 1 && a <= e == LineEnd(Whole(), a, consumed - 1)
      ensures status.AtEnd? ==> old(Whole()) == []
      ensures status.Threw? ==> old(Whole()) != [] && FindNewline(old(Whole()), old(consumed)) == |old(Whole())|
      ensures status.Fine? && old(Tight()) && old(reader.calls) + consumed - a <= limit ==>
        Tight() && reader.calls == old(reader.calls) + consumed - a
      ensures status.Fine? && old(Tight()) && old(reader.calls) + consumed - 1 - a == limit ==>
        reader.pick(limit) >= READ_SIZE ==> |out| == Ahead(Whole(), consumed - 1)
    {
      a := consumed;
      var newline: nat;
      ghost var start: nat;
      status, newline, start := FindLine(limit);
      if !status.Fine? { return status, a, a; }
      e := LineEnd(out, consumed, newline);
      consumed := newline + 1;
    }

    // Reads until the buffer has a newline; start is where the last chunk was put.
    method FindLine(ghost limit: nat) returns (status: Status, newline: nat, ghost start: nat)
      requires consumed <= |out| <= consumed + READ_SIZE
      requires forall c :: 0 <= c < limit ==> reader.pick(c) == 1
      modifies `out, reader
      ensures status.Fine? ==> Whole() == old(Whole()) && consumed <= newline < |out| <= newline + READ_SIZE
      ensures status.Fine? ==> FindNewline(Whole(), consumed) == FindNewline(out, consumed) == newline
      ensures status.AtEnd? ==> old(Whole()) == []
      ensures status.Threw? ==> old(Whole()) != [] && FindNewline(old(Whole()), consumed) == |old(Whole())|
      ensures status.Fine? && old(Tight()) ==>
        && Paced(old(reader.calls) - consumed, |out|, reader.calls, limit)
        && LastChunk(old(reader.calls) - consumed, start, newline, |out|, limit, reader.pick(limit), |Whole()|)
    {
      ghost var whole, base := Whole(), reader.calls - consumed;
      start, status := consumed, Fine;
      newline := FindNewline(out, consumed);
      FindNewlinePrefix(out, whole, consumed);
      while newline == |out|
        invariant consumed <= newline <= |out| && out <= whole == Whole()
        invariant newline < |out| ==> |out| <= newline + READ_SIZE
        invariant FindNewline(whole, consumed) == if newline < |out| then newline else FindNewline(whole, |out|)
        invariant old(Tight()) ==> Paced(base, |out|, reader.calls, limit)
        invariant old(Tight()) && newline < |out| ==>
          LastChunk(base, start, newline, |out|, limit, reader.pick(limit), |whole|)
        decreases |reader.rest|
      {
        var more, out' := ReadMore(reader, out);
        if !more.Fine? { return more, newline, start; }
        newline := FindNewline(out', |out|);
        FindNewlinePrefix(out', whole, |out|);
        start := |out|;
        out := out';
      }
      FindNewlinePrefix(out, whole, consumed);
    }
  }

  // A header line looks the same in the buffer and in the whole input.
  lemma SameLine(s: seq<Byte>, out: seq<Byte>, a: nat, e: nat)
    requires out <= s && a <= e <= |out|
    ensures IsLengthLine(out, a, e) == IsLengthLine(s, a, e)
  {
  }

  lemma ValueStep(s: seq<Byte>, out: seq<Byte>, a: nat, newline: nat, e: nat)
    requires out <= s && a <= newline < |out| && FindNewline(s, a) == newline && e == LineEnd(s, a, newline)
    requires IsLengthLine(s, a, e) && e > a + 15
    ensures ValueIn(s, a + 15, e) == if Strtoll(out, a + 15).end == e then Some(Strtoll(out, a + 15).value) else None
  {
    assert out[a + 15..e] == s[a + 15..e];
    StrtollInside(out, s[a + 15..e], a + 15);
  }

  // Without a value: zero, or refused because the number ahead is buffered.
  lemma NoValueStep(s: seq<Byte>, out: seq<Byte>, a: nat, newline: nat)
    requires out <= s && a <= newline < |out| <= newline + READ_SIZE && FindNewline(s, a) == newline
    requires LineEnd(s, a, newline) == a + 15 && IsLengthLine(s, a, a + 15)
    ensures var r := Strtoll(out, a + 15);
      if r.end == a + 15 then
        r.value == 0 && HeaderFrom(s, a, None, false) == HeaderFrom(s, newline + 1, Some(0), false)
      else HeaderFrom(s, a, None, true) == Broken
    ensures |out| == newline + 1 ==> Strtoll(out, a + 15).end == a + 15
    ensures |out| == Ahead(s, newline) ==> (Strtoll(out, a + 15).end == a + 15 <==> !NumberAhead(s, a + 15, newline))
  {
    var all := s[..Ahead(s, newline)];
    assert out <= all;
    if Strtoll(out, a + 15).end != a + 15 { NumberStays(out, all, a + 15); }
    if |out| == newline + 1 { OnlyTheLine(out, a + 15, newline); }
    if |out| == Ahead(s, newline) { assert out == all; }
  }

  // The header from start on, and how far it has been read. Before the Content-Length line both
  // readings agree; strict is the one that was followed.
  ghost predicate Upto(s: seq<Byte>, start: nat, consumed: nat, seen: Option<int>, blank: bool, strict: bool)
  {
    && start <= consumed <= |s|
    && HeaderFrom(s, start, None, strict) == RestOf(s, consumed, seen, blank, strict)
    && (seen.None? ==> HeaderFrom(s, start, None, !strict) == RestOf(s, consumed, seen, blank, !strict))
  }

  ghost function RestOf(s: seq<Byte>, consumed: nat, seen: Option<int>, blank: bool, strict: bool): Header
    requires consumed <= |s|
  {
    if !blank then HeaderFrom(s, consumed, seen, strict)
    else if seen.None? then Broken
    else Parsed(consumed, seen.value)
  }

  // What the loop over the header does with the line from a to e.
  method ParseLine(out: seq<Byte>, a: nat, e: nat, seen: Option<int>, ghost s: seq<Byte>, ghost start: nat,
                   ghost newline: nat, ghost next: nat, ghost strict: bool)
      returns (ok: bool, seen': Option<int>, blank: bool, ghost strict': bool)
    requires out <= s && a < next <= |out| < next + READ_SIZE
    requires next == newline + 1 && FindNewline(s, a) == newline && e == LineEnd(s, a, newline)
    requires Upto(s, start, a, seen, false, strict)
    ensures ok ==> Upto(s, start, next, seen', blank, strict')
    ensures !ok ==> HeaderFrom(s, start, None, strict') == Broken
    ensures |out| == next ==> strict' ==> strict
    ensures |out| == Ahead(s, newline) && seen.None? && e == a + 15 && IsLengthLine(s, a, e) ==>
      NumberAhead(s, a + 15, newline) ==> !ok
    ensures ok && !IsLengthLine(s, a, e) ==> seen' == seen && blank == (a == e)
  {
    seen', blank, strict' := seen, false, strict;
    SameLine(s, out, a, e);
    if IsLengthLine(out, a, e) {
      if seen.Some? { return false, seen', blank, strict'; }
      var r := Strtoll(out, a + 15);
      seen' := Some(r.value);
      if e == a + 15 {
        NoValueStep(s, out, a, newline);
        strict' := r.end != e;
      } else {
        ValueStep(s, out, a, newline, e);
      }
      if r.end != e { return false, seen', blank, strict'; }
    }
    ok, blank := true, a == e;
  }

  // The next read but those of one byte is the one that brings the risky line's end, and it is big.
  ghost predicate Jumps(header: HeaderReader, limit: nat)
    reads header, header.reader
  {
    JumpsAt(header.Whole(), header.consumed, header.reader.calls, limit, header.reader.pick(limit))
  }

  ghost predicate JumpsAt(s: seq<Byte>, consumed: nat, calls: nat, limit: nat, size: nat)
  {
    && consumed <= |s| && Risky(s, consumed).Some?
    && calls + Risky(s, consumed).value - consumed == limit && size >= READ_SIZE
  }

  // A line on the way to the risky one is that line, or another field before it.
  lemma TowardsRisk(s: seq<Byte>, a: nat, next: nat, e: nat, calls: nat, limit: nat, size: nat)
    requires JumpsAt(s, a, calls, limit, size) && 0 < next <= |s|
    requires FindNewline(s, a) == next - 1 && e == LineEnd(s, a, next - 1)
    ensures e > a
    ensures
      if IsLengthLine(s, a, e) then
        e == a + 15 && NumberAhead(s, a + 15, next - 1) && calls + next - 1 - a == limit
      else calls + next - a <= limit && JumpsAt(s, next, calls + next - a, limit, size)
  {
  }

  lemma NoLine(s: seq<Byte>, start: nat, a: nat, seen: Option<int>, strict: bool)
    requires Upto(s, start, a, seen, false, strict) && FindNewline(s, a) == |s|
    ensures HeaderFrom(s, start, None, strict) == Broken
  {
  }

  // One header line.
  method ReadField(header: HeaderReader, seen: Option<int>, ghost s: seq<Byte>, ghost start: nat, ghost strict: bool,
                   ghost limit: nat)
      returns (ok: bool, seen': Option<int>, blank: bool, ghost strict': bool)
    requires header.Whole() == s && header.consumed <= |header.out| <= header.consumed + READ_SIZE
    requires Upto(s, start, header.consumed, seen, false, strict)
    requires forall c :: 0 <= c < limit ==> header.reader.pick(c) == 1
    modifies header, header.reader
    ensures ok ==> header.Whole() == s
    ensures ok ==> old(header.consumed) < header.consumed <= |header.out| < header.consumed + READ_SIZE
    ensures ok ==> Upto(s, start, header.consumed, seen', blank, strict')
    ensures !ok ==> HeaderFrom(s, start, None, strict') == Broken
    ensures ok && old(header.Tight()) && old(header.reader.calls) + header.consumed - old(header.consumed) <= limit ==>
      header.Tight() && header.reader.calls == old(header.reader.calls) + header.consumed - old(header.consumed)
    ensures old(header.Tight()) && old(header.reader.calls) + |s| - old(header.consumed) <= limit ==>
      strict' ==> strict
    ensures old(header.Tight()) && seen.None? && old(Jumps(header, limit)) && ok ==>
      header.Tight() && seen'.None? && !blank && Jumps(header, limit)
  {
    ghost var calls, jumps := header.reader.calls, header.Tight() && Jumps(header, limit);
    var status, a, e := header.Line(limit);
    if !status.Fine? {
      NoLine(s, start, old(header.consumed), seen, strict);
      return false, seen, false, strict;
    }
    if jumps { TowardsRisk(s, a, header.consumed, e, calls, limit, header.reader.pick(limit)); }
    ok, seen', blank, strict' :=
      ParseLine(header.out, a, e, seen, s, start, header.consumed - 1, header.consumed, strict);
    assert jumps && seen.None? && ok ==> !IsLengthLine(s, a, e);
  }

  /** The header after the version line: one of the two readings. With one byte to a read it is the
      lenient one; with a big read at the end of a risky line that line is refused. */
  method ReadFields(header: HeaderReader, ghost limit: nat) returns (ok: bool, length: int, ghost strict: bool)
    requires header.consumed <= |header.out| <= header.consumed + READ_SIZE
    requires forall c :: 0 <= c < limit ==> header.reader.pick(c) == 1
    modifies header, header.reader
    ensures ok ==>
      && header.Whole() == old(header.Whole())
      && old(header.consumed) < header.consumed <= |header.out| <= header.consumed + READ_SIZE
    ensures HeaderFrom(old(header.Whole()), old(header.consumed), None, strict)
      == if ok then Parsed(header.consumed, length) else Broken
    ensures ok && old(header.Tight()) && old(header.reader.calls) + header.consumed - old(header.consumed) <= limit ==>
      header.Tight() && header.reader.calls == old(header.reader.calls) + header.consumed - old(header.consumed)
    ensures old(header.Tight()) && old(header.reader.calls) + |old(header.Whole())| - old(header.consumed) <= limit ==>
      !strict
    ensures old(header.Tight()) && old(Jumps(header, limit)) ==> !ok
  {
    ghost var s, start, base := header.Whole(), header.consumed, header.reader.calls - header.consumed;
    var seen: Option<int>, blank := None, false;
    strict := false;
    while !blank
      invariant header.Whole() == s && start <= header.consumed <= |header.out| <= header.consumed + READ_SIZE
      invariant blank ==> start < header.consumed
      invariant Upto(s, start, header.consumed, seen, blank, strict)
      invariant old(header.Tight()) && base + header.consumed <= limit ==>
        header.Tight() && header.reader.calls == base + header.consumed
      invariant old(header.Tight()) && base + |s| <= limit ==> !strict
      invariant old(header.Tight()) && old(Jumps(header, limit)) ==>
        header.Tight() && seen.None? && !blank && Jumps(header, limit)
      decreases !blank, |s| - header.consumed
    {
      var good;
      good, seen, blank, strict := ReadField(header, seen, s, start, strict, limit);
      if !good { return false, 0, strict; }
    }
    if seen.None? { return false, 0, strict; }
    ok, length := true, seen.value;
  }

  // Reads until the record has its full size, or gives back what was read too much.
  method ReadContent(reader: ReadCompressed, out: seq<Byte>, total: nat, ghost limit: nat)
      returns (ok: bool, record: seq<Byte>, over: seq<Byte>)
    requires forall c :: 0 <= c < limit ==> reader.pick(c) == 1
    modifies reader
    ensures ok <==> total <= |out + old(reader.rest)|
    ensures ok ==> |record| == total && record + over + reader.rest == out + old(reader.rest)
    ensures ok ==> record == (out + old(reader.rest))[..total] && |over| == if total < |out| then |out| - total else 0
    ensures ok && |out| <= total && old(reader.calls) + total - |out| <= limit ==>
      reader.calls == old(reader.calls) + total - |out|
  {
    ghost var whole, base := out + reader.rest, reader.calls - |out|;
    if total < |out| {
      record, over := out[..total], out[total..];
      assert record + over + reader.rest == whole;
    } else {
      record, over := out, [];
      while |record| != total
        invariant |out| <= |record| <= total && record + reader.rest == whole
        invariant Paced(base, |record|, reader.calls, limit)
        decreases total - |record|
      {
        var got := reader.Read(total - |record|);
        if got == [] { return false, record, over; }
        record := record + got;
      }
      assert record + over + reader.rest == whole;
    }
    ok := true;
  }

  datatype Result = NoMore | Error | Got(record: seq<Byte>)

  // The result is what the frame calls for.
  predicate Agrees(r: Result, f: Frame)
  {
    match f
    case End => r.NoMore?
    case Thrown => r.Error?
    case Record(n) => r.Got? && |r.record| == n
  }

  class WARCReader {
    const reader: ReadCompressed
    var overhang: seq<Byte>

    constructor (reader: ReadCompressed)
      ensures this.reader == reader && overhang == []
    {
      this.reader, overhang := reader, [];
    }

    ghost predicate Valid()
      reads this
    {
      |overhang| <= READ_SIZE
    }

    // Everything not yet returned.
    ghost function Left(): seq<Byte>
      reads this, reader
    {
      overhang + reader.rest
    }

    // The first read that is not of one byte brings the end of a risky line, and is big.
    ghost predicate RiskMet(limit: nat)
      reads this, reader
    {
      && overhang == [] && RiskyLine(Left()).Some?
      && reader.calls + RiskyLine(Left()).value == limit && reader.pick(limit) >= READ_SIZE
    }

    /** No byte is lost or repeated, and whatever the chunks, the outcome is one of the two readings
        of the bytes. Reads of one byte make it the lenient one; a big read at the end of a risky
        line makes it an error. */
    method Read(ghost limit: nat) returns (r: Result, ghost strict: bool)
      requires Valid() && forall c :: 0 <= c < limit ==> reader.pick(c) == 1
      modifies this, reader
      ensures Agrees(r, FirstRecord(old(Left()), strict))
      ensures r.Got? ==> r.record + Left() == old(Left()) && Valid()
      ensures r.Got? && old(overhang) == [] && old(reader.calls) + |r.record| <= limit ==>
        overhang == [] && reader.calls == old(reader.calls) + |r.record|
      ensures old(overhang) == [] && old(reader.calls) + |old(Left())| <= limit ==> !strict
      ensures old(RiskMet(limit)) ==> r.Error?
    {
      ghost var whole := Left();
      var header := new HeaderReader(reader, overhang);
      overhang, strict := [], false;
      var status, a, e := header.Line(limit);
      if status.AtEnd? { return NoMore, strict; }
      if status.Threw? { return Error, strict; }
      assert header.out[..e] == whole[..e];
      if header.out[a..e] != Version() { return Error, strict; }
      AfterVersion(whole, header.consumed, e);
      r, strict := ReadRest(header, limit);
    }

    method ReadRest(header: HeaderReader, ghost limit: nat) returns (r: Result, ghost strict: bool)
      requires header.consumed <= |header.out| <= header.consumed + READ_SIZE && header.reader == reader
      requires forall c :: 0 <= c < limit ==> reader.pick(c) == 1
      requires Versioned(header.Whole(), header.consumed)
      modifies this, header, reader
      ensures
        var whole := old(header.Whole());
        !r.NoMore? && Agrees(r, Framed(whole, HeaderFrom(whole, old(header.consumed), None, strict)))
      ensures r.Got? ==> r.record + Left() == old(header.Whole()) && Valid() && |r.record| >= old(header.consumed)
      ensures r.Got? && old(header.Tight()) && old(reader.calls) + |r.record| - old(header.consumed) <= limit ==>
        overhang == [] && reader.calls == old(reader.calls) + |r.record| - old(header.consumed)
      ensures old(header.Tight()) && old(reader.calls) + |old(header.Whole())| - old(header.consumed) <= limit ==>
        !strict
      ensures old(header.Tight()) && old(Jumps(header, limit)) ==> r.Error?
    {
      ghost var whole, start := header.Whole(), header.consumed;
      var ok, length;
      ok, length, strict := ReadFields(header, limit);
      if !ok { return Error, strict; }
      HeaderCovered(whole, start, strict);
      r := Finish(header.out, header.consumed, length, limit);
    }

    // The content and the check of what ends it.
    method Finish(out: seq<Byte>, consumed: nat, length: int, ghost limit: nat) returns (r: Result)
      requires consumed <= |out| <= consumed + READ_SIZE
      requires forall c :: 0 <= c < limit ==> reader.pick(c) == 1
      requires Closed(out + reader.rest, Total(consumed, length)) ==> consumed <= Total(consumed, length)
      modifies this, reader
      ensures !r.NoMore? && Agrees(r, Framed(out + old(reader.rest), Parsed(consumed, length)))
      ensures r.Got? ==> r.record + Left() == out + old(reader.rest) && Valid() && |r.record| >= consumed
      ensures r.Got? && |out| == consumed && old(reader.calls) + |r.record| - consumed <= limit ==>
        overhang == [] && reader.calls == old(reader.calls) + |r.record| - consumed
    {
      ghost var whole := out + reader.rest;
      var total := Total(consumed, length);
      if total < 4 { return Error; }
      var full, record, over := ReadContent(reader, out, total, limit);
      if !full { return Error; }
      overhang := over;
      assert record[total - 4..] == whole[total - 4..total];
      if record[total - 4..] != Trailer() { return Error; }
      Regroup(record, over, reader.rest);
      r := Got(record);
    }
  }

  // The version line ends before a.
  ghost predicate Versioned(s: seq<Byte>, a: nat)
  {
    s != [] && FindNewline(s, 0) + 1 == a <= |s| && s[..LineEnd(s, 0, a - 1)] == Version()
  }

  lemma AfterVersion(s: seq<Byte>, a: nat, e: nat)
    requires s != [] && FindNewline(s, 0) + 1 == a <= |s| && e == LineEnd(s, 0, a - 1) && s[..e] == Version()
    ensures Versioned(s, a)
    ensures FirstRecord(s, true) == Framed(s, HeaderFrom(s, a, None, true))
    ensures FirstRecord(s, false) == Framed(s, HeaderFrom(s, a, None, false))
    ensures RiskyLine(s) == Risky(s, a)
  {
  }

  lemma HeaderCovered(s: seq<Byte>, a: nat, strict: bool)
    requires Versioned(s, a) && HeaderFrom(s, a, None, strict).Parsed?
    ensures var h := HeaderFrom(s, a, None, strict);
      Closed(s, Total(h.consumed, h.length)) ==> h.consumed <= Total(h.consumed, h.length)
  {
    var h := HeaderFrom(s, a, None, strict);
    if Closed(s, Total(h.consumed, h.length)) { RecordCoversHeader(s, strict); }
  }

  // ------------------------------------------------------------ whole streams

  // What was returned so far, and what is left.
  ghost predicate Progress(input: seq<Byte>, records: seq<seq<Byte>>, left: seq<Byte>)
  {
    Flat(records) + left == input && (Clear(input) ==> Clear(left) && Lenient(input, records, left))
  }

  // The records so far are those of the lenient reading.
  ghost predicate Lenient(input: seq<Byte>, records: seq<seq<Byte>>, left: seq<Byte>)
  {
    Records(input) == records + Records(left)
  }

  // One record further.
  lemma NextRecord(input: seq<Byte>, records: seq<seq<Byte>>, left: seq<Byte>, record: seq<Byte>, rest: seq<Byte>,
                   strict: bool)
    requires Progress(input, records, left) && left == record + rest && FirstRecord(left, strict) == Record(|record|)
    ensures Progress(input, records + [record], rest)
    ensures !strict && Lenient(input, records, left) ==> Lenient(input, records + [record], rest)
  {
    FlatSnoc(records, record);
    Regroup(Flat(records), record, rest);
    if Clear(input) || !strict {
      RecordsStep(left, record, rest);
      Regroup(records, [record], Records(rest));
    }
  }

  lemma LastRecord(input: seq<Byte>, records: seq<seq<Byte>>, left: seq<Byte>, strict: bool)
    requires Progress(input, records, left) && !FirstRecord(left, strict).Record?
    ensures Flat(records) <= input && (Flat(records) == input <==> left == [])
    ensures Clear(input) || (!strict && Lenient(input, records, left)) ==> records == Records(input)
  {
    assert |input| == |Flat(records)| + |left|;
    if left == [] { assert Flat(records) + left == Flat(records); }
    assert records + [] == records;
  }

  // The risky line of the stream, reached with everything before it read byte by byte.
  ghost predicate Risks(input: seq<Byte>, left: seq<Byte>, limit: nat)
  {
    |left| <= |input| && RiskAt(left).Some? && |input| - |left| + RiskAt(left).value == limit
  }

  lemma RiskStep(input: seq<Byte>, left: seq<Byte>, record: seq<Byte>, rest: seq<Byte>, strict: bool, limit: nat)
    requires Risks(input, left, limit) && left == record + rest && FirstRecord(left, strict) == Record(|record|)
    requires FirstRecord(left, true) == FirstRecord(left, false)
    ensures Risks(input, rest, limit) && |input| - |rest| <= limit
  {
    RecordsStep(left, record, rest);
  }

  // Without a difference in the next record, there is a next record.
  lemma RiskLater(left: seq<Byte>)
    requires RiskAt(left).Some?
    ensures FirstRecord(left, false).Record?
    ensures FirstRecord(left, true) != FirstRecord(left, false) ==> RiskyLine(left) == RiskAt(left)
  {
    if FirstRecord(left, true) != FirstRecord(left, false) { Differing(left); }
  }

  // Calls count bytes, as long as the reads are of one byte.
  ghost predicate Tracked(reader: WARCReader, input: seq<Byte>, limit: nat)
    reads reader, reader.reader
  {
    var left := reader.Left();
    && |left| <= |input|
    && (|input| - |left| <= limit ==> reader.overhang == [] && reader.reader.calls == |input| - |left|)
  }

  method ReadOne(reader: WARCReader, records: seq<seq<Byte>>, ghost input: seq<Byte>, ghost limit: nat)
      returns (more: bool, clean: bool, records': seq<seq<Byte>>)
    requires reader.Valid() && Progress(input, records, reader.Left()) && Tracked(reader, input, limit)
    requires forall c :: 0 <= c < limit ==> reader.reader.pick(c) == 1
    modifies reader, reader.reader
    ensures more ==> reader.Valid() && Progress(input, records', reader.Left()) && Tracked(reader, input, limit)
    ensures more ==> |reader.Left()| < |old(reader.Left())|
    ensures !more ==> Flat(records') <= input && (clean <==> Flat(records') == input)
    ensures !more && Clear(input) ==> records' == Records(input)
    ensures |input| <= limit && old(Lenient(input, records, reader.Left())) ==>
      if more then Lenient(input, records', reader.Left()) else records' == Records(input)
    ensures old(Risks(input, reader.Left(), limit) && Lenient(input, records, reader.Left())) ==>
      reader.reader.pick(limit) >= READ_SIZE ==>
      if more then Risks(input, reader.Left(), limit) && Lenient(input, records', reader.Left())
      else |records'| < |Records(input)| && !clean
  {
    ghost var left := reader.Left();
    if Risks(input, left, limit) { RiskLater(left); }
    var r;
    ghost var strict;
    r, strict := reader.Read(limit);
    if r.Got? {
      NextRecord(input, records, left, r.record, reader.Left(), strict);
      if Risks(input, left, limit) && FirstRecord(left, true) == FirstRecord(left, false) {
        RiskStep(input, left, r.record, reader.Left(), strict, limit);
        NextRecord(input, records, left, r.record, reader.Left(), false);
      }
      return true, false, records + [r.record];
    }
    LastRecord(input, records, left, strict);
    return false, r.NoMore?, records;
  }

  /** All records of a stream, for every way its reads are chunked: with what is left they make up
      the input, and a clear input alone decides where they end. That is exact. Reads of one byte
      give the records of the lenient reading; if the input is not clear, so that it has a place of
      risk, reads of one byte up to there and then a big one give fewer. */
  method ReadAll(input: seq<Byte>, pick: nat -> nat, ghost limit: nat) returns (records: seq<seq<Byte>>, clean: bool)
    requires forall c :: 0 <= c < limit ==> pick(c) == 1
    ensures Flat(records) <= input && (clean <==> Flat(records) == input)
    ensures Clear(input) ==> records == Records(input)
    ensures |input| <= limit ==> records == Records(input)
    ensures RiskAt(input) == Some(limit) && pick(limit) >= READ_SIZE ==> |records| < |Records(input)| && !clean
  {
    var source := new ReadCompressed(input, pick);
    var reader := new WARCReader(source);
    StartProgress(input, reader.Left());
    records, clean := [], false;
    var more := true;
    while more
      invariant reader.reader == source
      invariant more ==> reader.Valid() && Progress(input, records, reader.Left()) && Tracked(reader, input, limit)
      invariant !more ==>
        Flat(records) <= input && (clean <==> Flat(records) == input) && (Clear(input) ==> records == Records(input))
      invariant |input| <= limit ==> if more then Lenient(input, records, reader.Left()) else records == Records(input)
      invariant RiskAt(input) == Some(limit) && pick(limit) >= READ_SIZE ==>
        if more then Risks(input, reader.Left(), limit) && Lenient(input, records, reader.Left())
        else |records| < |Records(input)| && !clean
      decreases more, |reader.Left()|
    {
      more, clean, records := ReadOne(reader, records, input, limit);
    }
  }

  lemma StartProgress(input: seq<Byte>, left: seq<Byte>)
    requires left == [] + input
    ensures left == input && Progress(input, [], left) && Lenient(input, [], left)
  {
    assert left == input;
    assert Records(input) == [] + Records(left);
  }
}

/** The read mode of FilePiece (util/file_piece.cc): lines out of a buffer that is filled, slid and
    doubled in place. */
module FilePieces {
  import opened Utf8
  import opened Sources
  import Common

  const CR: Byte := 13

  // --------------------------------------------------------- specification

  // The first delimiter, or the end.
  function Find(s: seq<Byte>, delim: Byte): (i: nat)
    ensures i <= |s| && (i < |s| ==> s[i] == delim) && delim !in s[..i]
  {
    if s == [] || s[0] == delim then 0
    else
      var i := Find(s[1..], delim) + 1;
      assert s[..i] == [s[0]] + s[1..][..i - 1];
      i
  }

  function Stripped(line: seq<Byte>, strip: bool): seq<Byte>
  {
    if strip && line != [] && line[|line| - 1] == CR then line[..|line| - 1] else line
  }

  // The first line of what is left, and what is left after it.
  function LineOf(s: seq<Byte>, delim: Byte, strip: bool): seq<Byte>
  {
    var i := Find(s, delim);
    if i < |s| then Stripped(s[..i], strip) else s
  }

  function AfterLine(s: seq<Byte>, delim: Byte): (r: seq<Byte>)
    ensures s != [] ==> |r| < |s|
  {
    var i := Find(s, delim);
    if i < |s| then s[i + 1..] else []
  }

  // The stream split at the delimiter; a delimiter at its very end opens no further line.
  function Split(s: seq<Byte>, delim: Byte, strip: bool): seq<seq<Byte>>
    decreases |s|
  {
    if s == [] then [] else [LineOf(s, delim, strip)] + Split(AfterLine(s, delim), delim, strip)
  }

  // ------------------------------------------------------------------ memory

  method CopyIn(data: array<Byte>, at: nat, got: seq<Byte>)
    requires at + |got| <= data.Length
    modifies data
    ensures data[..at] == old(data[..at]) && data[at..at + |got|] == got
  {
    var i := 0;
    while i < |got|
      invariant 0 <= i <= |got|
      invariant data[..at] == old(data[..at]) && data[at..at + i] == got[..i]
    {
      data[at + i] := got[i];
      i := i + 1;
    }
  }

  lemma Appended(before: seq<Byte>, after: seq<Byte>, p: nat, e: nat, got: seq<Byte>)
    requires p <= e <= e + |got| <= |before| == |after|
    requires after[..e] == before[..e] && after[e..e + |got|] == got
    ensures after[p..e + |got|] == before[p..e] + got
  {
    assert after[p..e] == after[..e][p..] && before[p..e] == before[..e][p..];
    assert after[p..e + |got|] == after[p..e] + after[e..e + |got|];
  }

  // memmove to the front.
  method MoveDown(data: array<Byte>, start: nat, end: nat)
    requires start <= end <= data.Length
    modifies data
    ensures data[..end - start] == old(data[start..end])
  {
    var i := 0;
    while i < end - start
      invariant 0 <= i <= end - start
      invariant forall k :: 0 <= k < i ==> data[k] == old(data[start + k])
      invariant forall k :: i <= k < data.Length ==> data[k] == old(data[k])
    {
      data[i] := data[start + i];
      i := i + 1;
    }
  }

  method Enlarged(data: array<Byte>) returns (bigger: array<Byte>)
    ensures fresh(bigger) && bigger.Length == 2 * data.Length && bigger[..data.Length] == data[..]
  {
    var s := data[..];
    bigger := new Byte[2 * data.Length](i => if 0 <= i < |s| then s[i] else 0);
  }

  method FindFrom(data: array<Byte>, start: nat, end: nat, delim: Byte) returns (i: nat)
    requires start <= end <= data.Length
    ensures start <= i <= end && (i < end ==> data[i] == delim) && delim !in data[start..i]
  {
    i := start;
    while i < end && data[i] != delim
      invariant start <= i <= end && delim !in data[start..i]
    {
      i := i + 1;
    }
  }

  // ------------------------------------------------------------------- class

  class FilePiece {
    const source: ReadCompressed
    var data: array<Byte>
    var position: nat
    var positionEnd: nat
    var atEnd: bool

    ghost predicate Valid()
      reads this, source
    {
      position <= positionEnd <= data.Length && data.Length > 0 && (atEnd ==> source.rest == [])
    }

    // What is in the buffer.
    ghost function Buffered(): seq<Byte>
      reads this, data, source
      requires Valid()
    {
      data[position..positionEnd]
    }

    // Every byte not yet returned.
    ghost function Left(): seq<Byte>
      reads this, data, source
      requires Valid()
    {
      Buffered() + source.rest
    }

    constructor (source: ReadCompressed, size: nat)
      requires size > 0
      ensures Valid() && fresh(data) && this.source == source && Left() == source.rest
    {
      this.source := source;
      data := new Byte[size](_ => 0);
      position, positionEnd, atEnd := 0, 0, false;
    }

    // Makes room at the end of the buffer.
    method MakeRoom()
      requires Valid()
      modifies this, data
      ensures Valid() && (data == old(data) || fresh(data))
      ensures positionEnd < data.Length && Buffered() == old(Buffered()) && atEnd == old(atEnd)
    {
      if position == positionEnd { position, positionEnd := 0, 0; }
      if positionEnd == data.Length {
        if position == 0 {
          data := Enlarged(data);
        } else {
          MoveDown(data, position, positionEnd);
          position, positionEnd := 0, positionEnd - position;
        }
      }
    }

    method ReadShift()
      requires Valid() && !atEnd
      modifies this, data, source
      ensures Valid() && Left() == old(Left()) && (data == old(data) || fresh(data))
      ensures old(Buffered()) <= Buffered()
      ensures !atEnd ==> |source.rest| < |old(source.rest)|
    {
      MakeRoom();
      ghost var had := Buffered();
      var got := source.Read(data.Length - positionEnd);
      Append(got);
      if got == [] { atEnd := true; }
      Extended(had, got, source.rest);
    }

    // Puts what was read behind the bytes in the buffer.
    method Append(got: seq<Byte>)
      requires position <= positionEnd && positionEnd + |got| <= data.Length
      modifies `positionEnd, data
      ensures positionEnd == old(positionEnd) + |got|
      ensures data[position..positionEnd] == old(data[position..positionEnd]) + got
    {
      ghost var before := data[..];
      CopyIn(data, positionEnd, got);
      Appended(before, data[..], position, positionEnd, got);
      positionEnd := positionEnd + |got|;
    }

    // Throws at the end of the file.
    method Shift() returns (thrown: bool)
      requires Valid()
      modifies this, data, source
      ensures Valid() && thrown == old(atEnd) && Left() == old(Left()) && (data == old(data) || fresh(data))
      ensures old(Buffered()) <= Buffered()
      ensures old(atEnd) ==> atEnd && Buffered() == old(Buffered())
      ensures !old(atEnd) && !atEnd ==> |source.rest| < |old(source.rest)|
    {
      if atEnd { return true; }
      ReadShift();
      thrown := false;
    }

    /** The next line of the stream, or end of file exactly when nothing is left. */
    method ReadLine(delim: Byte, strip: bool) returns (eof: bool, line: seq<Byte>)
      requires Valid()
      modifies this, data, source
      ensures Valid() && (data == old(data) || fresh(data))
      ensures eof <==> old(Left()) == []
      ensures eof ==> Left() == []
      ensures !eof ==> line == LineOf(old(Left()), delim, strip) && Left() == AfterLine(old(Left()), delim)
    {
      var skip: nat := 0;
      while true
        invariant Valid() && Left() == old(Left()) && (data == old(data) || fresh(data))
        invariant skip <= |Buffered()| && delim !in Buffered()[..skip]
        decreases !atEnd, |source.rest|
      {
        var i := FindInBuffer(skip, delim);
        if i != positionEnd {
          line := TakeLine(i, delim, strip);
          return false, line;
        }
        if atEnd {
          eof, line := TakeRest(delim, strip);
          return;
        }
        skip := positionEnd - position;
        var thrown := Shift();
      }
    }

    // The bytes before skip were searched already.
    method FindInBuffer(skip: nat, delim: Byte) returns (i: nat)
      requires Valid() && skip <= |Buffered()| && delim !in Buffered()[..skip]
      ensures position <= i <= positionEnd && (i < positionEnd ==> data[i] == delim) && delim !in data[position..i]
    {
      i := FindFrom(data, position + skip, positionEnd, delim);
      assert Buffered()[..skip] == data[position..position + skip];
      assert data[position..i] == data[position..position + skip] + data[position + skip..i];
    }

    // Up to the delimiter found at i.
    method TakeLine(i: nat, delim: Byte, strip: bool) returns (line: seq<Byte>)
      requires Valid() && position <= i < positionEnd && data[i] == delim && delim !in data[position..i]
      modifies this`position
      ensures Valid() && old(Left()) != []
      ensures line == LineOf(old(Left()), delim, strip) && Left() == AfterLine(old(Left()), delim)
    {
      line := LineAt(i, delim, strip);
      position := i + 1;
    }

    method LineAt(i: nat, delim: Byte, strip: bool) returns (line: seq<Byte>)
      requires Valid() && position <= i < positionEnd && data[i] == delim && delim !in data[position..i]
      ensures Left() != [] && line == LineOf(Left(), delim, strip)
      ensures data[i + 1..positionEnd] + source.rest == AfterLine(Left(), delim)
    {
      var cut := if strip && i > position && data[i - 1] == CR then 1 else 0;
      line := data[position..i - cut];
      ghost var k := i - position;
      SliceOf(data[..], position, positionEnd, k, cut);
      TakenLine(Buffered(), k, source.rest, delim, strip, cut);
    }

    // The end of the file was seen, and no delimiter is left.
    method TakeRest(delim: Byte, strip: bool) returns (eof: bool, line: seq<Byte>)
      requires Valid() && atEnd && delim !in data[position..positionEnd]
      modifies this, data, source
      ensures Valid() && (data == old(data) || fresh(data)) && Left() == []
      ensures eof <==> old(Left()) == []
      ensures !eof ==> line == LineOf(old(Left()), delim, strip) && AfterLine(old(Left()), delim) == []
    {
      FindIs(Left(), delim, |Left()|);
      if position == positionEnd {
        eof := Shift();
        return eof, [];
      }
      eof, line := false, data[position..positionEnd];
      position := positionEnd;
    }
  }

  lemma {:induction false} FindIs(s: seq<Byte>, delim: Byte, i: nat)
    requires i <= |s| && (i < |s| ==> s[i] == delim) && delim !in s[..i]
    ensures Find(s, delim) == i
    decreases i
  {
    if i > 0 {
      assert s[0] in s[..i];
      assert s[1..][..i - 1] == s[..i][1..];
      FindIs(s[1..], delim, i - 1);
    }
  }

  lemma SliceOf(d: seq<Byte>, p: nat, e: nat, k: nat, cut: nat)
    requires cut <= k && p + k < e <= |d|
    ensures var b := d[p..e];
      && b[..k] == d[p..p + k] && b[..k - cut] == d[p..p + k - cut]
      && b[k + 1..] == d[p + k + 1..e] && b[k] == d[p + k]
    ensures k > 0 ==> d[p..e][k - 1] == d[p + k - 1]
  {
  }

  // The line that ends at position k of the buffer b.
  lemma TakenLine(b: seq<Byte>, k: nat, rest: seq<Byte>, delim: Byte, strip: bool, cut: nat)
    requires k < |b| && b[k] == delim && delim !in b[..k]
    requires cut == if strip && k > 0 && b[k - 1] == CR then 1 else 0
    ensures var s := b + rest;
      s != [] && LineOf(s, delim, strip) == b[..k - cut] && AfterLine(s, delim) == b[k + 1..] + rest
  {
    var s := b + rest;
    assert s[..k] == b[..k] && s[k] == delim;
    FindIs(s, delim, k);
    assert b[..k][..k - cut] == b[..k - cut];
    assert s[k + 1..] == b[k + 1..] + rest;
  }

  lemma Extended(had: seq<Byte>, got: seq<Byte>, rest: seq<Byte>)
    ensures (had + got) + rest == had + (got + rest) && had <= had + got
  {
  }

  /** Reading to the end gives the stream split at the delimiter, for every way it is chunked and
      every buffer size. */
  method ReadLines(input: seq<Byte>, pick: nat -> nat, size: nat, delim: Byte, strip: bool)
      returns (lines: seq<seq<Byte>>)
    requires size > 0
    ensures lines == Split(input, delim, strip)
  {
    var source := new ReadCompressed(input, pick);
    var file := new FilePiece(source, size);
    lines := [];
    ghost var left := file.Left();
    while true
      invariant file.Valid() && file.source == source && fresh(file.data) && file.Left() == left
      invariant Split(input, delim, strip) == lines + Split(left, delim, strip)
      decreases |left|
    {
      var eof, line := file.ReadLine(delim, strip);
      SplitStep(lines, left, delim, strip);
      if eof { return lines; }
      lines := lines + [line];
      left := file.Left();
    }
  }

  lemma SplitStep(lines: seq<seq<Byte>>, s: seq<Byte>, delim: Byte, strip: bool)
    ensures s == [] ==> lines + Split(s, delim, strip) == lines
    ensures s != [] ==>
      lines + Split(s, delim, strip) == (lines + [LineOf(s, delim, strip)]) + Split(AfterLine(s, delim), delim, strip)
  {
    if s != [] { Common.Regroup(lines, [LineOf(s, delim, strip)], Split(AfterLine(s, delim), delim, strip)); }
  }

  // ------------------------------------------------------- meaning of Split

  function Joined(lines: seq<seq<Byte>>, delim: Byte): seq<Byte>
  {
    if lines == [] then [] else lines[0] + [delim] + Joined(lines[1..], delim)
  }

  lemma JoinedCons(line: seq<Byte>, more: seq<seq<Byte>>, delim: Byte)
    ensures Joined([line] + more, delim) == line + [delim] + Joined(more, delim)
  {
    assert ([line] + more)[1..] == more;
  }

  // The stream with a delimiter at its end, unless it has one or is empty.
  function Ended(s: seq<Byte>, delim: Byte): seq<Byte>
  {
    if s == [] || s[|s| - 1] == delim then s else s + [delim]
  }

  lemma EndedStep(s: seq<Byte>, delim: Byte)
    requires s != []
    ensures LineOf(s, delim, false) + [delim] + Ended(AfterLine(s, delim), delim) == Ended(s, delim)
    ensures delim !in LineOf(s, delim, false)
  {
    var i := Find(s, delim);
    if i < |s| {
      var rest := s[i + 1..];
      assert s == s[..i] + [delim] + rest;
      if rest != [] { assert rest[|rest| - 1] == s[|s| - 1]; }
    } else {
      assert s[..i] == s;
      assert s[|s| - 1] in s;
    }
  }

  /** Without stripping, the lines with their delimiters give back the stream; only a delimiter
      that the stream does not end with may be added. */
  lemma {:induction false} SplitJoins(s: seq<Byte>, delim: Byte)
    ensures Joined(Split(s, delim, false), delim) == Ended(s, delim)
    ensures forall i :: 0 <= i < |Split(s, delim, false)| ==> delim !in Split(s, delim, false)[i]
    decreases |s|
  {
    if s != [] {
      SplitJoins(AfterLine(s, delim), delim);
      EndedStep(s, delim);
      JoinedCons(LineOf(s, delim, false), Split(AfterLine(s, delim), delim, false), delim);
    }
  }

  // The last line is ended by a delimiter.
  predicate EndsLine(s: seq<Byte>, delim: Byte)
  {
    s != [] && s[|s| - 1] == delim
  }

  lemma LineOfStripped(s: seq<Byte>, delim: Byte)
    requires s != []
    ensures var rest := AfterLine(s, delim);
      && (rest != [] ==> EndsLine(rest, delim) == EndsLine(s, delim))
      && (rest != [] || EndsLine(s, delim) ==> LineOf(s, delim, true) == Stripped(LineOf(s, delim, false), true))
      && (rest == [] && !EndsLine(s, delim) ==> LineOf(s, delim, true) == LineOf(s, delim, false))
  {
    var i := Find(s, delim);
    if i < |s| {
      var rest := s[i + 1..];
      if rest != [] { assert rest[|rest| - 1] == s[|s| - 1]; }
    } else {
      assert s[..i] == s && s[|s| - 1] in s;
    }
  }

  /** Stripping only ever takes one carriage return off a line that a delimiter ends. */
  lemma {:induction false} StripsOne(s: seq<Byte>, delim: Byte)
    ensures StripsAll(Split(s, delim, false), Split(s, delim, true), EndsLine(s, delim))
    decreases |s|
  {
    if s != [] {
      var rest := AfterLine(s, delim);
      StripsOne(rest, delim);
      LineOfStripped(s, delim);
      StripsCons(LineOf(s, delim, false), LineOf(s, delim, true), Split(rest, delim, false), Split(rest, delim, true),
                 EndsLine(rest, delim), EndsLine(s, delim));
    }
  }

  // A carriage return at the end, and only one, is taken off.
  function WithoutReturn(line: seq<Byte>): seq<Byte>
  {
    if line != [] && line[|line| - 1] == '\r' as int then line[..|line| - 1] else line
  }

  // All but the last line, and the last if it is ended, are stripped.
  predicate StripsAll(kept: seq<seq<Byte>>, stripped: seq<seq<Byte>>, ended: bool)
  {
    && |stripped| == |kept|
    && forall i :: 0 <= i < |kept| ==>
         stripped[i] == if i < |kept| - 1 || ended then WithoutReturn(kept[i]) else kept[i]
  }

  lemma StripsCons(line: seq<Byte>, strippedLine: seq<Byte>, kept: seq<seq<Byte>>, stripped: seq<seq<Byte>>,
                   ended: bool, endedAll: bool)
    requires StripsAll(kept, stripped, ended) && (kept != [] ==> ended == endedAll)
    requires strippedLine == if kept != [] || endedAll then WithoutReturn(line) else line
    ensures StripsAll([line] + kept, [strippedLine] + stripped, endedAll)
  {
  }
}

/** wrap_lines (preprocess/foldfilter_main.cc:95-187): cutting a line into pieces, with a scan that
    goes back and delimiter positions that outlive the piece they were found in. */
module FoldFilter {
  import opened Utf8

  datatype Options = Options(width: nat, keep: bool, delimiters: seq<nat>)

  const NOT_FOUND: int := -1

  method FindDelimiter(delimiters: seq<nat>, character: nat) returns (i: int)
    ensures i == NOT_FOUND <==> character !in delimiters
    ensures i != NOT_FOUND ==> 0 <= i < |delimiters| && delimiters[i] == character && character !in delimiters[..i]
  {
    i := 0;
    while i < |delimiters|
      invariant 0 <= i <= |delimiters| && character !in delimiters[..i]
    {
      if delimiters[i] == character { return; }
      i := i + 1;
    }
    assert delimiters[..i] == delimiters;
    i := NOT_FOUND;
  }

  // --------------------------------------------------------- specification

  // A limit of zero works like a limit of one.
  function Limit(o: Options): nat
  {
    if o.width == 0 then 1 else o.width
  }

  // The character at p is a delimiter.
  predicate DelimiterAt(line: seq<Byte>, o: Options, p: nat)
  {
    LengthAt(line, p) > 0 && DecodeUTF8(line[p..]).cp in o.delimiters
  }

  // From p to q there are only delimiters.
  predicate AllDelimiters(line: seq<Byte>, o: Options, p: nat, q: nat)
    decreases q - p
  {
    p == q || (p < q && DelimiterAt(line, o, p) && AllDelimiters(line, o, p + LengthAt(line, p), q))
  }

  // Every character from a to q starts below the bound.
  ghost predicate StartsBelow(line: seq<Byte>, a: nat, q: nat, bound: nat)
  {
    forall p :: a <= p < q && Reach(line, a, p) ==> p < bound
  }

  /** A piece from a to b, followed by delimiters up to e. */
  ghost predicate GoodCut(line: seq<Byte>, o: Options, a: nat, b: nat, e: nat)
  {
    && a < b <= e <= |line| && Reach(line, a, b) && Reach(line, b, e)
    && StartsBelow(line, a, b, a + Limit(o))
    && (o.keep ==> b == e)
    && AllDelimiters(line, o, b, e)
  }

  // Pieces with the delimiters after them.
  function Joined(lines: seq<seq<Byte>>, delims: seq<seq<Byte>>): seq<Byte>
    requires |lines| == |delims|
  {
    if lines == [] then []
    else Joined(lines[..|lines| - 1], delims[..|delims| - 1]) + lines[|lines| - 1] + delims[|delims| - 1]
  }

  /** What one piece promises: whole characters, not empty, every character starting below the
      limit; and the delimiters after it are nothing but delimiters. */
  ghost predicate GoodPiece(o: Options, piece: seq<Byte>, delim: seq<Byte>)
  {
    && piece != [] && WellFormed(piece) && WellFormed(delim)
    && (forall p :: 0 <= p < |piece| && Reach(piece, 0, p) ==> p < Limit(o))
    && (o.keep ==> delim == [])
    && AllDelimiters(delim, o, 0, |delim|)
  }

  // Why a piece was cut where it ends: at the limit, or in front of delimiters.
  predicate Justified(o: Options, piece: seq<Byte>, delim: seq<Byte>)
  {
    || |piece| >= Limit(o) || delim != []
    || (o.keep && exists cut: nat ::
          0 < cut < |piece| && DelimiterAt(piece, o, cut) && AllDelimiters(piece, o, cut, |piece|))
  }

  // The cut made at piece i: justified, and only with at least the limit left.
  ghost predicate Broken(line: seq<Byte>, o: Options, lines: seq<seq<Byte>>, delims: seq<seq<Byte>>, i: nat)
    requires i < |lines| == |delims|
  {
    Justified(o, lines[i], delims[i]) && |Joined(lines[..i], delims[..i])| + Limit(o) <= |line|
  }

  ghost predicate Wrapped(line: seq<Byte>, o: Options, lines: seq<seq<Byte>>, delims: seq<seq<Byte>>)
  {
    && |lines| == |delims| > 0 && Joined(lines, delims) == line
    && (forall i :: 0 <= i < |lines| - 1 ==> Broken(line, o, lines, delims, i))
    && (line != [] ==> forall i :: 0 <= i < |lines| ==> GoodPiece(o, lines[i], delims[i]))
    && (line == [] ==> lines == [[]] && delims == [[]])
  }

  lemma {:induction false} SliceDelimiters(line: seq<Byte>, o: Options, a: nat, p: nat, q: nat)
    requires a <= p <= q <= |line| && AllDelimiters(line, o, p, q)
    ensures AllDelimiters(line[a..q], o, p - a, q - a)
    decreases q - p
  {
    if p < q {
      var n := LengthAt(line, p);
      DelimitersReach(line, o, p + n, q);
      SliceDelimiters(line, o, a, p + n, q);
      SliceDelimiter(line, o, a, p, q);
    }
  }

  lemma SliceDelimiter(line: seq<Byte>, o: Options, a: nat, p: nat, q: nat)
    requires a <= p < q <= |line| && DelimiterAt(line, o, p) && p + LengthAt(line, p) <= q
    ensures DelimiterAt(line[a..q], o, p - a) && LengthAt(line[a..q], p - a) == LengthAt(line, p)
  {
    SliceLength(line, a, p, q);
    assert line[a..q][p - a..] == line[p..q] && line[p..q] <= line[p..];
    DecodePrefix(line[p..], line[p..q]);
  }

  lemma {:induction false} DelimitersReach(line: seq<Byte>, o: Options, p: nat, q: nat)
    requires AllDelimiters(line, o, p, q)
    ensures Reach(line, p, q) && p <= q
    decreases q - p
  {
    if p < q { DelimitersReach(line, o, p + LengthAt(line, p), q); }
  }

  lemma {:induction false} DelimitersThen(line: seq<Byte>, o: Options, p: nat, q: nat)
    requires AllDelimiters(line, o, p, q) && DelimiterAt(line, o, q)
    ensures AllDelimiters(line, o, p, q + LengthAt(line, q))
    decreases q - p
  {
    if p < q {
      DelimitersReach(line, o, p + LengthAt(line, p), q);
      DelimitersThen(line, o, p + LengthAt(line, p), q);
    }
  }

  lemma CutGivesPiece(line: seq<Byte>, o: Options, a: nat, b: nat, e: nat)
    requires GoodCut(line, o, a, b, e)
    ensures GoodPiece(o, line[a..b], line[b..e])
  {
    SliceWellFormed(line, a, b);
    SliceWellFormed(line, b, e);
    SliceDelimiters(line, o, b, b, e);
    forall p | 0 <= p < b - a && Reach(line[a..b], 0, p) ensures p < Limit(o) {
      WholeReach(line, a, b, 0, p);
    }
  }

  lemma JoinedSnoc(lines: seq<seq<Byte>>, delims: seq<seq<Byte>>, piece: seq<Byte>, delim: seq<Byte>)
    requires |lines| == |delims|
    ensures Joined(lines + [piece], delims + [delim]) == Joined(lines, delims) + piece + delim
  {
    assert (lines + [piece])[..|lines|] == lines && (delims + [delim])[..|delims|] == delims;
  }

  // --------------------------------------------------- what a fresh scan finds

  // The character at p is delimiter i.
  predicate Kind(line: seq<Byte>, o: Options, p: nat, i: nat)
  {
    DelimiterAt(line, o, p) && i < |o.delimiters|
    && o.delimiters[i] == DecodeUTF8(line[p..]).cp && DecodeUTF8(line[p..]).cp !in o.delimiters[..i]
  }

  // The position remembered for delimiter i after the characters that start from p to below q,
  // when the run of delimiters before p began at first.
  function Marked(line: seq<Byte>, o: Options, p: nat, q: nat, first: nat, mark: nat, i: nat): nat
    decreases q - p
  {
    if p >= q || LengthAt(line, p) == 0 then mark
    else
      var n := p + LengthAt(line, p);
      if !DelimiterAt(line, o, p) then Marked(line, o, n, q, n, mark, i)
      else Marked(line, o, n, q, first, if Kind(line, o, p, i) then first else mark, i)
  }

  // The same, for a scan that starts at the piece and knows nothing.
  function Found(line: seq<Byte>, o: Options, a: nat, i: nat): nat
  {
    Marked(line, o, a, a + Limit(o), a, 0, i)
  }

  // Equal as far as cutting after a is concerned.
  predicate Same(x: nat, y: nat, a: nat)
  {
    x == y || (x <= a && y <= a)
  }

  // Delimiter i starts somewhere from p to below q.
  ghost predicate Occurs(line: seq<Byte>, o: Options, p: nat, q: nat, i: nat)
  {
    exists r: nat :: p <= r < q && Reach(line, p, r) && Kind(line, o, r, i)
  }

  /** What a scan finds does not depend on what it starts with: a stale run start is replaced at the
      next character that is no delimiter, a stale position when its delimiter comes again. */
  lemma {:induction false} MarkedSame(line: seq<Byte>, o: Options, p: nat, q: nat, f: nat, f': nat, m: nat, m': nat,
                                      i: nat, a: nat)
    requires Same(f, f', a) || !DelimiterAt(line, o, p)
    requires Same(m, m', a) || Occurs(line, o, p, q, i)
    ensures Same(Marked(line, o, p, q, f, m, i), Marked(line, o, p, q, f', m', i), a)
    decreases q - p
  {
    if p < q && LengthAt(line, p) > 0 {
      var n := p + LengthAt(line, p);
      if !Same(m, m', a) && !Kind(line, o, p, i) {
        var r: nat :| p <= r < q && Reach(line, p, r) && Kind(line, o, r, i);
        ReachNext(line, p, p, r);
        ReachOne(line, p, p);
        ReachBetween(line, p, n, r);
        assert Occurs(line, o, n, q, i);
      }
      if !DelimiterAt(line, o, p) {
        MarkedSame(line, o, n, q, n, n, m, m', i, a);
      } else if Kind(line, o, p, i) {
        MarkedSame(line, o, n, q, f, f', f, f', i, a);
      } else {
        MarkedSame(line, o, n, q, f, f', m, m', i, a);
      }
    }
  }

  // The first boundary at or after the bound.
  function FirstBoundary(line: seq<Byte>, p: nat, bound: nat): nat
    decreases bound - p
  {
    if p >= bound || LengthAt(line, p) == 0 then p else FirstBoundary(line, p + LengthAt(line, p), bound)
  }

  lemma {:induction false} FirstBoundaryIs(line: seq<Byte>, p: nat, p0: nat, bound: nat)
    requires Reach(line, p, p0) && p0 < bound <= p0 + LengthAt(line, p0)
    ensures FirstBoundary(line, p, bound) == p0 + LengthAt(line, p0)
    decreases p0 - p
  {
    if p < p0 { FirstBoundaryIs(line, p + LengthAt(line, p), p0, bound); }
  }

  // The most preferred delimiter found from the i-th on, or else the limit.
  function CutFrom(line: seq<Byte>, o: Options, a: nat, i: nat): nat
    decreases |o.delimiters| - i
  {
    if i >= |o.delimiters| then FirstBoundary(line, a, a + Limit(o))
    else if Found(line, o, a, i) > a then Found(line, o, a, i)
    else CutFrom(line, o, a, i + 1)
  }

  function SkipEnd(line: seq<Byte>, o: Options, a: nat, p: nat): nat
    decreases |line| - p
  {
    if p < |line| && !(o.keep && p >= a + o.width) && DelimiterAt(line, o, p) then
      SkipEnd(line, o, a, p + LengthAt(line, p))
    else p
  }

  datatype Folded = Folded(lines: seq<seq<Byte>>, delims: seq<seq<Byte>>)

  /** The pieces of the line from a on, each cut by a scan of its own. */
  function Fold(line: seq<Byte>, o: Options, a: nat): (r: Folded)
    ensures |r.lines| == |r.delims|
    decreases |line| - a
  {
    var cut := CutFrom(line, o, a, 0);
    var e := SkipEnd(line, o, a, cut);
    if |line| < a + Limit(o) || !(a < cut <= e <= |line|) then
      if a < |line| || a == 0 then Folded([line[a..]], [[]]) else Folded([], [])
    else
      var rest := Fold(line, o, e);
      Folded([PieceOf(line, o, a, cut, e)] + rest.lines, [DelimOf(line, o, cut, e)] + rest.delims)
  }

  function PieceOf(line: seq<Byte>, o: Options, a: nat, cut: nat, e: nat): seq<Byte>
    requires a <= cut <= e <= |line|
  {
    if o.keep then line[a..e] else line[a..cut]
  }

  function DelimOf(line: seq<Byte>, o: Options, cut: nat, e: nat): seq<Byte>
    requires cut <= e <= |line|
  {
    if o.keep then [] else line[cut..e]
  }

  // ------------------------------------------------------------------ loops

  // Delimiter i is the most preferred one found in the current piece.
  predicate FirstAfter(posDelimiters: seq<nat>, lastCut: nat, i: nat)
    requires i < |posDelimiters|
  {
    posDelimiters[i] > lastCut && forall j :: 0 <= j < i ==> posDelimiters[j] <= lastCut
  }

  // The most preferred delimiter position in the current piece, or else the scan position.
  method ChooseCut(posDelimiters: seq<nat>, lastCut: nat, pos: nat) returns (cut: nat)
    requires lastCut < pos
    ensures lastCut < cut && (cut == pos || cut in posDelimiters)
    ensures forall i :: 0 <= i < |posDelimiters| && FirstAfter(posDelimiters, lastCut, i) ==> cut == posDelimiters[i]
    ensures (forall i :: 0 <= i < |posDelimiters| ==> posDelimiters[i] <= lastCut) ==> cut == pos
  {
    var i := 0;
    while i < |posDelimiters|
      invariant 0 <= i <= |posDelimiters| && forall j :: 0 <= j < i ==> posDelimiters[j] <= lastCut
    {
      if posDelimiters[i] > lastCut { return posDelimiters[i]; }
      i := i + 1;
    }
    cut := pos;
  }

  // Why the delimiters after a cut end where they end.
  predicate SkipEnds(line: seq<Byte>, o: Options, lastCut: nat, e: nat)
  {
    e == |line| || (o.keep && e >= lastCut + o.width) || (LengthAt(line, e) > 0 && !DelimiterAt(line, o, e))
  }

  method SkipDelimiters(line: seq<Byte>, o: Options, lastCut: nat, cut: nat) returns (ok: bool, e: nat)
    requires lastCut < cut <= |line|
    ensures cut <= e <= |line| && AllDelimiters(line, o, cut, e)
    ensures ok ==> SkipEnds(line, o, lastCut, e) && e == SkipEnd(line, o, lastCut, cut)
    ensures !ok ==> e < |line| && LengthAt(line, e) == 0
    ensures o.keep ==> StartsBelow(line, cut, e, lastCut + o.width)
  {
    e := cut;
    var posNext := e;
    ghost var end := SkipEnd(line, o, lastCut, cut);
    while e < |line|
      invariant cut <= e == posNext <= |line| && AllDelimiters(line, o, cut, e)
      invariant SkipEnd(line, o, lastCut, e) == end
      invariant o.keep ==> StartsBelow(line, cut, e, lastCut + o.width)
    {
      if o.keep && e - lastCut >= o.width { return true, e; }
      var d := DecodeUTF8(line[posNext..]);
      if d.Bad? { return false, e; }
      posNext := posNext + d.len;
      var i := FindDelimiter(o.delimiters, d.cp);
      if i == NOT_FOUND { return true, e; }
      DelimitersThen(line, o, cut, e);
      DelimitersReach(line, o, cut, e);
      SkipOne(line, o, lastCut, e, posNext);
      if o.keep { StartsExtend(line, cut, e, lastCut + o.width); }
      e := posNext;
    }
    ok := true;
  }

  lemma SkipOne(line: seq<Byte>, o: Options, a: nat, p: nat, next: nat)
    requires p < |line| && !(o.keep && p >= a + o.width) && DelimiterAt(line, o, p) && next == p + LengthAt(line, p)
    ensures SkipEnd(line, o, a, p) == SkipEnd(line, o, a, next)
  {
  }

  lemma StartsExtend(line: seq<Byte>, a: nat, q: nat, bound: nat)
    requires StartsBelow(line, a, q, bound) && q < bound && Reach(line, a, q) && LengthAt(line, q) > 0
    ensures StartsBelow(line, a, q + LengthAt(line, q), bound)
  {
    forall p | a <= p < q + LengthAt(line, q) && Reach(line, a, p) ensures p < bound {
      if p > q { ReachNext(line, a, q, p); }
    }
  }

  lemma StartsThen(line: seq<Byte>, a: nat, b: nat, e: nat, bound: nat)
    requires StartsBelow(line, a, b, bound) && StartsBelow(line, b, e, bound) && Reach(line, a, b)
    ensures StartsBelow(line, a, e, bound)
  {
    forall p | a <= p < e && Reach(line, a, p) ensures p < bound {
      if p >= b { ReachBetween(line, a, b, p); }
    }
  }

  // ------------------------------------------------------------- invariant

  /** Between two characters: lastCut is where the piece starts, first may be ahead of the scan
      only if the next character is no delimiter, and no remembered position, however old, lies
      beyond the limit of the current piece. */
  ghost predicate Scanning(line: seq<Byte>, o: Options, lastCut: nat, pos: nat, first: nat, posDelimiters: seq<nat>)
  {
    && lastCut <= pos <= |line| && Boundary(line, lastCut) && Boundary(line, pos)
    && pos < lastCut + Limit(o)
    && Boundary(line, first)
    && (first <= pos || pos == |line| || (LengthAt(line, pos) > 0 && !DelimiterAt(line, o, pos)))
    && (lastCut < first <= pos ==> AllDelimiters(line, o, first, pos))
    && Remembered(line, o, lastCut, posDelimiters)
  }

  // Positions found so far. Those in the current piece are where delimiters start.
  ghost predicate Remembered(line: seq<Byte>, o: Options, lastCut: nat, posDelimiters: seq<nat>)
  {
    && |posDelimiters| == |o.delimiters|
    && forall i :: 0 <= i < |posDelimiters| ==>
         && Boundary(line, posDelimiters[i]) && posDelimiters[i] < lastCut + Limit(o)
         && (posDelimiters[i] > lastCut ==>
               DelimiterAt(line, o, posDelimiters[i]) && Witnessed(line, o, posDelimiters[i], lastCut + Limit(o), i))
  }

  // Delimiter i was read at a boundary from d to below the bound.
  ghost predicate Witnessed(line: seq<Byte>, o: Options, d: nat, bound: nat, i: nat)
  {
    exists r: nat :: d <= r < bound && Boundary(line, r) && Kind(line, o, r, i)
  }

  /** Stale or not, the positions lead to the cut that a fresh scan of the piece leads to. */
  ghost predicate Fresh(line: seq<Byte>, o: Options, lastCut: nat, pos: nat, first: nat, posDelimiters: seq<nat>)
  {
    forall i :: 0 <= i < |posDelimiters| ==>
      Same(Marked(line, o, pos, lastCut + Limit(o), first, posDelimiters[i], i), Found(line, o, lastCut, i), lastCut)
  }

  // After a rewind.
  lemma RewindIsFresh(line: seq<Byte>, o: Options, lastCut: nat, e: nat, first: nat, posDelimiters: seq<nat>)
    requires lastCut < e && Scanning(line, o, e, e, first, posDelimiters) && Remembered(line, o, lastCut, posDelimiters)
    ensures Fresh(line, o, e, e, first, posDelimiters)
  {
    forall i | 0 <= i < |posDelimiters|
      ensures Same(Marked(line, o, e, e + Limit(o), first, posDelimiters[i], i), Found(line, o, e, i), e)
    {
      var d := posDelimiters[i];
      if d > e {
        var r: nat :| d <= r < lastCut + Limit(o) && Boundary(line, r) && Kind(line, o, r, i);
        ReachBetween(line, 0, e, r);
        assert Occurs(line, o, e, e + Limit(o), i);
      }
      MarkedSame(line, o, e, e + Limit(o), first, e, d, 0, i, e);
    }
  }

  // At a break the positions are those of a fresh scan, so the choice is the same.
  lemma {:induction false} ChosenAsFound(line: seq<Byte>, o: Options, a: nat, posDelimiters: seq<nat>, pos: nat,
                                         cut: nat, i: nat)
    requires |posDelimiters| == |o.delimiters| && i <= |posDelimiters|
    requires forall k :: 0 <= k < |posDelimiters| ==> Same(posDelimiters[k], Found(line, o, a, k), a)
    requires pos == FirstBoundary(line, a, a + Limit(o))
    requires forall k :: 0 <= k < i ==> posDelimiters[k] <= a
    requires forall k :: 0 <= k < |posDelimiters| && FirstAfter(posDelimiters, a, k) ==> cut == posDelimiters[k]
    requires (forall k :: 0 <= k < |posDelimiters| ==> posDelimiters[k] <= a) ==> cut == pos
    ensures cut == CutFrom(line, o, a, i)
    decreases |posDelimiters| - i
  {
    if i < |posDelimiters| {
      assert Same(posDelimiters[i], Found(line, o, a, i), a);
      if posDelimiters[i] > a {
        assert FirstAfter(posDelimiters, a, i);
      } else {
        ChosenAsFound(line, o, a, posDelimiters, pos, cut, i + 1);
      }
    }
  }

  lemma BreakChoice(line: seq<Byte>, o: Options, lastCut: nat, p0: nat, pos: nat, first: nat, posDelimiters: seq<nat>,
                    cut: nat)
    requires Boundary(line, lastCut) && Boundary(line, p0) && lastCut <= p0 < lastCut + Limit(o) <= pos
    requires LengthAt(line, p0) > 0 && pos == p0 + LengthAt(line, p0)
    requires |posDelimiters| == |o.delimiters| && Fresh(line, o, lastCut, pos, first, posDelimiters)
    requires forall k :: 0 <= k < |posDelimiters| && FirstAfter(posDelimiters, lastCut, k) ==> cut == posDelimiters[k]
    requires (forall k :: 0 <= k < |posDelimiters| ==> posDelimiters[k] <= lastCut) ==> cut == pos
    ensures cut == CutFrom(line, o, lastCut, 0)
  {
    ReachBetween(line, 0, lastCut, p0);
    FirstBoundaryIs(line, lastCut, p0, lastCut + Limit(o));
    ChosenAsFound(line, o, lastCut, posDelimiters, pos, cut, 0);
  }

  // One character on, without a break.
  lemma ScanOn(line: seq<Byte>, o: Options, lastCut: nat, pos: nat, first: nat, posDelimiters: seq<nat>)
    requires Scanning(line, o, lastCut, pos, first, posDelimiters) && LengthAt(line, pos) > 0
    ensures Boundary(line, pos + LengthAt(line, pos))
    ensures StartsBelow(line, lastCut, pos + LengthAt(line, pos), lastCut + Limit(o))
    ensures Reach(line, lastCut, pos + LengthAt(line, pos))
  {
    ReachOne(line, 0, pos);
    ReachBetween(line, 0, lastCut, pos);
    ReachOne(line, lastCut, pos);
    StartsExtend(line, lastCut, pos, lastCut + Limit(o));
  }

  // After a break at cut, with delimiters skipped to e, the scan goes back to e.
  lemma BreakKeepsScanning(line: seq<Byte>, o: Options, lastCut: nat, p0: nat, pos: nat, first: nat,
                           posDelimiters: seq<nat>, cut: nat, e: nat)
    requires Boundary(line, p0) && p0 < lastCut + Limit(o) && LengthAt(line, p0) > 0 && pos == p0 + LengthAt(line, p0)
    requires Boundary(line, first) && first <= pos && Remembered(line, o, lastCut, posDelimiters)
    requires lastCut < cut <= e <= |line| && Boundary(line, cut)
    requires AllDelimiters(line, o, cut, e) && SkipEnds(line, o, lastCut, e)
    ensures Scanning(line, o, e, e, first, posDelimiters)
  {
    DelimitersReach(line, o, cut, e);
    ReachThen(line, 0, cut, e);
    if e >= lastCut + Limit(o) { ReachNext(line, 0, p0, e); }
  }

  lemma BreakIsGoodCut(line: seq<Byte>, o: Options, lastCut: nat, pos: nat, cut: nat, e: nat)
    requires Boundary(line, lastCut) && StartsBelow(line, lastCut, pos, lastCut + Limit(o))
    requires lastCut < cut <= pos && cut <= e <= |line| && Boundary(line, cut) && AllDelimiters(line, o, cut, e)
    requires o.keep ==> StartsBelow(line, cut, e, lastCut + o.width)
    requires cut >= lastCut + Limit(o) || DelimiterAt(line, o, cut)
    requires SkipEnds(line, o, lastCut, e)
    ensures GoodCut(line, o, lastCut, if o.keep then e else cut, e)
    ensures e >= lastCut + Limit(o) || cut < e
  {
    ReachBetween(line, 0, lastCut, cut);
    DelimitersReach(line, o, cut, e);
    ReachThen(line, lastCut, cut, e);
    if o.keep { StartsThen(line, lastCut, cut, e, lastCut + Limit(o)); }
  }

  // ------------------------------------------------------------- wrap_lines

  // Reads the character at pos and remembers where the run of delimiters it belongs to began.
  method ReadCharacter(line: seq<Byte>, o: Options, ghost lastCut: nat, pos: nat, first: nat, posDelimiters: seq<nat>)
      returns (ok: bool, pos': nat, first': nat, posDelimiters': seq<nat>)
    requires Scanning(line, o, lastCut, pos, first, posDelimiters) && pos < |line|
    requires Fresh(line, o, lastCut, pos, first, posDelimiters)
    ensures ok <==> LengthAt(line, pos) > 0
    ensures ok ==> pos' == pos + LengthAt(line, pos) <= |line| && Read(line, o, lastCut, pos', first', posDelimiters')
  {
    pos', first', posDelimiters' := pos, first, posDelimiters;
    var d := DecodeUTF8(line[pos..]);
    if d.Bad? { return false, pos', first', posDelimiters'; }
    ok, pos' := true, pos + d.len;
    var i := FindDelimiter(o.delimiters, d.cp);
    if i != NOT_FOUND {
      posDelimiters' := posDelimiters[i := first];
      ReadDelimiter(line, o, lastCut, pos, first, posDelimiters, i);
    } else {
      first' := pos';
      ReadOther(line, o, lastCut, pos, first, posDelimiters);
    }
  }

  // After a character, before a break is considered.
  ghost predicate Read(line: seq<Byte>, o: Options, lastCut: nat, pos: nat, first: nat, posDelimiters: seq<nat>)
  {
    && Boundary(line, pos) && Boundary(line, first) && first <= pos && Remembered(line, o, lastCut, posDelimiters)
    && (lastCut < first ==> AllDelimiters(line, o, first, pos))
    && Fresh(line, o, lastCut, pos, first, posDelimiters)
  }

  lemma ReadOther(line: seq<Byte>, o: Options, lastCut: nat, pos: nat, first: nat, posDelimiters: seq<nat>)
    requires Scanning(line, o, lastCut, pos, first, posDelimiters) && Fresh(line, o, lastCut, pos, first, posDelimiters)
    requires LengthAt(line, pos) > 0 && !DelimiterAt(line, o, pos)
    ensures var n := pos + LengthAt(line, pos); Read(line, o, lastCut, n, n, posDelimiters)
  {
    ReachOne(line, 0, pos);
    FreshStep(line, o, lastCut, pos, first, posDelimiters, pos + LengthAt(line, pos), posDelimiters);
  }

  lemma ReadDelimiter(line: seq<Byte>, o: Options, lastCut: nat, pos: nat, first: nat, posDelimiters: seq<nat>, i: nat)
    requires Scanning(line, o, lastCut, pos, first, posDelimiters) && Fresh(line, o, lastCut, pos, first, posDelimiters)
    requires Kind(line, o, pos, i)
    ensures Read(line, o, lastCut, pos + LengthAt(line, pos), first, posDelimiters[i := first])
  {
    ReachOne(line, 0, pos);
    if lastCut < first { DelimitersThen(line, o, first, pos); }
    RememberOne(line, o, lastCut, pos, first, posDelimiters, i);
    FreshStep(line, o, lastCut, pos, first, posDelimiters, first, posDelimiters[i := first]);
  }

  lemma RememberOne(line: seq<Byte>, o: Options, lastCut: nat, pos: nat, first: nat, posDelimiters: seq<nat>, i: nat)
    requires Remembered(line, o, lastCut, posDelimiters) && Kind(line, o, pos, i)
    requires Boundary(line, pos) && pos < lastCut + Limit(o)
    requires Boundary(line, first) && first <= pos && (lastCut < first ==> AllDelimiters(line, o, first, pos))
    ensures Remembered(line, o, lastCut, posDelimiters[i := first])
  {
    assert Witnessed(line, o, first, lastCut + Limit(o), i);
  }

  // One character on, the scan still finds the same.
  lemma FreshStep(line: seq<Byte>, o: Options, lastCut: nat, pos: nat, first: nat, ds: seq<nat>, first': nat,
                  ds': seq<nat>)
    requires Fresh(line, o, lastCut, pos, first, ds) && LengthAt(line, pos) > 0 && pos < lastCut + Limit(o)
    requires |ds'| == |ds| == |o.delimiters|
    requires if DelimiterAt(line, o, pos) then first' == first else first' == pos + LengthAt(line, pos)
    requires forall i :: 0 <= i < |ds| ==> ds'[i] == if Kind(line, o, pos, i) then first else ds[i]
    ensures Fresh(line, o, lastCut, pos + LengthAt(line, pos), first', ds')
  {
    forall i | 0 <= i < |ds'|
      ensures Same(Marked(line, o, pos + LengthAt(line, pos), lastCut + Limit(o), first', ds'[i], i),
                   Found(line, o, lastCut, i), lastCut)
    {
      assert Same(Marked(line, o, pos, lastCut + Limit(o), first, ds[i], i), Found(line, o, lastCut, i), lastCut);
    }
  }

  // Where a break is due: p0 is the start of the character that ends at pos.
  ghost predicate Due(line: seq<Byte>, o: Options, lastCut: nat, p0: nat, pos: nat)
  {
    && Boundary(line, lastCut) && Boundary(line, p0) && lastCut <= p0 < lastCut + Limit(o) <= pos <= |line|
    && LengthAt(line, p0) > 0 && pos == p0 + LengthAt(line, p0) && Boundary(line, pos)
    && StartsBelow(line, lastCut, pos, lastCut + Limit(o))
  }

  // The position chosen is the scan position or one that was remembered.
  lemma ChosenIsGood(line: seq<Byte>, o: Options, lastCut: nat, pos: nat, posDelimiters: seq<nat>, cut: nat)
    requires Remembered(line, o, lastCut, posDelimiters) && Boundary(line, pos) && lastCut + Limit(o) <= pos
    requires lastCut < cut && (cut == pos || cut in posDelimiters)
    ensures Boundary(line, cut) && cut <= pos && (cut == pos || DelimiterAt(line, o, cut))
  {
  }

  method Break(line: seq<Byte>, o: Options, lastCut: nat, ghost p0: nat, pos: nat, ghost first: nat,
               posDelimiters: seq<nat>)
      returns (ok: bool, piece: seq<Byte>, delim: seq<Byte>, e: nat)
    requires Due(line, o, lastCut, p0, pos) && Read(line, o, lastCut, pos, first, posDelimiters)
    ensures !ok ==> !WellFormed(line)
    ensures ok ==> CutAs(line, o, lastCut, piece, delim, e) && Fresh(line, o, e, e, first, posDelimiters)
    ensures ok ==> line[lastCut..e] == piece + delim && GoodPiece(o, piece, delim) && Justified(o, piece, delim)
    ensures ok ==> Scanning(line, o, e, e, first, posDelimiters)
  {
    var cut := ChooseCut(posDelimiters, lastCut, pos);
    ChosenIsGood(line, o, lastCut, pos, posDelimiters, cut);
    ok, e := SkipDelimiters(line, o, lastCut, cut);
    if !ok {
      SkipFails(line, o, cut, e);
      return ok, [], [], e;
    }
    BreakChoice(line, o, lastCut, p0, pos, first, posDelimiters, cut);
    BreakKeepsScanning(line, o, lastCut, p0, pos, first, posDelimiters, cut, e);
    RewindIsFresh(line, o, lastCut, e, first, posDelimiters);
    BreakPiece(line, o, lastCut, pos, cut, e);
    if o.keep {
      piece, delim := line[lastCut..e], [];
    } else {
      piece, delim := line[lastCut..cut], line[cut..e];
    }
  }

  lemma SkipFails(line: seq<Byte>, o: Options, cut: nat, e: nat)
    requires Boundary(line, cut) && AllDelimiters(line, o, cut, e) && e < |line| && LengthAt(line, e) == 0
    ensures !WellFormed(line)
  {
    DelimitersReach(line, o, cut, e);
    ReachThen(line, 0, cut, e);
    BadCharacter(line, e);
  }

  // The piece and its delimiters keep their promises.
  lemma BreakPiece(line: seq<Byte>, o: Options, a: nat, pos: nat, cut: nat, e: nat)
    requires Boundary(line, a) && StartsBelow(line, a, pos, a + Limit(o)) && a + Limit(o) <= pos
    requires a < cut <= pos && cut <= e <= |line| && Boundary(line, cut) && AllDelimiters(line, o, cut, e)
    requires o.keep ==> StartsBelow(line, cut, e, a + o.width)
    requires (cut == pos || DelimiterAt(line, o, cut)) && SkipEnds(line, o, a, e)
    ensures var piece, delim := PieceOf(line, o, a, cut, e), DelimOf(line, o, cut, e);
      line[a..e] == piece + delim && GoodPiece(o, piece, delim) && Justified(o, piece, delim)
  {
    BreakIsGoodCut(line, o, a, pos, cut, e);
    CutGivesPiece(line, o, a, if o.keep then e else cut, e);
    CutIsJustified(line, o, a, cut, e);
    assert line[e..e] == [];
  }

  // The piece that a fresh scan cuts off at a.
  ghost predicate CutAs(line: seq<Byte>, o: Options, a: nat, piece: seq<Byte>, delim: seq<Byte>, e: nat)
  {
    var cut := CutFrom(line, o, a, 0);
    && e == SkipEnd(line, o, a, cut) && a < cut <= e <= |line| && a + Limit(o) <= |line|
    && piece == PieceOf(line, o, a, cut, e) && delim == DelimOf(line, o, cut, e)
  }

  lemma CutIsJustified(line: seq<Byte>, o: Options, a: nat, cut: nat, e: nat)
    requires a < cut <= e <= |line| && AllDelimiters(line, o, cut, e)
    requires cut >= a + Limit(o) || (DelimiterAt(line, o, cut) && (e >= a + Limit(o) || cut < e))
    requires !o.keep && cut < a + Limit(o) ==> cut < e
    ensures if o.keep then Justified(o, line[a..e], []) else Justified(o, line[a..cut], line[cut..e])
  {
    if o.keep && e < a + Limit(o) {
      SliceDelimiters(line, o, a, cut, e);
      assert AllDelimiters(line[a..e], o, cut - a, |line[a..e]|);
    }
  }

  lemma BadCharacter(line: seq<Byte>, p: nat)
    requires p < |line| && Boundary(line, p) && LengthAt(line, p) == 0
    ensures !WellFormed(line)
  {
    if WellFormed(line) { ReachNext(line, 0, p, |line|); }
  }

  lemma LastPiece(line: seq<Byte>, o: Options, lastCut: nat, pos: nat, first: nat, posDelimiters: seq<nat>)
    requires Scanning(line, o, lastCut, pos, first, posDelimiters) && lastCut < pos
    ensures GoodPiece(o, line[lastCut..pos], [])
  {
    ReachBetween(line, 0, lastCut, pos);
    CutGivesPiece(line, o, lastCut, pos, pos);
    assert line[pos..pos] == [];
  }

  // One character further, and back to the end of the piece if a break is due.
  method WrapStep(line: seq<Byte>, o: Options, lastCut: nat, pos: nat, first: nat, posDelimiters: seq<nat>)
      returns (ok: bool, cut: bool, piece: seq<Byte>, delim: seq<Byte>,
               pos': nat, first': nat, posDelimiters': seq<nat>)
    requires Scanning(line, o, lastCut, pos, first, posDelimiters) && pos < |line|
    requires Fresh(line, o, lastCut, pos, first, posDelimiters)
    ensures !ok ==> !WellFormed(line)
    ensures ok && !cut ==> pos < pos' && Scanning(line, o, lastCut, pos', first', posDelimiters')
    ensures ok ==> Fresh(line, o, if cut then pos' else lastCut, pos', first', posDelimiters')
    ensures ok && cut ==>
      CutAs(line, o, lastCut, piece, delim, pos') && Scanning(line, o, pos', pos', first', posDelimiters')
    ensures ok && cut ==>
      line[lastCut..pos'] == piece + delim && GoodPiece(o, piece, delim) && Justified(o, piece, delim)
  {
    cut, piece, delim := false, [], [];
    ScanHere(line, o, lastCut, pos, first, posDelimiters);
    ok, pos', first', posDelimiters' := ReadCharacter(line, o, lastCut, pos, first, posDelimiters);
    if !ok || pos' - lastCut < o.width { return; }
    cut := true;
    ok, piece, delim, pos' := Break(line, o, lastCut, pos, pos', first', posDelimiters');
  }

  /** Succeeds exactly on well-formed text; the pieces with their delimiters give back the line;
      every piece is whole characters, all starting below the limit. */
  method WrapLines(line: seq<Byte>, o: Options) returns (ok: bool, lines: seq<seq<Byte>>, delims: seq<seq<Byte>>)
    requires |line| < 0x8000_0000
    ensures ok <==> WellFormed(line)
    ensures ok ==> Fold(line, o, 0) == Folded(lines, delims)
    ensures ok ==> Wrapped(line, o, lines, delims)
  {
    lines, delims := [], [];
    var pos: nat, lastCut: nat, first: nat := 0, 0, 0;
    var posDelimiters: seq<nat> := seq(|o.delimiters|, _ => 0);
    while pos < |line|
      invariant Scanning(line, o, lastCut, pos, first, posDelimiters)
      invariant Fresh(line, o, lastCut, pos, first, posDelimiters)
      invariant Produced(line, o, lines, delims, lastCut) && FoldedTo(line, o, lines, delims, lastCut)
      decreases |line| - lastCut, |line| - pos
    {
      var good, cut, piece, delim, pos', first', posDelimiters' :=
        WrapStep(line, o, lastCut, pos, first, posDelimiters);
      if !good { return false, lines, delims; }
      pos, first, posDelimiters := pos', first', posDelimiters';
      if cut {
        OneMorePiece(line, o, lines, delims, lastCut, pos, piece, delim);
        FoldedOneMore(line, o, lines, delims, lastCut, pos, piece, delim);
        lines, delims := lines + [piece], delims + [delim];
        lastCut := pos;
      }
    }
    if lastCut < pos { LastPiece(line, o, lastCut, pos, first, posDelimiters); }
    AllPieces(line, o, lines, delims, lastCut, pos);
    FoldedEnd(line, o, lines, delims, lastCut);
    if lastCut < pos || pos == 0 {
      lines, delims := lines + [line[lastCut..pos]], delims + [[]];
    }
    ok := true;
  }

  // The pieces cut so far are the first ones of the fold.
  ghost predicate FoldedTo(line: seq<Byte>, o: Options, lines: seq<seq<Byte>>, delims: seq<seq<Byte>>, a: nat)
  {
    var rest := Fold(line, o, a);
    Fold(line, o, 0) == Folded(lines + rest.lines, delims + rest.delims)
  }

  lemma FoldedOneMore(line: seq<Byte>, o: Options, lines: seq<seq<Byte>>, delims: seq<seq<Byte>>, a: nat, e: nat,
                      piece: seq<Byte>, delim: seq<Byte>)
    requires FoldedTo(line, o, lines, delims, a) && CutAs(line, o, a, piece, delim, e)
    ensures FoldedTo(line, o, lines + [piece], delims + [delim], e)
  {
    var rest := Fold(line, o, e);
    assert lines + ([piece] + rest.lines) == (lines + [piece]) + rest.lines;
    assert delims + ([delim] + rest.delims) == (delims + [delim]) + rest.delims;
  }

  lemma FoldedEnd(line: seq<Byte>, o: Options, lines: seq<seq<Byte>>, delims: seq<seq<Byte>>, a: nat)
    requires FoldedTo(line, o, lines, delims, a) && a <= |line| < a + Limit(o)
    ensures Fold(line, o, 0)
      == if a < |line| || |line| == 0 then Folded(lines + [line[a..|line|]], delims + [[]]) else Folded(lines, delims)
  {
    assert line[a..|line|] == line[a..];
    assert lines + [] == lines && delims + [] == delims;
  }

  // The pieces cut so far.
  ghost predicate Produced(line: seq<Byte>, o: Options, lines: seq<seq<Byte>>, delims: seq<seq<Byte>>, lastCut: nat)
  {
    && lastCut <= |line| && |lines| == |delims| && Joined(lines, delims) == line[..lastCut]
    && (lastCut > 0 <==> lines != [])
    && forall i :: 0 <= i < |lines| ==> GoodPiece(o, lines[i], delims[i]) && Broken(line, o, lines, delims, i)
  }

  lemma OneMorePiece(line: seq<Byte>, o: Options, lines: seq<seq<Byte>>, delims: seq<seq<Byte>>, lastCut: nat, e: nat,
                     piece: seq<Byte>, delim: seq<Byte>)
    requires Produced(line, o, lines, delims, lastCut) && lastCut < e <= |line| && line[lastCut..e] == piece + delim
    requires GoodPiece(o, piece, delim) && Justified(o, piece, delim) && lastCut + Limit(o) <= |line|
    ensures Produced(line, o, lines + [piece], delims + [delim], e)
  {
    JoinedSnoc(lines, delims, piece, delim);
    AppendPiece(line, lastCut, e, piece, delim);
    BrokenStays(line, o, lines, delims, piece, delim);
  }

  // The trailing bits, or the empty bit.
  lemma AllPieces(line: seq<Byte>, o: Options, lines: seq<seq<Byte>>, delims: seq<seq<Byte>>, lastCut: nat, pos: nat)
    requires Produced(line, o, lines, delims, lastCut) && lastCut <= pos == |line|
    requires lastCut < pos ==> GoodPiece(o, line[lastCut..pos], [])
    ensures if lastCut < pos || pos == 0 then Wrapped(line, o, lines + [line[lastCut..pos]], delims + [[]])
            else Wrapped(line, o, lines, delims)
  {
    if lastCut < pos || pos == 0 {
      JoinedSnoc(lines, delims, line[lastCut..pos], []);
      AppendPiece(line, lastCut, pos, line[lastCut..pos], []);
      BrokenStays(line, o, lines, delims, line[lastCut..pos], []);
    }
    assert line[..pos] == line;
  }

  lemma BrokenStays(line: seq<Byte>, o: Options, lines: seq<seq<Byte>>, delims: seq<seq<Byte>>, piece: seq<Byte>,
                    delim: seq<Byte>)
    requires |lines| == |delims| && forall i :: 0 <= i < |lines| ==> Broken(line, o, lines, delims, i)
    ensures forall i :: 0 <= i < |lines| ==> Broken(line, o, lines + [piece], delims + [delim], i)
    ensures Justified(o, piece, delim) && |Joined(lines, delims)| + Limit(o) <= |line| ==>
      Broken(line, o, lines + [piece], delims + [delim], |lines|)
  {
    var lines', delims' := lines + [piece], delims + [delim];
    forall i | 0 <= i <= |lines| ensures lines'[..i] == lines[..i] && delims'[..i] == delims[..i] { }
    assert lines[..|lines|] == lines && delims[..|delims|] == delims;
    forall i | 0 <= i < |lines| ensures Broken(line, o, lines', delims', i) {
      assert Broken(line, o, lines, delims, i);
    }
  }

  lemma AppendPiece(line: seq<Byte>, a: nat, e: nat, piece: seq<Byte>, delim: seq<Byte>)
    requires a <= e <= |line| && line[a..e] == piece + delim
    ensures line[..a] + piece + delim == line[..e]
  {
    assert line[..e] == line[..a] + line[a..e];
  }

  lemma ScanHere(line: seq<Byte>, o: Options, lastCut: nat, pos: nat, first: nat, posDelimiters: seq<nat>)
    requires Scanning(line, o, lastCut, pos, first, posDelimiters) && pos < |line|
    ensures if LengthAt(line, pos) > 0 then StartsBelow(line, lastCut, pos + LengthAt(line, pos), lastCut + Limit(o))
      else !WellFormed(line)
  {
    if LengthAt(line, pos) > 0 {
      ScanOn(line, o, lastCut, pos, first, posDelimiters);
    } else {
      BadCharacter(line, pos);
    }
  }

  // ---------------------------------------------------------- piece lengths

  // Where the last character of well-formed text starts.
  lemma {:induction false} LastStart(s: seq<Byte>, a: nat) returns (p: nat)
    requires a < |s| && Reach(s, a, |s|)
    ensures a <= p < |s| && Reach(s, a, p) && p + LengthAt(s, p) == |s|
    decreases |s| - a
  {
    if a + LengthAt(s, a) == |s| {
      p := a;
    } else {
      ReachOrder(s, a + LengthAt(s, a), |s|);
      p := LastStart(s, a + LengthAt(s, a));
    }
  }

  /** A piece has at most the limit less one plus the bytes of one character. */
  lemma PieceLength(o: Options, piece: seq<Byte>, delim: seq<Byte>) returns (p: nat)
    requires GoodPiece(o, piece, delim)
    ensures p < |piece| == p + LengthAt(piece, p) && |piece| <= Limit(o) - 1 + LengthAt(piece, p) <= Limit(o) + 3
  {
    p := LastStart(piece, 0);
  }

  // ------------------------------------------------- the documented limit

  // A fresh scan of the piece at a finds a delimiter to cut at.
  predicate InReach(line: seq<Byte>, o: Options, a: nat)
  {
    exists i :: 0 <= i < |o.delimiters| && Found(line, o, a, i) > a
  }

  // A run of delimiters from cut on has one that starts before the width and ends after it.
  ghost predicate Straddles(line: seq<Byte>, o: Options, a: nat, cut: nat)
  {
    exists d: nat :: cut <= d < a + o.width < d + LengthAt(line, d)
      && AllDelimiters(line, o, cut, d) && DelimiterAt(line, o, d)
  }

  /** The piece at a respects the width: with a delimiter to cut at, unless kept delimiters straddle
      the width; without one, if the width falls between two characters. */
  ghost predicate Fits(line: seq<Byte>, o: Options, a: nat)
  {
    if InReach(line, o, a) then !(o.keep && Straddles(line, o, a, CutFrom(line, o, a, 0)))
    else Boundary(line, a + o.width)
  }

  // All pieces from the one at a on.
  ghost predicate FitsFrom(line: seq<Byte>, o: Options, a: nat)
    decreases |line| - a
  {
    var e := SkipEnd(line, o, a, CutFrom(line, o, a, 0));
    a + Limit(o) <= |line| && a < e <= |line| ==> Fits(line, o, a) && FitsFrom(line, o, e)
  }

  // What a scan remembers: nothing in the piece, or where a run of delimiters starts.
  ghost predicate GoodMark(line: seq<Byte>, o: Options, a: nat, q: nat, mark: nat)
  {
    mark <= a || (Boundary(line, mark) && mark < q && DelimiterAt(line, o, mark))
  }

  lemma {:induction false} MarkedGood(line: seq<Byte>, o: Options, p: nat, q: nat, first: nat, mark: nat, i: nat,
                                      a: nat)
    requires Boundary(line, p) && GoodMark(line, o, a, q, mark)
    requires first <= a || (Boundary(line, first) && first <= p && AllDelimiters(line, o, first, p))
    ensures GoodMark(line, o, a, q, Marked(line, o, p, q, first, mark, i))
    decreases q - p
  {
    if p < q && LengthAt(line, p) > 0 {
      var n := p + LengthAt(line, p);
      ReachOne(line, 0, p);
      if !DelimiterAt(line, o, p) {
        MarkedGood(line, o, n, q, n, mark, i, a);
      } else {
        if first > a { DelimitersThen(line, o, first, p); }
        MarkedGood(line, o, n, q, first, if Kind(line, o, p, i) then first else mark, i, a);
      }
    }
  }

  lemma {:induction false} FirstBoundaryGood(line: seq<Byte>, p: nat, bound: nat)
    requires WellFormed(line) && Boundary(line, p) && p <= bound <= |line|
    ensures var r := FirstBoundary(line, p, bound);
      bound <= r <= |line| && Boundary(line, r) && (r == bound <==> Boundary(line, bound))
    decreases bound - p
  {
    if p < bound {
      ReachNext(line, 0, p, |line|);
      ReachOne(line, 0, p);
      var n := p + LengthAt(line, p);
      if n <= bound {
        FirstBoundaryGood(line, n, bound);
      } else if Boundary(line, bound) {
        ReachNext(line, 0, p, bound);
      }
    }
  }

  lemma {:induction false} SkipEndGood(line: seq<Byte>, o: Options, a: nat, p: nat)
    requires Boundary(line, p)
    ensures var e := SkipEnd(line, o, a, p);
      && p <= e <= |line| && Boundary(line, e)
      && (o.keep && p >= a + o.width ==> e == p)
      && (o.keep && p <= a + o.width && Boundary(line, a + o.width) ==> e <= a + o.width)
    decreases |line| - p
  {
    if p < |line| && !(o.keep && p >= a + o.width) && DelimiterAt(line, o, p) {
      ReachOne(line, 0, p);
      if o.keep && Boundary(line, a + o.width) { ReachNext(line, 0, p, a + o.width); }
      SkipEndGood(line, o, a, p + LengthAt(line, p));
    }
  }

  // Where a piece is cut: at a delimiter below the limit, or at the first boundary from it on.
  lemma {:induction false} CutGood(line: seq<Byte>, o: Options, a: nat, i: nat)
    requires WellFormed(line) && Boundary(line, a) && a + Limit(o) <= |line| && i <= |o.delimiters|
    requires forall k :: 0 <= k < i ==> Found(line, o, a, k) <= a
    ensures var cut := CutFrom(line, o, a, i);
      && a < cut <= |line| && Boundary(line, cut)
      && (InReach(line, o, a) ==> cut < a + Limit(o))
      && (!InReach(line, o, a) ==> cut >= a + Limit(o) && (cut == a + Limit(o) <==> Boundary(line, a + Limit(o))))
    decreases |o.delimiters| - i
  {
    if i == |o.delimiters| {
      FirstBoundaryGood(line, a, a + Limit(o));
    } else {
      MarkedGood(line, o, a, a + Limit(o), a, 0, i, a);
      if Found(line, o, a, i) <= a { CutGood(line, o, a, i + 1); }
    }
  }

  // Kept delimiters lead past the width exactly if one of them straddles it.
  lemma {:induction false} SkipPasses(line: seq<Byte>, o: Options, a: nat, p: nat)
    requires o.keep && p <= a + o.width
    ensures SkipEnd(line, o, a, p) > a + o.width <==> Straddles(line, o, a, p)
    decreases |line| - p
  {
    if p < a + o.width && DelimiterAt(line, o, p) {
      var n := p + LengthAt(line, p);
      if n <= a + o.width {
        SkipPasses(line, o, a, n);
        StraddlesLater(line, o, a, p);
      } else {
        assert AllDelimiters(line, o, p, p);
      }
    }
  }

  // A delimiter that ends within the width does not change what straddles it.
  lemma StraddlesLater(line: seq<Byte>, o: Options, a: nat, p: nat)
    requires DelimiterAt(line, o, p) && p + LengthAt(line, p) <= a + o.width
    ensures Straddles(line, o, a, p) <==> Straddles(line, o, a, p + LengthAt(line, p))
  {
    if Straddles(line, o, a, p) { StraddlesNext(line, o, a, p); }
    if Straddles(line, o, a, p + LengthAt(line, p)) { StraddlesBefore(line, o, a, p); }
  }

  lemma StraddlesNext(line: seq<Byte>, o: Options, a: nat, p: nat)
    requires DelimiterAt(line, o, p) && p + LengthAt(line, p) <= a + o.width && Straddles(line, o, a, p)
    ensures Straddles(line, o, a, p + LengthAt(line, p))
  {
    var d: nat :| p <= d < a + o.width < d + LengthAt(line, d)
      && AllDelimiters(line, o, p, d) && DelimiterAt(line, o, d);
    assert d != p;
    DelimitersReach(line, o, p + LengthAt(line, p), d);
  }

  lemma StraddlesBefore(line: seq<Byte>, o: Options, a: nat, p: nat)
    requires DelimiterAt(line, o, p) && Straddles(line, o, a, p + LengthAt(line, p))
    ensures Straddles(line, o, a, p)
  {
    var d: nat :| p + LengthAt(line, p) <= d < a + o.width < d + LengthAt(line, d)
      && AllDelimiters(line, o, p + LengthAt(line, p), d) && DelimiterAt(line, o, d);
    assert AllDelimiters(line, o, p, d);
  }

  lemma PieceFits(line: seq<Byte>, o: Options, a: nat)
    requires WellFormed(line) && Boundary(line, a) && a + Limit(o) <= |line| && o.width > 0
    ensures var cut := CutFrom(line, o, a, 0);
      var e := SkipEnd(line, o, a, cut);
      && a < cut <= e <= |line| && Boundary(line, e)
      && (|PieceOf(line, o, a, cut, e)| <= o.width <==> Fits(line, o, a))
  {
    var cut := CutFrom(line, o, a, 0);
    CutGood(line, o, a, 0);
    SkipEndGood(line, o, a, cut);
    if o.keep && InReach(line, o, a) { SkipPasses(line, o, a, cut); }
  }

  ghost predicate AllWithin(lines: seq<seq<Byte>>, width: nat)
  {
    forall i :: 0 <= i < |lines| ==> |lines[i]| <= width
  }

  lemma AllWithinCons(piece: seq<Byte>, lines: seq<seq<Byte>>, width: nat)
    ensures AllWithin([piece] + lines, width) <==> |piece| <= width && AllWithin(lines, width)
  {
    var all := [piece] + lines;
    if AllWithin(all, width) {
      assert |all[0]| <= width;
      forall i | 0 <= i < |lines| ensures |lines[i]| <= width { assert all[i + 1] == lines[i]; }
    }
  }

  lemma {:induction false} LimitFrom(line: seq<Byte>, o: Options, a: nat)
    requires WellFormed(line) && Boundary(line, a) && o.width > 0
    ensures AllWithin(Fold(line, o, a).lines, o.width) <==> FitsFrom(line, o, a)
    decreases |line| - a
  {
    if a + Limit(o) <= |line| {
      PieceFits(line, o, a);
      var cut := CutFrom(line, o, a, 0);
      var e := SkipEnd(line, o, a, cut);
      LimitFrom(line, o, e);
      AllWithinCons(PieceOf(line, o, a, cut, e), Fold(line, o, e).lines, o.width);
    }
  }

  /** Exactly when the documented limit holds, for every width, mode and line. */
  lemma LimitExactly(line: seq<Byte>, o: Options)
    requires WellFormed(line) && o.width > 0
    ensures AllWithin(Fold(line, o, 0).lines, o.width) <==> FitsFrom(line, o, 0)
  {
    LimitFrom(line, o, 0);
  }

  // ------------------------------------------------------- ASCII delimiters

  // Every piece without a delimiter in reach has the width between two characters.
  predicate BoundaryOrReach(line: seq<Byte>, o: Options, a: nat)
    decreases |line| - a
  {
    var e := SkipEnd(line, o, a, CutFrom(line, o, a, 0));
    a + Limit(o) <= |line| && a < e <= |line| ==>
      (InReach(line, o, a) || Boundary(line, a + o.width)) && BoundaryOrReach(line, o, e)
  }

  // A delimiter of one byte cannot straddle anything.
  lemma NoStraddling(line: seq<Byte>, o: Options, a: nat, cut: nat)
    requires forall i :: 0 <= i < |o.delimiters| ==> o.delimiters[i] < 0x80
    ensures !Straddles(line, o, a, cut)
  {
    forall d: nat | DelimiterAt(line, o, d) ensures LengthAt(line, d) == 1 {
      var r := DecodeUTF8(line[d..]);
      DecodedIsEncoded(line[d..], r.cp);
    }
  }

  lemma {:induction false} FitsAsciiDelimiters(line: seq<Byte>, o: Options, a: nat)
    requires forall i :: 0 <= i < |o.delimiters| ==> o.delimiters[i] < 0x80
    ensures FitsFrom(line, o, a) <==> BoundaryOrReach(line, o, a)
    decreases |line| - a
  {
    var cut := CutFrom(line, o, a, 0);
    var e := SkipEnd(line, o, a, cut);
    NoStraddling(line, o, a, cut);
    if a + Limit(o) <= |line| && a < e <= |line| { FitsAsciiDelimiters(line, o, e); }
  }

  /** With ASCII delimiters, such as the default ones, in both modes: the limit holds if and only if
      every piece without a delimiter in reach has the width between two characters. */
  lemma LimitAsciiDelimiters(line: seq<Byte>, o: Options)
    requires WellFormed(line) && o.width > 0
    requires forall i :: 0 <= i < |o.delimiters| ==> o.delimiters[i] < 0x80
    ensures AllWithin(Fold(line, o, 0).lines, o.width) <==> BoundaryOrReach(line, o, 0)
  {
    LimitExactly(line, o);
    FitsAsciiDelimiters(line, o, 0);
  }

  // ------------------------------------------- where no delimiter can be used

  // There is no delimiter, or none can be cut at: the width is one and delimiters are kept.
  ghost predicate Plain(line: seq<Byte>, o: Options)
  {
    (forall p: nat :: Boundary(line, p) ==> !DelimiterAt(line, o, p)) || (o.keep && o.width == 1)
  }

  lemma PlainCut(line: seq<Byte>, o: Options, a: nat)
    requires WellFormed(line) && Plain(line, o) && Boundary(line, a) && a + Limit(o) <= |line| && o.width > 0
    ensures !InReach(line, o, a) && SkipEnd(line, o, a, CutFrom(line, o, a, 0)) == CutFrom(line, o, a, 0)
  {
    forall i | 0 <= i < |o.delimiters| ensures Found(line, o, a, i) <= a {
      MarkedGood(line, o, a, a + Limit(o), a, 0, i, a);
    }
    CutGood(line, o, a, 0);
    SkipEndGood(line, o, a, CutFrom(line, o, a, 0));
  }

  // From a on, every step of the width ends between two characters.
  predicate Steps(line: seq<Byte>, a: nat, width: nat)
    requires width > 0
    decreases |line| - a
  {
    a + width <= |line| ==> Boundary(line, a + width) && Steps(line, a + width, width)
  }

  lemma {:induction false} FitsSteps(line: seq<Byte>, o: Options, a: nat)
    requires WellFormed(line) && Plain(line, o) && Boundary(line, a) && o.width > 0
    ensures FitsFrom(line, o, a) <==> Steps(line, a, o.width)
    decreases |line| - a
  {
    if a + o.width <= |line| {
      PlainStep(line, o, a);
      if Boundary(line, a + o.width) { FitsSteps(line, o, a + o.width); }
    }
  }

  lemma PlainStep(line: seq<Byte>, o: Options, a: nat)
    requires WellFormed(line) && Plain(line, o) && Boundary(line, a) && a + o.width <= |line| && o.width > 0
    ensures FitsFrom(line, o, a) <==> Boundary(line, a + o.width) && FitsFrom(line, o, a + o.width)
  {
    PlainCut(line, o, a);
    CutGood(line, o, a, 0);
  }

  lemma {:induction false} StepsMultiples(line: seq<Byte>, j: nat, width: nat)
    requires width > 0
    ensures Steps(line, j * width, width) <==>
      forall k: nat :: k > j && k * width <= |line| ==> Boundary(line, k * width)
    decreases |line| - j * width
  {
    var a, b := j * width, (j + 1) * width;
    assert b == a + width;
    if b <= |line| {
      StepsMultiples(line, j + 1, width);
      if Steps(line, a, width) {
        forall k: nat | k > j && k * width <= |line| ensures Boundary(line, k * width) {
          if k > j + 1 { assert Steps(line, b, width); }
        }
      }
    } else {
      forall k: nat | k > j ensures k * width > |line| { MultipleOrder(j + 1, k, width); }
    }
  }

  lemma MultipleOrder(j: nat, k: nat, width: nat)
    requires j <= k
    ensures j * width <= k * width
  {
    assert (k - j) * width >= 0;
    assert k * width == j * width + (k - j) * width;
  }

  /** Without delimiters: the limit holds if and only if every multiple of the width within the line
      lies between two characters. */
  lemma LimitWithoutDelimiters(line: seq<Byte>, o: Options)
    requires WellFormed(line) && Plain(line, o) && o.width > 0
    ensures AllWithin(Fold(line, o, 0).lines, o.width) <==>
            forall k: nat :: k > 0 && k * o.width <= |line| ==> Boundary(line, k * o.width)
  {
    LimitExactly(line, o);
    FitsSteps(line, o, 0);
    StepsMultiples(line, 0, o.width);
  }

  // ------------------------------------------------------------------- ASCII

  predicate Ascii(s: seq<Byte>)
  {
    forall i :: 0 <= i < |s| ==> s[i] < 0x80
  }

  // A byte below 128 is a character.
  lemma AsciiLength(s: seq<Byte>, p: nat)
    requires p < |s|
    ensures s[p] < 0x80 ==> LengthAt(s, p) == 1
    ensures LengthAt(s, p) == 1 ==> s[p] < 0x80
  {
    assert s[p..][0] == s[p];
  }

  lemma {:induction false} AsciiBoundary(s: seq<Byte>, a: nat, p: nat)
    requires a <= p <= |s| && forall i :: a <= i < p ==> s[i] < 0x80
    ensures Reach(s, a, p)
    decreases p - a
  {
    if a < p {
      AsciiLength(s, a);
      AsciiBoundary(s, a + 1, p);
    }
  }

  lemma {:induction false} AsciiFits(line: seq<Byte>, o: Options, a: nat)
    requires Ascii(line) && o.width > 0
    ensures FitsFrom(line, o, a)
    decreases |line| - a
  {
    if a + Limit(o) <= |line| {
      AsciiBoundary(line, 0, a + Limit(o));
      forall d: nat | d < |line| ensures LengthAt(line, d) == 1 { AsciiLength(line, d); }
      var e := SkipEnd(line, o, a, CutFrom(line, o, a, 0));
      if a < e <= |line| { AsciiFits(line, o, e); }
    }
  }

  /** The documented limit of `width` bytes is kept when the text is ASCII. */
  lemma AsciiKeepsLimit(line: seq<Byte>, o: Options)
    requires o.width > 0 && Ascii(line)
    ensures WellFormed(line) && AllWithin(Fold(line, o, 0).lines, o.width)
  {
    AsciiBoundary(line, 0, |line|);
    AsciiFits(line, o, 0);
    LimitExactly(line, o);
  }

  lemma {:induction false} StepsOfOne(line: seq<Byte>, a: nat)
    requires Boundary(line, a)
    ensures Steps(line, a, 1) <==> forall i :: a <= i < |line| ==> line[i] < 0x80
    decreases |line| - a
  {
    if a < |line| {
      AsciiLength(line, a);
      if line[a] < 0x80 {
        ReachOne(line, 0, a);
        StepsOfOne(line, a + 1);
      } else if Boundary(line, a + 1) {
        ReachNext(line, 0, a, a + 1);
      }
    }
  }

  /** At width one the limit holds exactly for ASCII text, if delimiters are kept or there are none. */
  lemma LimitOneExactly(line: seq<Byte>, o: Options)
    requires WellFormed(line) && Plain(line, o) && o.width == 1
    ensures AllWithin(Fold(line, o, 0).lines, o.width) <==> Ascii(line)
  {
    LimitExactly(line, o);
    FitsSteps(line, o, 0);
    StepsOfOne(line, 0);
  }

  // ------------------------------------------------------ a line for every width

  // One byte less than the width, and then a character of several bytes.
  lemma OverlongLine(o: Options, filler: seq<Byte>, c: nat, line: seq<Byte>)
    requires o.width > 0 && |filler| == o.width - 1 && Ascii(filler) && IsValidCodepoint(c) && c >= 0x80
    requires line == filler + Encode(c)
    ensures WellFormed(line) && !Boundary(line, o.width) && o.width <= |line|
    ensures forall p: nat :: Boundary(line, p) && p < |line| ==> p <= |filler|
  {
    var n := |filler|;
    assert forall i :: 0 <= i < n ==> line[i] == filler[i];
    AsciiBoundary(line, 0, n);
    assert line[n..] == Encode(c);
    EncodedDecodes(line[n..], c);
    ReachOne(line, 0, n);
    forall p: nat | Boundary(line, p) && n < p ensures p >= |line| { ReachNext(line, 0, n, p); }
  }

  lemma OverlongPlain(o: Options, filler: seq<Byte>, c: nat, line: seq<Byte>)
    requires o.width > 0 && |filler| == o.width - 1 && Ascii(filler) && IsValidCodepoint(c) && c >= 0x80
    requires line == filler + Encode(c)
    requires c !in o.delimiters && forall i :: 0 <= i < |filler| ==> filler[i] !in o.delimiters
    ensures Plain(line, o)
  {
    OverlongLine(o, filler, c, line);
    forall p: nat | Boundary(line, p) ensures !DelimiterAt(line, o, p) {
      if p < |filler| {
        assert line[p..][0] == filler[p];
      } else if p == |filler| {
        assert line[p..] == Encode(c);
        EncodedDecodes(line[p..], c);
      }
    }
  }

  /** For every width and every such line the documented limit is exceeded. */
  lemma WidthExceeded(o: Options, filler: seq<Byte>, c: nat)
    requires o.width > 0 && |filler| == o.width - 1 && Ascii(filler) && IsValidCodepoint(c) && c >= 0x80
    requires c !in o.delimiters && forall i :: 0 <= i < |filler| ==> filler[i] !in o.delimiters
    ensures var line := filler + Encode(c); WellFormed(line) && !AllWithin(Fold(line, o, 0).lines, o.width)
  {
    var line := filler + Encode(c);
    OverlongLine(o, filler, c, line);
    OverlongPlain(o, filler, c, line);
    LimitWithoutDelimiters(line, o);
    assert !Boundary(line, 1 * o.width);
  }
}

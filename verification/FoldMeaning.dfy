/** Where wrap_lines cuts (preprocess/foldfilter_main.cc:104-168), without the positions it remembers:
    in front of the run of delimiters that the last occurrence of the most preferred usable delimiter
    belongs to, or else at the first character from the limit on. */
module FoldMeaning {
  import opened Utf8
  import opened FoldFilter

  // Delimiter i is at r, in the piece from a, below q, and nowhere after it.
  ghost predicate LastAt(line: seq<Byte>, o: Options, a: nat, q: nat, i: nat, r: nat)
  {
    && a <= r < q && Reach(line, a, r) && Kind(line, o, r, i)
    && forall r': nat :: r < r' < q && Reach(line, a, r') ==> !Kind(line, o, r', i)
  }

  // The run of delimiters that leads up to r begins at f.
  ghost predicate RunFrom(line: seq<Byte>, o: Options, a: nat, f: nat, r: nat)
  {
    && Reach(line, a, f) && AllDelimiters(line, o, f, r)
    && (f == a || exists p: nat :: EndsRunAt(line, o, a, p, f))
  }

  // A character that is no delimiter ends at f.
  predicate EndsRunAt(line: seq<Byte>, o: Options, a: nat, p: nat, f: nat)
  {
    Reach(line, a, p) && LengthAt(line, p) > 0 && p + LengthAt(line, p) == f && !DelimiterAt(line, o, p)
  }

  // m is what is remembered for delimiter i after a scan from p to q that started with mark.
  ghost predicate Remembers(line: seq<Byte>, o: Options, a: nat, p: nat, q: nat, mark: nat, i: nat, m: nat)
  {
    if Occurs(line, o, p, q, i) then exists r: nat :: LastAt(line, o, p, q, i, r) && RunFrom(line, o, a, m, r)
    else m == mark
  }

  /** A scan remembers where the run of its last occurrence begins. */
  lemma {:induction false} MarkedIs(line: seq<Byte>, o: Options, a: nat, p: nat, q: nat, first: nat, mark: nat, i: nat)
    requires Reach(line, a, p) && RunFrom(line, o, a, first, p)
    ensures Remembers(line, o, a, p, q, mark, i, Marked(line, o, p, q, first, mark, i))
    decreases q - p
  {
    if p < q && LengthAt(line, p) > 0 {
      var n := p + LengthAt(line, p);
      ReachOne(line, a, p);
      var m := Marked(line, o, p, q, first, mark, i);
      if !DelimiterAt(line, o, p) {
        assert EndsRunAt(line, o, a, p, n);
        MarkedIs(line, o, a, n, q, n, mark, i);
        OneBefore(line, o, a, p, q, first, mark, mark, i, m);
      } else {
        var mark' := if Kind(line, o, p, i) then first else mark;
        DelimitersThen(line, o, first, p);
        MarkedIs(line, o, a, n, q, first, mark', i);
        OneBefore(line, o, a, p, q, first, mark, mark', i, m);
      }
    }
  }

  lemma OneBefore(line: seq<Byte>, o: Options, a: nat, p: nat, q: nat, first: nat, mark: nat, mark': nat, i: nat,
                  m: nat)
    requires p < q && LengthAt(line, p) > 0 && RunFrom(line, o, a, first, p)
    requires mark' == if Kind(line, o, p, i) then first else mark
    requires Remembers(line, o, a, p + LengthAt(line, p), q, mark', i, m)
    ensures Remembers(line, o, a, p, q, mark, i, m)
  {
    FromNext(line, o, a, p, q, i, m);
    if Kind(line, o, p, i) && !Occurs(line, o, p + LengthAt(line, p), q, i) { LastHere(line, o, p, q, i); }
  }

  // From one character on.
  lemma FromNext(line: seq<Byte>, o: Options, a: nat, p: nat, q: nat, i: nat, m: nat)
    requires p < q && LengthAt(line, p) > 0
    ensures Occurs(line, o, p, q, i) <==> Kind(line, o, p, i) || Occurs(line, o, p + LengthAt(line, p), q, i)
    ensures (exists r: nat :: LastAt(line, o, p + LengthAt(line, p), q, i, r) && RunFrom(line, o, a, m, r)) ==>
      exists r: nat :: LastAt(line, o, p, q, i, r) && RunFrom(line, o, a, m, r)
  {
    var n := p + LengthAt(line, p);
    assert Reach(line, p, n) && Reach(line, p, p);
    forall r: nat | r > p && Reach(line, p, r) ensures Reach(line, n, r) && n <= r { ReachOrder(line, n, r); }
    forall r: nat | Reach(line, n, r) ensures Reach(line, p, r) { ReachThen(line, p, n, r); }
    forall r: nat | LastAt(line, o, n, q, i, r) ensures LastAt(line, o, p, q, i, r) {
    }
  }

  lemma LastHere(line: seq<Byte>, o: Options, p: nat, q: nat, i: nat)
    requires p < q && Kind(line, o, p, i) && !Occurs(line, o, p + LengthAt(line, p), q, i)
    ensures LastAt(line, o, p, q, i, p)
  {
    var n := p + LengthAt(line, p);
    forall r: nat | p < r < q && Reach(line, p, r) ensures !Kind(line, o, r, i) {
      ReachOrder(line, n, r);
    }
  }

  // ------------------------------------------------------------ the cut

  // Delimiter i can be cut at: it is in the piece, below the limit, and the run that its last
  // occurrence belongs to does not begin with the piece.
  ghost predicate Usable(line: seq<Byte>, o: Options, a: nat, i: nat)
  {
    exists r: nat :: LastAt(line, o, a, a + Limit(o), i, r) && !AllDelimiters(line, o, a, r)
  }

  lemma {:induction false} DelimiterInside(line: seq<Byte>, o: Options, a: nat, p: nat, r: nat)
    requires AllDelimiters(line, o, a, r) && Reach(line, a, p) && p < r
    ensures DelimiterAt(line, o, p)
    decreases p - a
  {
    if a < p { DelimiterInside(line, o, a + LengthAt(line, a), p, r); }
  }

  lemma RunStart(line: seq<Byte>, o: Options, a: nat, f: nat, r: nat)
    requires RunFrom(line, o, a, f, r)
    ensures a <= f && (f > a <==> !AllDelimiters(line, o, a, r))
  {
    ReachOrder(line, a, f);
    if f > a && AllDelimiters(line, o, a, r) {
      var p: nat :| EndsRunAt(line, o, a, p, f);
      DelimitersReach(line, o, f, r);
      DelimiterInside(line, o, a, p, r);
    }
  }

  lemma LastUnique(line: seq<Byte>, o: Options, a: nat, q: nat, i: nat, r: nat, r': nat)
    requires LastAt(line, o, a, q, i, r) && LastAt(line, o, a, q, i, r')
    ensures r == r'
  {
  }

  // What the scan finds can be used exactly when it lies behind the start of the piece.
  lemma FoundUsable(line: seq<Byte>, o: Options, a: nat, i: nat)
    ensures Found(line, o, a, i) > a <==> Usable(line, o, a, i)
    ensures Usable(line, o, a, i) ==> exists r: nat ::
      LastAt(line, o, a, a + Limit(o), i, r) && RunFrom(line, o, a, Found(line, o, a, i), r)
  {
    var q, f := a + Limit(o), Found(line, o, a, i);
    MarkedIs(line, o, a, a, q, a, 0, i);
    if Occurs(line, o, a, q, i) {
      var r: nat :| LastAt(line, o, a, q, i, r) && RunFrom(line, o, a, f, r);
      UsableAt(line, o, a, i, f, r);
    } else {
      NeverUsable(line, o, a, i);
    }
  }

  lemma UsableAt(line: seq<Byte>, o: Options, a: nat, i: nat, f: nat, r: nat)
    requires LastAt(line, o, a, a + Limit(o), i, r) && RunFrom(line, o, a, f, r)
    ensures f > a <==> Usable(line, o, a, i)
  {
    RunStart(line, o, a, f, r);
    if Usable(line, o, a, i) {
      var r': nat :| LastAt(line, o, a, a + Limit(o), i, r') && !AllDelimiters(line, o, a, r');
      LastUnique(line, o, a, a + Limit(o), i, r, r');
    }
  }

  lemma NeverUsable(line: seq<Byte>, o: Options, a: nat, i: nat)
    requires !Occurs(line, o, a, a + Limit(o), i)
    ensures !Usable(line, o, a, i)
  {
  }

  lemma {:induction false} CutIsFound(line: seq<Byte>, o: Options, a: nat, k: nat, i: nat)
    requires k <= i < |o.delimiters| && Found(line, o, a, i) > a
    requires forall j :: k <= j < i ==> Found(line, o, a, j) <= a
    ensures CutFrom(line, o, a, k) == Found(line, o, a, i)
    decreases i - k
  {
    if k < i { CutIsFound(line, o, a, k + 1, i); }
  }

  lemma {:induction false} CutIsBoundary(line: seq<Byte>, o: Options, a: nat, k: nat)
    requires forall j :: k <= j < |o.delimiters| ==> Found(line, o, a, j) <= a
    ensures CutFrom(line, o, a, k) == FirstBoundary(line, a, a + Limit(o))
    decreases |o.delimiters| - k
  {
    if k < |o.delimiters| { CutIsBoundary(line, o, a, k + 1); }
  }

  /** The most preferred delimiter that can be cut at decides: the cut is behind the start of the piece
      and in front of the run of delimiters of its last occurrence below the limit. */
  lemma CutAtPreferred(line: seq<Byte>, o: Options, a: nat, i: nat)
    requires i < |o.delimiters| && Usable(line, o, a, i) && forall j :: 0 <= j < i ==> !Usable(line, o, a, j)
    ensures CutFrom(line, o, a, 0) > a
    ensures exists r: nat :: LastAt(line, o, a, a + Limit(o), i, r) && RunFrom(line, o, a, CutFrom(line, o, a, 0), r)
  {
    forall j | 0 <= j <= i ensures Found(line, o, a, j) > a <==> Usable(line, o, a, j) { FoundUsable(line, o, a, j); }
    CutIsFound(line, o, a, 0, i);
    FoundUsable(line, o, a, i);
  }

  /** Without one, the cut is at the first character that starts at the limit or behind it. */
  lemma CutAtLimit(line: seq<Byte>, o: Options, a: nat)
    requires WellFormed(line) && Boundary(line, a) && a + Limit(o) <= |line|
    requires forall i :: 0 <= i < |o.delimiters| ==> !Usable(line, o, a, i)
    ensures var cut := CutFrom(line, o, a, 0);
      a + Limit(o) <= cut && Reach(line, a, cut) && StartsBelow(line, a, cut, a + Limit(o))
  {
    forall i | 0 <= i < |o.delimiters| ensures Found(line, o, a, i) <= a { FoundUsable(line, o, a, i); }
    CutIsBoundary(line, o, a, 0);
    ReachBetween(line, 0, a, |line|);
    FirstAtLimit(line, a, a + Limit(o));
  }

  lemma {:induction false} FirstAtLimit(line: seq<Byte>, p: nat, bound: nat)
    requires p <= bound <= |line| && Reach(line, p, |line|)
    ensures var b := FirstBoundary(line, p, bound);
      bound <= b && Reach(line, p, b) && StartsBelow(line, p, b, bound)
    decreases bound - p
  {
    if p < bound {
      var n := p + LengthAt(line, p);
      ReachOrder(line, n, |line|);
      if n <= bound { FirstAtLimit(line, n, bound); }
      forall r: nat | p < r && Reach(line, p, r) ensures Reach(line, n, r) && n <= r { ReachOrder(line, n, r); }
    }
  }

  /** Behind the cut the delimiters are left out, or kept with the piece while they start below the
      width: all of them up to the next other character or the end of the line. */
  lemma {:induction false} SkipEndMeans(line: seq<Byte>, o: Options, a: nat, cut: nat)
    requires cut <= |line| && Reach(line, cut, |line|)
    ensures var e := SkipEnd(line, o, a, cut);
      && AllDelimiters(line, o, cut, e) && SkipEnds(line, o, a, e)
      && (o.keep ==> StartsBelow(line, cut, e, a + o.width))
    decreases |line| - cut
  {
    if cut < |line| {
      var n := cut + LengthAt(line, cut);
      ReachOrder(line, n, |line|);
      if !(o.keep && cut >= a + o.width) && DelimiterAt(line, o, cut) {
        SkipEndMeans(line, o, a, n);
        forall r: nat | cut < r && Reach(line, cut, r) ensures Reach(line, n, r) && n <= r { ReachOrder(line, n, r); }
        DelimitersReach(line, o, n, SkipEnd(line, o, a, n));
      }
    }
  }
}

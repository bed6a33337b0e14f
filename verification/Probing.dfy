/** Linear probing on a sequence of cells (util/probing_hash_table.hh): probe paths without
    gaps, the stored entries as a multiset, and what doubling in place does to both. */
module Probing {
  import opened Powers
  import opened Common

  // A cell is empty when its key is the invalid key.
  datatype Entry<K, V> = Entry(key: K, val: V)

  // ---------------------------------------------------------- ideal position

  lemma {:induction false} RemIs(h: nat, n: nat)
    requires n > 0
    ensures Rem(h, n) == h % n
    decreases h
  {
    if h >= n {
      RemIs(h - n, n);
      RemStep(h, n);
    }
  }

  lemma RemStep(h: nat, n: nat)
    requires n > 0 && h >= n
    ensures h % n == (h - n) % n
  {
    var q, r := (h - n) / n, (h - n) % n;
    assert h == n * (q + 1) + r;
    DivisionUnique(h, n, q + 1, r);
  }

  // Twice the buckets: a key stays, or moves up by the old number of buckets.
  lemma {:induction false} RemDouble(h: nat, n: nat)
    requires n > 0
    ensures Rem(h, 2 * n) == Rem(h, n) || Rem(h, 2 * n) == Rem(h, n) + n
    decreases h
  {
    if h >= 2 * n {
      RemDouble(h - 2 * n, n);
      assert Rem(h, n) == Rem(h - n, n) == Rem(h - n - n, n);
    } else if h >= n {
      assert Rem(h, n) == Rem(h - n, n) == h - n;
    }
  }

  // ---------------------------------------------------------------- paths

  // x lies on the way from h up to, but not including, s, wrapping around the end.
  predicate Arc(h: int, s: int, x: int)
  {
    if h <= s then h <= x < s else h <= x || x < s
  }

  lemma ArcOrder(h: int, s: int, t: int, n: nat)
    requires 0 <= h < n && 0 <= s < n && 0 <= t < n && s != t
    ensures Arc(h, s, t) || Arc(h, t, s)
  {
  }

  function Next(i: nat, n: nat): nat
    requires i < n
  {
    if i + 1 == n then 0 else i + 1
  }

  // How many steps of Next lead from i to e.
  function Steps(i: nat, e: nat, n: nat): nat
    requires i < n && e < n
  {
    if i <= e then e - i else e + n - i
  }

  ghost predicate Filled<K, V>(c: seq<Entry<K, V>>, inv: K, i: int)
  {
    0 <= i < |c| && c[i].key != inv
  }

  /** No entry has an empty cell between its ideal position and its own. */
  ghost predicate GapFree<K(!new), V>(c: seq<Entry<K, V>>, inv: K, hash: K -> nat)
  {
    forall s, x :: Filled(c, inv, s) && 0 <= x < |c| && Arc(Rem(hash(c[s].key), |c|), s, x) ==> Filled(c, inv, x)
  }

  // All cells on the way from h to s are filled, and none of them holds the key.
  ghost predicate Scanned<K, V>(c: seq<Entry<K, V>>, inv: K, key: K, h: nat, s: nat)
  {
    forall x :: 0 <= x < |c| && Arc(h, s, x) ==> Filled(c, inv, x) && c[x].key != key
  }

  ghost predicate PathFilled<K, V>(c: seq<Entry<K, V>>, inv: K, h: nat, s: nat)
  {
    forall x :: 0 <= x < |c| && Arc(h, s, x) ==> Filled(c, inv, x)
  }

  ghost predicate Absent<K, V>(c: seq<Entry<K, V>>, key: K)
  {
    forall i :: 0 <= i < |c| ==> c[i].key != key
  }

  /** An empty cell reached from the ideal position proves that the key is nowhere. */
  lemma EmptyMeansAbsent<K(!new), V>(c: seq<Entry<K, V>>, inv: K, hash: K -> nat, key: K, s: nat)
    requires GapFree(c, inv, hash) && s < |c| && !Filled(c, inv, s) && key != inv
    requires Scanned(c, inv, key, Rem(hash(key), |c|), s)
    ensures Absent(c, key)
  {
    var h := Rem(hash(key), |c|);
    forall t | 0 <= t < |c| ensures c[t].key != key {
      if t != s {
        ArcOrder(h, s, t, |c|);
        if c[t].key == key { assert Filled(c, inv, t); }
      }
    }
  }

  // -------------------------------------------------------- stored entries

  ghost function Stored<K, V>(c: seq<Entry<K, V>>, inv: K): multiset<Entry<K, V>>
  {
    if c == [] then multiset{}
    else Stored(c[..|c| - 1], inv) + One(c[|c| - 1], inv)
  }

  ghost function One<K, V>(e: Entry<K, V>, inv: K): multiset<Entry<K, V>>
  {
    if e.key == inv then multiset{} else multiset{e}
  }

  lemma {:induction false} StoredUpdate<K, V>(c: seq<Entry<K, V>>, inv: K, i: nat, e: Entry<K, V>)
    requires i < |c|
    ensures Stored(c[i := e], inv) + One(c[i], inv) == Stored(c, inv) + One(e, inv)
  {
    var n := |c| - 1;
    var d := c[i := e];
    if i == n {
      assert d[..n] == c[..n];
      Swap(Stored(c[..n], inv), One(e, inv), One(c[n], inv));
    } else {
      StoredUpdate(c[..n], inv, i, e);
      assert d[..n] == c[..n][i := e];
      Exchange(Stored(c[..n], inv), Stored(d[..n], inv), One(c[i], inv), One(e, inv), One(c[n], inv));
    }
  }

  // Emptying a cell takes its entry out.
  lemma StoredClear<K, V>(c: seq<Entry<K, V>>, inv: K, i: nat)
    requires i < |c| && c[i].key != inv
    ensures Stored(c[i := c[i].(key := inv)], inv) + multiset{c[i]} == Stored(c, inv)
    ensures |Stored(c[i := c[i].(key := inv)], inv)| + 1 == |Stored(c, inv)|
  {
    StoredUpdate(c, inv, i, c[i].(key := inv));
  }

  // Filling an empty cell puts an entry in.
  lemma StoredFill<K, V>(c: seq<Entry<K, V>>, inv: K, i: nat, e: Entry<K, V>)
    requires i < |c| && c[i].key == inv && e.key != inv
    ensures Stored(c[i := e], inv) == Stored(c, inv) + multiset{e}
  {
    StoredUpdate(c, inv, i, e);
  }

  lemma StoredExchange<K, V>(c: seq<Entry<K, V>>, inv: K, i: nat, e: Entry<K, V>)
    requires i < |c| && c[i].key != inv && e.key != inv
    ensures Stored(c[i := e], inv) + multiset{c[i]} == Stored(c, inv) + multiset{e}
  {
    StoredUpdate(c, inv, i, e);
  }

  // One entry passes from the table to the end of a list, or back.
  lemma Pass<T>(inside: multiset<T>, fewer: multiset<T>, list: seq<T>, longer: seq<T>, e: T)
    requires fewer + multiset{e} == inside && longer == list + [e]
    ensures fewer + multiset(longer) == inside + multiset(list)
  {
    assert multiset(longer) == multiset(list) + multiset{e};
  }

  lemma PassBack<T>(inside: multiset<T>, list: seq<T>, j: nat, total: multiset<T>)
    requires j < |list| && inside + multiset(list[j..]) == total
    ensures |inside| < |total|
    ensures (inside + multiset{list[j]}) + multiset(list[j + 1..]) == total
  {
    assert list[j..] == [list[j]] + list[j + 1..];
    assert multiset(list[j..]) == multiset{list[j]} + multiset(list[j + 1..]);
  }

  lemma {:induction false} StoredMember<K, V>(c: seq<Entry<K, V>>, inv: K, e: Entry<K, V>)
    ensures e in Stored(c, inv) <==> e.key != inv && e in c
  {
    if c != [] {
      var n := |c| - 1;
      StoredMember(c[..n], inv, e);
      assert c == c[..n] + [c[n]];
    }
  }

  lemma OneMoreCounts<K, V>(m: multiset<Entry<K, V>>, e: Entry<K, V>, inv: K)
    ensures |m + One(e, inv)| == |m| + if e.key == inv then 0 else 1
  {
  }

  lemma {:induction false} StoredCount<K, V>(c: seq<Entry<K, V>>, inv: K)
    ensures |Stored(c, inv)| <= |c|
    ensures |Stored(c, inv)| < |c| ==> exists i :: 0 <= i < |c| && !Filled(c, inv, i)
  {
    if c != [] {
      var n := |c| - 1;
      StoredCount(c[..n], inv);
      OneMoreCounts(Stored(c[..n], inv), c[n], inv);
      if c[n].key == inv {
        assert !Filled(c, inv, n);
      } else if |Stored(c, inv)| < |c| {
        var i :| 0 <= i < n && !Filled(c[..n], inv, i);
        assert !Filled(c, inv, i);
      }
    }
  }

  lemma StoredSnoc<K, V>(c: seq<Entry<K, V>>, e: Entry<K, V>, inv: K)
    ensures Stored(c + [e], inv) == Stored(c, inv) + One(e, inv)
  {
    assert (c + [e])[..|c|] == c;
  }

  // Empty cells at the end store nothing.
  lemma {:induction false} StoredPadded<K, V>(c: seq<Entry<K, V>>, d: seq<Entry<K, V>>, inv: K)
    requires forall i :: 0 <= i < |d| ==> d[i].key == inv
    ensures Stored(c + d, inv) == Stored(c, inv)
  {
    if d == [] {
      assert c + d == c;
    } else {
      var d' := d[..|d| - 1];
      StoredPadded(c, d', inv);
      StoredSnoc(c + d', d[|d| - 1], inv);
      assert c + d == (c + d') + [d[|d| - 1]];
    }
  }

  lemma {:induction false} StoredEmpty<K, V>(c: seq<Entry<K, V>>, inv: K)
    requires forall i :: 0 <= i < |c| ==> c[i].key == inv
    ensures Stored(c, inv) == multiset{}
  {
    if c != [] { StoredEmpty(c[..|c| - 1], inv); }
  }

  /** Filling the empty cell a probe ends at keeps every path free of gaps. */
  lemma InsertKeepsGapFree<K(!new), V>(c: seq<Entry<K, V>>, inv: K, hash: K -> nat, s: nat, e: Entry<K, V>)
    requires GapFree(c, inv, hash) && s < |c| && e.key != inv
    requires PathFilled(c, inv, Rem(hash(e.key), |c|), s)
    ensures GapFree(c[s := e], inv, hash)
  {
    var d := c[s := e];
    forall t, x | Filled(d, inv, t) && 0 <= x < |d| && Arc(Rem(hash(d[t].key), |d|), t, x) ensures Filled(d, inv, x) {
      if t == s {
        assert x == s || Filled(c, inv, x);
      } else {
        assert Filled(c, inv, t);
        assert x == s || Filled(c, inv, x);
      }
    }
  }

  // ------------------------------------------------------------ finite map

  ghost function EntrySet<K(!new), V(!new)>(m: map<K, V>): set<Entry<K, V>>
  {
    set k | k in m :: Entry(k, m[k])
  }

  // The entries of a finite map, each once.
  ghost function Entries<K(!new), V(!new)>(m: map<K, V>): multiset<Entry<K, V>>
  {
    multiset(EntrySet(m))
  }

  lemma EntriesHas<K(!new), V(!new)>(m: map<K, V>, e: Entry<K, V>)
    ensures e in EntrySet(m) <==> e.key in m && m[e.key] == e.val
    ensures e in Entries(m) <==> e in EntrySet(m)
  {
    if e.key in m && m[e.key] == e.val { assert Entry(e.key, m[e.key]) == e; }
  }

  lemma EntrySetAdd<K(!new), V(!new)>(m: map<K, V>, e: Entry<K, V>)
    requires e.key !in m
    ensures EntrySet(m[e.key := e.val]) == EntrySet(m) + {e}
  {
    forall x ensures x in EntrySet(m[e.key := e.val]) <==> x in EntrySet(m) + {e} {
      EntriesHas(m, x);
      EntriesHas(m[e.key := e.val], x);
    }
  }

  lemma OneMore<T>(s: set<T>, e: T)
    requires e !in s
    ensures multiset(s + {e}) == multiset(s) + multiset{e}
  {
  }

  lemma EntriesAdd<K(!new), V(!new)>(m: map<K, V>, e: Entry<K, V>)
    requires e.key !in m
    ensures Entries(m[e.key := e.val]) == Entries(m) + multiset{e}
  {
    EntrySetAdd(m, e);
    EntriesHas(m, e);
    OneMore(EntrySet(m), e);
  }

  lemma EntriesSet<K(!new), V(!new)>(m: map<K, V>, k: K, v: V)
    requires k in m
    ensures Entries(m[k := v]) + multiset{Entry(k, m[k])} == Entries(m) + multiset{Entry(k, v)}
  {
    var rest := map x | x in m && x != k :: m[x];
    EntriesAdd(rest, Entry(k, m[k]));
    EntriesAdd(rest, Entry(k, v));
    assert rest[k := m[k]] == m && rest[k := v] == m[k := v];
  }

  lemma SameExchange<T>(m: multiset<T>, m': multiset<T>, c': multiset<T>, e: T, e': T)
    requires m' + multiset{e} == m + multiset{e'} && c' + multiset{e} == m + multiset{e'}
    ensures c' == m' && |m'| == |m|
  {
    assert c' == (c' + multiset{e}) - multiset{e};
    assert m' == (m' + multiset{e}) - multiset{e};
  }

  lemma {:induction false} EntriesSize<K(!new), V(!new)>(m: map<K, V>)
    ensures |Entries(m)| == |m|
    decreases |m|
  {
    if m != map[] {
      var k :| k in m;
      var rest := m - {k};
      assert rest[k := m[k]] == m && |m - {k}| < |m|;
      EntriesSize(rest);
      EntriesAdd(rest, Entry(k, m[k]));
    }
  }

  lemma AddAbsent<K(!new), V(!new)>(m: map<K, V>, e: Entry<K, V>)
    requires forall x :: x in Entries(m) ==> x.key != e.key
    ensures e.key !in m && Entries(m[e.key := e.val]) == Entries(m) + multiset{e}
    ensures |Entries(m[e.key := e.val])| == |Entries(m)| + 1
  {
    if e.key in m { EntriesHas(m, Entry(e.key, m[e.key])); }
    EntriesAdd(m, e);
  }

  // Overwriting the value of a stored entry.
  lemma Revalue<K(!new), V(!new)>(c: seq<Entry<K, V>>, inv: K, m: map<K, V>, i: nat, v: V)
    requires Stored(c, inv) == Entries(m) && i < |c| && c[i].key != inv
    ensures Stored(c[i := c[i].(val := v)], inv) == Entries(m[c[i].key := v])
    ensures |Entries(m[c[i].key := v])| == |Entries(m)|
  {
    var e, e' := c[i], c[i].(val := v);
    assert e.key in m && m[e.key] == e.val by {
      StoredMember(c, inv, e);
      EntriesHas(m, e);
    }
    StoredExchange(c, inv, i, e');
    EntriesSet(m, e.key, v);
    SameExchange(Entries(m), Entries(m[e.key := v]), Stored(c[i := e'], inv), e, e');
  }

  lemma RevalueKeepsGapFree<K(!new), V>(c: seq<Entry<K, V>>, inv: K, hash: K -> nat, i: nat, v: V)
    requires GapFree(c, inv, hash) && i < |c|
    ensures GapFree(c[i := c[i].(val := v)], inv, hash)
  {
    var d := c[i := c[i].(val := v)];
    assert forall x :: Filled(d, inv, x) == Filled(c, inv, x);
  }

  // -------------------------------------------------------------- doubling

  /** Once the roll-over entries are out, nothing in the lower half wraps any more, and the
      upper half is still empty. */
  ghost predicate ReadyToSplit<K(!new), V>(c: seq<Entry<K, V>>, inv: K, hash: K -> nat, b: nat)
  {
    b > 0 && |c| == 2 * b
    && (forall j :: b <= j < 2 * b ==> !Filled(c, inv, j))
    && (forall j :: Filled(c, inv, j) ==> Rem(hash(c[j].key), b) <= j)
  }

  lemma RolledOverReady<K(!new), V>(before: seq<Entry<K, V>>, c: seq<Entry<K, V>>, inv: K, hash: K -> nat, k: nat)
    requires GapFree(before, inv, hash) && |c| == 2 * |before| > 0
    requires k <= |before| && (k < |before| ==> before[k].key == inv)
    requires forall j :: 0 <= j < |c| ==> if k <= j < |before| then c[j] == before[j] else c[j].key == inv
    ensures ReadyToSplit(c, inv, hash, |before|)
  {
    forall j | Filled(c, inv, j) ensures Rem(hash(c[j].key), |before|) <= j {
      assert Filled(before, inv, j) && !Filled(before, inv, k);
      if Rem(hash(c[j].key), |before|) > j {
        assert Arc(Rem(hash(before[j].key), |before|), j, k);
      }
    }
  }

  // s holds what was in a slot j < i, moved down or moved to at most j + b.
  ghost predicate CameFrom<K, V>(c: seq<Entry<K, V>>, was: seq<Entry<K, V>>, b: nat, i: nat, s: int)
    requires 0 <= s < |c|
  {
    exists j :: 0 <= j < i && j < |was| && c[s] == was[j] && (s <= j || b <= s <= b + j)
  }

  // s can be reached from its new ideal position without leaving its half.
  ghost predicate Settled<K(!new), V>(c: seq<Entry<K, V>>, inv: K, hash: K -> nat, b: nat, s: int)
    requires 0 <= s < |c|
  {
    var h := Rem(hash(c[s].key), |c|);
    h <= s && (s >= b ==> h >= b) && forall x :: h <= x <= s ==> Filled(c, inv, x)
  }

  predicate Passed(b: nat, i: nat, s: int)
  {
    0 <= s < i || b <= s < b + i
  }

  /** The main pass of Double stands at slot i. */
  ghost predicate Halfway<K(!new), V>(c: seq<Entry<K, V>>, was: seq<Entry<K, V>>, inv: K, hash: K -> nat, b: nat,
                                      i: nat)
  {
    |c| == |was| == 2 * b && i <= b
    && (forall j :: i <= j < b ==> c[j] == was[j])
    && (forall j :: b + i <= j < 2 * b ==> !Filled(c, inv, j))
    && (forall s :: Filled(c, inv, s) && Passed(b, i, s) ==> Settled(c, inv, hash, b, s) && CameFrom(c, was, b, i, s))
  }

  lemma SkipEmpty<K(!new), V>(c: seq<Entry<K, V>>, was: seq<Entry<K, V>>, inv: K, hash: K -> nat, b: nat, i: nat)
    requires Halfway(c, was, inv, hash, b, i) && i < b && !Filled(c, inv, i)
    ensures Halfway(c, was, inv, hash, b, i + 1)
  {
  }

  lemma HalfwayDone<K(!new), V>(c: seq<Entry<K, V>>, was: seq<Entry<K, V>>, inv: K, hash: K -> nat, b: nat)
    requires Halfway(c, was, inv, hash, b, b)
    ensures GapFree(c, inv, hash)
    ensures forall s :: Filled(c, inv, s) ==> CameFrom(c, was, b, b, s)
  {
    forall s | Filled(c, inv, s) ensures Settled(c, inv, hash, b, s) && CameFrom(c, was, b, b, s) {
      assert Passed(b, b, s);
    }
  }

  // The entry taken out of slot i finds an empty cell at i or at b + i.
  lemma LandsLow<K(!new), V>(was: seq<Entry<K, V>>, d: seq<Entry<K, V>>, inv: K, hash: K -> nat, b: nat, i: nat, key: K,
                             t: nat)
    requires ReadyToSplit(was, inv, hash, b) && |d| == 2 * b && i < b && Filled(was, inv, i) && was[i].key == key
    requires !Filled(d, inv, i) && !Filled(d, inv, b + i)
    requires t < |d| && PathFilled(d, inv, Rem(hash(key), |d|), t)
    ensures var h := Rem(hash(key), |d|); if h < b then h <= t <= i else h <= t <= b + i
  {
    var h := Rem(hash(key), |d|);
    RemDouble(hash(key), b);
    var hole := if h < b then i else b + i;
    assert h <= hole < |d| && !Filled(d, inv, hole);
    if t < h || t > hole { assert Arc(h, t, hole); }
  }

  lemma StaysSettled<K(!new), V>(c: seq<Entry<K, V>>, f: seq<Entry<K, V>>, inv: K, hash: K -> nat, b: nat, i: nat,
                                 s: nat)
    requires |c| == |f| == 2 * b && i < b && s < |c| && Passed(b, i, s) && Settled(c, inv, hash, b, s) && f[s] == c[s]
    requires forall x :: Filled(c, inv, x) && x != i ==> Filled(f, inv, x)
    ensures Settled(f, inv, hash, b, s)
  {
  }

  // Slot i is emptied and its entry is put at t.
  function Moved<K, V>(c: seq<Entry<K, V>>, inv: K, i: nat, t: nat): seq<Entry<K, V>>
    requires i < |c| && t < |c|
  {
    c[i := c[i].(key := inv)][t := c[i]]
  }

  lemma LandedSettled<K(!new), V>(d: seq<Entry<K, V>>, inv: K, hash: K -> nat, b: nat, t: nat, e: Entry<K, V>)
    requires t < |d| && e.key != inv && Rem(hash(e.key), |d|) <= t
    requires t >= b ==> Rem(hash(e.key), |d|) >= b
    requires PathFilled(d, inv, Rem(hash(e.key), |d|), t)
    ensures Settled(d[t := e], inv, hash, b, t)
  {
    var h := Rem(hash(e.key), |d|);
    var f := d[t := e];
    forall x | h <= x <= t ensures Filled(f, inv, x) {
      if x < t { assert Arc(h, t, x) && Filled(d, inv, x); }
    }
  }

  /** Taking the entry out of slot i and inserting it again lands at most at i or b + i. */
  lemma MoveKeepsHalfway<K(!new), V>(c: seq<Entry<K, V>>, was: seq<Entry<K, V>>, inv: K, hash: K -> nat, b: nat, i: nat,
                                     t: nat)
    requires ReadyToSplit(was, inv, hash, b) && Halfway(c, was, inv, hash, b, i) && i < b && Filled(c, inv, i)
    requires t < |c| && !Filled(c[i := c[i].(key := inv)], inv, t)
    requires PathFilled(c[i := c[i].(key := inv)], inv, Rem(hash(c[i].key), |c|), t)
    ensures Halfway(Moved(c, inv, i, t), was, inv, hash, b, i + 1)
  {
    var e := c[i];
    var d := c[i := e.(key := inv)];
    assert !Filled(c, inv, b + i);
    LandsLow(was, d, inv, hash, b, i, e.key, t);
    LandedSettled(d, inv, hash, b, t, e);
    var f := Moved(c, inv, i, t);
    assert forall j :: i < j < b ==> f[j] == c[j];
    assert forall j :: b + i < j < 2 * b ==> Filled(f, inv, j) == Filled(c, inv, j);
    forall s | Filled(f, inv, s) && Passed(b, i + 1, s)
      ensures Settled(f, inv, hash, b, s) && CameFrom(f, was, b, i + 1, s)
    {
      if s == t {
        assert f[s] == was[i];
      } else {
        assert Filled(c, inv, s) && Passed(b, i, s);
        StaysSettled(c, f, inv, hash, b, i, s);
        StaysFrom(c, f, was, b, i, s);
      }
    }
  }

  lemma StaysFrom<K, V>(c: seq<Entry<K, V>>, f: seq<Entry<K, V>>, was: seq<Entry<K, V>>, b: nat, i: nat, s: nat)
    requires s < |c| == |f| && f[s] == c[s] && CameFrom(c, was, b, i, s)
    ensures CameFrom(f, was, b, i + 1, s)
  {
    var j :| 0 <= j < i && j < |was| && c[s] == was[j] && (s <= j || b <= s <= b + j);
    assert f[s] == was[j];
  }
}

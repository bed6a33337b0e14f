/** ProbingHashTable and AutoProbing (util/probing_hash_table.hh): insertion, lookup and doubling
    in place, proved to behave as a finite map. */
module ProbingTables {
  import opened Probing
  import opened Powers

  // ------------------------------------------------------------ probe loops

  // FindFromIdeal: up to the key or to the first empty cell.
  method ScanFrom<K(==, !new), V>(cells: array<Entry<K, V>>, inv: K, key: K, start: nat, ghost hole: nat)
      returns (found: bool, i: nat)
    requires start < cells.Length && hole < cells.Length && !Filled(cells[..], inv, hole) && key != inv
    ensures i < cells.Length && Scanned(cells[..], inv, key, start, i)
    ensures if found then cells[i].key == key else cells[i].key == inv
  {
    i := start;
    while true
      invariant i < cells.Length && Scanned(cells[..], inv, key, start, i)
      decreases Steps(i, hole, cells.Length)
    {
      if cells[i].key == key { return true, i; }
      if cells[i].key == inv { return false, i; }
      i := Next(i, cells.Length);
    }
  }

  // The loop of UncheckedInsert.
  method FirstEmpty<K(==, !new), V>(cells: array<Entry<K, V>>, inv: K, start: nat, ghost hole: nat) returns (i: nat)
    requires start < cells.Length && hole < cells.Length && !Filled(cells[..], inv, hole)
    ensures i < cells.Length && !Filled(cells[..], inv, i) && PathFilled(cells[..], inv, start, i)
  {
    i := start;
    while cells[i].key != inv
      invariant i < cells.Length && PathFilled(cells[..], inv, start, i)
      decreases Steps(i, hole, cells.Length)
    {
      i := Next(i, cells.Length);
    }
  }

  method Ideal<K(!new)>(hash: K -> nat, key: K, buckets: nat) returns (i: nat)
    requires buckets > 0
    ensures i == Rem(hash(key), buckets)
  {
    RemIs(hash(key), buckets);
    i := hash(key) % buckets;
  }

  method PutUnchecked<K(==, !new), V>(cells: array<Entry<K, V>>, inv: K, hash: K -> nat, e: Entry<K, V>)
      returns (i: nat)
    requires |Stored(cells[..], inv)| < cells.Length && e.key != inv
    modifies cells
    ensures i < cells.Length && !Filled(old(cells[..]), inv, i)
    ensures PathFilled(old(cells[..]), inv, Rem(hash(e.key), cells.Length), i)
    ensures cells[..] == old(cells[..])[i := e]
    ensures Stored(cells[..], inv) == old(Stored(cells[..], inv)) + multiset{e}
  {
    StoredCount(cells[..], inv);
    ghost var hole :| 0 <= hole < cells.Length && !Filled(cells[..], inv, hole);
    i := Ideal(hash, e.key, cells.Length);
    i := FirstEmpty(cells, inv, i, hole);
    StoredFill(cells[..], inv, i, e);
    cells[i] := e;
    assert cells[..] == old(cells[..])[i := e];
  }

  // ---------------------------------------------------------------- doubling

  // The first |rolled| cells are empty and their entries rolled over; the others are as before.
  ghost predicate RolledFrom<K, V>(before: seq<Entry<K, V>>, c: seq<Entry<K, V>>, inv: K, rolled: seq<Entry<K, V>>)
  {
    && |rolled| <= |before| == |c|
    && (forall j :: 0 <= j < |rolled| ==> c[j].key == inv)
    && (forall j :: 0 <= j < |rolled| ==> rolled[j].key != inv)
    && (forall j :: |rolled| <= j < |c| ==> c[j] == before[j])
  }

  lemma RolledOne<K, V>(before: seq<Entry<K, V>>, c: seq<Entry<K, V>>, inv: K, rolled: seq<Entry<K, V>>,
                        c': seq<Entry<K, V>>)
    requires RolledFrom(before, c, inv, rolled) && |rolled| < |c| && c[|rolled|].key != inv
    requires |c'| == |c| && c'[|rolled|].key == inv && forall j :: 0 <= j < |c| && j != |rolled| ==> c'[j] == c[j]
    ensures RolledFrom(before, c', inv, rolled + [c[|rolled|]])
  {
  }

  // The roll-over entries at the front go to a buffer.
  method RollOver<K(==, !new), V>(cells: array<Entry<K, V>>, inv: K, b: nat) returns (rolled: seq<Entry<K, V>>)
    requires b <= cells.Length
    modifies cells
    ensures RolledFrom(old(cells[..]), cells[..], inv, rolled) && |rolled| <= b
    ensures |rolled| < b ==> old(cells[..])[|rolled|].key == inv
    ensures Stored(cells[..], inv) + multiset(rolled) == old(Stored(cells[..], inv))
  {
    var i := 0;
    rolled := [];
    ghost var before := cells[..];
    while i != b && cells[i].key != inv
      invariant i == |rolled| <= b && RolledFrom(before, cells[..], inv, rolled)
      invariant Stored(cells[..], inv) + multiset(rolled) == Stored(before, inv)
    {
      ghost var c, list := cells[..], rolled;
      rolled := RollOne(cells, inv, i, rolled);
      RolledOne(before, c, inv, list, cells[..]);
      i := i + 1;
    }
  }

  // One entry goes to the buffer, and its cell is empty.
  method RollOne<K(==, !new), V>(cells: array<Entry<K, V>>, inv: K, i: nat, rolled: seq<Entry<K, V>>)
      returns (longer: seq<Entry<K, V>>)
    requires i < cells.Length && cells[i].key != inv
    modifies cells
    ensures longer == rolled + [old(cells[i])] && cells[i].key == inv
    ensures forall j :: 0 <= j < cells.Length && j != i ==> cells[j] == old(cells[j])
    ensures Stored(cells[..], inv) + multiset(longer) == old(Stored(cells[..], inv)) + multiset(rolled)
  {
    ghost var c := cells[..];
    StoredClear(c, inv, i);
    longer := rolled + [cells[i]];
    cells[i] := cells[i].(key := inv);
    assert cells[..] == c[i := c[i].(key := inv)];
    Pass(Stored(c, inv), Stored(cells[..], inv), rolled, longer, c[i]);
  }

  // Every entry of the lower half is taken out and inserted again.
  method MainPass<K(==, !new), V>(cells: array<Entry<K, V>>, inv: K, hash: K -> nat, b: nat)
    requires b > 0 && cells.Length == 2 * b && ReadyToSplit(cells[..], inv, hash, b)
    modifies cells
    ensures GapFree(cells[..], inv, hash)
    ensures Stored(cells[..], inv) == old(Stored(cells[..], inv))
    ensures forall s :: Filled(cells[..], inv, s) ==> CameFrom(cells[..], old(cells[..]), b, b, s)
  {
    var i := 0;
    ghost var was := cells[..];
    while i != b
      invariant 0 <= i <= b && Halfway(cells[..], was, inv, hash, b, i)
      invariant Stored(cells[..], inv) == Stored(was, inv)
    {
      if cells[i].key != inv {
        MoveOne(cells, inv, hash, b, i, was);
      } else {
        SkipEmpty(cells[..], was, inv, hash, b, i);
      }
      i := i + 1;
    }
    HalfwayDone(cells[..], was, inv, hash, b);
  }

  method MoveOne<K(==, !new), V>(cells: array<Entry<K, V>>, inv: K, hash: K -> nat, b: nat, i: nat,
                                 ghost was: seq<Entry<K, V>>)
    requires i < b && cells.Length == 2 * b && ReadyToSplit(was, inv, hash, b)
    requires Halfway(cells[..], was, inv, hash, b, i) && cells[i].key != inv
    modifies cells
    ensures Halfway(cells[..], was, inv, hash, b, i + 1)
    ensures Stored(cells[..], inv) == old(Stored(cells[..], inv))
  {
    var temp := cells[i];
    ghost var c := cells[..];
    StoredClear(c, inv, i);
    StoredCount(c, inv);
    cells[i] := temp.(key := inv);
    assert cells[..] == c[i := temp.(key := inv)];
    var t := PutUnchecked(cells, inv, hash, temp);
    MoveKeepsHalfway(c, was, inv, hash, b, i, t);
  }

  // The buffered entries go back in.
  method PutBack<K(==, !new), V>(cells: array<Entry<K, V>>, inv: K, hash: K -> nat, rolled: seq<Entry<K, V>>)
    requires GapFree(cells[..], inv, hash) && |Stored(cells[..], inv) + multiset(rolled)| < cells.Length
    requires forall j :: 0 <= j < |rolled| ==> rolled[j].key != inv
    modifies cells
    ensures GapFree(cells[..], inv, hash)
    ensures Stored(cells[..], inv) == old(Stored(cells[..], inv)) + multiset(rolled)
  {
    var j := 0;
    ghost var total := Stored(cells[..], inv) + multiset(rolled);
    assert rolled[0..] == rolled;
    while j != |rolled|
      invariant 0 <= j <= |rolled| && GapFree(cells[..], inv, hash)
      invariant Stored(cells[..], inv) + multiset(rolled[j..]) == total
    {
      ghost var c := cells[..];
      PassBack(Stored(c, inv), rolled, j, total);
      var t := PutUnchecked(cells, inv, hash, rolled[j]);
      InsertKeepsGapFree(c, inv, hash, t, rolled[j]);
      j := j + 1;
    }
    assert rolled[j..] == [];
  }

  // The old cells with as many empty ones behind them.
  method Widened<K(==, !new), V>(cells: array<Entry<K, V>>, inv: K, blank: Entry<K, V>)
      returns (bigger: array<Entry<K, V>>)
    requires blank.key == inv
    ensures fresh(bigger) && bigger.Length == 2 * cells.Length && Stored(bigger[..], inv) == Stored(cells[..], inv)
    ensures cells[..] <= bigger[..] && forall j :: cells.Length <= j < bigger.Length ==> bigger[j].key == inv
  {
    var b, c := cells.Length, cells[..];
    bigger := new Entry<K, V>[2 * b](i requires 0 <= i < 2 * b => if i < |c| then c[i] else blank);
    ghost var d := bigger[..];
    assert d == c + d[b..];
    StoredPadded(c, d[b..], inv);
  }

  lemma RolledReady<K(!new), V>(before: seq<Entry<K, V>>, wide: seq<Entry<K, V>>, c: seq<Entry<K, V>>, inv: K,
                                hash: K -> nat, rolled: seq<Entry<K, V>>)
    requires GapFree(before, inv, hash) && |wide| == 2 * |before| > 0 && before <= wide
    requires forall j :: |before| <= j < |wide| ==> wide[j].key == inv
    requires RolledFrom(wide, c, inv, rolled) && |rolled| <= |before|
    requires |rolled| < |before| ==> wide[|rolled|].key == inv
    ensures ReadyToSplit(c, inv, hash, |before|)
  {
    RolledOverReady(before, c, inv, hash, |rolled|);
  }

  /** Double: twice the cells, the same entries, no gaps. */
  method DoubleCells<K(==, !new), V>(cells: array<Entry<K, V>>, inv: K, hash: K -> nat, blank: Entry<K, V>)
      returns (bigger: array<Entry<K, V>>)
    requires cells.Length > 0 && blank.key == inv && GapFree(cells[..], inv, hash)
    ensures fresh(bigger) && bigger.Length == 2 * cells.Length && GapFree(bigger[..], inv, hash)
    ensures Stored(bigger[..], inv) == Stored(cells[..], inv)
  {
    bigger := Widened(cells, inv, blank);
    Reinsert(bigger, inv, hash, cells.Length, cells[..]);
  }

  // The three loops of Double.
  method Reinsert<K(==, !new), V>(bigger: array<Entry<K, V>>, inv: K, hash: K -> nat, b: nat,
                                  ghost before: seq<Entry<K, V>>)
    requires bigger.Length == 2 * b > 0 && b == |before| && GapFree(before, inv, hash) && before <= bigger[..]
    requires forall j :: b <= j < 2 * b ==> bigger[j].key == inv
    requires Stored(bigger[..], inv) == Stored(before, inv)
    modifies bigger
    ensures GapFree(bigger[..], inv, hash) && Stored(bigger[..], inv) == Stored(before, inv)
  {
    ghost var wide := bigger[..];
    StoredCount(before, inv);
    var rolled := RollOver(bigger, inv, b);
    RolledReady(before, wide, bigger[..], inv, hash, rolled);
    MainPass(bigger, inv, hash, b);
    PutBack(bigger, inv, hash, rolled);
  }

  class ProbingHashTable<K(==, !new), V(!new)> {
    const invalid: K
    const blank: Entry<K, V>
    const hash: K -> nat
    var cells: array<Entry<K, V>>
    var entries: nat

    // What is stored.
    ghost function Bag(): multiset<Entry<K, V>>
      reads this, cells
    {
      Stored(cells[..], invalid)
    }

    /** No gap on any probe path, and at least one empty cell to stop a probe at. */
    ghost predicate Valid()
      reads this, cells
    {
      blank.key == invalid && GapFree(cells[..], invalid, hash) && |Bag()| < cells.Length && |Bag()| <= entries
    }

    constructor (buckets: nat, blank: Entry<K, V>, hash: K -> nat)
      requires buckets > 0
      ensures Valid() && fresh(cells) && cells.Length == buckets && entries == 0 && Bag() == multiset{}
      ensures this.blank == blank && this.invalid == blank.key && this.hash == hash
    {
      this.invalid, this.blank, this.hash := blank.key, blank, hash;
      cells := new Entry<K, V>[buckets](_ => blank);
      entries := 0;
      new;
      StoredEmpty(cells[..], invalid);
    }

    method Find(key: K) returns (found: bool, i: nat)
      requires Valid() && key != invalid
      ensures i < cells.Length
      ensures found ==> cells[i].key == key && cells[i] in Bag()
      ensures !found ==> cells[i].key == invalid && PathFilled(cells[..], invalid, Rem(hash(key), cells.Length), i)
      ensures !found ==> forall e :: e in Bag() ==> e.key != key
    {
      StoredCount(cells[..], invalid);
      ghost var hole :| 0 <= hole < cells.Length && !Filled(cells[..], invalid, hole);
      i := Ideal(hash, key, cells.Length);
      found, i := ScanFrom(cells, invalid, key, i, hole);
      ghost var c := cells[..];
      if found {
        StoredMember(c, invalid, c[i]);
      } else {
        EmptyMeansAbsent(c, invalid, hash, key, i);
        forall e | e in Stored(c, invalid) ensures e.key != key { StoredMember(c, invalid, e); }
      }
    }

    method UncheckedInsert(e: Entry<K, V>) returns (i: nat)
      requires Valid() && e.key != invalid && |Bag()| + 1 < cells.Length && |Bag()| < entries
      modifies cells
      ensures Valid() && i < cells.Length && cells[i] == e && Bag() == old(Bag()) + multiset{e}
    {
      ghost var c := cells[..];
      i := PutUnchecked(cells, invalid, hash, e);
      InsertKeepsGapFree(c, invalid, hash, i, e);
    }

    // Counts first and throws when the table would be full.
    method Insert(e: Entry<K, V>) returns (thrown: bool, i: nat)
      requires Valid() && e.key != invalid
      modifies this`entries, cells
      ensures Valid() && entries == old(entries) + 1 && (thrown <==> entries >= cells.Length)
      ensures thrown ==> cells[..] == old(cells[..])
      ensures !thrown ==> i < cells.Length && cells[i] == e && Bag() == old(Bag()) + multiset{e}
    {
      entries := entries + 1;
      if entries >= cells.Length { return true, 0; }
      thrown := false;
      i := UncheckedInsert(e);
    }

    method FindOrInsert(e: Entry<K, V>) returns (found: bool, thrown: bool, i: nat)
      requires Valid() && e.key != invalid
      modifies this`entries, cells
      ensures Valid() && i < cells.Length
      ensures found ==> !thrown && entries == old(entries) && cells[..] == old(cells[..])
      ensures found ==> cells[i].key == e.key && cells[i] in Bag()
      ensures !found ==> entries == old(entries) + 1 && (thrown <==> entries >= cells.Length)
      ensures !found ==> forall x :: x in old(Bag()) ==> x.key != e.key
      ensures thrown ==> cells[..] == old(cells[..])
      ensures !found && !thrown ==> cells[i] == e && Bag() == old(Bag()) + multiset{e}
    {
      thrown := false;
      found, i := Find(e.key);
      if !found {
        entries := entries + 1;
        if entries >= cells.Length { return false, true, i; }
        ghost var c := cells[..];
        StoredFill(c, invalid, i, e);
        InsertKeepsGapFree(c, invalid, hash, i, e);
        cells[i] := e;
        assert cells[..] == c[i := e];
      }
    }

    method Double()
      requires Valid()
      modifies this`cells
      ensures Valid() && fresh(cells) && cells.Length == 2 * old(cells.Length) && Bag() == old(Bag())
    {
      cells := DoubleCells(cells, invalid, hash, blank);
    }

    method Clear()
      requires Valid()
      modifies this`entries, cells
      ensures Valid() && entries == 0 && Bag() == multiset{}
    {
      entries := 0;
      forall i | 0 <= i < cells.Length { cells[i] := blank; }
      StoredEmpty(cells[..], invalid);
    }
  }
}

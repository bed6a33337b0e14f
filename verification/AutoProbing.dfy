/** AutoProbing (util/probing_hash_table.hh:307-424): the table that doubles itself answers every
    run of calls as a finite map does. */
module AutoProbings {
  import opened Probing
  import opened ProbingTables

  function Threshold(buckets: nat): nat
    requires buckets > 0
  {
    if buckets - 1 < buckets * 3 / 4 then buckets - 1 else buckets * 3 / 4
  }

  class AutoProbing<K(==, !new), V(!new)> {
    const backend: ProbingHashTable<K, V>
    var threshold: nat
    ghost var contents: map<K, V>

    /** The cells hold exactly the contents, and one cell is free. */
    ghost predicate Valid()
      reads this, backend, backend.cells
    {
      && backend.Valid() && backend.Bag() == Entries(contents)
      && backend.entries == |backend.Bag()| && backend.entries < backend.cells.Length
      && threshold == Threshold(backend.cells.Length)
      && backend.invalid !in contents
    }

    constructor (buckets: nat, blank: Entry<K, V>, hash: K -> nat)
      requires buckets > 0
      ensures Valid() && fresh(backend) && fresh(backend.cells) && contents == map[]
      ensures backend.invalid == blank.key
    {
      backend := new ProbingHashTable(buckets, blank, hash);
      threshold := Threshold(buckets);
      contents := map[];
    }

    // Doubled exactly when another entry would fill more than three quarters; then there is room for it.
    method DoubleIfNeeded()
      requires backend.Valid() && backend.entries <= backend.cells.Length
      requires threshold == Threshold(backend.cells.Length)
      modifies this`threshold, backend`cells
      ensures backend.Valid() && backend.Bag() == old(backend.Bag())
      ensures if 4 * (backend.entries + 1) <= 3 * old(backend.cells.Length) then backend.cells == old(backend.cells)
              else fresh(backend.cells) && backend.cells.Length == 2 * old(backend.cells.Length)
      ensures threshold == Threshold(backend.cells.Length)
      ensures backend.entries < backend.cells.Length
      ensures backend.entries < old(backend.cells.Length) ==> backend.entries + 1 < backend.cells.Length
    {
      if backend.entries < threshold { return; }
      backend.Double();
      threshold := Threshold(backend.cells.Length);
    }

    // The caller promises a new key.
    method Insert(e: Entry<K, V>) returns (i: nat)
      requires Valid() && e.key != backend.invalid && e.key !in contents
      modifies this, backend, backend.cells
      ensures Valid() && (backend.cells == old(backend.cells) || fresh(backend.cells))
      ensures contents == old(contents)[e.key := e.val] && i < backend.cells.Length && backend.cells[i] == e
    {
      backend.entries := backend.entries + 1;
      DoubleIfNeeded();
      EntriesAdd(contents, e);
      i := backend.UncheckedInsert(e);
      contents := contents[e.key := e.val];
    }

    // Never throws: the flag of the fixed table stays false.
    method FindOrInsert(e: Entry<K, V>) returns (found: bool, thrown: bool, i: nat)
      requires Valid() && e.key != backend.invalid
      modifies this, backend, backend.cells
      ensures Valid() && (backend.cells == old(backend.cells) || fresh(backend.cells))
      ensures !thrown && (found <==> e.key in old(contents))
      ensures contents == if found then old(contents) else old(contents)[e.key := e.val]
      ensures i < backend.cells.Length && backend.cells[i] == Entry(e.key, contents[e.key])
    {
      DoubleIfNeeded();
      found, thrown, i := FindOrInsertWithRoom(e);
    }

    method FindOrInsertWithRoom(e: Entry<K, V>) returns (found: bool, thrown: bool, i: nat)
      requires Valid() && e.key != backend.invalid && backend.entries + 1 < backend.cells.Length
      modifies this`contents, backend`entries, backend.cells
      ensures Valid() && !thrown && (found <==> e.key in old(contents))
      ensures contents == if found then old(contents) else old(contents)[e.key := e.val]
      ensures i < backend.cells.Length && backend.cells[i] == Entry(e.key, contents[e.key])
    {
      ghost var m := contents;
      found, thrown, i := backend.FindOrInsert(e);
      if found {
        EntriesHas(m, backend.cells[i]);
      } else {
        AddAbsent(m, e);
        contents := m[e.key := e.val];
      }
    }

    method Find(key: K) returns (found: bool, i: nat)
      requires Valid() && key != backend.invalid
      ensures found <==> key in contents
      ensures found ==> i < backend.cells.Length && backend.cells[i] == Entry(key, contents[key])
    {
      found, i := backend.Find(key);
      if found {
        EntriesHas(contents, backend.cells[i]);
      } else if key in contents {
        EntriesHas(contents, Entry(key, contents[key]));
      }
    }

    // Writing a value through the iterator of a successful call; the key stays.
    method SetValue(i: nat, v: V)
      requires Valid() && i < backend.cells.Length && backend.cells[i].key != backend.invalid
      modifies this`contents, backend.cells
      ensures Valid() && contents == old(contents)[backend.cells[i].key := v]
    {
      ghost var c := backend.cells[..];
      Revalue(c, backend.invalid, contents, i, v);
      RevalueKeepsGapFree(c, backend.invalid, backend.hash, i, v);
      contents := contents[backend.cells[i].key := v];
      backend.cells[i] := backend.cells[i].(val := v);
      assert backend.cells[..] == c[i := c[i].(val := v)];
    }

    method Size() returns (n: nat)
      requires Valid()
      ensures n == |contents|
    {
      EntriesSize(contents);
      n := backend.entries;
    }

    method Clear()
      requires Valid()
      modifies this`contents, backend, backend.cells
      ensures Valid() && contents == map[]
    {
      backend.Clear();
      contents := map[];
    }
  }

  // ------------------------------------------------------------------- runs

  datatype Call<K, V> = CallFind(key: K) | CallFindOrInsert(entry: Entry<K, V>) | CallInsert(entry: Entry<K, V>)

  // Added is what the entry that the call put in holds.
  datatype Answer<V> = Missing | Present(val: V) | Added(val: V)

  function KeyOf<K, V>(op: Call<K, V>): K
  {
    if op.CallFind? then op.key else op.entry.key
  }

  // The finite map that a call is to be understood as.
  function MapAfter<K, V>(m: map<K, V>, op: Call<K, V>): map<K, V>
  {
    if op.CallFind? || op.entry.key in m then m else m[op.entry.key := op.entry.val]
  }

  function MapAnswer<K, V>(m: map<K, V>, op: Call<K, V>): Answer<V>
  {
    if KeyOf(op) in m then Present(m[KeyOf(op)]) else if op.CallFind? then Missing else Added(op.entry.val)
  }

  function MapAnswers<K, V>(m: map<K, V>, ops: seq<Call<K, V>>): seq<Answer<V>>
    decreases |ops|
  {
    if ops == [] then [] else [MapAnswer(m, ops[0])] + MapAnswers(MapAfter(m, ops[0]), ops[1..])
  }

  // Valid keys throughout, and Insert only with new ones.
  ghost predicate Allowed<K, V>(invalid: K, m: map<K, V>, ops: seq<Call<K, V>>)
    decreases |ops|
  {
    ops != [] ==>
      && KeyOf(ops[0]) != invalid
      && (ops[0].CallInsert? ==> ops[0].entry.key !in m)
      && Allowed(invalid, MapAfter(m, ops[0]), ops[1..])
  }

  method Answered<K(==, !new), V(!new)>(t: AutoProbing<K, V>, op: Call<K, V>) returns (a: Answer<V>)
    requires t.Valid() && KeyOf(op) != t.backend.invalid && (op.CallInsert? ==> op.entry.key !in t.contents)
    modifies t, t.backend, t.backend.cells
    ensures t.Valid() && (t.backend.cells == old(t.backend.cells) || fresh(t.backend.cells))
    ensures a == MapAnswer(old(t.contents), op) && t.contents == MapAfter(old(t.contents), op)
  {
    match op
    case CallFind(key) =>
      var found, i := t.Find(key);
      a := if found then Present(t.backend.cells[i].val) else Missing;
    case CallFindOrInsert(e) =>
      var found, thrown, i := t.FindOrInsert(e);
      a := if found then Present(t.backend.cells[i].val) else Added(t.backend.cells[i].val);
    case CallInsert(e) =>
      var i := t.Insert(e);
      a := Added(t.backend.cells[i].val);
  }

  /** Every run of calls, doublings included, is answered as a finite map answers it. */
  method Run<K(==, !new), V(!new)>(buckets: nat, blank: Entry<K, V>, hash: K -> nat, ops: seq<Call<K, V>>)
      returns (answers: seq<Answer<V>>)
    requires buckets > 0 && Allowed(blank.key, map[], ops)
    ensures answers == MapAnswers(map[], ops)
  {
    var t := new AutoProbing(buckets, blank, hash);
    answers := [];
    var n := 0;
    while n != |ops|
      invariant 0 <= n <= |ops| && t.Valid() && fresh(t) && fresh(t.backend) && fresh(t.backend.cells)
      invariant t.backend.invalid == blank.key && Allowed(blank.key, t.contents, ops[n..])
      invariant MapAnswers(map[], ops) == answers + MapAnswers(t.contents, ops[n..])
    {
      RunStep(blank.key, t.contents, ops, n, answers);
      var a := Answered(t, ops[n]);
      answers := answers + [a];
      n := n + 1;
    }
  }

  lemma RunStep<K, V>(invalid: K, m: map<K, V>, ops: seq<Call<K, V>>, n: nat, answers: seq<Answer<V>>)
    requires n < |ops| && Allowed(invalid, m, ops[n..])
    ensures KeyOf(ops[n]) != invalid && (ops[n].CallInsert? ==> ops[n].entry.key !in m)
    ensures Allowed(invalid, MapAfter(m, ops[n]), ops[n + 1..])
    ensures answers + MapAnswers(m, ops[n..])
      == (answers + [MapAnswer(m, ops[n])]) + MapAnswers(MapAfter(m, ops[n]), ops[n + 1..])
  {
    assert ops[n..][0] == ops[n] && ops[n..][1..] == ops[n + 1..];
  }
}

/** Shared by several components: optional values and lists of parts. */
module Common {

  datatype Option<T> = None | Some(value: T)

  // The parts one after the other.
  function Flat<T>(parts: seq<seq<T>>): seq<T>
  {
    if parts == [] then [] else Flat(parts[..|parts| - 1]) + parts[|parts| - 1]
  }

  lemma FlatSnoc<T>(parts: seq<seq<T>>, part: seq<T>)
    ensures Flat(parts + [part]) == Flat(parts) + part
  {
    assert (parts + [part])[..|parts|] == parts;
  }

  lemma {:induction false} FlatPrefix<T>(parts: seq<seq<T>>, n: nat)
    requires n <= |parts|
    ensures Flat(parts[..n]) <= Flat(parts)
  {
    if n < |parts| {
      var front := parts[..|parts| - 1];
      FlatPrefix(front, n);
      assert front[..n] == parts[..n];
    } else {
      assert parts[..n] == parts;
    }
  }

  lemma Regroup<T>(a: seq<T>, b: seq<T>, c: seq<T>)
    ensures a + (b + c) == (a + b) + c
  {
  }

  // ------------------------------------------------------------- multisets

  lemma Exchange<T>(x: multiset<T>, x': multiset<T>, a: multiset<T>, b: multiset<T>, c: multiset<T>)
    requires x' + a == x + b
    ensures (x' + c) + a == (x + c) + b
  {
    assert (x' + c) + a == (x' + a) + c;
  }

  lemma Swap<T>(x: multiset<T>, a: multiset<T>, b: multiset<T>)
    ensures (x + a) + b == (x + b) + a
  {
  }

  lemma Cancel<T>(x: multiset<T>, y: multiset<T>, c: multiset<T>)
    requires x + c == y + c
    ensures x == y
  {
    assert x == (x + c) - c;
    assert y == (y + c) - c;
  }
}

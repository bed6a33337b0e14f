/** The reader behind FilePiece and WARCReader: a byte stream that arrives in chunks of any size. */
module Sources {
  import opened Utf8

  // A source that returns some non-empty part of what was asked for, until its end.
  class ReadCompressed {
    const pick: nat -> nat
    var rest: seq<Byte>
    var calls: nat

    constructor (input: seq<Byte>, pick: nat -> nat)
      ensures rest == input && this.pick == pick && calls == 0
    {
      rest, calls, this.pick := input, 0, pick;
    }

    method Read(amount: nat) returns (got: seq<Byte>)
      modifies this
      ensures old(rest) == got + rest && |got| <= amount
      ensures amount > 0 && old(rest) != [] ==> got != []
      ensures calls == old(calls) + 1
      ensures pick(old(calls)) == 1 ==> |got| <= 1
      ensures pick(old(calls)) >= amount ==> |got| == amount || rest == []
    {
      var most := if amount < |rest| then amount else |rest|;
      var size := if 0 < pick(calls) <= most then pick(calls) else most;
      calls := calls + 1;
      got, rest := rest[..size], rest[size..];
    }
  }
}

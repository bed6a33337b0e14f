/** UnboundedSingleQueue (util/pcqueue.hh:232-300): linked pages, one producer, one consumer, all
    interleavings. Pages are named by the order of their allocation. */
module UnboundedQueues {
  import opened Common

  const PAGE: nat := 1023

  // An entry is None before it is written and after it was moved out.
  datatype Page<T> = Page(next: Option<nat>, entries: seq<Option<T>>)

  datatype Cursor = Cursor(page: nat, at: nat)

  datatype Producer<T> =
    | Resting
    | Entered(val: T)               // Produce called
    | Allocated(val: T, link: nat)  // a new page exists, not linked
    | Linked(val: T, link: nat)     // filling_->next is set
    | Storing(val: T)               // about to store
    | Posting(val: T)               // stored, about to post

  datatype Consumer<T> =
    | Away
    | Waiting                       // about to wait on valid_
    | Admitted                      // waited
    | Switching                     // reading_ replaced, old page freed, pointer not yet set
    | Moving                        // about to move the value out

  datatype State<T> = State(
    heap: map<nat, Page<T>>, pages: nat, fill: Cursor, read: Cursor, valid: nat,
    producer: Producer<T>, consumer: Consumer<T>,
    stored: seq<T>, taken: seq<T>)

  function NewPage<T>(): Page<T>
  {
    Page(None, seq(PAGE, _ => None))
  }

  ghost predicate Init<T>(s: State<T>)
  {
    s == State(map[0 := NewPage()], 1, Cursor(0, 0), Cursor(0, 0), 0, Resting, Away, [], [])
  }

  // ---------------------------------------------------------------- steps

  /** What the producer is about to touch exists. */
  predicate ProducerSafe<T>(s: State<T>)
  {
    && (s.producer.Allocated? ==> s.fill.page in s.heap)
    && (s.producer.Linked? ==> s.producer.link in s.heap)
    && (s.producer.Storing? ==> s.fill.page in s.heap && s.fill.at < |s.heap[s.fill.page].entries|)
  }

  // The next step of Produce.
  function ProducerNext<T>(s: State<T>): State<T>
    requires ProducerSafe(s) && !s.producer.Resting?
  {
    match s.producer
    case Entered(val) =>
      if s.fill.at == PAGE then
        s.(heap := s.heap[s.pages := NewPage()], pages := s.pages + 1, producer := Allocated(val, s.pages))
      else s.(producer := Storing(val))
    case Allocated(val, link) =>
      var page := s.heap[s.fill.page];
      s.(heap := s.heap[s.fill.page := page.(next := Some(link))], producer := Linked(val, link))
    case Linked(val, link) =>
      s.(fill := Cursor(link, 0), producer := Storing(val))
    case Storing(val) =>
      var page := s.heap[s.fill.page];
      s.(heap := s.heap[s.fill.page := page.(entries := page.entries[s.fill.at := Some(val)])],
         fill := Cursor(s.fill.page, s.fill.at + 1), stored := s.stored + [val], producer := Posting(val))
    case Posting(_) => s.(valid := s.valid + 1, producer := Resting)
  }

  /** What the consumer is about to touch exists, and was written. */
  predicate ConsumerSafe<T>(s: State<T>)
  {
    && (s.consumer.Admitted? && s.read.at == PAGE ==>
          s.read.page in s.heap && s.heap[s.read.page].next.Some? && s.heap[s.read.page].next.value in s.heap)
    && (s.consumer.Moving? ==>
          && s.read.page in s.heap && s.read.at < |s.heap[s.read.page].entries|
          && s.heap[s.read.page].entries[s.read.at].Some?)
  }

  predicate ConsumerBlocked<T>(s: State<T>)
  {
    s.consumer.Waiting? && s.valid == 0
  }

  function ConsumerNext<T>(s: State<T>): State<T>
    requires ConsumerSafe(s) && !ConsumerBlocked(s)
  {
    match s.consumer
    case Away => s.(consumer := Waiting)
    case Waiting => s.(valid := s.valid - 1, consumer := Admitted)
    case Admitted =>
      if s.read.at == PAGE then
        s.(read := Cursor(s.heap[s.read.page].next.value, PAGE), heap := s.heap - {s.read.page}, consumer := Switching)
      else s.(consumer := Moving)
    case Switching => s.(read := Cursor(s.read.page, 0), consumer := Moving)
    case Moving =>
      var page := s.heap[s.read.page];
      s.(heap := s.heap[s.read.page := page.(entries := page.entries[s.read.at := None])],
         read := Cursor(s.read.page, s.read.at + 1),
         taken := s.taken + [page.entries[s.read.at].value], consumer := Away)
  }

  datatype Move<T> = Calls(val: T) | Produces | Consumes

  predicate Allowed<T>(s: State<T>, m: Move<T>)
  {
    match m
    case Calls(_) => s.producer.Resting?
    case Produces => ProducerSafe(s) && !s.producer.Resting?
    case Consumes => ConsumerSafe(s) && !ConsumerBlocked(s)
  }

  function Moved<T>(s: State<T>, m: Move<T>): State<T>
    requires Allowed(s, m)
  {
    match m
    case Calls(val) => s.(producer := Entered(val))
    case Produces => ProducerNext(s)
    case Consumes => ConsumerNext(s)
  }

  ghost predicate Run<T>(states: seq<State<T>>, moves: seq<Move<T>>)
  {
    |states| == |moves| + 1 && Init(states[0])
    && forall i :: 0 <= i < |moves| ==> Allowed(states[i], moves[i]) && states[i + 1] == Moved(states[i], moves[i])
  }

  // ------------------------------------------------------------ invariants

  // Values stored, by the position of the filling cursor; likewise taken, by the reading cursor.
  function Position(c: Cursor): nat
  {
    c.page * PAGE + c.at
  }

  predicate Holding<T>(c: Consumer<T>)
  {
    c.Admitted? || c.Switching? || c.Moving?
  }

  ghost predicate Counted<T>(s: State<T>)
  {
    && s.fill.at <= PAGE && s.read.at <= PAGE
    && |s.stored| == Position(s.fill)
    && |s.taken| == (if s.consumer.Switching? then s.read.page * PAGE else Position(s.read))
    && s.valid + (if s.producer.Posting? then 1 else 0) + (if Holding(s.consumer) then 1 else 0)
       == |s.stored| - |s.taken|
  }

  // Where the two threads are inside their calls.
  ghost predicate Placed<T>(s: State<T>)
  {
    && (s.producer.Allocated? || s.producer.Linked? ==> s.fill.at == PAGE && s.producer.link == s.fill.page + 1)
    && (s.producer.Storing? ==> s.fill.at < PAGE)
    && (s.consumer.Moving? ==> s.read.at < PAGE)
    && s.pages == s.fill.page + (if s.producer.Allocated? || s.producer.Linked? then 2 else 1)
  }

  /** The pages from the reading to the filling one are there, each linked to the next. */
  ghost predicate Chained<T>(s: State<T>)
  {
    && s.read.page <= s.fill.page
    && (forall p :: p in s.heap <==> s.read.page <= p < s.pages)
    && (forall p :: p in s.heap ==> |s.heap[p].entries| == PAGE)
    && (forall p :: p in s.heap && p < s.fill.page ==> s.heap[p].next == Some(p + 1))
    && (s.producer.Linked? ==> s.fill.page in s.heap && s.heap[s.fill.page].next == Some(s.fill.page + 1))
  }

  /** Every value stored and not yet taken is where the reading cursor will look for it. */
  ghost predicate Kept<T>(s: State<T>)
  {
    && |s.taken| <= |s.stored| && s.taken == s.stored[..|s.taken|]
    && forall p, j ::
         p in s.heap && 0 <= j < |s.heap[p].entries| && |s.taken| <= Position(Cursor(p, j)) < |s.stored| ==>
         s.heap[p].entries[j] == Some(s.stored[Position(Cursor(p, j))])
  }

  ghost predicate Inv<T>(s: State<T>)
  {
    Counted(s) && Placed(s) && Chained(s) && Kept(s)
  }

  lemma InvSafe<T>(s: State<T>)
    requires Inv(s)
    ensures ProducerSafe(s) && ConsumerSafe(s)
  {
    if s.consumer.Moving? {
      assert Position(Cursor(s.read.page, s.read.at)) == |s.taken|;
    }
  }

  lemma ProducerKeepsCounted<T>(s: State<T>)
    requires Counted(s) && Placed(s) && ProducerSafe(s) && !s.producer.Resting?
    ensures Counted(ProducerNext(s))
  {
  }

  lemma ProducerKeepsPlaced<T>(s: State<T>)
    requires Counted(s) && Placed(s) && ProducerSafe(s) && !s.producer.Resting?
    ensures Placed(ProducerNext(s))
  {
  }

  lemma ProducerKeepsChained<T>(s: State<T>)
    requires Counted(s) && Placed(s) && Chained(s) && ProducerSafe(s) && !s.producer.Resting?
    ensures Chained(ProducerNext(s))
  {
  }

  lemma SamePosition(c: Cursor, d: Cursor)
    requires c.at < PAGE && d.at < PAGE && Position(c) == Position(d)
    ensures c == d
  {
  }

  lemma StoreKeepsKept<T>(s: State<T>)
    requires Inv(s) && ProducerSafe(s) && s.producer.Storing?
    ensures Kept(ProducerNext(s))
  {
    var s' := ProducerNext(s);
    forall p, j | p in s'.heap && 0 <= j < |s'.heap[p].entries| && |s'.taken| <= Position(Cursor(p, j)) < |s'.stored|
      ensures s'.heap[p].entries[j] == Some(s'.stored[Position(Cursor(p, j))])
    {
      if Position(Cursor(p, j)) == |s.stored| { SamePosition(Cursor(p, j), s.fill); }
    }
  }

  lemma ProducerKeepsKept<T>(s: State<T>)
    requires Inv(s) && ProducerSafe(s) && !s.producer.Resting?
    ensures Kept(ProducerNext(s))
  {
    if s.producer.Storing? { StoreKeepsKept(s); }
  }

  lemma ProducerKeepsInv<T>(s: State<T>)
    requires Inv(s) && ProducerSafe(s) && !s.producer.Resting?
    ensures Inv(ProducerNext(s))
  {
    ProducerKeepsCounted(s);
    ProducerKeepsPlaced(s);
    ProducerKeepsChained(s);
    ProducerKeepsKept(s);
  }

  lemma ConsumerKeepsCounted<T>(s: State<T>)
    requires Counted(s) && Placed(s) && Chained(s) && ConsumerSafe(s) && !ConsumerBlocked(s)
    ensures Counted(ConsumerNext(s))
  {
  }

  lemma ConsumerKeepsPlaced<T>(s: State<T>)
    requires Counted(s) && Placed(s) && Chained(s) && ConsumerSafe(s) && !ConsumerBlocked(s)
    ensures Placed(ConsumerNext(s))
  {
  }

  lemma ConsumerKeepsChained<T>(s: State<T>)
    requires Counted(s) && Placed(s) && Chained(s) && ConsumerSafe(s) && !ConsumerBlocked(s)
    ensures Chained(ConsumerNext(s))
  {
  }

  lemma ConsumerKeepsKept<T>(s: State<T>)
    requires Inv(s) && ConsumerSafe(s) && !ConsumerBlocked(s)
    ensures Kept(ConsumerNext(s))
  {
  }

  lemma ConsumerKeepsInv<T>(s: State<T>)
    requires Inv(s) && ConsumerSafe(s) && !ConsumerBlocked(s)
    ensures Inv(ConsumerNext(s))
  {
    ConsumerKeepsCounted(s);
    ConsumerKeepsPlaced(s);
    ConsumerKeepsChained(s);
    ConsumerKeepsKept(s);
  }

  lemma {:induction false} RunKeepsInv<T>(states: seq<State<T>>, moves: seq<Move<T>>, i: nat)
    requires Run(states, moves) && i < |states|
    ensures Inv(states[i])
  {
    if i > 0 {
      RunKeepsInv(states, moves, i - 1);
      match moves[i - 1]
      case Calls(_) =>
      case Produces => ProducerKeepsInv(states[i - 1]);
      case Consumes => ConsumerKeepsInv(states[i - 1]);
    }
  }

  // -------------------------------------------------------------- the calls

  // The values Produce was called with, in order.
  function Given<T>(moves: seq<Move<T>>): seq<T>
  {
    if moves == [] then []
    else
      var m := moves[|moves| - 1];
      Given(moves[..|moves| - 1]) + (if m.Calls? then [m.val] else [])
  }

  // Given, but not stored yet.
  function Pending<T>(p: Producer<T>): seq<T>
  {
    if p.Resting? || p.Posting? then [] else [p.val]
  }

  lemma {:induction false} StoredIsGiven<T>(states: seq<State<T>>, moves: seq<Move<T>>, i: nat)
    requires Run(states, moves) && i < |states|
    ensures states[i].stored + Pending(states[i].producer) == Given(moves[..i])
  {
    if i > 0 {
      StoredIsGiven(states, moves, i - 1);
      assert moves[..i][..i - 1] == moves[..i - 1] && moves[..i][i - 1] == moves[i - 1];
      StepStores(states[i - 1], moves[i - 1]);
    }
  }

  lemma StepStores<T>(s: State<T>, m: Move<T>)
    requires Allowed(s, m)
    ensures Moved(s, m).stored + Pending(Moved(s, m).producer)
      == s.stored + Pending(s.producer) + (if m.Calls? then [m.val] else [])
  {
  }

  // ---------------------------------------------------------- main results

  /** In every state of every run: nothing touched was freed, followed links are set, read entries
      were written, and the values taken are the first ones that Produce was called with. */
  lemma QueueIsSafeAndFifo<T>(states: seq<State<T>>, moves: seq<Move<T>>, i: nat)
    requires Run(states, moves) && i < |states|
    ensures var s := states[i];
      && ProducerSafe(s) && ConsumerSafe(s)
      && s.taken <= s.stored && s.stored + Pending(s.producer) == Given(moves[..i])
    ensures var s := states[i]; s.consumer.Moving? && ConsumerSafe(s) ==>
      |s.taken| < |s.stored| && s.heap[s.read.page].entries[s.read.at].value == s.stored[|s.taken|]
  {
    var s := states[i];
    RunKeepsInv(states, moves, i);
    StoredIsGiven(states, moves, i);
    InvSafe(s);
    if s.consumer.Moving? { assert Position(Cursor(s.read.page, s.read.at)) == |s.taken|; }
  }

  /** The page freed when the consumer moves on is the one it has read to the end; neither cursor
      is on it afterwards, and the producer links to or stores in later pages only. */
  lemma FreedPageIsDone<T>(states: seq<State<T>>, moves: seq<Move<T>>, i: nat)
    requires Run(states, moves) && i < |states| && states[i].consumer.Admitted? && states[i].read.at == PAGE
    ensures var s := states[i];
      && ConsumerSafe(s)
      && var s' := ConsumerNext(s);
         && s'.heap.Keys == s.heap.Keys - {s.read.page}
         && s.fill.page > s.read.page && s'.fill.page in s'.heap && s'.read.page in s'.heap
         && |s.taken| == (s.read.page + 1) * 1023
  {
    RunKeepsInv(states, moves, i);
    InvSafe(states[i]);
  }

  /** The consumer waits only when everything stored and posted was taken; the producer never. */
  lemma ConsumerWaitsOnlyWhenEmpty<T>(states: seq<State<T>>, moves: seq<Move<T>>, i: nat)
    requires Run(states, moves) && i < |states| && ConsumerBlocked(states[i]) && states[i].producer.Resting?
    ensures states[i].taken == Given(moves[..i])
  {
    RunKeepsInv(states, moves, i);
    StoredIsGiven(states, moves, i);
  }

  // --------------------------------------------------------------- progress

  function ProducerSteps<T>(p: Producer<T>): nat
  {
    match p
    case Resting => 0
    case Entered(_) => 5
    case Allocated(_, _) => 4
    case Linked(_, _) => 3
    case Storing(_) => 2
    case Posting(_) => 1
  }

  function ConsumerSteps<T>(c: Consumer<T>): nat
  {
    match c
    case Away => 0
    case Waiting => 4
    case Admitted => 3
    case Switching => 2
    case Moving => 1
  }

  // One step of a call of Consume, or its beginning.
  predicate ConsumerGoesOn<T>(c: Consumer<T>, c': Consumer<T>)
  {
    if c.Away? then c'.Waiting? else ConsumerSteps(c') < ConsumerSteps(c)
  }

  /** A call of Produce returns after at most five steps of its own and is never blocked; a call of
      Consume takes at most four and is blocked only while it waits. */
  lemma CallsEnd<T>(states: seq<State<T>>, moves: seq<Move<T>>, i: nat)
    requires Run(states, moves) && i < |moves|
    ensures moves[i].Produces? ==> ProducerSteps(states[i + 1].producer) < ProducerSteps(states[i].producer)
    ensures moves[i].Consumes? ==> ConsumerGoesOn(states[i].consumer, states[i + 1].consumer)
    ensures ProducerSteps(states[i].producer) <= 5 && ConsumerSteps(states[i].consumer) <= 4
    ensures moves[i].Consumes? || states[i + 1].consumer == states[i].consumer
    ensures !moves[i].Consumes? || states[i + 1].producer == states[i].producer
    ensures states[i].producer.Resting? || Allowed(states[i], Produces)
    ensures Allowed(states[i], Consumes) || ConsumerBlocked(states[i])
  {
    RunKeepsInv(states, moves, i);
    InvSafe(states[i]);
  }
}

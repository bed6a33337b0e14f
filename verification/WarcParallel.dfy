/** warc_parallel (preprocess/warc_parallel_main.cc): readers, workers and the poison protocol
    over a bounded first-in first-out queue, over all interleavings. */
module WarcParallel {
  import opened Common

  type Record = string

  datatype Worker = Worker(handed: seq<Record>, poisons: nat)

  datatype Boss = JoiningReaders | Poisoning(sent: nat) | JoiningWorkers | Finished

  // What each reader still has to read, the queue, the workers and the main thread.
  datatype State = State(unread: seq<seq<Record>>, queue: seq<Record>, workers: seq<Worker>, boss: Boss)

  // A record that was read is not empty; the empty string is the poison.
  ghost predicate Init(inputs: seq<seq<Record>>, workers: nat, s: State)
  {
    && (forall r :: 0 <= r < |inputs| ==> forall k :: 0 <= k < |inputs[r]| ==> inputs[r][k] != "")
    && s == State(inputs, [], seq(workers, _ => Worker([], 0)), JoiningReaders)
  }

  // ---------------------------------------------------------------- steps

  datatype Move = Reads(r: nat) | Works(w: nat) | BossMoves

  // The queue has as many slots as there are workers.
  predicate Room(s: State)
  {
    |s.queue| < |s.workers|
  }

  ghost predicate Allowed(s: State, m: Move)
  {
    match m
    case Reads(r) => r < |s.unread| && s.unread[r] != [] && Room(s)
    case Works(w) => w < |s.workers| && s.workers[w].poisons == 0 && s.queue != []
    case BossMoves =>
      match s.boss
      case JoiningReaders => forall r :: 0 <= r < |s.unread| ==> s.unread[r] == []
      case Poisoning(sent) => sent == |s.workers| || Room(s)
      case JoiningWorkers => forall w :: 0 <= w < |s.workers| ==> s.workers[w].poisons > 0
      case Finished => false
  }

  ghost function Moved(s: State, m: Move): State
    requires Allowed(s, m)
  {
    match m
    case Reads(r) => s.(unread := s.unread[r := s.unread[r][1..]], queue := s.queue + [s.unread[r][0]])
    case Works(w) =>
      var me := s.workers[w];
      s.(queue := s.queue[1..],
         workers := s.workers[w := if s.queue[0] == "" then Worker(me.handed, me.poisons + 1)
                                   else Worker(me.handed + [s.queue[0]], me.poisons)])
    case BossMoves =>
      match s.boss
      case JoiningReaders => s.(boss := Poisoning(0))
      case Poisoning(sent) =>
        if sent == |s.workers| then s.(boss := JoiningWorkers)
        else s.(queue := s.queue + [""], boss := Poisoning(sent + 1))
      case JoiningWorkers => s.(boss := Finished)
  }

  ghost predicate Run(inputs: seq<seq<Record>>, workers: nat, states: seq<State>, moves: seq<Move>)
  {
    |states| == |moves| + 1 && Init(inputs, workers, states[0])
    && forall i :: 0 <= i < |moves| ==> Allowed(states[i], moves[i]) && states[i + 1] == Moved(states[i], moves[i])
  }

  // ------------------------------------------------------------ invariants

  function Records(queue: seq<Record>): seq<Record>
  {
    if queue == [] then []
    else Records(queue[..|queue| - 1]) + (if queue[|queue| - 1] == "" then [] else [queue[|queue| - 1]])
  }

  function Bag(parts: seq<seq<Record>>): multiset<Record>
  {
    if parts == [] then multiset{} else Bag(parts[..|parts| - 1]) + multiset(parts[|parts| - 1])
  }

  function Handed(workers: seq<Worker>): multiset<Record>
  {
    if workers == [] then multiset{} else Handed(workers[..|workers| - 1]) + multiset(workers[|workers| - 1].handed)
  }

  function Poisoned(workers: seq<Worker>): nat
  {
    if workers == [] then 0 else Poisoned(workers[..|workers| - 1]) + workers[|workers| - 1].poisons
  }

  // Poisons sent so far.
  function Sent(s: State): nat
  {
    match s.boss
    case JoiningReaders => 0
    case Poisoning(sent) => sent
    case _ => |s.workers|
  }

  /** Records come first in the queue, then poisons; a poison is in the queue or was taken by one
      worker; nobody takes two. */
  ghost predicate Order(s: State)
  {
    var left := Sent(s) - Poisoned(s.workers);
    && 0 <= left <= |s.queue| <= |s.workers| && Sent(s) <= |s.workers|
    && (forall k :: 0 <= k < |s.queue| ==> (s.queue[k] == "" <==> k >= |s.queue| - left))
    && (forall w :: 0 <= w < |s.workers| ==> s.workers[w].poisons <= 1)
    && (forall r :: 0 <= r < |s.unread| ==> forall k :: 0 <= k < |s.unread[r]| ==> s.unread[r][k] != "")
    && (!s.boss.JoiningReaders? ==> forall r :: 0 <= r < |s.unread| ==> s.unread[r] == [])
    && (s.boss.Finished? ==> forall w :: 0 <= w < |s.workers| ==> s.workers[w].poisons == 1)
    && (Poisoned(s.workers) > 0 ==> |s.queue| == left)
  }

  /** Nothing read is lost or doubled. */
  ghost predicate Conserved(inputs: seq<seq<Record>>, s: State)
  {
    Bag(s.unread) + multiset(Records(s.queue)) + Handed(s.workers) == Bag(inputs)
  }

  ghost predicate Inv(inputs: seq<seq<Record>>, s: State)
  {
    Order(s) && Conserved(inputs, s)
  }

  // ------------------------------------------------------------ bookkeeping

  lemma {:induction false} BagUpdate(parts: seq<seq<Record>>, r: nat, part: seq<Record>)
    requires r < |parts|
    ensures Bag(parts[r := part]) + multiset(parts[r]) == Bag(parts) + multiset(part)
  {
    var n := |parts| - 1;
    var after := parts[r := part];
    if r == n {
      assert after[..n] == parts[..n];
      Swap(Bag(parts[..n]), multiset(part), multiset(parts[n]));
    } else {
      BagUpdate(parts[..n], r, part);
      Exchange(Bag(parts[..n]), Bag(parts[..n][r := part]), multiset(parts[r]), multiset(part), multiset(parts[n]));
      assert after[..n] == parts[..n][r := part];
    }
  }

  lemma {:induction false} HandedUpdate(workers: seq<Worker>, w: nat, worker: Worker)
    requires w < |workers|
    ensures Handed(workers[w := worker]) + multiset(workers[w].handed) == Handed(workers) + multiset(worker.handed)
  {
    var n := |workers| - 1;
    var after := workers[w := worker];
    if w == n {
      assert after[..n] == workers[..n];
      Swap(Handed(workers[..n]), multiset(worker.handed), multiset(workers[n].handed));
    } else {
      HandedUpdate(workers[..n], w, worker);
      Exchange(Handed(workers[..n]), Handed(workers[..n][w := worker]),
               multiset(workers[w].handed), multiset(worker.handed), multiset(workers[n].handed));
      assert after[..n] == workers[..n][w := worker];
    }
  }

  lemma {:induction false} PoisonedUpdate(workers: seq<Worker>, w: nat, worker: Worker)
    requires w < |workers|
    ensures Poisoned(workers[w := worker]) + workers[w].poisons == Poisoned(workers) + worker.poisons
  {
    var n := |workers| - 1;
    var after := workers[w := worker];
    if w == n {
      assert after[..n] == workers[..n];
    } else {
      PoisonedUpdate(workers[..n], w, worker);
      assert after[..n] == workers[..n][w := worker];
    }
  }

  // With at most one poison each: fewer than all means that somebody has none.
  lemma {:induction false} PoisonedBound(workers: seq<Worker>)
    requires forall w :: 0 <= w < |workers| ==> workers[w].poisons <= 1
    ensures Poisoned(workers) <= |workers|
    ensures Poisoned(workers) < |workers| <==> exists w :: 0 <= w < |workers| && workers[w].poisons == 0
  {
    if workers != [] {
      var front := workers[..|workers| - 1];
      PoisonedBound(front);
      if Poisoned(front) < |front| {
        var w :| 0 <= w < |front| && front[w].poisons == 0;
        assert workers[w].poisons == 0;
      }
      if w :| 0 <= w < |workers| && workers[w].poisons == 0 {
        if w < |front| { assert front[w].poisons == 0; }
      }
    }
  }

  lemma RecordsSnoc(queue: seq<Record>, e: Record)
    ensures Records(queue + [e]) == Records(queue) + (if e == "" then [] else [e])
  {
    assert (queue + [e])[..|queue|] == queue;
  }

  lemma {:induction false} RecordsHead(queue: seq<Record>)
    requires queue != []
    ensures Records(queue) == (if queue[0] == "" then [] else [queue[0]]) + Records(queue[1..])
  {
    var n := |queue| - 1;
    if n == 0 {
      assert queue[..n] == [] && queue[1..] == [];
    } else {
      RecordsHead(queue[..n]);
      assert queue[1..][..n - 1] == queue[..n][1..];
    }
  }

  lemma {:induction false} RecordsNone(queue: seq<Record>)
    requires forall k :: 0 <= k < |queue| ==> queue[k] == ""
    ensures Records(queue) == []
  {
    if queue != [] { RecordsNone(queue[..|queue| - 1]); }
  }

  // Taking the first record of a list out of a bag of lists, or putting one at the end.
  lemma TakeOut(bag: multiset<Record>, bag': multiset<Record>, a: seq<Record>)
    requires a != [] && bag' + multiset(a) == bag + multiset(a[1..])
    ensures bag' + multiset{a[0]} == bag
  {
    assert a == [a[0]] + a[1..];
    assert multiset(a) == multiset{a[0]} + multiset(a[1..]);
    Cancel(bag' + multiset{a[0]}, bag, multiset(a[1..]));
  }

  lemma PutIn(bag: multiset<Record>, bag': multiset<Record>, b: seq<Record>, e: Record)
    requires bag' + multiset(b) == bag + multiset(b + [e])
    ensures bag' == bag + multiset{e}
  {
    assert multiset(b + [e]) == multiset(b) + multiset{e};
    Cancel(bag', bag + multiset{e}, multiset(b));
  }

  // ----------------------------------------------------------- preservation

  lemma ReadKeepsOrder(s: State, r: nat)
    requires Order(s) && Allowed(s, Reads(r))
    ensures Order(Moved(s, Reads(r)))
  {
  }

  lemma WorkKeepsOrder(s: State, w: nat)
    requires Order(s) && Allowed(s, Works(w))
    ensures Order(Moved(s, Works(w)))
  {
    PoisonedUpdate(s.workers, w, Moved(s, Works(w)).workers[w]);
  }

  lemma BossKeepsOrder(s: State)
    requires Order(s) && Allowed(s, BossMoves)
    ensures Order(Moved(s, BossMoves))
  {
  }

  lemma ReadKeepsConserved(inputs: seq<seq<Record>>, s: State, r: nat)
    requires Order(s) && Conserved(inputs, s) && Allowed(s, Reads(r))
    ensures Conserved(inputs, Moved(s, Reads(r)))
  {
    var e := s.unread[r][0];
    BagUpdate(s.unread, r, s.unread[r][1..]);
    var u, u' := Bag(s.unread), Bag(s.unread[r := s.unread[r][1..]]);
    var q, h := multiset(Records(s.queue)), Handed(s.workers);
    TakeOut(u, u', s.unread[r]);
    RecordsSnoc(s.queue, e);
    assert multiset(Records(s.queue) + [e]) == q + multiset{e};
    assert (u' + multiset{e}) + q == u' + (q + multiset{e});
  }

  lemma WorkKeepsConserved(inputs: seq<seq<Record>>, s: State, w: nat)
    requires Order(s) && Conserved(inputs, s) && Allowed(s, Works(w))
    ensures Conserved(inputs, Moved(s, Works(w)))
  {
    var e, s' := s.queue[0], Moved(s, Works(w));
    var u, q', h, h' := Bag(s.unread), multiset(Records(s.queue[1..])), Handed(s.workers), Handed(s'.workers);
    RecordsHead(s.queue);
    HandedUpdate(s.workers, w, s'.workers[w]);
    if e == "" {
      assert [] + Records(s.queue[1..]) == Records(s.queue[1..]);
      Cancel(h', h, multiset(s.workers[w].handed));
    } else {
      PutIn(h, h', s.workers[w].handed, e);
      assert multiset([e] + Records(s.queue[1..])) == multiset{e} + q';
      assert (u + (multiset{e} + q')) + h == (u + q') + (h + multiset{e});
    }
  }

  lemma BossKeepsConserved(inputs: seq<seq<Record>>, s: State)
    requires Conserved(inputs, s) && Allowed(s, BossMoves)
    ensures Conserved(inputs, Moved(s, BossMoves))
  {
    RecordsSnoc(s.queue, "");
    assert Records(s.queue) + [] == Records(s.queue);
  }

  lemma {:induction false} HandedNothing(workers: seq<Worker>)
    requires forall w :: 0 <= w < |workers| ==> workers[w] == Worker([], 0)
    ensures Handed(workers) == multiset{} && Poisoned(workers) == 0
  {
    if workers != [] { HandedNothing(workers[..|workers| - 1]); }
  }

  lemma {:induction false} BagNothing(parts: seq<seq<Record>>)
    requires forall r :: 0 <= r < |parts| ==> parts[r] == []
    ensures Bag(parts) == multiset{}
  {
    if parts != [] { BagNothing(parts[..|parts| - 1]); }
  }

  lemma InitInv(inputs: seq<seq<Record>>, n: nat, s: State)
    requires Init(inputs, n, s)
    ensures Inv(inputs, s)
  {
    HandedNothing(s.workers);
    assert multiset(Records(s.queue)) == multiset{};
  }

  lemma StepKeepsInv(inputs: seq<seq<Record>>, s: State, m: Move)
    requires Inv(inputs, s) && Allowed(s, m)
    ensures Inv(inputs, Moved(s, m)) && |Moved(s, m).workers| == |s.workers|
  {
    match m
    case Reads(r) => ReadKeepsOrder(s, r); ReadKeepsConserved(inputs, s, r);
    case Works(w) => WorkKeepsOrder(s, w); WorkKeepsConserved(inputs, s, w);
    case BossMoves => BossKeepsOrder(s); BossKeepsConserved(inputs, s);
  }

  lemma {:induction false} RunKeepsInv(inputs: seq<seq<Record>>, n: nat, states: seq<State>, moves: seq<Move>, i: nat)
    requires Run(inputs, n, states, moves) && i < |states|
    ensures Inv(inputs, states[i]) && |states[i].workers| == n
  {
    if i == 0 {
      InitInv(inputs, n, states[0]);
    } else {
      RunKeepsInv(inputs, n, states, moves, i - 1);
      StepKeepsInv(inputs, states[i - 1], moves[i - 1]);
    }
  }

  // ---------------------------------------------------------- main results

  /** When everything has ended, the workers were handed exactly the records read, each took
      exactly one poison, and the queue is empty. */
  lemma HandsOutEverything(inputs: seq<seq<Record>>, n: nat, states: seq<State>, moves: seq<Move>, i: nat)
    requires Run(inputs, n, states, moves) && i < |states| && states[i].boss.Finished?
    ensures var s := states[i];
      && Handed(s.workers) == Bag(inputs)
      && s.queue == []
      && forall w :: 0 <= w < n ==> w < |s.workers| && s.workers[w].poisons == 1
  {
    RunKeepsInv(inputs, n, states, moves, i);
    var s := states[i];
    PoisonedBound(s.workers);
    BagNothing(s.unread);
    if n > 0 { assert s.workers[0].poisons == 1; }
  }

  /** At any time nothing read is lost or doubled, no worker takes two poisons, and no record is
      behind a poison. */
  lemma NothingBehindPoison(inputs: seq<seq<Record>>, n: nat, states: seq<State>, moves: seq<Move>, i: nat)
    requires Run(inputs, n, states, moves) && i < |states|
    ensures var s := states[i];
      && Conserved(inputs, s)
      && (forall j, k :: 0 <= j < k < |s.queue| && s.queue[j] == "" ==> s.queue[k] == "")
      && (forall w :: 0 <= w < |s.workers| ==> s.workers[w].poisons <= 1)
      && (forall w :: 0 <= w < |s.workers| && s.workers[w].poisons == 1 ==> Records(s.queue) == [])
  {
    RunKeepsInv(inputs, n, states, moves, i);
    var s := states[i];
    forall w | 0 <= w < |s.workers| && s.workers[w].poisons == 1 ensures Records(s.queue) == [] {
      PoisonedUpdate(s.workers, w, Worker([], 0));
      RecordsNone(s.queue);
    }
  }

  ghost predicate Stuck(s: State)
  {
    !s.boss.Finished? && forall m :: !Allowed(s, m)
  }

  /** The run can stop early only with no workers at all while there is something to read. */
  lemma StuckExactly(inputs: seq<seq<Record>>, n: nat, states: seq<State>, moves: seq<Move>, i: nat)
    requires Run(inputs, n, states, moves) && i < |states|
    ensures Stuck(states[i]) <==> n == 0 && exists r :: 0 <= r < |states[i].unread| && states[i].unread[r] != []
  {
    RunKeepsInv(inputs, n, states, moves, i);
    var s := states[i];
    PoisonedBound(s.workers);
    if Stuck(s) {
      assert !Allowed(s, BossMoves);
      if s.queue != [] {
        var w :| 0 <= w < |s.workers| && s.workers[w].poisons == 0;
        assert Allowed(s, Works(w));
      } else if exists r :: 0 <= r < |s.unread| && s.unread[r] != [] {
        var r :| 0 <= r < |s.unread| && s.unread[r] != [];
        assert !Allowed(s, Reads(r));
      }
    }
  }

  /** It happens at the very start: no workers and a reader with something to read. */
  lemma NoWorkersStuck(inputs: seq<seq<Record>>, r: nat, s: State)
    requires Init(inputs, 0, s) && r < |inputs| && inputs[r] != []
    ensures Stuck(s)
  {
    StuckExactly(inputs, 0, [s], [], 0);
    assert s.unread[r] != [];
  }

  // --------------------------------------------------------------- progress

  function Unread(parts: seq<seq<Record>>): nat
  {
    if parts == [] then 0 else Unread(parts[..|parts| - 1]) + |parts[|parts| - 1]|
  }

  lemma {:induction false} UnreadUpdate(parts: seq<seq<Record>>, r: nat, part: seq<Record>)
    requires r < |parts|
    ensures Unread(parts[r := part]) + |parts[r]| == Unread(parts) + |part|
  {
    var n := |parts| - 1;
    var after := parts[r := part];
    if r == n {
      assert after[..n] == parts[..n];
    } else {
      UnreadUpdate(parts[..n], r, part);
      assert after[..n] == parts[..n][r := part];
    }
  }

  // At most so many moves are left.
  function MovesLeft(s: State): nat
    requires Sent(s) <= |s.workers|
  {
    2 * Unread(s.unread) + |s.queue|
    + (match s.boss
       case JoiningReaders => 2 * |s.workers| + 3
       case Poisoning(sent) => 2 * (|s.workers| - sent) + 2
       case JoiningWorkers => 1
       case Finished => 0)
  }

  lemma MoveProgress(s: State, m: Move)
    requires Order(s) && Allowed(s, m) && Order(Moved(s, m))
    ensures MovesLeft(Moved(s, m)) < MovesLeft(s)
  {
    if m.Reads? { UnreadUpdate(s.unread, m.r, s.unread[m.r][1..]); }
  }

  lemma {:induction false} RunProgress(inputs: seq<seq<Record>>, n: nat, states: seq<State>, moves: seq<Move>, i: nat)
    requires Run(inputs, n, states, moves) && i < |states|
    ensures Order(states[i]) && i + MovesLeft(states[i]) <= 2 * Unread(inputs) + 2 * n + 3
  {
    RunKeepsInv(inputs, n, states, moves, i);
    if i > 0 {
      RunProgress(inputs, n, states, moves, i - 1);
      MoveProgress(states[i - 1], moves[i - 1]);
    }
  }

  /** No run goes on for ever: at most two moves for each record and two for each worker, and three. */
  lemma RunsAreBounded(inputs: seq<seq<Record>>, n: nat, states: seq<State>, moves: seq<Move>)
    requires Run(inputs, n, states, moves)
    ensures |moves| <= 2 * Unread(inputs) + 2 * n + 3
  {
    RunProgress(inputs, n, states, moves, |moves|);
  }
}

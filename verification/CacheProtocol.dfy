/** The cache program (preprocess/cache_main.cc:48-105): Input and Output threads around a child
    process that answers each line it receives with one line, over all interleavings. The queue
    between the threads is a first-in first-out queue, and a key is the hash of the key fields. */
module CacheProtocol {
  import opened Common

  type Line = string
  type Key = nat

  datatype InputStage = Reading | Inserted(novel: bool) | Sent | Poisoning | Finished

  datatype OutputStage = Consuming | Checking(key: Key) | Emitting(key: Key) | Ended

  datatype Input = Input(pos: nat, stage: InputStage, buffer: seq<Line>)

  // Lines the child has received, and its answers so far.
  datatype Child = Child(received: seq<Line>, answers: seq<Line>)

  datatype Output = Output(stage: OutputStage, read: nat, printed: seq<Line>)

  datatype State = State(input: Input, child: Child, output: Output, cache: map<Key, Option<Line>>,
                         queue: seq<Option<Key>>)

  // The lines on standard input with their keys.
  datatype Job = Job(lines: seq<Line>, keys: seq<Key>)

  ghost predicate Init(job: Job, s: State)
  {
    |job.lines| == |job.keys|
    && s == State(Input(0, Reading, []), Child([], []), Output(Consuming, 0, []), map[], [])
  }

  // ---------------------------------------------------------------- steps

  datatype Move = InputMoves | Flushes(n: nat) | Answers(line: Line) | OutputMoves

  predicate Allowed(job: Job, s: State, m: Move)
  {
    match m
    case InputMoves => s.input.pos <= |job.lines| == |job.keys| && !s.input.stage.Finished?
      && (!s.input.stage.Reading? && !s.input.stage.Poisoning? ==> s.input.pos < |job.lines|)
    case Flushes(n) => n <= |s.input.buffer|
    case Answers(_) => |s.child.answers| < |s.child.received|
    case OutputMoves =>
      match s.output.stage
      case Consuming => s.queue != []
      case Checking(key) => key in s.cache && (s.cache[key].None? ==> s.output.read < |s.child.answers|)
      case Emitting(key) => key in s.cache && s.cache[key].Some?
      case Ended => false
  }

  function InputNext(job: Job, s: State): State
    requires Allowed(job, s, InputMoves)
  {
    var i := s.input;
    match i.stage
    case Reading =>
      if i.pos == |job.lines| then
        // The stream to the child is closed, which flushes it.
        s.(input := Input(i.pos, Poisoning, []), child := s.child.(received := s.child.received + i.buffer))
      else if job.keys[i.pos] in s.cache then s.(input := i.(stage := Inserted(false)))
      else s.(input := i.(stage := Inserted(true)), cache := s.cache[job.keys[i.pos] := None])
    case Inserted(novel) =>
      s.(input := Input(i.pos, Sent, if novel then i.buffer + [job.lines[i.pos]] else i.buffer))
    case Sent => s.(input := Input(i.pos + 1, Reading, i.buffer), queue := s.queue + [Some(job.keys[i.pos])])
    case Poisoning => s.(input := i.(stage := Finished), queue := s.queue + [None])
  }

  function OutputNext(job: Job, s: State): State
    requires Allowed(job, s, OutputMoves)
  {
    var o := s.output;
    match o.stage
    case Consuming =>
      s.(queue := s.queue[1..], output := o.(stage := if s.queue[0].Some? then Checking(s.queue[0].value) else Ended))
    case Checking(key) =>
      if s.cache[key].None? then
        s.(cache := s.cache[key := Some(s.child.answers[o.read])],
           output := Output(Emitting(key), o.read + 1, o.printed))
      else s.(output := o.(stage := Emitting(key)))
    case Emitting(key) => s.(output := Output(Consuming, o.read, o.printed + [s.cache[key].value]))
  }

  function Moved(job: Job, s: State, m: Move): State
    requires Allowed(job, s, m)
  {
    match m
    case InputMoves => InputNext(job, s)
    case Flushes(n) =>
      s.(input := s.input.(buffer := s.input.buffer[n..]),
         child := s.child.(received := s.child.received + s.input.buffer[..n]))
    case Answers(line) => s.(child := s.child.(answers := s.child.answers + [line]))
    case OutputMoves => OutputNext(job, s)
  }

  ghost predicate Run(job: Job, states: seq<State>, moves: seq<Move>)
  {
    |states| == |moves| + 1 && Init(job, states[0])
    && forall i :: 0 <= i < |moves| ==>
         Allowed(job, states[i], moves[i]) && states[i + 1] == Moved(job, states[i], moves[i])
  }

  // ------------------------------------------------------- first occurrences

  // No earlier line has this key.
  ghost predicate New(keys: seq<Key>, i: nat)
    requires i < |keys|
  {
    forall h :: 0 <= h < i ==> keys[h] != keys[i]
  }

  ghost function NewCount(keys: seq<Key>, n: nat): nat
    requires n <= |keys|
  {
    if n == 0 then 0 else NewCount(keys, n - 1) + (if New(keys, n - 1) then 1 else 0)
  }

  // The first n lines without those whose key was seen before.
  ghost function Firsts(job: Job, n: nat): (r: seq<Line>)
    requires n <= |job.lines| == |job.keys|
    ensures |r| == NewCount(job.keys, n)
  {
    if n == 0 then [] else Firsts(job, n - 1) + (if New(job.keys, n - 1) then [job.lines[n - 1]] else [])
  }

  // The earliest line with the same key.
  ghost function Earliest(keys: seq<Key>, j: nat): (i: nat)
    requires j < |keys|
    ensures i <= j && keys[i] == keys[j] && New(keys, i)
  {
    if New(keys, j) then j
    else
      var h :| 0 <= h < j && keys[h] == keys[j];
      Earliest(keys, h)
  }

  lemma EarliestUnique(keys: seq<Key>, i: nat, j: nat)
    requires i < |keys| && j < |keys| && keys[i] == keys[j]
    ensures Earliest(keys, i) == Earliest(keys, j)
  {
  }

  lemma {:induction false} FirstsAt(job: Job, i: nat, n: nat)
    requires i < n <= |job.lines| == |job.keys| && New(job.keys, i)
    ensures NewCount(job.keys, i) < NewCount(job.keys, n)
    ensures Firsts(job, n)[NewCount(job.keys, i)] == job.lines[i]
  {
    if i + 1 < n { FirstsAt(job, i, n - 1); }
  }

  // The position, among the child's lines, of the line whose answer line j gets.
  ghost function Rank(keys: seq<Key>, j: nat): nat
    requires j < |keys|
  {
    NewCount(keys, Earliest(keys, j))
  }

  // ------------------------------------------------------------ invariants

  function InsertedLines(i: Input): nat
  {
    if i.stage.Inserted? || i.stage.Sent? then i.pos + 1 else i.pos
  }

  function SentLines(i: Input): nat
  {
    if i.stage.Sent? then i.pos + 1 else i.pos
  }

  /** What went to the child, or is on its way, are the first occurrences in order. */
  ghost predicate ChildSees(job: Job, s: State)
  {
    && |job.lines| == |job.keys| && InsertedLines(s.input) <= |job.lines|
    && s.child.received + s.input.buffer == Firsts(job, SentLines(s.input))
    && (s.input.stage.Inserted? ==> s.input.stage.novel == New(job.keys, s.input.pos))
    && (s.input.stage.Poisoning? || s.input.stage.Finished? ==> s.input.pos == |job.lines| && s.input.buffer == [])
    && |s.child.answers| <= |s.child.received|
  }

  ghost predicate CacheKeys(job: Job, s: State)
    requires InsertedLines(s.input) <= |job.keys|
  {
    && (forall i :: 0 <= i < InsertedLines(s.input) ==> job.keys[i] in s.cache)
    && (forall k :: k in s.cache ==> exists i :: 0 <= i < InsertedLines(s.input) && job.keys[i] == k)
  }

  // Lines taken from the queue.
  function Taken(o: Output): nat
  {
    if o.stage.Checking? || o.stage.Emitting? then |o.printed| + 1 else |o.printed|
  }

  // Lines whose answer is in the cache.
  function Filled(o: Output): nat
  {
    if o.stage.Emitting? then |o.printed| + 1 else |o.printed|
  }

  ghost predicate Queued(job: Job, s: State)
    requires s.input.pos <= |job.keys|
  {
    var t := Taken(s.output);
    var poison := if s.input.stage.Finished? && !s.output.stage.Ended? then 1 else 0;
    && t <= s.input.pos && |s.queue| == s.input.pos - t + poison
    && (forall i :: 0 <= i < s.input.pos - t ==> s.queue[i] == Some(job.keys[t + i]))
    && (poison == 1 ==> s.queue[s.input.pos - t] == None)
    && (s.output.stage.Checking? || s.output.stage.Emitting? ==> s.output.stage.key == job.keys[|s.output.printed|])
    && (s.output.stage.Ended? ==> s.input.stage.Finished? && t == s.input.pos)
  }

  /** The answers cached for the first f lines are those to the earliest line with the key; the
      other keys have none yet. */
  ghost predicate Values(keys: seq<Key>, cache: map<Key, Option<Line>>, answers: seq<Line>, f: nat, read: nat)
  {
    && f <= |keys| && read == NewCount(keys, f) <= |answers|
    && (forall i :: 0 <= i < f ==> RightAnswer(keys, cache, answers, i))
    && (forall k :: k in cache && Unseen(keys, f, k) ==> cache[k] == None)
  }

  ghost predicate RightAnswer(keys: seq<Key>, cache: map<Key, Option<Line>>, answers: seq<Line>, i: nat)
    requires i < |keys|
  {
    Rank(keys, i) < |answers| && keys[i] in cache && cache[keys[i]] == Some(answers[Rank(keys, i)])
  }

  ghost predicate Unseen(keys: seq<Key>, f: nat, k: Key)
    requires f <= |keys|
  {
    forall i :: 0 <= i < f ==> keys[i] != k
  }

  /** Every line printed is the child's answer to the earliest line with the same key. */
  ghost predicate Printed(keys: seq<Key>, printed: seq<Line>, answers: seq<Line>)
  {
    |printed| <= |keys|
    && forall j :: 0 <= j < |printed| ==> Rank(keys, j) < |answers| && printed[j] == answers[Rank(keys, j)]
  }

  ghost predicate Inv(job: Job, s: State)
  {
    && ChildSees(job, s) && CacheKeys(job, s) && Queued(job, s)
    && Values(job.keys, s.cache, s.child.answers, Filled(s.output), s.output.read)
    && Printed(job.keys, s.output.printed, s.child.answers)
  }

  // A key is novel exactly if no earlier line has it.
  lemma NovelIsNew(job: Job, s: State)
    requires InsertedLines(s.input) == s.input.pos < |job.keys| && CacheKeys(job, s)
    ensures job.keys[s.input.pos] !in s.cache <==> New(job.keys, s.input.pos)
  {
  }

  lemma InputKeepsChildSees(job: Job, s: State)
    requires ChildSees(job, s) && CacheKeys(job, s) && Allowed(job, s, InputMoves)
    ensures ChildSees(job, InputNext(job, s))
  {
    if s.input.stage.Inserted? {
      InsertedKeepsChildSees(job, s);
    } else if s.input.stage.Reading? && s.input.pos < |job.lines| {
      NovelIsNew(job, s);
    }
  }

  lemma InsertedKeepsChildSees(job: Job, s: State)
    requires ChildSees(job, s) && Allowed(job, s, InputMoves) && s.input.stage.Inserted?
    ensures ChildSees(job, InputNext(job, s))
  {
    var i := s.input;
    if i.stage.novel { Regroup(s.child.received, i.buffer, [job.lines[i.pos]]); }
  }

  lemma InputKeepsKeys(job: Job, s: State)
    requires ChildSees(job, s) && CacheKeys(job, s) && Allowed(job, s, InputMoves)
    ensures InsertedLines(InputNext(job, s).input) <= |job.keys| && CacheKeys(job, InputNext(job, s))
  {
  }

  lemma InputKeepsQueued(job: Job, s: State)
    requires ChildSees(job, s) && Queued(job, s) && Allowed(job, s, InputMoves)
    ensures InputNext(job, s).input.pos <= |job.keys| && Queued(job, InputNext(job, s))
  {
  }

  lemma ValuesInsert(keys: seq<Key>, cache: map<Key, Option<Line>>, answers: seq<Line>, f: nat, read: nat, k: Key)
    requires Values(keys, cache, answers, f, read) && k !in cache
    ensures Values(keys, cache[k := None], answers, f, read)
  {
    var cache' := cache[k := None];
    forall i | 0 <= i < f ensures RightAnswer(keys, cache', answers, i) {
      assert RightAnswer(keys, cache, answers, i);
    }
  }

  lemma ValuesAnswer(keys: seq<Key>, cache: map<Key, Option<Line>>, answers: seq<Line>, f: nat, read: nat, line: Line)
    requires Values(keys, cache, answers, f, read)
    ensures Values(keys, cache, answers + [line], f, read)
  {
    var answers' := answers + [line];
    forall i | 0 <= i < f ensures RightAnswer(keys, cache, answers', i) {
      assert RightAnswer(keys, cache, answers, i);
    }
  }

  // The key is new: the next answer is the answer to its line.
  lemma ValuesFill(keys: seq<Key>, cache: map<Key, Option<Line>>, answers: seq<Line>, f: nat, read: nat)
    requires Values(keys, cache, answers, f, read) && f < |keys| && keys[f] in cache
    requires cache[keys[f]] == None && read < |answers|
    ensures Values(keys, cache[keys[f] := Some(answers[read])], answers, f + 1, read + 1)
  {
    var cache' := cache[keys[f] := Some(answers[read])];
    assert New(keys, f) by {
      forall h | 0 <= h < f ensures keys[h] != keys[f] { assert RightAnswer(keys, cache, answers, h); }
    }
    forall i | 0 <= i < f + 1 ensures RightAnswer(keys, cache', answers, i) {
      if i < f { assert RightAnswer(keys, cache, answers, i); }
    }
    forall k | k in cache' && Unseen(keys, f + 1, k) ensures cache'[k] == None {
      assert Unseen(keys, f, k);
    }
  }

  // The key was seen: the cached answer is the one to its earliest line.
  lemma ValuesHit(keys: seq<Key>, cache: map<Key, Option<Line>>, answers: seq<Line>, f: nat, read: nat)
    requires Values(keys, cache, answers, f, read) && f < |keys| && keys[f] in cache && cache[keys[f]] != None
    ensures Values(keys, cache, answers, f + 1, read)
  {
    assert !Unseen(keys, f, keys[f]);
    var h :| 0 <= h < f && keys[h] == keys[f];
    assert !New(keys, f);
    EarliestUnique(keys, h, f);
    assert RightAnswer(keys, cache, answers, h);
    forall k | k in cache && Unseen(keys, f + 1, k) ensures cache[k] == None {
      assert Unseen(keys, f, k);
    }
  }

  lemma InputKeepsInv(job: Job, s: State)
    requires Inv(job, s) && Allowed(job, s, InputMoves)
    ensures Inv(job, InputNext(job, s))
  {
    InputKeepsChildSees(job, s);
    InputKeepsKeys(job, s);
    InputKeepsQueued(job, s);
    if s.input.stage.Reading? && s.input.pos < |job.lines| && job.keys[s.input.pos] !in s.cache {
      ValuesInsert(job.keys, s.cache, s.child.answers, Filled(s.output), s.output.read, job.keys[s.input.pos]);
    }
  }

  lemma PrintedAnswer(keys: seq<Key>, printed: seq<Line>, answers: seq<Line>, line: Line)
    requires Printed(keys, printed, answers)
    ensures Printed(keys, printed, answers + [line])
  {
  }

  // Steps of the child and of the stream to it.
  lemma SameView(job: Job, s: State, s': State)
    requires s.input.pos <= |job.keys| && InsertedLines(s.input) <= |job.keys| && CacheKeys(job, s) && Queued(job, s)
    requires s'.input.pos == s.input.pos && s'.input.stage == s.input.stage
    requires s'.cache == s.cache && s'.queue == s.queue && s'.output == s.output
    ensures CacheKeys(job, s') && Queued(job, s')
  {
  }

  lemma AnswerKeepsInv(job: Job, s: State, line: Line)
    requires Inv(job, s) && Allowed(job, s, Answers(line))
    ensures Inv(job, Moved(job, s, Answers(line)))
  {
    ValuesAnswer(job.keys, s.cache, s.child.answers, Filled(s.output), s.output.read, line);
    PrintedAnswer(job.keys, s.output.printed, s.child.answers, line);
    SameView(job, s, Moved(job, s, Answers(line)));
  }

  lemma FlushKeepsChildSees(job: Job, s: State, n: nat)
    requires ChildSees(job, s) && Allowed(job, s, Flushes(n))
    ensures ChildSees(job, Moved(job, s, Flushes(n)))
  {
    assert s.input.buffer == s.input.buffer[..n] + s.input.buffer[n..];
  }

  lemma FlushKeepsInv(job: Job, s: State, n: nat)
    requires Inv(job, s) && Allowed(job, s, Flushes(n))
    ensures Inv(job, Moved(job, s, Flushes(n)))
  {
    var s' := Moved(job, s, Flushes(n));
    FlushKeepsChildSees(job, s, n);
    SameView(job, s, s');
  }

  lemma OutputKeepsQueued(job: Job, s: State)
    requires ChildSees(job, s) && Queued(job, s) && Allowed(job, s, OutputMoves)
    ensures Queued(job, OutputNext(job, s))
  {
  }

  lemma OutputKeepsKeys(job: Job, s: State)
    requires ChildSees(job, s) && CacheKeys(job, s) && Allowed(job, s, OutputMoves)
    ensures ChildSees(job, OutputNext(job, s)) && CacheKeys(job, OutputNext(job, s))
  {
    var s' := OutputNext(job, s);
    assert s'.cache.Keys == s.cache.Keys;
  }

  lemma OutputKeepsValues(job: Job, s: State)
    requires s.output.stage.Checking? ==>
      |s.output.printed| < |job.keys| && s.output.stage.key == job.keys[|s.output.printed|]
    requires Values(job.keys, s.cache, s.child.answers, Filled(s.output), s.output.read) && Allowed(job, s, OutputMoves)
    ensures var s' := OutputNext(job, s);
      Values(job.keys, s'.cache, s'.child.answers, Filled(s'.output), s'.output.read)
  {
    if s.output.stage.Checking? {
      if s.cache[s.output.stage.key].None? {
        ValuesFill(job.keys, s.cache, s.child.answers, Filled(s.output), s.output.read);
      } else {
        ValuesHit(job.keys, s.cache, s.child.answers, Filled(s.output), s.output.read);
      }
    }
  }

  lemma OutputKeepsPrinted(job: Job, s: State)
    requires s.output.stage.Emitting? ==>
      |s.output.printed| < |job.keys| && s.output.stage.key == job.keys[|s.output.printed|]
    requires Values(job.keys, s.cache, s.child.answers, Filled(s.output), s.output.read) && Allowed(job, s, OutputMoves)
    requires Printed(job.keys, s.output.printed, s.child.answers)
    ensures var s' := OutputNext(job, s); Printed(job.keys, s'.output.printed, s'.child.answers)
  {
    if s.output.stage.Emitting? { assert RightAnswer(job.keys, s.cache, s.child.answers, |s.output.printed|); }
  }

  lemma OutputKeepsInv(job: Job, s: State)
    requires Inv(job, s) && Allowed(job, s, OutputMoves)
    ensures Inv(job, OutputNext(job, s))
  {
    OutputKeepsKeys(job, s);
    OutputKeepsQueued(job, s);
    OutputKeepsValues(job, s);
    OutputKeepsPrinted(job, s);
  }

  lemma {:induction false} RunKeepsInv(job: Job, states: seq<State>, moves: seq<Move>, i: nat)
    requires Run(job, states, moves) && i < |states|
    ensures Inv(job, states[i])
  {
    if i > 0 {
      RunKeepsInv(job, states, moves, i - 1);
      match moves[i - 1]
      case InputMoves => InputKeepsInv(job, states[i - 1]);
      case OutputMoves => OutputKeepsInv(job, states[i - 1]);
      case Answers(line) => AnswerKeepsInv(job, states[i - 1], line);
      case Flushes(n) => FlushKeepsInv(job, states[i - 1], n);
    }
  }

  // ---------------------------------------------------------- main results

  /** In every state of every run, the line printed for line j is the child's answer to the
      earliest line with the same key. */
  lemma PrintsAnswerToEarliest(job: Job, states: seq<State>, moves: seq<Move>, i: nat, j: nat)
    requires Run(job, states, moves) && i < |states| && j < |states[i].output.printed|
    ensures j < |job.keys| == |job.lines|
    ensures var s := states[i];
      var e := Earliest(job.keys, j);
      var r := Rank(job.keys, j);
      && r < |s.child.answers| <= |s.child.received|
      && s.child.received[r] == job.lines[e]
      && s.output.printed[j] == s.child.answers[r]
  {
    RunKeepsInv(job, states, moves, i);
    var s := states[i];
    FirstsAt(job, Earliest(job.keys, j), SentLines(s.input));
    var all := s.child.received + s.input.buffer;
    assert all[Rank(job.keys, j)] == s.child.received[Rank(job.keys, j)];
  }

  /** The child receives the first occurrences, in order and nothing else. */
  lemma ChildReceivesFirsts(job: Job, states: seq<State>, moves: seq<Move>, i: nat)
    requires Run(job, states, moves) && i < |states|
    ensures |job.lines| == |job.keys| && states[i].child.received <= Firsts(job, |job.lines|)
    ensures states[i].input.stage.Finished? ==> states[i].child.received == Firsts(job, |job.lines|)
  {
    RunKeepsInv(job, states, moves, i);
    var s := states[i];
    FirstsGrow(job, SentLines(s.input), |job.lines|);
    assert s.child.received <= s.child.received + s.input.buffer;
  }

  lemma {:induction false} FirstsGrow(job: Job, m: nat, n: nat)
    requires m <= n <= |job.lines| == |job.keys|
    ensures Firsts(job, m) <= Firsts(job, n)
  {
    if m < n { FirstsGrow(job, m, n - 1); }
  }

  /** When Output ends, it has printed one line for every input line. */
  lemma PrintsEveryLine(job: Job, states: seq<State>, moves: seq<Move>, i: nat)
    requires Run(job, states, moves) && i < |states| && states[i].output.stage.Ended?
    ensures |states[i].output.printed| == |job.lines|
  {
    RunKeepsInv(job, states, moves, i);
  }

  /** Until then something can move, or the child owes an answer. */
  lemma NoDeadlock(job: Job, states: seq<State>, moves: seq<Move>, i: nat)
    requires Run(job, states, moves) && i < |states|
    ensures var s := states[i];
      || s.output.stage.Ended? || Allowed(job, s, InputMoves) || Allowed(job, s, OutputMoves)
      || |s.child.answers| < |s.child.received|
  {
    RunKeepsInv(job, states, moves, i);
    var s := states[i];
    if s.output.stage.Emitting? { assert RightAnswer(job.keys, s.cache, s.child.answers, |s.output.printed|); }
    if s.input.stage.Finished? && s.output.stage.Checking? {
      NewCountGrows(job.keys, Filled(s.output), |job.keys|);
      if Unseen(job.keys, Filled(s.output), s.output.stage.key) {
        FirstsAt(job, Filled(s.output), |job.keys|);
      } else {
        var h :| 0 <= h < Filled(s.output) && job.keys[h] == s.output.stage.key;
        assert RightAnswer(job.keys, s.cache, s.child.answers, h);
      }
    }
  }

  lemma {:induction false} NewCountGrows(keys: seq<Key>, m: nat, n: nat)
    requires m <= n <= |keys|
    ensures NewCount(keys, m) <= NewCount(keys, n)
  {
    if m < n { NewCountGrows(keys, m, n - 1); }
  }

  // --------------------------------------------------------------- progress

  function InputSteps(lines: nat, i: Input): nat
    requires InsertedLines(i) <= lines
  {
    match i.stage
    case Reading => 10 * (lines - i.pos) + 10
    case Inserted(_) => 10 * (lines - i.pos) + 9
    case Sent => 10 * (lines - i.pos) + 7
    case Poisoning => 8
    case Finished => 0
  }

  function OutputSteps(o: OutputStage): nat
  {
    match o
    case Checking(_) => 2
    case Emitting(_) => 1
    case _ => 0
  }

  // At most so many moves are left, flushes aside.
  ghost function MovesLeft(job: Job, s: State): nat
    requires ChildSees(job, s)
  {
    InputSteps(|job.lines|, s.input) + |s.input.buffer| + (|s.child.received| - |s.child.answers|)
    + 4 * |s.queue| + OutputSteps(s.output.stage)
  }

  lemma MoveProgress(job: Job, s: State, m: Move)
    requires ChildSees(job, s) && Allowed(job, s, m) && ChildSees(job, Moved(job, s, m))
    ensures MovesLeft(job, Moved(job, s, m)) + (if m.Flushes? then 0 else 1) <= MovesLeft(job, s)
  {
  }

  function Proper(moves: seq<Move>): nat
  {
    if moves == [] then 0
    else Proper(moves[..|moves| - 1]) + (if moves[|moves| - 1].Flushes? then 0 else 1)
  }

  lemma {:induction false} RunProgress(job: Job, states: seq<State>, moves: seq<Move>, i: nat)
    requires Run(job, states, moves) && i < |states|
    ensures ChildSees(job, states[i]) && Proper(moves[..i]) + MovesLeft(job, states[i]) <= 10 * |job.lines| + 10
  {
    RunKeepsInv(job, states, moves, i);
    if i > 0 {
      RunProgress(job, states, moves, i - 1);
      assert moves[..i][..i - 1] == moves[..i - 1] && moves[..i][i - 1] == moves[i - 1];
      MoveProgress(job, states[i - 1], moves[i - 1]);
    }
  }

  /** No run goes on for ever: flushes aside, there are at most ten moves for each line and ten more. */
  lemma RunsAreBounded(job: Job, states: seq<State>, moves: seq<Move>)
    requires Run(job, states, moves)
    ensures Proper(moves) <= 10 * |job.lines| + 10
  {
    RunProgress(job, states, moves, |moves|);
    assert moves[..|moves|] == moves;
  }
}

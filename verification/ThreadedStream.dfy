/** BlockQueue and ThreadedBufferedStream (util/threaded_buffered_stream.hh): the thread that calls
    write and the thread that hands full blocks to the writer, over all interleavings. */
module ThreadedStreams {
  import opened Common

  const BLOCKS: nat := 3
  const BLOCK_SIZE: nat := 8192

  datatype Block = Block(base: seq<char>, size: nat)

  datatype Semaphores = Semaphores(output: nat, trash: nat)

  // What SpillBuffer and SuccessNext return to.
  datatype After = ThenWrite(rest: seq<char>) | ThenDirect(rest: seq<char>, amount: nat) | ThenPoison | ThenJoin

  datatype ProducerStage =
    | Ready                                  // between calls
    | Write(rest: seq<char>)                 // head of the loop of write
    | Direct(rest: seq<char>, amount: nat)   // Ensure(amount), then AdvanceTo
    | SetSize(next: After)                   // SpillBuffer has something to spill
    | Poison                                 // the destructor sets the size to zero
    | Advance(next: After)                   // SuccessNext
    | Post(next: After)
    | Wait(next: After)
    | Join
    | Closed

  datatype WriterStage = Await | Check | Emit | Step | Return | Flush | Done

  datatype Producer = Producer(cur: nat, used: nat, stage: ProducerStage)

  datatype Writer = Writer(cur: nat, stage: WriterStage)

  datatype Log = Log(
    written: seq<char>,        // all bytes handed to write or Ensure, in order
    sent: seq<seq<char>>,      // contents of every block given to the writer
    returned: nat,             // blocks the writer has gone past
    sink: seq<char>)           // what the writer received

  datatype State = State(blocks: seq<Block>, sem: Semaphores, producer: Producer, writer: Writer, log: Log)

  datatype Call = CallWrite(data: seq<char>) | CallDirect(data: seq<char>, amount: nat) | CallClose

  ghost predicate Init(s: State)
  {
    && |s.blocks| == BLOCKS && (forall b :: 0 <= b < BLOCKS ==> |s.blocks[b].base| == BLOCK_SIZE == s.blocks[b].size)
    && s.sem == Semaphores(0, BLOCKS - 1)
    && s.producer == Producer(0, 0, Ready) && s.writer == Writer(0, Await)
    && s.log == Log([], [], 0, [])
  }

  function Next(cur: nat): nat
  {
    if cur + 1 == BLOCKS then 0 else cur + 1
  }

  function Copied(b: Block, at: nat, data: seq<char>): Block
    requires at + |data| <= |b.base|
  {
    b.(base := b.base[..at] + data + b.base[at + |data|..])
  }

  // ---------------------------------------------------------------- steps

  // SpillBuffer, up to its first effect.
  function Spill(p: Producer, next: After): Producer
  {
    p.(stage := if p.used != 0 then SetSize(next) else Resumed(next))
  }

  function Resumed(next: After): ProducerStage
  {
    match next
    case ThenWrite(rest) => Write(rest)
    case ThenDirect(rest, amount) => Direct(rest, amount)
    case ThenPoison => Poison
    case ThenJoin => Join
  }

  predicate ProducerBlocked(s: State)
  {
    (s.producer.stage.Wait? && s.sem.trash == 0) || (s.producer.stage.Join? && !s.writer.stage.Done?)
  }

  predicate ProducerOk(s: State)
  {
    var p := s.producer;
    && p.cur < |s.blocks| && p.used <= BLOCK_SIZE == |s.blocks[p.cur].base|
    && (p.stage.Direct? ==> |p.stage.rest| <= p.stage.amount <= BLOCK_SIZE)
    && (p.stage.Advance? ==> s.blocks[p.cur].size <= BLOCK_SIZE)
  }

  function Begin(s: State, call: Call): State
    requires s.producer.stage.Ready? && (call.CallDirect? ==> |call.data| <= call.amount <= BLOCK_SIZE)
  {
    match call
    case CallWrite(data) =>
      s.(producer := s.producer.(stage := Write(data)), log := s.log.(written := s.log.written + data))
    case CallDirect(data, amount) =>
      s.(producer := s.producer.(stage := Direct(data, amount)), log := s.log.(written := s.log.written + data))
    case CallClose => s.(producer := Spill(s.producer, ThenPoison))
  }

  // memcpy at the current position.
  function Put(s: State, data: seq<char>, p: Producer): State
    requires ProducerOk(s) && s.producer.used + |data| <= BLOCK_SIZE
  {
    s.(blocks := s.blocks[s.producer.cur := Copied(s.blocks[s.producer.cur], s.producer.used, data)], producer := p)
  }

  function ProducerNext(s: State): State
    requires ProducerOk(s) && !ProducerBlocked(s)
  {
    var p := s.producer;
    var room := BLOCK_SIZE - p.used;
    match p.stage
    case Ready => s
    case Write(rest) =>
      if |rest| > room then Put(s, rest[..room], Producer(p.cur, BLOCK_SIZE, SetSize(ThenWrite(rest[room..]))))
      else Put(s, rest, Producer(p.cur, p.used + |rest|, Ready))
    case Direct(rest, amount) =>
      if amount > room then s.(producer := Spill(p, ThenDirect(rest, amount)))
      else Put(s, rest, Producer(p.cur, p.used + |rest|, Ready))
    case SetSize(next) =>
      s.(blocks := s.blocks[p.cur := s.blocks[p.cur].(size := p.used)], producer := p.(stage := Advance(next)))
    case Poison =>
      s.(blocks := s.blocks[p.cur := s.blocks[p.cur].(size := 0)], producer := p.(stage := Advance(ThenJoin)))
    case Advance(next) =>
      s.(producer := Producer(Next(p.cur), p.used, Post(next)),
         log := s.log.(sent := s.log.sent + [s.blocks[p.cur].base[..s.blocks[p.cur].size]]))
    case Post(next) => s.(producer := p.(stage := Wait(next)), sem := s.sem.(output := s.sem.output + 1))
    case Wait(next) => s.(producer := Producer(p.cur, 0, Resumed(next)), sem := s.sem.(trash := s.sem.trash - 1))
    case Join => s.(producer := p.(stage := Closed), sem := s.sem.(trash := s.sem.trash + 1))
    case Closed => s
  }

  predicate WriterBlocked(s: State)
  {
    s.writer.stage.Await? && s.sem.output == 0
  }

  predicate WriterOk(s: State)
  {
    s.writer.cur < |s.blocks| && s.blocks[s.writer.cur].size <= |s.blocks[s.writer.cur].base|
  }

  function WriterNext(s: State): State
    requires !WriterBlocked(s) && WriterOk(s)
  {
    var w := s.writer;
    match w.stage
    case Await => s.(writer := w.(stage := Check), sem := s.sem.(output := s.sem.output - 1))
    case Check => s.(writer := w.(stage := if s.blocks[w.cur].size != 0 then Emit else Flush))
    case Emit =>
      s.(writer := w.(stage := Step), log := s.log.(sink := s.log.sink + s.blocks[w.cur].base[..s.blocks[w.cur].size]))
    case Step => s.(writer := Writer(Next(w.cur), Return), log := s.log.(returned := s.log.returned + 1))
    case Return => s.(writer := w.(stage := Await), sem := s.sem.(trash := s.sem.trash + 1))
    case Flush => s.(writer := w.(stage := Done), sem := s.sem.(output := s.sem.output + 1))
    case Done => s
  }

  datatype Move = Calls(call: Call) | Produces | Writes

  predicate Allowed(s: State, m: Move)
  {
    match m
    case Calls(call) => s.producer.stage.Ready? && (call.CallDirect? ==> |call.data| <= call.amount <= BLOCK_SIZE)
    case Produces =>
      !s.producer.stage.Ready? && !s.producer.stage.Closed? && ProducerOk(s) && !ProducerBlocked(s)
    case Writes => !s.writer.stage.Done? && WriterOk(s) && !WriterBlocked(s)
  }

  function Moved(s: State, m: Move): State
    requires Allowed(s, m)
  {
    match m
    case Calls(call) => Begin(s, call)
    case Produces => ProducerNext(s)
    case Writes => WriterNext(s)
  }

  ghost predicate Run(states: seq<State>, moves: seq<Move>)
  {
    |states| == |moves| + 1 && Init(states[0])
    && forall i :: 0 <= i < |moves| ==> Allowed(states[i], moves[i]) && states[i + 1] == Moved(states[i], moves[i])
  }

  // ------------------------------------------------------------ invariants

  function One(b: bool): nat { if b then 1 else 0 }

  // The producer may touch its current block.
  predicate ProducerHolds(p: ProducerStage)
  {
    p.Ready? || p.Write? || p.Direct? || p.SetSize? || p.Poison? || p.Advance? || p.Join?
  }

  predicate WriterHolds(w: WriterStage)
  {
    w.Check? || w.Emit? || w.Step? || w.Flush?
  }

  predicate PoisonSent(p: ProducerStage)
  {
    ((p.Post? || p.Wait?) && p.next.ThenJoin?) || p.Join? || p.Closed?
  }

  /** Every block is free, full, held or on its way: three in all. */
  ghost predicate Tokens(s: State)
  {
    && s.sem.trash + s.sem.output + One(ProducerHolds(s.producer.stage)) + One(s.producer.stage.Post?)
       + One(WriterHolds(s.writer.stage)) + One(s.writer.stage.Return?) == BLOCKS
    && s.sem.output + One(s.producer.stage.Post?) + One(WriterHolds(s.writer.stage)) == |s.log.sent| - s.log.returned
  }

  ghost predicate Shape(s: State)
  {
    && |s.blocks| == BLOCKS
    && (forall b :: 0 <= b < BLOCKS ==> |s.blocks[b].base| == BLOCK_SIZE && s.blocks[b].size <= BLOCK_SIZE)
    && s.producer.cur == |s.log.sent| % BLOCKS && s.writer.cur == s.log.returned % BLOCKS
    && s.producer.used <= BLOCK_SIZE
    && (s.producer.stage.Direct? ==> |s.producer.stage.rest| <= s.producer.stage.amount <= BLOCK_SIZE)
  }

  predicate SizeReady(s: State)
    requires s.producer.cur < |s.blocks|
  {
    s.producer.stage.Advance? ==>
      s.blocks[s.producer.cur].size == if s.producer.stage.next.ThenJoin? then 0 else s.producer.used
  }

  predicate Stages(p: Producer)
  {
    && (p.stage.SetSize? ==> p.used > 0 && !p.stage.next.ThenJoin?)
    && (p.stage.Advance? && !p.stage.next.ThenJoin? ==> p.used > 0)
    && (p.stage.Poison? ==> p.used == 0)
    && (p.stage.Advance? && p.stage.next.ThenJoin? ==> p.used == 0)
    && ((p.stage.SetSize? || p.stage.Advance? || p.stage.Post? || p.stage.Wait?) && p.stage.next.ThenDirect? ==>
          |p.stage.next.rest| <= p.stage.next.amount <= BLOCK_SIZE)
  }

  /** The blocks on their way hold what was sent. */
  ghost predicate Carried(s: State)
    requires |s.blocks| == BLOCKS
  {
    forall k :: s.log.returned <= k < |s.log.sent| ==>
      s.blocks[k % BLOCKS].size == |s.log.sent[k]|
      && s.blocks[k % BLOCKS].size <= |s.blocks[k % BLOCKS].base|
      && s.blocks[k % BLOCKS].base[..s.blocks[k % BLOCKS].size] == s.log.sent[k]
  }

  /** Only the last block sent can be empty, and it is exactly when it is the poison. */
  ghost predicate OnePoison(s: State)
  {
    && (forall k :: 0 <= k < |s.log.sent| ==>
          (s.log.sent[k] == [] <==> k == |s.log.sent| - 1 && PoisonSent(s.producer.stage)))
    && (s.producer.stage.Closed? ==> s.writer.stage.Done?)
    && (PoisonSent(s.producer.stage) ==> s.log.returned < |s.log.sent|)
    && (s.writer.stage.Flush? || s.writer.stage.Done? ==>
          PoisonSent(s.producer.stage) && s.log.returned == |s.log.sent| - 1)
    && ((s.writer.stage.Emit? || s.writer.stage.Step?) && s.log.returned < |s.log.sent| ==>
          s.log.sent[s.log.returned] != [])
  }

  // Bytes in the current block that were not sent yet.
  function InBlock(s: State): seq<char>
    requires s.producer.cur < |s.blocks| && s.producer.used <= |s.blocks[s.producer.cur].base|
  {
    var p := s.producer;
    if p.stage.Post? || p.stage.Wait? || p.stage.Join? || p.stage.Closed? then [] else s.blocks[p.cur].base[..p.used]
  }

  function Rest(p: ProducerStage): seq<char>
  {
    match p
    case Write(rest) => rest
    case Direct(rest, _) => rest
    case SetSize(next) => RestAfter(next)
    case Advance(next) => RestAfter(next)
    case Post(next) => RestAfter(next)
    case Wait(next) => RestAfter(next)
    case _ => []
  }

  function RestAfter(next: After): seq<char>
  {
    if next.ThenWrite? || next.ThenDirect? then next.rest else []
  }

  /** Nothing handed to write is lost, doubled or moved. */
  ghost predicate Bytes(s: State)
    requires s.producer.cur < |s.blocks| && s.producer.used <= |s.blocks[s.producer.cur].base|
  {
    s.log.written == Flat(s.log.sent) + (InBlock(s) + Rest(s.producer.stage))
  }

  ghost predicate Received(s: State)
  {
    var n := s.log.returned + One(s.writer.stage.Step?);
    n <= |s.log.sent| && s.log.sink == Flat(s.log.sent[..n])
  }

  ghost predicate Inv(s: State)
  {
    Shape(s) && Tokens(s) && Stages(s.producer) && SizeReady(s) && Carried(s) && OnePoison(s) && Bytes(s) && Received(s)
  }

  lemma InitInv(s: State)
    requires Init(s)
    ensures Inv(s)
  {
  }

  // ------------------------------------------------------------ the producer

  lemma NextSpot(k: nat)
    ensures Next(k % BLOCKS) == (k + 1) % BLOCKS
  {
  }

  lemma CopiedPrefix(b: Block, at: nat, data: seq<char>)
    requires at + |data| <= |b.base|
    ensures |Copied(b, at, data).base| == |b.base|
    ensures Copied(b, at, data).base[..at + |data|] == b.base[..at] + data
  {
  }

  lemma ProducerKeepsShape(s: State)
    requires Shape(s) && Stages(s.producer) && Allowed(s, Produces)
    ensures Shape(ProducerNext(s))
  {
    NextSpot(|s.log.sent|);
  }

  lemma ProducerKeepsStages(s: State)
    requires Shape(s) && Stages(s.producer) && Allowed(s, Produces)
    ensures Stages(ProducerNext(s).producer)
  {
  }

  lemma ProducerKeepsSize(s: State)
    requires Shape(s) && Stages(s.producer) && SizeReady(s) && Allowed(s, Produces)
    ensures Shape(ProducerNext(s)) ==> SizeReady(ProducerNext(s))
  {
  }

  lemma ProducerKeepsTokens(s: State)
    requires Tokens(s) && Allowed(s, Produces)
    ensures Tokens(ProducerNext(s))
  {
  }

  lemma SpotsApart(j: nat, k: nat)
    requires j < k < j + BLOCKS
    ensures j % BLOCKS != k % BLOCKS
  {
  }

  // The block the producer holds carries nothing that was sent.
  lemma HeldIsFree(s: State)
    requires Shape(s) && Tokens(s) && ProducerHolds(s.producer.stage)
    ensures forall k :: s.log.returned <= k < |s.log.sent| ==> k % BLOCKS != s.producer.cur
  {
    forall k | s.log.returned <= k < |s.log.sent| ensures k % BLOCKS != s.producer.cur { SpotsApart(k, |s.log.sent|); }
  }

  // Changing a block that carries nothing.
  lemma CarriedElsewhere(s: State, b: nat, block: Block)
    requires |s.blocks| == BLOCKS && Carried(s) && b < BLOCKS
    requires forall k :: s.log.returned <= k < |s.log.sent| ==> k % BLOCKS != b
    ensures Carried(s.(blocks := s.blocks[b := block]))
  {
  }

  lemma ProducerKeepsCarried(s: State)
    requires Shape(s) && Tokens(s) && Carried(s) && SizeReady(s) && Allowed(s, Produces)
    ensures Shape(ProducerNext(s)) ==> Carried(ProducerNext(s))
  {
    var p, s' := s.producer, ProducerNext(s);
    if ProducerHolds(p.stage) && !p.stage.Advance? {
      HeldIsFree(s);
      CarriedElsewhere(s, p.cur, s'.blocks[p.cur]);
      assert s'.blocks == s.blocks[p.cur := s'.blocks[p.cur]];
    }
  }

  lemma ProducerKeepsPoison(s: State)
    requires Shape(s) && Tokens(s) && Stages(s.producer) && SizeReady(s) && OnePoison(s) && Allowed(s, Produces)
    ensures OnePoison(ProducerNext(s))
  {
  }

  lemma ProducerKeepsReceived(s: State)
    requires Tokens(s) && Received(s) && Allowed(s, Produces)
    ensures Received(ProducerNext(s))
  {
    var n := s.log.returned + One(s.writer.stage.Step?);
    assert ProducerNext(s).log.sent[..n] == s.log.sent[..n];
  }

  lemma PutKeepsBytes(s: State, data: seq<char>, p: Producer, later: seq<char>)
    requires Shape(s) && ProducerOk(s) && s.producer.used + |data| <= BLOCK_SIZE
    requires !(s.producer.stage.Post? || s.producer.stage.Wait? || s.producer.stage.Join? || s.producer.stage.Closed?)
    requires !(p.stage.Post? || p.stage.Wait? || p.stage.Join? || p.stage.Closed?)
    requires p.cur == s.producer.cur && p.used == s.producer.used + |data| && Rest(p.stage) == later
    requires Bytes(s) && Rest(s.producer.stage) == data + later
    ensures var s' := Put(s, data, p); s'.producer.cur < |s'.blocks| && p.used <= |s'.blocks[p.cur].base| && Bytes(s')
  {
    CopiedPrefix(s.blocks[p.cur], s.producer.used, data);
    assert (InBlock(s) + data) + later == InBlock(s) + (data + later);
  }

  lemma RegroupEmpty(a: seq<char>, b: seq<char>, c: seq<char>)
    ensures a + (b + c) == (a + b) + ([] + c)
  {
  }

  lemma AdvanceKeepsBytes(s: State)
    requires Shape(s) && Stages(s.producer) && SizeReady(s) && Bytes(s) && Allowed(s, Produces)
    requires s.producer.stage.Advance?
    ensures Shape(ProducerNext(s)) ==> Bytes(ProducerNext(s))
  {
    var block := s.blocks[s.producer.cur];
    assert block.base[..block.size] == InBlock(s);
    FlatSnoc(s.log.sent, InBlock(s));
    RegroupEmpty(Flat(s.log.sent), InBlock(s), Rest(s.producer.stage));
  }

  lemma WriteKeepsBytes(s: State)
    requires Shape(s) && Bytes(s) && Allowed(s, Produces) && s.producer.stage.Write?
    ensures Shape(ProducerNext(s)) ==> Bytes(ProducerNext(s))
  {
    var rest, room := s.producer.stage.rest, BLOCK_SIZE - s.producer.used;
    var n := if |rest| > room then room else |rest|;
    assert rest == rest[..n] + rest[n..];
    assert n == |rest| ==> rest[..n] == rest;
    PutKeepsBytes(s, rest[..n], ProducerNext(s).producer, rest[n..]);
  }

  lemma DirectKeepsBytes(s: State)
    requires Shape(s) && Bytes(s) && Allowed(s, Produces) && s.producer.stage.Direct?
    ensures Shape(ProducerNext(s)) ==> Bytes(ProducerNext(s))
  {
    var rest := s.producer.stage.rest;
    if s.producer.stage.amount <= BLOCK_SIZE - s.producer.used {
      assert rest == rest + [];
      PutKeepsBytes(s, rest, ProducerNext(s).producer, []);
    }
  }

  lemma ProducerKeepsBytes(s: State)
    requires Shape(s) && Stages(s.producer) && SizeReady(s) && Bytes(s) && Allowed(s, Produces)
    ensures Shape(ProducerNext(s)) ==> Bytes(ProducerNext(s))
  {
    match s.producer.stage {
      case Write(_) => WriteKeepsBytes(s);
      case Direct(_, _) => DirectKeepsBytes(s);
      case Advance(_) => AdvanceKeepsBytes(s);
      case _ =>
    }
  }

  // -------------------------------------------------------------- the writer

  lemma WriterKeepsShape(s: State)
    requires Shape(s) && Allowed(s, Writes)
    ensures Shape(WriterNext(s))
  {
    NextSpot(s.log.returned);
  }

  lemma WriterKeepsTokens(s: State)
    requires Tokens(s) && Allowed(s, Writes)
    ensures Tokens(WriterNext(s))
  {
  }

  lemma WriterKeepsPoison(s: State)
    requires Shape(s) && Tokens(s) && Carried(s) && OnePoison(s) && Allowed(s, Writes)
    ensures OnePoison(WriterNext(s))
  {
  }

  // What the writer takes from its block is the next block sent.
  lemma EmitTakesNext(s: State)
    requires Shape(s) && Tokens(s) && Carried(s) && WriterHolds(s.writer.stage)
    ensures s.log.returned < |s.log.sent|
    ensures var b := s.blocks[s.writer.cur]; b.size <= |b.base| && b.base[..b.size] == s.log.sent[s.log.returned]
  {
  }

  lemma FlatNext(sent: seq<seq<char>>, r: nat)
    requires r < |sent|
    ensures Flat(sent[..r + 1]) == Flat(sent[..r]) + sent[r]
  {
    assert sent[..r + 1] == sent[..r] + [sent[r]];
    FlatSnoc(sent[..r], sent[r]);
  }

  lemma WriterKeepsReceived(s: State)
    requires Shape(s) && Tokens(s) && Carried(s) && Received(s) && Allowed(s, Writes)
    ensures Received(WriterNext(s))
  {
    if s.writer.stage.Emit? {
      EmitTakesNext(s);
      FlatNext(s.log.sent, s.log.returned);
    }
  }

  lemma WriterKeepsInv(s: State)
    requires Inv(s) && Allowed(s, Writes)
    ensures Inv(WriterNext(s))
  {
    WriterKeepsShape(s);
    WriterKeepsTokens(s);
    WriterKeepsPoison(s);
    WriterKeepsReceived(s);
  }

  lemma ProducerKeepsInv(s: State)
    requires Inv(s) && Allowed(s, Produces)
    ensures Inv(ProducerNext(s))
  {
    ProducerKeepsShape(s);
    ProducerKeepsStages(s);
    ProducerKeepsSize(s);
    ProducerKeepsTokens(s);
    ProducerKeepsCarried(s);
    ProducerKeepsPoison(s);
    ProducerKeepsBytes(s);
    ProducerKeepsReceived(s);
  }

  lemma BeginKeepsBytes(s: State, call: Call)
    requires Shape(s) && Bytes(s) && Allowed(s, Calls(call))
    ensures Bytes(Begin(s, call))
  {
    if !call.CallClose? {
      assert (Flat(s.log.sent) + (InBlock(s) + [])) + call.data == Flat(s.log.sent) + (InBlock(s) + call.data);
    }
  }

  lemma BeginKeepsShape(s: State, call: Call)
    requires Shape(s) && Stages(s.producer) && Carried(s) && Allowed(s, Calls(call))
    ensures var s' := Begin(s, call); Shape(s') && Stages(s'.producer) && SizeReady(s') && Carried(s')
  {
  }

  lemma BeginKeepsTokens(s: State, call: Call)
    requires Tokens(s) && OnePoison(s) && Received(s) && Allowed(s, Calls(call))
    ensures var s' := Begin(s, call); Tokens(s') && OnePoison(s') && Received(s')
  {
  }

  lemma BeginKeepsInv(s: State, call: Call)
    requires Inv(s) && Allowed(s, Calls(call))
    ensures Inv(Begin(s, call))
  {
    BeginKeepsShape(s, call);
    BeginKeepsTokens(s, call);
    BeginKeepsBytes(s, call);
  }

  lemma {:induction false} RunKeepsInv(states: seq<State>, moves: seq<Move>, i: nat)
    requires Run(states, moves) && i < |states|
    ensures Inv(states[i])
  {
    if i == 0 {
      InitInv(states[0]);
    } else {
      RunKeepsInv(states, moves, i - 1);
      match moves[i - 1]
      case Calls(call) => BeginKeepsInv(states[i - 1], call);
      case Produces => ProducerKeepsInv(states[i - 1]);
      case Writes => WriterKeepsInv(states[i - 1]);
    }
  }

  // -------------------------------------------------------------- the calls

  // What the calls were given, in order.
  function Given(moves: seq<Move>): seq<char>
  {
    if moves == [] then [] else Given(moves[..|moves| - 1]) + DataOf(moves[|moves| - 1])
  }

  function DataOf(m: Move): seq<char>
  {
    if m.Calls? && !m.call.CallClose? then m.call.data else []
  }

  lemma {:induction false} WrittenIsGiven(states: seq<State>, moves: seq<Move>, i: nat)
    requires Run(states, moves) && i < |states|
    ensures states[i].log.written == Given(moves[..i])
  {
    if i > 0 {
      WrittenIsGiven(states, moves, i - 1);
      assert moves[..i][..i - 1] == moves[..i - 1] && moves[..i][i - 1] == moves[i - 1];
      StepWrites(states[i - 1], moves[i - 1]);
    }
  }

  lemma StepWrites(s: State, m: Move)
    requires Allowed(s, m)
    ensures Moved(s, m).log.written == s.log.written + DataOf(m)
  {
  }

  // --------------------------------------------------------------- progress

  // Steps left once SpillBuffer or SuccessNext has returned.
  function StepsAfter(next: After): nat
  {
    match next
    case ThenWrite(rest) => 10 * |rest| + 1
    case ThenDirect(_, _) => 1
    case ThenPoison => 5
    case ThenJoin => 1
  }

  // At most so many steps until the call returns.
  function ProducerSteps(p: Producer): nat
  {
    match p.stage
    case Ready => 0
    case Write(rest) => 10 * |rest| + 1 + (if p.used == BLOCK_SIZE then 5 else 0)
    case Direct(_, _) => if p.used == 0 then 1 else 6
    case SetSize(next) => StepsAfter(next) + 4
    case Poison => 5
    case Advance(next) => StepsAfter(next) + 3
    case Post(next) => StepsAfter(next) + 2
    case Wait(next) => StepsAfter(next) + 1
    case Join => 1
    case Closed => 0
  }

  function WriterWeight(w: WriterStage): nat
  {
    match w
    case Await => 30
    case Check => 49
    case Emit => 48
    case Step => 47
    case Return => 46
    case Flush => 48
    case Done => 0
  }

  // At most so many steps of the two threads until the next call.
  function StepsLeft(s: State): nat
  {
    21 * ProducerSteps(s.producer) + 20 * s.sem.output + WriterWeight(s.writer.stage)
  }

  lemma WriteProgress(s: State)
    requires Inv(s) && Allowed(s, Produces) && s.producer.stage.Write?
    ensures ProducerSteps(ProducerNext(s).producer) < ProducerSteps(s.producer)
  {
    var rest, room := s.producer.stage.rest, BLOCK_SIZE - s.producer.used;
    if |rest| > room { assert |rest[room..]| == |rest| - room; }
  }

  lemma OtherProgress(s: State)
    requires Shape(s) && Stages(s.producer) && Allowed(s, Produces) && !s.producer.stage.Write?
    ensures ProducerSteps(ProducerNext(s).producer) < ProducerSteps(s.producer)
  {
  }

  lemma ProducerLeavesWriter(s: State)
    requires Allowed(s, Produces)
    ensures ProducerNext(s).sem.output <= s.sem.output + 1 && ProducerNext(s).writer == s.writer
  {
  }

  lemma StepProgress(s: State, m: Move)
    requires Inv(s) && Allowed(s, m) && !m.Calls?
    ensures StepsLeft(Moved(s, m)) < StepsLeft(s)
  {
    if m.Produces? {
      ProducerLeavesWriter(s);
      if s.producer.stage.Write? { WriteProgress(s); } else { OtherProgress(s); }
    }
  }

  // ---------------------------------------------------------- main results

  /** Between two calls the threads take at most StepsLeft steps: none goes on for ever. */
  lemma {:induction false} StepsAreBounded(states: seq<State>, moves: seq<Move>, i: nat, j: nat)
    requires Run(states, moves) && i <= j < |states| && forall k :: i <= k < j ==> !moves[k].Calls?
    ensures j - i + StepsLeft(states[j]) <= StepsLeft(states[i])
    decreases j - i
  {
    if i < j {
      RunKeepsInv(states, moves, i);
      StepProgress(states[i], moves[i]);
      StepsAreBounded(states, moves, i + 1, j);
    }
  }

  /** Once the stream is closed, the writer has received exactly what the calls were given, in order. */
  lemma WriterReceivesEverything(states: seq<State>, moves: seq<Move>, i: nat)
    requires Run(states, moves) && i < |states|
    ensures states[i].producer.stage.Closed? ==> states[i].log.sink == Given(moves[..i])
  {
    RunKeepsInv(states, moves, i);
    WrittenIsGiven(states, moves, i);
    var sent := states[i].log.sent;
    if states[i].producer.stage.Closed? { assert Flat(sent) == Flat(sent[..|sent| - 1]) + []; }
  }

  /** Before that, what it has received is a prefix of it. */
  lemma WriterReceivesPrefix(states: seq<State>, moves: seq<Move>, i: nat)
    requires Run(states, moves) && i < |states|
    ensures states[i].log.sink <= Given(moves[..i])
  {
    RunKeepsInv(states, moves, i);
    WrittenIsGiven(states, moves, i);
    var s := states[i];
    FlatPrefix(s.log.sent, s.log.returned + One(s.writer.stage.Step?));
  }

  lemma {:induction false} FlatBound(sent: seq<seq<char>>, n: nat)
    requires n <= |sent| && forall k :: n <= k < |sent| ==> |sent[k]| <= BLOCK_SIZE
    ensures |Flat(sent)| <= |Flat(sent[..n])| + BLOCK_SIZE * (|sent| - n)
    decreases |sent| - n
  {
    if n == |sent| {
      assert sent[..n] == sent;
    } else {
      FlatNext(sent, n);
      FlatBound(sent, n + 1);
    }
  }

  /** Between two calls at most three blocks of 8192 bytes are held back. */
  lemma HeldBack(states: seq<State>, moves: seq<Move>, i: nat)
    requires Run(states, moves) && i < |states| && states[i].producer.stage.Ready?
    ensures |Given(moves[..i])| <= |states[i].log.sink| + 3 * 8192
  {
    RunKeepsInv(states, moves, i);
    WrittenIsGiven(states, moves, i);
    var s := states[i];
    FlatBound(s.log.sent, s.log.returned + One(s.writer.stage.Step?));
  }

  /** The two threads never hold the same block, and a size of zero is read only at the poison. */
  lemma BlocksAreNotShared(states: seq<State>, moves: seq<Move>, i: nat)
    requires Run(states, moves) && i < |states|
    ensures var s := states[i];
      && (ProducerHolds(s.producer.stage) && WriterHolds(s.writer.stage) ==> s.producer.cur != s.writer.cur)
      && ProducerOk(s) && WriterOk(s)
      && (WriterHolds(s.writer.stage) ==>
            (s.blocks[s.writer.cur].size == 0 <==> PoisonSent(s.producer.stage) && s.log.returned == |s.log.sent| - 1))
  {
    RunKeepsInv(states, moves, i);
  }

  /** No reachable state deadlocks, shutdown included. */
  lemma NoDeadlock(states: seq<State>, moves: seq<Move>, i: nat)
    requires Run(states, moves) && i < |states|
    ensures var s := states[i];
      || s.producer.stage.Ready?
      || Allowed(s, Produces) || Allowed(s, Writes)
      || (s.producer.stage.Closed? && s.writer.stage.Done?)
  {
    RunKeepsInv(states, moves, i);
  }

  // The destructor is at work, or was.
  predicate Closing(p: ProducerStage)
  {
    match p
    case SetSize(next) => next.ThenPoison?
    case Advance(next) => next.ThenPoison? || next.ThenJoin?
    case Post(next) => next.ThenPoison? || next.ThenJoin?
    case Wait(next) => next.ThenPoison? || next.ThenJoin?
    case Poison | Join | Closed => true
    case _ => false
  }

  lemma {:induction false} StaysClosing(states: seq<State>, moves: seq<Move>, c: nat, i: nat)
    requires Run(states, moves) && c < i < |states| && moves[c] == Calls(CallClose)
    ensures Closing(states[i].producer.stage)
    decreases i - c
  {
    if c + 1 < i { StaysClosing(states, moves, c, i - 1); }
  }

  /** After the destructor was called and both threads have come to rest, the stream is closed and the
      writer has received exactly what the calls were given. */
  lemma CloseDelivers(states: seq<State>, moves: seq<Move>, c: nat, i: nat)
    requires Run(states, moves) && c < i < |states| && moves[c] == Calls(CallClose)
    requires !Allowed(states[i], Produces) && !Allowed(states[i], Writes)
    ensures states[i].producer.stage.Closed? && states[i].writer.stage.Done?
    ensures states[i].log.sink == Given(moves[..i])
  {
    StaysClosing(states, moves, c, i);
    NoDeadlock(states, moves, i);
    WriterReceivesEverything(states, moves, i);
  }
}

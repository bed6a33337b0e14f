/** PCQueue (util/pcqueue.hh:120-230): a ring shared by any number of producers and consumers,
    as a step relation over all interleavings. */
module PCQueues {
  import opened Common

  // Where a thread stands inside Produce or Consume.
  datatype Stage =
    | Begin       // about to wait on the semaphore
    | Token       // waited, not yet locked
    | Locked      // holds the mutex, value not yet copied
    | Copied      // value copied, pointer not yet advanced
    | Advanced    // pointer advanced, mutex still held
    | Unlocked    // mutex released, other semaphore not yet posted
    | Failed      // the copy threw
    | Reposted    // the token was given back, mutex still held

  datatype Task<T> =
    | Idle
    | Producing(stage: Stage, val: T)
    | Consuming(stage: Stage, val: T, swap: bool)

  datatype Logged<T> = Logged(thread: nat, val: T)

  datatype Ring<T> = Ring(slots: seq<T>, produceAt: nat, consumeAt: nat)

  datatype Semaphores = Semaphores(empty: nat, used: nat)

  datatype Mutexes = Mutexes(produce: Option<nat>, consume: Option<nat>)

  datatype Log<T> = Log(
    stored: seq<Logged<T>>,       // every value put in the ring, in order
    taken: seq<Logged<T>>,        // every value taken out, in order
    produced: seq<seq<T>>,        // per thread: values of Produce calls that returned
    received: seq<seq<T>>)        // per thread: results of Consume calls that returned

  datatype State<T> = State(ring: Ring<T>, sem: Semaphores, lock: Mutexes, tasks: seq<Task<T>>, log: Log<T>)

  // ---------------------------------------------------------------- steps

  ghost predicate Init<T>(s: State<T>)
  {
    && s.ring.produceAt == 0 && s.ring.consumeAt == 0
    && s.sem == Semaphores(|s.ring.slots|, 0) && s.lock == Mutexes(None, None)
    && s.log.stored == [] && s.log.taken == []
    && |s.log.produced| == |s.log.received| == |s.tasks|
    && forall t :: 0 <= t < |s.tasks| ==> s.tasks[t] == Idle && s.log.produced[t] == [] && s.log.received[t] == []
  }

  function Forward(at: nat, n: nat): nat
  {
    if at + 1 == n then 0 else at + 1
  }

  // A call in progress that is not blocked.
  predicate Enabled<T>(s: State<T>, t: nat)
  {
    t < |s.tasks| && !s.tasks[t].Idle? &&
    match s.tasks[t].stage
    case Begin => if s.tasks[t].Producing? then s.sem.empty > 0 else s.sem.used > 0
    case Token => if s.tasks[t].Producing? then s.lock.produce == None else s.lock.consume == None
    case _ => true
  }

  predicate ProduceEnabled<T>(s: State<T>, t: nat)
  {
    Enabled(s, t) && s.tasks[t].Producing? && t < |s.log.produced|
    && (s.tasks[t].stage == Locked ==> s.ring.produceAt < |s.ring.slots|)
  }

  // One step of Produce or ProduceSwap.
  function ProduceNext<T>(s: State<T>, t: nat): State<T>
    requires ProduceEnabled(s, t)
  {
    var v, ring, sem := s.tasks[t].val, s.ring, s.sem;
    match s.tasks[t].stage
    case Begin => s.(tasks := s.tasks[t := Producing(Token, v)], sem := sem.(empty := sem.empty - 1))
    case Token => s.(tasks := s.tasks[t := Producing(Locked, v)], lock := s.lock.(produce := Some(t)))
    case Locked =>
      s.(tasks := s.tasks[t := Producing(Copied, v)], ring := ring.(slots := ring.slots[ring.produceAt := v]))
    case Copied =>
      s.(tasks := s.tasks[t := Producing(Advanced, v)],
         ring := ring.(produceAt := Forward(ring.produceAt, |ring.slots|)),
         log := s.log.(stored := s.log.stored + [Logged(t, v)]))
    case Advanced => s.(tasks := s.tasks[t := Producing(Unlocked, v)], lock := s.lock.(produce := None))
    case Unlocked =>
      s.(tasks := s.tasks[t := Idle], sem := sem.(used := sem.used + 1),
         log := s.log.(produced := s.log.produced[t := s.log.produced[t] + [v]]))
    case Failed => s.(tasks := s.tasks[t := Producing(Reposted, v)], sem := sem.(empty := sem.empty + 1))
    case Reposted => s.(tasks := s.tasks[t := Idle], lock := s.lock.(produce := None))
  }

  predicate ConsumeEnabled<T>(s: State<T>, t: nat)
  {
    Enabled(s, t) && s.tasks[t].Consuming? && t < |s.log.received|
    && (s.tasks[t].stage == Locked ==> s.ring.consumeAt < |s.ring.slots|)
  }

  // One step of Consume or ConsumeSwap; the swap leaves the caller's old value in the slot.
  function ConsumeNext<T>(s: State<T>, t: nat): State<T>
    requires ConsumeEnabled(s, t)
  {
    var v, swap, ring, sem := s.tasks[t].val, s.tasks[t].swap, s.ring, s.sem;
    match s.tasks[t].stage
    case Begin => s.(tasks := s.tasks[t := Consuming(Token, v, swap)], sem := sem.(used := sem.used - 1))
    case Token => s.(tasks := s.tasks[t := Consuming(Locked, v, swap)], lock := s.lock.(consume := Some(t)))
    case Locked =>
      s.(tasks := s.tasks[t := Consuming(Copied, ring.slots[ring.consumeAt], swap)],
         ring := if swap then ring.(slots := ring.slots[ring.consumeAt := v]) else ring)
    case Copied =>
      s.(tasks := s.tasks[t := Consuming(Advanced, v, swap)],
         ring := ring.(consumeAt := Forward(ring.consumeAt, |ring.slots|)),
         log := s.log.(taken := s.log.taken + [Logged(t, v)]))
    case Advanced => s.(tasks := s.tasks[t := Consuming(Unlocked, v, swap)], lock := s.lock.(consume := None))
    case Unlocked =>
      s.(tasks := s.tasks[t := Idle], sem := sem.(empty := sem.empty + 1),
         log := s.log.(received := s.log.received[t := s.log.received[t] + [v]]))
    case Failed => s.(tasks := s.tasks[t := Consuming(Reposted, v, swap)], sem := sem.(used := sem.used + 1))
    case Reposted => s.(tasks := s.tasks[t := Idle], lock := s.lock.(consume := None))
  }

  // The copy throws: nothing was changed.
  ghost predicate ThrowStep<T>(s: State<T>, s': State<T>, t: nat)
  {
    t < |s.tasks| && !s.tasks[t].Idle? && s.tasks[t].stage == Locked
    && s' == s.(tasks := s.tasks[t := s.tasks[t].(stage := Failed)])
  }

  ghost predicate ProduceStep<T>(s: State<T>, s': State<T>, t: nat)
  {
    ProduceEnabled(s, t) && s' == ProduceNext(s, t)
  }

  ghost predicate ConsumeStep<T>(s: State<T>, s': State<T>, t: nat)
  {
    ConsumeEnabled(s, t) && s' == ConsumeNext(s, t)
  }

  predicate Starting<T>(task: Task<T>)
  {
    !task.Idle? && task.stage == Begin
  }

  ghost predicate CallStep<T>(s: State<T>, s': State<T>, t: nat, task: Task<T>)
  {
    t < |s.tasks| && s.tasks[t] == Idle && Starting(task) && s' == s.(tasks := s.tasks[t := task])
  }

  datatype Event<T> =
    | Calls(thread: nat, task: Task<T>)        // Produce or Consume is called
    | Throws(thread: nat, producing: bool)     // the copy throws
    | Goes(thread: nat)                        // the call goes on

  ghost predicate Step<T>(s: State<T>, s': State<T>, e: Event<T>)
  {
    match e
    case Calls(t, task) => CallStep(s, s', t, task)
    case Throws(t, producing) => ThrowStep(s, s', t) && s.tasks[t].Producing? == producing
    case Goes(t) => ProduceStep(s, s', t) || ConsumeStep(s, s', t)
  }

  // A run: any number of threads, any interleaving, any calls.
  ghost predicate Run<T>(states: seq<State<T>>, events: seq<Event<T>>)
  {
    && |states| == |events| + 1 && Init(states[0])
    && forall i :: 0 <= i < |events| ==> Step(states[i], states[i + 1], events[i])
  }

  // ------------------------------------------------------------ invariants

  // Which token a thread holds.
  datatype Kind = Nothing | TakenEmpty | OwedUsed | TakenUsed | OwedEmpty

  function KindOf<T>(task: Task<T>): Kind
  {
    match task
    case Idle => Nothing
    case Producing(stage, _) =>
      (match stage
       case Token | Locked | Copied | Failed => TakenEmpty
       case Advanced | Unlocked => OwedUsed
       case Begin | Reposted => Nothing)
    case Consuming(stage, _, _) =>
      (match stage
       case Token | Locked | Copied | Failed => TakenUsed
       case Advanced | Unlocked => OwedEmpty
       case Begin | Reposted => Nothing)
  }

  function Count<T>(tasks: seq<Task<T>>, kind: Kind): nat
  {
    if tasks == [] then 0
    else Count(tasks[..|tasks| - 1], kind) + (if KindOf(tasks[|tasks| - 1]) == kind then 1 else 0)
  }

  lemma {:induction false} CountUpdate<T>(tasks: seq<Task<T>>, t: nat, task: Task<T>, kind: Kind)
    requires t < |tasks|
    ensures Count(tasks[t := task], kind)
         == Count(tasks, kind) - (if KindOf(tasks[t]) == kind then 1 else 0) + (if KindOf(task) == kind then 1 else 0)
    ensures KindOf(tasks[t]) == kind ==> Count(tasks, kind) > 0
  {
    var n := |tasks| - 1;
    var after := tasks[t := task];
    if t == n {
      assert after[..n] == tasks[..n];
    } else {
      CountUpdate(tasks[..n], t, task, kind);
      assert after[..n] == tasks[..n][t := task];
    }
  }

  lemma {:induction false} CountNone<T>(tasks: seq<Task<T>>, kind: Kind)
    requires forall t :: 0 <= t < |tasks| ==> KindOf(tasks[t]) != kind
    ensures Count(tasks, kind) == 0
  {
    if tasks != [] { CountNone(tasks[..|tasks| - 1], kind); }
  }

  /** Semaphore counts and in-flight operations add up to the capacity, and those that stand for
      a stored value add up to the number of values stored and not yet taken. */
  ghost predicate Counts<T>(s: State<T>)
  {
    && s.sem.empty + Count(s.tasks, TakenEmpty) + Count(s.tasks, OwedEmpty)
       + s.sem.used + Count(s.tasks, TakenUsed) + Count(s.tasks, OwedUsed) == |s.ring.slots|
    && s.sem.used + Count(s.tasks, TakenUsed) + Count(s.tasks, OwedUsed) == |s.log.stored| - |s.log.taken|
  }

  predicate InProduceLock<T>(task: Task<T>)
  {
    task.Producing? && task.stage in {Locked, Copied, Advanced, Failed, Reposted}
  }

  predicate InConsumeLock<T>(task: Task<T>)
  {
    task.Consuming? && task.stage in {Locked, Copied, Advanced, Failed, Reposted}
  }

  ghost predicate Locks<T>(s: State<T>)
  {
    && (s.lock.produce.Some? ==> s.lock.produce.value < |s.tasks|)
    && (s.lock.consume.Some? ==> s.lock.consume.value < |s.tasks|)
    && forall t :: 0 <= t < |s.tasks| ==>
      && (InProduceLock(s.tasks[t]) <==> s.lock.produce == Some(t))
      && (InConsumeLock(s.tasks[t]) <==> s.lock.consume == Some(t))
  }

  // The slot of the k-th value.
  function Slot(k: nat, n: nat): nat
  {
    if k == 0 then 0 else Forward(Slot(k - 1, n), n)
  }

  lemma {:induction false} SlotIn(k: nat, n: nat)
    requires n > 0
    ensures Slot(k, n) < n
  {
    if k > 0 { SlotIn(k - 1, n); }
  }

  lemma {:induction false} SlotPlus(k: nat, d: nat, n: nat)
    requires d < n
    ensures Slot(k + d, n) == if Slot(k, n) + d < n then Slot(k, n) + d else Slot(k, n) + d - n
  {
    SlotIn(k, n);
    if d > 0 { SlotPlus(k, d - 1, n); }
  }

  lemma SlotsApart(j: nat, k: nat, n: nat)
    requires j < k < j + n
    ensures Slot(j, n) != Slot(k, n)
  {
    SlotPlus(j, k - j, n);
  }

  // A consumer has copied the oldest value, and may have left its own in the slot.
  predicate Copying<T>(s: State<T>)
  {
    s.lock.consume.Some? && s.lock.consume.value < |s.tasks|
    && s.tasks[s.lock.consume.value].Consuming? && s.tasks[s.lock.consume.value].stage == Copied
  }

  /** The ring holds the values stored and not yet taken, each in its own slot. */
  ghost predicate Holds<T>(ring: Ring<T>, log: Log<T>, copying: bool)
  {
    var n, w, r := |ring.slots|, |log.stored|, |log.taken|;
    && ring.produceAt == Slot(w, n) && ring.consumeAt == Slot(r, n) && r <= w <= r + n
    && (n > 0 ==> ring.produceAt < n && ring.consumeAt < n)
    && forall k :: r <= k < w && !(k == r && copying) ==> Slot(k, n) < n && ring.slots[Slot(k, n)] == log.stored[k].val
  }

  // A producer that has copied its value has it in the slot; a consumer has the oldest value.
  ghost predicate Copies<T>(s: State<T>)
  {
    var n, w, r := |s.ring.slots|, |s.log.stored|, |s.log.taken|;
    forall t :: 0 <= t < |s.tasks| ==>
      && (s.tasks[t].Producing? && s.tasks[t].stage == Copied ==>
            w < r + n && s.ring.produceAt < n && s.ring.slots[s.ring.produceAt] == s.tasks[t].val)
      && (s.tasks[t].Consuming? && s.tasks[t].stage == Copied ==> r < w && s.log.stored[r].val == s.tasks[t].val)
  }

  ghost predicate InOrder<T>(s: State<T>)
  {
    Holds(s.ring, s.log, Copying(s)) && Copies(s)
  }

  // The values a thread has in a log, in order.
  function Own<T>(log: seq<Logged<T>>, t: nat): seq<T>
  {
    if log == [] then []
    else
      var last := log[|log| - 1];
      Own(log[..|log| - 1], t) + (if last.thread == t then [last.val] else [])
  }

  lemma OwnSnoc<T>(log: seq<Logged<T>>, e: Logged<T>, t: nat)
    ensures Own(log + [e], t) == Own(log, t) + (if e.thread == t then [e.val] else [])
  {
    assert (log + [e])[..|log|] == log;
  }

  function Pending<T>(task: Task<T>, kind: Kind): seq<T>
  {
    if KindOf(task) == kind && kind != Nothing then [task.val] else []
  }

  // Each call that returned accounts for exactly one logged value, in its thread's order.
  ghost predicate Owned<T>(log: seq<Logged<T>>, done: seq<seq<T>>, tasks: seq<Task<T>>, kind: Kind)
  {
    |done| == |tasks| && forall t :: 0 <= t < |tasks| ==> Own(log, t) == done[t] + Pending(tasks[t], kind)
  }

  ghost predicate Logs<T>(log: Log<T>, tasks: seq<Task<T>>)
  {
    Owned(log.stored, log.produced, tasks, OwedUsed) && Owned(log.taken, log.received, tasks, OwedEmpty)
  }

  /** What leaves is a prefix of what was stored, in the same order. */
  ghost predicate Fifo<T>(log: Log<T>)
  {
    |log.taken| <= |log.stored| && forall k :: 0 <= k < |log.taken| ==> log.taken[k].val == log.stored[k].val
  }

  ghost predicate Inv<T>(s: State<T>)
  {
    Counts(s) && Locks(s) && InOrder(s) && Logs(s.log, s.tasks) && Fifo(s.log)
  }

  // ----------------------------------------------------------- preservation

  lemma InitInv<T>(s: State<T>)
    requires Init(s)
    ensures Inv(s)
  {
    CountNone(s.tasks, TakenEmpty);
    CountNone(s.tasks, OwedEmpty);
    CountNone(s.tasks, TakenUsed);
    CountNone(s.tasks, OwedUsed);
  }

  function One(same: bool): nat
  {
    if same then 1 else 0
  }

  ghost predicate Shifted<T>(before: seq<Task<T>>, after: seq<Task<T>>, from: Kind, to: Kind)
  {
    && Count(after, TakenEmpty) + One(from == TakenEmpty) == Count(before, TakenEmpty) + One(to == TakenEmpty)
    && Count(after, OwedEmpty) + One(from == OwedEmpty) == Count(before, OwedEmpty) + One(to == OwedEmpty)
    && Count(after, TakenUsed) + One(from == TakenUsed) == Count(before, TakenUsed) + One(to == TakenUsed)
    && Count(after, OwedUsed) + One(from == OwedUsed) == Count(before, OwedUsed) + One(to == OwedUsed)
  }

  lemma UpdateShifts<T>(tasks: seq<Task<T>>, t: nat, task: Task<T>)
    requires t < |tasks|
    ensures Shifted(tasks, tasks[t := task], KindOf(tasks[t]), KindOf(task))
  {
    CountUpdate(tasks, t, task, TakenEmpty);
    CountUpdate(tasks, t, task, OwedEmpty);
    CountUpdate(tasks, t, task, TakenUsed);
    CountUpdate(tasks, t, task, OwedUsed);
  }

  lemma ProduceKeepsCounts<T>(s: State<T>, s': State<T>, t: nat)
    requires Counts(s) && ProduceStep(s, s', t)
    ensures Counts(s')
  {
    UpdateShifts(s.tasks, t, s'.tasks[t]);
  }

  lemma ConsumeKeepsCounts<T>(s: State<T>, s': State<T>, t: nat)
    requires Counts(s) && ConsumeStep(s, s', t)
    ensures Counts(s')
  {
    UpdateShifts(s.tasks, t, s'.tasks[t]);
  }

  lemma ProduceKeepsLocks<T>(s: State<T>, s': State<T>, t: nat)
    requires Locks(s) && ProduceStep(s, s', t)
    ensures Locks(s')
  {
  }

  lemma ConsumeKeepsLocks<T>(s: State<T>, s': State<T>, t: nat)
    requires Locks(s) && ConsumeStep(s, s', t)
    ensures Locks(s')
  {
  }

  lemma OwnedStays<T>(log: seq<Logged<T>>, done: seq<seq<T>>, tasks: seq<Task<T>>, kind: Kind, t: nat, task: Task<T>)
    requires Owned(log, done, tasks, kind) && t < |tasks| && Pending(task, kind) == Pending(tasks[t], kind)
    ensures Owned(log, done, tasks[t := task], kind)
  {
  }

  lemma OwnedGrows<T>(log: seq<Logged<T>>, done: seq<seq<T>>, tasks: seq<Task<T>>, kind: Kind, t: nat, task: Task<T>,
                      v: T)
    requires Owned(log, done, tasks, kind) && t < |tasks| && Pending(tasks[t], kind) == [] && Pending(task, kind) == [v]
    ensures Owned(log + [Logged(t, v)], done, tasks[t := task], kind)
  {
    forall u | 0 <= u < |tasks| ensures Own(log + [Logged(t, v)], u) == done[u] + Pending(tasks[t := task][u], kind) {
      OwnSnoc(log, Logged(t, v), u);
    }
  }

  lemma OwnedSettles<T>(log: seq<Logged<T>>, done: seq<seq<T>>, tasks: seq<Task<T>>, kind: Kind, t: nat, task: Task<T>,
                        v: T)
    requires Owned(log, done, tasks, kind) && t < |tasks| && Pending(tasks[t], kind) == [v] && Pending(task, kind) == []
    ensures Owned(log, done[t := done[t] + [v]], tasks[t := task], kind)
  {
  }

  lemma ProduceKeepsLogs<T>(s: State<T>, s': State<T>, t: nat)
    requires Logs(s.log, s.tasks) && ProduceStep(s, s', t)
    ensures Logs(s'.log, s'.tasks)
  {
    var task := s'.tasks[t];
    OwnedStays(s.log.taken, s.log.received, s.tasks, OwedEmpty, t, task);
    match s.tasks[t].stage
    case Copied => OwnedGrows(s.log.stored, s.log.produced, s.tasks, OwedUsed, t, task, task.val);
    case Unlocked => OwnedSettles(s.log.stored, s.log.produced, s.tasks, OwedUsed, t, task, s.tasks[t].val);
    case _ => OwnedStays(s.log.stored, s.log.produced, s.tasks, OwedUsed, t, task);
  }

  lemma ConsumeKeepsLogs<T>(s: State<T>, s': State<T>, t: nat)
    requires Logs(s.log, s.tasks) && ConsumeStep(s, s', t)
    ensures Logs(s'.log, s'.tasks)
  {
    var task := s'.tasks[t];
    OwnedStays(s.log.stored, s.log.produced, s.tasks, OwedUsed, t, task);
    match s.tasks[t].stage
    case Copied => OwnedGrows(s.log.taken, s.log.received, s.tasks, OwedEmpty, t, task, task.val);
    case Unlocked => OwnedSettles(s.log.taken, s.log.received, s.tasks, OwedEmpty, t, task, s.tasks[t].val);
    case _ => OwnedStays(s.log.taken, s.log.received, s.tasks, OwedEmpty, t, task);
  }

  // A slot outside the unread ones can be written.
  lemma WriteFree<T>(ring: Ring<T>, log: Log<T>, copying: bool, v: T)
    requires Holds(ring, log, copying) && |log.stored| < |log.taken| + |ring.slots|
    ensures Holds(ring.(slots := ring.slots[ring.produceAt := v]), log, copying)
  {
    var n, w, r := |ring.slots|, |log.stored|, |log.taken|;
    forall k | r <= k < w ensures Slot(k, n) != ring.produceAt { SlotsApart(k, w, n); }
  }

  lemma Append<T>(ring: Ring<T>, log: Log<T>, copying: bool, e: Logged<T>)
    requires Holds(ring, log, copying) && |log.stored| < |log.taken| + |ring.slots|
    requires ring.slots[ring.produceAt] == e.val && (copying ==> |log.taken| < |log.stored|)
    ensures Holds(ring.(produceAt := Forward(ring.produceAt, |ring.slots|)), log.(stored := log.stored + [e]), copying)
  {
  }

  // The oldest slot can be overwritten once it is being copied.
  lemma ReadOldest<T>(ring: Ring<T>, log: Log<T>, v: T)
    requires Holds(ring, log, false) && |log.taken| < |log.stored|
    ensures ring.slots[ring.consumeAt] == log.stored[|log.taken|].val
    ensures Holds(ring, log, true)
    ensures Holds(ring.(slots := ring.slots[ring.consumeAt := v]), log, true)
    ensures |log.stored| < |log.taken| + |ring.slots| ==> ring.produceAt != ring.consumeAt
  {
    var n, w, r := |ring.slots|, |log.stored|, |log.taken|;
    forall k | r < k < w ensures Slot(k, n) != ring.consumeAt { SlotsApart(r, k, n); }
    if w < r + n { SlotsApart(r, w, n); }
    assert Slot(r, n) < n;
  }

  lemma DropOldest<T>(ring: Ring<T>, log: Log<T>, e: Logged<T>)
    requires Holds(ring, log, true) && |log.taken| < |log.stored|
    ensures Holds(ring.(consumeAt := Forward(ring.consumeAt, |ring.slots|)), log.(taken := log.taken + [e]), false)
  {
  }

  lemma HasToken<T>(s: State<T>, t: nat)
    requires Counts(s) && t < |s.tasks|
    ensures KindOf(s.tasks[t]) == TakenEmpty ==> |s.log.stored| < |s.log.taken| + |s.ring.slots|
    ensures KindOf(s.tasks[t]) == TakenUsed ==> |s.log.taken| < |s.log.stored|
  {
    CountUpdate(s.tasks, t, s.tasks[t], KindOf(s.tasks[t]));
  }

  lemma ProduceWrites<T>(s: State<T>, s': State<T>, t: nat)
    requires Locks(s) && InOrder(s) && ProduceStep(s, s', t) && s.tasks[t].stage == Locked
    requires |s.log.stored| < |s.log.taken| + |s.ring.slots|
    ensures InOrder(s')
  {
    assert Copying(s') == Copying(s);
    WriteFree(s.ring, s.log, Copying(s), s.tasks[t].val);
  }

  lemma ProduceAdvances<T>(s: State<T>, s': State<T>, t: nat)
    requires Locks(s) && InOrder(s) && ProduceStep(s, s', t) && s.tasks[t].stage == Copied
    ensures InOrder(s')
  {
    assert Copying(s') == Copying(s);
    Append(s.ring, s.log, Copying(s), Logged(t, s.tasks[t].val));
  }

  // Steps that touch neither the ring nor the order of the log.
  lemma OrderStays<T>(s: State<T>, s': State<T>, t: nat)
    requires Locks(s) && InOrder(s) && t < |s.tasks| && s'.ring == s.ring
    requires s'.log.stored == s.log.stored && s'.log.taken == s.log.taken
    requires |s'.tasks| == |s.tasks| && s'.tasks == s.tasks[t := s'.tasks[t]]
    requires !IsCopied(s.tasks[t]) && !IsCopied(s'.tasks[t])
    requires s'.lock.consume == s.lock.consume || s.lock.consume == None || s'.lock.consume == None
    requires s'.lock.consume == s.lock.consume || s.lock.consume == Some(t) || s'.lock.consume == Some(t)
    ensures InOrder(s')
  {
    assert Copying(s') == Copying(s);
  }

  predicate IsCopied<T>(task: Task<T>)
  {
    !task.Idle? && task.stage == Copied
  }

  lemma ProduceKeepsOrder<T>(s: State<T>, s': State<T>, t: nat)
    requires Counts(s) && Locks(s) && InOrder(s) && ProduceStep(s, s', t)
    ensures InOrder(s')
  {
    if s.tasks[t].stage == Locked {
      HasToken(s, t);
      ProduceWrites(s, s', t);
    } else if s.tasks[t].stage == Copied {
      ProduceAdvances(s, s', t);
    } else {
      OrderStays(s, s', t);
    }
  }

  lemma ConsumeReads<T>(s: State<T>, s': State<T>, t: nat)
    requires Locks(s) && InOrder(s) && ConsumeStep(s, s', t) && s.tasks[t].stage == Locked
    requires |s.log.taken| < |s.log.stored|
    ensures InOrder(s')
  {
    ReadOldest(s.ring, s.log, s.tasks[t].val);
  }

  lemma ConsumeAdvances<T>(s: State<T>, s': State<T>, t: nat)
    requires Locks(s) && InOrder(s) && ConsumeStep(s, s', t) && s.tasks[t].stage == Copied
    ensures InOrder(s')
  {
    DropOldest(s.ring, s.log, Logged(t, s.tasks[t].val));
  }

  lemma ConsumeKeepsOrder<T>(s: State<T>, s': State<T>, t: nat)
    requires Counts(s) && Locks(s) && InOrder(s) && ConsumeStep(s, s', t)
    ensures InOrder(s')
  {
    if s.tasks[t].stage == Locked {
      HasToken(s, t);
      ConsumeReads(s, s', t);
    } else if s.tasks[t].stage == Copied {
      ConsumeAdvances(s, s', t);
    } else {
      OrderStays(s, s', t);
    }
  }

  lemma StepKeepsFifo<T>(s: State<T>, s': State<T>, t: nat)
    requires Fifo(s.log) && Counts(s) && InOrder(s) && (ProduceStep(s, s', t) || ConsumeStep(s, s', t))
    ensures Fifo(s'.log)
  {
  }

  // Steps that only change the stage of one thread, keeping its tokens and mutexes.
  lemma QuietKeepsInv<T>(s: State<T>, s': State<T>, t: nat)
    requires Inv(s) && t < |s.tasks| == |s'.tasks| && s' == s.(tasks := s.tasks[t := s'.tasks[t]])
    requires KindOf(s'.tasks[t]) == KindOf(s.tasks[t]) && KindOf(s.tasks[t]) !in {OwedUsed, OwedEmpty}
    requires InProduceLock(s'.tasks[t]) == InProduceLock(s.tasks[t])
    requires InConsumeLock(s'.tasks[t]) == InConsumeLock(s.tasks[t])
    requires !IsCopied(s.tasks[t]) && !IsCopied(s'.tasks[t])
    ensures Inv(s')
  {
    var task := s'.tasks[t];
    UpdateShifts(s.tasks, t, task);
    OwnedStays(s.log.stored, s.log.produced, s.tasks, OwedUsed, t, task);
    OwnedStays(s.log.taken, s.log.received, s.tasks, OwedEmpty, t, task);
    OrderStays(s, s', t);
  }

  lemma CallKeepsInv<T>(s: State<T>, s': State<T>, t: nat, task: Task<T>)
    requires Inv(s) && CallStep(s, s', t, task)
    ensures Inv(s')
  {
    QuietKeepsInv(s, s', t);
  }

  lemma ThrowKeepsInv<T>(s: State<T>, s': State<T>, t: nat)
    requires Inv(s) && ThrowStep(s, s', t)
    ensures Inv(s')
  {
    QuietKeepsInv(s, s', t);
  }

  lemma GoKeepsInv<T>(s: State<T>, s': State<T>, t: nat)
    requires Inv(s) && (ProduceStep(s, s', t) || ConsumeStep(s, s', t))
    ensures Inv(s')
  {
    if ProduceStep(s, s', t) {
      ProduceKeepsCounts(s, s', t);
      ProduceKeepsLocks(s, s', t);
      ProduceKeepsOrder(s, s', t);
      ProduceKeepsLogs(s, s', t);
    } else {
      ConsumeKeepsCounts(s, s', t);
      ConsumeKeepsLocks(s, s', t);
      ConsumeKeepsOrder(s, s', t);
      ConsumeKeepsLogs(s, s', t);
    }
    StepKeepsFifo(s, s', t);
  }

  lemma {:induction false} RunKeepsInv<T>(states: seq<State<T>>, events: seq<Event<T>>, i: nat)
    requires Run(states, events) && i < |states|
    ensures Inv(states[i])
  {
    if i == 0 {
      InitInv(states[0]);
    } else {
      RunKeepsInv(states, events, i - 1);
      match events[i - 1]
      case Calls(t, task) => CallKeepsInv(states[i - 1], states[i], t, task);
      case Throws(t, _) => ThrowKeepsInv(states[i - 1], states[i], t);
      case Goes(t) => GoKeepsInv(states[i - 1], states[i], t);
    }
  }

  // -------------------------------------------------------------- the calls

  // The values that thread t called Produce with, in order, but for those whose copy threw.
  function Given<T>(events: seq<Event<T>>, t: nat): seq<T>
  {
    if events == [] then [] else GivenNext(Given(events[..|events| - 1], t), events[|events| - 1], t)
  }

  function GivenNext<T>(given: seq<T>, e: Event<T>, t: nat): seq<T>
  {
    if e.thread != t then given
    else if e.Calls? && e.task.Producing? then given + [e.task.val]
    else if e.Throws? && e.producing && given != [] then given[..|given| - 1]
    else given
  }

  // The argument of the call in progress.
  function Argument<T>(task: Task<T>): seq<T>
  {
    if task.Producing? && task.stage !in {Failed, Reposted} then [task.val] else []
  }

  ghost predicate Accounted<T>(s: State<T>, given: seq<T>, t: nat)
  {
    t < |s.tasks| ==> t < |s.log.produced| && given == s.log.produced[t] + Argument(s.tasks[t])
  }

  lemma StepAccounts<T>(s: State<T>, s': State<T>, e: Event<T>, given: seq<T>, t: nat)
    requires Step(s, s', e) && Accounted(s, given, t) && |s.log.produced| == |s.tasks|
    ensures Accounted(s', GivenNext(given, e, t), t) && |s'.log.produced| == |s'.tasks| == |s.tasks|
  {
  }

  lemma {:induction false} RunAccounts<T>(states: seq<State<T>>, events: seq<Event<T>>, i: nat, t: nat)
    requires Run(states, events) && i < |states|
    ensures Accounted(states[i], Given(events[..i], t), t) && |states[i].log.produced| == |states[i].tasks|
  {
    if i > 0 {
      RunAccounts(states, events, i - 1, t);
      assert events[..i][..i - 1] == events[..i - 1] && events[..i][i - 1] == events[i - 1];
      StepAccounts(states[i - 1], states[i], events[i - 1], Given(events[..i - 1], t), t);
    }
  }

  // --------------------------------------------------------------- progress

  // At most so many steps until the call returns.
  function StepsLeft<T>(task: Task<T>): nat
  {
    match task
    case Idle => 0
    case Producing(stage, _) => StageSteps(stage)
    case Consuming(stage, _, _) => StageSteps(stage)
  }

  function StageSteps(stage: Stage): nat
  {
    match stage
    case Begin => 6
    case Token => 5
    case Locked => 4
    case Copied => 3
    case Advanced => 2
    case Unlocked => 1
    case Failed => 2
    case Reposted => 1
  }

  /** A call returns after at most six steps of its own, and no step touches another call. */
  lemma CallsEnd<T>(s: State<T>, s': State<T>, e: Event<T>, t: nat)
    requires Step(s, s', e) && t < |s.tasks|
    ensures t < |s'.tasks| && (t != e.thread ==> s'.tasks[t] == s.tasks[t])
    ensures t == e.thread && !e.Calls? ==> StepsLeft(s'.tasks[t]) < StepsLeft(s.tasks[t]) <= 6
  {
  }

  /** What a thread may do: call when it is idle, go on when it is not blocked, throw while copying. */
  lemma CanStep<T>(s: State<T>, t: nat, task: Task<T>)
    requires t < |s.tasks|
    ensures s.tasks[t] == Idle && Starting(task) ==> Step(s, s.(tasks := s.tasks[t := task]), Calls(t, task))
    ensures ProduceEnabled(s, t) ==> Step(s, ProduceNext(s, t), Goes(t))
    ensures ConsumeEnabled(s, t) ==> Step(s, ConsumeNext(s, t), Goes(t))
    ensures !s.tasks[t].Idle? && s.tasks[t].stage == Locked ==>
      Step(s, s.(tasks := s.tasks[t := s.tasks[t].(stage := Failed)]), Throws(t, s.tasks[t].Producing?))
  {
  }

  // ---------------------------------------------------------- main results

  /** In every state of every run: values leave in the order they were stored; what a thread stored
      are the values it called Produce with, those that threw left out, and what it received are the
      values it took; tokens are conserved. */
  lemma QueueIsFifo<T>(states: seq<State<T>>, events: seq<Event<T>>, i: nat)
    requires Run(states, events) && i < |states|
    ensures var s := states[i];
      && Fifo(s.log)
      && (forall t :: 0 <= t < |s.tasks| && s.tasks[t] == Idle ==>
            t < |s.log.produced| && t < |s.log.received|
            && Own(s.log.stored, t) == Given(events[..i], t) && Own(s.log.taken, t) == s.log.received[t])
      && s.sem.empty + Count(s.tasks, TakenEmpty) + Count(s.tasks, OwedEmpty)
         + s.sem.used + Count(s.tasks, TakenUsed) + Count(s.tasks, OwedUsed) == |s.ring.slots|
  {
    RunKeepsInv(states, events, i);
    forall t | 0 <= t < |states[i].tasks| ensures Accounted(states[i], Given(events[..i], t), t) {
      RunAccounts(states, events, i, t);
    }
  }

  predicate Touching<T>(task: Task<T>)
  {
    !task.Idle? && task.stage in {Locked, Copied}
  }

  /** No unread slot is overwritten and no unwritten slot is read; a producer and a consumer
      that hold their mutexes work on different slots. */
  lemma SlotsAreSafe<T>(states: seq<State<T>>, events: seq<Event<T>>, i: nat, t: nat, u: nat)
    requires Run(states, events) && i < |states|
    requires t < |states[i].tasks| && u < |states[i].tasks|
    ensures var s := states[i];
      && (s.tasks[t].Producing? && s.tasks[t].stage == Locked ==>
            s.ring.produceAt < |s.ring.slots|
            && forall k :: |s.log.taken| <= k < |s.log.stored| ==> Slot(k, |s.ring.slots|) != s.ring.produceAt)
      && (s.tasks[u].Consuming? && s.tasks[u].stage == Locked ==>
            s.ring.consumeAt < |s.ring.slots| && |s.log.taken| < |s.log.stored|
            && s.ring.slots[s.ring.consumeAt] == s.log.stored[|s.log.taken|].val)
      && (Touching(s.tasks[t]) && s.tasks[t].Producing? && Touching(s.tasks[u]) && s.tasks[u].Consuming? ==>
            s.ring.produceAt != s.ring.consumeAt)
  {
    var s := states[i];
    RunKeepsInv(states, events, i);
    HasToken(s, t);
    HasToken(s, u);
    var n, w, r := |s.ring.slots|, |s.log.stored|, |s.log.taken|;
    if w < r + n {
      forall k | r <= k < w ensures Slot(k, n) != s.ring.produceAt { SlotsApart(k, w, n); }
    }
  }

  // Holding the mutex never blocks.
  lemma HolderEnabled<T>(s: State<T>, t: nat)
    requires Inv(s) && t < |s.tasks|
    ensures InProduceLock(s.tasks[t]) ==> ProduceEnabled(s, t)
    ensures InConsumeLock(s.tasks[t]) ==> ConsumeEnabled(s, t)
  {
    HasToken(s, t);
  }

  lemma OnlyBegin<T>(s: State<T>, u: nat)
    requires Inv(s) && u < |s.tasks|
    requires forall v :: 0 <= v < |s.tasks| ==> !ProduceEnabled(s, v) && !ConsumeEnabled(s, v)
    ensures s.tasks[u].Idle? || s.tasks[u].stage == Begin
  {
    HolderEnabled(s, u);
    assert !ProduceEnabled(s, u) && !ConsumeEnabled(s, u);
    if s.lock.produce.Some? { HolderEnabled(s, s.lock.produce.value); }
    if s.lock.consume.Some? { HolderEnabled(s, s.lock.consume.value); }
  }

  /** No deadlock and no lost wake-up: when no call in progress can go on, all of them wait on a
      semaphore, producers only because the ring is full and consumers only because it is empty. */
  lemma NoDeadlock<T>(states: seq<State<T>>, events: seq<Event<T>>, i: nat, t: nat)
    requires Run(states, events) && i < |states| && t < |states[i].tasks|
    requires forall u :: 0 <= u < |states[i].tasks| ==> !ProduceEnabled(states[i], u) && !ConsumeEnabled(states[i], u)
    requires !states[i].tasks[t].Idle?
    ensures var s := states[i];
      && s.tasks[t].stage == Begin
      && (s.tasks[t].Producing? ==> |s.log.stored| == |s.log.taken| + |s.ring.slots|)
      && (s.tasks[t].Consuming? ==> |s.log.stored| == |s.log.taken|)
  {
    var s := states[i];
    RunKeepsInv(states, events, i);
    forall u | 0 <= u < |s.tasks| ensures s.tasks[u].Idle? || s.tasks[u].stage == Begin { OnlyBegin(s, u); }
    assert !ProduceEnabled(s, t) && !ConsumeEnabled(s, t);
    CountNone(s.tasks, TakenEmpty);
    CountNone(s.tasks, OwedEmpty);
    CountNone(s.tasks, TakenUsed);
    CountNone(s.tasks, OwedUsed);
  }
}

/**
 The producers and consumers of pthread_condition.c: the list statements under a mutex, a signal after each
 push while the mutex is still held, and a wait when the list is empty. Waiting releases the mutex in the same
 step; a woken consumer takes it again, releases it, and starts over. Consumers may also wake without a signal.
 */
module ConditionVariable {
  import opened Counting
  import opened Options
  import opened SharedList

  /** `Inside(Leave, _)` is the signal of a producer and the unlock of a consumer. */
  datatype Pc = AtLock | Inside(stage: Stage, node: nat) | AtTest(node: nat) | AtWait | Asleep | Woken | AtUnlock

  datatype Holder = Free | ByProducer(i: nat) | ByConsumer(i: nat)

  datatype State = State(lock: Holder, list: List, producers: seq<Pc>, consumers: seq<Pc>)

  /** At its signal a producer wakes consumer `wake`, unless nobody sleeps. */
  datatype Action = Produce(i: nat, addr: nat, num: int, wake: nat) | Consume(i: nat) | Spurious(i: nat)

  function Init(producers: nat, consumers: nat): State {
    State(Holder.Free, EMPTY, seq(producers, _ => AtLock), seq(consumers, _ => AtLock))
  }

  predicate Awake(pc: Pc) { pc != Asleep }

  predicate Enabled(s: State, a: Action) {
    match a
    case Produce(i, addr, _, wake) => i < |s.producers| && (
      match s.producers[i]
      case AtLock => s.lock == Holder.Free
      case Inside(Leave, _) =>
        Tally(s.consumers, Awake) == |s.consumers| || (wake < |s.consumers| && s.consumers[wake] == Asleep)
      case Inside(stage, _) => CanStep(s.list, stage, addr)
      case _ => true)
    case Consume(i) => i < |s.consumers| && (
      match s.consumers[i]
      case AtLock => s.lock == Holder.Free
      case Woken => s.lock == Holder.Free
      case Inside(stage, _) => stage != Alloc
      case Asleep => false
      case _ => true)
    case Spurious(i) => i < |s.consumers| && s.consumers[i] == Asleep
  }

  function Apply(s: State, a: Action): State
    requires Enabled(s, a)
  {
    match a
    case Produce(i, addr, num, wake) => ProduceStep(s, i, addr, num, wake)
    case Consume(i) => ConsumeStep(s, i)
    case Spurious(i) => s.(consumers := s.consumers[i := Woken])
  }

  function ProduceStep(s: State, i: nat, addr: nat, num: int, wake: nat): State
    requires Enabled(s, Produce(i, addr, num, wake))
  {
    match s.producers[i]
    case AtLock => s.(lock := ByProducer(i), producers := s.producers[i := Inside(Alloc, 0)])
    case Inside(Leave, _) =>
      var t := s.(producers := s.producers[i := AtUnlock]);
      if wake < |s.consumers| && s.consumers[wake] == Asleep then t.(consumers := s.consumers[wake := Woken]) else t
    case Inside(stage, node) =>
      var (list, next, local) := Step(s.list, stage, node, addr, num);
      s.(list := list, producers := s.producers[i := Inside(next, local)])
    case _ => s.(lock := Holder.Free, producers := s.producers[i := AtLock])
  }

  function ConsumeStep(s: State, i: nat): State
    requires Enabled(s, Consume(i))
  {
    var pc := s.consumers[i];
    if pc.Inside? && pc.stage != Leave then
      var (list, next, local) := Step(s.list, pc.stage, pc.node, 0, 0);
      s.(list := list, consumers := s.consumers[i := if pc.stage == Take then AtTest(local) else Inside(next, local)])
    else
      match pc
      case AtLock => s.(lock := ByConsumer(i), consumers := s.consumers[i := Inside(Take, 0)])
      case Woken => s.(lock := ByConsumer(i), consumers := s.consumers[i := AtUnlock])
      case AtTest(node) => s.(consumers := s.consumers[i := if s.list.head != 0 then Inside(Advance, node) else AtWait])
      case AtWait => s.(lock := Holder.Free, consumers := s.consumers[i := Asleep])
      case _ => s.(lock := Holder.Free, consumers := s.consumers[i := AtLock])
  }

  ghost predicate Trace(s: State, run: seq<Action>, t: State)
    decreases |run|
  {
    if run == [] then s == t else Enabled(s, run[0]) && Trace(Apply(s, run[0]), run[1..], t)
  }

  // ---- invariants ----

  predicate Holds(pc: Pc) { pc.Inside? || pc.AtTest? || pc == AtWait || pc == AtUnlock }

  ghost predicate Mutex(s: State) {
    && (forall i :: 0 <= i < |s.producers| ==> (Holds(s.producers[i]) <==> s.lock == ByProducer(i)))
    && (forall i :: 0 <= i < |s.consumers| ==> (Holds(s.consumers[i]) <==> s.lock == ByConsumer(i)))
    && (s.lock.ByProducer? ==> s.lock.i < |s.producers|)
    && (s.lock.ByConsumer? ==> s.lock.i < |s.consumers|)
  }

  predicate ProducerPc(pc: Pc) {
    pc == AtLock || pc == AtUnlock || (pc.Inside? && pc.stage in {Alloc, Link, SetHead, SetNum, Leave})
  }

  predicate ConsumerPc(pc: Pc) { pc.Inside? ==> pc.stage in {Take, Advance, Print, Stage.Free, Leave} }

  /** What a thread knows of the list at its program counter while it holds the mutex. */
  ghost predicate Knows(l: List, pc: Pc) {
    match pc
    case Inside(stage, node) => Mem(l, stage, node) && (stage == Advance ==> l.stack != [])
    case AtTest(node) => Mem(l, Advance, node)
    case AtWait => Mem(l, Leave, 0) && l.stack == []
    case AtUnlock => Mem(l, Leave, 0)
    case _ => true
  }

  ghost predicate Memory(s: State) {
    && (forall i :: 0 <= i < |s.producers| ==> ProducerPc(s.producers[i]) && Knows(s.list, s.producers[i]))
    && (forall i :: 0 <= i < |s.consumers| ==> ConsumerPc(s.consumers[i]) && Knows(s.list, s.consumers[i]))
    && (s.lock == Holder.Free ==> Mem(s.list, Leave, 0))
  }

  /** A producer between its push and its signal. */
  predicate Unsignalled(pc: Pc) { pc.Inside? && pc.stage in {SetNum, Leave} }

  function Min(a: int, b: int): int { if a < b then a else b }

  /** Not counting pushes about to be signalled, a consumer is awake for every node, as far as there are consumers. */
  ghost predicate Wakeups(s: State) {
    Tally(s.consumers, Awake) >= Min(|s.list.stack| - Tally(s.producers, Unsignalled), |s.consumers|)
  }

  ghost predicate Inv(s: State) { Mutex(s) && Memory(s) && Wakeups(s) }

  lemma MutexKept(s: State, a: Action)
    requires Mutex(s) && (forall i :: 0 <= i < |s.producers| ==> ProducerPc(s.producers[i])) && Enabled(s, a)
    ensures Mutex(Apply(s, a))
  {
    hide Step, Tally, CanStep, ProduceStep, ConsumeStep;
    match a
    case Produce(i, addr, num, wake) => ProduceMutex(s, i, addr, num, wake);
    case Consume(i) => ConsumeMutex(s, i);
    case Spurious(_) =>
  }

  lemma ProduceMutex(s: State, i: nat, addr: nat, num: int, wake: nat)
    requires Mutex(s) && Enabled(s, Produce(i, addr, num, wake)) && ProducerPc(s.producers[i])
    ensures Mutex(ProduceStep(s, i, addr, num, wake))
  {
    hide Step, Tally, CanStep;
  }

  lemma ConsumeMutex(s: State, i: nat)
    requires Mutex(s) && Enabled(s, Consume(i))
    ensures Mutex(ConsumeStep(s, i))
  {
    hide Step, Tally, CanStep;
  }

  lemma MemoryKept(s: State, a: Action)
    requires Mutex(s) && Memory(s) && Enabled(s, a)
    ensures Memory(Apply(s, a))
  {
    hide Mutex, ProduceStep, ConsumeStep, Mem, Tally, CanStep;
    match a
    case Produce(i, addr, num, wake) => ProduceMemory(s, i, addr, num, wake);
    case Consume(i) => ConsumeMemory(s, i);
    case Spurious(_) =>
  }

  lemma ProduceMemory(s: State, i: nat, addr: nat, num: int, wake: nat)
    requires Mutex(s) && Memory(s) && Enabled(s, Produce(i, addr, num, wake))
    ensures Memory(ProduceStep(s, i, addr, num, wake))
  {
    hide Mem, Step, Tally, CanStep;
    AtRest(s.list);
    var pc := s.producers[i];
    if pc.Inside? && pc.stage != Leave {
      NextStage(s.list, pc.stage, pc.node, addr, num);
      StepKeeps(s.list, pc.stage, pc.node, addr, num);
    }
  }

  lemma ConsumeMemory(s: State, i: nat)
    requires Mutex(s) && Memory(s) && Enabled(s, Consume(i))
    ensures Memory(ConsumeStep(s, i))
  {
    hide Mem, Step, Tally, CanStep;
    AtRest(s.list);
    var pc := s.consumers[i];
    if pc.Inside? && pc.stage != Leave {
      NextStage(s.list, pc.stage, pc.node, 0, 0);
      CanStepUnlessAlloc(s.list, pc.stage);
      StepKeeps(s.list, pc.stage, pc.node, 0, 0);
    }
  }

  lemma CanStepUnlessAlloc(l: List, stage: Stage)
    requires stage != Alloc
    ensures CanStep(l, stage, 0)
  {
  }

  lemma WakeupsKept(s: State, a: Action)
    requires Inv(s) && Enabled(s, a)
    ensures Wakeups(Apply(s, a))
  {
    hide Mem, Step, Tally, Mutex;
    var t := Apply(s, a);
    TallyPositive(t.consumers, Awake);
    match a
    case Produce(i, addr, num, wake) =>
      var pc := s.producers[i];
      TallyUpdate(s.producers, i, t.producers[i], Unsignalled);
      if pc.Inside? && pc.stage == Leave {
        if wake < |s.consumers| && s.consumers[wake] == Asleep {
          TallyUpdate(s.consumers, wake, Woken, Awake);
        }
      } else if pc.Inside? {
        NextStage(s.list, pc.stage, pc.node, addr, num);
      }
    case Consume(i) =>
      var pc := s.consumers[i];
      TallyUpdate(s.consumers, i, t.consumers[i], Awake);
      if pc.Inside? && pc.stage != Leave {
        NextStage(s.list, pc.stage, pc.node, 0, 0);
      }
    case Spurious(i) => TallyUpdate(s.consumers, i, Woken, Awake);
  }

  lemma {:induction false} TraceKeeps(s: State, run: seq<Action>, t: State)
    requires Inv(s) && Trace(s, run, t)
    ensures Inv(t) && |t.producers| == |s.producers| && |t.consumers| == |s.consumers|
    decreases |run|
  {
    hide Memory, Wakeups, Mutex, Step, Tally;
    if run != [] {
      assert forall i :: 0 <= i < |s.producers| ==> ProducerPc(s.producers[i]) by { ProducersKnown(s); }
      MutexKept(s, run[0]);
      MemoryKept(s, run[0]);
      WakeupsKept(s, run[0]);
      TraceKeeps(Apply(s, run[0]), run[1..], t);
    }
  }

  lemma ProducersKnown(s: State)
    requires Memory(s)
    ensures forall i :: 0 <= i < |s.producers| ==> ProducerPc(s.producers[i])
  {
  }

  lemma InitInv(producers: nat, consumers: nat)
    ensures Inv(Init(producers, consumers))
  {
  }

  // ---- guarantees ----

  /**
   No useful wakeup is lost: for any numbers of threads, in every interleaving and with spurious wakeups, whenever
   no producer is between its push and its signal, at least min(list length, consumers) consumers are awake.
   */
  lemma NoLostWakeup(producers: nat, consumers: nat, run: seq<Action>, s: State)
    requires Trace(Init(producers, consumers), run, s)
    requires forall i :: 0 <= i < |s.producers| ==> !Unsignalled(s.producers[i])
    ensures Tally(s.consumers, Awake) >= Min(|s.list.stack|, consumers)
  {
    InitInv(producers, consumers);
    TraceKeeps(Init(producers, consumers), run, s);
    TallyPositive(s.producers, Unsignalled);
  }

  /** In every interleaving the list stays whole, every pop prints the latest number not yet popped, none is lost. */
  lemma ListSafe(producers: nat, consumers: nat, run: seq<Action>, s: State)
    requires Trace(Init(producers, consumers), run, s)
    ensures !s.list.fault && Chain(s.list.heap, s.list.head, s.list.stack)
    ensures Replay(s.list.log) == Some(s.list.values)
    ensures Pushed(s.list.log) == Popped(s.list.log) + multiset(s.list.values)
    ensures s.lock == Holder.Free ==>
      s.list.heap.Keys == Addresses(s.list.stack) && Numbers(s.list.heap, s.list.stack, s.list.values)
  {
    InitInv(producers, consumers);
    TraceKeeps(Init(producers, consumers), run, s);
    hide Tally, Chain, Numbers;
    if s.lock.ByProducer? {
      assert Knows(s.list, s.producers[s.lock.i]);
    } else if s.lock.ByConsumer? {
      assert Knows(s.list, s.consumers[s.lock.i]);
    }
    Conserved(s.list.log);
  }

  /** A node in the list is never stranded: unless a producer holds the mutex, some consumer can go on by itself. */
  lemma ListedIsServed(producers: nat, consumers: nat, run: seq<Action>, s: State)
    requires Trace(Init(producers, consumers), run, s) && s.list.stack != [] && consumers > 0 && !s.lock.ByProducer?
    ensures exists i :: Enabled(s, Consume(i))
  {
    InitInv(producers, consumers);
    TraceKeeps(Init(producers, consumers), run, s);
    hide Trace, Memory, Wakeups, Mutex;
    ConsumersKnown(s);
    SomeConsumerMoves(s);
  }

  lemma ConsumersKnown(s: State)
    requires Memory(s)
    ensures forall i :: 0 <= i < |s.consumers| ==> ConsumerPc(s.consumers[i])
  {
  }

  lemma SomeConsumerMoves(s: State)
    requires Mutex(s) && Wakeups(s) && s.list.stack != [] && s.consumers != [] && !s.lock.ByProducer?
    requires forall i :: 0 <= i < |s.consumers| ==> ConsumerPc(s.consumers[i])
    ensures exists i :: Enabled(s, Consume(i))
  {
    hide Tally;
    if s.lock.ByConsumer? {
      assert Enabled(s, Consume(s.lock.i));
    } else {
      TallyPositive(s.producers, Unsignalled);
      TallyPositive(s.consumers, Awake);
      var i :| 0 <= i < |s.consumers| && Awake(s.consumers[i]);
      assert Enabled(s, Consume(i));
    }
  }

  // ---- the list is emptied ----

  /** How many steps a consumer makes before it sleeps, not counting those that a node in the list gives it. */
  function Rank(pc: Pc): nat {
    match pc
    case AtLock => 4
    case AtTest(_) => 2
    case AtWait => 1
    case Asleep => 0
    case Woken => 6
    case AtUnlock => 5
    case Inside(stage, _) =>
      match stage
      case Take => 3 case Advance => 1 case Print => 7 case Free => 6 case Leave => 5 case _ => 0
  }

  /** The steps left to the consumers: seven for each node, and the rest of what each is doing. */
  function StepsLeft(s: State): nat { 7 * |s.list.stack| + Total(s.consumers, Rank) }

  /** What one step of a consumer does to the list, its log and the steps left. */
  lemma ConsumeEffect(s: State, i: nat)
    requires Memory(s) && Enabled(s, Consume(i))
    ensures var t, l := ConsumeStep(s, i), s.list;
      var pc := s.consumers[i];
      && t.producers == s.producers && |t.consumers| == |s.consumers|
      && t.consumers == s.consumers[i := t.consumers[i]]
      && StepsLeft(t) + 1 == StepsLeft(s)
      && (if pc.Inside? && pc.stage == Print
          then l.values != [] && t.list.log == l.log + [Pop(l.values[0])] && t.list.values == l.values[1..]
          else t.list.log == l.log && t.list.values == l.values)
      && (if pc.Inside? && pc.stage == Advance then l.stack != [] && t.list.stack == l.stack[1..]
          else t.list.stack == l.stack)
  {
    hide Total, Chain, Numbers, Replay, Addresses;
    var t, l := ConsumeStep(s, i), s.list;
    TotalUpdate(s.consumers, i, t.consumers[i], Rank);
    if l.stack != [] && Chain(l.heap, l.head, l.stack) { ChainHead(l.heap, l.head, l.stack); }
    HeadOf(l);
  }

  /** At the test `head` is NULL exactly when the list is empty. */
  lemma HeadOf(l: List)
    ensures Chain(l.heap, l.head, l.stack) ==> (l.head == 0 <==> l.stack == [])
  {
  }

  function Pops(values: seq<int>): seq<Op> {
    seq(|values|, i requires 0 <= i < |values| => Pop(values[i]))
  }

  ghost predicate ConsumersOnly(run: seq<Action>) { forall a :: a in run ==> a.Consume? }

  lemma ConsumeKeeps(s: State, i: nat)
    requires Inv(s) && Enabled(s, Consume(i)) && !s.lock.ByProducer?
    ensures Inv(ConsumeStep(s, i)) && !ConsumeStep(s, i).lock.ByProducer?
  {
    NoProducer(s, i);
    hide Mutex, Wakeups, Memory, Enabled, ConsumeStep;
    ProducersKnown(s);
    MutexKept(s, Consume(i));
    MemoryKept(s, Consume(i));
    WakeupsKept(s, Consume(i));
  }

  lemma NoProducer(s: State, i: nat)
    requires Enabled(s, Consume(i)) && !s.lock.ByProducer?
    ensures !ConsumeStep(s, i).lock.ByProducer?
  {
    hide Step;
  }

  /** From the numbers `before` some were popped, from the first on, and `after` are left. */
  ghost predicate PoppedFrom(before: seq<int>, log: seq<Op>, after: seq<int>, log': seq<Op>) {
    |after| <= |before| &&
    var k := |before| - |after|;
    after == before[k..] && log' == log + Pops(before[..k])
  }

  lemma PoppedNone(values: seq<int>, log: seq<Op>)
    ensures PoppedFrom(values, log, values, log)
  {
    assert Pops(values[..0]) == [];
  }

  lemma PoppedOne(before: seq<int>, log: seq<Op>, after: seq<int>, log': seq<Op>)
    requires before != [] && PoppedFrom(before[1..], log + [Pop(before[0])], after, log')
    ensures PoppedFrom(before, log, after, log')
  {
    var k := |before| - |after|;
    assert before[..k] == [before[0]] + before[1..][..k - 1];
    assert Pops(before[..k]) == [Pop(before[0])] + Pops(before[1..][..k - 1]);
  }

  /** A run of consumers alone pops some of the numbers in the list, from the first on, and each step counts. */
  lemma {:induction false} ConsumersPop(s: State, run: seq<Action>, t: State)
    requires Inv(s) && !s.lock.ByProducer? && Trace(s, run, t) && ConsumersOnly(run)
    ensures Inv(t) && !t.lock.ByProducer? && |t.consumers| == |s.consumers| && |run| + StepsLeft(t) == StepsLeft(s)
    ensures PoppedFrom(s.list.values, s.list.log, t.list.values, t.list.log)
    decreases |run|
  {
    hide Inv, ConsumeStep, Enabled, StepsLeft, PoppedFrom;
    if run == [] {
      PoppedNone(s.list.values, s.list.log);
    } else {
      assert run[0] in run && forall a :: a in run[1..] ==> a in run;
      var i, u := run[0].i, Apply(s, run[0]);
      InvMemory(s);
      ConsumeEffect(s, i);
      ConsumeKeeps(s, i);
      ConsumersPop(u, run[1..], t);
      if u.list.log != s.list.log {
        PoppedOne(s.list.values, s.list.log, t.list.values, t.list.log);
      }
    }
  }

  lemma InvMemory(s: State)
    requires Inv(s)
    ensures Memory(s) && Mutex(s) && Wakeups(s)
  {
  }

  /**
   Once production stops the consumers empty the list. From any reachable state with no producer inside, a run of
   consumers alone, without spurious wakeups, is at most seven steps long for each node and each consumer; and when
   none of them can go on, the list is empty and its numbers were popped in order, from the first to the last.
   */
  lemma Drained(producers: nat, consumers: nat, pre: seq<Action>, s: State, run: seq<Action>, t: State)
    requires consumers > 0 && Trace(Init(producers, consumers), pre, s) && !s.lock.ByProducer?
    requires Trace(s, run, t) && ConsumersOnly(run)
    ensures |run| <= 7 * |s.list.stack| + 7 * consumers
    ensures (forall i :: !Enabled(t, Consume(i))) ==>
      t.list.stack == [] && t.list.values == [] && t.list.log == s.list.log + Pops(s.list.values)
  {
    InitInv(producers, consumers);
    TraceKeeps(Init(producers, consumers), pre, s);
    hide Inv, Trace, StepsLeft, Enabled, PoppedFrom, ConsumersOnly, Pops;
    ConsumersPop(s, run, t);
    StepsBound(s);
    if forall i :: !Enabled(t, Consume(i)) {
      AllAsleep(t);
      AllPopped(s.list.values, s.list.log, t.list.log);
    }
  }

  lemma StepsBound(s: State)
    ensures StepsLeft(s) <= 7 * |s.list.stack| + 7 * |s.consumers|
  {
    TotalBound(s.consumers, Rank, 7);
  }

  lemma AllPopped(values: seq<int>, log: seq<Op>, log': seq<Op>)
    requires PoppedFrom(values, log, [], log')
    ensures log' == log + Pops(values)
  {
    assert values[..|values|] == values;
  }

  /** When no consumer can go on the list is empty. */
  lemma AllAsleep(s: State)
    requires Inv(s) && !s.lock.ByProducer? && s.consumers != [] && forall i :: !Enabled(s, Consume(i))
    ensures s.list.stack == [] && s.list.values == []
  {
    InvMemory(s);
    hide Inv, Memory, Mutex, Wakeups, Enabled, Mem;
    ConsumersKnown(s);
    if s.list.stack != [] { SomeConsumerMoves(s); }
    LockFree(s);
    EmptyList(s.list);
  }

  lemma LockFree(s: State)
    requires Mutex(s) && !s.lock.ByProducer? && (forall i :: !Enabled(s, Consume(i)))
    requires Memory(s)
    ensures Mem(s.list, Leave, 0)
  {
    hide Mem, Tally;
    assert s.lock.ByConsumer? ==> Enabled(s, Consume(s.lock.i));
  }

  lemma EmptyList(l: List)
    requires Mem(l, Leave, 0) && l.stack == []
    ensures l.values == []
  {
  }

  // ---- one turn of a thread ----

  lemma TraceCons(s: State, a: Action, run: seq<Action>, t: State)
    requires Enabled(s, a) && Trace(Apply(s, a), run, t)
    ensures Trace(s, [a] + run, t)
  {
    assert ([a] + run)[1..] == run;
  }

  lemma Stays(s: State)
    ensures Trace(s, [], s)
  {
  }

  lemma AtRestFree(s: State)
    requires Inv(s) && s.lock == Holder.Free
    ensures Mem(s.list, Alloc, 0) && Mem(s.list, Take, 0)
  {
    hide Mem;
    AtRest(s.list);
  }

  function Seven(a: Action): seq<Action> { [a] + ([a] + ([a] + ([a] + ([a] + ([a] + ([a] + [])))))) }

  lemma SevenSteps(
      a: Action, s: State, s1: State, s2: State, s3: State, s4: State, s5: State, s6: State, t: State)
    requires Enabled(s, a) && Apply(s, a) == s1 && Enabled(s1, a) && Apply(s1, a) == s2
    requires Enabled(s2, a) && Apply(s2, a) == s3 && Enabled(s3, a) && Apply(s3, a) == s4
    requires Enabled(s4, a) && Apply(s4, a) == s5 && Enabled(s5, a) && Apply(s5, a) == s6
    requires Enabled(s6, a) && Apply(s6, a) == t
    ensures Trace(s, Seven(a), t)
  {
    hide Enabled, Apply, Trace;
    Stays(t);
    TraceCons(s6, a, [], t);
    TraceCons(s5, a, [a] + [], t);
    TraceCons(s4, a, [a] + ([a] + []), t);
    TraceCons(s3, a, [a] + ([a] + ([a] + [])), t);
    TraceCons(s2, a, [a] + ([a] + ([a] + ([a] + []))), t);
    TraceCons(s1, a, [a] + ([a] + ([a] + ([a] + ([a] + [])))), t);
    TraceCons(s, a, [a] + ([a] + ([a] + ([a] + ([a] + ([a] + []))))), t);
  }

  /** Consumer `i` stands at `pc` and holds the mutex; the other consumers are as in `base`. */
  function At(s: State, base: seq<Pc>, i: nat, pc: Pc, l: List): State
    requires i < |base|
  {
    s.(lock := ByConsumer(i), list := l, consumers := base[i := pc])
  }

  /** A step of that consumer inside the list statements. */
  lemma Statement(s: State, i: nat, l: List, stage: Stage, node: nat, l': List, next: Stage)
    requires i < |s.consumers| && stage in {Advance, Print, Stage.Free}
    requires Step(l, stage, node, 0, 0) == (l', next, node)
    ensures var before := At(s, s.consumers, i, Inside(stage, node), l);
      var after := At(s, s.consumers, i, Inside(next, node), l');
      Enabled(before, Consume(i)) && Apply(before, Consume(i)) == after
  {
    hide Step, Tally;
    assert s.consumers[i := Inside(stage, node)][i := Inside(next, node)] == s.consumers[i := Inside(next, node)];
  }

  lemma Unlock(s: State, i: nat, l: List, node: nat)
    requires i < |s.consumers| && s.lock == Holder.Free && s.consumers[i] == AtLock
    ensures var before := At(s, s.consumers, i, Inside(Leave, node), l);
      Enabled(before, Consume(i)) && Apply(before, Consume(i)) == s.(list := l)
  {
    hide Tally;
    assert s.consumers[i := Inside(Leave, node)][i := AtLock] == s.consumers;
  }

  /** From the lock to the test, when the list is not empty, and behind it. */
  lemma ToAdvance(s: State, i: nat) returns (s1: State, s2: State, s3: State)
    requires s.lock == Holder.Free && i < |s.consumers| && s.consumers[i] == AtLock && s.list.head != 0
    ensures var a := Consume(i);
      && Enabled(s, a) && Apply(s, a) == s1 && Enabled(s1, a) && Apply(s1, a) == s2
      && Enabled(s2, a) && Apply(s2, a) == s3
    ensures s3 == At(s, s.consumers, i, Inside(Advance, s.list.head), s.list)
  {
    hide Tally;
    var a := Consume(i);
    s1 := Apply(s, a);
    s2 := Apply(s1, a);
    s3 := Apply(s2, a);
    assert s3.consumers == s.consumers[i := Inside(Advance, s.list.head)];
  }

  /** Seven steps of a consumer alone, when the mutex is free and the list is not empty, pop the number on top. */
  lemma ConsumerTurn(s: State, i: nat) returns (t: State)
    requires Inv(s) && s.lock == Holder.Free && i < |s.consumers| && s.consumers[i] == AtLock && s.list.stack != []
    ensures Trace(s, Seven(Consume(i)), t) && s.list.values != []
    ensures t.list.log == s.list.log + [Pop(s.list.values[0])]
    ensures t.list.values == s.list.values[1..] && t.list.stack == s.list.stack[1..]
    ensures t == s.(list := t.list)
  {
    AtRestFree(s);
    var l1, l2, l3 := PopTurn(s.list);
    hide Inv, Mem, Step, Trace, CanStep, Seven, At, Enabled, Apply;
    var node, base := s.list.head, s.consumers;
    var s1, s2, s3 := ToAdvance(s, i);
    Statement(s, i, s.list, Advance, node, l1, Print);
    Statement(s, i, l1, Print, node, l2, Stage.Free);
    Statement(s, i, l2, Stage.Free, node, l3, Leave);
    Unlock(s, i, l3, node);
    t := s.(list := l3);
    SevenSteps(Consume(i), s, s1, s2, s3, At(s, base, i, Inside(Print, node), l1),
      At(s, base, i, Inside(Stage.Free, node), l2), At(s, base, i, Inside(Leave, node), l3), t);
  }

  /** Seven steps of a producer alone, when the mutex is free, push its number and wake a sleeping consumer. */
  lemma ProducerTurn(s: State, i: nat, addr: nat, num: int, wake: nat) returns (t: State)
    requires Inv(s) && s.lock == Holder.Free && i < |s.producers| && s.producers[i] == AtLock
    requires addr != 0 && addr !in s.list.heap
    requires Tally(s.consumers, Awake) == |s.consumers| || (wake < |s.consumers| && s.consumers[wake] == Asleep)
    ensures Trace(s, Seven(Produce(i, addr, num, wake)), t)
    ensures t.list.log == s.list.log + [Push(num)]
    ensures t.list.values == [num] + s.list.values && t.list.stack == [addr] + s.list.stack
    ensures t.lock == Holder.Free && t.producers == s.producers
    ensures t.consumers ==
      if wake < |s.consumers| && s.consumers[wake] == Asleep then s.consumers[wake := Woken] else s.consumers
  {
    AtRestFree(s);
    var l1, l2, l3, l4 := PushTurn(s.list, addr, num);
    hide Inv, Mem, Step, Trace, Tally;
    var a := Produce(i, addr, num, wake);
    var s1, s2 := Apply(s, a), Apply(Apply(s, a), a);
    var s3 := Apply(s2, a);
    var s4 := Apply(s3, a);
    var s5 := Apply(s4, a);
    var s6 := Apply(s5, a);
    t := Apply(s6, a);
    assert t.producers == s.producers;
    SevenSteps(a, s, s1, s2, s3, s4, s5, s6, t);
  }
}

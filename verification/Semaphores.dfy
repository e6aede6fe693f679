/**
 The bounded buffer of semaphore.c: any number of producers and consumers, a semaphore for free places that
 starts at the capacity, one for list nodes that starts at zero, and a mutex around the list statements.
 */
module Semaphores {
  import opened Counting
  import opened Options
  import opened SharedList

  datatype Pc = AtWait | AtLock | Inside(stage: Stage, node: nat) | AtPost

  datatype Holder = Free | ByProducer(i: nat) | ByConsumer(i: nat)

  datatype State = State(
    capacity: nat, psem: nat, csem: nat, lock: Holder, list: List, producers: seq<Pc>, consumers: seq<Pc>)

  /** A thread moves; `addr` and `num` are what `malloc` and `rand` return when it calls them. */
  datatype Action = Produce(i: nat, addr: nat, num: int) | Consume(i: nat, addr: nat, num: int)

  function Init(capacity: nat, producers: nat, consumers: nat): State {
    State(capacity, capacity, 0, Holder.Free, EMPTY, seq(producers, _ => AtWait), seq(consumers, _ => AtWait))
  }

  predicate CanMove(pc: Pc, sem: nat, lock: Holder, list: List, addr: nat) {
    match pc
    case AtWait => sem > 0
    case AtLock => lock == Holder.Free
    case Inside(stage, _) => CanStep(list, stage, addr)
    case AtPost => true
  }

  predicate Enabled(s: State, a: Action) {
    match a
    case Produce(i, addr, _) => i < |s.producers| && CanMove(s.producers[i], s.psem, s.lock, s.list, addr)
    case Consume(i, addr, _) => i < |s.consumers| && CanMove(s.consumers[i], s.csem, s.lock, s.list, addr)
  }

  function Apply(s: State, a: Action): State
    requires Enabled(s, a)
  {
    match a
    case Produce(i, addr, num) => (
      match s.producers[i]
      case AtWait => s.(psem := s.psem - 1, producers := s.producers[i := AtLock])
      case AtLock => s.(lock := ByProducer(i), producers := s.producers[i := Inside(Alloc, 0)])
      case Inside(Leave, _) => s.(lock := Holder.Free, producers := s.producers[i := AtPost])
      case Inside(stage, node) =>
        var (list, next, local) := Step(s.list, stage, node, addr, num);
        s.(list := list, producers := s.producers[i := Inside(next, local)])
      case AtPost => s.(csem := s.csem + 1, producers := s.producers[i := AtWait]))
    case Consume(i, addr, num) =>
      match s.consumers[i]
      case AtWait => s.(csem := s.csem - 1, consumers := s.consumers[i := AtLock])
      case AtLock => s.(lock := ByConsumer(i), consumers := s.consumers[i := Inside(Take, 0)])
      case Inside(Leave, _) => s.(lock := Holder.Free, consumers := s.consumers[i := AtPost])
      case Inside(stage, node) =>
        var (list, next, local) := Step(s.list, stage, node, addr, num);
        s.(list := list, consumers := s.consumers[i := Inside(next, local)])
      case AtPost => s.(psem := s.psem + 1, consumers := s.consumers[i := AtWait])
  }

  ghost predicate Trace(s: State, run: seq<Action>, t: State)
    decreases |run|
  {
    if run == [] then s == t else Enabled(s, run[0]) && Trace(Apply(s, run[0]), run[1..], t)
  }

  // ---- invariants ----

  predicate BeforePush(pc: Pc) { pc == AtLock || (pc.Inside? && pc.stage in {Alloc, Link, SetHead}) }
  predicate AfterPush(pc: Pc) { pc == AtPost || (pc.Inside? && pc.stage in {SetNum, Leave}) }
  predicate BeforePop(pc: Pc) { pc == AtLock || (pc.Inside? && pc.stage in {Take, Advance}) }
  predicate AfterPop(pc: Pc) { pc == AtPost || (pc.Inside? && pc.stage in {Print, Stage.Free, Leave}) }

  /** The list holds the nodes promised to consumers, and the places left make up the capacity. */
  ghost predicate Accounts(s: State) {
    && |s.list.stack| == s.csem + Tally(s.producers, AfterPush) + Tally(s.consumers, BeforePop)
    && s.capacity == s.psem + Tally(s.producers, BeforePush) + |s.list.stack| + Tally(s.consumers, AfterPop)
  }

  ghost predicate Mutex(s: State) {
    && (forall i :: 0 <= i < |s.producers| ==> (s.producers[i].Inside? <==> s.lock == ByProducer(i)))
    && (forall i :: 0 <= i < |s.consumers| ==> (s.consumers[i].Inside? <==> s.lock == ByConsumer(i)))
    && (s.lock.ByProducer? ==> s.lock.i < |s.producers|)
    && (s.lock.ByConsumer? ==> s.lock.i < |s.consumers|)
  }

  predicate Pushes(pc: Pc) { pc.Inside? ==> pc.stage in {Alloc, Link, SetHead, SetNum, Leave} }
  predicate Pops(pc: Pc) { pc.Inside? ==> pc.stage in {Take, Advance, Print, Stage.Free, Leave} }

  /** The thread inside the critical section sees the list as its next statement needs it; else the list is at rest. */
  ghost predicate Memory(s: State) {
    && (forall i :: 0 <= i < |s.producers| ==> Pushes(s.producers[i]))
    && (forall i :: 0 <= i < |s.consumers| ==> Pops(s.consumers[i]))
    && (forall i :: 0 <= i < |s.producers| && s.producers[i].Inside? ==>
          Mem(s.list, s.producers[i].stage, s.producers[i].node))
    && (forall i :: 0 <= i < |s.consumers| && s.consumers[i].Inside? ==>
          Mem(s.list, s.consumers[i].stage, s.consumers[i].node))
    && (s.lock == Holder.Free ==> Mem(s.list, Leave, 0))
  }

  ghost predicate Inv(s: State) { Accounts(s) && Mutex(s) && Memory(s) }

  lemma MutexKept(s: State, a: Action)
    requires Mutex(s) && Enabled(s, a)
    ensures Mutex(Apply(s, a))
  {
    hide Step;
  }

  /** A consumer that passed its semaphore finds a node: `head` is not NULL when it is taken and advanced. */
  lemma HeadNotNull(s: State, i: nat)
    requires Accounts(s) && i < |s.consumers| && BeforePop(s.consumers[i])
    ensures s.list.stack != []
  {
    TallyPositive(s.consumers, BeforePop);
  }

  lemma AccountsKept(s: State, a: Action)
    requires Inv(s) && Enabled(s, a)
    ensures Accounts(Apply(s, a))
  {
    hide Accounts, Mutex, Memory, Enabled;
    match a
    case Produce(i, addr, num) => ProduceAccounts(s, i, addr, num);
    case Consume(i, addr, num) => ConsumeAccounts(s, i, addr, num);
  }

  lemma ProduceAccounts(s: State, i: nat, addr: nat, num: int)
    requires Accounts(s) && Memory(s) && Enabled(s, Produce(i, addr, num))
    ensures Accounts(Apply(s, Produce(i, addr, num)))
  {
    hide Mem, Step, Tally, CanStep;
    var t := Apply(s, Produce(i, addr, num));
    var pc := s.producers[i];
    TallyUpdate(s.producers, i, t.producers[i], AfterPush);
    TallyUpdate(s.producers, i, t.producers[i], BeforePush);
    if pc.Inside? && pc.stage != Leave {
      StackLength(s.list, pc.stage, pc.node, addr, num);
      NextStage(s.list, pc.stage, pc.node, addr, num);
    }
  }

  lemma ConsumeAccounts(s: State, i: nat, addr: nat, num: int)
    requires Accounts(s) && Memory(s) && Enabled(s, Consume(i, addr, num))
    ensures Accounts(Apply(s, Consume(i, addr, num)))
  {
    hide Mem, Step, Tally, CanStep;
    var t := Apply(s, Consume(i, addr, num));
    var pc := s.consumers[i];
    TallyUpdate(s.consumers, i, t.consumers[i], BeforePop);
    TallyUpdate(s.consumers, i, t.consumers[i], AfterPop);
    if pc.Inside? && pc.stage != Leave {
      if pc.stage == Advance { HeadNotNull(s, i); }
      StackLength(s.list, pc.stage, pc.node, addr, num);
      NextStage(s.list, pc.stage, pc.node, addr, num);
    }
  }

  lemma MemoryKept(s: State, a: Action)
    requires Inv(s) && Enabled(s, a)
    ensures Memory(Apply(s, a))
  {
    hide Mem, Step, Accounts, CanStep;
    match a
    case Produce(i, addr, num) =>
      var pc := s.producers[i];
      if pc.Inside? && pc.stage != Leave {
        NextStage(s.list, pc.stage, pc.node, addr, num);
        StepKeeps(s.list, pc.stage, pc.node, addr, num);
      }
      AtRest(s.list);
    case Consume(i, addr, num) =>
      var pc := s.consumers[i];
      if pc.Inside? && pc.stage != Leave {
        if pc.stage == Advance { HeadNotNull(s, i); }
        NextStage(s.list, pc.stage, pc.node, addr, num);
        StepKeeps(s.list, pc.stage, pc.node, addr, num);
      }
      AtRest(s.list);
  }

  lemma {:induction false} TraceKeeps(s: State, run: seq<Action>, t: State)
    requires Inv(s) && Trace(s, run, t)
    ensures Inv(t) && t.capacity == s.capacity && |t.producers| == |s.producers| && |t.consumers| == |s.consumers|
    decreases |run|
  {
    hide Memory, Accounts, Mutex, Step;
    if run != [] {
      AccountsKept(s, run[0]);
      MutexKept(s, run[0]);
      MemoryKept(s, run[0]);
      TraceKeeps(Apply(s, run[0]), run[1..], t);
    }
  }

  lemma InitInv(capacity: nat, producers: nat, consumers: nat)
    ensures Inv(Init(capacity, producers, consumers))
  {
    var s := Init(capacity, producers, consumers);
    TallyPositive(s.producers, AfterPush);
    TallyPositive(s.producers, BeforePush);
    TallyPositive(s.consumers, BeforePop);
    TallyPositive(s.consumers, AfterPop);
  }

  // ---- guarantees ----

  /**
   For any capacity and any numbers of threads, in every interleaving: both semaphores account for the list, it
   never exceeds the capacity, a consumer about to unlink finds a node, no statement touches a dead or null
   node, every pop prints the latest number not yet popped, and the numbers pushed are those popped and those listed.
   */
  lemma BufferSafe(capacity: nat, producers: nat, consumers: nat, run: seq<Action>, s: State)
    requires Trace(Init(capacity, producers, consumers), run, s)
    ensures |s.list.stack| == s.csem + Tally(s.producers, AfterPush) + Tally(s.consumers, BeforePop)
    ensures capacity == s.psem + Tally(s.producers, BeforePush) + |s.list.stack| + Tally(s.consumers, AfterPop)
    ensures |s.list.stack| <= capacity && !s.list.fault && Chain(s.list.heap, s.list.head, s.list.stack)
    ensures forall i :: 0 <= i < |s.consumers| && BeforePop(s.consumers[i]) ==> s.list.head != 0
    ensures Replay(s.list.log) == Some(s.list.values)
    ensures Pushed(s.list.log) == Popped(s.list.log) + multiset(s.list.values)
    ensures s.lock == Holder.Free ==>
      s.list.heap.Keys == Addresses(s.list.stack) && Numbers(s.list.heap, s.list.stack, s.list.values)
  {
    InitInv(capacity, producers, consumers);
    TraceKeeps(Init(capacity, producers, consumers), run, s);
    hide Tally, Chain, Numbers;
    forall i | 0 <= i < |s.consumers| && BeforePop(s.consumers[i]) ensures s.list.stack != [] {
      HeadNotNull(s, i);
    }
    assert Mem(s.list, Leave, 0) || exists stage, node :: Mem(s.list, stage, node);
    HeadOf(s.list);
    Conserved(s.list.log);
  }

  lemma HeadOf(l: List)
    ensures Chain(l.heap, l.head, l.stack) ==> (l.head == 0 <==> l.stack == [])
  {
  }

  lemma Unused(keys: set<nat>) returns (addr: nat)
    ensures addr != 0 && addr !in keys && forall k :: k in keys ==> k < addr
  {
    if keys == {} {
      addr := 1;
    } else {
      var k :| k in keys;
      var above := Unused(keys - {k});
      addr := if k < above then above else k + 1;
      assert forall x :: x in keys ==> x == k || x in keys - {k};
    }
  }

  /** With a producer, a consumer and room for one node, no reachable state is a deadlock. */
  lemma NoDeadlock(capacity: nat, producers: nat, consumers: nat, run: seq<Action>, s: State)
    requires capacity > 0 && producers > 0 && consumers > 0 && Trace(Init(capacity, producers, consumers), run, s)
    ensures exists a :: Enabled(s, a)
  {
    InitInv(capacity, producers, consumers);
    TraceKeeps(Init(capacity, producers, consumers), run, s);
    hide Accounts, Mutex, Memory, Trace;
    SomeoneMoves(s);
  }

  lemma SomeoneMoves(s: State)
    requires Accounts(s) && Mutex(s) && s.capacity > 0 && s.producers != [] && s.consumers != []
    ensures exists a :: Enabled(s, a)
  {
    hide Accounts, Tally;
    var addr := Unused(s.list.heap.Keys);
    if s.lock.ByProducer? {
      assert Enabled(s, Produce(s.lock.i, addr, 0));
    } else if s.lock.ByConsumer? {
      assert Enabled(s, Consume(s.lock.i, addr, 0));
    } else if s.producers[0] != AtWait || s.psem > 0 {
      assert Enabled(s, Produce(0, addr, 0));
    } else if s.consumers[0] != AtWait || s.csem > 0 {
      assert Enabled(s, Consume(0, addr, 0));
    } else {
      SomeoneBusy(s, addr);
    }
  }

  /** Without tokens in either semaphore, some thread is on its way between a wait and a post. */
  lemma SomeoneBusy(s: State, addr: nat)
    requires Accounts(s) && Mutex(s) && s.lock == Holder.Free && s.capacity > 0 && s.psem == 0 && s.csem == 0
    ensures exists a :: Enabled(s, a)
  {
    TallyPositive(s.producers, AfterPush);
    TallyPositive(s.producers, BeforePush);
    TallyPositive(s.consumers, BeforePop);
    TallyPositive(s.consumers, AfterPop);
    if i :| 0 <= i < |s.producers| && s.producers[i] != AtWait {
      assert Enabled(s, Produce(i, addr, 0));
    } else {
      var i :| 0 <= i < |s.consumers| && s.consumers[i] != AtWait;
      assert Enabled(s, Consume(i, addr, 0));
    }
  }
}

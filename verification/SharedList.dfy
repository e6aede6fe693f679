/**
 The heap-allocated list that the producers and consumers of semaphore.c and pthread_condition.c share, one
 statement at a time. Address 0 is NULL. A dereference of anything but a live node raises `fault`. Three
 more components say what the list is for: the addresses from `head` on, the numbers in the list, and a log of
 the numbers pushed and popped.
 */
module SharedList {
  import opened Options

  datatype Cell = Cell(num: int, next: nat)

  datatype Op = Push(num: int) | Pop(num: int)

  datatype List = List(heap: map<nat, Cell>, head: nat, fault: bool, stack: seq<nat>, values: seq<int>, log: seq<Op>)

  /** The statement of the critical section that comes next. */
  datatype Stage = Alloc | Link | SetHead | SetNum | Take | Advance | Print | Free | Leave

  const EMPTY := List(map[], 0, false, [], [], [])

  /** `malloc` may return any address that is not in use. */
  predicate CanStep(l: List, stage: Stage, addr: nat) {
    stage == Alloc ==> addr != 0 && addr !in l.heap
  }

  /** One statement by a thread whose local node is `node`; `num` is what `rand` or fresh memory holds. */
  function Step(l: List, stage: Stage, node: nat, addr: nat, num: int): (r: (List, Stage, nat))
    requires stage != Leave && CanStep(l, stage, addr)
  {
    match stage
    case Alloc => (l.(heap := l.heap[addr := Cell(num, 0)]), Link, addr)
    case Link =>
      if node in l.heap then (l.(heap := l.heap[node := Cell(l.heap[node].num, l.head)]), SetHead, node)
      else (l.(fault := true), SetHead, node)
    case SetHead => (l.(head := node, stack := [node] + l.stack), SetNum, node)
    case SetNum =>
      if node in l.heap then
        (l.(heap := l.heap[node := Cell(num, l.heap[node].next)], values := [num] + l.values,
            log := l.log + [Push(num)]),
         Leave, node)
      else (l.(fault := true), Leave, node)
    case Take => (l, Advance, l.head)
    case Advance =>
      if l.head in l.heap && l.stack != [] then (l.(head := l.heap[l.head].next, stack := l.stack[1..]), Print, node)
      else (l.(fault := true), Print, node)
    case Print =>
      if node in l.heap && l.values != [] then
        (l.(log := l.log + [Pop(l.heap[node].num)], values := l.values[1..]), Free, node)
      else (l.(fault := true), Free, node)
    case Free =>
      if node in l.heap then (l.(heap := l.heap - {node}), Leave, node) else (l.(fault := true), Leave, node)
  }

  // ---- a stack of numbers ----

  /** The stack that a log of pushes and pops leaves, if every pop found its number on top. */
  function Replay(log: seq<Op>): Option<seq<int>> {
    if log == [] then Some([]) else
    match (Replay(log[..|log| - 1]), log[|log| - 1])
    case (Some(stack), Push(n)) => Some([n] + stack)
    case (Some(stack), Pop(n)) => if stack != [] && stack[0] == n then Some(stack[1..]) else None
    case (None, _) => None
  }

  lemma ReplaySnoc(log: seq<Op>, op: Op)
    ensures (log + [op])[..|log|] == log
    ensures Replay(log).Some? ==> var stack := Replay(log).value;
      Replay(log + [op]) == match op
        case Push(n) => Some([n] + stack)
        case Pop(n) => if stack != [] && stack[0] == n then Some(stack[1..]) else None
  {
    assert (log + [op])[..|log|] == log;
  }

  function Pushed(log: seq<Op>): multiset<int> {
    if log == [] then multiset{} else
    Pushed(log[..|log| - 1]) + if log[|log| - 1].Push? then multiset{log[|log| - 1].num} else multiset{}
  }

  function Popped(log: seq<Op>): multiset<int> {
    if log == [] then multiset{} else
    Popped(log[..|log| - 1]) + if log[|log| - 1].Pop? then multiset{log[|log| - 1].num} else multiset{}
  }

  /** Nothing is lost and nothing popped twice: the numbers pushed are those popped and those left. */
  lemma {:induction false} Conserved(log: seq<Op>)
    requires Replay(log).Some?
    ensures Pushed(log) == Popped(log) + multiset(Replay(log).value)
  {
    if log != [] {
      var front := log[..|log| - 1];
      Conserved(front);
      var stack := Replay(front).value;
      if log[|log| - 1].Pop? {
        assert stack == [stack[0]] + stack[1..];
      }
    }
  }

  // ---- the shape of the list ----

  function Next(stack: seq<nat>, i: nat): nat
    requires i < |stack|
  {
    if i + 1 < |stack| then stack[i + 1] else 0
  }

  /** From `head` the live nodes of `stack` follow each other without repetition down to NULL. */
  ghost predicate Chain(heap: map<nat, Cell>, head: nat, stack: seq<nat>) {
    && head == (if stack == [] then 0 else stack[0])
    && (forall i :: 0 <= i < |stack| ==> stack[i] != 0 && stack[i] in heap && heap[stack[i]].next == Next(stack, i))
    && (forall i, j :: 0 <= i < j < |stack| ==> stack[i] != stack[j])
  }

  ghost predicate Numbers(heap: map<nat, Cell>, stack: seq<nat>, values: seq<int>) {
    |stack| == |values| && forall i :: 0 <= i < |stack| ==> stack[i] in heap && heap[stack[i]].num == values[i]
  }

  function Addresses(stack: seq<nat>): set<nat> { set a | a in stack }

  /** The live nodes are those of the list and perhaps one in the hands of the thread inside the critical section. */
  ghost predicate Live(l: List, node: nat, inHand: bool) {
    if inHand then node != 0 && node !in l.stack && l.heap.Keys == Addresses(l.stack) + {node}
    else l.heap.Keys == Addresses(l.stack)
  }

  /** What holds of the list before each statement; `Leave` also describes the list while nobody is inside. */
  ghost predicate Mem(l: List, stage: Stage, node: nat) {
    && !l.fault && Chain(l.heap, l.head, l.stack)
    && Replay(l.log) == Some(l.values)
    && Live(l, node, stage in {Link, SetHead, Print, Free})
    && (stage == SetHead ==> l.heap[node].next == l.head)
    && (stage == SetNum ==> l.stack != [] && l.stack[0] == node)
    && (stage == Advance ==> node == l.head)
    && match stage
       case SetNum => Numbers(l.heap, l.stack[1..], l.values)
       case Print => l.values != [] && l.heap[node].num == l.values[0] && Numbers(l.heap, l.stack, l.values[1..])
       case _ => Numbers(l.heap, l.stack, l.values)
  }

  /** Chain and numbers do not depend on other cells, nor the chain on numbers. */
  lemma Frame(h: map<nat, Cell>, k: map<nat, Cell>, head: nat, stack: seq<nat>, values: seq<int>)
    requires forall i :: 0 <= i < |stack| && stack[i] in h ==> stack[i] in k && k[stack[i]] == h[stack[i]]
    ensures Chain(h, head, stack) ==> Chain(k, head, stack)
    ensures Numbers(h, stack, values) ==> Numbers(k, stack, values)
  {
  }

  lemma ChainPush(h: map<nat, Cell>, head: nat, stack: seq<nat>, node: nat)
    requires Chain(h, head, stack) && node != 0 && node !in stack && node in h && h[node].next == head
    ensures Chain(h, node, [node] + stack) && ([node] + stack)[1..] == stack
    ensures Addresses([node] + stack) == Addresses(stack) + {node}
  {
    var s := [node] + stack;
    forall i | 0 < i < |s| ensures s[i] == stack[i - 1] && Next(s, i) == Next(stack, i - 1) {}
  }

  lemma ChainPop(h: map<nat, Cell>, head: nat, stack: seq<nat>)
    requires Chain(h, head, stack) && stack != []
    ensures head in h && Chain(h, h[head].next, stack[1..])
    ensures head != 0 && head !in stack[1..] && Addresses(stack) == Addresses(stack[1..]) + {head}
  {
    var s := stack[1..];
    forall i | 0 <= i < |s| ensures s[i] == stack[i + 1] && Next(s, i) == Next(stack, i + 1) {}
    assert stack == [stack[0]] + s;
    assert Next(stack, 0) == if s == [] then 0 else s[0];
  }

  /** A number stored in the first node leaves the links alone, and the numbers behind it. */
  lemma NumberSet(h: map<nat, Cell>, head: nat, stack: seq<nat>, num: int, values: seq<int>)
    requires Chain(h, head, stack) && stack != [] && Numbers(h, stack[1..], values)
    ensures head in h
    ensures var k := h[head := Cell(num, h[head].next)];
      Chain(k, head, stack) && Numbers(k, stack, [num] + values)
  {
    LinksKept(h, head, stack, num);
    ChainPop(h, head, stack);
    hide Chain, Addresses;
    var k := h[head := Cell(num, h[head].next)];
    Frame(h, k, 0, stack[1..], values);
    NumberFront(k, head, stack, num, values);
  }

  lemma LinksKept(h: map<nat, Cell>, head: nat, stack: seq<nat>, num: int)
    requires Chain(h, head, stack) && stack != []
    ensures head == stack[0] && head in h && Chain(h[head := Cell(num, h[head].next)], head, stack)
  {
    hide Next;
  }

  lemma NumberFront(k: map<nat, Cell>, head: nat, stack: seq<nat>, num: int, values: seq<int>)
    requires stack != [] && head == stack[0] && head in k && k[head].num == num && Numbers(k, stack[1..], values)
    ensures Numbers(k, stack, [num] + values)
  {
    forall i | 0 < i < |stack| ensures stack[i] in k && k[stack[i]].num == ([num] + values)[i] {
      assert stack[1..][i - 1] == stack[i];
    }
  }

  lemma MakeKeeps(l: List, stage: Stage, node: nat, addr: nat, num: int)
    requires Mem(l, stage, node) && stage in {Alloc, Link} && CanStep(l, stage, addr)
    ensures var (m, stage', node') := Step(l, stage, node, addr, num); Mem(m, stage', node')
  {
    hide Chain, Numbers, Addresses;
    var m := Step(l, stage, node, addr, num).0;
    NotAddress(l.stack, addr);
    Frame(l.heap, m.heap, l.head, l.stack, l.values);
    if stage == Alloc {
      assert m.heap.Keys == l.heap.Keys + {addr};
      assert Mem(m, Link, addr);
    } else {
      assert m.heap.Keys == l.heap.Keys;
      assert Mem(m, SetHead, node);
    }
  }

  lemma PushKeeps(l: List, stage: Stage, node: nat, addr: nat, num: int)
    requires Mem(l, stage, node) && stage in {SetHead, SetNum}
    ensures var (m, stage', node') := Step(l, stage, node, addr, num); Mem(m, stage', node')
  {
    hide Chain, Numbers, Addresses, Replay;
    var m := Step(l, stage, node, addr, num).0;
    ReplaySnoc(l.log, Push(num));
    if stage == SetHead {
      ChainPush(l.heap, l.head, l.stack, node);
      assert Mem(m, SetNum, node);
    } else {
      ChainHead(l.heap, l.head, l.stack);
      NumberSet(l.heap, l.head, l.stack, num, l.values);
      assert m.heap.Keys == l.heap.Keys;
      assert Mem(m, Leave, node);
    }
  }

  lemma PopKeeps(l: List, stage: Stage, node: nat, addr: nat, num: int)
    requires Mem(l, stage, node) && stage in {Take, Advance, Print, Free} && (stage == Advance ==> l.stack != [])
    ensures var (m, stage', node') := Step(l, stage, node, addr, num); Mem(m, stage', node')
  {
    hide Chain, Numbers, Addresses, Replay;
    var m := Step(l, stage, node, addr, num).0;
    if stage == Advance {
      ChainPop(l.heap, l.head, l.stack);
      NumberFirst(l.heap, l.head, l.stack, l.values);
      assert Mem(m, Print, node);
    } else if stage == Print {
      ReplaySnoc(l.log, Pop(l.heap[node].num));
      assert Mem(m, Free, node);
    } else if stage == Free {
      assert m.heap.Keys == l.heap.Keys - {node};
      NotAddress(l.stack, node);
      Frame(l.heap, m.heap, l.head, l.stack, l.values);
      assert Mem(m, Leave, node);
    }
  }

  lemma NotAddress(stack: seq<nat>, node: nat)
    ensures node in Addresses(stack) <==> node in stack
  {
  }

  /** Every statement keeps the list whole, provided that the pop finds a node. */
  lemma StepKeeps(l: List, stage: Stage, node: nat, addr: nat, num: int)
    requires Mem(l, stage, node) && stage != Leave && CanStep(l, stage, addr) && (stage == Advance ==> l.stack != [])
    ensures var (m, stage', node') := Step(l, stage, node, addr, num); Mem(m, stage', node')
  {
    hide Mem;
    if stage in {Alloc, Link} {
      MakeKeeps(l, stage, node, addr, num);
    } else if stage in {SetHead, SetNum} {
      PushKeeps(l, stage, node, addr, num);
    } else {
      PopKeeps(l, stage, node, addr, num);
    }
  }

  lemma ChainHead(h: map<nat, Cell>, head: nat, stack: seq<nat>)
    requires Chain(h, head, stack) && stack != []
    ensures head == stack[0] && head in h
  {
  }

  lemma NumberFirst(h: map<nat, Cell>, head: nat, stack: seq<nat>, values: seq<int>)
    requires Chain(h, head, stack) && stack != [] && Numbers(h, stack, values)
    ensures values != [] && head in h && h[head].num == values[0] && Numbers(h, stack[1..], values[1..])
  {
  }

  /** The statements of a critical section in their order. */
  lemma NextStage(l: List, stage: Stage, node: nat, addr: nat, num: int)
    requires stage != Leave && CanStep(l, stage, addr)
    ensures var (m, next, local) := Step(l, stage, node, addr, num);
      && (next == match stage
            case Alloc => Link case Link => SetHead case SetHead => SetNum case SetNum => Leave
            case Take => Advance case Advance => Print case Print => Free case Free => Leave)
      && (if stage == SetHead then |m.stack| == |l.stack| + 1 else |m.stack| <= |l.stack|)
  {
  }

  lemma StackLength(l: List, stage: Stage, node: nat, addr: nat, num: int)
    requires Mem(l, stage, node) && stage != Leave && CanStep(l, stage, addr) && (stage == Advance ==> l.stack != [])
    ensures |Step(l, stage, node, addr, num).0.stack| ==
      |l.stack| + (if stage == SetHead then 1 else 0) - (if stage == Advance then 1 else 0)
  {
    hide Numbers;
  }

  /** Entering and leaving a critical section ask for the same of the list. */
  lemma AtRest(l: List)
    ensures forall node :: Mem(l, Leave, node) ==> Mem(l, Leave, 0) && Mem(l, Alloc, 0) && Mem(l, Take, 0)
    ensures forall node :: Mem(l, Advance, node) ==> Mem(l, Leave, 0) && (l.head == 0 <==> l.stack == [])
  {
    hide Numbers;
  }

  /** The statements of a producer one after the other push its number. */
  lemma PushTurn(l: List, addr: nat, num: int) returns (l1: List, l2: List, l3: List, l4: List)
    requires Mem(l, Alloc, 0) && CanStep(l, Alloc, addr)
    ensures Step(l, Alloc, 0, addr, num) == (l1, Link, addr)
    ensures Step(l1, Link, addr, addr, num) == (l2, SetHead, addr)
    ensures Step(l2, SetHead, addr, addr, num) == (l3, SetNum, addr)
    ensures Step(l3, SetNum, addr, addr, num) == (l4, Leave, addr)
    ensures !l4.fault && l4.log == l.log + [Push(num)] && l4.values == [num] + l.values && l4.stack == [addr] + l.stack
  {
    hide Chain, Numbers, Live, Replay;
    l1 := Step(l, Alloc, 0, addr, num).0;
    l2 := Step(l1, Link, addr, addr, num).0;
    l3 := Step(l2, SetHead, addr, addr, num).0;
    l4 := Step(l3, SetNum, addr, addr, num).0;
  }

  lemma TopNode(l: List)
    requires Mem(l, Take, 0) && l.stack != []
    ensures !l.fault && l.head != 0 && l.head in l.heap && l.values != [] && l.heap[l.head].num == l.values[0]
  {
    hide Live, Replay;
    ChainHead(l.heap, l.head, l.stack);
    NumberFirst(l.heap, l.head, l.stack, l.values);
  }

  lemma AdvanceStep(l: List, node: nat)
    requires l.head in l.heap && l.stack != []
    ensures Step(l, Advance, node, 0, 0) ==
      (l.(head := l.heap[l.head].next, stack := l.stack[1..]), Print, node)
  {
  }

  lemma PrintStep(l: List, node: nat)
    requires node in l.heap && l.values != []
    ensures Step(l, Print, node, 0, 0) ==
      (l.(log := l.log + [Pop(l.heap[node].num)], values := l.values[1..]), Stage.Free, node)
  {
  }

  lemma FreeStep(l: List, node: nat)
    requires node in l.heap
    ensures Step(l, Stage.Free, node, 0, 0) == (l.(heap := l.heap - {node}), Leave, node)
  {
  }

  /** The statements of a consumer one after the other pop the number on top. */
  lemma PopTurn(l: List) returns (l1: List, l2: List, l3: List)
    requires Mem(l, Take, 0) && l.stack != []
    ensures l.head != 0 && Step(l, Take, 0, 0, 0) == (l, Advance, l.head)
    ensures Step(l, Advance, l.head, 0, 0) == (l1, Print, l.head)
    ensures Step(l1, Print, l.head, 0, 0) == (l2, Stage.Free, l.head)
    ensures Step(l2, Stage.Free, l.head, 0, 0) == (l3, Leave, l.head)
    ensures l.values != [] && !l3.fault && l3.log == l.log + [Pop(l.values[0])]
    ensures l3.values == l.values[1..] && l3.stack == l.stack[1..]
  {
    TopNode(l);
    assert Step(l, Take, 0, 0, 0) == (l, Advance, l.head);
    hide Mem, Step;
    var node := l.head;
    l1 := l.(head := l.heap[node].next, stack := l.stack[1..]);
    l2 := l1.(log := l.log + [Pop(l.heap[node].num)], values := l.values[1..]);
    l3 := l2.(heap := l.heap - {node});
    AdvanceStep(l, node);
    PrintStep(l1, node);
    FreeStep(l2, node);
  }
}

/**
 Reaping children in a SIGCHLD handler, as in sigchild.c and server_process.c. The signal has one pending bit
 however many children die; it is kept while the signal is blocked, dropped while it is unblocked without a
 handler, and masked while the handler runs (section 2.4 of XSH, POSIX.1-2017, with the Linux behaviour that
 a blocked SIGCHLD stays pending). The parent's main program is a script of the calls that matter; children
 die at any moment.
 */
module Reaper {
  datatype Call = Block | Fork | Register | Unblock

  /** Where the parent is: in its main program, in the loop of the handler, or behind that loop. */
  datatype Handler = Outside | Looping | Leaving

  datatype State = State(
    script: seq<Call>, handler: Handler, pending: bool, blocked: bool, registered: bool,
    forked: nat, alive: set<nat>, zombies: set<nat>, reaped: set<nat>)

  /** `WaitPid(p)` is `waitpid(-1, NULL, WNOHANG)`; the kernel picks zombie `p` when there is one. */
  datatype Action = Main | Die(p: nat) | Deliver | WaitPid(p: nat) | Return

  function Init(script: seq<Call>): State {
    State(script, Outside, false, false, false, 0, {}, {}, {})
  }

  predicate Enabled(s: State, a: Action) {
    match a
    case Main => s.handler == Outside && s.script != []
    case Die(p) => p in s.alive
    case Deliver => s.pending && !s.blocked && s.registered && s.handler == Outside
    case WaitPid(p) => s.handler == Looping && (s.zombies != {} ==> p in s.zombies)
    case Return => s.handler == Leaving
  }

  function Apply(s: State, a: Action): State
    requires Enabled(s, a)
  {
    match a
    case Main => MainStep(s.(script := s.script[1..]), s.script[0])
    case Die(p) =>
      s.(alive := s.alive - {p}, zombies := s.zombies + {p}, pending := s.pending || s.blocked || s.registered)
    case Deliver => s.(pending := false, handler := Looping)
    case WaitPid(p) =>
      if s.zombies != {} then s.(zombies := s.zombies - {p}, reaped := s.reaped + {p}) else s.(handler := Leaving)
    case Return => s.(handler := Outside)
  }

  function MainStep(s: State, call: Call): State {
    match call
    case Block => s.(blocked := true)
    case Fork => s.(forked := s.forked + 1, alive := s.alive + {s.forked})
    case Register => s.(registered := true)
    case Unblock => s.(blocked := false, pending := s.pending && s.registered)
  }

  ghost predicate Trace(s: State, run: seq<Action>, t: State)
    decreases |run|
  {
    if run == [] then s == t else Enabled(s, run[0]) && Trace(Apply(s, run[0]), run[1..], t)
  }

  ghost predicate Reachable(script: seq<Call>, s: State) {
    exists run :: Trace(Init(script), run, s)
  }

  // ---- no forgotten zombie ----

  /** A dead child not yet reaped will be: the signal is pending or the reap loop is still running. */
  predicate Remembered(s: State) { s.zombies != {} ==> s.pending || s.handler == Looping }

  /** From the first fork on, the rest of the script keeps the signal blocked or the handler registered. */
  predicate Guarded(script: seq<Call>, blocked: bool, registered: bool, forked: bool) {
    && (forked ==> blocked || registered)
    && (script == [] || match script[0]
        case Block => Guarded(script[1..], true, registered, forked)
        case Fork => Guarded(script[1..], blocked, registered, true)
        case Register => Guarded(script[1..], blocked, true, forked)
        case Unblock => Guarded(script[1..], false, registered, forked))
  }

  predicate GuardedFrom(s: State) { Guarded(s.script, s.blocked, s.registered, s.forked > 0) }

  /** Every child forked is alive, a zombie or reaped, and only one of these. */
  ghost predicate Partition(s: State) {
    && s.alive !! s.zombies && s.alive !! s.reaped && s.zombies !! s.reaped
    && forall p: nat :: p in s.alive || p in s.zombies || p in s.reaped <==> p < s.forked
  }

  ghost predicate Inv(s: State) { Partition(s) && GuardedFrom(s) && Remembered(s) }

  lemma PartitionKept(s: State, a: Action)
    requires Partition(s) && Enabled(s, a)
    ensures Partition(Apply(s, a))
  {
  }

  lemma StepKeeps(s: State, a: Action)
    requires Inv(s) && Enabled(s, a)
    ensures Inv(Apply(s, a))
  {
    PartitionKept(s, a);
    ChildrenForked(s);
  }

  lemma ChildrenForked(s: State)
    requires Partition(s)
    ensures s.alive != {} || s.zombies != {} ==> s.forked > 0
  {
    assert forall p :: p in s.alive || p in s.zombies ==> p < s.forked;
  }

  lemma {:induction false} TraceKeeps(s: State, run: seq<Action>, t: State)
    requires Partition(s) && Trace(s, run, t)
    ensures Partition(t) && (Inv(s) ==> Inv(t))
    decreases |run|
  {
    if run != [] {
      PartitionKept(s, run[0]);
      if Inv(s) { StepKeeps(s, run[0]); }
      TraceKeeps(Apply(s, run[0]), run[1..], t);
    }
  }

  /** In every run, whatever the script, forked = alive + zombies + reaped without overlap. */
  lemma ChildrenPartitioned(script: seq<Call>, s: State)
    requires Reachable(script, s)
    ensures Partition(s)
  {
    var run :| Trace(Init(script), run, s);
    TraceKeeps(Init(script), run, s);
  }

  lemma {:induction false} TraceSnoc(s: State, run: seq<Action>, t: State, a: Action)
    requires Trace(s, run, t) && Enabled(t, a)
    ensures Trace(s, run + [a], Apply(t, a))
    decreases |run|
  {
    if run == [] {
      assert run + [a] == [a] && [a][1..] == [];
    } else {
      assert (run + [a])[1..] == run[1..] + [a];
      TraceSnoc(Apply(s, run[0]), run[1..], t, a);
    }
  }

  lemma ReachStep(script: seq<Call>, s: State, a: Action)
    requires Reachable(script, s) && Enabled(s, a)
    ensures Reachable(script, Apply(s, a))
  {
    var run :| Trace(Init(script), run, s);
    TraceSnoc(Init(script), run, s, a);
  }

  /** Run the script alone to the point where it is exposed, and let a child die there. */
  lemma {:induction false} Forgotten(script: seq<Call>, s: State) returns (t: State)
    requires Reachable(script, s) && !GuardedFrom(s)
    requires s.handler == Outside && !s.pending && s.zombies == {} && (s.forked > 0 ==> 0 in s.alive)
    ensures Reachable(script, t) && !Remembered(t)
    decreases |s.script|
  {
    if s.forked > 0 && !s.blocked && !s.registered {
      ReachStep(script, s, Die(0));
      t := Apply(s, Die(0));
    } else {
      ReachStep(script, s, Main);
      t := Forgotten(script, Apply(s, Main));
    }
  }

  /** No zombie is ever forgotten exactly when the script guards every fork: block or register first. */
  lemma RememberedIff(script: seq<Call>)
    ensures Guarded(script, false, false, false) <==> forall s :: Reachable(script, s) ==> Remembered(s)
  {
    if Guarded(script, false, false, false) {
      forall s | Reachable(script, s) ensures Remembered(s) {
        var run :| Trace(Init(script), run, s);
        TraceKeeps(Init(script), run, s);
      }
    } else {
      assert Trace(Init(script), [], Init(script));
      var t := Forgotten(script, Init(script));
    }
  }

  // ---- the two programs ----

  function Forks(n: nat): seq<Call> { seq(n, _ => Fork) }

  /** sigchild.c: block, fork, register, unblock. */
  function SigchildMain(children: nat): seq<Call> { [Block] + Forks(children) + [Register, Unblock] }

  /** server_process.c: register, then fork for every connection. */
  function ServerMain(connections: nat): seq<Call> { [Register] + Forks(connections) }

  /** sigchild.c without its signal mask. */
  function UnmaskedMain(children: nat): seq<Call> { Forks(children) + [Register] }

  lemma {:induction false} ForksGuarded(n: nat, rest: seq<Call>, blocked: bool, registered: bool, forked: bool)
    requires blocked || registered
    ensures Guarded(Forks(n) + rest, blocked, registered, forked)
      <==> Guarded(rest, blocked, registered, forked || n > 0)
    decreases n
  {
    var script := Forks(n) + rest;
    if n == 0 {
      assert script == rest;
    } else {
      assert script[1..] == Forks(n - 1) + rest;
      ForksGuarded(n - 1, rest, blocked, registered, true);
    }
  }

  lemma ProgramsGuarded(n: nat)
    ensures Guarded(SigchildMain(n), false, false, false) && Guarded(ServerMain(n), false, false, false)
  {
    var tail := [Register, Unblock];
    assert SigchildMain(n)[1..] == Forks(n) + tail;
    ForksGuarded(n, tail, true, false, false);
    assert tail[1..] == [Unblock] && [Unblock][1..] == [];
    assert Guarded(tail, true, false, n > 0);
    assert ServerMain(n)[1..] == Forks(n) + [];
    ForksGuarded(n, [], false, true, false);
  }

  /** Both programs remember every zombie; without the mask the first one would not, as soon as it forks. */
  lemma ProgramsRemember(n: nat)
    ensures forall s :: Reachable(SigchildMain(n), s) || Reachable(ServerMain(n), s) ==> Remembered(s)
    ensures n > 0 ==> exists s :: Reachable(UnmaskedMain(n), s) && !Remembered(s)
  {
    ProgramsGuarded(n);
    RememberedIff(SigchildMain(n));
    RememberedIff(ServerMain(n));
    if n > 0 {
      assert UnmaskedMain(n)[0] == Fork;
      assert !Guarded(UnmaskedMain(n), false, false, false) by {
        assert !Guarded(UnmaskedMain(n)[1..], false, false, true);
      }
      RememberedIff(UnmaskedMain(n));
    }
  }

  // ---- every zombie is reaped ----

  predicate ParentStep(a: Action) { a.Deliver? || a.WaitPid? || a == Return }

  /** What is left to do in the handler. */
  function Work(s: State): nat {
    |s.zombies| + (if s.pending then 3 else 0) + match s.handler case Outside => 0 case Looping => 2 case Leaving => 1
  }

  lemma StepWorks(s: State, a: Action)
    requires Enabled(s, a) && ParentStep(a)
    ensures var m := Apply(s, a);
      Work(m) + 1 <= Work(s) && m.alive == s.alive && m.blocked == s.blocked && m.registered == s.registered
  {
    if a.WaitPid? && s.zombies != {} {
      assert |s.zombies - {a.p}| == |s.zombies| - 1;
    }
  }

  lemma {:induction false} WorkDecreases(s: State, run: seq<Action>, t: State)
    requires Trace(s, run, t) && forall a :: a in run ==> ParentStep(a)
    ensures |run| + Work(t) <= Work(s) && t.alive == s.alive && t.blocked == s.blocked && t.registered == s.registered
    decreases |run|
  {
    hide Apply, Work;
    if run != [] {
      StepWorks(s, run[0]);
      WorkDecreases(Apply(s, run[0]), run[1..], t);
    }
  }

  /**
   Once all children are dead and the handler is registered and unblocked, the parent needs at most |zombies| + 5
   steps, and when it has none left every child is reaped.
   */
  lemma AllReaped(script: seq<Call>, s: State, run: seq<Action>, t: State)
    requires Guarded(script, false, false, false) && Reachable(script, s)
    requires s.alive == {} && s.registered && !s.blocked
    requires Trace(s, run, t) && forall a :: a in run ==> ParentStep(a)
    ensures |run| <= |s.zombies| + 5
    ensures (forall a :: ParentStep(a) ==> !Enabled(t, a)) ==>
      t.zombies == {} && forall p: nat :: p in t.reaped <==> p < t.forked
  {
    var pre :| Trace(Init(script), pre, s);
    TraceKeeps(Init(script), pre, s);
    WorkDecreases(s, run, t);
    TraceKeeps(s, run, t);
    if forall a :: ParentStep(a) ==> !Enabled(t, a) {
      NothingLeft(t);
    }
  }

  lemma NothingLeft(t: State)
    requires Inv(t) && t.registered && !t.blocked && t.alive == {} && forall a :: ParentStep(a) ==> !Enabled(t, a)
    ensures t.zombies == {} && forall p: nat :: p in t.reaped <==> p < t.forked
  {
    assert !Enabled(t, Deliver) && !Enabled(t, Return);
    assert forall p :: p in t.zombies ==> !Enabled(t, WaitPid(p));
    assert !Enabled(t, WaitPid(0));
  }

  // ---- what the two programs come to ----

  /** What the rest of a script makes of the mask, the handler and the number of children. */
  function Ends(script: seq<Call>, blocked: bool, registered: bool, forked: nat): (bool, bool, nat) {
    if script == [] then (blocked, registered, forked) else
    match script[0]
    case Block => Ends(script[1..], true, registered, forked)
    case Fork => Ends(script[1..], blocked, registered, forked + 1)
    case Register => Ends(script[1..], blocked, true, forked)
    case Unblock => Ends(script[1..], false, registered, forked)
  }

  function EndsFrom(s: State): (bool, bool, nat) { Ends(s.script, s.blocked, s.registered, s.forked) }

  lemma {:induction false} EndsKept(s: State, run: seq<Action>, t: State)
    requires Trace(s, run, t)
    ensures EndsFrom(t) == EndsFrom(s)
    decreases |run|
  {
    if run != [] {
      EndsKept(Apply(s, run[0]), run[1..], t);
    }
  }

  /** In every run, when main is through, mask, handler and number of children are those of the script. */
  lemma ScriptEnds(script: seq<Call>, s: State)
    requires Reachable(script, s) && s.script == []
    ensures (s.blocked, s.registered, s.forked) == Ends(script, false, false, 0)
  {
    var run :| Trace(Init(script), run, s);
    EndsKept(Init(script), run, s);
  }

  lemma {:induction false} ForksEnd(n: nat, rest: seq<Call>, blocked: bool, registered: bool, forked: nat)
    ensures Ends(Forks(n) + rest, blocked, registered, forked) == Ends(rest, blocked, registered, forked + n)
    decreases n
  {
    if n == 0 {
      assert Forks(n) + rest == rest;
    } else {
      assert (Forks(n) + rest)[1..] == Forks(n - 1) + rest;
      ForksEnd(n - 1, rest, blocked, registered, forked + 1);
    }
  }

  /** When main is through, either program has forked all children, and its handler is active. */
  lemma ProgramsEnd(n: nat, script: seq<Call>, s: State)
    requires script == SigchildMain(n) || script == ServerMain(n)
    requires Reachable(script, s) && s.script == []
    ensures s.registered && !s.blocked && s.forked == n
  {
    ScriptEnds(script, s);
    if script == SigchildMain(n) {
      var tail := [Register, Unblock];
      assert script[1..] == Forks(n) + tail && tail[1..] == [Unblock] && [Unblock][1..] == [];
      ForksEnd(n, tail, true, false, 0);
      assert Ends(tail, true, false, n) == Ends([Unblock], true, true, n) == Ends([], false, true, n);
    } else {
      assert script[1..] == Forks(n) + [];
      ForksEnd(n, [], false, true, 0);
    }
  }

  /**
   Either program reaps every child: once main is through and all children are dead, the parent makes at most
   zombies + 5 steps, and when it has none left the children reaped are exactly the `n` that were forked.
   */
  lemma ProgramsReapAll(n: nat, script: seq<Call>, s: State, run: seq<Action>, t: State)
    requires script == SigchildMain(n) || script == ServerMain(n)
    requires Reachable(script, s) && s.script == [] && s.alive == {}
    requires Trace(s, run, t) && forall a :: a in run ==> ParentStep(a)
    ensures |run| <= |s.zombies| + 5
    ensures (forall a :: ParentStep(a) ==> !Enabled(t, a)) ==>
      t.zombies == {} && forall p: nat :: p in t.reaped <==> p < n
  {
    hide Trace, Guarded, Apply;
    ProgramsEnd(n, script, s);
    ProgramsGuarded(n);
    AllReaped(script, s, run, t);
    SameForked(s, run, t);
  }

  lemma {:induction false} SameForked(s: State, run: seq<Action>, t: State)
    requires Trace(s, run, t) && forall a :: a in run ==> ParentStep(a)
    ensures t.forked == s.forked
    decreases |run|
  {
    if run != [] {
      assert run[0] in run && forall a :: a in run[1..] ==> a in run;
      SameForked(Apply(s, run[0]), run[1..], t);
    }
  }

  // ---- whole runs ----

  /** Steps that a script still asks for: one for each call, and five for what becomes of each child. */
  function Asked(script: seq<Call>): nat {
    if script == [] then 0 else (if script[0] == Fork then 6 else 1) + Asked(script[1..])
  }

  function Measure(s: State): nat { Asked(s.script) + 5 * |s.alive| + Work(s) }

  lemma StepMeasure(s: State, a: Action)
    requires Partition(s) && Enabled(s, a)
    ensures Measure(Apply(s, a)) < Measure(s)
  {
    match a
    case Main => MainMeasure(s);
    case Die(p) => DieMeasure(s, p);
    case _ => ParentMeasure(s, a);
  }

  lemma MainMeasure(s: State)
    requires Partition(s) && Enabled(s, Main)
    ensures Measure(Apply(s, Main)) < Measure(s)
  {
    if s.script[0] == Fork {
      assert s.forked !in s.alive;
      assert |s.alive + {s.forked}| == |s.alive| + 1;
    }
  }

  lemma DieMeasure(s: State, p: nat)
    requires Partition(s) && p in s.alive
    ensures Measure(Apply(s, Die(p))) < Measure(s)
  {
    hide Asked;
    assert |s.alive - {p}| == |s.alive| - 1;
    assert p !in s.zombies && |s.zombies + {p}| == |s.zombies| + 1;
  }

  lemma ParentMeasure(s: State, a: Action)
    requires Enabled(s, a) && ParentStep(a)
    ensures Measure(Apply(s, a)) < Measure(s)
  {
    StepWorks(s, a);
    hide Asked, Work;
  }

  lemma {:induction false} RunMeasure(s: State, run: seq<Action>, t: State)
    requires Partition(s) && Trace(s, run, t)
    ensures |run| + Measure(t) <= Measure(s)
    decreases |run|
  {
    hide Partition, Apply, Enabled, Measure;
    if run != [] {
      PartitionKept(s, run[0]);
      StepMeasure(s, run[0]);
      RunMeasure(Apply(s, run[0]), run[1..], t);
    }
  }

  lemma {:induction false} AskedForks(n: nat, rest: seq<Call>)
    ensures Asked(Forks(n) + rest) == 6 * n + Asked(rest)
    decreases n
  {
    if n == 0 {
      assert Forks(n) + rest == rest;
    } else {
      assert (Forks(n) + rest)[1..] == Forks(n - 1) + rest;
      AskedForks(n - 1, rest);
    }
  }

  lemma ProgramsAsk(n: nat)
    ensures Asked(SigchildMain(n)) == 6 * n + 3 && Asked(ServerMain(n)) == 6 * n + 1
  {
    var tail := [Register, Unblock];
    assert SigchildMain(n)[1..] == Forks(n) + tail && tail[1..] == [Unblock] && [Unblock][1..] == [];
    AskedForks(n, tail);
    assert Asked(tail) == 1 + Asked([Unblock]) == 2 + Asked([]);
    assert ServerMain(n)[1..] == Forks(n) + [];
    AskedForks(n, []);
  }

  /** When nothing can happen any more, main is through and every child is dead. */
  lemma Stopped(s: State)
    requires forall a :: !Enabled(s, a)
    ensures s.script == [] && s.alive == {} && forall a :: ParentStep(a) ==> !Enabled(s, a)
  {
    assert s.script != [] && s.handler == Outside ==> Enabled(s, Main);
    assert s.handler == Leaving ==> Enabled(s, Return);
    assert s.handler == Looping && s.zombies == {} ==> Enabled(s, WaitPid(0));
    assert forall p: nat :: s.handler == Looping && p in s.zombies ==> Enabled(s, WaitPid(p));
    assert forall p: nat :: p in s.alive ==> Enabled(s, Die(p));
  }

  /**
   Every run of either program, whenever its children die, is at most 6 * n + 3 steps long, and where it can go no
   further all n children are reaped.
   */
  lemma EveryRunReaps(n: nat, script: seq<Call>, run: seq<Action>, s: State)
    requires script == SigchildMain(n) || script == ServerMain(n)
    requires Trace(Init(script), run, s)
    ensures |run| <= 6 * n + 3
    ensures (forall a :: !Enabled(s, a)) ==>
      s.script == [] && s.alive == {} && s.zombies == {} && forall p: nat :: p in s.reaped <==> p < n
  {
    RunMeasure(Init(script), run, s);
    ProgramsAsk(n);
    if forall a :: !Enabled(s, a) {
      hide Enabled, Ends;
      Stopped(s);
      assert Reachable(script, s);
      assert Trace(s, [], s);
      ProgramsReapAll(n, script, s, [], s);
    }
  }
}

/** The handler itself, on the children of one process, any of which may die while it runs. */
module ProcessTables {
  class ProcessTable {
    var alive: set<nat>
    var zombies: set<nat>
    var reaped: set<nat>
    var pending: bool

    ghost predicate Valid()
      reads this
    {
      alive !! zombies && (forall p :: p in alive ==> p > 0) && forall p :: p in zombies ==> p > 0
    }

    /** Any number of children die; the signal is left pending for all of them together. */
    method Deaths()
      requires Valid()
      modifies this`alive, this`zombies, this`pending
      ensures Valid() && alive <= old(alive) && zombies == old(zombies) + (old(alive) - alive)
      ensures pending == (old(pending) || alive != old(alive))
    {
      var dying: set<nat> :| dying <= alive;
      alive, zombies, pending := alive - dying, zombies + dying, pending || dying != {};
    }

    /** `waitpid(-1, NULL, WNOHANG)`. */
    method WaitPid() returns (ret: int)
      requires Valid()
      modifies this`zombies, this`reaped
      ensures Valid()
      ensures old(zombies) != {} ==>
        && ret > 0 && ret in old(zombies)
        && zombies == old(zombies) - {ret as nat} && reaped == old(reaped) + {ret as nat}
      ensures old(zombies) == {} ==> unchanged(this) && ret == if alive == {} then -1 else 0
    {
      if zombies != {} {
        var p: nat :| p in zombies;
        ret := p;
        zombies, reaped := zombies - {p}, reaped + {p};
      } else {
        ret := if alive == {} then -1 else 0;
      }
    }

    /**
     The handler: wait until there is nothing left to reap. All zombies that the signal stood for are reaped, and so
     are children that die before the last wait. One that dies behind it leaves the signal pending again.
     */
    method Handler()
      requires Valid()
      modifies this
      ensures Valid() && alive <= old(alive) && reaped >= old(reaped) + old(zombies)
      ensures reaped + zombies == old(reaped) + old(zombies) + (old(alive) - alive)
      ensures zombies <= old(alive) - alive && (zombies != {} ==> pending)
    {
      pending := false;
      while true
        invariant Valid() && alive <= old(alive)
        invariant reaped + zombies == old(reaped) + old(zombies) + (old(alive) - alive)
        decreases alive + zombies
      {
        Deaths();
        ghost var gone := reaped + zombies;
        assert gone == old(reaped) + old(zombies) + (old(alive) - alive);
        var ret := WaitPid();
        assert reaped + zombies == gone;
        if ret > 0 {
        } else if ret == 0 {
          break;
        } else if ret == -1 {
          break;
        }
      }
      Deaths();
    }
  }
}

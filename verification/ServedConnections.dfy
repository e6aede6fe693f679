/**
 The event loop and the request machine together: what the parses of the connections are while the main loop, the
 queue and any number of workers interleave. `process_read` is not one step here. A worker turns its loop once per
 step, and between two turns every other thread may move, read into the same buffer, or turn the loop of the same
 connection, if it gets hold of it.
 */
module ServedConnections {
  import opened CStrings
  import opened Options
  import opened RequestMachine
  import opened RequestGrammar
  import E = EventLoop
  import P = ThreadPools

  type Fd = E.Fd

  /**
   A connection object: the bytes delivered to it, read by read, and its parse. `code` logs what `process_read` returned
   last, and `owed` that bytes were delivered since then.
   */
  datatype Record = Record(delivered: seq<string>, parse: Parse, code: Code, owed: bool) {
    function Received(): string { Concat(delivered) }
  }

  type Conn = k: Record | k.parse.start <= k.parse.checked <= |k.Received()|
    witness Record([], INIT, NoRequest, false)

  const FRESH: Conn := Record([], INIT, NoRequest, false)

  /** `conns` is the array of connection objects; `returned` holds what `process_read` returned to a worker. */
  datatype World = World(server: E.Server, conns: map<Fd, Conn>, returned: map<nat, Code>)

  datatype Action =
    | Loop(a: E.Action)           // any other step of the main loop or of the pool
    | Deliver(bytes: string)      // the connection at the head of the batch is read and handed to append
    | Turn(j: nat)                // worker j turns the loop of process_read once
    | Finish(j: nat, close: bool) // worker j leaves process

  function Init(c: E.Config): World {
    World(E.Init(c), map[], map[])
  }

  function Of(w: World, fd: Fd): Conn {
    if fd in w.conns then w.conns[fd] else FRESH
  }

  /** What a worker makes of the code that `process_read` returned to it. */
  function ResultOf(code: Code, close: bool): E.Result {
    if code == NoRequest then E.Again else if close then E.Close else E.Respond
  }

  /** Worker `j` is inside `process` and has not yet closed the connection. */
  predicate InProcess(w: World, j: nat) {
    j < |w.server.pool.workers| && w.server.pool.workers[j].Processing? && j !in w.server.leaving
  }

  ghost predicate Enabled(c: E.Config, w: World, a: Action) {
    match a
    case Loop(b) => b != E.Readable(true) && !b.Finish? && E.Enabled(c, w.server, b)
    case Deliver(_) => E.Enabled(c, w.server, E.Readable(true))
    case Turn(j) => InProcess(w, j) && j !in w.returned
    case Finish(j, _) => InProcess(w, j) && j in w.returned
  }

  function Delivered(k: Conn, bytes: string): Conn {
    ConcatNext(k.delivered + [bytes], |k.delivered|);
    assert (k.delivered + [bytes])[..|k.delivered|] == k.delivered;
    assert (k.delivered + [bytes])[..|k.delivered| + 1] == k.delivered + [bytes];
    k.(delivered := k.delivered + [bytes], owed := true)
  }

  function Turned(k: Conn): (Option<Code>, Conn) {
    var (code, q) := Iterate(k.Received(), k.parse);
    (code, if code.Some? then k.(parse := q, code := code.value, owed := false) else k.(parse := q))
  }

  function Apply(c: E.Config, w: World, a: Action): World
    requires Enabled(c, w, a)
  {
    match a
    case Loop(b) =>
      var t := w.(server := E.Apply(c, w.server, b));
      if b.Accept? && b.fd in t.server.open then t.(conns := w.conns[b.fd := FRESH])
      else if b.PoolStep? && b.a.Work? then t.(returned := w.returned - {b.a.j})
      else t
    case Deliver(bytes) =>
      var fd := w.server.batch[0].fd;
      w.(server := E.Apply(c, w.server, E.Readable(true)), conns := w.conns[fd := Delivered(Of(w, fd), bytes)])
    case Turn(j) =>
      var fd := w.server.pool.workers[j].r;
      var (code, k) := Turned(Of(w, fd));
      w.(conns := w.conns[fd := k], returned := if code.Some? then w.returned[j := code.value] else w.returned)
    case Finish(j, close) => w.(server := E.Apply(c, w.server, E.Finish(j, ResultOf(w.returned[j], close))))
  }

  ghost predicate Trace(c: E.Config, w: World, run: seq<Action>, t: World)
    decreases |run|
  {
    if run == [] then w == t else Enabled(c, w, run[0]) && Trace(c, Apply(c, w, run[0]), run[1..], t)
  }

  ghost predicate Reachable(c: E.Config, w: World) {
    exists run :: Trace(c, Init(c), run, w)
  }

  // ---- invariants ----

  /**
   What the parse of a connection is: after a return of `process_read`, the verdict and parse of the grammar on all
   bytes delivered; while a return is owed, a state from which the loop will come to them.
   */
  predicate Sound(k: Conn) {
    if k.owed then Run(k.Received(), k.parse) == Grammar(k.Received())
    else (k.code, k.parse) == Grammar(k.Received())
  }

  /** Ready for more bytes. */
  predicate Idle(k: Conn) { !k.owed && k.code == NoRequest }

  /** A verdict was returned, and nothing came since. */
  predicate Done(k: Conn) { !k.owed && k.code != NoRequest }

  /** What the place of a connection says about its parse. */
  ghost predicate Placed(w: World, fd: Fd) {
    var s, k := w.server, Of(w, fd);
    && (E.IsEnabled(s, fd) ==> if s.registered[fd].out then Done(k) else Idle(k))
    && (E.On(fd, E.In) in s.batch ==> Idle(k)) && (E.On(fd, E.Out) in s.batch ==> Done(k))
    && (E.Handing(s.pool.appenders, fd) > 0 || fd in s.pool.queue ==> k.owed)
    && (forall j :: 0 <= j < |s.pool.workers| && s.pool.workers[j] == P.Unlocking(fd) ==> k.owed)
    && (forall j :: 0 <= j < |s.pool.workers| && s.pool.workers[j] == P.Processing(fd) ==>
          if j in w.returned then !k.owed && k.code == w.returned[j] else k.owed)
  }

  ghost predicate Inv(c: E.Config, w: World) {
    E.Inv(c, w.server) && forall fd :: fd in w.server.open ==> Sound(Of(w, fd)) && Placed(w, fd)
  }

  /** A worker that holds the connection. */
  predicate HeldBy(s: E.Server, j: nat, fd: Fd) {
    j < |s.pool.workers| && (s.pool.workers[j] == P.Unlocking(fd) || s.pool.workers[j] == P.Processing(fd))
  }

  lemma HeldCounts(s: E.Server, j: nat, fd: Fd)
    requires HeldBy(s, j, fd)
    ensures E.Holding(s.pool.workers, fd) >= 1
    ensures forall i: nat :: i != j && HeldBy(s, i, fd) ==> E.Holding(s.pool.workers, fd) >= 2
  {
    var workers := s.pool.workers;
    assert workers[j] in multiset(workers);
    forall i: nat | i != j && HeldBy(s, i, fd) ensures E.Holding(workers, fd) >= 2 {
      assert workers[i] in multiset(workers);
      if workers[i] == workers[j] {
        E.Twice(workers, if i < j then i else j, if i < j then j else i);
      }
    }
  }

  lemma BatchCounts(events: seq<E.Event>, fd: Fd, kind: E.Kind)
    requires E.On(fd, kind) in events
    ensures E.Count(events, fd) >= 1
  {
    assert E.On(fd, kind) in multiset(events);
    match kind case In => case Out => case Hangup =>
  }

  /** A connection held by a worker is in no other place. */
  lemma OnlyHeld(s: E.Server, j: nat, fd: Fd)
    requires E.Exclusive(s) && HeldBy(s, j, fd)
    ensures fd in s.open && !E.IsEnabled(s, fd) && E.Handing(s.pool.appenders, fd) == 0 && fd !in s.pool.queue
    ensures forall kind :: E.On(fd, kind) !in s.batch
    ensures forall i :: 0 <= i < |s.pool.workers| && i != j ==>
      s.pool.workers[i] != P.Unlocking(fd) && s.pool.workers[i] != P.Processing(fd)
  {
    hide E.Handing, E.Holding, E.Count;
    HeldCounts(s, j, fd);
    assert E.Places(s, fd) == if fd in s.open then 1 else 0;
    forall kind | E.On(fd, kind) in s.batch ensures false { BatchCounts(s.batch, fd, kind); }
    forall i | 0 <= i < |s.pool.workers| && i != j
      ensures s.pool.workers[i] != P.Unlocking(fd) && s.pool.workers[i] != P.Processing(fd)
    {
      assert !HeldBy(s, i, fd);
    }
  }

  /** A connection that the main loop is appending is in no other place. */
  lemma OnlyHanded(s: E.Server, fd: Fd)
    requires E.Exclusive(s) && E.Handing(s.pool.appenders, fd) > 0
    ensures fd in s.open && !E.IsEnabled(s, fd) && fd !in s.pool.queue
    ensures forall kind :: E.On(fd, kind) !in s.batch
    ensures forall i :: 0 <= i < |s.pool.workers| ==>
      s.pool.workers[i] != P.Unlocking(fd) && s.pool.workers[i] != P.Processing(fd)
  {
    hide E.Handing, E.Holding, E.Count;
    assert E.Places(s, fd) == if fd in s.open then 1 else 0;
    forall kind | E.On(fd, kind) in s.batch ensures false { BatchCounts(s.batch, fd, kind); }
    forall i | 0 <= i < |s.pool.workers|
      ensures s.pool.workers[i] != P.Unlocking(fd) && s.pool.workers[i] != P.Processing(fd)
    {
      if HeldBy(s, i, fd) { HeldCounts(s, i, fd); }
    }
  }

  /** An armed connection is in no other place. */
  lemma OnlyArmed(s: E.Server, fd: Fd)
    requires E.Exclusive(s) && E.IsEnabled(s, fd)
    ensures fd in s.open && E.Handing(s.pool.appenders, fd) == 0 && fd !in s.pool.queue
    ensures forall kind :: E.On(fd, kind) !in s.batch
    ensures forall i :: 0 <= i < |s.pool.workers| ==>
      s.pool.workers[i] != P.Unlocking(fd) && s.pool.workers[i] != P.Processing(fd)
  {
    hide E.Handing, E.Holding, E.Count;
    assert E.Places(s, fd) == if fd in s.open then 1 else 0;
    forall kind | E.On(fd, kind) in s.batch ensures false { BatchCounts(s.batch, fd, kind); }
    forall i | 0 <= i < |s.pool.workers|
      ensures s.pool.workers[i] != P.Unlocking(fd) && s.pool.workers[i] != P.Processing(fd)
    {
      if HeldBy(s, i, fd) { HeldCounts(s, i, fd); }
    }
  }

  // ---- every step keeps the invariant ----

  /** Reading more bytes into an idle connection owes the grammar of all of them. */
  lemma DeliveredSound(k: Conn, bytes: string)
    requires Sound(k) && Idle(k)
    ensures Sound(Delivered(k, bytes))
  {
    hide Run, Grammar;
    ConcatNext(k.delivered + [bytes], |k.delivered|);
    assert (k.delivered + [bytes])[..|k.delivered|] == k.delivered;
    assert (k.delivered + [bytes])[..|k.delivered| + 1] == k.delivered + [bytes];
    ContinueGrammar(k.Received(), bytes);
  }

  lemma TurnedSound(k: Conn)
    requires Sound(k) && k.owed
    ensures var (code, q) := Turned(k);
      Sound(q) && if code.Some? then !q.owed && q.code == code.value else q.owed
  {
    hide Run, Grammar, Iterate;
    RunIterates(k.Received(), k.parse);
  }

  lemma FreshSound()
    ensures Sound(FRESH) && Idle(FRESH)
  {
    NothingReceived();
  }

  lemma WaitKeeps(c: E.Config, w: World, events: seq<E.Event>, fd: Fd)
    requires Enabled(c, w, Loop(E.Wait(events))) && Placed(w, fd)
    ensures Placed(Apply(c, w, Loop(E.Wait(events))), fd)
  {
    hide E.Handing, E.Count;
    var s := w.server;
    forall kind | E.On(fd, kind) in events ensures E.IsEnabled(s, fd) {
      BatchCounts(events, fd, kind);
      assert E.Count(events, fd) <= if E.IsEnabled(s, fd) then 1 else 0;
    }
  }

  lemma AcceptKeeps(c: E.Config, w: World, a: E.Action, fd: Fd)
    requires Enabled(c, w, Loop(a)) && a.Accept? && E.Exclusive(E.Apply(c, w.server, a))
    requires fd in w.server.open ==> Sound(Of(w, fd)) && Placed(w, fd)
    ensures var t := Apply(c, w, Loop(a)); fd in t.server.open ==> Sound(Of(t, fd)) && Placed(t, fd)
  {
    hide E.Exclusive, Sound, Placed, E.Apply;
    if fd in E.Apply(c, w.server, a).open {
      if fd == a.fd { AcceptFresh(c, w, a); } else { AcceptOther(c, w, a, fd); }
    }
  }

  lemma AcceptFresh(c: E.Config, w: World, a: E.Action)
    requires Enabled(c, w, Loop(a)) && a.Accept? && E.Exclusive(E.Apply(c, w.server, a))
    requires a.fd in E.Apply(c, w.server, a).open
    ensures var t := Apply(c, w, Loop(a)); Sound(Of(t, a.fd)) && Placed(t, a.fd)
  {
    hide E.Handing, E.Exclusive, Sound;
    var t := Apply(c, w, Loop(a));
    assert E.IsEnabled(t.server, a.fd);
    OnlyArmed(t.server, a.fd);
    FreshSound();
  }

  lemma AcceptOther(c: E.Config, w: World, a: E.Action, fd: Fd)
    requires Enabled(c, w, Loop(a)) && a.Accept? && fd != a.fd && fd in E.Apply(c, w.server, a).open
    requires fd in w.server.open ==> Sound(Of(w, fd)) && Placed(w, fd)
    ensures var t := Apply(c, w, Loop(a)); Sound(Of(t, fd)) && Placed(t, fd)
  {
    hide E.Handing, Sound;
    assert forall e :: e in w.server.batch[1..] ==> e in w.server.batch;
  }

  /** Closing a connection, or writing to one, takes nothing from the others. */
  lemma HeadKeeps(c: E.Config, w: World, a: E.Action, fd: Fd)
    requires Enabled(c, w, Loop(a)) && (a.Hup? || a.Readable? || a.Writable?)
    requires fd in w.server.open ==> Sound(Of(w, fd)) && Placed(w, fd)
    ensures var t := Apply(c, w, Loop(a)); fd in t.server.open ==> Sound(Of(t, fd)) && Placed(t, fd)
  {
    hide E.Handing, Sound;
    assert forall e :: e in w.server.batch[1..] ==> e in w.server.batch;
  }

  lemma AppendKeeps(c: E.Config, w: World, i: nat, fd: Fd)
    requires Enabled(c, w, Loop(E.PoolStep(P.Append(i)))) && |w.server.pool.appenders| == 1 && Placed(w, fd)
    ensures Placed(Apply(c, w, Loop(E.PoolStep(P.Append(i)))), fd)
  {
    hide E.Handing, E.Apply;
    var s := w.server;
    E.AppendDelta(c, s, i);
    var t := E.Apply(c, s, E.PoolStep(P.Append(i)));
    E.HandingUpdate(s.pool.appenders, i, t.pool.appenders[i], fd);
    E.HandingOne(s.pool.appenders[i], fd);
    assert s.pool.appenders == [s.pool.appenders[i]];
  }

  lemma WorkKeeps(c: E.Config, w: World, j: nat, fd: Fd)
    requires Enabled(c, w, Loop(E.PoolStep(P.Work(j)))) && Placed(w, fd)
    ensures Placed(Apply(c, w, Loop(E.PoolStep(P.Work(j)))), fd)
  {
    hide E.Handing;
    var s := w.server;
    var q := s.pool.queue;
    assert q != [] ==> q[0] in q && forall x :: x in q[1..] ==> x in q;
  }

  lemma DeliverKeeps(c: E.Config, w: World, bytes: string, fd: Fd)
    requires Enabled(c, w, Deliver(bytes)) && E.Exclusive(E.Apply(c, w.server, E.Readable(true)))
    requires |w.server.pool.appenders| == 1 && fd in w.server.open && Sound(Of(w, fd)) && Placed(w, fd)
    ensures var t := Apply(c, w, Deliver(bytes)); Sound(Of(t, fd)) && Placed(t, fd)
  {
    hide E.Handing, E.Exclusive, Sound;
    var s, t := w.server, Apply(c, w, Deliver(bytes));
    var head := s.batch[0].fd;
    assert s.batch[0] in s.batch && forall e :: e in s.batch[1..] ==> e in s.batch;
    assert t.server.pool.appenders == [P.AtLock(head)];
    E.HandingOne(P.AtLock(head), fd);
    if fd == head {
      assert s.batch[0] == E.On(fd, E.In);
      DeliveredSound(Of(w, fd), bytes);
      OnlyHanded(t.server, fd);
    }
  }

  lemma TurnKeeps(c: E.Config, w: World, j: nat, fd: Fd)
    requires Enabled(c, w, Turn(j)) && E.Exclusive(w.server)
    requires fd in w.server.open && Sound(Of(w, fd)) && Placed(w, fd)
    ensures var t := Apply(c, w, Turn(j)); Sound(Of(t, fd)) && Placed(t, fd)
  {
    hide E.Handing, E.Exclusive, E.IsEnabled, Sound, Turned;
    var s := w.server;
    if s.pool.workers[j].r == fd {
      assert HeldBy(s, j, fd);
      OnlyHeld(s, j, fd);
      TurnedSound(Of(w, fd));
    }
  }

  lemma FinishKeeps(c: E.Config, w: World, j: nat, close: bool, fd: Fd)
    requires Enabled(c, w, Finish(j, close)) && fd in w.server.open && Placed(w, fd)
    ensures var t := Apply(c, w, Finish(j, close)); fd in t.server.open ==> Placed(t, fd)
  {
    hide E.Handing;
  }

  lemma ServerKept(c: E.Config, w: World, a: Action)
    requires c.oneShot && E.Inv(c, w.server) && Enabled(c, w, a)
    ensures E.Inv(c, Apply(c, w, a).server)
  {
    hide E.Inv, E.Apply, E.Enabled, Turned, Delivered;
    match a
    case Loop(b) => E.StepKeeps(c, w.server, b);
    case Deliver(_) => E.StepKeeps(c, w.server, E.Readable(true));
    case Turn(_) =>
    case Finish(j, close) =>
      FinishEnabled(c, w, j, close);
      E.StepKeeps(c, w.server, E.Finish(j, ResultOf(w.returned[j], close)));
  }

  lemma FinishEnabled(c: E.Config, w: World, j: nat, close: bool)
    requires Enabled(c, w, Finish(j, close))
    ensures E.Enabled(c, w.server, E.Finish(j, ResultOf(w.returned[j], close)))
  {
  }

  lemma LoopKeeps(c: E.Config, w: World, b: E.Action, fd: Fd)
    requires Inv(c, w) && Enabled(c, w, Loop(b)) && E.Inv(c, E.Apply(c, w.server, b))
    requires fd in Apply(c, w, Loop(b)).server.open
    ensures var t := Apply(c, w, Loop(b)); Sound(Of(t, fd)) && Placed(t, fd)
  {
    hide E.Exclusive, E.Handing, E.Deliverable, Sound, Placed;
    match b
    case Wait(events) => WaitKeeps(c, w, events, fd);
    case Accept(_) => AcceptKeeps(c, w, b, fd);
    case PoolStep(x) => if x.Append? { AppendKeeps(c, w, x.i, fd); } else { WorkKeeps(c, w, x.j, fd); }
    case _ => HeadKeeps(c, w, b, fd);
  }

  lemma OthersOpen(c: E.Config, w: World, a: Action)
    requires Enabled(c, w, a) && !a.Loop?
    ensures Apply(c, w, a).server.open <= w.server.open
  {
    hide E.Deliverable, Turned, Delivered;
  }

  lemma StepKeeps(c: E.Config, w: World, a: Action)
    requires c.oneShot && Inv(c, w) && Enabled(c, w, a)
    ensures Inv(c, Apply(c, w, a))
  {
    ServerKept(c, w, a);
    hide E.Apply, E.Enabled, E.Exclusive, Sound, Placed, Turned, Delivered, Apply, Enabled;
    if !a.Loop? { OthersOpen(c, w, a); }
    forall fd | fd in Apply(c, w, a).server.open ensures Sound(Of(Apply(c, w, a), fd)) && Placed(Apply(c, w, a), fd) {
      match a
      case Loop(b) => LoopStep(c, w, b, fd);
      case Deliver(bytes) => DeliverStep(c, w, bytes, fd);
      case Turn(j) => TurnKeeps(c, w, j, fd);
      case Finish(j, close) => FinishStep(c, w, j, close, fd);
    }
  }

  lemma LoopStep(c: E.Config, w: World, b: E.Action, fd: Fd)
    requires Inv(c, w) && Enabled(c, w, Loop(b)) && E.Inv(c, Apply(c, w, Loop(b)).server)
    requires fd in Apply(c, w, Loop(b)).server.open
    ensures var t := Apply(c, w, Loop(b)); Sound(Of(t, fd)) && Placed(t, fd)
  {
    hide Inv, E.Inv, E.Enabled, Sound, Placed;
    LoopKeeps(c, w, b, fd);
  }

  lemma DeliverStep(c: E.Config, w: World, bytes: string, fd: Fd)
    requires Inv(c, w) && Enabled(c, w, Deliver(bytes)) && E.Inv(c, Apply(c, w, Deliver(bytes)).server)
    requires fd in w.server.open
    ensures var t := Apply(c, w, Deliver(bytes)); Sound(Of(t, fd)) && Placed(t, fd)
  {
    hide E.Enabled, E.Exclusive, Sound, Placed, Delivered;
    DeliverKeeps(c, w, bytes, fd);
  }

  lemma FinishStep(c: E.Config, w: World, j: nat, close: bool, fd: Fd)
    requires Inv(c, w) && Enabled(c, w, Finish(j, close)) && fd in w.server.open
    requires fd in Apply(c, w, Finish(j, close)).server.open
    ensures var t := Apply(c, w, Finish(j, close)); Sound(Of(t, fd)) && Placed(t, fd)
  {
    hide E.Inv, E.Apply, Sound, Placed;
    FinishKeeps(c, w, j, close, fd);
  }

  lemma {:induction false} TraceKeeps(c: E.Config, w: World, run: seq<Action>, t: World)
    requires c.oneShot && Inv(c, w) && Trace(c, w, run, t)
    ensures Inv(c, t)
    decreases |run|
  {
    hide Inv, Apply, Enabled;
    if run != [] {
      StepKeeps(c, w, run[0]);
      TraceKeeps(c, Apply(c, w, run[0]), run[1..], t);
    }
  }

  /** What `process_read` returned to every worker, and the parse it left, are those of the bytes delivered. */
  ghost predicate VerdictsHold(w: World) {
    forall j: nat :: InProcess(w, j) && j in w.returned ==>
      var k := Of(w, w.server.pool.workers[j].r); (w.returned[j], k.parse) == Grammar(k.Received())
  }

  /**
   A connection is armed for input, and read, exactly when its last call returned NO_REQUEST or there was none; it is
   armed for output, and written, exactly when it has a verdict.
   */
  ghost predicate ArmedAsDue(w: World) {
    && (forall fd :: E.IsEnabled(w.server, fd) ==>
          && fd in w.server.open && !Of(w, fd).owed
          && (w.server.registered[fd].out <==> Of(w, fd).code != NoRequest))
    && forall fd, kind :: E.On(fd, kind) in w.server.batch && kind != E.Hangup ==>
         && fd in w.server.open && !Of(w, fd).owed
         && (kind == E.Out <==> Of(w, fd).code != NoRequest)
  }

  lemma InvArms(c: E.Config, w: World)
    requires Inv(c, w)
    ensures ArmedAsDue(w)
  {
    hide E.Handing, E.Count, E.Holding, Sound;
    forall fd | E.IsEnabled(w.server, fd) ensures fd in w.server.open {
      OnlyArmed(w.server, fd);
    }
    forall fd, kind | E.On(fd, kind) in w.server.batch ensures fd in w.server.open {
      BatchCounts(w.server.batch, fd, kind);
      assert E.Places(w.server, fd) == if fd in w.server.open then 1 else 0;
    }
    forall fd | fd in w.server.open ensures Placed(w, fd) {}
  }

  /**
   In the intended program, in every interleaving: what `process_read` returned to a worker, and the parse it left,
   are those of the grammar on all bytes delivered to that connection, and so are the verdict and parse of every
   connection with which no worker is busy. While a return is owed the loop will come to them from where it is, and
   every connection is armed for what is due.
   */
  lemma ServedSafe(c: E.Config, w: World)
    requires E.Intended(c) && Reachable(c, w)
    ensures VerdictsHold(w)
    ensures forall j: nat :: InProcess(w, j) ==> w.server.pool.workers[j].r in w.server.open
    ensures forall fd :: fd in w.server.open ==> Sound(Of(w, fd))
    ensures ArmedAsDue(w)
    ensures forall fd :: fd in w.server.open && !Of(w, fd).owed && Of(w, fd).delivered != [] ==>
      (Of(w, fd).code, Of(w, fd).parse) == Feed("", INIT, Of(w, fd).delivered)
  {
    hide Grammar, Run, Feed, E.Exclusive, Trace;
    var run :| Trace(c, Init(c), run, w);
    E.InitInv(c);
    TraceKeeps(c, Init(c), run, w);
    InvArms(c, w);
    forall j: nat | InProcess(w, j)
      ensures var fd := w.server.pool.workers[j].r;
        && fd in w.server.open
        && (j in w.returned ==> (w.returned[j], Of(w, fd).parse) == Grammar(Of(w, fd).Received()))
    {
      var fd := w.server.pool.workers[j].r;
      OnlyHeld(w.server, j, fd);
      assert Placed(w, fd);
    }
    forall fd | fd in w.server.open && !Of(w, fd).owed && Of(w, fd).delivered != []
      ensures (Of(w, fd).code, Of(w, fd).parse) == Feed("", INIT, Of(w, fd).delivered)
    {
      FeedIsGrammar(Of(w, fd).delivered);
    }
  }

  /** A worker inside `process`, running alone, gets its verdict after at most one turn for each byte and one more. */
  lemma {:induction false} ProcessReturns(c: E.Config, w: World, j: nat) returns (run: seq<Action>, t: World)
    requires InProcess(w, j) && j !in w.returned
    ensures var fd := w.server.pool.workers[j].r;
      var k := Of(w, fd);
      && Trace(c, w, run, t) && |run| <= |k.Received()| - k.parse.checked + 1 && (forall a :: a in run ==> a == Turn(j))
      && t.server == w.server && j in t.returned
      && (t.returned[j], Of(t, fd).parse) == Run(k.Received(), k.parse) && Of(t, fd).Received() == k.Received()
    decreases var k := Of(w, w.server.pool.workers[j].r); |k.Received()| - k.parse.checked
  {
    var fd := w.server.pool.workers[j].r;
    var k := Of(w, fd);
    hide Iterate, Run;
    RunIterates(k.Received(), k.parse);
    var u := Apply(c, w, Turn(j));
    if Turned(k).0.Some? {
      run, t := [Turn(j)], u;
      assert [Turn(j)][1..] == [] && Trace(c, u, [], u);
    } else {
      var more;
      more, t := ProcessReturns(c, u, j);
      run := [Turn(j)] + more;
      assert run[1..] == more;
    }
  }

  // ---- a run that shows where the guarantee ends ----

  lemma {:induction false} TraceSnoc(c: E.Config, w: World, run: seq<Action>, t: World, a: Action)
    requires Trace(c, w, run, t) && Enabled(c, t, a)
    ensures Trace(c, w, run + [a], Apply(c, t, a))
    decreases |run|
  {
    hide Enabled, Apply;
    if run == [] {
      assert run + [a] == [a] && [a][1..] == [];
    } else {
      assert (run + [a])[1..] == run[1..] + [a];
      TraceSnoc(c, Apply(c, w, run[0]), run[1..], t, a);
    }
  }

  lemma ReachStep(c: E.Config, w: World, a: Action)
    requires Reachable(c, w) && Enabled(c, w, a)
    ensures Reachable(c, Apply(c, w, a))
  {
    var run :| Trace(c, Init(c), run, w);
    TraceSnoc(c, Init(c), run, w, a);
  }

  /** The main thread and the mutex are at rest. */
  ghost predicate Rest(c: E.Config, w: World) {
    && Reachable(c, w) && E.MainIdle(w.server) && w.server.batch == [] && w.server.pool.lock == P.Free
    && w.server.pool.max == c.max
  }

  lemma Start(c: E.Config)
    ensures Rest(c, Init(c))
  {
    assert Trace(c, Init(c), [], Init(c));
  }

  lemma Connected(c: E.Config, w: World, fd: Fd) returns (t: World)
    requires Rest(c, w) && fd !in w.server.open && |w.server.open| < c.maxFd
    ensures Rest(c, t) && t == w.(
      server := w.server.(open := w.server.open + {fd},
        registered := w.server.registered[fd := E.Registration(false, c.oneShot, true)]),
      conns := w.conns[fd := FRESH])
  {
    hide Reachable;
    var events := [E.Listen];
    assert forall x :: E.Count(events, x) == 0;
    assert E.Disarm(w.server.registered, events) == w.server.registered;
    ReachStep(c, w, Loop(E.Wait(events)));
    var w1 := Apply(c, w, Loop(E.Wait(events)));
    ReachStep(c, w1, Loop(E.Accept(fd)));
    t := Apply(c, w1, Loop(E.Accept(fd)));
  }

  /** Bytes arrive on an armed connection and are read, whatever the workers do. */
  lemma BytesRead(c: E.Config, w: World, fd: Fd, bytes: string) returns (t: World)
    requires Rest(c, w) && E.IsEnabled(w.server, fd) && !w.server.registered[fd].out
    ensures Reachable(c, t) && t == w.(
      server := w.server.(registered := E.Disarm(w.server.registered, [E.On(fd, E.In)]),
        pool := w.server.pool.(appenders := [P.AtLock(fd)])),
      conns := w.conns[fd := Delivered(Of(w, fd), bytes)])
  {
    hide Reachable, Delivered, E.Disarm;
    var events := [E.On(fd, E.In)];
    assert forall x :: E.Count(events, x) == if x == fd then 1 else 0;
    ReachStep(c, w, Loop(E.Wait(events)));
    var w1 := Apply(c, w, Loop(E.Wait(events)));
    ReachStep(c, w1, Deliver(bytes));
    t := Apply(c, w1, Deliver(bytes));
  }

  lemma Queued(c: E.Config, w: World, fd: Fd) returns (t: World)
    requires Reachable(c, w) && w.server.pool.appenders == [P.AtLock(fd)] && w.server.pool.lock == P.Free
    requires w.server.batch == [] && |w.server.pool.queue| <= w.server.pool.max == c.max
    ensures var p := w.server.pool;
      Rest(c, t) && t == w.(server := w.server.(pool :=
        p.(appenders := [P.Outside], queue := p.queue + [fd], accepted := p.accepted + [fd], sem := p.sem + 1)))
  {
    hide Reachable, E.Deliverable, E.Disarm, Turned, Delivered;
    var a := Loop(E.PoolStep(P.Append(0)));
    ReachStep(c, w, a);
    var w1 := Apply(c, w, a);
    ReachStep(c, w1, a);
    var w2 := Apply(c, w1, a);
    ReachStep(c, w2, a);
    var w3 := Apply(c, w2, a);
    ReachStep(c, w3, a);
    var w4 := Apply(c, w3, a);
    ReachStep(c, w4, a);
    t := Apply(c, w4, a);
  }

  /** Worker 0 passes the semaphore and the lock and finds the queue not empty. */
  lemma Found(c: E.Config, w: World) returns (t: World)
    requires Reachable(c, w) && w.server.pool.lock == P.Free && w.server.pool.queue != [] && w.server.pool.sem > 0
    requires w.server.pool.workers != [] && w.server.pool.workers[0] == P.Waiting
    ensures var p := w.server.pool;
      Reachable(c, t) && t == w.(returned := w.returned - {0}, server := w.server.(pool :=
        p.(sem := p.sem - 1, lock := P.ByWorker(0), workers := p.workers[0 := P.Taking])))
  {
    hide Reachable, E.Deliverable, E.Disarm, Turned, Delivered;
    var a := Loop(E.PoolStep(P.Work(0)));
    ReachStep(c, w, a);
    var w1 := Apply(c, w, a);
    ReachStep(c, w1, a);
    var w2 := Apply(c, w1, a);
    ReachStep(c, w2, a);
    t := Apply(c, w2, a);
  }

  /** Worker 0 takes the only request and enters `process`. */
  lemma Taken(c: E.Config, w: World, fd: Fd) returns (t: World)
    requires Rest(c, w) && w.server.pool.queue == [fd] && w.server.pool.sem > 0
    requires w.server.pool.workers != [] && w.server.pool.workers[0] == P.Waiting
    ensures var p := w.server.pool;
      Rest(c, t) && t == w.(returned := w.returned - {0}, server := w.server.(pool :=
        p.(queue := [], taken := p.taken + [fd], sem := p.sem - 1, workers := p.workers[0 := P.Processing(fd)])))
  {
    hide Reachable, E.Deliverable, E.Disarm, Turned, Delivered;
    var a := Loop(E.PoolStep(P.Work(0)));
    var w1 := Found(c, w);
    ReachStep(c, w1, a);
    var w2 := Apply(c, w1, a);
    ReachStep(c, w2, a);
    t := Apply(c, w2, a);
  }

  /** The connection of the examples: an empty request line, then what one call makes of it. */
  const EMPTY_LINE: Conn := Delivered(FRESH, "\r\n")
  const ANSWERED: Conn := Turned(EMPTY_LINE).1

  /** An empty request line is bad; going on behind it finds no line, with or without another byte. */
  lemma BadThenNothing()
    ensures Iterate("\r\n", INIT) == (Some(BadRequest), INIT.(start := 2, checked := 2))
    ensures Iterate("\r\n", INIT.(start := 2, checked := 2)).0 == Some(NoRequest)
    ensures Iterate("\r\nx", INIT.(start := 2, checked := 2)).0 == Some(NoRequest)
  {
    hide Find;
    var s, t := "\r\n", "\r\nx";
    assert s[0] == '\r' && s[1] == '\n' && t[2] == 'x';
    assert ScanEnd(s, 0) == 0 && ScanEnd(s, 2) == 2 && ScanEnd(t, 2) == 3;
    assert s[0..0] == "";
  }

  lemma Spoiled()
    ensures Turned(EMPTY_LINE) == (Some(BadRequest), ANSWERED)
    ensures Turned(ANSWERED).0 == Some(NoRequest) && Grammar(Turned(ANSWERED).1.Received()).0 == BadRequest
    ensures var more := Turned(Delivered(ANSWERED, "x"));
      more.0 == Some(NoRequest) && Grammar(more.1.Received()).0 == BadRequest
  {
    hide Iterate, Run, Grammar;
    BadThenNothing();
    assert Concat(["\r\n"]) == "\r\n" + "" == "\r\n";
    assert Concat(["\r\n", "x"]) == "\r\n" + Concat(["x"]) == "\r\nx";
    assert [] + ["\r\n"] == ["\r\n"] && ["\r\n"] + ["x"] == ["\r\n", "x"];
    ContinueGrammar("\r\n", "x");
    MachineIsGrammar("\r\n");
    RunIterates("\r\n", INIT);
    assert "\r\n" + "x" == "\r\nx";
  }

  /** Worker 0 turns the loop, and `process_read` returns. */
  lemma TurnReturns(c: E.Config, w: World, fd: Fd) returns (t: World)
    requires Rest(c, w) && w.server.pool.workers != [] && w.server.pool.workers[0] == P.Processing(fd)
    requires w.server.leaving == {} && 0 !in w.returned && Turned(Of(w, fd)).0.Some?
    ensures Rest(c, t)
    ensures t == w.(conns := w.conns[fd := Turned(Of(w, fd)).1], returned := w.returned[0 := Turned(Of(w, fd)).0.value])
  {
    hide Reachable, Turned;
    ReachStep(c, w, Turn(0));
    t := Apply(c, w, Turn(0));
  }

  /** One more turn behind the verdict returns NO_REQUEST. */
  lemma TurnAgain(c: E.Config, w: World, fd: Fd) returns (t: World)
    requires Rest(c, w) && w.server.pool.workers != [] && w.server.pool.workers[0] == P.Processing(fd)
    requires w.server.leaving == {} && 0 !in w.returned
    requires Of(w, fd) == ANSWERED || Of(w, fd) == Delivered(ANSWERED, "x")
    ensures Reachable(c, t) && !VerdictsHold(t)
  {
    hide Reachable, Turned, Delivered, Grammar;
    Spoiled();
    t := TurnReturns(c, w, fd);
    assert InProcess(t, 0) && 0 in t.returned && t.returned[0] == NoRequest;
  }

  /** Worker 0 takes the connection with the empty line, and `process_read` returns that it is bad. */
  lemma Answered(c: E.Config, w: World, fd: Fd) returns (t: World)
    requires Rest(c, w) && w.server.pool.queue == [fd] && w.server.pool.sem > 0 && w.server.leaving == {}
    requires w.server.pool.workers != [] && w.server.pool.workers[0] == P.Waiting && Of(w, fd) == EMPTY_LINE
    ensures var p := w.server.pool;
      Rest(c, t) && t == w.(conns := w.conns[fd := ANSWERED], returned := w.returned[0 := BadRequest],
        server := w.server.(pool :=
          p.(queue := [], taken := p.taken + [fd], sem := p.sem - 1, workers := p.workers[0 := P.Processing(fd)])))
  {
    hide Reachable, Turned, Delivered, P.Apply, E.Apply;
    var w1 := Taken(c, w, fd);
    Spoiled();
    t := TurnReturns(c, w1, fd);
  }

  /** While the connection is queued again, worker 0 leaves `process` with a response, takes it, and turns once more. */
  lemma ProcessedAgain(c: E.Config, w: World, fd: Fd) returns (t: World)
    requires Rest(c, w) && w.server.pool.queue == [fd] && w.server.pool.sem > 0 && w.server.leaving == {}
    requires w.server.pool.workers != [] && w.server.pool.workers[0] == P.Processing(fd)
    requires 0 in w.returned && w.returned[0] == BadRequest
    requires Of(w, fd) == ANSWERED || Of(w, fd) == Delivered(ANSWERED, "x")
    ensures Reachable(c, t) && !VerdictsHold(t)
  {
    hide Reachable, Turned, Delivered, VerdictsHold, E.Deliverable, E.Disarm;
    ReachStep(c, w, Finish(0, false));
    var w1 := Apply(c, w, Finish(0, false));
    var w2 := Taken(c, w1, fd);
    t := TurnAgain(c, w2, fd);
  }

  /** As written in line 28: a connection is read on after its verdict, and processed again. */
  lemma ReadAfterVerdict(c: E.Config, fd: Fd) returns (w: World)
    requires !c.oneShot && c.maxFd > 0 && c.workers > 0
    ensures Reachable(c, w) && !VerdictsHold(w)
  {
    hide Reachable, Turned, Delivered, VerdictsHold, E.Disarm, P.Apply, E.Apply;
    Start(c);
    var w1 := Connected(c, Init(c), fd);
    E.StaysArmed(w1.server, fd);
    var w2 := BytesRead(c, w1, fd, "\r\n");
    var w3 := Queued(c, w2, fd);
    var w4 := Answered(c, w3, fd);
    var w5 := BytesRead(c, w4, fd, "x");
    var w6 := Queued(c, w5, fd);
    w := ProcessedAgain(c, w6, fd);
  }

  // ---- going on behind close_conn ----

  lemma FirstOpen(c: E.Config, w: World, fd: Fd) returns (t: World)
    requires c.oneShot && c.maxFd > 0 && Rest(c, w) && w.server.open == {} && w.server.registered == map[]
    ensures Rest(c, t) && t == w.(conns := w.conns[fd := FRESH], server := w.server.(
        open := {fd}, registered := map[fd := E.Registration(false, true, true)]))
  {
    hide Rest;
    t := Connected(c, w, fd);
    assert {} + {fd} == {fd};
  }

  /** A connection is accepted, sends an empty line, and is queued. */
  lemma LineQueued(c: E.Config, w: World, fd: Fd) returns (t: World)
    requires c.oneShot && c.maxFd > 0 && Rest(c, w) && w.server.open == {} && w.server.registered == map[]
    requires w.server.pool.queue == []
    ensures var p := w.server.pool;
      Rest(c, t) && t == w.(conns := w.conns[fd := EMPTY_LINE], server := w.server.(
        open := {fd}, registered := map[fd := E.Registration(false, true, false)],
        pool := p.(queue := [fd], accepted := p.accepted + [fd], sem := p.sem + 1)))
  {
    hide Reachable, Delivered, Turned, E.Disarm, P.Apply, E.Apply;
    var w1 := FirstOpen(c, w, fd);
    E.Disarmed(fd);
    var w2 := BytesRead(c, w1, fd, "\r\n");
    assert w.conns[fd := FRESH][fd := EMPTY_LINE] == w.conns[fd := EMPTY_LINE];
    t := Queued(c, w2, fd);
  }

  /** The connection is reported for output, the write fails, and it is closed. */
  lemma WriteFails(c: E.Config, w: World, fd: Fd) returns (t: World)
    requires Rest(c, w) && w.server.open == {fd} && w.server.registered == map[fd := E.Registration(true, true, true)]
    ensures Rest(c, t) && t == w.(server := w.server.(open := {}, registered := map[]))
  {
    hide Reachable, E.Disarm, Turned, Delivered, P.Apply;
    var events := [E.On(fd, E.Out)];
    assert forall x :: E.Count(events, x) == if x == fd then 1 else 0;
    E.Disarmed(fd);
    ReachStep(c, w, Loop(E.Wait(events)));
    var w1 := Apply(c, w, Loop(E.Wait(events)));
    ReachStep(c, w1, Loop(E.Writable(false)));
    t := Apply(c, w1, Loop(E.Writable(false)));
    assert {fd} - {fd} == {} && t.server.registered == map[];
  }

  /** Worker 0, to which `process_read` returned that the request is bad, closes the connection and goes on. */
  lemma ClosedOn(c: E.Config, w: World, fd: Fd) returns (t: World)
    requires !c.stops && Rest(c, w) && w.server.leaving == {} && w.server.open == {fd}
    requires w.server.registered == map[fd := E.Registration(false, true, false)]
    requires w.server.pool.workers != [] && w.server.pool.workers[0] == P.Processing(fd)
    requires 0 in w.returned && w.returned[0] == BadRequest
    ensures Rest(c, t) && t == w.(server := w.server.(open := {}, registered := map[], leaving := {0}))
  {
    hide Reachable, E.Disarm, E.Deliverable, Turned, Delivered, P.Apply;
    ReachStep(c, w, Finish(0, true));
    t := Apply(c, w, Finish(0, true));
    assert {fd} - {fd} == {} && t.server.registered == map[] && {} + {0} == {0};
  }

  /** A worker closes the connection, the descriptor is used again, and the worker arms the new one for output. */
  lemma ArmedBehindClose(c: E.Config, fd: Fd) returns (w: World)
    requires c.oneShot && !c.stops && c.maxFd > 0 && c.workers > 0
    ensures Rest(c, w) && w.server.open == {fd} && w.server.registered == map[fd := E.Registration(true, true, true)]
    ensures w.server.pool.queue == [fd] && w.server.pool.sem == 1 && w.server.leaving == {}
    ensures w.server.pool.workers != [] && w.server.pool.workers[0] == P.Waiting
  {
    hide Reachable, Turned, Delivered, E.Disarm, E.Deliverable;
    Start(c);
    var w1 := LineQueued(c, Init(c), fd);
    var w2 := Answered(c, w1, fd);
    var w3 := ClosedOn(c, w2, fd);
    var w4 := LineQueued(c, w3, fd);
    ReachStep(c, w4, Loop(E.Modfd(0)));
    w := Apply(c, w4, Loop(E.Modfd(0)));
  }

  /** As written in line 141: a worker processes a connection that is queued again under the same descriptor. */
  lemma ProcessedTwice(c: E.Config, fd: Fd) returns (w: World)
    requires c.oneShot && !c.stops && c.maxFd > 0 && c.workers > 0
    ensures Reachable(c, w) && !VerdictsHold(w)
  {
    hide Reachable, Turned, Delivered, VerdictsHold, E.Disarm, P.Apply, E.Apply;
    var w0 := ArmedBehindClose(c, fd);
    var w1 := Taken(c, w0, fd);
    var w2 := WriteFails(c, w1, fd);
    var w3 := LineQueued(c, w2, fd);
    Spoiled();
    var w4 := TurnReturns(c, w3, fd);
    w := ProcessedAgain(c, w4, fd);
  }

  /**
   What `process_read` returns, and the parse it leaves, are those of the bytes delivered, in all reachable states,
   exactly when connections are registered one-shot and `process` returns after `close_conn`.
   */
  lemma ServedIff(c: E.Config)
    requires c.maxFd > 0 && c.workers > 0
    ensures c.oneShot && c.stops <==> forall w :: Reachable(c, w) ==> VerdictsHold(w)
  {
    hide VerdictsHold, Reachable;
    if c.oneShot && c.stops {
      forall w | Reachable(c, w) ensures VerdictsHold(w) { ServedSafe(c, w); }
    } else if c.oneShot {
      var w := ProcessedTwice(c, 0);
    } else {
      var w := ReadAfterVerdict(c, 0);
    }
  }
}

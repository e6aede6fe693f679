/**
 The echo servers of epoll_ET.c and epoll_LT.c for any number of clients. The kernel keeps a receive buffer
 for every client. Edge-triggered, it puts a client on the ready list when bytes arrive or the peer closes, and
 forgets the client once it is reported; the server then reads until nothing is left (line 118 is taken as the
 comparison it is meant to be, and no other read error occurs). Level-triggered, it reports a client as long as
 there is something to read, and the server reads once. `chunk` is the size of the server's buffer (5 in both
 programs), `maxEvents` that of its event array (1024). The one thread accepts connections in the same loop, so
 never while it is inside a read.
 */
module Epoll {
  import opened Options

  type Bytes = seq<int>

  /** `nonBlocking`: reads return at the end of the data. As written, line 90 of epoll_ET.c sets the wrong flags. */
  datatype Mode = Edge(nonBlocking: bool) | Level

  datatype Config = Config(mode: Mode, chunk: nat, maxEvents: nat)

  /**
   `received` and `echoed` log all bytes that came in and went out; `fin` says that the peer closed, and `seen` that the
   server reported it.
   */
  datatype Client = Client(received: Bytes, buf: Bytes, echoed: Bytes, fin: bool, open: bool, seen: bool)

  /** `ready` is the kernel's list; `batch` the events not yet handled; `reading` the client inside the read loop. */
  datatype State = State(clients: seq<Client>, ready: set<nat>, batch: seq<nat>, reading: Option<nat>)

  datatype Action =
    | Accept(bytes: Bytes) | Arrive(c: nat, bytes: Bytes) | Fin(c: nat)
    | Wait(events: seq<nat>) | Take | Read

  const INIT := State([], {}, [], None)

  predicate ServerStep(a: Action) { a.Wait? || a == Take || a == Read }

  /** A read would return at once: there are bytes, or the peer closed. */
  predicate Readable(s: State, c: nat) {
    c < |s.clients| && s.clients[c].open && (s.clients[c].buf != [] || s.clients[c].fin)
  }

  predicate Reported(m: Mode, s: State, c: nat) { if m.Edge? then c in s.ready else Readable(s, c) }

  predicate Distinct(events: seq<nat>) { forall i, j :: 0 <= i < j < |events| ==> events[i] != events[j] }

  function Members(events: seq<nat>): set<nat> { set c | c in events }

  predicate Enabled(g: Config, s: State, a: Action) {
    match a
    case Accept(_) => s.reading == None
    case Arrive(c, bytes) => c < |s.clients| && s.clients[c].open && !s.clients[c].fin && bytes != []
    case Fin(c) => c < |s.clients| && s.clients[c].open
    case Wait(events) =>
      && s.reading == None && s.batch == [] && 0 < |events| <= g.maxEvents && Distinct(events)
      && forall c :: c in events ==> Reported(g.mode, s, c)
    case Take => s.reading == None && s.batch != []
    case Read =>
      s.reading.Some? && s.reading.value < |s.clients| && (g.mode == Edge(true) || Readable(s, s.reading.value))
  }

  function Apply(g: Config, s: State, a: Action): State
    requires Enabled(g, s, a)
  {
    match a
    case Accept(bytes) =>
      var t := s.(clients := s.clients + [Client(bytes, bytes, [], false, true, false)]);
      if bytes == [] then t else t.(ready := s.ready + {|s.clients|})
    case Arrive(c, bytes) =>
      var k := s.clients[c];
      s.(clients := s.clients[c := k.(received := k.received + bytes, buf := k.buf + bytes)], ready := s.ready + {c})
    case Fin(c) => s.(clients := s.clients[c := s.clients[c].(fin := true)], ready := s.ready + {c})
    case Wait(events) => s.(batch := events, ready := s.ready - Members(events))
    case Take => s.(batch := s.batch[1..], reading := Some(s.batch[0]))
    case Read =>
      var c := s.reading.value;
      var k := s.clients[c];
      if k.buf != [] then
        var n := if |k.buf| < g.chunk then |k.buf| else g.chunk;
        s.(clients := s.clients[c := k.(buf := k.buf[n..], echoed := k.echoed + k.buf[..n])],
           reading := if g.mode.Edge? then s.reading else None)
      else
        s.(clients := s.clients[c := k.(seen := k.fin, open := k.open && g.mode.Edge?)], reading := None)
  }

  ghost predicate Trace(g: Config, s: State, run: seq<Action>, t: State)
    decreases |run|
  {
    if run == [] then s == t else Enabled(g, s, run[0]) && Trace(g, Apply(g, s, run[0]), run[1..], t)
  }

  ghost predicate Reachable(g: Config, s: State) {
    exists run :: Trace(g, INIT, run, s)
  }

  // ---- invariants ----

  /** For every client the bytes echoed, followed by those in the buffer, are the bytes received. */
  ghost predicate Echoes(s: State) {
    forall c :: 0 <= c < |s.clients| ==> s.clients[c].echoed + s.clients[c].buf == s.clients[c].received
  }

  /** Edge-triggered: a client with unread bytes, or an end not yet seen, is ready, in the batch, or being read. */
  ghost predicate NotStranded(s: State) {
    forall c :: 0 <= c < |s.clients| && (s.clients[c].buf != [] || (s.clients[c].fin && !s.clients[c].seen)) ==>
      c in s.ready || c in s.batch || s.reading == Some(c)
  }

  /** Level-triggered: whatever is in the batch or being read has something to read, and is there once. */
  ghost predicate Justified(s: State) {
    && (forall c :: c in s.batch ==> Readable(s, c)) && Distinct(s.batch)
    && (s.reading.Some? ==> Readable(s, s.reading.value) && s.reading.value !in s.batch)
    && forall c :: 0 <= c < |s.clients| && !s.clients[c].open ==> s.clients[c].buf == [] && s.clients[c].seen
  }

  /** The descriptors the kernel and the server remember are those of clients. */
  ghost predicate Known(s: State) {
    && (forall c :: c in s.ready ==> c < |s.clients|) && (forall c :: c in s.batch ==> c < |s.clients|)
    && (s.reading.Some? ==> s.reading.value < |s.clients|)
  }

  ghost predicate Inv(g: Config, s: State) {
    Echoes(s) && Known(s) && if g.mode.Edge? then NotStranded(s) else Justified(s)
  }

  lemma HeadAndTail(events: seq<nat>)
    requires events != []
    ensures events[0] in events && forall c :: c in events <==> c == events[0] || c in events[1..]
    ensures Distinct(events) ==> Distinct(events[1..]) && events[0] !in events[1..]
  {
    assert events == [events[0]] + events[1..];
    assert forall i :: 0 <= i < |events[1..]| ==> events[1..][i] == events[i + 1];
  }

  lemma EchoesKept(g: Config, s: State, a: Action)
    requires Echoes(s) && Enabled(g, s, a)
    ensures Echoes(Apply(g, s, a))
  {
    if a.Arrive? {
      var k := s.clients[a.c];
      assert k.echoed + (k.buf + a.bytes) == (k.echoed + k.buf) + a.bytes;
    } else if a.Read? && s.clients[s.reading.value].buf != [] {
      var k := s.clients[s.reading.value];
      var n := if |k.buf| < g.chunk then |k.buf| else g.chunk;
      assert (k.echoed + k.buf[..n]) + k.buf[n..] == k.echoed + k.buf;
    } else if a.Accept? {
      assert [] + a.bytes == a.bytes;
    }
  }

  lemma KnownKept(g: Config, s: State, a: Action)
    requires Known(s) && Enabled(g, s, a)
    ensures Known(Apply(g, s, a))
  {
    if a.Take? {
      HeadAndTail(s.batch);
    }
  }

  lemma NotStrandedKept(g: Config, s: State, a: Action)
    requires NotStranded(s) && g.mode.Edge? && Enabled(g, s, a)
    ensures NotStranded(Apply(g, s, a))
  {
    if a.Take? {
      HeadAndTail(s.batch);
    }
  }

  lemma JustifiedKept(g: Config, s: State, a: Action)
    requires Justified(s) && Known(s) && g.mode.Level? && Enabled(g, s, a)
    ensures Justified(Apply(g, s, a))
  {
    if a.Take? {
      HeadAndTail(s.batch);
    }
  }

  lemma StepKeeps(g: Config, s: State, a: Action)
    requires Inv(g, s) && Enabled(g, s, a)
    ensures Inv(g, Apply(g, s, a))
  {
    hide Echoes, Known, NotStranded, Justified, Apply, Enabled;
    EchoesKept(g, s, a);
    KnownKept(g, s, a);
    if g.mode.Edge? { NotStrandedKept(g, s, a); } else { JustifiedKept(g, s, a); }
  }

  lemma {:induction false} TraceKeeps(g: Config, s: State, run: seq<Action>, t: State)
    requires Inv(g, s) && Trace(g, s, run, t)
    ensures Inv(g, t)
    decreases |run|
  {
    hide Inv, Apply, Enabled;
    if run != [] {
      StepKeeps(g, s, run[0]);
      TraceKeeps(g, Apply(g, s, run[0]), run[1..], t);
    }
  }

  lemma ReachableInv(g: Config, s: State)
    requires Reachable(g, s)
    ensures Inv(g, s)
  {
    var run :| Trace(g, INIT, run, s);
    assert Inv(g, INIT);
    TraceKeeps(g, INIT, run, s);
  }

  /** In every reachable state of either server output and buffer of a client make up its input; none is stranded. */
  lemma NothingStranded(g: Config, s: State)
    requires Reachable(g, s)
    ensures forall c :: 0 <= c < |s.clients| ==> s.clients[c].echoed + s.clients[c].buf == s.clients[c].received
    ensures forall c :: 0 <= c < |s.clients| && s.clients[c].buf != [] ==>
      Reported(g.mode, s, c) || c in s.batch || s.reading == Some(c)
    ensures forall c :: 0 <= c < |s.clients| && s.clients[c].fin && !s.clients[c].seen ==>
      Reported(g.mode, s, c) || c in s.batch || s.reading == Some(c)
  {
    ReachableInv(g, s);
  }

  // ---- the work left for the server ----

  /** Bytes to read, and peers whose end of file is still to be read. */
  function Load(clients: seq<Client>): nat {
    if clients == [] then 0 else
    |clients[0].buf| + (if clients[0].open && clients[0].fin then 1 else 0) + Load(clients[1..])
  }

  lemma {:induction false} LoadUpdate(clients: seq<Client>, c: nat, k: Client)
    requires c < |clients|
    ensures Load(clients[c := k]) == Load(clients) + Load([k]) - Load([clients[c]])
  {
    assert [k][1..] == [] && [clients[c]][1..] == [];
    if c == 0 {
      assert clients[0 := k][1..] == clients[1..];
    } else {
      assert clients[c := k][1..] == clients[1..][c - 1 := k];
      LoadUpdate(clients[1..], c - 1, k);
    }
  }

  /** A bound on the steps that the server can make without new arrivals. */
  function Work(m: Mode, s: State): nat {
    if m.Edge? then Load(s.clients) + 3 * |s.ready| + 2 * |s.batch| + (if s.reading.Some? then 1 else 0)
    else 4 * Load(s.clients) + (if s.reading.Some? then 0 else if s.batch != [] then 1 else 3)
  }

  lemma {:induction false} MembersSize(events: seq<nat>)
    requires Distinct(events)
    ensures |Members(events)| == |events|
  {
    if events != [] {
      var front, last := events[..|events| - 1], events[|events| - 1];
      MembersSize(front);
      assert events == front + [last];
      assert Members(events) == Members(front) + {last};
    }
  }

  /** Reporting distinct clients of the ready list shortens it by their number. */
  lemma DistinctSize(events: seq<nat>, ready: set<nat>)
    requires Distinct(events) && forall c :: c in events ==> c in ready
    ensures |ready - Members(events)| + |events| == |ready|
  {
    MembersSize(events);
    assert Members(events) <= ready;
    hide Distinct, Members;
    assert ready == (ready - Members(events)) + Members(events);
  }

  lemma StepWorks(g: Config, s: State, a: Action)
    requires g.chunk > 0 && Enabled(g, s, a) && ServerStep(a)
    ensures Work(g.mode, Apply(g, s, a)) < Work(g.mode, s)
    ensures |Apply(g, s, a).clients| == |s.clients|
    ensures forall c :: 0 <= c < |s.clients| ==> Apply(g, s, a).clients[c].received == s.clients[c].received
  {
    hide Load, Members;
    match a
    case Wait(events) => if g.mode.Edge? { DistinctSize(events, s.ready); }
    case Take =>
    case Read =>
      var t := Apply(g, s, a);
      var c := s.reading.value;
      LoadUpdate(s.clients, c, t.clients[c]);
      LoadOne(s.clients[c]);
      LoadOne(t.clients[c]);
      assert s.clients[c := s.clients[c]] == s.clients;
  }

  lemma LoadOne(k: Client)
    ensures Load([k]) == |k.buf| + if k.open && k.fin then 1 else 0
  {
    assert [k][1..] == [];
  }

  /** The server has nothing to do: no event is being handled and none would be reported. */
  ghost predicate Quiescent(g: Config, s: State) {
    s.reading == None && s.batch == [] && forall c :: 0 <= c < |s.clients| ==> !Reported(g.mode, s, c)
  }

  /**
   Once arrivals stop, every run of the server is at most `Work` steps long; while it is not quiescent it can go on;
   and when it is, every client got back exactly what it sent. For the edge-triggered server this needs reads that
   do not block.
   */
  lemma {:induction false} Settles(g: Config, s: State, run: seq<Action>, t: State)
    requires g.mode != Edge(false) && g.chunk > 0 && g.maxEvents > 0
    requires Inv(g, s) && Trace(g, s, run, t) && forall a :: a in run ==> ServerStep(a)
    ensures |run| + Work(g.mode, t) <= Work(g.mode, s)
    ensures !Quiescent(g, t) ==> exists a :: ServerStep(a) && Enabled(g, t, a)
    ensures |t.clients| == |s.clients|
    ensures Quiescent(g, t) ==> forall c :: 0 <= c < |s.clients| ==> t.clients[c].echoed == s.clients[c].received
    decreases |run|
  {
    hide Work, Apply, Quiescent, Inv, Enabled;
    if run == [] {
      if Quiescent(g, s) { QuietEchoes(g, s); } else { CanGoOn(g, s); }
    } else {
      StepKeeps(g, s, run[0]);
      StepWorks(g, s, run[0]);
      Settles(g, Apply(g, s, run[0]), run[1..], t);
    }
  }

  lemma CanGoOn(g: Config, s: State)
    requires g.mode != Edge(false) && g.maxEvents > 0 && Inv(g, s) && !Quiescent(g, s)
    ensures exists a :: ServerStep(a) && Enabled(g, s, a)
  {
    if s.reading.Some? {
      assert Enabled(g, s, Read);
    } else if s.batch != [] {
      assert Enabled(g, s, Take);
    } else {
      var c :| 0 <= c < |s.clients| && Reported(g.mode, s, c);
      assert Enabled(g, s, Wait([c]));
    }
  }

  lemma QuietEchoes(g: Config, s: State)
    requires Inv(g, s) && Quiescent(g, s)
    ensures forall c :: 0 <= c < |s.clients| ==> s.clients[c].echoed == s.clients[c].received
  {
    forall c | 0 <= c < |s.clients| ensures s.clients[c].echoed == s.clients[c].received {
      assert !Reported(g.mode, s, c);
      assert s.clients[c].buf == [];
      assert s.clients[c].echoed + [] == s.clients[c].echoed;
    }
  }

  /** The two servers agree: on the same arrivals, once both are quiescent they have echoed the same. */
  lemma ServersAgree(g: Config, s: State, h: Config, t: State)
    requires Reachable(g, s) && Quiescent(g, s) && Reachable(h, t) && Quiescent(h, t)
    requires |s.clients| == |t.clients|
    requires forall c :: 0 <= c < |s.clients| ==> s.clients[c].received == t.clients[c].received
    ensures forall c :: 0 <= c < |s.clients| ==> s.clients[c].echoed == t.clients[c].echoed == s.clients[c].received
  {
    ReachableInv(g, s);
    ReachableInv(h, t);
    QuietEchoes(g, s);
    QuietEchoes(h, t);
  }

  /** The level-triggered server closes only clients whose peer closed, and the edge-triggered one none. */
  ghost predicate ClosedForCause(m: Mode, s: State) {
    && (forall c :: 0 <= c < |s.clients| && !s.clients[c].open ==> m.Level? && s.clients[c].fin)
    && forall c :: 0 <= c < |s.clients| && s.clients[c].seen ==> s.clients[c].fin
  }

  lemma {:induction false} ClosedForCauseKept(g: Config, s: State, run: seq<Action>, t: State)
    requires Inv(g, s) && ClosedForCause(g.mode, s) && Trace(g, s, run, t)
    ensures ClosedForCause(g.mode, t)
    decreases |run|
  {
    hide Inv, Apply, Enabled;
    if run != [] {
      StepKeeps(g, s, run[0]);
      StepCloses(g, s, run[0]);
      ClosedForCauseKept(g, Apply(g, s, run[0]), run[1..], t);
    }
  }

  lemma StepCloses(g: Config, s: State, a: Action)
    requires Inv(g, s) && ClosedForCause(g.mode, s) && Enabled(g, s, a)
    ensures ClosedForCause(g.mode, Apply(g, s, a))
  {
    hide Echoes, NotStranded;
  }

  /**
   In every reachable state a closed client's peer closed and got everything back; when the level-triggered server is
   quiescent the closed clients are exactly those whose peer closed. The edge-triggered server closes none. Either
   server, when quiescent, has seen exactly those peers close that did.
   */
  lemma ClosesIff(g: Config, s: State)
    requires Reachable(g, s)
    ensures forall c :: 0 <= c < |s.clients| && !s.clients[c].open ==>
      g.mode.Level? && s.clients[c].fin && s.clients[c].echoed == s.clients[c].received
    ensures g.mode.Level? && Quiescent(g, s) ==>
      forall c :: 0 <= c < |s.clients| ==> (s.clients[c].open <==> !s.clients[c].fin)
    ensures forall c :: 0 <= c < |s.clients| && s.clients[c].seen ==> s.clients[c].fin
    ensures Quiescent(g, s) ==> forall c :: 0 <= c < |s.clients| ==> (s.clients[c].seen <==> s.clients[c].fin)
  {
    var run :| Trace(g, INIT, run, s);
    assert Inv(g, INIT);
    ClosedForCauseKept(g, INIT, run, s);
    ReachableInv(g, s);
    forall c | 0 <= c < |s.clients| && !s.clients[c].open
      ensures g.mode.Level? && s.clients[c].fin && s.clients[c].echoed == s.clients[c].received
    {
      assert s.clients[c].echoed + [] == s.clients[c].echoed;
    }
    forall c | 0 <= c < |s.clients| && Quiescent(g, s)
      ensures s.clients[c].seen <==> s.clients[c].fin
      ensures g.mode.Level? ==> (s.clients[c].open <==> !s.clients[c].fin)
    {
      assert !Reported(g.mode, s, c);
    }
  }

  // ---- the flags of line 90 ----

  lemma {:induction false} TraceSnoc(g: Config, s: State, run: seq<Action>, t: State, a: Action)
    requires Trace(g, s, run, t) && Enabled(g, t, a)
    ensures Trace(g, s, run + [a], Apply(g, t, a))
    decreases |run|
  {
    hide Apply, Enabled;
    if run == [] {
      assert run + [a] == [a] && [a][1..] == [];
    } else {
      assert (run + [a])[1..] == run[1..] + [a];
      TraceSnoc(g, Apply(g, s, run[0]), run[1..], t, a);
    }
  }

  lemma ReachStep(g: Config, s: State, a: Action)
    requires Reachable(g, s) && Enabled(g, s, a)
    ensures Reachable(g, Apply(g, s, a))
  {
    var run :| Trace(g, INIT, run, s);
    TraceSnoc(g, INIT, run, s, a);
  }

  lemma InitReachable(g: Config)
    ensures Reachable(g, INIT)
  {
    assert Trace(g, INIT, [], INIT);
  }

  /** Two clients connect, the first sends one byte, and the server starts to read it. */
  lemma Reading(g: Config) returns (s: State)
    requires g.mode == Edge(false) && g.maxEvents > 0
    ensures Reachable(g, s)
    ensures s.clients == [Client([7], [7], [], false, true, false), Client([], [], [], false, true, false)]
    ensures s.reading == Some(0) && s.batch == [] && s.ready == {}
  {
    hide Reachable, Trace;
    InitReachable(g);
    ReachStep(g, INIT, Accept([7]));
    var s1 := Apply(g, INIT, Accept([7]));
    ReachStep(g, s1, Accept([]));
    var s2 := Apply(g, s1, Accept([]));
    ReachStep(g, s2, Wait([0]));
    var s3 := Apply(g, s2, Wait([0]));
    ReachStep(g, s3, Take);
    s := Apply(g, s3, Take);
  }

  /** With blocking reads the loop hangs behind the last byte of one client while the bytes of another wait. */
  lemma Hangs(g: Config) returns (s: State)
    requires g.mode == Edge(false) && g.chunk > 0 && g.maxEvents > 0
    ensures Reachable(g, s)
    ensures s.clients == [Client([7], [], [7], false, true, false), Client([8], [8], [], false, true, false)]
    ensures s.reading == Some(0) && forall a :: ServerStep(a) || a.Accept? ==> !Enabled(g, s, a)
  {
    hide Reachable, Trace;
    var s0 := Reading(g);
    ReachStep(g, s0, Read);
    var s1 := Apply(g, s0, Read);
    assert [7][1..] == [] && [7][..1] == [7] && [] + [7] == [7] && [] + [8] == [8];
    assert s1.clients == [Client([7], [], [7], false, true, false), Client([], [], [], false, true, false)];
    ReachStep(g, s1, Arrive(1, [8]));
    s := Apply(g, s1, Arrive(1, [8]));
  }

  /** The edge-triggered server can always go on while there is something to do exactly when its reads do not block. */
  lemma NeverHangsIff(g: Config)
    requires g.mode.Edge? && g.chunk > 0 && g.maxEvents > 0
    ensures g.mode.nonBlocking <==>
      forall s :: Reachable(g, s) && !Quiescent(g, s) ==> exists a :: ServerStep(a) && Enabled(g, s, a)
  {
    if g.mode.nonBlocking {
      forall s | Reachable(g, s) && !Quiescent(g, s) ensures exists a :: ServerStep(a) && Enabled(g, s, a) {
        ReachableInv(g, s);
        CanGoOn(g, s);
      }
    } else {
      var s := Hangs(g);
      assert Reachable(g, s) && !Quiescent(g, s);
    }
  }
}

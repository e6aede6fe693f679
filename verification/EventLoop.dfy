/**
 The server of main.cpp: an epoll loop that reads connections and hands them to the thread pool, and workers
 that process them and register them again. A connection is known by its descriptor. The kernel delivers any
 events that the registrations allow. `oneShot` says whether a new connection is registered with EPOLLONESHOT,
 as `addfd` intends (line 28 of http_connection.cpp as written has no effect, so there it is not). `stops` says
 whether `process` returns after `close_conn` (line 139), as intended. As written it goes on to `modfd` (line 141):
 two steps, between which the descriptor is free and may be accepted again.
 */
module EventLoop {
  import opened ThreadPools

  type Fd = nat

  datatype Kind = In | Out | Hangup
  datatype Event = Listen | On(fd: Fd, kind: Kind)
  datatype Registration = Registration(out: bool, oneShot: bool, enabled: bool)

  /** What a worker makes of a request: more bytes are needed, a response is ready, or the connection is closed. */
  datatype Result = Again | Respond | Close

  datatype Config = Config(oneShot: bool, stops: bool, max: nat, maxFd: nat, workers: nat)

  /**
   `leaving` are the workers between `close_conn` and `modfd`. `parked` and `rejected` log the connections left without
   registration, and those that `append` turned away.
   */
  datatype Server = Server(
    open: set<Fd>, registered: map<Fd, Registration>, batch: seq<Event>, pool: Pool, leaving: set<nat>,
    parked: set<Fd>, rejected: set<Fd>)

  datatype Action =
    | Wait(events: seq<Event>)            // epoll_wait returns
    | Accept(fd: Fd)                      // a new connection at the head of the batch
    | Hup                                 // the head of the batch says that the peer is gone
    | Readable(ok: bool)                  // the head of the batch is read; on success it is appended
    | Writable(ok: bool)                  // the head of the batch is written
    | PoolStep(a: ThreadPools.Action)     // a step of append or run
    | Finish(j: nat, result: Result)      // worker j has processed its request
    | Modfd(j: nat)                       // worker j, which closed the connection, goes on to modfd

  function Init(c: Config): Server {
    Server({}, map[], [], ThreadPools.Init(c.max, 1, c.workers), {}, {}, {})
  }

  function Count(events: seq<Event>, fd: Fd): nat {
    multiset(events)[On(fd, In)] + multiset(events)[On(fd, Out)] + multiset(events)[On(fd, Hangup)]
  }

  predicate IsEnabled(s: Server, fd: Fd) { fd in s.registered && s.registered[fd].enabled }

  /** The kernel reports a registered descriptor at most once per call, and only for what it is registered for. */
  ghost predicate Deliverable(s: Server, events: seq<Event>) {
    && (forall fd :: Count(events, fd) <= if IsEnabled(s, fd) then 1 else 0)
    && (forall fd :: On(fd, In) in events ==> fd in s.registered && !s.registered[fd].out)
    && (forall fd :: On(fd, Out) in events ==> fd in s.registered && s.registered[fd].out)
  }

  /** The main loop is between two events: it is not inside `append`. */
  predicate MainIdle(s: Server) { s.pool.appenders == [Outside] }

  ghost predicate Enabled(c: Config, s: Server, a: Action) {
    match a
    case Wait(events) => MainIdle(s) && s.batch == [] && events != [] && Deliverable(s, events)
    case Accept(fd) => MainIdle(s) && s.batch != [] && s.batch[0] == Listen && fd !in s.open
    case Hup => MainIdle(s) && s.batch != [] && s.batch[0].On? && s.batch[0].kind == Hangup
    case Readable(_) => MainIdle(s) && s.batch != [] && s.batch[0].On? && s.batch[0].kind == In
    case Writable(_) => MainIdle(s) && s.batch != [] && s.batch[0].On? && s.batch[0].kind == Out
    case PoolStep(b) => (b.Append? || b.Work?) && ThreadPools.Enabled(s.pool, b)
    case Finish(j, _) => ThreadPools.Enabled(s.pool, Done(j)) && j !in s.leaving
    case Modfd(j) => ThreadPools.Enabled(s.pool, Done(j)) && j in s.leaving
  }

  /** Reporting an event disarms a one-shot registration. */
  function Disarm(registered: map<Fd, Registration>, events: seq<Event>): map<Fd, Registration> {
    map fd | fd in registered ::
      if Count(events, fd) > 0 && registered[fd].oneShot then registered[fd].(enabled := false) else registered[fd]
  }

  /** `close_conn` on an open connection; on a closed one it does nothing. */
  function Closed(s: Server, fd: Fd): (t: Server)
    ensures t.pool == s.pool && t.rejected == s.rejected
  {
    s.(open := s.open - {fd}, registered := s.registered - {fd})
  }

  /** `modfd`: register again, one-shot, if the descriptor is still known to epoll. */
  function Rearmed(s: Server, fd: Fd, out: bool): (t: Server)
    ensures t.pool == s.pool && t.rejected == s.rejected
  {
    if fd in s.registered then s.(registered := s.registered[fd := Registration(out, true, true)]) else s
  }

  function Apply(c: Config, s: Server, a: Action): Server
    requires Enabled(c, s, a)
  {
    match a
    case Wait(events) => s.(batch := events, registered := Disarm(s.registered, events))
    case Accept(fd) =>
      var t := s.(batch := s.batch[1..]);
      if |s.open| >= c.maxFd then t
      else t.(open := s.open + {fd}, registered := s.registered[fd := Registration(false, c.oneShot, true)])
    case Hup => Closed(s.(batch := s.batch[1..]), s.batch[0].fd)
    case Readable(ok) =>
      var t := s.(batch := s.batch[1..]);
      if ok then t.(pool := ThreadPools.Apply(s.pool, Call(0, s.batch[0].fd))) else Closed(t, s.batch[0].fd)
    case Writable(ok) =>
      var t := s.(batch := s.batch[1..]);
      if ok then t.(parked := s.parked + {s.batch[0].fd}) else Closed(t, s.batch[0].fd)
    case PoolStep(b) =>
      var t := s.(pool := ThreadPools.Apply(s.pool, b));
      if b.Append? && s.pool.appenders[b.i].AtReject? then
        t.(parked := s.parked + {s.pool.appenders[b.i].r}, rejected := s.rejected + {s.pool.appenders[b.i].r})
      else t
    case Finish(j, result) =>
      var fd := s.pool.workers[j].r;
      var t := s.(pool := ThreadPools.Apply(s.pool, Done(j)));
      if result == Again then Rearmed(t, fd, false)
      else if result == Respond then Rearmed(t, fd, true)
      else if c.stops then Closed(t, fd)
      else Closed(s, fd).(leaving := s.leaving + {j})
    case Modfd(j) =>
      var t := s.(pool := ThreadPools.Apply(s.pool, Done(j)), leaving := s.leaving - {j});
      Rearmed(t, s.pool.workers[j].r, true)
  }

  ghost predicate Trace(c: Config, s: Server, run: seq<Action>, t: Server)
    decreases |run|
  {
    if run == [] then s == t else Enabled(c, s, run[0]) && Trace(c, Apply(c, s, run[0]), run[1..], t)
  }

  // ---- where a connection can be ----

  function Handing(appenders: seq<Appender>, fd: Fd): nat {
    multiset(appenders)[AtLock(fd)] + multiset(appenders)[AtTest(fd)] + multiset(appenders)[AtReject(fd)]
    + multiset(appenders)[AtPush(fd)]
  }

  function Holding(workers: seq<Worker>, fd: Fd): nat {
    multiset(workers)[Unlocking(fd)] + multiset(workers)[Processing(fd)]
  }

  /**
   The number of handlers of a descriptor: armed in epoll, delivered in the current batch, being appended by the
   main loop, queued, held by workers, or parked.
   */
  function Places(s: Server, fd: Fd): nat {
    (if IsEnabled(s, fd) then 1 else 0) + Count(s.batch, fd) + Handing(s.pool.appenders, fd)
    + multiset(s.pool.queue)[fd] + Holding(s.pool.workers, fd) + (if fd in s.parked then 1 else 0)
  }

  /** Every open connection has exactly one handler, and a closed one has none. */
  ghost predicate Exclusive(s: Server) {
    forall fd :: Places(s, fd) == if fd in s.open then 1 else 0
  }

  /** The open connections are those registered, all of them one-shot. */
  ghost predicate AllOneShot(s: Server) {
    s.registered.Keys == s.open && forall fd :: fd in s.registered ==> s.registered[fd].oneShot
  }

  /** No worker goes on behind `close_conn`. */
  predicate Settled(c: Config, s: Server) { s.leaving == {} && (c.stops || s.pool.workers == []) }

  ghost predicate Inv(c: Config, s: Server) {
    && Settled(c, s) && Exclusive(s) && ThreadPools.Inv(s.pool) && |s.pool.appenders| == 1 && s.pool.max == c.max
    && AllOneShot(s)
    && |s.open| <= c.maxFd && (s.rejected != {} || s.pool.appenders[0].AtReject? ==> c.max + 2 <= c.maxFd)
  }

  lemma HandingUpdate(s: seq<Appender>, i: nat, x: Appender, fd: Fd)
    requires i < |s|
    ensures Handing(s[i := x], fd) == Handing(s, fd) - Handing([s[i]], fd) + Handing([x], fd)
  {
    assert multiset(s[i := x]) == multiset(s) - multiset{s[i]} + multiset{x};
    assert s[i] in multiset(s);
  }

  lemma HoldingUpdate(s: seq<Worker>, j: nat, x: Worker, fd: Fd)
    requires j < |s|
    ensures Holding(s[j := x], fd) == Holding(s, fd) - Holding([s[j]], fd) + Holding([x], fd)
  {
    assert multiset(s[j := x]) == multiset(s) - multiset{s[j]} + multiset{x};
    assert s[j] in multiset(s);
  }

  lemma HeadCounts(events: seq<Event>, fd: Fd)
    requires events != []
    ensures Count(events, fd) == Count(events[1..], fd) + if events[0].On? && events[0].fd == fd then 1 else 0
  {
    assert events == [events[0]] + events[1..];
    assert multiset(events) == multiset{events[0]} + multiset(events[1..]);
    if events[0].On? && events[0].fd == fd {
      assert events[0] in {On(fd, In), On(fd, Out), On(fd, Hangup)} by {
        match events[0].kind case In => case Out => case Hangup =>
      }
    }
  }

  lemma WaitKeeps(c: Config, s: Server, events: seq<Event>)
    requires Inv(c, s) && Enabled(c, s, Wait(events))
    ensures Exclusive(Apply(c, s, Wait(events)))
  {
    hide ThreadPools.Inv, Handing, Holding;
    var t := Apply(c, s, Wait(events));
    forall fd ensures Places(t, fd) == Places(s, fd) {
      assert Count([], fd) == 0;
      assert IsEnabled(s, fd) ==> s.registered[fd].oneShot;
      assert Count(events, fd) <= if IsEnabled(s, fd) then 1 else 0;
    }
  }

  lemma HeadKeeps(c: Config, s: Server, a: Action)
    requires Exclusive(s) && AllOneShot(s) && |s.pool.appenders| == 1
    requires Enabled(c, s, a) && (a.Accept? || a.Hup? || a.Readable? || a.Writable?)
    ensures Exclusive(Apply(c, s, a))
  {
    hide Handing, Holding, Count, Deliverable;
    var t := Apply(c, s, a);
    forall fd ensures Places(t, fd) == if fd in t.open then 1 else 0 {
      HeadCounts(s.batch, fd);
      assert Places(s, fd) == if fd in s.open then 1 else 0;
      if a.Readable? && a.ok {
        HandingUpdate(s.pool.appenders, 0, AtLock(s.batch[0].fd), fd);
        HandingOne(Outside, fd);
        HandingOne(AtLock(s.batch[0].fd), fd);
      }
    }
  }

  lemma HandingOne(a: Appender, fd: Fd)
    ensures Handing([a], fd) == if a in {AtLock(fd), AtTest(fd), AtReject(fd), AtPush(fd)} then 1 else 0
  {
  }

  lemma HoldingOne(w: Worker, fd: Fd)
    ensures Holding([w], fd) == if w in {Unlocking(fd), Processing(fd)} then 1 else 0
  {
  }

  /** What a step of `append` moves: nothing, a rejected request to the parked ones, or a request into the queue. */
  lemma AppendDelta(c: Config, s: Server, i: nat)
    requires Enabled(c, s, PoolStep(Append(i)))
    ensures var t := Apply(c, s, PoolStep(Append(i)));
      var was := s.pool.appenders[i];
      && t.open == s.open && t.registered == s.registered && t.batch == s.batch && t.pool.workers == s.pool.workers
      && |t.pool.appenders| == |s.pool.appenders| && t.pool.appenders == s.pool.appenders[i := t.pool.appenders[i]]
      && t.parked == (if was.AtReject? then s.parked + {was.r} else s.parked)
      && t.pool.queue == (if was.AtPush? then s.pool.queue + [was.r] else s.pool.queue)
      && (forall fd :: Handing([t.pool.appenders[i]], fd) ==
            if (was.AtReject? || was.AtPush?) && was.r == fd then 0 else Handing([was], fd))
  {
    hide Deliverable;
  }

  lemma AppendStepKeeps(c: Config, s: Server, i: nat)
    requires Exclusive(s) && Enabled(c, s, PoolStep(Append(i)))
    ensures Exclusive(Apply(c, s, PoolStep(Append(i))))
  {
    hide Handing, Holding, Count, Apply;
    AppendDelta(c, s, i);
    var t := Apply(c, s, PoolStep(Append(i)));
    var was := s.pool.appenders[i];
    forall fd ensures Places(t, fd) == Places(s, fd) {
      assert Places(s, fd) == if fd in s.open then 1 else 0;
      HandingUpdate(s.pool.appenders, i, t.pool.appenders[i], fd);
      HandingOne(was, fd);
    }
  }

  /** What a step of a worker moves: nothing, or the oldest request out of the queue and into its hands. */
  lemma WorkDelta(c: Config, s: Server, j: nat)
    requires Enabled(c, s, PoolStep(Work(j)))
    ensures var t := Apply(c, s, PoolStep(Work(j)));
      var was := s.pool.workers[j];
      && t.open == s.open && t.registered == s.registered && t.batch == s.batch && t.parked == s.parked
      && t.pool.appenders == s.pool.appenders
      && |t.pool.workers| == |s.pool.workers| && t.pool.workers == s.pool.workers[j := t.pool.workers[j]]
      && if was == Taking then
           s.pool.queue == [s.pool.queue[0]] + t.pool.queue && t.pool.workers[j] == Unlocking(s.pool.queue[0])
         else
           t.pool.queue == s.pool.queue && forall fd :: Holding([t.pool.workers[j]], fd) == Holding([was], fd)
  {
    hide Deliverable;
    assert s.pool.queue != [] ==> s.pool.queue == [s.pool.queue[0]] + s.pool.queue[1..];
  }

  lemma WorkStepKeeps(c: Config, s: Server, j: nat)
    requires Exclusive(s) && Enabled(c, s, PoolStep(Work(j)))
    ensures Exclusive(Apply(c, s, PoolStep(Work(j))))
  {
    hide Handing, Holding, Count, Apply, Deliverable;
    WorkDelta(c, s, j);
    var t := Apply(c, s, PoolStep(Work(j)));
    forall fd ensures Places(t, fd) == Places(s, fd) {
      HoldingUpdate(s.pool.workers, j, t.pool.workers[j], fd);
      HoldingOne(s.pool.workers[j], fd);
      HoldingOne(t.pool.workers[j], fd);
    }
  }

  lemma FinishKeeps(c: Config, s: Server, j: nat, result: Result)
    requires c.stops && Exclusive(s) && AllOneShot(s) && Enabled(c, s, Finish(j, result))
    ensures Exclusive(Apply(c, s, Finish(j, result)))
  {
    hide Handing, Holding, Count, Deliverable;
    var t := Apply(c, s, Finish(j, result));
    forall fd ensures Places(t, fd) == if fd in t.open then 1 else 0 {
      assert Places(s, fd) == if fd in s.open then 1 else 0;
      HoldingUpdate(s.pool.workers, j, Waiting, fd);
      HoldingOne(s.pool.workers[j], fd);
      HoldingOne(Waiting, fd);
    }
  }

  // ---- append and the number of connections ----

  lemma {:induction false} Distinct(q: seq<Fd>, bound: set<Fd>)
    requires forall fd :: multiset(q)[fd] <= if fd in bound then 1 else 0
    ensures |q| <= |bound|
  {
    if q != [] {
      assert q == [q[0]] + q[1..];
      assert multiset(q)[q[0]] >= 1;
      forall fd ensures multiset(q[1..])[fd] <= if fd in bound - {q[0]} then 1 else 0 {
        assert multiset(q)[fd] <= if fd in bound then 1 else 0;
      }
      Distinct(q[1..], bound - {q[0]});
    }
  }

  /** While a connection is being appended, the queue holds other open connections, each at most once. */
  lemma QueueBelowOpen(s: Server, fd: Fd)
    requires Exclusive(s) && s.pool.appenders == [AtTest(fd)]
    ensures fd in s.open && |s.pool.queue| + 1 <= |s.open|
  {
    hide Holding;
    HandingOne(AtTest(fd), fd);
    assert Places(s, fd) >= 1;
    forall x ensures multiset(s.pool.queue)[x] <= if x in s.open - {fd} then 1 else 0 {
      assert Places(s, x) == if x in s.open then 1 else 0;
    }
    Distinct(s.pool.queue, s.open - {fd});
  }

  lemma PoolFixed(p: Pool, a: ThreadPools.Action)
    requires ThreadPools.Enabled(p, a) && |p.appenders| == 1
    ensures var q := ThreadPools.Apply(p, a);
      && |q.appenders| == 1 && q.max == p.max
      && (q.appenders[0].AtReject? ==> p.appenders[0].AtReject? || (p.appenders[0].AtTest? && |p.queue| > p.max))
  {
  }

  lemma RejectionKept(c: Config, s: Server, a: Action)
    requires Exclusive(s) && |s.pool.appenders| == 1 && s.pool.max == c.max && |s.open| <= c.maxFd && Enabled(c, s, a)
    requires s.rejected != {} || s.pool.appenders[0].AtReject? ==> c.max + 2 <= c.maxFd
    ensures var t := Apply(c, s, a);
      |t.pool.appenders| == 1 && t.pool.max == c.max
      && (t.rejected != {} || t.pool.appenders[0].AtReject? ==> c.max + 2 <= c.maxFd)
  {
    hide Exclusive, ThreadPools.Apply, Disarm, Deliverable, Closed, Rearmed;
    if s.pool.appenders[0].AtTest? {
      assert s.pool.appenders == [AtTest(s.pool.appenders[0].r)];
      QueueBelowOpen(s, s.pool.appenders[0].r);
    }
    match a
    case Readable(ok) => if ok { PoolFixed(s.pool, Call(0, s.batch[0].fd)); }
    case PoolStep(b) => PoolFixed(s.pool, b);
    case Finish(j, _) => PoolFixed(s.pool, Done(j));
    case Modfd(j) => PoolFixed(s.pool, Done(j));
    case _ =>
  }

  lemma RegistrationKept(c: Config, s: Server, a: Action)
    requires AllOneShot(s) && Enabled(c, s, a) && c.oneShot
    ensures AllOneShot(Apply(c, s, a))
  {
    hide Disarm, Apply, Enabled;
    match a
    case Wait(events) => WaitRegistration(c, s, events);
    case PoolStep(_) => PoolRegistration(c, s, a);
    case Finish(j, _) => FinishRegistration(c, s, j, a);
    case Modfd(j) => FinishRegistration(c, s, j, a);
    case _ => HeadRegistration(c, s, a);
  }

  lemma WaitRegistration(c: Config, s: Server, events: seq<Event>)
    requires AllOneShot(s) && Enabled(c, s, Wait(events))
    ensures AllOneShot(Apply(c, s, Wait(events)))
  {
    hide Deliverable, Disarm;
    DisarmKeeps(s.registered, events);
  }

  lemma PoolRegistration(c: Config, s: Server, a: Action)
    requires AllOneShot(s) && a.PoolStep? && Enabled(c, s, a)
    ensures AllOneShot(Apply(c, s, a))
  {
    hide ThreadPools.Apply;
  }

  lemma HeadRegistration(c: Config, s: Server, a: Action)
    requires AllOneShot(s) && c.oneShot && Enabled(c, s, a) && (a.Accept? || a.Hup? || a.Readable? || a.Writable?)
    ensures AllOneShot(Apply(c, s, a))
  {
    hide Deliverable, Closed, Rearmed, ThreadPools.Apply;
    if !a.Accept? {
      ClosedKeeps(s.(batch := s.batch[1..]), s.batch[0].fd);
    }
  }

  lemma FinishRegistration(c: Config, s: Server, j: nat, a: Action)
    requires AllOneShot(s) && Enabled(c, s, a) && (a == Modfd(j) || (a.Finish? && a.j == j))
    ensures AllOneShot(Apply(c, s, a))
  {
    hide Deliverable, Disarm, Count, Closed, Rearmed, ThreadPools.Apply;
    var p, fd := ThreadPools.Apply(s.pool, Done(j)), s.pool.workers[j].r;
    ClosedKeeps(s, fd);
    ClosedKeeps(s.(pool := p), fd);
    ClosedKeeps(s.(pool := p, leaving := s.leaving - {j}), fd);
  }

  lemma ClosedKeeps(s: Server, fd: Fd)
    requires AllOneShot(s)
    ensures AllOneShot(Closed(s, fd)) && forall out :: AllOneShot(Rearmed(s, fd, out))
  {
  }

  lemma DisarmKeeps(registered: map<Fd, Registration>, events: seq<Event>)
    ensures var r := Disarm(registered, events);
      r.Keys == registered.Keys && forall fd :: fd in r ==> r[fd].oneShot == registered[fd].oneShot
  {
    hide Count;
  }

  lemma OpenBounded(c: Config, s: Server, a: Action)
    requires |s.open| <= c.maxFd && Enabled(c, s, a)
    ensures |Apply(c, s, a).open| <= c.maxFd
  {
    hide Deliverable, Disarm, ThreadPools.Apply, ThreadPools.Enabled;
    var t := Apply(c, s, a);
    if a.Accept? {
      assert |s.open + {a.fd}| == |s.open| + 1;
    } else {
      assert t.open <= s.open;
    }
    Smaller(t.open, s.open);
  }

  lemma Smaller(a: set<Fd>, b: set<Fd>)
    ensures a <= b ==> |a| <= |b|
  {
    if a <= b {
      assert b == a + (b - a);
    }
  }

  lemma SettledKept(c: Config, s: Server, a: Action)
    requires Settled(c, s) && Enabled(c, s, a)
    ensures Settled(c, Apply(c, s, a)) && !a.Modfd? && (a.Finish? ==> c.stops)
  {
    hide Deliverable, Disarm;
  }

  lemma StepKeeps(c: Config, s: Server, a: Action)
    requires c.oneShot && Inv(c, s) && Enabled(c, s, a)
    ensures Inv(c, Apply(c, s, a))
  {
    SettledKept(c, s, a);
    RejectionKept(c, s, a);
    RegistrationKept(c, s, a);
    OpenBounded(c, s, a);
    PoolKept(c, s, a);
    hide Exclusive, ThreadPools.Inv, AllOneShot, Apply, Enabled, Settled;
    match a
    case Wait(events) => WaitKeeps(c, s, events);
    case Accept(_) => HeadKeeps(c, s, a);
    case Hup => HeadKeeps(c, s, a);
    case Readable(_) => HeadKeeps(c, s, a);
    case Writable(_) => HeadKeeps(c, s, a);
    case PoolStep(b) => if b.Append? { AppendStepKeeps(c, s, b.i); } else { WorkStepKeeps(c, s, b.j); }
    case Finish(j, result) => FinishKeeps(c, s, j, result);
  }

  lemma PoolKept(c: Config, s: Server, a: Action)
    requires ThreadPools.Inv(s.pool) && |s.pool.appenders| == 1 && Enabled(c, s, a)
    ensures ThreadPools.Inv(Apply(c, s, a).pool)
  {
    hide ThreadPools.Inv, ThreadPools.Apply;
    match a
    case Readable(ok) => if ok { ThreadPools.StepKeeps(s.pool, Call(0, s.batch[0].fd)); }
    case PoolStep(b) => ThreadPools.StepKeeps(s.pool, b);
    case Finish(j, _) => ThreadPools.StepKeeps(s.pool, Done(j));
    case Modfd(j) => ThreadPools.StepKeeps(s.pool, Done(j));
    case _ =>
  }

  lemma {:induction false} TraceKeeps(c: Config, s: Server, run: seq<Action>, t: Server)
    requires c.oneShot && Inv(c, s) && Trace(c, s, run, t)
    ensures Inv(c, t)
    decreases |run|
  {
    if run != [] {
      StepKeeps(c, s, run[0]);
      TraceKeeps(c, Apply(c, s, run[0]), run[1..], t);
    }
  }

  /** The program as intended; without workers nothing is ever closed behind the main loop. */
  predicate Intended(c: Config) { c.oneShot && (c.stops || c.workers == 0) }

  lemma InitInv(c: Config)
    requires Intended(c)
    ensures Inv(c, Init(c))
  {
    var s := Init(c);
    ThreadPools.InitInv(c.max, 1, c.workers);
    forall fd ensures Places(s, fd) == 0 {
      assert forall x :: x in multiset(s.pool.appenders) ==> x in s.pool.appenders;
      assert forall x :: x in multiset(s.pool.workers) ==> x in s.pool.workers;
    }
  }

  // ---- what the server guarantees ----

  ghost predicate Reachable(c: Config, s: Server) {
    exists run :: Trace(c, Init(c), run, s)
  }

  /**
   What the ownership is for: nothing is queued twice, no two workers process one connection, no connection is queued
   and armed, and the event that the main loop is about to handle is for an open connection that is neither queued nor
   held by a worker.
   */
  ghost predicate Owned(s: Server) {
    && (forall i, j :: 0 <= i < j < |s.pool.queue| ==> s.pool.queue[i] != s.pool.queue[j])
    && (forall i, j ::
          0 <= i < j < |s.pool.workers| && s.pool.workers[i].Processing? && s.pool.workers[j].Processing? ==>
          s.pool.workers[i].r != s.pool.workers[j].r)
    && (forall fd :: fd in s.pool.queue ==> !IsEnabled(s, fd))
    && (s.batch != [] && s.batch[0].On? ==>
          var fd := s.batch[0].fd;
          fd in s.open && fd !in s.pool.queue && Processing(fd) !in s.pool.workers)
  }

  /** In the intended program every open connection has exactly one handler in every reachable state. */
  lemma OwnershipSafe(c: Config, s: Server)
    requires Intended(c) && Reachable(c, s)
    ensures Exclusive(s) && Owned(s)
  {
    var run :| Trace(c, Init(c), run, s);
    InitInv(c);
    TraceKeeps(c, Init(c), run, s);
    hide Exclusive, Inv, Trace;
    QueuedOnce(s);
    ProcessedOnce(s);
    QueuedIsDisarmed(s);
    HeadIsFree(s);
  }

  lemma QueuedIsDisarmed(s: Server)
    requires Exclusive(s)
    ensures forall fd :: fd in s.pool.queue ==> !IsEnabled(s, fd)
  {
    hide Handing, Holding, Count;
    forall fd | fd in s.pool.queue ensures !IsEnabled(s, fd) {
      assert Places(s, fd) <= 1;
    }
  }

  lemma QueuedOnce(s: Server)
    requires Exclusive(s)
    ensures forall i, j :: 0 <= i < j < |s.pool.queue| ==> s.pool.queue[i] != s.pool.queue[j]
  {
    hide Handing, Holding, Count;
    forall i, j | 0 <= i < j < |s.pool.queue| ensures s.pool.queue[i] != s.pool.queue[j] {
      assert Places(s, s.pool.queue[i]) <= 1;
      Twice(s.pool.queue, i, j);
    }
  }

  lemma ProcessedOnce(s: Server)
    requires Exclusive(s)
    ensures forall i, j ::
      0 <= i < j < |s.pool.workers| && s.pool.workers[i].Processing? && s.pool.workers[j].Processing? ==>
      s.pool.workers[i].r != s.pool.workers[j].r
  {
    hide Handing, Count;
    forall i, j | 0 <= i < j < |s.pool.workers| && s.pool.workers[i].Processing? && s.pool.workers[j].Processing?
      ensures s.pool.workers[i].r != s.pool.workers[j].r
    {
      assert Places(s, s.pool.workers[i].r) <= 1;
      Twice(s.pool.workers, i, j);
    }
  }

  lemma HeadIsFree(s: Server)
    requires Exclusive(s)
    ensures s.batch != [] && s.batch[0].On? ==>
      var fd := s.batch[0].fd;
      fd in s.open && fd !in s.pool.queue && Processing(fd) !in s.pool.workers
  {
    hide Handing, Count;
    if s.batch != [] && s.batch[0].On? {
      HeadCounts(s.batch, s.batch[0].fd);
      assert Places(s, s.batch[0].fd) == if s.batch[0].fd in s.open then 1 else 0;
    }
  }

  lemma Twice<T>(q: seq<T>, i: nat, j: nat)
    requires i < j < |q|
    ensures q[i] == q[j] ==> multiset(q)[q[i]] >= 2
  {
    assert q == q[..j] + q[j..];
    assert q[i] in q[..j] && q[j] in q[j..];
  }

  // ---- why a connection is closed ----

  /** The head of the batch is an event of connection `fd`. */
  predicate AtHead(s: Server, fd: Fd) { s.batch != [] && s.batch[0].On? && s.batch[0].fd == fd }

  /** The peer is gone, reading or writing failed, or a worker closes the connection. */
  predicate Cause(s: Server, a: Action, fd: Fd) {
    match a
    case Hup => AtHead(s, fd)
    case Readable(ok) => !ok && AtHead(s, fd)
    case Writable(ok) => !ok && AtHead(s, fd)
    case Finish(j, result) =>
      result == Close && j < |s.pool.workers| && s.pool.workers[j].Processing? && s.pool.workers[j].r == fd
    case _ => false
  }

  lemma CauseIff(c: Config, s: Server, a: Action, fd: Fd)
    requires Enabled(c, s, a) && fd in s.open
    ensures fd !in Apply(c, s, a).open <==> Cause(s, a, fd)
  {
    hide Deliverable, Disarm, ThreadPools.Apply;
  }

  /** Somewhere in the run, at a state in which `fd` is open, there is a cause to close it. */
  ghost predicate HasCause(c: Config, s: Server, run: seq<Action>, fd: Fd)
    decreases |run|
  {
    run != [] && Enabled(c, s, run[0]) &&
    ((fd in s.open && Cause(s, run[0], fd)) || HasCause(c, Apply(c, s, run[0]), run[1..], fd))
  }

  /** A connection that was open and no longer is was closed for a cause; without one it stays open. */
  lemma {:induction false} ClosedForCause(c: Config, s: Server, run: seq<Action>, t: Server, fd: Fd)
    requires Trace(c, s, run, t) && fd in s.open && fd !in t.open
    ensures HasCause(c, s, run, fd)
    decreases |run|
  {
    hide Apply, Enabled, Cause;
    if run != [] {
      CauseIff(c, s, run[0], fd);
      if fd in Apply(c, s, run[0]).open {
        ClosedForCause(c, Apply(c, s, run[0]), run[1..], t, fd);
      }
    }
  }

  // ---- runs that show where the guarantees end ----

  lemma {:induction false} TraceSnoc(c: Config, s: Server, run: seq<Action>, t: Server, a: Action)
    requires Trace(c, s, run, t) && Enabled(c, t, a)
    ensures Trace(c, s, run + [a], Apply(c, t, a))
    decreases |run|
  {
    hide Enabled, Apply;
    if run == [] {
      assert run + [a] == [a] && [a][1..] == [];
    } else {
      assert (run + [a])[1..] == run[1..] + [a];
      TraceSnoc(c, Apply(c, s, run[0]), run[1..], t, a);
    }
  }

  lemma ReachStep(c: Config, s: Server, a: Action)
    requires Reachable(c, s) && Enabled(c, s, a)
    ensures Reachable(c, Apply(c, s, a))
  {
    var run :| Trace(c, Init(c), run, s);
    TraceSnoc(c, Init(c), run, s, a);
  }

  /** The loop is at rest: nothing is delivered, and the main thread is outside `append`. */
  ghost predicate Quiet(c: Config, s: Server) {
    Reachable(c, s) && MainIdle(s) && s.batch == [] && s.pool.lock == Free && s.pool.max == c.max
  }

  lemma Connect(c: Config, s: Server, fd: Fd) returns (t: Server)
    requires Quiet(c, s) && fd !in s.open && |s.open| < c.maxFd
    ensures Quiet(c, t)
    ensures t == s.(open := s.open + {fd}, registered := s.registered[fd := Registration(false, c.oneShot, true)])
  {
    hide Reachable;
    var events := [Listen];
    assert forall x :: Count(events, x) == 0;
    assert Disarm(s.registered, events) == s.registered;
    ReachStep(c, s, Wait(events));
    var s1 := Apply(c, s, Wait(events));
    ReachStep(c, s1, Accept(fd));
    t := Apply(c, s1, Accept(fd));
  }

  /** An armed connection becomes readable and the main loop enters `append` with it. */
  lemma Deliver(c: Config, s: Server, fd: Fd) returns (t: Server)
    requires Quiet(c, s) && IsEnabled(s, fd) && !s.registered[fd].out
    ensures Reachable(c, t) && t == s.(registered := Disarm(s.registered, [On(fd, In)]),
      pool := s.pool.(appenders := [AtTest(fd)], lock := ByAppender(0)))
  {
    hide Reachable;
    var events := [On(fd, In)];
    assert forall x :: Count(events, x) == if x == fd then 1 else 0;
    assert Deliverable(s, events);
    ReachStep(c, s, Wait(events));
    var s1 := Apply(c, s, Wait(events));
    ReachStep(c, s1, Readable(true));
    var s2 := Apply(c, s1, Readable(true));
    assert s2.pool.appenders == [AtLock(fd)];
    ReachStep(c, s2, PoolStep(Append(0)));
    t := Apply(c, s2, PoolStep(Append(0)));
  }

  /** The same up to the end of `append`, when there is room. */
  lemma DeliverAppend(c: Config, s: Server, fd: Fd) returns (t: Server)
    requires Quiet(c, s) && IsEnabled(s, fd) && !s.registered[fd].out && |s.pool.queue| <= c.max
    ensures Quiet(c, t) && t == s.(registered := Disarm(s.registered, [On(fd, In)]),
      pool := s.pool.(queue := s.pool.queue + [fd], accepted := s.pool.accepted + [fd], sem := s.pool.sem + 1))
  {
    hide Reachable, Disarm, Deliverable;
    var s1 := Deliver(c, s, fd);
    var a := PoolStep(Append(0));
    ReachStep(c, s1, a);
    var s2 := Apply(c, s1, a);
    ReachStep(c, s2, a);
    var s3 := Apply(c, s2, a);
    ReachStep(c, s3, a);
    var s4 := Apply(c, s3, a);
    ReachStep(c, s4, a);
    t := Apply(c, s4, a);
  }

  lemma InitQuiet(c: Config)
    ensures Quiet(c, Init(c))
  {
    assert Trace(c, Init(c), [], Init(c));
  }

  /** As written, without one-shot registration: a second burst of bytes puts any connection into the queue twice. */
  lemma QueuedTwice(c: Config, fd: Fd) returns (s: Server)
    requires !c.oneShot && c.max > 0 && c.maxFd > 0
    ensures Reachable(c, s) && s.pool.queue == [fd, fd]
  {
    s := Flood(c, fd, 2);
    assert s.pool.queue == [fd, fd];
  }

  /** Without one-shot registration one connection alone can be queued as often as the queue has room. */
  lemma {:induction false} Flood(c: Config, fd: Fd, n: nat) returns (s: Server)
    requires !c.oneShot && c.maxFd > 0 && n <= c.max + 1
    ensures Quiet(c, s) && |s.pool.queue| == n && (forall i :: 0 <= i < n ==> s.pool.queue[i] == fd)
    ensures s.open == {fd} && s.registered == map[fd := Registration(false, false, true)]
    ensures s.rejected == {}
  {
    hide Reachable, Disarm;
    if n == 0 {
      InitQuiet(c);
      s := Connect(c, Init(c), fd);
    } else {
      var s1 := Flood(c, fd, n - 1);
      StaysArmed(s1, fd);
      s := DeliverAppend(c, s1, fd);
    }
  }

  lemma StaysArmed(s: Server, fd: Fd)
    requires fd in s.registered && !s.registered[fd].oneShot
    ensures Disarm(s.registered, [On(fd, In)]) == s.registered
  {
  }

  // ---- going on behind close_conn ----

  /** Connection `fd` alone is open and queued `n` times; worker 0 is idle and the loop at rest. */
  ghost predicate Copies(c: Config, s: Server, fd: Fd, n: nat) {
    && Quiet(c, s) && s.open == {fd} && s.leaving == {} && s.rejected == {}
    && |s.pool.queue| == n && (forall i :: 0 <= i < n ==> s.pool.queue[i] == fd) && s.pool.sem == n
    && s.pool.workers != [] && s.pool.workers[0] == Waiting
  }

  /** Worker 0 takes the oldest request. */
  lemma Take(c: Config, s: Server) returns (t: Server)
    requires Reachable(c, s) && s.pool.lock == Free && s.pool.queue != [] && s.pool.sem > 0
    requires s.pool.workers != [] && s.pool.workers[0] == Waiting
    ensures Reachable(c, t)
    ensures t == s.(pool := s.pool.(queue := s.pool.queue[1..], taken := s.pool.taken + [s.pool.queue[0]],
      sem := s.pool.sem - 1, workers := s.pool.workers[0 := Processing(s.pool.queue[0])]))
  {
    hide Reachable;
    var a := PoolStep(Work(0));
    ReachStep(c, s, a);
    var s1 := Apply(c, s, a);
    ReachStep(c, s1, a);
    var s2 := Apply(c, s1, a);
    ReachStep(c, s2, a);
    var s3 := Apply(c, s2, a);
    ReachStep(c, s3, a);
    var s4 := Apply(c, s3, a);
    ReachStep(c, s4, a);
    t := Apply(c, s4, a);
  }

  lemma Disarmed(fd: Fd)
    ensures Disarm(map[fd := Registration(false, true, true)], [On(fd, In)])
      == map[fd := Registration(false, true, false)]
    ensures Disarm(map[fd := Registration(true, true, true)], [On(fd, Out)])
      == map[fd := Registration(true, true, false)]
  {
  }

  /** A connection is opened, armed one-shot, read and queued. */
  lemma ConnectAndQueue(c: Config, s: Server, fd: Fd) returns (t: Server)
    requires c.oneShot && c.maxFd > 0 && Quiet(c, s) && s.open == {} && s.registered == map[] && |s.pool.queue| <= c.max
    ensures Quiet(c, t) && t == s.(open := {fd}, registered := map[fd := Registration(false, true, false)],
      pool := s.pool.(queue := s.pool.queue + [fd], accepted := s.pool.accepted + [fd], sem := s.pool.sem + 1))
  {
    hide Reachable, Disarm;
    var s1 := Connect(c, s, fd);
    Disarmed(fd);
    t := DeliverAppend(c, s1, fd);
  }

  /**
   Line 141 as written. A worker closes the connection, its descriptor is accepted again, read and queued, and then the
   worker registers the new connection for output.
   */
  lemma Reused(c: Config, s: Server, fd: Fd, n: nat) returns (t: Server)
    requires c.oneShot && !c.stops && c.maxFd > 0 && 0 < n <= c.max + 1
    requires Copies(c, s, fd, n) && s.registered == map[fd := Registration(false, true, false)]
    ensures Copies(c, t, fd, n) && t.registered == map[fd := Registration(true, true, true)]
  {
    hide Reachable, Disarm;
    var s1 := Take(c, s);
    ReachStep(c, s1, Finish(0, Close));
    var s2 := Apply(c, s1, Finish(0, Close));
    var s3 := ConnectAndQueue(c, s2, fd);
    ReachStep(c, s3, Modfd(0));
    t := Apply(c, s3, Modfd(0));
  }

  /** The connection that is queued is reported for output. */
  lemma Reported(c: Config, s: Server, fd: Fd, n: nat) returns (t: Server)
    requires Copies(c, s, fd, n) && s.registered == map[fd := Registration(true, true, true)]
    ensures Reachable(c, t)
    ensures t == s.(batch := [On(fd, Out)], registered := map[fd := Registration(true, true, false)])
  {
    hide Reachable, Disarm;
    var events := [On(fd, Out)];
    assert forall x :: Count(events, x) == if x == fd then 1 else 0;
    Disarmed(fd);
    ReachStep(c, s, Wait(events));
    t := Apply(c, s, Wait(events));
  }

  lemma FirstCopy(c: Config, fd: Fd) returns (s: Server)
    requires c.oneShot && c.maxFd > 0 && c.workers > 0
    ensures Copies(c, s, fd, 1) && s.registered == map[fd := Registration(false, true, false)]
  {
    hide Reachable;
    InitQuiet(c);
    s := ConnectAndQueue(c, Init(c), fd);
  }

  /** So, even with one-shot registration, the main loop is about to write or close a connection that is queued. */
  lemma QueuedIsReported(c: Config, fd: Fd) returns (s: Server)
    requires c.oneShot && !c.stops && c.maxFd > 0 && c.workers > 0
    ensures Reachable(c, s) && s.pool.queue == [fd] && fd in s.open && s.batch == [On(fd, Out)]
  {
    hide Reachable;
    var s1 := FirstCopy(c, fd);
    var s2 := Reused(c, s1, fd, 1);
    s := Reported(c, s2, fd, 1);
    assert s.pool.queue == [fd];
  }

  /** The write fails, the connection is closed while it is queued, and its descriptor is accepted once more. */
  lemma Reopened(c: Config, s: Server, fd: Fd, n: nat) returns (t: Server)
    requires c.oneShot && c.maxFd > 0
    requires Copies(c, s, fd, n) && s.registered == map[fd := Registration(true, true, true)]
    ensures Copies(c, t, fd, n) && t.registered == map[fd := Registration(false, true, true)]
  {
    hide Reachable, Disarm;
    var s1 := Reported(c, s, fd, n);
    ReachStep(c, s1, Writable(false));
    var s2 := Apply(c, s1, Writable(false));
    assert s2.registered == map[] && s2.open == {};
    t := Connect(c, s2, fd);
  }

  /** In this way one connection can be queued as often as the queue has room. */
  lemma {:induction false} FloodReused(c: Config, fd: Fd, n: nat) returns (s: Server)
    requires c.oneShot && !c.stops && c.maxFd > 0 && c.workers > 0 && 0 < n <= c.max + 1
    ensures Copies(c, s, fd, n) && s.registered == map[fd := Registration(false, true, false)]
  {
    hide Reachable, Disarm;
    if n == 1 {
      s := FirstCopy(c, fd);
    } else {
      var s1 := FloodReused(c, fd, n - 1);
      var s2 := Reused(c, s1, fd, n - 1);
      var s3 := Reopened(c, s2, fd, n - 1);
      Disarmed(fd);
      s := DeliverAppend(c, s3, fd);
    }
  }

  /**
   Every open connection has exactly one handler in every reachable state, and what that is for holds in every
   reachable state, exactly when new connections are registered one-shot and `process` returns after `close_conn`.
   */
  lemma OwnershipIff(c: Config)
    requires c.maxFd > 0
    ensures Intended(c) <==> forall s :: Reachable(c, s) ==> Exclusive(s)
    ensures Intended(c) <==> forall s :: Reachable(c, s) ==> Owned(s)
  {
    hide Reachable;
    if Intended(c) {
      forall s | Reachable(c, s) ensures Exclusive(s) && Owned(s) { OwnershipSafe(c, s); }
    } else {
      var s;
      if !c.oneShot {
        s := Flood(c, 0, 1);
      } else {
        var s1 := FirstCopy(c, 0);
        s := Reused(c, s1, 0, 1);
      }
      assert s.pool.queue == [0];
      assert 0 in s.pool.queue && IsEnabled(s, 0);
      if Exclusive(s) { QueuedIsDisarmed(s); }
      assert Reachable(c, s);
    }
  }

  /** `n` connections, each of them queued while no worker moves. */
  lemma {:induction false} Fill(c: Config, n: nat) returns (s: Server)
    requires c.oneShot && n <= c.max + 1 && n <= c.maxFd
    ensures Quiet(c, s) && |s.open| == n && |s.pool.queue| == n && s.rejected == {}
    ensures forall fd :: fd in s.open ==> fd < n
  {
    hide Reachable, Disarm;
    if n == 0 {
      InitQuiet(c);
      s := Init(c);
    } else {
      var s1 := Fill(c, n - 1);
      var s2 := Connect(c, s1, n - 1);
      s := DeliverAppend(c, s2, n - 1);
    }
  }

  /** The main loop enters `append` with a connection while the queue is full, and turns it away. */
  lemma Reject(c: Config, s: Server, fd: Fd) returns (t: Server)
    requires Quiet(c, s) && IsEnabled(s, fd) && !s.registered[fd].out && |s.pool.queue| > c.max
    ensures Reachable(c, t) && fd in t.rejected
  {
    hide Reachable, Disarm, Deliverable;
    var s1 := Deliver(c, s, fd);
    var a := PoolStep(Append(0));
    ReachStep(c, s1, a);
    var s2 := Apply(c, s1, a);
    ReachStep(c, s2, a);
    t := Apply(c, s2, a);
  }

  /** Without room for a connection nothing ever happens. */
  ghost predicate NoClients(s: Server) {
    && s.open == {} && s.registered == map[] && s.rejected == {} && s.pool.appenders == [Outside]
    && forall e :: e in s.batch ==> e == Listen
  }

  lemma NoClientsKept(c: Config, s: Server, a: Action)
    requires c.maxFd == 0 && NoClients(s) && Enabled(c, s, a)
    ensures NoClients(Apply(c, s, a))
  {
    hide Disarm, ThreadPools.Apply;
    assert s.batch != [] ==> s.batch[0] in s.batch && forall e :: e in s.batch[1..] ==> e in s.batch;
    match a
    case Wait(events) =>
      DisarmKeeps(s.registered, events);
      forall e | e in events ensures e == Listen { OnlyListen(s, events, e); }
    case PoolStep(b) => WorkerOnly(s.pool, b);
    case Finish(j, _) => WorkerOnly(s.pool, Done(j));
    case Modfd(j) => WorkerOnly(s.pool, Done(j));
    case _ =>
  }

  lemma OnlyListen(s: Server, events: seq<Event>, e: Event)
    requires s.registered == map[] && Deliverable(s, events) && e in events
    ensures e == Listen
  {
    if e.On? {
      assert Count(events, e.fd) == 0;
      assert e in multiset(events);
      match e.kind case In => case Out => case Hangup =>
    }
  }

  lemma WorkerOnly(p: Pool, a: ThreadPools.Action)
    requires p.appenders == [Outside] && ThreadPools.Enabled(p, a) && !a.Call?
    ensures ThreadPools.Apply(p, a).appenders == [Outside]
  {
  }

  lemma {:induction false} NoClientsTrace(c: Config, s: Server, run: seq<Action>, t: Server)
    requires c.maxFd == 0 && NoClients(s) && Trace(c, s, run, t)
    ensures NoClients(t)
    decreases |run|
  {
    hide Apply, Enabled, NoClients;
    if run != [] {
      NoClientsKept(c, s, run[0]);
      NoClientsTrace(c, Apply(c, s, run[0]), run[1..], t);
    }
  }

  /**
   `append` never turns a connection away exactly when the program is the intended one and at most one connection more
   than the limit may be open, or when none may be; the return value that the main loop ignores is then true.
   */
  lemma RejectsIff(c: Config)
    ensures c.maxFd == 0 || (Intended(c) && c.maxFd <= c.max + 1) <==> forall s :: Reachable(c, s) ==> s.rejected == {}
  {
    if c.maxFd == 0 {
      forall s | Reachable(c, s) ensures s.rejected == {} {
        var run :| Trace(c, Init(c), run, s);
        NoClientsTrace(c, Init(c), run, s);
      }
    } else if Intended(c) && c.maxFd <= c.max + 1 {
      forall s | Reachable(c, s) ensures s.rejected == {} {
        var run :| Trace(c, Init(c), run, s);
        InitInv(c);
        TraceKeeps(c, Init(c), run, s);
      }
    } else {
      var t := Rejected(c);
      assert t.rejected != {};
    }
  }

  /** A run that turns a connection away, in every other case. */
  lemma Rejected(c: Config) returns (t: Server)
    requires c.maxFd > 0 && !(Intended(c) && c.maxFd <= c.max + 1)
    ensures Reachable(c, t) && t.rejected != {}
  {
    hide Reachable, Disarm;
    var fd, s := c.max + 1, Init(c);
    if !c.oneShot {
      s := Flood(c, fd, c.max + 1);
    } else if Intended(c) {
      var s1 := Fill(c, c.max + 1);
      s := Connect(c, s1, fd);
    } else {
      var s1 := FloodReused(c, fd, c.max + 1);
      var s2 := Reused(c, s1, fd, c.max + 1);
      s := Reopened(c, s2, fd, c.max + 1);
    }
    t := Reject(c, s, fd);
    assert fd in t.rejected;
  }
}

/**
 The queue protocol of thread_pool.h for any number of appending threads and workers: a list guarded by a
 mutex, and a semaphore posted after the unlock. Every statement between lock operations is one step; `front`
 and `pop_front`, which nothing can separate under the lock, are one. The pool is live: `m_stop` is not set.
 */
module ThreadPools {
  import opened Counting

  type Request = nat

  /** Where a thread stands in `append`; the request travels with it until it is pushed. */
  datatype Appender =
    | Outside | AtLock(r: Request) | AtTest(r: Request) | AtReject(r: Request) | AtPush(r: Request) | AtUnlock | AtPost

  /** Where a worker stands in `run`. */
  datatype Worker = Waiting | Locking | Testing | Leaving | Taking | Unlocking(r: Request) | Processing(r: Request)

  datatype Holder = Free | ByAppender(i: nat) | ByWorker(j: nat)

  /** The shared state, the threads, and two logs: the requests accepted and the requests taken, in order. */
  datatype Pool = Pool(
    max: nat, queue: seq<Request>, sem: nat, lock: Holder, appenders: seq<Appender>, workers: seq<Worker>,
    accepted: seq<Request>, taken: seq<Request>)

  datatype Action = Call(i: nat, r: Request) | Append(i: nat) | Work(j: nat) | Done(j: nat)

  function Init(max: nat, appenders: nat, workers: nat): Pool {
    Pool(max, [], 0, Free, seq(appenders, _ => Outside), seq(workers, _ => Waiting), [], [])
  }

  predicate Enabled(p: Pool, a: Action) {
    match a
    case Call(i, _) => i < |p.appenders| && p.appenders[i] == Outside
    case Append(i) => i < |p.appenders| && p.appenders[i] != Outside && (p.appenders[i].AtLock? ==> p.lock == Free)
    case Work(j) =>
      && j < |p.workers| && !p.workers[j].Processing?
      && (p.workers[j] == Waiting ==> p.sem > 0) && (p.workers[j] == Locking ==> p.lock == Free)
      && (p.workers[j] == Taking ==> p.queue != [])
    case Done(j) => j < |p.workers| && p.workers[j].Processing?
  }

  function Apply(p: Pool, a: Action): Pool
    requires Enabled(p, a)
  {
    match a
    case Call(i, r) => p.(appenders := p.appenders[i := AtLock(r)])
    case Append(i) => AppendStep(p, i)
    case Work(j) => WorkStep(p, j)
    case Done(j) => p.(workers := p.workers[j := Waiting])
  }

  function AppendStep(p: Pool, i: nat): Pool
    requires Enabled(p, Append(i))
  {
    match p.appenders[i]
    case AtLock(r) => p.(lock := ByAppender(i), appenders := p.appenders[i := AtTest(r)])
    case AtTest(r) => p.(appenders := p.appenders[i := if |p.queue| > p.max then AtReject(r) else AtPush(r)])
    case AtReject(_) => p.(lock := Free, appenders := p.appenders[i := Outside])
    case AtPush(r) => p.(queue := p.queue + [r], accepted := p.accepted + [r], appenders := p.appenders[i := AtUnlock])
    case AtUnlock => p.(lock := Free, appenders := p.appenders[i := AtPost])
    case AtPost => p.(sem := p.sem + 1, appenders := p.appenders[i := Outside])
  }

  function WorkStep(p: Pool, j: nat): Pool
    requires Enabled(p, Work(j))
  {
    match p.workers[j]
    case Waiting => p.(sem := p.sem - 1, workers := p.workers[j := Locking])
    case Locking => p.(lock := ByWorker(j), workers := p.workers[j := Testing])
    case Testing => p.(workers := p.workers[j := if p.queue == [] then Leaving else Taking])
    case Leaving => p.(lock := Free, workers := p.workers[j := Waiting])
    case Taking =>
      p.(queue := p.queue[1..], taken := p.taken + [p.queue[0]], workers := p.workers[j := Unlocking(p.queue[0])])
    case Unlocking(r) => p.(lock := Free, workers := p.workers[j := Processing(r)])
  }

  ghost predicate Trace(p: Pool, run: seq<Action>, q: Pool)
    decreases |run|
  {
    if run == [] then p == q else Enabled(p, run[0]) && Trace(Apply(p, run[0]), run[1..], q)
  }

  // ---- invariants ----

  predicate AppenderInside(a: Appender) { a.AtTest? || a.AtReject? || a.AtPush? || a == AtUnlock }

  predicate WorkerInside(w: Worker) { w == Testing || w == Leaving || w == Taking || w.Unlocking? }

  /** The mutex is held exactly by the thread that is between lock and unlock. */
  ghost predicate Mutex(p: Pool) {
    && (forall i :: 0 <= i < |p.appenders| ==> (AppenderInside(p.appenders[i]) <==> p.lock == ByAppender(i)))
    && (forall j :: 0 <= j < |p.workers| ==> (WorkerInside(p.workers[j]) <==> p.lock == ByWorker(j)))
    && (p.lock.ByAppender? ==> p.lock.i < |p.appenders|)
    && (p.lock.ByWorker? ==> p.lock.j < |p.workers|)
  }

  predicate IsPosting(a: Appender) { a == AtUnlock || a == AtPost }

  predicate IsFetching(w: Worker) { w == Locking || w == Testing || w == Taking }

  /** Appenders between push and post. */
  function Posting(appenders: seq<Appender>): nat { Tally(appenders, IsPosting) }

  /** Workers between wait and pop. */
  function Fetching(workers: seq<Worker>): nat { Tally(workers, IsFetching) }

  /** Tokens balance: every queued request has its post done, due, or already consumed by a worker on its way. */
  ghost predicate Tokens(p: Pool) {
    |p.queue| == p.sem + Posting(p.appenders) + Fetching(p.workers)
  }

  /** The pool is a bounded first-in-first-out list, and a worker that looks finds something in it. */
  ghost predicate Fifo(p: Pool) {
    && p.accepted == p.taken + p.queue
    && |p.queue| <= p.max + 1
    && (forall i :: 0 <= i < |p.appenders| && p.appenders[i].AtPush? ==> |p.queue| <= p.max)
    && (forall j :: 0 <= j < |p.workers| ==> p.workers[j] != Leaving)
    && (forall j :: 0 <= j < |p.workers| && p.workers[j] == Taking ==> p.queue != [])
  }

  ghost predicate Inv(p: Pool) { Mutex(p) && Tokens(p) && Fifo(p) }

  lemma InitInv(max: nat, appenders: nat, workers: nat)
    ensures Inv(Init(max, appenders, workers))
  {
    var p := Init(max, appenders, workers);
    TallyPositive(p.appenders, IsPosting);
    TallyPositive(p.workers, IsFetching);
  }

  lemma MutexKept(p: Pool, a: Action)
    requires Mutex(p) && Enabled(p, a)
    ensures Mutex(Apply(p, a))
  {
  }

  lemma TokensKept(p: Pool, a: Action)
    requires Tokens(p) && Enabled(p, a)
    requires a.Work? && p.workers[a.j] == Testing ==> p.queue != []
    ensures Tokens(Apply(p, a))
  {
    hide Tally;
    var q := Apply(p, a);
    match a
    case Call(i, _) => TallyUpdate(p.appenders, i, q.appenders[i], IsPosting);
    case Append(i) => TallyUpdate(p.appenders, i, q.appenders[i], IsPosting);
    case Work(j) => TallyUpdate(p.workers, j, q.workers[j], IsFetching);
    case Done(j) => TallyUpdate(p.workers, j, q.workers[j], IsFetching);
  }

  /** A worker that passed `wait` and holds the lock has a request to take. */
  lemma TesterFinds(p: Pool, j: nat)
    requires Tokens(p) && j < |p.workers| && (p.workers[j] == Testing || p.workers[j] == Taking)
    ensures p.queue != []
  {
    TallyPositive(p.workers, IsFetching);
  }

  lemma FifoKept(p: Pool, a: Action)
    requires Inv(p) && Enabled(p, a)
    ensures Fifo(Apply(p, a))
  {
    hide Tokens;
    if a.Work? && p.workers[a.j] == Testing {
      TesterFinds(p, a.j);
    }
    if a.Work? && p.workers[a.j] == Taking {
      assert p.taken + p.queue == (p.taken + [p.queue[0]]) + p.queue[1..];
    }
  }

  lemma StepKeeps(p: Pool, a: Action)
    requires Inv(p) && Enabled(p, a)
    ensures Inv(Apply(p, a))
  {
    hide Mutex, Tokens, Fifo, Apply;
    if a.Work? && p.workers[a.j] == Testing {
      TesterFinds(p, a.j);
    }
    MutexKept(p, a);
    TokensKept(p, a);
    FifoKept(p, a);
  }

  lemma {:induction false} TraceKeeps(p: Pool, run: seq<Action>, q: Pool)
    requires Inv(p) && Trace(p, run, q)
    ensures Inv(q)
    decreases |run|
  {
    if run != [] {
      StepKeeps(p, run[0]);
      TraceKeeps(Apply(p, run[0]), run[1..], q);
    }
  }

  /**
   In every interleaving: the tokens balance, no worker takes the empty-queue branch, the requests accepted are
   those taken followed by those queued, in order, the queue never holds more than one request above the limit
   (the test is `>`), and the lock excludes.
   */
  lemma PoolSafe(max: nat, appenders: nat, workers: nat, run: seq<Action>, p: Pool)
    requires Trace(Init(max, appenders, workers), run, p)
    ensures |p.queue| == p.sem + Posting(p.appenders) + Fetching(p.workers)
    ensures Leaving !in p.workers
    ensures p.accepted == p.taken + p.queue && |p.queue| <= max + 1
    ensures Mutex(p)
  {
    InitInv(max, appenders, workers);
    TraceKeeps(Init(max, appenders, workers), run, p);
    MaxFixed(Init(max, appenders, workers), run, p);
  }

  lemma {:induction false} MaxFixed(p: Pool, run: seq<Action>, q: Pool)
    requires Trace(p, run, q)
    ensures q.max == p.max && |q.appenders| == |p.appenders| && |q.workers| == |p.workers|
    decreases |run|
  {
    if run != [] {
      MaxFixed(Apply(p, run[0]), run[1..], q);
    }
  }

  /** While a request is queued, some thread of a pool with workers can go on without a new call. */
  lemma QueuedIsServed(max: nat, appenders: nat, workers: nat, run: seq<Action>, p: Pool)
    requires workers > 0 && Trace(Init(max, appenders, workers), run, p) && p.queue != []
    ensures exists a: Action :: !a.Call? && Enabled(p, a)
  {
    InitInv(max, appenders, workers);
    TraceKeeps(Init(max, appenders, workers), run, p);
    MaxFixed(Init(max, appenders, workers), run, p);
    hide Trace, Fifo;
    if p.lock.ByAppender? {
      assert Enabled(p, Append(p.lock.i));
    } else if p.lock.ByWorker? {
      assert Enabled(p, Work(p.lock.j));
    } else if p.workers[0].Processing? {
      assert Enabled(p, Done(0));
    } else if p.workers[0] == Locking || p.sem > 0 {
      assert Enabled(p, Work(0));
    } else {
      TallyPositive(p.workers, IsFetching);
      TallyPositive(p.appenders, IsPosting);
      if j :| 0 <= j < |p.workers| && IsFetching(p.workers[j]) {
        assert Enabled(p, Work(j));
      } else {
        var i :| 0 <= i < |p.appenders| && IsPosting(p.appenders[i]);
        assert Enabled(p, Append(i));
      }
    }
  }

  // ---- the pool object ----

  /** The steps of an appender or a worker that nothing interrupts. */
  function AppendRun(r: Request, ok: bool): seq<Action> {
    [Call(0, r)] + seq(if ok then 5 else 3, _ => Append(0))
  }

  function TakeRun(): seq<Action> { [Work(0), Work(0), Work(0), Work(0), Work(0)] }

  /** The queue object, used by one thread at a time: `append` and one turn of `run` are paths of the protocol. */
  class ThreadPool {
    const maxRequests: nat
    var workQueue: seq<Request>
    var queueStat: nat
    var locked: bool
    ghost var accepted: seq<Request>
    ghost var taken: seq<Request>

    ghost function View(worker: Worker): Pool
      reads this
    {
      Pool(maxRequests, workQueue, queueStat, Free, [Outside], [worker], accepted, taken)
    }

    constructor (maxRequests: nat)
      ensures !locked && View(Waiting) == Init(maxRequests, 1, 1)
    {
      this.maxRequests := maxRequests;
      workQueue, queueStat, locked, accepted, taken := [], 0, false, [], [];
    }

    method Append(request: Request) returns (ok: bool)
      requires !locked
      modifies this
      ensures !locked && ok == (|old(workQueue)| <= maxRequests)
      ensures workQueue == (if ok then old(workQueue) + [request] else old(workQueue))
      ensures Trace(old(View(Waiting)), AppendRun(request, ok), View(Waiting))
    {
      ghost var p := View(Waiting);
      locked := true;
      if |workQueue| > maxRequests {
        locked := false;
        RejectedPath(p, request);
        return false;
      }
      workQueue, accepted := workQueue + [request], accepted + [request];
      locked := false;
      queueStat := queueStat + 1;
      AcceptedPath(p, request);
      return true;
    }

    /** One turn of `run` up to the call of `process`; `wait` does not return before a post. */
    method Take() returns (request: Request)
      requires !locked && queueStat > 0 && Inv(View(Waiting))
      modifies this
      ensures !locked && old(workQueue) == [request] + workQueue
      ensures Trace(old(View(Waiting)), TakeRun(), View(Processing(request)))
    {
      ghost var p := View(Waiting);
      queueStat := queueStat - 1;
      locked := true;
      if workQueue == [] {
        // A token stands for a queued request, so the empty-queue branch is dead.
        assert false;
      }
      request := workQueue[0];
      workQueue, taken := workQueue[1..], taken + [request];
      locked := false;
      TakenPath(p);
    }
  }

  lemma RejectedPath(p: Pool, r: Request)
    requires p.lock == Free && p.appenders == [Outside] && |p.queue| > p.max
    ensures Trace(p, AppendRun(r, false), p)
  {
    var run := AppendRun(r, false);
    var p1 := Apply(p, run[0]);
    var p2 := Apply(p1, run[1]);
    var p3 := Apply(p2, run[2]);
    assert Apply(p3, run[3]) == p;
    assert Trace(p, run[4..], p);
    assert run[3..][1..] == run[4..] && run[2..][1..] == run[3..] && run[1..][1..] == run[2..];
    assert Trace(p3, run[3..], p) && Trace(p2, run[2..], p) && Trace(p1, run[1..], p);
  }

  lemma AcceptedPath(p: Pool, r: Request)
    requires p.lock == Free && p.appenders == [Outside] && |p.queue| <= p.max
    ensures Trace(p, AppendRun(r, true), p.(queue := p.queue + [r], accepted := p.accepted + [r], sem := p.sem + 1))
  {
    var run := AppendRun(r, true);
    var p1 := Apply(p, run[0]);
    var p2 := Apply(p1, run[1]);
    var p3 := Apply(p2, run[2]);
    var p4 := Apply(p3, run[3]);
    var p5 := Apply(p4, run[4]);
    var q := Apply(p5, run[5]);
    assert q == p.(queue := p.queue + [r], accepted := p.accepted + [r], sem := p.sem + 1);
    assert run[5..][1..] == run[6..] && run[4..][1..] == run[5..] && run[3..][1..] == run[4..];
    assert run[2..][1..] == run[3..] && run[1..][1..] == run[2..];
    assert Trace(q, run[6..], q) && Trace(p5, run[5..], q) && Trace(p4, run[4..], q) && Trace(p3, run[3..], q);
    assert Trace(p2, run[2..], q) && Trace(p1, run[1..], q);
  }

  lemma TakenPath(p: Pool)
    requires p.lock == Free && p.workers == [Waiting] && p.sem > 0 && p.queue != []
    ensures Trace(p, TakeRun(), p.(queue := p.queue[1..], taken := p.taken + [p.queue[0]], sem := p.sem - 1,
                                   workers := [Processing(p.queue[0])]))
  {
    var run := TakeRun();
    var p1 := Apply(p, run[0]);
    var p2 := Apply(p1, run[1]);
    var p3 := Apply(p2, run[2]);
    var p4 := Apply(p3, run[3]);
    var q := Apply(p4, run[4]);
    assert run[4..][1..] == run[5..] && run[3..][1..] == run[4..];
    assert run[2..][1..] == run[3..] && run[1..][1..] == run[2..];
    assert Trace(q, run[5..], q) && Trace(p4, run[4..], q) && Trace(p3, run[3..], q);
    assert Trace(p2, run[2..], q) && Trace(p1, run[1..], q);
  }
}

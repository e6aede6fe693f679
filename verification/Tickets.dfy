/**
 The ticket sellers of mutex.c: any number of threads test the counter without the lock, then take the lock,
 test again, print the number and decrement.
 */
module Tickets {
  import opened Counting

  datatype Pc = AtLoop | AtLock | AtTest | AtPrint | AtDecrement | AtUnlock | AtGiveUp | Returned

  datatype Holder = Free | By(i: nat)

  /** `sold` logs the numbers printed. */
  datatype State = State(ticket: int, lock: Holder, pcs: seq<Pc>, sold: seq<int>)

  function Init(tickets: nat, threads: nat): State {
    State(tickets, Free, seq(threads, _ => AtLoop), [])
  }

  predicate Enabled(s: State, i: nat) {
    i < |s.pcs| && s.pcs[i] != Returned && (s.pcs[i] == AtLock ==> s.lock == Free)
  }

  function Apply(s: State, i: nat): State
    requires Enabled(s, i)
  {
    match s.pcs[i]
    case AtLoop => s.(pcs := s.pcs[i := if s.ticket > 0 then AtLock else Returned])
    case AtLock => s.(lock := By(i), pcs := s.pcs[i := AtTest])
    case AtTest => s.(pcs := s.pcs[i := if s.ticket > 0 then AtPrint else AtGiveUp])
    case AtPrint => s.(sold := s.sold + [s.ticket], pcs := s.pcs[i := AtDecrement])
    case AtDecrement => s.(ticket := s.ticket - 1, pcs := s.pcs[i := AtUnlock])
    case AtUnlock => s.(lock := Free, pcs := s.pcs[i := AtLoop])
    case AtGiveUp => s.(lock := Free, pcs := s.pcs[i := Returned])
  }

  ghost predicate Trace(s: State, run: seq<nat>, t: State)
    decreases |run|
  {
    if run == [] then s == t else Enabled(s, run[0]) && Trace(Apply(s, run[0]), run[1..], t)
  }

  /** The numbers from `tickets` down to `left + 1`. */
  function Countdown(tickets: nat, left: nat): seq<int>
    requires left <= tickets
  {
    seq(tickets - left, k requires 0 <= k < tickets - left => tickets - k)
  }

  predicate Holds(pc: Pc) { pc in {AtTest, AtPrint, AtDecrement, AtUnlock, AtGiveUp} }

  ghost predicate Mutex(s: State) {
    && (forall i :: 0 <= i < |s.pcs| ==> (Holds(s.pcs[i]) <==> s.lock == By(i)))
    && (s.lock.By? ==> s.lock.i < |s.pcs|)
  }

  /** The holder of the lock has printed the current number and not yet taken it off. */
  predicate Printed(s: State) { s.lock.By? && s.lock.i < |s.pcs| && s.pcs[s.lock.i] == AtDecrement }

  ghost predicate Inv(tickets: nat, s: State) {
    && Mutex(s) && 0 <= s.ticket <= tickets && (Printed(s) ==> s.ticket > 0)
    && s.sold == Countdown(tickets, if Printed(s) then s.ticket - 1 else s.ticket)
    && (forall i :: 0 <= i < |s.pcs| ==>
          (s.pcs[i] == AtPrint ==> s.ticket > 0) && (s.pcs[i] in {AtGiveUp, Returned} ==> s.ticket == 0))
  }

  lemma StepKeeps(tickets: nat, s: State, i: nat)
    requires Inv(tickets, s) && Enabled(s, i)
    ensures Inv(tickets, Apply(s, i))
  {
    if s.pcs[i] == AtPrint {
      assert Countdown(tickets, s.ticket - 1) == Countdown(tickets, s.ticket) + [s.ticket];
    }
  }

  // ---- the measure ----

  function Rank(pc: Pc): nat {
    match pc
    case AtLoop => 4 case AtLock => 3 case AtTest => 2 case AtPrint => 1 case AtDecrement => 0
    case AtUnlock => 5 case AtGiveUp => 1 case Returned => 0
  }

  /** Six steps for each ticket left, and at most four more for each thread. */
  function Measure(s: State): int { 6 * s.ticket + Total(s.pcs, Rank) }

  lemma StepDecreases(s: State, i: nat)
    requires Enabled(s, i)
    ensures Measure(Apply(s, i)) < Measure(s)
  {
    TotalUpdate(s.pcs, i, Apply(s, i).pcs[i], Rank);
  }

  lemma {:induction false} TraceKeeps(tickets: nat, s: State, run: seq<nat>, t: State)
    requires Inv(tickets, s) && Trace(s, run, t)
    ensures Inv(tickets, t) && |t.pcs| == |s.pcs| && |run| + Measure(t) <= Measure(s)
    decreases |run|
  {
    if run != [] {
      StepKeeps(tickets, s, run[0]);
      StepDecreases(s, run[0]);
      TraceKeeps(tickets, Apply(s, run[0]), run[1..], t);
    }
  }

  lemma InitInv(tickets: nat, threads: nat)
    ensures Inv(tickets, Init(tickets, threads)) && Measure(Init(tickets, threads)) == 6 * tickets + 4 * threads
  {
    TotalSame(Init(tickets, threads).pcs, Rank, 4);
    assert Countdown(tickets, tickets) == [];
  }

  /**
   In every interleaving the numbers are sold in descending order, each once and none below one; every run is
   at most 6 * tickets + 4 * threads steps long; and it can only stop when all threads have returned and, if
   there is a thread at all, every ticket is sold.
   */
  lemma SaleSafe(tickets: nat, threads: nat, run: seq<nat>, s: State)
    requires Trace(Init(tickets, threads), run, s)
    ensures 0 <= s.ticket <= tickets
    ensures var left := if Printed(s) then s.ticket - 1 else s.ticket;
      0 <= left <= tickets && s.sold == Countdown(tickets, left)
    ensures |run| <= 6 * tickets + 4 * threads
    ensures (forall i :: !Enabled(s, i)) <==> (forall i :: 0 <= i < |s.pcs| ==> s.pcs[i] == Returned)
    ensures threads > 0 && (forall i :: !Enabled(s, i)) ==> s.ticket == 0 && s.sold == Countdown(tickets, 0)
  {
    InitInv(tickets, threads);
    TraceKeeps(tickets, Init(tickets, threads), run, s);
    if forall i :: !Enabled(s, i) {
      assert s.lock.By? ==> Enabled(s, s.lock.i);
      forall i | 0 <= i < |s.pcs| ensures s.pcs[i] == Returned {
        assert !Enabled(s, i);
      }
      assert threads > 0 ==> s.pcs[0] == Returned;
    }
  }

  /** Run the threads under any scheduler until all have returned. */
  method SellAll(tickets: nat, threads: nat) returns (s: State)
    requires threads > 0
    ensures s.ticket == 0 && s.sold == Countdown(tickets, 0)
    ensures forall i :: 0 <= i < |s.pcs| ==> s.pcs[i] == Returned
  {
    s := Init(tickets, threads);
    InitInv(tickets, threads);
    while exists i :: 0 <= i < |s.pcs| && s.pcs[i] != Returned
      invariant Inv(tickets, s) && |s.pcs| == threads
      decreases Measure(s)
    {
      assert exists i :: 0 <= i < |s.pcs| && Enabled(s, i) by {
        assert s.lock.By? ==> Enabled(s, s.lock.i);
        var i :| 0 <= i < |s.pcs| && s.pcs[i] != Returned;
        assert s.lock == Free ==> Enabled(s, i);
      }
      var i :| 0 <= i < |s.pcs| && Enabled(s, i);
      StepKeeps(tickets, s, i);
      StepDecreases(s, i);
      s := Apply(s, i);
    }
    assert s.pcs[0] == Returned;
    assert s.lock.By? ==> s.pcs[s.lock.i] == Returned;
  }
}

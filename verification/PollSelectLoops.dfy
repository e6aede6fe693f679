/** The loops of select.c and poll.c in place: a turn of each updates the set or the table as module SlotTable says. */
module PollSelectLoops {
  import opened SlotTable

  /** select.c: `readset` and `maxfd`. */
  class SelectServer {
    const lfd: nat
    var readset: set<nat>
    var maxfd: nat

    ghost function View(): Select
      reads this
    {
      Select(readset, maxfd)
    }

    constructor (lfd: nat)
      ensures this.lfd == lfd && View() == Select({lfd}, lfd)
    {
      this.lfd, readset, maxfd := lfd, {lfd}, lfd;
    }

    method OneTurn(t: Turn) returns (visited: seq<nat>)
      modifies this
      ensures visited == SelectVisits(lfd, old(View()), t)
      ensures View() == SelectTurn(lfd, old(View()), t)
    {
      var temp := t.ready * readset;
      if lfd in temp {
        readset := readset + {t.cfd};
        maxfd := if maxfd > t.cfd then maxfd else t.cfd;
      }
      ghost var before := readset;
      visited := [];
      var i := lfd + 1;
      while i <= maxfd
        invariant lfd + 1 <= i && (i == lfd + 1 || i <= maxfd + 1)
        invariant maxfd == SelectMax(lfd, old(View()), t) && temp == t.ready * old(readset)
        invariant visited == Ascending(temp, lfd + 1, i)
        invariant readset == before - (set c | c in visited && c in t.closing)
      {
        if i in temp {
          visited := visited + [i];
          if i in t.closing {
            readset := readset - {i};
          }
        }
        i := i + 1;
      }
      assert visited == Ascending(temp, lfd + 1, maxfd + 1);
    }
  }

  /** poll.c with the running maximum of the slots in use: `fds`, `nfds`, and the `revents` that the kernel writes. */
  class PollServer {
    const fds: array<int>
    const revents: array<bool>
    var nfds: nat

    ghost function View(): Poll
      reads this, fds
    {
      Poll(fds[..], nfds)
    }

    ghost predicate Valid()
      reads this, revents
    {
      && 0 < fds.Length == revents.Length && nfds < fds.Length
      && forall i :: nfds < i < revents.Length ==> !revents[i]
    }

    constructor (lfd: nat, slots: nat)
      requires slots > 0
      ensures Valid() && View() == Poll(Empty(lfd, slots), 0) && fresh(fds) && fresh(revents)
    {
      fds := new int[slots](i => if i == 0 then lfd else -1);
      revents := new bool[slots](_ => false);
      nfds := 0;
      new;
      assert fds[..] == Empty(lfd, slots);
    }

    /** The call of `poll`: what is ready among the slots up to `nfds`. */
    method Call(ready: set<nat>)
      requires Valid()
      modifies revents
      ensures Valid() && forall i: nat :: i < revents.Length ==> (revents[i] <==> Reported(View(), ready, i))
    {
      var i := 0;
      while i <= nfds
        invariant i <= nfds + 1 && forall k :: nfds < k < revents.Length ==> !revents[k]
        invariant forall k: nat :: k < i ==> (revents[k] <==> Reported(View(), ready, k))
      {
        revents[i] := fds[i] >= 0 && fds[i] in ready;
        i := i + 1;
      }
    }

    /** Put a new descriptor into the first free slot, if there is one. */
    method Insert(cfd: nat)
      requires Valid()
      modifies this`nfds, fds
      ensures Valid()
      ensures var k := FreeFrom(old(fds[..]), 1);
        View() == if k < fds.Length then Poll(old(fds[..])[k := cfd], Max(old(nfds), k)) else old(View())
    {
      ghost var k := FreeFrom(fds[..], 1);
      var i := 1;
      while i < fds.Length
        invariant 1 <= i <= k && Valid() && View() == old(View())
      {
        if fds[i] == -1 {
          fds[i] := cfd;
          nfds := if nfds > i then nfds else i;
          return;
        }
        i := i + 1;
      }
    }

    /** Read every reported slot up to `nfds`, and free it when its peer closed; `p` is the table that `poll` saw. */
    method Scan(ghost p: Poll, t: Turn) returns (visited: seq<nat>)
      requires Valid() && |p.fds| == fds.Length && View() == Inserted(p, t)
      requires forall k: nat :: k < revents.Length ==> (revents[k] <==> Reported(p, t.ready, k))
      modifies fds
      ensures Valid() && visited == PollVisits(p, t) && View() == PollTurn(p, t)
    {
      ghost var q := View();
      hide FreeFrom, Inserted;
      visited := [];
      var i := 1;
      while i <= nfds
        invariant 1 <= i <= nfds + 1
        invariant visited == VisitedBelow(p, t.ready, i)
        invariant forall k :: 0 <= k < fds.Length ==> fds[k] == (if k < i then Cleared(p, q, t)[k] else q.fds[k])
      {
        if revents[i] {
          ReportedStays(p, t, i);
          visited := visited + [fds[i]];
          if fds[i] in t.closing {
            fds[i] := -1;
          }
        }
        i := i + 1;
      }
      assert fds[..] == Cleared(p, q, t);
    }

    method OneTurn(t: Turn) returns (visited: seq<nat>)
      requires Valid()
      modifies this`nfds, fds, revents
      ensures Valid() && visited == PollVisits(old(View()), t)
      ensures View() == PollTurn(old(View()), t)
    {
      hide FreeFrom, PollVisits, PollTurn, Max;
      ghost var p := View();
      Call(t.ready);
      if revents[0] {
        Insert(t.cfd);
      }
      visited := Scan(p, t);
    }
  }

  /** A reported slot is not free, so a new connection does not take it. */
  lemma ReportedStays(p: Poll, t: Turn, i: nat)
    requires Reported(p, t.ready, i)
    ensures Inserted(p, t).fds[i] == p.fds[i]
  {
  }

  lemma {:induction false} RunPrefix(lfd: nat, slots: nat, turns: seq<Turn>, n: nat)
    requires Run(lfd, slots, turns) && n <= |turns|
    ensures Run(lfd, slots, turns[..n])
    decreases |turns|
  {
    if n < |turns| {
      assert turns[..|turns| - 1][..n] == turns[..n];
      RunPrefix(lfd, slots, turns[..|turns| - 1], n);
    } else {
      assert turns[..n] == turns;
    }
  }

  lemma Start(lfd: nat, slots: nat)
    requires slots > 0
    ensures SelectAfter(lfd, []) == Select({lfd}, lfd) && PollAfter(lfd, slots, []) == Poll(Empty(lfd, slots), 0)
  {
  }

  /** The states after one more turn, and what both visit in it. */
  lemma NextTurn(lfd: nat, slots: nat, turns: seq<Turn>, n: nat)
    requires slots > 0 && Run(lfd, slots, turns) && n < |turns|
    ensures var s, p, t := SelectAfter(lfd, turns[..n]), PollAfter(lfd, slots, turns[..n]), turns[n];
      && SelectAfter(lfd, turns[..n + 1]) == SelectTurn(lfd, s, t)
      && PollAfter(lfd, slots, turns[..n + 1]) == PollTurn(p, t)
      && PollVisits(p, t) == SelectVisits(lfd, s, t)
      && forall c :: c in SelectVisits(lfd, s, t) <==> c in t.ready && c != lfd
  {
    hide PollTurn, SelectTurn, PollVisits, SelectVisits, NextClients, Deliverable;
    RunPrefix(lfd, slots, turns, n + 1);
    assert turns[..n + 1][..n] == turns[..n] && turns[..n + 1][n] == turns[n];
    TableSimulatesSet(lfd, slots, turns[..n], turns[n]);
  }

  /**
   The two programs run side by side on any turns that the kernel can deliver and for which the table has room:
   they always visit the same clients in the same order.
   */
  method SideBySide(lfd: nat, slots: nat, turns: seq<Turn>) returns (a: seq<seq<nat>>, b: seq<seq<nat>>)
    requires slots > 0 && Run(lfd, slots, turns)
    ensures a == b && |a| == |turns|
    ensures forall n :: 0 <= n < |turns| ==> forall c :: c in a[n] <==> c in turns[n].ready && c != lfd
  {
    hide Run, PollAfter, SelectAfter, PollTurn, SelectTurn, PollVisits, SelectVisits;
    Start(lfd, slots);
    var s := new SelectServer(lfd);
    var p := new PollServer(lfd, slots);
    a, b := [], [];
    assert turns[..|turns|] == turns;
    var n := 0;
    while n < |turns|
      invariant n <= |turns| && |a| == n && a == b && p.Valid() && s.lfd == lfd
      invariant fresh(s) && fresh(p) && fresh(p.fds) && fresh(p.revents)
      invariant s.View() == SelectAfter(lfd, turns[..n]) && p.View() == PollAfter(lfd, slots, turns[..n])
      invariant forall m :: 0 <= m < n ==> forall c :: c in a[m] <==> c in turns[m].ready && c != lfd
    {
      NextTurn(lfd, slots, turns, n);
      var x := s.OneTurn(turns[n]);
      var y := p.OneTurn(turns[n]);
      a, b := a + [x], b + [y];
      n := n + 1;
    }
  }
}

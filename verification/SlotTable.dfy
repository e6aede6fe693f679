/**
 One turn of the loops of poll.c and select.c. poll keeps an array of descriptors, with -1 in a free slot, and the
 index of the highest slot used so far (module PollAsWritten treats line 86 of poll.c); select keeps a set of
 descriptors and its maximum. The kernel gives a new connection the lowest free descriptor (section 2.14 of XSH,
 POSIX.1-2017); descriptors up to the listening one stay open. `ready` are the descriptors with something to read
 at the time of the call, `closing` those whose read returns nothing.
 */
module SlotTable {
  datatype Select = Select(readset: set<nat>, maxfd: nat)
  datatype Poll = Poll(fds: seq<int>, nfds: nat)

  /** What arrives in one turn; `cfd` is what `accept` returns if it is called. */
  datatype Turn = Turn(ready: set<nat>, closing: set<nat>, cfd: nat)

  // ---- the kernel ----

  /** The lowest descriptor from `from` on that is not in use. */
  function LowestFrom(used: set<nat>, from: nat): (fd: nat)
    ensures from <= fd && fd !in used && forall k :: from <= k < fd ==> k in used
    decreases |set k | k in used && k >= from|
  {
    if from !in used then from else
    assert (set k | k in used && k >= from) == (set k | k in used && k >= from + 1) + {from};
    LowestFrom(used, from + 1)
  }

  function Lowest(lfd: nat, clients: set<nat>): (fd: nat)
    ensures lfd < fd && fd !in clients && forall k :: lfd < k < fd ==> k in clients
  {
    LowestFrom(clients, lfd + 1)
  }

  /** The clients after a turn: the accepted one joins, and those that closed leave. */
  function NextClients(lfd: nat, clients: set<nat>, t: Turn): set<nat> {
    (if lfd in t.ready then clients + {t.cfd} else clients) - (clients * t.ready * t.closing)
  }

  // ---- select ----

  function Max(a: nat, b: nat): nat { if a > b then a else b }

  /** The members of `s` from `lo` to `hi - 1`, ascending. */
  function Ascending(s: set<nat>, lo: nat, hi: nat): seq<nat>
    decreases hi
  {
    if hi <= lo then [] else Ascending(s, lo, hi - 1) + if hi - 1 in s then [hi - 1] else []
  }

  function SelectMax(lfd: nat, s: Select, t: Turn): nat {
    if lfd in t.ready * s.readset then Max(s.maxfd, t.cfd) else s.maxfd
  }

  function SelectVisits(lfd: nat, s: Select, t: Turn): seq<nat> {
    Ascending(t.ready * s.readset, lfd + 1, SelectMax(lfd, s, t) + 1)
  }

  function SelectTurn(lfd: nat, s: Select, t: Turn): Select {
    var temp := t.ready * s.readset;
    var readset := if lfd in temp then s.readset + {t.cfd} else s.readset;
    Select(readset - (set c | c in SelectVisits(lfd, s, t) && c in t.closing), SelectMax(lfd, s, t))
  }

  // ---- poll ----

  /** The first free slot from 1 on, or the length of the table. */
  function FreeFrom(fds: seq<int>, i: nat): (k: nat)
    requires i <= |fds|
    ensures i <= k <= |fds| && (forall j :: i <= j < k ==> fds[j] != -1) && (k < |fds| ==> fds[k] == -1)
    decreases |fds| - i
  {
    if i == |fds| || fds[i] == -1 then i else FreeFrom(fds, i + 1)
  }

  /** `poll` looks at the slots up to `nfds` and ignores negative entries. */
  predicate Reported(p: Poll, ready: set<nat>, i: nat) {
    i < |p.fds| && i <= p.nfds && p.fds[i] >= 0 && p.fds[i] in ready
  }

  function Inserted(p: Poll, t: Turn): Poll
    requires p.fds != []
  {
    var k := FreeFrom(p.fds, 1);
    if Reported(p, t.ready, 0) && k < |p.fds| then Poll(p.fds[k := t.cfd], Max(p.nfds, k)) else p
  }

  /** The descriptors read in the slots 1 to `hi - 1`. */
  function VisitedBelow(p: Poll, ready: set<nat>, hi: nat): seq<nat> {
    if hi <= 1 then [] else
    VisitedBelow(p, ready, hi - 1) + if Reported(p, ready, hi - 1) then [p.fds[hi - 1] as nat] else []
  }

  function PollVisits(p: Poll, t: Turn): seq<nat>
    requires p.fds != []
  {
    VisitedBelow(p, t.ready, Inserted(p, t).nfds + 1)
  }

  /** The slots whose peer closed are freed, as far as the scan goes. */
  function Cleared(p: Poll, q: Poll, t: Turn): (r: seq<int>)
    ensures |r| == |q.fds|
  {
    seq(|q.fds|, i requires 0 <= i < |q.fds| =>
      if 1 <= i <= q.nfds && Reported(p, t.ready, i) && p.fds[i] in t.closing then -1 else q.fds[i])
  }

  function PollTurn(p: Poll, t: Turn): (q: Poll)
    requires p.fds != []
    ensures |q.fds| == |p.fds|
  {
    Inserted(p, t).(fds := Cleared(p, Inserted(p, t), t))
  }

  // ---- the two servers side by side ----

  /** Slot `i` holds descriptor `lfd + i` or nothing, and both servers know exactly the clients. */
  ghost predicate Same(lfd: nat, clients: set<nat>, s: Select, p: Poll) {
    && s.readset == clients + {lfd} && s.maxfd == lfd + p.nfds && p.nfds < |p.fds|
    && p.fds[0] == lfd && (forall i :: 1 <= i < |p.fds| ==> p.fds[i] == if lfd + i in clients then lfd + i else -1)
    && forall c :: c in clients ==> lfd < c <= s.maxfd
  }

  /** What the kernel can deliver: data on open descriptors, and the lowest free descriptor for a connection. */
  predicate Deliverable(lfd: nat, clients: set<nat>, t: Turn) {
    t.ready <= clients + {lfd} && t.cfd == Lowest(lfd, clients)
  }

  /** The first free slot is that of the lowest free descriptor. */
  lemma FreeIsLowest(lfd: nat, clients: set<nat>, s: Select, p: Poll)
    requires Same(lfd, clients, s, p)
    ensures FreeFrom(p.fds, 1) == if Lowest(lfd, clients) < lfd + |p.fds| then Lowest(lfd, clients) - lfd else |p.fds|
  {
    var k, fd := FreeFrom(p.fds, 1), Lowest(lfd, clients);
    if k < |p.fds| {
      assert lfd + k !in clients;
      assert fd <= lfd + k;
    }
    if fd < lfd + |p.fds| {
      assert p.fds[fd - lfd] == -1;
    }
  }

  lemma {:induction false} VisitsAgree(lfd: nat, clients: set<nat>, s: Select, p: Poll, ready: set<nat>, hi: nat)
    requires Same(lfd, clients, s, p) && ready <= clients + {lfd}
    ensures VisitedBelow(p, ready, hi) == Ascending(ready * s.readset, lfd + 1, lfd + hi)
    decreases hi
  {
    if hi > 1 {
      var i := hi - 1;
      VisitsAgree(lfd, clients, s, p, ready, i);
      assert lfd + i in ready ==> lfd + i in clients;
      assert Reported(p, ready, i) <==> lfd + i in ready;
    }
  }

  lemma {:induction false} AscendingMembers(s: set<nat>, lo: nat, hi: nat)
    ensures forall c :: c in Ascending(s, lo, hi) <==> c in s && lo <= c < hi
    ensures forall i, j :: 0 <= i < j < |Ascending(s, lo, hi)| ==> Ascending(s, lo, hi)[i] < Ascending(s, lo, hi)[j]
    decreases hi
  {
    if hi > lo {
      AscendingMembers(s, lo, hi - 1);
      var front := Ascending(s, lo, hi - 1);
      forall i | 0 <= i < |front| ensures front[i] < hi - 1 { assert front[i] in front; }
    }
  }

  lemma {:induction false} AscendingUpTo(s: set<nat>, lo: nat, hi: nat, more: nat)
    requires lo <= hi <= more && forall c :: c in s ==> c < hi
    ensures Ascending(s, lo, more) == Ascending(s, lo, hi)
    decreases more
  {
    if more > hi {
      AscendingUpTo(s, lo, hi, more - 1);
    }
  }

  /** What both servers visit in a turn: each ready client once, in ascending order. */
  lemma Visits(lfd: nat, clients: set<nat>, s: Select, p: Poll, t: Turn)
    requires Same(lfd, clients, s, p) && Deliverable(lfd, clients, t)
    ensures PollVisits(p, t) == SelectVisits(lfd, s, t)
    ensures forall c :: c in SelectVisits(lfd, s, t) <==> c in t.ready && c != lfd
    ensures forall i, j :: 0 <= i < j < |SelectVisits(lfd, s, t)| ==>
      SelectVisits(lfd, s, t)[i] < SelectVisits(lfd, s, t)[j]
  {
    hide Ascending, VisitedBelow, Reported, FreeFrom, Lowest;
    var temp := t.ready * s.readset;
    var n := Inserted(p, t).nfds;
    VisitsAgree(lfd, clients, s, p, t.ready, n + 1);
    AscendingUpTo(temp, lfd + 1, s.maxfd + 1, lfd + n + 1);
    AscendingUpTo(temp, lfd + 1, s.maxfd + 1, SelectMax(lfd, s, t) + 1);
    AscendingMembers(temp, lfd + 1, s.maxfd + 1);
  }

  /** The table after a turn, slot by slot. */
  lemma SlotsAfter(lfd: nat, clients: set<nat>, s: Select, p: Poll, t: Turn)
    requires Same(lfd, clients, s, p) && Deliverable(lfd, clients, t) && (lfd in t.ready ==> t.cfd < lfd + |p.fds|)
    ensures var q, next := PollTurn(p, t), NextClients(lfd, clients, t);
      && q.nfds == (if lfd in t.ready then Max(p.nfds, t.cfd - lfd) else p.nfds) && |q.fds| == |p.fds|
      && q.fds[0] == lfd
      && forall i :: 1 <= i < |q.fds| ==> q.fds[i] == if lfd + i in next then lfd + i else -1
  {
    FreeIsLowest(lfd, clients, s, p);
    var q, next, r := PollTurn(p, t), NextClients(lfd, clients, t), Inserted(p, t);
    forall i | 1 <= i < |q.fds| ensures q.fds[i] == if lfd + i in next then lfd + i else -1 {
      assert p.fds[i] == if lfd + i in clients then lfd + i else -1;
      assert lfd + i in clients ==> lfd + i <= s.maxfd;
    }
  }

  /**
   One turn of each, from the same clients: both visit the same ready clients, and they still know the same
   clients afterwards exactly when a new connection, if there was one, found a free slot.
   */
  lemma TurnAgrees(lfd: nat, clients: set<nat>, s: Select, p: Poll, t: Turn)
    requires Same(lfd, clients, s, p) && Deliverable(lfd, clients, t)
    ensures PollVisits(p, t) == SelectVisits(lfd, s, t)
    ensures Same(lfd, NextClients(lfd, clients, t), SelectTurn(lfd, s, t), PollTurn(p, t))
      <==> (lfd in t.ready ==> t.cfd < lfd + |p.fds|)
  {
    Visits(lfd, clients, s, p, t);
    var next, s', q := NextClients(lfd, clients, t), SelectTurn(lfd, s, t), PollTurn(p, t);
    if lfd in t.ready ==> t.cfd < lfd + |p.fds| {
      SlotsAfter(lfd, clients, s, p, t);
      assert lfd in s.readset;
      assert s'.readset == next + {lfd};
      assert forall c :: c in next ==> lfd < c <= s'.maxfd;
    } else {
      FreeIsLowest(lfd, clients, s, p);
      assert lfd in t.ready * s.readset;
      assert s'.maxfd >= t.cfd > lfd + q.nfds;
    }
  }

  // ---- runs ----

  /** A run of turns that the kernel can deliver and for which the table has room. */
  ghost predicate Run(lfd: nat, slots: nat, turns: seq<Turn>)
    decreases |turns|
  {
    turns == [] ||
    var front, last := turns[..|turns| - 1], turns[|turns| - 1];
    && Run(lfd, slots, front) && Deliverable(lfd, ClientsAfter(lfd, front), last)
    && (lfd in last.ready ==> last.cfd < lfd + slots)
  }

  function ClientsAfter(lfd: nat, turns: seq<Turn>): set<nat> {
    if turns == [] then {} else NextClients(lfd, ClientsAfter(lfd, turns[..|turns| - 1]), turns[|turns| - 1])
  }

  function SelectAfter(lfd: nat, turns: seq<Turn>): Select {
    if turns == [] then Select({lfd}, lfd)
    else SelectTurn(lfd, SelectAfter(lfd, turns[..|turns| - 1]), turns[|turns| - 1])
  }

  function Empty(lfd: nat, slots: nat): seq<int> { seq(slots, i => if i == 0 then lfd else -1) }

  function PollAfter(lfd: nat, slots: nat, turns: seq<Turn>): (p: Poll)
    requires slots > 0
    ensures |p.fds| == slots
  {
    if turns == [] then Poll(Empty(lfd, slots), 0)
    else PollTurn(PollAfter(lfd, slots, turns[..|turns| - 1]), turns[|turns| - 1])
  }

  lemma {:induction false} RunAgrees(lfd: nat, slots: nat, turns: seq<Turn>)
    requires slots > 0 && Run(lfd, slots, turns)
    ensures Same(lfd, ClientsAfter(lfd, turns), SelectAfter(lfd, turns), PollAfter(lfd, slots, turns))
    decreases |turns|
  {
    hide SelectTurn, PollTurn, NextClients, Deliverable;
    if turns != [] {
      var front, last := turns[..|turns| - 1], turns[|turns| - 1];
      RunAgrees(lfd, slots, front);
      TurnAgrees(lfd, ClientsAfter(lfd, front), SelectAfter(lfd, front), PollAfter(lfd, slots, front), last);
    }
  }

  /**
   The slot table simulates the bit set: after any run of connections, data and closes for which the table had
   room, slot `i` holds exactly descriptor `lfd + i` or nothing, both servers know exactly the clients,
   `nfds + lfd == maxfd`, and whatever comes next both visit every ready client once, in the same order.
   */
  lemma TableSimulatesSet(lfd: nat, slots: nat, turns: seq<Turn>, next: Turn)
    requires slots > 0 && Run(lfd, slots, turns) && Deliverable(lfd, ClientsAfter(lfd, turns), next)
    ensures var clients, s, p := ClientsAfter(lfd, turns), SelectAfter(lfd, turns), PollAfter(lfd, slots, turns);
      && s.readset == clients + {lfd} && s.maxfd == lfd + p.nfds
      && (forall i :: 1 <= i < slots ==> p.fds[i] == if lfd + i in clients then lfd + i else -1)
      && PollVisits(p, next) == SelectVisits(lfd, s, next)
      && (forall c :: c in SelectVisits(lfd, s, next) <==> c in next.ready && c != lfd)
      && forall i, j :: 0 <= i < j < |SelectVisits(lfd, s, next)| ==>
           SelectVisits(lfd, s, next)[i] < SelectVisits(lfd, s, next)[j]
  {
    hide Run, SelectAfter, PollAfter, ClientsAfter, PollVisits, SelectVisits, Deliverable;
    RunAgrees(lfd, slots, turns);
    Visits(lfd, ClientsAfter(lfd, turns), SelectAfter(lfd, turns), PollAfter(lfd, slots, turns), next);
  }
}

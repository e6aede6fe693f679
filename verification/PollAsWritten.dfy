/**
 poll.c with line 86 as it stands: the bound of the scan becomes the descriptor accepted last, so it can fall as well
 as rise. `poll` writes the flags (`revents`) of the slots up to the bound and leaves those beyond as they are, so a
 flag that was set but not scanned stays set. A client whose data was not read has it ready at the next call.
 Memory beyond the table, which the bound may reach, is taken as unflagged; OutsideIff says when it is touched.
 */
module PollAsWritten {
  import opened SlotTable

  /** The table and its bound, and what the kernel knows: the open connections, and those with unread data. */
  datatype Written = Written(fds: seq<int>, nfds: nat, flags: seq<bool>, clients: set<nat>, unread: set<nat>)

  /** The flags behind the call of `poll`. */
  function Polled(w: Written, ready: set<nat>): (r: seq<bool>)
    requires |w.flags| == |w.fds|
    ensures |r| == |w.fds|
  {
    seq(|w.fds|, i requires 0 <= i < |w.fds| =>
      if i <= w.nfds then w.fds[i] >= 0 && w.fds[i] in ready else w.flags[i])
  }

  predicate Accepts(w: Written, t: Turn)
    requires w.fds != [] && |w.flags| == |w.fds|
  {
    Polled(w, t.ready)[0]
  }

  function Bound(w: Written, t: Turn): nat
    requires w.fds != [] && |w.flags| == |w.fds|
  {
    if Accepts(w, t) then t.cfd else w.nfds
  }

  /** The table behind `accept`. */
  function Filled(w: Written, t: Turn): (r: seq<int>)
    requires w.fds != [] && |w.flags| == |w.fds|
    ensures |r| == |w.fds|
  {
    var k := FreeFrom(w.fds, 1);
    if Accepts(w, t) && k < |w.fds| then w.fds[k := t.cfd] else w.fds
  }

  predicate InScan(w: Written, t: Turn, i: nat)
    requires w.fds != [] && |w.flags| == |w.fds|
  {
    1 <= i < |w.fds| && i <= Bound(w, t) && Polled(w, t.ready)[i]
  }

  /** The descriptors passed to `read` in the slots 1 to `hi - 1`. */
  function ReadBelow(w: Written, t: Turn, hi: nat): seq<int>
    requires w.fds != [] && |w.flags| == |w.fds|
  {
    if hi <= 1 then [] else ReadBelow(w, t, hi - 1) + if InScan(w, t, hi - 1) then [Filled(w, t)[hi - 1]] else []
  }

  function Reads(w: Written, t: Turn): seq<int>
    requires w.fds != [] && |w.flags| == |w.fds|
  {
    ReadBelow(w, t, |w.fds|)
  }

  function AfterTurn(lfd: nat, w: Written, t: Turn): (v: Written)
    requires w.fds != [] && |w.flags| == |w.fds|
    ensures |v.fds| == |v.flags| == |w.fds|
  {
    Written(
      seq(|w.fds|, i requires 0 <= i < |w.fds| =>
        if InScan(w, t, i) && Filled(w, t)[i] in t.closing then -1 else Filled(w, t)[i]),
      Bound(w, t), Polled(w, t.ready),
      (if lfd in t.ready then w.clients + {t.cfd} else w.clients) - (set c | c in t.closing && c in Reads(w, t)),
      set c | c in t.ready && c != lfd && c !in Reads(w, t))
  }

  /** What the kernel can deliver. */
  predicate CanCome(lfd: nat, w: Written, t: Turn) {
    t.ready <= w.clients + {lfd} && w.unread <= t.ready && t.cfd == Lowest(lfd, w.clients)
  }

  /** A new connection, if there is one, finds a free slot. */
  predicate HasRoom(lfd: nat, slots: nat, t: Turn) { lfd in t.ready ==> t.cfd < lfd + slots }

  function Begin(lfd: nat, slots: nat): Written {
    Written(Empty(lfd, slots), 0, seq(slots, _ => false), {}, {})
  }

  function After(lfd: nat, slots: nat, turns: seq<Turn>): (w: Written)
    requires slots > 0
    ensures |w.fds| == |w.flags| == slots
  {
    if turns == [] then Begin(lfd, slots)
    else AfterTurn(lfd, After(lfd, slots, turns[..|turns| - 1]), turns[|turns| - 1])
  }

  /** A run of turns that the kernel can deliver and for which the table has room. */
  ghost predicate Runs(lfd: nat, slots: nat, turns: seq<Turn>)
    requires slots > 0
    decreases |turns|
  {
    turns == [] ||
    var front, last := turns[..|turns| - 1], turns[|turns| - 1];
    Runs(lfd, slots, front) && CanCome(lfd, After(lfd, slots, front), last) && HasRoom(lfd, slots, last)
  }

  // ---- what every run keeps ----

  /** Slot `i` holds client `lfd + i` or nothing; a flag left set beyond the bound has a client with unread data. */
  ghost predicate Shape(lfd: nat, w: Written) {
    && w.fds != [] && |w.flags| == |w.fds| && w.fds[0] == lfd
    && (forall c :: c in w.clients ==> lfd < c < lfd + |w.fds|)
    && (forall i :: 1 <= i < |w.fds| ==> w.fds[i] == if lfd + i in w.clients then lfd + i else -1)
    && w.unread <= w.clients
    && (forall i :: w.nfds < i < |w.fds| && w.flags[i] ==> lfd + i in w.unread)
    && (w.clients != {} ==> w.nfds > lfd)
  }

  lemma {:induction false} ReadMembers(w: Written, t: Turn, hi: nat)
    requires w.fds != [] && |w.flags| == |w.fds|
    ensures forall c :: c in ReadBelow(w, t, hi) <==> exists i: nat :: i < hi && InScan(w, t, i) && Filled(w, t)[i] == c
    decreases hi
  {
    hide InScan, Filled;
    if hi > 1 {
      ReadMembers(w, t, hi - 1);
    } else {
      assert forall i: nat :: i < hi ==> !InScan(w, t, i) by { NotFirst(w, t); }
    }
  }

  lemma NotFirst(w: Written, t: Turn)
    requires w.fds != [] && |w.flags| == |w.fds|
    ensures !InScan(w, t, 0)
  {
  }

  /** The scan reaches client `c`: its slot is within the bound, and `poll` wrote its flag or left it set. */
  predicate InReach(lfd: nat, w: Written, t: Turn, c: nat)
    requires |w.flags| == |w.fds|
  {
    lfd < c < lfd + |w.fds| &&
    var i := c - lfd;
    && i <= (if lfd in t.ready then t.cfd else w.nfds)
    && (i <= w.nfds || w.flags[i])
  }

  /** A slot in the scan holds a ready client: no `read` waits, and none is of a free slot. */
  lemma ScanIff(lfd: nat, w: Written, t: Turn, i: nat)
    requires Shape(lfd, w) && CanCome(lfd, w, t)
    ensures InScan(w, t, i) ==> lfd + i in t.ready && Filled(w, t)[i] == lfd + i
    ensures InScan(w, t, i) <==> i > 0 && lfd + i in t.ready && InReach(lfd, w, t, lfd + i)
    ensures Accepts(w, t) <==> lfd in t.ready
  {
    hide FreeFrom, Lowest;
    assert 1 <= i < |w.fds| ==> w.fds[i] == if lfd + i in w.clients then lfd + i else -1;
    assert lfd + i in t.ready && i > 0 ==> lfd + i in w.clients;
  }

  /** What a turn reads: the ready clients in reach, and nothing else. */
  lemma ReadsIff(lfd: nat, w: Written, t: Turn)
    requires Shape(lfd, w) && CanCome(lfd, w, t)
    ensures forall c :: c in Reads(w, t) ==> c > lfd
    ensures forall c: nat :: c in Reads(w, t) <==> c in t.ready && c != lfd && InReach(lfd, w, t, c)
  {
    hide InScan, InReach, Filled, Lowest;
    ReadMembers(w, t, |w.fds|);
    forall c | c in Reads(w, t) ensures c > lfd && c in t.ready && InReach(lfd, w, t, c) {
      var i: nat :| i < |w.fds| && InScan(w, t, i) && Filled(w, t)[i] == c;
      ScanIff(lfd, w, t, i);
    }
    forall c: nat | c in t.ready && c != lfd && InReach(lfd, w, t, c) ensures c in Reads(w, t) {
      ReachRange(lfd, w, t, c);
      ScanIff(lfd, w, t, c - lfd);
      assert InScan(w, t, c - lfd) && Filled(w, t)[c - lfd] == c;
    }
  }

  lemma ReachRange(lfd: nat, w: Written, t: Turn, c: nat)
    requires |w.flags| == |w.fds| && InReach(lfd, w, t, c)
    ensures lfd < c < lfd + |w.fds|
  {
  }

  /** The table behind a turn, slot by slot. */
  lemma SlotsKept(lfd: nat, w: Written, t: Turn)
    requires Shape(lfd, w) && CanCome(lfd, w, t) && HasRoom(lfd, |w.fds|, t)
    ensures var v := AfterTurn(lfd, w, t);
      v.fds[0] == lfd && forall i :: 1 <= i < |v.fds| ==> v.fds[i] == if lfd + i in v.clients then lfd + i else -1
  {
    hide FreeFrom, Lowest, InScan, Reads, InReach;
    ScanIff(lfd, w, t, 0);
    ReadsIff(lfd, w, t);
    FirstFree(lfd, w, t);
    var v := AfterTurn(lfd, w, t);
    forall i | 1 <= i < |v.fds| ensures v.fds[i] == if lfd + i in v.clients then lfd + i else -1 {
      ScanIff(lfd, w, t, i);
      assert w.fds[i] == if lfd + i in w.clients then lfd + i else -1;
    }
  }

  /** A new connection goes into the slot of its descriptor. */
  lemma FirstFree(lfd: nat, w: Written, t: Turn)
    requires Shape(lfd, w) && CanCome(lfd, w, t) && HasRoom(lfd, |w.fds|, t)
    ensures lfd in t.ready ==> t.cfd > lfd && Filled(w, t) == w.fds[t.cfd - lfd := t.cfd]
    ensures lfd !in t.ready ==> Filled(w, t) == w.fds
  {
    ScanIff(lfd, w, t, 0);
    if lfd in t.ready {
      var k, i := FreeFrom(w.fds, 1), t.cfd - lfd;
      assert w.fds[i] == -1 && k <= i;
      assert lfd + k !in w.clients;
    }
  }

  lemma ShapeKept(lfd: nat, w: Written, t: Turn)
    requires Shape(lfd, w) && CanCome(lfd, w, t) && HasRoom(lfd, |w.fds|, t)
    ensures Shape(lfd, AfterTurn(lfd, w, t))
  {
    hide FreeFrom, Lowest, InScan, Filled, Reads;
    SlotsKept(lfd, w, t);
    ScanIff(lfd, w, t, 0);
    ReadsIff(lfd, w, t);
    var v := AfterTurn(lfd, w, t);
    assert t.cfd > lfd;
    forall i | v.nfds < i < |v.fds| && v.flags[i] ensures lfd + i in v.unread {
      assert w.fds[i] == if lfd + i in w.clients then lfd + i else -1;
    }
  }

  lemma {:induction false} RunShape(lfd: nat, slots: nat, turns: seq<Turn>)
    requires slots > 0 && Runs(lfd, slots, turns)
    ensures Shape(lfd, After(lfd, slots, turns))
    decreases |turns|
  {
    hide Shape, CanCome, AfterTurn, HasRoom;
    if turns == [] {
      BeginShape(lfd, slots);
    } else {
      RunShape(lfd, slots, turns[..|turns| - 1]);
      assert |After(lfd, slots, turns[..|turns| - 1]).fds| == slots;
      ShapeKept(lfd, After(lfd, slots, turns[..|turns| - 1]), turns[|turns| - 1]);
    }
  }

  lemma BeginShape(lfd: nat, slots: nat)
    requires slots > 0
    ensures Shape(lfd, Begin(lfd, slots))
  {
  }

  // ---- which clients are read ----

  ghost predicate ServesAll(lfd: nat, w: Written, t: Turn)
    requires w.fds != [] && |w.flags| == |w.fds|
  {
    forall c :: c in t.ready && c != lfd ==> c in Reads(w, t)
  }

  /**
   A turn reads every ready client exactly when the slot of each is within the bound behind `accept` and was within the
   bound of the call, or has its flag left from an earlier one.
   */
  lemma ServesAllIff(lfd: nat, slots: nat, turns: seq<Turn>, t: Turn)
    requires slots > 0 && Runs(lfd, slots, turns) && CanCome(lfd, After(lfd, slots, turns), t)
    ensures var w := After(lfd, slots, turns);
      ServesAll(lfd, w, t) <==> forall c :: c in t.ready && c != lfd ==>
        && c - lfd <= (if lfd in t.ready then t.cfd else w.nfds)
        && (c - lfd <= w.nfds || (lfd < c < lfd + slots && w.flags[c - lfd]))
    ensures forall c :: c in Reads(After(lfd, slots, turns), t) ==> c > lfd && c as nat in t.ready
  {
    hide Runs, After, Reads;
    RunShape(lfd, slots, turns);
    var w := After(lfd, slots, turns);
    ReadsIff(lfd, w, t);
    assert |w.fds| == slots && forall c :: c in t.ready && c != lfd ==> lfd < c < lfd + slots;
  }

  /**
   Every turn that the kernel can deliver reads every ready client exactly when no client lies beyond the bound, nor
   beyond the bound that the next connection will set. Flags left set do not help: a turn need bring no connection.
   */
  lemma ServesAlwaysIff(lfd: nat, slots: nat, turns: seq<Turn>)
    requires slots > 0 && Runs(lfd, slots, turns)
    ensures var w := After(lfd, slots, turns);
      (forall t :: CanCome(lfd, w, t) ==> ServesAll(lfd, w, t))
      <==> forall c :: c in w.clients ==> c <= lfd + w.nfds && c <= lfd + Lowest(lfd, w.clients)
  {
    hide Runs, After, Reads, Lowest, ServesAll, Shape;
    var w := After(lfd, slots, turns);
    RunShape(lfd, slots, turns);
    var cfd := Lowest(lfd, w.clients);
    forall t | CanCome(lfd, w, t) ensures ServesAll(lfd, w, t) <==>
      forall c :: c in t.ready && c != lfd ==> InReach(lfd, w, t, c)
    {
      Served(lfd, w, t);
    }
    var quiet, busy := Turn(w.clients, {}, cfd), Turn(w.clients + {lfd}, {}, cfd);
    ShapeMeans(lfd, w);
    assert CanCome(lfd, w, quiet) && CanCome(lfd, w, busy);
    assert forall c :: c in quiet.ready <==> c in w.clients;
    assert forall c :: c in busy.ready && c != lfd <==> c in w.clients;
    assert forall t, c :: CanCome(lfd, w, t) && c in t.ready && c != lfd ==> c in w.clients;
  }

  lemma ShapeMeans(lfd: nat, w: Written)
    requires Shape(lfd, w)
    ensures w.unread <= w.clients && lfd !in w.clients && forall c :: c in w.clients ==> lfd < c < lfd + |w.fds|
  {
  }

  lemma Served(lfd: nat, w: Written, t: Turn)
    requires Shape(lfd, w) && CanCome(lfd, w, t)
    ensures ServesAll(lfd, w, t) <==> forall c :: c in t.ready && c != lfd ==> InReach(lfd, w, t, c)
  {
    hide Reads, InReach, Lowest;
    ReadsIff(lfd, w, t);
  }

  // ---- a run that starves a client ----

  function Table(lfd: nat, slots: nat, n: nat): seq<int> {
    seq(slots, i => if i <= n then lfd + i else -1)
  }

  function Row(lfd: nat, n: nat): (r: set<nat>)
    ensures forall k :: k in r <==> lfd < k <= lfd + n
  {
    if n == 0 then {} else Row(lfd, n - 1) + {lfd + n}
  }

  /** The state with clients in the slots 1 to `n`, all of whose data is read. */
  ghost predicate Full(lfd: nat, slots: nat, w: Written, n: nat) {
    && |w.flags| == |w.fds| == slots && w.fds == Table(lfd, slots, n)
    && w.clients == Row(lfd, n) && w.unread == {} && n <= w.nfds
  }

  lemma RunSnoc(lfd: nat, slots: nat, turns: seq<Turn>, t: Turn)
    requires slots > 0 && Runs(lfd, slots, turns)
    requires CanCome(lfd, After(lfd, slots, turns), t) && HasRoom(lfd, slots, t)
    ensures Runs(lfd, slots, turns + [t])
    ensures After(lfd, slots, turns + [t]) == AfterTurn(lfd, After(lfd, slots, turns), t)
  {
    assert (turns + [t])[..|turns|] == turns;
  }

  lemma IsLowest(lfd: nat, clients: set<nat>, cfd: nat)
    requires lfd < cfd && cfd !in clients && forall k :: lfd < k < cfd ==> k in clients
    ensures Lowest(lfd, clients) == cfd
  {
  }

  /** One more connection behind a full row. */
  lemma NextConnection(lfd: nat, slots: nat, w: Written, n: nat)
    requires 0 < n < slots && Full(lfd, slots, w, n - 1) && Shape(lfd, w)
    ensures var t := Turn({lfd}, {}, lfd + n);
      CanCome(lfd, w, t) && Full(lfd, slots, AfterTurn(lfd, w, t), n) && AfterTurn(lfd, w, t).nfds == lfd + n
  {
    hide Lowest, FreeFrom, InReach, InScan, Reads, Filled;
    var t := Turn({lfd}, {}, lfd + n);
    IsLowest(lfd, w.clients, lfd + n);
    assert CanCome(lfd, w, t);
    SlotsKept(lfd, w, t);
    ReadsIff(lfd, w, t);
    ScanIff(lfd, w, t, 0);
    var v := AfterTurn(lfd, w, t);
    assert v.clients == Row(lfd, n) && v.unread == {};
    assert v.fds == Table(lfd, slots, n);
  }

  /** `n` connections in a row fill the slots from 1 to `n`. */
  lemma {:induction false} Connected(lfd: nat, slots: nat, n: nat) returns (turns: seq<Turn>)
    requires n < slots
    ensures Runs(lfd, slots, turns) && Full(lfd, slots, After(lfd, slots, turns), n)
    ensures n > 0 ==> After(lfd, slots, turns).nfds == lfd + n
  {
    if n == 0 {
      turns := [];
      assert Empty(lfd, slots) == Table(lfd, slots, 0);
    } else {
      var front := Connected(lfd, slots, n - 1);
      hide Runs, After, CanCome, AfterTurn, Full, Shape;
      var t := Turn({lfd}, {}, lfd + n);
      RunShape(lfd, slots, front);
      NextConnection(lfd, slots, After(lfd, slots, front), n);
      RunSnoc(lfd, slots, front, t);
      turns := front + [t];
    }
  }

  /** When the first client of a row closes and another takes its slot, the bound falls back to that of the first. */
  lemma FirstReplaced(lfd: nat, slots: nat, w: Written, n: nat)
    requires 0 < n < slots && Full(lfd, slots, w, n) && Shape(lfd, w)
    ensures var close, again := Turn({lfd + 1}, {lfd + 1}, lfd + n + 1), Turn({lfd}, {}, lfd + 1);
      var v := AfterTurn(lfd, w, close);
      var u := AfterTurn(lfd, v, again);
      && CanCome(lfd, w, close) && CanCome(lfd, v, again)
      && u.nfds == lfd + 1 && u.clients == Row(lfd, n)
  {
    hide Lowest, FreeFrom, InReach, InScan, Reads, Filled;
    var close, again := Turn({lfd + 1}, {lfd + 1}, lfd + n + 1), Turn({lfd}, {}, lfd + 1);
    IsLowest(lfd, w.clients, lfd + n + 1);
    ShapeKept(lfd, w, close);
    FirstRead(lfd, w, close, n);
    ReadsIff(lfd, w, close);
    ScanIff(lfd, w, close, 0);
    var v := AfterTurn(lfd, w, close);
    assert v.clients == Row(lfd, n) - {lfd + 1};
    IsLowest(lfd, v.clients, lfd + 1);
    assert v.unread == {};
    ReadsIff(lfd, v, again);
    ScanIff(lfd, v, again, 0);
    assert AfterTurn(lfd, v, again).clients == Row(lfd, n);
  }

  lemma FirstRead(lfd: nat, w: Written, t: Turn, n: nat)
    requires 0 < n < |w.fds| && Shape(lfd, w) && n <= w.nfds && lfd !in t.ready
    ensures InReach(lfd, w, t, lfd + 1)
  {
  }

  /** Without a new connection the bound stays. */
  lemma {:induction false} BoundStays(lfd: nat, slots: nat, turns: seq<Turn>, more: seq<Turn>)
    requires slots > 0 && Runs(lfd, slots, turns + more) && forall t :: t in more ==> lfd !in t.ready
    ensures After(lfd, slots, turns + more).nfds == After(lfd, slots, turns).nfds
    decreases |more|
  {
    hide AfterTurn, CanCome, HasRoom, Shape;
    if more == [] {
      assert turns + more == turns;
    } else {
      var front, last := more[..|more| - 1], more[|more| - 1];
      assert (turns + more)[..|turns + more| - 1] == turns + front && (turns + more)[|turns + more| - 1] == last;
      BoundStays(lfd, slots, turns, front);
      RunShape(lfd, slots, turns + front);
      SameBound(lfd, After(lfd, slots, turns + front), last);
    }
  }

  lemma SameBound(lfd: nat, w: Written, t: Turn)
    requires Shape(lfd, w) && CanCome(lfd, w, t) && lfd !in t.ready
    ensures AfterTurn(lfd, w, t).nfds == w.nfds
  {
    hide InReach, InScan;
    ScanIff(lfd, w, t, 0);
  }

  /** The run goes on with the turns `more`, then `t`, none of which brings a connection. */
  ghost predicate NoConnection(lfd: nat, slots: nat, turns: seq<Turn>, more: seq<Turn>, t: Turn)
    requires slots > 0
  {
    && Runs(lfd, slots, turns + more) && CanCome(lfd, After(lfd, slots, turns + more), t)
    && lfd !in t.ready && forall u :: u in more ==> lfd !in u.ready
  }

  /**
   `lfd + 2` connections, the first of them closed and replaced. The bound falls back to its descriptor, and from then
   on the last client is not read, whatever it sends, until another connection arrives.
   */
  lemma Starved(lfd: nat, slots: nat) returns (turns: seq<Turn>)
    requires slots > lfd + 2
    ensures Runs(lfd, slots, turns) && 2 * lfd + 2 in After(lfd, slots, turns).clients
    ensures forall more, t :: NoConnection(lfd, slots, turns, more, t) ==>
      2 * lfd + 2 !in Reads(After(lfd, slots, turns + more), t)
  {
    hide Runs, After, AfterTurn, CanCome, Shape, Full, Reads;
    var n := lfd + 2;
    var filled := Connected(lfd, slots, n);
    RunShape(lfd, slots, filled);
    FirstReplaced(lfd, slots, After(lfd, slots, filled), n);
    var close, again := Turn({lfd + 1}, {lfd + 1}, lfd + n + 1), Turn({lfd}, {}, lfd + 1);
    RunSnoc(lfd, slots, filled, close);
    RunSnoc(lfd, slots, filled + [close], again);
    turns := filled + [close] + [again];
    forall more, t | NoConnection(lfd, slots, turns, more, t)
      ensures 2 * lfd + 2 !in Reads(After(lfd, slots, turns + more), t)
    {
      BoundStays(lfd, slots, turns, more);
      RunShape(lfd, slots, turns + more);
      ReadsIff(lfd, After(lfd, slots, turns + more), t);
    }
  }

  /** In every run every ready client is read at once exactly when the table is too small for the bound to fall. */
  lemma NeverStarvesIff(lfd: nat, slots: nat)
    requires slots > 0
    ensures slots <= lfd + 2 <==>
      forall turns, t :: Runs(lfd, slots, turns) && CanCome(lfd, After(lfd, slots, turns), t) ==>
        ServesAll(lfd, After(lfd, slots, turns), t)
  {
    hide Runs, After, CanCome, ServesAll, Reads;
    if slots <= lfd + 2 {
      forall turns, t | Runs(lfd, slots, turns) && CanCome(lfd, After(lfd, slots, turns), t)
        ensures ServesAll(lfd, After(lfd, slots, turns), t)
      {
        RunShape(lfd, slots, turns);
        SmallServes(lfd, slots, After(lfd, slots, turns), t);
      }
    } else {
      var turns := Starved(lfd, slots);
      assert turns + [] == turns;
      var w := After(lfd, slots, turns);
      RunShape(lfd, slots, turns);
      assert forall t :: NoConnection(lfd, slots, turns, [], t) <==> CanCome(lfd, w, t) && lfd !in t.ready;
      StarvedTurn(lfd, w, 2 * lfd + 2);
    }
  }

  lemma SmallServes(lfd: nat, slots: nat, w: Written, t: Turn)
    requires Shape(lfd, w) && CanCome(lfd, w, t) && |w.fds| == slots <= lfd + 2
    ensures ServesAll(lfd, w, t)
  {
    hide Lowest, Reads;
    Served(lfd, w, t);
  }

  lemma StarvedTurn(lfd: nat, w: Written, c: nat)
    requires Shape(lfd, w) && c in w.clients
    requires forall t :: CanCome(lfd, w, t) && lfd !in t.ready ==> c !in Reads(w, t)
    ensures exists t :: CanCome(lfd, w, t) && !ServesAll(lfd, w, t)
  {
    hide Lowest, Reads;
    var t := Turn(w.clients, {}, Lowest(lfd, w.clients));
    assert CanCome(lfd, w, t) && lfd !in t.ready && c in t.ready;
    assert !ServesAll(lfd, w, t);
  }

  // ---- memory beyond the table ----

  /** The call of `poll` or the scan goes beyond the last slot. */
  predicate TouchesOutside(w: Written, t: Turn)
    requires w.fds != [] && |w.flags| == |w.fds|
  {
    w.nfds >= |w.fds| || Bound(w, t) >= |w.fds|
  }

  /** The descriptor accepted last, or 0. */
  function LastAccepted(lfd: nat, turns: seq<Turn>): nat {
    if turns == [] then 0 else
    var last := turns[|turns| - 1];
    if lfd in last.ready then last.cfd else LastAccepted(lfd, turns[..|turns| - 1])
  }

  lemma {:induction false} BoundIsLast(lfd: nat, slots: nat, turns: seq<Turn>)
    requires slots > 0 && Runs(lfd, slots, turns)
    ensures After(lfd, slots, turns).nfds == LastAccepted(lfd, turns)
    decreases |turns|
  {
    hide CanCome, HasRoom, Shape, InScan, Reads;
    if turns != [] {
      var front, last := turns[..|turns| - 1], turns[|turns| - 1];
      BoundIsLast(lfd, slots, front);
      RunShape(lfd, slots, front);
      ScanIff(lfd, After(lfd, slots, front), last, 0);
    }
  }

  /** A turn touches memory beyond the table exactly when the descriptor accepted last, in or before it, is no index. */
  lemma OutsideIff(lfd: nat, slots: nat, turns: seq<Turn>, t: Turn)
    requires slots > 0 && Runs(lfd, slots, turns) && CanCome(lfd, After(lfd, slots, turns), t)
    ensures TouchesOutside(After(lfd, slots, turns), t)
      <==> LastAccepted(lfd, turns) >= slots || (lfd in t.ready && t.cfd >= slots)
  {
    hide Runs, After, CanCome, Shape, InScan;
    BoundIsLast(lfd, slots, turns);
    RunShape(lfd, slots, turns);
    ScanIff(lfd, After(lfd, slots, turns), t, 0);
  }

  /** With room for every connection memory beyond the table is never touched exactly when `lfd` is 0 or nobody fits. */
  lemma NeverOutsideIff(lfd: nat, slots: nat)
    requires slots > 0
    ensures lfd == 0 || slots == 1 <==>
      forall turns, t ::
        Runs(lfd, slots, turns) && CanCome(lfd, After(lfd, slots, turns), t) && HasRoom(lfd, slots, t) ==>
        !TouchesOutside(After(lfd, slots, turns), t)
  {
    hide Runs, After, CanCome, TouchesOutside;
    if lfd == 0 || slots == 1 {
      forall turns, t | Runs(lfd, slots, turns) && CanCome(lfd, After(lfd, slots, turns), t) && HasRoom(lfd, slots, t)
        ensures !TouchesOutside(After(lfd, slots, turns), t)
      {
        OutsideIff(lfd, slots, turns, t);
        LastFits(lfd, slots, turns);
        Above(lfd, After(lfd, slots, turns), t);
      }
    } else {
      var turns := Connected(lfd, slots, slots - 1);
      RunShape(lfd, slots, turns);
      QuietTurn(lfd, After(lfd, slots, turns));
      var t := Turn(After(lfd, slots, turns).clients, {}, Lowest(lfd, After(lfd, slots, turns).clients));
      BoundIsLast(lfd, slots, turns);
      OutsideIff(lfd, slots, turns, t);
      assert CanCome(lfd, After(lfd, slots, turns), t) && HasRoom(lfd, slots, t);
      assert TouchesOutside(After(lfd, slots, turns), t);
    }
  }

  lemma QuietTurn(lfd: nat, w: Written)
    requires Shape(lfd, w)
    ensures CanCome(lfd, w, Turn(w.clients, {}, Lowest(lfd, w.clients))) && lfd !in w.clients
  {
  }

  lemma Above(lfd: nat, w: Written, t: Turn)
    requires CanCome(lfd, w, t)
    ensures t.cfd > lfd
  {
  }

  lemma {:induction false} LastFits(lfd: nat, slots: nat, turns: seq<Turn>)
    requires slots > 0 && Runs(lfd, slots, turns)
    ensures LastAccepted(lfd, turns) > 0 ==> lfd < LastAccepted(lfd, turns) < lfd + slots
    decreases |turns|
  {
    hide After;
    if turns != [] {
      LastFits(lfd, slots, turns[..|turns| - 1]);
    }
  }
}

/**
 Lines 123 to 130 of main.cpp: the number of open connections is compared with MAX_FD, and then the descriptor of the
 new one is an index into an array of MAX_FD entries. The kernel gives the lowest free descriptor (section 2.14 of
 XSH, POSIX.1-2017); `others` are those that the process holds besides its connections.
 */
module UserArray {
  import opened SlotTable

  function NewFd(others: set<nat>, open: set<nat>): (fd: nat)
    ensures fd !in others && fd !in open && forall k: nat :: k < fd ==> k in others || k in open
  {
    assert forall k: nat :: k in others + open <==> k in others || k in open;
    LowestFrom(others + open, 0)
  }

  /** The connections after `n` of them came in a row. */
  function Connected(others: set<nat>, n: nat): set<nat> {
    if n == 0 then {} else Connected(others, n - 1) + {NewFd(others, Connected(others, n - 1))}
  }

  function Below(n: nat): (r: set<nat>)
    ensures forall k: nat :: k in r <==> k < n
    ensures |r| == n
  {
    if n == 0 then {} else Below(n - 1) + {n - 1}
  }

  lemma SubsetSize(a: set<nat>, b: set<nat>)
    requires a <= b
    ensures |a| <= |b| && (|a| == |b| ==> a == b)
  {
    assert b == a + (b - a);
  }

  /** Where the test passes, the index is in range exactly when some descriptor below the limit is free. */
  lemma IndexIff(others: set<nat>, open: set<nat>, maxFd: nat)
    ensures NewFd(others, open) < maxFd <==> exists k :: 0 <= k < maxFd && k !in others + open
  {
    var fd := NewFd(others, open);
    assert fd < maxFd ==> fd !in others + open;
  }

  /** The test keeps the index in range exactly when the process holds no other descriptor below the limit. */
  lemma NeverOutsideIff(others: set<nat>, maxFd: nat)
    ensures (forall open: set<nat> :: open !! others && |open| < maxFd ==> NewFd(others, open) < maxFd)
      <==> forall k :: k in others ==> k >= maxFd
  {
    if forall k :: k in others ==> k >= maxFd {
      forall open: set<nat> | open !! others && |open| < maxFd ensures NewFd(others, open) < maxFd {
        if NewFd(others, open) >= maxFd {
          SubsetSize(Below(maxFd), open);
        }
      }
    } else {
      var k :| k in others && k < maxFd;
      var open := Below(maxFd) - others;
      SubsetSize(open, Below(maxFd));
      assert k in Below(maxFd) && k !in open;
      assert open !! others && |open| < maxFd && NewFd(others, open) >= maxFd;
    }
  }

  lemma {:induction false} ConnectedSize(others: set<nat>, n: nat)
    ensures |Connected(others, n)| == n && Connected(others, n) !! others && NewFd(others, Connected(others, n)) >= n
    ensures forall k :: k in Connected(others, n) ==> k < NewFd(others, Connected(others, n))
  {
    hide NewFd;
    if n > 0 {
      ConnectedSize(others, n - 1);
      var before, open := Connected(others, n - 1), Connected(others, n);
      var fd := NewFd(others, before);
      Climbs(others, before);
      assert |open| == |before| + 1;
    }
  }

  /** The next connection gets a higher descriptor. */
  lemma Climbs(others: set<nat>, open: set<nat>)
    ensures var fd := NewFd(others, open); NewFd(others, open + {fd}) > fd
  {
    hide NewFd;
    var fd := NewFd(others, open);
    var next := NewFd(others, open + {fd});
    assert fd in open + {fd};
    assert next < fd ==> next in others || next in open;
  }

  /** Otherwise connections coming in a row reach the end of the array before the test stops them. */
  lemma ReachesEnd(others: set<nat>, maxFd: nat) returns (n: nat)
    requires exists k :: k in others && k < maxFd
    ensures n < maxFd && |Connected(others, n)| == n && NewFd(others, Connected(others, n)) >= maxFd
  {
    hide NewFd, Connected;
    n := maxFd - 1;
    ConnectedSize(others, n);
    var k :| k in others && k < maxFd;
    if NewFd(others, Connected(others, n)) == n {
      SubsetSize(Connected(others, n), Below(n));
    }
  }
}

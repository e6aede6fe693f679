/** Counting the threads whose program counter lies in a zone, and adding up ranks of program counters. */
module Counting {
  function Tally<T>(s: seq<T>, zone: T -> bool): nat {
    if s == [] then 0 else (if zone(s[0]) then 1 else 0) + Tally(s[1..], zone)
  }

  lemma {:induction false} TallyUpdate<T>(s: seq<T>, i: nat, x: T, zone: T -> bool)
    requires i < |s|
    ensures Tally(s[i := x], zone) == Tally(s, zone) - (if zone(s[i]) then 1 else 0) + (if zone(x) then 1 else 0)
  {
    if i == 0 {
      assert s[0 := x][1..] == s[1..];
    } else {
      assert s[i := x][1..] == s[1..][i - 1 := x];
      TallyUpdate(s[1..], i - 1, x, zone);
    }
  }

  lemma {:induction false} TallyPositive<T>(s: seq<T>, zone: T -> bool)
    ensures Tally(s, zone) <= |s|
    ensures Tally(s, zone) > 0 <==> exists i :: 0 <= i < |s| && zone(s[i])
  {
    if s != [] {
      TallyPositive(s[1..], zone);
      assert forall i :: 0 < i < |s| ==> s[i] == s[1..][i - 1];
      if exists i :: 0 <= i < |s[1..]| && zone(s[1..][i]) {
        var i :| 0 <= i < |s[1..]| && zone(s[1..][i]);
        assert zone(s[i + 1]);
      }
    }
  }

  function Total<T>(s: seq<T>, rank: T -> nat): nat {
    if s == [] then 0 else rank(s[0]) + Total(s[1..], rank)
  }

  lemma {:induction false} TotalUpdate<T>(s: seq<T>, i: nat, x: T, rank: T -> nat)
    requires i < |s|
    ensures Total(s[i := x], rank) == Total(s, rank) - rank(s[i]) + rank(x)
  {
    if i == 0 {
      assert s[0 := x][1..] == s[1..];
    } else {
      assert s[i := x][1..] == s[1..][i - 1 := x];
      TotalUpdate(s[1..], i - 1, x, rank);
    }
  }

  lemma {:induction false} TotalBound<T>(s: seq<T>, rank: T -> nat, most: nat)
    requires forall i :: 0 <= i < |s| ==> rank(s[i]) <= most
    ensures Total(s, rank) <= most * |s|
  {
    if s != [] {
      TotalBound(s[1..], rank, most);
      assert most * |s| == most + most * |s[1..]|;
    }
  }

  lemma {:induction false} TotalSame<T>(s: seq<T>, rank: T -> nat, each: nat)
    requires forall i :: 0 <= i < |s| ==> rank(s[i]) == each
    ensures Total(s, rank) == each * |s|
  {
    if s != [] {
      TotalSame(s[1..], rank, each);
      assert each * |s| == each + each * |s[1..]|;
    }
  }
}

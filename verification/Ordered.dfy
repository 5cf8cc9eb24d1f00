/** Finite sets of numbers in ascending order: how sorted keys and ordered maps are walked. */
module Ordered {

  ghost predicate Ascending(list: seq<nat>)
  {
    forall i, j :: 0 <= i < j < |list| ==> list[i] < list[j]
  }

  lemma {:induction false} MinimumExists(s: set<nat>, candidate: nat)
    requires candidate in s
    ensures exists m :: m in s && forall x :: x in s ==> m <= x
    decreases candidate
  {
    if exists x :: x in s && x < candidate {
      var x :| x in s && x < candidate;
      MinimumExists(s, x);
    }
  }

  function Minimum(s: set<nat>): (m: nat)
    requires s != {}
    ensures m in s && forall x :: x in s ==> m <= x
  {
    assert exists m :: m in s && forall x :: x in s ==> m <= x by {
      var candidate :| candidate in s;
      MinimumExists(s, candidate);
    }
    var m :| m in s && forall x :: x in s ==> m <= x;
    m
  }

  lemma MinimumIs(s: set<nat>, m: nat)
    requires m in s && forall x :: x in s ==> m <= x
    ensures s != {} && Minimum(s) == m
  {
  }

  function Sorted(s: set<nat>): seq<nat>
    decreases |s|
  {
    if s == {} then []
    else
      var m := Minimum(s);
      [m] + Sorted(s - {m})
  }

  lemma {:induction false} SortedMeans(s: set<nat>)
    ensures Ascending(Sorted(s)) && |Sorted(s)| == |s|
    ensures forall x :: x in Sorted(s) <==> x in s
    ensures forall i :: 0 <= i < |Sorted(s)| ==> Sorted(s)[i] in s
    decreases |s|
  {
    if s != {} {
      SortedMeans(s - {Minimum(s)});
    }
  }

  /** An ascending list is determined by its elements. */
  lemma {:induction false} AscendingUnique(a: seq<nat>, b: seq<nat>)
    requires Ascending(a) && Ascending(b)
    requires forall x :: x in a <==> x in b
    ensures a == b
  {
    if a == [] {
      assert forall k :: 0 <= k < |b| ==> b[k] in a;
    } else {
      assert a[0] in b;
      assert b[0] in a;
      assert a[0] == b[0];
      forall x
        ensures x in a[1..] <==> x in b[1..]
      {
        assert x in a[1..] ==> x in a && x != a[0];
        assert x in b[1..] ==> x in b && x != b[0];
      }
      AscendingUnique(a[1..], b[1..]);
    }
  }

  lemma SortedIs(s: set<nat>, list: seq<nat>)
    requires Ascending(list) && forall x :: x in list <==> x in s
    ensures Sorted(s) == list
  {
    SortedMeans(s);
    AscendingUnique(Sorted(s), list);
  }
}

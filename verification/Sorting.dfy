// sorted(): a set of numbers as the one ascending sequence of its elements.

module Sorting {

  predicate Ascending(s: seq<nat>) {
    forall i, j | 0 <= i < j < |s| :: s[i] < s[j]
  }

  lemma HasLeast(s: set<nat>) returns (m: nat)
    requires s != {}
    ensures m in s && forall x | x in s :: m <= x
  {
    m :| m in s;
    var rest := s - {m};
    assert forall x | x in s :: x == m || x in rest;
    if rest != {} {
      var r := HasLeast(rest);
      m := if r < m then r else m;
    }
  }

  function Least(s: set<nat>): (m: nat)
    requires s != {}
    ensures m in s && forall x | x in s :: m <= x
  {
    assert exists m :: m in s && forall x | x in s :: m <= x by { var m := HasLeast(s); }
    var m :| m in s && forall x | x in s :: m <= x;
    m
  }

  function Sorted(s: set<nat>): (q: seq<nat>)
    ensures Ascending(q) && |q| == |s| && (forall x :: x in q <==> x in s)
  {
    if s == {} then []
    else
      var m := Least(s);
      [m] + Sorted(s - {m})
  }
}

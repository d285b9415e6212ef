// Runs of a step machine: next says where one action leads, or that it cannot happen.

module Runs {
  import opened Common

  /** A whole run; None as soon as one of its actions is not possible. */
  function Exec<S, A>(next: (S, A) -> Option<S>, s: S, acts: seq<A>): Option<S>
    decreases |acts|
  {
    if acts == [] then Some(s)
    else match next(s, acts[0])
      case None => None
      case Some(s1) => Exec(next, s1, acts[1..])
  }

  ghost predicate Reaches<S, A(!new)>(next: (S, A) -> Option<S>, s: S, s1: S) {
    exists acts :: Exec(next, s, acts) == Some(s1)
  }

  lemma {:induction false} ExecAppend<S, A>(next: (S, A) -> Option<S>, s: S, p: seq<A>, q: seq<A>)
    requires Exec(next, s, p).Some?
    ensures Exec(next, s, p + q) == Exec(next, Exec(next, s, p).value, q)
    decreases |p|
  {
    if p == [] {
      assert p + q == q;
    } else {
      assert (p + q)[0] == p[0] && (p + q)[1..] == p[1..] + q;
      ExecAppend(next, next(s, p[0]).value, p[1..], q);
    }
  }

  lemma ExecFirst<S, A>(next: (S, A) -> Option<S>, s: S, acts: seq<A>)
    requires acts != [] && next(s, acts[0]).Some?
    ensures Exec(next, s, acts) == Exec(next, next(s, acts[0]).value, acts[1..])
  {
  }

  lemma ExecOne<S, A>(next: (S, A) -> Option<S>, s: S, a: A)
    ensures Exec(next, s, [a]) == next(s, a)
  {
    assert [a][1..] == [];
  }

  lemma ReachesItself<S, A(!new)>(next: (S, A) -> Option<S>, s: S)
    ensures Reaches(next, s, s)
  {
    assert Exec(next, s, []) == Some(s);
  }

  lemma ReachesStep<S, A(!new)>(next: (S, A) -> Option<S>, s: S, a: A)
    requires next(s, a).Some?
    ensures Reaches(next, s, next(s, a).value)
  {
    ExecOne(next, s, a);
  }

  lemma ReachesTrans<S, A(!new)>(next: (S, A) -> Option<S>, s: S, s1: S, s2: S)
    requires Reaches(next, s, s1) && Reaches(next, s1, s2)
    ensures Reaches(next, s, s2)
  {
    var p :| Exec(next, s, p) == Some(s1);
    var q :| Exec(next, s1, q) == Some(s2);
    ExecAppend(next, s, p, q);
  }
}

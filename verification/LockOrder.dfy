/**
 Row locks taken one at a time. Each transaction has the list of rows it will lock, in its
 own order, and how many it holds; a row goes to one transaction at a time and a holder
 keeps its rows until it ends. A transaction that has them all can always commit.
 */
module LockOrder {
  import opened Sorting

  /** Transaction i has taken the first taken[i] rows of lists[i]. */
  datatype Waits = Waits(lists: seq<seq<nat>>, taken: seq<nat>)

  ghost predicate Shape(w: Waits) {
    && |w.lists| == |w.taken|
    && forall i | 0 <= i < |w.lists| :: w.taken[i] <= |w.lists[i]|
  }

  predicate Holds(w: Waits, i: nat, row: nat)
    requires i < |w.lists| && i < |w.taken| && w.taken[i] <= |w.lists[i]|
  {
    row in w.lists[i][..w.taken[i]]
  }

  ghost predicate HeldByOther(w: Waits, i: nat, row: nat)
    requires Shape(w)
  {
    exists j :: 0 <= j < |w.lists| && j != i && Holds(w, j, row)
  }

  /** i can take its next row, or has them all and can commit. */
  ghost predicate CanStep(w: Waits, i: nat)
    requires Shape(w) && i < |w.lists|
  {
    w.taken[i] == |w.lists[i]| || !HeldByOther(w, i, w.lists[i][w.taken[i]])
  }

  ghost predicate Deadlocked(w: Waits)
    requires Shape(w)
  {
    forall i | 0 <= i < |w.lists| :: !CanStep(w, i)
  }

  function Sum(s: seq<nat>): nat {
    if s == [] then 0 else s[0] + Sum(s[1..])
  }

  lemma {:induction false} SumDrops(s: seq<nat>, i: nat)
    requires i < |s| && s[i] > 0
    ensures Sum(s[i := s[i] - 1]) == Sum(s) - 1
  {
    var d := s[i := s[i] - 1];
    if i > 0 {
      SumDrops(s[1..], i - 1);
      assert d[1..] == s[1..][i - 1 := s[i] - 1];
    } else {
      assert d[1..] == s[1..];
    }
  }

  /** The state before transaction i took the last row it holds. */
  function Before(w: Waits, i: nat): (b: Waits)
    requires i < |w.taken| && w.taken[i] > 0
    ensures Sum(b.taken) < Sum(w.taken)
  {
    SumDrops(w.taken, i);
    w.(taken := w.taken[i := w.taken[i] - 1])
  }

  /** w arises from nothing held, one granted row at a time. */
  ghost predicate Reachable(w: Waits)
    requires Shape(w)
    decreases Sum(w.taken)
  {
    || (forall i | 0 <= i < |w.taken| :: w.taken[i] == 0)
    || exists i | 0 <= i < |w.taken| && w.taken[i] > 0 ::
         !HeldByOther(Before(w, i), i, w.lists[i][w.taken[i] - 1]) && Reachable(Before(w, i))
  }

  ghost predicate Exclusive(w: Waits)
    requires Shape(w)
  {
    forall i, j, row | 0 <= i < |w.lists| && 0 <= j < |w.lists| && i != j ::
      !(Holds(w, i, row) && Holds(w, j, row))
  }

  /** Rows may have been granted in any order: what counts is that nobody shares one. */
  lemma {:induction false} ReachableIffExclusive(w: Waits)
    requires Shape(w)
    ensures Reachable(w) <==> Exclusive(w)
    decreases Sum(w.taken)
  {
    forall i | 0 <= i < |w.taken| && w.taken[i] > 0
      ensures !HeldByOther(Before(w, i), i, w.lists[i][w.taken[i] - 1]) && Reachable(Before(w, i))
              <==> Exclusive(w)
    {
      var before := Before(w, i);
      var row := w.lists[i][w.taken[i] - 1];
      ReachableIffExclusive(before);
      LastGrant(w, i);
    }
  }

  lemma LastGrant(w: Waits, i: nat)
    requires Shape(w) && i < |w.taken| && w.taken[i] > 0
    ensures !HeldByOther(Before(w, i), i, w.lists[i][w.taken[i] - 1]) && Exclusive(Before(w, i))
            <==> Exclusive(w)
  {
    var before := Before(w, i);
    var row := w.lists[i][w.taken[i] - 1];
    forall j, r | 0 <= j < |w.lists|
      ensures Holds(w, j, r) <==> Holds(before, j, r) || (j == i && r == row)
    {
      if j == i {
        assert w.lists[i][..w.taken[i]] == w.lists[i][..w.taken[i] - 1] + [row];
      }
    }
    assert Holds(w, i, row);
  }

  lemma MaxAt(s: seq<nat>) returns (i: nat)
    requires s != []
    ensures i < |s| && forall j | 0 <= j < |s| :: s[j] <= s[i]
  {
    i := 0;
    for k := 1 to |s|
      invariant i < |s| && forall j | 0 <= j < k :: s[j] <= s[i]
    {
      if s[k] > s[i] {
        i := k;
      }
    }
  }

  /** Ascending lists never form a wait cycle: some transaction can take its next step. */
  lemma AscendingNeverDeadlocks(w: Waits)
    requires Shape(w) && |w.lists| > 0
    requires forall i | 0 <= i < |w.lists| :: Ascending(w.lists[i])
    ensures exists i :: 0 <= i < |w.lists| && CanStep(w, i)
  {
    if done :| 0 <= done < |w.lists| && w.taken[done] == |w.lists[done]| {
      assert CanStep(w, done);
    } else {
      assert forall i | 0 <= i < |w.lists| :: w.taken[i] < |w.lists[i]|;
      var wanted := seq(|w.lists|, i requires 0 <= i < |w.lists| && w.taken[i] < |w.lists[i]|
                                   => w.lists[i][w.taken[i]]);
      var i := MaxAt(wanted);
      forall j | 0 <= j < |w.lists| ensures !Holds(w, j, wanted[i]) {
        assert wanted[j] == w.lists[j][w.taken[j]];
      }
      assert wanted[i] == w.lists[i][w.taken[i]];
      assert CanStep(w, i);
    }
  }

  /** The rows one removal locks: the guard's, by ascending pk, then its target's own. */
  function RemovalRows(admins: set<nat>, target: nat): seq<nat> {
    Sorted(admins) + (if target in admins then [] else [target])
  }

  /** No company of transactions that lock in ascending order can be deadlocked by joining them. */
  ghost predicate NeverDeadlocks(rows: seq<nat>) {
    forall w: Waits | Shape(w) && Reachable(w) && rows in w.lists
                      && (forall l | l in w.lists :: l == rows || Ascending(l)) :: !Deadlocked(w)
  }

  lemma RemovalRowsAscendingIff(admins: set<nat>, target: nat)
    ensures Ascending(RemovalRows(admins, target))
            <==> target in admins || forall a | a in admins :: a < target
  {
    var q := Sorted(admins);
    if target !in admins {
      var r := RemovalRows(admins, target);
      if Ascending(r) {
        forall a | a in admins ensures a < target {
          assert a in q;
          var i :| 0 <= i < |q| && q[i] == a;
          assert r[i] == a && r[|q|] == target;
        }
      } else {
        var i, j :| 0 <= i < j < |r| && !(r[i] < r[j]);
        assert j == |q| && r[i] == q[i] && q[i] in q;
      }
    }
  }

  /**
   A removal is safe in every company exactly when the row it will write is one its guard
   locks, or comes after them all. Otherwise a second guard can hold that row and wait.
   */
  lemma RemovalNeverDeadlocksIff(admins: set<nat>, target: nat)
    ensures NeverDeadlocks(RemovalRows(admins, target))
            <==> target in admins || forall a | a in admins :: a < target
  {
    var rows := RemovalRows(admins, target);
    RemovalRowsAscendingIff(admins, target);
    if Ascending(rows) {
      forall w: Waits | Shape(w) && Reachable(w) && rows in w.lists
                        && (forall l | l in w.lists :: l == rows || Ascending(l))
        ensures !Deadlocked(w)
      {
        AscendingNeverDeadlocks(w);
      }
    } else {
      var w := CrossedGuards(admins, target);
      assert Deadlocked(w);
    }
  }

  /** Two transactions, each holding exactly what the other wants next. */
  lemma CrossedPair(p: seq<nat>, q: seq<nat>, i: nat, j: nat) returns (w: Waits)
    requires i < |p| && j < |q| && p[i] in q[..j] && q[j] in p[..i]
    requires forall x | x in p[..i] :: x !in q[..j]
    ensures Shape(w) && w.lists == [p, q] && Reachable(w) && Deadlocked(w)
  {
    w := Waits([p, q], [i, j]);
    assert Holds(w, 1, p[i]) && Holds(w, 0, q[j]);
    ReachableIffExclusive(w);
  }

  lemma RowsThenTarget(admins: set<nat>, target: nat)
    requires target !in admins
    ensures var (q, rows) := (Sorted(admins), RemovalRows(admins, target));
      |rows| == |q| + 1 && rows[..|q|] == q && rows[|q|] == target
  {
  }

  /** The removal holds its guard's rows; a guard that also sees the target row holds that one. */
  lemma CrossedGuards(admins: set<nat>, target: nat) returns (w: Waits)
    requires !(target in admins || forall a | a in admins :: a < target)
    ensures Shape(w) && Reachable(w) && RemovalRows(admins, target) in w.lists
    ensures forall l | l in w.lists :: l == RemovalRows(admins, target) || Ascending(l)
    ensures Deadlocked(w)
  {
    var a :| a in admins && target < a;
    var q := Sorted(admins);
    var rows := RemovalRows(admins, target);
    RowsThenTarget(admins, target);
    TargetThenAdmin(target, a);
    assert forall x | x in q :: x !in [target];
    w := CrossedPair(rows, [target, a], |q|, 1);
    assert w.lists[0] == rows && w.lists[1] == [target, a];
  }

  lemma TargetThenAdmin(target: nat, a: nat)
    requires target < a
    ensures Ascending([target, a]) && [target, a][..1] == [target]
  {
  }
}

/**
 Entitlement names in order: what `order_by("name")` over a set of ids returns, by whatever
 collation the database has, and what Python's `sorted` makes of the same pairs, by code point.
 */
module Names {
  import opened Collections
  import opened Sorting

  type Ent = nat
  type Named = seq<(Ent, string)>

  /** An order on names: x may come before y. */
  type Order = (string, string) -> bool

  ghost predicate TotalOrder(leq: Order) {
    && (forall x, y :: leq(x, y) || leq(y, x))
    && (forall x, y :: leq(x, y) && leq(y, x) ==> x == y)
    && (forall x, y, z :: leq(x, y) && leq(y, z) ==> leq(x, z))
  }

  /** Code-point order on strings, as Python compares them. */
  predicate Leq(a: string, b: string)
    decreases |a|
  {
    a == "" || (b != "" && (a[0] < b[0] || (a[0] == b[0] && Leq(a[1..], b[1..]))))
  }

  /** The first place where two strings differ decides. */
  lemma {:induction false} LeqIsCodePoint(front: string, x: char, y: char, a: string, b: string)
    ensures Leq(front + ([x] + a), front + ([y] + b)) <==> x < y || (x == y && Leq(a, b))
    decreases |front|
  {
    TailAfter(front, [x] + a);
    TailAfter(front, [y] + b);
    if front == "" {
      assert ([x] + a)[1..] == a && ([y] + b)[1..] == b;
    } else {
      LeqIsCodePoint(front[1..], x, y, a, b);
    }
  }

  lemma TailAfter(front: string, rest: string)
    ensures front == "" ==> front + rest == rest
    ensures front != "" ==> (front + rest)[0] == front[0] && (front + rest)[1..] == front[1..] + rest
  {
  }

  lemma {:induction false} FrontComesFirst(front: string, rest: string)
    requires rest != ""
    ensures Leq(front, front + rest) && !Leq(front + rest, front)
    decreases |front|
  {
    TailAfter(front, rest);
    if front != "" {
      FrontComesFirst(front[1..], rest);
    }
  }

  lemma {:induction false} LeqTotal(a: string, b: string)
    ensures Leq(a, b) || Leq(b, a)
    decreases |a|
  {
    if a != "" && b != "" && a[0] == b[0] {
      LeqTotal(a[1..], b[1..]);
    }
  }

  lemma {:induction false} LeqAntisym(a: string, b: string)
    requires Leq(a, b) && Leq(b, a)
    ensures a == b
    decreases |a|
  {
    if a != "" && b != "" {
      LeqAntisym(a[1..], b[1..]);
      assert a == [a[0]] + a[1..] && b == [b[0]] + b[1..];
    }
  }

  lemma {:induction false} LeqTrans(a: string, b: string, c: string)
    requires Leq(a, b) && Leq(b, c)
    ensures Leq(a, c)
    decreases |a|
  {
    if a != "" && a[0] == b[0] && b[0] == c[0] {
      LeqTrans(a[1..], b[1..], c[1..]);
    }
  }

  lemma LeqIsTotalOrder()
    ensures TotalOrder(Leq)
  {
    forall x, y ensures Leq(x, y) || Leq(y, x) {
      LeqTotal(x, y);
    }
    forall x, y | Leq(x, y) && Leq(y, x) ensures x == y {
      LeqAntisym(x, y);
    }
    forall x, y, z | Leq(x, y) && Leq(y, z) ensures Leq(x, z) {
      LeqTrans(x, y, z);
    }
  }

  /** No two entitlements share a name, as the table's unique constraint has it. */
  ghost predicate DistinctNames(names: map<Ent, string>) {
    forall i, j | i in names && j in names && i != j :: names[i] != names[j]
  }

  ghost predicate Ordered(leq: Order, q: Named) {
    forall i, j | 0 <= i < j < |q| :: leq(q[i].1, q[j].1)
  }

  /** q lists exactly the given ids, once each and with their names. */
  ghost predicate ListsOnce(names: map<Ent, string>, ids: set<Ent>, q: Named) {
    && (forall i, j | 0 <= i < j < |q| :: q[i].0 != q[j].0)
    && (forall i | 0 <= i < |q| :: q[i].0 in ids && q[i].0 in names && q[i].1 == names[q[i].0])
    && (forall id | id in ids :: exists i :: 0 <= i < |q| && q[i].0 == id)
  }

  ghost predicate NameOrder(leq: Order, names: map<Ent, string>, ids: set<Ent>, q: Named) {
    Ordered(leq, q) && ListsOnce(names, ids, q)
  }

  lemma NameOrderHead(leq: Order, names: map<Ent, string>, ids: set<Ent>, p: Named, q: Named)
    requires TotalOrder(leq) && NameOrder(leq, names, ids, p) && NameOrder(leq, names, ids, q) && p != []
    ensures q != [] && leq(q[0].1, p[0].1)
  {
    assert p[0].0 in ids;
    var i :| 0 <= i < |q| && q[i].0 == p[0].0;
    assert q[i].1 == p[0].1;
    assert leq(q[0].1, q[0].1);
  }

  /** Distinct names leave one listing in a given order. */
  lemma {:induction false} NameOrderUnique(leq: Order, names: map<Ent, string>, ids: set<Ent>, p: Named, q: Named)
    requires TotalOrder(leq) && DistinctNames(names)
    requires NameOrder(leq, names, ids, p) && NameOrder(leq, names, ids, q)
    ensures p == q
    decreases |p|
  {
    if p == [] {
      if q != [] {
        NameOrderHead(leq, names, ids, q, p);
      }
    } else {
      NameOrderHead(leq, names, ids, p, q);
      NameOrderHead(leq, names, ids, q, p);
      assert p[0].0 in ids && q[0].0 in ids;
      assert p[0] == q[0];
      TailOrder(leq, names, ids, p);
      TailOrder(leq, names, ids, q);
      NameOrderUnique(leq, names, ids - {p[0].0}, p[1..], q[1..]);
      assert p == [p[0]] + p[1..] && q == [q[0]] + q[1..];
    }
  }

  lemma TailOrder(leq: Order, names: map<Ent, string>, ids: set<Ent>, p: Named)
    requires NameOrder(leq, names, ids, p) && p != []
    ensures NameOrder(leq, names, ids - {p[0].0}, p[1..])
  {
    forall id | id in ids - {p[0].0} ensures exists i :: 0 <= i < |p[1..]| && p[1..][i].0 == id {
      var i :| 0 <= i < |p| && p[i].0 == id;
      assert p[1..][i - 1].0 == id;
    }
  }

  /** Two listings of the same ids hold the same pairs, whatever their orders. */
  lemma SamePairs(names: map<Ent, string>, ids: set<Ent>, p: Named, q: Named)
    requires ListsOnce(names, ids, p) && ListsOnce(names, ids, q)
    ensures forall pair :: pair in p <==> pair in q
  {
    forall pair | pair in p ensures pair in q {
      var i :| 0 <= i < |p| && p[i] == pair;
      var j :| 0 <= j < |q| && q[j].0 == p[i].0;
      assert q[j] == pair;
    }
    forall pair | pair in q ensures pair in p {
      var i :| 0 <= i < |q| && q[i] == pair;
      var j :| 0 <= j < |p| && p[j].0 == q[i].0;
      assert p[j] == pair;
    }
  }

  // ----- two orders on the same names

  /** The orders put every two of these entitlements' names the same way round. */
  ghost predicate OrdersAgree(one: Order, other: Order, names: map<Ent, string>, ids: set<Ent>)
    requires ids <= names.Keys
  {
    forall i, j | i in ids && j in ids :: one(names[i], names[j]) == other(names[i], names[j])
  }

  lemma OrderedAlsoBy(one: Order, other: Order, names: map<Ent, string>, ids: set<Ent>, q: Named)
    requires ids <= names.Keys && OrdersAgree(one, other, names, ids) && NameOrder(one, names, ids, q)
    ensures NameOrder(other, names, ids, q)
  {
    forall i, j | 0 <= i < j < |q| ensures other(q[i].1, q[j].1) {
      assert one(names[q[i].0], names[q[j].0]) == other(names[q[i].0], names[q[j].0]);
    }
  }

  /** Listings of the same ids in two orders are one sequence exactly when the orders agree on those names. */
  lemma SameListingIff(one: Order, other: Order, names: map<Ent, string>, ids: set<Ent>, p: Named, q: Named)
    requires TotalOrder(one) && TotalOrder(other) && DistinctNames(names) && ids <= names.Keys
    requires NameOrder(one, names, ids, p) && NameOrder(other, names, ids, q)
    ensures p == q <==> OrdersAgree(one, other, names, ids)
  {
    if OrdersAgree(one, other, names, ids) {
      OrderedAlsoBy(one, other, names, ids, p);
      NameOrderUnique(other, names, ids, p, q);
    }
    if p == q {
      forall i, j | i in ids && j in ids ensures one(names[i], names[j]) == other(names[i], names[j]) {
        var m :| 0 <= m < |p| && p[m].0 == i;
        var n :| 0 <= n < |p| && p[n].0 == j;
        PlacedAlike(one, p, m, n);
        PlacedAlike(other, p, m, n);
        assert p[m].1 == names[i] && p[n].1 == names[j];
        assert m != n ==> names[i] != names[j];
      }
    }
  }

  lemma PlacedAlike(leq: Order, q: Named, m: nat, n: nat)
    requires TotalOrder(leq) && Ordered(leq, q) && m < |q| && n < |q|
    ensures m <= n ==> leq(q[m].1, q[n].1)
    ensures m > n && q[m].1 != q[n].1 ==> !leq(q[m].1, q[n].1)
  {
    assert leq(q[m].1, q[m].1);
    assert m > n ==> leq(q[n].1, q[m].1);
  }

  // ----- sorting

  function Insert(leq: Order, x: (Ent, string), q: Named): Named {
    if q == [] then [x]
    else if leq(q[0].1, x.1) then [q[0]] + Insert(leq, x, q[1..])
    else [x] + q
  }

  /** sorted(q, key=lambda pair: pair[1]): equal names keep their order. */
  function SortPairs(leq: Order, q: Named): Named {
    if q == [] then [] else Insert(leq, q[|q| - 1], SortPairs(leq, q[..|q| - 1]))
  }

  lemma {:induction false} InsertContents(leq: Order, x: (Ent, string), q: Named)
    ensures multiset(Insert(leq, x, q)) == multiset(q) + multiset{x}
  {
    if q != [] {
      InsertContents(leq, x, q[1..]);
      assert q == [q[0]] + q[1..];
    }
  }

  lemma {:induction false} InsertOrdered(leq: Order, x: (Ent, string), q: Named)
    requires TotalOrder(leq) && Ordered(leq, q)
    ensures Ordered(leq, Insert(leq, x, q))
  {
    if q != [] {
      if leq(q[0].1, x.1) {
        InsertOrdered(leq, x, q[1..]);
        InsertContents(leq, x, q[1..]);
        var r := Insert(leq, x, q[1..]);
        forall k | 0 <= k < |r| ensures leq(q[0].1, r[k].1) {
          assert r[k] in multiset(r);
          assert r[k] == x || r[k] in q[1..];
        }
      } else {
        assert leq(x.1, q[0].1);
        assert forall k | 0 < k < |q| :: leq(q[0].1, q[k].1);
      }
    }
  }

  lemma {:induction false} SortPairsOrdered(leq: Order, q: Named)
    requires TotalOrder(leq)
    ensures Ordered(leq, SortPairs(leq, q))
  {
    if q != [] {
      SortPairsOrdered(leq, q[..|q| - 1]);
      InsertOrdered(leq, q[|q| - 1], SortPairs(leq, q[..|q| - 1]));
    }
  }

  lemma {:induction false} SortPairsContents(leq: Order, q: Named)
    ensures multiset(SortPairs(leq, q)) == multiset(q)
  {
    if q != [] {
      SortPairsContents(leq, q[..|q| - 1]);
      InsertContents(leq, q[|q| - 1], SortPairs(leq, q[..|q| - 1]));
      assert q == q[..|q| - 1] + [q[|q| - 1]];
    }
  }

  function Pairs(names: map<Ent, string>, ids: set<Ent>): set<(Ent, string)>
    requires ids <= names.Keys
  {
    set id | id in ids :: (id, names[id])
  }

  /** A listing of the ids, in some order, with names. */
  ghost predicate Lists(names: map<Ent, string>, ids: set<Ent>, q: Named) {
    && ids <= names.Keys
    && multiset(q) == multiset(Pairs(names, ids))
  }

  /** Sorting a listing by any order lists the ids once each, that many of them. */
  lemma SortedListsOnce(leq: Order, names: map<Ent, string>, ids: set<Ent>, q: Named)
    requires Lists(names, ids, q)
    ensures ListsOnce(names, ids, SortPairs(leq, q)) && |SortPairs(leq, q)| == |ids|
  {
    SortPairsContents(leq, q);
    var r := SortPairs(leq, q);
    var pairs := Pairs(names, ids);
    forall i | 0 <= i < |r| ensures r[i] in pairs {
      assert r[i] in multiset(r);
    }
    forall i, j | 0 <= i < j < |r| ensures r[i].0 != r[j].0 {
      RepeatCounts(r, i, j);
    }
    forall id | id in ids ensures exists i :: 0 <= i < |r| && r[i].0 == id {
      assert (id, names[id]) in multiset(r);
      var i :| 0 <= i < |r| && r[i] == (id, names[id]);
    }
    PairCount(names, ids);
    assert |r| == |multiset(r)| == |pairs|;
  }

  lemma SortedListingIsNameOrder(leq: Order, names: map<Ent, string>, ids: set<Ent>, q: Named)
    requires TotalOrder(leq) && Lists(names, ids, q)
    ensures NameOrder(leq, names, ids, SortPairs(leq, q))
  {
    SortPairsOrdered(leq, q);
    SortedListsOnce(leq, names, ids, q);
  }

  lemma {:induction false} PairCount(names: map<Ent, string>, ids: set<Ent>)
    requires ids <= names.Keys
    ensures |Pairs(names, ids)| == |ids|
    decreases |ids|
  {
    var pairs := Pairs(names, ids);
    if ids != {} {
      var x :| x in ids;
      var rest := Pairs(names, ids - {x});
      PairCount(names, ids - {x});
      assert pairs == rest + {(x, names[x])};
      assert (x, names[x]) !in rest;
    } else {
      assert pairs == {};
    }
  }

  function Listing(names: map<Ent, string>, ids: set<Ent>): (q: Named)
    requires ids <= names.Keys
    ensures Lists(names, ids, q)
    decreases |ids|
  {
    if ids == {} then []
    else
      var x := Least(ids);
      var q := Listing(names, ids - {x});
      assert Pairs(names, ids) == Pairs(names, ids - {x}) + {(x, names[x])};
      q + [(x, names[x])]
  }

  /** `entitlement_names`: ids with no row are dropped; the rest come in the database's order. */
  function EntitlementNames(collate: Order, names: map<Ent, string>, ids: set<Ent>): (q: Named)
    ensures ListsOnce(names, ids * names.Keys, q) && |q| == |ids * names.Keys|
    ensures TotalOrder(collate) ==> Ordered(collate, q)
  {
    var listed := Listing(names, ids * names.Keys);
    SortedListsOnce(collate, names, ids * names.Keys, listed);
    assert TotalOrder(collate) ==> Ordered(collate, SortPairs(collate, listed)) by {
      if TotalOrder(collate) {
        SortPairsOrdered(collate, listed);
      }
    }
    SortPairs(collate, listed)
  }

  /**
   What Python's sort makes of the names of some ids, against the database's own listing: the
   same pairs, and the same sequence exactly when the database orders those names by code point.
   */
  lemma SortedAgainstDatabase(
    collate: Order, all: map<Ent, string>, some: map<Ent, string>, ids: set<Ent>, pairs: Named)
    requires TotalOrder(collate) && DistinctNames(all) && ids <= all.Keys
    requires (forall e | e in some :: e in all && some[e] == all[e]) && Lists(some, ids, pairs)
    ensures var named, listed := SortPairs(Leq, pairs), EntitlementNames(collate, all, ids);
      && NameOrder(Leq, all, ids, named)
      && (forall pair :: pair in named <==> pair in listed)
      && (named == listed <==> OrdersAgree(Leq, collate, all, ids))
  {
    var named, listed := SortPairs(Leq, pairs), EntitlementNames(collate, all, ids);
    LeqIsTotalOrder();
    SortedListingIsNameOrder(Leq, some, ids, pairs);
    assert ids * all.Keys == ids;
    assert NameOrder(Leq, all, ids, named);
    SamePairs(all, ids, named, listed);
    SameListingIff(Leq, collate, all, ids, named, listed);
  }

  // ----- an order that ignores case, as the usual collations do

  function Lower(c: char): char {
    if 'A' <= c <= 'Z' then ((c as int) - ('A' as int) + ('a' as int)) as char else c
  }

  function LowerAll(s: string): string {
    seq(|s|, i requires 0 <= i < |s| => Lower(s[i]))
  }

  /** By lower-case letters first; case only decides between names that are otherwise the same. */
  predicate IgnoreCase(a: string, b: string) {
    if LowerAll(a) == LowerAll(b) then Leq(a, b) else Leq(LowerAll(a), LowerAll(b))
  }

  lemma IgnoreCaseIsTotalOrder()
    ensures TotalOrder(IgnoreCase)
  {
    forall x, y ensures IgnoreCase(x, y) || IgnoreCase(y, x) {
      LeqTotal(x, y);
      LeqTotal(LowerAll(x), LowerAll(y));
    }
    forall x, y | IgnoreCase(x, y) && IgnoreCase(y, x) ensures x == y {
      if LowerAll(x) == LowerAll(y) {
        LeqAntisym(x, y);
      } else {
        LeqAntisym(LowerAll(x), LowerAll(y));
      }
    }
    forall x, y, z | IgnoreCase(x, y) && IgnoreCase(y, z) ensures IgnoreCase(x, z) {
      IgnoreCaseTrans(x, y, z);
    }
  }

  lemma IgnoreCaseTrans(x: string, y: string, z: string)
    requires IgnoreCase(x, y) && IgnoreCase(y, z)
    ensures IgnoreCase(x, z)
  {
    var a, b, c := LowerAll(x), LowerAll(y), LowerAll(z);
    if a == b && b == c {
      LeqTrans(x, y, z);
    } else if a != b && b != c {
      LeqTrans(a, b, c);
      if a == c {
        LeqAntisym(a, b);
      }
    }
  }

  /** The two names the orders put differently. */
  lemma AppleBanana()
    ensures IgnoreCase("apple", "Banana") && !Leq("apple", "Banana")
  {
    assert LowerAll("apple")[0] == 'a' && LowerAll("Banana")[0] == 'b';
  }

  lemma TwoInOrder(leq: Order, names: map<Ent, string>, x: Ent, y: Ent, q: Named)
    requires TotalOrder(leq) && x != y && x in names && y in names && DistinctNames(names)
    requires leq(names[x], names[y]) && NameOrder(leq, names, {x, y}, q)
    ensures q == [(x, names[x]), (y, names[y])]
  {
    var two := [(x, names[x]), (y, names[y])];
    assert two[0].0 == x && two[1].0 == y;
    NameOrderUnique(leq, names, {x, y}, two, q);
  }

  lemma AppleBananaListings(names: map<Ent, string>, apple: Ent, banana: Ent, named: Named)
    requires DistinctNames(names) && apple != banana && apple in names && banana in names
    requires names[apple] == "apple" && names[banana] == "Banana" && NameOrder(Leq, names, {apple, banana}, named)
    ensures EntitlementNames(IgnoreCase, names, {apple, banana}) == [(apple, "apple"), (banana, "Banana")]
    ensures named == [(banana, "Banana"), (apple, "apple")]
  {
    AppleBanana();
    LeqTotal("apple", "Banana");
    IgnoreCaseIsTotalOrder();
    LeqIsTotalOrder();
    assert {apple, banana} * names.Keys == {apple, banana};
    TwoInOrder(Leq, names, banana, apple, named);
    assert {banana, apple} == {apple, banana};
    TwoInOrder(IgnoreCase, names, apple, banana, EntitlementNames(IgnoreCase, names, {apple, banana}));
  }
}

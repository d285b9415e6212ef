/**
 One shape for every join table that says "this row carries entitlement ids": a set of
 (key, entitlement) pairs, the pair being unique. Read from the resource's side, from the
 entitlement's side, grouped, and counted.
 */
module Tables {
  import opened Names

  type Rows<K(==)> = set<(K, Ent)>

  /** The entitlement ids one key carries. */
  function IdsOf<K(==)>(rows: Rows<K>, k: K): set<Ent> {
    set r | r in rows && r.0 == k :: r.1
  }

  /** The keys that carry one entitlement. */
  function KeysOf<K(==)>(rows: Rows<K>, e: Ent): set<K> {
    set r | r in rows && r.1 == e :: r.0
  }

  function Naming<K(==)>(rows: Rows<K>, e: Ent): Rows<K> {
    set r | r in rows && r.1 == e
  }

  /** What an entitlement's deletion leaves. */
  function Without<K(==)>(rows: Rows<K>, e: Ent): Rows<K> {
    rows - Naming(rows, e)
  }

  function WithoutKey<K(==)>(rows: Rows<K>, k: K): Rows<K> {
    set r | r in rows && r.0 != k
  }

  /** k's ids become exactly `wanted`; every other key is untouched. */
  function SetIds<K(==)>(rows: Rows<K>, k: K, wanted: set<Ent>): Rows<K> {
    WithoutKey(rows, k) + (set e | e in wanted :: (k, e))
  }

  lemma SetIdsMeaning<K>(rows: Rows<K>, k: K, wanted: set<Ent>, k1: K)
    ensures IdsOf(SetIds(rows, k, wanted), k1) == if k1 == k then wanted else IdsOf(rows, k1)
  {
    var after := SetIds(rows, k, wanted);
    forall e ensures e in IdsOf(after, k1) <==> (k1, e) in after {
    }
    forall e ensures e in IdsOf(rows, k1) <==> (k1, e) in rows {
    }
  }

  lemma WithoutMeaning<K>(rows: Rows<K>, e: Ent, k: K)
    ensures IdsOf(Without(rows, e), k) == IdsOf(rows, k) - {e}
    ensures KeysOf(Without(rows, e), e) == {}
  {
    forall x ensures x in IdsOf(Without(rows, e), k) <==> x in IdsOf(rows, k) && x != e {
      if x in IdsOf(rows, k) && x != e {
        assert (k, x) in Without(rows, e);
      }
    }
  }

  // ----- the grouped readers

  /** What a reader has grouped so far: absent keys carry nothing. */
  ghost predicate Groups<K(!new), V(!new)>(rows: set<(K, V)>, m: map<K, set<V>>) {
    && (forall k | k in m :: m[k] != {})
    && (forall k, v :: (k, v) in rows <==> k in m && v in m[k])
  }

  /** The grouping of a table is one map: there is only one to find. */
  lemma GroupsUnique<K(!new), V(!new)>(rows: set<(K, V)>, m: map<K, set<V>>, n: map<K, set<V>>)
    requires Groups(rows, m) && Groups(rows, n)
    ensures m == n
  {
    forall k ensures k in m <==> k in n {
      if k in m {
        var v :| v in m[k];
        assert (k, v) in rows;
      }
      if k in n {
        var v :| v in n[k];
        assert (k, v) in rows;
      }
    }
    forall k | k in m ensures m[k] == n[k] {
      forall v ensures v in m[k] <==> v in n[k] {
        assert (k, v) in rows <==> v in m[k];
      }
    }
  }

  /** `_entitlement_ids_by_key`: the fold, over the rows in whatever order the query gives them. */
  method EntitlementIdsByKey<K(==, !new)>(rows: Rows<K>) returns (grouped: map<K, set<Ent>>)
    ensures Groups(rows, grouped)
    ensures forall k | k in grouped :: grouped[k] == IdsOf(rows, k)
    ensures forall k | k !in grouped :: IdsOf(rows, k) == {}
  {
    grouped := map[];
    var todo := rows;
    while todo != {}
      invariant todo <= rows
      invariant Groups(rows - todo, grouped)
      decreases |todo|
    {
      var row :| row in todo;
      todo := todo - {row};
      ghost var before := grouped;
      grouped := grouped[row.0 := (if row.0 in grouped then grouped[row.0] else {}) + {row.1}];
      forall k, e ensures (k, e) in rows - todo <==> k in grouped && e in grouped[k] {
        assert (k, e) in rows - todo <==> (k, e) in rows - (todo + {row}) || (k, e) == row;
      }
    }
    assert rows - todo == rows;
    forall k | k in grouped ensures grouped[k] == IdsOf(rows, k) {
      forall e ensures e in grouped[k] <==> e in IdsOf(rows, k) {
        assert (k, e) in rows <==> e in grouped[k];
      }
    }
  }

  ghost predicate Counts<K>(rows: Rows<K>, counts: map<Ent, nat>) {
    && (forall e :: e in counts <==> KeysOf(rows, e) != {})
    && (forall e | e in counts :: counts[e] == |KeysOf(rows, e)|)
  }

  function CountOf(counts: map<Ent, nat>, e: Ent): nat {
    if e in counts then counts[e] else 0
  }

  lemma CountOneMore<K>(seen: Rows<K>, row: (K, Ent), counts: map<Ent, nat>)
    requires Counts(seen, counts) && row !in seen
    ensures Counts(seen + {row}, counts[row.1 := CountOf(counts, row.1) + 1])
  {
    var more := counts[row.1 := CountOf(counts, row.1) + 1];
    assert row.0 !in KeysOf(seen, row.1);
    forall e
      ensures e in more <==> KeysOf(seen + {row}, e) != {}
      ensures e in more ==> more[e] == |KeysOf(seen + {row}, e)|
    {
      KeysOfAdd(seen, row, e);
      if e == row.1 {
        assert KeysOf(seen + {row}, e) == KeysOf(seen, e) + {row.0};
      } else {
        assert KeysOf(seen + {row}, e) == KeysOf(seen, e);
      }
    }
  }

  /** `_counts`: entitlement -> number of rows, entitlements with none being absent. */
  method CountsByEntitlement<K(==, !new)>(rows: Rows<K>) returns (counts: map<Ent, nat>)
    ensures Counts(rows, counts)
  {
    counts := map[];
    var todo := rows;
    while todo != {}
      invariant todo <= rows
      invariant Counts(rows - todo, counts)
      decreases |todo|
    {
      var row :| row in todo;
      CountOneMore(rows - todo, row, counts);
      assert rows - (todo - {row}) == rows - todo + {row};
      todo := todo - {row};
      counts := counts[row.1 := CountOf(counts, row.1) + 1];
    }
    assert rows - todo == rows;
  }

  lemma KeysOfAdd<K>(rows: Rows<K>, row: (K, Ent), e: Ent)
    ensures KeysOf(rows + {row}, e) == KeysOf(rows, e) + (if e == row.1 then {row.0} else {})
  {
    forall k ensures k in KeysOf(rows + {row}, e)
                     <==> k in KeysOf(rows, e) || (e == row.1 && k == row.0) {
      if e == row.1 && k == row.0 {
        assert row in rows + {row};
      }
      if k in KeysOf(rows, e) {
        assert (k, e) in rows + {row};
      }
    }
  }

  // ----- the two directions describe one relation

  lemma SidesAgree<K>(rows: Rows<K>, k: K, e: Ent)
    ensures e in IdsOf(rows, k) <==> k in KeysOf(rows, e)
    ensures e in IdsOf(rows, k) <==> (k, e) in rows
  {
    if k in KeysOf(rows, e) {
      assert (k, e) in rows;
    }
  }

  ghost function SumIds<K(!new)>(rows: Rows<K>, ks: seq<K>): nat {
    if ks == [] then 0 else |IdsOf(rows, ks[0])| + SumIds(rows, ks[1..])
  }

  ghost function SumKeys<K>(rows: Rows<K>, es: seq<Ent>): nat {
    if es == [] then 0 else |KeysOf(rows, es[0])| + SumKeys(rows, es[1..])
  }

  ghost predicate Distinct<T>(q: seq<T>) {
    forall i, j | 0 <= i < j < |q| :: q[i] != q[j]
  }

  lemma {:induction false} RowsOfKey<K>(rows: Rows<K>, k: K)
    ensures |rows| == |WithoutKey(rows, k)| + |IdsOf(rows, k)|
    decreases |rows|
  {
    if row :| row in rows && row.0 == k {
      var rest := rows - {row};
      RowsOfKey(rest, k);
      assert WithoutKey(rows, k) == WithoutKey(rest, k);
      assert IdsOf(rows, k) == IdsOf(rest, k) + {row.1} by {
        forall e ensures e in IdsOf(rows, k) <==> e in IdsOf(rest, k) || e == row.1 {
          SidesAgree(rows, k, e);
          SidesAgree(rest, k, e);
        }
      }
      assert row.1 !in IdsOf(rest, k) by { SidesAgree(rest, k, row.1); }
    } else {
      assert WithoutKey(rows, k) == rows && IdsOf(rows, k) == {};
    }
  }

  lemma {:induction false} RowsNaming<K>(rows: Rows<K>, e: Ent)
    ensures |rows| == |Without(rows, e)| + |KeysOf(rows, e)|
    ensures |Naming(rows, e)| == |KeysOf(rows, e)|
    decreases |rows|
  {
    if row :| row in rows && row.1 == e {
      var rest := rows - {row};
      RowsNaming(rest, e);
      assert Without(rows, e) == Without(rest, e);
      assert rest + {row} == rows;
      KeysOfAdd(rest, row, e);
      assert row.0 !in KeysOf(rest, e) by { SidesAgree(rest, row.0, e); }
      assert Naming(rows, e) == Naming(rest, e) + {row};
    } else {
      assert Naming(rows, e) == {} && KeysOf(rows, e) == {};
      assert Without(rows, e) == rows;
    }
  }

  /** Summing either grouping over everything that occurs counts each row exactly once. */
  lemma {:induction false} TotalByKey<K(!new)>(rows: Rows<K>, ks: seq<K>)
    requires Distinct(ks) && forall r | r in rows :: r.0 in ks
    ensures SumIds(rows, ks) == |rows|
    decreases |ks|
  {
    if ks == [] {
      assert rows == {};
    } else {
      var k := ks[0];
      var rest := WithoutKey(rows, k);
      RowsOfKey(rows, k);
      TotalByKey(rest, ks[1..]);
      SumIdsSame(rows, rest, ks[1..]);
    }
  }

  lemma {:induction false} SumIdsSame<K(!new)>(rows: Rows<K>, rest: Rows<K>, ks: seq<K>)
    requires forall k | k in ks :: IdsOf(rows, k) == IdsOf(rest, k)
    ensures SumIds(rows, ks) == SumIds(rest, ks)
    decreases |ks|
  {
    if ks != [] {
      assert ks[0] in ks;
      SumIdsSame(rows, rest, ks[1..]);
    }
  }

  lemma {:induction false} TotalByEntitlement<K>(rows: Rows<K>, es: seq<Ent>)
    requires Distinct(es) && forall r | r in rows :: r.1 in es
    ensures SumKeys(rows, es) == |rows|
    decreases |es|
  {
    if es == [] {
      assert rows == {};
    } else {
      var e := es[0];
      var rest := Without(rows, e);
      RowsNaming(rows, e);
      TotalByEntitlement(rest, es[1..]);
      SumKeysSame(rows, rest, es[1..]);
    }
  }

  lemma {:induction false} SumKeysSame<K>(rows: Rows<K>, rest: Rows<K>, es: seq<Ent>)
    requires forall e | e in es :: KeysOf(rows, e) == KeysOf(rest, e)
    ensures SumKeys(rows, es) == SumKeys(rest, es)
    decreases |es|
  {
    if es != [] {
      assert es[0] in es;
      SumKeysSame(rows, rest, es[1..]);
    }
  }

  /** The list page's reach column and the resource pages' label columns add up to the same total. */
  lemma TotalsAgree<K(!new)>(rows: Rows<K>, ks: seq<K>, es: seq<Ent>)
    requires Distinct(ks) && Distinct(es) && forall r | r in rows :: r.0 in ks && r.1 in es
    ensures SumIds(rows, ks) == SumKeys(rows, es) == |rows|
  {
    TotalByKey(rows, ks);
    TotalByEntitlement(rows, es);
  }
}

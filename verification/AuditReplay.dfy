/**
 The audit trail of labels and walls, and what it says on its own: the tables one gets by
 replaying it from nothing.
 */
module AuditReplay {
  import opened Collections
  import opened Names
  import opened Tables

  /** What a label can sit on: a tool key, an agent row, a flow row. */
  datatype Resource = Tool(key: string) | AgentRow(pk: nat) | FlowRow(pk: nat)

  datatype Event =
    | Labelled(r: Resource, e: Ent)
    | Unlabelled(r: Resource, e: Ent)
    | ScopeAdded(s: nat, e: Ent)
    | ScopeRemoved(s: nat, e: Ent)
    | WorkstreamDeleted(s: nat)
    | EntitlementDeleted(e: Ent)
    | ConversationUntainted(c: nat, e: Ent)
    | WorkstreamUntainted(s: nat, e: Ent)

  datatype Told = Told(labels: Rows<Resource>, walls: Rows<nat>)

  function Apply(t: Told, ev: Event): Told {
    match ev
    case Labelled(r, e) => t.(labels := t.labels + {(r, e)})
    case Unlabelled(r, e) => t.(labels := t.labels - {(r, e)})
    case ScopeAdded(s, e) => t.(walls := t.walls + {(s, e)})
    case ScopeRemoved(s, e) => t.(walls := t.walls - {(s, e)})
    case WorkstreamDeleted(s) => t.(walls := WithoutKey(t.walls, s))
    case EntitlementDeleted(e) => Told(Without(t.labels, e), Without(t.walls, e))
    case ConversationUntainted(_, _) => t
    case WorkstreamUntainted(_, _) => t
  }

  function Replay(log: seq<Event>): Told {
    if log == [] then Told({}, {}) else Apply(Replay(log[..|log| - 1]), log[|log| - 1])
  }

  lemma ReplayOne(log: seq<Event>, ev: Event)
    ensures Replay(log + [ev]) == Apply(Replay(log), ev)
  {
    assert (log + [ev])[..|log|] == log;
  }

  predicate Untaints(ev: Event, e: Ent) {
    (ev.ConversationUntainted? || ev.WorkstreamUntainted?) && ev.e == e
  }

  lemma {:induction false} ReplayIgnoresUntaints(log: seq<Event>, more: seq<Event>, e: Ent)
    requires forall ev | ev in more :: Untaints(ev, e)
    ensures Replay(log + more) == Replay(log)
    decreases |more|
  {
    if more == [] {
      assert log + more == log;
    } else {
      var init := more[..|more| - 1];
      assert more[|more| - 1] in more;
      ReplayIgnoresUntaints(log, init, e);
      ReplayOne(log + init, more[|more| - 1]);
      LastOff(log, more);
    }
  }

  // ----- one transaction's own entries

  function LabelEvents(r: Resource, ids: seq<Ent>): seq<Event> {
    if ids == [] then [] else LabelEvents(r, ids[..|ids| - 1]) + [Labelled(r, ids[|ids| - 1])]
  }

  function UnlabelEvents(r: Resource, ids: seq<Ent>): seq<Event> {
    if ids == [] then [] else UnlabelEvents(r, ids[..|ids| - 1]) + [Unlabelled(r, ids[|ids| - 1])]
  }

  function ScopeAddEvents(s: nat, ids: seq<Ent>): seq<Event> {
    if ids == [] then [] else ScopeAddEvents(s, ids[..|ids| - 1]) + [ScopeAdded(s, ids[|ids| - 1])]
  }

  function ScopeRemoveEvents(s: nat, ids: seq<Ent>): seq<Event> {
    if ids == [] then [] else ScopeRemoveEvents(s, ids[..|ids| - 1]) + [ScopeRemoved(s, ids[|ids| - 1])]
  }

  function RowsFor<K(==)>(k: K, ids: seq<Ent>): Rows<K> {
    set e | e in ids :: (k, e)
  }

  lemma RowsForLast<K>(k: K, ids: seq<Ent>)
    requires ids != []
    ensures RowsFor(k, ids) == RowsFor(k, ids[..|ids| - 1]) + {(k, ids[|ids| - 1])}
  {
    var init := ids[..|ids| - 1];
    assert ids == init + [ids[|ids| - 1]];
    forall r ensures r in RowsFor(k, ids) <==> r in RowsFor(k, init) || r == (k, ids[|ids| - 1]) {
      if r == (k, ids[|ids| - 1]) {
        assert r.1 in ids;
      }
    }
  }

  lemma {:induction false} ReplayLabels(log: seq<Event>, r: Resource, ids: seq<Ent>)
    ensures Replay(log + LabelEvents(r, ids)) == Replay(log).(labels := Replay(log).labels + RowsFor(r, ids))
    decreases |ids|
  {
    if ids == [] {
      assert log + [] == log;
    } else {
      var init, last := ids[..|ids| - 1], ids[|ids| - 1];
      ReplayLabels(log, r, init);
      RowsForLast(r, ids);
      assert log + LabelEvents(r, ids) == log + LabelEvents(r, init) + [Labelled(r, last)];
      ReplayOne(log + LabelEvents(r, init), Labelled(r, last));
    }
  }

  lemma {:induction false} ReplayUnlabels(log: seq<Event>, r: Resource, ids: seq<Ent>)
    ensures Replay(log + UnlabelEvents(r, ids)) == Replay(log).(labels := Replay(log).labels - RowsFor(r, ids))
    decreases |ids|
  {
    if ids == [] {
      assert log + [] == log;
    } else {
      var init, last := ids[..|ids| - 1], ids[|ids| - 1];
      ReplayUnlabels(log, r, init);
      RowsForLast(r, ids);
      assert log + UnlabelEvents(r, ids) == log + UnlabelEvents(r, init) + [Unlabelled(r, last)];
      ReplayOne(log + UnlabelEvents(r, init), Unlabelled(r, last));
    }
  }

  lemma {:induction false} ReplayScopes(log: seq<Event>, s: nat, ids: seq<Ent>)
    ensures Replay(log + ScopeAddEvents(s, ids)) == Replay(log).(walls := Replay(log).walls + RowsFor(s, ids))
    decreases |ids|
  {
    if ids == [] {
      assert log + [] == log;
    } else {
      var init, last := ids[..|ids| - 1], ids[|ids| - 1];
      ReplayScopes(log, s, init);
      RowsForLast(s, ids);
      assert log + ScopeAddEvents(s, ids) == log + ScopeAddEvents(s, init) + [ScopeAdded(s, last)];
      ReplayOne(log + ScopeAddEvents(s, init), ScopeAdded(s, last));
    }
  }

  lemma {:induction false} ReplayUnscopes(log: seq<Event>, s: nat, ids: seq<Ent>)
    ensures Replay(log + ScopeRemoveEvents(s, ids)) == Replay(log).(walls := Replay(log).walls - RowsFor(s, ids))
    decreases |ids|
  {
    if ids == [] {
      assert log + [] == log;
    } else {
      var init, last := ids[..|ids| - 1], ids[|ids| - 1];
      ReplayUnscopes(log, s, init);
      RowsForLast(s, ids);
      assert log + ScopeRemoveEvents(s, ids) == log + ScopeRemoveEvents(s, init) + [ScopeRemoved(s, last)];
      ReplayOne(log + ScopeRemoveEvents(s, init), ScopeRemoved(s, last));
    }
  }

  /** Adding what is missing and removing what is not wanted leaves exactly what is wanted. */
  lemma DiffReaches<K>(rows: Rows<K>, k: K, wanted: set<Ent>, adds: seq<Ent>, removes: seq<Ent>)
    requires forall e :: e in adds <==> e in wanted - IdsOf(rows, k)
    requires forall e :: e in removes <==> e in IdsOf(rows, k) - wanted
    ensures rows + RowsFor(k, adds) - RowsFor(k, removes) == SetIds(rows, k, wanted)
  {
    var result := rows + RowsFor(k, adds) - RowsFor(k, removes);
    forall row ensures row in result <==> row in SetIds(rows, k, wanted) {
      SidesAgree(rows, k, row.1);
      if row.0 == k {
        assert row == (k, row.1);
        assert row in RowsFor(k, adds) <==> row.1 in adds;
        assert row in RowsFor(k, removes) <==> row.1 in removes;
      }
    }
  }
}

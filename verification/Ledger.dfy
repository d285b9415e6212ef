/**
 The label and wall tables with their writers: whole-set label writes, the entitlement-side
 axis edits built from them, wall edits, stream deletion and entitlement deletion. Every
 transaction leaves an audit trail that explains the tables.
 */
module Ledger {
  import opened Collections
  import opened Common
  import opened Sorting
  import opened Names
  import opened Directory
  import opened Tables
  import opened AuditReplay
  import Workspaces

  /** Every table holding rows that name an entitlement, outside conversations themselves. */
  datatype Books = Books(
    grants: Rows<Subject>,
    labels: Rows<Resource>,
    walls: Rows<nat>,
    convTags: Rows<nat>,
    streamTags: Rows<nat>,
    documents: Rows<nat>,
    modelSets: Rows<nat>)

  /** The registered cascades, one per kind of row. */
  datatype Kind = Documents | ToolLabels | RunnableLabels | StreamRows | ModelSets

  function Label(k: Kind): string {
    match k
    case Documents => "Document labels"
    case ToolLabels => "Tool labels"
    case RunnableLabels => "Agent and flow labels"
    case StreamRows => "Workstream scopes and taint tags"
    case ModelSets => "Model set attachments"
  }

  const GRANTS_LABEL := "Grants"

  function OnTools(rows: Rows<Resource>): Rows<Resource> {
    set r | r in rows && r.0.Tool?
  }

  function OnRunnables(rows: Rows<Resource>): Rows<Resource> {
    set r | r in rows && !r.0.Tool?
  }

  /** How many rows of one kind name e. */
  function CountKind(b: Books, k: Kind, e: Ent): nat {
    match k
    case Documents => |Naming(b.documents, e)|
    case ToolLabels => |Naming(OnTools(b.labels), e)|
    case RunnableLabels => |Naming(OnRunnables(b.labels), e)|
    case StreamRows => |Naming(b.walls, e)| + |Naming(b.convTags, e)| + |Naming(b.streamTags, e)|
    case ModelSets => |Naming(b.modelSets, e)|
  }

  /** What one committed cascade leaves. */
  function RemoveKind(b: Books, k: Kind, e: Ent): Books {
    match k
    case Documents => b.(documents := Without(b.documents, e))
    case ToolLabels => b.(labels := b.labels - Naming(OnTools(b.labels), e))
    case RunnableLabels => b.(labels := b.labels - Naming(OnRunnables(b.labels), e))
    case StreamRows => b.(walls := Without(b.walls, e), convTags := Without(b.convTags, e),
                          streamTags := Without(b.streamTags, e))
    case ModelSets => b.(modelSets := Without(b.modelSets, e))
  }

  function RemoveKinds(b: Books, kinds: seq<Kind>, e: Ent): Books {
    if kinds == [] then b else RemoveKind(RemoveKinds(b, kinds[..|kinds| - 1], e), kinds[|kinds| - 1], e)
  }

  /** No row naming e is left; every row naming another entitlement is. */
  function Purged(b: Books, e: Ent): Books {
    Books(Without(b.grants, e), Without(b.labels, e), Without(b.walls, e), Without(b.convTags, e),
          Without(b.streamTags, e), Without(b.documents, e), Without(b.modelSets, e))
  }

  function Size(b: Books): nat {
    |b.grants| + |b.labels| + |b.walls| + |b.convTags| + |b.streamTags| + |b.documents| + |b.modelSets|
  }

  class Ledger {
    var entitlements: set<Ent>
    var streams: set<nat>
    var books: Books
    var shares: map<Workspaces.ShareKey, Workspaces.Level>
    var log: seq<Event>

    /** The trail, replayed from nothing, reproduces the label and wall tables. */
    ghost predicate Explained()
      reads this
    {
      Replay(log) == Told(books.labels, books.walls)
    }

    constructor ()
      ensures Explained() && entitlements == {} && streams == {} && shares == map[] && log == []
      ensures books == Books({}, {}, {}, {}, {}, {}, {})
    {
      entitlements, streams, shares, log := {}, {}, map[], [];
      books := Books({}, {}, {}, {}, {}, {}, {});
    }

    /** A new entitlement or stream arrives with no rows of its own. */
    method Register(e: Ent, s: nat)
      modifies this`entitlements, this`streams
      ensures entitlements == old(entitlements) + {e} && streams == old(streams) + {s}
    {
      entitlements, streams := entitlements + {e}, streams + {s};
    }

    // ----- whole-set label writes

    method AddLabels(r: Resource, ids: seq<Ent>)
      modifies this`books, this`log
      ensures books == old(books).(labels := old(books).labels + RowsFor(r, ids))
      ensures log == old(log) + LabelEvents(r, ids)
    {
      for i := 0 to |ids|
        invariant books == old(books).(labels := old(books).labels + RowsFor(r, ids[..i]))
        invariant log == old(log) + LabelEvents(r, ids[..i])
      {
        assert ids[..i + 1][..i] == ids[..i];
        RowsForLast(r, ids[..i + 1]);
        books := books.(labels := books.labels + {(r, ids[i])});
        log := log + [Labelled(r, ids[i])];
      }
      assert ids[..|ids|] == ids;
    }

    method RemoveLabels(r: Resource, ids: seq<Ent>)
      modifies this`books, this`log
      ensures books == old(books).(labels := old(books).labels - RowsFor(r, ids))
      ensures log == old(log) + UnlabelEvents(r, ids)
    {
      for i := 0 to |ids|
        invariant books == old(books).(labels := old(books).labels - RowsFor(r, ids[..i]))
        invariant log == old(log) + UnlabelEvents(r, ids[..i])
      {
        assert ids[..i + 1][..i] == ids[..i];
        RowsForLast(r, ids[..i + 1]);
        books := books.(labels := books.labels - {(r, ids[i])});
        log := log + [Unlabelled(r, ids[i])];
      }
      assert ids[..|ids|] == ids;
    }

    /**
     Make r's labels exactly `wanted`, in one transaction; a label naming no existing
     entitlement breaks the foreign key and rolls everything back.
     */
    method SetLabels(r: Resource, wanted: set<Ent>) returns (ok: bool)
      modifies this`books, this`log
      ensures ok == (wanted - IdsOf(old(books).labels, r) <= entitlements)
      ensures books == if ok then old(books).(labels := SetIds(old(books).labels, r, wanted)) else old(books)
      ensures log == old(log) + if ok then DiffEvents(old(books).labels, r, wanted) else []
      ensures old(Explained()) ==> Explained()
    {
      var current := IdsOf(books.labels, r);
      ok := wanted - current <= entitlements;
      if !ok {
        return;
      }
      var adds, removes := Sorted(wanted - current), Sorted(current - wanted);
      LabelDiffTells(log, books.labels, r, wanted);
      AddLabels(r, adds);
      RemoveLabels(r, removes);
    }

    // ----- the axis: one entitlement across many resources

    /** One write of an axis edit: e goes on r's labels, or off them. */
    method Flip(e: Ent, r: Resource, on: bool)
      requires e in entitlements && (e in IdsOf(books.labels, r)) != on
      modifies this`books, this`log
      ensures books == old(books).(labels := Flipped(old(books).labels, e, r, on))
      ensures log == old(log) + [if on then Labelled(r, e) else Unlabelled(r, e)]
      ensures old(Explained()) ==> Explained()
    {
      var held := IdsOf(books.labels, r);
      FlipIsSetIds(books.labels, e, r, on);
      FlipEvents(books.labels, e, r, on);
      var ok := SetLabels(r, if on then held + {e} else held - {e});
    }

    /**
     `_apply`: first every key to add, then every key to remove, each change in a
     transaction of its own. `present` are the rows that still exist when it runs;
     `writes` is how many transactions commit before the process dies.
     */
    method ApplyAxis(e: Ent, add: seq<Resource>, remove: seq<Resource>, present: set<Resource>, writes: nat)
      returns (added: nat, removed: nat, finished: bool)
      requires e in entitlements
      modifies this`books, this`log
      ensures Without(books.labels, e) == Without(old(books).labels, e)
      ensures books == old(books).(labels := books.labels)
      ensures |log| == |old(log)| + added + removed && log[..|old(log)|] == old(log)
      ensures forall i | |old(log)| <= i < |log| :: (log[i].Labelled? || log[i].Unlabelled?) && log[i].e == e
      ensures old(Explained()) ==> Explained()
      ensures finished ==>
        KeysOf(books.labels, e)
        == KeysOf(old(books).labels, e) + Chosen(add, present) - Chosen(remove, present)
      ensures finished ==> added == |Chosen(add, present) - KeysOf(old(books).labels, e)|
      ensures finished ==>
        removed == |Chosen(remove, present) * (KeysOf(old(books).labels, e) + Chosen(add, present))|
      ensures finished <==> AxisWrites(KeysOf(old(books).labels, e), add, remove, present) <= writes
      ensures !finished ==> added + removed == writes
    {
      ghost var before := KeysOf(books.labels, e);
      added, finished := AxisPass(e, add, present, writes, true);
      removed := 0;
      ghost var mid, midLog := books, log;
      if finished {
        assert KeysOf(books.labels, e) == before + Chosen(add, present);
        removed, finished := AxisPass(e, remove, present, writes - added, false);
      }
      assert log[..|midLog|] == midLog && midLog[..|old(log)|] == old(log);
    }

    /** A write inside a pass, seen from where the pass began. */
    method AxisWrite(e: Ent, r: Resource, on: bool, ghost books0: Books, ghost log0: seq<Event>,
                     ghost chosen: set<Resource>, ghost changed: nat)
      requires e in entitlements && (e in IdsOf(books.labels, r)) != on
      requires OnlyOf(books0, log0, books, log, e, changed)
      requires PassedBy(books0.labels, books.labels, e, chosen, on, changed)
      modifies this`books, this`log
      ensures OnlyOf(books0, log0, books, log, e, changed + 1)
      ensures PassedBy(books0.labels, books.labels, e, chosen + {r}, on, changed + 1)
      ensures old(Explained()) ==> Explained()
    {
      PassedOneMore(books0.labels, books.labels, e, chosen, r, on, changed);
      OnlyOfOneMore(books0, log0, books, log, e, r, on, changed);
      Flip(e, r, on);
    }

    /** One of the two loops of `_apply`; `on` tells which. */
    method AxisPass(e: Ent, keys: seq<Resource>, present: set<Resource>, writes: nat, on: bool)
      returns (changed: nat, finished: bool)
      requires e in entitlements
      modifies this`books, this`log
      ensures finished <==> |Changing(KeysOf(old(books).labels, e), Chosen(keys, present), on)| <= writes
      ensures OnlyOf(old(books), old(log), books, log, e, changed)
      ensures old(Explained()) ==> Explained()
      ensures finished ==> PassedBy(old(books).labels, books.labels, e, Chosen(keys, present), on, changed)
      ensures !finished ==>
        changed == writes && StoppedAfter(old(books).labels, books.labels, e, keys, present, on, changed)
    {
      changed, finished := 0, true;
      for i := 0 to |keys|
        invariant finished && changed <= writes
        invariant OnlyOf(old(books), old(log), books, log, e, changed)
        invariant old(Explained()) ==> Explained()
        invariant PassedBy(old(books).labels, books.labels, e, Chosen(keys[..i], present), on, changed)
      {
        var r := keys[i];
        ChosenLast(keys, i, present);
        if r in present {
          if (e in IdsOf(books.labels, r)) != on {
            if changed == writes {
              finished := false;
              OneMoreNeeded(KeysOf(old(books).labels, e), keys, i, present, on, KeysOf(books.labels, e));
              SidesAgree(books.labels, r, e);
              return;
            }
            AxisWrite(e, r, on, old(books), old(log), Chosen(keys[..i], present), changed);
            changed := changed + 1;
          } else {
            PassedOneMore(old(books).labels, books.labels, e, Chosen(keys[..i], present), r, on, changed);
          }
        }
      }
      assert keys[..|keys|] == keys;
    }

    // ----- walls

    method AddWalls(s: nat, ids: seq<Ent>)
      modifies this`books, this`log
      ensures books == old(books).(walls := old(books).walls + RowsFor(s, ids))
      ensures log == old(log) + ScopeAddEvents(s, ids)
    {
      for i := 0 to |ids|
        invariant books == old(books).(walls := old(books).walls + RowsFor(s, ids[..i]))
        invariant log == old(log) + ScopeAddEvents(s, ids[..i])
      {
        assert ids[..i + 1][..i] == ids[..i];
        RowsForLast(s, ids[..i + 1]);
        books := books.(walls := books.walls + {(s, ids[i])});
        log := log + [ScopeAdded(s, ids[i])];
      }
      assert ids[..|ids|] == ids;
    }

    method RemoveWalls(s: nat, ids: seq<Ent>)
      modifies this`books, this`log
      ensures books == old(books).(walls := old(books).walls - RowsFor(s, ids))
      ensures log == old(log) + ScopeRemoveEvents(s, ids)
    {
      for i := 0 to |ids|
        invariant books == old(books).(walls := old(books).walls - RowsFor(s, ids[..i]))
        invariant log == old(log) + ScopeRemoveEvents(s, ids[..i])
      {
        assert ids[..i + 1][..i] == ids[..i];
        RowsForLast(s, ids[..i + 1]);
        books := books.(walls := books.walls - {(s, ids[i])});
        log := log + [ScopeRemoved(s, ids[i])];
      }
      assert ids[..|ids|] == ids;
    }

    /** A wall may only name what its setter holds; the difference is written and audited. */
    method SetScope(mayManage: bool, held: set<Ent>, s: nat, wanted: set<Ent>)
      returns (change: Option<(set<Ent>, set<Ent>)>)
      modifies this`books, this`log
      ensures change.Some? <==> mayManage && wanted <= held
      ensures change.None? ==> books == old(books) && log == old(log)
      ensures change.Some? ==>
        && books == old(books).(walls := SetIds(old(books).walls, s, wanted))
        && change.value == (wanted - IdsOf(old(books).walls, s), IdsOf(old(books).walls, s) - wanted)
        && log == old(log) + ScopeAddEvents(s, Sorted(change.value.0)) + ScopeRemoveEvents(s, Sorted(change.value.1))
      ensures old(Explained()) ==> Explained()
    {
      if !mayManage || wanted - held != {} {
        assert mayManage ==> exists e :: e in wanted - held;
        return None;
      }
      assert forall e | e in wanted :: e !in wanted - held;
      var current := IdsOf(books.walls, s);
      var adds, removes := Sorted(wanted - current), Sorted(current - wanted);
      ReplayScopes(log, s, adds);
      ReplayUnscopes(log + ScopeAddEvents(s, adds), s, removes);
      DiffReaches(books.walls, s, wanted, adds, removes);
      AddWalls(s, adds);
      RemoveWalls(s, removes);
      change := Some((wanted - current, current - wanted));
    }

    /**
     The stream goes in one transaction, its shares, tags and wall with it; the audit row is
     written after it: `dies` is the process ending in between.
     */
    method DeleteWorkstream(mayManage: bool, s: nat, conversations: nat, documents: nat, dies: bool)
      returns (deleted: bool)
      requires s in streams
      modifies this`books, this`log, this`streams, this`shares
      ensures deleted <==> mayManage && conversations == 0 && documents == 0
      ensures !deleted ==>
        books == old(books) && log == old(log) && streams == old(streams) && shares == old(shares)
      ensures deleted ==>
        && streams == old(streams) - {s}
        && books == old(books).(walls := WithoutKey(old(books).walls, s),
                                streamTags := WithoutKey(old(books).streamTags, s))
        && shares == Workspaces.WithoutShares(old(shares), Workspaces.WorkstreamTarget, s)
        && log == old(log) + if dies then [] else [WorkstreamDeleted(s)]
      ensures old(Explained()) && deleted ==> (Explained() <==> !dies || IdsOf(old(books).walls, s) == {})
    {
      deleted := mayManage && conversations == 0 && documents == 0;
      if !deleted {
        return;
      }
      WithoutKeyGone(books.walls, s);
      ReplayOne(log, WorkstreamDeleted(s));
      books := books.(walls := WithoutKey(books.walls, s), streamTags := WithoutKey(books.streamTags, s));
      shares := Workspaces.WithoutShares(shares, Workspaces.WorkstreamTarget, s);
      streams := streams - {s};
      if !dies {
        log := log + [WorkstreamDeleted(s)];
      }
    }

    /** `apply_axis` behind its guard: an administrator, and rows the catalogue has. */
    method EditAxis(admin: bool, catalogue: set<Resource>, e: Ent, add: seq<Resource>, remove: seq<Resource>,
                    present: set<Resource>, writes: nat)
      returns (r: Option<(nat, nat)>)
      requires e in entitlements
      modifies this`books, this`log
      ensures r.Some? <==> admin && (forall k | k in add + remove :: k in catalogue)
                           && AxisWrites(KeysOf(old(books).labels, e), add, remove, present) <= writes
      ensures !admin || (exists k :: k in add + remove && k !in catalogue) ==> books == old(books) && log == old(log)
      ensures r.Some? ==>
        KeysOf(books.labels, e)
        == KeysOf(old(books).labels, e) + Chosen(add, present) - Chosen(remove, present)
      ensures r.Some? ==>
        && r.value.0 == |Chosen(add, present) - KeysOf(old(books).labels, e)|
        && r.value.1 == |Chosen(remove, present) * (KeysOf(old(books).labels, e) + Chosen(add, present))|
        && |log| == |old(log)| + r.value.0 + r.value.1
      ensures books == old(books).(labels := books.labels)
      ensures old(log) <= log
      ensures forall i | |old(log)| <= i < |log| :: (log[i].Labelled? || log[i].Unlabelled?) && log[i].e == e
      ensures Without(books.labels, e) == Without(old(books).labels, e)
      ensures old(Explained()) ==> Explained()
    {
      if !admin || exists k :: k in add + remove && k !in catalogue {
        return None;
      }
      var added, removed, finished := ApplyAxis(e, add, remove, present, writes);
      r := if finished then Some((added, removed)) else None;
    }

    // ----- deleting an entitlement

    method RecordUntaints(e: Ent, rows: Rows<nat>, conversations: bool)
      modifies this`log
      ensures old(log) <= log && |log| == |old(log)| + |rows|
      ensures forall row | row in rows :: Untaint(conversations, row.0, e) in log[|old(log)|..]
      ensures Replay(log) == Replay(old(log))
    {
      ghost var tail: seq<Event> := [];
      var todo := rows;
      while todo != {}
        invariant todo <= rows && |tail| == |rows| - |todo| && log == old(log) + tail
        invariant forall ev | ev in tail :: Untaints(ev, e)
        invariant forall row | row in rows - todo :: Untaint(conversations, row.0, e) in tail
        decreases |todo|
      {
        var row :| row in todo;
        todo := todo - {row};
        log := log + [Untaint(conversations, row.0, e)];
        tail := tail + [Untaint(conversations, row.0, e)];
      }
      assert log[|old(log)|..] == tail;
      ReplayIgnoresUntaints(old(log), tail, e);
    }

    /** One registered handler: it counts, and in commit mode removes what it counted. */
    method Handler(k: Kind, e: Ent, commit: bool) returns (n: nat)
      modifies this`books, this`log
      ensures n == CountKind(old(books), k, e)
      ensures books == if commit then RemoveKind(old(books), k, e) else old(books)
      ensures Replay(log) == Replay(old(log)) && (!commit ==> log == old(log))
      ensures old(log) <= log && (!k.StreamRows? ==> log == old(log))
      ensures commit && k.StreamRows? ==>
        && |log| == |old(log)| + |Naming(old(books).convTags, e)| + |Naming(old(books).streamTags, e)|
        && (forall row | row in Naming(old(books).convTags, e) :: ConversationUntainted(row.0, e) in log[|old(log)|..])
        && (forall row | row in Naming(old(books).streamTags, e) :: WorkstreamUntainted(row.0, e) in log[|old(log)|..])
    {
      n := CountKind(books, k, e);
      if commit {
        if k.StreamRows? {
          RecordUntaints(e, Naming(books.convTags, e), true);
          RecordUntaints(e, Naming(books.streamTags, e), false);
        }
        books := RemoveKind(books, k, e);
      }
    }

    /** `_run`: every registered cascade in order, its count filed under its label. */
    method RunCascades(kinds: seq<Kind>, e: Ent, commit: bool) returns (counts: map<string, nat>)
      requires Distinct(kinds)
      modifies this`books, this`log
      ensures books == if commit then RemoveKinds(old(books), kinds, e) else old(books)
      ensures Replay(log) == Replay(old(log)) && old(log) <= log
      ensures if commit && StreamRows in kinds then TellsUntaints(old(books), e, log[|old(log)|..]) else log == old(log)
      ensures counts == CountsOf(old(books), kinds, e)
    {
      counts := map[];
      for i := 0 to |kinds|
        invariant books == if commit then RemoveKinds(old(books), kinds[..i], e) else old(books)
        invariant Replay(log) == Replay(old(log)) && old(log) <= log
        invariant if commit && StreamRows in kinds[..i] then TellsUntaints(old(books), e, log[|old(log)|..])
                  else log == old(log)
        invariant counts == CountsOf(old(books), kinds[..i], e)
      {
        assert kinds[..i + 1][..i] == kinds[..i] && kinds[..i + 1] == kinds[..i] + [kinds[i]];
        if kinds[i].StreamRows? {
          StreamRowsUntouched(old(books), kinds, i, e);
        }
        EarlierKindsKeepCount(old(books), kinds[..i], kinds[i], e);
        var n := Handler(kinds[i], e, commit);
        counts := counts[Label(kinds[i]) := n];
      }
      assert kinds[..|kinds|] == kinds;
    }

    /** What the confirmation page names first: nothing is written. */
    method DeleteCounts(kinds: seq<Kind>, e: Ent) returns (counts: map<string, nat>)
      requires Distinct(kinds)
      modifies this`books, this`log
      ensures books == old(books) && log == old(log)
      ensures counts == AllCounts(books, kinds, e)
    {
      var kindCounts := RunCascades(kinds, e, false);
      counts := map[GRANTS_LABEL := |Naming(books.grants, e)|] + kindCounts;
    }

    /**
     The cascades, then the row itself -- whose foreign keys take along whatever is left --
     then the audit row, all in one transaction.
     */
    method DeleteEntitlement(admin: bool, kinds: seq<Kind>, e: Ent) returns (counts: Option<map<string, nat>>)
      requires Distinct(kinds) && e in entitlements
      modifies this`books, this`log, this`entitlements
      ensures counts.Some? <==> admin
      ensures !admin ==> books == old(books) && log == old(log) && entitlements == old(entitlements)
      ensures admin ==>
        && books == Purged(old(books), e)
        && entitlements == old(entitlements) - {e}
        && counts.value == AllCounts(old(books), kinds, e)
        && old(log) < log && log[|log| - 1] == EntitlementDeleted(e)
        && var told := log[|old(log)|..|log| - 1];
           if StreamRows in kinds then TellsUntaints(old(books), e, told) else told == []
      ensures old(Explained()) ==> Explained()
    {
      if !admin {
        return None;
      }
      var grants := |Naming(books.grants, e)|;
      var kindCounts := RunCascades(kinds, e, true);
      PurgeAfterCascades(old(books), kinds, e);
      books := Purged(books, e);
      entitlements := entitlements - {e};
      DeleteTells(log, old(books), e);
      ghost var told := log[|old(log)|..];
      log := log + [EntitlementDeleted(e)];
      assert log[|old(log)|..|log| - 1] == told;
      counts := Some(map[GRANTS_LABEL := grants] + kindCounts);
    }
  }

  // ----- what the class leans on

  /** One delete event clears the entitlement from everything the trail said of it. */
  lemma DeleteTells(log: seq<Event>, b: Books, e: Ent)
    ensures Replay(log) == Told(b.labels, b.walls) ==>
      Replay(log + [EntitlementDeleted(e)]) == Told(Purged(b, e).labels, Purged(b, e).walls)
  {
    ReplayOne(log, EntitlementDeleted(e));
  }

  function Untaint(conversation: bool, key: nat, e: Ent): Event {
    if conversation then ConversationUntainted(key, e) else WorkstreamUntainted(key, e)
  }

  /** One event for each tag naming e, of conversations and of streams, and no other. */
  ghost predicate TellsUntaints(b: Books, e: Ent, told: seq<Event>) {
    && |told| == |Naming(b.convTags, e)| + |Naming(b.streamTags, e)|
    && (forall row | row in Naming(b.convTags, e) :: ConversationUntainted(row.0, e) in told)
    && (forall row | row in Naming(b.streamTags, e) :: WorkstreamUntainted(row.0, e) in told)
  }

  /** When the cascade of stream rows is reached, the tags are still those of the start. */
  lemma StreamRowsUntouched(b: Books, kinds: seq<Kind>, i: nat, e: Ent)
    requires Distinct(kinds) && i < |kinds| && kinds[i].StreamRows?
    ensures StreamRows !in kinds[..i]
    ensures RemoveKinds(b, kinds[..i], e).convTags == b.convTags
    ensures RemoveKinds(b, kinds[..i], e).streamTags == b.streamTags
  {
    TagsKeptUntil(b, kinds[..i], e);
  }

  lemma {:induction false} TagsKeptUntil(b: Books, kinds: seq<Kind>, e: Ent)
    requires StreamRows !in kinds
    ensures RemoveKinds(b, kinds, e).convTags == b.convTags && RemoveKinds(b, kinds, e).streamTags == b.streamTags
  {
    if kinds != [] {
      TagsKeptUntil(b, kinds[..|kinds| - 1], e);
    }
  }

  function CountsOf(b: Books, kinds: seq<Kind>, e: Ent): map<string, nat> {
    if kinds == [] then map[]
    else
      var last := kinds[|kinds| - 1];
      CountsOf(b, kinds[..|kinds| - 1], e)[Label(last) := CountKind(b, last, e)]
  }

  /** `_cascade_counts_for`: the grants, then every registered kind. */
  function AllCounts(b: Books, kinds: seq<Kind>, e: Ent): map<string, nat> {
    map[GRANTS_LABEL := |Naming(b.grants, e)|] + CountsOf(b, kinds, e)
  }

  /** No two kinds print under one label, nor under the grants' own. */
  lemma LabelsDistinct(j: Kind, k: Kind)
    ensures Label(j) == Label(k) ==> j == k
    ensures Label(k) != GRANTS_LABEL
  {
    var names := [Label(Documents), Label(ToolLabels), Label(RunnableLabels), Label(StreamRows), Label(ModelSets)];
    assert |names[0]| == 15 && |names[1]| == 11 && |names[2]| == 21 && |names[3]| == 32 && |names[4]| == 21;
    assert names[2][0] == 'A' && names[4][0] == 'M';
    assert |GRANTS_LABEL| == 6;
  }

  lemma RemoveOtherKind(b: Books, j: Kind, k: Kind, e: Ent)
    requires j != k
    ensures CountKind(RemoveKind(b, j, e), k, e) == CountKind(b, k, e)
  {
    var b1 := RemoveKind(b, j, e);
    assert j.ToolLabels? ==> OnRunnables(b1.labels) == OnRunnables(b.labels);
    assert j.RunnableLabels? ==> OnTools(b1.labels) == OnTools(b.labels);
  }

  /** A cascade never counts a row another one has already taken. */
  lemma {:induction false} EarlierKindsKeepCount(b: Books, kinds: seq<Kind>, k: Kind, e: Ent)
    requires k !in kinds
    ensures CountKind(RemoveKinds(b, kinds, e), k, e) == CountKind(b, k, e)
    decreases |kinds|
  {
    if kinds != [] {
      var init := kinds[..|kinds| - 1];
      EarlierKindsKeepCount(b, init, k, e);
      RemoveOtherKind(RemoveKinds(b, init, e), kinds[|kinds| - 1], k, e);
    }
  }

  lemma RemoveKindThenPurge(b: Books, k: Kind, e: Ent)
    ensures Purged(RemoveKind(b, k, e), e) == Purged(b, e)
  {
    var b1 := RemoveKind(b, k, e);
    assert Without(b1.labels, e) == Without(b.labels, e);
    assert Without(b1.walls, e) == Without(b.walls, e);
    assert Without(b1.convTags, e) == Without(b.convTags, e);
    assert Without(b1.streamTags, e) == Without(b.streamTags, e);
    assert Without(b1.documents, e) == Without(b.documents, e);
    assert Without(b1.modelSets, e) == Without(b.modelSets, e);
  }

  /** Whatever cascades ran first, the delete ends in the same tables. */
  lemma {:induction false} PurgeAfterCascades(b: Books, kinds: seq<Kind>, e: Ent)
    ensures Purged(RemoveKinds(b, kinds, e), e) == Purged(b, e)
    decreases |kinds|
  {
    if kinds != [] {
      var init := kinds[..|kinds| - 1];
      PurgeAfterCascades(b, init, e);
      RemoveKindThenPurge(RemoveKinds(b, init, e), kinds[|kinds| - 1], e);
    }
  }

  /** The number filed for each kind is that kind's own, whatever else is registered. */
  lemma CountFiled(b: Books, kinds: seq<Kind>, k: Kind, e: Ent)
    requires k in kinds
    ensures Label(k) in AllCounts(b, kinds, e) && AllCounts(b, kinds, e)[Label(k)] == CountKind(b, k, e)
    ensures AllCounts(b, kinds, e)[GRANTS_LABEL] == |Naming(b.grants, e)|
  {
    FiledUnder(b, kinds, k, e);
    GrantsNotShadowed(b, kinds, e);
    LabelsDistinct(k, k);
  }

  /** The confirmation page's numbers, each under the words printed beside it. */
  lemma PageNumbers(b: Books, kinds: seq<Kind>, e: Ent)
    requires forall k: Kind :: k in kinds
    ensures var page := AllCounts(b, kinds, e);
      && {"Grants", "Document labels", "Tool labels", "Agent and flow labels", "Workstream scopes and taint tags",
          "Model set attachments"} <= page.Keys
      && page["Grants"] == |set r | r in b.grants && r.1 == e|
      && page["Document labels"] == |set r | r in b.documents && r.1 == e|
      && page["Tool labels"] == |set r | r in b.labels && r.1 == e && r.0.Tool?|
      && page["Agent and flow labels"] == |set r | r in b.labels && r.1 == e && !r.0.Tool?|
      && page["Workstream scopes and taint tags"]
         == |set r | r in b.walls && r.1 == e| + |set r | r in b.convTags && r.1 == e|
            + |set r | r in b.streamTags && r.1 == e|
      && page["Model set attachments"] == |set r | r in b.modelSets && r.1 == e|
  {
    CountFiled(b, kinds, Documents, e);
    CountFiled(b, kinds, ToolLabels, e);
    CountFiled(b, kinds, RunnableLabels, e);
    CountFiled(b, kinds, StreamRows, e);
    CountFiled(b, kinds, ModelSets, e);
    assert Naming(OnTools(b.labels), e) == set r | r in b.labels && r.1 == e && r.0.Tool?;
    assert Naming(OnRunnables(b.labels), e) == set r | r in b.labels && r.1 == e && !r.0.Tool?;
  }

  lemma {:induction false} FiledUnder(b: Books, kinds: seq<Kind>, k: Kind, e: Ent)
    requires k in kinds
    ensures Label(k) in CountsOf(b, kinds, e) && CountsOf(b, kinds, e)[Label(k)] == CountKind(b, k, e)
    decreases |kinds|
  {
    var last := kinds[|kinds| - 1];
    if last != k {
      assert k in kinds[..|kinds| - 1];
      FiledUnder(b, kinds[..|kinds| - 1], k, e);
      LabelsDistinct(last, k);
    }
  }

  lemma {:induction false} GrantsNotShadowed(b: Books, kinds: seq<Kind>, e: Ent)
    ensures GRANTS_LABEL !in CountsOf(b, kinds, e)
    decreases |kinds|
  {
    if kinds != [] {
      GrantsNotShadowed(b, kinds[..|kinds| - 1], e);
      LabelsDistinct(kinds[|kinds| - 1], kinds[|kinds| - 1]);
    }
  }

  /** One kind's number is the rows that kind's cascade takes away. */
  lemma CountIsRowsRemoved(b: Books, k: Kind, e: Ent)
    ensures Size(b) - Size(RemoveKind(b, k, e)) == CountKind(b, k, e)
  {
    match k
    case Documents => RowsNaming(b.documents, e);
    case ToolLabels => assert |b.labels| == |b.labels - Naming(OnTools(b.labels), e)| + |Naming(OnTools(b.labels), e)|;
    case RunnableLabels =>
      assert |b.labels| == |b.labels - Naming(OnRunnables(b.labels), e)| + |Naming(OnRunnables(b.labels), e)|;
    case StreamRows =>
      RowsNaming(b.walls, e);
      RowsNaming(b.convTags, e);
      RowsNaming(b.streamTags, e);
    case ModelSets => RowsNaming(b.modelSets, e);
  }

  /** Conservation: the counts of the five kinds and the grants add up to the rows that go. */
  lemma CountsAreRowsRemoved(b: Books, e: Ent)
    ensures Size(b) == Size(Purged(b, e)) + |Naming(b.grants, e)|
      + CountKind(b, Documents, e) + CountKind(b, ToolLabels, e) + CountKind(b, RunnableLabels, e)
      + CountKind(b, StreamRows, e) + CountKind(b, ModelSets, e)
  {
    RowsNaming(b.grants, e);
    RowsNaming(b.labels, e);
    RowsNaming(b.walls, e);
    RowsNaming(b.convTags, e);
    RowsNaming(b.streamTags, e);
    RowsNaming(b.documents, e);
    RowsNaming(b.modelSets, e);
    var named := Naming(b.labels, e);
    var tools, runnables := Naming(OnTools(b.labels), e), Naming(OnRunnables(b.labels), e);
    assert named == tools + runnables && tools !! runnables;
    assert |tools + runnables| == |tools| + |runnables|;
  }

  /** Nothing names e any more, and a row naming another entitlement is where it was. */
  lemma PurgedMeaning(b: Books, e: Ent, other: Ent)
    requires other != e
    ensures var a := Purged(b, e);
      && KeysOf(a.grants, e) == {} && KeysOf(a.labels, e) == {} && KeysOf(a.walls, e) == {}
      && KeysOf(a.convTags, e) == {} && KeysOf(a.streamTags, e) == {}
      && KeysOf(a.documents, e) == {} && KeysOf(a.modelSets, e) == {}
      && Naming(a.grants, other) == Naming(b.grants, other) && Naming(a.labels, other) == Naming(b.labels, other)
      && Naming(a.walls, other) == Naming(b.walls, other) && Naming(a.convTags, other) == Naming(b.convTags, other)
      && Naming(a.streamTags, other) == Naming(b.streamTags, other)
      && Naming(a.documents, other) == Naming(b.documents, other)
      && Naming(a.modelSets, other) == Naming(b.modelSets, other)
  {
  }

  /** The audit rows of one label write, additions before removals, each in id order. */
  function DiffEvents(rows: Rows<Resource>, r: Resource, wanted: set<Ent>): seq<Event> {
    LabelEvents(r, Sorted(wanted - IdsOf(rows, r))) + UnlabelEvents(r, Sorted(IdsOf(rows, r) - wanted))
  }

  /** A label write's rows and its events say the same. */
  lemma LabelDiffTells(log: seq<Event>, rows: Rows<Resource>, r: Resource, wanted: set<Ent>)
    ensures var adds, removes := Sorted(wanted - IdsOf(rows, r)), Sorted(IdsOf(rows, r) - wanted);
      && rows + RowsFor(r, adds) - RowsFor(r, removes) == SetIds(rows, r, wanted)
      && log + LabelEvents(r, adds) + UnlabelEvents(r, removes) == log + DiffEvents(rows, r, wanted)
    ensures Replay(log).labels == rows ==>
      Replay(log + DiffEvents(rows, r, wanted)) == Replay(log).(labels := SetIds(rows, r, wanted))
  {
    var adds, removes := Sorted(wanted - IdsOf(rows, r)), Sorted(IdsOf(rows, r) - wanted);
    ReplayLabels(log, r, adds);
    ReplayUnlabels(log + LabelEvents(r, adds), r, removes);
    DiffReaches(rows, r, wanted, adds, removes);
    ConcatAssoc(log, LabelEvents(r, adds), UnlabelEvents(r, removes));
  }

  lemma FlipIsSetIds(rows: Rows<Resource>, e: Ent, r: Resource, on: bool)
    ensures SetIds(rows, r, if on then IdsOf(rows, r) + {e} else IdsOf(rows, r) - {e})
            == Flipped(rows, e, r, on)
  {
    var wanted := if on then IdsOf(rows, r) + {e} else IdsOf(rows, r) - {e};
    var flipped := Flipped(rows, e, r, on);
    forall row ensures row in SetIds(rows, r, wanted) <==> row in flipped {
      SidesAgree(rows, r, row.1);
      if row.0 == r {
        assert row == (r, row.1);
      }
    }
  }

  lemma FlipEvents(rows: Rows<Resource>, e: Ent, r: Resource, on: bool)
    requires (e in IdsOf(rows, r)) != on
    ensures DiffEvents(rows, r, if on then IdsOf(rows, r) + {e} else IdsOf(rows, r) - {e})
            == [if on then Labelled(r, e) else Unlabelled(r, e)]
  {
    var held := IdsOf(rows, r);
    var wanted := if on then held + {e} else held - {e};
    assert wanted - held == if on then {e} else {};
    assert held - wanted == if on then {} else {e};
    var one := Sorted({e});
    assert |one| == 1 && one[0] in one;
    assert one == [e] && Sorted({}) == [];
    assert [e][..0] == [];
    assert LabelEvents(r, [e]) == [Labelled(r, e)] && UnlabelEvents(r, [e]) == [Unlabelled(r, e)];
  }

  /** `changed` writes later: only e's labels differ, each write having left its one entry. */
  ghost predicate OnlyOf(b0: Books, log0: seq<Event>, b: Books, log: seq<Event>, e: Ent, changed: nat) {
    && Without(b.labels, e) == Without(b0.labels, e)
    && b == b0.(labels := b.labels)
    && |log| == |log0| + changed && log[..|log0|] == log0
    && forall i | |log0| <= i < |log| :: (log[i].Labelled? || log[i].Unlabelled?) && log[i].e == e
  }

  ghost predicate PassedBy(l0: Rows<Resource>, l: Rows<Resource>, e: Ent, chosen: set<Resource>, on: bool,
                           changed: nat) {
    && KeysOf(l, e) == Passed(KeysOf(l0, e), chosen, on)
    && changed == |Changing(KeysOf(l0, e), chosen, on)|
  }

  /** The pass got through some of its keys and no further. */
  ghost predicate StoppedAfter(l0: Rows<Resource>, l: Rows<Resource>, e: Ent, keys: seq<Resource>,
                               present: set<Resource>, on: bool, changed: nat) {
    exists i | 0 <= i < |keys| :: PassedBy(l0, l, e, Chosen(keys[..i], present), on, changed)
  }

  /** A key still to be written means the pass needs more writes than it has made. */
  lemma OneMoreNeeded(before: set<Resource>, keys: seq<Resource>, i: nat, present: set<Resource>, on: bool,
                      now: set<Resource>)
    requires i < |keys| && keys[i] in present
    requires now == Passed(before, Chosen(keys[..i], present), on)
    ensures (keys[i] in now) != on ==>
      |Changing(before, Chosen(keys[..i], present), on)| < |Changing(before, Chosen(keys, present), on)|
  {
    var some, all := Chosen(keys[..i], present), Chosen(keys, present);
    if (keys[i] in now) != on {
      assert some <= all && keys[i] in all;
      PassStep(before, some, keys[i], on);
      assert Changing(before, some, on) + {keys[i]} <= Changing(before, all, on);
      SubsetSize(Changing(before, some, on) + {keys[i]}, Changing(before, all, on));
    }
  }

  /** The rows an axis edit names that are really there. */
  function Chosen(keys: seq<Resource>, present: set<Resource>): set<Resource> {
    set r | r in keys && r in present
  }

  /** How many rows an axis edit has to write, removals counting what its additions put there. */
  function AxisWrites(before: set<Resource>, add: seq<Resource>, remove: seq<Resource>, present: set<Resource>): nat {
    |Chosen(add, present) - before| + |Chosen(remove, present) * (before + Chosen(add, present))|
  }

  function Passed(before: set<Resource>, chosen: set<Resource>, on: bool): set<Resource> {
    if on then before + chosen else before - chosen
  }

  function Changing(before: set<Resource>, chosen: set<Resource>, on: bool): set<Resource> {
    if on then chosen - before else chosen * before
  }

  lemma ChosenLast(keys: seq<Resource>, i: nat, present: set<Resource>)
    requires i < |keys|
    ensures Chosen(keys[..i + 1], present) == Chosen(keys[..i], present) + if keys[i] in present then {keys[i]} else {}
  {
    assert keys[..i + 1] == keys[..i] + [keys[i]];
  }

  lemma PassStep(before: set<Resource>, chosen: set<Resource>, r: Resource, on: bool)
    ensures (r in Passed(before, chosen, on)) == on ==>
      && Passed(before, chosen + {r}, on) == Passed(before, chosen, on)
      && Changing(before, chosen + {r}, on) == Changing(before, chosen, on)
    ensures (r in Passed(before, chosen, on)) != on ==>
      && Passed(before, chosen + {r}, on)
         == (if on then Passed(before, chosen, on) + {r} else Passed(before, chosen, on) - {r})
      && Changing(before, chosen + {r}, on) == Changing(before, chosen, on) + {r}
      && r !in Changing(before, chosen, on)
  {
    assert on ==> Passed(before, chosen + {r}, on) == Passed(before, chosen, on) + {r};
    assert !on ==> Passed(before, chosen + {r}, on) == Passed(before, chosen, on) - {r};
    assert r in Passed(before, chosen, on) && on && r !in before ==> r in chosen;
  }

  function Flipped(rows: Rows<Resource>, e: Ent, r: Resource, on: bool): Rows<Resource> {
    if on then rows + {(r, e)} else rows - {(r, e)}
  }

  lemma PassedOneMore(l0: Rows<Resource>, l: Rows<Resource>, e: Ent, chosen: set<Resource>, r: Resource,
                      on: bool, changed: nat)
    requires PassedBy(l0, l, e, chosen, on, changed)
    ensures if (e in IdsOf(l, r)) == on then PassedBy(l0, l, e, chosen + {r}, on, changed)
            else PassedBy(l0, Flipped(l, e, r, on), e, chosen + {r}, on, changed + 1)
  {
    PassStep(KeysOf(l0, e), chosen, r, on);
    SidesAgree(l, r, e);
    FlipKeys(l, e, r, on);
  }

  lemma OnlyOfOneMore(b0: Books, log0: seq<Event>, b: Books, log: seq<Event>, e: Ent, r: Resource, on: bool,
                      changed: nat)
    requires OnlyOf(b0, log0, b, log, e, changed)
    ensures OnlyOf(b0, log0, b.(labels := Flipped(b.labels, e, r, on)),
                   log + [if on then Labelled(r, e) else Unlabelled(r, e)], e, changed + 1)
  {
    FlipKeys(b.labels, e, r, on);
  }

  lemma FlipKeys(rows: Rows<Resource>, e: Ent, r: Resource, on: bool)
    ensures var flipped := Flipped(rows, e, r, on);
      && KeysOf(flipped, e) == (if on then KeysOf(rows, e) + {r} else KeysOf(rows, e) - {r})
      && Without(flipped, e) == Without(rows, e)
  {
    var flipped := Flipped(rows, e, r, on);
    forall k ensures k in KeysOf(flipped, e) <==> (k, e) in flipped {
      SidesAgree(flipped, k, e);
    }
    forall k ensures k in KeysOf(rows, e) <==> (k, e) in rows {
      SidesAgree(rows, k, e);
    }
  }

  lemma WithoutKeyGone(rows: Rows<nat>, s: nat)
    ensures WithoutKey(rows, s) == rows <==> IdsOf(rows, s) == {}
  {
    if IdsOf(rows, s) == {} {
      forall r | r in rows ensures r.0 != s {
        assert r.0 == s ==> r.1 in IdsOf(rows, s);
      }
      assert WithoutKey(rows, s) == rows;
    } else {
      var e :| e in IdsOf(rows, s);
      SidesAgree(rows, s, e);
      assert (s, e) !in WithoutKey(rows, s);
    }
  }
}

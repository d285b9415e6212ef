/**
 What a turn may call: a tool's labels against what the acting principal holds, narrowed by
 the wall of the workstream the turn runs in.
 */
module ToolGate {
  import opened Common
  import opened Names
  import opened Directory
  import opened Tables

  datatype ToolAccess = ToolAccess(required: Rows<string>, held: set<Ent>, unrestricted: bool)

  /** `wall_ids`: walls are dormant on an open box. */
  function WallIds(d: Registry, walls: Rows<nat>, s: Option<nat>): set<Ent> {
    if s.Some? && AccountsOn(d) then IdsOf(walls, s.value) else {}
  }

  function AccessFor(d: Registry, labels: Rows<string>, p: Principal, wall: set<Ent>): ToolAccess {
    if SeesAll(d, p) && wall == {} then ToolAccess({}, {}, true)
    else ToolAccess(labels, if wall != {} then Held(d, p) * wall else Held(d, p), false)
  }

  predicate Allows(access: ToolAccess, key: string) {
    || access.unrestricted
    || IdsOf(access.required, key) == {}
    || IdsOf(access.required, key) * access.held != {}
  }

  /** Calling a tool from a stream's turn. */
  predicate MayCall(d: Registry, labels: Rows<string>, walls: Rows<nat>, p: Principal, s: Option<nat>, key: string) {
    Allows(AccessFor(d, labels, p, WallIds(d, walls, s)), key)
  }

  /** e is a label of the tool, held by the caller, and within the stream's wall if it has one. */
  ghost predicate Opens(
    d: Registry, labels: Rows<string>, walls: Rows<nat>, p: Principal, s: Option<nat>, key: string, e: Ent)
  {
    (key, e) in labels && e in Held(d, p) && (s.None? || !Walled(walls, s.value) || (s.value, e) in walls)
  }

  ghost predicate Walled(walls: Rows<nat>, s: nat) {
    exists e :: (s, e) in walls
  }

  /** The wall of a stream is its rows, off `open`; outside a stream there is none. */
  lemma WallIsItsRows(d: Registry, walls: Rows<nat>, s: nat, e: Ent)
    ensures e in WallIds(d, walls, Some(s)) <==> !d.posture.Open? && (s, e) in walls
    ensures WallIds(d, walls, None) == {}
  {
    SidesAgree(walls, s, e);
  }

  /**
   Who may call a tool, read off the tables. On `open` everybody calls everything. Otherwise an
   unlabelled tool is everybody's, one that sees all content passes where there is no wall,
   and anybody else needs a label of the tool that they hold and the wall allows.
   */
  lemma MayCallIff(d: Registry, labels: Rows<string>, walls: Rows<nat>, p: Principal, s: Option<nat>, key: string)
    ensures d.posture.Open? ==> MayCall(d, labels, walls, p, s, key)
    ensures !d.posture.Open? ==>
      (MayCall(d, labels, walls, p, s, key) <==>
         || !Labelled(labels, key)
         || (SeesAll(d, p) && (s.None? || !Walled(walls, s.value)))
         || exists e :: Opens(d, labels, walls, p, s, key, e))
  {
    var wall, ids, held := WallIds(d, walls, s), IdsOf(labels, key), Held(d, p);
    forall e: Ent ensures e in ids <==> (key, e) in labels {
      SidesAgree(labels, key, e);
    }
    if s.Some? {
      forall e: Ent ensures e in wall <==> !d.posture.Open? && (s.value, e) in walls {
        WallIsItsRows(d, walls, s.value, e);
      }
    }
    assert ids == {} <==> !Labelled(labels, key) by {
      if ids != {} {
        var e :| e in ids;
        assert (key, e) in labels;
      }
    }
    if !d.posture.Open? {
      assert wall == {} <==> s.None? || !Walled(walls, s.value) by {
        if wall != {} {
          var e :| e in wall;
          assert (s.value, e) in walls;
        }
      }
      var passing := ids * (if wall != {} then held * wall else held);
      assert forall e: Ent :: e in passing <==> Opens(d, labels, walls, p, s, key, e);
      if passing != {} {
        var e :| e in passing;
        assert Opens(d, labels, walls, p, s, key, e);
      }
    }
  }

  ghost predicate Labelled(labels: Rows<string>, key: string) {
    exists e :: (key, e) in labels
  }

  /** A wall takes away and never gives, whoever is looking. */
  lemma WallOnlyNarrows(d: Registry, labels: Rows<string>, p: Principal, wall: set<Ent>, key: string)
    ensures Allows(AccessFor(d, labels, p, wall), key) ==> Allows(AccessFor(d, labels, p, {}), key)
    ensures wall != {} ==>
      (Allows(AccessFor(d, labels, p, wall), key)
       <==> IdsOf(labels, key) == {} || IdsOf(labels, key) * Held(d, p) * wall != {})
  {
    var ids, held := IdsOf(labels, key), Held(d, p);
    assert ids * held * wall == ids * (held * wall);
    if ids * (held * wall) != {} {
      var e :| e in ids * (held * wall);
      assert e in ids * held;
    }
  }

  /** The registry without one entitlement: its grants go with it. */
  function WithoutEntitlement(d: Registry, e: Ent): Registry {
    d.(names := d.names - {e}, grants := map g | g in d.grants && g.0 != e :: d.grants[g])
  }

  lemma HeldWithout(d: Registry, p: Principal, e: Ent)
    ensures Held(WithoutEntitlement(d, e), p) == Held(d, p) - {e}
    ensures SeesAll(WithoutEntitlement(d, e), p) == SeesAll(d, p)
  {
    var d1 := WithoutEntitlement(d, e);
    assert forall s :: Reaches(d1, s, p) == Reaches(d, s, p);
    forall x ensures x in Held(d1, p) <==> x in Held(d, p) && x != e {
      HeldIsUnionOfSubjects(d1, p, x);
      HeldIsUnionOfSubjects(d, p, x);
      forall s ensures x in SubjectHolds(d1, s) <==> x in SubjectHolds(d, s) && x != e {
        if x in SubjectHolds(d, s) && x != e {
          assert (x, s) in d.grants;
          assert (x, s) in d1.grants;
        }
      }
    }
  }

  /**
   Deleting an entitlement can open a tool to a caller it was closed to, in exactly two ways:
   it was the tool's only label, or it was the whole wall and the caller passes without one.
   */
  lemma DeletionOpensIff(d: Registry, labels: Rows<string>, walls: Rows<nat>, p: Principal, s: Option<nat>,
                         key: string, e: Ent)
    requires !MayCall(d, labels, walls, p, s, key)
    ensures MayCall(WithoutEntitlement(d, e), Without(labels, e), Without(walls, e), p, s, key)
      <==> || IdsOf(labels, key) == {e}
           || (WallIds(d, walls, s) == {e} && (SeesAll(d, p) || IdsOf(labels, key) * Held(d, p) - {e} != {}))
  {
    var d1 := WithoutEntitlement(d, e);
    HeldWithout(d, p, e);
    WithoutMeaning(labels, e, key);
    var wall, wall1 := WallIds(d, walls, s), WallIds(d1, Without(walls, e), s);
    if s.Some? {
      WithoutMeaning(walls, e, s.value);
    }
    assert wall1 == wall - {e};
    var ids, held := IdsOf(labels, key), Held(d, p);
    assert ids != {};
    assert ids - {e} == {} <==> ids == {e};
    if wall != {} && wall1 != {} {
      assert ids * (held * wall) == {};
      assert (ids - {e}) * ((held - {e}) * wall1) <= ids * (held * wall);
      assert wall != {e};
    } else if wall == {} {
      assert ids * held == {};
      assert (ids - {e}) * (held - {e}) <= ids * held;
    } else {
      assert wall == {e};
      assert (ids - {e}) * (held - {e}) == ids * held - {e};
    }
  }
}

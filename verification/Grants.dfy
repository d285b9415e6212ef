/**
 Grants, groups and delegation: who may hand an entitlement on, what one write changes in
 what people hold, and how far a set of people can get by delegating.
 */
module Grants {
  import opened Common
  import opened Names
  import opened Directory
  import Workspaces

  datatype Action =
    | Grant(e: Ent, user: Option<nat>, group: Option<nat>, role: Role)
    | SetRole(e: Ent, subject: Subject, role: Role)
    | Revoke(e: Ent, subject: Subject)
    | AddMember(team: nat, pk: nat)
    | RemoveMember(team: nat, pk: nat)
    | DeleteGroup(team: nat)

  datatype Refusal = NotYours | NotExactlyOne | HeldAlready | AdministratorsOnly

  predicate MayAdminister(d: Registry, p: Principal, e: Ent) {
    IsAdmin(d, p) || e in OwnedEntitlements(d, p)
  }

  /** A group takes its memberships and its grants with it. */
  function WithoutGroup(d: Registry, group: nat): Registry {
    d.(members := (set m | m in d.members && m.0 != group),
       grants := map g | g in d.grants && g.1 != Group(group) :: d.grants[g])
  }

  /** One service call; the row handed to SetRole and Revoke has to exist. */
  function Step(d: Registry, actor: Principal, a: Action): Result<Registry, Refusal>
    requires a.SetRole? || a.Revoke? ==> (a.e, a.subject) in d.grants
  {
    match a
    case Grant(e, user, group, role) =>
      if !MayAdminister(d, actor, e) then Err(NotYours)
      else if user.Some? == group.Some? then Err(NotExactlyOne)
      else
        var subject := SubjectOf(user, group);
        if (e, subject) in d.grants then Err(HeldAlready)
        else Ok(d.(grants := d.grants[(e, subject) := role]))
    case SetRole(e, subject, role) =>
      if !MayAdminister(d, actor, e) then Err(NotYours) else Ok(d.(grants := d.grants[(e, subject) := role]))
    case Revoke(e, subject) =>
      if !MayAdminister(d, actor, e) then Err(NotYours) else Ok(d.(grants := d.grants - {(e, subject)}))
    case AddMember(group, pk) =>
      if !IsAdmin(d, actor) then Err(AdministratorsOnly) else Ok(d.(members := d.members + {(group, pk)}))
    case RemoveMember(group, pk) =>
      if !IsAdmin(d, actor) then Err(AdministratorsOnly) else Ok(d.(members := d.members - {(group, pk)}))
    case DeleteGroup(group) =>
      if !IsAdmin(d, actor) then Err(AdministratorsOnly) else Ok(WithoutGroup(d, group))
  }

  /** The one a grant names; only asked when exactly one is given. */
  function SubjectOf(user: Option<nat>, group: Option<nat>): Subject {
    if user.Some? then User(user.value) else if group.Some? then Group(group.value) else Group(0)
  }

  predicate Possible(d: Registry, a: Action) {
    a.SetRole? || a.Revoke? ==> (a.e, a.subject) in d.grants
  }

  /** When a call goes through, and what it answers when it does not: standing is asked first. */
  lemma StepAnswers(d: Registry, actor: Principal, a: Action)
    requires Possible(d, a)
    ensures a.AddMember? || a.RemoveMember? || a.DeleteGroup? ==>
      && (Step(d, actor, a).Ok? <==> IsAdmin(d, actor))
      && (Step(d, actor, a).Err? ==> Step(d, actor, a).error == AdministratorsOnly)
    ensures a.Grant? || a.SetRole? || a.Revoke? ==>
      (Step(d, actor, a) == Err(NotYours) <==> !IsAdmin(d, actor) && a.e !in OwnedEntitlements(d, actor))
    ensures (a.SetRole? || a.Revoke?) && Step(d, actor, a).Err? ==> Step(d, actor, a).error == NotYours
    ensures a.Grant? && (IsAdmin(d, actor) || a.e in OwnedEntitlements(d, actor)) ==>
      match (a.user, a.group)
      case (Some(u), None) => Step(d, actor, a).Ok? <==> (a.e, User(u)) !in d.grants
      case (None, Some(g)) => Step(d, actor, a).Ok? <==> (a.e, Group(g)) !in d.grants
      case _ => Step(d, actor, a) == Err(NotExactlyOne)
  {
  }

  /** A call writes its own row and no other: no account, name or setting, and of the two tables only that place. */
  lemma StepWrites(d: Registry, actor: Principal, a: Action, row: (Ent, Subject), member: (nat, nat))
    requires Possible(d, a) && Step(d, actor, a).Ok? && !a.DeleteGroup?
    ensures var d1 := Step(d, actor, a).value;
      && d1.(members := d.members, grants := d.grants) == d
      && (member in d1.members <==>
            if a == AddMember(member.0, member.1) then true
            else member in d.members && a != RemoveMember(member.0, member.1))
      && (match a
          case Grant(e, user, group, role) =>
            if row.0 == e && (if row.1.User? then user == Some(row.1.pk) else group == Some(row.1.pk))
            then row in d1.grants && d1.grants[row] == role else SameGrant(d, d1, row)
          case SetRole(e, subject, role) =>
            if row == (e, subject) then row in d1.grants && d1.grants[row] == role else SameGrant(d, d1, row)
          case Revoke(e, subject) => if row == (e, subject) then row !in d1.grants else SameGrant(d, d1, row)
          case _ => SameGrant(d, d1, row))
  {
  }

  ghost predicate SameGrant(d: Registry, d1: Registry, row: (Ent, Subject)) {
    (row in d1.grants <==> row in d.grants) && (row in d.grants ==> d1.grants[row] == d.grants[row])
  }

  /** Joining a group brings the group's grants, to the new member and to nobody else. */
  lemma JoiningGives(d: Registry, actor: Principal, team: nat, pk: nat, p: Principal, e: Ent)
    requires Step(d, actor, AddMember(team, pk)).Ok?
    ensures var d1 := Step(d, actor, AddMember(team, pk)).value;
      e in Held(d1, p) <==>
        e in Held(d, p) || (UserPk(p) == Some(pk) && e in SubjectHolds(d, Group(team)))
  {
    var d1 := Step(d, actor, AddMember(team, pk)).value;
    assert d1.members == d.members + {(team, pk)};
    HeldIsUnionOfSubjects(d, p, e);
    HeldIsUnionOfSubjects(d1, p, e);
    forall s ensures SubjectHolds(d1, s) == SubjectHolds(d, s) {
    }
    forall s ensures Reaches(d1, s, p) <==> Reaches(d, s, p) || (s == Group(team) && UserPk(p) == Some(pk)) {
    }
  }

  /** Leaving one takes exactly what no other subject brings. */
  lemma LeavingTakes(d: Registry, actor: Principal, team: nat, pk: nat, p: Principal, e: Ent)
    requires Step(d, actor, RemoveMember(team, pk)).Ok?
    ensures var d1 := Step(d, actor, RemoveMember(team, pk)).value;
      e in Held(d1, p) <==>
        exists s :: Reaches(d, s, p) && e in SubjectHolds(d, s) && !(s == Group(team) && UserPk(p) == Some(pk))
  {
    var d1 := Step(d, actor, RemoveMember(team, pk)).value;
    assert d1.members == d.members - {(team, pk)};
    HeldIsUnionOfSubjects(d1, p, e);
    forall s ensures SubjectHolds(d1, s) == SubjectHolds(d, s) {
    }
    forall s ensures Reaches(d1, s, p) <==> Reaches(d, s, p) && !(s == Group(team) && UserPk(p) == Some(pk)) {
    }
  }

  /** A group that goes takes from everybody exactly what no other subject brings, and no row but its own. */
  lemma DroppingTakes(d: Registry, actor: Principal, team: nat, p: Principal, e: Ent)
    requires Step(d, actor, DeleteGroup(team)).Ok?
    ensures var d1 := Step(d, actor, DeleteGroup(team)).value;
      && (e in Held(d1, p) <==> exists s :: s != Group(team) && Reaches(d, s, p) && e in SubjectHolds(d, s))
      && (forall s | s != Group(team) :: SubjectHolds(d1, s) == SubjectHolds(d, s))
      && (forall s | s != Group(team) :: Reaches(d1, s, p) == Reaches(d, s, p))
      && SubjectHolds(d1, Group(team)) == {} && !Reaches(d1, Group(team), p)
  {
    var d1 := Step(d, actor, DeleteGroup(team)).value;
    HeldIsUnionOfSubjects(d1, p, e);
    forall s, x | s != Group(team) ensures x in SubjectHolds(d1, s) <==> x in SubjectHolds(d, s) {
      SubjectHoldsByRows(d1, s, x);
      SubjectHoldsByRows(d, s, x);
    }
    forall x ensures x !in SubjectHolds(d1, Group(team)) {
      SubjectHoldsByRows(d1, Group(team), x);
    }
    forall s ensures Reaches(d1, s, p) <==> Reaches(d, s, p) && s != Group(team) {
      ReachesExactly(d1, p, s.pk);
      ReachesExactly(d, p, s.pk);
    }
  }

  function Run(d: Registry, acts: seq<(Principal, Action)>): Registry
    decreases |acts|
  {
    if acts == [] then d
    else
      var (actor, a) := acts[0];
      var after := if Possible(d, a) then Step(d, actor, a) else Err(NotYours);
      Run(if after.Ok? then after.value else d, acts[1..])
  }

  // ----- what one write changes

  /** A new grant adds its entitlement to exactly the people its subject reaches. */
  lemma GrantGives(d: Registry, actor: Principal, a: Action, p: Principal)
    requires a.Grant? && Step(d, actor, a).Ok?
    ensures var d1 := Step(d, actor, a).value;
      Held(d1, p) == Held(d, p) + if AccountsOn(d) && Reaches(d, SubjectOf(a.user, a.group), p) then {a.e} else {}
  {
    var d1 := Step(d, actor, a).value;
    var subject := SubjectOf(a.user, a.group);
    forall s ensures Reaches(d1, s, p) == Reaches(d, s, p) {
    }
    forall e ensures e in Held(d1, p) <==> e in Held(d, p) || (AccountsOn(d) && Reaches(d, subject, p) && e == a.e) {
      HeldIsUnionOfSubjects(d1, p, e);
      HeldIsUnionOfSubjects(d, p, e);
      forall s
        ensures e in SubjectHolds(d1, s) <==> e in SubjectHolds(d, s) || (AccountsOn(d) && s == subject && e == a.e)
      {
        SubjectRow(d1, s, e);
        SubjectRow(d, s, e);
      }
    }
  }

  lemma SubjectRow(d: Registry, s: Subject, e: Ent)
    ensures e in SubjectHolds(d, s) <==> AccountsOn(d) && (e, s) in d.grants
  {
    if AccountsOn(d) && (e, s) in d.grants {
      assert (e, s).1 == s && (e, s).0 == e;
    }
  }

  /** A revoked entitlement is really gone for a person exactly when no other subject brings it. */
  lemma RevokeTakesIff(d: Registry, actor: Principal, a: Action, p: Principal, e: Ent)
    requires a.Revoke? && Possible(d, a) && Step(d, actor, a).Ok? && e in Held(d, p)
    ensures var d1 := Step(d, actor, a).value;
      e !in Held(d1, p) <==> e == a.e && forall s :: Reaches(d, s, p) && e in SubjectHolds(d, s) ==> s == a.subject
  {
    var d1 := Step(d, actor, a).value;
    HeldIsUnionOfSubjects(d1, p, e);
    HeldIsUnionOfSubjects(d, p, e);
    forall s ensures Reaches(d1, s, p) == Reaches(d, s, p) {
    }
    forall s ensures e in SubjectHolds(d1, s) <==> e in SubjectHolds(d, s) && !(s == a.subject && e == a.e) {
      SubjectRow(d1, s, e);
      SubjectRow(d, s, e);
    }
  }

  /** Changing a role changes who may hand the entitlement on, and nobody's access. */
  lemma RoleChangesNobodysAccess(d: Registry, actor: Principal, a: Action, p: Principal)
    requires a.SetRole? && Possible(d, a) && Step(d, actor, a).Ok?
    ensures Held(Step(d, actor, a).value, p) == Held(d, p)
  {
    var d1 := Step(d, actor, a).value;
    assert d1.grants.Keys == d.grants.Keys;
    forall e ensures e in Held(d1, p) <==> e in Held(d, p) {
      HeldIsUnionOfSubjects(d1, p, e);
      HeldIsUnionOfSubjects(d, p, e);
      forall s
        ensures Reaches(d1, s, p) == Reaches(d, s, p) && (e in SubjectHolds(d1, s) <==> e in SubjectHolds(d, s))
      {
        SubjectRow(d1, s, e);
        SubjectRow(d, s, e);
      }
    }
  }

  // ----- how far delegation goes

  /** Nobody acting administers the box or owns any of these entitlements. */
  ghost predicate Outsiders(d: Registry, actors: set<Principal>, those: set<Ent>) {
    forall p | p in actors :: !IsAdmin(d, p) && OwnedEntitlements(d, p) !! those
  }

  ghost predicate SameOn(d: Registry, d1: Registry, those: set<Ent>) {
    forall e, s :: e in those ==>
      ((e, s) in d1.grants <==> (e, s) in d.grants) && ((e, s) in d.grants ==> d1.grants[(e, s)] == d.grants[(e, s)])
  }

  lemma OwnedRow(d: Registry, p: Principal, e: Ent)
    ensures e in OwnedEntitlements(d, p) <==>
      AccountsOn(d) && exists s :: Reaches(d, s, p) && (e, s) in d.grants && d.grants[(e, s)] == Owner
  {
    if e in OwnedEntitlements(d, p) {
      var g :| g in d.grants && Reaches(d, g.1, p) && Some(Owner) == Some(d.grants[g]) && g.0 == e;
      assert (e, g.1) in d.grants;
    }
    if AccountsOn(d) && exists s :: Reaches(d, s, p) && (e, s) in d.grants && d.grants[(e, s)] == Owner {
      var s :| Reaches(d, s, p) && (e, s) in d.grants && d.grants[(e, s)] == Owner;
      assert (e, s).0 == e && Reaches(d, (e, s).1, p);
    }
  }

  lemma OutsiderStep(d: Registry, actors: set<Principal>, those: set<Ent>, actor: Principal, a: Action)
    requires Outsiders(d, actors, those) && actor in actors && Possible(d, a) && Step(d, actor, a).Ok?
    ensures var d1 := Step(d, actor, a).value;
      && SameOn(d, d1, those) && Outsiders(d1, actors, those)
      && d1.members == d.members && d1.users == d.users && d1.posture == d.posture
  {
    var d1 := Step(d, actor, a).value;
    assert a.e !in those;
    forall p | p in actors ensures !IsAdmin(d1, p) && OwnedEntitlements(d1, p) !! those {
      assert !IsAdmin(d, p);
      forall e | e in those ensures e !in OwnedEntitlements(d1, p) {
        assert e !in OwnedEntitlements(d, p);
        OwnedRow(d, p, e);
        OwnedRow(d1, p, e);
        assert forall s :: Reaches(d1, s, p) == Reaches(d, s, p);
      }
    }
  }

  /**
   However long people who are no administrators delegate to each other, the grants of an
   entitlement none of them owns stay as they were, and none of them comes to own it.
   */
  lemma {:induction false} DelegationIsConfined(
    d: Registry, actors: set<Principal>, those: set<Ent>, acts: seq<(Principal, Action)>)
    requires Outsiders(d, actors, those) && forall act | act in acts :: act.0 in actors
    ensures SameOn(d, Run(d, acts), those) && Outsiders(Run(d, acts), actors, those)
    ensures Run(d, acts).members == d.members && Run(d, acts).users == d.users && Run(d, acts).posture == d.posture
    decreases |acts|
  {
    if acts != [] {
      var (actor, a) := acts[0];
      assert acts[0] in acts;
      var after := if Possible(d, a) then Step(d, actor, a) else Err(NotYours);
      if after.Ok? {
        OutsiderStep(d, actors, those, actor, a);
        DelegationIsConfined(after.value, actors, those, acts[1..]);
      } else {
        DelegationIsConfined(d, actors, those, acts[1..]);
      }
    }
  }

  /** So nobody at all gains or loses access to them. */
  lemma ConfinedAccess(d: Registry, actors: set<Principal>, those: set<Ent>, acts: seq<(Principal, Action)>,
                       p: Principal)
    requires Outsiders(d, actors, those) && forall act | act in acts :: act.0 in actors
    ensures Held(Run(d, acts), p) * those == Held(d, p) * those
  {
    var d1 := Run(d, acts);
    DelegationIsConfined(d, actors, those, acts);
    forall e | e in those ensures e in Held(d1, p) <==> e in Held(d, p) {
      HeldIsUnionOfSubjects(d1, p, e);
      HeldIsUnionOfSubjects(d, p, e);
      forall s
        ensures Reaches(d1, s, p) == Reaches(d, s, p) && (e in SubjectHolds(d1, s) <==> e in SubjectHolds(d, s))
      {
        SubjectRow(d1, s, e);
        SubjectRow(d, s, e);
      }
    }
  }

  // ----- the services, writing their rows

  datatype Event =
    | GrantAdded(e: Ent, subject: Subject, role: Role)
    | RoleChanged(e: Ent, subject: Subject, was: Role, now: Role)
    | GrantRevoked(e: Ent, subject: Subject)
    | MemberAdded(team: nat, pk: nat)
    | MemberRemoved(team: nat, pk: nat)
    | GroupDeleted(team: nat)

  /** Either refused with nothing written, or exactly the step, told by one event if it changed anything. */
  ghost predicate Made(was: GrantState, actor: Principal, a: Action, r: Result<(), Refusal>, told: Event,
                       now: GrantState)
    requires Possible(was.dir, a)
  {
    match Step(was.dir, actor, a)
    case Err(why) => r == Err(why) && now == was
    case Ok(after) => r == Ok(()) && now == GrantState(after, if after == was.dir then was.log else was.log + [told])
  }

  datatype GrantState = GrantState(dir: Registry, log: seq<Event>)

  class GrantDesk {
    var dir: Registry
    var shares: map<Workspaces.ShareKey, Workspaces.Level>
    var log: seq<Event>

    constructor (dir: Registry)
      ensures this.dir == dir && shares == map[] && log == []
    {
      this.dir := dir;
      shares := map[];
      log := [];
    }

    function State(): GrantState
      reads this
    {
      GrantState(dir, log)
    }

    method GrantTo(actor: Principal, e: Ent, user: Option<nat>, group: Option<nat>, role: Role)
      returns (r: Result<(), Refusal>)
      modifies this`dir, this`log
      ensures Made(old(State()), actor, Grant(e, user, group, role), r,
                   GrantAdded(e, SubjectOf(user, group), role), State())
    {
      if !MayAdminister(dir, actor, e) {
        return Err(NotYours);
      }
      if user.Some? == group.Some? {
        return Err(NotExactlyOne);
      }
      var subject := SubjectOf(user, group);
      if (e, subject) in dir.grants {
        return Err(HeldAlready);
      }
      dir := dir.(grants := dir.grants[(e, subject) := role]);
      log := log + [GrantAdded(e, subject, role)];
      r := Ok(());
    }

    method SetGrantRole(actor: Principal, e: Ent, subject: Subject, role: Role) returns (r: Result<(), Refusal>)
      requires (e, subject) in dir.grants
      modifies this`dir, this`log
      ensures Made(old(State()), actor, SetRole(e, subject, role), r,
                   RoleChanged(e, subject, old(dir).grants[(e, subject)], role), State())
    {
      if !MayAdminister(dir, actor, e) {
        return Err(NotYours);
      }
      var was := dir.grants[(e, subject)];
      if was == role {
        assert dir.grants[(e, subject) := role] == dir.grants;
        return Ok(());
      }
      ghost var before := dir;
      dir := dir.(grants := dir.grants[(e, subject) := role]);
      assert dir.grants[(e, subject)] != before.grants[(e, subject)];
      log := log + [RoleChanged(e, subject, was, role)];
      r := Ok(());
    }

    method RevokeFrom(actor: Principal, e: Ent, subject: Subject) returns (r: Result<(), Refusal>)
      requires (e, subject) in dir.grants
      modifies this`dir, this`log
      ensures Made(old(State()), actor, Revoke(e, subject), r, GrantRevoked(e, subject), State())
    {
      if !MayAdminister(dir, actor, e) {
        return Err(NotYours);
      }
      dir := dir.(grants := dir.grants - {(e, subject)});
      log := log + [GrantRevoked(e, subject)];
      r := Ok(());
    }

    method AddGroupMember(actor: Principal, team: nat, pk: nat) returns (r: Result<(), Refusal>)
      modifies this`dir, this`log
      ensures Made(old(State()), actor, AddMember(team, pk), r, MemberAdded(team, pk), State())
    {
      if !IsAdmin(dir, actor) {
        return Err(AdministratorsOnly);
      }
      if (team, pk) in dir.members {
        assert dir.members + {(team, pk)} == dir.members;
        return Ok(());
      }
      dir := dir.(members := dir.members + {(team, pk)});
      log := log + [MemberAdded(team, pk)];
      r := Ok(());
    }

    method RemoveGroupMember(actor: Principal, team: nat, pk: nat) returns (r: Result<(), Refusal>)
      modifies this`dir, this`log
      ensures Made(old(State()), actor, RemoveMember(team, pk), r, MemberRemoved(team, pk), State())
    {
      if !IsAdmin(dir, actor) {
        return Err(AdministratorsOnly);
      }
      if (team, pk) !in dir.members {
        assert dir.members - {(team, pk)} == dir.members;
        return Ok(());
      }
      dir := dir.(members := dir.members - {(team, pk)});
      log := log + [MemberRemoved(team, pk)];
      r := Ok(());
    }

    /** A group takes its shares along too; it may have no row at all, and its deletion is told all the same. */
    method DropGroup(actor: Principal, team: nat) returns (r: Result<(), Refusal>)
      modifies this
      ensures shares == if r.Ok? then map k | k in old(shares) && k.2 != Group(team) :: old(shares)[k] else old(shares)
      ensures r == if IsAdmin(old(dir), actor) then Ok(()) else Err(AdministratorsOnly)
      ensures dir == if r.Ok? then WithoutGroup(old(dir), team) else old(dir)
      ensures log == old(log) + if r.Ok? then [GroupDeleted(team)] else []
    {
      if !IsAdmin(dir, actor) {
        return Err(AdministratorsOnly);
      }
      dir := WithoutGroup(dir, team);
      shares := map k | k in shares && k.2 != Group(team) :: shares[k];
      log := log + [GroupDeleted(team)];
      r := Ok(());
    }
  }
}

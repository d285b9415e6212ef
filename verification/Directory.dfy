/**
 Principals, accounts, groups and entitlement grants: the questions the identity column
 answers for every other one.
 */
module Directory {
  import opened Common
  import opened Digits
  import opened LastAdmin
  import opened Names

  datatype Kind = OpenKind | UserKind | ServiceKind | AnonymousKind | ResidentAgentKind | UserAgentKind

  datatype Principal = Principal(kind: Kind, key: string)

  /** A user XOR a group. */
  datatype Subject = User(pk: nat) | Group(pk: nat)

  datatype Role = Member | Owner

  /**
   grants is keyed by (entitlement, subject): the role is a column, never a second row.
   collate is the order the database sorts names in.
   */
  datatype Registry = Registry(
    posture: Posture,
    adminSees: bool,
    users: map<Pk, Account>,
    members: set<(nat, Pk)>,
    names: map<Ent, string>,
    grants: map<(Ent, Subject), Role>,
    collate: Order)

  datatype OwnerStamp = OwnerStamp(kind: Kind, key: string)

  predicate AccountsOn(d: Registry) {
    d.posture != Open
  }

  /** The primary key a user principal names; a key that is not decimal names nobody. */
  function UserPk(p: Principal): Option<Pk> {
    if p.kind == UserKind && IsDecimal(p.key) then Some(ParseNat(p.key)) else None
  }

  function UserRow(d: Registry, p: Principal): Option<Account> {
    match UserPk(p)
    case Some(pk) => if pk in d.users && d.users[pk].active then Some(d.users[pk]) else None
    case None => None
  }

  predicate IsAdmin(d: Registry, p: Principal) {
    !AccountsOn(d) || (UserRow(d, p).Some? && UserRow(d, p).value.superuser)
  }

  predicate SeesAll(d: Registry, p: Principal) {
    !AccountsOn(d) || (IsAdmin(d, p) && d.adminSees)
  }

  /** The filter `owned_rows_q` puts on a queryset. */
  predicate InOwnedRows(d: Registry, p: Principal, row: OwnerStamp) {
    (row.kind == p.kind && row.key == p.key) || (row.kind == ServiceKind && IsAdmin(d, p))
  }

  /** `may_read_owned_row`, for one loaded row. */
  predicate MayReadOwned(d: Registry, p: Principal, row: OwnerStamp) {
    if row.kind == ServiceKind then IsAdmin(d, p) else row.kind == p.kind && row.key == p.key
  }

  /** Whether a row naming this subject, a share or a grant, is joined to this principal. */
  predicate Reaches(d: Registry, s: Subject, p: Principal) {
    match UserPk(p)
    case None => false
    case Some(pk) => s == User(pk) || (s.Group? && (s.pk, pk) in d.members)
  }

  /** `_grant_ids`: directly or through one of their groups, optionally narrowed to a role. */
  function GrantIds(d: Registry, p: Principal, role: Option<Role>): set<Ent> {
    set g | g in d.grants && Reaches(d, g.1, p) && (role == None || role == Some(d.grants[g])) :: g.0
  }

  function Held(d: Registry, p: Principal): set<Ent> {
    if AccountsOn(d) then GrantIds(d, p, None) else {}
  }

  function OwnedEntitlements(d: Registry, p: Principal): set<Ent> {
    if AccountsOn(d) then GrantIds(d, p, Some(Owner)) else {}
  }

  /** `entitlement_ids_for_subject`: the subject's own rows, never its members'. */
  function SubjectHolds(d: Registry, s: Subject): set<Ent> {
    if AccountsOn(d) then set g | g in d.grants && g.1 == s :: g.0 else {}
  }

  /** Grants name entitlements that exist, names are distinct, and the database orders them. */
  ghost predicate RegistryOk(d: Registry) {
    && DistinctNames(d.names)
    && TotalOrder(d.collate)
    && forall g | g in d.grants :: g.0 in d.names
  }

  // ----- what the two forms of one question agree on

  /**
   The queryset form admits everything the row form does, and exactly one thing more: a
   service principal's own service row, asked by somebody who is no administrator.
   */
  lemma OwnedFormsDiffer(d: Registry, p: Principal, row: OwnerStamp)
    ensures MayReadOwned(d, p, row) ==> InOwnedRows(d, p, row)
    ensures InOwnedRows(d, p, row) && !MayReadOwned(d, p, row)
            <==> row == OwnerStamp(p.kind, p.key) && p.kind == ServiceKind && !IsAdmin(d, p)
  {
  }

  /** Whoever a subject reaches holds at least what the subject itself holds. */
  lemma SubjectGrantsReach(d: Registry, s: Subject, p: Principal)
    requires Reaches(d, s, p)
    ensures SubjectHolds(d, s) <= Held(d, p)
  {
    forall e | e in SubjectHolds(d, s) ensures e in Held(d, p) {
      assert (e, s) in d.grants && Reaches(d, (e, s).1, p);
    }
  }

  /** What a principal holds is exactly what the subjects reaching it hold. */
  lemma HeldIsUnionOfSubjects(d: Registry, p: Principal, e: Ent)
    ensures e in Held(d, p) <==> exists s :: Reaches(d, s, p) && e in SubjectHolds(d, s)
  {
    if e in Held(d, p) {
      var g :| g in d.grants && Reaches(d, g.1, p) && g.0 == e;
      assert e in SubjectHolds(d, g.1);
    }
    if s :| Reaches(d, s, p) && e in SubjectHolds(d, s) {
      SubjectGrantsReach(d, s, p);
    }
  }

  // ----- the same questions, asked of the rows themselves

  /** Only a user principal names an account, by the number its key prints. */
  lemma KeysNameAccounts(p: Principal, pk: nat)
    ensures UserPk(Principal(UserKind, NatToString(pk))) == Some(pk)
    ensures p.kind != UserKind ==> UserPk(p) == None
    ensures UserPk(p).Some? <==> p.kind == UserKind && IsDecimal(p.key)
  {
    ParsePrint(pk);
  }

  /** A row naming an account is that account's alone; one naming a group, exactly its members'. */
  lemma ReachesExactly(d: Registry, p: Principal, k: nat)
    ensures Reaches(d, User(k), p) <==> UserPk(p) == Some(k)
    ensures Reaches(d, Group(k), p) <==> UserPk(p).Some? && (k, UserPk(p).value) in d.members
  {
  }

  /** A grant row of e, in one of these roles, names the account or a group it is a member of. */
  ghost predicate GrantedTo(d: Registry, pk: nat, e: Ent, roles: set<Role>) {
    || ((e, User(pk)) in d.grants && d.grants[(e, User(pk))] in roles)
    || exists g :: (g, pk) in d.members && (e, Group(g)) in d.grants && d.grants[(e, Group(g))] in roles
  }

  /** Off `open`, e is held, or owned, exactly by a row of the grants table; on `open` nothing is. */
  lemma HeldByRows(d: Registry, p: Principal, e: Ent)
    ensures e in Held(d, p) <==>
      d.posture != Open && UserPk(p).Some? && GrantedTo(d, UserPk(p).value, e, {Member, Owner})
    ensures e in OwnedEntitlements(d, p) <==>
      d.posture != Open && UserPk(p).Some? && GrantedTo(d, UserPk(p).value, e, {Owner})
    ensures OwnedEntitlements(d, p) <= Held(d, p)
  {
    if UserPk(p).Some? {
      var pk := UserPk(p).value;
      RowsOfRole(d, p, e, None, {Member, Owner});
      RowsOfRole(d, p, e, Some(Owner), {Owner});
    }
  }

  lemma RowsOfRole(d: Registry, p: Principal, e: Ent, role: Option<Role>, roles: set<Role>)
    requires UserPk(p).Some?
    requires roles == if role == None then {Member, Owner} else {role.value}
    ensures e in GrantIds(d, p, role) <==> GrantedTo(d, UserPk(p).value, e, roles)
  {
    var pk := UserPk(p).value;
    if e in GrantIds(d, p, role) {
      var g :| g in d.grants && Reaches(d, g.1, p) && (role == None || role == Some(d.grants[g])) && g.0 == e;
      ReachesExactly(d, p, g.1.pk);
      assert g == (e, g.1) && (d.grants[g].Member? || d.grants[g].Owner?);
      assert g.1 == User(pk) || (g.1 == Group(g.1.pk) && (g.1.pk, pk) in d.members);
      assert GrantedTo(d, pk, e, roles);
    }
    if (e, User(pk)) in d.grants && d.grants[(e, User(pk))] in roles {
      ReachesExactly(d, p, pk);
      assert Reaches(d, (e, User(pk)).1, p);
    }
    if g :| (g, pk) in d.members && (e, Group(g)) in d.grants && d.grants[(e, Group(g))] in roles {
      ReachesExactly(d, p, g);
      var row := (e, Group(g));
      assert row in d.grants && Reaches(d, row.1, p) && (role == None || role == Some(d.grants[row]));
    }
  }

  /** What a subject holds is its own rows, in whatever role. */
  lemma SubjectHoldsByRows(d: Registry, s: Subject, e: Ent)
    ensures e in SubjectHolds(d, s) <==> d.posture != Open && (e, s) in d.grants
  {
    if (e, s) in d.grants {
      assert (e, s).1 == s && (e, s).0 == e;
    }
  }
}

/**
 The account and posture services as they write their rows, one call after the other, with
 the audit row of each write in the same transaction.
 */
module Accounts {
  import opened Common
  import opened Digits
  import opened LastAdmin
  import opened Names
  import Runs
  import opened Directory

  datatype Library = LibraryOpen | LibraryLocked

  datatype Event =
    | UserCreated(pk: Pk, superuser: bool)
    | SuperuserGranted(pk: Pk)
    | SuperuserRevoked(pk: Pk)
    | UserDeactivated(pk: Pk)
    | UserReactivated(pk: Pk)
    | PostureChanged(to: Posture)
    | LibraryChanged(library: Library)
    | AdminContentChanged(sees: bool)

  datatype PostureRow = PostureRow(posture: Posture, library: Library, adminSees: bool, idleMinutes: nat)

  /** A form field: left out, a value the platform knows, or something else. */
  datatype Field<T> = Absent | Given(value: T) | Unknown

  datatype Refusal =
    | NameTaken | LastAdministrator | UnknownLibrary | UnknownPosture
    | NoAdministrator | DebugOn | DevelopmentKey | NotMinutes

  /** What the trail says about accounts and about the audited half of the posture row. */
  datatype Told = Told(accounts: map<Pk, Account>, posture: Posture, library: Library, adminSees: bool)

  const FACTORY := PostureRow(Open, LibraryOpen, false, 720)

  function Alter(t: Told, pk: Pk, op: Op): Told {
    if pk in t.accounts then t.(accounts := t.accounts[pk := After(op, t.accounts[pk])]) else t
  }

  function Apply(t: Told, ev: Event): Told {
    match ev
    case UserCreated(pk, superuser) => t.(accounts := t.accounts[pk := Account(true, superuser)])
    case SuperuserGranted(pk) => Alter(t, pk, Promote)
    case SuperuserRevoked(pk) => Alter(t, pk, Demote)
    case UserDeactivated(pk) => Alter(t, pk, Deactivate)
    case UserReactivated(pk) => Alter(t, pk, Reactivate)
    case PostureChanged(to) => t.(posture := to)
    case LibraryChanged(library) => t.(library := library)
    case AdminContentChanged(sees) => t.(adminSees := sees)
  }

  function Replay(log: seq<Event>): Told {
    if log == [] then Told(map[], FACTORY.posture, FACTORY.library, FACTORY.adminSees)
    else Apply(Replay(log[..|log| - 1]), log[|log| - 1])
  }

  lemma ReplayOne(log: seq<Event>, ev: Event)
    ensures Replay(log + [ev]) == Apply(Replay(log), ev)
  {
    assert (log + [ev])[..|log|] == log;
  }

  function AdminPks(accounts: map<Pk, Account>): set<Pk> {
    set pk | pk in accounts && LastAdmin.IsAdmin(accounts[pk])
  }

  /**
   Off `open`, an administrator is a signed-in account that the last-admin guard counts as one:
   no other kind of principal is, and none of theirs sees other people's content unless the
   setting says so. On `open` everybody is.
   */
  lemma AdministratorsAreTheGuarded(d: Registry, p: Principal)
    ensures Directory.IsAdmin(d, p) <==>
      d.posture == Open || (p.kind == UserKind && IsDecimal(p.key) && ParseNat(p.key) in AdminPks(d.users))
    ensures SeesAll(d, p) <==> d.posture == Open || (Directory.IsAdmin(d, p) && d.adminSees)
    ensures d.posture != Open && p.kind != UserKind ==> !Directory.IsAdmin(d, p) && !SeesAll(d, p)
  {
  }

  /** What counts as an administrator, by what each account write does to it. */
  lemma WhoCounts(a: Account)
    ensures LastAdmin.IsAdmin(After(Promote, a)) <==> a.active
    ensures LastAdmin.IsAdmin(After(Reactivate, a)) <==> a.superuser
    ensures !LastAdmin.IsAdmin(After(Demote, a)) && !LastAdmin.IsAdmin(After(Deactivate, a))
    ensures LastAdmin.IsAdmin(a) <==> AlreadySo(Promote, a) && AlreadySo(Reactivate, a)
    ensures forall op :: AlreadySo(op, After(op, a)) && (AlreadySo(op, a) <==> After(op, a) == a)
  {
  }

  /** Taking this away from pk would leave nobody: what the guard compares. */
  predicate LeavesNobody(accounts: map<Pk, Account>, pk: Pk) {
    AdminPks(accounts) == {pk}
  }

  function OpEvent(op: Op, pk: Pk): Event {
    match op
    case Promote => SuperuserGranted(pk)
    case Demote => SuperuserRevoked(pk)
    case Deactivate => UserDeactivated(pk)
    case Reactivate => UserReactivated(pk)
  }

  // ----- the posture row

  /** The three conditions of a switch away from `open`, in the order they are checked. */
  function SwitchRefusal(anyAdmin: bool, debug: bool, devKey: bool): Option<Refusal> {
    if !anyAdmin then Some(NoAdministrator)
    else if debug then Some(DebugOn)
    else if devKey then Some(DevelopmentKey)
    else None
  }

  datatype PostureForm = PostureForm(
    posture: Field<Posture>, library: Field<Library>, adminSees: Option<bool>, idleMinutes: Field<int>)

  function FormRefusal(row: PostureRow, f: PostureForm, anyAdmin: bool, debug: bool, devKey: bool): Option<Refusal> {
    if f.library.Unknown? then Some(UnknownLibrary)
    else if f.posture.Unknown? then Some(UnknownPosture)
    else if f.posture.Given? && f.posture.value != row.posture && f.posture.value != Open
            && SwitchRefusal(anyAdmin, debug, devKey).Some? then SwitchRefusal(anyAdmin, debug, devKey)
    else if f.idleMinutes.Unknown? then Some(NotMinutes)
    else None
  }

  function CountsOwned(owned: map<string, multiset<OwnerStamp>>, pk: Pk): map<string, nat> {
    map table | table in owned :: owned[table][OwnerStamp(UserKind, NatToString(pk))]
  }

  /**
   Every registered table has its count. It starts at nothing and goes up by one with each row
   that the account itself may read as its owner, and with no other row, in no other table.
   */
  lemma CountsOwnedRows(owned: map<string, multiset<OwnerStamp>>, pk: Pk, table: string, row: OwnerStamp, d: Registry)
    requires table in owned
    ensures CountsOwned(owned, pk).Keys == owned.Keys
    ensures owned[table] == multiset{} ==> CountsOwned(owned, pk)[table] == 0
    ensures var more := owned[table := owned[table] + multiset{row}];
      && CountsOwned(more, pk)[table] == CountsOwned(owned, pk)[table]
         + (if row.kind != ServiceKind && MayReadOwned(d, Principal(UserKind, NatToString(pk)), row) then 1 else 0)
      && forall other | other in owned && other != table ::
           CountsOwned(more, pk)[other] == CountsOwned(owned, pk)[other]
  {
  }

  class Desk {
    var names: map<Pk, string>
    var accounts: map<Pk, Account>
    var grants: map<(Ent, Subject), Role>
    var owned: map<string, multiset<OwnerStamp>>
    var row: PostureRow
    var log: seq<Event>

    /** The trail replayed gives the accounts and the audited columns back. */
    ghost predicate Explained()
      reads this
    {
      Replay(log) == Told(accounts, row.posture, row.library, row.adminSees)
    }

    /** Nobody is locked out, and no lock sits where no page can lift it. */
    ghost predicate Sound()
      reads this
    {
      && (row.posture != Open ==> AdminPks(accounts) != {})
      && (row.posture == Personal ==> row.library == LibraryOpen)
    }

    constructor ()
      ensures Explained() && Sound() && accounts == map[] && grants == map[] && owned == map[]
      ensures row == PostureRow(Open, LibraryOpen, false, 720)
    {
      names, accounts, grants, owned, log := map[], map[], map[], map[], [];
      row := FACTORY;
    }

    /** pk is the key the insert draws; the name is unique. */
    method CreateUser(pk: Pk, name: string, superuser: bool) returns (r: Result<(), Refusal>)
      requires pk !in accounts
      modifies this
      ensures r == if name in old(names).Values then Err(NameTaken) else Ok(())
      ensures r.Err? ==> unchanged(this)
      ensures r.Ok? ==> accounts == old(accounts)[pk := Account(true, superuser)]
                        && names == old(names)[pk := name] && log == old(log) + [UserCreated(pk, superuser)]
      ensures grants == old(grants) && owned == old(owned) && row == old(row)
      ensures old(Explained()) ==> Explained()
      ensures old(Sound()) ==> Sound()
      ensures AdminPks(old(accounts)) <= AdminPks(accounts)
    {
      if name in names.Values {
        return Err(NameTaken);
      }
      ReplayOne(log, UserCreated(pk, superuser));
      accounts := accounts[pk := Account(true, superuser)];
      names := names[pk := name];
      log := log + [UserCreated(pk, superuser)];
      r := Ok(());
    }

    /** The tail all four account writers share: the guard, the UPDATE, the audit row. */
    method Write(op: Op, pk: Pk) returns (r: Result<(), Refusal>)
      requires pk in accounts && !AlreadySo(op, accounts[pk])
      modifies this`accounts, this`log
      ensures r == if Removes(op) && LeavesNobody(old(accounts), pk) then Err(LastAdministrator) else Ok(())
      ensures r.Err? ==> accounts == old(accounts) && log == old(log)
      ensures r.Ok? ==> accounts == old(accounts)[pk := After(op, old(accounts)[pk])]
                        && log == old(log) + [OpEvent(op, pk)]
      ensures old(Explained()) ==> Explained()
      ensures AdminPks(old(accounts)) != {} ==> AdminPks(accounts) != {}
    {
      if Removes(op) && LeavesNobody(accounts, pk) {
        return Err(LastAdministrator);
      }
      if AdminPks(accounts) != {} {
        WriteKeepsSomebody(accounts, op, pk);
      }
      OpEventTells(log, op, pk);
      accounts := accounts[pk := After(op, accounts[pk])];
      log := log + [OpEvent(op, pk)];
      r := Ok(());
    }

    method SetSuperuser(pk: Pk, value: bool) returns (r: Result<(), Refusal>)
      requires pk in accounts
      modifies this`accounts, this`log
      ensures r == if !value && old(accounts)[pk].superuser && LeavesNobody(old(accounts), pk)
                   then Err(LastAdministrator) else Ok(())
      ensures r.Err? || old(accounts)[pk].superuser == value ==> accounts == old(accounts) && log == old(log)
      ensures r.Ok? ==> accounts == old(accounts)[pk := old(accounts)[pk].(superuser := value)]
      ensures r.Ok? && old(accounts)[pk].superuser != value ==>
        log == old(log) + [if value then SuperuserGranted(pk) else SuperuserRevoked(pk)]
      ensures old(Explained()) ==> Explained()
      ensures old(Sound()) ==> Sound()
    {
      if accounts[pk].superuser == value {
        assert accounts[pk].(superuser := value) == accounts[pk];
        assert accounts[pk := accounts[pk]] == accounts;
        return Ok(());
      }
      r := Write(if value then Promote else Demote, pk);
    }

    /** `owned_row_counts`: for each registered table, the rows the account owns. */
    function OwnedRowCounts(pk: Pk): map<string, nat>
      reads this
    {
      CountsOwned(owned, pk)
    }

    /**
     Drops the account's own grants; a grant held through a group is the group's. Owned rows
     stay where they are, and their counts come back.
     */
    method DeactivateUser(pk: Pk) returns (r: Result<map<string, nat>, Refusal>)
      requires pk in accounts
      modifies this`accounts, this`grants, this`log
      ensures r == if old(accounts)[pk].active && LeavesNobody(old(accounts), pk)
                   then Err(LastAdministrator) else Ok(OwnedRowCounts(pk))
      ensures r.Err? || !old(accounts)[pk].active ==>
        accounts == old(accounts) && grants == old(grants) && log == old(log)
      ensures r.Ok? && old(accounts)[pk].active ==>
        && accounts == old(accounts)[pk := old(accounts)[pk].(active := false)]
        && log == old(log) + [UserDeactivated(pk)]
        && grants == map g | g in old(grants) && g.1 != User(pk) :: old(grants)[g]
      ensures old(Explained()) ==> Explained()
      ensures old(Sound()) ==> Sound()
    {
      if !accounts[pk].active {
        return Ok(OwnedRowCounts(pk));
      }
      var written := Write(Deactivate, pk);
      if written.Err? {
        return Err(written.error);
      }
      grants := map g | g in grants && g.1 != User(pk) :: grants[g];
      r := Ok(OwnedRowCounts(pk));
    }

    method ReactivateUser(pk: Pk)
      requires pk in accounts
      modifies this`accounts, this`log
      ensures accounts == old(accounts)[pk := old(accounts)[pk].(active := true)]
      ensures log == old(log) + if old(accounts)[pk].active then [] else [UserReactivated(pk)]
      ensures old(Explained()) ==> Explained()
      ensures old(Sound()) ==> Sound()
    {
      if accounts[pk].active {
        assert accounts[pk := accounts[pk].(active := true)] == accounts;
        return;
      }
      var r := Write(Reactivate, pk);
    }

    /** One audit event per audited column that changes; `personal` resets the library posture. */
    method SetPosture(f: PostureForm, debug: bool, devKey: bool) returns (r: Result<(), Refusal>)
      modifies this`row, this`log
      ensures var why := FormRefusal(old(row), f, AdminPks(accounts) != {}, debug, devKey);
        r == if why.Some? then Err(why.value) else Ok(())
      ensures f.library.Unknown? || f.posture.Unknown? || f.idleMinutes.Unknown? ==> r.Err?
      ensures !f.library.Unknown? && !f.idleMinutes.Unknown? ==>
        && (f.posture.Absent? || f.posture in {Given(Open), Given(old(row).posture)} ==> r == Ok(()))
        && (f.posture.Given? && f.posture !in {Given(Open), Given(old(row).posture)} ==>
              r == if AdminPks(accounts) == {} then Err(NoAdministrator) else if debug then Err(DebugOn)
                   else if devKey then Err(DevelopmentKey) else Ok(()))
      ensures r.Err? ==> row == old(row) && log == old(log)
      ensures r.Ok? ==> Asked(old(row), f, row) && log == old(log) + RowEvents(old(row), row)
      ensures r.Ok? && f.posture.Given? ==> row.posture == f.posture.value
      ensures r.Ok? && f.adminSees.Some? ==> row.adminSees == f.adminSees.value
      ensures r.Ok? && f.library.Given? && row.posture != Personal ==> row.library == f.library.value
      ensures r.Ok? && f.idleMinutes.Given? && f.idleMinutes.value >= 0 ==> row.idleMinutes == f.idleMinutes.value
      ensures f == PostureForm(Absent, Absent, None, Absent) && old(row).posture != Personal ==> row == old(row)
      ensures old(Explained()) ==> Explained()
      ensures old(Sound()) ==> Sound()
    {
      var plan := PlanRow(row, f, AdminPks(accounts) != {}, debug, devKey);
      if plan.Err? {
        return Err(plan.error);
      }
      var next, events := plan.value.0, plan.value.1;
      RowEventsTell(log, row, next);
      row := next;
      log := log + events;
      r := Ok(());
    }
  }

  /** What the form asks of the row: a column it leaves out stays, and `personal` means an open library. */
  predicate Asked(was: PostureRow, f: PostureForm, now: PostureRow) {
    && now.posture == (if f.posture.Given? then f.posture.value else was.posture)
    && now.library == (if now.posture == Personal then LibraryOpen
                       else if f.library.Given? then f.library.value else was.library)
    && now.adminSees == (if f.adminSees.Some? then f.adminSees.value else was.adminSees)
    && now.idleMinutes == (if !f.idleMinutes.Given? then was.idleMinutes
                           else if f.idleMinutes.value < 0 then 0 else f.idleMinutes.value)
  }

  /** Which forms go through: of those with known fields, by the posture asked alone. */
  lemma FormGoesThrough(row: PostureRow, f: PostureForm, anyAdmin: bool, debug: bool, devKey: bool)
    ensures f.library.Unknown? || f.posture.Unknown? || f.idleMinutes.Unknown? ==>
      FormRefusal(row, f, anyAdmin, debug, devKey).Some?
    ensures !f.library.Unknown? && !f.idleMinutes.Unknown? && !f.posture.Unknown? ==>
      (FormRefusal(row, f, anyAdmin, debug, devKey).None? <==>
         f.posture.Absent? || f.posture in {Given(Open), Given(row.posture)} || (anyAdmin && !debug && !devKey))
  {
  }

  /** The checks and column writes, on the instance in hand and before anything is saved. */
  method PlanRow(row: PostureRow, f: PostureForm, anyAdmin: bool, debug: bool, devKey: bool)
    returns (r: Result<(PostureRow, seq<Event>), Refusal>)
    ensures r.Err? <==> FormRefusal(row, f, anyAdmin, debug, devKey).Some?
    ensures r.Err? ==> FormRefusal(row, f, anyAdmin, debug, devKey) == Some(r.error)
    ensures r.Ok? ==> Asked(row, f, r.value.0) && r.value.1 == RowEvents(row, r.value.0)
    ensures f.library.Unknown? || f.posture.Unknown? || f.idleMinutes.Unknown? ==> r.Err?
    ensures !f.library.Unknown? && !f.idleMinutes.Unknown? && !f.posture.Unknown? ==>
      (r.Ok? <==> f.posture.Absent? || f.posture in {Given(Open), Given(row.posture)}
                  || (anyAdmin && !debug && !devKey))
  {
    FormGoesThrough(row, f, anyAdmin, debug, devKey);
    if f.library.Unknown? {
      return Err(UnknownLibrary);
    }
    var next, first := row, [];
    if !f.posture.Absent? && f.posture != Given(row.posture) {
      if f.posture.Unknown? {
        return Err(UnknownPosture);
      }
      if f.posture.value != Open && SwitchRefusal(anyAdmin, debug, devKey).Some? {
        return Err(SwitchRefusal(anyAdmin, debug, devKey).value);
      }
      first := [PostureChanged(f.posture.value)];
      next := next.(posture := f.posture.value);
    }
    var library, second := PlanLibrary(next, f);
    var sees, third := PlanContent(library, f);
    if f.idleMinutes.Unknown? {
      return Err(NotMinutes);
    }
    var idle := if f.idleMinutes.Given? then f.idleMinutes.value else sees.idleMinutes;
    next := sees.(idleMinutes := if idle < 0 then 0 else idle);
    assert first == PostureEvents(row, next);
    assert second == LibraryEvents(row, next) && third == ContentEvents(row, next);
    r := Ok((next, first + second + third));
  }

  method PlanLibrary(row: PostureRow, f: PostureForm) returns (next: PostureRow, events: seq<Event>)
    requires !f.library.Unknown?
    ensures next == row.(library := if row.posture == Personal then LibraryOpen
                                    else if f.library.Given? then f.library.value else row.library)
    ensures events == LibraryEvents(row, next)
  {
    next, events := row, [];
    if row.posture == Personal {
      if row.library != LibraryOpen {
        next := next.(library := LibraryOpen);
        events := [LibraryChanged(LibraryOpen)];
      }
    } else if f.library.Given? && f.library.value != row.library {
      next := next.(library := f.library.value);
      events := [LibraryChanged(f.library.value)];
    }
  }

  method PlanContent(row: PostureRow, f: PostureForm) returns (next: PostureRow, events: seq<Event>)
    ensures next == row.(adminSees := if f.adminSees.Some? then f.adminSees.value else row.adminSees)
    ensures events == ContentEvents(row, next)
  {
    next, events := row, [];
    if f.adminSees.Some? && f.adminSees.value != row.adminSees {
      next := next.(adminSees := f.adminSees.value);
      events := [AdminContentChanged(f.adminSees.value)];
    }
  }

  // The events that tell one row from another, in the order the service collects them.

  function PostureEvents(a: PostureRow, b: PostureRow): seq<Event> {
    if a.posture != b.posture then [PostureChanged(b.posture)] else []
  }

  function LibraryEvents(a: PostureRow, b: PostureRow): seq<Event> {
    if a.library != b.library then [LibraryChanged(b.library)] else []
  }

  function ContentEvents(a: PostureRow, b: PostureRow): seq<Event> {
    if a.adminSees != b.adminSees then [AdminContentChanged(b.adminSees)] else []
  }

  function RowEvents(a: PostureRow, b: PostureRow): seq<Event> {
    PostureEvents(a, b) + LibraryEvents(a, b) + ContentEvents(a, b)
  }

  /** What the events say of each column: nothing, unless it differs from the row that was read. */
  function ToldAfter(t: Told, a: PostureRow, b: PostureRow): Told {
    Told(t.accounts,
         if b.posture != a.posture then b.posture else t.posture,
         if b.library != a.library then b.library else t.library,
         if b.adminSees != a.adminSees then b.adminSees else t.adminSees)
  }

  lemma MaybeColumns(t: Told, a: PostureRow, b: PostureRow)
    ensures Maybe(Maybe(Maybe(t, PostureEvents(a, b)), LibraryEvents(a, b)), ContentEvents(a, b)) == ToldAfter(t, a, b)
  {
  }

  lemma RowEventsTellColumns(log: seq<Event>, a: PostureRow, b: PostureRow)
    ensures Replay(log + RowEvents(a, b)) == ToldAfter(Replay(log), a, b)
  {
    ThreeTold(log, PostureEvents(a, b), LibraryEvents(a, b), ContentEvents(a, b));
    MaybeColumns(Replay(log), a, b);
  }

  lemma RowEventsTell(log: seq<Event>, a: PostureRow, b: PostureRow)
    ensures var t := Replay(log);
      t.posture == a.posture && t.library == a.library && t.adminSees == a.adminSees ==>
        Replay(log + RowEvents(a, b)) == Told(t.accounts, b.posture, b.library, b.adminSees)
  {
    RowEventsTellColumns(log, a, b);
  }

  function Maybe(t: Told, p: seq<Event>): Told {
    if p == [] then t else Apply(t, p[0])
  }

  lemma ThreeTold(log: seq<Event>, p: seq<Event>, q: seq<Event>, r: seq<Event>)
    requires |p| <= 1 && |q| <= 1 && |r| <= 1
    ensures Replay(log + (p + q + r)) == Maybe(Maybe(Maybe(Replay(log), p), q), r)
  {
    Regrouped(log, p, q, r);
    MaybeOne(log, p);
    MaybeOne(log + p, q);
    MaybeOne(log + p + q, r);
  }

  lemma Regrouped(log: seq<Event>, p: seq<Event>, q: seq<Event>, r: seq<Event>)
    ensures log + (p + q + r) == log + p + q + r
  {
  }

  lemma MaybeOne(log: seq<Event>, p: seq<Event>)
    requires |p| <= 1
    ensures Replay(log + p) == Maybe(Replay(log), p)
  {
    if p == [] {
      assert log + p == log;
    } else {
      assert p == [p[0]];
      ReplayOne(log, p[0]);
    }
  }

  lemma OpEventTells(log: seq<Event>, op: Op, pk: Pk)
    ensures Replay(log + [OpEvent(op, pk)]) == Alter(Replay(log), pk, op)
  {
    ReplayOne(log, OpEvent(op, pk));
  }

  /** The guard's comparison is enough: a write it lets through never takes the last one. */
  lemma WriteKeepsSomebody(accounts: map<Pk, Account>, op: Op, pk: Pk)
    requires pk in accounts && !(Removes(op) && LeavesNobody(accounts, pk)) && AdminPks(accounts) != {}
    ensures AdminPks(accounts[pk := After(op, accounts[pk])]) != {}
  {
    var after := accounts[pk := After(op, accounts[pk])];
    if Removes(op) {
      var other :| other in AdminPks(accounts) && other != pk;
      assert other in AdminPks(after);
    } else {
      var somebody :| somebody in AdminPks(accounts);
      assert somebody in AdminPks(after);
    }
  }

  /** Refusing is needed as well: with one administrator, removing that one leaves none. */
  lemma GuardIsExact(accounts: map<Pk, Account>, op: Op, pk: Pk)
    requires pk in accounts && Removes(op) && AdminPks(accounts) != {}
    ensures AdminPks(accounts[pk := After(op, accounts[pk])]) == {} <==> LeavesNobody(accounts, pk)
  {
    var after := accounts[pk := After(op, accounts[pk])];
    assert AdminPks(after) == AdminPks(accounts) - {pk} by {
      forall q ensures q in AdminPks(after) <==> q in AdminPks(accounts) && q != pk {
      }
    }
    if AdminPks(after) == {} {
      assert AdminPks(accounts) <= {pk};
      var q :| q in AdminPks(accounts);
      assert q == pk;
    }
  }

  /**
   One call is one transaction running alone: what a write does here, the interleaved
   machine reaches from the same accounts with nothing else in flight.
   */
  lemma WriteIsASoloRun(b: Box, op: Op, pk: Pk)
    requires Quiescent(b) && pk in b.accounts && !AlreadySo(op, b.accounts[pk])
    requires !(Removes(op) && LeavesNobody(b.accounts, pk))
    ensures Runs.Reaches(LastAdmin.Next, b, b.(accounts := b.accounts[pk := After(op, b.accounts[pk])]))
  {
    assert Admins(b) == AdminPks(b.accounts);
    SoloCommits(b, 0, op, pk);
  }
}

/**
 The last-admin guard and the posture switch under every interleaving.

 One box, any number of transactions in flight. A transaction first fetches the row it
 was handed (so what it knows of the target may be stale), a removing one then runs the
 guard -- one atomic step that reads the active superusers and locks exactly those rows --
 and each one issues its UPDATE, which takes the target's row lock, and commits. Other
 transactions see committed rows only. The posture switch takes no lock on accounts at all.
 */
module LastAdmin {
  import opened Common
  import opened Runs

  type Pk = nat
  type Tid = nat

  datatype Account = Account(active: bool, superuser: bool)

  datatype Op = Promote | Demote | Deactivate | Reactivate

  datatype Posture = Open | Personal | Enterprise

  datatype Txn =
    | Loaded(op: Op, target: Pk, seen: Account)
    | Guarded(op: Op, target: Pk, rows: set<Pk>)
    | Written(op: Op, target: Pk, rows: set<Pk>)
    | RowRead(asked: Option<Posture>, row: Posture)
    | Checked(next: Posture)

  datatype Box = Box(accounts: map<Pk, Account>, posture: Posture, txns: map<Tid, Txn>)

  datatype Action =
    | Create(pk: Pk, superuser: bool)
    | Load(t: Tid, op: Op, target: Pk)
    | EarlyReturn(t: Tid)
    | Guard(t: Tid)
    | Write(t: Tid)
    | Commit(t: Tid)
    | Abort(t: Tid)
    | ReadRow(t: Tid, asked: Option<Posture>)
    | Check(t: Tid, hardened: bool)
    | Save(t: Tid)

  predicate Removes(op: Op) {
    op.Demote? || op.Deactivate?
  }

  /** The service's early return: the fetched instance already has the value. */
  predicate AlreadySo(op: Op, seen: Account) {
    match op
    case Promote => seen.superuser
    case Demote => !seen.superuser
    case Deactivate => !seen.active
    case Reactivate => seen.active
  }

  function After(op: Op, a: Account): Account {
    match op
    case Promote => a.(superuser := true)
    case Demote => a.(superuser := false)
    case Deactivate => a.(active := false)
    case Reactivate => a.(active := true)
  }

  predicate IsAdmin(a: Account) {
    a.active && a.superuser
  }

  function Admins(b: Box): set<Pk> {
    set pk | pk in b.accounts && IsAdmin(b.accounts[pk])
  }

  predicate HasAdmin(b: Box) {
    Admins(b) != {}
  }

  /** The row locks a transaction holds until it ends. */
  function Locks(x: Txn): set<Pk> {
    match x
    case Guarded(_, _, rows) => rows
    case Written(_, target, rows) => rows + {target}
    case _ => {}
  }

  predicate Free(b: Box, t: Tid, pks: set<Pk>) {
    forall u | u in b.txns && u != t :: Locks(b.txns[u]) !! pks
  }

  function End(b: Box, t: Tid): Box {
    b.(txns := b.txns - {t})
  }

  /** One step; None when the action cannot happen (or has to wait) in this state. */
  function Next(b: Box, a: Action): Option<Box> {
    match a
    case Create(pk, superuser) =>
      if pk in b.accounts then None
      else Some(b.(accounts := b.accounts[pk := Account(true, superuser)]))
    case Load(t, op, target) =>
      if t in b.txns || target !in b.accounts then None
      else Some(b.(txns := b.txns[t := Loaded(op, target, b.accounts[target])]))
    case EarlyReturn(t) =>
      if t in b.txns && b.txns[t].Loaded? && AlreadySo(b.txns[t].op, b.txns[t].seen)
      then Some(End(b, t)) else None
    case Guard(t) =>
      if t in b.txns && b.txns[t].Loaded? && Removes(b.txns[t].op)
         && !AlreadySo(b.txns[t].op, b.txns[t].seen) && Free(b, t, Admins(b))
      then
        if Admins(b) == {b.txns[t].target} then Some(End(b, t))
        else Some(b.(txns := b.txns[t := Guarded(b.txns[t].op, b.txns[t].target, Admins(b))]))
      else None
    case Write(t) =>
      if t in b.txns && Free(b, t, {WriteTarget(b.txns[t])}) then
        match b.txns[t]
        case Guarded(op, target, rows) => Some(b.(txns := b.txns[t := Written(op, target, rows)]))
        case Loaded(op, target, seen) =>
          if Removes(op) || AlreadySo(op, seen) then None
          else Some(b.(txns := b.txns[t := Written(op, target, {})]))
        case _ => None
      else None
    case Commit(t) =>
      if t in b.txns && b.txns[t].Written? && b.txns[t].target in b.accounts then
        var x := b.txns[t];
        Some(End(b.(accounts := b.accounts[x.target := After(x.op, b.accounts[x.target])]), t))
      else None
    case Abort(t) =>
      if t in b.txns then Some(End(b, t)) else None
    case ReadRow(t, asked) =>
      if t in b.txns then None
      else Some(b.(txns := b.txns[t := RowRead(asked, b.posture)]))
    case Check(t, hardened) =>
      if t in b.txns && b.txns[t].RowRead? then
        match b.txns[t].asked
        case None => Some(b.(txns := b.txns[t := Checked(b.txns[t].row)]))
        case Some(p) =>
          if p != b.txns[t].row && p != Open && !(HasAdmin(b) && hardened) then Some(End(b, t))
          else Some(b.(txns := b.txns[t := Checked(p)]))
      else None
    case Save(t) =>
      if t in b.txns && b.txns[t].Checked?
      then Some(End(b.(posture := b.txns[t].next), t)) else None
  }

  function WriteTarget(x: Txn): Pk {
    match x
    case Loaded(_, target, _) => target
    case Guarded(_, target, _) => target
    case Written(_, target, _) => target
    case _ => 0
  }

  /** The transaction an action belongs to; creating an account is nobody's. */
  function Actor(a: Action): Option<Tid> {
    match a
    case Create(_, _) => None
    case Load(t, _, _) => Some(t)
    case EarlyReturn(t) => Some(t)
    case Guard(t) => Some(t)
    case Write(t) => Some(t)
    case Commit(t) => Some(t)
    case Abort(t) => Some(t)
    case ReadRow(t, _) => Some(t)
    case Check(t, _) => Some(t)
    case Save(t) => Some(t)
  }

  /**
   With its row fetched, an account call goes one way: nothing to do, the guard for a removal,
   the write for the others -- the last two as soon as the rows they touch are free.
   */
  lemma LoadedGoesOneWay(b: Box, t: Tid)
    requires t in b.txns && b.txns[t].Loaded?
    ensures var (op, target, seen) := (b.txns[t].op, b.txns[t].target, b.txns[t].seen);
      && (Next(b, EarlyReturn(t)).Some? <==> AlreadySo(op, seen))
      && (Next(b, Guard(t)).Some? <==> !AlreadySo(op, seen) && Removes(op) && Free(b, t, Admins(b)))
      && (Next(b, Write(t)).Some? <==> !AlreadySo(op, seen) && !Removes(op) && Free(b, t, {target}))
      && Next(b, Commit(t)) == Next(b, Save(t)) == None && Next(b, Load(t, op, target)) == None
  {
  }

  /** A settings call is refused exactly for a switch to another posture than `open` without what it takes. */
  lemma CheckDecides(b: Box, t: Tid, hardened: bool)
    requires t in b.txns && b.txns[t].RowRead?
    ensures var (asked, row) := (b.txns[t].asked, b.txns[t].row);
      Next(b, Check(t, hardened)) == Some(
        match asked
        case None => b.(txns := b.txns[t := Checked(row)])
        case Some(p) =>
          if p == Open || p == row || (HasAdmin(b) && hardened) then b.(txns := b.txns[t := Checked(p)])
          else b.(txns := b.txns - {t}))
    ensures Next(b, Save(t)) == None && Next(b, ReadRow(t, b.txns[t].asked)) == None
  {
  }

  /** What a step leaves alone: other transactions, and all but the one row or column it is about. */
  lemma StepTouches(b: Box, a: Action)
    requires Next(b, a).Some?
    ensures var b1 := Next(b, a).value;
      && (forall u | Actor(a) != Some(u) ::
            (u in b1.txns <==> u in b.txns) && (u in b.txns ==> b1.txns[u] == b.txns[u]))
      && (b1.posture != b.posture ==> a.Save? && b.txns[a.t] == Checked(b1.posture))
      && (forall pk | pk in b.accounts :: pk in b1.accounts)
      && (forall pk | pk in b1.accounts && pk !in b.accounts ::
            a == Create(pk, b1.accounts[pk].superuser) && b1.accounts[pk].active)
      && (forall pk | pk in b.accounts && b1.accounts[pk] != b.accounts[pk] ::
            && a.Commit? && b.txns[a.t].Written? && b.txns[a.t].target == pk
            && b1.accounts[pk] == After(b.txns[a.t].op, b.accounts[pk]))
    ensures a.Commit? || a.Abort? || a.Save? || a.EarlyReturn? ==> Actor(a).value !in Next(b, a).value.txns
  {
  }

  lemma StartsAndStops(b: Box, t: Tid, op: Op, pk: Pk, asked: Option<Posture>)
    ensures Next(b, Load(t, op, pk)).Some? <==> t !in b.txns && pk in b.accounts
    ensures Next(b, ReadRow(t, asked)).Some? <==> t !in b.txns
    ensures Next(b, Abort(t)).Some? <==> t in b.txns
  {
  }

  /** What row locking guarantees of every state a run can pass through. */
  ghost predicate LockInv(b: Box) {
    && (forall t, u | t in b.txns && u in b.txns && t != u :: Locks(b.txns[t]) !! Locks(b.txns[u]))
    && (forall t | t in b.txns :: TxnOk(b, b.txns[t]))
  }

  ghost predicate TxnOk(b: Box, x: Txn) {
    match x
    case Loaded(_, target, _) => target in b.accounts
    case Guarded(op, target, rows) =>
      target in b.accounts && Removes(op) && rows <= Admins(b) && rows != {target}
    case Written(op, target, rows) =>
      && target in b.accounts
      && if Removes(op) then rows <= Admins(b) && rows != {target} else rows == {}
    case _ => true
  }

  ghost predicate Quiescent(b: Box) {
    b.txns == map[]
  }

  /** Targets a removal is about to commit although its guard read no administrator. */
  function UnguardedTargets(b: Box): set<Pk> {
    set t | t in b.txns && b.txns[t].Written? && Removes(b.txns[t].op) && b.txns[t].rows == {}
      :: b.txns[t].target
  }

  /**
   Some administrator is out of reach of every removal whose guard read an empty table,
   and no such removal is still to issue its UPDATE.
   */
  ghost predicate Sheltered(b: Box) {
    && (forall t | t in b.txns && b.txns[t].Guarded? :: b.txns[t].rows != {})
    && !(Admins(b) <= UnguardedTargets(b))
  }

  ghost predicate KeepsAdmin(b: Box) {
    forall acts :: Exec(Next, b, acts).Some? ==> HasAdmin(Exec(Next, b, acts).value)
  }

  predicate PostureNeedsAdmin(b: Box) {
    b.posture != Open ==> HasAdmin(b)
  }

  ghost predicate KeepsPosture(b: Box) {
    forall acts :: Exec(Next, b, acts).Some? ==> PostureNeedsAdmin(Exec(Next, b, acts).value)
  }

  // ----- every step keeps the locks consistent and the shelter up

  lemma CommitAdmins(b: Box, t: Tid)
    requires Next(b, Commit(t)).Some?
    ensures var b1 := Next(b, Commit(t)).value; var x := b.txns[t];
      if Removes(x.op) then Admins(b1) == Admins(b) - {x.target} else Admins(b) <= Admins(b1)
  {
    var b1 := Next(b, Commit(t)).value;
    var x := b.txns[t];
    forall pk ensures pk in Admins(b1) <==>
      pk in b.accounts && IsAdmin(if pk == x.target then After(x.op, b.accounts[pk]) else b.accounts[pk])
    {
    }
  }

  lemma CommitAccounts(b: Box, t: Tid)
    requires LockInv(b) && Next(b, Commit(t)).Some?
    ensures var b1 := Next(b, Commit(t)).value; var x := b.txns[t];
      && Admins(b) - {x.target} <= Admins(b1)
      && (Removes(x.op) ==> Admins(b1) == Admins(b) - {x.target})
      && (forall u | u in b.txns && u != t && !b.txns[u].Loaded? :: TxnOk(b1, b.txns[u]))
  {
    var b1 := Next(b, Commit(t)).value;
    var x := b.txns[t];
    CommitAdmins(b, t);
    forall u | u in b.txns && u != t && !b.txns[u].Loaded? ensures TxnOk(b1, b.txns[u]) {
      var y := b.txns[u];
      if y.Guarded? || y.Written? {
        assert Locks(y) !! Locks(x);
        assert x.target !in y.rows;
      }
    }
  }

  /** Replacing or adding one transaction, accounts untouched. */
  lemma TxnUpdateKeepsLocks(b: Box, t: Tid, x: Txn)
    requires LockInv(b) && TxnOk(b, x) && Free(b, t, Locks(x))
    ensures LockInv(b.(txns := b.txns[t := x]))
  {
    var b1 := b.(txns := b.txns[t := x]);
    assert Admins(b1) == Admins(b);
    forall u | u in b1.txns ensures TxnOk(b1, b1.txns[u]) {
      assert u == t || b1.txns[u] == b.txns[u];
    }
  }

  lemma EndKeepsLocks(b: Box, t: Tid)
    requires LockInv(b)
    ensures LockInv(End(b, t))
  {
    assert Admins(End(b, t)) == Admins(b);
    forall u | u in End(b, t).txns ensures TxnOk(End(b, t), End(b, t).txns[u]) {
      assert TxnOk(b, b.txns[u]);
    }
  }

  lemma StepKeepsLocks(b: Box, a: Action)
    requires LockInv(b) && Next(b, a).Some?
    ensures LockInv(Next(b, a).value)
  {
    var b1 := Next(b, a).value;
    match a
    case Create(pk, superuser) =>
      assert Admins(b) <= Admins(b1);
      forall u | u in b1.txns ensures TxnOk(b1, b1.txns[u]) {
        assert TxnOk(b, b.txns[u]);
      }
    case Commit(t) =>
      CommitAccounts(b, t);
    case Load(t, _, _) => TxnUpdateKeepsLocks(b, t, b1.txns[t]);
    case ReadRow(t, _) => TxnUpdateKeepsLocks(b, t, b1.txns[t]);
    case Write(t) =>
      assert TxnOk(b, b.txns[t]);
      TxnUpdateKeepsLocks(b, t, b1.txns[t]);
    case Guard(t) => UpdateOrEnd(b, t, b1);
    case Check(t, _) => UpdateOrEnd(b, t, b1);
    case EarlyReturn(t) => EndKeepsLocks(b, t);
    case Abort(t) => EndKeepsLocks(b, t);
    case Save(t) =>
      EndKeepsLocks(b, t);
      assert Admins(b1) == Admins(b);
      assert b1.txns == End(b, t).txns;
      forall u | u in b1.txns ensures TxnOk(b1, b1.txns[u]) {
        assert TxnOk(b, b.txns[u]);
      }
  }

  lemma UpdateOrEnd(b: Box, t: Tid, b1: Box)
    requires LockInv(b) && t in b.txns
    requires Next(b, Guard(t)) == Some(b1) || exists h :: Next(b, Check(t, h)) == Some(b1)
    ensures LockInv(b1)
  {
    assert TxnOk(b, b.txns[t]);
    if t in b1.txns {
      TxnUpdateKeepsLocks(b, t, b1.txns[t]);
    } else {
      EndKeepsLocks(b, t);
    }
  }

  lemma StepKeepsShelter(b: Box, a: Action)
    requires LockInv(b) && Sheltered(b) && Next(b, a).Some?
    ensures Sheltered(Next(b, a).value)
  {
    var b1 := Next(b, a).value;
    var safe :| safe in Admins(b) && safe !in UnguardedTargets(b);
    match a
    case Commit(t) =>
      CommitAccounts(b, t);
      var x := b.txns[t];
      if Removes(x.op) && x.rows != {} {
        var y :| y in x.rows && y != x.target;
        assert y in Admins(b1);
        assert y !in UnguardedTargets(b1) by {
          forall u | u in b1.txns && b1.txns[u].Written? ensures b1.txns[u].target != y {
            assert Locks(b.txns[u]) !! Locks(x);
          }
        }
      } else {
        assert safe != x.target || !Removes(x.op);
        assert safe in Admins(b1) && safe !in UnguardedTargets(b1);
      }
    case Create(pk, superuser) =>
      assert safe in Admins(b1) && safe !in UnguardedTargets(b1);
    case _ =>
      assert Admins(b1) == Admins(b);
      assert safe in Admins(b1) && safe !in UnguardedTargets(b1);
  }

  lemma {:induction false} RunKeepsShelter(b: Box, acts: seq<Action>)
    requires LockInv(b) && Sheltered(b) && Exec(Next, b, acts).Some?
    ensures LockInv(Exec(Next, b, acts).value) && Sheltered(Exec(Next, b, acts).value)
    decreases |acts|
  {
    if acts != [] {
      StepKeepsLocks(b, acts[0]);
      StepKeepsShelter(b, acts[0]);
      RunKeepsShelter(Next(b, acts[0]).value, acts[1..]);
    }
  }

  // ----- building runs, for the converse

  /** A transaction that runs alone commits exactly its own change. */
  lemma SoloCommits(b: Box, t: Tid, op: Op, pk: Pk)
    requires t !in b.txns && pk in b.accounts && !AlreadySo(op, b.accounts[pk])
    requires Free(b, t, Admins(b) + {pk})
    requires Removes(op) ==> Admins(b) != {pk}
    ensures Reaches(Next, b, b.(accounts := b.accounts[pk := After(op, b.accounts[pk])]))
  {
    var b1 := Next(b, Load(t, op, pk)).value;
    ReachesStep(Next, b, Load(t, op, pk));
    assert Admins(b1) == Admins(b);
    var b2 := b1;
    if Removes(op) {
      b2 := Next(b1, Guard(t)).value;
      ReachesStep(Next, b1, Guard(t));
      ReachesTrans(Next, b, b1, b2);
    }
    var b3 := Next(b2, Write(t)).value;
    ReachesStep(Next, b2, Write(t));
    ReachesTrans(Next, b, b2, b3);
    var b4 := Next(b3, Commit(t)).value;
    ReachesStep(Next, b3, Commit(t));
    ReachesTrans(Next, b, b3, b4);
    assert b4.txns == b.txns;
    assert b4 == b.(accounts := b.accounts[pk := After(op, b.accounts[pk])]);
  }

  /** Every transaction but t may roll back. */
  lemma {:induction false} AbortOthers(b: Box, t: Tid)
    requires t in b.txns
    ensures Reaches(Next, b, b.(txns := map[t := b.txns[t]]))
    decreases |b.txns|
  {
    if u :| u in b.txns && u != t {
      var b1 := Next(b, Abort(u)).value;
      assert |b1.txns.Keys| < |b.txns.Keys| by { assert b1.txns.Keys == b.txns.Keys - {u}; }
      ReachesStep(Next, b, Abort(u));
      AbortOthers(b1, t);
      ReachesTrans(Next, b, b1, b1.(txns := map[t := b.txns[t]]));
    } else {
      assert b.txns == map[t := b.txns[t]];
      ReachesItself(Next, b);
    }
  }

  /** With nothing locked, guarded demotions can bring the administrators down to one. */
  lemma {:induction false} DemoteOthers(b: Box, t: Tid, x: Pk) returns (b1: Box)
    requires t !in b.txns && x in Admins(b) && Free(b, t, b.accounts.Keys)
    ensures Reaches(Next, b, b1) && b1.txns == b.txns && Admins(b1) == {x}
    decreases |Admins(b)|
  {
    if y :| y in Admins(b) && y != x {
      var c := b.(accounts := b.accounts[y := After(Demote, b.accounts[y])]);
      SoloCommits(b, t, Demote, y);
      assert Admins(c) == Admins(b) - {y};
      assert c.accounts.Keys == b.accounts.Keys;
      b1 := DemoteOthers(c, t, x);
      ReachesTrans(Next, b, c, b1);
    } else {
      assert Admins(b) == {x};
      ReachesItself(Next, b);
      b1 := b;
    }
  }

  /** A removal whose guard read nobody can be left to fire last. */
  lemma GuardedOnNobodyVanishes(b: Box, t: Tid) returns (b1: Box)
    requires LockInv(b) && t in b.txns && b.txns[t].Guarded? && b.txns[t].rows == {}
    ensures Reaches(Next, b, b1) && !HasAdmin(b1)
  {
    var x := b.txns[t];
    AbortOthers(b, t);
    var c := b.(txns := map[t := x]);
    var u: Tid := t + 1;
    if !c.accounts[x.target].active {
      SoloCommits(c, u, Reactivate, x.target);
      var d := c.(accounts := c.accounts[x.target := After(Reactivate, c.accounts[x.target])]);
      ReachesTrans(Next, b, c, d);
      c := d;
    }
    if !c.accounts[x.target].superuser {
      SoloCommits(c, u, Promote, x.target);
      var d := c.(accounts := c.accounts[x.target := After(Promote, c.accounts[x.target])]);
      ReachesTrans(Next, b, c, d);
      c := d;
    }
    var d := DemoteOthers(c, u, x.target);
    ReachesTrans(Next, b, c, d);
    assert x.target in d.accounts;
    var e := Next(d, Write(t)).value;
    ReachesStep(Next, d, Write(t));
    ReachesTrans(Next, b, d, e);
    assert Admins(e) == Admins(d);
    b1 := Next(e, Commit(t)).value;
    ReachesStep(Next, e, Commit(t));
    ReachesTrans(Next, b, e, b1);
    CommitAdmins(e, t);
  }

  lemma {:induction false} UnguardedCommitsVanish(b: Box) returns (b1: Box)
    requires LockInv(b) && Admins(b) <= UnguardedTargets(b)
    ensures Reaches(Next, b, b1) && !HasAdmin(b1)
    decreases |b.txns|
  {
    if t :| t in b.txns && b.txns[t].Written? && Removes(b.txns[t].op) && b.txns[t].rows == {} {
      var c := Next(b, Commit(t)).value;
      CommitAccounts(b, t);
      StepKeepsLocks(b, Commit(t));
      forall pk | pk in Admins(c) ensures pk in UnguardedTargets(c) {
        var u :| u in b.txns && b.txns[u].Written? && Removes(b.txns[u].op) && b.txns[u].rows == {}
          && b.txns[u].target == pk;
        assert u in c.txns && c.txns[u] == b.txns[u];
      }
      assert |c.txns.Keys| < |b.txns.Keys| by { assert c.txns.Keys == b.txns.Keys - {t}; }
      ReachesStep(Next, b, Commit(t));
      b1 := UnguardedCommitsVanish(c);
      ReachesTrans(Next, b, c, b1);
    } else {
      assert UnguardedTargets(b) == {};
      ReachesItself(Next, b);
      b1 := b;
    }
  }

  // ----- the theorems

  /**
   From any state row locking allows, every continuation of every interleaving keeps an
   administrator exactly when the state is sheltered.
   */
  lemma AdminKeptIffSheltered(b: Box)
    requires LockInv(b)
    ensures KeepsAdmin(b) <==> Sheltered(b)
  {
    if Sheltered(b) {
      forall acts | Exec(Next, b, acts).Some? ensures HasAdmin(Exec(Next, b, acts).value) {
        RunKeepsShelter(b, acts);
      }
    } else {
      var b1: Box;
      if t :| t in b.txns && b.txns[t].Guarded? && b.txns[t].rows == {} {
        b1 := GuardedOnNobodyVanishes(b, t);
      } else {
        b1 := UnguardedCommitsVanish(b);
      }
      var acts :| Exec(Next, b, acts) == Some(b1);
      assert !KeepsAdmin(b);
    }
  }

  /** On a box with nothing in flight the guard holds for good exactly when an administrator exists. */
  lemma QuiescentKeepsIffAdmin(b: Box)
    requires Quiescent(b)
    ensures KeepsAdmin(b) <==> HasAdmin(b)
  {
    AdminKeptIffSheltered(b);
    assert UnguardedTargets(b) == {};
  }

  lemma FreshPk(pks: set<Pk>) returns (pk: Pk)
    ensures pk !in pks
    ensures forall q | q in pks :: q < pk
  {
    if pks == {} {
      pk := 0;
    } else {
      var q :| q in pks;
      var p := FreshPk(pks - {q});
      pk := if p > q then p else q + 1;
      assert forall r | r in pks :: r == q || r in pks - {q};
    }
  }

  /** A deactivation can pass the guard of an adminless box, its target then being promoted. */
  lemma AdminAppearsBehindTheGuard(b: Box) returns (x: Pk, mid: Box)
    requires Quiescent(b) && !HasAdmin(b)
    ensures Reaches(Next, b, mid) && Admins(mid) == {x}
    ensures mid == b.(accounts := mid.accounts, txns := map[0 := Guarded(Deactivate, x, {})])
  {
    x := FreshPk(b.accounts.Keys);
    var b1 := Next(b, Create(x, false)).value;
    ReachesStep(Next, b, Create(x, false));
    assert Admins(b1) == {};
    var b2 := Next(b1, Load(0, Deactivate, x)).value;
    ReachesStep(Next, b1, Load(0, Deactivate, x));
    ReachesTrans(Next, b, b1, b2);
    assert Admins(b2) == {};
    var b3 := Next(b2, Guard(0)).value;
    ReachesStep(Next, b2, Guard(0));
    ReachesTrans(Next, b, b2, b3);
    assert Admins(b3) == {};
    assert b3.txns == map[0 := Guarded(Deactivate, x, {})];
    SoloCommits(b3, 1, Promote, x);
    mid := b3.(accounts := b3.accounts[x := After(Promote, b3.accounts[x])]);
    ReachesTrans(Next, b, b3, mid);
    assert Admins(mid) == {x};
  }

  /**
   Without an administrator to begin with, one can appear, let the posture leave `open`,
   and be removed by a deactivation whose guard ran before it appeared.
   */
  lemma AdminlessBoxLosesPosture(b: Box) returns (mid: Box, end: Box)
    requires Quiescent(b) && !HasAdmin(b)
    ensures Reaches(Next, b, mid) && HasAdmin(mid) && mid.posture == Personal
    ensures Reaches(Next, mid, end) && !HasAdmin(end) && end.posture == Personal
  {
    var x, b4 := AdminAppearsBehindTheGuard(b);
    assert x in Admins(b4);
    var b5 := Next(b4, ReadRow(1, Some(Personal))).value;
    ReachesStep(Next, b4, ReadRow(1, Some(Personal)));
    ReachesTrans(Next, b, b4, b5);
    assert Admins(b5) == {x};
    var b6 := Next(b5, Check(1, true)).value;
    ReachesStep(Next, b5, Check(1, true));
    ReachesTrans(Next, b, b5, b6);
    mid := Next(b6, Save(1)).value;
    ReachesStep(Next, b6, Save(1));
    ReachesTrans(Next, b, b6, mid);
    assert mid == b4.(posture := Personal);
    assert Admins(mid) == {x};
    end := LateDeactivation(mid, x);
  }

  lemma LateDeactivation(b: Box, x: Pk) returns (end: Box)
    requires Admins(b) == {x} && b.txns == map[0 := Guarded(Deactivate, x, {})]
    ensures Reaches(Next, b, end) && !HasAdmin(end) && end.posture == b.posture
  {
    assert x in Admins(b);
    var b1 := Next(b, Write(0)).value;
    ReachesStep(Next, b, Write(0));
    end := Next(b1, Commit(0)).value;
    ReachesStep(Next, b1, Commit(0));
    ReachesTrans(Next, b, b1, end);
    assert Admins(b1) == {x};
    CommitAdmins(b1, 0);
  }

  /** `set_posture` takes no lock, and still a box that has an administrator is never locked out. */
  lemma PostureKeptIffAdmin(b: Box)
    requires Quiescent(b)
    ensures KeepsPosture(b) <==> HasAdmin(b)
  {
    if HasAdmin(b) {
      QuiescentKeepsIffAdmin(b);
    } else {
      var mid, end := AdminlessBoxLosesPosture(b);
      ReachesTrans(Next, b, mid, end);
      var acts :| Exec(Next, b, acts) == Some(end);
      assert !KeepsPosture(b);
    }
  }

  // ----- an open box, before its first administrator

  /** No guard of the run reads an empty table. */
  ghost predicate Careful(b: Box, acts: seq<Action>)
    decreases |acts|
  {
    acts == [] ||
    (Next(b, acts[0]).Some? ==> (acts[0].Guard? ==> HasAdmin(b)) && Careful(Next(b, acts[0]).value, acts[1..]))
  }

  ghost predicate GuardsSawSomebody(b: Box) {
    forall t | t in b.txns ::
      b.txns[t].Guarded? || (b.txns[t].Written? && Removes(b.txns[t].op)) ==> b.txns[t].rows != {}
  }

  ghost predicate LeavingOpen(b: Box) {
    || b.posture != Open
    || exists t :: t in b.txns && ((b.txns[t].RowRead? && b.txns[t].row != Open)
                                   || (b.txns[t].Checked? && b.txns[t].next != Open))
  }

  lemma CarefulStep(b: Box, a: Action)
    requires LockInv(b) && GuardsSawSomebody(b) && (LeavingOpen(b) ==> HasAdmin(b))
    requires Next(b, a).Some? && (a.Guard? ==> HasAdmin(b))
    ensures var b1 := Next(b, a).value;
      && LockInv(b1) && GuardsSawSomebody(b1) && (LeavingOpen(b1) ==> HasAdmin(b1))
      && (HasAdmin(b) ==> HasAdmin(b1))
  {
    StepKeepsLocks(b, a);
    if HasAdmin(b) {
      assert UnguardedTargets(b) == {};
      StepKeepsShelter(b, a);
    } else {
      AdminlessStaysOpen(b, a);
    }
    CarefulGuards(b, a);
  }

  lemma CarefulGuards(b: Box, a: Action)
    requires GuardsSawSomebody(b) && Next(b, a).Some? && (a.Guard? ==> HasAdmin(b))
    ensures GuardsSawSomebody(Next(b, a).value)
  {
    var b1 := Next(b, a).value;
    forall t | t in b1.txns && (b1.txns[t].Guarded? || (b1.txns[t].Written? && Removes(b1.txns[t].op)))
      ensures b1.txns[t].rows != {}
    {
      assert t in b.txns;
    }
  }

  lemma AdminlessStaysOpen(b: Box, a: Action)
    requires !HasAdmin(b) && !LeavingOpen(b) && Next(b, a).Some?
    ensures !LeavingOpen(Next(b, a).value)
  {
    var b1 := Next(b, a).value;
    forall t | t in b1.txns
      ensures b1.txns[t].RowRead? ==> b1.txns[t].row == Open
      ensures b1.txns[t].Checked? ==> b1.txns[t].next == Open
    {
      if t in b.txns && b1.txns[t] == b.txns[t] {
      } else {
        assert a.Load? || a.ReadRow? || a.Guard? || a.Write? || a.Check?;
      }
    }
  }

  /**
   However long the box stood open without an administrator: if no removal ran its guard
   meanwhile, the posture is only ever away from `open` on a box that has one.
   */
  lemma {:induction false} CarefulRunKeepsPosture(b: Box, acts: seq<Action>)
    requires LockInv(b) && GuardsSawSomebody(b) && (LeavingOpen(b) ==> HasAdmin(b))
    requires Exec(Next, b, acts).Some? && Careful(b, acts)
    ensures PostureNeedsAdmin(Exec(Next, b, acts).value)
    ensures HasAdmin(b) ==> HasAdmin(Exec(Next, b, acts).value)
    decreases |acts|
  {
    if acts != [] {
      CarefulStep(b, acts[0]);
      CarefulRunKeepsPosture(Next(b, acts[0]).value, acts[1..]);
    }
  }
}

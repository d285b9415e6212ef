/**
 The interleaved machine with its audit trail, and with the whole settings row where it has
 only the posture. A settings call reads the row, judges its form, and later saves every
 column of the instance it read; its events tell what it changed of that instance.
 */
module PostureTrail {
  import opened Collections
  import opened Common
  import opened Runs
  import opened LastAdmin
  import opened Accounts

  /** A settings call in flight: what was asked, and the row as it was read. */
  datatype Call = Call(form: PostureForm, seen: PostureRow)

  datatype Traced = Traced(b: Box, row: PostureRow, log: seq<Event>, calls: map<Tid, Call>)

  datatype Step =
    | Plain(a: Action)
    | ReadSettings(t: Tid, form: PostureForm)
    | CheckSettings(t: Tid, debug: bool, devKey: bool)
    | SaveSettings(t: Tid)

  function AskedPosture(f: PostureForm): Option<Posture> {
    if f.posture.Given? then Some(f.posture.value) else None
  }

  /** The instance a call saves. */
  function Planned(seen: PostureRow, f: PostureForm): PostureRow {
    var posture := if f.posture.Given? then f.posture.value else seen.posture;
    PostureRow(
      posture,
      if posture == Personal then LibraryOpen else if f.library.Given? then f.library.value else seen.library,
      if f.adminSees.Some? then f.adminSees.value else seen.adminSees,
      if !f.idleMinutes.Given? then seen.idleMinutes else if f.idleMinutes.value < 0 then 0 else f.idleMinutes.value)
  }

  /** The audit rows of one account step, written in its transaction. */
  function AccountEvents(b: Box, a: Action): seq<Event> {
    match a
    case Create(pk, superuser) => [UserCreated(pk, superuser)]
    case Commit(t) => if t in b.txns && b.txns[t].Written? then [OpEvent(b.txns[t].op, b.txns[t].target)] else []
    case _ => []
  }

  predicate OfSettings(a: Action) {
    a.ReadRow? || a.Check? || a.Save?
  }

  function CallsAfter(x: Traced, a: Action): map<Tid, Call> {
    if a.Abort? then x.calls - {a.t} else x.calls
  }

  /** One step; each is a step of the plain machine, with the row and the trail along. */
  function TNext(x: Traced, s: Step): Option<Traced> {
    match s
    case Plain(a) =>
      if OfSettings(a) then None
      else (match Next(x.b, a)
            case None => None
            case Some(b1) => Some(Traced(b1, x.row, x.log + AccountEvents(x.b, a), CallsAfter(x, a))))
    case ReadSettings(t, form) =>
      (match Next(x.b, ReadRow(t, AskedPosture(form)))
       case None => None
       case Some(b1) => Some(x.(b := b1, calls := x.calls[t := Call(form, x.row)])))
    case CheckSettings(t, debug, devKey) =>
      if t !in x.calls || t !in x.b.txns || !x.b.txns[t].RowRead? then None
      else if FormRefusal(x.calls[t].seen, x.calls[t].form, HasAdmin(x.b), debug, devKey).Some?
      then Some(x.(b := End(x.b, t), calls := x.calls - {t}))
      else (match Next(x.b, Check(t, !debug && !devKey))
            case None => None
            case Some(b1) => Some(x.(b := b1)))
    case SaveSettings(t) =>
      if t !in x.calls then None
      else (match Next(x.b, Save(t))
            case None => None
            case Some(b1) =>
              var next := Planned(x.calls[t].seen, x.calls[t].form);
              Some(Traced(b1, next, x.log + RowEvents(x.calls[t].seen, next), x.calls - {t})))
  }

  // ----- the two machines move together

  /** The plain machine's posture and posture transactions are those of the row and the calls. */
  ghost predicate InSync(x: Traced) {
    && x.b.posture == x.row.posture
    && (forall t | t in x.calls :: t in x.b.txns && Carries(x.b.txns[t], x.calls[t]))
    && (forall t | t in x.b.txns && (x.b.txns[t].RowRead? || x.b.txns[t].Checked?) :: t in x.calls)
  }

  /** A settings call reads, checks and saves, each once and in this order; a check refuses as the form is refused. */
  lemma SettingsGoInOrder(x: Traced, t: Tid, form: PostureForm, debug: bool, devKey: bool)
    requires InSync(x)
    ensures TNext(x, ReadSettings(t, form)).Some? <==> t !in x.b.txns
    ensures TNext(x, CheckSettings(t, debug, devKey)).Some? <==> t in x.calls && x.b.txns[t].RowRead?
    ensures TNext(x, SaveSettings(t)).Some? <==> t in x.calls && x.b.txns[t].Checked?
    ensures t in x.calls && x.b.txns[t].RowRead? ==>
      (t in TNext(x, CheckSettings(t, debug, devKey)).value.calls <==>
         FormRefusal(x.calls[t].seen, x.calls[t].form, HasAdmin(x.b), debug, devKey).None?)
  {
  }

  predicate Carries(txn: Txn, c: Call) {
    || txn == RowRead(AskedPosture(c.form), c.seen.posture)
    || txn == Checked(Planned(c.seen, c.form).posture)
  }

  lemma PlannedIsAsked(seen: PostureRow, f: PostureForm, now: PostureRow)
    ensures Asked(seen, f, now) <==> now == Planned(seen, f)
  {
  }

  /** Which plain action a step takes. */
  function ActionOf(x: Traced, s: Step): Action {
    match s
    case Plain(a) => a
    case ReadSettings(t, form) => ReadRow(t, AskedPosture(form))
    case CheckSettings(t, debug, devKey) =>
      if t in x.calls && FormRefusal(x.calls[t].seen, x.calls[t].form, HasAdmin(x.b), debug, devKey).Some?
      then Abort(t) else Check(t, !debug && !devKey)
    case SaveSettings(t) => Save(t)
  }

  lemma StepIsPlainStep(x: Traced, s: Step)
    requires TNext(x, s).Some?
    ensures Next(x.b, ActionOf(x, s)) == Some(TNext(x, s).value.b)
  {
  }

  lemma PlainKeepsSync(x: Traced, a: Action)
    requires InSync(x) && !OfSettings(a) && Next(x.b, a).Some?
    ensures InSync(Traced(Next(x.b, a).value, x.row, x.log + AccountEvents(x.b, a), CallsAfter(x, a)))
  {
    var b1 := Next(x.b, a).value;
    AccountStepKeepsPosture(x.b, a);
    forall t | t in CallsAfter(x, a) ensures t in b1.txns && Carries(b1.txns[t], x.calls[t]) {
      assert t in x.calls && Carries(x.b.txns[t], x.calls[t]);
    }
  }

  /** Account steps leave the posture, and every posture transaction they do not abort, alone. */
  lemma AccountStepKeepsPosture(b: Box, a: Action)
    requires !OfSettings(a) && Next(b, a).Some?
    ensures var b1 := Next(b, a).value;
      && b1.posture == b.posture
      && (forall t | t in b.txns && (b.txns[t].RowRead? || b.txns[t].Checked?) && a != Abort(t) ::
            t in b1.txns && b1.txns[t] == b.txns[t])
      && (forall t | t in b1.txns && (b1.txns[t].RowRead? || b1.txns[t].Checked?) ::
            t in b.txns && b.txns[t] == b1.txns[t] && a != Abort(t))
  {
  }

  lemma StepKeepsSync(x: Traced, s: Step)
    requires InSync(x) && TNext(x, s).Some?
    ensures InSync(TNext(x, s).value)
  {
    match s
    case Plain(a) => PlainKeepsSync(x, a);
    case ReadSettings(t, form) =>
    case CheckSettings(t, debug, devKey) => CheckKeepsSync(x, t, debug, devKey);
    case SaveSettings(t) => assert Carries(x.b.txns[t], x.calls[t]);
  }

  lemma CheckKeepsSync(x: Traced, t: Tid, debug: bool, devKey: bool)
    requires InSync(x) && TNext(x, CheckSettings(t, debug, devKey)).Some?
    ensures InSync(TNext(x, CheckSettings(t, debug, devKey)).value)
  {
    assert Carries(x.b.txns[t], x.calls[t]);
  }

  /** So every run with a trail is a run of the plain machine, and its theorems hold of it. */
  lemma {:induction false} RunIsPlainRun(x: Traced, steps: seq<Step>)
    requires InSync(x) && Exec(TNext, x, steps).Some?
    ensures Reaches(Next, x.b, Exec(TNext, x, steps).value.b) && InSync(Exec(TNext, x, steps).value)
    decreases |steps|
  {
    if steps == [] {
      assert Exec(Next, x.b, []) == Some(x.b);
    } else {
      var x1 := TNext(x, steps[0]).value;
      StepIsPlainStep(x, steps[0]);
      StepKeepsSync(x, steps[0]);
      ReachesStep(Next, x.b, ActionOf(x, steps[0]));
      RunIsPlainRun(x1, steps[1..]);
      ReachesTrans(Next, x.b, x1.b, Exec(TNext, x1, steps[1..]).value.b);
    }
  }

  /** Among them: from a quiet box with an administrator the settings row never locks everybody out. */
  lemma RowNeedsAdmin(x: Traced, steps: seq<Step>)
    requires InSync(x) && Quiescent(x.b) && HasAdmin(x.b) && Exec(TNext, x, steps).Some?
    ensures Exec(TNext, x, steps).value.row.posture != Open ==> HasAdmin(Exec(TNext, x, steps).value.b)
  {
    RunIsPlainRun(x, steps);
    var acts :| Exec(Next, x.b, acts) == Some(Exec(TNext, x, steps).value.b);
    PostureKeptIffAdmin(x.b);
    assert PostureNeedsAdmin(Exec(Next, x.b, acts).value);
  }

  // ----- what the trail tells

  ghost predicate AccountsTold(x: Traced) {
    Replay(x.log).accounts == x.b.accounts
  }

  ghost predicate RowTold(x: Traced) {
    var t := Replay(x.log);
    t.posture == x.row.posture && t.library == x.row.library && t.adminSees == x.row.adminSees
  }

  ghost predicate Explained(x: Traced) {
    AccountsTold(x) && RowTold(x)
  }

  /** Under every interleaving the trail gives the accounts back. */
  lemma AccountsStayTold(x: Traced, s: Step)
    requires AccountsTold(x) && TNext(x, s).Some?
    ensures AccountsTold(TNext(x, s).value)
  {
    if s.Plain? {
      PlainTells(x, s.a);
    } else if s.SaveSettings? {
      SaveTells(x, s.t);
    } else {
      ReadersWriteNothing(x, s);
    }
  }

  lemma SaveTells(x: Traced, t: Tid)
    requires TNext(x, SaveSettings(t)).Some?
    ensures var x1, c := TNext(x, SaveSettings(t)).value, x.calls[t];
      && x1.row == Planned(c.seen, c.form) && x1.b.accounts == x.b.accounts
      && Replay(x1.log) == ToldAfter(Replay(x.log), c.seen, x1.row)
  {
    RowEventsTellColumns(x.log, x.calls[t].seen, Planned(x.calls[t].seen, x.calls[t].form));
  }

  lemma ReadersWriteNothing(x: Traced, s: Step)
    requires TNext(x, s).Some? && (s.ReadSettings? || s.CheckSettings?)
    ensures var x1 := TNext(x, s).value; x1.log == x.log && x1.row == x.row && x1.b.accounts == x.b.accounts
  {
  }

  lemma PlainTells(x: Traced, a: Action)
    requires !OfSettings(a) && Next(x.b, a).Some?
    ensures var t, t1 := Replay(x.log), Replay(x.log + AccountEvents(x.b, a));
      && t1 == t.(accounts := t1.accounts)
      && (t.accounts == x.b.accounts ==> t1.accounts == Next(x.b, a).value.accounts)
  {
    assert x.log + [] == x.log;
    if a.Create? {
      ReplayOne(x.log, UserCreated(a.pk, a.superuser));
    } else if a.Commit? {
      OpEventTells(x.log, x.b.txns[a.t].op, x.b.txns[a.t].target);
    }
  }

  /** A save puts back a column it did not mean to change, over another value. */
  predicate WritesBack(seen: PostureRow, next: PostureRow, current: PostureRow) {
    || (next.posture == seen.posture && current.posture != next.posture)
    || (next.library == seen.library && current.library != next.library)
    || (next.adminSees == seen.adminSees && current.adminSees != next.adminSees)
  }

  predicate Stale(x: Traced, s: Step) {
    s.SaveSettings? && s.t in x.calls
    && WritesBack(x.calls[s.t].seen, Planned(x.calls[s.t].seen, x.calls[s.t].form), x.row)
  }

  /** From any state: only a save can change whether the row is told, and it alone decides. */
  lemma SaveDecides(x: Traced, s: Step)
    requires TNext(x, s).Some?
    ensures !s.SaveSettings? ==> (RowTold(TNext(x, s).value) <==> RowTold(x))
    ensures s.SaveSettings? ==>
      var seen, next, told := x.calls[s.t].seen, TNext(x, s).value.row, Replay(x.log);
      (RowTold(TNext(x, s).value) <==>
        && (next.posture != seen.posture || told.posture == next.posture)
        && (next.library != seen.library || told.library == next.library)
        && (next.adminSees != seen.adminSees || told.adminSees == next.adminSees))
  {
    if s.Plain? {
      PlainTells(x, s.a);
    } else if s.SaveSettings? {
      SaveTells(x, s.t);
    } else {
      ReadersWriteNothing(x, s);
    }
  }

  lemma StepExplainedIff(x: Traced, s: Step)
    requires Explained(x) && TNext(x, s).Some?
    ensures Explained(TNext(x, s).value) <==> !Stale(x, s)
  {
    AccountsStayTold(x, s);
    SaveDecides(x, s);
  }

  ghost predicate ExplainedThroughout(x: Traced, steps: seq<Step>)
    decreases |steps|
  {
    && Explained(x)
    && (steps == [] || (TNext(x, steps[0]).Some? ==> ExplainedThroughout(TNext(x, steps[0]).value, steps[1..])))
  }

  ghost predicate NeverStale(x: Traced, steps: seq<Step>)
    decreases |steps|
  {
    steps == [] ||
      (TNext(x, steps[0]).Some? ==> !Stale(x, steps[0]) && NeverStale(TNext(x, steps[0]).value, steps[1..]))
  }

  /**
   Over every interleaving of account and settings calls: the trail explains the accounts and
   the settings row at every point exactly when no save writes back an audited column that
   has changed since the save's own read.
   */
  lemma {:induction false} ExplainedIffNeverStale(x: Traced, steps: seq<Step>)
    requires Explained(x)
    ensures ExplainedThroughout(x, steps) <==> NeverStale(x, steps)
    decreases |steps|
  {
    if steps != [] && TNext(x, steps[0]).Some? {
      StepExplainedIff(x, steps[0]);
      if !Stale(x, steps[0]) {
        ExplainedIffNeverStale(TNext(x, steps[0]).value, steps[1..]);
      }
    }
  }

  /** Settings calls take turns: none reads the row while another is in flight. */
  ghost predicate OneAtATime(x: Traced, steps: seq<Step>)
    decreases |steps|
  {
    steps == [] ||
    (TNext(x, steps[0]).Some? ==>
       (steps[0].ReadSettings? ==> x.calls == map[]) && OneAtATime(TNext(x, steps[0]).value, steps[1..]))
  }

  /** Then nothing is ever stale, however accounts are written meanwhile. */
  lemma {:induction false} OneAtATimeIsExplained(x: Traced, steps: seq<Step>)
    requires Explained(x) && |x.calls| <= 1 && (forall t | t in x.calls :: x.calls[t].seen == x.row)
    requires OneAtATime(x, steps)
    ensures ExplainedThroughout(x, steps)
    decreases |steps|
  {
    if steps != [] && TNext(x, steps[0]).Some? {
      var x1 := TNext(x, steps[0]).value;
      StepExplainedIff(x, steps[0]);
      FewerCalls(x, steps[0]);
      OneAtATimeIsExplained(x1, steps[1..]);
    }
  }

  lemma FewerCalls(x: Traced, s: Step)
    requires |x.calls| <= 1 && (forall t | t in x.calls :: x.calls[t].seen == x.row)
    requires TNext(x, s).Some? && (s.ReadSettings? ==> x.calls == map[])
    ensures var x1 := TNext(x, s).value; |x1.calls| <= 1 && forall t | t in x1.calls :: x1.calls[t].seen == x1.row
  {
    var x1 := TNext(x, s).value;
    assert |x.calls| == |x.calls.Keys| && |x1.calls| == |x1.calls.Keys|;
    if !s.ReadSettings? {
      SubsetSize(x1.calls.Keys, x.calls.Keys);
    }
    if s.SaveSettings? {
      OnlyKey(x.calls.Keys, s.t);
      assert x1.calls.Keys == {};
    }
  }

  lemma OnlyKey(a: set<Tid>, t: Tid)
    requires |a| <= 1 && t in a
    ensures a == {t}
  {
    assert |a - {t}| == |a| - 1;
  }

  /** A call nobody comes between does what the service does when it is called on its own. */
  lemma SoloCall(x: Traced, t: Tid, f: PostureForm, debug: bool, devKey: bool)
    requires InSync(x) && t !in x.b.txns && FormRefusal(x.row, f, HasAdmin(x.b), debug, devKey).None?
    ensures var next := Planned(x.row, f);
      Exec(TNext, x, [ReadSettings(t, f), CheckSettings(t, debug, devKey), SaveSettings(t)])
      == Some(Traced(x.b.(posture := next.posture), next, x.log + RowEvents(x.row, next), x.calls))
  {
    var steps := [ReadSettings(t, f), CheckSettings(t, debug, devKey), SaveSettings(t)];
    var next := Planned(x.row, f);
    var x1 := AfterRead(x, t, f);
    SameAdmins(x.b, x1.b);
    CheckStep(x1, t, f, x.row, debug, devKey);
    var x2 := AfterCheck(x1, t, next.posture);
    SaveStep(x2, t, f, x.row);
    var x3 := AfterSave(x2, t, x.row, next);
    CameAndWent(x, t, f, next);
    ExecFirst(TNext, x2, steps[2..]);
    ExecFirst(TNext, x1, steps[1..]);
    ExecFirst(TNext, x, steps);
  }

  // ----- the run that loses a switch

  const NOTHING := PostureForm(Absent, Absent, None, Absent)
  const TO_PERSONAL := PostureForm(Given(Personal), Absent, None, Absent)

  function LostSwitch(t: Tid, u: Tid): seq<Step> {
    [ReadSettings(t, NOTHING), ReadSettings(u, TO_PERSONAL), CheckSettings(u, false, false), SaveSettings(u),
     CheckSettings(t, false, false), SaveSettings(t)]
  }

  /** The switch on its own: read by both calls, then judged and saved by one of them. */
  lemma SwitchGoesThrough(x: Traced, t: Tid, u: Tid) returns (x2: Traced, x3: Traced, x4: Traced)
    requires x.row == FACTORY && x.b.posture == Open && HasAdmin(x.b)
    requires t != u && t !in x.b.txns && u !in x.b.txns
    ensures TNext(x, ReadSettings(t, NOTHING)) == Some(AfterRead(x, t, NOTHING))
    ensures TNext(AfterRead(x, t, NOTHING), ReadSettings(u, TO_PERSONAL)) == Some(x2)
    ensures TNext(x2, CheckSettings(u, false, false)) == Some(x3) && TNext(x3, SaveSettings(u)) == Some(x4)
    ensures x4.row == Planned(FACTORY, TO_PERSONAL)
    ensures x4.log == x.log + RowEvents(FACTORY, Planned(FACTORY, TO_PERSONAL))
    ensures t in x4.calls && x4.calls[t] == Call(NOTHING, FACTORY)
    ensures t in x4.b.txns && x4.b.txns[t] == RowRead(None, Open)
  {
    x2 := AfterRead(AfterRead(x, t, NOTHING), u, TO_PERSONAL);
    SameAdmins(x.b, x2.b);
    CheckStep(x2, u, TO_PERSONAL, FACTORY, false, false);
    x3 := AfterCheck(x2, u, Personal);
    SaveStep(x3, u, TO_PERSONAL, FACTORY);
    x4 := AfterSave(x3, u, FACTORY, Planned(FACTORY, TO_PERSONAL));
  }

  /**
   A call that asks nothing of the posture, read before a switch and saved after it, takes the
   switch back without a word: the box is open and the trail says personal.
   */
  lemma SwitchTakenBack(x: Traced, t: Tid, u: Tid)
    requires Explained(x) && x.row == FACTORY && x.b.posture == Open && HasAdmin(x.b)
    requires t != u && t !in x.b.txns && u !in x.b.txns
    ensures Exec(TNext, x, LostSwitch(t, u)).Some?
    ensures var x1 := Exec(TNext, x, LostSwitch(t, u)).value;
      x1.row == FACTORY && x1.b.posture == Open && Replay(x1.log).posture == Personal && !Explained(x1)
  {
    var x2, x3, x4 := SwitchGoesThrough(x, t, u);
    CheckStep(x4, t, NOTHING, FACTORY, false, false);
    var x5 := AfterCheck(x4, t, Open);
    SaveStep(x5, t, NOTHING, FACTORY);
    var x6 := AfterSave(x5, t, FACTORY, FACTORY);
    SixSteps(x, AfterRead(x, t, NOTHING), x2, x3, x4, x5, x6, LostSwitch(t, u));
    RowEventsTellColumns(x.log, FACTORY, Planned(FACTORY, TO_PERSONAL));
    RowEventsTellColumns(x4.log, FACTORY, FACTORY);
  }

  function AfterRead(x: Traced, t: Tid, form: PostureForm): Traced {
    x.(b := x.b.(txns := x.b.txns[t := RowRead(AskedPosture(form), x.b.posture)]),
       calls := x.calls[t := Call(form, x.row)])
  }

  function AfterCheck(x: Traced, t: Tid, posture: Posture): Traced {
    x.(b := x.b.(txns := x.b.txns[t := Checked(posture)]))
  }

  function AfterSave(x: Traced, t: Tid, seen: PostureRow, next: PostureRow): Traced {
    Traced(End(x.b.(posture := next.posture), t), next, x.log + RowEvents(seen, next), x.calls - {t})
  }

  lemma CameAndWent(x: Traced, t: Tid, f: PostureForm, next: PostureRow)
    requires t !in x.calls && t !in x.b.txns
    ensures AfterSave(AfterCheck(AfterRead(x, t, f), t, next.posture), t, x.row, next)
      == Traced(x.b.(posture := next.posture), next, x.log + RowEvents(x.row, next), x.calls)
  {
    assert x.calls[t := Call(f, x.row)] - {t} == x.calls;
    assert x.b.txns[t := Checked(next.posture)] - {t} == x.b.txns;
    assert x.b.txns[t := RowRead(AskedPosture(f), x.b.posture)][t := Checked(next.posture)]
      == x.b.txns[t := Checked(next.posture)];
  }

  lemma CheckStep(x: Traced, t: Tid, form: PostureForm, seen: PostureRow, debug: bool, devKey: bool)
    requires t in x.calls && x.calls[t] == Call(form, seen)
    requires FormRefusal(seen, form, HasAdmin(x.b), debug, devKey).None?
    requires t in x.b.txns && x.b.txns[t] == RowRead(AskedPosture(form), seen.posture)
    ensures TNext(x, CheckSettings(t, debug, devKey)) == Some(AfterCheck(x, t, Planned(seen, form).posture))
  {
  }

  lemma SaveStep(x: Traced, t: Tid, form: PostureForm, seen: PostureRow)
    requires t in x.calls && x.calls[t] == Call(form, seen)
    requires t in x.b.txns && x.b.txns[t] == Checked(Planned(seen, form).posture)
    ensures TNext(x, SaveSettings(t)) == Some(AfterSave(x, t, seen, Planned(seen, form)))
  {
  }

  lemma SameAdmins(b: Box, b1: Box)
    requires b.accounts == b1.accounts
    ensures HasAdmin(b) == HasAdmin(b1)
  {
    assert Admins(b) == Admins(b1);
  }

  lemma SixSteps(x: Traced, x1: Traced, x2: Traced, x3: Traced, x4: Traced, x5: Traced, x6: Traced, steps: seq<Step>)
    requires |steps| == 6
    requires TNext(x, steps[0]) == Some(x1) && TNext(x1, steps[1]) == Some(x2) && TNext(x2, steps[2]) == Some(x3)
    requires TNext(x3, steps[3]) == Some(x4) && TNext(x4, steps[4]) == Some(x5) && TNext(x5, steps[5]) == Some(x6)
    ensures Exec(TNext, x, steps) == Some(x6)
  {
    ExecFirst(TNext, x5, steps[5..]);
    ExecFirst(TNext, x4, steps[4..]);
    ExecFirst(TNext, x3, steps[3..]);
    ExecFirst(TNext, x2, steps[2..]);
    ExecFirst(TNext, x1, steps[1..]);
    ExecFirst(TNext, x, steps);
  }
}

/**
 The login throttle over the append-only log: five recorded failures of one name within the
 window refuse the sixth attempt before its password is looked at.

 Several requests may be between their check and their outcome at once, at most one per
 worker. White space, NFKC and case folding are parameters; a clock tick is a second.
 */
module Throttle {
  import opened Common
  import opened Collections
  import opened Runs
  import opened Stripping

  datatype Unicode = Unicode(isSpace: char -> bool, nfkc: string -> string, fold: string -> string)

  datatype Failure = Failure(name: string, at: int)

  const THRESHOLD := 5
  const WINDOW := 900
  const NAME_MAX := 255

  // ----- one key, written and read

  function Truncate(s: string): string {
    if |s| <= NAME_MAX then s else s[..NAME_MAX]
  }

  function Canonical(u: Unicode, name: string): string {
    u.nfkc(Strip(u.isSpace, name))
  }

  /** form_invalid canonicalises and truncates what was submitted; record truncates again. */
  function WrittenName(u: Unicode, submitted: string): string {
    Truncate(Truncate(Canonical(u, submitted)))
  }

  /** post strips what was submitted; locked_out canonicalises and truncates that. */
  function ReadName(u: Unicode, submitted: string): string {
    Truncate(Canonical(u, Strip(u.isSpace, submitted)))
  }

  /** Whatever was typed, the row written and the rows counted go by one name. */
  lemma OneKey(u: Unicode, submitted: string)
    ensures ReadName(u, submitted) == WrittenName(u, submitted)
  {
    StripTwice(u.isSpace, submitted);
  }

  // ----- counting

  /** Recorded failures of one folded name between two instants, both included. */
  function Count(u: Unicode, log: seq<Failure>, folded: string, lo: int, hi: int): nat {
    if log == [] then 0
    else
      var last := log[|log| - 1];
      Count(u, log[..|log| - 1], folded, lo, hi) + if u.fold(last.name) == folded && lo <= last.at <= hi then 1 else 0
  }

  /** at__gte: the newest row is never later than now. */
  function CountSince(u: Unicode, log: seq<Failure>, name: string, since: int): nat {
    if log == [] then 0
    else
      var last := log[|log| - 1];
      CountSince(u, log[..|log| - 1], name, since)
      + if u.fold(last.name) == u.fold(name) && last.at >= since then 1 else 0
  }

  predicate LockedOut(u: Unicode, log: seq<Failure>, submitted: string, now: int) {
    var name := ReadName(u, submitted);
    name != "" && CountSince(u, log, name, now - WINDOW) >= THRESHOLD
  }

  /** The rows of one folded name since an instant. */
  function Rows(u: Unicode, log: seq<Failure>, folded: string, since: int): set<nat> {
    set i: nat | i < |log| && u.fold(log[i].name) == folded && log[i].at >= since
  }

  lemma RowsLast(u: Unicode, log: seq<Failure>, folded: string, since: int)
    requires log != []
    ensures var (last, some) := (|log| - 1, Rows(u, log[..|log| - 1], folded, since));
      && last !in some
      && Rows(u, log, folded, since)
         == some + if u.fold(log[last].name) == folded && log[last].at >= since then {last} else {}
  {
    var front := log[..|log| - 1];
    forall i: nat ensures i in Rows(u, front, folded, since) <==> i < |log| - 1 && i in Rows(u, log, folded, since) {
      assert i < |log| - 1 ==> front[i] == log[i];
    }
  }

  lemma {:induction false} CountIsRows(u: Unicode, log: seq<Failure>, name: string, since: int)
    ensures CountSince(u, log, name, since) == |Rows(u, log, u.fold(name), since)|
  {
    if log != [] {
      CountIsRows(u, log[..|log| - 1], name, since);
      RowsLast(u, log, u.fold(name), since);
    }
  }

  /** Five rows of the name, in whatever case, within the last 900 seconds, the limits included: that locks it. */
  lemma LockedOutIff(u: Unicode, log: seq<Failure>, submitted: string, now: int)
    ensures LockedOut(u, log, submitted, now) <==>
      ReadName(u, submitted) != "" && |Rows(u, log, u.fold(ReadName(u, submitted)), now - 900)| >= 5
  {
    CountIsRows(u, log, ReadName(u, submitted), now - WINDOW);
  }

  /** A name is cut to its first 255 characters, and only names that agree on those fall together. */
  lemma NamesAreCut(u: Unicode, one: string, other: string)
    ensures Truncate(one) <= one && |Truncate(one)| == if |one| < 255 then |one| else 255
    ensures Truncate(one) == Truncate(other) <==>
      one == other || (|one| >= 255 && |other| >= 255 && one[..255] == other[..255])
    ensures WrittenName(u, one) == Truncate(u.nfkc(Strip(u.isSpace, one)))
  {
    if Truncate(one) == Truncate(other) && (|one| < 255 || |other| < 255) {
      assert |Truncate(one)| == |Truncate(other)|;
    }
    if |one| == 255 {
      assert one[..255] == one;
    }
    if |other| == 255 {
      assert other[..255] == other;
    }
  }

  lemma CountAppend(u: Unicode, log: seq<Failure>, f: Failure, folded: string, lo: int, hi: int)
    ensures Count(u, log + [f], folded, lo, hi)
         == Count(u, log, folded, lo, hi) + if u.fold(f.name) == folded && lo <= f.at <= hi then 1 else 0
  {
    assert (log + [f])[..|log|] == log;
  }

  lemma {:induction false} CountIsCountSince(u: Unicode, log: seq<Failure>, name: string, lo: int, hi: int)
    requires forall f | f in log :: f.at <= hi
    ensures Count(u, log, u.fold(name), lo, hi) == CountSince(u, log, name, lo)
  {
    if log != [] {
      CountIsCountSince(u, log[..|log| - 1], name, lo, hi);
    }
  }

  lemma {:induction false} NarrowerCounts(u: Unicode, log: seq<Failure>, folded: string, lo: int, hi: int, lo1: int,
                                          hi1: int)
    requires forall f | f in log :: lo <= f.at <= hi ==> lo1 <= f.at <= hi1
    ensures Count(u, log, folded, lo, hi) <= Count(u, log, folded, lo1, hi1)
  {
    if log != [] {
      NarrowerCounts(u, log[..|log| - 1], folded, lo, hi, lo1, hi1);
      assert log[|log| - 1] in log;
    }
  }

  // ----- many requests at once

  type Tid = nat

  /** flying: the name under which each request past its check would record a failure. */
  datatype Box = Box(now: int, log: seq<Failure>, flying: map<Tid, string>)

  datatype Action =
    | Tick
    | Attempt(t: Tid, submitted: string)
    | Fail(t: Tid)
    | Finish(t: Tid)

  /** One step with the given number of workers; a refused attempt changes nothing at all. */
  function Next(u: Unicode, workers: nat, b: Box, a: Action): Option<Box> {
    match a
    case Tick => Some(b.(now := b.now + 1))
    case Attempt(t, submitted) =>
      if t in b.flying || |b.flying| >= workers then None
      else if LockedOut(u, b.log, submitted, b.now) then Some(b)
      else Some(b.(flying := b.flying[t := WrittenName(u, submitted)]))
    case Fail(t) =>
      if t in b.flying
      then Some(b.(log := b.log + [Failure(b.flying[t], b.now)], flying := b.flying - {t}))
      else None
    case Finish(t) =>
      if t in b.flying then Some(b.(flying := b.flying - {t})) else None
  }

  /**
   The clock moves one second at a tick and at nothing else; a row is written by a failed
   attempt alone, for the name it came with, at that instant; who is refused leaves no mark.
   */
  lemma StepWrites(u: Unicode, workers: nat, b: Box, a: Action)
    requires Next(u, workers, b, a).Some?
    ensures var b1 := Next(u, workers, b, a).value;
      && b1.now - b.now == (if a.Tick? then 1 else 0)
      && b1.log == b.log + (if a.Fail? then [Failure(b.flying[a.t], b.now)] else [])
      && (a.Attempt? ==> b1.flying == if LockedOut(u, b.log, a.submitted, b.now) then b.flying
                                      else b.flying[a.t := WrittenName(u, a.submitted)])
      && (a.Fail? || a.Finish? ==> a.t in b.flying && b1.flying == b.flying - {a.t})
      && (a.Tick? ==> b1.flying == b.flying)
    ensures a.Attempt? ==> a.t !in b.flying && |b.flying| < workers
  {
  }

  /** The machine of one set of tables and that many workers. */
  function Machine(u: Unicode, workers: nat): (Box, Action) -> Option<Box> {
    (b, a) => Next(u, workers, b, a)
  }

  function Flying(u: Unicode, b: Box, folded: string): set<Tid> {
    set t | t in b.flying && u.fold(b.flying[t]) == folded
  }

  /** Not the fold of the empty name, the one name that is never locked out. */
  ghost predicate Throttled(u: Unicode, folded: string) {
    u.fold("") != folded
  }

  /** Recorded failures in the window that starts at lo. */
  function InWindow(u: Unicode, log: seq<Failure>, folded: string, lo: int): nat {
    Count(u, log, folded, lo, lo + WINDOW)
  }

  function Most(workers: nat): nat {
    THRESHOLD - 1 + workers
  }

  /** Windows still open have room for every attempt of that name in flight. */
  ghost predicate Inv(u: Unicode, workers: nat, b: Box, folded: string) {
    && |b.flying| <= workers
    && (forall f | f in b.log :: f.at <= b.now)
    && (forall lo :: InWindow(u, b.log, folded, lo) <= Most(workers))
    && (forall lo :: lo + WINDOW >= b.now ==> InWindow(u, b.log, folded, lo) + |Flying(u, b, folded)| <= Most(workers))
  }

  lemma FlyingBound(u: Unicode, b: Box, folded: string)
    ensures |Flying(u, b, folded)| <= |b.flying|
  {
    SubsetSize(Flying(u, b, folded), b.flying.Keys);
  }

  lemma PassedCheckCounts(u: Unicode, b: Box, submitted: string, folded: string, lo: int)
    requires Throttled(u, folded) && !LockedOut(u, b.log, submitted, b.now)
    requires u.fold(WrittenName(u, submitted)) == folded
    requires (forall f | f in b.log :: f.at <= b.now) && lo + WINDOW >= b.now
    ensures InWindow(u, b.log, folded, lo) < THRESHOLD
  {
    OneKey(u, submitted);
    CountIsCountSince(u, b.log, WrittenName(u, submitted), b.now - WINDOW, b.now);
    NarrowerCounts(u, b.log, folded, lo, lo + WINDOW, b.now - WINDOW, b.now);
  }

  lemma OthersFlying(u: Unicode, b: Box, b1: Box, t: Tid, name: string, folded: string)
    requires t !in b.flying && b1.flying == b.flying[t := name]
    ensures u.fold(name) != folded ==> Flying(u, b1, folded) == Flying(u, b, folded)
    ensures |b1.flying| == |b.flying| + 1
  {
    assert b1.flying.Keys == b.flying.Keys + {t};
    assert |b1.flying| == |b1.flying.Keys| && |b.flying| == |b.flying.Keys|;
  }

  lemma AttemptKeeps(u: Unicode, workers: nat, b: Box, t: Tid, submitted: string, folded: string)
    requires Throttled(u, folded) && Inv(u, workers, b, folded) && Next(u, workers, b, Attempt(t, submitted)).Some?
    ensures Inv(u, workers, Next(u, workers, b, Attempt(t, submitted)).value, folded)
  {
    var b1 := Next(u, workers, b, Attempt(t, submitted)).value;
    if !LockedOut(u, b.log, submitted, b.now) {
      OthersFlying(u, b, b1, t, WrittenName(u, submitted), folded);
      FlyingBound(u, b1, folded);
      forall lo | lo + WINDOW >= b1.now
        ensures InWindow(u, b1.log, folded, lo) + |Flying(u, b1, folded)| <= Most(workers)
      {
        if u.fold(WrittenName(u, submitted)) == folded {
          PassedCheckCounts(u, b, submitted, folded, lo);
        } else {
          assert InWindow(u, b.log, folded, lo) + |Flying(u, b, folded)| <= Most(workers);
        }
      }
    }
  }

  lemma WithoutOne<T>(a: set<T>, x: T)
    ensures |a - {x}| == |a| - if x in a then 1 else 0
  {
    if x !in a {
      assert a - {x} == a;
    }
  }

  lemma FlyingLands(u: Unicode, b: Box, b1: Box, t: Tid, folded: string)
    requires t in b.flying && b1.flying == b.flying - {t}
    ensures |Flying(u, b1, folded)|
         == |Flying(u, b, folded)| - if u.fold(b.flying[t]) == folded then 1 else 0
    ensures |b1.flying| <= |b.flying|
  {
    assert Flying(u, b1, folded) == Flying(u, b, folded) - {t};
    WithoutOne(Flying(u, b, folded), t);
    assert b1.flying.Keys == b.flying.Keys - {t};
    WithoutOne(b.flying.Keys, t);
    assert |b1.flying| == |b1.flying.Keys| && |b.flying| == |b.flying.Keys|;
  }

  lemma FailKeeps(u: Unicode, workers: nat, b: Box, t: Tid, folded: string)
    requires Inv(u, workers, b, folded) && t in b.flying
    ensures Inv(u, workers, Next(u, workers, b, Fail(t)).value, folded)
  {
    var b1 := Next(u, workers, b, Fail(t)).value;
    FlyingLands(u, b, b1, t, folded);
    var f := Failure(b.flying[t], b.now);
    forall lo
      ensures InWindow(u, b1.log, folded, lo) <= Most(workers)
      ensures lo + WINDOW >= b1.now ==> InWindow(u, b1.log, folded, lo) + |Flying(u, b1, folded)| <= Most(workers)
    {
      CountAppend(u, b.log, f, folded, lo, lo + WINDOW);
      assert InWindow(u, b.log, folded, lo) <= Most(workers);
    }
  }

  lemma StepKeeps(u: Unicode, workers: nat, b: Box, a: Action, folded: string)
    requires Throttled(u, folded) && Inv(u, workers, b, folded) && Next(u, workers, b, a).Some?
    ensures Inv(u, workers, Next(u, workers, b, a).value, folded)
  {
    var b1 := Next(u, workers, b, a).value;
    match a
    case Tick =>
      assert Flying(u, b1, folded) == Flying(u, b, folded);
      assert forall lo :: InWindow(u, b1.log, folded, lo) == InWindow(u, b.log, folded, lo);
    case Attempt(t, submitted) => AttemptKeeps(u, workers, b, t, submitted, folded);
    case Fail(t) => FailKeeps(u, workers, b, t, folded);
    case Finish(t) =>
      FlyingLands(u, b, b1, t, folded);
      assert forall lo :: InWindow(u, b1.log, folded, lo) == InWindow(u, b.log, folded, lo);
  }

  lemma {:induction false} RunKeeps(u: Unicode, workers: nat, b: Box, acts: seq<Action>, folded: string)
    requires Throttled(u, folded) && Inv(u, workers, b, folded) && Exec(Machine(u, workers), b, acts).Some?
    ensures Inv(u, workers, Exec(Machine(u, workers), b, acts).value, folded)
    decreases |acts|
  {
    if acts != [] {
      StepKeeps(u, workers, b, acts[0], folded);
      RunKeeps(u, workers, Next(u, workers, b, acts[0]).value, acts[1..], folded);
    }
  }

  const START := Box(0, [], map[])

  /** No run records more failures of one name in any window than four and the number of workers. */
  lemma AtMostFourAndWorkers(u: Unicode, workers: nat, acts: seq<Action>, folded: string, lo: int)
    requires Throttled(u, folded) && Exec(Machine(u, workers), START, acts).Some?
    ensures InWindow(u, Exec(Machine(u, workers), START, acts).value.log, folded, lo) <= Most(workers)
  {
    assert Flying(u, START, folded) == {};
    RunKeeps(u, workers, START, acts, folded);
  }

  // ----- the bound is reached

  function Same(n: nat, f: Failure): seq<Failure> {
    seq(n, _ => f)
  }

  function InFlight(n: nat, name: string): (flying: map<Tid, string>)
    ensures forall t: Tid :: t in flying <==> t < n
    ensures forall t: Tid | t < n :: flying[t] == name
  {
    if n == 0 then map[] else InFlight(n - 1, name)[n - 1 := name]
  }

  /** m failures recorded and n requests past their check, all of one name and at once. */
  function Burst(f: Failure, m: nat, n: nat): Box {
    Box(f.at, Same(m, f), InFlight(n, f.name))
  }

  lemma {:induction false} InFlightSize(n: nat, name: string)
    ensures |InFlight(n, name)| == n
  {
    if n > 0 {
      InFlightSize(n - 1, name);
      var more, fewer := InFlight(n, name), InFlight(n - 1, name);
      assert more.Keys == fewer.Keys + {n - 1};
      assert |more| == |more.Keys| && |fewer| == |fewer.Keys|;
    }
  }

  lemma {:induction false} SameCounts(u: Unicode, n: nat, f: Failure, lo: int, hi: int)
    requires lo <= f.at <= hi
    ensures Count(u, Same(n, f), u.fold(f.name), lo, hi) == n
  {
    if n > 0 {
      assert Same(n, f)[..n - 1] == Same(n - 1, f);
      SameCounts(u, n - 1, f, lo, hi);
    }
  }

  lemma NotYetLocked(u: Unicode, n: nat, submitted: string, now: int)
    requires n < THRESHOLD
    ensures !LockedOut(u, Same(n, Failure(WrittenName(u, submitted), now)), submitted, now)
  {
    var f := Failure(WrittenName(u, submitted), now);
    OneKey(u, submitted);
    SameCounts(u, n, f, now - WINDOW, now);
    CountIsCountSince(u, Same(n, f), f.name, now - WINDOW, now);
  }

  lemma OneMoreFlies(u: Unicode, workers: nat, submitted: string, now: int, m: nat, n: nat)
    requires m < THRESHOLD && n < workers
    ensures var f := Failure(WrittenName(u, submitted), now);
      Reaches(Machine(u, workers), Burst(f, m, n), Burst(f, m, n + 1))
  {
    var f := Failure(WrittenName(u, submitted), now);
    NotYetLocked(u, m, submitted, now);
    InFlightSize(n, f.name);
    ReachesStep(Machine(u, workers), Burst(f, m, n), Attempt(n, submitted));
  }

  lemma OneMoreFails(u: Unicode, workers: nat, f: Failure, m: nat, n: nat)
    ensures Reaches(Machine(u, workers), Burst(f, m, n + 1), Burst(f, m + 1, n))
  {
    assert Same(m, f) + [f] == Same(m + 1, f);
    assert InFlight(n + 1, f.name) - {n} == InFlight(n, f.name);
    ReachesStep(Machine(u, workers), Burst(f, m, n + 1), Fail(n));
  }

  /** Below the threshold, failures can be recorded one request at a time. */
  lemma {:induction false} OneByOne(u: Unicode, workers: nat, submitted: string, now: int, m: nat)
    requires workers > 0 && m < THRESHOLD
    ensures var f := Failure(WrittenName(u, submitted), now);
      Reaches(Machine(u, workers), Burst(f, 0, 0), Burst(f, m, 0))
  {
    var f := Failure(WrittenName(u, submitted), now);
    if m == 0 {
      ReachesItself(Machine(u, workers), Burst(f, 0, 0));
    } else {
      OneByOne(u, workers, submitted, now, m - 1);
      OneMoreFlies(u, workers, submitted, now, m - 1, 0);
      OneMoreFails(u, workers, f, m - 1, 0);
      ReachesTrans(Machine(u, workers), Burst(f, m - 1, 0), Burst(f, m - 1, 1), Burst(f, m, 0));
      ReachesTrans(Machine(u, workers), Burst(f, 0, 0), Burst(f, m - 1, 0), Burst(f, m, 0));
    }
  }

  /** Below the threshold, every worker can pass the check before any of them records its failure. */
  lemma {:induction false} AllFly(u: Unicode, workers: nat, submitted: string, now: int, m: nat, n: nat)
    requires m < THRESHOLD && n <= workers
    ensures var f := Failure(WrittenName(u, submitted), now);
      Reaches(Machine(u, workers), Burst(f, m, 0), Burst(f, m, n))
  {
    var f := Failure(WrittenName(u, submitted), now);
    if n == 0 {
      ReachesItself(Machine(u, workers), Burst(f, m, 0));
    } else {
      AllFly(u, workers, submitted, now, m, n - 1);
      OneMoreFlies(u, workers, submitted, now, m, n - 1);
      ReachesTrans(Machine(u, workers), Burst(f, m, 0), Burst(f, m, n - 1), Burst(f, m, n));
    }
  }

  lemma {:induction false} AllFail(u: Unicode, workers: nat, f: Failure, m: nat, n: nat)
    ensures Reaches(Machine(u, workers), Burst(f, m, n), Burst(f, m + n, 0))
    decreases n
  {
    if n == 0 {
      ReachesItself(Machine(u, workers), Burst(f, m, 0));
    } else {
      OneMoreFails(u, workers, f, m, n - 1);
      AllFail(u, workers, f, m + 1, n - 1);
      ReachesTrans(Machine(u, workers), Burst(f, m, n), Burst(f, m + 1, n - 1), Burst(f, m + n, 0));
    }
  }

  /** Four sequential failures, then every worker past its check at once: the bound is met in one instant. */
  lemma BoundIsReached(u: Unicode, workers: nat, submitted: string) returns (acts: seq<Action>)
    requires workers > 0
    ensures Exec(Machine(u, workers), START, acts).Some?
    ensures InWindow(u, Exec(Machine(u, workers), START, acts).value.log, u.fold(WrittenName(u, submitted)), 0)
      == Most(workers)
  {
    var f := Failure(WrittenName(u, submitted), 0);
    var four: nat := THRESHOLD - 1;
    OneByOne(u, workers, submitted, 0, four);
    AllFly(u, workers, submitted, 0, four, workers);
    AllFail(u, workers, f, four, workers);
    ReachesTrans(Machine(u, workers), Burst(f, 0, 0), Burst(f, four, 0), Burst(f, four, workers));
    ReachesTrans(Machine(u, workers), Burst(f, 0, 0), Burst(f, four, workers), Burst(f, four + workers, 0));
    assert Burst(f, 0, 0) == START;
    acts :| Exec(Machine(u, workers), START, acts) == Some(Burst(f, four + workers, 0));
    SameCounts(u, four + workers, f, 0, WINDOW);
  }

  ghost predicate FiveAtMost(u: Unicode, workers: nat, folded: string) {
    forall acts, lo :: Exec(Machine(u, workers), START, acts).Some? ==>
      InWindow(u, Exec(Machine(u, workers), START, acts).value.log, folded, lo) <= THRESHOLD
  }

  /** "Five attempts in fifteen minutes" is true of every run exactly when requests do not overlap. */
  lemma FiveIffSequential(u: Unicode, workers: nat, submitted: string)
    requires Throttled(u, u.fold(WrittenName(u, submitted)))
    ensures FiveAtMost(u, workers, u.fold(WrittenName(u, submitted))) <==> workers <= 1
  {
    var folded := u.fold(WrittenName(u, submitted));
    if workers <= 1 {
      forall acts, lo | Exec(Machine(u, workers), START, acts).Some?
        ensures InWindow(u, Exec(Machine(u, workers), START, acts).value.log, folded, lo) <= THRESHOLD
      {
        AtMostFourAndWorkers(u, workers, acts, folded, lo);
      }
    } else {
      var acts := BoundIsReached(u, workers, submitted);
      assert !FiveAtMost(u, workers, folded);
    }
  }

  // ----- the lockout ends by itself

  /** A run with its refused attempts taken out ends in the same state. */
  lemma RefusalLeavesNoTrace(u: Unicode, workers: nat, b: Box, before: seq<Action>, t: Tid, submitted: string,
                             after: seq<Action>)
    requires Exec(Machine(u, workers), b, before).Some?
    requires var b1 := Exec(Machine(u, workers), b, before).value;
      t !in b1.flying && |b1.flying| < workers && LockedOut(u, b1.log, submitted, b1.now)
    ensures Exec(Machine(u, workers), b, before + [Attempt(t, submitted)] + after)
      == Exec(Machine(u, workers), b, before + after)
  {
    var b1 := Exec(Machine(u, workers), b, before).value;
    ExecOne(Machine(u, workers), b1, Attempt(t, submitted));
    ExecAppend(Machine(u, workers), b, before, [Attempt(t, submitted)]);
    ExecAppend(Machine(u, workers), b, before + [Attempt(t, submitted)], after);
    ExecAppend(Machine(u, workers), b, before, after);
  }

  lemma {:induction false} OldRowsDoNotCount(u: Unicode, log: seq<Failure>, name: string, since: int)
    ensures CountSince(u, log, name, since) > 0
      <==> exists f :: f in log && u.fold(f.name) == u.fold(name) && f.at >= since
  {
    if log != [] {
      OldRowsDoNotCount(u, log[..|log| - 1], name, since);
      assert log == log[..|log| - 1] + [log[|log| - 1]];
    }
  }

  /** Once the last failure of a name is more than a window old, that name may try again. */
  lemma FreeAfterTheWindow(u: Unicode, log: seq<Failure>, submitted: string, now: int)
    requires forall f | f in log && u.fold(f.name) == u.fold(ReadName(u, submitted)) :: f.at + WINDOW < now
    ensures !LockedOut(u, log, submitted, now)
  {
    OldRowsDoNotCount(u, log, ReadName(u, submitted), now - WINDOW);
  }

  /** Names that fold alike are refused alike: spelling and case make no second account. */
  lemma SpellingsShareTheLock(u: Unicode, log: seq<Failure>, one: string, other: string, now: int)
    requires u.fold(ReadName(u, one)) == u.fold(ReadName(u, other))
    requires ReadName(u, one) != "" && ReadName(u, other) != ""
    ensures LockedOut(u, log, one, now) == LockedOut(u, log, other, now)
  {
    CountByFold(u, log, ReadName(u, one), ReadName(u, other), now - WINDOW);
  }

  lemma {:induction false} CountByFold(u: Unicode, log: seq<Failure>, one: string, other: string, since: int)
    requires u.fold(one) == u.fold(other)
    ensures CountSince(u, log, one, since) == CountSince(u, log, other, since)
  {
    if log != [] {
      CountByFold(u, log[..|log| - 1], one, other, since);
    }
  }

  // ----- the view

  class LoginLog {
    var log: seq<Failure>

    constructor ()
      ensures log == []
    {
      log := [];
    }

    /** failed_logins_since: a count over the stored rows. */
    method FailedLoginsSince(u: Unicode, name: string, since: int) returns (n: nat)
      ensures n == CountSince(u, log, name, since)
    {
      n := 0;
      for i := 0 to |log|
        invariant n == CountSince(u, log[..i], name, since)
      {
        assert log[..i + 1][..i] == log[..i];
        if u.fold(log[i].name) == u.fold(name) && log[i].at >= since {
          n := n + 1;
        }
      }
      assert log[..|log|] == log;
    }

    /** One whole request: refused without a row, or checked, and then a row if the password is wrong. */
    method Post(u: Unicode, submitted: string, correct: bool, now: int) returns (refused: bool)
      modifies this
      ensures refused == LockedOut(u, old(log), submitted, now)
      ensures log == if refused || correct then old(log) else old(log) + [Failure(WrittenName(u, submitted), now)]
      ensures var b := Box(now, old(log), map[]);
        Exec(Machine(u, 1), b, if correct then [Attempt(0, submitted)] + (if refused then [] else [Finish(0)])
                      else [Attempt(0, submitted)] + if refused then [] else [Fail(0)]) == Some(Box(now, log, map[]))
    {
      var username := Strip(u.isSpace, submitted);
      var name := Truncate(Canonical(u, username));
      refused := false;
      ghost var b := Box(now, log, map[]);
      if name != "" {
        var n := FailedLoginsSince(u, name, now - WINDOW);
        refused := n >= THRESHOLD;
      }
      ExecOne(Machine(u, 1), b, Attempt(0, submitted));
      if refused {
        return;
      }
      ghost var b1 := Next(u, 1, b, Attempt(0, submitted)).value;
      assert b1.flying == map[0 := WrittenName(u, submitted)] && b1.flying - {0} == map[];
      ghost var a := if correct then Finish(0) else Fail(0);
      ExecOne(Machine(u, 1), b1, a);
      ExecAppend(Machine(u, 1), b, [Attempt(0, submitted)], [a]);
      if !correct {
        var written := Truncate(Canonical(u, submitted));
        log := log + [Failure(Truncate(written), now)];
      }
    }
  }
}

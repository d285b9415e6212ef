/**
 One flow reference, read twice: by the pattern that accepts it when the flow is declared,
 and by the splitting that dispatches it when the flow runs.

 A digit is an ASCII digit here. The patterns end in `$`, which also matches before one
 trailing newline.
 */
module FlowRefs {
  import opened Common
  import opened Digits
  import opened Splitting

  /** Where a reference points. A step's text takes no path. */
  datatype Target =
    | Input(key: string)
    | StepText(step: nat)
    | StepData(step: nat, path: seq<string>)
    | StepArtifacts(step: nat, path: seq<string>)

  predicate StartsWith(s: string, prefix: string) {
    |prefix| <= |s| && s[..|prefix|] == prefix
  }

  predicate IsLetter(c: char) {
    'A' <= c <= 'Z' || 'a' <= c <= 'z' || c == '_'
  }

  /** [A-Za-z_][A-Za-z0-9_]* */
  predicate IsName(s: string) {
    s != "" && IsLetter(s[0]) && forall i | 0 <= i < |s| :: IsLetter(s[i]) || IsDigit(s[i])
  }

  /** [A-Za-z0-9_]+ */
  predicate IsSegment(s: string) {
    s != "" && forall i | 0 <= i < |s| :: IsLetter(s[i]) || IsDigit(s[i])
  }

  /** The alphabet of names, at its edges; a name never starts like a number. */
  lemma NameAlphabet(s: string)
    ensures forall c | c in ['A', 'Z', 'a', 'z', '_'] :: IsLetter(c)
    ensures forall c | c in ['@', '[', '^', '`', '{', '0', '9', '-', '.', ' ', '\n'] :: !IsLetter(c)
    ensures forall c, d, e | IsLetter(c) && IsLetter(e) && c <= d <= e && (c >= 'a' || e <= 'Z') :: IsLetter(d)
    ensures IsName(s) <==> IsSegment(s) && !IsDigit(s[0])
    ensures IsDecimal(s) ==> IsSegment(s) && !IsName(s)
  {
  }

  predicate EndsInNewline(s: string) {
    s != "" && s[|s| - 1] == '\n'
  }

  /** The text `$` lets a pattern see: at most one trailing newline is passed over. */
  function Chomp(s: string): string {
    if EndsInNewline(s) then s[..|s| - 1] else s
  }

  function Dot(s: string): nat {
    Find('.', s)
  }

  /** str.partition("."), without the separator. */
  function Partition(s: string): (string, string) {
    if Dot(s) == |s| then (s, "") else (s[..Dot(s)], s[Dot(s) + 1..])
  }

  function Split(s: string): seq<string> {
    Splitting.Split('.', s)
  }

  // ----- at declaration

  function InputRef(v: string): Option<string> {
    if StartsWith(v, "$input.") && IsName(Chomp(v[7..])) then Some(Chomp(v[7..])) else None
  }

  function Field(field: string, step: nat, path: seq<string>): Option<Target> {
    if field == "text" then Some(StepText(step))
    else if field == "data" then Some(StepData(step, path))
    else if field == "artifacts" then Some(StepArtifacts(step, path))
    else None
  }

  function Numbered(number: string, field: string, path: seq<string>): Option<Target> {
    if IsDecimal(number) then Field(field, ParseNat(number), path) else None
  }

  function StepRef(v: string): Option<Target> {
    if !StartsWith(v, "$steps.") then None
    else
      var parts := Split(Chomp(v[7..]));
      if |parts| >= 2 && forall k | 2 <= k < |parts| :: IsSegment(parts[k])
      then Numbered(parts[0], parts[1], parts[2..])
      else None
  }

  /** Only these are read as references; "$5.00" is a value. */
  predicate Attempted(v: string) {
    StartsWith(v, "$input") || StartsWith(v, "$steps")
  }

  function Declared(v: string): Option<Target> {
    if InputRef(v).Some? then Some(Input(InputRef(v).value)) else StepRef(v)
  }

  // ----- at run time

  function PathOf(path: string): seq<string> {
    if path == "" then [] else Split(path)
  }

  function StepTarget(rest: string): Option<Target> {
    var (number, tail) := Partition(rest);
    var (field, path) := Partition(tail);
    Numbered(number, field, PathOf(path))
  }

  function Dispatch(v: string): Option<Target>
    requires v != ""
  {
    var (head, rest) := Partition(v[1..]);
    if head == "input" then Some(Input(rest))
    else if head != "steps" then None
    else StepTarget(rest)
  }

  /** The newline the declaration passed over sits where the dispatcher reads. */
  predicate Stray(v: string) {
    EndsInNewline(v) && !(StepRef(v).Some? && StepRef(v).value.StepText? && |Split(v[7..])| > 2)
  }

  lemma PartitionAt(s: string, d: nat)
    requires d < |s| && s[d] == '.' && forall i | 0 <= i < d :: s[i] != '.'
    ensures Partition(s) == (s[..d], s[d + 1..])
  {
    assert Dot(s) == d;
  }

  /** prefix is "$" + head + ".". */
  lemma HeadAt(v: string, head: string, prefix: string)
    requires StartsWith(v, prefix) && |prefix| == |head| + 2
    requires prefix[1..|prefix| - 1] == head && prefix[|prefix| - 1] == '.'
    requires forall k | 0 <= k < |head| :: head[k] != '.'
    ensures Partition(v[1..]) == (head, v[|prefix|..])
  {
    var body := v[1..];
    assert forall k | 0 <= k < |head| :: body[k] == v[..|prefix|][k + 1] == prefix[1..|prefix| - 1][k];
    assert body[..|head|] == head;
    assert body[|head|] == v[..|prefix|][|head| + 1];
    PartitionAt(body, |head|);
    assert body[|head| + 1..] == v[|prefix|..];
  }

  lemma InputHead(v: string)
    requires StartsWith(v, "$input.")
    ensures Dispatch(v) == Some(Input(v[7..])) && !StartsWith(v, "$steps.")
  {
    assert v[..7][1] == 'i';
    assert "$input."[1..6] == "input";
    HeadAt(v, "input", "$input.");
  }

  lemma StepsHead(v: string)
    requires StartsWith(v, "$steps.")
    ensures Dispatch(v) == StepTarget(v[7..]) && !StartsWith(v, "$input.")
  {
    assert v[..7][1] == 's';
    assert "$steps."[1..6] == "steps";
    HeadAt(v, "steps", "$steps.");
    assert "steps"[0] != "input"[0];
  }

  /** A character that is no dot lands at the end of the last part. */
  lemma {:induction false} SplitAppend(s: string, c: char)
    requires c != '.'
    ensures |Split(s)| > 0
    ensures var p := Split(s); Split(s + [c]) == p[..|p| - 1] + [p[|p| - 1] + [c]]
    decreases |s|
  {
    var d := Dot(s);
    if d == |s| {
      var e := Dot(s + [c]);
      assert e >= |s|;
    } else {
      SplitAppend(s[d + 1..], c);
      PartitionAt(s + [c], d);
      assert (s + [c])[..d] == s[..d] && (s + [c])[d + 1..] == s[d + 1..] + [c];
    }
  }

  function Path(parts: seq<string>): seq<string> {
    if parts == [""] then [] else parts
  }

  /** The dispatcher's partitions and the pattern's parts are the same pieces. */
  lemma PartsAgree(t: string)
    requires |Split(t)| >= 2
    ensures var p := Split(t);
      && Partition(t).0 == p[0]
      && Partition(Partition(t).1).0 == p[1]
      && PathOf(Partition(Partition(t).1).1) == Path(p[2..])
  {
    var tail := Partition(t).1;
    var p := Split(t);
    assert p == [Partition(t).0] + Split(tail);
    var path := Partition(tail).1;
    SplitEmpty('.', path);
    if Dot(tail) == |tail| {
      assert p[2..] == [];
    } else {
      assert Split(tail) == [Partition(tail).0] + Split(path);
      assert p[2..] == Split(path);
    }
  }

  lemma StepTargetParts(t: string)
    requires |Split(t)| >= 2
    ensures var p := Split(t); StepTarget(t) == Numbered(p[0], p[1], Path(p[2..]))
  {
    PartsAgree(t);
  }

  lemma StepRefParts(v: string)
    requires StepRef(v).Some?
    ensures StartsWith(v, "$steps.") && InputRef(v).None? && Dispatch(v) == StepTarget(v[7..])
    ensures |v| > 7 && |Split(Chomp(v[7..]))| >= 2
    ensures var p := Split(Chomp(v[7..])); Path(p[2..]) == p[2..] && StepRef(v) == Numbered(p[0], p[1], p[2..])
  {
    StepsHead(v);
    var p := Split(Chomp(v[7..]));
    SplitEmpty('.', Chomp(v[7..]));
    if |p| > 2 {
      assert IsSegment(p[2]) && p[2..][0] == p[2];
    }
  }

  lemma CleanStepDispatch(v: string)
    requires StepRef(v).Some? && !EndsInNewline(v)
    ensures Dispatch(v) == StepRef(v)
  {
    StepRefParts(v);
    assert Chomp(v[7..]) == v[7..];
    StepTargetParts(v[7..]);
  }

  lemma NewlineParts(t: string)
    requires |Split(t)| >= 2
    ensures var p, q := Split(t), Split(t + ['\n']);
      && |q| == |p| && q[0] == p[0]
      && (|p| == 2 ==> q[1] == p[1] + ['\n'])
      && (|p| > 2 ==> q[1] == p[1] && q[2..] != p[2..] && Path(q[2..]) == q[2..])
  {
    SplitAppend(t, '\n');
    var p, q := Split(t), Split(t + ['\n']);
    if |p| > 2 {
      var last := |p| - 3;
      assert q[2..][last] == p[2..][last] + ['\n'];
    }
  }

  lemma NewlineField(number: string, field: string, path: seq<string>)
    ensures Numbered(number, field + ['\n'], path).None?
  {
    var f := field + ['\n'];
    assert f[|f| - 1] == '\n';
  }

  lemma OtherPath(number: string, field: string, path: seq<string>, other: seq<string>)
    requires Numbered(number, field, path).Some? && path != other
    ensures Numbered(number, field, other) == Numbered(number, field, path) <==>
      Numbered(number, field, path).value.StepText?
  {
  }

  lemma NewlineTarget(t: string)
    requires |Split(t)| >= 2
    requires var p := Split(t); Path(p[2..]) == p[2..] && Numbered(p[0], p[1], p[2..]).Some?
    ensures var p := Split(t);
      StepTarget(t + ['\n']) == Numbered(p[0], p[1], p[2..])
      <==> Numbered(p[0], p[1], p[2..]).value.StepText? && |Split(t + ['\n'])| > 2
  {
    NewlineParts(t);
    var p, q := Split(t), Split(t + ['\n']);
    StepTargetParts(t + ['\n']);
    if |p| == 2 {
      NewlineField(p[0], p[1], Path(q[2..]));
    } else {
      OtherPath(p[0], p[1], p[2..], q[2..]);
    }
  }

  lemma ChompedTail(v: string)
    requires EndsInNewline(v) && |v| > 7
    ensures v[7..] == Chomp(v[7..]) + ['\n']
  {
    var w := v[7..];
    assert w[|w| - 1] == v[|v| - 1];
  }

  lemma NewlineStepDispatch(v: string)
    requires StepRef(v).Some? && EndsInNewline(v)
    ensures Dispatch(v) == StepRef(v) <==> StepRef(v).value.StepText? && |Split(v[7..])| > 2
  {
    StepRefParts(v);
    ChompedTail(v);
    NewlineTarget(Chomp(v[7..]));
  }

  /**
   The two readings agree on an accepted reference exactly when it is not a stray one: one
   ending in a newline, other than after a path below a step's text.
   */
  lemma AgreeIffNotStray(v: string)
    requires Declared(v).Some?
    ensures Dispatch(v) == Declared(v) <==> !Stray(v)
  {
    if InputRef(v).Some? {
      InputHead(v);
    } else if EndsInNewline(v) {
      NewlineStepDispatch(v);
    } else {
      CleanStepDispatch(v);
    }
  }

  /** What is accepted always looks like an attempt, so the two gates cover the same strings. */
  lemma AcceptedIsAttempted(v: string)
    requires Declared(v).Some?
    ensures Attempted(v)
  {
    assert v[..7][..6] == v[..6];
    assert "$input."[..6] == "$input" && "$steps."[..6] == "$steps";
  }

  /** Accepted, and read at run time as an input nobody declared. */
  lemma StrayExample()
    ensures Declared("$input.topic\n") == Some(Input("topic"))
    ensures Dispatch("$input.topic\n") == Some(Input("topic\n"))
  {
    var v := "$input.topic\n";
    assert v[7..] == "topic\n";
    assert Chomp(v[7..]) == "topic";
    assert IsName("topic");
    assert v[..7] == "$input.";
    InputHead(v);
  }
}

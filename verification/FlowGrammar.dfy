/**
 Flow declarations: the one parser that checks and reads a flow's inputs and steps, and the
 index-order run that resolves each step's arguments.

 A JSON object is its entries in order; Python's number types collapse into int.
 */
module FlowGrammar {
  import opened Common
  import opened Digits
  import opened FlowRefs

  datatype Json =
    | Null
    | Bool(b: bool)
    | Num(n: int)
    | Str(s: string)
    | List(items: seq<Json>)
    | Dict(entries: seq<Entry>)

  datatype Entry = Entry(key: string, value: Json)

  type Entries = seq<Entry>

  datatype FlowInput = FlowInput(key: string, caption: Json, description: Json, required: bool)

  datatype FlowStep = FlowStep(tool: string, args: Entries)

  /** A declaration arrives built in code, or as JSON off a row. */
  datatype Item<T> = Built(value: T) | Raw(json: Json)

  datatype Flaw =
    | NotAnObject
    | NoSteps
    | BlankKey
    | NoTool(step: nat)
    | Recursive(step: nat)
    | ArgsNotObject(step: nat)
    | Undeclared(step: nat, key: string)
    | NotBackwards(step: nat, referenced: nat)
    | Malformed(step: nat, value: string)

  datatype ToolResult = ToolResult(text: string, data: Json, artifacts: seq<string>)

  datatype Miss = NoTarget | NotAnInput | NotRun | NotThere

  datatype Unresolved = Unresolved(ref: string, why: Miss)

  function Get(entries: Entries, key: string): Option<Json> {
    if entries == [] then None
    else if entries[0].key == key then Some(entries[0].value)
    else Get(entries[1..], key)
  }

  function GetOr(entries: Entries, key: string, otherwise: Json): Json {
    match Get(entries, key) case Some(v) => v case None => otherwise
  }

  /** bool(value). */
  predicate Truthy(v: Json) {
    match v
    case Null => false
    case Bool(b) => b
    case Num(n) => n != 0
    case Str(s) => s != ""
    case List(items) => items != []
    case Dict(entries) => entries != []
  }

  // ----- the reference check

  function StepOf(t: Target): nat
    requires !t.Input?
  {
    match t case StepText(n) => n case StepData(n, _) => n case StepArtifacts(n, _) => n
  }

  function RefFlaw(v: string, index: nat, declared: set<string>): Option<Flaw> {
    if !Attempted(v) then None
    else match InputRef(v)
      case Some(key) => if key in declared then None else Some(Undeclared(index, key))
      case None =>
        match StepRef(v)
        case None => Some(Malformed(index, v))
        case Some(t) => if StepOf(t) < index then None else Some(NotBackwards(index, StepOf(t)))
  }

  function RefsFlaw(value: Json, index: nat, declared: set<string>): Option<Flaw>
    decreases value
  {
    match value
    case Dict(entries) => EntriesFlaw(entries, index, declared)
    case List(items) => ItemsFlaw(items, index, declared)
    case Str(s) => RefFlaw(s, index, declared)
    case _ => None
  }

  function ItemsFlaw(items: seq<Json>, index: nat, declared: set<string>): Option<Flaw>
    decreases items
  {
    if items == [] then None
    else
      var first := RefsFlaw(items[0], index, declared);
      if first.Some? then first else ItemsFlaw(items[1..], index, declared)
  }

  function EntriesFlaw(entries: Entries, index: nat, declared: set<string>): Option<Flaw>
    decreases entries
  {
    if entries == [] then None
    else
      var first := RefsFlaw(entries[0].value, index, declared);
      if first.Some? then first else EntriesFlaw(entries[1..], index, declared)
  }

  /** s is a string at some depth of the value. */
  ghost predicate HasLeaf(value: Json, s: string)
    decreases value
  {
    match value
    case Str(t) => t == s
    case List(items) => exists k | 0 <= k < |items| :: HasLeaf(items[k], s)
    case Dict(entries) => exists k | 0 <= k < |entries| :: HasLeaf(entries[k].value, s)
    case _ => false
  }

  /** What an accepted leaf of step `index` may be. */
  ghost predicate Backwards(v: string, index: nat, declared: set<string>) {
    Attempted(v) ==>
      Declared(v).Some? && if Declared(v).value.Input? then Declared(v).value.key in declared
                           else StepOf(Declared(v).value) < index
  }

  lemma RefFlawMeaning(v: string, index: nat, declared: set<string>)
    ensures RefFlaw(v, index, declared) == None <==> Backwards(v, index, declared)
  {
  }

  /** No flaw means that every string, however deep, is a value or points backwards. */
  lemma {:induction false} NoFlawIffBackwards(value: Json, index: nat, declared: set<string>)
    ensures RefsFlaw(value, index, declared) == None
      <==> forall s :: HasLeaf(value, s) ==> Backwards(s, index, declared)
    decreases value
  {
    match value
    case Str(s) =>
      RefFlawMeaning(s, index, declared);
      assert HasLeaf(value, s);
    case List(items) =>
      ItemsBackwards(items, index, declared);
      forall k, s | 0 <= k < |items| && HasLeaf(items[k], s) ensures HasLeaf(value, s) {
      }
    case Dict(entries) =>
      EntriesBackwards(entries, index, declared);
      forall k, s | 0 <= k < |entries| && HasLeaf(entries[k].value, s) ensures HasLeaf(value, s) {
      }
    case _ =>
  }

  lemma {:induction false} ItemsBackwards(items: seq<Json>, index: nat, declared: set<string>)
    ensures ItemsFlaw(items, index, declared) == None
      <==> forall k, s | 0 <= k < |items| && HasLeaf(items[k], s) :: Backwards(s, index, declared)
    decreases items
  {
    if items != [] {
      NoFlawIffBackwards(items[0], index, declared);
      ItemsBackwards(items[1..], index, declared);
      forall k, s | 0 < k < |items| && HasLeaf(items[k], s) ensures HasLeaf(items[1..][k - 1], s) {
      }
      forall k, s | 0 <= k < |items[1..]| && HasLeaf(items[1..][k], s) ensures HasLeaf(items[k + 1], s) {
      }
    }
  }

  lemma {:induction false} EntriesBackwards(entries: Entries, index: nat, declared: set<string>)
    ensures EntriesFlaw(entries, index, declared) == None
      <==> forall k, s | 0 <= k < |entries| && HasLeaf(entries[k].value, s) :: Backwards(s, index, declared)
    decreases entries
  {
    if entries != [] {
      NoFlawIffBackwards(entries[0].value, index, declared);
      EntriesBackwards(entries[1..], index, declared);
      forall k, s | 0 < k < |entries| && HasLeaf(entries[k].value, s) ensures HasLeaf(entries[1..][k - 1].value, s) {
      }
      forall k, s | 0 <= k < |entries[1..]| && HasLeaf(entries[1..][k].value, s)
        ensures HasLeaf(entries[k + 1].value, s)
      {
      }
    }
  }

  // ----- the parser

  function InputEntries(item: Item<FlowInput>): Result<Entries, Flaw> {
    match item
    case Built(i) =>
      Ok([Entry("key", Str(i.key)), Entry("label", i.caption), Entry("description", i.description),
          Entry("required", Bool(i.required))])
    case Raw(Dict(entries)) => Ok(entries)
    case Raw(_) => Err(NotAnObject)
  }

  function StepEntries(item: Item<FlowStep>): Result<Entries, Flaw> {
    match item
    case Built(s) => Ok([Entry("tool", Str(s.tool)), Entry("args", Dict(s.args))])
    case Raw(Dict(entries)) => Ok(entries)
    case Raw(_) => Err(NotAnObject)
  }

  function ParseInput(entries: Entries): Result<FlowInput, Flaw> {
    match Get(entries, "key")
    case Some(Str(key)) =>
      if key == "" then Err(BlankKey)
      else Ok(FlowInput(key, GetOr(entries, "label", Str("")), GetOr(entries, "description", Str("")),
                        Truthy(GetOr(entries, "required", Bool(false)))))
    case _ => Err(BlankKey)
  }

  function ParseStep(entries: Entries, index: nat, declared: set<string>): Result<FlowStep, Flaw> {
    match Get(entries, "tool")
    case Some(Str(tool)) =>
      if tool == "" then Err(NoTool(index))
      else if StartsWith(tool, "agent.") || StartsWith(tool, "flow.") then Err(Recursive(index))
      else (
        match GetOr(entries, "args", Dict([]))
        case Dict(args) =>
          (match RefsFlaw(Dict(args), index, declared)
           case Some(flaw) => Err(flaw)
           case None => Ok(FlowStep(tool, args)))
        case _ => Err(ArgsNotObject(index)))
    case _ => Err(NoTool(index))
  }

  /** What Python takes for false: nothing, false, zero and the empty text, list or dict. */
  lemma WhatIsFalse(v: Json)
    ensures !Truthy(v) <==>
      v == Null || v == Bool(false) || v == Num(0) || v == Str("") || v == List([]) || v == Dict([])
  {
  }

  /** An input needs a non-blank text for its key; what it leaves out is the empty text, or not required. */
  lemma InputReads(entries: Entries)
    ensures ParseInput(entries).Ok? <==>
      Get(entries, "key").Some? && Get(entries, "key").value.Str? && Get(entries, "key").value != Str("")
    ensures ParseInput(entries).Err? ==> ParseInput(entries).error == BlankKey
    ensures ParseInput(entries).Ok? ==>
      var i := ParseInput(entries).value;
      && Get(entries, "key") == Some(Str(i.key))
      && (Get(entries, "label") == Some(i.caption) || (Get(entries, "label") == None && i.caption == Str("")))
      && (Get(entries, "description") == Some(i.description)
          || (Get(entries, "description") == None && i.description == Str("")))
      && (i.required <==> Get(entries, "required").Some? && Truthy(Get(entries, "required").value))
  {
  }

  /** A step needs a tool that is no agent and no flow, and a dict of arguments or none; the first lack is named. */
  lemma StepReads(entries: Entries, index: nat, declared: set<string>)
    ensures var (r, tool, args) := (ParseStep(entries, index, declared), Get(entries, "tool"), Get(entries, "args"));
      if tool.None? || !tool.value.Str? || tool.value == Str("") then r == Err(NoTool(index))
      else if StartsWith(tool.value.s, "agent.") || StartsWith(tool.value.s, "flow.") then r == Err(Recursive(index))
      else if args.Some? && !args.value.Dict? then r == Err(ArgsNotObject(index))
      else
        var given := if args.Some? then args.value else Dict([]);
        match RefsFlaw(given, index, declared)
        case Some(flaw) => r == Err(flaw)
        case None => r == Ok(FlowStep(tool.value.s, given.entries))
  {
  }

  /** Reads each element with its index, and stops at the first flaw. */
  function Collect<A, B>(f: (nat, A) -> Result<B, Flaw>, xs: seq<A>): Result<seq<B>, Flaw> {
    if xs == [] then Ok([])
    else match Collect(f, xs[..|xs| - 1])
      case Err(flaw) => Err(flaw)
      case Ok(done) =>
        match f(|xs| - 1, xs[|xs| - 1])
        case Err(flaw) => Err(flaw)
        case Ok(b) => Ok(done + [b])
  }

  function Keys(inputs: seq<FlowInput>): set<string> {
    set k | 0 <= k < |inputs| :: inputs[k].key
  }

  function ParseInputs(entries: seq<Entries>): Result<seq<FlowInput>, Flaw> {
    Collect((i, e) => ParseInput(e), entries)
  }

  function ParseSteps(entries: seq<Entries>, declared: set<string>): Result<seq<FlowStep>, Flaw> {
    Collect((i, e) => ParseStep(e, i, declared), entries)
  }

  function AllInputEntries(inputs: seq<Item<FlowInput>>): Result<seq<Entries>, Flaw> {
    Collect((i, item) => InputEntries(item), inputs)
  }

  function AllStepEntries(steps: seq<Item<FlowStep>>): Result<seq<Entries>, Flaw> {
    Collect((i, item) => StepEntries(item), steps)
  }

  function Parse(inputs: seq<Item<FlowInput>>, steps: seq<Item<FlowStep>>)
    : Result<(seq<FlowInput>, seq<FlowStep>), Flaw>
  {
    match AllInputEntries(inputs)
    case Err(flaw) => Err(flaw)
    case Ok(ins) =>
      match AllStepEntries(steps)
      case Err(flaw) => Err(flaw)
      case Ok(outs) =>
        if outs == [] then Err(NoSteps)
        else match ParseInputs(ins)
          case Err(flaw) => Err(flaw)
          case Ok(parsed) =>
            match ParseSteps(outs, Keys(parsed))
            case Err(flaw) => Err(flaw)
            case Ok(done) => Ok((parsed, done))
  }

  /** The elements are all read, each by f at its own index, or the first flaw is reported. */
  lemma {:induction false} CollectMeaning<A, B>(f: (nat, A) -> Result<B, Flaw>, xs: seq<A>)
    ensures Collect(f, xs).Ok? <==> forall k: nat | k < |xs| :: f(k, xs[k]).Ok?
    ensures Collect(f, xs).Ok? ==> |Collect(f, xs).value| == |xs|
    ensures Collect(f, xs).Ok? ==> forall k: nat | k < |xs| :: f(k, xs[k]) == Ok(Collect(f, xs).value[k])
    ensures Collect(f, xs).Err? ==>
      exists k: nat :: k < |xs| && f(k, xs[k]) == Err(Collect(f, xs).error) && forall j: nat | j < k :: f(j, xs[j]).Ok?
  {
    if xs != [] {
      var init := xs[..|xs| - 1];
      CollectMeaning(f, init);
      assert forall k: nat | k < |init| :: init[k] == xs[k];
      if Collect(f, init).Err? {
        var k: nat :| k < |init| && f(k, init[k]) == Err(Collect(f, init).error)
                      && forall j: nat | j < k :: f(j, init[j]).Ok?;
        assert f(k, xs[k]).Err?;
      } else {
        var n: nat := |xs| - 1;
        assert f(n, xs[n]).Err? || f(n, xs[n]).Ok?;
      }
    }
  }

  lemma CollectUnique<A, B>(f: (nat, A) -> Result<B, Flaw>, xs: seq<A>, bs: seq<B>)
    requires |bs| == |xs| && forall k: nat | k < |xs| :: f(k, xs[k]) == Ok(bs[k])
    ensures Collect(f, xs) == Ok(bs)
  {
    CollectMeaning(f, xs);
    var got := Collect(f, xs).value;
    forall k: nat | k < |xs| ensures got[k] == bs[k] {
      assert f(k, xs[k]) == Ok(got[k]);
    }
    assert got == bs;
  }

  lemma {:induction false} CollectError<A, B>(f: (nat, A) -> Result<B, Flaw>, xs: seq<A>, n: nat)
    requires n <= |xs| && Collect(f, xs[..n]).Err?
    ensures Collect(f, xs) == Collect(f, xs[..n])
    decreases |xs|
  {
    if n == |xs| {
      assert xs[..n] == xs;
    } else {
      var init := xs[..|xs| - 1];
      assert init[..n] == xs[..n];
      CollectError(f, init, n);
    }
  }

  lemma CollectPrefix<A, B>(f: (nat, A) -> Result<B, Flaw>, xs: seq<A>, n: nat)
    requires n <= |xs| && Collect(f, xs).Ok?
    ensures |Collect(f, xs).value| == |xs| && Collect(f, xs[..n]) == Ok(Collect(f, xs).value[..n])
  {
    CollectMeaning(f, xs);
    CollectUnique(f, xs[..n], Collect(f, xs).value[..n]);
  }

  method ParseInputList(entries: seq<Entries>) returns (r: Result<seq<FlowInput>, Flaw>, declared: set<string>)
    ensures r == ParseInputs(entries)
    ensures r.Ok? ==> declared == Keys(r.value)
  {
    ghost var f := (i: nat, e: Entries) => ParseInput(e);
    declared := {};
    var parsed: seq<FlowInput> := [];
    for n := 0 to |entries|
      invariant Collect(f, entries[..n]) == Ok(parsed) && declared == Keys(parsed)
    {
      assert entries[..n + 1][..n] == entries[..n];
      var one := ParseInput(entries[n]);
      if one.Err? {
        CollectError(f, entries, n + 1);
        return Err(one.error), declared;
      }
      KeysAppend(parsed, one.value);
      declared := declared + {one.value.key};
      parsed := parsed + [one.value];
    }
    assert entries[..|entries|] == entries;
    r := Ok(parsed);
  }

  lemma KeysAppend(inputs: seq<FlowInput>, i: FlowInput)
    ensures Keys(inputs + [i]) == Keys(inputs) + {i.key}
  {
    var more := inputs + [i];
    assert more[|inputs|] == i;
    forall k | 0 <= k < |inputs| ensures inputs[k].key in Keys(more) {
      assert more[k] == inputs[k];
    }
  }

  method ParseStepList(entries: seq<Entries>, declared: set<string>) returns (r: Result<seq<FlowStep>, Flaw>)
    ensures r == ParseSteps(entries, declared)
  {
    ghost var f := (i: nat, e: Entries) => ParseStep(e, i, declared);
    var parsed: seq<FlowStep> := [];
    for index := 0 to |entries|
      invariant Collect(f, entries[..index]) == Ok(parsed)
    {
      assert entries[..index + 1][..index] == entries[..index];
      var one := ParseStep(entries[index], index, declared);
      if one.Err? {
        CollectError(f, entries, index + 1);
        return Err(one.error);
      }
      parsed := parsed + [one.value];
    }
    assert entries[..|entries|] == entries;
    r := Ok(parsed);
  }

  method ParseFlowJson(inputs: seq<Item<FlowInput>>, steps: seq<Item<FlowStep>>)
    returns (r: Result<(seq<FlowInput>, seq<FlowStep>), Flaw>)
    ensures r == Parse(inputs, steps)
  {
    var ins := AllInputEntries(inputs);
    if ins.Err? {
      return Err(ins.error);
    }
    var outs := AllStepEntries(steps);
    if outs.Err? {
      return Err(outs.error);
    }
    if outs.value == [] {
      return Err(NoSteps);
    }
    var parsed, declared := ParseInputList(ins.value);
    if parsed.Err? {
      return Err(parsed.error);
    }
    var done := ParseStepList(outs.value, declared);
    if done.Err? {
      return Err(done.error);
    }
    r := Ok((parsed.value, done.value));
  }

  // ----- what acceptance means

  ghost predicate PlainTool(tool: string) {
    tool != "" && !StartsWith(tool, "agent.") && !StartsWith(tool, "flow.")
  }

  /** Parsed inputs and steps obey every rule, at every depth of every step. */
  ghost predicate WellFormed(inputs: seq<FlowInput>, steps: seq<FlowStep>) {
    && steps != []
    && (forall k | 0 <= k < |inputs| :: inputs[k].key != "")
    && (forall k: nat | k < |steps| :: PlainTool(steps[k].tool)
          && forall s :: HasLeaf(Dict(steps[k].args), s) ==> Backwards(s, k, Keys(inputs)))
  }

  lemma ParseParts(inputs: seq<Item<FlowInput>>, steps: seq<Item<FlowStep>>)
    returns (ins: seq<Entries>, outs: seq<Entries>)
    requires Parse(inputs, steps).Ok?
    ensures AllInputEntries(inputs) == Ok(ins) && AllStepEntries(steps) == Ok(outs) && outs != [] && |outs| == |steps|
    ensures ParseInputs(ins) == Ok(Parse(inputs, steps).value.0)
    ensures ParseSteps(outs, Keys(Parse(inputs, steps).value.0)) == Ok(Parse(inputs, steps).value.1)
  {
    ins, outs := AllInputEntries(inputs).value, AllStepEntries(steps).value;
    CollectMeaning((i: nat, item) => StepEntries(item), steps);
  }

  /** Whatever was accepted is well formed. */
  lemma AcceptedIsWellFormed(inputs: seq<Item<FlowInput>>, steps: seq<Item<FlowStep>>)
    requires Parse(inputs, steps).Ok?
    ensures WellFormed(Parse(inputs, steps).value.0, Parse(inputs, steps).value.1)
  {
    var ins, outs := ParseParts(inputs, steps);
    var (parsed, done) := Parse(inputs, steps).value;
    CollectMeaning((i: nat, e) => ParseInput(e), ins);
    forall k: nat | k < |parsed| ensures parsed[k].key != "" {
      assert ParseInput(ins[k]) == Ok(parsed[k]);
    }
    CollectMeaning((i: nat, e) => ParseStep(e, i, Keys(parsed)), outs);
    forall k: nat | k < |done|
      ensures PlainTool(done[k].tool)
      ensures forall s :: HasLeaf(Dict(done[k].args), s) ==> Backwards(s, k, Keys(parsed))
    {
      assert ParseStep(outs[k], k, Keys(parsed)) == Ok(done[k]);
      NoFlawIffBackwards(Dict(done[k].args), k, Keys(parsed));
    }
  }

  function StoredInput(i: FlowInput): Item<FlowInput> {
    Raw(Dict([Entry("key", Str(i.key)), Entry("label", i.caption), Entry("description", i.description),
              Entry("required", Bool(i.required))]))
  }

  function StoredStep(s: FlowStep): Item<FlowStep> {
    Raw(Dict([Entry("tool", Str(s.tool)), Entry("args", Dict(s.args))]))
  }

  /** The same declaration, row by row: built in code, or stored as plain dicts. */
  ghost predicate Declares(inputs: seq<FlowInput>, steps: seq<FlowStep>, ins: seq<Item<FlowInput>>,
                           outs: seq<Item<FlowStep>>) {
    && |ins| == |inputs| && |outs| == |steps|
    && (forall k | 0 <= k < |inputs| :: ins[k] in {Built(inputs[k]), StoredInput(inputs[k])})
    && (forall k | 0 <= k < |steps| :: outs[k] in {Built(steps[k]), StoredStep(steps[k])})
  }

  lemma InputRoundTrip(i: FlowInput, item: Item<FlowInput>)
    requires i.key != "" && item in {Built(i), StoredInput(i)}
    ensures InputEntries(item).Ok? && ParseInput(InputEntries(item).value) == Ok(i)
  {
    var e := InputEntries(item).value;
    assert e[1..][0].key == "label" && e[1..][1..][0].key == "description" && e[1..][1..][1..][0].key == "required";
    assert Get(e, "key") == Some(Str(i.key));
    assert Get(e, "label") == Get(e[1..], "label") == Some(i.caption);
    assert Get(e, "description") == Get(e[1..], "description") == Get(e[1..][1..], "description")
      == Some(i.description);
    assert Get(e, "required") == Get(e[1..], "required") == Get(e[1..][1..], "required")
        == Get(e[1..][1..][1..], "required") == Some(Bool(i.required));
  }

  lemma StepRoundTrip(s: FlowStep, item: Item<FlowStep>, index: nat, declared: set<string>)
    requires PlainTool(s.tool) && RefsFlaw(Dict(s.args), index, declared) == None
    requires item in {Built(s), StoredStep(s)}
    ensures StepEntries(item).Ok? && ParseStep(StepEntries(item).value, index, declared) == Ok(s)
  {
    var e := StepEntries(item).value;
    assert e[1..][0].key == "args";
    assert Get(e, "tool") == Some(Str(s.tool));
    assert Get(e, "args") == Get(e[1..], "args") == Some(Dict(s.args));
  }

  /**
   Every well-formed flow is accepted and read back as it is, however it is declared: the
   rows an install stores parse to the very flow the catalogue declared.
   */
  lemma WellFormedRoundTrip(inputs: seq<FlowInput>, steps: seq<FlowStep>, ins: seq<Item<FlowInput>>,
                            outs: seq<Item<FlowStep>>)
    requires WellFormed(inputs, steps) && Declares(inputs, steps, ins, outs)
    ensures Parse(ins, outs) == Ok((inputs, steps))
  {
    var inEntries := seq(|ins|, k requires 0 <= k < |ins| => Entered(InputEntries(ins[k])));
    var outEntries := seq(|outs|, k requires 0 <= k < |outs| => Entered(StepEntries(outs[k])));
    forall k: nat | k < |ins|
      ensures InputEntries(ins[k]) == Ok(inEntries[k]) && ParseInput(inEntries[k]) == Ok(inputs[k])
    {
      InputRoundTrip(inputs[k], ins[k]);
    }
    forall k: nat | k < |outs|
      ensures StepEntries(outs[k]) == Ok(outEntries[k]) && ParseStep(outEntries[k], k, Keys(inputs)) == Ok(steps[k])
    {
      NoFlawIffBackwards(Dict(steps[k].args), k, Keys(inputs));
      StepRoundTrip(steps[k], outs[k], k, Keys(inputs));
    }
    CollectUnique((i: nat, item) => InputEntries(item), ins, inEntries);
    CollectUnique((i: nat, item) => StepEntries(item), outs, outEntries);
    CollectUnique((i: nat, e) => ParseInput(e), inEntries, inputs);
    CollectUnique((i: nat, e) => ParseStep(e, i, Keys(inputs)), outEntries, steps);
  }

  function Entered(r: Result<Entries, Flaw>): Entries {
    if r.Ok? then r.value else []
  }

  /** Storing an accepted flow and parsing it again gives it back. */
  lemma StoreAndReparse(inputs: seq<Item<FlowInput>>, steps: seq<Item<FlowStep>>)
    requires Parse(inputs, steps).Ok?
    ensures var (ins, outs) := Parse(inputs, steps).value;
      && Parse(seq(|ins|, k requires 0 <= k < |ins| => StoredInput(ins[k])),
               seq(|outs|, k requires 0 <= k < |outs| => StoredStep(outs[k]))) == Parse(inputs, steps)
      && Parse(seq(|ins|, k requires 0 <= k < |ins| => Built(ins[k])),
               seq(|outs|, k requires 0 <= k < |outs| => Built(outs[k]))) == Parse(inputs, steps)
  {
    AcceptedIsWellFormed(inputs, steps);
    var (ins, outs) := Parse(inputs, steps).value;
    WellFormedRoundTrip(ins, outs, seq(|ins|, k requires 0 <= k < |ins| => StoredInput(ins[k])),
                        seq(|outs|, k requires 0 <= k < |outs| => StoredStep(outs[k])));
    WellFormedRoundTrip(ins, outs, seq(|ins|, k requires 0 <= k < |ins| => Built(ins[k])),
                        seq(|outs|, k requires 0 <= k < |outs| => Built(outs[k])));
  }

  /** Any non-empty prefix of an accepted flow is accepted, with the same steps. */
  lemma PrefixAccepted(inputs: seq<Item<FlowInput>>, steps: seq<Item<FlowStep>>, n: nat)
    requires Parse(inputs, steps).Ok? && 0 < n <= |steps|
    ensures var (ins, outs) := Parse(inputs, steps).value;
      n <= |outs| && Parse(inputs, steps[..n]) == Ok((ins, outs[..n]))
  {
    var ins, outs := ParseParts(inputs, steps);
    var declared := Keys(Parse(inputs, steps).value.0);
    CollectPrefix((i: nat, item) => StepEntries(item), steps, n);
    CollectMeaning((i: nat, e) => ParseStep(e, i, declared), outs);
    CollectPrefix((i: nat, e) => ParseStep(e, i, declared), outs, n);
  }

  // ----- the run

  /** One segment of a dotted path; all digits index a list (or a string), anything else a dict. */
  function Child(value: Json, segment: string): Option<Json> {
    if IsDecimal(segment) then
      match value
      case List(items) => if ParseNat(segment) < |items| then Some(items[ParseNat(segment)]) else None
      case Str(s) => if ParseNat(segment) < |s| then Some(Str([s[ParseNat(segment)]])) else None
      case _ => None
    else
      match value case Dict(entries) => Get(entries, segment) case _ => None
  }

  function Walk(value: Json, path: seq<string>): Option<Json>
    decreases |path|
  {
    if path == [] then Some(value)
    else match Child(value, path[0]) case Some(child) => Walk(child, path[1..]) case None => None
  }

  function There(found: Option<Json>): Result<Json, Miss> {
    if found.Some? then Ok(found.value) else Err(NotThere)
  }

  function Texts(strings: seq<string>): seq<Json> {
    seq(|strings|, k requires 0 <= k < |strings| => Str(strings[k]))
  }

  function Fetch(t: Target, inputs: map<string, Json>, results: seq<ToolResult>): Result<Json, Miss> {
    match t
    case Input(key) => if key in inputs then Ok(inputs[key]) else Err(NotAnInput)
    case StepText(n) => if n < |results| then Ok(Str(results[n].text)) else Err(NotRun)
    case StepData(n, path) => if n < |results| then There(Walk(results[n].data, path)) else Err(NotRun)
    case StepArtifacts(n, path) =>
      if n < |results| then There(Walk(List(Texts(results[n].artifacts)), path)) else Err(NotRun)
  }

  function ResolveLeaf(v: string, inputs: map<string, Json>, results: seq<ToolResult>): Result<Json, Unresolved> {
    if !Attempted(v) then Ok(Str(v))
    else match Dispatch(v)
      case None => Err(Unresolved(v, NoTarget))
      case Some(t) =>
        match Fetch(t, inputs, results)
        case Ok(found) => Ok(found)
        case Err(why) => Err(Unresolved(v, why))
  }

  function Resolve(value: Json, inputs: map<string, Json>, results: seq<ToolResult>): Result<Json, Unresolved>
    decreases value
  {
    match value
    case Str(s) => ResolveLeaf(s, inputs, results)
    case Dict(entries) =>
      (match ResolveEntries(entries, inputs, results) case Ok(r) => Ok(Dict(r)) case Err(e) => Err(e))
    case List(items) =>
      (match ResolveItems(items, inputs, results) case Ok(r) => Ok(List(r)) case Err(e) => Err(e))
    case _ => Ok(value)
  }

  function ResolveItems(items: seq<Json>, inputs: map<string, Json>, results: seq<ToolResult>)
    : Result<seq<Json>, Unresolved>
    decreases items
  {
    if items == [] then Ok([])
    else match Resolve(items[0], inputs, results)
      case Err(e) => Err(e)
      case Ok(first) =>
        match ResolveItems(items[1..], inputs, results)
        case Err(e) => Err(e)
        case Ok(rest) => Ok([first] + rest)
  }

  function ResolveEntries(entries: Entries, inputs: map<string, Json>, results: seq<ToolResult>)
    : Result<Entries, Unresolved>
    decreases entries
  {
    if entries == [] then Ok([])
    else match Resolve(entries[0].value, inputs, results)
      case Err(e) => Err(e)
      case Ok(first) =>
        match ResolveEntries(entries[1..], inputs, results)
        case Err(e) => Err(e)
        case Ok(rest) => Ok([Entry(entries[0].key, first)] + rest)
  }

  // ----- what a declaration means, stated without the reader

  /** One segment of a path leads from the value to this part of it. */
  ghost predicate IsChild(value: Json, segment: string, part: Json) {
    if IsDecimal(segment) then
      || (value.List? && ParseNat(segment) < |value.items| && value.items[ParseNat(segment)] == part)
      || (value.Str? && ParseNat(segment) < |value.s| && part == Str([value.s[ParseNat(segment)]]))
    else
      value.Dict? && exists k: nat :: EntryAt(value.entries, segment, k) && value.entries[k].value == part
  }

  /** Place k holds the key, and no place before it does. */
  ghost predicate EntryAt(entries: Entries, key: string, k: nat) {
    k < |entries| && entries[k].key == key && forall j: nat | j < k :: entries[j].key != key
  }

  /** The values a path passes through, from the value it starts at. */
  ghost predicate IsChain(value: Json, path: seq<string>, chain: seq<Json>) {
    && |chain| == |path| + 1 && chain[0] == value
    && forall k: nat | k < |path| :: IsChild(chain[k], path[k], chain[k + 1])
  }

  ghost predicate Leads(value: Json, path: seq<string>, part: Json) {
    exists chain :: IsChain(value, path, chain) && chain[|path|] == part
  }

  /** The declared target's content, given the inputs and the results so far. */
  ghost predicate Means(t: Target, inputs: map<string, Json>, results: seq<ToolResult>, content: Json) {
    match t
    case Input(key) => key in inputs && content == inputs[key]
    case StepText(n) => n < |results| && content == Str(results[n].text)
    case StepData(n, path) => n < |results| && Leads(results[n].data, path, content)
    case StepArtifacts(n, path) => n < |results| && Leads(List(Texts(results[n].artifacts)), path, content)
  }

  /** The same value, with the content of its target in the place of every reference at any depth. */
  ghost predicate Denotes(value: Json, meant: Json, inputs: map<string, Json>, results: seq<ToolResult>)
    decreases value
  {
    match value
    case Str(s) =>
      if Attempted(s) then Declared(s).Some? && Means(Declared(s).value, inputs, results, meant) else meant == value
    case List(items) =>
      && meant.List? && |meant.items| == |items|
      && forall k | 0 <= k < |items| :: Denotes(items[k], meant.items[k], inputs, results)
    case Dict(entries) =>
      && meant.Dict? && |meant.entries| == |entries|
      && forall k | 0 <= k < |entries| ::
           meant.entries[k].key == entries[k].key
           && Denotes(entries[k].value, meant.entries[k].value, inputs, results)
    case _ => meant == value
  }

  lemma {:induction false} GetAt(entries: Entries, key: string)
    ensures match Get(entries, key)
      case Some(part) => exists k: nat :: EntryAt(entries, key, k) && entries[k].value == part
      case None => forall k | 0 <= k < |entries| :: entries[k].key != key
  {
    if entries != [] && entries[0].key == key {
      assert EntryAt(entries, key, 0);
    } else if entries != [] {
      GetAt(entries[1..], key);
      if Get(entries[1..], key).Some? {
        var k: nat :| EntryAt(entries[1..], key, k) && entries[1..][k].value == Get(entries[1..], key).value;
        forall j: nat | j < k + 1 ensures entries[j].key != key {
          assert j > 0 ==> entries[j] == entries[1..][j - 1];
        }
        assert EntryAt(entries, key, k + 1);
      } else {
        forall k | 0 <= k < |entries| ensures entries[k].key != key {
          assert k > 0 ==> entries[k] == entries[1..][k - 1];
        }
      }
    }
  }

  lemma ChildIs(value: Json, segment: string, part: Json)
    ensures Child(value, segment) == Some(part) <==> IsChild(value, segment, part)
  {
    if !IsDecimal(segment) && value.Dict? {
      GetAt(value.entries, segment);
    }
  }

  lemma {:induction false} WalkLeads(value: Json, path: seq<string>, part: Json)
    ensures Walk(value, path) == Some(part) <==> Leads(value, path, part)
    decreases |path|
  {
    if path == [] {
      assert IsChain(value, path, [value]);
    } else {
      if Walk(value, path) == Some(part) {
        var child := Child(value, path[0]).value;
        ChildIs(value, path[0], child);
        WalkLeads(child, path[1..], part);
        var chain :| IsChain(child, path[1..], chain) && chain[|path| - 1] == part;
        ChainFrom(value, path, child, chain);
        assert ([value] + chain)[|path|] == part;
      }
      if Leads(value, path, part) {
        var chain :| IsChain(value, path, chain) && chain[|path|] == part;
        ChildIs(value, path[0], chain[1]);
        assert IsChild(chain[0], path[0], chain[0 + 1]);
        ChainRest(value, path, chain);
        assert chain[1..][|path| - 1] == part;
        WalkLeads(chain[1], path[1..], part);
      }
    }
  }

  lemma ChainFrom(value: Json, path: seq<string>, child: Json, chain: seq<Json>)
    requires path != [] && IsChild(value, path[0], child) && IsChain(child, path[1..], chain)
    ensures IsChain(value, path, [value] + chain)
  {
    var whole := [value] + chain;
    forall k: nat | k < |path| ensures IsChild(whole[k], path[k], whole[k + 1]) {
      if k > 0 {
        assert IsChild(chain[k - 1], path[1..][k - 1], chain[k - 1 + 1]);
      }
    }
  }

  lemma ChainRest(value: Json, path: seq<string>, chain: seq<Json>)
    requires path != [] && IsChain(value, path, chain)
    ensures IsChain(chain[1], path[1..], chain[1..])
  {
    forall k: nat | k < |path[1..]| ensures IsChild(chain[1..][k], path[1..][k], chain[1..][k + 1]) {
      assert IsChild(chain[k + 1], path[k + 1], chain[k + 1 + 1]);
    }
  }

  /** The reader fetches exactly what the target means. */
  lemma FetchIsMeaning(t: Target, inputs: map<string, Json>, results: seq<ToolResult>, content: Json)
    ensures Fetch(t, inputs, results) == Ok(content) <==> Means(t, inputs, results, content)
  {
    if !t.Input? && !t.StepText? && StepOf(t) < |results| {
      var root := if t.StepData? then results[t.step].data else List(Texts(results[t.step].artifacts));
      WalkLeads(root, t.path, content);
    }
  }

  /** No leaf of the value is a reference whose newline the declaration overlooked. */
  ghost predicate NoStray(value: Json) {
    forall s :: HasLeaf(value, s) && Attempted(s) ==> !Stray(s)
  }

  /** The reference points into a result that is there, along a path that is not. */
  ghost predicate Gone(e: Unresolved, inputs: map<string, Json>, results: seq<ToolResult>) {
    && e.why == NotThere && Declared(e.ref).Some?
    && (Declared(e.ref).value.StepData? || Declared(e.ref).value.StepArtifacts?)
    && StepOf(Declared(e.ref).value) < |results|
    && forall content :: !Means(Declared(e.ref).value, inputs, results, content)
  }

  /** An accepted, non-stray reference means at run time what it meant when declared; only data can be missing. */
  lemma LeafResolves(v: string, index: nat, declared: set<string>, inputs: map<string, Json>, results: seq<ToolResult>)
    requires Attempted(v) ==> Backwards(v, index, declared) && !Stray(v)
    requires declared <= inputs.Keys && |results| == index
    ensures var r := ResolveLeaf(v, inputs, results);
      if r.Ok? then Denotes(Str(v), r.value, inputs, results) else r.error.ref == v && Gone(r.error, inputs, results)
  {
    if Attempted(v) {
      AgreeIffNotStray(v);
      assert Dispatch(v) == Declared(v);
      FetchBackwards(Declared(v).value, index, declared, inputs, results);
      forall content ensures Fetch(Declared(v).value, inputs, results) == Ok(content)
                             <==> Means(Declared(v).value, inputs, results, content) {
        FetchIsMeaning(Declared(v).value, inputs, results, content);
      }
    }
  }

  lemma FetchBackwards(t: Target, index: nat, declared: set<string>, inputs: map<string, Json>,
                       results: seq<ToolResult>)
    requires if t.Input? then t.key in declared else StepOf(t) < index
    requires declared <= inputs.Keys && |results| == index
    ensures var r := Fetch(t, inputs, results); r.Ok? || (r.error == NotThere && !t.Input? && !t.StepText?)
  {
  }

  lemma {:induction false} ValueResolves(
    value: Json, index: nat, declared: set<string>, inputs: map<string, Json>, results: seq<ToolResult>)
    requires forall s :: HasLeaf(value, s) && Attempted(s) ==> Backwards(s, index, declared) && !Stray(s)
    requires declared <= inputs.Keys && |results| == index
    ensures var r := Resolve(value, inputs, results);
      if r.Ok? then Denotes(value, r.value, inputs, results)
      else Gone(r.error, inputs, results) && HasLeaf(value, r.error.ref)
    decreases value
  {
    match value
    case Str(s) =>
      assert HasLeaf(value, s);
      LeafResolves(s, index, declared, inputs, results);
    case List(items) =>
      forall k, s | 0 <= k < |items| && HasLeaf(items[k], s) ensures HasLeaf(value, s) {
      }
      ItemsResolve(items, index, declared, inputs, results);
    case Dict(entries) =>
      forall k, s | 0 <= k < |entries| && HasLeaf(entries[k].value, s) ensures HasLeaf(value, s) {
      }
      EntriesResolve(entries, index, declared, inputs, results);
    case _ =>
  }

  lemma {:induction false} ItemsResolve(
    items: seq<Json>, index: nat, declared: set<string>, inputs: map<string, Json>, results: seq<ToolResult>)
    requires forall k, s | 0 <= k < |items| && HasLeaf(items[k], s) ::
      Attempted(s) ==> Backwards(s, index, declared) && !Stray(s)
    requires declared <= inputs.Keys && |results| == index
    ensures var r := ResolveItems(items, inputs, results);
      if r.Ok? then Denotes(List(items), List(r.value), inputs, results)
      else Gone(r.error, inputs, results) && exists k | 0 <= k < |items| :: HasLeaf(items[k], r.error.ref)
    decreases items
  {
    if items != [] {
      ValueResolves(items[0], index, declared, inputs, results);
      forall k, s | 0 <= k < |items[1..]| && HasLeaf(items[1..][k], s) ensures HasLeaf(items[k + 1], s) {
      }
      ItemsResolve(items[1..], index, declared, inputs, results);
    }
  }

  lemma {:induction false} EntriesResolve(
    entries: Entries, index: nat, declared: set<string>, inputs: map<string, Json>, results: seq<ToolResult>)
    requires forall k, s | 0 <= k < |entries| && HasLeaf(entries[k].value, s) ::
      Attempted(s) ==> Backwards(s, index, declared) && !Stray(s)
    requires declared <= inputs.Keys && |results| == index
    ensures var r := ResolveEntries(entries, inputs, results);
      if r.Ok? then Denotes(Dict(entries), Dict(r.value), inputs, results)
      else Gone(r.error, inputs, results) && exists k | 0 <= k < |entries| :: HasLeaf(entries[k].value, r.error.ref)
    decreases entries
  {
    if entries != [] {
      ValueResolves(entries[0].value, index, declared, inputs, results);
      forall k, s | 0 <= k < |entries[1..]| && HasLeaf(entries[1..][k].value, s)
        ensures HasLeaf(entries[k + 1].value, s)
      {
      }
      EntriesResolve(entries[1..], index, declared, inputs, results);
    }
  }

  /** Every declared key is present, null when left out; other supplied keys are kept. */
  function Seeded(declared: seq<FlowInput>, given: map<string, Json>): map<string, Json> {
    map k | k in Keys(declared) + given.Keys :: if k in given then given[k] else Null
  }

  /** What can end a run besides its references: before a step's arguments are read, or in its tool. */
  datatype Stop = DeadlinePassed | NotAvailable | Mutating | ToolFailed

  datatype Ending =
    | Finished(results: seq<ToolResult>)
    | Stopped(why: Stop, results: seq<ToolResult>)
    | Stuck(unresolved: Unresolved, results: seq<ToolResult>)

  /**
   The tools of this install and the clock: what bars step n before its arguments are read,
   and what the tool called at step n makes of its arguments, if it does not fail. A tool may
   answer the same arguments differently at another step.
   */
  datatype Install = Install(bars: nat -> Option<Stop>, call: (nat, string, Json) -> Option<ToolResult>)

  /** Runs the steps from |results| on, each tool seeing its resolved arguments. */
  function Run(steps: seq<FlowStep>, inputs: map<string, Json>, install: Install, results: seq<ToolResult>): Ending
    requires |results| <= |steps|
    decreases |steps| - |results|
  {
    if |results| == |steps| then Finished(results)
    else
      var step := steps[|results|];
      match install.bars(|results|)
      case Some(why) => Stopped(why, results)
      case None =>
        match Resolve(Dict(step.args), inputs, results)
        case Err(e) => Stuck(e, results)
        case Ok(args) =>
          match install.call(|results|, step.tool, args)
          case None => Stopped(ToolFailed, results)
          case Some(result) => Run(steps, inputs, install, results + [result])
  }

  ghost predicate NoStrayStep(steps: seq<FlowStep>) {
    forall k | 0 <= k < |steps| :: NoStray(Dict(steps[k].args))
  }

  /** Step k may be handed these arguments: what its declaration means, given the results before it. */
  ghost predicate Handed(steps: seq<FlowStep>, inputs: map<string, Json>, results: seq<ToolResult>, k: nat, args: Json)
    requires k < |steps| && k <= |results|
  {
    Denotes(Dict(steps[k].args), args, inputs, results[..k])
  }

  /** Step k's tool was called with what its declaration means and answered so. */
  ghost predicate Answered(
    steps: seq<FlowStep>, inputs: map<string, Json>, install: Install, results: seq<ToolResult>, k: nat,
    answer: Option<ToolResult>)
    requires k < |steps| && k <= |results|
  {
    exists args :: Handed(steps, inputs, results, k, args) && install.call(k, steps[k].tool, args) == answer
  }

  /** Each of these steps was let through, handed what its declaration means, and answered this. */
  ghost predicate RanAsDeclared(
    steps: seq<FlowStep>, inputs: map<string, Json>, install: Install, results: seq<ToolResult>, from: nat)
    requires |results| <= |steps|
  {
    forall k: nat | from <= k < |results| ::
      install.bars(k) == None && Answered(steps, inputs, install, results, k, Some(results[k]))
  }

  /** Why a run ended where it did: all steps done, the install's doing, or data that is not there. */
  ghost predicate EndsAsDeclared(steps: seq<FlowStep>, inputs: map<string, Json>, install: Install, end: Ending)
    requires |end.results| <= |steps|
  {
    var n := |end.results|;
    match end
    case Finished(results) => n == |steps|
    case Stopped(why, results) =>
      && n < |steps|
      && if why == ToolFailed && install.bars(n) == None
         then Answered(steps, inputs, install, results, n, None)
         else install.bars(n) == Some(why)
    case Stuck(e, results) =>
      n < |steps| && install.bars(n) == None && Gone(e, inputs, results) && HasLeaf(Dict(steps[n].args), e.ref)
  }

  /** A run from these results: they stay, what was added ran as declared, and so did it end. */
  ghost predicate GoesOn(
    steps: seq<FlowStep>, inputs: map<string, Json>, install: Install, results: seq<ToolResult>, end: Ending)
  {
    && |results| <= |end.results| <= |steps| && end.results[..|results|] == results
    && RanAsDeclared(steps, inputs, install, end.results, |results|)
    && EndsAsDeclared(steps, inputs, install, end)
  }

  /** What the reader makes of the next step's arguments: what they mean, or the path that is not there. */
  lemma StepIsRead(inputs: seq<FlowInput>, steps: seq<FlowStep>, given: map<string, Json>, results: seq<ToolResult>)
    requires WellFormed(inputs, steps) && NoStrayStep(steps) && |results| < |steps|
    ensures var (n, seeded) := (|results|, Seeded(inputs, given));
      match Resolve(Dict(steps[n].args), seeded, results)
      case Ok(args) => Handed(steps, seeded, results, n, args)
      case Err(e) => Gone(e, seeded, results) && HasLeaf(Dict(steps[n].args), e.ref)
  {
    var n := |results|;
    assert NoStray(Dict(steps[n].args)) && results[..n] == results;
    ValueResolves(Dict(steps[n].args), n, Keys(inputs), Seeded(inputs, given), results);
  }

  /** One more step before a run that goes on from its answer. */
  lemma StepBefore(steps: seq<FlowStep>, inputs: map<string, Json>, install: Install, results: seq<ToolResult>,
                   answer: ToolResult, end: Ending)
    requires |results| < |steps| && install.bars(|results|) == None
    requires Answered(steps, inputs, install, results, |results|, Some(answer))
    requires GoesOn(steps, inputs, install, results + [answer], end)
    ensures GoesOn(steps, inputs, install, results, end)
  {
    var n, all := |results|, end.results;
    assert all[..n] == all[..n + 1][..n] == results == results[..n];
    assert all[n] == all[..n + 1][n] == answer;
    var args :| Handed(steps, inputs, results, n, args) && install.call(n, steps[n].tool, args) == Some(answer);
    assert Handed(steps, inputs, all, n, args);
  }

  lemma {:induction false} RunFrom(
    inputs: seq<FlowInput>, steps: seq<FlowStep>, given: map<string, Json>, install: Install, results: seq<ToolResult>)
    requires WellFormed(inputs, steps) && NoStrayStep(steps) && |results| <= |steps|
    ensures GoesOn(steps, Seeded(inputs, given), install, results, Run(steps, Seeded(inputs, given), install, results))
    decreases |steps| - |results|
  {
    var n, seeded := |results|, Seeded(inputs, given);
    assert results[..n] == results;
    if n < |steps| && install.bars(n) == None {
      StepIsRead(inputs, steps, given, results);
      var read := Resolve(Dict(steps[n].args), seeded, results);
      if read.Ok? {
        var answer := install.call(n, steps[n].tool, read.value);
        assert Answered(steps, seeded, install, results, n, answer);
        if answer.Some? {
          RunFrom(inputs, steps, given, install, results + [answer.value]);
          StepBefore(steps, seeded, install, results, answer.value,
                     Run(steps, seeded, install, results + [answer.value]));
        }
      }
    }
  }

  /**
   An accepted flow without stray references runs in index order on any install, with any
   supplied inputs: every step that ran was handed exactly what its declaration means, and the
   run ends when all have run, when the install ends it, or at a path into a result's data or
   artifacts that is not there.
   */
  lemma AcceptedFlowRuns(inputs: seq<Item<FlowInput>>, steps: seq<Item<FlowStep>>, given: map<string, Json>,
                         install: Install)
    requires Parse(inputs, steps).Ok? && NoStrayStep(Parse(inputs, steps).value.1)
    ensures var (ins, outs) := Parse(inputs, steps).value;
      var end := Run(outs, Seeded(ins, given), install, []);
      && |end.results| <= |outs|
      && RanAsDeclared(outs, Seeded(ins, given), install, end.results, 0)
      && EndsAsDeclared(outs, Seeded(ins, given), install, end)
  {
    AcceptedIsWellFormed(inputs, steps);
    var (ins, outs) := Parse(inputs, steps).value;
    RunFrom(ins, outs, given, install, []);
  }

  const TOPIC := FlowInput("topic", Str(""), Str(""), true)
  const STRAY := "$input.topic\n"
  const ASK := FlowStep("rag.ask", [Entry("query", Str(STRAY))])

  lemma AskIsPlain()
    ensures PlainTool(ASK.tool)
  {
    assert "rag.ask"[0] == 'r' && "agent."[0] == 'a' && "flow."[0] == 'f';
  }

  lemma AskLeaves(s: string)
    requires HasLeaf(Dict(ASK.args), s)
    ensures s == STRAY
  {
    var k :| 0 <= k < |ASK.args| && HasLeaf(ASK.args[k].value, s);
    assert ASK.args[k].value == Str(STRAY);
  }

  lemma StrayIsBackwards()
    ensures Backwards(STRAY, 0, Keys([TOPIC]))
  {
    StrayExample();
    assert [TOPIC][0].key in Keys([TOPIC]);
  }

  lemma StrayFlowIsWellFormed()
    ensures WellFormed([TOPIC], [ASK])
  {
    forall s | HasLeaf(Dict(ASK.args), s) ensures Backwards(s, 0, Keys([TOPIC])) {
      AskLeaves(s);
      StrayIsBackwards();
    }
    AskIsPlain();
  }

  lemma StrayFlowIsAccepted()
    ensures Parse([Built(TOPIC)], [Built(ASK)]) == Ok(([TOPIC], [ASK]))
  {
    StrayFlowIsWellFormed();
    WellFormedRoundTrip([TOPIC], [ASK], [Built(TOPIC)], [Built(ASK)]);
  }

  lemma StrayLeafMisses(inputs: map<string, Json>)
    requires "topic\n" !in inputs
    ensures ResolveLeaf(STRAY, inputs, []) == Err(Unresolved(STRAY, NotAnInput))
  {
    StrayExample();
    AcceptedIsAttempted(STRAY);
  }

  /** An accepted one-step flow that gets stuck on its declared, supplied input: a newline after the key. */
  lemma StrayFlowFails(install: Install)
    requires install.bars(0) == None
    ensures Parse([Built(TOPIC)], [Built(ASK)]) == Ok(([TOPIC], [ASK]))
    ensures Run([ASK], Seeded([TOPIC], map["topic" := Str("tea")]), install, [])
      == Stuck(Unresolved(STRAY, NotAnInput), [])
  {
    StrayFlowIsAccepted();
    var seeded := Seeded([TOPIC], map["topic" := Str("tea")]);
    assert "topic\n" !in seeded by {
      assert |"topic"| == 5 && |"topic\n"| == 6;
    }
    StrayArgsMiss(seeded);
  }

  lemma StrayArgsMiss(inputs: map<string, Json>)
    requires "topic\n" !in inputs
    ensures Resolve(Dict(ASK.args), inputs, []) == Err(Unresolved(STRAY, NotAnInput))
  {
    StrayLeafMisses(inputs);
    var args: Entries := ASK.args;
    assert args[0].value == Str(STRAY);
    assert Resolve(args[0].value, inputs, []) == Err(Unresolved(STRAY, NotAnInput));
    assert ResolveEntries(args, inputs, []) == Err(Unresolved(STRAY, NotAnInput));
  }
}

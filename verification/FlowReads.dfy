/**
 What the references of a flow say, on the text as it is written: which value each spelling
 reads at run time, and that the declaration accepts the spelling for that very value.
 */
module FlowReads {
  import opened Common
  import opened Digits
  import opened FlowRefs
  import opened FlowGrammar
  import Splitting

  /** No part of the path is empty or holds more than letters, digits and underscores. */
  predicate Segments(path: seq<string>) {
    forall p | p in path :: IsSegment(p)
  }

  /** The text after "$steps.": a number, a field and a path, with dots between them. */
  function Dotted(n: nat, field: string, path: seq<string>): string {
    Splitting.Join('.', [NatToString(n), field] + path)
  }

  lemma DottedSplits(n: nat, field: string, path: seq<string>)
    requires '.' !in field && Segments(path)
    ensures Split(Dotted(n, field, path)) == [NatToString(n), field] + path
    ensures Path(path) == path
  {
    var parts := [NatToString(n), field] + path;
    assert '.' !in NatToString(n);
    if path != [] {
      assert path[0] in path;
    }
    forall p | p in parts ensures '.' !in p {
      assert p == NatToString(n) || p == field || p in path;
    }
    Splitting.SplitJoin('.', parts);
  }

  lemma {:induction false} JoinEnds(parts: seq<string>)
    requires parts != [] && parts[|parts| - 1] != "" && !EndsInNewline(parts[|parts| - 1])
    ensures var s := Splitting.Join('.', parts); s != "" && !EndsInNewline(s)
  {
    if |parts| > 1 {
      JoinEnds(parts[1..]);
    }
  }

  /** v is "$steps." and the rest. */
  ghost predicate Steps(v: string, rest: string) {
    StartsWith(v, "$steps.") && v[7..] == rest
  }

  lemma StepsText(v: string, rest: string)
    requires v == "$steps." + rest
    ensures Steps(v, rest) && Attempted(v)
  {
    assert v[..7] == "$steps." && v[..6] == "$steps."[..6] == "$steps";
  }

  lemma InputText(v: string, key: string)
    requires v == "$input." + key
    ensures StartsWith(v, "$input.") && v[7..] == key && Attempted(v)
  {
    assert v[..7] == "$input." && v[..6] == "$input."[..6] == "$input";
  }

  lemma DottedEnds(n: nat, field: string, path: seq<string>)
    requires field != "" && !EndsInNewline(field) && Segments(path)
    ensures Dotted(n, field, path) != "" && !EndsInNewline(Dotted(n, field, path))
  {
    var parts := [NatToString(n), field] + path;
    assert parts[|parts| - 1] == field || parts[|parts| - 1] in path;
    JoinEnds(parts);
  }

  lemma CleanEnd(v: string, rest: string)
    requires Steps(v, rest) && rest != "" && !EndsInNewline(rest)
    ensures v != "" && !EndsInNewline(v) && Chomp(rest) == rest
  {
    assert rest[|rest| - 1] == v[|v| - 1];
  }

  lemma StepAccepted(v: string, n: nat, field: string, path: seq<string>)
    requires Steps(v, Dotted(n, field, path)) && Chomp(Dotted(n, field, path)) == Dotted(n, field, path)
    requires Split(Dotted(n, field, path)) == [NatToString(n), field] + path && Segments(path)
    ensures StepRef(v) == Field(field, n, path)
  {
    var parts := [NatToString(n), field] + path;
    assert parts[2..] == path;
    forall k | 2 <= k < |parts| ensures IsSegment(parts[k]) {
      assert parts[k] == path[k - 2] && path[k - 2] in path;
    }
    ParsePrint(n);
  }

  lemma FieldKnown(field: string)
    requires field in ["text", "data", "artifacts"]
    ensures field != "" && !EndsInNewline(field) && '.' !in field
    ensures forall n, path :: Field(field, n, path).Some?
  {
  }

  /** Such a text is accepted for the step and field it spells, and dispatched there. */
  lemma StepSpelled(v: string, n: nat, field: string, path: seq<string>)
    requires Steps(v, Dotted(n, field, path)) && field in ["text", "data", "artifacts"] && Segments(path)
    ensures v != "" && !Stray(v)
    ensures Declared(v) == Field(field, n, path) && Dispatch(v) == Field(field, n, path)
  {
    FieldKnown(field);
    DottedSplits(n, field, path);
    DottedEnds(n, field, path);
    CleanEnd(v, Dotted(n, field, path));
    StepAccepted(v, n, field, path);
    StepsHead(v);
    AgreeIffNotStray(v);
  }

  /** "$input.key" reads the input of that key, and is stuck on a key that is none. */
  lemma ReadsInput(v: string, key: string, inputs: map<string, Json>, results: seq<ToolResult>)
    requires v == "$input." + key
    ensures ResolveLeaf(v, inputs, results)
         == if key in inputs then Ok(inputs[key]) else Err(Unresolved(v, NotAnInput))
    ensures IsName(key) ==> Declared(v) == Some(Input(key))
  {
    InputText(v, key);
    InputHead(v);
    if IsName(key) {
      assert key[|key| - 1] != '\n';
      assert Chomp(v[7..]) == key;
    }
  }

  ghost predicate Fetched(v: string, t: Target, inputs: map<string, Json>, results: seq<ToolResult>) {
    ResolveLeaf(v, inputs, results)
      == match Fetch(t, inputs, results) case Ok(found) => Ok(found) case Err(why) => Err(Unresolved(v, why))
  }

  /** What looks like a reference and is headed by neither word reads nothing. */
  lemma OtherHeadsReadNothing(v: string, inputs: map<string, Json>, results: seq<ToolResult>)
    requires Attempted(v) && Partition(v[1..]).0 !in ["input", "steps"]
    ensures ResolveLeaf(v, inputs, results) == Err(Unresolved(v, NoTarget)) && Declared(v) == None
  {
    assert v != "" by {
      assert "$input"[0] == '$';
    }
    if StartsWith(v, "$input.") {
      assert v[..7][1] == 'i';
      assert "$input."[1..6] == "input";
      HeadAt(v, "input", "$input.");
    }
    if StartsWith(v, "$steps.") {
      assert v[..7][1] == 's';
      assert "$steps."[1..6] == "steps";
      HeadAt(v, "steps", "$steps.");
    }
  }

  lemma ReadsFetched(v: string, t: Target, inputs: map<string, Json>, results: seq<ToolResult>)
    requires Attempted(v) && v != "" && Dispatch(v) == Some(t)
    ensures Fetched(v, t, inputs, results)
  {
  }

  /** "$steps.n.text" reads the text of result n, of no other, and is stuck when step n has not run. */
  lemma ReadsText(v: string, n: nat, inputs: map<string, Json>, results: seq<ToolResult>)
    requires v == "$steps." + (NatToString(n) + ".text")
    ensures ResolveLeaf(v, inputs, results)
         == if n < |results| then Ok(Str(results[n].text)) else Err(Unresolved(v, NotRun))
    ensures Declared(v) == Some(StepText(n))
  {
    DottedTwo(n, "text");
    assert NatToString(n) + "." + "text" == NatToString(n) + ".text";
    ReadsField(v, n, "text", [], inputs, results);
  }

  lemma DottedTwo(n: nat, field: string)
    ensures Dotted(n, field, []) == NatToString(n) + "." + field
  {
    var parts := [NatToString(n), field];
    assert parts + [] == parts && parts[1..] == [field];
    assert Splitting.Join('.', [field]) == field;
    assert ['.'] == ".";
  }

  /** A spelled step reference is accepted for its target, and what it reads is what is fetched there. */
  lemma ReadsField(v: string, n: nat, field: string, path: seq<string>, inputs: map<string, Json>,
                   results: seq<ToolResult>)
    requires v == "$steps." + Dotted(n, field, path) && field in ["text", "data", "artifacts"] && Segments(path)
    ensures Field(field, n, path).Some? && Declared(v) == Field(field, n, path)
    ensures Fetched(v, Field(field, n, path).value, inputs, results)
  {
    FieldKnown(field);
    StepsText(v, Dotted(n, field, path));
    StepSpelled(v, n, field, path);
    ReadsFetched(v, Field(field, n, path).value, inputs, results);
  }

  /** v reads what the path leads to in the data of result n. */
  ghost predicate ReadsPart(v: string, n: nat, path: seq<string>, inputs: map<string, Json>,
                            results: seq<ToolResult>) {
    if n < |results| then
      forall part :: ResolveLeaf(v, inputs, results) == Ok(part) <==> Leads(results[n].data, path, part)
    else ResolveLeaf(v, inputs, results) == Err(Unresolved(v, NotRun))
  }

  lemma FetchedPart(v: string, n: nat, path: seq<string>, inputs: map<string, Json>, results: seq<ToolResult>)
    requires Fetched(v, StepData(n, path), inputs, results)
    ensures ReadsPart(v, n, path, inputs, results)
  {
    if n < |results| {
      forall part ensures Walk(results[n].data, path) == Some(part) <==> Leads(results[n].data, path, part) {
        WalkLeads(results[n].data, path, part);
      }
    }
  }

  /** "$steps.n.data" followed by a path reads what the path leads to in the data of result n. */
  lemma ReadsData(v: string, n: nat, path: seq<string>, inputs: map<string, Json>, results: seq<ToolResult>)
    requires v == "$steps." + Dotted(n, "data", path) && Segments(path)
    ensures Declared(v) == Some(StepData(n, path)) && ReadsPart(v, n, path, inputs, results)
  {
    ReadsField(v, n, "data", path, inputs, results);
    FetchedPart(v, n, path, inputs, results);
  }

  /** v reads artifact i of result n, and is stuck when there is none. */
  ghost predicate ReadsItem(v: string, n: nat, i: nat, inputs: map<string, Json>, results: seq<ToolResult>) {
    var r := ResolveLeaf(v, inputs, results);
    if n >= |results| then r == Err(Unresolved(v, NotRun))
    else if i >= |results[n].artifacts| then r == Err(Unresolved(v, NotThere))
    else r == Ok(Str(results[n].artifacts[i]))
  }

  lemma FetchedItem(v: string, n: nat, i: nat, inputs: map<string, Json>, results: seq<ToolResult>)
    requires Fetched(v, StepArtifacts(n, [NatToString(i)]), inputs, results)
    ensures ReadsItem(v, n, i, inputs, results)
  {
    if n < |results| {
      ArtifactWalk(results[n].artifacts, i);
    }
  }

  lemma NumberSegment(i: nat)
    ensures Segments([NatToString(i)])
  {
    assert IsSegment(NatToString(i));
  }

  /** "$steps.n.artifacts.i" reads artifact i of result n. */
  lemma ReadsArtifact(v: string, n: nat, i: nat, inputs: map<string, Json>, results: seq<ToolResult>)
    requires v == "$steps." + Dotted(n, "artifacts", [NatToString(i)])
    ensures Declared(v) == Some(StepArtifacts(n, [NatToString(i)]))
    ensures ReadsItem(v, n, i, inputs, results)
  {
    NumberSegment(i);
    ReadsField(v, n, "artifacts", [NatToString(i)], inputs, results);
    FetchedItem(v, n, i, inputs, results);
  }

  lemma ArtifactWalk(artifacts: seq<string>, i: nat)
    ensures Walk(List(Texts(artifacts)), [NatToString(i)]) == if i < |artifacts| then Some(Str(artifacts[i])) else None
  {
    WalkOne(List(Texts(artifacts)), NatToString(i));
    ParsePrint(i);
  }

  lemma WalkOne(value: Json, segment: string)
    ensures Walk(value, [segment]) == Child(value, segment)
  {
    assert [segment][1..] == [];
  }

  /** Walking p and then q is walking both in one. */
  lemma {:induction false} WalkAppend(value: Json, p: seq<string>, q: seq<string>)
    ensures Walk(value, p + q) == match Walk(value, p) case Some(part) => Walk(part, q) case None => None
    decreases |p|
  {
    if p == [] {
      assert p + q == q;
    } else {
      assert (p + q)[1..] == p[1..] + q;
      if Child(value, p[0]).Some? {
        WalkAppend(Child(value, p[0]).value, p[1..], q);
      }
    }
  }

  /** A number picks that item of a list; a key picks the value under it in a dict without repeats. */
  lemma WalkSteps(items: seq<Json>, i: nat, entries: Entries, k: nat)
    requires k < |entries| && !IsDecimal(entries[k].key)
    requires forall j | 0 <= j < |entries| && j != k :: entries[j].key != entries[k].key
    ensures Walk(List(items), [NatToString(i)]) == if i < |items| then Some(items[i]) else None
    ensures Walk(Dict(entries), [entries[k].key]) == Some(entries[k].value)
    ensures Walk(Dict(entries), [NatToString(i)]) == None && Walk(List(items), [entries[k].key]) == None
  {
    ParsePrint(i);
    WalkOne(List(items), NatToString(i));
    WalkOne(Dict(entries), NatToString(i));
    WalkOne(Dict(entries), entries[k].key);
    WalkOne(List(items), entries[k].key);
    GetAt(entries, entries[k].key);
  }

  /** An accepted reference that is not stray reads its target's content, and nothing when there is none. */
  lemma ReadsWhatIsDeclared(v: string, inputs: map<string, Json>, results: seq<ToolResult>, content: Json)
    requires Declared(v).Some? && !Stray(v)
    ensures ResolveLeaf(v, inputs, results) == Ok(content) <==> Means(Declared(v).value, inputs, results, content)
  {
    AgreeIffNotStray(v);
    AcceptedIsAttempted(v);
    FetchIsMeaning(Declared(v).value, inputs, results, content);
  }

  /** A declaration means one thing: what a step is handed is determined by it. */
  lemma {:induction false} DenotesOneValue(
    value: Json, one: Json, other: Json, inputs: map<string, Json>, results: seq<ToolResult>)
    requires Denotes(value, one, inputs, results) && Denotes(value, other, inputs, results)
    ensures one == other
    decreases value
  {
    match value
    case Str(s) =>
      if Attempted(s) {
        FetchIsMeaning(Declared(s).value, inputs, results, one);
        FetchIsMeaning(Declared(s).value, inputs, results, other);
      }
    case List(items) =>
      forall k | 0 <= k < |items| ensures one.items[k] == other.items[k] {
        DenotesOneValue(items[k], one.items[k], other.items[k], inputs, results);
      }
      assert one.items == other.items;
    case Dict(entries) =>
      forall k | 0 <= k < |entries| ensures one.entries[k] == other.entries[k] {
        DenotesOneValue(entries[k].value, one.entries[k].value, other.entries[k].value, inputs, results);
      }
      assert one.entries == other.entries;
    case _ =>
  }

  /** Seeding keeps every supplied value, fills the declared rest with null, and adds nothing. */
  lemma SeededKeeps(declared: seq<FlowInput>, given: map<string, Json>, key: string)
    ensures key in given ==> key in Seeded(declared, given) && Seeded(declared, given)[key] == given[key]
    ensures key !in given && (exists k :: 0 <= k < |declared| && declared[k].key == key) ==>
      key in Seeded(declared, given) && Seeded(declared, given)[key] == Null
    ensures key in Seeded(declared, given) ==>
      key in given || exists k :: 0 <= k < |declared| && declared[k].key == key
  {
  }
}

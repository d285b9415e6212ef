/**
 The prompt fence: lines of dashes in a body are escaped, and the body goes between a BEGIN
 and an END line that carry a marker. Lines end at '\n' only.
 */
module Fence {
  import opened Common
  import opened Splitting
  import opened Stripping

  function Lines(text: string): seq<string> {
    Split('\n', text)
  }

  predicate Blank(c: char) {
    c == ' ' || c == '\t'
  }

  function Trim(s: string): string {
    Strip(Blank, s)
  }

  /** Three or more dashes, with blanks on either side. */
  predicate DashLine(line: string) {
    |Trim(line)| >= 3 && forall k | 0 <= k < |Trim(line)| :: Trim(line)[k] == '-'
  }

  function NeutralLine(line: string): string {
    if DashLine(line) then "\\" + Trim(line) else line
  }

  function NeutralLines(lines: seq<string>): seq<string> {
    seq(|lines|, k requires 0 <= k < |lines| => NeutralLine(lines[k]))
  }

  function Neutralize(text: string): string {
    Join('\n', NeutralLines(Lines(text)))
  }

  /** A dash line: blanks -- spaces and tabs -- then three dashes or more and nothing else, then blanks. */
  lemma DashLineIff(line: string)
    ensures DashLine(line) <==> exists i: nat, j: nat :: Dashes(line, i, j)
  {
    TrimPlace(line);
    var i: nat :| i + |Trim(line)| <= |line| && Trimmed(line, i);
    if DashLine(line) {
      forall k | i <= k < i + |Trim(line)| ensures line[k] == '-' {
        assert line[k] == Trim(line)[k - i];
      }
      assert Dashes(line, i, i + |Trim(line)|);
    }
    if a: nat, b: nat :| Dashes(line, a, b) {
      TrimOf(line, a, b);
    }
  }

  ghost predicate Dashes(line: string, i: nat, j: nat) {
    && i + 3 <= j <= |line|
    && (forall k | 0 <= k < i || j <= k < |line| :: line[k] == ' ' || line[k] == '\t')
    && (forall k | i <= k < j :: line[k] == '-')
  }

  /** The trimmed text starts at place i, with blanks around it. */
  ghost predicate Trimmed(line: string, i: nat)
    requires i + |Trim(line)| <= |line|
  {
    && line[i..i + |Trim(line)|] == Trim(line)
    && (forall k | 0 <= k < i || i + |Trim(line)| <= k < |line| :: line[k] == ' ' || line[k] == '\t')
  }

  lemma TrimPlace(line: string)
    ensures exists i: nat :: i + |Trim(line)| <= |line| && Trimmed(line, i)
  {
    StripPlace(Blank, line);
    var i: nat :| StripsTo(Blank, line, i);
    assert Trimmed(line, i);
  }

  /** What stands between blanks and has none at its ends is what trimming leaves. */
  lemma TrimOf(line: string, i: nat, j: nat)
    requires Dashes(line, i, j)
    ensures Trim(line) == line[i..j]
  {
    StripBetween(Blank, line, i, j);
  }

  /** Escaping puts a backslash before the dashes and loses none of them. */
  lemma EscapeKeepsDashes(line: string, i: nat, j: nat)
    requires Dashes(line, i, j)
    ensures NeutralLine(line) == "\\" + line[i..j]
  {
    TrimOf(line, i, j);
    assert DashLine(line);
  }

  /** The escaped line is still one line, and is no dash line. */
  lemma EscapedLine(line: string)
    requires '\n' !in line
    ensures '\n' !in NeutralLine(line) && !DashLine(NeutralLine(line))
  {
    StripPart(Blank, line);
    if DashLine(line) {
      var e := "\\" + Trim(line);
      assert e[|e| - 1] == Trim(line)[|Trim(line)| - 1];
      StripIdle(Blank, e);
      assert e[0] == '\\';
    }
  }

  /** Line by line: as many lines, dash lines escaped, every other line as it was. */
  lemma NeutralizedLines(text: string)
    ensures Lines(Neutralize(text)) == NeutralLines(Lines(text))
  {
    forall p | p in NeutralLines(Lines(text)) ensures '\n' !in p {
      var k :| 0 <= k < |Lines(text)| && p == NeutralLine(Lines(text)[k]);
      EscapedLine(Lines(text)[k]);
    }
    SplitJoin('\n', NeutralLines(Lines(text)));
  }

  lemma NoDashLineLeft(text: string)
    ensures forall line | line in Lines(Neutralize(text)) :: !DashLine(line)
  {
    NeutralizedLines(text);
    forall line | line in Lines(Neutralize(text)) ensures !DashLine(line) {
      var k :| 0 <= k < |Lines(text)| && line == NeutralLine(Lines(text)[k]);
      EscapedLine(Lines(text)[k]);
    }
  }

  /** The text is left alone exactly when it has no dash line. */
  lemma UnchangedIffNoDashLine(text: string)
    ensures Neutralize(text) == text <==> forall line | line in Lines(text) :: !DashLine(line)
  {
    if forall line | line in Lines(text) :: !DashLine(line) {
      assert forall k | 0 <= k < |Lines(text)| :: Lines(text)[k] in Lines(text);
      assert NeutralLines(Lines(text)) == Lines(text);
      JoinSplit('\n', text);
    } else {
      NoDashLineLeft(text);
    }
  }

  lemma NeutralizeTwice(text: string)
    ensures Neutralize(Neutralize(text)) == Neutralize(text)
  {
    NoDashLineLeft(text);
    UnchangedIffNoDashLine(Neutralize(text));
  }

  // ----- the wrap, and how a reader takes it off again

  function Begin(name: string, marker: string): string {
    "--- BEGIN " + name + " (marker " + marker + ") ---"
  }

  function End(name: string, marker: string): string {
    "--- END " + name + " (marker " + marker + ") ---"
  }

  function Wrap(header: string, name: string, marker: string, text: string): string {
    header + "\n" + Begin(name, marker) + "\n" + Neutralize(text) + "\n" + End(name, marker)
  }

  /** The wrapped text, character by character, for a body without dash lines. */
  lemma WrapText(header: string, name: string, marker: string, text: string)
    requires forall line | line in Lines(text) :: !DashLine(line)
    ensures Wrap(header, name, marker, text)
         == header + "\n--- BEGIN " + name + " (marker " + marker + ") ---\n" + text
            + "\n--- END " + name + " (marker " + marker + ") ---"
  {
    UnchangedIffNoDashLine(text);
    assert "\n" + "--- BEGIN " == "\n--- BEGIN " && ") ---" + "\n" == ") ---\n" && "\n" + "--- END " == "\n--- END ";
    TextsGroup(header, name, marker, text);
  }

  lemma TextsGroup(header: string, name: string, marker: string, text: string)
    ensures header + "\n" + Begin(name, marker) + "\n" + text + "\n" + End(name, marker)
         == header + "\n--- BEGIN " + name + " (marker " + marker + ") ---\n" + text
            + "\n--- END " + name + " (marker " + marker + ") ---"
  {
  }

  function IndexOf(lines: seq<string>, line: string): (k: nat)
    ensures k <= |lines| && (k < |lines| ==> lines[k] == line) && forall j | 0 <= j < k :: lines[j] != line
  {
    if lines == [] || lines[0] == line then 0 else 1 + IndexOf(lines[1..], line)
  }

  /** What lies between the first BEGIN line and the first END line after it. */
  function Unwrap(name: string, marker: string, s: string): Option<string> {
    var lines := Lines(s);
    var b := IndexOf(lines, Begin(name, marker));
    if b == |lines| then None
    else
      var inner := lines[b + 1..];
      var e := IndexOf(inner, End(name, marker));
      if e == |inner| then None else Some(Join('\n', inner[..e]))
  }

  /** Taking off needs both lines, the END line after the BEGIN line. */
  lemma UnwrapNeedsBoth(name: string, marker: string, s: string)
    requires Unwrap(name, marker, s).Some?
    ensures exists b: nat, e: nat ::
      b < e < |Lines(s)| && Lines(s)[b] == Begin(name, marker) && Lines(s)[e] == End(name, marker)
  {
    var lines := Lines(s);
    var b := IndexOf(lines, Begin(name, marker));
    var e := IndexOf(lines[b + 1..], End(name, marker));
    assert lines[b + 1..][e] == lines[b + 1 + e];
  }

  predicate OneLine(name: string, marker: string) {
    '\n' !in name && '\n' !in marker
  }

  lemma WrapLines(header: string, name: string, marker: string, text: string)
    requires OneLine(name, marker)
    ensures Lines(Wrap(header, name, marker, text))
         == Lines(header) + [Begin(name, marker)] + NeutralLines(Lines(text)) + [End(name, marker)]
  {
    var begin, end := Begin(name, marker), End(name, marker);
    assert '\n' !in begin && '\n' !in end;
    SplitConcat('\n', header, begin);
    SplitConcat('\n', header + "\n" + begin, Neutralize(text));
    SplitConcat('\n', header + "\n" + begin + "\n" + Neutralize(text), end);
    OneLineSplit(begin);
    OneLineSplit(end);
    NeutralizedLines(text);
    assert Wrap(header, name, marker, text) == header + "\n" + begin + "\n" + Neutralize(text) + "\n" + end;
  }

  lemma OneLineSplit(s: string)
    requires '\n' !in s
    ensures Lines(s) == [s]
  {
    SplitJoin('\n', [s]);
  }

  lemma IndexIn(p: seq<string>, line: string, q: seq<string>)
    requires line !in p
    ensures IndexOf(p + [line] + q, line) == |p|
  {
    var all := p + [line] + q;
    assert all[|p|] == line;
    assert forall j | 0 <= j < |p| :: all[j] == p[j];
  }

  /** Escaping never makes a line that does not start with a backslash. */
  lemma NotMadeByEscaping(line: string, mark: string)
    requires mark != "" && mark[0] != '\\'
    ensures NeutralLine(line) == mark ==> line == mark
  {
  }

  lemma NeutralKeepsEnd(name: string, marker: string, lines: seq<string>)
    ensures End(name, marker) in NeutralLines(lines) <==> End(name, marker) in lines
  {
    var end := End(name, marker);
    if end in NeutralLines(lines) {
      var k :| 0 <= k < |lines| && NeutralLine(lines[k]) == end;
      NotMadeByEscaping(lines[k], end);
    }
    if end in lines {
      var k :| 0 <= k < |lines| && lines[k] == end;
      NotDash(end);
      assert NeutralLines(lines)[k] == end;
    }
  }

  lemma NotDash(end: string)
    requires |end| > 4 && end[0] == '-' && end[|end| - 1] == '-' && end[4] != '-'
    ensures !DashLine(end)
  {
    StripIdle(Blank, end);
  }

  /**
   With no BEGIN line in the header, taking the fence off gives back the escaped body exactly
   when the body does not itself hold the END line.
   */
  lemma UnwrapIffNoEndInside(header: string, name: string, marker: string, text: string)
    requires OneLine(name, marker) && Begin(name, marker) !in Lines(header)
    ensures Unwrap(name, marker, Wrap(header, name, marker, text)) == Some(Neutralize(text))
      <==> End(name, marker) !in Lines(text)
  {
    var begin, end := Begin(name, marker), End(name, marker);
    var body := NeutralLines(Lines(text));
    var lines := Lines(Wrap(header, name, marker, text));
    WrapLines(header, name, marker, text);
    assert lines == Lines(header) + [begin] + (body + [end]);
    IndexIn(Lines(header), begin, body + [end]);
    var inner := lines[|Lines(header)| + 1..];
    assert inner == body + [end];
    NeutralKeepsEnd(name, marker, Lines(text));
    if end !in body {
      assert inner == body + [end] + [];
      IndexIn(body, end, []);
      assert inner[..|body|] == body;
    } else {
      NeutralizedLines(text);
      EarlyEnd(body, end, Neutralize(text));
    }
  }

  /** An END line in the body cuts the text short. */
  lemma EarlyEnd(body: seq<string>, end: string, text: string)
    requires end in body && Lines(text) == body
    ensures var e := IndexOf(body + [end], end); e < |body| && (e > 0 ==> Join('\n', (body + [end])[..e]) != text)
  {
    var e := IndexOf(body + [end], end);
    var k :| 0 <= k < |body| && body[k] == end;
    assert (body + [end])[k] == end;
    if e > 0 {
      var front := (body + [end])[..e];
      assert forall p | p in front :: p in body;
      SplitJoin('\n', front);
    }
  }

  // ----- markers

  ghost predicate OccursAt(part: string, s: string, i: nat) {
    i + |part| <= |s| && s[i..i + |part|] == part
  }

  ghost predicate Occurs(part: string, s: string) {
    exists i :: OccursAt(part, s, i)
  }

  lemma OccursInside(part: string, p: string, s: string, q: string)
    requires Occurs(part, s)
    ensures Occurs(part, p + s + q)
  {
    var i :| OccursAt(part, s, i);
    assert OccursAt(part, p + s + q, |p| + i);
  }

  lemma {:induction false} LineOccurs(c: char, part: string, line: string, s: string)
    requires line in Split(c, s) && Occurs(part, line)
    ensures Occurs(part, s)
    decreases |s|
  {
    var d := Find(c, s);
    if d != |s| {
      if line == s[..d] {
        OccursInside(part, "", line, s[d..]);
        assert "" + line + s[d..] == s;
      } else {
        LineOccurs(c, part, line, s[d + 1..]);
        OccursInside(part, s[..d + 1], s[d + 1..], "");
        assert s[..d + 1] + s[d + 1..] + "" == s;
      }
    }
  }

  /** A marker that the text does not contain cannot close, or open, the fence from inside it. */
  lemma AbsentMarker(name: string, marker: string, s: string)
    requires !Occurs(marker, s)
    ensures Begin(name, marker) !in Lines(s) && End(name, marker) !in Lines(s)
  {
    assert OccursAt(marker, marker, 0);
    OccursInside(marker, "--- BEGIN " + name + " (marker ", marker, ") ---");
    OccursInside(marker, "--- END " + name + " (marker ", marker, ") ---");
    if Begin(name, marker) in Lines(s) {
      LineOccurs('\n', marker, Begin(name, marker), s);
    }
    if End(name, marker) in Lines(s) {
      LineOccurs('\n', marker, End(name, marker), s);
    }
  }

  // ----- fences inside fences

  datatype Layer = Layer(header: string, name: string, marker: string)

  /** Wraps once per layer, the first layer outermost. */
  function Nest(layers: seq<Layer>, text: string): string {
    if layers == [] then text
    else Wrap(layers[0].header, layers[0].name, layers[0].marker, Nest(layers[1..], text))
  }

  function Peel(layers: seq<Layer>, s: string): Option<string> {
    if layers == [] then Some(s)
    else match Unwrap(layers[0].name, layers[0].marker, s)
      case None => None
      case Some(inner) => Peel(layers[1..], inner)
  }

  /** Each marker is absent from its own header and from everything it was wrapped around. */
  ghost predicate FreshMarkers(layers: seq<Layer>, text: string) {
    layers == [] ||
    (&& OneLine(layers[0].name, layers[0].marker)
     && !Occurs(layers[0].marker, layers[0].header)
     && !Occurs(layers[0].marker, Nest(layers[1..], text))
     && FreshMarkers(layers[1..], text))
  }

  lemma MarkerLineKept(line: string, name: string, marker: string)
    requires line == Begin(name, marker) || line == End(name, marker)
    ensures NeutralLine(line) == line
  {
    NotDash(line);
  }

  lemma NeutralConcat(p: seq<string>, q: seq<string>)
    ensures NeutralLines(p + q) == NeutralLines(p) + NeutralLines(q)
  {
  }

  lemma NeutralLinesTwice(text: string)
    ensures NeutralLines(NeutralLines(Lines(text))) == NeutralLines(Lines(text))
  {
    NeutralizeTwice(text);
    NeutralizedLines(text);
    NeutralizedLines(Neutralize(text));
  }

  /** The lines from BEGIN to END of a wrapped text pass through untouched. */
  lemma FencedPartKept(name: string, marker: string, text: string)
    ensures var part := [Begin(name, marker)] + NeutralLines(Lines(text)) + [End(name, marker)];
      NeutralLines(part) == part
  {
    var begin, body, end := [Begin(name, marker)], NeutralLines(Lines(text)), [End(name, marker)];
    MarkerLineKept(begin[0], name, marker);
    MarkerLineKept(end[0], name, marker);
    NeutralLinesTwice(text);
    NeutralConcat(begin + body, end);
    NeutralConcat(begin, body);
    assert NeutralLines(begin) == begin && NeutralLines(end) == end;
  }

  lemma Regroup(front: seq<string>, name: string, marker: string, text: string)
    ensures front + [Begin(name, marker)] + NeutralLines(Lines(text)) + [End(name, marker)]
         == front + ([Begin(name, marker)] + NeutralLines(Lines(text)) + [End(name, marker)])
  {
  }

  lemma LinesDetermine(s: string, t: string)
    requires Lines(s) == Lines(t)
    ensures s == t
  {
    JoinSplit('\n', s);
    JoinSplit('\n', t);
  }

  /** Escaping a wrapped text escapes its header only. */
  lemma NeutralizeWrapped(header: string, name: string, marker: string, text: string)
    requires OneLine(name, marker)
    ensures Neutralize(Wrap(header, name, marker, text)) == Wrap(Neutralize(header), name, marker, text)
  {
    var part := [Begin(name, marker)] + NeutralLines(Lines(text)) + [End(name, marker)];
    WrapLines(header, name, marker, text);
    WrapLines(Neutralize(header), name, marker, text);
    NeutralizedLines(header);
    FencedPartKept(name, marker, text);
    NeutralConcat(Lines(header), part);
    NeutralizedLines(Wrap(header, name, marker, text));
    Regroup(Lines(header), name, marker, text);
    Regroup(NeutralLines(Lines(header)), name, marker, text);
    LinesDetermine(Neutralize(Wrap(header, name, marker, text)), Wrap(Neutralize(header), name, marker, text));
  }

  lemma NeutralKeepsBegin(name: string, marker: string, header: string)
    requires Begin(name, marker) !in Lines(header)
    ensures Begin(name, marker) !in Lines(Neutralize(header))
  {
    NeutralizedLines(header);
    forall k | 0 <= k < |Lines(header)| ensures NeutralLine(Lines(header)[k]) != Begin(name, marker) {
      NotMadeByEscaping(Lines(header)[k], Begin(name, marker));
    }
  }

  /** The layers come off whichever way the outer header's own dash lines were treated. */
  lemma {:induction false} PeelFrom(layers: seq<Layer>, header: string, text: string)
    requires layers != [] && FreshMarkers(layers, text)
    requires Begin(layers[0].name, layers[0].marker) !in Lines(header)
    ensures Peel(layers, Wrap(header, layers[0].name, layers[0].marker, Nest(layers[1..], text)))
      == Some(Neutralize(text))
    decreases |layers|
  {
    var l, inside := layers[0], Nest(layers[1..], text);
    AbsentMarker(l.name, l.marker, inside);
    UnwrapIffNoEndInside(header, l.name, l.marker, inside);
    var rest := layers[1..];
    if rest != [] {
      NeutralizeWrapped(rest[0].header, rest[0].name, rest[0].marker, Nest(rest[1..], text));
      AbsentMarker(rest[0].name, rest[0].marker, rest[0].header);
      NeutralKeepsBegin(rest[0].name, rest[0].marker, rest[0].header);
      PeelFrom(rest, Neutralize(rest[0].header), text);
    }
  }

  /**
   However deep the fences, and whatever forged marker lines the body or the headers hold:
   with fresh markers, as many unwraps as wraps give back the escaped body.
   */
  lemma NestedFencesComeOff(layers: seq<Layer>, text: string)
    requires layers != [] && FreshMarkers(layers, text)
    ensures Peel(layers, Nest(layers, text)) == Some(Neutralize(text))
  {
    AbsentMarker(layers[0].name, layers[0].marker, layers[0].header);
    PeelFrom(layers, layers[0].header, text);
  }
}

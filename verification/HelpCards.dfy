/**
 The canonical serialization behind the settings help's content hash, and the decoder that
 shows when it is unambiguous.
 */
module HelpCards {
  import opened Common
  import opened Splitting

  datatype HelpField = HelpField(name: string, anchor: string, meaning: string, effects: string)

  datatype HelpCard = HelpCard(route: string, title: string, gate: string, purpose: string, fields: seq<HelpField>)

  const SEP := 0x1f as char

  function FieldParts(f: HelpField): seq<string> {
    [f.name, f.anchor, f.meaning, f.effects]
  }

  function FieldsParts(fields: seq<HelpField>): seq<string> {
    if fields == [] then [] else FieldParts(fields[0]) + FieldsParts(fields[1..])
  }

  function Head(c: HelpCard): seq<string> {
    [c.route, c.title, c.gate, c.purpose]
  }

  /** Each card ends with an empty part. */
  function Parts(cards: seq<HelpCard>): seq<string> {
    if cards == [] then [] else Head(cards[0]) + FieldsParts(cards[0].fields) + [""] + Parts(cards[1..])
  }

  function Serialize(cards: seq<HelpCard>): string {
    Join(SEP, Parts(cards))
  }

  lemma {:induction false} FieldsPartsAppend(fields: seq<HelpField>, f: HelpField)
    ensures FieldsParts(fields + [f]) == FieldsParts(fields) + FieldParts(f)
  {
    if fields == [] {
      assert [f][1..] == [];
    } else {
      assert (fields + [f])[1..] == fields[1..] + [f];
      FieldsPartsAppend(fields[1..], f);
    }
  }

  lemma {:induction false} PartsAppend(cards: seq<HelpCard>, c: HelpCard)
    ensures Parts(cards + [c]) == Parts(cards) + (Head(c) + FieldsParts(c.fields) + [""])
  {
    if cards == [] {
      assert [c][1..] == [];
      assert Parts([c]) == Head(c) + FieldsParts(c.fields) + [""] + [];
    } else {
      assert (cards + [c])[1..] == cards[1..] + [c];
      PartsAppend(cards[1..], c);
    }
  }

  /** The texts of two tables are those of one after the other, card by card. */
  lemma {:induction false} PartsConcat(cards: seq<HelpCard>, more: seq<HelpCard>)
    ensures Parts(cards + more) == Parts(cards) + Parts(more)
  {
    if cards == [] {
      assert cards + more == more;
    } else {
      assert (cards + more)[1..] == cards[1..] + more;
      PartsConcat(cards[1..], more);
    }
  }

  /** A card with one field, part by part: what the page is, the field, and an empty part at the end. */
  lemma OneFieldText(route: string, title: string, gate: string, purpose: string, f: HelpField)
    requires forall p | p in [route, title, gate, purpose, f.name, f.anchor, f.meaning, f.effects] :: 0x1f as char !in p
    ensures Split(0x1f as char, Serialize([HelpCard(route, title, gate, purpose, [f])]))
         == [route, title, gate, purpose, f.name, f.anchor, f.meaning, f.effects, ""]
  {
    var card := HelpCard(route, title, gate, purpose, [f]);
    var parts := [route, title, gate, purpose, f.name, f.anchor, f.meaning, f.effects];
    assert [f][1..] == [] && FieldsParts([f]) == FieldParts(f) + [];
    assert [card][1..] == [] && Parts([card]) == Head(card) + FieldsParts(card.fields) + [""] + [];
    assert Parts([card]) == parts + [""];
    forall p | p in parts + [""] ensures SEP !in p {
      assert p == "" || p in parts;
    }
    SplitJoin(SEP, parts + [""]);
  }

  method AddFields(parts: seq<string>, fields: seq<HelpField>) returns (more: seq<string>)
    ensures more == parts + FieldsParts(fields)
  {
    more := parts;
    for k := 0 to |fields|
      invariant more == parts + FieldsParts(fields[..k])
    {
      var field := fields[k];
      FieldsPartsAppend(fields[..k], field);
      assert fields[..k + 1] == fields[..k] + [field];
      more := more + [field.name, field.anchor, field.meaning, field.effects];
    }
    assert fields[..|fields|] == fields;
  }

  lemma Regroup(p: seq<string>, q: seq<string>, r: seq<string>, t: seq<string>)
    ensures p + q + r + t == p + (q + r + t)
  {
  }

  method CanonicalText(cards: seq<HelpCard>) returns (text: string)
    ensures text == Serialize(cards)
  {
    var parts: seq<string> := [];
    for n := 0 to |cards|
      invariant parts == Parts(cards[..n])
    {
      var card := cards[n];
      PartsAppend(cards[..n], card);
      assert cards[..n + 1] == cards[..n] + [card];
      Regroup(parts, Head(card), FieldsParts(card.fields), [""]);
      parts := parts + [card.route, card.title, card.gate, card.purpose];
      parts := AddFields(parts, card.fields);
      parts := parts + [""];
    }
    assert cards[..|cards|] == cards;
    text := Join(SEP, parts);
  }

  // ----- the decoder

  /** Fields up to an empty part, and what follows it. */
  function DecodeFields(parts: seq<string>): Option<(seq<HelpField>, seq<string>)>
    decreases |parts|
  {
    if parts == [] then None
    else if parts[0] == "" then Some(([], parts[1..]))
    else if |parts| < 4 then None
    else match DecodeFields(parts[4..])
      case None => None
      case Some((fields, rest)) => Some(([HelpField(parts[0], parts[1], parts[2], parts[3])] + fields, rest))
  }

  lemma {:induction false} DecodeFieldsShrinks(parts: seq<string>)
    ensures DecodeFields(parts).Some? ==> |DecodeFields(parts).value.1| < |parts|
    decreases |parts|
  {
    if parts != [] && parts[0] != "" && |parts| >= 4 {
      DecodeFieldsShrinks(parts[4..]);
    }
  }

  function DecodeParts(parts: seq<string>): Option<seq<HelpCard>>
    decreases |parts|
  {
    if parts == [] then Some([])
    else if |parts| < 4 then None
    else
      DecodeFieldsShrinks(parts[4..]);
      match DecodeFields(parts[4..])
      case None => None
      case Some((fields, rest)) =>
        match DecodeParts(rest)
        case None => None
        case Some(cards) => Some([HelpCard(parts[0], parts[1], parts[2], parts[3], fields)] + cards)
  }

  function Decode(text: string): Option<seq<HelpCard>> {
    if text == "" then Some([]) else DecodeParts(Split(SEP, text))
  }

  // ----- when the serialization is unambiguous

  predicate CleanField(f: HelpField) {
    f.name != "" && forall p | p in FieldParts(f) :: SEP !in p
  }

  /** No string holds the separator, and no field is nameless. */
  predicate Clean(cards: seq<HelpCard>) {
    forall c | c in cards :: (forall p | p in Head(c) :: SEP !in p) && forall f | f in c.fields :: CleanField(f)
  }

  predicate Separated(parts: seq<string>) {
    forall p | p in parts :: SEP !in p
  }

  lemma {:induction false} FieldsSeparated(fields: seq<HelpField>)
    requires forall f | f in fields :: CleanField(f)
    ensures Separated(FieldsParts(fields))
  {
    if fields != [] {
      FieldsSeparated(fields[1..]);
      assert CleanField(fields[0]);
    }
  }

  lemma {:induction false} PartsSeparated(cards: seq<HelpCard>)
    requires Clean(cards)
    ensures Separated(Parts(cards))
  {
    if cards != [] {
      assert cards[0] in cards;
      PartsSeparated(cards[1..]);
      FieldsSeparated(cards[0].fields);
    }
  }

  lemma {:induction false} DecodeFieldsBack(fields: seq<HelpField>, rest: seq<string>)
    requires forall f | f in fields :: CleanField(f)
    ensures DecodeFields(FieldsParts(fields) + [""] + rest) == Some((fields, rest))
    decreases |fields|
  {
    var parts := FieldsParts(fields) + [""] + rest;
    if fields == [] {
      assert parts[1..] == rest;
    } else {
      assert CleanField(fields[0]);
      DecodeFieldsBack(fields[1..], rest);
      assert parts[4..] == FieldsParts(fields[1..]) + [""] + rest;
      assert fields == [fields[0]] + fields[1..];
    }
  }

  lemma DecodeOne(parts: seq<string>, c: HelpCard, rest: seq<string>)
    requires |parts| >= 4 && parts[..4] == Head(c)
    requires DecodeFields(parts[4..]) == Some((c.fields, rest)) && DecodeParts(rest).Some?
    ensures DecodeParts(parts) == Some([c] + DecodeParts(rest).value)
  {
    assert parts[0] == parts[..4][0] && parts[1] == parts[..4][1]
        && parts[2] == parts[..4][2] && parts[3] == parts[..4][3];
    DecodeFieldsShrinks(parts[4..]);
  }

  lemma Block(head: seq<string>, fields: seq<string>, rest: seq<string>)
    requires |head| == 4
    ensures var parts := head + fields + [""] + rest; parts[..4] == head && parts[4..] == fields + [""] + rest
  {
  }

  lemma DecodeBlock(c: HelpCard, rest: seq<string>)
    requires (forall f | f in c.fields :: CleanField(f)) && DecodeParts(rest).Some?
    ensures DecodeParts(Head(c) + FieldsParts(c.fields) + [""] + rest) == Some([c] + DecodeParts(rest).value)
  {
    DecodeFieldsBack(c.fields, rest);
    Block(Head(c), FieldsParts(c.fields), rest);
    DecodeOne(Head(c) + FieldsParts(c.fields) + [""] + rest, c, rest);
  }

  lemma {:induction false} DecodePartsBack(cards: seq<HelpCard>)
    requires Clean(cards)
    ensures DecodeParts(Parts(cards)) == Some(cards)
    decreases |cards|
  {
    if cards != [] {
      assert cards[0] in cards;
      DecodePartsBack(cards[1..]);
      DecodeBlock(cards[0], Parts(cards[1..]));
      assert cards == [cards[0]] + cards[1..];
    }
  }

  lemma JoinNotEmpty(parts: seq<string>)
    requires |parts| > 1
    ensures Join(SEP, parts) != ""
  {
    assert |Join(SEP, parts)| >= 1;
  }

  lemma {:induction false} FieldsDecodedClean(parts: seq<string>)
    requires Separated(parts) && DecodeFields(parts).Some?
    ensures forall f | f in DecodeFields(parts).value.0 :: CleanField(f)
    ensures Separated(DecodeFields(parts).value.1)
    decreases |parts|
  {
    if parts[0] != "" {
      FieldsDecodedClean(parts[4..]);
      var f := HelpField(parts[0], parts[1], parts[2], parts[3]);
      assert CleanField(f);
    }
  }

  lemma {:induction false} CardsDecodedClean(parts: seq<string>)
    requires Separated(parts) && DecodeParts(parts).Some?
    ensures Clean(DecodeParts(parts).value)
    decreases |parts|
  {
    if parts != [] {
      FieldsDecodedClean(parts[4..]);
      DecodeFieldsShrinks(parts[4..]);
      CardsDecodedClean(DecodeFields(parts[4..]).value.1);
    }
  }

  /**
   The joined text gives the whole table back -- every card, with any number of fields --
   exactly when no string holds the separator and no field is nameless.
   */
  lemma RecoveredIffClean(cards: seq<HelpCard>)
    ensures Decode(Serialize(cards)) == Some(cards) <==> Clean(cards)
  {
    if Clean(cards) {
      if cards != [] {
        PartsSeparated(cards);
        JoinNotEmpty(Parts(cards));
        SplitJoin(SEP, Parts(cards));
        DecodePartsBack(cards);
      }
    } else if Decode(Serialize(cards)) == Some(cards) && Serialize(cards) != "" {
      CardsDecodedClean(Split(SEP, Serialize(cards)));
    }
  }

  /** So two tables that differ never have one serialization. */
  lemma SerializeInjective(cards: seq<HelpCard>, others: seq<HelpCard>)
    requires Clean(cards) && Clean(others) && Serialize(cards) == Serialize(others)
    ensures cards == others
  {
    RecoveredIffClean(cards);
    RecoveredIffClean(others);
  }

  /** With a nameless field, two different tables do share one, whatever else the strings are. */
  lemma NamelessFieldCollides(c: HelpCard, a: string, b: string, d: string, p: string, q: string, r: string, s: string)
    requires c.fields == []
    ensures var one := [c.(fields := [HelpField("", a, b, d)]), HelpCard(p, q, r, s, [])];
      var two := [c, HelpCard(a, b, d, "", [HelpField(p, q, r, s)])];
      one != two && Serialize(one) == Serialize(two)
  {
    var nameless, named := HelpField("", a, b, d), HelpField(p, q, r, s);
    var one := [c.(fields := [nameless]), HelpCard(p, q, r, s, [])];
    var two := [c, HelpCard(a, b, d, "", [named])];
    assert FieldsParts([nameless]) == FieldParts(nameless) && FieldsParts([named]) == FieldParts(named) by {
      assert [nameless][1..] == [] && [named][1..] == [];
    }
    assert one[1..] == [HelpCard(p, q, r, s, [])] && one[1..][1..] == [];
    assert two[1..] == [HelpCard(a, b, d, "", [named])] && two[1..][1..] == [];
    assert Parts(one[1..]) == [p, q, r, s, ""] && Parts(two[1..]) == [a, b, d, "", p, q, r, s, ""];
    assert Parts(one) == Head(c) + ["", a, b, d, ""] + [p, q, r, s, ""];
    assert Parts(two) == Head(c) + [""] + [a, b, d, "", p, q, r, s, ""];
    assert Parts(one) == Parts(two);
    assert one[0].fields != two[0].fields;
  }

  // ----- which tables share their text with another

  /** No string of the table holds the separator. */
  predicate SeparatorFree(cards: seq<HelpCard>) {
    Separated(Parts(cards))
  }

  /** The parts can be read as whole cards. */
  predicate IsTable(parts: seq<string>)
    decreases |parts|
  {
    parts == [] || (|parts| >= 4 && IsTail(parts[4..]))
  }

  /** The parts can be read as the rest of a card, from a field on, and whole cards after it. */
  predicate IsTail(parts: seq<string>)
    decreases |parts|
  {
    || (parts != [] && parts[0] == "" && IsTable(parts[1..]))
    || (|parts| >= 4 && IsTail(parts[4..]))
  }

  /** The parts of an unfinished card's remaining fields, its terminator, and the cards after it. */
  function TailParts(fields: seq<HelpField>, rest: seq<HelpCard>): seq<string> {
    FieldsParts(fields) + [""] + Parts(rest)
  }

  lemma {:induction false} PartsAreTable(cards: seq<HelpCard>)
    ensures IsTable(Parts(cards))
    decreases |cards|, 1, 0
  {
    if cards != [] {
      TailPartsAreTail(cards[0].fields, cards[1..]);
      Block(Head(cards[0]), FieldsParts(cards[0].fields), Parts(cards[1..]));
    }
  }

  lemma {:induction false} TailPartsAreTail(fields: seq<HelpField>, rest: seq<HelpCard>)
    ensures IsTail(TailParts(fields, rest))
    decreases |rest| + 1, 0, |fields|
  {
    if fields == [] {
      PartsAreTable(rest);
      assert TailParts(fields, rest)[1..] == Parts(rest);
    } else {
      TailPartsAreTail(fields[1..], rest);
      TailPartsStep(fields, rest);
    }
  }

  lemma TailPartsStep(fields: seq<HelpField>, rest: seq<HelpCard>)
    requires fields != []
    ensures TailParts(fields, rest) == FieldParts(fields[0]) + TailParts(fields[1..], rest)
    ensures TailParts(fields, rest)[4..] == TailParts(fields[1..], rest)
  {
  }

  /** Readable parts are the parts of some table. */
  lemma {:induction false} TableOf(parts: seq<string>) returns (cards: seq<HelpCard>)
    requires IsTable(parts)
    ensures Parts(cards) == parts
    decreases |parts|
  {
    if parts == [] {
      cards := [];
    } else {
      var fields, rest := TailOf(parts[4..]);
      var c := HelpCard(parts[0], parts[1], parts[2], parts[3], fields);
      cards := [c] + rest;
      assert cards[1..] == rest;
      assert parts == Head(c) + parts[4..];
      assert Head(c) + (FieldsParts(fields) + [""] + Parts(rest)) == Head(c) + FieldsParts(fields) + [""] + Parts(rest);
    }
  }

  lemma {:induction false} TailOf(parts: seq<string>) returns (fields: seq<HelpField>, rest: seq<HelpCard>)
    requires IsTail(parts)
    ensures TailParts(fields, rest) == parts
    decreases |parts|
  {
    if parts != [] && parts[0] == "" && IsTable(parts[1..]) {
      rest := TableOf(parts[1..]);
      fields := [];
      assert parts == [""] + parts[1..];
    } else {
      var more;
      more, rest := TailOf(parts[4..]);
      var f := HelpField(parts[0], parts[1], parts[2], parts[3]);
      fields := [f] + more;
      assert fields[1..] == more;
      TailPartsStep(fields, rest);
      assert parts == FieldParts(f) + parts[4..];
    }
  }

  /**
   Somewhere in the table an empty part can be taken both ways: a terminator that could open
   a nameless field, or a nameless field whose name could have ended its card.
   */
  predicate Forked(cards: seq<HelpCard>)
    decreases |cards|
  {
    cards != [] && (ForkedTail(cards[0].fields, cards[1..]) || Forked(cards[1..]))
  }

  predicate ForkedTail(fields: seq<HelpField>, rest: seq<HelpCard>)
    decreases |fields|
  {
    if fields == [] then |Parts(rest)| >= 3 && IsTail(Parts(rest)[3..])
    else
      || (fields[0].name == "" && IsTable(TailParts(fields, rest)[1..]))
      || ForkedTail(fields[1..], rest)
  }

  /** Two readings of one text part at a fork. */
  lemma {:induction false} TwoTailsFork(fields: seq<HelpField>, rest: seq<HelpCard>, others: seq<HelpField>,
                                        after: seq<HelpCard>)
    requires TailParts(fields, rest) == TailParts(others, after) && (fields, rest) != (others, after)
    ensures ForkedTail(fields, rest) || (rest != after && Parts(rest) == Parts(after))
    decreases |fields|
  {
    if fields == [] && others == [] {
      assert TailParts(fields, rest)[1..] == Parts(rest) && TailParts(others, after)[1..] == Parts(after);
    } else if fields == [] {
      EndOrField(rest, others, after);
    } else if others == [] {
      FieldOrEnd(fields, rest, after);
    } else {
      TailPartsStep(fields, rest);
      TailPartsStep(others, after);
      SameField(fields, rest, others, after);
      assert fields == [fields[0]] + fields[1..] && others == [others[0]] + others[1..];
      TwoTailsFork(fields[1..], rest, others[1..], after);
    }
  }

  lemma EndOrField(rest: seq<HelpCard>, others: seq<HelpField>, after: seq<HelpCard>)
    requires others != [] && TailParts([], rest) == TailParts(others, after)
    ensures ForkedTail([], rest)
  {
    TailPartsStep(others, after);
    TailPartsAreTail(others[1..], after);
    assert TailParts([], rest) == [""] + Parts(rest);
    assert Parts(rest)[3..] == TailParts(others, after)[4..];
  }

  lemma FieldOrEnd(fields: seq<HelpField>, rest: seq<HelpCard>, after: seq<HelpCard>)
    requires fields != [] && TailParts(fields, rest) == TailParts([], after)
    ensures ForkedTail(fields, rest)
  {
    TailPartsStep(fields, rest);
    PartsAreTable(after);
    assert TailParts([], after) == [""] + Parts(after);
    assert fields[0].name == TailParts(fields, rest)[0] == "";
    assert TailParts(fields, rest)[1..] == Parts(after);
  }

  lemma SameField(fields: seq<HelpField>, rest: seq<HelpCard>, others: seq<HelpField>, after: seq<HelpCard>)
    requires fields != [] && others != [] && TailParts(fields, rest) == TailParts(others, after)
    ensures fields[0] == others[0]
  {
    var p, q := TailParts(fields, rest), TailParts(others, after);
    assert p[0] == q[0] && p[1] == q[1] && p[2] == q[2] && p[3] == q[3];
    TailPartsStep(fields, rest);
    TailPartsStep(others, after);
  }

  lemma CardParts(cards: seq<HelpCard>)
    requires cards != []
    ensures Parts(cards) == Head(cards[0]) + TailParts(cards[0].fields, cards[1..])
    ensures Parts(cards)[4..] == TailParts(cards[0].fields, cards[1..])
  {
    assert Head(cards[0]) + FieldsParts(cards[0].fields) + [""] + Parts(cards[1..])
        == Head(cards[0]) + (FieldsParts(cards[0].fields) + [""] + Parts(cards[1..]));
  }

  lemma {:induction false} TwoTablesFork(cards: seq<HelpCard>, others: seq<HelpCard>)
    requires Parts(cards) == Parts(others) && cards != others
    ensures Forked(cards)
    decreases |cards|
  {
    if cards == [] {
      CardParts(others);
    } else {
      CardParts(cards);
      assert others != [];
      CardParts(others);
      SameHead(cards, others);
      assert cards == [cards[0]] + cards[1..] && others == [others[0]] + others[1..];
      TwoTailsFork(cards[0].fields, cards[1..], others[0].fields, others[1..]);
      if !ForkedTail(cards[0].fields, cards[1..]) {
        TwoTablesFork(cards[1..], others[1..]);
      }
    }
  }

  lemma SameHead(cards: seq<HelpCard>, others: seq<HelpCard>)
    requires cards != [] && others != [] && Parts(cards) == Parts(others)
    ensures Head(cards[0]) == Head(others[0])
    ensures cards[0].fields == others[0].fields ==> cards[0] == others[0]
  {
    CardParts(cards);
    CardParts(others);
    assert Parts(cards)[..4] == Head(cards[0]) && Parts(others)[..4] == Head(others[0]);
    var p, q := Head(cards[0]), Head(others[0]);
    assert p[0] == q[0] && p[1] == q[1] && p[2] == q[2] && p[3] == q[3];
  }

  /** At a fork of a card's tail the other reading can be taken. */
  lemma {:induction false} ForkedTailTurns(fields: seq<HelpField>, rest: seq<HelpCard>)
    returns (others: seq<HelpField>, after: seq<HelpCard>)
    requires ForkedTail(fields, rest)
    ensures TailParts(others, after) == TailParts(fields, rest) && |others| != |fields|
    decreases |fields|
  {
    if fields == [] {
      var more;
      more, after := TailOf(Parts(rest)[3..]);
      var f := HelpField("", Parts(rest)[0], Parts(rest)[1], Parts(rest)[2]);
      others := [f] + more;
      assert others[1..] == more;
      TailPartsStep(others, after);
      assert Parts(rest) == [f.anchor, f.meaning, f.effects] + Parts(rest)[3..];
    } else if fields[0].name == "" && IsTable(TailParts(fields, rest)[1..]) {
      after := TableOf(TailParts(fields, rest)[1..]);
      others := [];
      TailPartsStep(fields, rest);
      assert TailParts(fields, rest)[0] == "";
      assert TailParts(fields, rest) == [""] + TailParts(fields, rest)[1..];
    } else {
      var more;
      more, after := ForkedTailTurns(fields[1..], rest);
      others := [fields[0]] + more;
      assert others[1..] == more;
      TailPartsStep(fields, rest);
      TailPartsStep(others, after);
    }
  }

  lemma {:induction false} ForkedTurns(cards: seq<HelpCard>) returns (others: seq<HelpCard>)
    requires Forked(cards)
    ensures Parts(others) == Parts(cards) && others != cards
    decreases |cards|
  {
    var c := cards[0];
    CardParts(cards);
    if ForkedTail(c.fields, cards[1..]) {
      var fields, after := ForkedTailTurns(c.fields, cards[1..]);
      others := [c.(fields := fields)] + after;
      assert others[1..] == after;
      assert others[0].fields != c.fields;
    } else {
      var more := ForkedTurns(cards[1..]);
      others := [c] + more;
      assert others[1..] == more;
      assert cards == [c] + cards[1..];
    }
    CardParts(others);
  }

  lemma SameText(cards: seq<HelpCard>, others: seq<HelpCard>)
    requires SeparatorFree(cards) && SeparatorFree(others)
    ensures Serialize(cards) == Serialize(others) <==> Parts(cards) == Parts(others)
  {
    if cards != [] {
      JoinNotEmpty(Parts(cards));
      SplitJoin(SEP, Parts(cards));
    }
    if others != [] {
      JoinNotEmpty(Parts(others));
      SplitJoin(SEP, Parts(others));
    }
  }

  /** Having a nameless field is not enough: alone in its card and table it can be read one way only. */
  lemma LoneFieldIsNoFork(c: HelpCard, f: HelpField)
    requires c.fields == [f]
    ensures !Forked([c])
  {
    assert [c][1..] == [] && [f][1..] == [];
    assert Parts([]) == [] && FieldsParts([]) == [];
    TailPartsStep([f], []);
    assert TailParts([], []) == [""];
    assert TailParts([f], [])[1..] == [f.anchor, f.meaning, f.effects, ""];
    assert TailParts([f], [])[1..][4..] == [];
    assert !IsTail([]);
    assert !IsTable(TailParts([f], [])[1..]);
    assert !ForkedTail([], []) && !ForkedTail([f], []);
    assert !Forked([]);
  }

  /** A separator-free table shares its text with another one exactly when it has a fork. */
  lemma CollidesIffForked(cards: seq<HelpCard>)
    requires SeparatorFree(cards)
    ensures (exists others :: SeparatorFree(others) && others != cards && Serialize(others) == Serialize(cards)) <==>
      Forked(cards)
  {
    if others :| SeparatorFree(others) && others != cards && Serialize(others) == Serialize(cards) {
      SameText(cards, others);
      TwoTablesFork(cards, others);
    }
    if Forked(cards) {
      var others := ForkedTurns(cards);
      SameText(cards, others);
    }
  }
}

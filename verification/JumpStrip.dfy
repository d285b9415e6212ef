/**
 The settings panel's two readers of tool turns: the routes an answer's own exchange
 fetched, and the "Jump to" strip under the transcript.
 */
module JumpStrip {
  import opened Common
  import opened Linkifier

  datatype Role = User | Assistant | Tool | System

  /** A JSON member: a string, or anything else. */
  datatype Value = Str(s: string) | NotAString

  datatype Entry = Entry(route: Value, anchor: Value) | NotAnObject

  datatype Data = Fetched(links: seq<Entry>) | NotADict

  datatype Turn = Turn(role: Role, text: string, data: Data)

  datatype HelpField = HelpField(name: string, anchor: string)

  datatype HelpCard = HelpCard(page: Card, fields: seq<HelpField>)

  datatype Link = Link(url: string, caption: string)

  const MAX_JUMP_LINKS := 6

  function Routes(cards: seq<HelpCard>): set<string> {
    set k | 0 <= k < |cards| :: cards[k].page.route
  }

  // ----- the routes an exchange fetched

  ghost predicate Fetches(cards: seq<HelpCard>, turn: Turn, route: string) {
    && route in Routes(cards) && turn.data.Fetched?
    && exists e :: e in turn.data.links && e.Entry? && e.route == Str(route)
  }

  /** Turn j belongs to the run of tool turns that ends right before the position. */
  ghost predicate InRun(turns: seq<Turn>, j: int, position: nat)
    requires position <= |turns|
  {
    0 <= j < position && forall k | j <= k < position :: turns[k].role == Tool
  }

  /** The run of tool turns before the position fetched this route. */
  ghost predicate FetchedBefore(cards: seq<HelpCard>, turns: seq<Turn>, position: nat, route: string)
    requires position <= |turns|
  {
    exists j :: InRun(turns, j, position) && Fetches(cards, turns[j], route)
  }

  method RoutesOf(cards: seq<HelpCard>, turn: Turn, before: set<string>) returns (routes: set<string>)
    ensures forall r :: r in routes <==> r in before || Fetches(cards, turn, r)
  {
    routes := before;
    if turn.data.Fetched? {
      for n := 0 to |turn.data.links|
        invariant forall r :: r in routes <==>
          r in before || (r in Routes(cards) && exists e :: e in turn.data.links[..n] && e.Entry? && e.route == Str(r))
      {
        var e := turn.data.links[n];
        assert turn.data.links[..n + 1] == turn.data.links[..n] + [e];
        if e.Entry? && e.route.Str? && e.route.s in Routes(cards) {
          routes := routes + {e.route.s};
        }
      }
      assert turn.data.links[..|turn.data.links|] == turn.data.links;
    }
  }

  /** Exactly what the unbroken run of tool turns before the position fetched, and nothing older. */
  method FetchedRoutesBefore(cards: seq<HelpCard>, turns: seq<Turn>, position: nat) returns (routes: set<string>)
    requires position <= |turns|
    ensures forall r :: r in routes <==> FetchedBefore(cards, turns, position, r)
  {
    routes := {};
    var i := position - 1;
    while i >= 0 && turns[i].role == Tool
      invariant -1 <= i < position
      invariant forall k | i < k < position :: turns[k].role == Tool
      invariant forall r :: r in routes <==> exists j :: i < j < position && Fetches(cards, turns[j], r)
    {
      routes := RoutesOf(cards, turns[i], routes);
      i := i - 1;
    }
    forall j ensures InRun(turns, j, position) <==> i < j < position {
      if 0 <= j <= i {
        assert turns[i].role != Tool;
      }
    }
  }

  // ----- the strip

  function CardFor(cards: seq<HelpCard>, route: string): Option<HelpCard> {
    if cards == [] then None
    else if cards[0].page.route == route then Some(cards[0])
    else CardFor(cards[1..], route)
  }

  function FieldAt(fields: seq<HelpField>, anchor: string): Option<HelpField> {
    if fields == [] then None
    else if fields[0].anchor == anchor then Some(fields[0])
    else FieldAt(fields[1..], anchor)
  }

  /** The route and link of one stored entry, if the registry and this box know both. */
  function AnchorLink(cards: seq<HelpCard>, urls: map<string, string>, e: Entry): Option<(string, Link)> {
    if !e.Entry? || !e.route.Str? || !e.anchor.Str? || e.route.s !in urls then None
    else match CardFor(cards, e.route.s)
      case None => None
      case Some(card) =>
        match FieldAt(card.fields, e.anchor.s)
        case None => None
        case Some(f) =>
          Some((e.route.s, Link(urls[e.route.s] + "?" + OPEN_PARAM + "=1#" + e.anchor.s, f.name)))
  }

  function AnchorLinks(cards: seq<HelpCard>, urls: map<string, string>, entries: seq<Entry>): seq<(string, Link)> {
    if entries == [] then []
    else
      var last := AnchorLink(cards, urls, entries[|entries| - 1]);
      AnchorLinks(cards, urls, entries[..|entries| - 1]) + if last.Some? then [last.value] else []
  }

  /** The entries of the last tool turn that carries a dict; older ones are never consulted. */
  function LatestFetch(turns: seq<Turn>): seq<Entry> {
    if turns == [] then []
    else
      var last := turns[|turns| - 1];
      if last.role == Tool && last.data.Fetched? then last.data.links else LatestFetch(turns[..|turns| - 1])
  }

  function FinalAnswer(turns: seq<Turn>): string {
    if turns == [] then ""
    else if turns[|turns| - 1].role == Assistant then turns[|turns| - 1].text
    else FinalAnswer(turns[..|turns| - 1])
  }

  /** Without an answer there is no text to name a page; with one, it is the last answer's. */
  lemma {:induction false} FinalAnswerIs(turns: seq<Turn>, k: nat)
    requires forall i | k < i < |turns| :: turns[i].role != Assistant
    ensures (forall t | t in turns :: t.role != Assistant) ==> FinalAnswer(turns) == ""
    ensures k < |turns| && turns[k].role == Assistant ==> FinalAnswer(turns) == turns[k].text
  {
    if turns != [] && turns[|turns| - 1].role != Assistant {
      FinalAnswerIs(turns[..|turns| - 1], k);
    }
  }

  predicate NamesPage(a: Alphabet, text: string, alias: string, exact: bool) {
    FirstFrom(a, text, alias, exact, 0).Some?
  }

  predicate Names(a: Alphabet, text: string, card: Card) {
    || NamesPage(a, text, card.title, RequiresExactCase(a, card, card.title, {}))
    || NamesPage(a, text, card.route, false)
  }

  /** The strip's own test of a mention: the route in any case, or the title in the case it needs. */
  lemma NamesIff(a: Alphabet, text: string, card: Card)
    ensures Names(a, text, card) <==>
      exists i: nat :: Matches(a, text, card.route, false, i)
                       || Matches(a, text, card.title, WordCount(a, card.title) == 1, i)
  {
    if Names(a, text, card) {
      var title := WordCount(a, card.title) == 1;
      assert RequiresExactCase(a, card, card.title, {}) == title;
      var i := if NamesPage(a, text, card.route, false) then FirstFrom(a, text, card.route, false, 0).value
               else FirstFrom(a, text, card.title, title, 0).value;
      assert Matches(a, text, card.route, false, i) || Matches(a, text, card.title, title, i);
    }
  }

  function PageLink(card: Card, urls: map<string, string>): Link
    requires card.route in urls
  {
    Link(urls[card.route] + "?" + OPEN_PARAM + "=1", card.title)
  }

  lemma PageAddress(urls: map<string, string>)
    ensures forall card: Card | card.route in urls ::
      PageLink(card, urls) == Link(urls[card.route] + "?assistant=1", card.title)
  {
    forall card: Card | card.route in urls
      ensures PageLink(card, urls) == Link(urls[card.route] + "?assistant=1", card.title)
    {
      assert urls[card.route] + "?" + "assistant" + "=1" == urls[card.route] + "?assistant=1";
    }
  }

  function NamedLinks(a: Alphabet, cards: seq<HelpCard>, urls: map<string, string>, text: string,
                      exclude: set<string>): seq<Link> {
    if cards == [] then []
    else
      var last := cards[|cards| - 1].page;
      NamedLinks(a, cards[..|cards| - 1], urls, text, exclude)
      + if last.route !in exclude && Names(a, text, last) && last.route in urls then [PageLink(last, urls)] else []
  }

  function LinkRoutes(links: seq<(string, Link)>): set<string> {
    set k | 0 <= k < |links| :: links[k].0
  }

  function LinksOnly(links: seq<(string, Link)>): seq<Link> {
    seq(|links|, k requires 0 <= k < |links| => links[k].1)
  }

  /** Both legs, before the cap. */
  function AllLinks(a: Alphabet, cards: seq<HelpCard>, urls: map<string, string>, turns: seq<Turn>): seq<Link> {
    var fetched := AnchorLinks(cards, urls, LatestFetch(turns));
    LinksOnly(fetched) + NamedLinks(a, cards, urls, FinalAnswer(turns), LinkRoutes(fetched))
  }

  function Strip(a: Alphabet, cards: seq<HelpCard>, urls: map<string, string>, turns: seq<Turn>): seq<Link> {
    var all := AllLinks(a, cards, urls, turns);
    if |all| <= MAX_JUMP_LINKS then all else all[..MAX_JUMP_LINKS]
  }

  /** The strip is the front of all the links there are, fetched fields before named pages, six at most. */
  lemma StripIsFront(a: Alphabet, cards: seq<HelpCard>, urls: map<string, string>, turns: seq<Turn>)
    ensures var all := LinksOnly(AnchorLinks(cards, urls, LatestFetch(turns)))
                       + NamedLinks(a, cards, urls, FinalAnswer(turns), Excluded(cards, urls, turns));
      Strip(a, cards, urls, turns) <= all && |Strip(a, cards, urls, turns)| == if |all| < 6 then |all| else 6
  {
  }

  /** Named pages come in the order of the registry, each by itself. */
  lemma {:induction false} NamedLinksInOrder(a: Alphabet, cards: seq<HelpCard>, more: seq<HelpCard>,
                                             urls: map<string, string>, text: string, exclude: set<string>)
    ensures NamedLinks(a, cards + more, urls, text, exclude)
         == NamedLinks(a, cards, urls, text, exclude) + NamedLinks(a, more, urls, text, exclude)
  {
    if more == [] {
      assert cards + more == cards;
    } else {
      var front := more[..|more| - 1];
      assert (cards + more)[..|cards + more| - 1] == cards + front;
      NamedLinksInOrder(a, cards, front, urls, text, exclude);
    }
  }

  /** Fetched fields come in the order they were fetched in, each by itself. */
  lemma {:induction false} AnchorLinksInOrder(cards: seq<HelpCard>, urls: map<string, string>, entries: seq<Entry>,
                                              more: seq<Entry>)
    ensures AnchorLinks(cards, urls, entries + more)
         == AnchorLinks(cards, urls, entries) + AnchorLinks(cards, urls, more)
  {
    if more == [] {
      assert entries + more == entries;
    } else {
      var front := more[..|more| - 1];
      assert (entries + more)[..|entries + more| - 1] == entries + front;
      AnchorLinksInOrder(cards, urls, entries, front);
    }
  }

  method AnchorLeg(cards: seq<HelpCard>, urls: map<string, string>, turns: seq<Turn>)
    returns (links: seq<Link>, routes: set<string>)
    ensures var fetched := AnchorLinks(cards, urls, LatestFetch(turns));
      links == LinksOnly(fetched) && routes == LinkRoutes(fetched)
  {
    links, routes := [], {};
    var i := |turns|;
    assert turns[..i] == turns;
    while i > 0
      invariant 0 <= i <= |turns| && links == [] && routes == {}
      invariant LatestFetch(turns) == LatestFetch(turns[..i])
    {
      i := i - 1;
      assert turns[..i + 1][..i] == turns[..i];
      if turns[i].role == Tool && turns[i].data.Fetched? {
        var raw := turns[i].data.links;
        for n := 0 to |raw|
          invariant links == LinksOnly(AnchorLinks(cards, urls, raw[..n]))
          invariant routes == LinkRoutes(AnchorLinks(cards, urls, raw[..n]))
        {
          assert raw[..n + 1][..n] == raw[..n];
          var found := AnchorLink(cards, urls, raw[n]);
          if found.Some? {
            links := links + [found.value.1];
            LinkRoutesAppend(AnchorLinks(cards, urls, raw[..n]), found.value);
            assert AnchorLinks(cards, urls, raw[..n + 1]) == AnchorLinks(cards, urls, raw[..n]) + [found.value];
            routes := routes + {found.value.0};
          } else {
            assert AnchorLinks(cards, urls, raw[..n + 1]) == AnchorLinks(cards, urls, raw[..n]);
          }
        }
        assert raw[..|raw|] == raw;
        return;
      }
    }
  }

  lemma LinkRoutesAppend(links: seq<(string, Link)>, l: (string, Link))
    ensures LinkRoutes(links + [l]) == LinkRoutes(links) + {l.0}
  {
    var more := links + [l];
    forall r ensures r in LinkRoutes(more) <==> r in LinkRoutes(links) || r == l.0 {
      if r in LinkRoutes(links) {
        var k :| 0 <= k < |links| && links[k].0 == r;
        assert more[k].0 == r;
      }
      assert more[|links|].0 == l.0;
    }
  }

  method JumpLinks(a: Alphabet, cards: seq<HelpCard>, urls: map<string, string>, turns: seq<Turn>)
    returns (links: seq<Link>)
    ensures links == Strip(a, cards, urls, turns)
  {
    var fetched, routes := AnchorLeg(cards, urls, turns);
    var text := FinalAnswer(turns);
    var named: seq<Link> := [];
    for n := 0 to |cards|
      invariant named == NamedLinks(a, cards[..n], urls, text, routes)
    {
      assert cards[..n + 1][..n] == cards[..n];
      var card := cards[n].page;
      if card.route !in routes && Names(a, text, card) && card.route in urls {
        named := named + [PageLink(card, urls)];
      }
    }
    assert cards[..|cards|] == cards;
    links := fetched + named;
    if |links| > MAX_JUMP_LINKS {
      links := links[..MAX_JUMP_LINKS];
    }
  }

  // ----- what the strip promises

  /** A link to a field of a registry page this box mounts, labelled as the registry labels it. */
  ghost predicate FromField(cards: seq<HelpCard>, urls: map<string, string>, route: string, l: Link) {
    exists card, f :: card in cards && card.page.route == route && route in urls && f in card.fields
      && l == Link(urls[route] + "?" + OPEN_PARAM + "=1#" + f.anchor, f.name)
  }

  lemma {:induction false} CardForFinds(cards: seq<HelpCard>, route: string)
    ensures CardFor(cards, route).Some? ==>
      CardFor(cards, route).value in cards && CardFor(cards, route).value.page.route == route
  {
    if cards != [] && cards[0].page.route != route {
      CardForFinds(cards[1..], route);
    }
  }

  lemma {:induction false} FieldAtFinds(fields: seq<HelpField>, anchor: string)
    ensures FieldAt(fields, anchor).Some? ==>
      FieldAt(fields, anchor).value in fields && FieldAt(fields, anchor).value.anchor == anchor
  {
    if fields != [] && fields[0].anchor != anchor {
      FieldAtFinds(fields[1..], anchor);
    }
  }

  lemma {:induction false} AnchorLinksWhitelisted(cards: seq<HelpCard>, urls: map<string, string>, entries: seq<Entry>)
    ensures forall l :: l in AnchorLinks(cards, urls, entries) ==> FromField(cards, urls, l.0, l.1)
  {
    if entries != [] {
      var e := entries[|entries| - 1];
      AnchorLinksWhitelisted(cards, urls, entries[..|entries| - 1]);
      if AnchorLink(cards, urls, e).Some? {
        CardForFinds(cards, e.route.s);
        FieldAtFinds(CardFor(cards, e.route.s).value.fields, e.anchor.s);
      }
    }
  }

  lemma {:induction false} NamedLinksWhitelisted(
    a: Alphabet, cards: seq<HelpCard>, urls: map<string, string>, text: string, exclude: set<string>)
    ensures forall l :: l in NamedLinks(a, cards, urls, text, exclude) <==>
      exists card :: card in cards && card.page.route in urls && card.page.route !in exclude
                     && Names(a, text, card.page) && l == PageLink(card.page, urls)
  {
    if cards != [] {
      var rest, last := cards[..|cards| - 1], cards[|cards| - 1];
      NamedLinksWhitelisted(a, rest, urls, text, exclude);
      assert cards == rest + [last];
      assert last in cards;
    }
  }

  /**
   Whatever the stored turns hold, at most six links, each to a mounted registry page: to a
   field the latest fetch asked for, or to a page the final answer names that has no field link.
   */
  lemma StripIsWhitelisted(a: Alphabet, cards: seq<HelpCard>, urls: map<string, string>, turns: seq<Turn>, l: Link)
    requires l in Strip(a, cards, urls, turns)
    ensures |Strip(a, cards, urls, turns)| <= 6
    ensures var fetched := LinkRoutes(AnchorLinks(cards, urls, LatestFetch(turns)));
      || (exists route :: route in fetched && FromField(cards, urls, route, l))
      || (exists card :: card in cards && card.page.route in urls && card.page.route !in fetched
                         && Names(a, FinalAnswer(turns), card.page)
                         && l == Link(urls[card.page.route] + "?assistant=1", card.page.title))
  {
    PageAddress(urls);
    var fetched := AnchorLinks(cards, urls, LatestFetch(turns));
    AnchorLinksWhitelisted(cards, urls, LatestFetch(turns));
    NamedLinksWhitelisted(a, cards, urls, FinalAnswer(turns), LinkRoutes(fetched));
    if l !in NamedLinks(a, cards, urls, FinalAnswer(turns), LinkRoutes(fetched)) {
      var k :| 0 <= k < |fetched| && LinksOnly(fetched)[k] == l;
      assert fetched[k] in fetched && fetched[k].0 in LinkRoutes(fetched);
    }
  }

  /** The strip of an exchange does not depend on what came before it in the window. */
  lemma {:induction false} OlderTurnsDoNotShow(
    a: Alphabet, cards: seq<HelpCard>, urls: map<string, string>, older: seq<Turn>, turns: seq<Turn>)
    requires exists t :: t in turns && t.role == Tool && t.data.Fetched?
    requires exists t :: t in turns && t.role == Assistant
    ensures Strip(a, cards, urls, older + turns) == Strip(a, cards, urls, turns)
  {
    LatestFetchIsLocal(older, turns);
    FinalAnswerIsLocal(older, turns);
  }

  lemma {:induction false} LatestFetchIsLocal(older: seq<Turn>, turns: seq<Turn>)
    requires exists t :: t in turns && t.role == Tool && t.data.Fetched?
    ensures LatestFetch(older + turns) == LatestFetch(turns)
  {
    var front, last := turns[..|turns| - 1], turns[|turns| - 1];
    assert (older + turns)[..|older + turns| - 1] == older + front;
    if !(last.role == Tool && last.data.Fetched?) {
      var t :| t in turns && t.role == Tool && t.data.Fetched?;
      assert turns == front + [last];
      assert t in front;
      LatestFetchIsLocal(older, front);
    }
  }

  lemma {:induction false} FinalAnswerIsLocal(older: seq<Turn>, turns: seq<Turn>)
    requires exists t :: t in turns && t.role == Assistant
    ensures FinalAnswer(older + turns) == FinalAnswer(turns)
  {
    var front, last := turns[..|turns| - 1], turns[|turns| - 1];
    assert (older + turns)[..|older + turns| - 1] == older + front;
    if last.role != Assistant {
      var t :| t in turns && t.role == Assistant;
      assert turns == front + [last];
      assert t in front;
      FinalAnswerIsLocal(older, front);
    }
  }

  // ----- the two readers compared

  /** An entry asks for this route's page, at an anchor its own card has. */
  ghost predicate Covers(cards: seq<HelpCard>, e: Entry, route: string) {
    && e.Entry? && e.route == Str(route) && e.anchor.Str?
    && CardFor(cards, route).Some? && FieldAt(CardFor(cards, route).value.fields, e.anchor.s).Some?
  }

  lemma {:induction false} AnchorRoutesIff(cards: seq<HelpCard>, urls: map<string, string>, entries: seq<Entry>,
                                           route: string)
    ensures route in LinkRoutes(AnchorLinks(cards, urls, entries))
      <==> route in urls && exists e :: e in entries && Covers(cards, e, route)
  {
    if entries != [] {
      var init, last := entries[..|entries| - 1], entries[|entries| - 1];
      AnchorRoutesIff(cards, urls, init, route);
      assert entries == init + [last];
      var found := AnchorLink(cards, urls, last);
      assert found.Some? && found.value.0 == route <==> route in urls && Covers(cards, last, route);
      if found.Some? {
        LinkRoutesAppend(AnchorLinks(cards, urls, init), found.value);
        assert AnchorLinks(cards, urls, entries) == AnchorLinks(cards, urls, init) + [found.value];
      } else {
        assert AnchorLinks(cards, urls, entries) == AnchorLinks(cards, urls, init);
      }
    }
  }

  /** The routes the named-page leg skips: those the anchor leg linked. */
  function Excluded(cards: seq<HelpCard>, urls: map<string, string>, turns: seq<Turn>): set<string> {
    LinkRoutes(AnchorLinks(cards, urls, LatestFetch(turns)))
  }

  /**
   "Any route fetched this turn is already excluded": what is excluded, of any route, is
   exactly a mounted page that the latest tool turn with a dict asked for at an anchor of the
   page's own card. Having been fetched by an earlier tool turn of the same run does not
   count, nor does an anchor the card lacks.
   */
  lemma FetchedExcludedIff(cards: seq<HelpCard>, urls: map<string, string>, turns: seq<Turn>, route: string)
    ensures route in Excluded(cards, urls, turns) <==>
      route in urls && exists e :: e in LatestFetch(turns) && Covers(cards, e, route)
  {
    AnchorRoutesIff(cards, urls, LatestFetch(turns), route);
  }

  /** The inline pass finds the page somewhere in the rendered answer. */
  predicate InlineNames(a: Alphabet, html: string, card: Card, fetched: set<string>) {
    BestMatch(a, html, card, fetched).Some?
  }

  /** The strip has a field link for the page, or names it. */
  predicate StripNames(a: Alphabet, cards: seq<HelpCard>, urls: map<string, string>, turns: seq<Turn>, card: Card) {
    card.route in Excluded(cards, urls, turns) || Names(a, FinalAnswer(turns), card)
  }

  /** Rendering an answer adds and loses no mention of the page, in either case rule. */
  ghost predicate KeepsMentions(a: Alphabet, text: string, html: string, card: Card) {
    forall alias, exact | alias in {card.title, card.route} ::
      NamesPage(a, html, Escape(alias), exact) == NamesPage(a, text, alias, exact)
  }

  /** The text names the page by its one-word title, in another case, and in no other way. */
  predicate InPassing(a: Alphabet, text: string, card: Card) {
    && WordCount(a, card.title) == 1
    && NamesPage(a, text, card.title, false) && !NamesPage(a, text, card.title, true)
    && !NamesPage(a, text, card.route, false)
  }

  lemma {:induction false} ExactIsLooser(a: Alphabet, text: string, alias: string)
    ensures NamesPage(a, text, alias, true) ==> NamesPage(a, text, alias, false)
  {
    if NamesPage(a, text, alias, true) {
      var i := FirstFrom(a, text, alias, true, 0).value;
      assert Matches(a, text, alias, false, i);
    }
  }

  lemma InlineNamesIff(a: Alphabet, html: string, card: Card, fetched: set<string>)
    ensures InlineNames(a, html, card, fetched) <==>
      || NamesPage(a, html, Escape(card.title), RequiresExactCase(a, card, card.title, fetched))
      || NamesPage(a, html, Escape(card.route), RequiresExactCase(a, card, card.route, fetched))
  {
  }

  /**
   A mounted page the inline pass links is in the strip as well -- for every window, answer
   and page -- unless the answer names it only in passing, its exchange fetched it, and the
   latest tool turn with a dict did not ask for a field of its card.
   */
  lemma InlineInStripIff(
    a: Alphabet, cards: seq<HelpCard>, urls: map<string, string>, turns: seq<Turn>, position: nat,
    fetched: set<string>, card: Card, html: string)
    requires position <= |turns| && card.route in urls
    requires card.route in fetched <==> FetchedBefore(cards, turns, position, card.route)
    requires KeepsMentions(a, FinalAnswer(turns), html, card)
    ensures (InlineNames(a, html, card, fetched) ==> StripNames(a, cards, urls, turns, card)) <==>
      || !InPassing(a, FinalAnswer(turns), card)
      || !FetchedBefore(cards, turns, position, card.route)
      || exists e :: e in LatestFetch(turns) && Covers(cards, e, card.route)
  {
    var text := FinalAnswer(turns);
    AnchorRoutesIff(cards, urls, LatestFetch(turns), card.route);
    InlineNamesIff(a, html, card, fetched);
    ExactIsLooser(a, text, card.title);
    ExactIsLooser(a, text, card.route);
    assert forall x :: NamesPage(a, html, Escape(card.title), x) == NamesPage(a, text, card.title, x);
    assert forall x :: NamesPage(a, html, Escape(card.route), x) == NamesPage(a, text, card.route, x);
  }

  ghost predicate LeadsTo(cards: seq<HelpCard>, urls: map<string, string>, card: Card, l: Link)
    requires card.route in urls
  {
    FromField(cards, urls, card.route, l) || l == PageLink(card, urls)
  }

  /** What a page's strip presence means: one of the links before the cap is its own. */
  lemma StripNamesLinks(a: Alphabet, cards: seq<HelpCard>, urls: map<string, string>, turns: seq<Turn>, card: HelpCard)
    requires card in cards && card.page.route in urls && StripNames(a, cards, urls, turns, card.page)
    ensures exists l :: l in AllLinks(a, cards, urls, turns) && LeadsTo(cards, urls, card.page, l)
  {
    var fetched := AnchorLinks(cards, urls, LatestFetch(turns));
    var named := NamedLinks(a, cards, urls, FinalAnswer(turns), LinkRoutes(fetched));
    AnchorLinksWhitelisted(cards, urls, LatestFetch(turns));
    NamedLinksWhitelisted(a, cards, urls, FinalAnswer(turns), LinkRoutes(fetched));
    if card.page.route in LinkRoutes(fetched) {
      var k :| 0 <= k < |fetched| && fetched[k].0 == card.page.route;
      assert fetched[k] in fetched;
      assert (LinksOnly(fetched) + named)[k] == fetched[k].1;
      assert LeadsTo(cards, urls, card.page, fetched[k].1);
    } else {
      assert PageLink(card.page, urls) in named;
      assert LeadsTo(cards, urls, card.page, PageLink(card.page, urls));
    }
  }

  /** One exchange that fetched a field of the first card, then one of the second, and answered. */
  function TwoFetches(first: HelpCard, x: string, second: HelpCard, y: string, answer: string): seq<Turn> {
    [Turn(Tool, "", Fetched([Entry(Str(first.page.route), Str(x))])),
     Turn(Tool, "", Fetched([Entry(Str(second.page.route), Str(y))])),
     Turn(Assistant, answer, NotADict)]
  }

  /**
   The failing exchange: two fetches, both of mounted pages and known fields. An answer that
   names the first page in passing has it linked inline, and the strip holds the second
   page's field alone.
   */
  lemma FetchedYetNotExcluded(
    a: Alphabet, urls: map<string, string>, first: HelpCard, x: string, second: HelpCard, y: string, answer: string,
      html: string)
    requires first.page.route in urls && second.page.route in urls && first.page.route != second.page.route
    requires FieldAt(first.fields, x).Some? && FieldAt(second.fields, y).Some?
    requires InPassing(a, answer, first.page) && !Names(a, answer, second.page)
    requires KeepsMentions(a, answer, html, first.page)
    ensures var cards, turns := [first, second], TwoFetches(first, x, second, y, answer);
      && FetchedBefore(cards, turns, 2, first.page.route)
      && InlineNames(a, html, first.page, {first.page.route, second.page.route})
      && first.page.route !in Excluded(cards, urls, turns)
      && Strip(a, cards, urls, turns)
         == [Link(urls[second.page.route] + "?" + OPEN_PARAM + "=1#" + y, FieldAt(second.fields, y).value.name)]
  {
    var cards, turns := [first, second], TwoFetches(first, x, second, y, answer);
    var e := Entry(Str(second.page.route), Str(y));
    TwoFetchesRun(first, x, second, y, answer);
    InlineNamesIff(a, html, first.page, {first.page.route, second.page.route});
    assert NamesPage(a, html, Escape(first.page.title), false) == NamesPage(a, answer, first.page.title, false);
    TwoFetchesLatest(first, x, second, y, answer);
    SecondFieldOnly(cards, urls, first, second, y);
    NothingNamed(a, urls, first, second, answer);
  }

  lemma TwoFetchesRun(first: HelpCard, x: string, second: HelpCard, y: string, answer: string)
    ensures FetchedBefore([first, second], TwoFetches(first, x, second, y, answer), 2, first.page.route)
  {
    var cards, turns := [first, second], TwoFetches(first, x, second, y, answer);
    assert cards[0].page.route in Routes(cards);
    assert turns[0].data.links[0] in turns[0].data.links;
    assert InRun(turns, 0, 2) && Fetches(cards, turns[0], first.page.route);
  }

  lemma TwoFetchesLatest(first: HelpCard, x: string, second: HelpCard, y: string, answer: string)
    ensures var turns := TwoFetches(first, x, second, y, answer);
      LatestFetch(turns) == [Entry(Str(second.page.route), Str(y))] && FinalAnswer(turns) == answer
  {
    var turns := TwoFetches(first, x, second, y, answer);
    assert turns[..2][1] == turns[1];
    assert LatestFetch(turns) == LatestFetch(turns[..2]);
  }

  lemma SecondFieldOnly(cards: seq<HelpCard>, urls: map<string, string>, first: HelpCard, second: HelpCard, y: string)
    requires cards == [first, second] && first.page.route != second.page.route
    requires second.page.route in urls && FieldAt(second.fields, y).Some?
    ensures AnchorLinks(cards, urls, [Entry(Str(second.page.route), Str(y))])
      == [(second.page.route,
        Link(urls[second.page.route] + "?" + OPEN_PARAM + "=1#" + y, FieldAt(second.fields, y).value.name))]
  {
    var e := Entry(Str(second.page.route), Str(y));
    assert cards[1..] == [second];
    assert CardFor(cards, second.page.route) == CardFor(cards[1..], second.page.route) == Some(second);
    FieldAtFinds(second.fields, y);
    assert [e][..0] == [] && AnchorLinks(cards, urls, []) == [];
  }

  lemma NothingNamed(a: Alphabet, urls: map<string, string>, first: HelpCard, second: HelpCard, answer: string)
    requires InPassing(a, answer, first.page) && !Names(a, answer, second.page)
    ensures forall exclude :: NamedLinks(a, [first, second], urls, answer, exclude) == []
  {
    var cards := [first, second];
    assert cards[..1] == [first] && [first][..0] == [];
    forall exclude ensures NamedLinks(a, cards, urls, answer, exclude) == [] {
      assert NamedLinks(a, [], urls, answer, exclude) == [];
      assert NamedLinks(a, [first], urls, answer, exclude) == [];
    }
  }
}

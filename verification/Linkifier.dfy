/**
 The page linkifier: the first word-bounded occurrence of each registry page's title or
 route name in a rendered answer becomes a link to that page.

 What counts as a word character, case folding and white space are the runtime's tables and
 stay parameters; a match has the length of its alias.
 */
module Linkifier {
  import opened Collections
  import opened Common

  datatype Alphabet = Alphabet(isWord: char -> bool, fold: char -> char, isSpace: char -> bool)

  datatype Card = Card(title: string, route: string)

  datatype Span = Span(start: nat, end: nat, route: string)

  datatype Piece = Text(text: string) | Open(url: string) | Close

  const OPEN_PARAM := "assistant"

  function EscapeChar(c: char): string {
    match c
    case '&' => "&amp;"
    case '<' => "&lt;"
    case '>' => "&gt;"
    case '"' => "&quot;"
    case '\'' => "&#x27;"
    case _ => [c]
  }

  function Escape(s: string): string {
    if s == "" then "" else EscapeChar(s[0]) + Escape(s[1..])
  }

  /** A browser's reading of the five entities. */
  function Unescape(s: string): string
    decreases |s|
  {
    if s == "" then ""
    else if |s| >= 5 && s[..5] == "&amp;" then "&" + Unescape(s[5..])
    else if |s| >= 4 && s[..4] == "&lt;" then "<" + Unescape(s[4..])
    else if |s| >= 4 && s[..4] == "&gt;" then ">" + Unescape(s[4..])
    else if |s| >= 6 && s[..6] == "&quot;" then "\"" + Unescape(s[6..])
    else if |s| >= 6 && s[..6] == "&#x27;" then "'" + Unescape(s[6..])
    else [s[0]] + Unescape(s[1..])
  }

  lemma FrontOf(e: string, rest: string)
    ensures (e + rest)[..|e|] == e && (e + rest)[|e|..] == rest
  {
  }

  lemma UnescapePlain(c: char, rest: string)
    requires c != '&'
    ensures Unescape([c] + rest) == [c] + Unescape(rest)
  {
    var s := [c] + rest;
    assert s[1..] == rest;
    assert |s| >= 4 ==> s[..4][0] == c;
    assert |s| >= 5 ==> s[..5][0] == c;
    assert |s| >= 6 ==> s[..6][0] == c;
  }

  lemma UnescapeShort(rest: string)
    ensures Unescape("&lt;" + rest) == "<" + Unescape(rest) && Unescape("&gt;" + rest) == ">" + Unescape(rest)
  {
    FrontOf("&lt;", rest);
    FrontOf("&gt;", rest);
    assert |rest| > 0 ==> ("&lt;" + rest)[..5][1] == 'l' && ("&gt;" + rest)[..5][1] == 'g' && "&amp;"[1] == 'a';
    assert "&lt;"[1] == 'l';
  }

  lemma UnescapeAmp(rest: string)
    ensures Unescape("&amp;" + rest) == "&" + Unescape(rest)
  {
    FrontOf("&amp;", rest);
  }

  lemma UnescapeQuot(rest: string)
    ensures Unescape("&quot;" + rest) == "\"" + Unescape(rest)
  {
    var s := "&quot;" + rest;
    FrontOf("&quot;", rest);
    assert s[..5][1] == 'q' && s[..4][1] == 'q' && "&amp;"[1] == 'a' && "&lt;"[1] == 'l' && "&gt;"[1] == 'g';
  }

  lemma UnescapeApos(rest: string)
    ensures Unescape("&#x27;" + rest) == "'" + Unescape(rest)
  {
    var s := "&#x27;" + rest;
    FrontOf("&#x27;", rest);
    assert s[..5][1] == '#' && s[..4][1] == '#' && "&amp;"[1] == 'a' && "&lt;"[1] == 'l' && "&gt;"[1] == 'g';
    assert "&quot;"[1] == 'q' && "&#x27;"[1] == '#';
  }

  lemma UnescapeOne(c: char, rest: string)
    ensures Unescape(EscapeChar(c) + rest) == [c] + Unescape(rest)
  {
    match c
    case '&' => UnescapeAmp(rest);
    case '<' => UnescapeShort(rest);
    case '>' => UnescapeShort(rest);
    case '"' => UnescapeQuot(rest);
    case '\'' => UnescapeApos(rest);
    case _ => UnescapePlain(c, rest);
  }

  /** Escaped text reads back as it was, and holds no character that could open or close markup. */
  lemma {:induction false} EscapeReads(s: string)
    ensures Unescape(Escape(s)) == s
    ensures forall c | c in Escape(s) :: !Markup(c)
  {
    if s != "" {
      EscapeReads(s[1..]);
      UnescapeOne(s[0], Escape(s[1..]));
      EscapeCharIsPlain(s[0]);
      assert s == [s[0]] + s[1..];
    }
  }

  predicate Markup(c: char) {
    c == '<' || c == '>' || c == '"' || c == '\''
  }

  lemma EscapeCharIsPlain(c: char)
    ensures forall d | d in EscapeChar(c) :: !Markup(d)
  {
  }

  // ----- matching one alias

  predicate Same(a: Alphabet, exact: bool, x: char, y: char) {
    x == y || (!exact && a.fold(x) == a.fold(y))
  }

  predicate Matches(a: Alphabet, html: string, alias: string, exact: bool, i: nat) {
    && i + |alias| <= |html|
    && (i > 0 ==> !a.isWord(html[i - 1]))
    && (i + |alias| < |html| ==> !a.isWord(html[i + |alias|]))
    && forall k | 0 <= k < |alias| :: Same(a, exact, html[i + k], alias[k])
  }

  /** Exactly spelled, a match is the alias itself, standing alone; otherwise it is one that folds alike. */
  lemma MatchesByCase(a: Alphabet, html: string, alias: string, i: nat)
    ensures Matches(a, html, alias, true, i) <==> StandsAlone(a, html, alias, i) && html[i..i + |alias|] == alias
    ensures Matches(a, html, alias, false, i) <==>
      StandsAlone(a, html, alias, i) && forall k | 0 <= k < |alias| :: a.fold(html[i + k]) == a.fold(alias[k])
  {
    if Matches(a, html, alias, true, i) {
      assert forall k | 0 <= k < |alias| :: Same(a, true, html[i + k], alias[k]);
      assert html[i..i + |alias|] == alias;
    }
    if StandsAlone(a, html, alias, i) && html[i..i + |alias|] == alias {
      forall k | 0 <= k < |alias| ensures Same(a, true, html[i + k], alias[k]) {
        assert html[i..i + |alias|][k] == alias[k];
      }
    }
    if Matches(a, html, alias, false, i) {
      forall k | 0 <= k < |alias| ensures a.fold(html[i + k]) == a.fold(alias[k]) {
        assert Same(a, false, html[i + k], alias[k]);
      }
    }
  }

  /** Room for the alias, and no word character on either side of it. */
  ghost predicate StandsAlone(a: Alphabet, html: string, alias: string, i: nat) {
    && i + |alias| <= |html|
    && !(i > 0 && a.isWord(html[i - 1])) && !(i + |alias| < |html| && a.isWord(html[i + |alias|]))
  }

  /** The leftmost match at or after i. */
  function FirstFrom(a: Alphabet, html: string, alias: string, exact: bool, i: nat): (r: Option<nat>)
    ensures r.Some? ==> r.value >= i && Matches(a, html, alias, exact, r.value)
    ensures r.Some? ==> forall j | i <= j < r.value :: !Matches(a, html, alias, exact, j)
    ensures r.None? ==> forall j | i <= j :: !Matches(a, html, alias, exact, j)
    decreases |html| - i
  {
    if i + |alias| > |html| then None
    else if Matches(a, html, alias, exact, i) then Some(i)
    else if i == |html| then None
    else FirstFrom(a, html, alias, exact, i + 1)
  }

  /** How many words white space cuts s into. */
  function WordCount(a: Alphabet, s: string): nat {
    if s == "" then 0
    else WordCount(a, s[..|s| - 1])
         + if !a.isSpace(s[|s| - 1]) && (|s| == 1 || a.isSpace(s[|s| - 2])) then 1 else 0
  }

  /** One word is a stretch without white space, with nothing but white space around it. */
  ghost predicate OneWord(a: Alphabet, s: string, i: nat, j: nat) {
    && i < j <= |s|
    && (forall k | 0 <= k < i || j <= k < |s| :: a.isSpace(s[k]))
    && (forall k | i <= k < j :: !a.isSpace(s[k]))
  }

  lemma {:induction false} NoWordIff(a: Alphabet, s: string)
    ensures WordCount(a, s) == 0 <==> forall k | 0 <= k < |s| :: a.isSpace(s[k])
  {
    if s != "" {
      var front := s[..|s| - 1];
      NoWordIff(a, front);
      if WordCount(a, s) == 0 && |s| > 1 {
        assert front[|s| - 2] == s[|s| - 2];
      }
      if forall k | 0 <= k < |s| :: a.isSpace(s[k]) {
        assert forall k | 0 <= k < |front| :: front[k] == s[k];
      }
    }
  }

  lemma {:induction false} OneWordIff(a: Alphabet, s: string)
    ensures WordCount(a, s) == 1 <==> exists i: nat, j: nat :: OneWord(a, s, i, j)
  {
    if s != "" {
      var front, last := s[..|s| - 1], |s| - 1;
      OneWordIff(a, front);
      NoWordIff(a, front);
      if i: nat, j: nat :| OneWord(a, front, i, j) {
        if a.isSpace(s[last]) {
          assert OneWord(a, s, i, j);
        } else if j == last {
          assert OneWord(a, s, i, j + 1);
        }
      }
      if WordCount(a, front) == 0 && !a.isSpace(s[last]) {
        assert forall k | 0 <= k < last :: front[k] == s[k];
        assert OneWord(a, s, last, last + 1);
      }
      if i: nat, j: nat :| OneWord(a, s, i, j) {
        if j <= last {
          assert OneWord(a, front, i, j);
        } else if i < last {
          assert OneWord(a, front, i, last);
          assert front[last - 1] == s[last - 1];
        } else {
          assert forall k | 0 <= k < last :: front[k] == s[k];
        }
      }
    }
  }

  predicate RequiresExactCase(a: Alphabet, card: Card, alias: string, fetched: set<string>) {
    alias == card.title && WordCount(a, card.title) == 1 && card.route !in fetched
  }

  function AliasMatch(a: Alphabet, html: string, card: Card, alias: string, fetched: set<string>): Option<Span> {
    match FirstFrom(a, html, Escape(alias), RequiresExactCase(a, card, alias, fetched), 0)
    case Some(i) => Some(Span(i, i + |Escape(alias)|, card.route))
    case None => None
  }

  /** The earlier of two matches; the first one keeps a tie. */
  function Earlier(best: Option<Span>, other: Option<Span>): Option<Span> {
    if other.Some? && (best.None? || other.value.start < best.value.start) then other else best
  }

  function BestMatch(a: Alphabet, html: string, card: Card, fetched: set<string>): Option<Span> {
    Earlier(AliasMatch(a, html, card, card.title, fetched), AliasMatch(a, html, card, card.route, fetched))
  }

  /** A one-word title of a page not fetched is a name in its own spelling only; every other name in any case. */
  lemma CaseRule(a: Alphabet, html: string, card: Card, alias: string, fetched: set<string>, i: nat)
    requires alias == card.title || alias == card.route
    ensures NamedAt(a, html, card, alias, fetched, i) <==>
      && StandsAlone(a, html, Escape(alias), i)
      && if alias == card.title && card.route !in fetched && WordCount(a, alias) == 1
         then html[i..i + |Escape(alias)|] == Escape(alias)
         else forall k | 0 <= k < |Escape(alias)| :: a.fold(html[i + k]) == a.fold(Escape(alias)[k])
  {
    MatchesByCase(a, html, Escape(alias), i);
  }

  /** Position i of the text names the card by the given alias. */
  predicate NamedAt(a: Alphabet, html: string, card: Card, alias: string, fetched: set<string>, i: nat) {
    Matches(a, html, Escape(alias), RequiresExactCase(a, card, alias, fetched), i)
  }

  /**
   A card has a candidate exactly when the text names it at all, and the candidate is where
   it is first named, by the title if the title matches there.
   */
  lemma BestMatchIsFirstNaming(a: Alphabet, html: string, card: Card, fetched: set<string>)
    ensures var best := BestMatch(a, html, card, fetched);
      && (best.None? <==> forall i: nat :: !NamedAt(a, html, card, card.title, fetched, i)
                                           && !NamedAt(a, html, card, card.route, fetched, i))
      && (best.Some? ==>
            && best.value.start <= best.value.end <= |html| && best.value.route == card.route
            && (forall i: nat | i < best.value.start ::
                  !NamedAt(a, html, card, card.title, fetched, i)
                  && !NamedAt(a, html, card, card.route, fetched, i))
            && var alias := if NamedAt(a, html, card, card.title, fetched, best.value.start)
                            then card.title else card.route;
               && NamedAt(a, html, card, alias, fetched, best.value.start)
               && best.value.end == best.value.start + |Escape(alias)|)
  {
    var t := FirstFrom(a, html, Escape(card.title), RequiresExactCase(a, card, card.title, fetched), 0);
    var r := FirstFrom(a, html, Escape(card.route), RequiresExactCase(a, card, card.route, fetched), 0);
    if t.Some? {
      assert NamedAt(a, html, card, card.title, fetched, t.value);
    }
    if r.Some? {
      assert NamedAt(a, html, card, card.route, fetched, r.value);
    }
  }

  function Listed(best: Option<Span>): seq<Span> {
    if best.Some? then [best.value] else []
  }

  function Candidates(a: Alphabet, html: string, cards: seq<Card>, fetched: set<string>): seq<Span> {
    if cards == [] then []
    else Candidates(a, html, cards[..|cards| - 1], fetched)
         + Listed(BestMatch(a, html, cards[|cards| - 1], fetched))
  }

  ghost predicate Within(html: string, spans: seq<Span>) {
    forall c | c in spans :: c.start <= c.end <= |html|
  }

  /** Each candidate is one card's best match. */
  lemma {:induction false} CandidatesAreBestMatches(a: Alphabet, html: string, cards: seq<Card>, fetched: set<string>)
    ensures forall c :: c in Candidates(a, html, cards, fetched) <==>
      exists card :: card in cards && BestMatch(a, html, card, fetched) == Some(c)
    ensures Within(html, Candidates(a, html, cards, fetched))
  {
    if cards != [] {
      var rest, last := cards[..|cards| - 1], cards[|cards| - 1];
      CandidatesAreBestMatches(a, html, rest, fetched);
      BestMatchIsFirstNaming(a, html, last, fetched);
      assert cards == rest + [last];
      forall c ensures c in Candidates(a, html, cards, fetched) <==>
        exists card :: card in cards && BestMatch(a, html, card, fetched) == Some(c)
      {
        if BestMatch(a, html, last, fetched) == Some(c) {
          assert last in cards;
        }
      }
    }
  }

  ghost predicate OneRouteEach(cards: seq<Card>) {
    forall i, j | 0 <= i < j < |cards| :: cards[i].route != cards[j].route
  }

  ghost predicate OneSpanPerRoute(spans: seq<Span>) {
    forall i, j | 0 <= i < j < |spans| :: spans[i].route != spans[j].route
  }

  lemma {:induction false} CandidateRoutes(a: Alphabet, html: string, cards: seq<Card>, fetched: set<string>)
    requires OneRouteEach(cards)
    ensures OneSpanPerRoute(Candidates(a, html, cards, fetched))
  {
    if cards != [] {
      var rest, last := cards[..|cards| - 1], cards[|cards| - 1];
      CandidateRoutes(a, html, rest, fetched);
      CandidatesAreBestMatches(a, html, rest, fetched);
      BestMatchIsFirstNaming(a, html, last, fetched);
      forall c | c in Candidates(a, html, rest, fetched) ensures c.route != last.route {
        var card :| card in rest && BestMatch(a, html, card, fetched) == Some(c);
        BestMatchIsFirstNaming(a, html, card, fetched);
      }
    }
  }

  // ----- the two sorts

  /** The sort keys: by start, and with byLength also the longer one first. */
  predicate Before(byLength: bool, x: Span, y: Span) {
    x.start < y.start || (x.start == y.start && (byLength ==> x.end >= y.end))
  }

  function Insert(byLength: bool, x: Span, s: seq<Span>): seq<Span> {
    if s == [] || Before(byLength, x, s[0]) then [x] + s else [s[0]] + Insert(byLength, x, s[1..])
  }

  /** A stable sort. */
  function Sort(byLength: bool, s: seq<Span>): seq<Span> {
    if s == [] then [] else Insert(byLength, s[0], Sort(byLength, s[1..]))
  }

  ghost predicate Ordered(byLength: bool, s: seq<Span>) {
    forall i, j | 0 <= i < j < |s| :: Before(byLength, s[i], s[j])
  }

  lemma {:induction false} InsertContents(byLength: bool, x: Span, s: seq<Span>)
    ensures multiset(Insert(byLength, x, s)) == multiset{x} + multiset(s)
  {
    if !(s == [] || Before(byLength, x, s[0])) {
      InsertContents(byLength, x, s[1..]);
      assert s == [s[0]] + s[1..];
    }
  }

  lemma {:induction false} InsertOrders(byLength: bool, x: Span, s: seq<Span>)
    requires Ordered(byLength, s)
    ensures Ordered(byLength, Insert(byLength, x, s))
  {
    if !(s == [] || Before(byLength, x, s[0])) {
      InsertOrders(byLength, x, s[1..]);
      var r := Insert(byLength, x, s[1..]);
      InsertContents(byLength, x, s[1..]);
      forall k | 0 <= k < |r| ensures Before(byLength, s[0], r[k]) {
        assert r[k] in multiset(r);
        assert r[k] == x || r[k] in s[1..];
      }
    }
  }

  lemma {:induction false} SortOrders(byLength: bool, s: seq<Span>)
    ensures Ordered(byLength, Sort(byLength, s)) && multiset(Sort(byLength, s)) == multiset(s)
  {
    if s != [] {
      SortOrders(byLength, s[1..]);
      InsertOrders(byLength, s[0], Sort(byLength, s[1..]));
      InsertContents(byLength, s[0], Sort(byLength, s[1..]));
      assert s == [s[0]] + s[1..];
    }
  }

  /** The spans that start and end as k does, in their order. */
  function Ties(k: Span, s: seq<Span>): seq<Span> {
    if s == [] then []
    else (if s[0].start == k.start && s[0].end == k.end then [s[0]] else []) + Ties(k, s[1..])
  }

  lemma {:induction false} InsertTies(x: Span, s: seq<Span>, k: Span)
    requires Ordered(true, s)
    ensures Ties(k, Insert(true, x, s)) == Ties(k, [x]) + Ties(k, s)
  {
    assert [x][1..] == [];
    if s == [] || Before(true, x, s[0]) {
      assert ([x] + s)[1..] == s;
    } else {
      InsertTies(x, s[1..], k);
      assert ([s[0]] + Insert(true, x, s[1..]))[1..] == Insert(true, x, s[1..]);
    }
  }

  lemma {:induction false} SortTies(s: seq<Span>, k: Span)
    ensures Ties(k, Sort(true, s)) == Ties(k, s)
  {
    if s != [] {
      SortTies(s[1..], k);
      SortOrders(true, s[1..]);
      InsertTies(s[0], Sort(true, s[1..]), k);
      TiesCons(k, s[0], s[1..]);
      assert s == [s[0]] + s[1..];
    }
  }

  lemma TiesCons(k: Span, x: Span, s: seq<Span>)
    ensures Ties(k, [x] + s) == Ties(k, [x]) + Ties(k, s)
  {
    assert ([x] + s)[1..] == s && [x][1..] == [];
  }

  lemma {:induction false} TiesMember(k: Span, s: seq<Span>)
    ensures Ties(k, s) != [] <==> exists c :: c in s && c.start == k.start && c.end == k.end
  {
    if s != [] {
      TiesMember(k, s[1..]);
      assert s == [s[0]] + s[1..];
    }
  }

  lemma HeadTies(s: seq<Span>)
    ensures s == [] || Ties(s[0], s) != []
  {
  }

  /** Being ordered and keeping ties in their order leaves one possible result. */
  lemma {:induction false} OrderedTiesUnique(s: seq<Span>, t: seq<Span>)
    requires Ordered(true, s) && Ordered(true, t) && forall k :: Ties(k, s) == Ties(k, t)
    ensures s == t
  {
    if s == [] {
      HeadTies(t);
    } else {
      TiesMember(s[0], s);
      TiesMember(s[0], t);
      assert s[0] in s;
      assert t != [] && t[0] in t;
      TiesMember(t[0], t);
      TiesMember(t[0], s);
      assert Ties(s[0], s)[0] == s[0] && Ties(t[0], t)[0] == t[0];
      HeadsAgree(s, t);
      forall k ensures Ties(k, s[1..]) == Ties(k, t[1..]) {
        assert Ties(k, s) == Ties(k, t);
        var h := Ties(k, [s[0]]);
        TiesCons(k, s[0], s[1..]);
        TiesCons(k, t[0], t[1..]);
        assert s == [s[0]] + s[1..] && t == [t[0]] + t[1..];
        assert (h + Ties(k, s[1..]))[|h|..] == Ties(k, s[1..]) && (h + Ties(k, t[1..]))[|h|..] == Ties(k, t[1..]);
      }
      OrderedTiesUnique(s[1..], t[1..]);
      assert s == [s[0]] + s[1..] && t == [t[0]] + t[1..];
    }
  }

  lemma HeadsAgree(s: seq<Span>, t: seq<Span>)
    requires s != [] && t != [] && Ordered(true, s) && Ordered(true, t)
    requires exists c :: c in t && c.start == s[0].start && c.end == s[0].end
    requires exists c :: c in s && c.start == t[0].start && c.end == t[0].end
    requires Ties(s[0], s) == Ties(s[0], t)
    ensures s[0] == t[0]
  {
    var c :| c in t && c.start == s[0].start && c.end == s[0].end;
    var d :| d in s && d.start == t[0].start && d.end == t[0].end;
    assert c == t[0] || Before(true, t[0], c);
    assert d == s[0] || Before(true, s[0], d);
    assert s[0].start == t[0].start && s[0].end == t[0].end;
    assert Ties(s[0], s)[0] == s[0] && Ties(s[0], t)[0] == t[0];
  }

  /** Any ordering of the candidates that keeps ties in place is the one used here. */
  lemma SortIsDetermined(s: seq<Span>, t: seq<Span>)
    requires Ordered(true, t) && forall k :: Ties(k, t) == Ties(k, s)
    ensures t == Sort(true, s)
  {
    SortOrders(true, s);
    forall k ensures Ties(k, t) == Ties(k, Sort(true, s)) {
      SortTies(s, k);
      assert Ties(k, t) == Ties(k, s);
    }
    OrderedTiesUnique(t, Sort(true, s));
  }

  lemma {:induction false} SortOfOrdered(byLength: bool, s: seq<Span>)
    requires Ordered(byLength, s)
    ensures Sort(byLength, s) == s
  {
    if s != [] {
      SortOfOrdered(byLength, s[1..]);
      assert s == [s[0]] + s[1..];
    }
  }

  // ----- the greedy choice

  function Select(s: seq<Span>, claimed: int): seq<Span> {
    if s == [] then []
    else if s[0].start < claimed then Select(s[1..], claimed)
    else [s[0]] + Select(s[1..], s[0].end)
  }

  /** In text order, each one starting at or after the end of the one before. */
  ghost predicate InOrder(spans: seq<Span>, from: int) {
    && (forall c | c in spans :: from <= c.start <= c.end)
    && (forall i, j | 0 <= i < j < |spans| :: spans[i].end <= spans[j].start)
  }

  lemma {:induction false} SelectInOrder(s: seq<Span>, claimed: int)
    requires forall c | c in s :: c.start <= c.end
    ensures InOrder(Select(s, claimed), claimed)
    ensures multiset(Select(s, claimed)) <= multiset(s)
  {
    if s != [] {
      assert s == [s[0]] + s[1..];
      SelectInOrder(s[1..], if s[0].start < claimed then claimed else s[0].end);
    }
  }

  /** s covers the place where c starts, and starts no later; with the same start it is no shorter. */
  predicate Blocks(s: Span, c: Span) {
    s.start <= c.start < s.end && (s.start == c.start ==> s.end >= c.end)
  }

  lemma {:induction false} RejectedIsBlocked(s: seq<Span>, claimed: int, c: Span)
    requires Ordered(true, s) && c in s
    ensures c in Select(s, claimed) || c.start < claimed || exists d :: d in Select(s, claimed) && Blocks(d, c)
  {
    assert s == [s[0]] + s[1..];
    if s[0].start < claimed {
      if c != s[0] {
        RejectedIsBlocked(s[1..], claimed, c);
      }
    } else if c != s[0] {
      RejectedIsBlocked(s[1..], s[0].end, c);
      assert Before(true, s[0], c);
      if c.start < s[0].end {
        assert Blocks(s[0], c) && s[0] in Select(s, claimed);
      } else if c !in Select(s, claimed) {
        var d :| d in Select(s[1..], s[0].end) && Blocks(d, c);
        assert d in Select(s, claimed);
      }
    }
  }

  /** The spans of the answer, before anything is spliced. */
  function Chosen(candidates: seq<Span>): seq<Span> {
    Sort(false, Select(Sort(true, candidates), -1))
  }

  /** Re-sorting what the greedy pass kept changes nothing. */
  lemma SecondSortIsIdle(candidates: seq<Span>)
    requires forall c | c in candidates :: c.start <= c.end
    ensures Chosen(candidates) == Select(Sort(true, candidates), -1)
    ensures InOrder(Chosen(candidates), 0)
    ensures multiset(Chosen(candidates)) <= multiset(candidates)
  {
    var sorted := Sort(true, candidates);
    SortOrders(true, candidates);
    forall c | c in sorted ensures c.start <= c.end {
      assert c in multiset(sorted);
    }
    SelectInOrder(sorted, -1);
    var selected := Select(sorted, -1);
    forall i, j | 0 <= i < j < |selected| ensures Before(false, selected[i], selected[j]) {
      assert selected[i] in selected;
    }
    SortOfOrdered(false, selected);
  }

  /** A candidate is dropped only for a chosen one lying over its start. */
  lemma RejectedOverlapsChosen(candidates: seq<Span>, c: Span)
    requires (forall d | d in candidates :: d.start <= d.end) && c in candidates && c !in Chosen(candidates)
    ensures exists d :: d in Chosen(candidates) && Blocks(d, c)
  {
    SecondSortIsIdle(candidates);
    SortOrders(true, candidates);
    assert c in multiset(Sort(true, candidates));
    RejectedIsBlocked(Sort(true, candidates), -1, c);
  }

  lemma {:induction false} SelectOrdered(s: seq<Span>, claimed: int)
    requires Ordered(true, s)
    ensures Ordered(true, Select(s, claimed)) && forall c | c in Select(s, claimed) :: c in s
  {
    if s != [] {
      assert s == [s[0]] + s[1..];
      var rest := Select(s[1..], if s[0].start < claimed then claimed else s[0].end);
      SelectOrdered(s[1..], if s[0].start < claimed then claimed else s[0].end);
      forall k | 0 <= k < |rest| ensures Before(true, s[0], rest[k]) {
        assert rest[k] in s[1..];
      }
    }
  }

  lemma ChosenNotBlocked(candidates: seq<Span>, c: Span, d: Span)
    requires forall x | x in candidates :: x.start <= x.end
    requires c in Chosen(candidates) && d in Chosen(candidates) && d != c
    ensures !Blocks(d, c)
  {
    SecondSortIsIdle(candidates);
    SortOrders(true, candidates);
    SelectOrdered(Sort(true, candidates), -1);
    InOrderNotBlocked(Chosen(candidates), c, d);
  }

  lemma InOrderNotBlocked(spans: seq<Span>, c: Span, d: Span)
    requires Ordered(true, spans) && InOrder(spans, 0) && c in spans && d in spans && d != c
    ensures !Blocks(d, c)
  {
    var i :| 0 <= i < |spans| && spans[i] == c;
    var j :| 0 <= j < |spans| && spans[j] == d;
    assert i < j ==> Before(true, c, d) && c.end <= d.start;
    assert j < i ==> d.end <= c.start;
  }

  /**
   Survival, decided on the sorted list alone and from the left: nothing that survives before
   position i reaches past the place where span i starts.
   */
  predicate Survives(sorted: seq<Span>, i: nat)
    requires i < |sorted|
    decreases i
  {
    forall j: nat | j < i :: Survives(sorted, j) ==> sorted[j].end <= sorted[i].start
  }

  /** The survivors among the first n spans, in their order. */
  function Survivors(sorted: seq<Span>, n: nat): seq<Span>
    requires n <= |sorted|
  {
    if n == 0 then []
    else Survivors(sorted, n - 1) + if Survives(sorted, n - 1) then [sorted[n - 1]] else []
  }

  function AllSurvivors(sorted: seq<Span>): seq<Span> {
    Survivors(sorted, |sorted|)
  }

  ghost predicate KeptAt(sorted: seq<Span>, c: Span, i: nat) {
    i < |sorted| && sorted[i] == c && Survives(sorted, i)
  }

  /** c survives in the candidates put in the order of the first sort. */
  ghost predicate Kept(candidates: seq<Span>, c: Span) {
    exists i: nat :: KeptAt(Sort(true, candidates), c, i)
  }

  /** The end of the last survivor before position i, and no survivor reaches past it. */
  ghost predicate ClaimedUntil(sorted: seq<Span>, i: nat, claimed: int)
    requires i <= |sorted|
  {
    && (forall j: nat | j < i :: Survives(sorted, j) ==> sorted[j].end <= claimed)
    && (claimed == -1 || exists j: nat :: j < i && Survives(sorted, j) && sorted[j].end == claimed)
  }

  lemma ClaimedStep(sorted: seq<Span>, i: nat, claimed: int)
    requires forall c | c in sorted :: c.start <= c.end
    requires i < |sorted| && ClaimedUntil(sorted, i, claimed)
    ensures Survives(sorted, i) <==> sorted[i].start >= claimed
    ensures ClaimedUntil(sorted, i + 1, if Survives(sorted, i) then sorted[i].end else claimed)
  {
    assert sorted[i] in sorted;
  }

  /** Where the last survivor before position i ends. */
  function LastEnd(sorted: seq<Span>, i: nat): int
    requires i <= |sorted|
  {
    if i == 0 then -1 else if Survives(sorted, i - 1) then sorted[i - 1].end else LastEnd(sorted, i - 1)
  }

  lemma {:induction false} SurvivesIffClear(sorted: seq<Span>, i: nat)
    requires (forall c | c in sorted :: c.start <= c.end) && i <= |sorted|
    ensures ClaimedUntil(sorted, i, LastEnd(sorted, i))
    ensures i < |sorted| ==> (Survives(sorted, i) <==> sorted[i].start >= LastEnd(sorted, i))
  {
    if i > 0 {
      SurvivesIffClear(sorted, i - 1);
      LastEndStep(sorted, i - 1);
    }
    if i < |sorted| {
      ClaimedStep(sorted, i, LastEnd(sorted, i));
    }
  }

  lemma LastEndStep(sorted: seq<Span>, i: nat)
    requires (forall c | c in sorted :: c.start <= c.end) && i < |sorted| && ClaimedUntil(sorted, i, LastEnd(sorted, i))
    ensures ClaimedUntil(sorted, i + 1, LastEnd(sorted, i + 1))
  {
    ClaimedStep(sorted, i, LastEnd(sorted, i));
  }

  lemma SelectStep(sorted: seq<Span>, i: nat)
    requires i < |sorted| && (Survives(sorted, i) <==> sorted[i].start >= LastEnd(sorted, i))
    ensures Survivors(sorted, i) + Select(sorted[i..], LastEnd(sorted, i))
         == Survivors(sorted, i + 1) + Select(sorted[i + 1..], LastEnd(sorted, i + 1))
  {
    var kept := Survives(sorted, i);
    assert sorted[i..][1..] == sorted[i + 1..];
    assert Survivors(sorted, i + 1) == Survivors(sorted, i) + if kept then [sorted[i]] else [];
    if kept {
      ConcatAssoc(Survivors(sorted, i), [sorted[i]], Select(sorted[i + 1..], sorted[i].end));
    }
  }

  ghost predicate SelectedFrom(sorted: seq<Span>, i: nat)
    requires i <= |sorted|
  {
    AllSurvivors(sorted) == Survivors(sorted, i) + Select(sorted[i..], LastEnd(sorted, i))
  }

  lemma {:induction false} SelectIsSurvivors(sorted: seq<Span>, i: nat)
    requires (forall c | c in sorted :: c.start <= c.end) && i <= |sorted|
    ensures SelectedFrom(sorted, i)
    decreases |sorted| - i
  {
    if i < |sorted| {
      SurvivesIffClear(sorted, i);
      SelectStep(sorted, i);
      SelectIsSurvivors(sorted, i + 1);
    }
  }

  lemma {:induction false} SurvivorAt(sorted: seq<Span>, n: nat, c: Span)
    requires n <= |sorted|
    ensures c in Survivors(sorted, n) <==> exists i: nat :: i < n && KeptAt(sorted, c, i)
  {
    if n > 0 {
      SurvivorAt(sorted, n - 1, c);
      assert Survives(sorted, n - 1) && sorted[n - 1] == c ==> KeptAt(sorted, c, n - 1);
    }
  }

  /** What is chosen, in any list: the survivors of the sorted list, all of them, in its order. */
  lemma ChosenIsSurvivors(candidates: seq<Span>)
    requires forall d | d in candidates :: d.start <= d.end
    ensures Chosen(candidates) == AllSurvivors(Sort(true, candidates))
    ensures forall c :: c in Chosen(candidates) <==> Kept(candidates, c)
  {
    var sorted := Sort(true, candidates);
    SecondSortIsIdle(candidates);
    SortOrders(true, candidates);
    forall c | c in sorted ensures c.start <= c.end {
      assert c in multiset(sorted);
    }
    SelectIsSurvivors(sorted, 0);
    assert sorted[0..] == sorted;
    forall c ensures c in Chosen(candidates) <==> Kept(candidates, c) {
      SurvivorAt(sorted, |sorted|, c);
    }
  }

  /** Some other surviving span lies over the place where c starts. */
  ghost predicate Crowded(candidates: seq<Span>, c: Span) {
    exists d :: Kept(candidates, d) && d != c && Blocks(d, c)
  }

  /** A candidate of any list is chosen exactly when no other surviving one blocks it. */
  lemma ChosenIffNotCrowded(candidates: seq<Span>, c: Span)
    requires (forall d | d in candidates :: d.start <= d.end) && c in candidates
    ensures c in Chosen(candidates) <==> !Crowded(candidates, c)
  {
    ChosenIsSurvivors(candidates);
    if c in Chosen(candidates) {
      forall d | Kept(candidates, d) && d != c ensures !Blocks(d, c) {
        ChosenNotBlocked(candidates, c, d);
      }
    } else {
      RejectedOverlapsChosen(candidates, c);
    }
  }

  predicate Overlap(c: Span, d: Span) {
    c.start < d.end && d.start < c.end
  }

  /** c itself is crowded out, by a surviving span that is over before d starts. */
  ghost predicate ClearedFor(candidates: seq<Span>, c: Span, d: Span) {
    exists x :: Kept(candidates, x) && Blocks(x, c) && x.end <= d.start
  }

  /**
   Two overlapping candidates of any list, c the longer. At most one is chosen. Either is
   chosen exactly when no other survivor crowds it and it has the start on its side -- the
   tie going to the longer -- or the other one is crowded out by a survivor over before it.
   */
  lemma OverlapOutcome(candidates: seq<Span>, c: Span, d: Span)
    requires (forall x | x in candidates :: x.start <= x.end) && c in candidates && d in candidates
    requires Overlap(c, d) && c.end - c.start > d.end - d.start
    ensures !(c in Chosen(candidates) && d in Chosen(candidates))
    ensures c in Chosen(candidates) <==>
      !Crowded(candidates, c) && (c.start <= d.start || ClearedFor(candidates, d, c))
    ensures d in Chosen(candidates) <==>
      !Crowded(candidates, d) && (d.start < c.start || ClearedFor(candidates, c, d))
  {
    ChosenIsSurvivors(candidates);
    ChosenIffNotCrowded(candidates, c);
    ChosenIffNotCrowded(candidates, d);
    assert c.start <= d.start ==> Blocks(c, d);
    assert d.start < c.start ==> Blocks(d, c);
    if c in Chosen(candidates) && c.start > d.start {
      RejectedOverlapsChosen(candidates, d);
      var x :| x in Chosen(candidates) && Blocks(x, d);
      assert !Blocks(x, c) || x == c;
      assert ClearedFor(candidates, d, c);
    }
    if d in Chosen(candidates) && c.start <= d.start {
      RejectedOverlapsChosen(candidates, c);
      var x :| x in Chosen(candidates) && Blocks(x, c);
      assert !Blocks(x, d) || x == d;
      assert ClearedFor(candidates, c, d);
    }
  }

  /** Where nothing else lies over the start of either, the longer wins exactly when it does not start later. */
  lemma LongerWinsIffNotLater(candidates: seq<Span>, c: Span, d: Span)
    requires (forall x | x in candidates :: x.start <= x.end) && c in candidates && d in candidates
    requires Overlap(c, d) && c.end - c.start > d.end - d.start
    requires forall x | x in candidates && x != c && x != d :: !Blocks(x, c) && !Blocks(x, d)
    ensures c in Chosen(candidates) <==> c.start <= d.start
    ensures d in Chosen(candidates) <==> d.start < c.start
  {
    ChosenIsSurvivors(candidates);
    ChosenIffNotCrowded(candidates, c);
    ChosenIffNotCrowded(candidates, d);
    forall x | x in Chosen(candidates) && x != c && x != d ensures !Blocks(x, c) && !Blocks(x, d) {
      ChosenFrom(candidates, x);
    }
    if c.start <= d.start {
      assert Blocks(c, d) && !Blocks(d, c);
    } else {
      assert Blocks(d, c) && !Blocks(c, d);
    }
  }

  lemma ChosenFrom(candidates: seq<Span>, x: Span)
    requires (forall d | d in candidates :: d.start <= d.end) && x in Chosen(candidates)
    ensures x in candidates
  {
    SecondSortIsIdle(candidates);
    assert x in multiset(Chosen(candidates));
  }

  // ----- where overlapping candidates only nest

  predicate Contains(c: Span, d: Span) {
    c.start <= d.start && d.end <= c.end
  }

  predicate SameExtent(c: Span, d: Span) {
    c.start == d.start && c.end == d.end
  }

  /** Of two overlapping candidates one holds the other. */
  ghost predicate Nested(candidates: seq<Span>) {
    forall c, d | c in candidates && d in candidates && Overlap(c, d) :: Contains(c, d) || Contains(d, c)
  }

  /** d lies over the start of c and is not just another name for the same stretch. */
  predicate Over(d: Span, c: Span) {
    Blocks(d, c) && !SameExtent(d, c)
  }

  /** The first of the spans with k's extent stands, in the order of the first sort, before all the others. */
  lemma {:induction false} FirstTieAt(s: seq<Span>, k: Span) returns (i: nat)
    requires Ties(k, s) != []
    ensures i < |s| && s[i] == Ties(k, s)[0] && SameExtent(s[i], k)
    ensures forall j: nat | j < i :: !SameExtent(s[j], k)
  {
    if SameExtent(s[0], k) {
      i := 0;
    } else {
      var n := FirstTieAt(s[1..], k);
      i := n + 1;
      forall j: nat | j < i ensures !SameExtent(s[j], k) {
        assert j > 0 ==> s[j] == s[1..][j - 1];
      }
    }
  }

  /** What lies over a span is chosen, or a chosen span of another extent lies over it too. */
  lemma NestedOver(candidates: seq<Span>, d: Span, c: Span) returns (x: Span)
    requires (forall y | y in candidates :: y.start <= y.end) && Nested(candidates)
    requires c in candidates && d in candidates && Over(d, c)
    ensures x in Chosen(candidates) && Over(x, c)
  {
    if d in Chosen(candidates) {
      x := d;
    } else {
      RejectedOverlapsChosen(candidates, d);
      x :| x in Chosen(candidates) && Blocks(x, d);
      ChosenFrom(candidates, x);
      assert Overlap(x, d);
      assert Contains(x, d);
    }
  }

  /** The first candidate of its extent is chosen when nothing lies over it, and whenever it loses, so do the rest. */
  lemma FirstTieDecides(candidates: seq<Span>, c: Span)
    requires (forall y | y in candidates :: y.start <= y.end) && c in candidates
    requires forall d | d in candidates :: !Over(d, c)
    ensures Ties(c, candidates) != [] && Ties(c, candidates)[0] in Chosen(candidates)
    ensures SameExtent(Ties(c, candidates)[0], c)
  {
    var sorted := Sort(true, candidates);
    TiesMember(c, candidates);
    SortTies(candidates, c);
    SortOrders(true, candidates);
    ChosenIsSurvivors(candidates);
    var i := FirstTieAt(sorted, c);
    forall j: nat | j < i && Survives(sorted, j) ensures sorted[j].end <= sorted[i].start {
      assert sorted[j] in multiset(sorted);
      assert sorted[j] in candidates && Before(true, sorted[j], sorted[i]);
      assert !Over(sorted[j], c) && !SameExtent(sorted[j], c);
    }
    assert KeptAt(sorted, sorted[i], i);
  }

  /** An empty span survives wherever nothing lies over it, whatever shares its place. */
  lemma EmptySpanKept(candidates: seq<Span>, c: Span)
    requires (forall y | y in candidates :: y.start <= y.end) && c in candidates && c.start == c.end
    requires forall d | d in candidates :: !Over(d, c)
    ensures c in Chosen(candidates)
  {
    if c !in Chosen(candidates) {
      RejectedOverlapsChosen(candidates, c);
      var d :| d in Chosen(candidates) && Blocks(d, c);
      ChosenFrom(candidates, d);
    }
  }

  /**
   Where overlapping candidates only nest, the choice is read off the candidates: a candidate
   is chosen exactly when no other one lies over it and, of those with its own extent, it is
   the first listed.
   */
  lemma NestedChosenIffOutermost(candidates: seq<Span>, c: Span)
    requires (forall y | y in candidates :: y.start <= y.end) && Nested(candidates) && c in candidates
    ensures Ties(c, candidates) != []
    ensures c in Chosen(candidates) <==>
      (forall d | d in candidates :: !Over(d, c)) && (c.start < c.end ==> Ties(c, candidates)[0] == c)
  {
    TiesMember(c, candidates);
    if d :| d in candidates && Over(d, c) {
      var x := NestedOver(candidates, d, c);
      if c in Chosen(candidates) {
        ChosenNotBlocked(candidates, c, x);
      }
    } else {
      FirstTieDecides(candidates, c);
      var f := Ties(c, candidates)[0];
      if c.start == c.end {
        EmptySpanKept(candidates, c);
      } else if f != c && c in Chosen(candidates) {
        ChosenNotBlocked(candidates, c, f);
      }
    }
  }

  /** So there the shorter of two overlapping candidates always loses, and the longer wins unless a third holds it. */
  lemma NestedLongerWins(candidates: seq<Span>, c: Span, d: Span)
    requires (forall y | y in candidates :: y.start <= y.end) && Nested(candidates)
    requires c in candidates && d in candidates && Overlap(c, d) && c.end - c.start > d.end - d.start
    ensures d !in Chosen(candidates) && Ties(c, candidates) != []
    ensures c in Chosen(candidates) <==>
      (forall x | x in candidates && Contains(x, c) :: SameExtent(x, c)) && Ties(c, candidates)[0] == c
  {
    NestedChosenIffOutermost(candidates, c);
    NestedChosenIffOutermost(candidates, d);
    if d.start < d.end {
      assert Over(c, d);
    }
    forall x | x in candidates ensures Contains(x, c) && !SameExtent(x, c) <==> Over(x, c) {
      assert Blocks(x, c) ==> Overlap(x, c);
    }
  }

  /** Folding case makes no word character of another, nor the reverse. */
  ghost predicate FoldKeepsWords(a: Alphabet) {
    forall x, y | a.fold(x) == a.fold(y) :: a.isWord(x) == a.isWord(y)
  }

  /** From place m of one on, the other could begin as a word of its own and run over the end of one. */
  predicate RunsInto(a: Alphabet, one: string, other: string, m: nat) {
    && 0 < m < |one| < m + |other|
    && !a.isWord(one[m - 1]) && !a.isWord(other[|one| - m])
    && forall k | 0 <= k < |one| - m :: a.fold(one[m + k]) == a.fold(other[k])
  }

  predicate AliasOf(card: Card, alias: string) {
    alias == Escape(card.title) || alias == Escape(card.route)
  }

  /** No page's name runs into another's: a condition on the registry alone. */
  ghost predicate NoneRunsInto(a: Alphabet, cards: seq<Card>) {
    forall x, y, one, other, m: nat | x in cards && y in cards && AliasOf(x, one) && AliasOf(y, other) ::
      !RunsInto(a, one, other, m)
  }

  lemma MatchesRunInto(a: Alphabet, html: string, one: string, e: bool, i: nat, other: string, f: bool, j: nat)
    requires FoldKeepsWords(a) && Matches(a, html, one, e, i) && Matches(a, html, other, f, j)
    requires i < j < i + |one| < j + |other|
    ensures RunsInto(a, one, other, j - i)
  {
    var m := j - i;
    assert Same(a, e, html[i + (m - 1)], one[m - 1]);
    assert Same(a, f, html[j + (|one| - m)], other[|one| - m]);
    forall k | 0 <= k < |one| - m ensures a.fold(one[m + k]) == a.fold(other[k]) {
      assert Same(a, e, html[i + (m + k)], one[m + k]) && Same(a, f, html[j + k], other[k]);
    }
  }

  /** The spelling a candidate was found by. */
  lemma FoundBy(a: Alphabet, html: string, cards: seq<Card>, fetched: set<string>, c: Span)
    returns (card: Card, alias: string, exact: bool)
    requires c in Candidates(a, html, cards, fetched)
    ensures card in cards && AliasOf(card, alias)
    ensures Matches(a, html, alias, exact, c.start) && c.end == c.start + |alias|
  {
    CandidatesAreBestMatches(a, html, cards, fetched);
    card :| card in cards && BestMatch(a, html, card, fetched) == Some(c);
    BestMatchIsFirstNaming(a, html, card, fetched);
    var spelling := if NamedAt(a, html, card, card.title, fetched, c.start) then card.title else card.route;
    alias, exact := Escape(spelling), RequiresExactCase(a, card, spelling, fetched);
  }

  /** Where no page's name runs into another's, the candidates of any text only nest. */
  lemma NamesApartNest(a: Alphabet, html: string, cards: seq<Card>, fetched: set<string>)
    requires FoldKeepsWords(a) && NoneRunsInto(a, cards)
    ensures Nested(Candidates(a, html, cards, fetched))
  {
    var candidates := Candidates(a, html, cards, fetched);
    forall c, d | c in candidates && d in candidates && Overlap(c, d) && c.start <= d.start
      ensures Contains(c, d) || Contains(d, c)
    {
      if c.start < d.start && c.end < d.end {
        var x, one, e := FoundBy(a, html, cards, fetched, c);
        var y, other, f := FoundBy(a, html, cards, fetched, d);
        MatchesRunInto(a, html, one, e, c.start, other, f, d.start);
        assert false;
      }
    }
  }

  // ----- where they do not

  predicate IsLetter(c: char) {
    c == ' ' || 'a' <= c <= 'f' || 'p' <= c <= 'r'
  }

  predicate Lettered(s: string) {
    forall c | c in s :: IsLetter(c)
  }

  /** The characters of the examples below are told apart, and a space ends a word. */
  ghost predicate Tells(a: Alphabet) {
    && !a.isWord(' ')
    && forall x, y | IsLetter(x) && IsLetter(y) && a.fold(x) == a.fold(y) :: x == y
  }

  lemma {:induction false} EscapeOfLetters(s: string)
    requires Lettered(s)
    ensures Escape(s) == s
  {
    if s != "" {
      assert s[0] in s;
      EscapeOfLetters(s[1..]);
      assert s == [s[0]] + s[1..];
    }
  }

  /** An alias of its own words, with no earlier place for it to begin. */
  predicate StandsAt(html: string, alias: string, i: nat) {
    && alias != "" && i + |alias| <= |html| && html[i..i + |alias|] == alias && alias[0] !in html[..i]
    && (i > 0 ==> html[i - 1] == ' ')
    && (i + |alias| < |html| ==> html[i + |alias|] == ' ')
  }

  lemma Differs(a: Alphabet, html: string, alias: string, exact: bool, j: nat)
    requires Tells(a) && Lettered(html) && Lettered(alias) && alias != ""
    requires j < |html| ==> html[j] != alias[0]
    ensures !Matches(a, html, alias, exact, j)
  {
    if j < |html| {
      assert html[j + 0] in html && alias[0] in alias;
      assert !Same(a, exact, html[j + 0], alias[0]);
    }
  }

  lemma Stands(a: Alphabet, html: string, alias: string, exact: bool, i: nat)
    requires Tells(a) && StandsAt(html, alias, i)
    ensures Matches(a, html, alias, exact, i)
  {
    forall k | 0 <= k < |alias| ensures Same(a, exact, html[i + k], alias[k]) {
      assert html[i..i + |alias|][k] == alias[k];
    }
  }

  lemma FoundAt(a: Alphabet, html: string, alias: string, exact: bool, i: nat)
    requires Tells(a) && Lettered(html) && Lettered(alias) && StandsAt(html, alias, i)
    ensures FirstFrom(a, html, Escape(alias), exact, 0) == Some(i)
  {
    EscapeOfLetters(alias);
    Stands(a, html, alias, exact, i);
    forall j: nat | j < i ensures !Matches(a, html, alias, exact, j) {
      assert html[j] in html[..i];
      Differs(a, html, alias, exact, j);
    }
  }

  lemma NotFound(a: Alphabet, html: string, alias: string, exact: bool)
    requires Tells(a) && Lettered(html) && Lettered(alias) && alias != "" && alias[0] !in html
    ensures FirstFrom(a, html, Escape(alias), exact, 0) == None
  {
    EscapeOfLetters(alias);
    forall j: nat ensures !Matches(a, html, alias, exact, j) {
      assert j < |html| ==> html[j] in html;
      Differs(a, html, alias, exact, j);
    }
  }

  /** The title is first found at place i and the route nowhere. */
  ghost predicate OnlyTitle(a: Alphabet, html: string, card: Card, fetched: set<string>, i: nat) {
    && FirstFrom(a, html, Escape(card.title), RequiresExactCase(a, card, card.title, fetched), 0) == Some(i)
    && FirstFrom(a, html, Escape(card.route), RequiresExactCase(a, card, card.route, fetched), 0) == None
    && |Escape(card.title)| == |card.title|
  }

  lemma NamedByTitle(a: Alphabet, html: string, card: Card, fetched: set<string>, i: nat)
    requires Tells(a) && Lettered(html) && Lettered(card.title) && Lettered(card.route)
    requires StandsAt(html, card.title, i) && card.route != "" && card.route[0] !in html
    ensures OnlyTitle(a, html, card, fetched, i)
  {
    FoundAt(a, html, card.title, RequiresExactCase(a, card, card.title, fetched), i);
    NotFound(a, html, card.route, RequiresExactCase(a, card, card.route, fetched));
    EscapeOfLetters(card.title);
  }

  /** The stretch a card of the examples gets in the text. */
  function Stretch(card: Card, i: nat): Span {
    Span(i, i + |card.title|, card.route)
  }

  lemma BestOfTitle(a: Alphabet, html: string, card: Card, fetched: set<string>, i: nat)
    requires OnlyTitle(a, html, card, fetched, i)
    ensures BestMatch(a, html, card, fetched) == Some(Stretch(card, i))
  {
    assert AliasMatch(a, html, card, card.title, fetched) == Some(Stretch(card, i));
    assert AliasMatch(a, html, card, card.route, fetched) == None;
  }

  const PROSE := "a b c d e f"

  lemma ProseStands()
    ensures Lettered(PROSE) && 'p' !in PROSE && 'q' !in PROSE && 'r' !in PROSE
    ensures StandsAt(PROSE, "a b", 0) && StandsAt(PROSE, "b c d", 2) && StandsAt(PROSE, "f", 10)
    ensures StandsAt(PROSE, "d e", 6) && StandsAt(PROSE, "b c", 2) && StandsAt(PROSE, "c d e f", 4)
  {
  }

  lemma ThreeCards(a: Alphabet, html: string, x: Card, y: Card, z: Card, fetched: set<string>)
    ensures Candidates(a, html, [x, y, z], fetched)
         == Listed(BestMatch(a, html, x, fetched)) + Listed(BestMatch(a, html, y, fetched))
            + Listed(BestMatch(a, html, z, fetched))
  {
    assert [x, y, z][..2] == [x, y] && [x, y][..1] == [x] && [x][..0] == [];
    assert Candidates(a, html, [x], fetched) == Listed(BestMatch(a, html, x, fetched));
    assert Candidates(a, html, [x, y], fetched)
        == Candidates(a, html, [x], fetched) + Listed(BestMatch(a, html, y, fetched));
  }

  /** Three cards, the second running over the end of the first and the third clear of the first. */
  lemma ThreeExamples(a: Alphabet, html: string, fetched: set<string>,
                      x: Card, i: nat, y: Card, j: nat, z: Card, k: nat)
    requires OnlyTitle(a, html, x, fetched, i) && OnlyTitle(a, html, y, fetched, j) && OnlyTitle(a, html, z, fetched, k)
    requires i < j < i + |x.title| <= k && j < k
    ensures Candidates(a, html, [x, y, z], fetched) == [Stretch(x, i), Stretch(y, j), Stretch(z, k)]
    ensures ChosenSpans(a, html, [x, y, z], fetched) == [Stretch(x, i), Stretch(z, k)]
  {
    BestOfTitle(a, html, x, fetched, i);
    BestOfTitle(a, html, y, fetched, j);
    BestOfTitle(a, html, z, fetched, k);
    ThreeCards(a, html, x, y, z, fetched);
    ThreeInOrder(Stretch(x, i), Stretch(y, j), Stretch(z, k));
  }

  lemma ProseNames(a: Alphabet, fetched: set<string>, card: Card, i: nat)
    requires Tells(a) && card.route in ["p", "q", "r"] && Lettered(card.title) && StandsAt(PROSE, card.title, i)
    ensures OnlyTitle(a, PROSE, card, fetched, i)
  {
    ProseStands();
    NamedByTitle(a, PROSE, card, fetched, i);
  }

  /**
   Cards whose titles run into each other, and a text that names them all. The longer of an
   overlapping pair loses to one that starts first; with a third card it loses though it
   starts first, and wins though it starts later.
   */
  lemma LongerSpanLoses(a: Alphabet, fetched: set<string>)
    requires Tells(a)
    ensures ChosenSpans(a, PROSE, [Card("a b", "p"), Card("b c d", "q"), Card("f", "r")], fetched)
         == [Span(0, 3, "p"), Span(10, 11, "r")]
    ensures ChosenSpans(a, PROSE, [Card("a b", "p"), Card("b c d", "q"), Card("d e", "r")], fetched)
         == [Span(0, 3, "p"), Span(6, 9, "r")]
    ensures ChosenSpans(a, PROSE, [Card("a b", "p"), Card("b c", "q"), Card("c d e f", "r")], fetched)
         == [Span(0, 3, "p"), Span(4, 11, "r")]
  {
    var x, y, z := Card("a b", "p"), Card("b c d", "q"), Card("d e", "r");
    var short, long, aside := Card("b c", "q"), Card("c d e f", "r"), Card("f", "r");
    assert OnlyTitle(a, PROSE, x, fetched, 0) && OnlyTitle(a, PROSE, y, fetched, 2)
        && OnlyTitle(a, PROSE, z, fetched, 6) by {
      ProseStands();
      ProseNames(a, fetched, x, 0);
      ProseNames(a, fetched, y, 2);
      ProseNames(a, fetched, z, 6);
    }
    assert OnlyTitle(a, PROSE, short, fetched, 2) && OnlyTitle(a, PROSE, long, fetched, 4)
        && OnlyTitle(a, PROSE, aside, fetched, 10) by {
      ProseStands();
      ProseNames(a, fetched, short, 2);
      ProseNames(a, fetched, long, 4);
      ProseNames(a, fetched, aside, 10);
    }
    ThreeExamples(a, PROSE, fetched, x, 0, y, 2, aside, 10);
    ThreeExamples(a, PROSE, fetched, x, 0, y, 2, z, 6);
    ThreeExamples(a, PROSE, fetched, x, 0, short, 2, long, 4);
  }

  lemma SelectThree(x: Span, y: Span, z: Span)
    requires y.start < x.end <= z.start
    ensures Select([x, y, z], -1) == [x, z]
  {
    var s := [x, y, z];
    assert s[1..] == [y, z] && [y, z][1..] == [z] && [z][1..] == [];
    assert Select([z], x.end) == [z];
    assert Select([y, z], x.end) == [z];
  }

  lemma ThreeInOrder(x: Span, y: Span, z: Span)
    requires x.start < y.start < x.end <= z.start && y.start < z.start && y.start <= y.end && z.start <= z.end
    ensures Chosen([x, y, z]) == [x, z]
  {
    OrderedThree(x, y, z);
    SecondSortIsIdle([x, y, z]);
    SortOfOrdered(true, [x, y, z]);
    SelectThree(x, y, z);
  }

  lemma OrderedThree(x: Span, y: Span, z: Span)
    requires x.start < y.start < z.start
    ensures Ordered(true, [x, y, z])
  {
  }

  // ----- the splice

  /** The text up to a span, and the span inside its link. */
  function Anchor(html: string, cursor: nat, c: Span, url: string): seq<Piece>
    requires cursor <= c.start <= c.end <= |html|
  {
    [Text(html[cursor..c.start]), Open(url), Text(html[c.start..c.end]), Close]
  }

  function Pieces(html: string, spans: seq<Span>, urls: map<string, string>, cursor: nat): seq<Piece>
    requires cursor <= |html| && InOrder(spans, cursor) && Within(html, spans)
  {
    if spans == [] then [Text(html[cursor..])]
    else
      var c := spans[0];
      if c.route !in urls then Pieces(html, spans[1..], urls, cursor)
      else Anchor(html, cursor, c, urls[c.route]) + Pieces(html, spans[1..], urls, c.end)
  }

  /** The text left when the anchors are taken out again. */
  function Erase(pieces: seq<Piece>): string {
    if pieces == [] then ""
    else (if pieces[0].Text? then pieces[0].text else "") + Erase(pieces[1..])
  }

  function RenderPiece(p: Piece): string {
    match p
    case Text(text) => text
    case Open(url) => "<a href=\"" + Escape(url) + "?" + OPEN_PARAM + "=1\">"
    case Close => "</a>"
  }

  /** An anchor opens on the escaped address with the assistant's parameter, and nothing else is added to the text. */
  lemma AnchorText(url: string, text: string)
    ensures RenderPiece(Open(url)) == "<a href=\"" + Escape(url) + "?assistant=1\">"
    ensures RenderPiece(Text(text)) == text && RenderPiece(Close) == "</a>"
  {
    assert "?" + OPEN_PARAM + "=1\">" == "?assistant=1\">";
  }

  function Strings(pieces: seq<Piece>): seq<string> {
    seq(|pieces|, i requires 0 <= i < |pieces| => RenderPiece(pieces[i]))
  }

  function Join(parts: seq<string>): string {
    if parts == [] then "" else parts[0] + Join(parts[1..])
  }

  function Render(pieces: seq<Piece>): string {
    Join(Strings(pieces))
  }

  lemma {:induction false} JoinAll(a: seq<string>, b: seq<string>)
    ensures Join(a + b) == Join(a) + Join(b)
  {
    if a == [] {
      assert a + b == b;
    } else {
      assert (a + b)[1..] == a[1..] + b;
      JoinAll(a[1..], b);
    }
  }

  /** Pieces print one after the other, each by itself. */
  lemma RenderConcat(p: seq<Piece>, q: seq<Piece>, piece: Piece)
    ensures Render(p + q) == Render(p) + Render(q)
    ensures Render([piece]) == RenderPiece(piece)
  {
    assert Strings(p + q) == Strings(p) + Strings(q);
    JoinAll(Strings(p), Strings(q));
    assert Strings([piece]) == [RenderPiece(piece)];
    var one := [RenderPiece(piece)];
    assert one[1..] == [] && Join(one) == one[0] + Join(one[1..]) == one[0];
  }

  lemma InOrderTail(spans: seq<Span>, from: int)
    requires spans != [] && InOrder(spans, from)
    ensures InOrder(spans[1..], from) && InOrder(spans[1..], spans[0].end)
  {
    forall c | c in spans[1..] ensures spans[0].end <= c.start {
      var i :| 0 <= i < |spans[1..]| && spans[1..][i] == c;
      assert spans[i + 1] == c;
    }
  }

  lemma {:induction false} PiecesErase(html: string, spans: seq<Span>, urls: map<string, string>, cursor: nat)
    requires cursor <= |html| && InOrder(spans, cursor) && Within(html, spans)
    ensures Erase(Pieces(html, spans, urls, cursor)) == html[cursor..]
  {
    if spans == [] {
      assert [Text(html[cursor..])][1..] == [];
      assert html[cursor..] + "" == html[cursor..];
    } else {
      var c := spans[0];
      InOrderTail(spans, cursor);
      if c.route !in urls {
        PiecesErase(html, spans[1..], urls, cursor);
      } else {
        PiecesErase(html, spans[1..], urls, c.end);
        EraseAppend(Anchor(html, cursor, c, urls[c.route]), Pieces(html, spans[1..], urls, c.end));
        EraseAnchor(html, cursor, c, urls[c.route]);
        assert html[cursor..c.end] + html[c.end..] == html[cursor..];
      }
    }
  }

  lemma {:induction false} EraseAppend(p: seq<Piece>, q: seq<Piece>)
    ensures Erase(p + q) == Erase(p) + Erase(q)
  {
    if p == [] {
      assert p + q == q;
    } else {
      EraseAppend(p[1..], q);
      assert (p + q)[1..] == p[1..] + q;
    }
  }

  lemma EraseAnchor(html: string, cursor: nat, c: Span, url: string)
    requires cursor <= c.start <= c.end <= |html|
    ensures Erase(Anchor(html, cursor, c, url)) == html[cursor..c.end]
  {
    var p := Anchor(html, cursor, c, url);
    assert p[3..][1..] == [] && Erase(p[3..]) == "";
    assert p[2..][1..] == p[3..] && Erase(p[2..]) == html[c.start..c.end];
    assert p[1..][1..] == p[2..] && Erase(p[1..]) == html[c.start..c.end];
    assert html[cursor..c.start] + html[c.start..c.end] == html[cursor..c.end];
  }

  function Mounted(spans: seq<Span>, urls: map<string, string>): seq<Span> {
    if spans == [] then []
    else (if spans[0].route in urls then [spans[0]] else []) + Mounted(spans[1..], urls)
  }

  lemma {:induction false} PiecesCount(html: string, spans: seq<Span>, urls: map<string, string>, cursor: nat)
    requires cursor <= |html| && InOrder(spans, cursor) && Within(html, spans)
    ensures |Pieces(html, spans, urls, cursor)| == 4 * |Mounted(spans, urls)| + 1
  {
    if spans != [] {
      InOrderTail(spans, cursor);
      PiecesCount(html, spans[1..], urls, if spans[0].route in urls then spans[0].end else cursor);
    }
  }

  lemma ShiftFour(four: seq<Piece>, rest: seq<Piece>, k: nat, j: nat)
    requires |four| == 4 && 0 < k && j < 4 && 4 * (k - 1) + j < |rest|
    ensures (four + rest)[4 * k + j] == rest[4 * (k - 1) + j]
  {
  }

  /** Pieces 4k to 4k+3 are span m's: the text before it, and its own text inside the link to its page. */
  ghost predicate Wrapped(html: string, p: seq<Piece>, m: Span, urls: map<string, string>, k: nat) {
    && m.start <= m.end <= |html| && m.route in urls && 4 * k + 3 < |p|
    && p[4 * k].Text? && p[4 * k + 1] == Open(urls[m.route])
    && p[4 * k + 2] == Text(html[m.start..m.end]) && p[4 * k + 3] == Close
  }

  /** Anchor k opens on the page of the k-th mounted span and holds exactly that span's text. */
  lemma {:induction false} AnchorWrapsSpan(html: string, spans: seq<Span>, urls: map<string, string>, cursor: nat,
                                           k: nat)
    requires cursor <= |html| && InOrder(spans, cursor) && Within(html, spans) && k < |Mounted(spans, urls)|
    ensures |Pieces(html, spans, urls, cursor)| == 4 * |Mounted(spans, urls)| + 1
    ensures Wrapped(html, Pieces(html, spans, urls, cursor), Mounted(spans, urls)[k], urls, k)
  {
    PiecesCount(html, spans, urls, cursor);
    var c := spans[0];
    InOrderTail(spans, cursor);
    if c.route !in urls {
      AnchorWrapsSpan(html, spans[1..], urls, cursor, k);
    } else if k > 0 {
      var four, rest := Anchor(html, cursor, c, urls[c.route]), Pieces(html, spans[1..], urls, c.end);
      AnchorWrapsSpan(html, spans[1..], urls, c.end, k - 1);
      assert Mounted(spans, urls)[k] == Mounted(spans[1..], urls)[k - 1];
      ShiftFour(four, rest, k, 0);
      ShiftFour(four, rest, k, 1);
      ShiftFour(four, rest, k, 2);
      ShiftFour(four, rest, k, 3);
    }
  }

  lemma MountedFirst(html: string, c: Span, rest: seq<Span>, urls: map<string, string>, cursor: nat)
    requires cursor <= c.start <= c.end <= |html| && InOrder(rest, c.end) && Within(html, rest) && c.route in urls
    ensures InOrder([c] + rest, cursor) && Within(html, [c] + rest)
    ensures Pieces(html, [c] + rest, urls, cursor)
      == Anchor(html, cursor, c, urls[c.route]) + Pieces(html, rest, urls, c.end)
  {
    assert ([c] + rest)[1..] == rest;
  }

  /** A route that is not mounted leaves no trace: its span might as well not have been chosen. */
  lemma {:induction false} UnmountedLeavesNoTrace(html: string, spans: seq<Span>, urls: map<string, string>,
                                                  cursor: nat)
    requires cursor <= |html| && InOrder(spans, cursor) && Within(html, spans)
    ensures InOrder(Mounted(spans, urls), cursor) && Within(html, Mounted(spans, urls))
    ensures Pieces(html, Mounted(spans, urls), urls, cursor) == Pieces(html, spans, urls, cursor)
  {
    if spans != [] {
      InOrderTail(spans, cursor);
      var c := spans[0];
      UnmountedLeavesNoTrace(html, spans[1..], urls, if c.route in urls then c.end else cursor);
      if c.route in urls {
        MountedFirst(html, c, Mounted(spans[1..], urls), urls, cursor);
      } else {
        assert Mounted(spans, urls) == Mounted(spans[1..], urls);
      }
    }
  }

  // ----- the whole pass

  function ChosenSpans(a: Alphabet, html: string, cards: seq<Card>, fetched: set<string>): (spans: seq<Span>)
    ensures InOrder(spans, 0) && Within(html, spans)
  {
    var candidates := Candidates(a, html, cards, fetched);
    CandidatesAreBestMatches(a, html, cards, fetched);
    SecondSortIsIdle(candidates);
    assert forall c | c in Chosen(candidates) :: c in multiset(Chosen(candidates)) && c in multiset(candidates);
    Chosen(candidates)
  }

  function Linkified(a: Alphabet, html: string, cards: seq<Card>, fetched: set<string>, urls: map<string, string>)
    : seq<Piece>
  {
    if html == "" then [Text(html)] else Pieces(html, ChosenSpans(a, html, cards, fetched), urls, 0)
  }

  /** Taking the inserted anchors out gives the rendered answer back, whatever it says. */
  lemma LinkifyKeepsEveryWord(a: Alphabet, html: string, cards: seq<Card>, fetched: set<string>,
                              urls: map<string, string>)
    ensures Erase(Linkified(a, html, cards, fetched, urls)) == html
  {
    if html == "" {
      assert [Text(html)][1..] == [];
    } else {
      PiecesErase(html, ChosenSpans(a, html, cards, fetched), urls, 0);
      assert html[0..] == html;
    }
  }

  /** The routes of a selection drawn from pairwise different ones are pairwise different. */
  lemma SubsetOneSpanPerRoute(few: seq<Span>, many: seq<Span>)
    requires OneSpanPerRoute(many) && multiset(few) <= multiset(many)
    ensures OneSpanPerRoute(few)
  {
    forall i, j | 0 <= i < j < |few| ensures few[i].route != few[j].route {
      if few[i].route == few[j].route {
        RepeatCounts(few, i, j);
        assert few[i] in multiset(few) && few[j] in multiset(few);
        assert few[i] in many && few[j] in many;
        assert few[i] == few[j];
        OneCopy(many, few[i]);
      }
    }
  }

  lemma OneCopy(s: seq<Span>, c: Span)
    requires OneSpanPerRoute(s) && c in s
    ensures multiset(s)[c] == 1
  {
    var i :| 0 <= i < |s| && s[i] == c;
    assert s == s[..i] + [c] + s[i + 1..];
    assert c !in s[..i] && c !in s[i + 1..];
  }

  /**
   What the reader gets: at most one link a page, each on the place where the page is first
   named, and a page named in the text is passed over only for a chosen span that lies over
   that place.
   */
  lemma LinksAreFirstNamings(a: Alphabet, html: string, cards: seq<Card>, fetched: set<string>)
    requires OneRouteEach(cards)
    ensures var spans := ChosenSpans(a, html, cards, fetched);
      && OneSpanPerRoute(spans)
      && (forall c | c in spans :: exists card :: card in cards && BestMatch(a, html, card, fetched) == Some(c))
      && (forall card | card in cards && BestMatch(a, html, card, fetched).Some? ::
            var c := BestMatch(a, html, card, fetched).value;
            c in spans || exists d :: d in spans && Blocks(d, c))
  {
    var candidates := Candidates(a, html, cards, fetched);
    var spans := ChosenSpans(a, html, cards, fetched);
    CandidatesAreBestMatches(a, html, cards, fetched);
    CandidateRoutes(a, html, cards, fetched);
    SecondSortIsIdle(candidates);
    SubsetOneSpanPerRoute(spans, candidates);
    forall c | c in spans ensures exists card :: card in cards && BestMatch(a, html, card, fetched) == Some(c) {
      assert c in multiset(spans);
      assert c in candidates;
    }
    forall card | card in cards && BestMatch(a, html, card, fetched).Some?
      ensures var c := BestMatch(a, html, card, fetched).value; c in spans || exists d :: d in spans && Blocks(d, c)
    {
      var c := BestMatch(a, html, card, fetched).value;
      assert c in candidates;
      if c !in spans {
        RejectedOverlapsChosen(candidates, c);
      }
    }
  }

  lemma JoinOne(text: string)
    ensures Render([Text(text)]) == text
  {
    assert Strings([Text(text)]) == [text];
    assert [text][1..] == [];
    assert Join([text]) == [text][0] + Join([text][1..]);
    assert text + "" == text;
  }

  method Collect(a: Alphabet, html: string, cards: seq<Card>, fetched: set<string>) returns (candidates: seq<Span>)
    ensures candidates == Candidates(a, html, cards, fetched)
  {
    candidates := [];
    for n := 0 to |cards|
      invariant candidates == Candidates(a, html, cards[..n], fetched)
    {
      assert cards[..n + 1][..n] == cards[..n];
      var best: Option<Span> := None;
      var aliases := [cards[n].title, cards[n].route];
      for k := 0 to 2
        invariant best == if k == 0 then None
                          else if k == 1 then AliasMatch(a, html, cards[n], cards[n].title, fetched)
                          else BestMatch(a, html, cards[n], fetched)
      {
        var found := AliasMatch(a, html, cards[n], aliases[k], fetched);
        if found.Some? && (best.None? || found.value.start < best.value.start) {
          best := found;
        }
      }
      if best.Some? {
        candidates := candidates + [best.value];
      }
    }
    assert cards[..|cards|] == cards;
  }

  method Claim(sorted: seq<Span>) returns (selected: seq<Span>)
    ensures selected == Select(sorted, -1)
  {
    selected := [];
    var claimedUntil: int := -1;
    for i := 0 to |sorted|
      invariant Select(sorted, -1) == selected + Select(sorted[i..], claimedUntil)
    {
      assert sorted[i..][1..] == sorted[i + 1..];
      if sorted[i].start >= claimedUntil {
        selected := selected + [sorted[i]];
        claimedUntil := sorted[i].end;
      }
    }
  }

  lemma StringsOfAnchor(html: string, cursor: nat, c: Span, url: string, done: seq<string>, rest: seq<Piece>)
    requires cursor <= c.start <= c.end <= |html|
    ensures done + Strings(Anchor(html, cursor, c, url) + rest)
         == done + [html[cursor..c.start]] + [RenderPiece(Open(url))] + [html[c.start..c.end]] + ["</a>"]
           + Strings(rest)
  {
  }

  method Splice(html: string, spans: seq<Span>, urls: map<string, string>) returns (out: string)
    requires InOrder(spans, 0) && Within(html, spans)
    ensures out == Render(Pieces(html, spans, urls, 0))
  {
    var pieces: seq<string> := [];
    var cursor: nat := 0;
    for i := 0 to |spans|
      invariant cursor <= |html| && InOrder(spans[i..], cursor) && Within(html, spans[i..])
      invariant Strings(Pieces(html, spans, urls, 0)) == pieces + Strings(Pieces(html, spans[i..], urls, cursor))
    {
      var c := spans[i];
      InOrderTail(spans[i..], cursor);
      assert spans[i..][1..] == spans[i + 1..];
      if c.route in urls {
        StringsOfAnchor(html, cursor, c, urls[c.route], pieces, Pieces(html, spans[i + 1..], urls, c.end));
        pieces := pieces + [html[cursor..c.start]] + ["<a href=\"" + Escape(urls[c.route]) + "?" + OPEN_PARAM + "=1\">"]
                  + [html[c.start..c.end]] + ["</a>"];
        cursor := c.end;
      }
    }
    assert Strings([Text(html[cursor..])]) == [html[cursor..]];
    pieces := pieces + [html[cursor..]];
    out := Join(pieces);
  }

  /** urls holds the routes this box mounts; a route outside it cannot be reversed. */
  method Linkify(a: Alphabet, html: string, cards: seq<Card>, fetched: set<string>, urls: map<string, string>)
    returns (out: string)
    ensures out == Render(Linkified(a, html, cards, fetched, urls))
  {
    if html == "" {
      JoinOne(html);
      return html;
    }
    var candidates := Collect(a, html, cards, fetched);
    var selected := Claim(Sort(true, candidates));
    if selected == [] {
      JoinOne(html);
      assert html[0..] == html;
      return html;
    }
    var spans := Sort(false, selected);
    assert spans == ChosenSpans(a, html, cards, fetched);
    out := Splice(html, spans, urls);
  }
}

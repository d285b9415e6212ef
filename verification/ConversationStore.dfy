/**
 The writers of the conversation side, as they update their tables row by row. Each is
 proved to make exactly the step the runs of TaintRuns are built from.
 */
module ConversationStore {
  import opened Collections
  import opened Common
  import opened Sorting
  import opened Names
  import opened Directory
  import opened Tables
  import opened Workspaces
  import opened TaintRuns

  datatype Event =
    | ConversationTainted(c: Cid, e: Ent)
    | WorkstreamTainted(s: Sid, e: Ent)
    | ShareAdded(s: Sid, subject: Subject)

  function ConversationEvents(c: Cid, ids: seq<Ent>): seq<Event> {
    if ids == [] then []
    else ConversationEvents(c, ids[..|ids| - 1]) + [ConversationTainted(c, ids[|ids| - 1])]
  }

  function WorkstreamEvents(s: Sid, ids: seq<Ent>): seq<Event> {
    if ids == [] then []
    else WorkstreamEvents(s, ids[..|ids| - 1]) + [WorkstreamTainted(s, ids[|ids| - 1])]
  }

  function NewConversationTags(w: World, c: Cid, ids: set<Ent>): set<Ent> {
    ids - IdsOf(w.convTags, c)
  }

  function NewStreamTags(w: World, c: Cid, ids: set<Ent>): set<Ent>
    requires c in w.convs
  {
    if w.convs[c].stream.Some? then ids - IdsOf(w.streamTags, w.convs[c].stream.value) else {}
  }

  /** One row per first sighting, the conversation's before the stream's. */
  function StampEvents(w: World, c: Cid, ids: set<Ent>): seq<Event>
    requires c in w.convs
  {
    ConversationEvents(c, Sorted(NewConversationTags(w, c, ids)))
    + if w.convs[c].stream.Some?
      then WorkstreamEvents(w.convs[c].stream.value, Sorted(NewStreamTags(w, c, ids))) else []
  }

  class Store {
    var dir: Registry
    var convs: map<Cid, Conversation>
    var streams: map<Sid, Workstream>
    var convTags: Rows<Cid>
    var streamTags: Rows<Sid>
    var walls: Rows<Sid>
    var shares: map<ShareKey, Level>
    var log: seq<Event>

    /** The tables as one value, for the predicates that read several of them. */
    function W(): World
      reads this
    {
      World(dir, convs, streams, convTags, streamTags, walls, shares)
    }

    constructor (dir: Registry)
      ensures W() == World(dir, map[], map[], {}, {}, {}, map[]) && log == []
    {
      this.dir := dir;
      convs, streams, shares := map[], map[], map[];
      convTags, streamTags, walls := {}, {}, {};
      log := [];
    }

    method RecordConversationTags(c: Cid, sightings: seq<Ent>)
      modifies this`log
      ensures log == old(log) + ConversationEvents(c, sightings)
    {
      for i := 0 to |sightings|
        invariant log == old(log) + ConversationEvents(c, sightings[..i])
      {
        assert sightings[..i + 1][..i] == sightings[..i];
        log := log + [ConversationTainted(c, sightings[i])];
      }
      assert sightings[..|sightings|] == sightings;
    }

    method RecordWorkstreamTags(s: Sid, sightings: seq<Ent>)
      modifies this`log
      ensures log == old(log) + WorkstreamEvents(s, sightings)
    {
      for i := 0 to |sightings|
        invariant log == old(log) + WorkstreamEvents(s, sightings[..i])
      {
        assert sightings[..i + 1][..i] == sightings[..i];
        log := log + [WorkstreamTainted(s, sightings[i])];
      }
      assert sightings[..|sightings|] == sightings;
    }

    /** Step one of a stamp: first sightings only are written and audited. */
    method AddConversationTags(c: Cid, ids: set<Ent>) returns (added: set<Ent>)
      modifies this`convTags, this`log
      ensures added == ids - IdsOf(old(convTags), c)
      ensures convTags == AddRows(old(convTags), c, ids)
      ensures log == old(log) + ConversationEvents(c, Sorted(added))
    {
      added := ids - IdsOf(convTags, c);
      AddOnlyFresh(convTags, c, ids);
      convTags := AddRows(convTags, c, added);
      RecordConversationTags(c, Sorted(added));
    }

    /** Step two, the union upward. */
    method AddWorkstreamTags(s: Sid, ids: set<Ent>) returns (added: set<Ent>)
      modifies this`streamTags, this`log
      ensures added == ids - IdsOf(old(streamTags), s)
      ensures streamTags == AddRows(old(streamTags), s, ids)
      ensures log == old(log) + WorkstreamEvents(s, Sorted(added))
    {
      added := ids - IdsOf(streamTags, s);
      AddOnlyFresh(streamTags, s, ids);
      streamTags := AddRows(streamTags, s, added);
      RecordWorkstreamTags(s, Sorted(added));
    }

    /** The stamp itself; `ids` are the labels the turn's references resolved to. */
    method StampTurn(c: Cid, ids: set<Ent>) returns (added: set<Ent>)
      requires c in convs
      modifies this`convTags, this`streamTags, this`log
      ensures convTags == AddRows(old(convTags), c, ids)
      ensures streamTags == if convs[c].stream.Some? then AddRows(old(streamTags), convs[c].stream.value, ids)
                            else old(streamTags)
      ensures added == NewConversationTags(old(W()), c, ids) + NewStreamTags(old(W()), c, ids)
      ensures log == old(log) + StampEvents(old(W()), c, ids)
    {
      if ids == {} {
        NothingToStamp(W(), c);
        return {};
      }
      if convs[c].stream.Some? {
        added := StampBoth(c, convs[c].stream.value, ids);
      } else {
        added := StampLoose(c, ids);
      }
    }

    method StampLoose(c: Cid, ids: set<Ent>) returns (added: set<Ent>)
      requires c in convs && convs[c].stream.None?
      modifies this`convTags, this`log
      ensures convTags == AddRows(old(convTags), c, ids)
      ensures added == NewConversationTags(old(W()), c, ids) + NewStreamTags(old(W()), c, ids)
      ensures log == old(log) + StampEvents(old(W()), c, ids)
    {
      added := AddConversationTags(c, ids);
      assert NewStreamTags(old(W()), c, ids) == {};
      assert StampEvents(old(W()), c, ids) == ConversationEvents(c, Sorted(added));
    }

    method StampBoth(c: Cid, s: Sid, ids: set<Ent>) returns (added: set<Ent>)
      modifies this`convTags, this`streamTags, this`log
      ensures convTags == AddRows(old(convTags), c, ids) && streamTags == AddRows(old(streamTags), s, ids)
      ensures added == (ids - IdsOf(old(convTags), c)) + (ids - IdsOf(old(streamTags), s))
      ensures log == old(log) + (ConversationEvents(c, Sorted(ids - IdsOf(old(convTags), c)))
                                 + WorkstreamEvents(s, Sorted(ids - IdsOf(old(streamTags), s))))
    {
      var below := AddConversationTags(c, ids);
      var above := AddWorkstreamTags(s, ids);
      added := below + above;
      ConcatAssoc(old(log), ConversationEvents(c, Sorted(below)), WorkstreamEvents(s, Sorted(above)));
    }

    /** One tool turn and its stamp, in one transaction. */
    method ToolTurn(c: Cid, ids: set<Ent>) returns (added: set<Ent>)
      requires c in convs
      modifies this
      ensures W() == AfterToolTurn(old(W()), c, ids)
      ensures added == NewConversationTags(old(W()), c, ids) + NewStreamTags(old(W()), c, ids)
      ensures log == old(log) + StampEvents(old(W()), c, ids)
    {
      var conv := convs[c];
      convs := convs[c := conv.(turns := conv.turns + [Turn(NextIndex(conv.turns), Done, ids)])];
      added := StampTurn(c, ids);
    }

    /** `copy` is the fresh uuid the new row gets. */
    method DuplicateConversation(p: Principal, c: Cid, copy: Cid) returns (done: bool)
      requires c in convs && copy !in convs
      modifies this
      ensures done == MayManageConversation(old(W()), p, c)
      ensures W() == if done then AfterDuplicate(old(W()), p, c, copy) else old(W())
      ensures log == old(log)
    {
      done := MayManageConversation(W(), p, c);
      if !done {
        return;
      }
      var source := convs[c].turns;
      var kept: seq<Turn> := [];
      for i := 0 to |source|
        invariant kept + FinishedTurns(source[i..], |kept|) == FinishedTurns(source, 0)
      {
        assert source[i..][1..] == source[i + 1..];
        if Terminal(source[i]) {
          assert kept + FinishedTurns(source[i..], |kept|)
              == kept + [source[i].(index := |kept|)] + FinishedTurns(source[i + 1..], |kept| + 1);
          kept := kept + [source[i].(index := |kept|)];
        }
      }
      assert kept == FinishedTurns(source, 0) by {
        assert source[|source|..] == [];
        assert kept + [] == kept;
      }
      convs := convs[copy := Conversation(Stamped(p), convs[c].stream, kept)];
      convTags := AddRows(convTags, copy, IdsOf(convTags, c));
    }

    method DeleteConversation(p: Principal, c: Cid) returns (done: bool)
      requires c in convs
      modifies this
      ensures done == MayManageConversation(old(W()), p, c)
      ensures done ==> forall issued, copies ::
        TaintRuns.Next(Box(old(W()), issued, copies), TaintRuns.DeleteConversation(p, c))
          == Some(Box(W(), issued, copies))
      ensures !done ==> W() == old(W())
      ensures log == old(log)
    {
      done := MayManageConversation(W(), p, c);
      if done {
        shares := WithoutShares(shares, ConversationTarget, c);
        convTags := WithoutKey(convTags, c);
        convs := convs - {c};
      }
    }

    /** Gate one, then the share row and its audit row. */
    method ShareWorkstream(p: Principal, s: Sid, user: Option<nat>, group: Option<nat>, level: Level)
      returns (outcome: ShareOutcome)
      requires s in streams
      modifies this
      ensures outcome == ShareGate(old(W()), p, s, user, group, level)
      ensures W() == if outcome.Shared? then AfterShare(old(W()), s, outcome.subject) else old(W())
      ensures log == old(log) + if outcome.Shared? then [ShareAdded(s, outcome.subject)] else []
    {
      outcome := ShareGate(W(), p, s, user, group, level);
      if outcome.Shared? {
        shares := shares[(WorkstreamTarget, Printed(s), outcome.subject) := Use];
        log := log + [ShareAdded(s, outcome.subject)];
      }
    }
  }

  lemma AddOnlyFresh(rows: Rows<nat>, k: nat, ids: set<Ent>)
    ensures AddRows(rows, k, ids - IdsOf(rows, k)) == AddRows(rows, k, ids)
  {
    forall r | r in AddRows(rows, k, ids) && r !in rows ensures r in AddRows(rows, k, ids - IdsOf(rows, k)) {
      SidesAgree(rows, k, r.1);
    }
  }

  lemma NothingToStamp(w: World, c: Cid)
    requires c in w.convs
    ensures StampEvents(w, c, {}) == [] && NewConversationTags(w, c, {}) + NewStreamTags(w, c, {}) == {}
    ensures AddRows(w.convTags, c, {}) == w.convTags
    ensures w.convs[c].stream.Some? ==> AddRows(w.streamTags, w.convs[c].stream.value, {}) == w.streamTags
  {
    assert NewConversationTags(w, c, {}) == {} && NewStreamTags(w, c, {}) == {};
  }

  /** What a turn retrieves closes the stream at once to every reader who lacks it. */
  lemma StampsRaiseTheGate(w: World, c: Cid, ids: set<Ent>, p: Principal, s: Sid)
    requires c in w.convs && w.convs[c].stream == Some(s) && s in w.streams && !MayManageWorkstream(w, p, s)
    ensures ReadGate(AfterToolTurn(w, c, ids), p, s).ok <==> ReadGate(w, p, s).ok && ids <= Held(w.dir, p)
  {
    var w1 := AfterToolTurn(w, c, ids);
    AddRowsMeaning(w.streamTags, s, ids, s);
    GatesAreExact(w, p, s, None, None, Use);
    GatesAreExact(w1, p, s, None, None, Use);
  }
}

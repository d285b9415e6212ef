/**
 Every run of the conversation side: creating, turning, stamping, duplicating, deleting,
 sharing, and entitlements that come and go. What the tags promise at every point of one.

 A duplication is two steps, as its statements are: what it reads of the turns, and later what
 it reads of the tags, when it commits. Anything may commit in between. The copy's row is
 nobody else's to see until then.
 */
module TaintRuns {
  import opened Common
  import opened Runs
  import opened Names
  import opened Directory
  import opened Tables
  import opened Workspaces

  /** The ids ever handed out; a primary key is not used twice. */
  datatype Issued = Issued(ents: set<Ent>, convs: set<Cid>, streams: set<Sid>)

  /** A copy being made: the row and the turns its transaction has written so far. */
  datatype Pending = Pending(source: Cid, conv: Conversation)

  datatype Box = Box(w: World, issued: Issued, copies: map<Cid, Pending>)

  datatype Action =
    | CreateConversation(p: Principal, c: Cid, stream: Option<Sid>)
    | CreateWorkstream(p: Principal, s: Sid)
    | AddTurn(c: Cid, state: TurnState)
    | FinishTurn(c: Cid, i: nat, state: TurnState)
    | ToolTurn(c: Cid, ids: set<Ent>)
    | StartCopy(p: Principal, c: Cid, copy: Cid)
    | FinishCopy(copy: Cid)
    | AbortCopy(copy: Cid)
    | DeleteConversation(p: Principal, c: Cid)
    | DeleteWorkstream(p: Principal, s: Sid, documents: nat)
    | CreateEntitlement(e: Ent, name: string)
    | DeleteEntitlement(e: Ent)
    | ChangeRegistry(dir: Registry)
    | PutShare(key: ShareKey, level: Level)
    | DropShare(key: ShareKey)

  predicate Terminal(t: Turn) {
    t.state.Done? || t.state.Failed? || t.state.Cancelled?
  }

  /** Turn.next_index. */
  function NextIndex(turns: seq<Turn>): nat {
    if turns == [] then 0 else turns[|turns| - 1].index + 1
  }

  /** The surviving history of a duplicate, renumbered from `from`. */
  function FinishedTurns(turns: seq<Turn>, from: nat): seq<Turn>
    decreases |turns|
  {
    if turns == [] then []
    else if Terminal(turns[0]) then [turns[0].(index := from)] + FinishedTurns(turns[1..], from + 1)
    else FinishedTurns(turns[1..], from)
  }

  function Stamped(p: Principal): OwnerStamp {
    OwnerStamp(p.kind, p.key)
  }

  function AddRows<K(==)>(rows: Rows<K>, k: K, ids: set<Ent>): Rows<K> {
    rows + set e | e in ids :: (k, e)
  }

  function AfterToolTurn(w: World, c: Cid, ids: set<Ent>): World
    requires c in w.convs
  {
    var conv := w.convs[c];
    w.(convs := w.convs[c := conv.(turns := conv.turns + [Turn(NextIndex(conv.turns), Done, ids)])],
       convTags := AddRows(w.convTags, c, ids),
       streamTags := if conv.stream.Some? then AddRows(w.streamTags, conv.stream.value, ids) else w.streamTags)
  }

  /** The row and turns of a copy of c, as the acting principal's. */
  function CopyOf(w: World, p: Principal, c: Cid): Conversation
    requires c in w.convs
  {
    Conversation(Stamped(p), w.convs[c].stream, FinishedTurns(w.convs[c].turns, 0))
  }

  /** A copy is filed with the tags its source has at this point, which is none if it is gone. */
  function AfterCopy(w: World, copy: Cid, made: Pending): World {
    w.(convs := w.convs[copy := made.conv],
       convTags := AddRows(w.convTags, copy, IdsOf(w.convTags, made.source)))
  }

  /** A whole duplication with nothing in between. */
  function AfterDuplicate(w: World, p: Principal, c: Cid, copy: Cid): World
    requires c in w.convs
  {
    AfterCopy(w, copy, Pending(c, CopyOf(w, p, c)))
  }

  function AfterEntitlementDelete(w: World, e: Ent): World {
    w.(dir := w.dir.(names := w.dir.names - {e},
                     grants := map g | g in w.dir.grants && g.0 != e :: w.dir.grants[g]),
       convTags := Without(w.convTags, e),
       streamTags := Without(w.streamTags, e),
       walls := Without(w.walls, e))
  }

  /** The foreign key a commit checks. */
  predicate StreamThere(w: World, conv: Conversation) {
    conv.stream.Some? ==> conv.stream.value in w.streams
  }

  function Next(b: Box, a: Action): Option<Box> {
    var w := b.w;
    match a
    case CreateConversation(p, c, stream) =>
      if c in b.issued.convs || (stream.Some? && stream.value !in w.streams) then None
      else Some(b.(w := w.(convs := w.convs[c := Conversation(Stamped(p), stream, [])]),
                   issued := b.issued.(convs := b.issued.convs + {c})))
    case CreateWorkstream(p, s) =>
      if s in b.issued.streams then None
      else Some(b.(w := w.(streams := w.streams[s := Workstream(Stamped(p))]),
                   issued := b.issued.(streams := b.issued.streams + {s})))
    case AddTurn(c, state) =>
      if c !in w.convs then None
      else
        var turns := w.convs[c].turns;
        Some(b.(w := w.(convs := w.convs[c := w.convs[c].(turns := turns + [Turn(NextIndex(turns), state, {})])])))
    case FinishTurn(c, i, state) =>
      if c !in w.convs || i >= |w.convs[c].turns| then None
      else
        var turns := w.convs[c].turns;
        Some(b.(w := w.(convs := w.convs[c := w.convs[c].(turns := turns[i := turns[i].(state := state)])])))
    case ToolTurn(c, ids) =>
      if c !in w.convs || !(ids <= w.dir.names.Keys) then None
      else Some(b.(w := AfterToolTurn(w, c, ids)))
    case StartCopy(p, c, copy) =>
      if c !in w.convs || copy in b.issued.convs || !MayManageConversation(w, p, c) then None
      else Some(b.(copies := b.copies[copy := Pending(c, CopyOf(w, p, c))],
                   issued := b.issued.(convs := b.issued.convs + {copy})))
    case FinishCopy(copy) =>
      if copy !in b.copies || !StreamThere(w, b.copies[copy].conv) then None
      else Some(b.(w := AfterCopy(w, copy, b.copies[copy]), copies := b.copies - {copy}))
    case AbortCopy(copy) =>
      if copy !in b.copies then None else Some(b.(copies := b.copies - {copy}))
    case DeleteConversation(p, c) =>
      if c !in w.convs || !MayManageConversation(w, p, c) then None
      else Some(b.(w := w.(convs := w.convs - {c}, convTags := WithoutKey(w.convTags, c),
                           shares := WithoutShares(w.shares, ConversationTarget, c))))
    case DeleteWorkstream(p, s, documents) =>
      if s !in w.streams || !MayManageWorkstream(w, p, s) || documents > 0
         || (exists c :: c in w.convs && w.convs[c].stream == Some(s)) then None
      else Some(b.(w := w.(streams := w.streams - {s}, streamTags := WithoutKey(w.streamTags, s),
                           walls := WithoutKey(w.walls, s), shares := WithoutShares(w.shares, WorkstreamTarget, s))))
    case CreateEntitlement(e, name) =>
      if e in b.issued.ents || name in w.dir.names.Values then None
      else Some(b.(w := w.(dir := w.dir.(names := w.dir.names[e := name])),
                   issued := b.issued.(ents := b.issued.ents + {e})))
    case DeleteEntitlement(e) =>
      if e !in w.dir.names then None else Some(b.(w := AfterEntitlementDelete(w, e)))
    case ChangeRegistry(dir) =>
      if dir.names != w.dir.names || (exists g :: g in dir.grants && g.0 !in dir.names) then None
      else Some(b.(w := w.(dir := dir.(collate := w.dir.collate))))
    case PutShare(key, level) => Some(b.(w := w.(shares := w.shares[key := level])))
    case DropShare(key) => Some(b.(w := w.(shares := w.shares - {key})))
  }

  // ----- the invariant

  /** The labels of everything these turns retrieved, as far as they are live, are among the tags. */
  ghost predicate InTags(turns: seq<Turn>, live: set<Ent>, tags: set<Ent>) {
    forall i | 0 <= i < |turns| :: turns[i].material * live <= tags
  }

  ghost predicate Covered(w: World, c: Cid)
    requires c in w.convs
  {
    InTags(w.convs[c].turns, w.dir.names.Keys, IdsOf(w.convTags, c))
  }

  /** What a conversation of a stream retrieved is among the tags of the stream, while there is one. */
  ghost predicate Housed(w: World, conv: Conversation) {
    conv.stream.Some? && conv.stream.value in w.streams ==>
      InTags(conv.turns, w.dir.names.Keys, IdsOf(w.streamTags, conv.stream.value))
  }

  /** A conversation's tags are among its stream's. */
  ghost predicate UnionedUp(w: World, c: Cid)
    requires c in w.convs
  {
    w.convs[c].stream.Some? ==> IdsOf(w.convTags, c) <= IdsOf(w.streamTags, w.convs[c].stream.value)
  }

  ghost predicate IdsKnown(conv: Conversation, issued: Issued) {
    && (conv.stream.Some? ==> conv.stream.value in issued.streams)
    && forall i | 0 <= i < |conv.turns| :: conv.turns[i].material <= issued.ents
  }

  ghost predicate Known(b: Box) {
    && b.w.dir.names.Keys <= b.issued.ents && b.w.streams.Keys <= b.issued.streams
    && b.w.convs.Keys + b.copies.Keys <= b.issued.convs
    && (forall c | c in b.w.convs :: IdsKnown(b.w.convs[c], b.issued))
    && (forall k | k in b.copies :: IdsKnown(b.copies[k].conv, b.issued))
  }

  /** A copy in the making is of an older conversation and, while that one is there, in the same stream. */
  ghost predicate PendingOk(b: Box, k: Cid)
    requires k in b.copies
  {
    var source := b.copies[k].source;
    && k !in b.w.convs && source !in b.copies && source in b.issued.convs
    && (source in b.w.convs ==> b.w.convs[source].stream == b.copies[k].conv.stream)
  }

  ghost predicate Inv(b: Box) {
    && Linked(b.w)
    && Known(b)
    && (forall c | c in b.w.convs :: Housed(b.w, b.w.convs[c]) && UnionedUp(b.w, c))
    && (forall k | k in b.copies :: Housed(b.w, b.copies[k].conv) && PendingOk(b, k))
  }

  lemma AddRowsMeaning<K>(rows: Rows<K>, k: K, ids: set<Ent>, k1: K)
    ensures IdsOf(AddRows(rows, k, ids), k1) == IdsOf(rows, k1) + (if k1 == k then ids else {})
  {
    forall e ensures e in IdsOf(AddRows(rows, k, ids), k1)
                     <==> e in IdsOf(rows, k1) || (k1 == k && e in ids) {
      SidesAgree(AddRows(rows, k, ids), k1, e);
      SidesAgree(rows, k1, e);
    }
  }

  function TerminalTurns(turns: seq<Turn>): (f: seq<Turn>)
    ensures forall t :: t in f <==> t in turns && Terminal(t)
  {
    if turns == [] then []
    else (if Terminal(turns[0]) then [turns[0]] else []) + TerminalTurns(turns[1..])
  }

  /** The copy is the finished turns, in order, contiguous from 0, otherwise as they were. */
  lemma {:induction false} FinishedTurnsKeep(turns: seq<Turn>, from: nat)
    ensures var f := FinishedTurns(turns, from);
      && |f| == |TerminalTurns(turns)|
      && forall i | 0 <= i < |f| :: f[i] == TerminalTurns(turns)[i].(index := from + i)
    decreases |turns|
  {
    if turns != [] && !Terminal(turns[0]) {
      FinishedTurnsKeep(turns[1..], from);
      assert TerminalTurns(turns) == TerminalTurns(turns[1..]);
    } else if turns != [] {
      FinishedTurnsKeep(turns[1..], from + 1);
      var f, rest := FinishedTurns(turns, from), TerminalTurns(turns[1..]);
      assert TerminalTurns(turns) == [turns[0]] + rest;
      forall i | 0 < i < |f| ensures f[i] == TerminalTurns(turns)[i].(index := from + i) {
        assert f[i] == FinishedTurns(turns[1..], from + 1)[i - 1];
      }
    }
  }

  /** Turns stay within the tags when no label of theirs comes to life and the tags lose only dead labels. */
  lemma StaysInTags(turns: seq<Turn>, live: set<Ent>, tags: set<Ent>, live1: set<Ent>, tags1: set<Ent>)
    requires InTags(turns, live, tags) && tags * live1 <= tags1
    requires forall i | 0 <= i < |turns| :: turns[i].material * live1 <= live
    ensures InTags(turns, live1, tags1)
  {
    forall i, e | 0 <= i < |turns| && e in turns[i].material * live1 ensures e in tags1 {
      assert e in turns[i].material * live;
    }
  }

  lemma StaysHoused(w: World, w1: World, conv: Conversation)
    requires Housed(w, conv)
    requires conv.stream.Some? && conv.stream.value in w1.streams ==> conv.stream.value in w.streams
    requires conv.stream.Some? ==>
      IdsOf(w.streamTags, conv.stream.value) * w1.dir.names.Keys <= IdsOf(w1.streamTags, conv.stream.value)
    requires forall i | 0 <= i < |conv.turns| :: conv.turns[i].material * w1.dir.names.Keys <= w.dir.names.Keys
    ensures Housed(w1, conv)
  {
    if conv.stream.Some? && conv.stream.value in w1.streams {
      var s := conv.stream.value;
      StaysInTags(conv.turns, w.dir.names.Keys, IdsOf(w.streamTags, s), w1.dir.names.Keys, IdsOf(w1.streamTags, s));
    }
  }

  /** The turns of a copy are turns of its source, renumbered. */
  lemma CopyMaterial(turns: seq<Turn>, i: nat) returns (j: nat)
    requires i < |FinishedTurns(turns, 0)|
    ensures j < |turns| && FinishedTurns(turns, 0)[i].material == turns[j].material
  {
    FinishedTurnsKeep(turns, 0);
    assert TerminalTurns(turns)[i] in turns;
    j :| 0 <= j < |turns| && turns[j] == TerminalTurns(turns)[i];
  }

  lemma CopyInTags(turns: seq<Turn>, live: set<Ent>, tags: set<Ent>)
    requires InTags(turns, live, tags)
    ensures InTags(FinishedTurns(turns, 0), live, tags)
  {
    forall i | 0 <= i < |FinishedTurns(turns, 0)| ensures FinishedTurns(turns, 0)[i].material * live <= tags {
      var j := CopyMaterial(turns, i);
    }
  }

  // ----- one step

  lemma ToolTurnKeeps(b: Box, c: Cid, ids: set<Ent>)
    requires Inv(b) && Next(b, ToolTurn(c, ids)).Some?
    ensures Inv(Next(b, ToolTurn(c, ids)).value)
  {
    var w, b1 := b.w, Next(b, ToolTurn(c, ids)).value;
    var w1 := b1.w;
    forall s ensures IdsOf(w.streamTags, s) <= IdsOf(w1.streamTags, s) {
      if w.convs[c].stream.Some? {
        AddRowsMeaning(w.streamTags, w.convs[c].stream.value, ids, s);
      }
    }
    forall c1 | c1 in w1.convs ensures Housed(w1, w1.convs[c1]) && UnionedUp(w1, c1) {
      AddRowsMeaning(w.convTags, c, ids, c1);
      assert Housed(w, w.convs[c1]) && UnionedUp(w, c1);
      if w.convs[c].stream.Some? {
        AddRowsMeaning(w.streamTags, w.convs[c].stream.value, ids, w.convs[c].stream.value);
      }
      StaysHoused(w, w1, w.convs[c1]);
    }
    forall k | k in b1.copies ensures Housed(w1, b1.copies[k].conv) && PendingOk(b1, k) {
      assert PendingOk(b, k);
      StaysHoused(w, w1, b.copies[k].conv);
    }
  }

  lemma StartCopyKeeps(b: Box, p: Principal, c: Cid, copy: Cid)
    requires Inv(b) && Next(b, StartCopy(p, c, copy)).Some?
    ensures Inv(Next(b, StartCopy(p, c, copy)).value)
  {
    var w, b1 := b.w, Next(b, StartCopy(p, c, copy)).value;
    var conv := CopyOf(w, p, c);
    assert Housed(w, w.convs[c]) && IdsKnown(w.convs[c], b.issued);
    forall i | 0 <= i < |conv.turns| ensures conv.turns[i].material <= b1.issued.ents {
      var j := CopyMaterial(w.convs[c].turns, i);
    }
    if conv.stream.Some? {
      CopyInTags(w.convs[c].turns, w.dir.names.Keys, IdsOf(w.streamTags, conv.stream.value));
    }
    forall k | k in b1.copies ensures Housed(b1.w, b1.copies[k].conv) && PendingOk(b1, k) {
      assert k != copy ==> Housed(w, b.copies[k].conv) && PendingOk(b, k);
    }
    forall k | k in b1.copies ensures IdsKnown(b1.copies[k].conv, b1.issued) {
      assert k != copy ==> IdsKnown(b.copies[k].conv, b.issued);
    }
  }

  lemma FinishCopyKeeps(b: Box, copy: Cid)
    requires Inv(b) && Next(b, FinishCopy(copy)).Some?
    ensures Inv(Next(b, FinishCopy(copy)).value)
  {
    var w, b1 := b.w, Next(b, FinishCopy(copy)).value;
    var made, w1 := b.copies[copy], b1.w;
    assert PendingOk(b, copy) && Housed(w, made.conv);
    assert IdsOf(w.convTags, copy) == {};
    assert IdsOf(w.convTags, made.source) != {} ==> made.source in w.convs;
    forall c | c in w1.convs ensures Housed(w1, w1.convs[c]) && UnionedUp(w1, c) {
      AddRowsMeaning(w.convTags, copy, IdsOf(w.convTags, made.source), c);
      assert c != copy ==> Housed(w, w.convs[c]) && UnionedUp(w, c);
      assert made.source in w.convs ==> UnionedUp(w, made.source);
    }
    forall r | r in w1.convTags ensures r.0 in w1.convs && r.1 in w1.dir.names {
      if r !in w.convTags {
        SidesAgree(w.convTags, made.source, r.1);
      }
    }
    forall k | k in b1.copies ensures Housed(w1, b1.copies[k].conv) && PendingOk(b1, k) {
      assert Housed(w, b.copies[k].conv) && PendingOk(b, k);
    }
  }

  lemma EntitlementDeleteKeeps(b: Box, e: Ent)
    requires Inv(b) && Next(b, DeleteEntitlement(e)).Some?
    ensures Inv(Next(b, DeleteEntitlement(e)).value)
  {
    var w, b1 := b.w, Next(b, DeleteEntitlement(e)).value;
    var w1 := b1.w;
    forall s ensures IdsOf(w1.streamTags, s) == IdsOf(w.streamTags, s) - {e} {
      WithoutMeaning(w.streamTags, e, s);
    }
    forall c | c in w1.convs ensures Housed(w1, w1.convs[c]) && UnionedUp(w1, c) {
      assert Housed(w, w.convs[c]) && UnionedUp(w, c);
      WithoutMeaning(w.convTags, e, c);
      StaysHoused(w, w1, w.convs[c]);
    }
    forall k | k in b1.copies ensures Housed(w1, b1.copies[k].conv) && PendingOk(b1, k) {
      assert PendingOk(b, k);
      StaysHoused(w, w1, b.copies[k].conv);
    }
  }

  lemma WithoutKeyElsewhere(rows: Rows<nat>, gone: nat, k: nat)
    requires k != gone
    ensures IdsOf(WithoutKey(rows, gone), k) == IdsOf(rows, k)
  {
    forall e ensures e in IdsOf(WithoutKey(rows, gone), k) <==> e in IdsOf(rows, k) {
      SidesAgree(WithoutKey(rows, gone), k, e);
      SidesAgree(rows, k, e);
    }
  }

  lemma DeletesKeep(b: Box, a: Action)
    requires Inv(b) && (a.DeleteConversation? || a.DeleteWorkstream?) && Next(b, a).Some?
    ensures Inv(Next(b, a).value)
  {
    var w, b1 := b.w, Next(b, a).value;
    var w1 := b1.w;
    forall s | s in w1.streams ensures IdsOf(w1.streamTags, s) == IdsOf(w.streamTags, s) {
      if a.DeleteWorkstream? {
        WithoutKeyElsewhere(w.streamTags, a.s, s);
      }
    }
    forall c | c in w1.convs ensures Housed(w1, w1.convs[c]) && UnionedUp(w1, c) {
      assert Housed(w, w.convs[c]) && UnionedUp(w, c);
      if a.DeleteConversation? {
        WithoutKeyElsewhere(w.convTags, a.c, c);
      }
    }
    forall k | k in b1.copies ensures Housed(w1, b1.copies[k].conv) && PendingOk(b1, k) {
      assert Housed(w, b.copies[k].conv) && PendingOk(b, k);
    }
  }

  /** Turns without material, and the other rows a conversation's tags do not depend on. */
  lemma PlainStepKeeps(b: Box, a: Action)
    requires Inv(b) && Next(b, a).Some?
    requires a.AddTurn? || a.FinishTurn? || a.CreateConversation? || a.CreateWorkstream? || a.AbortCopy?
    ensures Inv(Next(b, a).value)
  {
    var w, b1 := b.w, Next(b, a).value;
    var w1 := b1.w;
    forall c | c in w1.convs ensures Housed(w1, w1.convs[c]) && UnionedUp(w1, c) && IdsKnown(w1.convs[c], b1.issued) {
      if c in w.convs {
        assert Housed(w, w.convs[c]) && UnionedUp(w, c) && IdsKnown(w.convs[c], b.issued);
      } else {
        assert IdsOf(w.convTags, c) == {};
      }
    }
    forall k | k in b1.copies
      ensures Housed(w1, b1.copies[k].conv) && PendingOk(b1, k) && IdsKnown(b1.copies[k].conv, b1.issued) {
      assert Housed(w, b.copies[k].conv) && PendingOk(b, k) && IdsKnown(b.copies[k].conv, b.issued);
    }
  }

  lemma RegistryStepKeeps(b: Box, a: Action)
    requires Inv(b) && Next(b, a).Some?
    requires a.CreateEntitlement? || a.ChangeRegistry? || a.PutShare? || a.DropShare?
    ensures Inv(Next(b, a).value)
  {
    var w, b1 := b.w, Next(b, a).value;
    var w1 := b1.w;
    forall c | c in w1.convs ensures Housed(w1, w1.convs[c]) && UnionedUp(w1, c) && IdsKnown(w1.convs[c], b1.issued) {
      assert Housed(w, w.convs[c]) && UnionedUp(w, c) && IdsKnown(w.convs[c], b.issued);
      StaysHoused(w, w1, w.convs[c]);
    }
    forall k | k in b1.copies
      ensures Housed(w1, b1.copies[k].conv) && PendingOk(b1, k) && IdsKnown(b1.copies[k].conv, b1.issued) {
      assert PendingOk(b, k) && IdsKnown(b.copies[k].conv, b.issued);
      StaysHoused(w, w1, b.copies[k].conv);
    }
  }

  lemma StepKeeps(b: Box, a: Action)
    requires Inv(b) && Next(b, a).Some?
    ensures Inv(Next(b, a).value)
  {
    match a
    case ToolTurn(c, ids) => ToolTurnKeeps(b, c, ids);
    case StartCopy(p, c, copy) => StartCopyKeeps(b, p, c, copy);
    case FinishCopy(copy) => FinishCopyKeeps(b, copy);
    case DeleteEntitlement(e) => EntitlementDeleteKeeps(b, e);
    case DeleteConversation(_, _) => DeletesKeep(b, a);
    case DeleteWorkstream(_, _, _) => DeletesKeep(b, a);
    case AddTurn(_, _) => PlainStepKeeps(b, a);
    case FinishTurn(_, _, _) => PlainStepKeeps(b, a);
    case CreateConversation(_, _, _) => PlainStepKeeps(b, a);
    case CreateWorkstream(_, _) => PlainStepKeeps(b, a);
    case AbortCopy(_) => PlainStepKeeps(b, a);
    case _ => RegistryStepKeeps(b, a);
  }

  lemma {:induction false} RunKeeps(b: Box, acts: seq<Action>)
    requires Inv(b) && Exec(Next, b, acts).Some?
    ensures Inv(Exec(Next, b, acts).value)
    decreases |acts|
  {
    if acts != [] {
      StepKeeps(b, acts[0]);
      RunKeeps(Next(b, acts[0]).value, acts[1..]);
    }
  }

  ghost predicate Fresh(b: Box) {
    && b.w.convs == map[] && b.w.streams == map[] && b.w.convTags == {} && b.w.streamTags == {}
    && b.copies == map[] && RegistryOk(b.w.dir) && b.w.dir.names.Keys <= b.issued.ents
  }

  /**
   No laundering. After any run from a box without conversations, a reader the gate lets
   into a stream they do not manage holds every label, still existing, of everything ever
   retrieved into any of its conversations, copies of conversations included, whatever
   committed while they were being made.
   */
  lemma NoLaundering(b: Box, acts: seq<Action>, p: Principal, s: Sid, c: Cid, i: nat)
    requires Fresh(b) && Exec(Next, b, acts).Some?
    requires var w := Exec(Next, b, acts).value.w;
      && s in w.streams && ReadGate(w, p, s).ok && !MayManageWorkstream(w, p, s)
      && c in w.convs && w.convs[c].stream == Some(s) && i < |w.convs[c].turns|
    ensures var w := Exec(Next, b, acts).value.w;
      w.convs[c].turns[i].material * w.dir.names.Keys <= Held(w.dir, p)
  {
    RunKeeps(b, acts);
    var w := Exec(Next, b, acts).value.w;
    assert Housed(w, w.convs[c]);
    GatesAreExact(w, p, s, None, None, Use);
  }

  // ----- the tags of each conversation by itself

  ghost predicate AllCovered(w: World) {
    forall c | c in w.convs :: Covered(w, c)
  }

  /** What a copy in the making has read, its source is tagged with, while it is there. */
  ghost predicate PendingCovered(b: Box) {
    forall k | k in b.copies && b.copies[k].source in b.w.convs ::
      InTags(b.copies[k].conv.turns, b.w.dir.names.Keys, IdsOf(b.w.convTags, b.copies[k].source))
  }

  /** The step files a copy whose source has gone since its turns were read, and some label of theirs is live. */
  ghost predicate FilesOrphan(b: Box, a: Action) {
    && a.FinishCopy? && a.copy in b.copies && b.copies[a.copy].source !in b.w.convs
    && !InTags(b.copies[a.copy].conv.turns, b.w.dir.names.Keys, {})
  }

  lemma TurnStepCovers(b: Box, a: Action)
    requires Inv(b) && AllCovered(b.w) && PendingCovered(b) && Next(b, a).Some?
    requires a.ToolTurn? || a.AddTurn? || a.FinishTurn? || a.CreateConversation?
    ensures AllCovered(Next(b, a).value.w) && PendingCovered(Next(b, a).value)
  {
    var w, b1 := b.w, Next(b, a).value;
    var w1 := b1.w;
    forall c ensures IdsOf(w1.convTags, c) == IdsOf(w.convTags, c) + if a.ToolTurn? && a.c == c then a.ids else {} {
      if a.ToolTurn? {
        AddRowsMeaning(w.convTags, a.c, a.ids, c);
      }
    }
    forall c | c in w1.convs ensures Covered(w1, c) {
      assert c in w.convs ==> Covered(w, c);
    }
    forall k | k in b1.copies && b1.copies[k].source in w1.convs
      ensures InTags(b1.copies[k].conv.turns, w1.dir.names.Keys, IdsOf(w1.convTags, b1.copies[k].source)) {
      assert PendingOk(b, k);
    }
  }

  lemma CopyStepCovers(b: Box, a: Action)
    requires Inv(b) && AllCovered(b.w) && PendingCovered(b) && Next(b, a).Some?
    requires (a.StartCopy? || a.FinishCopy? || a.AbortCopy?) && !FilesOrphan(b, a)
    ensures AllCovered(Next(b, a).value.w) && PendingCovered(Next(b, a).value)
  {
    var w, b1 := b.w, Next(b, a).value;
    var w1 := b1.w;
    if a.StartCopy? {
      assert Covered(w, a.c);
      CopyInTags(w.convs[a.c].turns, w.dir.names.Keys, IdsOf(w.convTags, a.c));
    }
    if a.FinishCopy? {
      FiledTags(b, a.copy);
    }
    forall c | c in w1.convs ensures Covered(w1, c) {
      assert c in w.convs ==> Covered(w, c);
    }
    forall k | k in b1.copies && b1.copies[k].source in w1.convs
      ensures InTags(b1.copies[k].conv.turns, w1.dir.names.Keys, IdsOf(w1.convTags, b1.copies[k].source)) {
      assert k in b.copies ==> PendingOk(b, k);
    }
  }

  /** The new row has the tags its source has now, and no other row's tags change. */
  lemma FiledTags(b: Box, copy: Cid)
    requires Inv(b) && Next(b, FinishCopy(copy)).Some?
    ensures var (w, w1, source) := (b.w, Next(b, FinishCopy(copy)).value.w, b.copies[copy].source);
      && IdsOf(w1.convTags, copy) == IdsOf(w.convTags, source)
      && (source !in w.convs ==> IdsOf(w.convTags, source) == {})
      && forall c | c != copy :: IdsOf(w1.convTags, c) == IdsOf(w.convTags, c)
  {
    var w, source := b.w, b.copies[copy].source;
    assert PendingOk(b, copy) && IdsOf(w.convTags, copy) == {};
    forall c ensures IdsOf(AddRows(w.convTags, copy, IdsOf(w.convTags, source)), c)
                     == IdsOf(w.convTags, c) + (if c == copy then IdsOf(w.convTags, source) else {}) {
      AddRowsMeaning(w.convTags, copy, IdsOf(w.convTags, source), c);
    }
  }

  lemma OtherStepCovers(b: Box, a: Action)
    requires Inv(b) && AllCovered(b.w) && PendingCovered(b) && Next(b, a).Some?
    requires !a.ToolTurn? && !a.AddTurn? && !a.FinishTurn? && !a.CreateConversation?
    requires !a.StartCopy? && !a.FinishCopy? && !a.AbortCopy?
    ensures AllCovered(Next(b, a).value.w) && PendingCovered(Next(b, a).value)
  {
    var w, b1 := b.w, Next(b, a).value;
    var w1 := b1.w;
    forall c | c in w1.convs ensures IdsOf(w.convTags, c) * w1.dir.names.Keys <= IdsOf(w1.convTags, c) {
      if a.DeleteEntitlement? {
        WithoutMeaning(w.convTags, a.e, c);
      } else if a.DeleteConversation? {
        WithoutKeyElsewhere(w.convTags, a.c, c);
      }
    }
    forall c | c in w1.convs ensures Covered(w1, c) {
      assert Covered(w, c) && IdsKnown(w.convs[c], b.issued);
      StaysInTags(w.convs[c].turns, w.dir.names.Keys, IdsOf(w.convTags, c), w1.dir.names.Keys, IdsOf(w1.convTags, c));
    }
    forall k | k in b1.copies && b1.copies[k].source in w1.convs
      ensures InTags(b1.copies[k].conv.turns, w1.dir.names.Keys, IdsOf(w1.convTags, b1.copies[k].source)) {
      assert IdsKnown(b.copies[k].conv, b.issued);
      var c := b.copies[k].source;
      StaysInTags(b.copies[k].conv.turns, w.dir.names.Keys, IdsOf(w.convTags, c), w1.dir.names.Keys,
                  IdsOf(w1.convTags, c));
    }
  }

  /** From a covered box, one step leaves some conversation uncovered exactly if it files an orphan. */
  lemma StepCoversIff(b: Box, a: Action)
    requires Inv(b) && AllCovered(b.w) && PendingCovered(b) && Next(b, a).Some?
    ensures AllCovered(Next(b, a).value.w) <==> !FilesOrphan(b, a)
    ensures !FilesOrphan(b, a) ==> PendingCovered(Next(b, a).value)
  {
    if FilesOrphan(b, a) {
      FiledTags(b, a.copy);
      assert !Covered(Next(b, a).value.w, a.copy);
    } else if a.ToolTurn? || a.AddTurn? || a.FinishTurn? || a.CreateConversation? {
      TurnStepCovers(b, a);
    } else if a.StartCopy? || a.FinishCopy? || a.AbortCopy? {
      CopyStepCovers(b, a);
    } else {
      OtherStepCovers(b, a);
    }
  }

  ghost predicate CoveredThroughout(b: Box, acts: seq<Action>)
    requires Exec(Next, b, acts).Some?
    decreases |acts|
  {
    AllCovered(b.w) && (acts != [] ==> CoveredThroughout(Next(b, acts[0]).value, acts[1..]))
  }

  ghost predicate NoOrphanFiled(b: Box, acts: seq<Action>)
    requires Exec(Next, b, acts).Some?
    decreases |acts|
  {
    acts != [] ==> !FilesOrphan(b, acts[0]) && NoOrphanFiled(Next(b, acts[0]).value, acts[1..])
  }

  lemma {:induction false} CoveredFrom(b: Box, acts: seq<Action>)
    requires Inv(b) && AllCovered(b.w) && PendingCovered(b) && Exec(Next, b, acts).Some?
    ensures CoveredThroughout(b, acts) <==> NoOrphanFiled(b, acts)
    decreases |acts|
  {
    if acts != [] {
      var b1 := Next(b, acts[0]).value;
      StepKeeps(b, acts[0]);
      StepCoversIff(b, acts[0]);
      if !FilesOrphan(b, acts[0]) {
        CoveredFrom(b1, acts[1..]);
      }
    }
  }

  /**
   Every conversation carries, at every point of a run, the live labels of all it retrieved,
   exactly when no copy is filed after its source was deleted between the two reads, with
   something live in the turns it had read.
   */
  lemma TagsKeptIffNoOrphan(b: Box, acts: seq<Action>)
    requires Fresh(b) && Exec(Next, b, acts).Some?
    ensures CoveredThroughout(b, acts) <==> NoOrphanFiled(b, acts)
  {
    CoveredFrom(b, acts);
  }

  /** A box whose one conversation, p's own and loose, has retrieved e in its one turn. */
  ghost predicate OneTagged(b: Box, p: Principal, c: Cid, e: Ent) {
    && b.w.convs == map[c := Conversation(Stamped(p), None, [Turn(0, Done, {e})])]
    && b.w.convTags == {(c, e)} && b.copies == map[] && c in b.issued.convs
    && e in b.w.dir.names && MayReadOwned(b.w.dir, p, Stamped(p))
  }

  lemma TagOne(b: Box, p: Principal, c: Cid, e: Ent)
    requires Fresh(b) && e in b.w.dir.names && MayReadOwned(b.w.dir, p, Stamped(p)) && c !in b.issued.convs
    ensures Next(b, CreateConversation(p, c, None)).Some?
    ensures var b1 := Next(b, CreateConversation(p, c, None)).value;
      && b1.issued.convs == b.issued.convs + {c}
      && Next(b1, ToolTurn(c, {e})).Some?
      && Next(b1, ToolTurn(c, {e})).value.issued == b1.issued
      && OneTagged(Next(b1, ToolTurn(c, {e})).value, p, c, e)
  {
    var b1 := Next(b, CreateConversation(p, c, None)).value;
    var b2 := Next(b1, ToolTurn(c, {e})).value;
    assert b1.w.convs[c].turns == [];
    assert b2.w.convs[c].turns == [Turn(0, Done, {e})];
    assert b2.w.convTags == {(c, e)};
  }

  lemma CopyOrphaned(b: Box, p: Principal, c: Cid, copy: Cid, e: Ent)
    requires OneTagged(b, p, c, e) && copy !in b.issued.convs && c != copy
    ensures Next(b, StartCopy(p, c, copy)).Some?
    ensures var b1 := Next(b, StartCopy(p, c, copy)).value;
      && b1.w == b.w
      && b1.copies == map[copy := Pending(c, Conversation(Stamped(p), None, [Turn(0, Done, {e})]))]
      && Next(b1, DeleteConversation(p, c)).Some?
      && var b2 := Next(b1, DeleteConversation(p, c)).value;
      && b2.copies == b1.copies && b2.w.convs == map[] && b2.w.convTags == {} && b2.w.dir == b.w.dir
  {
    assert FinishedTurns([Turn(0, Done, {e})], 0) == [Turn(0, Done, {e})] by {
      assert [Turn(0, Done, {e})][1..] == [];
    }
  }

  lemma OrphanFiled(b: Box, copy: Cid, made: Pending)
    requires b.copies == map[copy := made] && made.conv.stream == None && b.w.convs == map[] && b.w.convTags == {}
    ensures Next(b, FinishCopy(copy)).Some?
    ensures var w := Next(b, FinishCopy(copy)).value.w;
      copy in w.convs && w.convs[copy] == made.conv && w.convTags == {} && w.dir == b.w.dir
  {
    assert IdsOf(b.w.convTags, made.source) == {};
  }

  /** Such a run: the source goes while its copy is being made, and the copy is filed without a tag. */
  lemma OrphanLosesTags(b: Box, p: Principal, c: Cid, copy: Cid, e: Ent)
    requires Fresh(b) && e in b.w.dir.names && MayReadOwned(b.w.dir, p, Stamped(p))
    requires c !in b.issued.convs && copy !in b.issued.convs && c != copy
    ensures var acts := [CreateConversation(p, c, None), ToolTurn(c, {e}), StartCopy(p, c, copy),
                         DeleteConversation(p, c), FinishCopy(copy)];
      && Exec(Next, b, acts).Some?
      && var w := Exec(Next, b, acts).value.w;
      && copy in w.convs && w.convs[copy].turns == [Turn(0, Done, {e})] && e in w.dir.names
      && IdsOf(w.convTags, copy) == {}
  {
    TagOne(b, p, c, e);
    var b1 := Next(b, CreateConversation(p, c, None)).value;
    var b2 := Next(b1, ToolTurn(c, {e})).value;
    CopyOrphaned(b2, p, c, copy, e);
    var b3 := Next(b2, StartCopy(p, c, copy)).value;
    var b4 := Next(b3, DeleteConversation(p, c)).value;
    OrphanFiled(b4, copy, b4.copies[copy]);
    var b5 := Next(b4, FinishCopy(copy)).value;
    RunFive(b, CreateConversation(p, c, None), ToolTurn(c, {e}), StartCopy(p, c, copy),
            DeleteConversation(p, c), FinishCopy(copy), b1, b2, b3, b4, b5);
  }

  lemma RunFive(b: Box, a1: Action, a2: Action, a3: Action, a4: Action, a5: Action,
                b1: Box, b2: Box, b3: Box, b4: Box, b5: Box)
    requires Next(b, a1) == Some(b1) && Next(b1, a2) == Some(b2) && Next(b2, a3) == Some(b3)
    requires Next(b3, a4) == Some(b4) && Next(b4, a5) == Some(b5)
    ensures Exec(Next, b, [a1, a2, a3, a4, a5]) == Some(b5)
  {
    assert [a1, a2, a3, a4, a5][1..] == [a2, a3, a4, a5] && [a2, a3, a4, a5][1..] == [a3, a4, a5];
    assert [a3, a4, a5][1..] == [a4, a5] && [a4, a5][1..] == [a5];
    ExecOne(Next, b4, a5);
    assert Exec(Next, b3, [a4, a5]) == Some(b5);
    assert Exec(Next, b2, [a3, a4, a5]) == Some(b5);
    assert Exec(Next, b1, [a2, a3, a4, a5]) == Some(b5);
  }

  /** A duplication with nothing in between is the one change the two steps add up to. */
  lemma SoloDuplicate(b: Box, p: Principal, c: Cid, copy: Cid)
    requires c in b.w.convs && copy !in b.issued.convs && copy !in b.copies
    requires Linked(b.w) && MayManageConversation(b.w, p, c)
    ensures Exec(Next, b, [StartCopy(p, c, copy), FinishCopy(copy)])
         == Some(b.(w := AfterDuplicate(b.w, p, c, copy),
                    issued := b.issued.(convs := b.issued.convs + {copy})))
  {
    var b1 := Next(b, StartCopy(p, c, copy)).value;
    assert b1.copies - {copy} == b.copies;
    assert [StartCopy(p, c, copy), FinishCopy(copy)][1..] == [FinishCopy(copy)];
    ExecOne(Next, b1, FinishCopy(copy));
  }

  /** A duplicate stays in the stream and carries the very labels its history needs. */
  lemma DuplicateLaundersNothing(w: World, p: Principal, c: Cid, copy: Cid)
    requires c in w.convs && copy !in w.convs && Linked(w)
    ensures var w1 := AfterDuplicate(w, p, c, copy);
      && w1.convs[copy].stream == w.convs[c].stream && w1.convs[copy].owner == OwnerStamp(p.kind, p.key)
      && IdsOf(w1.convTags, copy) == IdsOf(w.convTags, c)
      && (forall k | k in w.convs :: w1.convs[k] == w.convs[k] && IdsOf(w1.convTags, k) == IdsOf(w.convTags, k))
      && |w1.convs[copy].turns| == |TerminalTurns(w.convs[c].turns)|
      && (forall i | 0 <= i < |w1.convs[copy].turns| ::
            w1.convs[copy].turns[i] == TerminalTurns(w.convs[c].turns)[i].(index := i))
  {
    FinishedTurnsKeep(w.convs[c].turns, 0);
    assert IdsOf(w.convTags, copy) == {};
    forall k ensures IdsOf(AddRows(w.convTags, copy, IdsOf(w.convTags, c)), k)
                     == IdsOf(w.convTags, k) + (if k == copy then IdsOf(w.convTags, c) else {}) {
      AddRowsMeaning(w.convTags, copy, IdsOf(w.convTags, c), k);
    }
  }

  /** A copy has, of its source, exactly the turns that are over: what waits or runs is left behind. */
  lemma CopyHasWhatIsOver(w: World, p: Principal, c: Cid, copy: Cid, t: Turn)
    requires c in w.convs && t in w.convs[c].turns
    ensures var turns := AfterDuplicate(w, p, c, copy).convs[copy].turns;
      (exists i: nat :: i < |turns| && turns[i] == t.(index := i)) <==> !t.state.Queued? && !t.state.Running?
  {
    var turns, over := AfterDuplicate(w, p, c, copy).convs[copy].turns, TerminalTurns(w.convs[c].turns);
    FinishedTurnsKeep(w.convs[c].turns, 0);
    if i: nat :| i < |turns| && turns[i] == t.(index := i) {
      assert over[i] in over && over[i].state == t.state;
    }
    if !t.state.Queued? && !t.state.Running? {
      assert t in over;
      var i: nat :| i < |over| && over[i] == t;
      assert turns[i] == t.(index := i);
    }
  }

  // ----- who can take which step, and what it leaves alone

  /** Copying, deleting and closing need the manager, and nothing but the rows named here stands in the way. */
  lemma WhoMayStep(b: Box, a: Action)
    ensures a.StartCopy? ==>
      (Next(b, a).Some? <==>
         a.c in b.w.convs && a.copy !in b.issued.convs && MayManageConversation(b.w, a.p, a.c))
    ensures a.DeleteConversation? ==>
      (Next(b, a).Some? <==> a.c in b.w.convs && MayManageConversation(b.w, a.p, a.c))
    ensures a.DeleteWorkstream? ==>
      (Next(b, a).Some? <==>
         && a.s in b.w.streams && MayManageWorkstream(b.w, a.p, a.s) && a.documents == 0
         && forall c | c in b.w.convs :: b.w.convs[c].stream != Some(a.s))
    ensures a.CreateConversation? ==>
      (Next(b, a).Some? <==> a.c !in b.issued.convs && (a.stream == None || a.stream.value in b.w.streams))
    ensures a.ToolTurn? ==> (Next(b, a).Some? <==> a.c in b.w.convs && a.ids <= b.w.dir.names.Keys)
    ensures a.AbortCopy? ==> (Next(b, a).Some? <==> a.copy in b.copies)
    ensures a.DeleteEntitlement? ==> (Next(b, a).Some? <==> a.e in b.w.dir.names)
    ensures a.CreateEntitlement? ==>
      (Next(b, a).Some? <==> a.e !in b.issued.ents && a.name !in b.w.dir.names.Values)
    ensures a.CreateWorkstream? ==> (Next(b, a).Some? <==> a.s !in b.issued.streams)
    ensures a.FinishTurn? ==> (Next(b, a).Some? <==> a.c in b.w.convs && a.i < |b.w.convs[a.c].turns|)
    ensures a.AddTurn? ==> (Next(b, a).Some? <==> a.c in b.w.convs)
    ensures a.PutShare? || a.DropShare? ==> Next(b, a).Some?
    ensures a.ChangeRegistry? ==>
      (Next(b, a).Some? <==> a.dir.names == b.w.dir.names && forall g | g in a.dir.grants :: g.0 in a.dir.names)
  {
  }

  /** Turns are only ever added at the end or ended where they stand, by the step that names them. */
  lemma TurnsOnlyGrow(b: Box, a: Action, c: Cid)
    requires Inv(b) && Next(b, a).Some? && c in b.w.convs && !(a.DeleteConversation? && a.c == c)
    ensures var (was, w1) := (b.w.convs[c], Next(b, a).value.w);
      && c in w1.convs && w1.convs[c].owner == was.owner && w1.convs[c].stream == was.stream
      && match a
         case AddTurn(d, state) =>
           w1.convs[c].turns == was.turns + if c == d then [Turn(NextIndex(was.turns), state, {})] else []
         case ToolTurn(d, ids) =>
           w1.convs[c].turns == was.turns + if c == d then [Turn(NextIndex(was.turns), Done, ids)] else []
         case FinishTurn(d, i, state) =>
           && |w1.convs[c].turns| == |was.turns|
           && forall k | 0 <= k < |was.turns| ::
                w1.convs[c].turns[k] == if c == d && k == i then was.turns[k].(state := state) else was.turns[k]
         case _ => w1.convs[c].turns == was.turns
  {
  }

  /**
   What is made belongs to whoever made it, a copy to whoever copied: they manage it, and
   nobody else does who does not administer content, own its stream or act for a service.
   */
  lemma MakerManages(b: Box, a: Action, p: Principal, other: Principal, c: Cid)
    requires Inv(b) && Next(b, a).Some? && p.kind != ServiceKind
    requires (exists stream :: a == CreateConversation(p, c, stream)) || (a == FinishCopy(c) && MadeBy(b, c, p))
    ensures var w1 := Next(b, a).value.w;
      && c in w1.convs && w1.convs[c].owner == OwnerStamp(p.kind, p.key) && MayManageConversation(w1, p, c)
      && (MayManageConversation(w1, other, c) ==>
            || SeesAll(w1.dir, other) || OwnerStamp(other.kind, other.key) == OwnerStamp(p.kind, p.key)
            || StreamOwned(w1, other, w1.convs[c], false))
  {
  }

  /** The copy in the making was started by p. */
  ghost predicate MadeBy(b: Box, copy: Cid, p: Principal) {
    copy in b.copies && b.copies[copy].conv.owner == OwnerStamp(p.kind, p.key)
  }

  lemma StartedBy(b: Box, p: Principal, c: Cid, copy: Cid)
    requires Next(b, StartCopy(p, c, copy)).Some?
    ensures MadeBy(Next(b, StartCopy(p, c, copy)).value, copy, p)
    ensures Next(b, StartCopy(p, c, copy)).value.w == b.w
  {
  }

  lemma StreamMakerManages(b: Box, p: Principal, s: Sid)
    requires Next(b, CreateWorkstream(p, s)).Some? && p.kind != ServiceKind
    ensures var w1 := Next(b, CreateWorkstream(p, s)).value.w;
      w1.streams == b.w.streams[s := Workstream(OwnerStamp(p.kind, p.key))] && MayManageWorkstream(w1, p, s)
  {
  }

  /** What each step makes of the tags of any one conversation. */
  lemma ConversationTagsMove(b: Box, a: Action, k: Cid)
    requires Inv(b) && Next(b, a).Some?
    ensures var (was, now) := (IdsOf(b.w.convTags, k), IdsOf(Next(b, a).value.w.convTags, k));
      match a
      case ToolTurn(c, ids) => now == was + if k == c then ids else {}
      case FinishCopy(copy) => now == if k == copy then IdsOf(b.w.convTags, b.copies[copy].source) else was
      case DeleteConversation(_, c) => now == if k == c then {} else was
      case DeleteEntitlement(e) => now == was - {e}
      case _ => now == was
  {
    match a
    case ToolTurn(c, ids) => AddRowsMeaning(b.w.convTags, c, ids, k);
    case FinishCopy(copy) => FiledTags(b, copy);
    case DeleteConversation(_, c) => KeyCleared(b.w.convTags, c, k);
    case DeleteEntitlement(e) => WithoutMeaning(b.w.convTags, e, k);
    case _ =>
  }

  /** And of those of any one stream, and of its wall. */
  lemma StreamTagsMove(b: Box, a: Action, k: Sid)
    requires Inv(b) && Next(b, a).Some?
    ensures var (was, now) := (IdsOf(b.w.streamTags, k), IdsOf(Next(b, a).value.w.streamTags, k));
      match a
      case ToolTurn(c, ids) => now == was + if b.w.convs[c].stream == Some(k) then ids else {}
      case DeleteWorkstream(_, s, _) => now == if k == s then {} else was
      case DeleteEntitlement(e) => now == was - {e}
      case _ => now == was
    ensures var (was, now) := (IdsOf(b.w.walls, k), IdsOf(Next(b, a).value.w.walls, k));
      match a
      case DeleteWorkstream(_, s, _) => now == if k == s then {} else was
      case DeleteEntitlement(e) => now == was - {e}
      case _ => now == was
  {
    match a
    case ToolTurn(c, ids) =>
      if b.w.convs[c].stream.Some? {
        AddRowsMeaning(b.w.streamTags, b.w.convs[c].stream.value, ids, k);
      }
    case DeleteWorkstream(_, s, _) =>
      KeyCleared(b.w.streamTags, s, k);
      KeyCleared(b.w.walls, s, k);
    case DeleteEntitlement(e) =>
      WithoutMeaning(b.w.streamTags, e, k);
      WithoutMeaning(b.w.walls, e, k);
    case _ =>
  }

  lemma KeyCleared(rows: Rows<nat>, gone: nat, k: nat)
    ensures IdsOf(WithoutKey(rows, gone), k) == if k == gone then {} else IdsOf(rows, k)
  {
    forall e: Ent ensures e in IdsOf(WithoutKey(rows, gone), k) <==> e in IdsOf(rows, k) && k != gone {
      SidesAgree(WithoutKey(rows, gone), k, e);
      SidesAgree(rows, k, e);
    }
  }

  /** The registry moves with entitlements and its own step, and nothing else. */
  lemma RegistryMoves(b: Box, a: Action)
    requires Next(b, a).Some?
    ensures var (was, now) := (b.w.dir, Next(b, a).value.w.dir);
      match a
      case CreateEntitlement(e, name) => now == was.(names := was.names[e := name])
      case DeleteEntitlement(e) =>
        && now.(names := was.names, grants := was.grants) == was
        && now.names == was.names - {e}
        && (forall g :: g in now.grants <==> g in was.grants && g.0 != e)
        && (forall g | g in now.grants :: now.grants[g] == was.grants[g])
      case ChangeRegistry(dir) => now == dir.(collate := was.collate)
      case _ => now == was
    ensures Next(b, a).value.w.streams ==
      match a
      case CreateWorkstream(p, s) => b.w.streams[s := Workstream(OwnerStamp(p.kind, p.key))]
      case DeleteWorkstream(_, s, _) => b.w.streams - {s}
      case _ => b.w.streams
  {
  }

  /** A share step touches its own row; no step but those and the deletions touches a share. */
  lemma SharesStay(b: Box, a: Action, key: ShareKey)
    requires Next(b, a).Some?
    ensures var (was, now) := (b.w.shares, Next(b, a).value.w.shares);
      match a
      case PutShare(k, level) => if k == key then key in now && now[key] == level else SameShare(was, now, key)
      case DropShare(k) => if k == key then key !in now else SameShare(was, now, key)
      case DeleteConversation(_, c) =>
        if key.0 == ConversationTarget && key.1 == Printed(c) then key !in now else SameShare(was, now, key)
      case DeleteWorkstream(_, s, _) =>
        if key.0 == WorkstreamTarget && key.1 == Printed(s) then key !in now else SameShare(was, now, key)
      case _ => SameShare(was, now, key)
  {
  }

  ghost predicate SameShare(was: map<ShareKey, Level>, now: map<ShareKey, Level>, key: ShareKey) {
    (key in now <==> key in was) && (key in was ==> now[key] == was[key])
  }

  /** Turns stand in the order of their indexes. */
  ghost predicate Increasing(turns: seq<Turn>) {
    forall i, j | 0 <= i < j < |turns| :: turns[i].index < turns[j].index
  }

  /** The next index is the first one above all that are taken. */
  lemma NextIndexIsFirstAbove(turns: seq<Turn>)
    requires Increasing(turns)
    ensures forall t | t in turns :: t.index < NextIndex(turns)
    ensures NextIndex(turns) == 0 <==> turns == []
    ensures turns != [] ==> exists t :: t in turns && t.index + 1 == NextIndex(turns)
  {
    if turns != [] {
      assert turns[|turns| - 1] in turns;
    }
  }

  ghost predicate InOrder(b: Box) {
    (forall c | c in b.w.convs :: Increasing(b.w.convs[c].turns))
    && (forall k | k in b.copies :: Increasing(b.copies[k].conv.turns))
  }

  lemma StepKeepsOrder(b: Box, a: Action)
    requires InOrder(b) && Next(b, a).Some?
    ensures InOrder(Next(b, a).value)
  {
    var b1 := Next(b, a).value;
    match a
    case StartCopy(p, c, copy) => CopyIncreases(b.w.convs[c].turns);
    case ToolTurn(c, ids) => AddedIncreases(b.w.convs[c].turns, Turn(NextIndex(b.w.convs[c].turns), Done, ids));
    case AddTurn(c, state) => AddedIncreases(b.w.convs[c].turns, Turn(NextIndex(b.w.convs[c].turns), state, {}));
    case _ =>
  }

  lemma CopyIncreases(turns: seq<Turn>)
    ensures Increasing(FinishedTurns(turns, 0))
  {
    FinishedTurnsKeep(turns, 0);
  }

  lemma AddedIncreases(turns: seq<Turn>, t: Turn)
    requires Increasing(turns) && t.index == NextIndex(turns)
    ensures Increasing(turns + [t])
  {
    forall i | 0 <= i < |turns| ensures turns[i].index < t.index {
      assert turns[i] == turns[|turns| - 1] || turns[i].index < turns[|turns| - 1].index;
    }
  }

  /** No two turns of a conversation ever share an index, copies included. */
  lemma {:induction false} RunKeepsOrder(b: Box, acts: seq<Action>)
    requires InOrder(b) && Exec(Next, b, acts).Some?
    ensures InOrder(Exec(Next, b, acts).value)
    decreases |acts|
  {
    if acts != [] {
      StepKeepsOrder(b, acts[0]);
      RunKeepsOrder(Next(b, acts[0]).value, acts[1..]);
    }
  }
}

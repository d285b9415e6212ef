/**
 Conversations, workstreams, shares and taint tags: who sees, posts to and manages what,
 and the two gates a shared workstream has.
 */
module Workspaces {
  import opened Collections
  import opened Common
  import opened Names
  import opened Directory
  import opened Tables

  type Cid = nat
  type Sid = nat

  datatype TurnState = Queued | Running | Done | Failed | Cancelled

  /** material: the labels the turn's own references resolved to when it was stored. */
  datatype Turn = Turn(index: nat, state: TurnState, material: set<Ent>)

  /** turns is in index order; stream is stamped at creation and has no setter. */
  datatype Conversation = Conversation(owner: OwnerStamp, stream: Option<Sid>, turns: seq<Turn>)

  datatype Workstream = Workstream(owner: OwnerStamp)

  datatype Target = ConversationTarget | WorkstreamTarget | OtherTarget

  datatype Level = View | Use

  /**
   A share's target key is text: the target's key as it prints itself, another spelling the
   target's parser still reads, or something it does not read at all.
   */
  datatype KeyText = Printed(pk: nat) | Variant(pk: nat, spelling: nat) | Unreadable(spelling: nat)

  /** What a share row is on, and whom it names. */
  type ShareKey = (Target, KeyText, Subject)

  datatype World = World(
    dir: Registry,
    convs: map<Cid, Conversation>,
    streams: map<Sid, Workstream>,
    convTags: Rows<Cid>,
    streamTags: Rows<Sid>,
    walls: Rows<Sid>,
    shares: map<ShareKey, Level>)

  /** Foreign keys resolve; a stream still holding conversations cannot go (PROTECT). */
  ghost predicate Linked(w: World) {
    && RegistryOk(w.dir)
    && (forall c | c in w.convs && w.convs[c].stream.Some? :: w.convs[c].stream.value in w.streams)
    && (forall r | r in w.convTags :: r.0 in w.convs && r.1 in w.dir.names)
    && (forall r | r in w.streamTags :: r.0 in w.streams && r.1 in w.dir.names)
  }

  // ----- shares

  function Parse(k: KeyText): Option<nat> {
    match k
    case Printed(pk) => Some(pk)
    case Variant(pk, _) => Some(pk)
    case Unreadable(_) => None
  }

  /** The shares left when those of one target go, found by its printed pk. */
  function WithoutShares(shares: map<ShareKey, Level>, target: Target, pk: nat): map<ShareKey, Level> {
    map k | k in shares && !(k.0 == target && k.1 == Printed(pk)) :: shares[k]
  }

  /** A share row of the target under this key reaches the principal, at this level. */
  ghost predicate SharedAt(w: World, p: Principal, target: Target, key: KeyText, level: Level) {
    exists s :: s in w.shares && s.0 == target && s.1 == key && Reaches(w.dir, s.2, p) && w.shares[s] == level
  }

  /** The level is `use` if any row says so, `view` if only rows of that level do, and nothing without a row. */
  lemma LevelTells(w: World, p: Principal, target: Target, key: KeyText)
    ensures ShareLevel(w, p, target, key) == Some(Use) <==> SharedAt(w, p, target, key, Use)
    ensures ShareLevel(w, p, target, key) == Some(View) <==>
      SharedAt(w, p, target, key, View) && !SharedAt(w, p, target, key, Use)
    ensures Parse(key).Some? ==> (key in SharedKeys(w, p, target) <==> ShareLevel(w, p, target, key).Some?)
  {
    if Parse(key).Some? && key in SharedKeys(w, p, target) {
      var s :| s in w.shares && s.0 == target && Reaches(w.dir, s.2, p) && s.1 == key;
      assert SharedAt(w, p, target, key, w.shares[s]);
      assert w.shares[s] == Use || w.shares[s] == View;
    }
  }

  lemma SharedAtLeft(w: World, p: Principal, target: Target, pk: nat, other: Target, key: KeyText, level: Level)
    ensures SharedAt(w.(shares := WithoutShares(w.shares, target, pk)), p, other, key, level)
      <==> SharedAt(w, p, other, key, level) && (other, key) != (target, Printed(pk))
  {
    var left := w.(shares := WithoutShares(w.shares, target, pk));
    if SharedAt(w, p, other, key, level) && (other, key) != (target, Printed(pk)) {
      var s :| s in w.shares && s.0 == other && s.1 == key && Reaches(w.dir, s.2, p) && w.shares[s] == level;
      assert s in left.shares;
    }
  }

  /** One target's shares go, whoever they name, by its printed pk; every other share stays as it was. */
  lemma WithoutSharesLeaves(w: World, p: Principal, target: Target, pk: nat, other: Target, key: KeyText)
    ensures var left := w.(shares := WithoutShares(w.shares, target, pk));
      ShareLevel(left, p, other, key)
      == if (other, key) == (target, Printed(pk)) then None else ShareLevel(w, p, other, key)
  {
    var left := w.(shares := WithoutShares(w.shares, target, pk));
    SharedAtLeft(w, p, target, pk, other, key, Use);
    SharedAtLeft(w, p, target, pk, other, key, View);
    LevelTells(left, p, other, key);
    LevelTells(w, p, other, key);
  }

  /** The keys `shared_keys` returns: rows reaching the principal, unreadable ones dropped. */
  function SharedKeys(w: World, p: Principal, target: Target): set<KeyText> {
    set s | s in w.shares && s.0 == target && Reaches(w.dir, s.2, p) && Parse(s.1).Some? :: s.1
  }

  /** The pks a `pk__in=shared_keys(...)` clause matches. */
  function SharedPks(w: World, p: Principal, target: Target): set<nat> {
    set k | k in SharedKeys(w, p, target) :: Parse(k).value
  }

  /** The widest level wins. */
  function ShareLevel(w: World, p: Principal, target: Target, key: KeyText): Option<Level> {
    if exists s :: s in w.shares && s.0 == target && s.1 == key && Reaches(w.dir, s.2, p) && w.shares[s] == Use
    then Some(Use)
    else if exists s :: s in w.shares && s.0 == target && s.1 == key && Reaches(w.dir, s.2, p) && w.shares[s] == View
    then Some(View)
    else None
  }

  /** The rows whose key reads as a number, in their order. */
  function ReadableKeys(rows: seq<KeyText>): seq<KeyText> {
    if rows == [] then []
    else (if Parse(rows[0]).Some? then [rows[0]] else []) + ReadableKeys(rows[1..])
  }

  lemma {:induction false} ReadableKeysMember(rows: seq<KeyText>, k: KeyText)
    ensures k in ReadableKeys(rows) <==> k in rows && Parse(k).Some?
  {
    if rows != [] {
      ReadableKeysMember(rows[1..], k);
      assert rows == [rows[0]] + rows[1..];
    }
  }

  lemma {:induction false} ReadableKeysInOrder(rows: seq<KeyText>, more: seq<KeyText>)
    ensures ReadableKeys(rows + more) == ReadableKeys(rows) + ReadableKeys(more)
  {
    if rows == [] {
      assert rows + more == more;
    } else {
      assert (rows + more)[1..] == rows[1..] + more && (rows + more)[0] == rows[0];
      ReadableKeysInOrder(rows[1..], more);
      var first := if Parse(rows[0]).Some? then [rows[0]] else [];
      ConcatAssoc(first, ReadableKeys(rows[1..]), ReadableKeys(more));
    }
  }

  /** The loop of `shared_keys`, over the rows in query order: the readable keys, in that order. */
  method CollectSharedKeys(rows: seq<KeyText>) returns (out: seq<KeyText>)
    ensures out == ReadableKeys(rows)
    ensures forall k :: k in out <==> k in rows && Parse(k).Some?
  {
    out := [];
    for i := 0 to |rows|
      invariant ReadableKeys(rows) == out + ReadableKeys(rows[i..])
    {
      assert rows[i..][1..] == rows[i + 1..];
      if Parse(rows[i]).Some? {
        ConcatAssoc(out, [rows[i]], ReadableKeys(rows[i + 1..]));
        out := out + [rows[i]];
      }
    }
    forall k ensures k in ReadableKeys(rows) <==> k in rows && Parse(k).Some? {
      ReadableKeysMember(rows, k);
    }
  }

  // ----- who sees, posts to and manages a conversation

  predicate StreamOwned(w: World, p: Principal, c: Conversation, form: bool) {
    c.stream.Some? && c.stream.value in w.streams
    && if form then InOwnedRows(w.dir, p, w.streams[c.stream.value].owner)
       else MayReadOwned(w.dir, p, w.streams[c.stream.value].owner)
  }

  /** The queryset `visible_conversations`. */
  function VisibleConversations(w: World, p: Principal): set<Cid> {
    set c | c in w.convs &&
      (|| SeesAll(w.dir, p)
       || InOwnedRows(w.dir, p, w.convs[c].owner)
       || c in SharedPks(w, p, ConversationTarget)
       || (w.convs[c].stream.Some? && w.convs[c].stream.value in SharedPks(w, p, WorkstreamTarget))
       || StreamOwned(w, p, w.convs[c], true))
  }

  predicate MayPostTo(w: World, p: Principal, c: Cid)
    requires c in w.convs
  {
    || SeesAll(w.dir, p)
    || MayReadOwned(w.dir, p, w.convs[c].owner)
    || ShareLevel(w, p, ConversationTarget, Printed(c)) == Some(Use)
    || (w.convs[c].stream.Some? && Printed(w.convs[c].stream.value) in SharedKeys(w, p, WorkstreamTarget))
    || StreamOwned(w, p, w.convs[c], false)
  }

  predicate MayManageConversation(w: World, p: Principal, c: Cid)
    requires c in w.convs
  {
    || SeesAll(w.dir, p)
    || MayReadOwned(w.dir, p, w.convs[c].owner)
    || StreamOwned(w, p, w.convs[c], false)
  }

  function VisibleWorkstreams(w: World, p: Principal): set<Sid> {
    set s | s in w.streams &&
      (|| SeesAll(w.dir, p)
       || InOwnedRows(w.dir, p, w.streams[s].owner)
       || s in SharedPks(w, p, WorkstreamTarget))
  }

  predicate MayManageWorkstream(w: World, p: Principal, s: Sid)
    requires s in w.streams
  {
    SeesAll(w.dir, p) || MayReadOwned(w.dir, p, w.streams[s].owner)
  }

  /** The stamp is this principal's own, and no service's. */
  predicate IsOwn(p: Principal, row: OwnerStamp) {
    row.kind != ServiceKind && row == OwnerStamp(p.kind, p.key)
  }

  /** The owner stamps that decide managing: the conversation's, and its stream's if it has one. */
  ghost predicate Decides(w: World, c: Cid, row: OwnerStamp)
    requires c in w.convs
  {
    var conv := w.convs[c];
    row == conv.owner
    || (conv.stream.Some? && conv.stream.value in w.streams && row == w.streams[conv.stream.value].owner)
  }

  /**
   Managing a conversation is owning it or its stream, a service's row counting as every
   administrator's. Nothing else makes it so: no share, no tag, no wall, no other row.
   */
  lemma ManageIffOwned(w: World, p: Principal, c: Cid)
    requires c in w.convs && !SeesAll(w.dir, p)
    ensures MayManageConversation(w, p, c) <==>
      exists row :: Decides(w, c, row) && (IsOwn(p, row) || (row.kind == ServiceKind && IsAdmin(w.dir, p)))
  {
    var conv := w.convs[c];
    assert Decides(w, c, conv.owner);
    if conv.stream.Some? && conv.stream.value in w.streams {
      assert Decides(w, c, w.streams[conv.stream.value].owner);
    }
  }

  /** Shares, tags and walls never decide who manages, of conversations or of streams. */
  lemma SharesNeverManage(w: World, p: Principal, other: World)
    requires other.dir == w.dir && other.convs == w.convs && other.streams == w.streams
    ensures forall c | c in w.convs :: MayManageConversation(w, p, c) == MayManageConversation(other, p, c)
    ensures forall s | s in w.streams :: MayManageWorkstream(w, p, s) == MayManageWorkstream(other, p, s)
  {
  }

  /** A person or an agent to whom a thread is merely shared manages neither it nor its stream. */
  lemma RecipientDoesNotManage(w: World, p: Principal, c: Cid)
    requires c in w.convs && !SeesAll(w.dir, p) && !IsAdmin(w.dir, p)
    requires w.convs[c].owner != OwnerStamp(p.kind, p.key)
    requires forall s | w.convs[c].stream == Some(s) && s in w.streams ::
      w.streams[s].owner != OwnerStamp(p.kind, p.key)
    ensures !MayManageConversation(w, p, c)
    ensures forall s | w.convs[c].stream == Some(s) && s in w.streams :: !MayManageWorkstream(w, p, s)
  {
  }

  /** Streams are managed by the same rule. */
  lemma ManageStreamIffOwned(w: World, p: Principal, s: Sid)
    requires s in w.streams
    ensures MayManageWorkstream(w, p, s) <==>
      || SeesAll(w.dir, p)
      || IsOwn(p, w.streams[s].owner)
      || (w.streams[s].owner.kind == ServiceKind && IsAdmin(w.dir, p))
  {
  }

  /**
   Posting is managing, or a use-level share of the thread, or any share of its stream: a
   stream's share lets its recipients write in every thread of it.
   */
  lemma PostIff(w: World, p: Principal, c: Cid)
    requires c in w.convs
    ensures MayPostTo(w, p, c) <==>
      || MayManageConversation(w, p, c)
      || SharedAt(w, p, ConversationTarget, Printed(c), Use)
      || (w.convs[c].stream.Some?
          && exists level :: SharedAt(w, p, WorkstreamTarget, Printed(w.convs[c].stream.value), level))
  {
    LevelTells(w, p, ConversationTarget, Printed(c));
    if w.convs[c].stream.Some? {
      var key := Printed(w.convs[c].stream.value);
      LevelTells(w, p, WorkstreamTarget, key);
      if level :| SharedAt(w, p, WorkstreamTarget, key, level) {
        assert level == Use || level == View;
      }
    }
  }

  /** A stream is listed for whoever manages it, for a service that owns it, and for those a share reaches. */
  lemma StreamListedIff(w: World, p: Principal, s: Sid)
    requires s in w.streams
    ensures s in VisibleWorkstreams(w, p) <==>
      || MayManageWorkstream(w, p, s)
      || w.streams[s].owner == OwnerStamp(p.kind, p.key)
      || exists key :: key in SharedKeys(w, p, WorkstreamTarget) && Parse(key) == Some(s)
  {
    OwnedFormsDiffer(w.dir, p, w.streams[s].owner);
    if s in SharedPks(w, p, WorkstreamTarget) {
      SharedBySomeKey(w, p, WorkstreamTarget, s);
    }
    if key :| key in SharedKeys(w, p, WorkstreamTarget) && Parse(key) == Some(s) {
      assert Parse(key).value in SharedPks(w, p, WorkstreamTarget);
    }
  }

  lemma PrintedShared(w: World, p: Principal, target: Target, key: KeyText, s: ShareKey)
    requires s in w.shares && s.0 == target && s.1 == key && Reaches(w.dir, s.2, p) && Parse(key).Some?
    ensures key in SharedKeys(w, p, target) && Parse(key).value in SharedPks(w, p, target)
  {
    assert key in SharedKeys(w, p, target);
  }

  /** Manageable, then postable, then visible: each allows no less than the one before. */
  lemma ManageablePostableVisible(w: World, p: Principal, c: Cid)
    requires c in w.convs
    ensures MayManageConversation(w, p, c) ==> MayPostTo(w, p, c)
    ensures MayPostTo(w, p, c) ==> c in VisibleConversations(w, p)
  {
    var conv := w.convs[c];
    OwnedFormsDiffer(w.dir, p, conv.owner);
    if StreamOwned(w, p, conv, false) {
      OwnedFormsDiffer(w.dir, p, w.streams[conv.stream.value].owner);
    }
    if ShareLevel(w, p, ConversationTarget, Printed(c)) == Some(Use) {
      var s :| s in w.shares && s.0 == ConversationTarget && s.1 == Printed(c)
        && Reaches(w.dir, s.2, p) && w.shares[s] == Use;
      PrintedShared(w, p, ConversationTarget, Printed(c), s);
    }
    if conv.stream.Some? && Printed(conv.stream.value) in SharedKeys(w, p, WorkstreamTarget) {
      assert conv.stream.value in SharedPks(w, p, WorkstreamTarget);
    }
  }

  /** Why a conversation can be visible and still closed to new turns. */
  datatype Reason = ViewShare | OddSpelling | OwnServiceRow

  ghost predicate Explains(w: World, p: Principal, c: Cid, why: Reason)
    requires c in w.convs
  {
    var conv := w.convs[c];
    match why
    case ViewShare => ShareLevel(w, p, ConversationTarget, Printed(c)) == Some(View)
    case OddSpelling =>
      || (exists k :: k in SharedKeys(w, p, ConversationTarget) && k.Variant? && k.pk == c)
      || (conv.stream.Some? && exists k :: k in SharedKeys(w, p, WorkstreamTarget) && k.Variant?
                                           && k.pk == conv.stream.value)
    case OwnServiceRow =>
      p.kind == ServiceKind &&
      (|| conv.owner == OwnerStamp(p.kind, p.key)
       || (conv.stream.Some? && conv.stream.value in w.streams
           && w.streams[conv.stream.value].owner == OwnerStamp(p.kind, p.key)))
  }

  /**
   The gap between reading and posting is fully accounted for: a view-level share, a share
   row whose key is not the target's own spelling, or a service principal's own row.
   */
  lemma VisibleNotPostableIff(w: World, p: Principal, c: Cid)
    requires c in w.convs && !MayPostTo(w, p, c)
    ensures c in VisibleConversations(w, p) <==> exists why :: Explains(w, p, c, why)
  {
    var conv := w.convs[c];
    OwnedFormsDiffer(w.dir, p, conv.owner);
    if conv.stream.Some? && conv.stream.value in w.streams {
      OwnedFormsDiffer(w.dir, p, w.streams[conv.stream.value].owner);
    }
    if c in VisibleConversations(w, p) {
      if c in SharedPks(w, p, ConversationTarget) {
        SharedBySomeKey(w, p, ConversationTarget, c);
        var k :| k in SharedKeys(w, p, ConversationTarget) && Parse(k) == Some(c);
        assert Explains(w, p, c, if k.Variant? then OddSpelling else ViewShare) by {
          if k == Printed(c) {
            var s :| s in w.shares && s.0 == ConversationTarget && Reaches(w.dir, s.2, p) && s.1 == k;
            assert w.shares[s] == View;
          }
        }
      } else if conv.stream.Some? && conv.stream.value in SharedPks(w, p, WorkstreamTarget) {
        SharedBySomeKey(w, p, WorkstreamTarget, conv.stream.value);
        var k :| k in SharedKeys(w, p, WorkstreamTarget) && Parse(k) == Some(conv.stream.value);
        assert k.Variant?;
        assert Explains(w, p, c, OddSpelling);
      } else {
        assert Explains(w, p, c, OwnServiceRow);
      }
    }
    if why :| Explains(w, p, c, why) {
      VisibleWhy(w, p, c, why);
    }
  }

  lemma SharedBySomeKey(w: World, p: Principal, target: Target, pk: nat)
    requires pk in SharedPks(w, p, target)
    ensures exists k :: k in SharedKeys(w, p, target) && Parse(k) == Some(pk)
  {
    var k :| k in SharedKeys(w, p, target) && Parse(k).value == pk;
    assert Parse(k).Some?;
  }

  lemma VisibleWhy(w: World, p: Principal, c: Cid, why: Reason)
    requires c in w.convs && Explains(w, p, c, why)
    ensures c in VisibleConversations(w, p)
  {
    var conv := w.convs[c];
    match why
    case ViewShare =>
      var s :| s in w.shares && s.0 == ConversationTarget && s.1 == Printed(c) && Reaches(w.dir, s.2, p);
      PrintedShared(w, p, ConversationTarget, Printed(c), s);
    case OddSpelling =>
      if k :| k in SharedKeys(w, p, ConversationTarget) && k.Variant? && k.pk == c {
        assert Parse(k).value in SharedPks(w, p, ConversationTarget);
      } else {
        var k :| k in SharedKeys(w, p, WorkstreamTarget) && k.Variant? && k.pk == conv.stream.value;
        assert Parse(k).value in SharedPks(w, p, WorkstreamTarget);
      }
    case OwnServiceRow =>
  }

  // ----- naming what is missing

  const NAME_CAP := 5

  /** `name_for_viewer`: what is named, and how many are only counted. */
  function NameForViewer(d: Registry, missing: set<Ent>, viewer: Principal, discloseAll: bool): (Named, nat) {
    if discloseAll then
      var named := EntitlementNames(d.collate, d.names, missing);
      if |named| > NAME_CAP then (named[..NAME_CAP], |named| - NAME_CAP) else (named, 0)
    else
      (EntitlementNames(d.collate, d.names, missing * Held(d, viewer)), |missing - Held(d, viewer)|)
  }

  lemma SplitCount(a: set<Ent>, b: set<Ent>)
    ensures |a * b| + |a - b| == |a|
    ensures a - b == {} <==> a <= b
  {
    assert a == a * b + (a - b);
    if a - b == {} {
      forall x | x in a ensures x in b {
        assert x !in a - b;
      }
    }
  }

  /** Nobody is told a name they do not hold, and nothing existing is left out of the count. */
  lemma NamingDisclosesOnlyHeld(d: Registry, missing: set<Ent>, viewer: Principal)
    requires missing <= d.names.Keys
    ensures var (named, rest) := NameForViewer(d, missing, viewer, false);
      && (forall i | 0 <= i < |named| :: named[i].0 in missing && named[i].0 in Held(d, viewer))
      && ListsOnce(d.names, missing * Held(d, viewer), named)
      && |named| + rest == |missing|
  {
    var held := Held(d, viewer);
    SplitCount(missing, held);
    assert missing * held * d.names.Keys == missing * held;
    var named := EntitlementNames(d.collate, d.names, missing * held);
    assert |named| == |missing * held|;
    assert forall i | 0 <= i < |named| :: named[i].0 in missing * held * d.names.Keys;
  }

  /** Naming everything still stops at the cap, the remainder being counted. */
  lemma NamingIsCapped(d: Registry, missing: set<Ent>, viewer: Principal)
    requires missing <= d.names.Keys
    ensures var (named, rest) := NameForViewer(d, missing, viewer, true);
      && named <= EntitlementNames(d.collate, d.names, missing)
      && |named| == (if |missing| < 5 then |missing| else 5) && |named| + rest == |missing|
  {
    assert missing * d.names.Keys == missing;
  }

  /** At gate two the default mode would name nothing at all, whoever asks. */
  lemma RecipientWouldBeToldNothing(d: Registry, tags: set<Ent>, viewer: Principal)
    ensures NameForViewer(d, tags - Held(d, viewer), viewer, false).0 == []
    ensures NameForViewer(d, tags - Held(d, viewer), viewer, false).1 == |tags - Held(d, viewer)|
  {
    var held := Held(d, viewer);
    assert (tags - held) * held == {};
    assert (tags - held) - held == tags - held;
  }

  // ----- the two gates

  datatype StreamAccess = StreamAccess(ok: bool, missing: set<Ent>, named: Named, unnamed: nat, isOwner: bool)

  /** Gate two, run at every read by somebody who does not manage the stream. */
  function ReadGate(w: World, p: Principal, s: Sid): StreamAccess
    requires s in w.streams
  {
    if MayManageWorkstream(w, p, s) then StreamAccess(true, {}, [], 0, true)
    else
      var missing := IdsOf(w.streamTags, s) - Held(w.dir, p);
      if missing == {} then StreamAccess(true, {}, [], 0, false)
      else
        var (named, rest) := NameForViewer(w.dir, missing, p, true);
        StreamAccess(false, missing, named, rest, false)
  }

  datatype ShareOutcome =
    | NotAllowed
    | Refused(missing: set<Ent>, named: Named, unnamed: nat)
    | Shared(subject: Subject)

  /** Gate one, with the share row `update_or_create` then leaves. */
  function ShareGate(w: World, p: Principal, s: Sid, user: Option<nat>, group: Option<nat>, level: Level): ShareOutcome
    requires s in w.streams
  {
    if !MayManageWorkstream(w, p, s) then NotAllowed
    else if user.Some? == group.Some? then NotAllowed
    else if level != Use then Refused({}, [], 0)
    else
      var subject := if user.Some? then User(user.value) else Group(group.value);
      var missing := IdsOf(w.streamTags, s) - SubjectHolds(w.dir, subject);
      if missing == {} then Shared(subject)
      else
        var (named, rest) := NameForViewer(w.dir, missing, p, false);
        Refused(missing, named, rest)
  }

  function AfterShare(w: World, s: Sid, subject: Subject): World {
    w.(shares := w.shares[(WorkstreamTarget, Printed(s), subject) := Use])
  }

  /**
   Gate one implies gate two: whoever an accepted share reaches -- the account itself, or
   any member of the group -- now lists the stream and passes the read gate.
   */
  lemma AcceptedShareReads(w: World, sharer: Principal, s: Sid, user: Option<nat>, group: Option<nat>,
                           level: Level, reader: Principal)
    requires s in w.streams && ShareGate(w, sharer, s, user, group, level).Shared?
    requires Reaches(w.dir, ShareGate(w, sharer, s, user, group, level).subject, reader)
    ensures var w1 := AfterShare(w, s, ShareGate(w, sharer, s, user, group, level).subject);
      && s in VisibleWorkstreams(w1, reader)
      && ReadGate(w1, reader, s).ok
      && ShareLevel(w1, reader, WorkstreamTarget, Printed(s)) == Some(Use)
      && (forall c | c in w1.convs && w1.convs[c].stream == Some(s) ::
            c in VisibleConversations(w1, reader) && MayPostTo(w1, reader, c))
  {
    var subject := ShareGate(w, sharer, s, user, group, level).subject;
    var w1 := AfterShare(w, s, subject);
    SubjectGrantsReach(w.dir, subject, reader);
    var row := (WorkstreamTarget, Printed(s), subject);
    assert row in w1.shares;
    PrintedShared(w1, reader, WorkstreamTarget, Printed(s), row);
    assert IdsOf(w1.streamTags, s) - Held(w1.dir, reader) == {};
  }

  /**
   The gates ask one question of two sets: a share is accepted exactly when the subject's
   own grants cover the tags, and a reader passes exactly when theirs do.
   */
  lemma GatesAreExact(w: World, p: Principal, s: Sid, user: Option<nat>, group: Option<nat>, level: Level)
    requires s in w.streams
    ensures ReadGate(w, p, s).ok <==> MayManageWorkstream(w, p, s) || IdsOf(w.streamTags, s) <= Held(w.dir, p)
    ensures ReadGate(w, p, s).missing == {} <==> ReadGate(w, p, s).ok
    ensures ShareGate(w, p, s, user, group, level).Shared? <==>
      && MayManageWorkstream(w, p, s) && level == Use
      && ((user.Some? && group.None? && IdsOf(w.streamTags, s) <= SubjectHolds(w.dir, User(user.value)))
          || (user.None? && group.Some? && IdsOf(w.streamTags, s) <= SubjectHolds(w.dir, Group(group.value))))
  {
    SplitCount(IdsOf(w.streamTags, s), Held(w.dir, p));
    forall subject ensures IdsOf(w.streamTags, s) - SubjectHolds(w.dir, subject) == {}
                           <==> IdsOf(w.streamTags, s) <= SubjectHolds(w.dir, subject) {
      SplitCount(IdsOf(w.streamTags, s), SubjectHolds(w.dir, subject));
    }
  }

  /**
   What a reader is told at gate two: nothing when they pass, and when they do not, the missing
   tags are named in name order up to the cap whether or not they hold anything, the rest counted.
   */
  lemma ReadGateSays(w: World, p: Principal, s: Sid)
    requires s in w.streams && Linked(w)
    ensures var gate := ReadGate(w, p, s);
      && gate.isOwner == MayManageWorkstream(w, p, s)
      && (gate.ok ==> gate.missing == {} && gate.named == [] && gate.unnamed == 0)
      && (!gate.ok ==>
            && gate.missing == IdsOf(w.streamTags, s) - Held(w.dir, p)
            && gate.named <= EntitlementNames(w.dir.collate, w.dir.names, gate.missing)
            && |gate.named| == (if |gate.missing| < 5 then |gate.missing| else 5)
            && |gate.named| + gate.unnamed == |gate.missing|)
  {
    TagsAreNamed(w, s);
    NamingIsCapped(w.dir, IdsOf(w.streamTags, s) - Held(w.dir, p), p);
  }

  lemma TagsAreNamed(w: World, s: Sid)
    requires Linked(w)
    ensures IdsOf(w.streamTags, s) <= w.dir.names.Keys
  {
  }

  /**
   What a sharer is told at gate one: who may not share, or names both or neither, is told
   nothing; a level other than `use` is refused without names; else the tags the subject lacks
   are the reason, those the sharer holds by name and the others by number.
   */
  lemma ShareGateSays(w: World, p: Principal, s: Sid, user: Option<nat>, group: Option<nat>, level: Level)
    requires s in w.streams && Linked(w)
    ensures var outcome := ShareGate(w, p, s, user, group, level);
      && (outcome == NotAllowed <==> !MayManageWorkstream(w, p, s) || user.Some? == group.Some?)
      && (outcome.Shared? ==> outcome.subject == if user.Some? then User(user.value) else Group(group.value))
      && (outcome.Refused? && level != Use ==> outcome == Refused({}, [], 0))
      && (outcome.Refused? && level == Use ==>
            var subject := if user.Some? then User(user.value) else Group(group.value);
            && outcome.missing == IdsOf(w.streamTags, s) - SubjectHolds(w.dir, subject) && outcome.missing != {}
            && ListsOnce(w.dir.names, outcome.missing * Held(w.dir, p), outcome.named)
            && |outcome.named| + outcome.unnamed == |outcome.missing|)
  {
    TagsAreNamed(w, s);
    if user.Some? != group.Some? {
      var subject := if user.Some? then User(user.value) else Group(group.value);
      NamingDisclosesOnlyHeld(w.dir, IdsOf(w.streamTags, s) - SubjectHolds(w.dir, subject), p);
    }
  }

  // ----- the batched readers

  /** The listed streams that are dormant for p: one fold over the tag rows of recipient streams. */
  method DormantRecipientWorkstreams(w: World, listed: seq<Sid>, p: Principal) returns (dormant: set<Sid>)
    requires forall s | s in listed :: s in w.streams
    ensures forall s :: s in dormant <==> s in listed && !ReadGate(w, p, s).ok
  {
    var recipients: set<Sid> := {};
    for i := 0 to |listed|
      invariant forall s :: s in recipients <==> s in listed[..i] && !MayManageWorkstream(w, p, s)
    {
      assert listed[..i + 1] == listed[..i] + [listed[i]];
      if !MayManageWorkstream(w, p, listed[i]) {
        recipients := recipients + {listed[i]};
      }
    }
    assert listed[..|listed|] == listed;
    if recipients == {} {
      return {};
    }
    var held := Held(w.dir, p);
    var tags := EntitlementIdsByKey(RowsOf(w.streamTags, recipients));
    dormant := set s | s in tags && tags[s] - held != {};
    forall s | s in listed ensures s in dormant <==> !ReadGate(w, p, s).ok {
      GatesAreExact(w, p, s, None, None, Use);
      SplitCount(IdsOf(w.streamTags, s), held);
      RowsOfIds(w.streamTags, recipients, s);
    }
    forall s | s in dormant ensures s in listed {
      RowsOfIds(w.streamTags, recipients, s);
    }
  }

  function RowsOf(rows: Rows<nat>, keys: set<nat>): Rows<nat> {
    set r | r in rows && r.0 in keys
  }

  lemma RowsOfIds(rows: Rows<nat>, keys: set<nat>, k: nat)
    ensures IdsOf(RowsOf(rows, keys), k) == if k in keys then IdsOf(rows, k) else {}
  {
    forall e ensures e in IdsOf(RowsOf(rows, keys), k) <==> k in keys && e in IdsOf(rows, k) {
      SidesAgree(RowsOf(rows, keys), k, e);
      SidesAgree(rows, k, e);
    }
  }

  datatype TagCell = TagCell(named: Named, unnamed: nat)

  /** The union over the page of the ids that can be named, for one query of names. */
  method NameableIds(byConv: map<Cid, set<Ent>>, held: set<Ent>) returns (nameable: set<Ent>)
    ensures forall e :: e in nameable <==> e in held && exists c :: c in byConv && e in byConv[c]
  {
    nameable := {};
    var todo := byConv.Keys;
    while todo != {}
      invariant todo <= byConv.Keys
      invariant forall e :: e in nameable <==> e in held && exists c :: c in byConv.Keys - todo && e in byConv[c]
      decreases |todo|
    {
      var c :| c in todo;
      ghost var seen := byConv.Keys - todo;
      todo := todo - {c};
      assert byConv.Keys - todo == seen + {c};
      nameable := nameable + byConv[c] * held;
    }
    assert byConv.Keys - todo == byConv.Keys;
  }

  /**
   A cell against what `name_for_viewer` says of the same tags: the same pairs and the same
   count, the cell in code-point order -- and so the same sequence exactly when the database
   orders the names among the held tags by code point.
   */
  ghost predicate CellFits(d: Registry, ids: set<Ent>, p: Principal, named: Named, unnamed: nat) {
    var heldIds, viewer := ids * Held(d, p), NameForViewer(d, ids, p, false);
    && heldIds <= d.names.Keys
    && unnamed == viewer.1
    && NameOrder(Leq, d.names, heldIds, named)
    && (forall pair :: pair in named <==> pair in viewer.0)
    && (named == viewer.0 <==> OrdersAgree(Leq, d.collate, d.names, heldIds))
  }

  ghost predicate CellOk(w: World, p: Principal, c: Cid, cell: TagCell) {
    CellFits(w.dir, IdsOf(w.convTags, c), p, cell.named, cell.unnamed)
  }

  /** `tags_for_conversations`: one pass over the tag rows, one over the conversations. */
  method TagsForConversations(w: World, listed: seq<Cid>, p: Principal) returns (out: map<Cid, TagCell>)
    requires Linked(w)
    requires forall c | c in listed :: c in w.convs
    ensures forall c :: c in out <==> c in listed
    ensures forall c | c in out :: CellOk(w, p, c, out[c])
  {
    var keys := set c | c in listed;
    var byConv := EntitlementIdsByKey(RowsOf(w.convTags, keys));
    var nameable := NameableIds(byConv, Held(w.dir, p));
    forall c | c in byConv ensures byConv[c] <= w.dir.names.Keys {
      RowsOfIds(w.convTags, keys, c);
      TagsExist(w, c);
    }
    assert nameable <= w.dir.names.Keys;
    var names := map e | e in nameable :: w.dir.names[e];
    forall c | c in listed ensures Prepared(w, p, byConv, names, c) {
      RowsOfIds(w.convTags, keys, c);
    }
    out := Cells(w, listed, p, byConv, names);
  }

  function Tagged(byConv: map<Cid, set<Ent>>, c: Cid): set<Ent> {
    if c in byConv then byConv[c] else {}
  }

  /** What the batched queries must have brought for one conversation. */
  ghost predicate Prepared(w: World, p: Principal, byConv: map<Cid, set<Ent>>, names: map<Ent, string>, c: Cid) {
    Tagged(byConv, c) == IdsOf(w.convTags, c) && Tagged(byConv, c) * Held(w.dir, p) <= names.Keys
  }

  /** What a cell should be, as a test of its own. */
  ghost function CellTest(w: World, p: Principal): (Cid, TagCell) -> bool {
    (c: Cid, cell: TagCell) => CellOk(w, p, c, cell)
  }

  method Cells(w: World, listed: seq<Cid>, p: Principal, byConv: map<Cid, set<Ent>>, names: map<Ent, string>)
    returns (out: map<Cid, TagCell>)
    requires Linked(w)
    requires forall e | e in names :: e in w.dir.names && names[e] == w.dir.names[e]
    requires forall c | c in listed :: Prepared(w, p, byConv, names, c)
    ensures Filled(CellTest(w, p), listed, out)
  {
    out := map[];
    for i := 0 to |listed|
      invariant Filled(CellTest(w, p), listed[..i], out)
    {
      var cell := Cell(w, p, byConv, names, listed[i]);
      OneMoreFilled(CellTest(w, p), listed, i, out, cell);
      out := out[listed[i] := cell];
    }
    assert listed[..|listed|] == listed;
  }

  method Cell(w: World, p: Principal, byConv: map<Cid, set<Ent>>, names: map<Ent, string>, c: Cid)
    returns (cell: TagCell)
    requires Linked(w) && Prepared(w, p, byConv, names, c)
    requires forall e | e in names :: e in w.dir.names && names[e] == w.dir.names[e]
    ensures CellOk(w, p, c, cell)
  {
    var ids, held := Tagged(byConv, c), Held(w.dir, p);
    var pairs := Listing(names, ids * held);
    TagsExist(w, c);
    CellIsNameForViewer(w.dir, names, ids, p, pairs);
    cell := TagCell(SortPairs(Leq, pairs), |ids - held|);
  }

  lemma TagsExist(w: World, c: Cid)
    requires Linked(w)
    ensures IdsOf(w.convTags, c) <= w.dir.names.Keys
  {
  }

  /** Sorting any listing of the held ids by code point makes such a cell. */
  lemma CellIsNameForViewer(d: Registry, names: map<Ent, string>, ids: set<Ent>, p: Principal, pairs: Named)
    requires RegistryOk(d) && ids <= d.names.Keys
    requires forall e | e in names :: e in d.names && names[e] == d.names[e]
    requires Lists(names, ids * Held(d, p), pairs)
    ensures CellFits(d, ids, p, SortPairs(Leq, pairs), |ids - Held(d, p)|)
  {
    SortedAgainstDatabase(d.collate, d.names, names, ids * Held(d, p), pairs);
  }

  /**
   Two held tags a case-ignoring database puts the other way round: on one row the two readers
   give the two names in different orders.
   */
  lemma ReadersDisagree(d: Registry, ids: set<Ent>, p: Principal, apple: Ent, banana: Ent, named: Named, unnamed: nat)
    requires RegistryOk(d) && d.collate == IgnoreCase && apple != banana
    requires ids == {apple, banana} && ids <= Held(d, p) && ids <= d.names.Keys
    requires d.names[apple] == "apple" && d.names[banana] == "Banana"
    requires CellFits(d, ids, p, named, unnamed)
    ensures NameForViewer(d, ids, p, false) == ([(apple, "apple"), (banana, "Banana")], 0)
    ensures named == [(banana, "Banana"), (apple, "apple")] && unnamed == 0
  {
    assert ids * Held(d, p) == ids && ids - Held(d, p) == {};
    AppleBananaListings(d.names, apple, banana, named);
  }
}

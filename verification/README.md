# farabunker: access machinery and text algorithms

A Dafny model of the deterministic core of farabunker: accounts and the last-admin lock,
entitlement grants, labels, walls and taint tags with their audit trail, shared workstreams
and their two gates, the page linkifier, flow declarations, the prompt fence, the help-card
serialization, the login throttle and the shared printers. `dafny verify dfyconfig.toml`
checks all of it.

Tables are sets and maps with their unique and XOR constraints; querysets are set filters.
Code that changes rows is a class whose methods update fields; code that interleaves is a
machine of single steps and theorems over all its runs. A class's `Explained()` -- the audit
trail replayed from nothing gives the tables back -- holds of a new object and is kept by
every method, with the exception of a stream deletion cut short, so it holds between calls
made one after another. For account and settings calls that overlap, `PostureTrail.dfy` says
exactly when it holds.

| file | what it holds |
|---|---|
| `LastAdmin.dfy`, `LockOrder.dfy` | the guard and the posture switch under every interleaving; row locks and deadlock |
| `Accounts.dfy`, `PostureTrail.dfy` | the account and posture services, row by row, with their trail; the trail when calls overlap |
| `Directory.dfy`, `Names.dfy`, `Grants.dfy`, `ToolGate.dfy` | principals, grants, delegation, name order, what a turn may call |
| `Tables.dfy`, `AuditReplay.dfy`, `Ledger.dfy` | join tables read from both sides, the trail replayed, label, axis, wall and delete writers |
| `Workspaces.dfy`, `TaintRuns.dfy`, `ConversationStore.dfy` | visibility, the two gates, batched readers, no laundering over all runs, the writers |
| `Linkifier.dfy`, `JumpStrip.dfy` | inline page links and the jump strip |
| `FlowRefs.dfy`, `FlowGrammar.dfy`, `FlowReads.dfy` | one reference read twice; parsing, storing and running flows; what each spelling reads |
| `HelpCards.dfy`, `Fence.dfy`, `Throttle.dfy`, `Format.dfy` | serialization, fences, login lockout, printers |
| `Common.dfy`, `Collections.dfy`, `Runs.dfy`, `Digits.dfy`, `Sorting.dfy`, `Splitting.dfy`, `Stripping.dfy` | shared small parts |

## Where the code does not do what is said of it

The code is modelled as it is. In each case a lemma shows the failure and another says
exactly when the promise does hold.

- A removal's guard that reads no active superuser locks nothing. On a box without one, an
  administrator can appear and the posture leave `open` before that removal commits
  (`LastAdmin.AdminlessBoxLosesPosture`); the promise holds exactly from a box that has an
  administrator (`PostureKeptIffAdmin`).
- The ordered lock keeps guards from deadlocking each other, but the UPDATE of a row the
  guard did not lock, lying below one it did, can close a wait cycle
  (`LockOrder.RemovalNeverDeadlocksIff`).
- `delete_workstream` writes its audit row after its transaction, so a process dying between
  the two leaves removed walls untold (`Ledger.Ledger.DeleteWorkstream`).
- The reference patterns end in `$`, which passes over one trailing newline; the run-time
  reader does not (`FlowRefs.AgreeIffNotStray`, `FlowGrammar.StrayFlowFails`).
- The help-card serialization is called unambiguous because of its separator; with an empty
  field name two tables can share one text (`HelpCards.NamelessFieldCollides`). Which tables do
  is `CollidesIffForked`, and which a decoder recovers is `RecoveredIffClean`.
- "Five attempts in fifteen minutes" counts attempts one after the other; with n requests
  checked before any is recorded the bound is four plus n (`Throttle.FiveIffSequential`).
- "When they collide the longer one does [survive]" holds of a registry in which no page's name
  runs into another's, as in the shipped table, where names only nest
  (`Linkifier.NamesApartNest`, `NestedLongerWins`). Of titles that run into each other it does
  not (`LongerSpanLoses`, with cards and text): which of two overlapping spans is kept then
  depends on their starts and on what survives before them (`OverlapOutcome`, exactly, survival
  being read off the sorted list; `LongerWinsIffNotLater` where no third span is in the way).
- `tags_for_conversations` is said to agree bit for bit with `name_for_viewer` on any one row.
  It sorts names by code point, the other takes the database's order. The names and the count
  agree always, the sequence exactly when the two orders agree on the names held
  (`Workspaces.TagsForConversations`, `Names.SameListingIff`); `Workspaces.ReadersDisagree` is a
  row on which they do not.
- `duplicate_conversation` copies the tags "always", in a later statement than the turns and
  without a lock on the source. A source deleted in between leaves the copy its turns and no
  tags (`TaintRuns.OrphanLosesTags`); conversations keep their tags exactly in the runs where
  that does not happen (`TagsKeptIffNoOrphan`). The stream's tags, which the gates read, lose
  nothing by it (`NoLaundering`).
- The jump strip's case rule supposes that every page an exchange fetched already has a field
  link. That holds exactly of the pages the latest tool turn asked a known field of
  (`JumpStrip.FetchedExcludedIff`); a page fetched by an earlier tool turn of the same exchange
  can be linked inline and missing from the strip (`FetchedYetNotExcluded`, and exactly when in
  `InlineInStripIff`).
- `set_posture` saves every column of a row it read outside its transaction, so a call can
  undo another's switch without an event (`PostureTrail.SwitchTakenBack`); the trail explains
  the row throughout exactly when no save does that (`ExplainedIffNeverStale`).
- `owned_rows_q` and `may_read_owned_row` are two forms of one rule and differ in one case
  (`Directory.OwnedFormsDiffer`).
- `single_line` keeps its limit only for limits of at least one (`Format.LimitHoldsIffPositive`).

## Model

| member | source | states |
|---|---|---|
| `LastAdmin.AdminKeptIffSheltered` | identity/services.py:57-72 | From any state row locking allows, every interleaving of promotions, demotions, deactivations, reactivations, creations and posture writes keeps an active superuser at every point exactly when some administrator is out of reach of every removal whose guard read an empty table |
| `LastAdmin.QuiescentKeepsIffAdmin` | identity/services.py:57-72 | With nothing in flight, "never zero active superusers" holds for every run to come exactly when there is one now |
| `LastAdmin.PostureKeptIffAdmin` | identity/services.py:245-250 | The posture check takes no lock, and still from a quiet box with an administrator no run ever has the posture away from open without one; without an administrator to begin with the promise fails |
| `LastAdmin.AdminlessBoxLosesPosture` | identity/services.py:44-72 | The failing run: a deactivation whose guard ran on an adminless box locks no row, an administrator appears, the posture leaves open, and that deactivation then commits |
| `LastAdmin.CarefulRunKeepsPosture` | identity/services.py:299-308 | From any box, also one without an administrator: if no removal's guard ran on an empty table, the posture is only ever away from open on a box with an administrator |
| `LastAdmin.RunKeepsShelter` | identity/services.py:44-72 | What every step keeps: locks exclusive, guarded rows still administrators, somebody sheltered |
| `LastAdmin.GuardedOnNobodyVanishes` | identity/services.py:66-67 | Any state holding a guard that read nobody reaches one with no administrator |
| `LastAdmin.SoloCommits` | identity/services.py:121-130 | A transaction running alone ends in exactly its own change |
| `LastAdmin.LoadedGoesOneWay` | identity/services.py:114-130 | With its row fetched an account call can go one way only: early return when nothing changes, the guard for a removal, the write otherwise, the last two once the rows they touch are free |
| `LastAdmin.CheckDecides` | identity/services.py:303-308 | A settings call is refused exactly for a switch to another posture than open without an administrator and the hardening |
| `LastAdmin.StepTouches` | identity/services.py:44-130 | A step leaves other transactions alone; the posture moves only at a save, an account only at the commit of the call about it |
| `LockOrder.ReachableIffExclusive` | identity/services.py:44-54 | Lock tables that arise by granting one row at a time are exactly those in which no row has two holders |
| `LockOrder.AscendingNeverDeadlocks` | identity/services.py:47-53 | Any number of transactions locking rows in ascending key order: some one can always take its next row or commit |
| `LockOrder.RemovalRowsAscendingIff` | identity/services.py:121-125 | A removal's own lock order, guard rows then target, ascends exactly when the target is one of the guard's rows or above them all |
| `LockOrder.RemovalNeverDeadlocksIff` | identity/services.py:121-125 | A whole removal can be caught in a deadlock exactly when the row it updates is not among the guard's rows and lies below one of them; ordering the guard's SELECT alone does not rule that out |
| `LockOrder.CrossedGuards` | identity/services.py:198-201 | The deadlocked pair for each such removal, reached from nothing held |
| `Accounts.Desk.CreateUser` | identity/services.py:75-93 | A taken name writes nothing; otherwise one active account and one event, and nobody stops being an administrator |
| `Accounts.Desk.Write` | identity/services.py:121-130 | The shared tail: refused exactly when it would remove the only active superuser, else the row and its one event, trail and tables still agreeing |
| `Accounts.Desk.SetSuperuser` | identity/services.py:114-130 | The flag ends at the asked value unless refused; no change, no event |
| `Accounts.Desk.DeactivateUser` | identity/services.py:169-215 | Drops the account and its own grants only; grants through groups and owned rows stay, the latter counted per table; idempotent |
| `Accounts.Desk.ReactivateUser` | identity/services.py:218-228 | Restores the account and none of its grants |
| `Accounts.Desk.SetPosture` | identity/services.py:269-361 | Of one call with no other between its read and its save. A switch to open, to the present posture or to none is never refused, whatever the box's state; one to another posture is refused exactly without an administrator, with DEBUG on or with the development key, the first of these being named. Otherwise the row is what the form asks, one event per audited column that differs, and personal always has an open library |
| `Accounts.PlanRow` | identity/services.py:296-351 | With known fields it goes through exactly when the posture asked is open, the present one or none, or there is an administrator and neither DEBUG nor the development key; the events collected on the way are the ones that tell the old row from the new |
| `Accounts.RowEventsTell` | identity/services.py:299-361 | Replaying those events turns the audited columns of the old row into those of the new |
| `Accounts.RowEventsTellColumns` | identity/services.py:299-361 | Replaying a call's events tells exactly the columns it changed of the row it read, whatever the trail said before |
| `Accounts.WriteKeepsSomebody` | identity/services.py:66-72 | A write the guard lets through never takes the last administrator |
| `Accounts.GuardIsExact` | identity/services.py:66-72 | A removal leaves nobody exactly when the guard refuses it |
| `Accounts.WriteIsASoloRun` | identity/services.py:121-130 | What one write does to the accounts is a run of the interleaved machine with nothing else in flight |
| `Accounts.AdministratorsAreTheGuarded` | identity/access.py:109-171 | Off open, an administrator is exactly an active superuser account, the very ones the last-admin guard counts; no service or other principal is one; content is seen only with the setting on |
| `Accounts.WhoCounts` | identity/services.py:44-72 | What each of the four writes does to being an administrator, and that each is idle exactly when it already is so |
| `Accounts.CountsOwnedRows` | identity/services.py:133-141 | Every registered table is counted; a count goes up by one with each row stamped as that account's and with no other |
| `PostureTrail.ExplainedIffNeverStale` | identity/services.py:299-361 | Over every interleaving of account and settings calls, the trail explains accounts and settings row at every point exactly when no save writes back an audited column changed since that save's own read |
| `PostureTrail.SaveDecides` | identity/services.py:353-360 | From any state only a save can change whether the row is told, and it is told after it exactly when each audited column was changed by the call or is what the trail already said |
| `PostureTrail.SwitchTakenBack` | identity/services.py:299-354 | The failing run: a call asking nothing, read before another's switch and saved after it, reopens the box while the trail says personal |
| `PostureTrail.OneAtATimeIsExplained` | identity/services.py:299-354 | Settings calls that take turns are always explained, however accounts are written meanwhile |
| `PostureTrail.AccountsStayTold` | identity/services.py:80-90 | Under every interleaving the trail gives the accounts back |
| `PostureTrail.RunIsPlainRun` | identity/services.py:269-361 | Every run with rows and trail is a run of the lock machine, so its theorems hold of it |
| `PostureTrail.RowNeedsAdmin` | identity/services.py:245-250 | From a quiet box with an administrator no interleaving leaves a saved posture other than open without one |
| `PostureTrail.SoloCall` | identity/services.py:269-361 | Read, check and save with nothing between do what the service called alone does |
| `PostureTrail.SettingsGoInOrder` | identity/services.py:269-361 | A settings call reads, checks and saves, each once and in this order, and its check lets it on exactly when its form is not refused |
| `Directory.OwnedFormsDiffer` | identity/access.py:174-227 | The queryset form admits whatever the row form admits, and more in exactly one case: a service principal that is no administrator asking for its own service row |
| `Directory.SubjectGrantsReach` | identity/access.py:280-308 | A subject's own grants are among those of every principal it reaches |
| `Directory.HeldIsUnionOfSubjects` | identity/access.py:262-327 | What a principal holds is exactly what the subjects reaching it hold |
| `Directory.KeysNameAccounts` | identity/access.py:71-106 | Only a user principal names an account, by the number its key prints |
| `Directory.ReachesExactly` | identity/access.py:262-277 | A row naming an account reaches that account alone, one naming a group its members and nobody else |
| `Directory.HeldByRows` | identity/access.py:262-345 | Off open, an entitlement is held, or owned, exactly by a grant row naming the account or a group it is in, with the owner role for owning; on open nothing is |
| `Names.NameOrderUnique` | identity/access.py:403-419 | Under any total order on names, distinct names leave one name-ordered listing of a set of ids |
| `Names.SortedListingIsNameOrder` | identity/access.py:403-419 | Sorting any listing by any total order on names gives the ids in that order, once each |
| `Names.SameListingIff` | identity/access.py:403-419 | Listings of the same ids in two orders are one sequence exactly when the orders agree on every two of those names |
| `Names.SortedAgainstDatabase` | agents/workstreams.py:519-537 | A code-point sort of the held names has the pairs of the database's listing, and its sequence exactly when the database's order agrees with code point on those names |
| `Names.LeqIsCodePoint` | agents/workstreams.py:529-537 | The sort's order: the first character in which two names differ decides |
| `Names.FrontComesFirst` | agents/workstreams.py:529-537 | A proper front of a name sorts before it |
| `Grants.GrantGives` | identity/services.py:585-621 | A grant adds its entitlement to exactly the principals its subject reaches |
| `Grants.RevokeTakesIff` | identity/services.py:643-655 | After a revoke a person is without the entitlement exactly when no other subject brings it to them |
| `Grants.RoleChangesNobodysAccess` | identity/services.py:624-640 | A role change leaves what everybody holds as it was |
| `Grants.DelegationIsConfined` | identity/services.py:384-398 | However long non-administrators delegate to each other, grants of entitlements none of them owns do not change and none of them comes to own one |
| `Grants.ConfinedAccess` | identity/services.py:577-582 | So nobody's access to those entitlements changes |
| `Grants.StepAnswers` | identity/services.py:577-716 | When each call goes through and what it answers otherwise: groups for administrators only, grants for them and owners, standing asked before the shape of the request |
| `Grants.StepWrites` | identity/services.py:585-716 | A call writes its own row and nothing else in the registry |
| `Grants.JoiningGives` | identity/services.py:694-704 | Joining a group brings the group's grants, to the new member alone |
| `Grants.LeavingTakes` | identity/services.py:707-716 | Leaving takes exactly what no other subject brings |
| `Grants.DroppingTakes` | identity/services.py:682-691 | A deleted group takes from everybody exactly what no other subject brings; every other subject keeps its rows and its members |
| `Grants.GrantDesk.GrantTo` | identity/services.py:585-621 | Refused with nothing written, or one row and one event |
| `Grants.GrantDesk.SetGrantRole` | identity/services.py:624-640 | One event exactly when the role changes |
| `Grants.GrantDesk.RevokeFrom` | identity/services.py:643-655 | The row goes and is told |
| `Grants.GrantDesk.AddGroupMember` | identity/services.py:694-704 | Idempotent: a second add is no second event |
| `Grants.GrantDesk.RemoveGroupMember` | identity/services.py:707-716 | The same in reverse |
| `Grants.GrantDesk.DropGroup` | identity/services.py:682-691 | Memberships, grants and shares of the group go with it, and nothing else |
| `ToolGate.WallOnlyNarrows` | agents/entitlements.py:73-81 | A wall never adds a tool, for anybody; with one, a labelled tool needs a label both held and in the wall |
| `ToolGate.MayCallIff` | agents/entitlements.py:73-84 | Off open, a tool may be called exactly when it has no label, or the caller sees all content and no wall stands, or some label of it is held and within the wall; on open always |
| `ToolGate.WallIsItsRows` | agents/entitlements.py:84-110 | The wall of a stream is its rows, none on an open box and none outside a stream |
| `ToolGate.DeletionOpensIff` | agents/contracts/tools.py:248-252 | Deleting an entitlement opens a tool to a caller it was closed to in exactly two cases: it was the tool's only label, or it was the whole wall and the caller passes without one |
| `Tables.SidesAgree` | agents/axes.py:59-64 | Grouped by resource, by entitlement, or as the bare table: one relation |
| `Tables.EntitlementIdsByKey` | agents/labels.py:18-29 | The fold returns the grouping of the table, whatever the row order, keys without labels absent |
| `Tables.GroupsUnique` | agents/labels.py:18-29 | There is only one such grouping |
| `Tables.CountsByEntitlement` | agents/axes.py:163-174 | Per-entitlement counts are the sizes of the per-entitlement sets, entitlements without rows absent |
| `Tables.TotalsAgree` | identity/axes.py:68-86 | The two groupings add up to the same total, the number of rows, in every table |
| `Tables.SetIdsMeaning` | agents/labels.py:43-76 | A whole-set write gives its key exactly the wanted ids and no other key anything |
| `Tables.WithoutMeaning` | agents/labels.py:235-269 | Clearing an entitlement takes it from every key and nothing else from any |
| `AuditReplay.DiffReaches` | agents/labels.py:58-76 | Adding what is missing and removing what is not wanted leaves exactly what is wanted |
| `AuditReplay.ReplayIgnoresUntaints` | agents/workstreams.py:281-298 | Untaint rows change nothing in what the trail says of labels and walls |
| `AuditReplay.ReplayLabels` | agents/labels.py:69-76 | Replaying one write's additions adds exactly their rows |
| `AuditReplay.ReplayUnlabels` | agents/labels.py:69-76 | Replaying its removals removes exactly theirs |
| `Ledger.Ledger.SetLabels` | agents/labels.py:43-76 | Labels become exactly the wanted set, additions audited before removals, each once; an id that does not exist rolls everything back; replaying the trail still gives the tables |
| `Ledger.LabelDiffTells` | agents/labels.py:69-76 | The rows a label write leaves and the rows its events replay to are the same |
| `Ledger.Ledger.ApplyAxis` | agents/axes.py:177-210 | Only e's labels change, to (before + add) - remove over the rows that exist; the counts are the events appended; it finishes exactly when the process lives for the writes needed, and dying after any prefix of them leaves tables the trail explains |
| `Ledger.Ledger.AxisPass` | agents/axes.py:195-209 | One loop: each present key not yet so is written once, in a transaction of its own; cut short, it has done some first part of its keys exactly |
| `Ledger.Ledger.EditAxis` | identity/axes.py:191-213 | Unknown rows or a non-administrator write nothing; otherwise, given time, the transpose of the label writes; the first count is the rows that gained the label, the second those that lost it; only labels change and only events about e are appended |
| `Ledger.Ledger.SetScope` | agents/visibility.py:1052-1096 | A wall may only name what its setter holds; it becomes exactly that, the difference audited |
| `Ledger.Ledger.DeleteWorkstream` | agents/visibility.py:1114-1166 | Refused while anything is left inside; its shares, wall and tags go and no other stream's; the audit row comes after the transaction, and the trail explains the tables exactly when the process lives that long or the stream had no wall |
| `Ledger.Ledger.Handler` | agents/workstreams.py:249-300 | One cascade: dry run and commit return the same count, only the commit writes |
| `Ledger.Ledger.RunCascades` | identity/cascades.py:25-42 | Every kind's count is of the tables as they were, committed or not; in commit mode every tag naming e is told as lifted, once, and nothing else |
| `Ledger.Ledger.DeleteCounts` | identity/services.py:461-472 | The confirmation page's numbers, with nothing written |
| `Ledger.Ledger.DeleteEntitlement` | identity/services.py:546-574 | No row naming e is left in any table, every row naming another stays, the returned counts are the dry run's; the trail gets one row for every tag lifted, then the deletion, and still explains the tables |
| `Ledger.PurgeAfterCascades` | identity/services.py:552-570 | Whichever cascades ran first, in whatever order, the delete ends in the same tables |
| `Ledger.CountFiled` | identity/services.py:531-543 | Each kind's count appears under its own label and the grants' under theirs |
| `Ledger.PageNumbers` | identity/services.py:531-543 | The page's numbers, each under the very words printed beside it: rows naming the entitlement, tools apart from agents and flows, walls and both levels of tags together |
| `Ledger.CountIsRowsRemoved` | identity/cascades.py:25-30 | Per kind: its count is exactly the number of rows its cascade takes away |
| `Ledger.CountsAreRowsRemoved` | identity/services.py:531-574 | Conservation: grants and the five kinds' counts add up to the rows that go |
| `Ledger.PurgedMeaning` | identity/services.py:546-574 | Nothing names e, and for every other entitlement all seven tables are as they were |
| `Ledger.EarlierKindsKeepCount` | identity/cascades.py:25-30 | A cascade never counts a row an earlier one has taken |
| `Workspaces.CollectSharedKeys` | agents/shares.py:33-60 | The rows the target's parser reads, all of them, in query order |
| `Workspaces.LevelTells` | agents/shares.py:63-80 | The level is use if any row reaching the principal says so, view if only such rows do, none without a row; and a readable key is listed exactly when it has a level |
| `Workspaces.WithoutSharesLeaves` | agents/visibility.py:453-459 | Deleting a target's shares leaves nobody a level on it and everybody theirs on everything else |
| `Workspaces.ManageablePostableVisible` | agents/visibility.py:402-428 | Manageable implies postable implies visible, in every state and for every principal, the last being the queryset |
| `Workspaces.ManageIffOwned` | agents/visibility.py:402-428 | Who does not see all content manages a conversation exactly by owning it or its stream, a service's row counting as every administrator's |
| `Workspaces.SharesNeverManage` | agents/visibility.py:422-425 | No share, tag or wall ever decides who manages a conversation or a stream |
| `Workspaces.RecipientDoesNotManage` | agents/visibility.py:422-428 | Somebody a thread is merely shared with manages neither it nor its stream, so deleting and copying it are refused to them |
| `Workspaces.ManageStreamIffOwned` | agents/visibility.py:898-923 | The same for streams, exactly |
| `Workspaces.PostIff` | agents/visibility.py:626-653 | Posting is open exactly to whoever manages, has a use-level share of the thread, or any share of its stream |
| `Workspaces.StreamListedIff` | agents/visibility.py:870-895 | A stream is listed exactly for whoever manages it, a service that owns it, and those a readable share reaches |
| `Workspaces.VisibleNotPostableIff` | agents/visibility.py:626-653 | A conversation closed to posting is visible exactly through a view-level share, a share key in another spelling, or a service principal's own row |
| `Workspaces.NamingDisclosesOnlyHeld` | agents/visibility.py:1190-1217 | By default exactly the ids the viewer holds are named, once each, and all the others counted |
| `Workspaces.NamingIsCapped` | agents/visibility.py:1190-1217 | Disclosing everything names the first five in name order, or all if there are fewer, the rest counted |
| `Workspaces.RecipientWouldBeToldNothing` | agents/workstreams.py:376-388 | At the read gate the default mode would name nothing, which is why that gate discloses |
| `Workspaces.AcceptedShareReads` | agents/visibility.py:1240-1280 | Gate one implies gate two: everyone an accepted share reaches lists the stream, passes the read gate and may post to its conversations |
| `Workspaces.GatesAreExact` | agents/workstreams.py:347-388 | Each gate passes exactly on inclusion of the tags in the grants it asks about |
| `Workspaces.ReadGateSays` | agents/workstreams.py:347-388 | A reader who passes is told nothing; one who does not is named the missing tags up to five, held or not, and counted the rest |
| `Workspaces.ShareGateSays` | agents/visibility.py:1240-1280 | Who may not share or names both or neither is told nothing; another level than use is refused without names; else the tags the subject lacks are the reason, named as far as the sharer holds them |
| `Workspaces.DormantRecipientWorkstreams` | agents/visibility.py:1363-1404 | Exactly the listed streams whose read gate is closed |
| `Workspaces.TagsForConversations` | agents/workstreams.py:485-537 | For any order the database sorts names by, every listed conversation's cell has the names and the count name_for_viewer gives of its tags, sorted by code point; the sequence is the same exactly when the two orders agree on the held names |
| `Workspaces.CellIsNameForViewer` | agents/workstreams.py:519-537 | Sorting any listing of the held ids by code point makes such a cell |
| `Workspaces.ReadersDisagree` | agents/workstreams.py:495-499 | The failing row: held tags "apple" and "Banana" under a case-ignoring database come in opposite orders from the two readers |
| `TaintRuns.StepKeeps` | agents/README.md:718-738 | Each step, the two of a duplication included, keeps every conversation's tags and live material within its stream's tags, and that of copies still being made |
| `TaintRuns.NoLaundering` | agents/workstreams.py:376-388 | After any run, a reader admitted to a stream they do not manage holds every live label of everything ever retrieved into it, copies included, whatever committed between a copy's reading the turns and its reading the tags |
| `TaintRuns.TagsKeptIffNoOrphan` | agents/visibility.py:595-623 | Over every run, all conversations are tagged with the live labels of all they retrieved, at every point, exactly when no copy is filed whose source was deleted after its turns were read, with something live in them |
| `TaintRuns.OrphanLosesTags` | agents/visibility.py:595-623 | The failing run: the source is deleted between the two reads of its duplication, and the copy holds its labelled turns without a tag |
| `TaintRuns.SoloDuplicate` | agents/visibility.py:595-623 | The two steps with nothing between them are one change: the finished turns and all tags |
| `TaintRuns.DuplicateLaundersNothing` | agents/visibility.py:597-623 | A copy made with nothing in between stays in the stream, carries all tags, and its turns are the finished ones renumbered |
| `TaintRuns.FinishedTurnsKeep` | agents/visibility.py:603-612 | Exactly the terminal turns survive, in order, indexed from the start |
| `TaintRuns.CopyHasWhatIsOver` | agents/visibility.py:524-533 | A copy has exactly the turns of its source that neither wait nor run |
| `TaintRuns.WhoMayStep` | agents/visibility.py:431-464 | Copying, deleting and closing go through exactly for a manager, with nothing inside a stream that closes |
| `TaintRuns.MakerManages` | agents/visibility.py:842-867 | A new conversation and a finished copy belong to whoever made them, who manages them; of others only content administrators and the stream's owner do |
| `TaintRuns.TurnsOnlyGrow` | agents/README.md:718-738 | In every other conversation nothing changes; turns are added at the end or ended where they stand |
| `TaintRuns.ConversationTagsMove` | agents/runtime/taint.py:67-172 | What each step makes of any one conversation's tags: added by its own tool turns, copied at a copy's end, cleared with it, lost with the entitlement, otherwise untouched |
| `TaintRuns.StreamTagsMove` | agents/runtime/taint.py:175-196 | The same of any one stream's tags, and of its wall |
| `TaintRuns.RegistryMoves` | agents/README.md:718-738 | The registry and the set of streams change with their own steps only |
| `TaintRuns.SharesStay` | agents/visibility.py:458-459 | A share goes only with its own removal or its target's deletion |
| `TaintRuns.RunKeepsOrder` | agents/visibility.py:599-612 | No two turns of a conversation share an index in any run, copies included |
| `ConversationStore.Store.StampTurn` | agents/runtime/taint.py:67-112 | Adds the ids to the conversation and its stream, audits first sightings only, returns what was new |
| `ConversationStore.Store.AddConversationTags` | agents/runtime/taint.py:115-172 | Read, diff, insert, audit: the table gains exactly the missing rows |
| `ConversationStore.Store.AddWorkstreamTags` | agents/runtime/taint.py:175-196 | The same upward |
| `ConversationStore.Store.ToolTurn` | agents/README.md:721-736 | The turn and its stamp are one step of the runs |
| `ConversationStore.Store.DuplicateConversation` | agents/visibility.py:535-623 | Refused unless manageable; otherwise, run alone, the one change its two steps make, with no audit row |
| `ConversationStore.Store.DeleteConversation` | agents/visibility.py:431-464 | The runs' step, whatever else is under way: tags and the conversation's shares go with it |
| `ConversationStore.Store.ShareWorkstream` | agents/visibility.py:1240-1280 | Gate one, then one share row and one event |
| `ConversationStore.StampsRaiseTheGate` | agents/workstreams.py:376-388 | A turn's retrieval leaves the stream open to a reader exactly when it was and they hold all of it |
| `Linkifier.FirstFrom` | agents/chat/context_processors.py:373-389 | The leftmost word-bounded occurrence, or none anywhere |
| `Linkifier.MatchesByCase` | agents/chat/context_processors.py:373-389 | An exact match is the alias itself standing alone; any other is one that folds alike |
| `Linkifier.CaseRule` | agents/chat/context_processors.py:392-424 | A one-word title of a page not fetched is a name in its own spelling only, every other title and every route in any case |
| `Linkifier.OneWordIff` | agents/chat/context_processors.py:422 | A text counts one word exactly when it is a stretch without white space between white space |
| `Linkifier.EscapeReads` | agents/chat/context_processors.py:543 | Escaped text reads back as it was and holds no character that opens or closes markup |
| `Linkifier.BestMatchIsFirstNaming` | agents/chat/context_processors.py:539-547 | A card has a candidate exactly when it is named at all; it is where it is first named, the title's on a tie |
| `Linkifier.CandidatesAreBestMatches` | agents/chat/context_processors.py:538-547 | One candidate per named card, none else |
| `Linkifier.SortIsDetermined` | agents/chat/context_processors.py:549 | Any ordering by start, longer first, that keeps ties in place is the one used |
| `Linkifier.SecondSortIsIdle` | agents/chat/context_processors.py:562 | The second sort changes nothing; the choice is in order and disjoint, drawn from the candidates |
| `Linkifier.RejectedOverlapsChosen` | agents/chat/context_processors.py:551-557 | A dropped candidate starts inside a chosen one, which starts earlier or is at least as long |
| `Linkifier.ChosenIsSurvivors` | agents/chat/context_processors.py:551-557 | The choice from any list is the survivors of the sorted list, in its order, where a span survives exactly when no earlier survivor reaches past its start |
| `Linkifier.ChosenIffNotCrowded` | agents/chat/context_processors.py:551-557 | In any list, a candidate is chosen exactly when no other survivor lies over its start |
| `Linkifier.OverlapOutcome` | agents/chat/context_processors.py:551-557 | Of two overlapping candidates in any list at most one is chosen: either one exactly when no other survivor crowds it and it starts first, a tie going to the longer, or the other is crowded out by a survivor over before it starts |
| `Linkifier.LongerWinsIffNotLater` | agents/chat/context_processors.py:551-557 | In any list, where no third candidate lies over the start of either, the longer of two overlapping ones is chosen exactly when it does not start later |
| `Linkifier.NestedChosenIffOutermost` | agents/chat/context_processors.py:551-557 | Where overlapping candidates only nest, a candidate is chosen exactly when nothing lies over it and it is the first listed of its extent |
| `Linkifier.NamesApartNest` | agents/chat/context_processors.py:373-389 | Where no page's name can begin, as a word, inside another's and run over its end, the candidates of any text only nest |
| `Linkifier.NestedLongerWins` | agents/chat/context_processors.py:511-520 | There the shorter of two overlapping candidates is never chosen, and the longer is unless a third holds it or shares its extent and is listed first |
| `Linkifier.LongerSpanLoses` | agents/chat/context_processors.py:511-520 | Cards and a text for each failure: the longer span loses to one that starts first; with a third card it loses though it starts first, and wins though it starts later |
| `Linkifier.LinksAreFirstNamings` | agents/chat/context_processors.py:538-581 | At most one link a page, each at the page's first naming, a named page passed over only for a chosen span over that place |
| `Linkifier.LinkifyKeepsEveryWord` | agents/chat/context_processors.py:564-581 | Taking the anchors out gives the input back, whatever it says |
| `Linkifier.AnchorWrapsSpan` | agents/chat/context_processors.py:566-580 | Anchor k goes to the page of the k-th mounted span and holds exactly that span's text |
| `Linkifier.RenderConcat` | agents/chat/context_processors.py:564-581 | Pieces print one after the other, each by itself |
| `Linkifier.AnchorText` | agents/chat/context_processors.py:576-578 | An anchor opens on the escaped address with the assistant's parameter; the text between is printed as it is |
| `Linkifier.UnmountedLeavesNoTrace` | agents/chat/context_processors.py:567-574 | A span whose route cannot be reversed leaves the output as if it had not been chosen |
| `Linkifier.Collect` | agents/chat/context_processors.py:538-547 | The loop over cards and their two aliases yields the candidates |
| `Linkifier.Claim` | agents/chat/context_processors.py:551-557 | The greedy loop yields the specified choice |
| `Linkifier.Splice` | agents/chat/context_processors.py:564-581 | The cursor loop joins to the specified text |
| `Linkifier.Linkify` | agents/chat/context_processors.py:464-581 | The whole pass yields the specified text, early returns included |
| `JumpStrip.FetchedRoutesBefore` | agents/chat/context_processors.py:427-461 | Exactly the registry routes fetched in the unbroken run of tool turns before the position |
| `JumpStrip.JumpLinks` | agents/chat/context_processors.py:735-845 | The strip of the specification, both legs and the cap |
| `JumpStrip.AnchorLeg` | agents/chat/context_processors.py:809-841 | The field links and their routes of the latest tool turn that carries a dict |
| `JumpStrip.StripIsWhitelisted` | agents/chat/context_processors.py:747-757 | Whatever rows are stored, at most six links, each to a mounted registry page: a field fetched, or a page the answer names that has no field link |
| `JumpStrip.NamesIff` | agents/chat/context_processors.py:392-424 | The strip sees a page named exactly by its route in any case or its title in the case it needs |
| `JumpStrip.FinalAnswerIs` | agents/chat/context_processors.py:771-780 | The text searched for page names is the last answer's, and none without one |
| `JumpStrip.StripIsFront` | agents/chat/context_processors.py:735-845 | The strip is the front of fetched fields and then named pages, six at most |
| `JumpStrip.AnchorLinksInOrder` | agents/chat/context_processors.py:809-841 | Field links come one by one in the order they were fetched in |
| `JumpStrip.NamedLinksInOrder` | agents/chat/context_processors.py:735-845 | Page links come one by one in the order of the registry |
| `JumpStrip.OlderTurnsDoNotShow` | agents/chat/context_processors.py:771-780 | With a tool turn and an answer of its own, an exchange's strip does not depend on earlier turns |
| `JumpStrip.FetchedExcludedIff` | agents/chat/context_processors.py:671-679 | Of any window and route: excluded from the named leg exactly when it is mounted and the latest tool turn with a dict asked for it at an anchor of its own card, whatever the exchange fetched before |
| `JumpStrip.InlineInStripIff` | agents/chat/context_processors.py:671-679 | For every window, answer and mounted page: what the inline pass links is in the strip unless the answer names the page only by its one-word title in another case, its run fetched it, and the latest tool turn with a dict asked for no field of its card |
| `JumpStrip.StripNamesLinks` | agents/chat/context_processors.py:735-845 | A page the strip accounts for has a field link or its page link among the links before the cap |
| `JumpStrip.FetchedYetNotExcluded` | agents/chat/context_processors.py:806-845 | The failing exchange: two fetches of known fields on mounted pages; an answer naming the first page in passing has it linked inline, while the strip is the second page's field alone |
| `FlowRefs.AgreeIffNotStray` | agents/defaults.py:73-74 | An accepted reference is dispatched to the target it was accepted for exactly when it does not end in a newline, or ends so after a path below a step's text |
| `FlowRefs.AcceptedIsAttempted` | agents/runtime/flow.py:59-65 | What the patterns accept passes both gates for attempted references |
| `FlowRefs.StrayExample` | agents/defaults.py:73-74 | "$input.topic" with a newline is accepted as topic and read as another key |
| `FlowRefs.PartsAgree` | agents/runtime/flow.py:101-126 | The dispatcher's partitions are the first pieces of the dotted text |
| `FlowRefs.NameAlphabet` | agents/defaults.py:73-74 | The letters a name may have, and that a name is a segment not starting with a digit |
| `FlowReads.ReadsInput` | agents/runtime/flow.py:101-108 | The text "$input.key" reads the input of that key, and is stuck on a key that is none |
| `FlowReads.ReadsText` | agents/runtime/flow.py:111-119 | The text "$steps.n.text" is accepted for step n and reads result n's text, for every n and however many results there are |
| `FlowReads.ReadsData` | agents/runtime/flow.py:120-121 | The text "$steps.n.data" with a path is accepted for it and reads exactly what that path leads to in result n's data |
| `FlowReads.ReadsArtifact` | agents/runtime/flow.py:122-123 | The text "$steps.n.artifacts.i" reads artifact i of result n, stuck when there is none |
| `FlowReads.OtherHeadsReadNothing` | agents/runtime/flow.py:101-110 | A text that looks like a reference and is headed by neither word is refused at both ends |
| `FlowReads.WalkSteps` | agents/runtime/flow.py:129-146 | A number picks that item of a list and nothing of a dict; a key picks the value under it in a dict and nothing of a list |
| `FlowReads.WalkAppend` | agents/runtime/flow.py:129-146 | Walking p and then q is walking both in one |
| `FlowReads.ReadsWhatIsDeclared` | agents/runtime/flow.py:59-125 | An accepted reference that is not stray reads exactly its declared target's content |
| `FlowReads.DenotesOneValue` | agents/runtime/flow.py:149-176 | What a declaration means is one value |
| `FlowReads.SeededKeeps` | agents/runtime/flow.py:286-288 | Every supplied value is kept, a declared input left out is null, and nothing else is there |
| `FlowGrammar.NoFlawIffBackwards` | agents/defaults.py:244-281 | The walk finds no flaw exactly when every string at any depth is a value, a declared input or a field of a strictly earlier step |
| `FlowGrammar.ParseFlowJson` | agents/defaults.py:148-226 | The parser's loops compute the specified result, first flaw included |
| `FlowGrammar.InputReads` | agents/defaults.py:194-207 | What makes an input acceptable, and what it holds for what it leaves out |
| `FlowGrammar.StepReads` | agents/defaults.py:209-224 | What makes a step acceptable, and which flaw is named first |
| `FlowGrammar.FetchIsMeaning` | agents/runtime/flow.py:101-146 | Fetching a target gives exactly its content as stated by place: the input under the key, the text of that result, what a chain of items and values leads to |
| `FlowGrammar.AcceptedIsWellFormed` | agents/defaults.py:187-226 | Accepted means a step at least, non-blank keys, plain tools, and only backward references at every depth |
| `FlowGrammar.WellFormedRoundTrip` | agents/defaults.py:121-145 | Every well-formed flow is accepted and read back as it is, built in code or stored as dicts, row by row |
| `FlowGrammar.StoreAndReparse` | agents/defaults.py:642-647 | Storing an accepted flow as dicts and parsing it gives it back |
| `FlowGrammar.PrefixAccepted` | agents/defaults.py:187-226 | Every non-empty prefix of an accepted flow is accepted with the same steps |
| `FlowGrammar.AcceptedFlowRuns` | agents/runtime/flow.py:277-344 | An accepted flow without stray references runs in index order on any install and inputs: each step that ran was let through, handed exactly what its declaration means and given an answer of its own step, and the run ends when all have run, when deadline, missing, mutating or failing tool ends it, or at a path into data or artifacts that is not there |
| `FlowGrammar.ValueResolves` | agents/runtime/flow.py:149-176 | Resolution at any depth yields the value with every reference replaced by its target's content, or names a leaf that points into a result along a path that is not there |
| `FlowGrammar.StrayFlowFails` | agents/defaults.py:73-74 | An accepted flow that gets stuck on its declared, supplied input |
| `HelpCards.CanonicalText` | foundation/settings_help.py:824-832 | The two loops build the specified serialization |
| `HelpCards.OneFieldText` | foundation/settings_help.py:822-830 | A card with one field, part by part and in order |
| `HelpCards.RecoveredIffClean` | foundation/settings_help.py:795-832 | A decoder gives the whole table back from the text exactly when no string holds the separator and no field is nameless |
| `HelpCards.SerializeInjective` | foundation/settings_help.py:795-799 | Two such tables with one serialization are the same table |
| `HelpCards.NamelessFieldCollides` | foundation/settings_help.py:795-799 | With a nameless field two different tables share a serialization |
| `HelpCards.CollidesIffForked` | foundation/settings_help.py:795-832 | A separator-free table shares its text with another separator-free table exactly when some empty part of it can be read both as a terminator and as a nameless field's name with the remaining parts still readable |
| `HelpCards.LoneFieldIsNoFork` | foundation/settings_help.py:795-832 | A table of one card whose only field is nameless has no fork |
| `Fence.NeutralizedLines` | foundation/fence.py:46-62 | As many lines as before, dash lines escaped, every other line as it was |
| `Fence.NoDashLineLeft` | foundation/fence.py:46-62 | No line of the result is blanks around three or more dashes |
| `Fence.UnchangedIffNoDashLine` | foundation/fence.py:46-62 | The text is left alone exactly when it has no such line |
| `Fence.NeutralizeTwice` | foundation/fence.py:46-62 | Idempotent |
| `Fence.DashLineIff` | foundation/fence.py:46 | A dash line is blanks, three dashes or more, and blanks |
| `Fence.EscapeKeepsDashes` | foundation/fence.py:46-62 | Escaping puts a backslash before the dashes and keeps every one of them |
| `Fence.WrapText` | foundation/fence.py:108-115 | The wrapped text in full: header, BEGIN line with label and marker, body, END line |
| `Fence.WrapLines` | foundation/fence.py:109-115 | The wrapped text's lines, header to END |
| `Fence.UnwrapIffNoEndInside` | foundation/fence.py:109-115 | With no BEGIN line in the header, unwrapping recovers the escaped body exactly when the body lacks the END line |
| `Fence.AbsentMarker` | foundation/fence.py:65-76 | A marker a text does not contain forms no boundary line in it |
| `Fence.NeutralizeWrapped` | foundation/fence.py:89-101 | Escaping a wrapped text changes its header only |
| `Fence.NestedFencesComeOff` | foundation/fence.py:89-115 | n wraps come off with n unwraps, whatever marker lines bodies and headers forge, given fresh markers |
| `Throttle.OneKey` | identity/views.py:176-178 | The row written and the rows counted go by one name, whatever was typed |
| `Throttle.LockedOutIff` | identity/throttle.py:76-103 | A name is locked exactly with five rows of it, in any case, in the last 900 seconds, limits included; the empty name never |
| `Throttle.NamesAreCut` | identity/throttle.py:52-100 | A name is its first 255 characters after stripping and normalizing, and only names agreeing on those fall together |
| `Throttle.AtMostFourAndWorkers` | identity/throttle.py:99-103 | No run records more than four plus the number of concurrent requests of one name's failures in any closed window |
| `Throttle.BoundIsReached` | identity/views.py:103-140 | That bound is reached |
| `Throttle.FiveIffSequential` | identity/throttle.py:44-49 | Five a window holds for every run exactly when requests do not overlap |
| `Throttle.RefusalLeavesNoTrace` | identity/views.py:99-105 | Taking refused attempts out of a run changes nothing |
| `Throttle.FreeAfterTheWindow` | identity/throttle.py:99-103 | Strictly more than a window after its last failure a name may try again |
| `Throttle.SpellingsShareTheLock` | identity/audit.py:94-114 | Names that fold alike are locked alike |
| `Throttle.LoginLog.Post` | identity/views.py:103-140 | Refused exactly when locked out, then no row; a row exactly on a wrong password; one step of the concurrent machine |
| `Throttle.LoginLog.FailedLoginsSince` | identity/audit.py:94-114 | The count over stored rows |
| `Format.TimecodeParses` | foundation/format.py:105-118 | A printed timecode reads back as the whole seconds; the blank one never reads |
| `Format.ClockShape` | foundation/format.py:83-118 | Minutes and seconds below an hour, hours in front from then on; two digits after every colon |
| `Format.StoredWithinHalfAByte` | foundation/format.py:143-157 | What is stored is within 2^-31 GB of what was typed |
| `Format.GigabyteIs` | foundation/format.py:142-165 | A gigabyte is 1024 cubed bytes, whole ones stored and read back exactly |
| `Format.TiesGoEven` | foundation/format.py:142-157 | Half way between two integers rounding takes the even one |
| `Format.RoundTripIffOneDecimal` | foundation/format.py:143-165 | A value survives storing and showing exactly when it has one decimal |
| `Format.HumanBytes` | foundation/format.py:121-139 | Whole bytes below 1024, else one decimal, rounded, in the largest of KB, MB, GB, TB and PB the count reaches, at most a twentieth of the unit away |
| `Format.ScaleBytes` | foundation/format.py:134-139 | The dividing loop stops at that unit with the exact quotient |
| `Format.OneDecimalReads` | foundation/format.py:134-139 | A printed decimal reads back as its tenths |
| `Format.ShownBelow1024Iff` | foundation/format.py:135-139 | The number shown can be 1024.0, exactly from 1023.95 up |
| `Format.RunsBecomeSpaces` | foundation/format.py:77 | Each run of control characters is one space, the text around it untouched |
| `Format.SingleLineShows` | foundation/format.py:77-80 | A line that fits is shown whole; a longer one is its own front and an ellipsis, with only white space left out before the limit |
| `Format.SingleLineFits` | foundation/format.py:77-80 | One line, trimmed, no control characters, within the limit |
| `Format.SingleLineTwice` | foundation/format.py:77-80 | Idempotent |
| `Format.LimitHoldsIffPositive` | foundation/format.py:78-80 | The limit holds for every text exactly when it is at least one |

## Left out

- LastAdmin.AdminKeptIffSheltered: the guard's read and its locks are one step; Postgres snapshots and predicate re-checks are not modelled, nor is the wait itself (a blocked step cannot be taken).
- LockOrder.RemovalNeverDeadlocksIff: rows are locked until the transaction ends and the guard's row set is fixed when it begins.
- Workspaces.TagsForConversations: the database's order on names is any total order; which one an install's collation gives is a parameter.
- TaintRuns.TagsKeptIffNoOrphan: a duplication reads the turns with its permission check and commits with its reading of the tags; a turn with its stamp and each deletion are single steps.
- TaintRuns.NoLaundering: a turn's material is the label set its references resolved to; a resolver that raises is swallowed by the source and contributes nothing, and labels put on a document after it was retrieved are not followed.
- Ledger.Ledger.Handler: the document-side and model-set cascades are represented by their stated contract, count and remove; re-stamping chunks is not modelled.
- FlowRefs.AgreeIffNotStray: digits are ASCII; Python's digit classes, and its limit on the length of an integer literal, are not modelled.
- FlowGrammar.AcceptedFlowRuns: what a flow returns for a run that ended early, and artifact collection, are not modelled; nor are tuples in catalogue arguments and numbers other than integers; the several texts of one resolution error are one case.
- JumpStrip.InlineInStripIff: rendering an answer to markup is not modelled; it is taken to keep the page's mentions under either case rule.
- Linkifier.FirstFrom: word characters, case folding and white space are parameters, and a match has the length of its alias; what markup surrounds the text is not modelled.
- Throttle.AtMostFourAndWorkers: white space, NFKC and case folding are parameters; a clock tick is a whole second.
- Format.StoredWithinHalfAByte: exact arithmetic over reals; floating-point error in the division and multiplication is not modelled.
- Workspaces.AcceptedShareReads: conversation keys are numbers here and uuids in the source; a key's other spellings are kept apart as such.
- Fence.NestedFencesComeOff: freshness of the random marker is an assumption stated as absence from what it wraps.
- The sha256 digest over the help cards and its truncation to twelve characters.
- HTTP views other than the login throttle's two methods, templates, forms, redirects, poll URLs, cookies.
- The ORM, migrations, query counts and the threading of one settings row through calls.
- The Django admin's own save path, password hashing, sessions and the adoption and reassignment commands.
- The turn loop, the queue, retrieval, prompts, attachments, panels, and installing or resetting shipped defaults.
- Renaming, archiving, pinning, descriptions and settings of conversations and workstreams: single-column writes.
- Route tables, the settings sidebar, the help text itself and boot checks.

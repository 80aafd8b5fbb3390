# Verification model of the dashboard agent's store and its neighbours

This project models, in Dafny 4.11, five pieces of the repository whose correctness rests on
more than one function body, and proves what they are for. `dafny verify dfyconfig.toml` checks
all of it.

**The transcript and investigation store.** `Store.dfy` gives each query of the dashboard
agent's database as a function on four tables (chats with their position allocator, message
rows, investigation rows, sessions). `AgentStore.dfy` is the store itself: a class whose methods
update those tables in place, loop where the queries loop, roll back where a transaction throws,
and are proved equal to those functions. On top of them:

- `StoreRuns.dfy`: what every operation keeps, over every run.
- `TranscriptList.dfy`: the tables refine a plain list of messages.
- `Delivery.dfy`: what redelivery and replay can and cannot change.
- `Effects.dfy`: what each write leaves in the columns, and that sweeps settle a row at most once.
- `NoSpinner.dfy` and `Cards.dfy`: what the panel resolves from the transcript agrees with the
  investigation rows, and stays in agreement.
- `TurnClose.dfy` and `Investigation.dfy`: the runtime's tracker of unfinished investigations, the
  states it closes them with, and the closing write of a turn.
- `Races.dfy`: appends and batch stores interleaved statement by statement, and exactly when they
  burn a position.
- `LockOrder.dfy`: which rows the transactions lock, which two of them can deadlock, and under
  what order none do. A turn that settles a row of a soft-deleted chat and the retention of that
  chat can deadlock (`RetentionDeadlock`): retention deletes session rows before investigation
  rows, the turn locks them the other way round.

The agreement between cards and rows rests on assumptions about callers, stated as
`NoSpinner.StepHonest`: a card in a written message is not ahead of its row, and at the row's
current revision it shows the row's state; clients resend a settlement id only when it is already
stored; the id generated for a new investigation occurs in no stored card or settlement id; and
the message id given to the caller's settle lane is no settlement id.

**`trigger://` URIs.** `PercentCoding.dfy` is `encodeURIComponent` and `decodeURIComponent` on
UTF-16 text (section 19.2.6 of ECMA-262, section 3 of RFC 3629, section 2.1 of RFC 3986);
`SplitJoin.dfy` is `split` and `join`; `JsNumber.dfy` is the rounding of a digit string to a double
and the printing of an integer; `TriggerUri.dfy` is the parser and the printer. `AcceptedIff` is the
grammar itself: which texts the parser accepts, and as what. Four families of
accepted texts do not survive a round trip, each shown by a concrete text, and the lemmas say
exactly which they are. A raw lone surrogate, an escaped slash that leaves an empty path part, and
a line too large for a double are accepted and cannot be printed (`AcceptedPrintsIff`). A line of
10^21 or more prints with an exponent, which the parser rejects (`ParseFormat`,
`AcceptedRoundTripsIff`). Printing is injective for all values.

**The run-ops guard.** `TypeKinds.dfy`, `LegacyHandle.dfy` and `SeamWalk.dfy` are the static
analyser's three traversals, each proved equal to a reachability statement that knows nothing of
visited sets or lists; `GuardScan.dfy` is the decision tree that combines them. The guard's own
comments (apps/webapp/scripts/runOpsLegacyGuard.ts:252-255) want a routed annotation to cover
reads only; the code does not ask for the kind of call, so a routed write goes unreported
(`RoutedWriteIsSilent`), and `HazardReportedIff` says exactly what does.

**History and evaluation transforms.** `Redaction.dfy` proves what an evaluated tool value can and
cannot reveal. `Compaction.dfy` proves that trimming a history keeps tool calls and results
together. `StepCache.dfy` proves where the rolling cache mark ends up, on the exact length of the
messages' JSON. Marking a step twice is idempotent on a tidy history without step marks but not in
general: a mark of an earlier step counts towards the size threshold before it is stripped
(`OldMarkCanFlip`), and `IdempotentIff` gives the exact condition on the history before the step.

**Stuck-run recovery.** `Recovery.dfy` is the script's selection and its three writes a run, any of
which can be the last one before a failure or a crash.

`Wrappers.dfy` and `Decimal.dfy` hold what several modules share.

## Model

| member | source | states |
|---|---|---|
| `AgentStore.AgentStore.ReserveMessagePositions` | internal-packages/dashboard-agent-db/src/queries.ts:282-298 | hands out the next `count` positions of a live chat and moves its allocator past them; no live chat, no positions and no change |
| `AgentStore.AgentStore.FinalizeChatMessage` | internal-packages/dashboard-agent-db/src/queries.ts:391-422 | replaces the body stored under an id only when its role is the expected one and the new body's own id and role match; nothing else changes |
| `AgentStore.AgentStore.StoreChatMessages` | internal-packages/dashboard-agent-db/src/queries.ts:318-379 | one transaction over a batch: it leaves the tables `Store.StoreBatch` describes, or, on a bad id, a repeated id or a missing role, throws |
| `AgentStore.AgentStore.AppendOneMessage` | internal-packages/dashboard-agent-db/src/queries.ts:440-469 | an append keyed by message id: stored at most once, true exactly when this call stored it, the whole store unchanged when it throws |
| `AgentStore.AgentStore.PersistMessages` | internal-packages/dashboard-agent-db/src/queries.ts:425-430 | insert-only storing of a batch; rolled back whole when it throws |
| `AgentStore.AgentStore.UpsertInvestigationRevision` | internal-packages/dashboard-agent-db/src/queries.ts:720-772 | a new row at revision 0, or the next revision of a row in this chat, project and environment; not found and wrong context change nothing |
| `AgentStore.AgentStore.SettleInvestigationAsInconclusive` | internal-packages/dashboard-agent-db/src/queries.ts:947-975 | only a row still in progress settles, at its next revision and with the SQL-merged state |
| `AgentStore.AgentStore.PersistTurn` | internal-packages/dashboard-agent-db/src/queries.ts:525-612 | settlements, then the batch with their cards, then the session; any throw puts every table back |
| `AgentStore.AgentStore.SettleInvestigationAndCloseCard` | internal-packages/dashboard-agent-db/src/queries.ts:990-1012 | the sweep: settle and append the closing card in one transaction, or leave everything as it was |
| `AgentStore.AgentStore.SettleInvestigationStateAndCloseCard` | internal-packages/dashboard-agent-db/src/queries.ts:1055-1146 | the caller's lane: a message already stored under the id ends the call before any revision, every error and throw restores all tables |
| `StoreRuns.StepKeeps` | internal-packages/dashboard-agent-db/src/queries.ts:282-612 | every operation keeps every chat consistent (distinct positions inside [1, next), columns equal to the body's id and role) and old messages keep id, position and role; only named bodies change |
| `StoreRuns.StepKeepsValid` | internal-packages/dashboard-agent-db/src/queries.ts:282-612 | the same for the whole store |
| `StoreRuns.RunsKeepValid` | internal-packages/dashboard-agent-db/src/queries.ts:282-612 | the same over every run of operations |
| `TranscriptList.StoreRefinesList` | internal-packages/dashboard-agent-db/src/queries.ts:318-379 | storing a batch means, on the list in position order: replace finalizable bodies of the same role, then append the genuinely new messages in batch order; the allocator grows by exactly their number |
| `TranscriptList.StoreTwice` | internal-packages/dashboard-agent-db/src/queries.ts:318-379 | storing the same batch again commits and changes nothing at all |
| `TranscriptList.SerialRunsLeaveNoGap` | internal-packages/dashboard-agent-db/src/queries.ts:282-379 | run one operation at a time, and positions are exactly 1 .. next - 1 |
| `TranscriptList.EmptyStoreHasNoGap` | internal-packages/dashboard-agent-db/src/queries.ts:156-176 | the empty store is such a start |
| `Delivery.StoredForGood` | internal-packages/dashboard-agent-db/src/queries.ts:253-273 | over every run short of hard deletion a stored message keeps id, position and role, the columns equal the body's own, and only named bodies ever change |
| `Delivery.TurnRewritesOnlyItsOwn` | internal-packages/dashboard-agent-db/src/queries.ts:579-590 | a turn changes a stored body only for an id it named that is no settlement id |
| `Delivery.DeliveryEndings` | internal-packages/dashboard-agent-db/src/queries.ts:1055-1146 | an ok result returns the message stored under the id at the row's revision; it revised the row exactly when that id was free; otherwise the tables are untouched |
| `Delivery.AtMostOneBump` | internal-packages/dashboard-agent-db/src/queries.ts:1055-1146 | over any mix of operations with redeliveries of one message id, at most one delivery bumps the revision |
| `Delivery.UnbumpedIsUnchanged` | internal-packages/dashboard-agent-db/src/queries.ts:1066-1101 | a delivery that does not bump leaves every table alone |
| `Effects.TurnRewritesExactly` | internal-packages/dashboard-agent-db/src/queries.ts:570-590 | after a committed turn on a live chat every message it sent is stored; over one already there it wins exactly when the turn names its id, the id is no settlement id and the stored role is the message's own; position and role never move |
| `Effects.TurnLeavesOthers` | internal-packages/dashboard-agent-db/src/queries.ts:570-590 | a stored message the turn does not send keeps its whole row, even when the turn's own settlement card has its id |
| `Effects.TurnSavesSession` | internal-packages/dashboard-agent-db/src/queries.ts:592-610 | a committed turn leaves the chat's session equal to the given one, live chat or not, and no other chat's session or messages change |
| `Effects.AppendLeaves` | internal-packages/dashboard-agent-db/src/queries.ts:440-502 | an append stores exactly when the chat is live, lacks the id and is the caller's by user and, if given, organization; then one row at the next position is added and nothing else moves |
| `Effects.FinalizeLeaves` | internal-packages/dashboard-agent-db/src/queries.ts:391-422 | a direct rewrite throws unless body id and role are the expected ones, and replaces one body under its id and stored role, no column and no other row |
| `Effects.UpsertOpens` | internal-packages/dashboard-agent-db/src/queries.ts:720-742 | without an id a row opens at revision 0 in the given chat, project and environment with the given state; other rows stay; a clash of the new id throws |
| `Effects.UpsertRevises` | internal-packages/dashboard-agent-db/src/queries.ts:744-772 | a named row gets its next revision and the state exactly in its own chat, project and environment; otherwise the error says which and nothing changes |
| `Effects.SettleLeaves` | internal-packages/dashboard-agent-db/src/queries.ts:947-975 | the settle gives null and changes nothing exactly when the row is missing or its stored outcome is not in_progress; otherwise the row is at its old revision + 1, inconclusive, with title, checkNext and unread fields kept |
| `Effects.SweepLeaves` | internal-packages/dashboard-agent-db/src/queries.ts:990-1012 | the sweep leaves a row that is not in progress alone, throws exactly when title, checkNext or unread fields are invalid, and otherwise settles; `closed` says whether the chat was live and lacked the settlement id |
| `Effects.SweepsSettleOnce` | internal-packages/dashboard-agent-db/src/queries.ts:937-975 | over any run of sweeps a concluded or settled row never changes and any other is settled at most once |
| `Effects.CloseLeaves` | internal-packages/dashboard-agent-db/src/queries.ts:1066-1146 | which ending the caller's lane takes on which stored rows, and the one row and one message it adds when it closes the card |
| `Effects.CreateLeaves` | internal-packages/dashboard-agent-db/src/queries.ts:156-176 | creating is idempotent: an existing chat stays, a new one is live, the caller's and starts at position 1 |
| `Effects.SoftDeleteLeaves` | internal-packages/dashboard-agent-db/src/queries.ts:226-241 | only owner and organization of the chat delete it, and nothing else moves |
| `Effects.PurgeLeaves` | internal-packages/dashboard-agent-db/src/queries.ts:650-693 | retention takes a soft-deleted chat with its messages, session and investigations, and keeps everything of every other chat |
| `Races.InterleavingsAreSafe` | internal-packages/dashboard-agent-db/src/queries.ts:282-379 | in every interleaving of appends (stale snapshot, locked reserve, insert on conflict) and batch stores: one row an id, distinct positions in [1, next), at most one append of an id reports true |
| `Races.FinishedIsStored` | internal-packages/dashboard-agent-db/src/queries.ts:440-469 | in every interleaving a finished append or batch has its messages stored unless the chat is deleted |
| `Races.LostRaceBurnsAPosition` | internal-packages/dashboard-agent-db/src/queries.ts:440-469 | a concrete interleaving of two appends of one message in which the loser leaves a gap |
| `Races.LostRacesBurnPositions` | internal-packages/dashboard-agent-db/src/queries.ts:440-469 | in every interleaving the allocator runs ahead of the rows by exactly one position for each append that lost its race |
| `Races.GapFreeIff` | internal-packages/dashboard-agent-db/src/queries.ts:282-379 | a chat without gaps gets one in a run exactly when an append loses its race |
| `Races.DifferentMessagesLeaveNoGap` | internal-packages/dashboard-agent-db/src/queries.ts:282-379 | concurrent writers leave no gap as long as no append shares its message with another writer |
| `LockOrder.NeverWaitsHoldingAChat` | internal-packages/dashboard-agent-db/src/queries.ts:544-590 | in every reachable lock state no transaction waits for an investigation row while holding a chat row |
| `LockOrder.NoDeadlock` | internal-packages/dashboard-agent-db/src/queries.ts:994-1011 | among any number of transactions, retention included, no chain of waits closes on itself while lists are in one common order and no turn settles or stores on a chat under retention |
| `LockOrder.OneSettlementIsInOrder` | internal-packages/dashboard-agent-db/src/queries.ts:544-590 | a turn with at most one settlement is in every order, exactly unless it settles or stores on a chat under retention |
| `LockOrder.OppositeOrdersDeadlock` | internal-packages/dashboard-agent-db/src/queries.ts:547-566 | two turns of one chat settling the same two rows in opposite orders can deadlock |
| `LockOrder.MutualWaitIff` | internal-packages/dashboard-agent-db/src/queries.ts:544-697 | two lanes can come to wait for each other exactly when they lock two common rows in opposite orders without a common row before |
| `LockOrder.MutualWaitCrosses` | internal-packages/dashboard-agent-db/src/queries.ts:544-697 | in any run of any number of lanes only such pairs ever wait for each other |
| `LockOrder.TurnCrossesRetention` | internal-packages/dashboard-agent-db/src/queries.ts:650-664 | when a turn and retention can deadlock: the turn needs a session row retention takes first and has a row retention takes later, or both take two investigation rows in opposite orders; with one settlement only the former |
| `LockOrder.RetentionDeadlock` | internal-packages/dashboard-agent-db/src/queries.ts:650-664 | a turn with one settlement on a soft-deleted chat and the retention of that chat can deadlock |
| `Investigation.ForceSettledRenders` | internal-packages/dashboard-agent-contracts/src/blocks.ts:498-506 | for every state the schema accepts the force-settled state is accepted too: inconclusive, low confidence, no progress, no remediation, everything else kept |
| `Investigation.SqlSettledRendersIff` | internal-packages/dashboard-agent-db/src/queries.ts:947-975 | the SQL merge renders exactly when the fields it leaves alone are valid: title, checkNext and those no rule reads; a mistyped field it drops or replaces does no harm |
| `Investigation.SweepKeepsTheNote` | internal-packages/dashboard-agent-db/src/queries.ts:957 | the sweep's headline is the stored one without its leading spaces, a space and the whole note; the note alone if nothing is stored |
| `Investigation.TurnKeepsTheNote` | internal-packages/dashboard-agent-contracts/src/blocks.ts:498-506 | the turn's headline is the trimmed one, a space and the whole note |
| `Investigation.SettlePathsAgreeIff` | internal-packages/dashboard-agent-contracts/src/blocks.ts:498-506 | the runtime's and the sweep's settled states are equal exactly when both trims agree on the headline |
| `Investigation.SettlementIdInjective` | internal-packages/dashboard-agent-db/src/queries.ts:785-790 | different investigations or revisions have different settlement message ids |
| `Cards.CardsInMessage` | internal-packages/dashboard-agent/src/agent-runtime.ts:219-236 | the investigation cards of one message, in order |
| `Cards.CardsAreShown` | internal-packages/dashboard-agent/src/agent-runtime.ts:206-236 | a card is among a transcript's exactly when an investigation block in some view output or view data part of some message shows it: its id, its revision or 0, its state if the schema accepts it |
| `Cards.LatestCards` | internal-packages/dashboard-agent/src/agent-runtime.ts:239-248 | highest revision per id, the last one on ties, in the order ids first appear, for every transcript |
| `Cards.LatestUnique` | internal-packages/dashboard-agent/src/agent-runtime.ts:239-248 | that description leaves one answer |
| `Cards.LatestIgnoresOrder` | internal-packages/dashboard-agent/src/agent-runtime.ts:239-248 | with no two different cards of one id and revision, the order of messages does not matter |
| `Cards.StaleRenderChangesNothing` | internal-packages/dashboard-agent/src/agent-runtime.ts:239-248 | a render older than one already there changes nothing wherever it lands |
| `Cards.CollectDurableState` | internal-packages/dashboard-agent/src/compaction.ts:138-152 | pins exactly the ids whose winning card parses and is in progress, each once, with that card's title and revision, in the order ids first appear |
| `Cards.LiveIsInProgress` | internal-packages/dashboard-agent/src/compaction.ts:142 | live means parsed with outcome in_progress |
| `NoSpinner.SweepCloses` | internal-packages/dashboard-agent-db/src/queries.ts:990-1012 | after the sweep settles a row on a live chat the transcript holds the card of exactly the new revision |
| `NoSpinner.CloseCloses` | internal-packages/dashboard-agent-db/src/queries.ts:1055-1146 | whenever the caller's lane bumps the revision its card is stored under the given id at that revision |
| `NoSpinner.TurnCloses` | internal-packages/dashboard-agent-db/src/queries.ts:544-611 | every row a turn settled is terminal at a new revision and its card is in the transcript |
| `NoSpinner.PanelAgreesWithRow` | internal-packages/dashboard-agent/src/agent-runtime.ts:239-248 | what the panel resolves from the transcript is the row's own revision and terminal state |
| `NoSpinner.StepKeepsHonest` | internal-packages/dashboard-agent-db/src/queries.ts:544-1146 | stored cards never run ahead of their row, through every operation |
| `NoSpinner.ClosedForGood` | internal-packages/dashboard-agent-db/src/queries.ts:544-1146 | no permanent spinner: the agreement survives every later store, append and turn until the row is revised again |
| `NoSpinner.TurnsSpareSettlementCards` | internal-packages/dashboard-agent-db/src/queries.ts:579-588 | no turn, whatever ids it names, can rewrite a settlement card |
| `NoSpinner.EmptyIsHonest` | internal-packages/dashboard-agent-db/src/queries.ts:156-176 | the empty store meets the assumptions |
| `TurnClose.LastWordDecides` | internal-packages/dashboard-agent/src/agent-runtime.ts:122-144 | only the last revision of a row counts: the row is tracked exactly when that one is valid and in progress |
| `TurnClose.AgentRuntime.TrackInvestigationOutcome` | internal-packages/dashboard-agent/src/agent-runtime.ts:122-144 | the tracker after one committed revision; other chats' entries untouched |
| `TurnClose.AgentRuntime.PendingInvestigationSettlements` | internal-packages/dashboard-agent/src/agent-runtime.ts:155-165 | one terminal, renderable state per tracked row and nothing else |
| `TurnClose.AgentRuntime.OnTurnComplete` | internal-packages/dashboard-agent/src/dashboard-agent.ts:425-472 | the closing write of a turn, all or nothing: once committed every tracked row still in its context is terminal at its next revision, and only then are the entries dropped |
| `TurnClose.MergeProper` | internal-packages/dashboard-agent/src/dashboard-agent.ts:97-102 | merging keeps the current messages in front, adds exactly the incoming ones with new ids, and keeps ids unique |
| `TurnClose.ClosingWriteGoesThrough` | internal-packages/dashboard-agent-db/src/queries.ts:547-590 | with unique transcript ids and renderable states the closing write never throws |
| `TurnClose.SettlesEverything` | internal-packages/dashboard-agent-db/src/queries.ts:547-571 | each pending settlement that still belongs to the chat gets exactly one new revision with its state; other rows stay |
| `TurnClose.TurnLeavesNothingRunning` | internal-packages/dashboard-agent-db/src/queries.ts:547-571 | after the commit every surviving row the turn left in progress is terminal |
| `TurnClose.PendingClosesEntries` | internal-packages/dashboard-agent-db/src/queries.ts:547-571 | the same for every tracked entry at once |
| `TurnClose.HistoryIsStored` | internal-packages/dashboard-agent/src/agent-runtime.ts:184-201 | the history the agent continues with, settlement cards included, holds no message the store lacks |
| `PercentCoding.DecodeEncode` | internal-packages/dashboard-agent-contracts/src/trigger-uri.ts:263-269 | decodeURIComponent turns back whatever encodeURIComponent returned, surrogate pairs included |
| `PercentCoding.EncodeIff` | internal-packages/dashboard-agent-contracts/src/trigger-uri.ts:263-269 | encodeURIComponent throws exactly on a lone surrogate |
| `PercentCoding.EncodedIsPlain` | internal-packages/dashboard-agent-contracts/src/trigger-uri.ts:263-269 | its output holds unreserved characters and escapes only, so no delimiter of the grammar |
| `PercentCoding.DecodeEscapes` | internal-packages/dashboard-agent-contracts/src/trigger-uri.ts:86-101 | the escapes of one scalar value's UTF-8 decode to its UTF-16 |
| `PercentCoding.DecodeIff` | internal-packages/dashboard-agent-contracts/src/trigger-uri.ts:91-94 | decodeURIComponent returns exactly on texts cut into units other than % and escaped UTF-8 of scalar values, hex digits in either case, and gives what the pieces mean |
| `PercentCoding.ValidIsUtf8` | internal-packages/dashboard-agent-contracts/src/trigger-uri.ts:91-94 | a byte sequence that is not overlong, no surrogate and within Unicode is the UTF-8 of the value it is read as |
| `PercentCoding.EncodeLeavesAlone` | internal-packages/dashboard-agent-contracts/src/trigger-uri.ts:263-269 | encodeURIComponent leaves letters, digits and nine marks as they are and nothing else |
| `PercentCoding.Utf8ReadsBack` | internal-packages/dashboard-agent-contracts/src/trigger-uri.ts:263-269 | UTF-8 of a scalar value is one valid sequence of the announced length and reads back |
| `SplitJoin.SplitOfJoin` | internal-packages/dashboard-agent-contracts/src/trigger-uri.ts:80 | splitting undoes joining parts that do not hold the separator |
| `SplitJoin.JoinSplit` | internal-packages/dashboard-agent-contracts/src/trigger-uri.ts:226-230 | joining undoes splitting |
| `TriggerUri.SafeParseTriggerUri` | internal-packages/dashboard-agent-contracts/src/trigger-uri.ts:61-181 | the parser with its segment loop computes `Parse`, and gives a value exactly when the text is in the grammar for it (`InGrammar`) |
| `TriggerUri.AcceptedIff` | internal-packages/dashboard-agent-contracts/src/trigger-uri.ts:61-181 | the grammar both ways: a text is accepted as a value exactly when it is the scheme, delimiter-free raw segments that decode to the value's own and no or an empty query; for a source, segments source, sha and at least one part whose join is the path, and a query whose non-empty parameters are all lines of at least 1, the last one the value's |
| `TriggerUri.UnknownKindIsRejected` | internal-packages/dashboard-agent-contracts/src/trigger-uri.ts:178-179 | a text whose third segment is none of the eight resource kinds is rejected, whatever follows |
| `TriggerUri.FormDecodeEscaped` | internal-packages/dashboard-agent-contracts/src/trigger-uri.ts:281-288 | a fully escaped ASCII key or value of a query reads as it was |
| `TriggerUri.ParseLineParam` | internal-packages/dashboard-agent-contracts/src/trigger-uri.ts:279-300 | the parameter loop: the last line wins, one bad parameter fails the query, an accepted line is the rounded positive integer or infinity |
| `TriggerUri.UriText` | internal-packages/dashboard-agent-contracts/src/trigger-uri.ts:197-241 | a printed URI is the scheme, its encoded segments joined by slashes, and its query |
| `TriggerUri.ParseRaw` | internal-packages/dashboard-agent-contracts/src/trigger-uri.ts:61-104 | the parser takes any text of delimiter-free raw segments and a query apart into exactly those |
| `TriggerUri.LineReadsBack` | internal-packages/dashboard-agent-contracts/src/trigger-uri.ts:231-232 | the printed line parameter parses back to the line below 10^21, and fails the query from there on |
| `TriggerUri.ParseFormat` | internal-packages/dashboard-agent-contracts/src/trigger-uri.ts:197-241 | parsing a printed URI returns the original value, for all nine kinds, exactly unless its line is 10^21 or more; then the parser rejects it |
| `TriggerUri.FormatInjective` | internal-packages/dashboard-agent-contracts/src/trigger-uri.ts:197-241 | two values with one text are one value, lines of any size included |
| `TriggerUri.FormatIff` | internal-packages/dashboard-agent-contracts/src/trigger-uri.ts:263-277 | printing succeeds exactly when every field is non-empty well-formed UTF-16, no path part is empty and a line is a positive integer |
| `TriggerUri.AcceptedPrintsIff` | internal-packages/dashboard-agent-contracts/src/trigger-uri.ts:61-181 | an accepted text's value can be printed exactly when it holds no lone surrogate, its path no empty part and its line is finite |
| `TriggerUri.AcceptedRoundTripsIff` | internal-packages/dashboard-agent-contracts/src/trigger-uri.ts:61-241 | it prints and parses back to itself exactly when, besides, its line is below 10^21 |
| `TriggerUri.CanonicalIsStableIff` | internal-packages/dashboard-agent-contracts/src/trigger-uri.ts:197-241 | canonicalizing keeps the meaning and is idempotent exactly when the line is below 10^21 |
| `TriggerUri.CanonicalDecidesMeaning` | internal-packages/dashboard-agent-contracts/src/trigger-uri.ts:197-241 | two accepted texts share a canonical form exactly when they mean the same |
| `TriggerUri.LoneSurrogateIsAccepted` | internal-packages/dashboard-agent-contracts/src/trigger-uri.ts:88-102 | a concrete accepted text with a raw lone surrogate that cannot be printed |
| `TriggerUri.EscapedSlashIsAccepted` | internal-packages/dashboard-agent-contracts/src/trigger-uri.ts:88-176 | a concrete accepted text with an escaped slash at the end of its path that cannot be printed |
| `TriggerUri.ExponentIsRejected` | internal-packages/dashboard-agent-contracts/src/trigger-uri.ts:271-300 | the concrete line 1000000000000000000000: accepted, printed with an exponent, and rejected when parsed again |
| `TriggerUri.InfiniteLineIsAccepted` | internal-packages/dashboard-agent-contracts/src/trigger-uri.ts:271-300 | the concrete line of a one and 340 zeros: accepted as infinity, which cannot be printed |
| `JsNumber.RoundedMonotone` | internal-packages/dashboard-agent-contracts/src/trigger-uri.ts:292-296 | rounding a digit string to a double keeps the order of numbers |
| `JsNumber.RoundedIsExact` | internal-packages/dashboard-agent-contracts/src/trigger-uri.ts:292-296 | what a digit string denotes is a double: rounding it again changes nothing |
| `JsNumber.RoundedIsNearest` | internal-packages/dashboard-agent-contracts/src/trigger-uri.ts:292-296 | what a digit string denotes, short of infinity, is a double (53 bits and a power of two) that no other double is nearer to |
| `JsNumber.TiesToEven` | internal-packages/dashboard-agent-contracts/src/trigger-uri.ts:292-296 | of two nearest doubles it is the one with the even significand |
| `JsNumber.InfiniteIff` | internal-packages/dashboard-agent-contracts/src/trigger-uri.ts:292-296 | it is infinity exactly when the nearest value is 2^1024 or more |
| `JsNumber.ShortestHasZeros` | internal-packages/dashboard-agent-contracts/src/trigger-uri.ts:232 | no number with more trailing zeros than the printed one denotes the same line |
| `JsNumber.ExponentIff` | internal-packages/dashboard-agent-contracts/src/trigger-uri.ts:232 | an integer prints with an exponent exactly from 10^21 on |
| `JsNumber.ToStringInjective` | internal-packages/dashboard-agent-contracts/src/trigger-uri.ts:232 | two integers that print alike are one |
| `JsNumber.LargeIsInfinite` | internal-packages/dashboard-agent-contracts/src/trigger-uri.ts:292-296 | every digit string from 2^1024 on denotes infinity |
| `TypeKinds.KindCollector.CollectKinds` | apps/webapp/scripts/runOpsLegacyGuard.ts:363-380 | the shared visited set grows by what the type reaches outside it, and the result is the kinds of exactly those |
| `TypeKinds.ClassifyType` | apps/webapp/scripts/runOpsLegacyGuard.ts:356-361 | control plane exactly when some control-plane leaf is reachable, run-ops when only run-ops leaves are, on every finite type graph, cycles included |
| `TypeKinds.VisitedIsReachable` | apps/webapp/scripts/runOpsLegacyGuard.ts:363-380 | a closed visited set that went nowhere else is the set of reachable types |
| `TypeKinds.UnionExposesItsMembers` | apps/webapp/scripts/runOpsLegacyGuard.ts:353-361 | a union shows a package exactly when one of its legs does |
| `LegacyHandle.OriginWalk.ReceiverIsLegacyHandle` | apps/webapp/scripts/runOpsLegacyGuard.ts:385-415 | terminates on cyclic aliases and is true exactly when following initializers and transaction arguments reaches a legacy handle name |
| `LegacyHandle.OriginWalk.TxParamOriginIsLegacy` | apps/webapp/scripts/runOpsLegacyGuard.ts:419-438 | a callback parameter is legacy exactly when the first argument of its transaction call is |
| `LegacyHandle.ComesFromOrigin` | apps/webapp/scripts/runOpsLegacyGuard.ts:385-415 | an expression comes from a legacy handle when it names one or its origin does |
| `LegacyHandle.LegacyByShape` | apps/webapp/scripts/runOpsLegacyGuard.ts:392-438 | the rule on the syntax tree: through wrappers, by one of two names, by a variable's initializer, or for a parameter by the client of the transaction call its callback is an argument of |
| `LegacyHandle.TxOriginIs` | apps/webapp/scripts/runOpsLegacyGuard.ts:424-436 | a parameter's origin is the first argument of a call to one of two functions that has the parenthesized callback among its arguments |
| `LegacyHandle.CycleHasNoHandle` | apps/webapp/scripts/runOpsLegacyGuard.ts:390-391 | aliases that lead back into what was followed never reach a handle |
| `SeamWalk.ModelTable` | apps/webapp/scripts/runOpsLegacyGuard.ts:206-220 | the relation and crossing rows of one model, the last field of a name winning |
| `SeamWalk.BuildTables` | apps/webapp/scripts/runOpsLegacyGuard.ts:206-220 | the tables hold exactly the schema's relations and exactly its crossing ones |
| `SeamWalk.CrossesIff` | apps/webapp/scripts/runOpsLegacyGuard.ts:206-220 | a relation crosses exactly when its type is another control-plane model's name, no scalar, and one of the two models is in the run graph |
| `SeamWalk.TargetIff` | apps/webapp/scripts/runOpsLegacyGuard.ts:206-220 | of several relation fields with one name the last is followed |
| `SeamWalk.ObjectStandsFor` | apps/webapp/scripts/runOpsLegacyGuard.ts:454-474 | the literal an argument stands for is the one under its wrappers and aliases |
| `SeamWalk.HitList.WalkSelectionMap` | apps/webapp/scripts/runOpsLegacyGuard.ts:650-672 | the hits of a selection, pushed in source order |
| `SeamWalk.HitList.WalkRelationArgs` | apps/webapp/scripts/runOpsLegacyGuard.ts:674-687 | the hits under select and include, pushed in source order |
| `SeamWalk.HitsAreTrails` | apps/webapp/scripts/runOpsLegacyGuard.ts:650-687 | a hit is reported exactly when an alternating path of selects and relations leads to a crossing relation |
| `SeamWalk.CollectCrossSeamHits` | apps/webapp/scripts/runOpsLegacyGuard.ts:689-705 | the same for a call's first argument; no object literal, no hits |
| `SeamWalk.TrailEndsAtSeam` | apps/webapp/scripts/runOpsLegacyGuard.ts:209-216 | every reported relation has its owner and its target on opposite sides of the seam |
| `SeamWalk.HitsBySchema` | apps/webapp/scripts/runOpsLegacyGuard.ts:206-216 | with the tables of a schema, a hit is reported exactly when properties named select or include, and relations of the schema between them, lead to a property whose relation crosses the seam; stated on names and object literals |
| `SeamWalk.SelectedCrossingIsHit` | apps/webapp/scripts/runOpsLegacyGuard.ts:650-687 | a key of an include or select that crosses from the model is reported, and so is whatever the arguments nested under a relation report |
| `SeamWalk.OthersAddNothing` | apps/webapp/scripts/runOpsLegacyGuard.ts:680-686 | properties that are no select or include assigned an object literal add no hit |
| `SeamWalk.IncludedRunsAreReported` | apps/webapp/scripts/runOpsLegacyGuard.ts:1131-1140 | a concrete include of task runs and organization on a project: the runs are the one hit |
| `SeamWalk.Resolver.ToObjectLiteral` | apps/webapp/scripts/runOpsLegacyGuard.ts:454-474 | follows wrappers and aliases to the object literal they lead to, and gives none exactly when they lead to none, cyclic aliases included |
| `GuardScan.Scan.VisitRunGraphDelegate` | apps/webapp/scripts/runOpsLegacyGuard.ts:802-848 | one site of detector (i): allowed, honoured, rejected, routed or flagged |
| `GuardScan.Scan.VisitSelections` | apps/webapp/scripts/runOpsLegacyGuard.ts:851-874 | one site of detector (ii): its crossing relations on a control-plane client become violations |
| `GuardScan.Scan.ScanProgram` | apps/webapp/scripts/runOpsLegacyGuard.ts:775-911 | over all sites, the violations, honoured and rejected annotations are exactly those some site causes, and every hazard without an excuse is among the failing ones |
| `GuardScan.HazardReportedIff` | apps/webapp/scripts/runOpsLegacyGuard.ts:802-848 | after a scan a hazardous call, read or write, is a violation or a rejected annotation unless a legacy handle with a legacy-only model or annotation, or a routed annotation inside a read-through call, covers it; alone on its line exactly then |
| `GuardScan.VerdictIff` | apps/webapp/scripts/runOpsLegacyGuard.ts:802-848 | which hazardous calls are honoured, rejected and flagged, by handle, model, annotations and read-through context |
| `GuardScan.RoutedWriteIsSilent` | apps/webapp/scripts/runOpsLegacyGuard.ts:832-836 | a concrete write under a routed annotation that no list of the scan names |
| `Redaction.Allowed` | internal-packages/dashboard-agent/src/eval-policy.ts:82-182 | every tool's allow-list lets it say that it failed and keeps out an error category of its own |
| `Redaction.WalkValue` | internal-packages/dashboard-agent/src/eval-policy.ts:223-233 | the recursive walk with its loops computes `Walk`, and its result shows along every path of items and allowed fields what is there: equal primitives, arrays of the same length, objects with the same keys in order, other fields withheld as name and size, containers at the cap as a mark with their size |
| `Redaction.WalkKeepsAllowed` | internal-packages/dashboard-agent/src/eval-policy.ts:223-233 | the same for every value, allow-list and starting depth |
| `Redaction.TopField` | internal-packages/dashboard-agent/src/eval-policy.ts:216-233 | one top-level field of a tool's object: walked if allowed, withheld as name and size if not or if it is the failure's message |
| `Redaction.ValueArrives` | internal-packages/dashboard-agent/src/eval-policy.ts:216-233 | under every such allow-list, what lies at most 8 steps down items and allowed fields arrives as it was, only the failure's message withheld |
| `Redaction.ToolValueArrives` | internal-packages/dashboard-agent/src/eval-policy.ts:216-233 | the same for redactEvalToolValue of every tool |
| `Redaction.CategoryComesFirst` | internal-packages/dashboard-agent/src/eval-policy.ts:367-379 | a failed output starts with the derived category, and no field of the tool's own has that name |
| `Redaction.WalkShows` | internal-packages/dashboard-agent/src/eval-policy.ts:184-233 | two values redact to the same result if and only if they agree on what allowed keys reach above the depth cap and on shape elsewhere |
| `Redaction.Noninterference` | internal-packages/dashboard-agent/src/eval-policy.ts:216-233 | under every such allow-list, values that agree so, a failure's message counting by its length only, redact alike but for one of seven category names |
| `Redaction.ErroredSurvivesRedaction` | internal-packages/dashboard-agent/src/eval-policy.ts:260-280 | under every such allow-list, whether a tool call failed reads the same before and after redaction, for every value |
| `Redaction.ToolNoninterference` | internal-packages/dashboard-agent/src/eval-policy.ts:216-221 | noninterference for redactEvalToolValue of every tool |
| `Redaction.ToolErroredSurvives` | internal-packages/dashboard-agent/src/eval-policy.ts:216-221 | the failure verdict survives redactEvalToolValue of every tool |
| `Redaction.NoErrorSentence` | internal-packages/dashboard-agent/src/eval-policy.ts:367-379 | no failure message survives at the top level |
| `Compaction.WindowStart` | internal-packages/dashboard-agent/src/compaction.ts:198-208 | the earliest start both caps allow, the last message always fitting |
| `Compaction.SafeTail` | internal-packages/dashboard-agent/src/compaction.ts:193-214 | the window without leading tool messages and without trailing calls |
| `Compaction.TailUnique` | internal-packages/dashboard-agent/src/compaction.ts:193-214 | the caps and the trimming rule leave one possible tail |
| `Compaction.TailBounds` | internal-packages/dashboard-agent/src/compaction.ts:193-214 | at most `count` messages, and at most `maxChars` unless it is a single message |
| `Compaction.TailIsComplete` | internal-packages/dashboard-agent/src/compaction.ts:188-214 | on a history whose calls and results pair up, every result in the tail has its call and every call its result |
| `Compaction.BuildCompactedModelMessages` | internal-packages/dashboard-agent/src/compaction.ts:220-230 | the rebuilt history is the summary and the sanitized tail, with calls and results still paired |
| `Compaction.SanitizingKeepsIds` | internal-packages/dashboard-agent/src/agent-runtime.ts:337-353 | coercing bad inputs changes no role, call or result and leaves no bad input |
| `Compaction.SanitizingChangesInputsOnly` | internal-packages/dashboard-agent/src/agent-runtime.ts:345-351 | only inputs that are no objects are replaced, by an empty object, and only in assistant messages; every other part and message is the same |
| `StepCache.MarkStepCacheBreakpoint` | internal-packages/dashboard-agent/src/step-cache.ts:51-76 | the forEach loop and the spreads compute `MarkStep` |
| `StepCache.OneMarkOnTheLast` | internal-packages/dashboard-agent/src/step-cache.ts:51-76 | at most one step mark, on the last message, exactly when the tail is worth one; longer-lived marks stay where they are |
| `StepCache.TailIs` | internal-packages/dashboard-agent/src/step-cache.ts:54-59 | the tail starts right after the last message whose mark has another ttl, or with the first message |
| `StepCache.JsonLengthIs` | internal-packages/dashboard-agent/src/step-cache.ts:60 | the size the threshold is compared with is the length of the JSON text itself |
| `StepCache.OnlyTheMarkChanges` | internal-packages/dashboard-agent/src/step-cache.ts:32-76 | nothing else changes, except on a marked last message whose options were not tidy, and then something does |
| `StepCache.IdempotentIff` | internal-packages/dashboard-agent/src/step-cache.ts:51-76 | a second step changes nothing exactly when the tail is too short for the first, or is still long enough with its old marks stripped and its last message marked |
| `StepCache.FreshMarkIsStable` | internal-packages/dashboard-agent/src/step-cache.ts:51-76 | on a history without step marks whose last message is tidy a second step changes nothing |
| `StepCache.TailOfRemarked` | internal-packages/dashboard-agent/src/step-cache.ts:55-60 | the tail a second step measures is the first one's, its old marks stripped and its last message marked |
| `StepCache.StrippedShrinks` | internal-packages/dashboard-agent/src/step-cache.ts:39-47 | stripping step marks never makes the JSON longer |
| `StepCache.MarkingGrows` | internal-packages/dashboard-agent/src/step-cache.ts:66-75 | a mark on a tidy message without one never makes its JSON shorter |
| `StepCache.OldMarkCanFlip` | internal-packages/dashboard-agent/src/step-cache.ts:60-63 | a concrete history, one mark a step has left and a new last message, on which a second step does change something |
| `Recovery.SelectStuck` | scripts/recover-stuck-runs.ts:226-243 | the stuck rows: queued in the database, running in Redis |
| `Recovery.Redis.RecoverOne` | scripts/recover-stuck-runs.ts:282-340 | one run's three writes up to the one that fails |
| `Recovery.Redis.RecoverStuckRuns` | scripts/recover-stuck-runs.ts:183-341 | the keys after every stuck run got as far as it got; a dry run writes nothing |
| `Recovery.NoRunIsLost` | scripts/recover-stuck-runs.ts:313-316 | stopped after any write, a stuck run is in its own queue (organization, project, environment, queue and concurrency key) or in the environment's set, and its place in each set is exactly what its progress says |
| `Recovery.OthersUntouched` | scripts/recover-stuck-runs.ts:226-341 | a place and score is kept unless some row has its run stuck in exactly that queue and concurrency key |
| `Recovery.ReachedTwice` | scripts/recover-stuck-runs.ts:279-340 | two runs of the script get as far as the further of them, run by run |
| `Recovery.RecoveredReaches` | scripts/recover-stuck-runs.ts:308-319 | what the script leaves, scores aside, is each stuck run's first writes and nothing else |
| `Recovery.CrashesConverge` | scripts/recover-stuck-runs.ts:279-340 | however often the script stopped short, each time with its own clock, a final uninterrupted run leaves the membership one uninterrupted run would have left |

## Left out

- Postgres, Drizzle and Redis themselves: only table and set contents, row locks, statement
  snapshots, commit and rollback are modelled. Timestamps, titles, pins and tokens are opaque or
  absent; listing, counting and lookup queries, title changes and turn evaluations are not modelled.
- Error messages and log lines: a transaction that throws ends as `Aborted`, which carries no text.
- Integer widths of positions and revisions: they are unbounded here.
- Row locks of single message rows in `LockOrder`: turns lock them after the row of a live chat,
  retention before anything else but only for chats soft-deleted before, so no turn meets it there.
- Which rows a statement matches is given with each lane of `LockOrder`, not read off the tables;
  watches, evaluations and waits on unique indexes are left out.
- Messages in `Races` carry only their id: bodies and the finalizing update are in `Store` alone.
- An empty investigation id in the caller's settle lane: ids are non-empty there by type.
- Investigation states that are no JSON object; schema fields no rule looks at are one verdict and
  one text.
- TurnClose.AgentRuntime.PendingInvestigationSettlements: leaves the order of the settlements open, because the
  model's map has no insertion order.
- TriggerUri.FormatTriggerUri: fractions, not-a-number and negative infinity are one value, as the printer throws on each of them alike.
- Search parameters outside ASCII are only known to differ from `line` and from digits.
- Redaction.Noninterference: goes one way at the top level, because a tool can forge the shape the redaction leaves for a
  muted message; below the top level `WalkShows` goes both ways.
- The classification of failures by regular expressions: any function into the seven category names.
- Object keys that JavaScript treats specially: `__proto__`, and integer-like names, which are
  enumerated before all others.
- JSON lengths in `Compaction`: any size function. In `StepCache` property values are given as JSON
  text, and a `cacheControl` comes with its JSON next to its ttl.
- Compaction.BuildCompactedModelMessages: takes the note about open investigations as a text; which investigations it lists
  is `Cards.CollectDurableState`, and inserting it into a history the SDK rebuilt is not modelled.
- The TypeScript checker: types, declarations and syntax trees are given, as finite graphs and
  tables; which package a file belongs to, comment lookup and read-through contexts are given too.
- SeamWalk.CollectCrossSeamHits: walks arguments as trees. Cyclic aliases are no object there, as `Resolver.ToObjectLiteral`
  shows on the node graph; an object nested in itself, on which the original's walk does not return, has no tree.
- GuardScan.Scan.ScanProgram: detector (iii), sorting and the baseline file are left out, and the set of violations
  does not tell apart what the original's joined key strings might confuse.
- Recovery.Redis.RecoverStuckRuns: key strings are records of their parts, and no consumer takes runs off the queue meanwhile.
- Prompts, model calls, HTTP, user interface, supervisors and environment schemas: no state to reason about.

/**
 * The agent's end of a turn: the investigations it left running are tracked as it commits
 * them, and the turn's one write closes them together with the transcript.
 */
module TurnClose {
  import opened Wrappers
  import opened Investigation
  import opened Store
  import S = AgentStore
  import opened StoreRuns
  import opened TranscriptList
  import opened NoSpinner

  datatype OpenInvestigation = OpenInvestigation(projectRef: string, environmentRef: string, state: State)

  type OpenMap = map<string, map<InvestigationId, OpenInvestigation>>

  /** The entries of one chat; a chat with none has no key. */
  function EntriesOf(open: OpenMap, chatId: string): map<InvestigationId, OpenInvestigation> {
    if chatId in open then open[chatId] else map[]
  }

  ghost predicate Tracked(open: OpenMap) {
    forall c | c in open :: open[c] != map[] && AllRunning(open[c])
  }

  ghost predicate AllRunning(entries: map<InvestigationId, OpenInvestigation>) {
    forall i | i in entries :: StillRunning(entries[i])
  }

  /** A committed revision, as the turn reports it. */
  datatype Commitment = Commitment(id: InvestigationId, entry: OpenInvestigation)

  predicate StillRunning(e: OpenInvestigation) { Renderable(e.state) && Open(e.state) }

  function Noted(entries: map<InvestigationId, OpenInvestigation>, c: Commitment): map<InvestigationId, OpenInvestigation> {
    if StillRunning(c.entry) then entries[c.id := c.entry] else entries - {c.id}
  }

  lemma NotedRunning(entries: map<InvestigationId, OpenInvestigation>, c: Commitment)
    requires AllRunning(entries)
    ensures AllRunning(Noted(entries, c))
    ensures StillRunning(c.entry) ==> Noted(entries, c) != map[]
  {
    if StillRunning(c.entry) { assert c.id in Noted(entries, c); }
  }

  ghost function NotedAll(entries: map<InvestigationId, OpenInvestigation>, events: seq<Commitment>)
    : map<InvestigationId, OpenInvestigation>
  {
    if events == [] then entries else Noted(NotedAll(entries, events[..|events| - 1]), events[|events| - 1])
  }

  /** `last` is the turn's last word on its row. */
  ghost predicate LastWord(events: seq<Commitment>, k: nat) {
    k < |events| && forall j | k < j < |events| :: events[j].id != events[k].id
  }

  /** Only the last revision of each row counts: it is tracked exactly when still running. */
  lemma {:induction false} LastWordDecides(entries: map<InvestigationId, OpenInvestigation>, events: seq<Commitment>, k: nat)
    requires LastWord(events, k)
    ensures var open := NotedAll(entries, events); var c := events[k];
      && (c.id in open <==> Renderable(c.entry.state) && c.entry.state.outcome == Some(InProgress))
      && (c.id in open ==> open[c.id] == c.entry)
  {
    if k < |events| - 1 {
      assert events[|events| - 1].id != events[k].id;
      LastWordDecides(entries, events[..|events| - 1], k);
    }
  }

  // ---------------------------------------------------------------- merging by id

  /** Append-only by message id. */
  function MergeMessagesById(current: seq<Message>, incoming: seq<Message>): seq<Message> {
    current + Without(incoming, IdsOf(current))
  }

  /** A transcript as the runtime holds it: unique ids, every message with a role. */
  ghost predicate ProperTranscript(messages: seq<Message>) {
    WellIdentified(messages) && forall m | m in messages :: HasRole(m)
  }

  lemma MergeProper(current: seq<Message>, incoming: seq<Message>)
    requires ProperTranscript(current) && ProperTranscript(incoming)
    ensures ProperTranscript(MergeMessagesById(current, incoming))
    ensures current <= MergeMessagesById(current, incoming)
    ensures forall m :: m in MergeMessagesById(current, incoming) <==> m in current || (m in incoming && m.id !in IdsOf(current))
    ensures IdsOf(MergeMessagesById(current, incoming)) == IdsOf(current) + IdsOf(incoming)
  {
    var rest := Without(incoming, IdsOf(current));
    S.WithoutMembers(incoming, IdsOf(current));
    S.WithoutDistinct(incoming, IdsOf(current));
    var merged := current + rest;
    forall i, j | 0 <= i < j < |merged| ensures merged[i].id != merged[j].id {
      if i < |current| <= j {
        assert merged[i] in current && merged[j] in rest;
      }
    }
    forall i | 0 <= i < |merged| ensures HasId(merged[i]) {
      if i >= |current| {
        assert merged[i] in rest;
        var k :| 0 <= k < |incoming| && incoming[k] == merged[i];
      }
    }
    assert forall m :: m in merged <==> m in current || m in rest;
  }

  // ---------------------------------------------------------------- the closing write

  lemma {:induction false} SettlesWithoutThrowing(db: Db, chatId: string, pending: seq<Pending>)
    requires forall p | p in pending :: Renderable(p.state)
    ensures SettleAll(db, chatId, pending).Committed?
    ensures var s := SettleAll(db, chatId, pending).value; ProperTranscript(s.cards) && LoopHonest(db, s)
  {
    if pending != [] {
      var init, last := pending[..|pending| - 1], pending[|pending| - 1];
      assert last in pending && forall p | p in init :: p in pending;
      SettlesWithoutThrowing(db, chatId, init);
      NextCardProper(db, SettleAll(db, chatId, init).value, chatId, last);
      SettleAllHonest(db, chatId, pending);
    }
  }

  lemma NextCardProper(db: Db, before: Settlements, chatId: string, p: Pending)
    requires LoopHonest(db, before) && ProperTranscript(before.cards) && Renderable(p.state)
    ensures SettleOne(before, chatId, p).Committed? && ProperTranscript(SettleOne(before, chatId, p).value.cards)
  {
    var s := SettleOne(before, chatId, p).value;
    if s != before {
      var revision := before.db.investigations[p.id].revision + 1;
      var card := SettlementMessage(p.id, revision, p.state, None).value;
      assert s.cards == before.cards + [card];
      SettlementCards(p.id, revision, p.state, None);
      SettlementIdForm(p.id, revision);
      forall m | m in before.cards ensures m.id != card.id {
        var i, r: nat :| m.id == SettlementId(i, r) && SettledAt(db, before.db, i, r);
        if m.id == card.id { SettlementIdInjective(i, r, p.id, revision); }
      }
    }
  }

  /**
   * The closing write always goes through: with unique transcript ids and renderable
   * terminal states no batch has a repeated id, no card fails to render, nothing throws.
   */
  lemma ClosingWriteGoesThrough(db: Db, chatId: string, messages: seq<Message>, session: Session, pending: seq<Pending>, ids: seq<string>)
    requires ProperTranscript(messages) && forall p | p in pending :: Renderable(p.state)
    ensures PersistTurn(db, chatId, messages, session, pending, ids).Committed?
  {
    SettlesWithoutThrowing(db, chatId, pending);
    var s := SettleAll(db, chatId, pending).value;
    MergeProper(messages, s.cards);
    var batch := messages + Unused(s.cards, messages);
    assert batch == MergeMessagesById(messages, s.cards);
    assert forall i | 0 <= i < |batch| :: batch[i] in batch;
    assert RolesReadable(RowsOf(s.db, chatId), batch, Finalizable(ids));
  }

  ghost predicate DistinctPending(pending: seq<Pending>) {
    forall i, j | 0 <= i < j < |pending| :: pending[i].id != pending[j].id
  }

  /** What the turn wanted closed and what became of it. */
  ghost predicate Dealt(db: Db, db': Db, chatId: string, p: Pending) {
    if p.id in db.investigations && InContext(db.investigations[p.id], chatId, p.projectRef, p.environmentRef)
    then && p.id in db'.investigations
         && db'.investigations[p.id] == db.investigations[p.id].(revision := db.investigations[p.id].revision + 1, state := p.state)
    else p.id in db'.investigations <==> p.id in db.investigations
  }

  lemma {:induction false} SettlesEverything(db: Db, chatId: string, pending: seq<Pending>)
    requires DistinctPending(pending) && SettleAll(db, chatId, pending).Committed?
    ensures var s := SettleAll(db, chatId, pending).value;
      && (forall p | p in pending :: Dealt(db, s.db, chatId, p))
      && (forall i | i in db.investigations && (forall p | p in pending :: p.id != i) ::
            i in s.db.investigations && s.db.investigations[i] == db.investigations[i])
      && s.db.investigations.Keys == db.investigations.Keys
  {
    if pending != [] {
      var init, last := pending[..|pending| - 1], pending[|pending| - 1];
      SettlesEverything(db, chatId, init);
      var before, s := SettleAll(db, chatId, init).value, SettleAll(db, chatId, pending).value;
      assert forall p | p in init :: p in pending && p.id != last.id;
      assert last in pending && forall p | p in pending :: p in init || p == last;
      assert Dealt(before.db, s.db, chatId, last);
      forall p | p in init ensures Dealt(db, s.db, chatId, p) {
        assert Dealt(db, before.db, chatId, p);
      }
    }
  }

  /** Every row the turn left running, and that is still this chat's, is terminal afterwards. */
  lemma TurnLeavesNothingRunning(db: Db, chatId: string, messages: seq<Message>, session: Session, pending: seq<Pending>,
                                 ids: seq<string>, p: Pending)
    requires DistinctPending(pending) && p in pending && Terminal(p.state)
    requires PersistTurn(db, chatId, messages, session, pending, ids).Committed?
    requires p.id in db.investigations && InContext(db.investigations[p.id], chatId, p.projectRef, p.environmentRef)
    ensures var db' := PersistTurn(db, chatId, messages, session, pending, ids).value.0;
      && p.id in db'.investigations && db'.investigations[p.id].state == p.state && Terminal(db'.investigations[p.id].state)
      && db'.investigations[p.id].revision == db.investigations[p.id].revision + 1
  {
    SettlesEverything(db, chatId, pending);
    var s := SettleAll(db, chatId, pending).value;
    assert Dealt(db, s.db, chatId, p);
    StoreBatchShape(s.db, chatId, messages + Unused(s.cards, messages), Finalizable(ids));
  }

  // ---------------------------------------------------------------- the history afterwards

  function CardsOfSettled(settled: seq<Settled>): seq<Message> {
    if settled == [] then []
    else
      var last := settled[|settled| - 1];
      var card := SettlementMessage(last.id, last.revision, last.state, None);
      CardsOfSettled(settled[..|settled| - 1]) + if card.Some? then [card.value] else []
  }

  lemma {:induction false} SettledCardsAreCards(db: Db, chatId: string, pending: seq<Pending>)
    requires SettleAll(db, chatId, pending).Committed?
    ensures var s := SettleAll(db, chatId, pending).value; CardsOfSettled(s.settled) == s.cards
  {
    if pending != [] {
      SettledCardsAreCards(db, chatId, pending[..|pending| - 1]);
    }
  }

  /** What the next turn will resend holds no message the store lacks, settlement cards included. */
  lemma HistoryIsStored(db: Db, chatId: string, messages: seq<Message>, session: Session, pending: seq<Pending>, ids: seq<string>)
    requires LiveChat(db, chatId) && PersistTurn(db, chatId, messages, session, pending, ids).Committed?
    ensures var (db', settled) := PersistTurn(db, chatId, messages, session, pending, ids).value;
      IdsOf(MergeMessagesById(messages, CardsOfSettled(settled))) <= RowsOf(db', chatId).Keys
  {
    SettledCardsAreCards(db, chatId, pending);
    SettleAllFrame(db, chatId, pending);
    var s := SettleAll(db, chatId, pending).value;
    var batch := messages + Unused(s.cards, messages);
    BatchIsStored(s.db, chatId, batch, Finalizable(ids));
    assert batch == MergeMessagesById(messages, CardsOfSettled(s.settled));
  }

  lemma BatchIsStored(db: Db, chatId: string, batch: seq<Message>, finalizable: set<string>)
    requires LiveChat(db, chatId) && StoreBatch(db, chatId, batch, finalizable).Committed?
    ensures IdsOf(batch) <= RowsOf(StoreBatch(db, chatId, batch, finalizable).value, chatId).Keys
  {
    StoreBatchShape(db, chatId, batch, finalizable);
    if batch != [] {
      var rows, next := RowsOf(db, chatId), db.chats[chatId].next;
      S.WithoutMembers(batch, rows.Keys);
      S.InsertedKeys(FinalizedRows(rows, batch, finalizable), NewOnes(rows, batch), next);
    }
  }

  // ---------------------------------------------------------------- the runtime

  /** The terminal state a tracked row is closed with. */
  predicate Closes(p: Pending, id: string, entry: OpenInvestigation) {
    && p.id == id && p.projectRef == entry.projectRef && p.environmentRef == entry.environmentRef
    && Renderable(entry.state) && p.state == ForceSettled(entry.state)
  }

  function ClosedIds(pending: seq<Pending>): set<InvestigationId> { set p | p in pending :: p.id }

  /** One terminal state for each entry outside `todo`. */
  ghost predicate ClosesAllBut(entries: map<InvestigationId, OpenInvestigation>, todo: set<InvestigationId>, pending: seq<Pending>) {
    && DistinctPending(pending)
    && ClosedIds(pending) == entries.Keys - todo
    && forall p | p in pending :: p.id in entries && Closes(p, p.id, entries[p.id])
  }

  lemma OneMoreClosed(entries: map<InvestigationId, OpenInvestigation>, todo: set<InvestigationId>, pending: seq<Pending>, p: Pending)
    requires ClosesAllBut(entries, todo, pending) && p.id in todo && p.id in entries && Closes(p, p.id, entries[p.id])
    ensures ClosesAllBut(entries, todo - {p.id}, pending + [p])
  {
    assert forall q | q in pending :: q.id in ClosedIds(pending);
    assert ClosedIds(pending + [p]) == ClosedIds(pending) + {p.id};
  }

  lemma AllClosed(entries: map<InvestigationId, OpenInvestigation>, pending: seq<Pending>)
    requires ClosesAllBut(entries, {}, pending)
    ensures forall i | i in entries :: exists p :: p in pending && Closes(p, i, entries[i])
  {
    forall i | i in entries ensures exists p :: p in pending && Closes(p, i, entries[i]) {
      assert i in ClosedIds(pending);
      var p :| p in pending && p.id == i;
      assert Closes(p, i, entries[i]);
    }
  }

  lemma EntriesPut(open: OpenMap, chatId: string, entries: map<InvestigationId, OpenInvestigation>)
    requires Tracked(open) && AllRunning(entries) && entries != map[]
    ensures Tracked(open[chatId := entries]) && EntriesOf(open[chatId := entries], chatId) == entries
    ensures forall c | c != chatId :: EntriesOf(open[chatId := entries], c) == EntriesOf(open, c)
  {
  }

  lemma EntriesDropped(open: OpenMap, chatId: string)
    requires Tracked(open)
    ensures Tracked(open - {chatId}) && EntriesOf(open - {chatId}, chatId) == map[]
    ensures forall c | c != chatId :: EntriesOf(open - {chatId}, c) == EntriesOf(open, c)
  {
  }

  /** Every tracked row that is still this chat's is terminal, at its next revision. */
  ghost predicate EntriesClosed(before: Db, after: Db, chatId: string, entries: map<InvestigationId, OpenInvestigation>) {
    forall i | i in entries && i in before.investigations
      && InContext(before.investigations[i], chatId, entries[i].projectRef, entries[i].environmentRef) ::
      && i in after.investigations && Terminal(after.investigations[i].state)
      && after.investigations[i].revision == before.investigations[i].revision + 1
  }

  lemma PendingClosesEntries(db: Db, chatId: string, messages: seq<Message>, session: Session, pending: seq<Pending>, ids: seq<string>,
                             entries: map<InvestigationId, OpenInvestigation>)
    requires DistinctPending(pending) && (forall p | p in pending :: Terminal(p.state))
    requires forall i | i in entries :: exists p :: p in pending && Closes(p, i, entries[i])
    requires PersistTurn(db, chatId, messages, session, pending, ids).Committed?
    ensures EntriesClosed(db, PersistTurn(db, chatId, messages, session, pending, ids).value.0, chatId, entries)
  {
    var db' := PersistTurn(db, chatId, messages, session, pending, ids).value.0;
    forall i | i in entries && i in db.investigations && InContext(db.investigations[i], chatId, entries[i].projectRef, entries[i].environmentRef)
      ensures i in db'.investigations && Terminal(db'.investigations[i].state) && db'.investigations[i].revision == db.investigations[i].revision + 1
    {
      var p :| p in pending && Closes(p, i, entries[i]);
      TurnLeavesNothingRunning(db, chatId, messages, session, pending, ids, p);
    }
  }

  class AgentRuntime {
    var openInvestigations: OpenMap
    const store: S.AgentStore

    constructor (store: S.AgentStore)
      ensures this.store == store && openInvestigations == map[] && Tracked(openInvestigations)
    {
      this.store := store;
      openInvestigations := map[];
    }

    method TrackInvestigationOutcome(chatId: string, id: InvestigationId, entry: OpenInvestigation)
      requires Tracked(openInvestigations)
      modifies this`openInvestigations
      ensures Tracked(openInvestigations)
      ensures EntriesOf(openInvestigations, chatId) == Noted(EntriesOf(old(openInvestigations), chatId), Commitment(id, entry))
      ensures forall c | c != chatId :: EntriesOf(openInvestigations, c) == EntriesOf(old(openInvestigations), c)
    {
      var entries := EntriesOf(openInvestigations, chatId);
      assert AllRunning(entries);
      NotedRunning(entries, Commitment(id, entry));
      if !Renderable(entry.state) || !Open(entry.state) {
        if chatId in openInvestigations {
          if entries - {id} == map[] {
            EntriesDropped(openInvestigations, chatId);
            openInvestigations := openInvestigations - {chatId};
          } else {
            EntriesPut(openInvestigations, chatId, entries - {id});
            openInvestigations := openInvestigations[chatId := entries - {id}];
          }
        }
        return;
      }
      EntriesPut(openInvestigations, chatId, entries[id := entry]);
      openInvestigations := openInvestigations[chatId := entries[id := entry]];
    }

    /** The terminal states to close with, one per tracked row; the map's order is left open. */
    method PendingInvestigationSettlements(chatId: string) returns (pending: seq<Pending>)
      requires Tracked(openInvestigations)
      ensures DistinctPending(pending)
      ensures var entries := EntriesOf(openInvestigations, chatId);
        && (forall p | p in pending :: p.id in entries && Closes(p, p.id, entries[p.id]))
        && (forall i | i in entries :: exists p :: p in pending && Closes(p, i, entries[i]))
    {
      var entries := EntriesOf(openInvestigations, chatId);
      var todo := entries.Keys;
      pending := [];
      while todo != {}
        invariant todo <= entries.Keys && ClosesAllBut(entries, todo, pending)
        decreases |todo|
      {
        var id :| id in todo;
        var p := Pending(id, entries[id].projectRef, entries[id].environmentRef, ForceSettled(entries[id].state));
        assert Closes(p, id, entries[id]);
        OneMoreClosed(entries, todo, pending, p);
        pending := pending + [p];
        todo := todo - {id};
      }
      AllClosed(entries, pending);
    }

    /**
     * onTurnComplete: one write for the transcript, the session and the rows left running.
     * The entries are dropped only once it has committed.
     */
    method OnTurnComplete(chatId: string, uiMessages: seq<Message>, failure: Option<Message>, produced: seq<string>, session: Session)
      returns (result: Tx<seq<Settled>>, ghost pending: seq<Pending>)
      requires Tracked(openInvestigations)
      modifies this`openInvestigations, store
      ensures Tracked(openInvestigations) && DistinctPending(pending)
      ensures forall p | p in pending :: Renderable(p.state) && Terminal(p.state)
      ensures var entries := EntriesOf(old(openInvestigations), chatId);
        && (forall i | i in entries :: exists p :: p in pending && Closes(p, i, entries[i]))
        && (forall p | p in pending :: p.id in entries)
      ensures
        var messages := MergeMessagesById(uiMessages, if failure.Some? then [failure.value] else []);
        var ids := produced + if failure.Some? then [failure.value.id] else [];
        match PersistTurn(old(store.Tables()), chatId, messages, session, pending, ids)
        case Aborted => result.Aborted? && store.Tables() == old(store.Tables()) && openInvestigations == old(openInvestigations)
        case Committed((db, settled)) =>
          && result == Committed(settled) && store.Tables() == db
          && openInvestigations == old(openInvestigations) - {chatId}
      ensures ProperTranscript(uiMessages) && (failure.Some? ==> ProperTranscript([failure.value])) ==> result.Committed?
      ensures result.Committed? ==> EntriesClosed(old(store.Tables()), store.Tables(), chatId, EntriesOf(old(openInvestigations), chatId))
    {
      pending := [];
      var settlements := PendingInvestigationSettlements(chatId);
      pending := settlements;
      forall p | p in pending ensures Renderable(p.state) && Terminal(p.state) {
        ForceSettledRenders(EntriesOf(openInvestigations, chatId)[p.id].state);
      }
      var extra := if failure.Some? then [failure.value] else [];
      var messages := MergeMessagesById(uiMessages, extra);
      var ids := produced + if failure.Some? then [failure.value.id] else [];
      if ProperTranscript(uiMessages) && (failure.Some? ==> ProperTranscript([failure.value])) {
        assert extra == [] ==> ProperTranscript(extra);
        MergeProper(uiMessages, extra);
        ClosingWriteGoesThrough(store.Tables(), chatId, messages, session, settlements, ids);
      }
      if PersistTurn(store.Tables(), chatId, messages, session, settlements, ids).Committed? {
        PendingClosesEntries(store.Tables(), chatId, messages, session, settlements, ids, EntriesOf(openInvestigations, chatId));
      }
      result := store.PersistTurn(chatId, messages, session, settlements, ids);
      if result.Committed? { openInvestigations := openInvestigations - {chatId}; }
    }
  }
}

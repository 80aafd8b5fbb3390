/**
 * No permanent spinner. The panel resolves a card from the transcript alone, so a row that
 * a settle lane closed must have its closing card in the transcript, at the row's own
 * revision, and every later operation must leave the panel's answer equal to the row.
 */
module NoSpinner {
  import opened Wrappers
  import opened Investigation
  import opened Store
  import opened AgentStore
  import opened StoreRuns
  import opened TranscriptList
  import opened Cards

  /** How a committed state shows on a card. */
  function Shown(state: State): Option<State> { if Renderable(state) then Some(state) else None }

  /** A card is a past revision of its row, or the row exactly as it stands. */
  predicate CardHonest(investigations: map<string, Inv>, card: Card) {
    card.id in investigations ==>
      && card.revision <= investigations[card.id].revision
      && (card.revision == investigations[card.id].revision ==> card.state == Shown(investigations[card.id].state))
  }

  ghost predicate MessageHonest(investigations: map<string, Inv>, m: Message) {
    forall card | card in CardsInParts(m.parts) :: CardHonest(investigations, card)
  }

  /** Every stored card is honest, and no settlement id of a revision still to come is taken. */
  ghost predicate RowsHonest(investigations: map<string, Inv>, rows: Rows) {
    && (forall id | id in rows :: MessageHonest(investigations, rows[id].message))
    && (forall i, r: nat | i in investigations && SettlementId(i, r) in rows :: r <= investigations[i].revision)
  }

  ghost predicate ChatHonest(db: Db, c: string) { RowsHonest(db.investigations, RowsOf(db, c)) }

  /** What clients send: cards they were shown, and settlement ids only if already stored. */
  ghost predicate SentHonestly(db: Db, c: string, m: Message) {
    MessageHonest(db.investigations, m) && (IsSettlementId(m.id) ==> m.id in RowsOf(db, c))
  }

  ghost predicate NeverUsed(rows: Rows, newId: string) {
    && (forall id | id in rows :: forall card | card in CardsInParts(rows[id].message.parts) :: card.id != newId)
    && (forall r: nat :: SettlementId(newId, r) !in rows)
  }

  /** The assumptions on one step, as far as chat `c` is concerned. */
  ghost predicate StepHonest(db: Db, step: Step, c: string) {
    match step
    case Persist(chatId, batch) => chatId == c ==> forall m | m in batch :: SentHonestly(db, c, m)
    case Turn(chatId, messages, _, _, _) => chatId == c ==> forall m | m in messages :: SentHonestly(db, c, m)
    case AppendOnce(chatId, m, _) => chatId == c ==> SentHonestly(db, c, m)
    case Rewrite(chatId, _, _, m) => chatId == c ==> MessageHonest(db.investigations, m)
    case Commit(id, newId, _, _, _, _) => id.None? || id.value == "" ==> NeverUsed(RowsOf(db, c), newId)
    case Close(_, chatId, _, _, _, messageId) => chatId == c ==> !IsSettlementId(messageId)
    case _ => true
  }

  // ---------------------------------------------------------------- honesty is kept

  /** Rows move on: revisions only grow, and a row at the same revision is the same row. */
  ghost predicate Advances(a: map<string, Inv>, b: map<string, Inv>) {
    forall i | i in b && i in a ::
      b[i].revision > a[i].revision || (b[i].revision == a[i].revision && b[i].state == a[i].state)
  }

  lemma MessageStaysHonest(a: map<string, Inv>, b: map<string, Inv>, m: Message)
    requires MessageHonest(a, m) && Advances(a, b)
    requires forall i | i in b && i !in a :: forall card | card in CardsInParts(m.parts) :: card.id != i
    ensures MessageHonest(b, m)
  {
    forall card | card in CardsInParts(m.parts) ensures CardHonest(b, card) {
      assert CardHonest(a, card);
    }
  }

  lemma RowsStayHonest(a: map<string, Inv>, b: map<string, Inv>, rows: Rows)
    requires RowsHonest(a, rows) && Advances(a, b)
    requires forall i | i in b && i !in a :: NeverUsed(rows, i)
    ensures RowsHonest(b, rows)
  {
    forall id | id in rows ensures MessageHonest(b, rows[id].message) {
      assert MessageHonest(a, rows[id].message);
      MessageStaysHonest(a, b, rows[id].message);
    }
    forall i, r: nat | i in b && SettlementId(i, r) in rows ensures r <= b[i].revision {
      assert i in a;
    }
  }

  lemma SettlementIdForm(i: string, r: nat)
    ensures IsSettlementId(SettlementId(i, r)) && SettlementId(i, r) != ""
  {
    assert SettlementId(i, r) == SETTLEMENT_PREFIX + (i + ":" + Decimal.Print(r));
  }

  lemma OneMoreHonest(inv: map<string, Inv>, rows: Rows, m: Message, row: Row)
    requires RowsHonest(inv, rows) && MessageHonest(inv, m) && row.message == m
    requires forall i, r: nat | i in inv && SettlementId(i, r) == m.id :: r <= inv[i].revision
    ensures RowsHonest(inv, rows[m.id := row])
  {
  }

  lemma {:induction false} InsertedHonest(inv: map<string, Inv>, rows: Rows, news: seq<Message>, start: nat)
    requires RowsHonest(inv, rows)
    requires forall m | m in news :: MessageHonest(inv, m) && forall i, r: nat | i in inv && SettlementId(i, r) == m.id :: r <= inv[i].revision
    ensures RowsHonest(inv, Inserted(rows, news, start))
  {
    if news != [] {
      var init, last := news[..|news| - 1], news[|news| - 1];
      assert last in news && forall m | m in init :: m in news;
      InsertedHonest(inv, rows, init, start);
      OneMoreHonest(inv, Inserted(rows, init, start), last, RowFor(last, start + |init|));
    }
  }

  lemma FinalizedHonest(inv: map<string, Inv>, rows: Rows, batch: seq<Message>, finalizable: set<string>)
    requires RowsHonest(inv, rows) && forall m | m in batch :: MessageHonest(inv, m)
    ensures RowsHonest(inv, FinalizedRows(rows, batch, finalizable))
  {
    var fin := FinalizedRows(rows, batch, finalizable);
    forall id | id in fin ensures MessageHonest(inv, fin[id].message) {
      assert MessageHonest(inv, rows[id].message);
      if Names(batch, id) { assert Named(batch, id) in batch; }
    }
  }

  /** A batch may bring what is stored already, and the settlement cards of this very revision. */
  ghost predicate BatchHonest(inv: map<string, Inv>, batch: seq<Message>, rows: Rows) {
    forall m | m in batch ::
      && MessageHonest(inv, m)
      && (m.id !in rows ==> forall i, r: nat | i in inv && SettlementId(i, r) == m.id :: r <= inv[i].revision)
  }

  lemma StoreBatchHonest(db: Db, chatId: string, batch: seq<Message>, finalizable: set<string>, c: string)
    requires ChatHonest(db, c) && (chatId == c ==> BatchHonest(db.investigations, batch, RowsOf(db, c)))
    ensures var db' := After(db, StoreBatch(db, chatId, batch, finalizable));
      db'.investigations == db.investigations && ChatHonest(db', c)
  {
    if StoreBatch(db, chatId, batch, finalizable).Committed? {
      StoreBatchShape(db, chatId, batch, finalizable);
      if chatId == c && LiveChat(db, c) && batch != [] {
        var rows := RowsOf(db, c);
        WithoutMembers(batch, rows.Keys);
        FinalizedHonest(db.investigations, rows, batch, finalizable);
        InsertedHonest(db.investigations, FinalizedRows(rows, batch, finalizable), NewOnes(rows, batch), db.chats[c].next);
      }
    }
  }

  lemma AppendHonest(db: Db, chatId: string, m: Message, scope: Scope, c: string)
    requires ChatHonest(db, c)
    requires chatId == c ==> BatchHonest(db.investigations, [m], RowsOf(db, c))
    ensures var db' := Tables(db, Append(db, chatId, m, scope));
      db'.investigations == db.investigations && ChatHonest(db', c)
  {
    AppendShape(db, chatId, m, scope);
    if chatId == c && Append(db, chatId, m, scope).Committed? && Append(db, chatId, m, scope).value.1 {
      assert m in [m];
      OneMoreHonest(db.investigations, RowsOf(db, c), m, RowFor(m, db.chats[c].next));
    }
  }

  /** What a settle lane writes: one card, showing the row as it has just been committed. */
  lemma SettlementCards(i: string, revision: nat, state: State, messageId: Option<string>)
    requires Renderable(state)
    ensures var m := SettlementMessage(i, revision, state, messageId).value;
      CardsInParts(m.parts) == [Card(i, revision, Some(state))]
      && HasRole(m) && m.id == (if messageId.Some? then messageId.value else SettlementId(i, revision))
  {
    var m := SettlementMessage(i, revision, state, messageId).value;
    var block := InvestigationBlock(Some(i), Some(revision), state);
    assert m.parts[..0] == [] && [block][..0] == [];
    assert BlocksInPart(m.parts[0]) == [block];
    assert CardsInBlocks([block]) == [Card(i, revision, Some(state))];
  }

  lemma SettlementHonest(inv: map<string, Inv>, i: string, state: State, messageId: Option<string>)
    requires i in inv && inv[i].state == state && Renderable(state)
    requires messageId.Some? ==> !IsSettlementId(messageId.value)
    ensures var m := SettlementMessage(i, inv[i].revision, state, messageId).value;
      && MessageHonest(inv, m)
      && forall j, r: nat | j in inv && SettlementId(j, r) == m.id :: r <= inv[j].revision
  {
    SettlementCards(i, inv[i].revision, state, messageId);
    var m := SettlementMessage(i, inv[i].revision, state, messageId).value;
    forall j, r: nat | j in inv && SettlementId(j, r) == m.id ensures r <= inv[j].revision {
      SettlementIdForm(j, r);
      SettlementIdInjective(j, r, i, inv[i].revision);
    }
  }

  lemma RevisedHonest(db: Db, i: string, state: State, c: string)
    requires ChatHonest(db, c) && i in db.investigations
    ensures ChatHonest(Revised(db, i, state), c)
  {
    RowsStayHonest(db.investigations, Revised(db, i, state).investigations, RowsOf(db, c));
  }

  lemma SettleThenAppendHonest(db: Db, i: string, state: State, messageId: Option<string>, chatId: string, c: string)
    requires ChatHonest(db, c) && i in db.investigations && Renderable(state)
    requires chatId == c && messageId.Some? ==> !IsSettlementId(messageId.value)
    ensures var db1 := Revised(db, i, state);
      var m := SettlementMessage(i, db.investigations[i].revision + 1, state, messageId).value;
      ChatHonest(Tables(db1, Append(db1, chatId, m, AnyCaller)), c)
  {
    var db1 := Revised(db, i, state);
    RevisedHonest(db, i, state, c);
    if chatId == c { SettlementHonest(db1.investigations, i, state, messageId); }
    AppendHonest(db1, chatId, SettlementMessage(i, db.investigations[i].revision + 1, state, messageId).value, AnyCaller, c);
  }

  // ---------------------------------------------------------------- the settlement loop

  /** The settlement loop so far: rows moved on, and each card shows a committed revision. */
  ghost predicate LoopHonest(db: Db, s: Settlements) {
    && Advances(db.investigations, s.db.investigations)
    && s.db.investigations.Keys == db.investigations.Keys
    && (forall m | m in s.cards :: MessageHonest(s.db.investigations, m)
          && exists i, r: nat :: m.id == SettlementId(i, r) && SettledAt(db, s.db, i, r))
  }

  /** Revision `r` of row `i` was committed between the two states. */
  predicate SettledAt(db: Db, db': Db, i: string, r: nat) {
    i in db.investigations && i in db'.investigations
    && db.investigations[i].revision < r <= db'.investigations[i].revision
  }

  lemma {:induction false} SettleAllHonest(db: Db, chatId: string, pending: seq<Pending>)
    requires SettleAll(db, chatId, pending).Committed?
    ensures LoopHonest(db, SettleAll(db, chatId, pending).value)
  {
    if pending != [] {
      SettleAllHonest(db, chatId, pending[..|pending| - 1]);
      SettleOneHonest(db, SettleAll(db, chatId, pending[..|pending| - 1]).value, chatId, pending[|pending| - 1]);
    }
  }

  lemma SettleOneHonest(db: Db, before: Settlements, chatId: string, p: Pending)
    requires LoopHonest(db, before) && SettleOne(before, chatId, p).Committed?
    ensures LoopHonest(db, SettleOne(before, chatId, p).value)
  {
    var s := SettleOne(before, chatId, p).value;
    if s != before {
      var inv, inv' := before.db.investigations, s.db.investigations;
      var card := SettlementMessage(p.id, inv'[p.id].revision, p.state, None).value;
      assert s.cards == before.cards + [card];
      SettlementCards(p.id, inv'[p.id].revision, p.state, None);
      SettlementHonest(inv', p.id, p.state, None);
      assert SettledAt(db, s.db, p.id, inv'[p.id].revision);
      forall m | m in before.cards
        ensures MessageHonest(inv', m) && exists i, r: nat :: m.id == SettlementId(i, r) && SettledAt(db, s.db, i, r)
      {
        MessageStaysHonest(inv, inv', m);
        var i, r: nat :| m.id == SettlementId(i, r) && SettledAt(db, before.db, i, r);
        assert SettledAt(db, s.db, i, r);
      }
    }
  }

  lemma TurnBatchHonest(db: Db, s: Settlements, messages: seq<Message>, c: string)
    requires ChatHonest(db, c) && LoopHonest(db, s) && RowsOf(s.db, c) == RowsOf(db, c)
    requires forall m | m in messages :: SentHonestly(db, c, m)
    ensures ChatHonest(s.db, c) && BatchHonest(s.db.investigations, messages + Unused(s.cards, messages), RowsOf(s.db, c))
  {
    var inv, inv' := db.investigations, s.db.investigations;
    RowsStayHonest(inv, inv', RowsOf(db, c));
    WithoutMembers(s.cards, IdsOf(messages));
    forall m | m in messages + Unused(s.cards, messages)
      ensures MessageHonest(inv', m)
      ensures m.id !in RowsOf(s.db, c) ==> forall i, r: nat | i in inv' && SettlementId(i, r) == m.id :: r <= inv'[i].revision
    {
      if m in messages {
        assert SentHonestly(db, c, m);
        MessageStaysHonest(inv, inv', m);
        forall i, r: nat | i in inv' && SettlementId(i, r) == m.id ensures IsSettlementId(m.id) { SettlementIdForm(i, r); }
      } else {
        var i, r: nat :| m.id == SettlementId(i, r) && SettledAt(db, s.db, i, r);
        forall j, q: nat | j in inv' && SettlementId(j, q) == m.id ensures q <= inv'[j].revision { SettlementIdInjective(j, q, i, r); }
      }
    }
  }

  // ---------------------------------------------------------------- every step

  lemma SentIsBatch(db: Db, c: string, batch: seq<Message>)
    requires forall m | m in batch :: SentHonestly(db, c, m)
    ensures BatchHonest(db.investigations, batch, RowsOf(db, c))
  {
    forall m | m in batch
      ensures MessageHonest(db.investigations, m)
      ensures m.id !in RowsOf(db, c) ==>
        forall i, r: nat | i in db.investigations && SettlementId(i, r) == m.id :: r <= db.investigations[i].revision
    {
      assert SentHonestly(db, c, m);
      forall i, r: nat | SettlementId(i, r) == m.id ensures IsSettlementId(m.id) { SettlementIdForm(i, r); }
    }
  }

  lemma StepKeepsHonest(db: Db, step: Step, c: string)
    requires ChatOk(db, c) && ChatHonest(db, c) && StepHonest(db, step, c)
    ensures ChatHonest(Apply(db, step), c)
  {
    match step
    case NewChat(_, _, _) =>
    case Delete(_, _, _) =>
    case Purge(_) => PurgeHonest(db, step, c);
    case Persist(chatId, batch) =>
      if chatId == c { SentIsBatch(db, c, batch); }
      StoreBatchHonest(db, chatId, batch, {}, c);
    case AppendOnce(chatId, m, scope) =>
      if chatId == c { SentIsBatch(db, c, [m]); }
      AppendHonest(db, chatId, m, scope, c);
    case Rewrite(chatId, id, role, m) => RewriteHonest(db, step, c);
    case Commit(_, _, _, _, _, _) => CommitHonest(db, step, c);
    case Turn(chatId, messages, _, pending, ids) => TurnHonest(db, step, c);
    case Sweep(_, _, _) => SweepHonest(db, step, c);
    case Close(i, chatId, p, e, state, messageId) =>
      CloseShape(db, i, chatId, p, e, state, messageId);
      if i in db.investigations && Renderable(state) { SettleThenAppendHonest(db, i, state, Some(messageId), chatId, c); }
  }

  lemma SweepHonest(db: Db, step: Step, c: string)
    requires ChatHonest(db, c) && step.Sweep?
    ensures ChatHonest(Apply(db, step), c)
  {
    var settled := SettleInconclusive(db, step.id, step.note).1;
    if settled.Some? && Renderable(settled.value.state) {
      SettleThenAppendHonest(db, step.id, settled.value.state, None, step.chatId, c);
    }
  }

  lemma PurgeHonest(db: Db, step: Step, c: string)
    requires ChatHonest(db, c) && step.Purge?
    ensures ChatHonest(Apply(db, step), c)
  {
    RowsStayHonest(db.investigations, Apply(db, step).investigations, RowsOf(db, c));
  }

  lemma RewriteHonest(db: Db, step: Step, c: string)
    requires ChatHonest(db, c) && StepHonest(db, step, c) && step.Rewrite?
    ensures ChatHonest(Apply(db, step), c)
  {
    var db' := Apply(db, step);
    var rows, rows' := RowsOf(db, c), RowsOf(db', c);
    forall id | id in rows' ensures MessageHonest(db.investigations, rows'[id].message) {
      assert id in rows;
    }
  }

  lemma CommitHonest(db: Db, step: Step, c: string)
    requires ChatHonest(db, c) && StepHonest(db, step, c) && step.Commit?
    ensures ChatHonest(Apply(db, step), c)
  {
    RowsStayHonest(db.investigations, Apply(db, step).investigations, RowsOf(db, c));
  }

  lemma TurnHonest(db: Db, step: Step, c: string)
    requires ChatHonest(db, c) && StepHonest(db, step, c) && step.Turn?
    ensures ChatHonest(Apply(db, step), c)
  {
    if SettleAll(db, step.chatId, step.pending).Committed? {
      var s := SettleAll(db, step.chatId, step.pending).value;
      SettleAllFrame(db, step.chatId, step.pending);
      SettleAllHonest(db, step.chatId, step.pending);
      RowsStayHonest(db.investigations, s.db.investigations, RowsOf(db, c));
      if step.chatId == c { TurnBatchHonest(db, s, step.messages, c); }
      StoreBatchHonest(s.db, step.chatId, step.messages + Unused(s.cards, step.messages), Finalizable(step.finalizeIds), c);
    }
  }

  // ---------------------------------------------------------------- a closed card

  /** Row `i` is terminal and message `id` of the transcript shows it at its present revision. */
  ghost predicate ClosedBy(db: Db, c: string, i: string, id: string) {
    && i in db.investigations && Terminal(db.investigations[i].state) && Renderable(db.investigations[i].state)
    && id in RowsOf(db, c)
    && Card(i, db.investigations[i].revision, Some(db.investigations[i].state)) in CardsInParts(RowsOf(db, c)[id].message.parts)
  }

  /** The panel then resolves that investigation to the row's terminal state. */
  lemma PanelAgreesWithRow(db: Db, c: string, i: string, id: string, latest: map<string, Card>)
    requires ChatOk(db, c) && c in db.chats && ChatHonest(db, c) && ClosedBy(db, c, i, id)
    requires IsLatest(CardsIn(ChatTranscript(db, c)), latest)
    ensures i in latest && latest[i] == Card(i, db.investigations[i].revision, Some(db.investigations[i].state))
  {
    var rows, next := RowsOf(db, c), db.chats[c].next;
    var transcript, cards := ChatTranscript(db, c), CardsIn(ChatTranscript(db, c));
    var closing := Card(i, db.investigations[i].revision, Some(db.investigations[i].state));
    TranscriptMembers(rows, next);
    assert rows[id].message in transcript;
    var at :| 0 <= at < |transcript| && transcript[at] == rows[id].message;
    CardsInMember(transcript, at, closing);
    assert Winner(cards, i, latest[i]);
    var k :| 0 <= k < |cards| && Wins(cards, k) && cards[k] == latest[i];
    var n := CardsInOrigin(transcript, cards[k]);
    assert transcript[n] in transcript;
    var from :| from in rows && rows[from].message == transcript[n];
    assert MessageHonest(db.investigations, rows[from].message) && CardHonest(db.investigations, latest[i]);
  }

  lemma AppendedCloses(db: Db, i: string, state: State, messageId: Option<string>, c: string)
    requires i in db.investigations && Renderable(state) && Terminal(state)
    requires var m := SettlementMessage(i, db.investigations[i].revision + 1, state, messageId).value;
      var db1 := Revised(db, i, state);
      Append(db1, c, m, AnyCaller).Committed? && Append(db1, c, m, AnyCaller).value.1
    ensures var m := SettlementMessage(i, db.investigations[i].revision + 1, state, messageId).value;
      var db1 := Revised(db, i, state);
      ClosedBy(Tables(db1, Append(db1, c, m, AnyCaller)), c, i, m.id)
  {
    var db1 := Revised(db, i, state);
    var m := SettlementMessage(i, db.investigations[i].revision + 1, state, messageId).value;
    SettlementCards(i, db.investigations[i].revision + 1, state, messageId);
    AppendShape(db1, c, m, AnyCaller);
    assert Tables(db1, Append(db1, c, m, AnyCaller)).investigations == db1.investigations;
    assert RowsOf(Tables(db1, Append(db1, c, m, AnyCaller)), c)[m.id].message == m;
  }

  /** The sweep's lane: a settle that commits on a live chat always lands its card. */
  lemma SweepCloses(db: Db, i: InvestigationId, c: string, note: string)
    requires ChatHonest(db, c) && LiveChat(db, c)
    requires SweepCard(db, i, c, note).Committed? && SweepCard(db, i, c, note).value.1.Some?
    ensures var (db', result) := SweepCard(db, i, c, note).value;
      && result.value.1
      && db'.investigations[i].revision == db.investigations[i].revision + 1
      && ClosedBy(db', c, i, SettlementId(i, db'.investigations[i].revision))
  {
    var (db1, settled) := SettleInconclusive(db, i, note);
    var state, revision := settled.value.state, settled.value.revision;
    var m := SettlementMessage(i, revision, state, None).value;
    SettlementCards(i, revision, state, None);
    SettlementIdForm(i, revision);
    AppendedCloses(db, i, state, None, c);
  }

  /** The caller's lane: whenever it bumps the revision, it lands its card under the given id. */
  lemma CloseCloses(db: Db, i: InvestigationId, c: string, p: string, e: string, state: State, messageId: string)
    requires Terminal(state) && CloseCard(db, i, c, p, e, state, messageId).Committed?
    ensures var (db', result) := CloseCard(db, i, c, p, e, state, messageId).value;
      if result.Closed? && result.closed
      then db'.investigations[i].revision == db.investigations[i].revision + 1 && ClosedBy(db', c, i, messageId)
      else db' == db
  {
    var (db', result) := CloseCard(db, i, c, p, e, state, messageId).value;
    if result.Closed? && result.closed { AppendedCloses(db, i, state, Some(messageId), c); }
  }

  // ---------------------------------------------------------------- the turn's lane

  /** Each settled row has, among the cards, the one showing its present revision. */
  ghost predicate CardFor(s: Settlements, i: string) {
    i in s.db.investigations && Renderable(s.db.investigations[i].state)
    && SettlementMessage(i, s.db.investigations[i].revision, s.db.investigations[i].state, None).value in s.cards
  }

  ghost predicate SettledRow(db: Db, s: Settlements, i: string) {
    && CardFor(s, i) && Terminal(s.db.investigations[i].state)
    && i in db.investigations && db.investigations[i].revision < s.db.investigations[i].revision
  }

  lemma {:induction false} SettledHaveCards(db: Db, chatId: string, pending: seq<Pending>, i: string)
    requires SettleAll(db, chatId, pending).Committed?
    requires forall p | p in pending :: Terminal(p.state)
    requires exists t :: t in SettleAll(db, chatId, pending).value.settled && t.id == i
    ensures SettledRow(db, SettleAll(db, chatId, pending).value, i)
  {
    var init, last := pending[..|pending| - 1], pending[|pending| - 1];
    var before, s := SettleAll(db, chatId, init).value, SettleAll(db, chatId, pending).value;
    assert last in pending && forall p | p in init :: p in pending;
    if s != before && last.id == i {
      SettleAllHonest(db, chatId, init);
      LastSettled(db, before, chatId, last);
    } else {
      var t :| t in s.settled && t.id == i;
      assert t in before.settled;
      SettledHaveCards(db, chatId, init, i);
    }
  }

  lemma LastSettled(db: Db, before: Settlements, chatId: string, p: Pending)
    requires LoopHonest(db, before) && SettleOne(before, chatId, p).Committed? && Terminal(p.state)
    requires SettleOne(before, chatId, p).value != before
    ensures SettledRow(db, SettleOne(before, chatId, p).value, p.id)
  {
    var s := SettleOne(before, chatId, p).value;
    assert s.cards == before.cards + [SettlementMessage(p.id, s.db.investigations[p.id].revision, p.state, None).value];
  }

  /**
   * The turn's lane on a live chat: every row it settled is terminal at a new revision, and
   * the transcript holds the card of exactly that revision.
   */
  lemma TurnCloses(db: Db, c: string, messages: seq<Message>, session: Session, pending: seq<Pending>, ids: seq<string>, t: Settled)
    requires ChatHonest(db, c) && LiveChat(db, c)
    requires forall m | m in messages :: SentHonestly(db, c, m)
    requires forall p | p in pending :: Terminal(p.state)
    requires PersistTurn(db, c, messages, session, pending, ids).Committed?
    requires t in PersistTurn(db, c, messages, session, pending, ids).value.1
    ensures var db' := PersistTurn(db, c, messages, session, pending, ids).value.0;
      && t.id in db.investigations && t.id in db'.investigations
      && db.investigations[t.id].revision < db'.investigations[t.id].revision
      && ClosedBy(db', c, t.id, SettlementId(t.id, db'.investigations[t.id].revision))
  {
    var s := SettleAll(db, c, pending).value;
    SettledHaveCards(db, c, pending, t.id);
    SettleAllFrame(db, c, pending);
    var inv := s.db.investigations[t.id];
    var card := SettlementMessage(t.id, inv.revision, inv.state, None).value;
    ClosingCardIsNew(db, s, c, messages, t.id);
    SettlementCards(t.id, inv.revision, inv.state, None);
    StoredBodies(s.db, c, messages + Unused(s.cards, messages), Finalizable(ids), card);
  }

  lemma ClosingCardIsNew(db: Db, s: Settlements, c: string, messages: seq<Message>, i: string)
    requires ChatHonest(db, c) && SettledRow(db, s, i) && RowsOf(s.db, c) == RowsOf(db, c)
    requires forall m | m in messages :: SentHonestly(db, c, m)
    ensures var card := SettlementMessage(i, s.db.investigations[i].revision, s.db.investigations[i].state, None).value;
      card in messages + Unused(s.cards, messages) && card.id !in RowsOf(s.db, c)
  {
    var inv := s.db.investigations[i];
    SettlementCards(i, inv.revision, inv.state, None);
    SettlementIdForm(i, inv.revision);
    assert forall m | m in messages && m.id == SettlementId(i, inv.revision) :: SentHonestly(db, c, m);
    WithoutMembers(s.cards, IdsOf(messages));
  }

  lemma StoredBodies(db: Db, c: string, batch: seq<Message>, finalizable: set<string>, m: Message)
    requires LiveChat(db, c) && StoreBatch(db, c, batch, finalizable).Committed?
    requires m in batch && m.id !in RowsOf(db, c)
    ensures var db' := StoreBatch(db, c, batch, finalizable).value;
      && db'.investigations == db.investigations
      && m.id in RowsOf(db', c) && RowsOf(db', c)[m.id].message == m
  {
    StoreBatchShape(db, c, batch, finalizable);
    var rows := RowsOf(db, c);
    WithoutMembers(batch, rows.Keys);
    InsertedKeys(FinalizedRows(rows, batch, finalizable), NewOnes(rows, batch), db.chats[c].next);
    InsertedRow(FinalizedRows(rows, batch, finalizable), NewOnes(rows, batch), db.chats[c].next, m.id);
    OneOwner(batch, m);
  }

  // ---------------------------------------------------------------- and it stays closed

  /** A step that neither drops the chat, nor revises row `i`, nor may rewrite message `id`. */
  ghost predicate Spares(db: Db, step: Step, c: string, i: string, id: string) {
    && c in Apply(db, step).chats && i in db.investigations
    && i in Apply(db, step).investigations && Apply(db, step).investigations[i] == db.investigations[i]
    && id !in Rewritable(step, c)
  }

  lemma StaysClosed(db: Db, step: Step, c: string, i: string, id: string)
    requires ChatOk(db, c) && c in db.chats && ClosedBy(db, c, i, id) && Spares(db, step, c, i, id)
    ensures ClosedBy(Apply(db, step), c, i, id)
  {
    StepKeeps(db, step, c);
  }

  ghost predicate SparingRun(db: Db, steps: seq<Step>, c: string, i: string, id: string)
    decreases |steps|
  {
    steps != [] ==>
      && StepHonest(db, steps[0], c) && Spares(db, steps[0], c, i, id)
      && SparingRun(Apply(db, steps[0]), steps[1..], c, i, id)
  }

  /**
   * No permanent spinner: once closed, the panel keeps resolving the investigation to its
   * terminal row through any later stores, appends and turns, until the row is revised.
   */
  lemma {:induction false} ClosedForGood(db: Db, steps: seq<Step>, c: string, i: string, id: string, latest: map<string, Card>)
    requires ChatOk(db, c) && c in db.chats && ChatHonest(db, c) && ClosedBy(db, c, i, id)
    requires SparingRun(db, steps, c, i, id)
    requires IsLatest(CardsIn(ChatTranscript(RunFrom(db, steps), c)), latest)
    ensures i in latest && latest[i] == Card(i, db.investigations[i].revision, Some(db.investigations[i].state))
    decreases |steps|
  {
    if steps == [] {
      PanelAgreesWithRow(db, c, i, id, latest);
    } else {
      StepKeeps(db, steps[0], c);
      StepKeepsHonest(db, steps[0], c);
      StaysClosed(db, steps[0], c, i, id);
      ClosedForGood(Apply(db, steps[0]), steps[1..], c, i, id, latest);
    }
  }

  /** The empty store is honest, so every honest run is. */
  lemma EmptyIsHonest(c: string)
    ensures ChatHonest(EMPTY, c) && ChatOk(EMPTY, c)
  {
  }

  /** A settlement card is beyond the reach of any turn, whatever ids it names. */
  lemma TurnsSpareSettlementCards(step: Step, c: string, i: string, revision: nat)
    requires step.Turn?
    ensures SettlementId(i, revision) !in Rewritable(step, c)
  {
    SettlementIdForm(i, revision);
  }
}

/**
 * What each write leaves in the columns of the tables, for every store and every argument,
 * and what that adds up to over a run of sweeps.
 */
module Effects {
  import opened Wrappers
  import opened Investigation
  import opened Store
  import opened AgentStore
  import opened StoreRuns
  import opened NoSpinner

  // ---------------------------------------------------------------- chats

  /** An existing chat is left as it is; a new one is live, its caller's, and starts at position 1. */
  lemma CreateLeaves(db: Db, id: string, organizationId: string, userId: string)
    ensures var db' := CreateChat(db, id, organizationId, userId);
      && db' == db.(chats := db'.chats) && db'.chats.Keys == db.chats.Keys + {id}
      && (forall c | c in db.chats :: db'.chats[c] == db.chats[c])
      && (id !in db.chats ==> db'.chats[id] == Chat(organizationId, userId, deleted := false, next := 1))
  {
  }

  /** Only the owner, in the chat's own organization, deletes; no row moves and nothing is undeleted. */
  lemma SoftDeleteLeaves(db: Db, chatId: string, userId: string, organizationId: string, c: string)
    ensures var db' := SoftDelete(db, chatId, userId, organizationId);
      && db' == db.(chats := db'.chats) && db'.chats.Keys == db.chats.Keys
      && (c in db.chats ==>
            var was, chat := db.chats[c], db'.chats[c];
            && chat == was.(deleted := chat.deleted)
            && (chat.deleted <==>
                  was.deleted || (c == chatId && was.userId == userId && was.organizationId == organizationId)))
  {
  }

  /** Retention takes a chat with everything keyed by it, and only one that was soft-deleted. */
  lemma PurgeLeaves(db: Db, ids: set<string>, c: string, i: string)
    ensures var db' := HardDelete(db, ids);
      var gone := c in ids && c in db.chats && db.chats[c].deleted;
      && (c in db'.chats <==> c in db.chats && !gone) && (c in db'.chats ==> db'.chats[c] == db.chats[c])
      && RowsOf(db', c) == (if gone then map[] else RowsOf(db, c))
      && (c in db'.sessions <==> c in db.sessions && !gone) && (c in db'.sessions ==> db'.sessions[c] == db.sessions[c])
      && (i in db.investigations && db.investigations[i].chatId == c ==>
            (i in db'.investigations <==> !gone)
            && (i in db'.investigations ==> db'.investigations[i] == db.investigations[i]))
  {
  }

  // ---------------------------------------------------------------- one message

  /**
   * An append stores exactly when the chat is live, does not hold the id, and belongs to the
   * caller: the same user and, when a non-empty organization is given, the same organization.
   */
  lemma AppendLeaves(db: Db, chatId: string, m: Message, scope: Scope)
    ensures Append(db, chatId, m, scope).Aborted? <==> m.id == "" || m.role == ""
    ensures Append(db, chatId, m, scope).Committed? ==>
      var (db', stored) := Append(db, chatId, m, scope).value;
      && (stored <==>
            && chatId in db.chats && !db.chats[chatId].deleted && m.id !in RowsOf(db, chatId)
            && (scope.AnyCaller? ||
                (scope.userId == db.chats[chatId].userId
                 && (scope.organizationId == None || scope.organizationId == Some("")
                     || scope.organizationId == Some(db.chats[chatId].organizationId)))))
      && (!stored ==> db' == db)
      && (stored ==>
            && db'.investigations == db.investigations && db'.sessions == db.sessions
            && db'.chats == db.chats[chatId := db.chats[chatId].(next := db.chats[chatId].next + 1)]
            && RowsOf(db', chatId) == RowsOf(db, chatId)[m.id := Row(db.chats[chatId].next, m.role, m)]
            && forall c | c != chatId :: RowsOf(db', c) == RowsOf(db, c))
  {
  }

  /** A direct rewrite replaces one body, under its id and its stored role, and no column. */
  lemma FinalizeLeaves(db: Db, chatId: string, messageId: string, expectedRole: string, m: Message, c: string, id: string)
    ensures Finalize(db, chatId, messageId, expectedRole, m).Committed?
            <==> m.id == messageId != "" && m.role == expectedRole != ""
    ensures Finalize(db, chatId, messageId, expectedRole, m).Committed? ==>
      var (db', found) := Finalize(db, chatId, messageId, expectedRole, m).value;
      && (found <==> messageId in RowsOf(db, chatId) && RowsOf(db, chatId)[messageId].role == expectedRole)
      && db' == db.(messages := db'.messages) && RowsOf(db', c).Keys == RowsOf(db, c).Keys
      && (id in RowsOf(db, c) ==>
            var was, row := RowsOf(db, c)[id], RowsOf(db', c)[id];
            && row.position == was.position && row.role == was.role
            && row.message == if c == chatId && id == messageId && was.role == m.role then m else was.message)
  {
  }

  // ---------------------------------------------------------------- investigations

  /** No id, or an empty one, opens a card at revision 0 in the caller's context. */
  lemma UpsertOpens(db: Db, id: Option<string>, newId: string, c: string, p: string, e: string, state: State)
    requires id == None || id == Some("")
    ensures var tx := Upsert(db, id, newId, c, p, e, state);
      && (tx.Aborted? <==> newId in db.investigations)
      && (tx.Committed? ==>
            var (db', result) := tx.value;
            && result == UpsertOk(newId, 0, true)
            && db' == db.(investigations := db'.investigations)
            && db'.investigations.Keys == db.investigations.Keys + {newId}
            && (forall i | i in db.investigations :: db'.investigations[i] == db.investigations[i])
            && var inv := db'.investigations[newId];
               && inv.chatId == c && inv.projectRef == p && inv.environmentRef == e
               && inv.revision == 0 && inv.state == state)
  {
  }

  /** A named row is revised exactly by callers in its own chat, project and environment. */
  lemma UpsertRevises(db: Db, id: string, newId: string, c: string, p: string, e: string, state: State)
    requires id != ""
    ensures Upsert(db, Some(id), newId, c, p, e, state).Committed?
    ensures var (db', result) := Upsert(db, Some(id), newId, c, p, e, state).value;
      if id !in db.investigations then db' == db && result == UpsertErr(NotFound)
      else
        var was := db.investigations[id];
        if was.chatId != c || was.projectRef != p || was.environmentRef != e
        then db' == db && result == UpsertErr(ContextMismatch)
        else
          && result == UpsertOk(id, was.revision + 1, false)
          && db' == db.(investigations := db'.investigations)
          && db'.investigations == db.investigations[id := was.(revision := was.revision + 1, state := state)]
  {
  }

  /**
   * The settle takes a row exactly while its stored outcome is in progress: a row some turn
   * concluded first, or that is gone, stays as it is and the caller is told None.
   */
  lemma SettleLeaves(db: Db, id: string, note: string)
    ensures var (db', settled) := SettleInconclusive(db, id, note);
      if id !in db.investigations || db.investigations[id].state.outcome != Some(InProgress)
      then settled == None && db' == db
      else
        var was := db.investigations[id];
        && db' == db.(investigations := db'.investigations)
        && db'.investigations == db.investigations[id := was.(revision := was.revision + 1, state := db'.investigations[id].state)]
        && settled == Some(Settled(id, was.revision + 1, db'.investigations[id].state))
        && SettledFields(was.state, db'.investigations[id].state)
  {
  }

  /** The sweep commits nothing for a row not in progress, and for the others settles all or nothing. */
  lemma SweepLeaves(db: Db, id: string, c: string, note: string)
    ensures var tx := SweepCard(db, id, c, note);
      if id !in db.investigations || db.investigations[id].state.outcome != Some(InProgress)
      then tx == Committed((db, None))
      else
        var was := db.investigations[id];
        if was.state.title == None || !was.state.restValid || was.state.checkNext.Mistyped? then tx == Aborted
        else
          var (db', result) := tx.value;
          && tx.Committed? && result.Some?
          && db'.investigations == db.investigations[id := was.(revision := was.revision + 1, state := result.value.0.state)]
          && SettledFields(was.state, result.value.0.state)
          && result.value.0 == Settled(id, was.revision + 1, result.value.0.state)
          && (result.value.1 <==>
                c in db.chats && !db.chats[c].deleted && SettlementId(id, was.revision + 1) !in RowsOf(db, c))
  {
    SettleLeaves(db, id, note);
    if id in db.investigations && db.investigations[id].state.outcome == Some(InProgress) {
      var (db1, settled) := SettleInconclusive(db, id, note);
      SqlSettledRendersIff(db.investigations[id].state, note);
      if Renderable(settled.value.state) {
        var m := SettlementMessage(id, settled.value.revision, settled.value.state, None).value;
        SettlementIdForm(id, settled.value.revision);
        AppendLeaves(db1, c, m, AnyCaller);
      }
    }
  }

  // ---------------------------------------------------------------- sweeps over a whole run

  ghost predicate OnlySweeps(steps: seq<Step>) {
    forall s | s in steps :: s.Sweep?
  }

  lemma SweepStep(db: Db, step: Step, i: string)
    requires step.Sweep? && i in db.investigations
    ensures var db' := Apply(db, step);
      && i in db'.investigations
      && (db.investigations[i].state.outcome != Some(InProgress) || i != step.id ==>
            db'.investigations[i] == db.investigations[i])
      && (db'.investigations[i] != db.investigations[i] ==>
            && db'.investigations[i].revision == db.investigations[i].revision + 1
            && SettledFields(db.investigations[i].state, db'.investigations[i].state))
  {
    SweepLeaves(db, step.id, step.chatId, step.note);
  }

  /**
   * However often, in whatever order and on whatever rows the sweep runs, it never touches a
   * concluded or an already settled row, and it settles any other at most once.
   */
  lemma {:induction false} SweepsSettleOnce(db: Db, steps: seq<Step>, i: string)
    requires OnlySweeps(steps) && i in db.investigations
    ensures var db' := RunFrom(db, steps);
      && i in db'.investigations
      && var was, inv := db.investigations[i], db'.investigations[i];
         && (was.state.outcome != Some(InProgress) ==> inv == was)
         && (inv == was || (inv.revision == was.revision + 1 && SettledFields(was.state, inv.state)))
    decreases |steps|
  {
    if steps != [] {
      assert steps[0] in steps && forall s | s in steps[1..] :: s in steps;
      SweepStep(db, steps[0], i);
      SweepsSettleOnce(Apply(db, steps[0]), steps[1..], i);
    }
  }

  // ---------------------------------------------------------------- the caller's lane

  /** Which of its endings a delivery takes, and what it leaves. */
  lemma CloseLeaves(db: Db, id: InvestigationId, c: string, p: string, e: string, state: State, messageId: string)
    ensures var tx := CloseCard(db, id, c, p, e, state, messageId);
      if id !in db.investigations then tx == Committed((db, NotClosed(CloseNotFound)))
      else
        var was := db.investigations[id];
        if was.chatId != c || was.projectRef != p || was.environmentRef != e
        then tx == Committed((db, NotClosed(CloseContextMismatch)))
        else if c !in db.chats || db.chats[c].deleted then tx == Committed((db, NotClosed(ChatMissing)))
        else if messageId in RowsOf(db, c)
        then tx == Committed((db, Closed(id, was.revision, RowsOf(db, c)[messageId].message, false)))
        else if messageId == "" || !Renderable(state) then tx == Aborted
        else
          && tx.Committed? && tx.value.1.Closed? && tx.value.1.closed
          && tx.value.1.id == id && tx.value.1.revision == was.revision + 1
          && tx.value.0.investigations == db.investigations[id := was.(revision := was.revision + 1, state := state)]
          && RowsOf(tx.value.0, c) == RowsOf(db, c)[messageId := Row(db.chats[c].next, "assistant", tx.value.1.card)]
          && tx.value.1.card.id == messageId
  {
    if id in db.investigations && Renderable(state) {
      var m := SettlementMessage(id, db.investigations[id].revision + 1, state, Some(messageId)).value;
      AppendLeaves(Revised(db, id, state), c, m, AnyCaller);
    }
  }

  // ---------------------------------------------------------------- the turn's write

  /** A batch on a live chat: which of its bodies are stored afterwards. */
  lemma BatchBodies(db: Db, c: string, batch: seq<Message>, finalizable: set<string>, m: Message)
    requires LiveChat(db, c) && StoreBatch(db, c, batch, finalizable).Committed? && m in batch
    ensures var rows, rows' := RowsOf(db, c), RowsOf(StoreBatch(db, c, batch, finalizable).value, c);
      && m.id in rows'
      && (m.id !in rows ==> rows'[m.id].message == m)
      && (m.id in rows ==>
            rows'[m.id] == if m.id in finalizable && m.role == rows[m.id].role then rows[m.id].(message := m) else rows[m.id])
  {
    var rows := RowsOf(db, c);
    if m.id !in rows {
      StoredBodies(db, c, batch, finalizable, m);
    } else {
      StoreBatchShape(db, c, batch, finalizable);
      NamedIs(batch, m);
      WithoutMembers(batch, rows.Keys);
      KeptByInsert(FinalizedRows(rows, batch, finalizable), NewOnes(rows, batch), db.chats[c].next, m.id);
    }
  }

  lemma {:induction false} KeptByInsert(rows: Rows, news: seq<Message>, start: nat, id: string)
    requires id in rows && forall m | m in news :: m.id != id
    ensures id in Inserted(rows, news, start) && Inserted(rows, news, start)[id] == rows[id]
  {
    if news != [] {
      assert news[|news| - 1] in news && forall m | m in news[..|news| - 1] :: m in news;
      KeptByInsert(rows, news[..|news| - 1], start, id);
    }
  }

  /** A stored message the batch does not hold is left as it is. */
  lemma UnsentStays(db: Db, c: string, batch: seq<Message>, finalizable: set<string>, id: string)
    requires StoreBatch(db, c, batch, finalizable).Committed?
    requires id in RowsOf(db, c) && forall m | m in batch :: m.id != id
    ensures var rows' := RowsOf(StoreBatch(db, c, batch, finalizable).value, c);
      id in rows' && rows'[id] == RowsOf(db, c)[id]
  {
    StoreBatchShape(db, c, batch, finalizable);
    var rows := RowsOf(db, c);
    if LiveChat(db, c) && batch != [] {
      WithoutMembers(batch, rows.Keys);
      assert !Names(batch, id) by {
        assert forall i | 0 <= i < |batch| :: batch[i] in batch;
      }
      KeptByInsert(FinalizedRows(rows, batch, finalizable), NewOnes(rows, batch), db.chats[c].next, id);
    }
  }

  /**
   * The bodies after a committed turn on a live chat. What the turn sends is stored; over a
   * message already there it wins exactly when the turn names the id, the id is not a
   * settlement card's and the role is the stored one. Position and role never move.
   */
  lemma TurnRewritesExactly(db: Db, c: string, messages: seq<Message>, session: Session, pending: seq<Pending>,
                            finalizeIds: seq<string>, m: Message)
    requires LiveChat(db, c) && m in messages
    requires PersistTurn(db, c, messages, session, pending, finalizeIds).Committed?
    ensures var rows, rows' := RowsOf(db, c), RowsOf(PersistTurn(db, c, messages, session, pending, finalizeIds).value.0, c);
      && m.id in rows'
      && (m.id !in rows ==> rows'[m.id].message == m)
      && (m.id in rows ==>
            && rows'[m.id].position == rows[m.id].position && rows'[m.id].role == rows[m.id].role
            && rows'[m.id].message ==
               if m.id in finalizeIds && !("investigation-settlement:" <= m.id) && m.role == rows[m.id].role
               then m else rows[m.id].message)
  {
    SettleAllFrame(db, c, pending);
    var s := SettleAll(db, c, pending).value;
    var batch := messages + Unused(s.cards, messages);
    assert m in batch && RowsOf(s.db, c) == RowsOf(db, c);
    BatchBodies(s.db, c, batch, Finalizable(finalizeIds), m);
  }

  /** A stored message the turn does not send keeps its row, settlement cards included. */
  lemma TurnLeavesOthers(db: Db, c: string, messages: seq<Message>, session: Session, pending: seq<Pending>,
                         finalizeIds: seq<string>, id: string)
    requires id in RowsOf(db, c) && forall m | m in messages :: m.id != id
    requires PersistTurn(db, c, messages, session, pending, finalizeIds).Committed?
    ensures var rows' := RowsOf(PersistTurn(db, c, messages, session, pending, finalizeIds).value.0, c);
      id in rows' && rows'[id] == RowsOf(db, c)[id]
  {
    SettleAllFrame(db, c, pending);
    var s := SettleAll(db, c, pending).value;
    var batch := messages + Unused(s.cards, messages);
    WithoutMembers(s.cards, IdsOf(messages));
    if m :| m in batch && m.id == id {
      CardsAreSettlements(db, c, pending);
      BatchBodiesOrSame(s.db, c, batch, Finalizable(finalizeIds), m);
    } else {
      UnsentStays(s.db, c, batch, Finalizable(finalizeIds), id);
    }
  }

  lemma {:induction false} CardsAreSettlements(db: Db, c: string, pending: seq<Pending>)
    requires SettleAll(db, c, pending).Committed?
    ensures forall m | m in SettleAll(db, c, pending).value.cards :: "investigation-settlement:" <= m.id
  {
    if pending != [] {
      CardsAreSettlements(db, c, pending[..|pending| - 1]);
    }
  }

  lemma BatchBodiesOrSame(db: Db, c: string, batch: seq<Message>, finalizable: set<string>, m: Message)
    requires StoreBatch(db, c, batch, finalizable).Committed? && m in batch && m.id in RowsOf(db, c) && m.id !in finalizable
    ensures var rows, rows' := RowsOf(db, c), RowsOf(StoreBatch(db, c, batch, finalizable).value, c);
      m.id in rows' && rows'[m.id] == rows[m.id]
  {
    if LiveChat(db, c) {
      BatchBodies(db, c, batch, finalizable, m);
    } else {
      StoreBatchShape(db, c, batch, finalizable);
    }
  }

  /** A committed turn replaces its chat's session, whether or not the chat is live, and no other. */
  lemma TurnSavesSession(db: Db, c: string, messages: seq<Message>, session: Session, pending: seq<Pending>,
                         finalizeIds: seq<string>, other: string)
    requires PersistTurn(db, c, messages, session, pending, finalizeIds).Committed?
    ensures var db' := PersistTurn(db, c, messages, session, pending, finalizeIds).value.0;
      && c in db'.sessions && db'.sessions[c] == session
      && (other != c ==>
            && (other in db'.sessions <==> other in db.sessions)
            && (other in db.sessions ==> db'.sessions[other] == db.sessions[other])
            && RowsOf(db', other) == RowsOf(db, other))
      && (!(c in db.chats && !db.chats[c].deleted) ==> db'.chats == db.chats && db'.messages == db.messages)
  {
    SettleAllFrame(db, c, pending);
    var s := SettleAll(db, c, pending).value;
    StoreBatchShape(s.db, c, messages + Unused(s.cards, messages), Finalizable(finalizeIds));
  }
}

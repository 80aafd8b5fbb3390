/**
 * Whole runs of the store: every operation as one step, and what each step does to the
 * message rows of a chat: ids, positions and roles are fixed for good, bodies change only
 * where a turn may finalize.
 */
module StoreRuns {
  import opened Wrappers
  import opened Investigation
  import opened Store
  import opened AgentStore

  datatype Step =
    | NewChat(chatId: string, organizationId: string, userId: string)
    | Delete(chatId: string, userId: string, organizationId: string)
    | Purge(ids: set<string>)
    | Persist(chatId: string, batch: seq<Message>)
    | AppendOnce(chatId: string, message: Message, scope: Scope)
    | Rewrite(chatId: string, messageId: string, expectedRole: string, message: Message)
    | Commit(existing: Option<string>, newId: InvestigationId, chatId: string, projectRef: string, environmentRef: string, state: State)
    | Turn(chatId: string, messages: seq<Message>, session: Session, pending: seq<Pending>, finalizeIds: seq<string>)
    | Sweep(id: InvestigationId, chatId: string, note: string)
    | Close(id: InvestigationId, chatId: string, projectRef: string, environmentRef: string, state: State, messageId: string)

  function Tables<T>(before: Db, tx: Tx<(Db, T)>): Db {
    if tx.Committed? then tx.value.0 else before
  }

  /** The tables after one operation; one that throws leaves them as they were. */
  ghost function Apply(db: Db, step: Step): Db {
    match step
    case NewChat(id, org, user) => CreateChat(db, id, org, user)
    case Delete(chatId, user, org) => SoftDelete(db, chatId, user, org)
    case Purge(ids) => HardDelete(db, ids)
    case Persist(chatId, batch) => After(db, PersistMessages(db, chatId, batch))
    case AppendOnce(chatId, m, scope) => Tables(db, Append(db, chatId, m, scope))
    case Rewrite(chatId, id, role, m) => Tables(db, Finalize(db, chatId, id, role, m))
    case Commit(id, newId, chatId, p, e, state) => Tables(db, Upsert(db, id, newId, chatId, p, e, state))
    case Turn(chatId, ms, session, pending, ids) => Tables(db, PersistTurn(db, chatId, ms, session, pending, ids))
    case Sweep(id, chatId, note) => Tables(db, SweepCard(db, id, chatId, note))
    case Close(id, chatId, p, e, state, messageId) => Tables(db, CloseCard(db, id, chatId, p, e, state, messageId))
  }

  ghost function RunFrom(db: Db, steps: seq<Step>): Db
    decreases |steps|
  {
    if steps == [] then db else RunFrom(Apply(db, steps[0]), steps[1..])
  }

  const EMPTY := Db(map[], map[], map[], map[])

  // ---------------------------------------------------------------- rows

  /** The stored columns agree with the stored body. */
  predicate RowHonest(id: string, row: Row) {
    id != "" && row.role != "" && row.message.id == id && row.message.role == row.role
  }

  ghost predicate RowsValid(rows: Rows, next: nat) {
    && (forall id | id in rows :: RowHonest(id, rows[id]) && 1 <= rows[id].position < next)
    && (forall a, b | a in rows && b in rows && rows[a].position == rows[b].position :: a == b)
  }

  ghost predicate ChatValid(chat: Chat, rows: Rows) {
    1 <= chat.next && RowsValid(rows, chat.next)
  }

  /** Chat `c` is consistent, or absent together with its rows. */
  ghost predicate ChatOk(db: Db, c: string) {
    if c in db.chats then ChatValid(db.chats[c], RowsOf(db, c)) else RowsOf(db, c) == map[]
  }

  ghost predicate Valid(db: Db) {
    forall c :: ChatOk(db, c)
  }

  /** How the rows of one chat may change: old ones keep id, position and role. */
  ghost predicate Grows(rows: Rows, next: nat, rows': Rows, next': nat, rewritable: set<string>) {
    && next <= next'
    && (forall id | id in rows ::
          && id in rows' && rows'[id].position == rows[id].position && rows'[id].role == rows[id].role
          && (rows'[id].message == rows[id].message || id in rewritable))
    && (forall id | id in rows' && id !in rows :: next <= rows'[id].position < next')
  }

  /** Chat `c` before and after: consistent still, and grown unless it was dropped. */
  ghost predicate Kept(db: Db, db': Db, c: string, rewritable: set<string>) {
    && ChatOk(db', c)
    && (c in db.chats && c in db'.chats ==>
          Grows(RowsOf(db, c), db.chats[c].next, RowsOf(db', c), db'.chats[c].next, rewritable))
  }

  /** The bodies of `chatId` one step may rewrite. */
  ghost function Rewritable(step: Step, chatId: string): set<string> {
    match step
    case Rewrite(c, id, _, _) => if c == chatId then {id} else {}
    case Turn(c, _, _, _, ids) => if c == chatId then Finalizable(ids) else {}
    case _ => {}
  }

  lemma FinalizedRowsGrow(rows: Rows, next: nat, batch: seq<Message>, finalizable: set<string>)
    requires RowsValid(rows, next)
    ensures RowsValid(FinalizedRows(rows, batch, finalizable), next)
    ensures Grows(rows, next, FinalizedRows(rows, batch, finalizable), next, finalizable)
  {
  }

  lemma InsertOneGrows(rows: Rows, next: nat, m: Message)
    requires RowsValid(rows, next) && 1 <= next && HasId(m) && HasRole(m) && m.id !in rows
    ensures RowsValid(rows[m.id := RowFor(m, next)], next + 1)
    ensures Grows(rows, next, rows[m.id := RowFor(m, next)], next + 1, {})
  {
  }

  lemma GrowsTrans(a: Rows, n: nat, b: Rows, m: nat, c: Rows, k: nat, f: set<string>, g: set<string>)
    requires Grows(a, n, b, m, f) && Grows(b, m, c, k, g)
    ensures Grows(a, n, c, k, f + g)
  {
  }

  lemma {:induction false} InsertedGrow(rows: Rows, next: nat, news: seq<Message>)
    requires RowsValid(rows, next) && 1 <= next
    requires forall m | m in news :: HasId(m) && HasRole(m) && m.id !in rows
    requires DistinctIds(news)
    ensures RowsValid(Inserted(rows, news, next), next + |news|)
    ensures Grows(rows, next, Inserted(rows, news, next), next + |news|, {})
  {
    if news != [] {
      var init, last := news[..|news| - 1], news[|news| - 1];
      var so, far := Inserted(rows, init, next), next + |init|;
      assert Inserted(rows, news, next) == so[last.id := RowFor(last, far)] && next + |news| == far + 1;
      assert forall m | m in init :: m in news;
      InsertedGrow(rows, next, init);
      assert last in news && last.id !in so by {
        InsertedKeys(rows, init, next);
      }
      InsertedLast(rows, next, so, far, last);
    }
  }

  lemma InsertedLast(rows: Rows, next: nat, so: Rows, far: nat, last: Message)
    requires RowsValid(so, far) && 1 <= far && Grows(rows, next, so, far, {})
    requires HasId(last) && HasRole(last) && last.id !in so
    ensures RowsValid(so[last.id := RowFor(last, far)], far + 1)
    ensures Grows(rows, next, so[last.id := RowFor(last, far)], far + 1, {})
  {
    InsertOneGrows(so, far, last);
    GrowsTrans(rows, next, so, far, so[last.id := RowFor(last, far)], far + 1, {}, {});
  }

  /** The new messages of a batch can all be inserted. */
  lemma NewOnesInsertable(rows: Rows, batch: seq<Message>, finalizable: set<string>)
    requires WellIdentified(batch) && RolesReadable(rows, batch, finalizable)
    ensures var news := NewOnes(rows, batch);
      DistinctIds(news) && forall m | m in news :: HasId(m) && HasRole(m) && m.id !in rows && m in batch
  {
    WithoutDistinct(batch, rows.Keys);
    WithoutMembers(batch, rows.Keys);
  }

  lemma BatchGrows(rows: Rows, next: nat, batch: seq<Message>, finalizable: set<string>)
    requires RowsValid(rows, next) && 1 <= next
    requires WellIdentified(batch) && RolesReadable(rows, batch, finalizable)
    ensures var news := NewOnes(rows, batch); var rows' := Inserted(FinalizedRows(rows, batch, finalizable), news, next);
      RowsValid(rows', next + |news|) && Grows(rows, next, rows', next + |news|, finalizable)
  {
    var fin, news := FinalizedRows(rows, batch, finalizable), NewOnes(rows, batch);
    NewOnesInsertable(rows, batch, finalizable);
    FinalizedRowsGrow(rows, next, batch, finalizable);
    InsertedGrow(fin, next, news);
    GrowsTrans(rows, next, fin, next, Inserted(fin, news, next), next + |news|, finalizable, {});
    assert finalizable + {} == finalizable;
  }

  lemma GrowsRefl(rows: Rows, next: nat, rewritable: set<string>)
    ensures Grows(rows, next, rows, next, rewritable)
  {
  }

  /** Nothing about chat `c` has changed. */
  lemma Untouched(db: Db, db': Db, c: string, rewritable: set<string>)
    requires ChatOk(db, c) && RowsOf(db', c) == RowsOf(db, c)
    requires c in db.chats <==> c in db'.chats
    requires c in db.chats ==> db'.chats[c].next == db.chats[c].next
    ensures Kept(db, db', c, rewritable)
  {
    if c in db.chats { GrowsRefl(RowsOf(db, c), db.chats[c].next, rewritable); }
  }

  lemma StoreBatchShape(db: Db, chatId: string, batch: seq<Message>, finalizable: set<string>)
    requires StoreBatch(db, chatId, batch, finalizable).Committed?
    ensures var db' := StoreBatch(db, chatId, batch, finalizable).value;
      if LiveChat(db, chatId) && batch != [] then
        var rows, next, news := RowsOf(db, chatId), db.chats[chatId].next, NewOnes(RowsOf(db, chatId), batch);
        && WellIdentified(batch) && RolesReadable(rows, batch, finalizable)
        && db' == WithRows(db, chatId, Inserted(FinalizedRows(rows, batch, finalizable), news, next), next + |news|)
      else db' == db
  {
  }

  lemma OwnRowsKeep(db: Db, c: string, rows': Rows, next': nat, rewritable: set<string>)
    requires c in db.chats && RowsValid(rows', next') && Grows(RowsOf(db, c), db.chats[c].next, rows', next', rewritable)
    requires ChatOk(db, c)
    ensures Kept(db, WithRows(db, c, rows', next'), c, rewritable)
  {
  }

  /** `db'` is what storing the batch leaves of `db`, or nothing was stored. */
  ghost predicate StoredOrSame(db: Db, db': Db, chatId: string, batch: seq<Message>, finalizable: set<string>) {
    db' == db ||
    (LiveChat(db, chatId) && WellIdentified(batch) && RolesReadable(RowsOf(db, chatId), batch, finalizable) &&
     var rows, next, news := RowsOf(db, chatId), db.chats[chatId].next, NewOnes(RowsOf(db, chatId), batch);
     db' == WithRows(db, chatId, Inserted(FinalizedRows(rows, batch, finalizable), news, next), next + |news|))
  }

  lemma StoredOrSameKeeps(db: Db, db': Db, chatId: string, batch: seq<Message>, finalizable: set<string>, c: string)
    requires ChatOk(db, c) && StoredOrSame(db, db', chatId, batch, finalizable)
    ensures db'.chats.Keys == db.chats.Keys && Kept(db, db', c, if c == chatId then finalizable else {})
  {
    if db' == db || c != chatId {
      Untouched(db, db', c, if c == chatId then finalizable else {});
    } else {
      var rows, next, news := RowsOf(db, chatId), db.chats[chatId].next, NewOnes(RowsOf(db, chatId), batch);
      BatchGrows(rows, next, batch, finalizable);
      OwnRowsKeep(db, c, Inserted(FinalizedRows(rows, batch, finalizable), news, next), next + |news|, finalizable);
    }
  }

  lemma StoreBatchKeeps(db: Db, chatId: string, batch: seq<Message>, finalizable: set<string>, c: string)
    requires ChatOk(db, c)
    ensures var db' := After(db, StoreBatch(db, chatId, batch, finalizable));
      && db'.chats.Keys == db.chats.Keys && Kept(db, db', c, if c == chatId then finalizable else {})
  {
    var db' := After(db, StoreBatch(db, chatId, batch, finalizable));
    assert StoredOrSame(db, db', chatId, batch, finalizable) by {
      if StoreBatch(db, chatId, batch, finalizable).Committed? {
        StoreBatchShape(db, chatId, batch, finalizable);
      }
    }
    StoredOrSameKeeps(db, db', chatId, batch, finalizable, c);
  }

  lemma WithRowsKeeps(db: Db, chatId: string, rows': Rows, next': nat, rewritable: set<string>, c: string)
    requires chatId in db.chats && ChatOk(db, c)
    requires c == chatId ==>
      RowsValid(rows', next') && Grows(RowsOf(db, chatId), db.chats[chatId].next, rows', next', rewritable)
    ensures Kept(db, WithRows(db, chatId, rows', next'), c, if c == chatId then rewritable else {})
  {
    if c != chatId { Untouched(db, WithRows(db, chatId, rows', next'), c, {}); }
  }

  lemma AppendShape(db: Db, chatId: string, m: Message, scope: Scope)
    ensures var tx := Append(db, chatId, m, scope);
      if tx.Committed? && tx.value.1 then
        && HasId(m) && HasRole(m) && LiveChat(db, chatId) && m.id !in RowsOf(db, chatId)
        && Tables(db, tx) == WithRows(db, chatId, RowsOf(db, chatId)[m.id := RowFor(m, db.chats[chatId].next)], db.chats[chatId].next + 1)
      else Tables(db, tx) == db
  {
  }

  lemma AppendKeeps(db: Db, chatId: string, m: Message, scope: Scope, c: string)
    requires ChatOk(db, c)
    ensures var db' := Tables(db, Append(db, chatId, m, scope));
      && db'.chats.Keys == db.chats.Keys && Kept(db, db', c, {})
  {
    Untouched(db, db, c, {});
    AppendShape(db, chatId, m, scope);
    if Append(db, chatId, m, scope).Committed? && Append(db, chatId, m, scope).value.1 {
      OneMoreKeeps(db, chatId, m, c);
    }
  }

  lemma OneMoreKeeps(db: Db, chatId: string, m: Message, c: string)
    requires ChatOk(db, c) && HasId(m) && HasRole(m) && chatId in db.chats && m.id !in RowsOf(db, chatId)
    ensures Kept(db, WithRows(db, chatId, RowsOf(db, chatId)[m.id := RowFor(m, db.chats[chatId].next)], db.chats[chatId].next + 1), c, {})
  {
    var rows, next := RowsOf(db, chatId), db.chats[chatId].next;
    if c == chatId { InsertOneGrows(rows, next, m); }
    WithRowsKeeps(db, chatId, rows[m.id := RowFor(m, next)], next + 1, {}, c);
  }

  /** A committed settlement loop touches only the investigations table. */
  lemma {:induction false} SettleAllFrame(db: Db, chatId: string, pending: seq<Pending>)
    requires SettleAll(db, chatId, pending).Committed?
    ensures var s := SettleAll(db, chatId, pending).value;
      s.db == db.(investigations := s.db.investigations)
  {
    if pending != [] {
      SettleAllFrame(db, chatId, pending[..|pending| - 1]);
    }
  }

  lemma RewriteRowGrows(rows: Rows, next: nat, m: Message, role: string)
    requires RowsValid(rows, next) && m.id in rows && rows[m.id].role == role == m.role
    ensures RowsValid(rows[m.id := rows[m.id].(message := m)], next)
    ensures Grows(rows, next, rows[m.id := rows[m.id].(message := m)], next, {m.id})
  {
  }

  lemma RewriteKeeps(db: Db, chatId: string, messageId: string, expectedRole: string, m: Message, c: string)
    requires ChatOk(db, c)
    ensures var db' := Tables(db, Finalize(db, chatId, messageId, expectedRole, m));
      && db'.chats == db.chats && Kept(db, db', c, if c == chatId then {messageId} else {})
  {
    var db' := Tables(db, Finalize(db, chatId, messageId, expectedRole, m));
    if c == chatId && db' != db {
      RewriteRowGrows(RowsOf(db, c), db.chats[c].next, m, expectedRole);
    } else {
      Untouched(db, db', c, if c == chatId then {messageId} else {});
    }
  }

  /** Turn: investigations first, then the batch, then the session. */
  lemma TurnKeeps(db: Db, chatId: string, messages: seq<Message>, session: Session, pending: seq<Pending>,
                  ids: seq<string>, c: string)
    requires ChatOk(db, c)
    ensures var db' := Tables(db, PersistTurn(db, chatId, messages, session, pending, ids));
      && db'.chats.Keys == db.chats.Keys && Kept(db, db', c, if c == chatId then Finalizable(ids) else {})
  {
    Untouched(db, db, c, if c == chatId then Finalizable(ids) else {});
    if SettleAll(db, chatId, pending).Committed? {
      var s := SettleAll(db, chatId, pending).value;
      SettleAllFrame(db, chatId, pending);
      Untouched(db, s.db, c, {});
      StoreBatchKeeps(s.db, chatId, messages + Unused(s.cards, messages), Finalizable(ids), c);
    }
  }

  lemma SweepKeeps(db: Db, id: InvestigationId, chatId: string, note: string, c: string)
    requires ChatOk(db, c)
    ensures var db' := Tables(db, SweepCard(db, id, chatId, note));
      db'.chats.Keys == db.chats.Keys && Kept(db, db', c, {})
  {
    Untouched(db, db, c, {});
    var (db1, settled) := SettleInconclusive(db, id, note);
    Untouched(db, db1, c, {});
    if settled.Some? && Renderable(settled.value.state) {
      AppendKeeps(db1, chatId, SettlementMessage(id, settled.value.revision, settled.value.state, None).value, AnyCaller, c);
    }
  }

  /** The closing lane changes nothing, or is a revision followed by an append. */
  lemma CloseShape(db: Db, id: InvestigationId, chatId: string, p: string, e: string, state: State, messageId: string)
    ensures var db' := Tables(db, CloseCard(db, id, chatId, p, e, state, messageId));
      || db' == db
      || (id in db.investigations && Renderable(state)
          && db' == Tables(Revised(db, id, state),
               Append(Revised(db, id, state), chatId,
                 SettlementMessage(id, db.investigations[id].revision + 1, state, Some(messageId)).value, AnyCaller)))
  {
  }

  lemma CloseKeeps(db: Db, id: InvestigationId, chatId: string, p: string, e: string, state: State, messageId: string, c: string)
    requires ChatOk(db, c)
    ensures var db' := Tables(db, CloseCard(db, id, chatId, p, e, state, messageId));
      db'.chats.Keys == db.chats.Keys && Kept(db, db', c, {})
  {
    CloseShape(db, id, chatId, p, e, state, messageId);
    if Tables(db, CloseCard(db, id, chatId, p, e, state, messageId)) == db {
      Untouched(db, db, c, {});
    } else {
      ReviseThenAppendKeeps(db, id, state, chatId,
        SettlementMessage(id, db.investigations[id].revision + 1, state, Some(messageId)).value, c);
    }
  }

  lemma ReviseThenAppendKeeps(db: Db, id: string, state: State, chatId: string, m: Message, c: string)
    requires ChatOk(db, c) && id in db.investigations
    ensures var db' := Tables(Revised(db, id, state), Append(Revised(db, id, state), chatId, m, AnyCaller));
      db'.chats.Keys == db.chats.Keys && Kept(db, db', c, {})
  {
    Untouched(db, Revised(db, id, state), c, {});
    AppendKeeps(Revised(db, id, state), chatId, m, AnyCaller, c);
  }

  /**
   * Every step keeps every chat consistent: one row per message id, distinct positions
   * inside [1, next), and columns equal to the body's own id and role. While the chat
   * exists its stored messages keep id, position and role, and only named bodies change.
   */
  lemma StepKeeps(db: Db, step: Step, c: string)
    requires ChatOk(db, c)
    ensures Kept(db, Apply(db, step), c, Rewritable(step, c))
    ensures !step.Purge? && c in db.chats ==> c in Apply(db, step).chats
  {
    match step
    case NewChat(_, _, _) | Delete(_, _, _) | Purge(_) | Commit(_, _, _, _, _, _) => OtherStepKeeps(db, step, c);
    case Persist(chatId, batch) => StoreBatchKeeps(db, chatId, batch, {}, c);
    case AppendOnce(chatId, m, scope) => AppendKeeps(db, chatId, m, scope, c);
    case Rewrite(chatId, id, role, m) => RewriteKeeps(db, chatId, id, role, m, c);
    case Turn(chatId, ms, session, pending, ids) => TurnKeeps(db, chatId, ms, session, pending, ids, c);
    case Sweep(id, chatId, note) => SweepKeeps(db, id, chatId, note, c);
    case Close(id, chatId, p, e, state, messageId) => CloseKeeps(db, id, chatId, p, e, state, messageId, c);
  }

  lemma OtherStepKeeps(db: Db, step: Step, c: string)
    requires ChatOk(db, c) && (step.NewChat? || step.Delete? || step.Purge? || step.Commit?)
    ensures Kept(db, Apply(db, step), c, {})
    ensures !step.Purge? && c in db.chats ==> c in Apply(db, step).chats
  {
    var db' := Apply(db, step);
    if (c in db.chats && c in db'.chats) || step.Delete? || step.Commit? { Untouched(db, db', c, {}); }
  }

  lemma StepKeepsValid(db: Db, step: Step)
    requires Valid(db)
    ensures Valid(Apply(db, step))
  {
    forall c ensures ChatOk(Apply(db, step), c) {
      assert ChatOk(db, c);
      StepKeeps(db, step, c);
    }
  }

  lemma {:induction false} RunsKeepValid(db: Db, steps: seq<Step>)
    requires Valid(db)
    ensures Valid(RunFrom(db, steps))
    decreases |steps|
  {
    if steps != [] {
      StepKeepsValid(db, steps[0]);
      RunsKeepValid(Apply(db, steps[0]), steps[1..]);
    }
  }
}

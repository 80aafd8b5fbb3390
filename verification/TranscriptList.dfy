/**
 * A chat's transcript as a plain list. Storing a batch, which works through row locks, a
 * position allocator and an id-keyed table, refines one line on that list: replace the
 * finalizable bodies in place and append what is genuinely new.
 */
module TranscriptList {
  import opened Wrappers
  import opened Investigation
  import opened Store
  import opened AgentStore
  import opened StoreRuns

  ghost predicate Occupied(rows: Rows, position: nat) {
    exists id :: id in rows && rows[id].position == position
  }

  ghost function At(rows: Rows, position: nat): Message
    requires Occupied(rows, position)
  {
    var id :| id in rows && rows[id].position == position;
    rows[id].message
  }

  /** The messages at positions below `next`, in position order. */
  ghost function Transcript(rows: Rows, next: nat): seq<Message> {
    if next == 0 then []
    else Transcript(rows, next - 1) + if Occupied(rows, next - 1) then [At(rows, next - 1)] else []
  }

  ghost function ChatTranscript(db: Db, chatId: string): seq<Message> {
    if chatId in db.chats then Transcript(RowsOf(db, chatId), db.chats[chatId].next) else []
  }

  ghost function Replacement(m: Message, batch: seq<Message>, finalizable: set<string>): Message {
    if m.id in finalizable && Names(batch, m.id) && Named(batch, m.id).role == m.role then Named(batch, m.id) else m
  }

  ghost function ReplaceAll(was: seq<Message>, batch: seq<Message>, finalizable: set<string>): seq<Message> {
    seq(|was|, i requires 0 <= i < |was| => Replacement(was[i], batch, finalizable))
  }

  /** The list meaning of storing a batch. */
  ghost function ListStore(was: seq<Message>, batch: seq<Message>, finalizable: set<string>): seq<Message> {
    ReplaceAll(was, batch, finalizable) + Without(batch, IdsOf(was))
  }

  lemma AtIs(rows: Rows, id: string)
    requires id in rows && forall a, b | a in rows && b in rows && rows[a].position == rows[b].position :: a == b
    ensures Occupied(rows, rows[id].position) && At(rows, rows[id].position) == rows[id].message
  {
  }

  lemma {:induction false} TranscriptMembers(rows: Rows, next: nat)
    requires forall a, b | a in rows && b in rows && rows[a].position == rows[b].position :: a == b
    ensures forall m :: m in Transcript(rows, next) <==> exists id :: id in rows && rows[id].position < next && rows[id].message == m
  {
    if next > 0 {
      TranscriptMembers(rows, next - 1);
      forall m ensures m in Transcript(rows, next) <==> exists id :: id in rows && rows[id].position < next && rows[id].message == m {
        if exists id :: id in rows && rows[id].position < next && rows[id].message == m {
          var id :| id in rows && rows[id].position < next && rows[id].message == m;
          AtIs(rows, id);
        }
      }
    }
  }

  lemma TranscriptIds(rows: Rows, next: nat)
    requires RowsValid(rows, next)
    ensures IdsOf(Transcript(rows, next)) == rows.Keys
  {
    TranscriptMembers(rows, next);
    forall id | id in rows ensures id in IdsOf(Transcript(rows, next)) {
      assert rows[id].message in Transcript(rows, next);
    }
  }

  lemma {:induction false} TranscriptFinalized(rows: Rows, next: nat, n: nat, batch: seq<Message>, finalizable: set<string>)
    requires RowsValid(rows, next)
    ensures Transcript(FinalizedRows(rows, batch, finalizable), n) == ReplaceAll(Transcript(rows, n), batch, finalizable)
  {
    if n > 0 {
      TranscriptFinalized(rows, next, n - 1, batch, finalizable);
      FinalizedAt(rows, next, n - 1, batch, finalizable);
    }
  }

  lemma FinalizedAt(rows: Rows, next: nat, p: nat, batch: seq<Message>, finalizable: set<string>)
    requires RowsValid(rows, next)
    ensures var fin := FinalizedRows(rows, batch, finalizable);
      && (Occupied(fin, p) <==> Occupied(rows, p))
      && (Occupied(rows, p) ==> At(fin, p) == Replacement(At(rows, p), batch, finalizable))
  {
    var fin := FinalizedRows(rows, batch, finalizable);
    if Occupied(rows, p) {
      var id :| id in rows && rows[id].position == p;
      AtIs(rows, id);
      FinalizedRowsGrow(rows, next, batch, finalizable);
      assert fin[id].position == p;
      AtIs(fin, id);
    }
  }

  /** A row at or beyond `n` is not in the transcript up to `n`. */
  lemma {:induction false} TranscriptIgnoresLater(rows: Rows, id: string, row: Row, n: nat)
    requires id !in rows && n <= row.position
    requires forall a, b | a in rows && b in rows && rows[a].position == rows[b].position :: a == b
    ensures Transcript(rows[id := row], n) == Transcript(rows, n)
  {
    if n > 0 {
      TranscriptIgnoresLater(rows, id, row, n - 1);
      if Occupied(rows, n - 1) {
        var k :| k in rows && rows[k].position == n - 1;
        AtIs(rows, k);
        assert rows[id := row][k].position == n - 1;
      } else {
        assert !Occupied(rows[id := row], n - 1);
      }
    }
  }

  lemma TranscriptAppend(rows: Rows, next: nat, m: Message)
    requires RowsValid(rows, next) && 1 <= next && m.id !in rows && HasId(m) && HasRole(m)
    ensures Transcript(rows[m.id := RowFor(m, next)], next + 1) == Transcript(rows, next) + [m]
  {
    var longer := rows[m.id := RowFor(m, next)];
    InsertOneGrows(rows, next, m);
    TranscriptIgnoresLater(rows, m.id, RowFor(m, next), next);
    AtIs(longer, m.id);
    assert longer[m.id].position == next;
  }

  lemma InitInsertable(rows: Rows, news: seq<Message>)
    requires DistinctIds(news) && news != []
    requires forall m | m in news :: HasId(m) && HasRole(m) && m.id !in rows
    ensures DistinctIds(news[..|news| - 1]) && forall m | m in news[..|news| - 1] :: HasId(m) && HasRole(m) && m.id !in rows
  {
    assert forall m | m in news[..|news| - 1] :: m in news;
  }

  lemma {:induction false} TranscriptInserted(rows: Rows, next: nat, news: seq<Message>)
    requires RowsValid(rows, next) && 1 <= next && DistinctIds(news)
    requires forall m | m in news :: HasId(m) && HasRole(m) && m.id !in rows
    ensures Transcript(Inserted(rows, news, next), next + |news|) == Transcript(rows, next) + news
  {
    if news == [] {
      assert Transcript(rows, next) + [] == Transcript(rows, next);
    } else {
      var init := news[..|news| - 1];
      InitInsertable(rows, news);
      TranscriptInserted(rows, next, init);
      assert RowsValid(Inserted(rows, init, next), next + |init|) by { InsertedGrow(rows, next, init); }
      InsertedStep(rows, next, news, Transcript(rows, next));
    }
  }

  lemma InsertedStep(rows: Rows, next: nat, news: seq<Message>, start: seq<Message>)
    requires 1 <= next && DistinctIds(news) && news != []
    requires forall m | m in news :: HasId(m) && HasRole(m) && m.id !in rows
    requires var init := news[..|news| - 1];
      && RowsValid(Inserted(rows, init, next), next + |init|)
      && Transcript(Inserted(rows, init, next), next + |init|) == start + init
    ensures Transcript(Inserted(rows, news, next), next + |news|) == start + news
  {
    var init, last := news[..|news| - 1], news[|news| - 1];
    assert last in news && last.id !in Inserted(rows, init, next) by {
      InsertedKeys(rows, init, next);
    }
    AppendLast(start, news, Inserted(rows, init, next), next + |init|);
  }

  lemma AppendLast(start: seq<Message>, news: seq<Message>, so: Rows, far: nat)
    requires RowsValid(so, far) && 1 <= far && news != []
    requires var last := news[|news| - 1]; last.id !in so && HasId(last) && HasRole(last)
    requires Transcript(so, far) == start + news[..|news| - 1]
    ensures var last := news[|news| - 1];
      Transcript(so[last.id := RowFor(last, far)], far + 1) == start + news
  {
    var last := news[|news| - 1];
    TranscriptAppend(so, far, last);
    assert start + news[..|news| - 1] + [last] == start + news;
  }

  /**
   * storeChatMessages on a live chat: the list becomes the old one with finalizable bodies
   * of matching role replaced, then the new messages in batch order, and the allocator
   * grows by exactly their number.
   */
  lemma StoreRefinesList(db: Db, chatId: string, batch: seq<Message>, finalizable: set<string>)
    requires Valid(db) && LiveChat(db, chatId)
    requires StoreBatch(db, chatId, batch, finalizable).Committed?
    ensures var db' := StoreBatch(db, chatId, batch, finalizable).value;
      var was := ChatTranscript(db, chatId);
      && ChatTranscript(db', chatId) == ListStore(was, batch, finalizable)
      && db'.chats[chatId].next == db.chats[chatId].next + |Without(batch, IdsOf(was))|
  {
    var rows, next := RowsOf(db, chatId), db.chats[chatId].next;
    assert ChatOk(db, chatId);
    TranscriptIds(rows, next);
    StoreBatchShape(db, chatId, batch, finalizable);
    if batch == [] {
      ReplaceNothing(Transcript(rows, next), finalizable);
    } else {
      BatchOnList(rows, next, batch, finalizable);
    }
  }

  lemma ReplaceNothing(was: seq<Message>, finalizable: set<string>)
    ensures ReplaceAll(was, [], finalizable) == was
  {
  }

  lemma BatchOnList(rows: Rows, next: nat, batch: seq<Message>, finalizable: set<string>)
    requires RowsValid(rows, next) && 1 <= next && WellIdentified(batch) && RolesReadable(rows, batch, finalizable)
    ensures var news := NewOnes(rows, batch);
      Transcript(Inserted(FinalizedRows(rows, batch, finalizable), news, next), next + |news|)
      == ReplaceAll(Transcript(rows, next), batch, finalizable) + news
  {
    NewOnesInsertable(rows, batch, finalizable);
    FinalizedRowsGrow(rows, next, batch, finalizable);
    TranscriptInserted(FinalizedRows(rows, batch, finalizable), next, NewOnes(rows, batch));
    TranscriptFinalized(rows, next, next, batch, finalizable);
  }

  /** Storing the same batch again changes nothing at all. */
  lemma StoreTwice(db: Db, chatId: string, batch: seq<Message>, finalizable: set<string>)
    requires Valid(db) && StoreBatch(db, chatId, batch, finalizable).Committed?
    ensures var db' := StoreBatch(db, chatId, batch, finalizable).value;
      StoreBatch(db', chatId, batch, finalizable) == Committed(db')
  {
    StoreBatchShape(db, chatId, batch, finalizable);
    if LiveChat(db, chatId) && batch != [] {
      assert ChatOk(db, chatId);
      var rows, next, news := RowsOf(db, chatId), db.chats[chatId].next, NewOnes(RowsOf(db, chatId), batch);
      var rows' := Inserted(FinalizedRows(rows, batch, finalizable), news, next);
      BatchSettled(rows, next, batch, finalizable);
      var db' := WithRows(db, chatId, rows', next + |news|);
      assert RowsOf(db', chatId) == rows';
      assert db'.messages[chatId := rows'] == db'.messages;
      NothingNew(db', chatId, batch, finalizable);
    }
  }

  lemma SettledRow(rows: Rows, next: nat, batch: seq<Message>, finalizable: set<string>, id: string)
    requires RowsValid(rows, next) && 1 <= next && WellIdentified(batch) && RolesReadable(rows, batch, finalizable)
    requires id in Inserted(FinalizedRows(rows, batch, finalizable), NewOnes(rows, batch), next)
    ensures var row := Inserted(FinalizedRows(rows, batch, finalizable), NewOnes(rows, batch), next)[id];
      FinalizedRow(id, row, batch, finalizable) == row
  {
    var fin, news := FinalizedRows(rows, batch, finalizable), NewOnes(rows, batch);
    NewOnesInsertable(rows, batch, finalizable);
    FinalizedRowsGrow(rows, next, batch, finalizable);
    InsertedGrow(fin, next, news);
    if id !in rows && Names(batch, id) {
      InsertedRow(fin, news, next, id);
      var m :| m in news && m.id == id && Inserted(fin, news, next)[id].message == m;
      NamedIs(batch, m);
    }
  }

  lemma NothingLeftNew(rows: Rows, next: nat, batch: seq<Message>, finalizable: set<string>)
    requires RowsValid(rows, next) && 1 <= next && WellIdentified(batch) && RolesReadable(rows, batch, finalizable)
    ensures var rows' := Inserted(FinalizedRows(rows, batch, finalizable), NewOnes(rows, batch), next);
      NewOnes(rows', batch) == [] && forall m | m in batch && m.id in finalizable :: HasRole(m)
  {
    var fin, news := FinalizedRows(rows, batch, finalizable), NewOnes(rows, batch);
    NewOnesInsertable(rows, batch, finalizable);
    InsertedKeys(fin, news, next);
    WithoutMembers(batch, rows.Keys);
    forall m | m in batch ensures m.id in Inserted(fin, news, next) {
      assert m.id !in rows ==> m in news;
    }
    WithoutAll(batch, Inserted(fin, news, next).Keys);
  }

  lemma BatchSettled(rows: Rows, next: nat, batch: seq<Message>, finalizable: set<string>)
    requires RowsValid(rows, next) && 1 <= next && WellIdentified(batch) && RolesReadable(rows, batch, finalizable)
    ensures var rows' := Inserted(FinalizedRows(rows, batch, finalizable), NewOnes(rows, batch), next);
      && FinalizedRows(rows', batch, finalizable) == rows' && NewOnes(rows', batch) == []
      && forall m | m in batch && m.id in rows' && m.id in finalizable :: HasRole(m)
  {
    NothingLeftNew(rows, next, batch, finalizable);
    var rows' := Inserted(FinalizedRows(rows, batch, finalizable), NewOnes(rows, batch), next);
    forall id | id in rows' ensures FinalizedRow(id, rows'[id], batch, finalizable) == rows'[id] {
      SettledRow(rows, next, batch, finalizable, id);
    }
  }

  lemma {:induction false} WithoutAll(batch: seq<Message>, ids: set<string>)
    requires forall m | m in batch :: m.id in ids
    ensures Without(batch, ids) == []
  {
    if batch != [] {
      assert batch[|batch| - 1] in batch;
      WithoutAll(batch[..|batch| - 1], ids);
    }
  }

  lemma {:induction false} InsertedRow(rows: Rows, news: seq<Message>, start: nat, id: string)
    requires id !in rows && id in Inserted(rows, news, start)
    ensures exists m :: m in news && m.id == id && Inserted(rows, news, start)[id].message == m
  {
    var last := news[|news| - 1];
    if last.id == id {
      assert last in news;
    } else {
      InsertedRow(rows, news[..|news| - 1], start, id);
      var m :| m in news[..|news| - 1] && m.id == id && Inserted(rows, news[..|news| - 1], start)[id].message == m;
      assert m in news;
    }
  }

  // ---------------------------------------------------------------- serial runs leave no gap

  /** The positions of a chat are exactly 1 .. next - 1. */
  ghost predicate Dense(rows: Rows, next: nat) {
    forall p | 1 <= p < next :: Occupied(rows, p)
  }

  ghost predicate DenseChat(db: Db, c: string) {
    c in db.chats ==> Dense(RowsOf(db, c), db.chats[c].next)
  }

  lemma {:induction false} InsertedDense(rows: Rows, next: nat, news: seq<Message>)
    requires Dense(rows, next) && DistinctIds(news)
    requires forall m | m in news :: HasId(m) && HasRole(m) && m.id !in rows
    ensures Dense(Inserted(rows, news, next), next + |news|)
  {
    if news != [] {
      var init, last := news[..|news| - 1], news[|news| - 1];
      InitInsertable(rows, news);
      InsertedDense(rows, next, init);
      assert last.id !in Inserted(rows, init, next) by {
        InsertedKeys(rows, init, next);
        assert last in news;
      }
      OneMoreDense(Inserted(rows, init, next), next + |init|, last);
    }
  }

  lemma OneMoreDense(rows: Rows, next: nat, m: Message)
    requires Dense(rows, next) && m.id !in rows
    ensures Dense(rows[m.id := RowFor(m, next)], next + 1)
  {
    var longer := rows[m.id := RowFor(m, next)];
    forall p | 1 <= p < next + 1 ensures Occupied(longer, p) {
      if p < next {
        assert Occupied(rows, p);
        var id :| id in rows && rows[id].position == p;
        assert longer[id].position == p;
      } else {
        assert longer[m.id].position == p;
      }
    }
  }

  lemma FinalizedDense(rows: Rows, next: nat, batch: seq<Message>, finalizable: set<string>)
    requires Dense(rows, next)
    ensures Dense(FinalizedRows(rows, batch, finalizable), next)
  {
    var fin := FinalizedRows(rows, batch, finalizable);
    forall p | 1 <= p < next ensures Occupied(fin, p) {
      assert Occupied(rows, p);
      var id :| id in rows && rows[id].position == p;
      assert fin[id].position == p;
    }
  }

  lemma StoreBatchDense(db: Db, chatId: string, batch: seq<Message>, finalizable: set<string>, c: string)
    requires ChatOk(db, c) && DenseChat(db, c)
    ensures DenseChat(After(db, StoreBatch(db, chatId, batch, finalizable)), c)
  {
    if StoreBatch(db, chatId, batch, finalizable).Committed? {
      StoreBatchShape(db, chatId, batch, finalizable);
      if c == chatId && LiveChat(db, chatId) && batch != [] {
        var rows, next := RowsOf(db, chatId), db.chats[chatId].next;
        NewOnesInsertable(rows, batch, finalizable);
        FinalizedDense(rows, next, batch, finalizable);
        InsertedDense(FinalizedRows(rows, batch, finalizable), next, NewOnes(rows, batch));
      }
    }
  }

  lemma AppendDense(db: Db, chatId: string, m: Message, scope: Scope, c: string)
    requires DenseChat(db, c)
    ensures DenseChat(Tables(db, Append(db, chatId, m, scope)), c)
  {
    AppendShape(db, chatId, m, scope);
    if c == chatId && Append(db, chatId, m, scope).Committed? && Append(db, chatId, m, scope).value.1 {
      OneMoreDense(RowsOf(db, chatId), db.chats[chatId].next, m);
    }
  }

  lemma SameRowsDense(db: Db, db': Db, c: string)
    requires DenseChat(db, c) && RowsOf(db', c) == RowsOf(db, c)
    requires c in db'.chats && c in db.chats ==> db'.chats[c].next == db.chats[c].next
    requires c in db'.chats && c !in db.chats ==> db'.chats[c].next == 1
    ensures DenseChat(db', c)
  {
  }

  lemma StepDense(db: Db, step: Step, c: string)
    requires ChatOk(db, c) && DenseChat(db, c)
    ensures DenseChat(Apply(db, step), c)
  {
    match step
    case NewChat(_, _, _) | Delete(_, _, _) | Purge(_) | Commit(_, _, _, _, _, _) => OtherStepDense(db, step, c);
    case Persist(chatId, batch) => StoreBatchDense(db, chatId, batch, {}, c);
    case AppendOnce(chatId, m, scope) => AppendDense(db, chatId, m, scope, c);
    case Rewrite(chatId, id, role, m) => RewriteDense(db, chatId, id, role, m, c);
    case Turn(chatId, ms, session, pending, ids) =>
      if SettleAll(db, chatId, pending).Committed? {
        var s := SettleAll(db, chatId, pending).value;
        SettleAllFrame(db, chatId, pending);
        Untouched(db, s.db, c, {});
        StoreBatchDense(s.db, chatId, ms + Unused(s.cards, ms), Finalizable(ids), c);
      }
    case Sweep(id, chatId, note) =>
      var (db1, settled) := SettleInconclusive(db, id, note);
      if settled.Some? && Renderable(settled.value.state) {
        AppendDense(db1, chatId, SettlementMessage(id, settled.value.revision, settled.value.state, None).value, AnyCaller, c);
      }
    case Close(id, chatId, p, e, state, messageId) =>
      CloseShape(db, id, chatId, p, e, state, messageId);
      if id in db.investigations && Renderable(state) {
        AppendDense(Revised(db, id, state), chatId,
          SettlementMessage(id, db.investigations[id].revision + 1, state, Some(messageId)).value, AnyCaller, c);
      }
  }

  lemma OtherStepDense(db: Db, step: Step, c: string)
    requires ChatOk(db, c) && DenseChat(db, c) && (step.NewChat? || step.Delete? || step.Purge? || step.Commit?)
    ensures DenseChat(Apply(db, step), c)
  {
    if c in Apply(db, step).chats { SameRowsDense(db, Apply(db, step), c); }
  }

  lemma RewriteDense(db: Db, chatId: string, messageId: string, role: string, m: Message, c: string)
    requires DenseChat(db, c)
    ensures DenseChat(Tables(db, Finalize(db, chatId, messageId, role, m)), c)
  {
    var db' := Tables(db, Finalize(db, chatId, messageId, role, m));
    if c in db.chats {
      forall p | 1 <= p < db.chats[c].next ensures Occupied(RowsOf(db', c), p) {
        assert Occupied(RowsOf(db, c), p);
        var id :| id in RowsOf(db, c) && RowsOf(db, c)[id].position == p;
        assert RowsOf(db', c)[id].position == p;
      }
    }
  }

  /**
   * One operation at a time, no position is ever lost: a run that starts without gaps, as
   * the empty store does, ends with the positions 1 .. next - 1 all taken.
   */
  lemma {:induction false} SerialRunsLeaveNoGap(db: Db, steps: seq<Step>, c: string)
    requires Valid(db) && DenseChat(db, c)
    ensures DenseChat(RunFrom(db, steps), c)
    ensures c in RunFrom(db, steps).chats ==>
      |ChatTranscript(RunFrom(db, steps), c)| == RunFrom(db, steps).chats[c].next - 1
    decreases |steps|
  {
    assert ChatOk(db, c);
    if steps != [] {
      StepDense(db, steps[0], c);
      StepKeepsValid(db, steps[0]);
      SerialRunsLeaveNoGap(Apply(db, steps[0]), steps[1..], c);
    } else if c in db.chats {
      DenseLength(RowsOf(db, c), db.chats[c].next, db.chats[c].next);
    }
  }

  lemma EmptyStoreHasNoGap(c: string)
    ensures Valid(EMPTY) && DenseChat(EMPTY, c)
  {
  }

  lemma {:induction false} DenseLength(rows: Rows, next: nat, n: nat)
    requires RowsValid(rows, next) && Dense(rows, next) && 1 <= n <= next
    ensures |Transcript(rows, n)| == n - 1
  {
    if n > 1 {
      DenseLength(rows, next, n - 1);
      assert Occupied(rows, n - 1);
    } else {
      assert !Occupied(rows, 0);
      assert Transcript(rows, 0) == [];
    }
  }
}

/**
 * The store itself: four tables that each query updates in place, inside a transaction
 * that either commits or puts back what it found.
 */
module AgentStore {
  import opened Wrappers
  import opened Investigation
  import opened Store

  /** The tables after a transaction: what it committed, or what it found. */
  function After(before: Db, tx: Tx<Db>): Db {
    if tx.Committed? then tx.value else before
  }

  lemma {:induction false} WithoutAgrees(batch: seq<Message>, a: set<string>, b: set<string>)
    requires forall m | m in batch :: m.id in a <==> m.id in b
    ensures Without(batch, a) == Without(batch, b)
  {
    if batch != [] {
      assert batch[|batch| - 1] in batch;
      WithoutAgrees(batch[..|batch| - 1], a, b);
    }
  }

  lemma {:induction false} WithoutTwice(batch: seq<Message>, a: set<string>, b: set<string>)
    ensures Without(Without(batch, a), b) == Without(batch, a + b)
  {
    if batch != [] {
      var last, init := batch[|batch| - 1], batch[..|batch| - 1];
      WithoutTwice(init, a, b);
      if last.id !in a {
        assert (Without(init, a) + [last])[..|Without(init, a)|] == Without(init, a);
      } else {
        assert Without(batch, a) == Without(init, a);
      }
    }
  }

  lemma {:induction false} WithoutMembers(batch: seq<Message>, ids: set<string>)
    ensures forall m :: m in Without(batch, ids) <==> m in batch && m.id !in ids
  {
    if batch != [] {
      WithoutMembers(batch[..|batch| - 1], ids);
      assert batch == batch[..|batch| - 1] + [batch[|batch| - 1]];
    }
  }

  /** Rows part-way through the finalize loop: those of `todo` are still as stored. */
  ghost function PartlyFinalized(rows: Rows, batch: seq<Message>, finalizable: set<string>, todo: set<string>): Rows {
    map id | id in rows :: if id in todo then rows[id] else FinalizedRow(id, rows[id], batch, finalizable)
  }

  lemma NamedIs(batch: seq<Message>, m: Message)
    requires WellIdentified(batch) && m in batch
    ensures Names(batch, m.id) && Named(batch, m.id) == m
  {
    var i :| 0 <= i < |batch| && batch[i] == m;
    assert batch[i].id == m.id;
  }

  lemma {:induction false} InsertedKeys(rows: Rows, news: seq<Message>, start: nat)
    ensures Inserted(rows, news, start).Keys == rows.Keys + IdsOf(news)
  {
    if news != [] {
      InsertedKeys(rows, news[..|news| - 1], start);
      assert news == news[..|news| - 1] + [news[|news| - 1]];
    }
  }

  lemma NotInsertedYet(rows: Rows, news: seq<Message>, k: nat, start: nat)
    requires k < |news| && DistinctIds(news) && news[k].id !in rows
    ensures news[k].id !in Inserted(rows, news[..k], start)
  {
    InsertedKeys(rows, news[..k], start);
  }

  lemma DropStep(batch: seq<Message>, all: set<string>, stored: set<string>, id: string)
    requires id in stored && stored <= all
    ensures Without(Without(batch, all - stored), {id}) == Without(batch, all - (stored - {id}))
  {
    WithoutTwice(batch, all - stored, {id});
    assert all - stored + {id} == all - (stored - {id});
  }

  lemma SetsMeet(all: set<string>, keys: set<string>)
    requires all <= keys
    ensures all - all == {} && all + (keys - all) == keys && all - {} == all && {} + (keys - all) == keys - all
  {
  }

  lemma OneFewer(stored: set<string>, rest: set<string>, id: string)
    requires id !in rest
    ensures stored + rest - {id} == stored - {id} + rest
  {
  }

  /** The message table part-way through the finalize loop. */
  ghost predicate Skipped(chatId: string, rows: Rows, batch: seq<Message>, finalizable: set<string>, todo: set<string>,
                          messages0: map<string, Rows>, messages: map<string, Rows>)
  {
    if chatId in messages0
    then messages == messages0[chatId := PartlyFinalized(rows, batch, finalizable, todo)]
    else messages == messages0
  }

  lemma NothingSkipped(chatId: string, rows: Rows, batch: seq<Message>, finalizable: set<string>, messages: map<string, Rows>)
    requires chatId in messages ==> messages[chatId] == rows
    ensures Skipped(chatId, rows, batch, finalizable, rows.Keys, messages, messages)
  {
    assert PartlyFinalized(rows, batch, finalizable, rows.Keys) == rows;
    if chatId in messages { assert messages[chatId := rows] == messages; }
  }

  /** Finishing one id of the finalize loop is one row update, or none. */
  lemma FinalizeStep(rows: Rows, batch: seq<Message>, finalizable: set<string>, todo: set<string>, message: Message)
    requires WellIdentified(batch) && message in batch && message.id in rows && message.id in todo
    requires Names(batch, message.id) && Named(batch, message.id) == message
    ensures PartlyFinalized(rows, batch, finalizable, todo - {message.id})
            == PartlyFinalized(rows, batch, finalizable, todo)
                 [message.id := FinalizedRow(message.id, rows[message.id], batch, finalizable)]
    ensures PartlyFinalized(rows, batch, finalizable, todo)[message.id] == rows[message.id]
  {
  }

  lemma UnnamedUntouched(rows: Rows, batch: seq<Message>, finalizable: set<string>, all: set<string>)
    requires all == set m | m in batch && m.id in rows :: m.id
    ensures PartlyFinalized(rows, batch, finalizable, rows.Keys - all) == FinalizedRows(rows, batch, finalizable)
  {
    assert forall i | 0 <= i < |batch| :: batch[i] in batch;
    assert forall id | id in rows && id !in all :: !Names(batch, id);
  }

  function Lookup(messages: seq<Message>, id: string): Option<Message> {
    if messages == [] then None
    else if messages[0].id == id then Some(messages[0])
    else Lookup(messages[1..], id)
  }

  lemma {:induction false} LookupFinds(messages: seq<Message>, id: string)
    ensures match Lookup(messages, id)
            case Some(m) => m in messages && m.id == id
            case None => forall m | m in messages :: m.id != id
  {
    if messages != [] {
      LookupFinds(messages[1..], id);
      assert messages == [messages[0]] + messages[1..];
    }
  }

  class AgentStore {
    var chats: map<string, Chat>
    var messages: map<string, Rows>
    var investigations: map<string, Inv>
    var sessions: map<string, Session>

    ghost function Tables(): Db
      reads this
    {
      Db(chats, messages, investigations, sessions)
    }

    constructor ()
      ensures Tables() == Db(map[], map[], map[], map[])
    {
      chats, messages, investigations, sessions := map[], map[], map[], map[];
    }

    method Rollback(chats0: map<string, Chat>, messages0: map<string, Rows>,
                    investigations0: map<string, Inv>, sessions0: map<string, Session>)
      modifies this
      ensures Tables() == Db(chats0, messages0, investigations0, sessions0)
    {
      chats, messages, investigations, sessions := chats0, messages0, investigations0, sessions0;
    }

    // -------------------------------------------------------------- inside a transaction

    method ReserveMessagePositions(chatId: string, count: nat) returns (start: Option<nat>)
      modifies this`chats
      ensures start.Some? <==> LiveChat(old(Tables()), chatId)
      ensures start.None? ==> chats == old(chats)
      ensures start.Some? ==>
        && start.value == old(chats)[chatId].next
        && chats == old(chats)[chatId := old(chats)[chatId].(next := start.value + count)]
    {
      if chatId !in chats || chats[chatId].deleted { return None; }
      var next := chats[chatId].next + count;
      chats := chats[chatId := chats[chatId].(next := next)];
      start := Some(next - count);
    }

    method FinalizeChatMessage(chatId: string, messageId: string, expectedRole: string, message: Message)
      returns (result: Tx<bool>)
      modifies this`messages
      ensures match Finalize(old(Tables()), chatId, messageId, expectedRole, message)
              case Aborted => result.Aborted? && Tables() == old(Tables())
              case Committed((db, wrote)) => result == Committed(wrote) && Tables() == db
    {
      if !HasRole(message) || message.role != expectedRole { return Aborted; }
      if !HasId(message) || message.id != messageId { return Aborted; }
      var rows := if chatId in messages then messages[chatId] else map[];
      if messageId in rows && rows[messageId].role == expectedRole {
        messages := messages[chatId := rows[messageId := rows[messageId].(message := message)]];
        return Committed(true);
      }
      result := Committed(false);
    }

    /** First pass of storing a batch: the messages by id, in order; throws on a bad or repeated id. */
    method Dedupe(batch: seq<Message>) returns (ok: bool, deduped: seq<Message>)
      ensures ok <==> WellIdentified(batch)
      ensures ok ==> deduped == batch
    {
      deduped := [];
      for i := 0 to |batch|
        invariant deduped == batch[..i] && WellIdentified(batch[..i])
      {
        LookupFinds(deduped, batch[i].id);
        if !HasId(batch[i]) { return false, []; }
        var previous := Lookup(deduped, batch[i].id);
        if previous.Some? {
          ghost var k :| 0 <= k < i && batch[k] == previous.value;
          return false, [];
        }
        assert forall k | 0 <= k < i :: batch[k] in deduped;
        deduped := deduped + [batch[i]];
      }
      ok := true;
    }

    /** The dropped message of one id, still among the deduped ones. */
    method FindStored(ghost batch: seq<Message>, deduped: seq<Message>, ghost all: set<string>, ghost stored: set<string>, id: string)
      returns (message: Message)
      requires deduped == Without(batch, all - stored)
      requires id in stored && exists m :: m in batch && m.id == id
      ensures message in batch && message.id == id
    {
      WithoutMembers(batch, all - stored);
      LookupFinds(deduped, id);
      message := Lookup(deduped, id).value;
    }

    /** A stored message of the batch: rewritten when the turn may, left alone otherwise. */
    method Rewrite(chatId: string, message: Message, finalizable: set<string>) returns (ok: bool)
      requires HasId(message) && chatId in messages && message.id in messages[chatId]
      modifies this`messages
      ensures ok <==> (message.id in finalizable ==> HasRole(message))
      ensures ok ==>
        var row := old(messages)[chatId][message.id];
        messages == old(messages)[chatId := old(messages)[chatId][message.id :=
          if message.id in finalizable && message.role == row.role then row.(message := message) else row]]
    {
      if message.id in finalizable {
        if !HasRole(message) { return false; }
        var wrote := FinalizeChatMessage(chatId, message.id, message.role, message);
      }
      ghost var rows := old(messages)[chatId];
      assert rows[message.id := rows[message.id]] == rows;
      assert old(messages)[chatId := rows] == old(messages);
      ok := true;
    }

    /** One round of the loop below. */
    method SkipOne(chatId: string, ghost rows: Rows, ghost batch: seq<Message>, finalizable: set<string>,
                   ghost todo: set<string>, ghost messages0: map<string, Rows>, message: Message) returns (ok: bool)
      requires WellIdentified(batch) && message in batch && message.id in rows && message.id in todo
      requires chatId in messages0 && messages0[chatId] == rows
      requires Skipped(chatId, rows, batch, finalizable, todo, messages0, messages)
      modifies this`messages
      ensures ok <==> (message.id in finalizable ==> HasRole(message))
      ensures ok ==> Skipped(chatId, rows, batch, finalizable, todo - {message.id}, messages0, messages)
    {
      NamedIs(batch, message);
      FinalizeStep(rows, batch, finalizable, todo, message);
      ok := Rewrite(chatId, message, finalizable);
    }

    /** Second pass: drop what the chat holds already, rewriting the finalizable part of it. */
    method SkipStored(chatId: string, batch: seq<Message>, finalizable: set<string>)
      returns (ok: bool, deduped: seq<Message>)
      requires WellIdentified(batch)
      modifies this`messages
      ensures var rows := RowsOf(old(Tables()), chatId);
        && (ok <==> forall m | m in batch && m.id in rows && m.id in finalizable :: HasRole(m))
        && (ok ==> deduped == NewOnes(rows, batch))
        && (ok ==> messages == if chatId in old(messages)
                               then old(messages)[chatId := FinalizedRows(rows, batch, finalizable)]
                               else old(messages))
    {
      var rows := if chatId in messages then messages[chatId] else map[];
      var stored := set m | m in batch && m.id in rows :: m.id;
      ghost var all, rest := stored, rows.Keys - stored;
      deduped := batch;
      NothingDropped(batch);
      NothingSkipped(chatId, rows, batch, finalizable, messages);
      SetsMeet(all, rows.Keys);
      while stored != {}
        invariant stored <= all
        invariant deduped == Without(batch, all - stored)
        invariant Skipped(chatId, rows, batch, finalizable, stored + rest, old(messages), messages)
        invariant forall m | m in batch && m.id in all - stored && m.id in finalizable :: HasRole(m)
        decreases |stored|
      {
        var id :| id in stored;
        var message := FindStored(batch, deduped, all, stored, id);
        deduped := Without(deduped, {id});
        DropStep(batch, all, stored, id);
        OneOwner(batch, message);
        ok := SkipOne(chatId, rows, batch, finalizable, stored + rest, old(messages), message);
        if !ok { return; }
        OneFewer(stored, rest, id);
        stored := stored - {id};
      }
      WithoutAgrees(batch, all, rows.Keys);
      UnnamedUntouched(rows, batch, finalizable, all);
      ok := true;
    }

    /** Third pass: one insert of the new messages at the reserved positions. */
    method InsertMessages(chatId: string, news: seq<Message>, start: nat) returns (ok: bool)
      requires forall m | m in news :: m.id !in RowsOf(Tables(), chatId)
      requires DistinctIds(news) && news != []
      modifies this`messages
      ensures ok <==> forall m | m in news :: HasRole(m)
      ensures ok ==> messages == old(messages)[chatId := Inserted(RowsOf(old(Tables()), chatId), news, start)]
    {
      var rows := if chatId in messages then messages[chatId] else map[];
      ghost var rows0 := rows;
      assert rows0 == RowsOf(Tables(), chatId);
      for offset := 0 to |news|
        invariant messages == old(messages)
        invariant rows == Inserted(rows0, news[..offset], start)
        invariant forall k | 0 <= k < offset :: HasRole(news[k])
      {
        var m := news[offset];
        if !HasRole(m) { return false; }
        assert news[..offset + 1][..offset] == news[..offset];
        NotInsertedYet(rows0, news, offset, start);
        if m.id !in rows {  // on conflict do nothing
          rows := rows[m.id := RowFor(m, start + offset)];
        }
      }
      assert news[..|news|] == news;
      messages := messages[chatId := rows];
      ok := true;
    }

    method StoreChatMessages(chatId: string, batch: seq<Message>, finalizable: set<string>) returns (ok: bool)
      modifies this`chats, this`messages
      ensures ok <==> StoreBatch(old(Tables()), chatId, batch, finalizable).Committed?
      ensures ok ==> Tables() == StoreBatch(old(Tables()), chatId, batch, finalizable).value
    {
      var deduped;
      ok, deduped := Dedupe(batch);
      if !ok || deduped == [] { return; }
      if chatId !in chats || chats[chatId].deleted { return true; }
      ghost var before := Tables();
      ghost var rows := RowsOf(before, chatId);
      ok, deduped := SkipStored(chatId, batch, finalizable);
      if !ok {
        Unreadable(rows, batch, finalizable);
        return;
      }
      assert RowsOf(Tables(), chatId) == FinalizedRows(rows, batch, finalizable);
      WithoutMembers(batch, rows.Keys);
      if deduped == [] {
        NothingNew(before, chatId, batch, finalizable);
        return;
      }
      WithoutDistinct(batch, rows.Keys);
      ok := StoreNew(chatId, deduped);
      if ok {
        SomeNew(before, chatId, batch, finalizable, chats, messages);
      } else {
        Unreadable(rows, batch, finalizable);
      }
    }

    /** Reserve a slot per new message, then insert them. */
    method StoreNew(chatId: string, news: seq<Message>) returns (ok: bool)
      requires LiveChat(Tables(), chatId) && DistinctIds(news) && news != []
      requires forall m | m in news :: m.id !in RowsOf(Tables(), chatId)
      modifies this`chats, this`messages
      ensures ok <==> forall m | m in news :: HasRole(m)
      ensures ok ==>
        && chats == old(chats)[chatId := old(chats)[chatId].(next := old(chats)[chatId].next + |news|)]
        && messages == old(messages)[chatId := Inserted(RowsOf(old(Tables()), chatId), news, old(chats)[chatId].next)]
    {
      var start := ReserveMessagePositions(chatId, |news|);
      ok := InsertMessages(chatId, news, start.value);
    }

    method UpsertInvestigationRevision(id: Option<string>, newId: string, chatId: string, projectRef: string,
                                       environmentRef: string, state: State) returns (result: Tx<UpsertResult>)
      modifies this`investigations
      ensures match Upsert(old(Tables()), id, newId, chatId, projectRef, environmentRef, state)
              case Aborted => result.Aborted? && Tables() == old(Tables())
              case Committed((db, r)) => result == Committed(r) && Tables() == db
    {
      if id.None? || id.value == "" {
        if newId in investigations { return Aborted; }
        investigations := investigations[newId := Inv(chatId, projectRef, environmentRef, 0, state)];
        return Committed(UpsertOk(newId, 0, true));
      }
      if id.value in investigations && InContext(investigations[id.value], chatId, projectRef, environmentRef) {
        var inv := investigations[id.value];
        investigations := investigations[id.value := inv.(revision := inv.revision + 1, state := state)];
        return Committed(UpsertOk(id.value, inv.revision + 1, false));
      }
      result := Committed(UpsertErr(if id.value in investigations then ContextMismatch else NotFound));
    }

    method SettleInvestigationAsInconclusive(id: string, note: string) returns (settled: Option<Settled>)
      modifies this`investigations
      ensures SettleInconclusive(old(Tables()), id, note) == (Tables(), settled)
    {
      if id !in investigations || !Open(investigations[id].state) { return None; }
      var inv := investigations[id];
      var state := SqlSettled(inv.state, note);
      investigations := investigations[id := inv.(revision := inv.revision + 1, state := state)];
      settled := Some(Settled(id, inv.revision + 1, state));
    }

    method AppendOneMessage(chatId: string, message: Message, scope: Scope) returns (result: Tx<bool>)
      modifies this`chats, this`messages
      ensures match Append(old(Tables()), chatId, message, scope)
              case Aborted => result.Aborted? && Tables() == old(Tables())
              case Committed((db, appended)) => result == Committed(appended) && Tables() == db
    {
      if !HasId(message) || !HasRole(message) { return Aborted; }
      var rows := if chatId in messages then messages[chatId] else map[];
      if chatId !in chats || chats[chatId].deleted || !InScope(chats[chatId], scope) || message.id in rows {
        return Committed(false);
      }
      var start := ReserveMessagePositions(chatId, 1);
      messages := messages[chatId := rows[message.id := RowFor(message, start.value)]];
      result := Committed(true);
    }

    // -------------------------------------------------------------- whole transactions

    method PersistMessages(chatId: string, batch: seq<Message>) returns (committed: bool)
      modifies this
      ensures committed == Store.PersistMessages(old(Tables()), chatId, batch).Committed?
      ensures Tables() == After(old(Tables()), Store.PersistMessages(old(Tables()), chatId, batch))
    {
      var chats0, messages0, investigations0, sessions0 := chats, messages, investigations, sessions;
      committed := StoreChatMessages(chatId, batch, {});
      if !committed { Rollback(chats0, messages0, investigations0, sessions0); }
    }

    method PersistTurn(chatId: string, batch: seq<Message>, session: Session, pending: seq<Pending>, finalizeIds: seq<string>)
      returns (result: Tx<seq<Settled>>)
      modifies this
      ensures match Store.PersistTurn(old(Tables()), chatId, batch, session, pending, finalizeIds)
              case Aborted => result.Aborted? && Tables() == old(Tables())
              case Committed((db, settled)) => result == Committed(settled) && Tables() == db
    {
      var chats0, messages0, investigations0, sessions0 := chats, messages, investigations, sessions;
      var settled: seq<Settled> := [];
      var cards: seq<Message> := [];
      for i := 0 to |pending|
        invariant SettleAll(old(Tables()), chatId, pending[..i]) == Committed(Settlements(Tables(), settled, cards))
      {
        var p := pending[i];
        assert pending[..i + 1][..i] == pending[..i];
        var upserted := UpsertInvestigationRevision(Some(p.id), "", chatId, p.projectRef, p.environmentRef, p.state);
        if upserted.value.UpsertErr? { continue; }
        var card := SettlementMessage(upserted.value.id, upserted.value.revision, p.state, None);
        if card.None? {
          AbortedStays(old(Tables()), chatId, pending, i + 1);
          Rollback(chats0, messages0, investigations0, sessions0);
          return Aborted;
        }
        settled := settled + [Settled(upserted.value.id, upserted.value.revision, p.state)];
        cards := cards + [card.value];
      }
      assert pending[..|pending|] == pending;
      var ok := StoreChatMessages(chatId, batch + Unused(cards, batch), Finalizable(finalizeIds));
      if !ok {
        Rollback(chats0, messages0, investigations0, sessions0);
        return Aborted;
      }
      sessions := sessions[chatId := session];
      result := Committed(settled);
    }

    method SettleInvestigationAndCloseCard(id: string, chatId: string, note: string)
      returns (result: Tx<Option<(Settled, bool)>>)
      modifies this
      ensures match SweepCard(old(Tables()), id, chatId, note)
              case Aborted => result.Aborted? && Tables() == old(Tables())
              case Committed((db, r)) => result == Committed(r) && Tables() == db
    {
      var chats0, messages0, investigations0, sessions0 := chats, messages, investigations, sessions;
      var settled := SettleInvestigationAsInconclusive(id, note);
      if settled.None? { return Committed(None); }
      var message := SettlementMessage(settled.value.id, settled.value.revision, settled.value.state, None);
      if message.None? {
        Rollback(chats0, messages0, investigations0, sessions0);
        return Aborted;
      }
      var appended := AppendOneMessage(chatId, message.value, AnyCaller);
      if appended.Aborted? {
        Rollback(chats0, messages0, investigations0, sessions0);
        return Aborted;
      }
      result := Committed(Some((settled.value, appended.value)));
    }

    method SettleInvestigationStateAndCloseCard(id: InvestigationId, chatId: string, projectRef: string, environmentRef: string,
                                                state: State, messageId: string) returns (result: Tx<CloseResult>)
      modifies this
      ensures match CloseCard(old(Tables()), id, chatId, projectRef, environmentRef, state, messageId)
              case Aborted => result.Aborted? && Tables() == old(Tables())
              case Committed((db, r)) => result == Committed(r) && Tables() == db
    {
      var chats0, messages0, investigations0, sessions0 := chats, messages, investigations, sessions;
      if id !in investigations { return Committed(NotClosed(CloseNotFound)); }
      if !InContext(investigations[id], chatId, projectRef, environmentRef) {
        return Committed(NotClosed(CloseContextMismatch));
      }
      if chatId !in chats || chats[chatId].deleted { return Committed(NotClosed(ChatMissing)); }
      if chatId in messages && messageId in messages[chatId] {
        return Committed(Closed(id, investigations[id].revision, messages[chatId][messageId].message, false));
      }
      var upserted := UpsertInvestigationRevision(Some(id), "", chatId, projectRef, environmentRef, state);
      var card := SettlementMessage(id, upserted.value.revision, state, Some(messageId));
      if card.None? {
        Rollback(chats0, messages0, investigations0, sessions0);
        return Aborted;
      }
      var appended := AppendOneMessage(chatId, card.value, AnyCaller);
      if appended.Aborted? || !appended.value {
        Rollback(chats0, messages0, investigations0, sessions0);
        return Aborted;
      }
      result := Committed(Closed(id, upserted.value.revision, card.value, true));
    }
  }

  lemma {:induction false} NothingDropped(batch: seq<Message>)
    ensures Without(batch, {}) == batch
  {
    if batch != [] {
      NothingDropped(batch[..|batch| - 1]);
    }
  }

  lemma OneOwner(batch: seq<Message>, message: Message)
    requires WellIdentified(batch) && message in batch
    ensures forall m | m in batch && m.id == message.id :: m == message
  {
    var i :| 0 <= i < |batch| && batch[i] == message;
  }

  lemma {:induction false} WithoutDistinct(batch: seq<Message>, ids: set<string>)
    requires DistinctIds(batch)
    ensures DistinctIds(Without(batch, ids))
  {
    if batch != [] {
      var init := batch[..|batch| - 1];
      WithoutDistinct(init, ids);
      WithoutMembers(init, ids);
      var kept, last := Without(init, ids), batch[|batch| - 1];
      forall i | 0 <= i < |kept| ensures kept[i].id != last.id {
        assert kept[i] in init;
      }
    }
  }

  lemma Unreadable(rows: Rows, batch: seq<Message>, finalizable: set<string>)
    requires (exists m :: m in batch && m.id in rows && m.id in finalizable && !HasRole(m))
          || (exists m :: m in batch && m.id !in rows && !HasRole(m))
    ensures !RolesReadable(rows, batch, finalizable)
  {
    var m :| m in batch && (m.id in rows ==> m.id in finalizable) && !HasRole(m);
    var i :| 0 <= i < |batch| && batch[i] == m;
  }

  lemma Readable(rows: Rows, batch: seq<Message>, finalizable: set<string>)
    requires forall m | m in batch && m.id in rows && m.id in finalizable :: HasRole(m)
    requires forall m | m in batch && m.id !in rows :: HasRole(m)
    ensures RolesReadable(rows, batch, finalizable)
  {
  }

  lemma NothingNew(db: Db, chatId: string, batch: seq<Message>, finalizable: set<string>)
    requires WellIdentified(batch) && batch != [] && LiveChat(db, chatId)
    requires NewOnes(RowsOf(db, chatId), batch) == []
    requires forall m | m in batch && m.id in RowsOf(db, chatId) && m.id in finalizable :: HasRole(m)
    ensures StoreBatch(db, chatId, batch, finalizable)
            == Committed(db.(messages := db.messages[chatId := FinalizedRows(RowsOf(db, chatId), batch, finalizable)]))
    ensures chatId in db.messages
  {
    var rows := RowsOf(db, chatId);
    WithoutMembers(batch, rows.Keys);
    Readable(rows, batch, finalizable);
    assert batch[0] in batch;
    assert db.chats[chatId := db.chats[chatId].(next := db.chats[chatId].next + 0)] == db.chats;
  }

  lemma SomeNew(db: Db, chatId: string, batch: seq<Message>, finalizable: set<string>,
                chats: map<string, Chat>, messages: map<string, Rows>)
    requires WellIdentified(batch) && batch != [] && LiveChat(db, chatId)
    requires forall m | m in batch && m.id in RowsOf(db, chatId) && m.id in finalizable :: HasRole(m)
    requires forall m | m in NewOnes(RowsOf(db, chatId), batch) :: HasRole(m)
    requires var rows := RowsOf(db, chatId); var news := NewOnes(rows, batch);
      && chats == db.chats[chatId := db.chats[chatId].(next := db.chats[chatId].next + |news|)]
      && messages - {chatId} == db.messages - {chatId} && chatId in messages
      && messages[chatId] == Inserted(FinalizedRows(rows, batch, finalizable), news, db.chats[chatId].next)
    ensures StoreBatch(db, chatId, batch, finalizable) == Committed(db.(chats := chats, messages := messages))
  {
    var rows := RowsOf(db, chatId);
    WithoutMembers(batch, rows.Keys);
    Readable(rows, batch, finalizable);
    var stored := Inserted(FinalizedRows(rows, batch, finalizable), NewOnes(rows, batch), db.chats[chatId].next);
    OneEntry(db.messages, messages, chatId, stored);
  }

  lemma OneEntry<V>(before: map<string, V>, after: map<string, V>, key: string, value: V)
    requires after - {key} == before - {key} && key in after && after[key] == value
    ensures after == before[key := value]
  {
    forall k | k in after || k in before ensures k == key || (k in after && k in before && after[k] == before[k]) {
      if k != key { assert k in after - {key} <==> k in before - {key}; }
    }
  }

  lemma {:induction false} AbortedStays(db: Db, chatId: string, pending: seq<Pending>, i: nat)
    requires i <= |pending| && SettleAll(db, chatId, pending[..i]).Aborted?
    ensures SettleAll(db, chatId, pending).Aborted?
  {
    if i == |pending| {
      assert pending[..i] == pending;
    } else {
      var init := pending[..|pending| - 1];
      assert init[..i] == pending[..i];
      AbortedStays(db, chatId, init, i);
    }
  }
}

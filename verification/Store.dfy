/**
 * What each query of the dashboard-agent store does, as functions on the contents of its
 * tables. A transaction is one function: its result is the committed tables, or Aborted,
 * which leaves them as they were. `AgentStore` implements these step by step.
 */
module Store {
  import opened Wrappers
  import opened Investigation

  datatype Chat = Chat(organizationId: string, userId: string, deleted: bool, next: nat)

  /** One chat_messages row; its key is the message id. */
  datatype Row = Row(position: nat, role: string, message: Message)

  type Rows = map<string, Row>

  datatype Inv = Inv(chatId: string, projectRef: string, environmentRef: string, revision: nat, state: State)

  datatype Session = Session(publicAccessToken: string, lastEventId: Option<string>, runId: Option<string>)

  /** The tables. `messages` is chat_messages grouped by chat id. */
  datatype Db = Db(
    chats: map<string, Chat>,
    messages: map<string, Rows>,
    investigations: map<string, Inv>,
    sessions: map<string, Session>
  )

  function RowsOf(db: Db, chatId: string): Rows {
    if chatId in db.messages then db.messages[chatId] else map[]
  }

  /** The chat exists and is not soft-deleted. */
  predicate LiveChat(db: Db, chatId: string) {
    chatId in db.chats && !db.chats[chatId].deleted
  }

  /** The payload carries a non-empty string id (else reading it throws). */
  predicate HasId(m: Message) { m.id != "" }

  predicate HasRole(m: Message) { m.role != "" }

  // ---------------------------------------------------------------- storing a batch

  /** Every message names itself, and no id comes twice. */
  ghost predicate WellIdentified(batch: seq<Message>) {
    && (forall i | 0 <= i < |batch| :: HasId(batch[i]))
    && DistinctIds(batch)
  }

  ghost predicate DistinctIds(batch: seq<Message>) {
    forall i, j | 0 <= i < j < |batch| :: batch[i].id != batch[j].id
  }

  ghost predicate Names(batch: seq<Message>, id: string) {
    exists i :: 0 <= i < |batch| && batch[i].id == id
  }

  ghost function Named(batch: seq<Message>, id: string): Message
    requires Names(batch, id)
  {
    var i :| 0 <= i < |batch| && batch[i].id == id;
    batch[i]
  }

  /** A batch without the messages that have one of `ids`, in batch order. */
  function Without(batch: seq<Message>, ids: set<string>): seq<Message> {
    if batch == [] then []
    else
      var last := batch[|batch| - 1];
      Without(batch[..|batch| - 1], ids) + if last.id in ids then [] else [last]
  }

  /** The messages the chat does not hold yet. */
  function NewOnes(rows: Rows, batch: seq<Message>): seq<Message> {
    Without(batch, rows.Keys)
  }

  /** A stored row is rewritten only if its id is finalizable and the new body has its role. */
  ghost function FinalizedRow(id: string, row: Row, batch: seq<Message>, finalizable: set<string>): Row {
    if id in finalizable && Names(batch, id) && Named(batch, id).role == row.role
    then row.(message := Named(batch, id))
    else row
  }

  ghost function FinalizedRows(rows: Rows, batch: seq<Message>, finalizable: set<string>): Rows {
    map id | id in rows :: FinalizedRow(id, rows[id], batch, finalizable)
  }

  function RowFor(m: Message, position: nat): Row
  {
    Row(position, m.role, m)
  }

  /** The rows after one insert of `news` at `start`, `start + 1`, ... */
  function Inserted(rows: Rows, news: seq<Message>, start: nat): Rows
  {
    if news == [] then rows
    else
      var last := news[|news| - 1];
      Inserted(rows, news[..|news| - 1], start)[last.id := RowFor(last, start + |news| - 1)]
  }

  /** A finalizable message that is stored must carry a role, and so must every new one. */
  ghost predicate RolesReadable(rows: Rows, batch: seq<Message>, finalizable: set<string>)
  {
    forall i | 0 <= i < |batch| && (batch[i].id in rows ==> batch[i].id in finalizable) :: HasRole(batch[i])
  }

  ghost function StoreBatch(db: Db, chatId: string, batch: seq<Message>, finalizable: set<string>): Tx<Db> {
    if !WellIdentified(batch) then Aborted
    else if batch == [] || !LiveChat(db, chatId) then Committed(db)
    else
      var rows := RowsOf(db, chatId);
      if !RolesReadable(rows, batch, finalizable) then Aborted
      else
        var news := NewOnes(rows, batch);
        Committed(WithRows(db, chatId,
          Inserted(FinalizedRows(rows, batch, finalizable), news, db.chats[chatId].next),
          db.chats[chatId].next + |news|))
  }

  /** The rows and the allocator of a chat, replaced. */
  function WithRows(db: Db, chatId: string, rows: Rows, next: nat): Db
    requires chatId in db.chats
  {
    db.(chats := db.chats[chatId := db.chats[chatId].(next := next)],
        messages := db.messages[chatId := rows])
  }

  /** persistMessages: no session state and nothing finalizable. */
  ghost function PersistMessages(db: Db, chatId: string, batch: seq<Message>): Tx<Db> {
    StoreBatch(db, chatId, batch, {})
  }

  // ---------------------------------------------------------------- one message

  /** The tenancy clause of an append; an absent or empty organization is not checked. */
  datatype Scope = AnyCaller | Owner(userId: string, organizationId: Option<string>)

  predicate InScope(chat: Chat, scope: Scope) {
    match scope
    case AnyCaller => true
    case Owner(user, org) => chat.userId == user && (org.Some? && org.value != "" ==> chat.organizationId == org.value)
  }

  function Append(db: Db, chatId: string, message: Message, scope: Scope): Tx<(Db, bool)> {
    if !HasId(message) || !HasRole(message) then Aborted
    else if !LiveChat(db, chatId) || !InScope(db.chats[chatId], scope) || message.id in RowsOf(db, chatId)
    then Committed((db, false))
    else
      var next := db.chats[chatId].next;
      Committed((WithRows(db, chatId, RowsOf(db, chatId)[message.id := RowFor(message, next)], next + 1), true))
  }

  /** The one deliberate rewrite of a stored body. */
  function Finalize(db: Db, chatId: string, messageId: string, expectedRole: string, message: Message): Tx<(Db, bool)> {
    if !HasRole(message) || message.role != expectedRole then Aborted
    else if !HasId(message) || message.id != messageId then Aborted
    else
      var rows := RowsOf(db, chatId);
      if messageId in rows && rows[messageId].role == expectedRole
      then Committed((db.(messages := db.messages[chatId := rows[messageId := rows[messageId].(message := message)]]), true))
      else Committed((db, false))
  }

  // ---------------------------------------------------------------- investigations

  /** The id of a row: generated, never empty. */
  type InvestigationId = s: string | s != "" witness "inv"

  datatype UpsertError = NotFound | ContextMismatch
  datatype UpsertResult = UpsertOk(id: string, revision: nat, created: bool) | UpsertErr(error: UpsertError)

  predicate InContext(inv: Inv, chatId: string, projectRef: string, environmentRef: string) {
    inv.chatId == chatId && inv.projectRef == projectRef && inv.environmentRef == environmentRef
  }

  function Revised(db: Db, id: string, state: State): Db
    requires id in db.investigations
  {
    var inv := db.investigations[id];
    db.(investigations := db.investigations[id := inv.(revision := inv.revision + 1, state := state)])
  }

  /** Bumping a named row. */
  function Revise(db: Db, id: string, chatId: string, projectRef: string, environmentRef: string, state: State)
    : (Db, UpsertResult)
  {
    if id !in db.investigations then (db, UpsertErr(NotFound))
    else if !InContext(db.investigations[id], chatId, projectRef, environmentRef) then (db, UpsertErr(ContextMismatch))
    else (Revised(db, id, state), UpsertOk(id, db.investigations[id].revision + 1, false))
  }

  /**
   * upsertInvestigationRevision: no id, or an empty one, opens a card under the generated
   * `newId`; a primary-key clash on it throws.
   */
  function Upsert(db: Db, id: Option<string>, newId: string, chatId: string, projectRef: string,
                  environmentRef: string, state: State): Tx<(Db, UpsertResult)>
  {
    if id.Some? && id.value != "" then Committed(Revise(db, id.value, chatId, projectRef, environmentRef, state))
    else if newId in db.investigations then Aborted
    else
      Committed((db.(investigations := db.investigations[newId := Inv(chatId, projectRef, environmentRef, 0, state)]),
                 UpsertOk(newId, 0, true)))
  }

  datatype Settled = Settled(id: string, revision: nat, state: State)

  /** settleInvestigationAsInconclusive: only a row still in progress. */
  function SettleInconclusive(db: Db, id: string, note: string): (Db, Option<Settled>) {
    if id in db.investigations && Open(db.investigations[id].state) then
      var state := SqlSettled(db.investigations[id].state, note);
      (Revised(db, id, state), Some(Settled(id, db.investigations[id].revision + 1, state)))
    else (db, None)
  }

  // ---------------------------------------------------------------- settle lanes

  /** settleInvestigationAndCloseCard, the stale sweep's lane. */
  function SweepCard(db: Db, id: string, chatId: string, note: string): Tx<(Db, Option<(Settled, bool)>)> {
    var (db1, settled) := SettleInconclusive(db, id, note);
    if settled.None? then Committed((db1, None))
    else
      var message := SettlementMessage(id, settled.value.revision, settled.value.state, None);
      if message.None? then Aborted
      else
        match Append(db1, chatId, message.value, AnyCaller)
        case Aborted => Aborted
        case Committed((db2, closed)) => Committed((db2, Some((settled.value, closed))))
  }

  datatype CloseError = CloseNotFound | CloseContextMismatch | ChatMissing
  datatype CloseResult =
    | Closed(id: string, revision: nat, card: Message, closed: bool)
    | NotClosed(error: CloseError)

  /** settleInvestigationStateAndCloseCard: the caller brings the state and the message id. */
  function CloseCard(db: Db, id: InvestigationId, chatId: string, projectRef: string, environmentRef: string,
                     state: State, messageId: string): Tx<(Db, CloseResult)>
  {
    if id !in db.investigations then Committed((db, NotClosed(CloseNotFound)))
    else if !InContext(db.investigations[id], chatId, projectRef, environmentRef) then
      Committed((db, NotClosed(CloseContextMismatch)))
    else if !LiveChat(db, chatId) then Committed((db, NotClosed(ChatMissing)))
    else if messageId in RowsOf(db, chatId) then
      Committed((db, Closed(id, db.investigations[id].revision, RowsOf(db, chatId)[messageId].message, false)))
    else
      var db1 := Revised(db, id, state);
      var revision := db.investigations[id].revision + 1;
      var card := SettlementMessage(id, revision, state, Some(messageId));
      if card.None? then Aborted
      else
        match Append(db1, chatId, card.value, AnyCaller)
        case Aborted => Aborted
        case Committed((db2, closed)) =>
          if closed then Committed((db2, Closed(id, revision, card.value, true))) else Aborted
  }

  // ---------------------------------------------------------------- the turn's one write

  /** A row still open when the turn ends, with what it is to be closed as. */
  datatype Pending = Pending(id: InvestigationId, projectRef: string, environmentRef: string, state: State)

  datatype Settlements = Settlements(db: Db, settled: seq<Settled>, cards: seq<Message>)

  /** The settlement loop: rows that left the chat/project/environment are passed over. */
  function SettleAll(db: Db, chatId: string, pending: seq<Pending>): Tx<Settlements> {
    if pending == [] then Committed(Settlements(db, [], []))
    else
      match SettleAll(db, chatId, pending[..|pending| - 1])
      case Aborted => Aborted
      case Committed(before) => SettleOne(before, chatId, pending[|pending| - 1])
  }

  function SettleOne(before: Settlements, chatId: string, p: Pending): Tx<Settlements> {
    var (db1, result) := Revise(before.db, p.id, chatId, p.projectRef, p.environmentRef, p.state);
    match result
    case UpsertErr(_) => Committed(before)
    case UpsertOk(id, revision, _) =>
      var card := SettlementMessage(id, revision, p.state, None);
      if card.None? then Aborted
      else Committed(Settlements(db1, before.settled + [Settled(id, revision, p.state)], before.cards + [card.value]))
  }

  function IdsOf(messages: seq<Message>): set<string> {
    set m | m in messages :: m.id
  }

  /** The cards whose id the turn's own messages do not already use. */
  function Unused(cards: seq<Message>, messages: seq<Message>): seq<Message> {
    Without(cards, IdsOf(messages))
  }

  /** The ids a turn may rewrite: those it names, except settlement ids. */
  function Finalizable(ids: seq<string>): set<string> {
    set id | id in ids && !IsSettlementId(id)
  }

  ghost function PersistTurn(db: Db, chatId: string, messages: seq<Message>, session: Session,
                             pending: seq<Pending>, finalizeIds: seq<string>): Tx<(Db, seq<Settled>)>
  {
    match SettleAll(db, chatId, pending)
    case Aborted => Aborted
    case Committed(s) =>
      match StoreBatch(s.db, chatId, messages + Unused(s.cards, messages), Finalizable(finalizeIds))
      case Aborted => Aborted
      case Committed(db2) => Committed((db2.(sessions := db2.sessions[chatId := session]), s.settled))
  }

  // ---------------------------------------------------------------- chats

  function CreateChat(db: Db, id: string, organizationId: string, userId: string): Db {
    if id in db.chats then db
    else db.(chats := db.chats[id := Chat(organizationId, userId, false, 1)])
  }

  function SoftDelete(db: Db, chatId: string, userId: string, organizationId: string): Db {
    if chatId in db.chats && db.chats[chatId].userId == userId && db.chats[chatId].organizationId == organizationId
    then db.(chats := db.chats[chatId := db.chats[chatId].(deleted := true)])
    else db
  }

  /** Retention: soft-deleted chats go with every row keyed by them. */
  function HardDelete(db: Db, ids: set<string>): Db {
    var gone := set id | id in ids && id in db.chats && db.chats[id].deleted;
    Db(db.chats - gone, db.messages - gone,
       map i | i in db.investigations && db.investigations[i].chatId !in gone :: db.investigations[i],
       db.sessions - gone)
  }
}

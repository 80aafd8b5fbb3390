/** What holds over whole runs of the store: stored messages are fixed, deliveries count once. */
module Delivery {
  import opened Wrappers
  import opened Investigation
  import opened Store
  import opened AgentStore
  import opened StoreRuns

  ghost predicate NoPurge(steps: seq<Step>) {
    forall s | s in steps :: !s.Purge?
  }

  /** All bodies of chat `c` some step of the run may rewrite. */
  ghost function RunRewritable(steps: seq<Step>, c: string): set<string> {
    if steps == [] then {} else Rewritable(steps[0], c) + RunRewritable(steps[1..], c)
  }

  /**
   * Short of hard deletion a stored message keeps its id, position and role for good, its
   * columns always equal the body's own id and role, and its body changes only if some
   * turn or direct rewrite named it.
   */
  lemma {:induction false} StoredForGood(db: Db, steps: seq<Step>, c: string, id: string)
    requires Valid(db) && NoPurge(steps) && c in db.chats && id in RowsOf(db, c)
    ensures var db' := RunFrom(db, steps); var row, rows' := RowsOf(db, c)[id], RowsOf(db', c);
      && c in db'.chats && id in rows'
      && rows'[id].position == row.position && rows'[id].role == row.role
      && rows'[id].message.id == id && rows'[id].message.role == row.role
      && (rows'[id].message == row.message || id in RunRewritable(steps, c))
    decreases |steps|
  {
    assert ChatOk(db, c);
    if steps != [] {
      var mid := Apply(db, steps[0]);
      assert steps[0] in steps && forall s | s in steps[1..] :: s in steps;
      StepKeepsValid(db, steps[0]);
      StepKeeps(db, steps[0], c);
      StoredForGood(mid, steps[1..], c, id);
    }
  }

  /** A turn rewrites only bodies it names, and never a settlement card's. */
  lemma TurnRewritesOnlyItsOwn(db: Db, c: string, messages: seq<Message>, session: Session, pending: seq<Pending>,
                               finalizeIds: seq<string>, id: string)
    requires ChatOk(db, c) && c in db.chats && id in RowsOf(db, c)
    requires PersistTurn(db, c, messages, session, pending, finalizeIds).Committed?
    ensures var db' := PersistTurn(db, c, messages, session, pending, finalizeIds).value.0;
      && id in RowsOf(db', c)
      && (RowsOf(db', c)[id].message != RowsOf(db, c)[id].message ==> id in finalizeIds && !IsSettlementId(id))
  {
    TurnKeeps(db, c, messages, session, pending, finalizeIds, c);
  }

  // ---------------------------------------------------------------- exactly once

  /** This step is a delivery under (c, messageId) that revised its row and stored its card. */
  predicate Bumps(db: Db, step: Step, c: string, messageId: string) {
    && step.Close? && step.chatId == c && step.messageId == messageId
    && var tx := CloseCard(db, step.id, step.chatId, step.projectRef, step.environmentRef, step.state, step.messageId);
       tx.Committed? && tx.value.1.Closed? && tx.value.1.closed
  }

  ghost function BumpCount(db: Db, steps: seq<Step>, c: string, messageId: string): nat
    decreases |steps|
  {
    if steps == [] then 0
    else (if Bumps(db, steps[0], c, messageId) then 1 else 0) + BumpCount(Apply(db, steps[0]), steps[1..], c, messageId)
  }

  /** The four endings of one delivery. */
  lemma DeliveryEndings(db: Db, id: InvestigationId, c: string, p: string, e: string, state: State, messageId: string)
    ensures var tx := CloseCard(db, id, c, p, e, state, messageId);
      match tx
      case Aborted => true
      case Committed((db', NotClosed(_))) => db' == db
      case Committed((db', Closed(i, revision, card, closed))) =>
        && i == id && id in db'.investigations && db'.investigations[id].revision == revision
        && messageId in RowsOf(db', c) && RowsOf(db', c)[messageId].message == card
        && (closed <==> messageId !in RowsOf(db, c))
        && (closed ==> revision == db.investigations[id].revision + 1 && db'.investigations[id].state == state)
        && (!closed ==> db' == db)
  {
  }

  lemma {:induction false} NoBumpAfter(db: Db, steps: seq<Step>, c: string, messageId: string)
    requires ChatOk(db, c) && NoPurge(steps) && c in db.chats && messageId in RowsOf(db, c)
    ensures BumpCount(db, steps, c, messageId) == 0
    decreases |steps|
  {
    if steps != [] {
      assert steps[0] in steps && forall s | s in steps[1..] :: s in steps;
      StepKeeps(db, steps[0], c);
      NoBumpAfter(Apply(db, steps[0]), steps[1..], c, messageId);
    }
  }

  /**
   * However often an action is redelivered, in whatever mix with other operations short of
   * hard deletion, at most one delivery revises the row; every other leaves all tables alone.
   */
  lemma {:induction false} AtMostOneBump(db: Db, steps: seq<Step>, c: string, messageId: string)
    requires ChatOk(db, c) && NoPurge(steps)
    ensures BumpCount(db, steps, c, messageId) <= 1
    decreases |steps|
  {
    if steps != [] {
      var next := Apply(db, steps[0]);
      assert steps[0] in steps && forall s | s in steps[1..] :: s in steps;
      StepKeeps(db, steps[0], c);
      if Bumps(db, steps[0], c, messageId) {
        BumpStores(db, steps[0], c, messageId);
        NoBumpAfter(next, steps[1..], c, messageId);
      } else {
        AtMostOneBump(next, steps[1..], c, messageId);
      }
    }
  }

  lemma BumpStores(db: Db, step: Step, c: string, messageId: string)
    requires Bumps(db, step, c, messageId)
    ensures c in Apply(db, step).chats && messageId in RowsOf(Apply(db, step), c)
  {
  }

  lemma UnbumpedIsUnchanged(db: Db, step: Step, c: string, messageId: string)
    requires step.Close? && step.chatId == c && step.messageId == messageId && !Bumps(db, step, c, messageId)
    ensures Apply(db, step) == db
  {
    DeliveryEndings(db, step.id, c, step.projectRef, step.environmentRef, step.state, messageId);
  }
}

/**
 * The races on one chat: any number of appends and batch stores, interleaved statement by
 * statement. A writer works under the chat row's lock with its changes invisible until it
 * commits; an append decided that its message is missing on a snapshot taken before it got
 * that lock, so two of them can both have seen it missing.
 */
module Races {
  import opened Wrappers

  type Id = string
  type Pid = nat

  /** A message row: who inserted it is only there to state who may claim it. */
  datatype Entry = Entry(id: Id, position: nat, writer: Pid)

  datatype Worker =
    // appendOneMessage: snapshot, then lock and reserve, then insert, then commit; `lost` is a
    // position reserved for a message that was there by then
    | AppendReady(id: Id)
    | AppendSawMissing(id: Id)
    | AppendReserved(id: Id, position: nat)
    | AppendInserted(id: Id, position: nat, inserted: bool)
    | AppendDone(id: Id, reported: bool, lost: bool)
    // storeChatMessages: lock, read which ids are missing, reserve, insert, commit
    | BatchReady(ids: seq<Id>)
    | BatchLocked(ids: seq<Id>)
    | BatchRead(ids: seq<Id>, missing: seq<Id>)
    | BatchReserved(ids: seq<Id>, missing: seq<Id>, start: nat)
    | BatchInserted(ids: seq<Id>, start: nat, added: seq<Entry>)
    | BatchDone(ids: seq<Id>)
    // either kind, rolled back
    | Failed

  /** `rows`, `next` and `deleted` are what is committed; a lock holder's changes are in its worker. */
  datatype State = State(rows: seq<Entry>, next: nat, deleted: bool, lock: Option<Pid>, workers: map<Pid, Worker>)

  /** The next statement of a worker, its rollback, or a soft deletion of the chat. */
  datatype Action = Go(pid: Pid) | Abort(pid: Pid) | SoftDelete

  predicate Stored(rows: seq<Entry>, id: Id) { exists k :: 0 <= k < |rows| && rows[k].id == id }

  predicate Holding(w: Worker) {
    w.AppendReserved? || w.AppendInserted? || w.BatchLocked? || w.BatchRead? || w.BatchReserved? || w.BatchInserted?
  }

  function Missing(rows: seq<Entry>, ids: seq<Id>): seq<Id> {
    if ids == [] then []
    else Missing(rows, ids[..|ids| - 1]) + if Stored(rows, ids[|ids| - 1]) then [] else [ids[|ids| - 1]]
  }

  /** One insert of `ids` at `start`, ..., with on conflict do nothing on the id. */
  function InsertAll(rows: seq<Entry>, ids: seq<Id>, start: nat, pid: Pid): seq<Entry> {
    if ids == [] then []
    else
      var before := InsertAll(rows, ids[..|ids| - 1], start, pid);
      var last := ids[|ids| - 1];
      if Stored(rows + before, last) then before else before + [Entry(last, start + |ids| - 1, pid)]
  }

  function Become(s: State, pid: Pid, w: Worker): State { s.(workers := s.workers[pid := w]) }

  function Release(s: State): State { s.(lock := None) }

  /** A statement that needs the chat row waits (nothing happens) while another holds it. */
  function Advance(s: State, pid: Pid): State
    requires pid in s.workers
  {
    var w := s.workers[pid];
    match w
    case AppendReady(id) =>
      // `not exists` and `deleted_at is null` on the statement's snapshot; no row, no lock
      if Stored(s.rows, id) || s.deleted then Become(s, pid, AppendDone(id, false, false))
      else Become(s, pid, AppendSawMissing(id))
    case AppendSawMissing(id) =>
      if s.lock.Some? then s
      // the row is re-read under the lock, the `not exists` is not
      else if s.deleted then Become(s, pid, AppendDone(id, false, false))
      else Become(s, pid, AppendReserved(id, s.next)).(lock := Some(pid))
    case AppendReserved(id, position) => Become(s, pid, AppendInserted(id, position, !Stored(s.rows, id)))
    case AppendInserted(id, position, inserted) =>
      Release(Become(s, pid, AppendDone(id, inserted, !inserted))).(
        rows := s.rows + if inserted then [Entry(id, position, pid)] else [],
        next := position + 1)
    case BatchReady(ids) =>
      if ids == [] then Become(s, pid, BatchDone(ids))
      else if s.lock.Some? then s
      else if s.deleted then Become(s, pid, BatchDone(ids))
      else Become(s, pid, BatchLocked(ids)).(lock := Some(pid))
    case BatchLocked(ids) => Become(s, pid, BatchRead(ids, Missing(s.rows, ids)))
    case BatchRead(ids, missing) =>
      if missing == [] then Release(Become(s, pid, BatchDone(ids)))
      else Become(s, pid, BatchReserved(ids, missing, s.next))
    case BatchReserved(ids, missing, start) => Become(s, pid, BatchInserted(ids, start + |missing|, InsertAll(s.rows, missing, start, pid)))
    case BatchInserted(ids, end, added) => Release(Become(s, pid, BatchDone(ids))).(rows := s.rows + added, next := end)
    case _ => s
  }

  function Step(s: State, action: Action): State {
    match action
    case Go(pid) => if pid in s.workers then Advance(s, pid) else s
    case Abort(pid) =>
      if pid !in s.workers || s.workers[pid].AppendDone? || s.workers[pid].BatchDone? then s
      else if Holding(s.workers[pid]) then Release(Become(s, pid, Failed))
      else Become(s, pid, Failed)
    case SoftDelete => if s.lock.Some? then s else s.(deleted := true)
  }

  function Run(s: State, actions: seq<Action>): State {
    if actions == [] then s else Step(Run(s, actions[..|actions| - 1]), actions[|actions| - 1])
  }

  /** A chat some serial history left consistent, and workers that have not started. */
  ghost predicate Start(s: State) {
    && RowsOk(s.rows, s.next) && s.lock == None
    && (forall pid | pid in s.workers :: s.workers[pid].AppendReady? || s.workers[pid].BatchReady?)
    && (forall pid | pid in s.workers && s.workers[pid].BatchReady? :: Distinct(s.workers[pid].ids))
    && (forall k | 0 <= k < |s.rows| :: s.rows[k].writer !in s.workers)
  }

  // ---------------------------------------------------------------- the invariant

  ghost predicate Distinct(ids: seq<Id>) { forall i, j | 0 <= i < j < |ids| :: ids[i] != ids[j] }

  ghost predicate OneRowPerId(rows: seq<Entry>) { forall i, j | 0 <= i < j < |rows| :: rows[i].id != rows[j].id }

  ghost predicate OneRowPerPosition(rows: seq<Entry>) { forall i, j | 0 <= i < j < |rows| :: rows[i].position != rows[j].position }

  ghost predicate Within(rows: seq<Entry>, low: nat, high: nat) { forall k | 0 <= k < |rows| :: low <= rows[k].position < high }

  ghost predicate RowsOk(rows: seq<Entry>, next: nat) {
    1 <= next && OneRowPerId(rows) && OneRowPerPosition(rows) && Within(rows, 1, next)
  }

  ghost predicate Wrote(rows: seq<Entry>, id: Id, pid: Pid) {
    exists k :: 0 <= k < |rows| && rows[k].id == id && rows[k].writer == pid
  }

  /** What a worker's program counter promises about what is committed. */
  ghost predicate WorkerOk(rows: seq<Entry>, next: nat, deleted: bool, pid: Pid, w: Worker) {
    match w
    case AppendReserved(_, position) => position == next
    case AppendInserted(id, position, inserted) => position == next && inserted == !Stored(rows, id)
    case AppendDone(id, reported, _) => (reported <==> Wrote(rows, id, pid)) && (Stored(rows, id) || deleted)
    case BatchReady(ids) => Distinct(ids)
    case BatchLocked(ids) => Distinct(ids)
    case BatchRead(ids, missing) => Distinct(ids) && missing == Missing(rows, ids)
    case BatchReserved(ids, missing, start) => Distinct(ids) && missing == Missing(rows, ids) && start == next
    case BatchInserted(ids, end, added) => Distinct(ids) && RowsOk(rows + added, end) && end == next + |added| && Adds(rows, ids, added, pid)
    case BatchDone(ids) => deleted || forall i | 0 <= i < |ids| :: Stored(rows, ids[i])
    case _ => true
  }

  /** `added` are this worker's rows of the batch, and together with the committed ones cover it. */
  ghost predicate Adds(rows: seq<Entry>, ids: seq<Id>, added: seq<Entry>, pid: Pid) {
    && (forall k | 0 <= k < |added| :: added[k].writer == pid && added[k].id in ids)
    && (forall i | 0 <= i < |ids| :: Stored(rows + added, ids[i]))
  }

  /** Only a finished append, or a batch, has its name on a row. */
  ghost predicate Claims(rows: seq<Entry>, pid: Pid, w: Worker) {
    (!w.AppendDone? && !w.BatchDone?) ==> forall k | 0 <= k < |rows| :: rows[k].writer != pid
  }

  ghost predicate Inv(s: State) {
    && RowsOk(s.rows, s.next)
    && (forall pid | pid in s.workers :: Holding(s.workers[pid]) <==> s.lock == Some(pid))
    && (s.lock.Some? ==> s.lock.value in s.workers)
    && (forall pid | pid in s.workers :: WorkerOk(s.rows, s.next, s.deleted, pid, s.workers[pid]))
    && (forall pid | pid in s.workers :: Claims(s.rows, pid, s.workers[pid]))
  }

  lemma StartIsOk(s: State)
    requires Start(s)
    ensures Inv(s)
  {
  }

  // ---------------------------------------------------------------- each statement

  lemma {:induction false} MissingAre(rows: seq<Entry>, ids: seq<Id>)
    requires Distinct(ids)
    ensures Distinct(Missing(rows, ids))
    ensures forall id :: id in Missing(rows, ids) <==> id in ids && !Stored(rows, id)
  {
    if ids != [] {
      var init, last := ids[..|ids| - 1], ids[|ids| - 1];
      MissingAre(rows, init);
      assert ids == init + [last];
      assert last !in init;
    }
  }

  lemma {:induction false} InsertAllIs(rows: seq<Entry>, ids: seq<Id>, start: nat, pid: Pid)
    requires Distinct(ids) && forall id | id in ids :: !Stored(rows, id)
    ensures var added := InsertAll(rows, ids, start, pid);
      && |added| == |ids|
      && (forall k | 0 <= k < |ids| :: added[k] == Entry(ids[k], start + k, pid))
  {
    if ids != [] {
      var init, last := ids[..|ids| - 1], ids[|ids| - 1];
      assert last in ids && forall id | id in init :: id in ids;
      InsertAllIs(rows, init, start, pid);
      var before := InsertAll(rows, init, start, pid);
      assert !Stored(rows + before, last) by {
        forall k | 0 <= k < |rows + before| ensures (rows + before)[k].id != last {
          if k < |rows| { assert !Stored(rows, last); } else { assert before[k - |rows|].id == init[k - |rows|]; }
        }
      }
    }
  }

  /** The unique-position constraint cannot fire: the reserved range is above every row. */
  lemma InsertedOk(rows: seq<Entry>, next: nat, ids: seq<Id>, missing: seq<Id>, pid: Pid)
    requires RowsOk(rows, next) && Distinct(ids) && missing == Missing(rows, ids)
    ensures var added := InsertAll(rows, missing, next, pid);
      |added| == |missing| && RowsOk(rows + added, next + |missing|) && Adds(rows, ids, added, pid)
  {
    MissingAre(rows, ids);
    InsertAllIs(rows, missing, next, pid);
    var added := InsertAll(rows, missing, next, pid);
    var all := rows + added;
    assert OneRowPerId(all) by {
      forall i, j | 0 <= i < j < |all| ensures all[i].id != all[j].id {
        if i < |rows| <= j {
          assert missing[j - |rows|] in missing;
        }
      }
    }
    forall i | 0 <= i < |ids| ensures Stored(all, ids[i]) { CoveredAfter(rows, added, missing, ids, i); }
  }

  lemma CoveredAfter(rows: seq<Entry>, added: seq<Entry>, missing: seq<Id>, ids: seq<Id>, i: nat)
    requires i < |ids| && |added| == |missing|
    requires forall k | 0 <= k < |missing| :: added[k].id == missing[k]
    requires forall id :: id in missing <==> id in ids && !Stored(rows, id)
    ensures Stored(rows + added, ids[i])
  {
    assert ids[i] in ids;
    if Stored(rows, ids[i]) {
      var k :| 0 <= k < |rows| && rows[k].id == ids[i];
      assert (rows + added)[k].id == ids[i];
    } else {
      var k :| 0 <= k < |missing| && missing[k] == ids[i];
      assert (rows + added)[|rows| + k].id == ids[i];
    }
  }

  /** Rows only accumulate, so what a finished or waiting worker relies on stays true. */
  lemma StillOk(rows: seq<Entry>, next: nat, deleted: bool, added: seq<Entry>, next': nat, deleted': bool, pid: Pid, w: Worker)
    requires WorkerOk(rows, next, deleted, pid, w) && !Holding(w) && (deleted ==> deleted')
    requires forall k | 0 <= k < |added| :: added[k].writer != pid
    ensures WorkerOk(rows + added, next', deleted', pid, w)
  {
    forall id | Stored(rows, id) ensures Stored(rows + added, id) {
      var k :| 0 <= k < |rows| && rows[k].id == id;
      assert (rows + added)[k].id == id;
    }
    if w.AppendDone? {
      if Wrote(rows, w.id, pid) {
        var k :| 0 <= k < |rows| && rows[k].id == w.id && rows[k].writer == pid;
        assert (rows + added)[k] == rows[k];
      }
    }
  }

  /** A step that commits nothing: one worker moves, the lock may change hands. */
  lemma QuietStep(s: State, s': State, pid: Pid)
    requires Inv(s) && pid in s.workers && s'.workers.Keys == s.workers.Keys
    requires s'.rows == s.rows && s'.next == s.next && s'.deleted == s.deleted
    requires forall p | p in s.workers && p != pid :: s'.workers[p] == s.workers[p]
    requires WorkerOk(s.rows, s.next, s.deleted, pid, s'.workers[pid]) && Claims(s.rows, pid, s'.workers[pid])
    requires Holding(s'.workers[pid]) <==> s'.lock == Some(pid)
    requires s'.lock == s.lock || (s'.lock == Some(pid) && s.lock == None) || (s'.lock == None && s.lock == Some(pid))
    ensures Inv(s')
  {
  }

  /** A commit: the lock holder publishes its rows and gives the lock back. */
  lemma CommitStep(s: State, s': State, pid: Pid, added: seq<Entry>)
    requires Inv(s) && pid in s.workers && s.lock == Some(pid) && s'.workers.Keys == s.workers.Keys
    requires s'.rows == s.rows + added && RowsOk(s'.rows, s'.next) && s'.deleted == s.deleted && s'.lock == None
    requires forall k | 0 <= k < |added| :: added[k].writer == pid
    requires forall p | p in s.workers && p != pid :: s'.workers[p] == s.workers[p]
    requires WorkerOk(s'.rows, s'.next, s'.deleted, pid, s'.workers[pid])
    requires s'.workers[pid].AppendDone? || s'.workers[pid].BatchDone?
    ensures Inv(s')
  {
    forall p | p in s.workers && p != pid
      ensures !Holding(s'.workers[p]) && WorkerOk(s'.rows, s'.next, s'.deleted, p, s'.workers[p]) && Claims(s'.rows, p, s'.workers[p])
    {
      assert !Holding(s.workers[p]) && WorkerOk(s.rows, s.next, s.deleted, p, s.workers[p]) && Claims(s.rows, p, s.workers[p]);
      Bystander(s.rows, s.next, s.deleted, added, s'.next, p, pid, s.workers[p]);
    }
  }

  lemma Bystander(rows: seq<Entry>, next: nat, deleted: bool, added: seq<Entry>, next': nat, p: Pid, pid: Pid, w: Worker)
    requires WorkerOk(rows, next, deleted, p, w) && Claims(rows, p, w) && !Holding(w) && p != pid
    requires forall k | 0 <= k < |added| :: added[k].writer == pid
    ensures WorkerOk(rows + added, next', deleted, p, w) && Claims(rows + added, p, w)
  {
    StillOk(rows, next, deleted, added, next', deleted, p, w);
  }

  lemma AppendCommits(s: State, pid: Pid)
    requires Inv(s) && pid in s.workers && s.workers[pid].AppendInserted?
    ensures Inv(Advance(s, pid))
  {
    var w, s' := s.workers[pid], Advance(s, pid);
    var added := if w.inserted then [Entry(w.id, w.position, pid)] else [];
    assert WorkerOk(s.rows, s.next, s.deleted, pid, w) && Claims(s.rows, pid, w);
    OneMoreRow(s.rows, s.next, added, w, pid);
    CommitStep(s, s', pid, added);
  }

  lemma OneMoreRow(rows: seq<Entry>, next: nat, added: seq<Entry>, w: Worker, pid: Pid)
    requires RowsOk(rows, next) && w.AppendInserted? && WorkerOk(rows, next, false, pid, w) && Claims(rows, pid, w)
    requires added == if w.inserted then [Entry(w.id, w.position, pid)] else []
    ensures RowsOk(rows + added, next + 1)
    ensures WorkerOk(rows + added, next + 1, false, pid, AppendDone(w.id, w.inserted, !w.inserted))
  {
    var all := rows + added;
    if w.inserted {
      assert all[|rows|].id == w.id;
    } else {
      assert all == rows;
    }
  }

  lemma BatchCommits(s: State, pid: Pid)
    requires Inv(s) && pid in s.workers && s.workers[pid].BatchInserted?
    ensures Inv(Advance(s, pid))
  {
    assert WorkerOk(s.rows, s.next, s.deleted, pid, s.workers[pid]);
    CommitStep(s, Advance(s, pid), pid, s.workers[pid].added);
  }

  lemma AppendMoves(s: State, pid: Pid)
    requires Inv(s) && pid in s.workers
    requires var w := s.workers[pid]; w.AppendReady? || w.AppendSawMissing? || w.AppendReserved?
    ensures Inv(Advance(s, pid))
  {
    var s' := Advance(s, pid);
    assert WorkerOk(s.rows, s.next, s.deleted, pid, s.workers[pid]) && Claims(s.rows, pid, s.workers[pid]);
    if s' != s { QuietStep(s, s', pid); }
  }

  lemma BatchMoves(s: State, pid: Pid)
    requires Inv(s) && pid in s.workers
    requires var w := s.workers[pid]; w.BatchReady? || w.BatchLocked? || w.BatchRead?
    ensures Inv(Advance(s, pid))
  {
    var w, s' := s.workers[pid], Advance(s, pid);
    assert WorkerOk(s.rows, s.next, s.deleted, pid, w) && Claims(s.rows, pid, w);
    if w.BatchRead? { NothingMissing(s.rows, w.ids); }
    if s' != s { QuietStep(s, s', pid); }
  }

  lemma BatchInserts(s: State, pid: Pid)
    requires Inv(s) && pid in s.workers && s.workers[pid].BatchReserved?
    ensures Inv(Advance(s, pid))
  {
    var w := s.workers[pid];
    assert WorkerOk(s.rows, s.next, s.deleted, pid, w) && Claims(s.rows, pid, w);
    InsertedOk(s.rows, s.next, w.ids, w.missing, pid);
    QuietStep(s, Advance(s, pid), pid);
  }

  lemma NothingMissing(rows: seq<Entry>, ids: seq<Id>)
    requires Distinct(ids)
    ensures Missing(rows, ids) == [] ==> forall i | 0 <= i < |ids| :: Stored(rows, ids[i])
  {
    MissingAre(rows, ids);
    assert forall i | 0 <= i < |ids| :: ids[i] in ids;
  }

  lemma StepKeeps(s: State, action: Action)
    requires Inv(s)
    ensures Inv(Step(s, action))
  {
    match action
    case Go(pid) =>
      if pid in s.workers {
        match s.workers[pid]
        case AppendInserted(_, _, _) => AppendCommits(s, pid);
        case BatchInserted(_, _, _) => BatchCommits(s, pid);
        case AppendReady(_) | AppendSawMissing(_) | AppendReserved(_, _) => AppendMoves(s, pid);
        case BatchReady(_) | BatchLocked(_) | BatchRead(_, _) => BatchMoves(s, pid);
        case BatchReserved(_, _, _) => BatchInserts(s, pid);
        case _ =>
      }
    case Abort(pid) =>
      var s' := Step(s, action);
      if s' != s {
        assert Claims(s.rows, pid, s.workers[pid]);
        QuietStep(s, s', pid);
      }
    case SoftDelete =>
      var s' := Step(s, action);
      forall pid | pid in s.workers ensures s'.lock == None ==> WorkerOk(s'.rows, s'.next, s'.deleted, pid, s'.workers[pid]) {
        if s.lock == None {
          StillOk(s.rows, s.next, s.deleted, [], s.next, s'.deleted, pid, s.workers[pid]);
          assert s.rows + [] == s.rows;
        }
      }
  }

  // ---------------------------------------------------------------- every interleaving

  lemma {:induction false} RunKeeps(s: State, actions: seq<Action>)
    requires Start(s)
    ensures Inv(Run(s, actions))
  {
    if actions == [] {
      StartIsOk(s);
    } else {
      RunKeeps(s, actions[..|actions| - 1]);
      StepKeeps(Run(s, actions[..|actions| - 1]), actions[|actions| - 1]);
    }
  }

  /**
   * In every interleaving: a message id is stored at most once, positions are distinct and
   * lie in [1, next), and of any number of appends of one id at most one reports true.
   */
  lemma InterleavingsAreSafe(s: State, actions: seq<Action>)
    requires Start(s)
    ensures var t := Run(s, actions);
      && RowsOk(t.rows, t.next)
      && (forall p, q | p in t.workers && q in t.workers && t.workers[p].AppendDone? && t.workers[q].AppendDone?
            && t.workers[p].reported && t.workers[q].reported && t.workers[p].id == t.workers[q].id :: p == q)
  {
    RunKeeps(s, actions);
    var t := Run(s, actions);
    forall p, q | p in t.workers && q in t.workers && t.workers[p].AppendDone? && t.workers[q].AppendDone?
      && t.workers[p].reported && t.workers[q].reported && t.workers[p].id == t.workers[q].id
      ensures p == q
    {
      assert WorkerOk(t.rows, t.next, t.deleted, p, t.workers[p]) && WorkerOk(t.rows, t.next, t.deleted, q, t.workers[q]);
      var i :| 0 <= i < |t.rows| && t.rows[i].id == t.workers[p].id && t.rows[i].writer == p;
      var j :| 0 <= j < |t.rows| && t.rows[j].id == t.workers[q].id && t.rows[j].writer == q;
    }
  }

  /** Nothing is lost: once an append or a batch has finished, its messages are stored unless the chat is deleted. */
  lemma FinishedIsStored(s: State, actions: seq<Action>, pid: Pid)
    requires Start(s) && pid in Run(s, actions).workers && !Run(s, actions).deleted
    ensures var t := Run(s, actions);
      match t.workers[pid]
      case AppendDone(id, _, _) => Stored(t.rows, id)
      case BatchDone(ids) => forall i | 0 <= i < |ids| :: Stored(t.rows, ids[i])
      case _ => true
  {
    RunKeeps(s, actions);
    var t := Run(s, actions);
    assert WorkerOk(t.rows, t.next, t.deleted, pid, t.workers[pid]);
  }

  // ---------------------------------------------------------------- burnt positions

  /** The appends that reserved a position and then found their message there. */
  function Lost(s: State): set<Pid> { set p | p in s.workers && Loses(s.workers[p]) }

  /** Positions handed out for good and not used, beyond those lost appends account for. */
  function Unexplained(s: State): int { s.next - |s.rows| - |Lost(s)| }

  /** The rows a worker's next statement commits. */
  function Publishes(w: Worker, pid: Pid): seq<Entry> {
    if w.BatchInserted? then w.added
    else if w.AppendInserted? && w.inserted then [Entry(w.id, w.position, pid)]
    else []
  }

  /** One worker has gone one statement further. */
  ghost predicate Moved(s: State, s': State, pid: Pid) {
    && pid in s.workers && s'.workers.Keys == s.workers.Keys
    && (forall p | p in s.workers && p != pid :: s'.workers[p] == s.workers[p])
    && var w, w' := s.workers[pid], s'.workers[pid];
    && !w.AppendDone?
    && s'.rows == s.rows + Publishes(w, pid)
    && (Loses(w') <==> w.AppendInserted? && !w.inserted)
    && s'.next == s.next + |Publishes(w, pid)| + (if Loses(w') then 1 else 0)
    && Ids(w') == Ids(w) && (Appending(w') <==> Appending(w))
    && (Trusts(w') ==> Publishes(w, pid) == [] && Appending(w) && w'.id == w.id && (Trusts(w) || !Stored(s.rows, w.id)))
  }

  predicate Loses(w: Worker) { w.AppendDone? && w.lost }

  /** An append that acts on having seen its message missing. */
  predicate Trusts(w: Worker) { w.AppendSawMissing? || w.AppendReserved? || w.AppendInserted? }

  lemma AppendAdvances(s: State, pid: Pid)
    requires pid in s.workers && Appending(s.workers[pid]) && !s.workers[pid].AppendDone?
    requires s.workers[pid].AppendReserved? || s.workers[pid].AppendInserted? ==> WorkerOk(s.rows, s.next, s.deleted, pid, s.workers[pid])
    ensures Advance(s, pid) == s || Moved(s, Advance(s, pid), pid)
  {
    var s' := Advance(s, pid);
    assert s.rows + [] == s.rows;
    assert s'.workers.Keys == s.workers.Keys;
  }

  lemma BatchAdvances(s: State, pid: Pid)
    requires pid in s.workers && !Appending(s.workers[pid])
    requires s.workers[pid].BatchInserted? ==> WorkerOk(s.rows, s.next, s.deleted, pid, s.workers[pid])
    ensures Advance(s, pid) == s || Moved(s, Advance(s, pid), pid)
  {
    var s' := Advance(s, pid);
    assert s.rows + [] == s.rows;
    assert s'.workers.Keys == s.workers.Keys;
  }

  lemma AdvanceMoves(s: State, pid: Pid)
    requires Inv(s) && pid in s.workers
    ensures Advance(s, pid) == s || Moved(s, Advance(s, pid), pid)
  {
    assert WorkerOk(s.rows, s.next, s.deleted, pid, s.workers[pid]);
    if !Appending(s.workers[pid]) {
      BatchAdvances(s, pid);
    } else if !s.workers[pid].AppendDone? {
      AppendAdvances(s, pid);
    }
  }

  lemma LostGrows(s: State, s': State, pid: Pid)
    requires pid in s.workers && s'.workers.Keys == s.workers.Keys && !Loses(s.workers[pid])
    requires forall p | p in s.workers && p != pid :: s'.workers[p] == s.workers[p]
    ensures Lost(s') == Lost(s) + if Loses(s'.workers[pid]) then {pid} else {}
    ensures |Lost(s')| == |Lost(s)| + if Loses(s'.workers[pid]) then 1 else 0
  {
    var more := if Loses(s'.workers[pid]) then {pid} else {};
    assert pid !in Lost(s);
    assert Lost(s') == Lost(s) + more;
  }

  lemma MovedBalances(s: State, s': State, pid: Pid)
    requires Moved(s, s', pid)
    ensures Unexplained(s') == Unexplained(s)
  {
    LostGrows(s, s', pid);
  }

  lemma StepBalances(s: State, action: Action)
    requires Inv(s)
    ensures Unexplained(Step(s, action)) == Unexplained(s)
  {
    var s' := Step(s, action);
    match action
    case SoftDelete => assert Lost(s') == Lost(s);
    case Abort(pid) => if s' != s { LostGrows(s, s', pid); }
    case Go(pid) =>
      if s' != s {
        AdvanceMoves(s, pid);
        MovedBalances(s, s', pid);
      }
  }

  /** The allocator has run ahead of the rows by exactly one position for every lost race. */
  lemma {:induction false} LostRacesBurnPositions(s: State, actions: seq<Action>)
    requires Start(s)
    ensures var t := Run(s, actions); t.next - |t.rows| == s.next - |s.rows| + |Lost(t)|
  {
    if actions == [] {
      assert Lost(s) == {};
    } else {
      var init := actions[..|actions| - 1];
      LostRacesBurnPositions(s, init);
      RunKeeps(s, init);
      StepBalances(Run(s, init), actions[|actions| - 1]);
    }
  }

  /** Every position handed out has its row. */
  ghost predicate GapFree(rows: seq<Entry>, next: nat) { forall p | 1 <= p < next :: p in Positions(rows) }

  function Positions(rows: seq<Entry>): set<nat> { set k | 0 <= k < |rows| :: rows[k].position }

  function UpTo(next: nat): (r: set<nat>)
    requires 1 <= next
    ensures |r| == next - 1 && forall p :: p in r <==> 1 <= p < next
  {
    if next == 1 then {} else UpTo(next - 1) + {next - 1}
  }

  lemma PositionsLast(rows: seq<Entry>)
    requires rows != []
    ensures Positions(rows) == Positions(rows[..|rows| - 1]) + {rows[|rows| - 1].position}
  {
    var init, n := rows[..|rows| - 1], |rows| - 1;
    forall p ensures p in Positions(rows) <==> p in Positions(init) || p == rows[n].position {
      if p in Positions(init) {
        var k :| 0 <= k < n && init[k].position == p;
        assert rows[k].position == p;
      }
      if p in Positions(rows) {
        var k :| 0 <= k < |rows| && rows[k].position == p;
        assert k < n ==> init[k].position == p;
      }
    }
  }

  lemma {:induction false} PositionsCount(rows: seq<Entry>)
    requires OneRowPerPosition(rows)
    ensures |Positions(rows)| == |rows|
  {
    if rows != [] {
      PositionsCount(rows[..|rows| - 1]);
      PositionsLast(rows);
    }
  }

  lemma GapFreeIsFull(rows: seq<Entry>, next: nat)
    requires RowsOk(rows, next)
    ensures |rows| <= next - 1
    ensures GapFree(rows, next) <==> |rows| == next - 1
  {
    PositionsCount(rows);
    var taken, all := Positions(rows), UpTo(next);
    assert taken <= all;
    SubsetIsSmaller(taken, all);
    if GapFree(rows, next) {
      assert taken == all;
    }
  }

  lemma SubsetIsSmaller(a: set<nat>, b: set<nat>)
    requires a <= b
    ensures |a| <= |b| && (|a| == |b| <==> a == b)
  {
    assert b == a + (b - a);
    assert |b| == |a| + |b - a|;
  }

  /** A chat without gaps gets one in a run exactly when an append loses its race. */
  lemma GapFreeIff(s: State, actions: seq<Action>)
    requires Start(s) && GapFree(s.rows, s.next)
    ensures GapFree(Run(s, actions).rows, Run(s, actions).next) <==> Lost(Run(s, actions)) == {}
  {
    var t := Run(s, actions);
    RunKeeps(s, actions);
    LostRacesBurnPositions(s, actions);
    GapFreeIsFull(s.rows, s.next);
    GapFreeIsFull(t.rows, t.next);
  }

  // ---------------------------------------------------------------- writers of different messages

  /** The messages a worker may write. */
  function Ids(w: Worker): set<Id> {
    match w
    case AppendReady(id) => {id}
    case AppendSawMissing(id) => {id}
    case AppendReserved(id, _) => {id}
    case AppendInserted(id, _, _) => {id}
    case AppendDone(id, _, _) => {id}
    case BatchReady(ids) => set i | i in ids
    case BatchLocked(ids) => set i | i in ids
    case BatchRead(ids, _) => set i | i in ids
    case BatchReserved(ids, _, _) => set i | i in ids
    case BatchInserted(ids, _, _) => set i | i in ids
    case BatchDone(ids) => set i | i in ids
    case Failed => {}
  }

  predicate Appending(w: Worker) { w.AppendReady? || w.AppendSawMissing? || w.AppendReserved? || w.AppendInserted? || w.AppendDone? }

  /** No append shares its message with another writer. */
  ghost predicate AppendsApart(s: State) {
    forall p, q | p in s.workers && q in s.workers && p != q && Appending(s.workers[p]) :: Ids(s.workers[p]) !! Ids(s.workers[q])
  }

  /** An append that saw its message missing is still right about it. */
  ghost predicate StillMissing(s: State) {
    && Lost(s) == {}
    && forall p | p in s.workers && Trusts(s.workers[p]) :: !Stored(s.rows, s.workers[p].id)
  }

  lemma MovedApart(s: State, s': State, pid: Pid)
    requires Inv(s) && AppendsApart(s) && StillMissing(s) && Moved(s, s', pid)
    ensures AppendsApart(s') && StillMissing(s')
  {
    var w := s.workers[pid];
    assert WorkerOk(s.rows, s.next, s.deleted, pid, w);
    LostGrows(s, s', pid);
    var added := Publishes(w, pid);
    assert forall k | 0 <= k < |added| :: added[k].id in Ids(w);
    forall p | p in s'.workers && Trusts(s'.workers[p]) ensures !Stored(s'.rows, s'.workers[p].id) {
      if p == pid {
        assert s'.rows == s.rows;
      } else {
        assert s'.workers[p] == s.workers[p] && Appending(s.workers[p]) && s.workers[p].id in Ids(s.workers[p]);
        OthersMissing(s.rows, added, s.workers[p].id);
      }
    }
  }

  lemma AbortedApart(s: State, pid: Pid)
    requires AppendsApart(s) && StillMissing(s)
    ensures AppendsApart(Step(s, Abort(pid))) && StillMissing(Step(s, Abort(pid)))
  {
    var s' := Step(s, Abort(pid));
    if s' != s {
      assert s'.workers[pid] == Failed && s'.rows == s.rows;
      LostGrows(s, s', pid);
    }
  }

  lemma StepApart(s: State, action: Action)
    requires Inv(s) && AppendsApart(s) && StillMissing(s)
    ensures AppendsApart(Step(s, action)) && StillMissing(Step(s, action))
  {
    var s' := Step(s, action);
    match action
    case SoftDelete => assert Lost(s') == Lost(s);
    case Abort(pid) => AbortedApart(s, pid);
    case Go(pid) =>
      if s' != s {
        AdvanceMoves(s, pid);
        MovedApart(s, s', pid);
      }
  }

  lemma OthersMissing(rows: seq<Entry>, added: seq<Entry>, id: Id)
    requires !Stored(rows, id) && forall k | 0 <= k < |added| :: added[k].id != id
    ensures !Stored(rows + added, id)
  {
    forall k | 0 <= k < |rows + added| ensures (rows + added)[k].id != id {
      if k < |rows| { assert rows[k].id != id; }
    }
  }

  lemma {:induction false} ApartIsGapFree(s: State, actions: seq<Action>)
    requires Start(s) && AppendsApart(s)
    ensures AppendsApart(Run(s, actions)) && StillMissing(Run(s, actions))
  {
    if actions == [] {
      assert Lost(s) == {};
    } else {
      var init := actions[..|actions| - 1];
      ApartIsGapFree(s, init);
      RunKeeps(s, init);
      StepApart(Run(s, init), actions[|actions| - 1]);
    }
  }

  /** Concurrent writers leave no gap as long as no append shares its message with another writer. */
  lemma DifferentMessagesLeaveNoGap(s: State, actions: seq<Action>)
    requires Start(s) && GapFree(s.rows, s.next) && AppendsApart(s)
    ensures GapFree(Run(s, actions).rows, Run(s, actions).next)
  {
    ApartIsGapFree(s, actions);
    GapFreeIff(s, actions);
  }

  // ---------------------------------------------------------------- a lost race

  /** Two appends of one message: 0 and 1 look, 0 goes through, then 1. */
  const RACE := [Go(0), Go(1), Go(0), Go(0), Go(0), Go(1), Go(1), Go(1)]

  function RaceState(k: nat): State {
    var first := [AppendReady("a"), AppendSawMissing("a"), AppendSawMissing("a"), AppendReserved("a", 1), AppendInserted("a", 1, true)];
    var second := [AppendReserved("a", 2), AppendInserted("a", 2, false)];
    if k < 5 then
      State([], 1, false, if k < 3 then None else Some(0),
            map[0 := first[k], 1 := if k < 2 then AppendReady("a") else AppendSawMissing("a")])
    else
      State([Entry("a", 1, 0)], if k < 8 then 2 else 3, false, if 5 < k < 8 then Some(1) else None,
            map[0 := AppendDone("a", true, false),
                1 := if k == 5 then AppendSawMissing("a") else if k < 8 then second[k - 6] else AppendDone("a", false, true)])
  }

  lemma RaceStep(k: nat)
    requires k < 8
    ensures Step(RaceState(k), RACE[k]) == RaceState(k + 1)
  {
    var s, t := RaceState(k), Step(RaceState(k), RACE[k]);
    if k >= 5 { assert s.rows[0].id == "a" && Stored(s.rows, "a"); }
    assert t.workers == RaceState(k + 1).workers;
  }

  lemma {:induction false} RaceRun(k: nat)
    requires k <= 8
    ensures Run(RaceState(0), RACE[..k]) == RaceState(k)
  {
    if k > 0 {
      RaceRun(k - 1);
      RaceStep(k - 1);
      assert RACE[..k][..k - 1] == RACE[..k - 1];
    }
  }

  /** A lost race can burn a position: one row at position 1, and the allocator at 3. */
  lemma LostRaceBurnsAPosition()
    ensures Start(RaceState(0))
    ensures Run(RaceState(0), RACE).rows == [Entry("a", 1, 0)] && Run(RaceState(0), RACE).next == 3
  {
    RaceRun(8);
    assert RACE[..8] == RACE;
  }
}

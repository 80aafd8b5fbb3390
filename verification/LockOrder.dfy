/**
 * Row locks of the transactions that touch both investigations and chats. The lanes that write
 * take the investigation row before the chat row and the chat row before the session row;
 * retention, which drops whole chats, starts with the session rows. Which of them can block each
 * other, and under what order none can.
 */
module LockOrder {

  datatype Resource = InvestigationRow(id: string) | ChatRow(chatId: string) | SessionRow(chatId: string)

  /**
   * The lanes with the rows their statements match. A turn on a soft-deleted chat locks no chat
   * row; retention deletes in whatever order each of its statements meets the rows.
   */
  datatype Lane =
    | TurnLane(chatId: string, settlements: seq<string>, stores: bool)
    | SweepLane(id: string, chatId: string)
    | CloseLane(id: string, chatId: string)
    | StoreLane(chatId: string)
    | RetentionLane(sessions: seq<string>, investigations: seq<string>, chats: seq<string>)

  function Investigations(ids: seq<string>): seq<Resource> { seq(|ids|, i requires 0 <= i < |ids| => InvestigationRow(ids[i])) }

  function Chats(ids: seq<string>): seq<Resource> { seq(|ids|, i requires 0 <= i < |ids| => ChatRow(ids[i])) }

  function Sessions(ids: seq<string>): seq<Resource> { seq(|ids|, i requires 0 <= i < |ids| => SessionRow(ids[i])) }

  /** The rows in the order the lane's statements lock them. */
  function Locks(lane: Lane): seq<Resource> {
    match lane
    // one revision update per settlement, the batch's two chat statements, the session upsert
    case TurnLane(c, ids, stores) => Investigations(ids) + (if stores then [ChatRow(c), ChatRow(c)] else []) + [SessionRow(c)]
    case SweepLane(id, c) => [InvestigationRow(id), ChatRow(c)]
    // both rows up front, then the revision and the append on rows already held
    case CloseLane(id, c) => [InvestigationRow(id), ChatRow(c), InvestigationRow(id), ChatRow(c)]
    case StoreLane(c) => [ChatRow(c), ChatRow(c)]
    case RetentionLane(sessions, investigations, chats) => Sessions(sessions) + Investigations(investigations) + Chats(chats)
  }

  type Pid = nat

  /** `pc` counts the locks taken; a finished or rolled-back transaction is dropped from `txs`. */
  datatype Tx = Tx(lane: Lane, pc: nat)
  datatype State = State(owner: map<Resource, Pid>, txs: map<Pid, Tx>)

  datatype Action = Begin(pid: Pid, lane: Lane) | Take(pid: Pid) | End(pid: Pid)

  predicate HasNext(s: State, pid: Pid) {
    pid in s.txs && s.txs[pid].pc < |Locks(s.txs[pid].lane)|
  }

  function Next(s: State, pid: Pid): Resource
    requires HasNext(s, pid)
  {
    Locks(s.txs[pid].lane)[s.txs[pid].pc]
  }

  /** `pid` cannot go on: its next row is another transaction's. */
  predicate WaitsFor(s: State, pid: Pid, other: Pid) {
    HasNext(s, pid) && pid != other && Next(s, pid) in s.owner && s.owner[Next(s, pid)] == other
  }

  predicate Holds(s: State, pid: Pid, r: Resource) { r in s.owner && s.owner[r] == pid }

  /** Ending, by commit, early return or rollback, gives every row back. */
  function Step(s: State, action: Action): State {
    match action
    case Begin(pid, lane) => if pid in s.txs then s else s.(txs := s.txs[pid := Tx(lane, 0)])
    case Take(pid) =>
      if !HasNext(s, pid) || (Next(s, pid) in s.owner && s.owner[Next(s, pid)] != pid) then s
      else State(s.owner[Next(s, pid) := pid], s.txs[pid := s.txs[pid].(pc := s.txs[pid].pc + 1)])
    case End(pid) => State(map r | r in s.owner && s.owner[r] != pid :: s.owner[r], s.txs - {pid})
  }

  function Run(s: State, actions: seq<Action>): State {
    if actions == [] then s else Step(Run(s, actions[..|actions| - 1]), actions[|actions| - 1])
  }

  const IDLE := State(map[], map[])

  /** A transaction owns exactly the rows its program has reached. */
  ghost predicate Inv(s: State) {
    && (forall pid | pid in s.txs :: s.txs[pid].pc <= |Locks(s.txs[pid].lane)|)
    && (forall pid, r :: Holds(s, pid, r) <==> pid in s.txs && r in Locks(s.txs[pid].lane)[..s.txs[pid].pc])
  }

  lemma StepKeeps(s: State, action: Action)
    requires Inv(s)
    ensures Inv(Step(s, action))
  {
    var s' := Step(s, action);
    match action
    case Begin(pid, lane) =>
      if s' != s {
        forall p, r ensures Holds(s', p, r) <==> p in s'.txs && r in Locks(s'.txs[p].lane)[..s'.txs[p].pc] {
          assert Holds(s', p, r) <==> Holds(s, p, r);
        }
      }
    case Take(pid) =>
      if s' != s { TakeKeeps(s, pid); }
    case End(pid) =>
      forall p, r ensures Holds(s', p, r) <==> p in s'.txs && r in Locks(s'.txs[p].lane)[..s'.txs[p].pc] {
        assert Holds(s', p, r) <==> p != pid && Holds(s, p, r);
      }
  }

  lemma TakeKeeps(s: State, pid: Pid)
    requires Inv(s) && HasNext(s, pid) && (Next(s, pid) in s.owner ==> s.owner[Next(s, pid)] == pid)
    ensures Inv(Step(s, Take(pid)))
  {
    var s', r0 := Step(s, Take(pid)), Next(s, pid);
    var program, pc := Locks(s.txs[pid].lane), s.txs[pid].pc;
    assert program[..pc + 1] == program[..pc] + [r0];
    forall p, r ensures Holds(s', p, r) <==> p in s'.txs && r in Locks(s'.txs[p].lane)[..s'.txs[p].pc] {
      assert Holds(s', p, r) <==> if r == r0 then p == pid else Holds(s, p, r);
      assert r == r0 && p != pid ==> !Holds(s, p, r);
    }
  }

  lemma {:induction false} RunKeeps(actions: seq<Action>)
    ensures Inv(Run(IDLE, actions))
  {
    if actions != [] {
      RunKeeps(actions[..|actions| - 1]);
      StepKeeps(Run(IDLE, actions[..|actions| - 1]), actions[|actions| - 1]);
    }
  }

  // ---------------------------------------------------------------- investigation before chat

  /** In a lane, an investigation row reached after a chat row was reached before as well. */
  lemma InvestigationsFirst(lane: Lane, pc: nat, chatId: string)
    requires pc < |Locks(lane)| && Locks(lane)[pc].InvestigationRow?
    ensures ChatRow(chatId) in Locks(lane)[..pc] ==> Locks(lane)[pc] in Locks(lane)[..pc]
  {
    var program := Locks(lane);
    match lane
    case CloseLane(_, _) => if pc >= 2 { assert program[..pc][pc - 2] == program[pc]; }
    case TurnLane(_, ids, _) => assert forall k | 0 <= k < pc :: program[k] == InvestigationRow(ids[k]);
    case RetentionLane(sessions, investigations, _) =>
      assert pc < |sessions| + |investigations|;
      assert forall k | 0 <= k < pc :: !program[k].ChatRow?;
    case _ =>
  }

  /** No transaction ever waits for an investigation row while it holds a chat row. */
  lemma NeverWaitsHoldingAChat(actions: seq<Action>, pid: Pid, other: Pid, chatId: string)
    requires WaitsFor(Run(IDLE, actions), pid, other) && Next(Run(IDLE, actions), pid).InvestigationRow?
    ensures !Holds(Run(IDLE, actions), pid, ChatRow(chatId))
  {
    RunKeeps(actions);
    var s := Run(IDLE, actions);
    InvestigationsFirst(s.txs[pid].lane, s.txs[pid].pc, chatId);
    assert !Holds(s, pid, Next(s, pid));
  }

  // ---------------------------------------------------------------- two lanes

  /**
   * `a` stopped before its row `i` and `b` before its row `j`: neither has a row of the other,
   * and each has the row the other wants next.
   */
  predicate CrossAt(a: seq<Resource>, b: seq<Resource>, i: nat, j: nat) {
    && i < |a| && j < |b|
    && a[i] in b[..j] && b[j] in a[..i]
    && forall r | r in a[..i] :: r !in b[..j]
  }

  /** Two rows both programs lock, in opposite orders, with no common row locked by both before. */
  ghost predicate Cross(a: seq<Resource>, b: seq<Resource>) { exists i: nat, j: nat :: CrossAt(a, b, i, j) }

  ghost predicate MutualWait(s: State, p: Pid, q: Pid) { WaitsFor(s, p, q) && WaitsFor(s, q, p) }

  /** A run of just these two lanes leaves each waiting for the other. */
  ghost predicate CanDeadlock(one: Lane, two: Lane) {
    exists actions, i: nat, j: nat ::
      Run(IDLE, actions).txs == map[0 := Tx(one, i), 1 := Tx(two, j)] && MutualWait(Run(IDLE, actions), 0, 1)
  }

  /** In any run of any lanes, two transactions wait for each other only if their lanes cross. */
  lemma MutualWaitCrosses(actions: seq<Action>, p: Pid, q: Pid)
    requires MutualWait(Run(IDLE, actions), p, q)
    ensures var s := Run(IDLE, actions); Cross(Locks(s.txs[p].lane), Locks(s.txs[q].lane))
  {
    RunKeeps(actions);
    var s := Run(IDLE, actions);
    var i, j := s.txs[p].pc, s.txs[q].pc;
    var a, b := Locks(s.txs[p].lane), Locks(s.txs[q].lane);
    assert Holds(s, q, a[i]) && Holds(s, p, b[j]);
    forall r | r in a[..i] ensures r !in b[..j] {
      assert Holds(s, p, r);
    }
    assert CrossAt(a, b, i, j);
  }

  /** `n` times the next lock of `pid`. */
  function Takes(pid: Pid, n: nat): seq<Action> { seq(n, k requires 0 <= k < n => Take(pid)) }

  lemma {:induction false} RunConcat(s: State, a: seq<Action>, b: seq<Action>)
    ensures Run(s, a + b) == Run(Run(s, a), b)
  {
    if b == [] {
      assert a + b == a;
    } else {
      RunConcat(s, a, b[..|b| - 1]);
      assert (a + b)[..|a + b| - 1] == a + b[..|b| - 1];
    }
  }

  function Owned(rows: seq<Resource>, pid: Pid): map<Resource, Pid> { map r | r in rows :: pid }

  /** `pid` at its row `n`, with the rows before it. */
  function Granted(s: State, pid: Pid, n: nat): State
    requires pid in s.txs && n <= |Locks(s.txs[pid].lane)|
  {
    var rows := Locks(s.txs[pid].lane)[..n];
    State(s.owner + Owned(rows, pid), s.txs[pid := Tx(s.txs[pid].lane, n)])
  }

  /** A transaction whose first `n` rows nobody owns gets them all, and nobody else is moved. */
  lemma {:induction false} TakesGo(s: State, pid: Pid, n: nat)
    requires pid in s.txs && s.txs[pid].pc == 0 && n <= |Locks(s.txs[pid].lane)|
    requires forall r | r in Locks(s.txs[pid].lane)[..n] :: r !in s.owner
    ensures Run(s, Takes(pid, n)) == Granted(s, pid, n)
  {
    var program := Locks(s.txs[pid].lane);
    if n == 0 {
      assert s.txs[pid := Tx(s.txs[pid].lane, 0)] == s.txs;
      assert s.owner + Owned(program[..0], pid) == s.owner;
    } else {
      assert program[..n] == program[..n - 1] + [program[n - 1]];
      TakesGo(s, pid, n - 1);
      assert Takes(pid, n)[..n - 1] == Takes(pid, n - 1);
      TakeGrants(s, pid, n - 1);
    }
  }

  lemma OneMoreRow(owner: map<Resource, Pid>, rows: seq<Resource>, row: Resource, pid: Pid)
    ensures (owner + Owned(rows, pid))[row := pid] == owner + Owned(rows + [row], pid)
  {
  }

  lemma TakeGrants(s: State, pid: Pid, n: nat)
    requires pid in s.txs && n < |Locks(s.txs[pid].lane)| && Locks(s.txs[pid].lane)[n] !in s.owner
    ensures Step(Granted(s, pid, n), Take(pid)) == Granted(s, pid, n + 1)
  {
    var lane, t := s.txs[pid].lane, Granted(s, pid, n);
    var rows, row := Locks(lane)[..n], Locks(lane)[n];
    assert HasNext(t, pid) && Next(t, pid) == row;
    assert row in t.owner ==> t.owner[row] == pid;
    OneMoreRow(s.owner, rows, row, pid);
    assert Locks(lane)[..n + 1] == rows + [row];
    assert t.txs[pid := Tx(lane, n + 1)] == s.txs[pid := Tx(lane, n + 1)];
  }

  function Begun(one: Lane, two: Lane): State { State(map[], map[0 := Tx(one, 0), 1 := Tx(two, 0)]) }

  lemma RunBegins(one: Lane, two: Lane)
    ensures Run(IDLE, [Begin(0, one), Begin(1, two)]) == Begun(one, two)
  {
    var begun := [Begin(0, one), Begin(1, two)];
    assert begun[..1] == [Begin(0, one)] && begun[..1][..0] == [];
    assert Run(IDLE, begun[..1]) == Step(IDLE, Begin(0, one));
  }

  function Met(one: Lane, two: Lane, i: nat, j: nat): State
    requires i <= |Locks(one)| && j <= |Locks(two)|
  {
    Granted(Granted(Begun(one, two), 0, i), 1, j)
  }

  /** The two own their rows and nothing else. */
  lemma MetOwners(one: Lane, two: Lane, i: nat, j: nat)
    requires i <= |Locks(one)| && j <= |Locks(two)| && forall r | r in Locks(one)[..i] :: r !in Locks(two)[..j]
    ensures Met(one, two, i, j).txs == map[0 := Tx(one, i), 1 := Tx(two, j)]
    ensures forall r | r in Locks(one)[..i] :: Holds(Met(one, two, i, j), 0, r)
    ensures forall r | r in Locks(two)[..j] :: Holds(Met(one, two, i, j), 1, r)
  {
    var s := Granted(Begun(one, two), 0, i);
    assert s.txs == map[0 := Tx(one, i), 1 := Tx(two, 0)];
    assert s.owner == Owned(Locks(one)[..i], 0);
    assert Met(one, two, i, j).owner == s.owner + Owned(Locks(two)[..j], 1);
  }

  lemma MetWait(one: Lane, two: Lane, i: nat, j: nat)
    requires CrossAt(Locks(one), Locks(two), i, j)
    ensures MutualWait(Met(one, two, i, j), 0, 1)
    ensures Met(one, two, i, j).txs == map[0 := Tx(one, i), 1 := Tx(two, j)]
  {
    MetOwners(one, two, i, j);
  }

  lemma RunMeets(one: Lane, two: Lane, i: nat, j: nat)
    requires CrossAt(Locks(one), Locks(two), i, j)
    ensures Run(IDLE, [Begin(0, one), Begin(1, two)] + Takes(0, i) + Takes(1, j)) == Met(one, two, i, j)
  {
    var begun := [Begin(0, one), Begin(1, two)];
    RunBegins(one, two);
    TakesGo(Begun(one, two), 0, i);
    TakesGo(Granted(Begun(one, two), 0, i), 1, j);
    RunConcat(IDLE, begun, Takes(0, i));
    RunConcat(IDLE, begun + Takes(0, i), Takes(1, j));
  }

  /** Crossing lanes do meet: one order of their statements leaves each waiting for the other. */
  lemma CrossingWaits(one: Lane, two: Lane, i: nat, j: nat) returns (actions: seq<Action>)
    requires CrossAt(Locks(one), Locks(two), i, j)
    ensures MutualWait(Run(IDLE, actions), 0, 1)
    ensures Run(IDLE, actions).txs == map[0 := Tx(one, i), 1 := Tx(two, j)]
  {
    actions := [Begin(0, one), Begin(1, two)] + Takes(0, i) + Takes(1, j);
    RunMeets(one, two, i, j);
    MetWait(one, two, i, j);
  }

  /** Two lanes can wait for each other exactly when they lock two common rows in opposite orders. */
  lemma MutualWaitIff(one: Lane, two: Lane)
    ensures CanDeadlock(one, two) <==> Cross(Locks(one), Locks(two))
  {
    if Cross(Locks(one), Locks(two)) {
      var i: nat, j: nat :| CrossAt(Locks(one), Locks(two), i, j);
      var actions := CrossingWaits(one, two, i, j);
    }
    if actions, i: nat, j: nat :| Run(IDLE, actions).txs == map[0 := Tx(one, i), 1 := Tx(two, j)] && MutualWait(Run(IDLE, actions), 0, 1) {
      MutualWaitCrosses(actions, 0, 1);
    }
  }

  // ---------------------------------------------------------------- who can block whom

  /** Two turns of one chat that settle the same two rows in opposite orders. */
  lemma OppositeOrdersDeadlock()
    ensures CanDeadlock(TurnLane("c", ["x", "y"], true), TurnLane("c", ["y", "x"], true))
  {
    var one, two := TurnLane("c", ["x", "y"], true), TurnLane("c", ["y", "x"], true);
    var a, b := Locks(one), Locks(two);
    assert "x"[0] != "y"[0];
    assert a[0] == InvestigationRow("x") == b[1] && a[1] == InvestigationRow("y") == b[0];
    assert CrossAt(a, b, 1, 1);
    MutualWaitIff(one, two);
  }

  /** A turn with one settlement on a soft-deleted chat, and the retention of that chat. */
  lemma RetentionDeadlock()
    ensures CanDeadlock(TurnLane("c", ["x"], false), RetentionLane(["c"], ["x"], ["c"]))
  {
    assert "x" in ["x"];
    TurnCrossesRetention("c", ["x"], false, ["c"], ["x"], ["c"]);
    MutualWaitIff(TurnLane("c", ["x"], false), RetentionLane(["c"], ["x"], ["c"]));
  }

  /** A turn that has locked something retention still needs, and whose session row retention has. */
  predicate MeetsRetention(c: string, ids: seq<string>, stores: bool, sessions: seq<string>, investigations: seq<string>, chats: seq<string>) {
    c in sessions && ((exists i | i in ids :: i in investigations) || (stores && c in chats))
  }

  /** The first row of `b` that is also in `a`. */
  lemma FirstCommon(a: seq<Resource>, b: seq<Resource>, k: nat) returns (j: nat)
    requires k < |b| && b[k] in a
    ensures j <= k && b[j] in a && forall r | r in a :: r !in b[..j]
  {
    j := 0;
    while b[j] !in a
      invariant j <= k && forall m | 0 <= m < j :: b[m] !in a
      decreases k - j
    {
      j := j + 1;
    }
  }

  /**
   * A turn can deadlock with retention exactly when it needs a session row retention takes first
   * and has itself a row retention takes later, or when both lock two of its investigation rows
   * in opposite orders; with one settlement only the first can be.
   */
  lemma TurnCrossesRetention(c: string, ids: seq<string>, stores: bool, sessions: seq<string>, investigations: seq<string>, chats: seq<string>)
    ensures CanDeadlock(TurnLane(c, ids, stores), RetentionLane(sessions, investigations, chats))
      <==> MeetsRetention(c, ids, stores, sessions, investigations, chats) || Cross(Investigations(ids), Investigations(investigations))
    ensures |ids| <= 1 ==> !Cross(Investigations(ids), Investigations(investigations))
  {
    var a, b := Locks(TurnLane(c, ids, stores)), Locks(RetentionLane(sessions, investigations, chats));
    MutualWaitIff(TurnLane(c, ids, stores), RetentionLane(sessions, investigations, chats));
    if MeetsRetention(c, ids, stores, sessions, investigations, chats) {
      MeetingCrosses(c, ids, stores, sessions, investigations, chats);
    }
    if i: nat, j: nat :| CrossAt(Investigations(ids), Investigations(investigations), i, j) {
      InvestigationsCross(c, ids, stores, sessions, investigations, chats, i, j);
    }
    if i: nat, j: nat :| CrossAt(a, b, i, j) {
      CrossingMeets(c, ids, stores, sessions, investigations, chats, i, j);
    }
  }

  lemma MeetingCrosses(c: string, ids: seq<string>, stores: bool, sessions: seq<string>, investigations: seq<string>, chats: seq<string>)
    requires MeetsRetention(c, ids, stores, sessions, investigations, chats)
    ensures Cross(Locks(TurnLane(c, ids, stores)), Locks(RetentionLane(sessions, investigations, chats)))
  {
    var a, b := Locks(TurnLane(c, ids, stores)), Locks(RetentionLane(sessions, investigations, chats));
    var n := |a| - 1;
    var k := RetainedRow(c, ids, stores, sessions, investigations, chats);
    var j := FirstCommon(a[..n], b, k);
    assert |sessions| <= j by {
      assert forall m | 0 <= m < |sessions| :: b[m] == SessionRow(sessions[m]);
      assert forall m | 0 <= m < n :: !a[..n][m].SessionRow?;
    }
    var m :| 0 <= m < |sessions| && sessions[m] == c;
    assert b[..j][m] == SessionRow(c) == a[n];
    assert CrossAt(a, b, n, j);
  }

  lemma InvestigationsCross(c: string, ids: seq<string>, stores: bool, sessions: seq<string>, investigations: seq<string>, chats: seq<string>, i: nat, j: nat)
    requires CrossAt(Investigations(ids), Investigations(investigations), i, j)
    ensures Cross(Locks(TurnLane(c, ids, stores)), Locks(RetentionLane(sessions, investigations, chats)))
  {
    var a, b := Locks(TurnLane(c, ids, stores)), Locks(RetentionLane(sessions, investigations, chats));
    assert a[..i] == Investigations(ids)[..i];
    assert b[..|sessions| + j] == Sessions(sessions) + Investigations(investigations)[..j];
    assert CrossAt(a, b, i, |sessions| + j);
  }

  lemma CrossingMeets(c: string, ids: seq<string>, stores: bool, sessions: seq<string>, investigations: seq<string>, chats: seq<string>, i: nat, j: nat)
    requires CrossAt(Locks(TurnLane(c, ids, stores)), Locks(RetentionLane(sessions, investigations, chats)), i, j)
    ensures MeetsRetention(c, ids, stores, sessions, investigations, chats) || Cross(Investigations(ids), Investigations(investigations))
  {
    var a, b := Locks(TurnLane(c, ids, stores)), Locks(RetentionLane(sessions, investigations, chats));
    var k :| 0 <= k < i && a[k] == b[j];
    var m :| 0 <= m < j && b[m] == a[i];
    assert a[..i][k] == a[k] && b[..j][m] == b[m];
    if a[i].SessionRow? {
      assert m < |sessions| && sessions[m] == c;
      if k < |ids| {
        assert ids[k] in ids && investigations[j - |sessions|] == ids[k];
      } else {
        assert chats[j - |sessions| - |investigations|] == c;
      }
    } else if i < |ids| {
      assert |sessions| <= m && j - |sessions| < |investigations|;
      InvestigationsOnly(ids, stores, sessions, investigations, chats, c, i, j);
    }
  }

  lemma InvestigationsOnly(ids: seq<string>, stores: bool, sessions: seq<string>, investigations: seq<string>, chats: seq<string>, c: string, i: nat, j: nat)
    requires CrossAt(Locks(TurnLane(c, ids, stores)), Locks(RetentionLane(sessions, investigations, chats)), i, j)
    requires i < |ids| && |sessions| <= j < |sessions| + |investigations|
    ensures Cross(Investigations(ids), Investigations(investigations))
  {
    var a, b := Locks(TurnLane(c, ids, stores)), Locks(RetentionLane(sessions, investigations, chats));
    var x, y, n := Investigations(ids), Investigations(investigations), j - |sessions|;
    assert a[..i] == x[..i];
    assert b[..j] == Sessions(sessions) + y[..n];
    assert x[i] == a[i] && y[n] == b[j];
    assert CrossAt(x, y, i, n);
  }

  lemma RetainedRow(c: string, ids: seq<string>, stores: bool, sessions: seq<string>, investigations: seq<string>, chats: seq<string>) returns (k: nat)
    requires MeetsRetention(c, ids, stores, sessions, investigations, chats)
    ensures var a, b := Locks(TurnLane(c, ids, stores)), Locks(RetentionLane(sessions, investigations, chats));
      k < |b| && b[k] in a[..|a| - 1]
  {
    var a, b := Locks(TurnLane(c, ids, stores)), Locks(RetentionLane(sessions, investigations, chats));
    if i :| i in ids && i in investigations {
      var x :| 0 <= x < |ids| && ids[x] == i;
      var y :| 0 <= y < |investigations| && investigations[y] == i;
      assert a[..|a| - 1][x] == InvestigationRow(i);
      k := |sessions| + y;
    } else {
      var y :| 0 <= y < |chats| && chats[y] == c;
      assert a[..|a| - 1][|ids|] == ChatRow(c);
      k := |sessions| + |investigations| + y;
    }
  }

  // ---------------------------------------------------------------- no deadlock

  /**
   * One order of all rows: session rows under retention, investigation rows, chat rows, other
   * session rows, and within each of these by `order`.
   */
  function Class(r: Resource, retained: set<string>): nat {
    match r
    case InvestigationRow(_) => 1
    case ChatRow(_) => 2
    case SessionRow(c) => if c in retained then 0 else 3
  }

  function Key(r: Resource): string { if r.InvestigationRow? then r.id else r.chatId }

  predicate Before(a: Resource, b: Resource, order: string -> int, retained: set<string>) {
    Class(a, retained) < Class(b, retained) || (Class(a, retained) == Class(b, retained) && order(Key(a)) < order(Key(b)))
  }

  ghost predicate Sorted(ids: seq<string>, order: string -> int) { forall i, j | 0 <= i < j < |ids| :: order(ids[i]) < order(ids[j]) }

  /**
   * Lists in one common order, and no settlement or store by a turn whose chat is under
   * retention. A turn with at most one settlement on another chat always is in order.
   */
  ghost predicate InOrder(lane: Lane, order: string -> int, retained: set<string>) {
    match lane
    case TurnLane(c, ids, stores) => Sorted(ids, order) && (c in retained ==> ids == [] && !stores)
    case RetentionLane(sessions, investigations, chats) =>
      Sorted(sessions, order) && Sorted(investigations, order) && Sorted(chats, order) && forall c | c in sessions :: c in retained
    case _ => true
  }

  lemma OneSettlementIsInOrder(c: string, ids: seq<string>, stores: bool, order: string -> int, retained: set<string>)
    requires |ids| <= 1
    ensures InOrder(TurnLane(c, ids, stores), order, retained) <==> c !in retained || (ids == [] && !stores)
  {
  }

  /** A row that a lane reaches for the first time comes after all it has taken. */
  lemma Ascending(lane: Lane, pc: nat, k: nat, order: string -> int, retained: set<string>)
    requires InOrder(lane, order, retained) && k < pc < |Locks(lane)|
    ensures Locks(lane)[pc] in Locks(lane)[..pc] || Before(Locks(lane)[k], Locks(lane)[pc], order, retained)
  {
    var program := Locks(lane);
    match lane
    case TurnLane(c, ids, stores) =>
      assert forall i | 0 <= i < |ids| :: program[i] == InvestigationRow(ids[i]);
      if stores && pc == |ids| + 1 { assert program[..pc][pc - 1] == program[pc]; }
    case CloseLane(_, _) => if pc >= 2 { assert program[..pc][pc - 2] == program[pc]; }
    case StoreLane(_) => assert program[..pc][k] == program[pc];
    case SweepLane(_, _) =>
    case RetentionLane(sessions, investigations, chats) => RetentionAscending(sessions, investigations, chats, pc, k, order, retained);
  }

  lemma RetentionAscending(sessions: seq<string>, investigations: seq<string>, chats: seq<string>, pc: nat, k: nat,
                           order: string -> int, retained: set<string>)
    requires InOrder(RetentionLane(sessions, investigations, chats), order, retained)
    requires k < pc < |sessions| + |investigations| + |chats|
    ensures var program := Locks(RetentionLane(sessions, investigations, chats)); Before(program[k], program[pc], order, retained)
  {
    var n, m := |sessions|, |sessions| + |investigations|;
    var program := Locks(RetentionLane(sessions, investigations, chats));
    forall i | i == k || i == pc
      ensures program[i] == if i < n then SessionRow(sessions[i]) else if i < m then InvestigationRow(investigations[i - n]) else ChatRow(chats[i - m])
    {
    }
  }

  ghost predicate AllInOrder(s: State, order: string -> int, retained: set<string>) {
    forall pid | pid in s.txs :: InOrder(s.txs[pid].lane, order, retained)
  }

  /** Each waits for the next. */
  ghost predicate WaitChain(s: State, chain: seq<Pid>) {
    forall i | 0 <= i < |chain| - 1 :: WaitsFor(s, chain[i], chain[i + 1])
  }

  lemma WaitClimbs(s: State, a: Pid, b: Pid, order: string -> int, retained: set<string>)
    requires Inv(s) && AllInOrder(s, order, retained) && WaitsFor(s, a, b) && HasNext(s, b)
    requires !Holds(s, b, Next(s, b))
    ensures Before(Next(s, a), Next(s, b), order, retained)
  {
    assert Holds(s, b, Next(s, a));
    var program, pc := Locks(s.txs[b].lane), s.txs[b].pc;
    var k :| 0 <= k < pc && program[..pc][k] == Next(s, a);
    Ascending(s.txs[b].lane, pc, k, order, retained);
  }

  lemma {:induction false} ChainClimbs(s: State, chain: seq<Pid>, order: string -> int, retained: set<string>)
    requires Inv(s) && AllInOrder(s, order, retained) && |chain| >= 3 && WaitChain(s, chain)
    ensures HasNext(s, chain[0]) && HasNext(s, chain[|chain| - 2])
    ensures Before(Next(s, chain[0]), Next(s, chain[|chain| - 2]), order, retained)
  {
    var n := |chain|;
    assert WaitsFor(s, chain[0], chain[1]);
    assert WaitsFor(s, chain[n - 3], chain[n - 2]) && WaitsFor(s, chain[n - 2], chain[n - 1]);
    WaitClimbs(s, chain[n - 3], chain[n - 2], order, retained);
    if n > 3 {
      ChainClimbs(s, chain[..n - 1], order, retained);
    }
  }

  /**
   * No deadlock among any number of transactions: while lists are in one common order and no
   * turn settles or stores on a chat under retention, no chain of waits closes on itself.
   */
  lemma NoDeadlock(actions: seq<Action>, chain: seq<Pid>, order: string -> int, retained: set<string>)
    requires AllInOrder(Run(IDLE, actions), order, retained)
    requires |chain| >= 2 && WaitChain(Run(IDLE, actions), chain)
    ensures chain[0] != chain[|chain| - 1]
  {
    RunKeeps(actions);
    var s, n := Run(IDLE, actions), |chain|;
    if n > 2 && chain[0] == chain[n - 1] {
      ChainClimbs(s, chain, order, retained);
      assert WaitsFor(s, chain[0], chain[1]) && WaitsFor(s, chain[n - 2], chain[n - 1]);
      WaitClimbs(s, chain[n - 2], chain[n - 1], order, retained);
    }
  }
}

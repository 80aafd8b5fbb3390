/**
 * scripts/recover-stuck-runs.ts: runs that Redis counts as running while the database still has
 * them queued go back to their queues, one write after the other.
 */
module Recovery {
  import opened Wrappers

  datatype Status = Queued | OtherStatus(name: string)

  /** The latest valid snapshot of a run joined with the run's row; an empty key is like none. */
  datatype Info = Info(runId: string, status: Status, orgId: string, projectId: string, environmentId: string, queue: string, concurrencyKey: string)

  datatype QueueKey = QueueKey(orgId: string, projectId: string, environmentId: string, queue: string, concurrencyKey: string)

  /** A run in a queue's sorted set or in the queue's own concurrency set. */
  datatype Slot = Slot(key: QueueKey, runId: string)

  function SlotOf(i: Info): Slot {
    Slot(QueueKey(i.orgId, i.projectId, i.environmentId, i.queue, i.concurrencyKey), i.runId)
  }

  /** The sorted sets with their scores, the queue concurrency sets, and the environment's set. */
  datatype Keys = Keys(queued: map<Slot, int>, held: set<Slot>, running: set<string>)

  /** A run's score in its queue, if it is there. */
  function Score(k: Keys, s: Slot): Option<int> { if s in k.queued then Some(k.queued[s]) else None }

  /** How many of its three writes each run gets before a write throws or the process dies. */
  type Progress = string -> nat

  predicate Stuck(i: Info, running: set<string>) { i.status.Queued? && i.runId in running }

  ghost predicate StuckSlot(rows: seq<Info>, running: set<string>, s: Slot) {
    exists i | i in rows :: Stuck(i, running) && SlotOf(i) == s
  }

  ghost predicate StuckRun(rows: seq<Info>, running: set<string>, r: string) {
    exists i | i in rows :: Stuck(i, running) && i.runId == r
  }

  /** The keys after the script got as far as `progress` with every stuck run. */
  ghost predicate Recovered(before: Keys, after: Keys, rows: seq<Info>, progress: Progress, now: int) {
    && (forall s :: Score(after, s) == if StuckSlot(rows, before.running, s) && progress(s.runId) >= 1 then Some(now) else Score(before, s))
    && (forall s :: s in after.held <==> s in before.held && !(StuckSlot(rows, before.running, s) && progress(s.runId) >= 2))
    && (forall r :: r in after.running <==> r in before.running && !(StuckRun(rows, before.running, r) && progress(r) >= 3))
  }

  /** A run's writes in order: into its queue, out of the queue's set, out of the environment's set. */
  function Moved(k: Keys, info: Info, now: int, reached: nat): Keys {
    Keys(
      if reached >= 1 then k.queued[SlotOf(info) := now] else k.queued,
      if reached >= 2 then k.held - {SlotOf(info)} else k.held,
      if reached >= 3 then k.running - {info.runId} else k.running
    )
  }

  /** The first `n` stuck runs, one after the other. */
  function MovedFirst(k: Keys, stuck: seq<Info>, n: nat, now: int, progress: Progress): Keys
    requires n <= |stuck|
  {
    if n == 0 then k else Moved(MovedFirst(k, stuck, n - 1, now, progress), stuck[n - 1], now, progress(stuck[n - 1].runId))
  }

  class Redis {
    var queued: map<Slot, int>
    var held: set<Slot>
    var running: set<string>

    constructor (k: Keys)
      ensures Contents() == k
    {
      queued, held, running := k.queued, k.held, k.running;
    }

    ghost function Contents(): Keys
      reads this
    {
      Keys(queued, held, running)
    }

    method Zadd(s: Slot, score: int)
      modifies this`queued
      ensures queued == old(queued)[s := score]
    {
      queued := queued[s := score];
    }

    method SremHeld(s: Slot) returns (removed: nat)
      modifies this`held
      ensures held == old(held) - {s}
      ensures removed == if s in old(held) then 1 else 0
    {
      removed := if s in held then 1 else 0;
      held := held - {s};
    }

    method SremRunning(runId: string) returns (removed: nat)
      modifies this`running
      ensures running == old(running) - {runId}
      ensures removed == if runId in old(running) then 1 else 0
    {
      removed := if runId in running then 1 else 0;
      running := running - {runId};
    }

    /** One run's three writes, up to the one that throws. */
    method RecoverOne(info: Info, now: int, reached: nat) returns (ok: bool)
      modifies this
      ensures ok <==> reached >= 3
      ensures Contents() == Moved(old(Contents()), info, now, reached)
    {
      if reached < 1 {
        return false;
      }
      Zadd(SlotOf(info), now);
      if reached < 2 {
        return false;
      }
      var removedFromQueue := SremHeld(SlotOf(info));
      if reached < 3 {
        return false;
      }
      var removedFromEnv := SremRunning(info.runId);
      return true;
    }

    /** The whole script; a dry run writes nothing. */
    method RecoverStuckRuns(rows: seq<Info>, execute: bool, now: int, progress: Progress) returns (successCount: nat, failureCount: nat)
      modifies this
      ensures execute ==> Recovered(old(Contents()), Contents(), rows, progress, now)
      ensures !execute ==> Contents() == old(Contents()) && failureCount == 0
      ensures successCount + failureCount == |Selected(rows, old(running))|
    {
      successCount, failureCount := 0, 0;
      var stuckRuns := SelectStuck(rows, running);
      var i := 0;
      while i < |stuckRuns|
        invariant 0 <= i <= |stuckRuns|
        invariant successCount + failureCount == i
        invariant !execute ==> failureCount == 0
        invariant Contents() == if execute then MovedFirst(old(Contents()), stuckRuns, i, now, progress) else old(Contents())
      {
        if execute {
          var ok := RecoverOne(stuckRuns[i], now, progress(stuckRuns[i].runId));
          if ok {
            successCount := successCount + 1;
          } else {
            failureCount := failureCount + 1;
          }
        } else {
          successCount := successCount + 1;
        }
        i := i + 1;
      }
      if execute {
        MovedRecovers(old(Contents()), rows, now, progress);
      }
    }
  }

  /** The stuck rows in the query's order. */
  function Selected(rows: seq<Info>, running: set<string>): seq<Info> {
    if rows == [] then []
    else
      var before, last := Selected(rows[..|rows| - 1], running), rows[|rows| - 1];
      if Stuck(last, running) then before + [last] else before
  }

  method SelectStuck(rows: seq<Info>, running: set<string>) returns (stuckRuns: seq<Info>)
    ensures stuckRuns == Selected(rows, running)
  {
    stuckRuns := [];
    var i := 0;
    while i < |rows|
      invariant 0 <= i <= |rows|
      invariant stuckRuns == Selected(rows[..i], running)
    {
      assert rows[..i + 1][..i] == rows[..i];
      if rows[i].runId in running && rows[i].status == Queued {
        stuckRuns := stuckRuns + [rows[i]];
      }
      i := i + 1;
    }
    assert rows[..i] == rows;
  }

  lemma {:induction false} SelectedIsStuck(rows: seq<Info>, running: set<string>)
    ensures forall i :: i in Selected(rows, running) <==> i in rows && Stuck(i, running)
  {
    if rows != [] {
      SelectedIsStuck(rows[..|rows| - 1], running);
      assert rows == rows[..|rows| - 1] + [rows[|rows| - 1]];
    }
  }

  ghost predicate AmongFirst(stuck: seq<Info>, n: nat, s: Slot)
    requires n <= |stuck|
  {
    exists j | 0 <= j < n :: SlotOf(stuck[j]) == s
  }

  ghost predicate RunAmongFirst(stuck: seq<Info>, n: nat, r: string)
    requires n <= |stuck|
  {
    exists j | 0 <= j < n :: stuck[j].runId == r
  }

  /** The sorted sets after the first `n` stuck runs were handled. */
  ghost predicate QueuedUpTo(before: Keys, after: Keys, stuck: seq<Info>, n: nat, progress: Progress, now: int)
    requires n <= |stuck|
  {
    forall s :: Score(after, s) == if AmongFirst(stuck, n, s) && progress(s.runId) >= 1 then Some(now) else Score(before, s)
  }

  /** The concurrency sets after the first `n` stuck runs were handled. */
  ghost predicate ReleasedUpTo(before: Keys, after: Keys, stuck: seq<Info>, n: nat, progress: Progress)
    requires n <= |stuck|
  {
    && (forall s :: s in after.held <==> s in before.held && !(AmongFirst(stuck, n, s) && progress(s.runId) >= 2))
    && (forall r :: r in after.running <==> r in before.running && !(RunAmongFirst(stuck, n, r) && progress(r) >= 3))
  }

  ghost predicate RecoveredUpTo(before: Keys, after: Keys, stuck: seq<Info>, n: nat, progress: Progress, now: int)
    requires n <= |stuck|
  {
    QueuedUpTo(before, after, stuck, n, progress, now) && ReleasedUpTo(before, after, stuck, n, progress)
  }

  lemma NoneRecovered(k: Keys, stuck: seq<Info>, progress: Progress, now: int)
    ensures RecoveredUpTo(k, k, stuck, 0, progress, now)
  {
  }

  lemma OneMoreFirst(stuck: seq<Info>, n: nat)
    requires n < |stuck|
    ensures forall s :: AmongFirst(stuck, n + 1, s) <==> AmongFirst(stuck, n, s) || s == SlotOf(stuck[n])
    ensures forall r :: RunAmongFirst(stuck, n + 1, r) <==> RunAmongFirst(stuck, n, r) || r == stuck[n].runId
  {
    assert AmongFirst(stuck, n + 1, SlotOf(stuck[n]));
    assert RunAmongFirst(stuck, n + 1, stuck[n].runId);
  }

  lemma OneMoreQueued(before: Keys, mid: Keys, stuck: seq<Info>, n: nat, progress: Progress, now: int)
    requires n < |stuck| && QueuedUpTo(before, mid, stuck, n, progress, now)
    ensures QueuedUpTo(before, Moved(mid, stuck[n], now, progress(stuck[n].runId)), stuck, n + 1, progress, now)
  {
    OneMoreFirst(stuck, n);
  }

  lemma OneMoreReleased(before: Keys, mid: Keys, stuck: seq<Info>, n: nat, progress: Progress, now: int)
    requires n < |stuck| && ReleasedUpTo(before, mid, stuck, n, progress)
    ensures ReleasedUpTo(before, Moved(mid, stuck[n], now, progress(stuck[n].runId)), stuck, n + 1, progress)
  {
    OneMoreFirst(stuck, n);
  }

  lemma {:induction false} MovedFirstRecovers(k: Keys, stuck: seq<Info>, n: nat, now: int, progress: Progress)
    requires n <= |stuck|
    ensures RecoveredUpTo(k, MovedFirst(k, stuck, n, now, progress), stuck, n, progress, now)
  {
    if n == 0 {
      NoneRecovered(k, stuck, progress, now);
    } else {
      MovedFirstRecovers(k, stuck, n - 1, now, progress);
      OneMoreQueued(k, MovedFirst(k, stuck, n - 1, now, progress), stuck, n - 1, progress, now);
      OneMoreReleased(k, MovedFirst(k, stuck, n - 1, now, progress), stuck, n - 1, progress, now);
    }
  }

  lemma MovedRecovers(k: Keys, rows: seq<Info>, now: int, progress: Progress)
    ensures var stuck := Selected(rows, k.running); Recovered(k, MovedFirst(k, stuck, |stuck|, now, progress), rows, progress, now)
  {
    var stuck := Selected(rows, k.running);
    SelectedIsStuck(rows, k.running);
    MovedFirstRecovers(k, stuck, |stuck|, now, progress);
    AllRecovered(k, MovedFirst(k, stuck, |stuck|, now, progress), rows, stuck, progress, now);
  }

  lemma AllRecovered(before: Keys, after: Keys, rows: seq<Info>, stuck: seq<Info>, progress: Progress, now: int)
    requires forall i :: i in stuck <==> i in rows && Stuck(i, before.running)
    requires RecoveredUpTo(before, after, stuck, |stuck|, progress, now)
    ensures Recovered(before, after, rows, progress, now)
  {
    assert forall s :: AmongFirst(stuck, |stuck|, s) <==> StuckSlot(rows, before.running, s);
    assert forall r :: RunAmongFirst(stuck, |stuck|, r) <==> StuckRun(rows, before.running, r);
  }

  // ---------------------------------------------------------------- crashes

  /** Stopped anywhere, every stuck run is still in its queue or in the environment's set. */
  lemma NoRunIsLost(before: Keys, after: Keys, rows: seq<Info>, progress: Progress, now: int, i: Info)
    requires Recovered(before, after, rows, progress, now) && i in rows && i.status == Queued && i.runId in before.running
    ensures var slot := Slot(QueueKey(i.orgId, i.projectId, i.environmentId, i.queue, i.concurrencyKey), i.runId);
      && (slot in after.queued || i.runId in after.running)
      && (progress(i.runId) >= 1 ==> slot in after.queued && after.queued[slot] == now)
      && (slot in after.held <==> slot in before.held && progress(i.runId) < 2)
      && (i.runId in after.running <==> progress(i.runId) < 3)
  {
    var slot := Slot(QueueKey(i.orgId, i.projectId, i.environmentId, i.queue, i.concurrencyKey), i.runId);
    assert Stuck(i, before.running) && StuckSlot(rows, before.running, slot);
    assert Score(after, slot) == if progress(i.runId) >= 1 then Some(now) else Score(before, slot);
  }

  /**
   * Nothing else moves: a run keeps each place and score it has unless some row has it stuck in
   * exactly that organization, project, environment, queue and concurrency key.
   */
  lemma OthersUntouched(before: Keys, after: Keys, rows: seq<Info>, progress: Progress, now: int, s: Slot)
    requires Recovered(before, after, rows, progress, now)
    requires forall i | i in rows && i.status == Queued && i.runId in before.running && i.runId == s.runId ::
      QueueKey(i.orgId, i.projectId, i.environmentId, i.queue, i.concurrencyKey) != s.key
    ensures Score(after, s) == Score(before, s)
    ensures s in after.held <==> s in before.held
    ensures (forall i | i in rows && i.status == Queued :: i.runId != s.runId) ==>
      (s.runId in after.running <==> s.runId in before.running)
  {
    assert !StuckSlot(rows, before.running, s);
    if forall i | i in rows && i.status == Queued :: i.runId != s.runId {
      assert !StuckRun(rows, before.running, s.runId);
    }
  }

  /** Recovered, scores aside. */
  ghost predicate Reached(before: Keys, after: Keys, rows: seq<Info>, progress: Progress) {
    && (forall s :: s in after.queued <==> s in before.queued || (StuckSlot(rows, before.running, s) && progress(s.runId) >= 1))
    && (forall s :: s in after.held <==> s in before.held && !(StuckSlot(rows, before.running, s) && progress(s.runId) >= 2))
    && (forall r :: r in after.running <==> r in before.running && !(StuckRun(rows, before.running, r) && progress(r) >= 3))
  }

  lemma RecoveredReaches(before: Keys, after: Keys, rows: seq<Info>, progress: Progress, now: int)
    requires Recovered(before, after, rows, progress, now)
    ensures Reached(before, after, rows, progress)
  {
    forall s ensures s in after.queued <==> s in before.queued || (StuckSlot(rows, before.running, s) && progress(s.runId) >= 1) {
      assert s in after.queued <==> Score(after, s).Some?;
    }
  }

  /** Two runs of the script get as far as the further of them, run by run. */
  function Further(p: Progress, q: Progress): Progress { r => if p(r) >= 3 || p(r) >= q(r) then p(r) else q(r) }

  lemma StillStuck(before: Keys, mid: Keys, rows: seq<Info>, p: Progress, s: Slot)
    requires Reached(before, mid, rows, p)
    ensures StuckSlot(rows, mid.running, s) <==> StuckSlot(rows, before.running, s) && p(s.runId) < 3
    ensures StuckRun(rows, mid.running, s.runId) <==> StuckRun(rows, before.running, s.runId) && p(s.runId) < 3
  {
    if StuckSlot(rows, before.running, s) {
      var i :| i in rows && Stuck(i, before.running) && SlotOf(i) == s;
      assert i.runId == s.runId && StuckRun(rows, before.running, s.runId);
    }
  }

  lemma ReachedTwice(before: Keys, mid: Keys, after: Keys, rows: seq<Info>, p: Progress, q: Progress)
    requires Reached(before, mid, rows, p) && Reached(mid, after, rows, q)
    ensures Reached(before, after, rows, Further(p, q))
  {
    forall s
      ensures s in after.queued <==> s in before.queued || (StuckSlot(rows, before.running, s) && Further(p, q)(s.runId) >= 1)
      ensures s in after.held <==> s in before.held && !(StuckSlot(rows, before.running, s) && Further(p, q)(s.runId) >= 2)
    {
      StillStuck(before, mid, rows, p, s);
    }
    forall r ensures r in after.running <==> r in before.running && !(StuckRun(rows, before.running, r) && Further(p, q)(r) >= 3) {
      StillStuck(before, mid, rows, p, Slot(QueueKey("", "", "", "", ""), r));
    }
  }

  ghost predicate Uninterrupted(p: Progress) { forall r :: p(r) >= 3 }

  /** The script run again and again, each time with its own clock and getting as far as it gets. */
  ghost predicate Attempts(states: seq<Keys>, rows: seq<Info>, runs: seq<Progress>, clocks: seq<int>) {
    |states| == |runs| + 1 && |clocks| == |runs| && forall i | 0 <= i < |runs| :: Recovered(states[i], states[i + 1], rows, runs[i], clocks[i])
  }

  lemma OneMoreAttempt(first: Keys, mid: Keys, last: Keys, rows: seq<Info>, q: Progress, r: Progress, now: int)
    requires Reached(first, mid, rows, q) && Recovered(mid, last, rows, r, now)
    ensures Reached(first, last, rows, Further(q, r))
  {
    RecoveredReaches(mid, last, rows, r, now);
    ReachedTwice(first, mid, last, rows, q, r);
  }

  lemma {:induction false} AttemptsAreOne(states: seq<Keys>, rows: seq<Info>, runs: seq<Progress>, clocks: seq<int>) returns (p: Progress)
    requires Attempts(states, rows, runs, clocks) && runs != []
    ensures Reached(states[0], states[|runs|], rows, p)
    ensures Uninterrupted(runs[|runs| - 1]) ==> Uninterrupted(p)
  {
    var n := |runs|;
    assert Recovered(states[n - 1], states[n], rows, runs[n - 1], clocks[n - 1]);
    if n == 1 {
      RecoveredReaches(states[0], states[1], rows, runs[0], clocks[0]);
      p := runs[0];
    } else {
      var q := AttemptsAreOne(states[..n], rows, runs[..n - 1], clocks[..n - 1]);
      OneMoreAttempt(states[0], states[n - 1], states[n], rows, q, runs[n - 1], clocks[n - 1]);
      p := Further(q, runs[n - 1]);
    }
  }

  predicate SameMembership(a: Keys, b: Keys) { a.queued.Keys == b.queued.Keys && a.held == b.held && a.running == b.running }

  /**
   * However often RecoverStuckRuns stopped short before, a run to the end leaves the membership
   * one uninterrupted run would have left; only the scores tell the runs apart.
   */
  lemma CrashesConverge(states: seq<Keys>, rows: seq<Info>, runs: seq<Progress>, clocks: seq<int>, once: Keys, p: Progress, now: int)
    requires Attempts(states, rows, runs, clocks) && runs != [] && Uninterrupted(runs[|runs| - 1])
    requires Recovered(states[0], once, rows, p, now) && Uninterrupted(p)
    ensures SameMembership(states[|runs|], once)
  {
    var q := AttemptsAreOne(states, rows, runs, clocks);
    RecoveredReaches(states[0], once, rows, p, now);
    var last := states[|runs|];
    assert forall s :: s in last.queued <==> s in once.queued;
    assert forall s :: s in last.held <==> s in once.held;
    assert forall r :: r in last.running <==> r in once.running;
  }
}

/** Run and shard rows, the SQL statements that write them, and what every
    interleaving of those statements by any number of managers, workers and API
    callers keeps. A trace lists committed statements in commit order; each is one
    guarded UPDATE or INSERT that sees the rows as the statements before it left
    them, however stale the scan its actor chose it from. */
module RunStates {
  import opened Wrappers

  datatype Status = Pending | Planning | Dispatching | Running | Finalizing
                  | Succeeded | Failed | Cancelled

  /** The legal next states of the run state machine. */
  function Allowed(s: Status): set<Status>
  {
    match s
    case Pending => {Planning, Cancelled, Failed}
    case Planning => {Dispatching, Cancelled, Failed}
    case Dispatching => {Running, Cancelled, Failed}
    case Running => {Finalizing, Cancelled, Failed}
    case Finalizing => {Succeeded, Failed}
    case Succeeded | Failed | Cancelled => {}
  }

  predicate CanTransition(from: Status, to: Status)
  {
    to in Allowed(from)
  }

  predicate IsTerminal(s: Status)
  {
    s == Succeeded || s == Failed || s == Cancelled
  }

  datatype ShardStatus = ShardPending | ShardRunning | ShardSucceeded | ShardFailed
                       | ShardLost | ShardPreempted

  type RunId = nat
  type ShardId = nat
  type WorkerId = nat

  datatype TestId = TestId(path: string, name: string, paramsHash: string)

  datatype RunRow = RunRow(status: Status, manifest: seq<TestId>, preemptionCount: nat,
                           reshards: map<ShardId, seq<TestId>>)

  datatype ShardRow = ShardRow(run: RunId, index: nat, status: ShardStatus,
                               worker: Option<WorkerId>, rescheduled: bool)

  /** The tables, and the shards whose drain has been committed while the separate
      UPDATE of the run's preemption counter has not. */
  datatype Db = Db(runs: map<RunId, RunRow>, shards: map<ShardId, ShardRow>,
                   executions: set<(ShardId, TestId)>, owed: set<ShardId>)

  datatype Statement =
    | InsertRun(run: RunId, manifest: seq<TestId>)
    | BeginPlanning(run: RunId)
    | InsertShard(shard: ShardId, run: RunId, index: nat)
    | FinishPlanning(run: RunId)
    | FailPlanning(run: RunId)
    | Dispatch(run: RunId)
    | EnterFinalizing(run: RunId)               // environment: no code shown makes this move
    | Finalize(run: RunId, anyFailed: bool)     // anyFailed was read earlier
    | SweepBudgets(expired: set<RunId>)         // the rows whose clock test succeeds
    | Cancel(run: RunId)
    | ClaimNext(shard: ShardId, worker: WorkerId)   // Postgres polling and gRPC
    | ClaimNats(shard: ShardId, worker: WorkerId)
    | FinishShard(shard: ShardId, ok: bool)
    | PreemptShard(shard: ShardId)
    | CountPreemption(shard: ShardId)
    | DropPreemption(shard: ShardId)            // the counter UPDATE failed
    | RecordResult(shard: ShardId, test: TestId)
    | RescheduleDone(shard: ShardId)
    | RescheduleRest(shard: ShardId, replacement: ShardId, remaining: seq<TestId>)

  function SetStatus(db: Db, run: RunId, from: set<Status>, to: Status): Db
  {
    if run in db.runs && db.runs[run].status in from then
      db.(runs := db.runs[run := db.runs[run].(status := to)])
    else
      db
  }

  function SetShard(db: Db, shard: ShardId, row: ShardRow): Db
  {
    db.(shards := db.shards[shard := row])
  }

  function ShardsOf(db: Db, run: RunId): set<ShardId>
  {
    set s | s in db.shards && db.shards[s].run == run
  }

  /** A new row needs a new key and, per run, a new index. */
  predicate CanInsertShard(db: Db, shard: ShardId, run: RunId, index: nat)
  {
    run in db.runs && shard !in db.shards &&
    forall s :: s in db.shards && db.shards[s].run == run ==> db.shards[s].index != index
  }

  function Exec(db: Db, stmt: Statement): Db
  {
    match stmt
    case InsertRun(r, manifest) =>
      if r in db.runs then db else db.(runs := db.runs[r := RunRow(Pending, manifest, 0, map[])])
    case BeginPlanning(r) => SetStatus(db, r, {Pending}, Planning)
    case InsertShard(s, r, index) =>
      if CanInsertShard(db, s, r, index)
      then SetShard(db, s, ShardRow(r, index, ShardPending, None, false)) else db
    case FinishPlanning(r) => SetStatus(db, r, {Planning}, Dispatching)
    case FailPlanning(r) =>
      SetStatus(db, r, {Pending, Planning, Dispatching, Running, Finalizing}, Failed)
    case Dispatch(r) => SetStatus(db, r, {Dispatching}, Running)
    case EnterFinalizing(r) => SetStatus(db, r, {Running}, Finalizing)
    case Finalize(r, anyFailed) =>
      SetStatus(db, r, {Finalizing}, if anyFailed then Failed else Succeeded)
    case SweepBudgets(expired) =>
      db.(runs := map r | r in db.runs ::
        if r in expired && db.runs[r].status in {Planning, Dispatching, Running}
        then db.runs[r].(status := Failed) else db.runs[r])
    case Cancel(r) => SetStatus(db, r, {Pending, Planning, Dispatching, Running}, Cancelled)
    case ClaimNext(s, w) =>
      if s in db.shards && db.shards[s].status == ShardPending &&
         db.shards[s].run in db.runs && db.runs[db.shards[s].run].status in {Dispatching, Running}
      then SetShard(db, s, db.shards[s].(status := ShardRunning, worker := Some(w))) else db
    case ClaimNats(s, w) =>
      if s in db.shards && db.shards[s].status == ShardPending
      then SetShard(db, s, db.shards[s].(status := ShardRunning, worker := Some(w))) else db
    case FinishShard(s, ok) =>
      if s in db.shards
      then SetShard(db, s, db.shards[s].(status := if ok then ShardSucceeded else ShardFailed)) else db
    case PreemptShard(s) =>
      if s in db.shards && db.shards[s].status == ShardRunning
      then SetShard(db, s, db.shards[s].(status := ShardPreempted)).(owed := db.owed + {s}) else db
    case CountPreemption(s) =>
      if s in db.owed && s in db.shards && db.shards[s].run in db.runs then
        var r := db.shards[s].run;
        db.(owed := db.owed - {s},
            runs := db.runs[r := db.runs[r].(preemptionCount := db.runs[r].preemptionCount + 1)])
      else db
    case DropPreemption(s) => db.(owed := db.owed - {s})
    case RecordResult(s, t) => db.(executions := db.executions + {(s, t)})
    case RescheduleDone(s) =>
      if s in db.shards
      then SetShard(db, s, db.shards[s].(status := ShardSucceeded, rescheduled := true)) else db
    case RescheduleRest(s, replacement, remaining) =>
      if s in db.shards &&
         CanInsertShard(db, replacement, db.shards[s].run, |ShardsOf(db, db.shards[s].run)|)
      then Replace(db, s, replacement, remaining) else db
  }

  /** One committed reschedule transaction: the replacement shard is appended, its
      tests are stored under the run, and the original is marked. */
  function Replace(db: Db, s: ShardId, replacement: ShardId, remaining: seq<TestId>): Db
    requires s in db.shards && db.shards[s].run in db.runs
  {
    var r := db.shards[s].run;
    var row := ShardRow(r, |ShardsOf(db, r)|, ShardPending, None, false);
    db.(shards := db.shards[replacement := row][s := db.shards[s].(rescheduled := true)],
        runs := db.runs[r := db.runs[r].(reshards := db.runs[r].reshards[replacement := remaining])])
  }

  function ExecAll(db: Db, trace: seq<Statement>): Db
    decreases |trace|
  {
    if trace == [] then db else ExecAll(Exec(db, trace[0]), trace[1..])
  }

  // ------------------------------------------------- runs obey their machine

  /** Whatever its actor believed, a statement leaves a run's status alone or makes
      a move of the state machine. */
  lemma EveryStatementMovesLegally(db: Db, stmt: Statement, r: RunId)
    requires r in db.runs
    ensures r in Exec(db, stmt).runs
    ensures var a, b := db.runs[r].status, Exec(db, stmt).runs[r].status; a == b || CanTransition(a, b)
  {
  }

  function Rank(s: Status): nat
  {
    match s
    case Pending => 0
    case Planning => 1
    case Dispatching => 2
    case Running => 3
    case Finalizing => 4
    case Succeeded | Failed | Cancelled => 5
  }

  /** How often the status of run r changes along a trace. */
  function StatusChanges(db: Db, trace: seq<Statement>, r: RunId): nat
    decreases |trace|
  {
    if trace == [] then 0
    else
      var next := Exec(db, trace[0]);
      (if r in db.runs && r in next.runs && db.runs[r].status != next.runs[r].status then 1 else 0) +
      StatusChanges(next, trace[1..], r)
  }

  /** In every interleaving each change moves a run strictly forward, so there are
      at most five, and terminal runs never change again. */
  lemma {:induction false} StatusesOnlyAdvance(db: Db, trace: seq<Statement>, r: RunId)
    requires r in db.runs
    ensures r in ExecAll(db, trace).runs
    ensures var last := ExecAll(db, trace).runs[r].status;
            && StatusChanges(db, trace, r) <= Rank(last) - Rank(db.runs[r].status) <= 5
            && (IsTerminal(db.runs[r].status) ==> last == db.runs[r].status)
    decreases |trace|
  {
    if trace != [] {
      EveryStatementMovesLegally(db, trace[0], r);
      StatusesOnlyAdvance(Exec(db, trace[0]), trace[1..], r);
    }
  }

  /** A cancel leaves its run terminal exactly when it did not find it finalizing. */
  lemma CancelEndsIff(db: Db, r: RunId)
    requires r in db.runs
    ensures r in Exec(db, Cancel(r)).runs
    ensures IsTerminal(Exec(db, Cancel(r)).runs[r].status) <==> db.runs[r].status != Finalizing
  {
  }

  // ------------------------------------------------ shards are claimed once

  /** No statement ever returns a shard to pending, changes its run or index, or
      replaces the worker recorded at its claim. */
  lemma ShardsNeverRevert(db: Db, stmt: Statement, s: ShardId)
    requires s in db.shards
    ensures var next := Exec(db, stmt);
            && s in next.shards
            && next.shards[s].run == db.shards[s].run && next.shards[s].index == db.shards[s].index
            && (db.shards[s].status != ShardPending ==> next.shards[s].status != ShardPending)
            && (db.shards[s].status != ShardPending ==> next.shards[s].worker == db.shards[s].worker)
            && (next.shards[s].status == ShardPreempted != db.shards[s].status ==>
                  db.shards[s].status == ShardRunning)
  {
  }

  predicate IsClaim(db: Db, stmt: Statement, s: ShardId)
  {
    var next := Exec(db, stmt);
    s in db.shards && s in next.shards &&
    db.shards[s].status == ShardPending && next.shards[s].status == ShardRunning
  }

  predicate IsPreemption(db: Db, stmt: Statement, s: ShardId)
  {
    var next := Exec(db, stmt);
    s in db.shards && s in next.shards &&
    db.shards[s].status != ShardPreempted && next.shards[s].status == ShardPreempted
  }

  function Claims(db: Db, trace: seq<Statement>, s: ShardId): nat
    decreases |trace|
  {
    if trace == [] then 0
    else (if IsClaim(db, trace[0], s) then 1 else 0) + Claims(Exec(db, trace[0]), trace[1..], s)
  }

  function Preemptions(db: Db, trace: seq<Statement>, s: ShardId): nat
    decreases |trace|
  {
    if trace == [] then 0
    else (if IsPreemption(db, trace[0], s) then 1 else 0) + Preemptions(Exec(db, trace[0]), trace[1..], s)
  }

  predicate Live(row: ShardRow)
  {
    row.status == ShardPending || row.status == ShardRunning
  }

  /** Over all three claim paths and all workers, a shard is claimed at most once,
      and not at all once it has left pending. */
  lemma {:induction false} ShardIsClaimedOnce(db: Db, trace: seq<Statement>, s: ShardId)
    ensures Claims(db, trace, s) <= if s in db.shards && db.shards[s].status != ShardPending then 0 else 1
    decreases |trace|
  {
    if trace != [] {
      ShardIsClaimedOnce(Exec(db, trace[0]), trace[1..], s);
      if s in db.shards { ShardsNeverRevert(db, trace[0], s); }
    }
  }

  /** The worker that claimed a shard is its worker for good. */
  lemma {:induction false} ClaimantIsKept(db: Db, trace: seq<Statement>, s: ShardId)
    requires s in db.shards && db.shards[s].status != ShardPending
    ensures s in ExecAll(db, trace).shards
    ensures ExecAll(db, trace).shards[s].worker == db.shards[s].worker
    decreases |trace|
  {
    if trace != [] {
      ShardsNeverRevert(db, trace[0], s);
      ClaimantIsKept(Exec(db, trace[0]), trace[1..], s);
    }
  }

  /** A shard is preempted at most once. */
  lemma {:induction false} ShardIsPreemptedOnce(db: Db, trace: seq<Statement>, s: ShardId)
    ensures Preemptions(db, trace, s) <= if s in db.shards && !Live(db.shards[s]) then 0 else 1
    decreases |trace|
  {
    if trace != [] {
      ShardIsPreemptedOnce(Exec(db, trace[0]), trace[1..], s);
      if s in db.shards {
        ShardsNeverRevert(db, trace[0], s);
        LiveIsLost(db, trace[0], s);
      }
    }
  }

  lemma LiveIsLost(db: Db, stmt: Statement, s: ShardId)
    requires s in db.shards
    ensures s in Exec(db, stmt).shards
    ensures !Live(db.shards[s]) ==> !Live(Exec(db, stmt).shards[s])
    ensures IsPreemption(db, stmt, s) ==> Live(db.shards[s]) && !Live(Exec(db, stmt).shards[s])
  {
  }

  // --------------------------------------------- the preemption counter

  function LiveShards(db: Db, r: RunId): set<ShardId>
  {
    set s | s in db.shards && db.shards[s].run == r && Live(db.shards[s])
  }

  function OwedShards(db: Db, r: RunId): set<ShardId>
  {
    set s | s in db.owed && s in db.shards && db.shards[s].run == r
  }

  /** Shards that can still be preempted, drains not yet counted and drains counted
      together never exceed the shards of the run. */
  ghost predicate CounterInv(db: Db, r: RunId)
  {
    && db.owed <= db.shards.Keys
    && (r in db.runs ==>
          db.runs[r].preemptionCount + |OwedShards(db, r)| + |LiveShards(db, r)| <= |ShardsOf(db, r)|)
  }

  /** The shards and the counter of run r as far as the invariant sees them: no new
      shard, none alive or owed that was not. */
  ghost predicate Quieter(db: Db, next: Db, r: RunId)
  {
    && next.shards.Keys == db.shards.Keys && next.owed <= db.owed
    && (forall s :: s in db.shards ==>
          next.shards[s].run == db.shards[s].run && (Live(next.shards[s]) ==> Live(db.shards[s])))
    && r in db.runs && r in next.runs && next.runs[r].preemptionCount == db.runs[r].preemptionCount
  }

  lemma QuieterKeepsCounter(db: Db, next: Db, r: RunId)
    requires CounterInv(db, r) && Quieter(db, next, r)
    ensures CounterInv(next, r)
  {
    assert ShardsOf(next, r) == ShardsOf(db, r);
    SubsetIsNotLarger(LiveShards(next, r), LiveShards(db, r));
    SubsetIsNotLarger(OwedShards(next, r), OwedShards(db, r));
  }

  lemma OtherStatementsAreQuieter(db: Db, stmt: Statement, r: RunId)
    requires r in db.runs
    requires !stmt.InsertShard? && !stmt.RescheduleRest? && !stmt.PreemptShard? && !stmt.CountPreemption?
    ensures Quieter(db, Exec(db, stmt), r)
  {
  }

  /** One shard is appended, to run r or to another; older shards keep their run
      and stay as alive as they were. */
  ghost predicate Appended(db: Db, next: Db, r: RunId, s: ShardId)
  {
    && s !in db.shards && next.shards.Keys == db.shards.Keys + {s} && next.owed == db.owed
    && (forall t :: t in db.shards ==>
          next.shards[t].run == db.shards[t].run && Live(next.shards[t]) == Live(db.shards[t]))
    && r in db.runs && r in next.runs && next.runs[r].preemptionCount == db.runs[r].preemptionCount
  }

  lemma AppendingKeepsCounter(db: Db, next: Db, r: RunId, s: ShardId)
    requires CounterInv(db, r) && Appended(db, next, r, s)
    ensures CounterInv(next, r)
  {
    assert OwedShards(next, r) == OwedShards(db, r);
    if next.shards[s].run == r {
      AppendedHere(db, next, r, s);
    } else {
      assert ShardsOf(next, r) == ShardsOf(db, r);
      assert LiveShards(next, r) == LiveShards(db, r);
    }
  }

  lemma AppendedHere(db: Db, next: Db, r: RunId, s: ShardId)
    requires Appended(db, next, r, s) && next.shards[s].run == r
    ensures |ShardsOf(next, r)| == |ShardsOf(db, r)| + 1
    ensures |LiveShards(next, r)| <= |LiveShards(db, r)| + 1
  {
    assert ShardsOf(next, r) == ShardsOf(db, r) + {s};
    SubsetIsNotLarger(LiveShards(next, r), LiveShards(db, r) + {s});
  }

  /** Committing a drain moves one shard from live to owed. */
  lemma PreemptKeepsCounter(db: Db, s: ShardId, r: RunId)
    requires CounterInv(db, r) && r in db.runs
    ensures CounterInv(Exec(db, PreemptShard(s)), r)
  {
    var next := Exec(db, PreemptShard(s));
    if s in db.shards && db.shards[s].status == ShardRunning {
      if db.shards[s].run == r {
        assert ShardsOf(next, r) == ShardsOf(db, r);
        assert LiveShards(next, r) == LiveShards(db, r) - {s};
        assert s in LiveShards(db, r);
        assert OwedShards(next, r) == OwedShards(db, r) + {s};
      } else {
        assert ShardsOf(next, r) == ShardsOf(db, r);
        assert LiveShards(next, r) == LiveShards(db, r);
        assert OwedShards(next, r) == OwedShards(db, r);
      }
    }
  }

  /** Counting a drain moves one shard from owed to counted. */
  lemma CountKeepsCounter(db: Db, s: ShardId, r: RunId)
    requires CounterInv(db, r) && r in db.runs
    ensures CounterInv(Exec(db, CountPreemption(s)), r)
  {
    var next := Exec(db, CountPreemption(s));
    if s in db.owed && db.shards[s].run in db.runs {
      assert ShardsOf(next, r) == ShardsOf(db, r);
      assert LiveShards(next, r) == LiveShards(db, r);
      if db.shards[s].run == r {
        assert OwedShards(next, r) == OwedShards(db, r) - {s};
        assert s in OwedShards(db, r);
      } else {
        assert OwedShards(next, r) == OwedShards(db, r);
      }
    }
  }

  lemma RescheduleAppends(db: Db, s: ShardId, replacement: ShardId, remaining: seq<TestId>, r: RunId)
    requires r in db.runs
    requires s in db.shards &&
             CanInsertShard(db, replacement, db.shards[s].run, |ShardsOf(db, db.shards[s].run)|)
    ensures Appended(db, Replace(db, s, replacement, remaining), r, replacement)
  {
  }

  lemma RescheduleKeepsCounter(db: Db, s: ShardId, replacement: ShardId, remaining: seq<TestId>, r: RunId)
    requires CounterInv(db, r) && r in db.runs
    ensures CounterInv(Exec(db, RescheduleRest(s, replacement, remaining)), r)
  {
    if s in db.shards &&
       CanInsertShard(db, replacement, db.shards[s].run, |ShardsOf(db, db.shards[s].run)|) {
      RescheduleAppends(db, s, replacement, remaining, r);
      AppendingKeepsCounter(db, Replace(db, s, replacement, remaining), r, replacement);
    }
  }

  lemma InsertKeepsCounter(db: Db, s: ShardId, run: RunId, index: nat, r: RunId)
    requires CounterInv(db, r) && r in db.runs
    ensures CounterInv(Exec(db, InsertShard(s, run, index)), r)
  {
    var next := Exec(db, InsertShard(s, run, index));
    if CanInsertShard(db, s, run, index) {
      assert Appended(db, next, r, s);
      AppendingKeepsCounter(db, next, r, s);
    }
  }

  /** Every statement keeps the counter invariant of every run that exists. */
  lemma EveryStatementKeepsCounter(db: Db, stmt: Statement, r: RunId)
    requires CounterInv(db, r) && r in db.runs
    ensures CounterInv(Exec(db, stmt), r)
  {
    match stmt
    case InsertShard(s, run, index) => InsertKeepsCounter(db, s, run, index, r);
    case RescheduleRest(s, replacement, remaining) => RescheduleKeepsCounter(db, s, replacement, remaining, r);
    case PreemptShard(s) => PreemptKeepsCounter(db, s, r);
    case CountPreemption(s) => CountKeepsCounter(db, s, r);
    case _ =>
      OtherStatementsAreQuieter(db, stmt, r);
      QuieterKeepsCounter(db, Exec(db, stmt), r);
  }

  /** Nothing in the tables mentions run r yet. */
  predicate Unused(db: Db, r: RunId)
  {
    && r !in db.runs && db.owed <= db.shards.Keys
    && forall s :: s in db.shards ==> db.shards[s].run != r
  }

  /** Statements before run r is created leave it unused, and its creation starts
      the counter at zero. */
  lemma UnusedUntilCreated(db: Db, stmt: Statement, r: RunId)
    requires Unused(db, r)
    ensures var next := Exec(db, stmt);
            if stmt.InsertRun? && stmt.run == r then r in next.runs && CounterInv(next, r) else Unused(next, r)
  {
    if stmt.InsertRun? && stmt.run == r {
      var next := Exec(db, stmt);
      assert ShardsOf(next, r) == {} && LiveShards(next, r) == {} && OwedShards(next, r) == {};
    }
  }

  /** From before a run is created on, and in every interleaving, its preemption
      counter never exceeds the number of its shards. */
  lemma {:induction false} PreemptionsAreBounded(db: Db, trace: seq<Statement>, r: RunId)
    requires Unused(db, r) || (r in db.runs && CounterInv(db, r))
    ensures var last := ExecAll(db, trace);
            r in last.runs ==> last.runs[r].preemptionCount <= |ShardsOf(last, r)|
    decreases |trace|
  {
    if trace != [] {
      var next := Exec(db, trace[0]);
      if r in db.runs {
        EveryStatementKeepsCounter(db, trace[0], r);
      } else {
        UnusedUntilCreated(db, trace[0], r);
      }
      PreemptionsAreBounded(next, trace[1..], r);
    }
  }
}

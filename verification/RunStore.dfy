/** The run and shard tables as mutable state, the manager and API operations that
    write them, and a worker process. Each operation is tied to the statements it
    commits, so what is proved of statements and traces holds of it. */
module RunStore {
  import opened Wrappers
  import opened RunStates
  import opened RoundRobin
  import opened RunCoverage
  import opened RunPlanning
  import opened Reschedule

  // ------------------------------------------------ referential integrity

  /** Foreign keys, and the unique index on (run_id, index). */
  ghost predicate Consistent(db: Db)
  {
    && (forall s :: s in db.shards ==> db.shards[s].run in db.runs)
    && (forall s, t :: s in db.shards && t in db.shards && s != t && db.shards[s].run == db.shards[t].run
          ==> db.shards[s].index != db.shards[t].index)
    && db.owed <= db.shards.Keys
  }

  lemma EveryStatementKeepsConsistency(db: Db, stmt: Statement)
    requires Consistent(db)
    ensures Consistent(Exec(db, stmt))
  {
  }

  lemma {:induction false} ConsistencyLasts(db: Db, trace: seq<Statement>)
    requires Consistent(db)
    ensures Consistent(ExecAll(db, trace))
    decreases |trace|
  {
    if trace != [] {
      EveryStatementKeepsConsistency(db, trace[0]);
      ConsistencyLasts(Exec(db, trace[0]), trace[1..]);
    }
  }

  // ------------------------------------------------ what the operations read

  predicate HasFailed(row: ShardRow, run: RunId)
  {
    row.run == run && (row.status == ShardFailed || row.status == ShardLost)
  }

  lemma FailedIff(db: Db, run: RunId, failed: bool)
    requires failed <==> exists s :: s in db.shards && HasFailed(db.shards[s], run)
    ensures failed <==> exists s :: s in db.shards && db.shards[s].run == run &&
                                    (db.shards[s].status == ShardFailed || db.shards[s].status == ShardLost)
  {
    if s :| s in db.shards && db.shards[s].run == run &&
            (db.shards[s].status == ShardFailed || db.shards[s].status == ShardLost) {
      assert HasFailed(db.shards[s], run);
    }
  }

  /** The tests of the first assignment with this index. */
  function Structured(assignments: seq<(nat, seq<TestId>)>, index: nat): Option<seq<TestId>>
  {
    if assignments == [] then None
    else if assignments[0].0 == index then Some(assignments[0].1)
    else Structured(assignments[1..], index)
  }

  function GrpcTests(db: Db, s: ShardId, assignments: seq<(nat, seq<TestId>)>): seq<TestId>
    requires s in db.shards && db.shards[s].run in db.runs
  {
    match Structured(assignments, db.shards[s].index)
    case Some(tests) => tests
    case None => Dealt(db, s)
  }

  lemma {:induction false} RowsStay(db: Db, trace: seq<Statement>, s: ShardId)
    requires s in db.shards
    ensures s in ExecAll(db, trace).shards
    decreases |trace|
  {
    if trace != [] {
      ShardsNeverRevert(db, trace[0], s);
      RowsStay(Exec(db, trace[0]), trace[1..], s);
    }
  }

  /** A shard of the set that none of the others was created before. */
  method Oldest(free: set<ShardId>, created: ShardId -> nat) returns (s: ShardId)
    requires free != {}
    ensures s in free && forall t :: t in free ==> created(s) <= created(t)
  {
    s :| s in free;
    var rest := free - {s};
    while rest != {}
      invariant s in free && rest <= free
      invariant forall t :: t in free && t !in rest ==> created(s) <= created(t)
    {
      var t :| t in rest;
      rest := rest - {t};
      if created(t) < created(s) { s := t; }
    }
  }

  /** The tables after one handled transition. */
  function Handled(db: Db, run: RunId, scanned: Status, locked: bool, indices: Option<seq<nat>>,
                   ids: seq<ShardId>, others: seq<Statement>): Db
    requires indices.Some? ==> |ids| == |indices.value|
  {
    if !locked then db
    else if scanned == Pending then
      match indices
      case None => Exec(Exec(db, BeginPlanning(run)), FailPlanning(run))
      case Some(at) =>
        (match Planned(db, run, ids, at) case None => db case Some(after) => after)
    else if scanned == Dispatching then Exec(db, Dispatch(run))
    else if scanned == Finalizing then
      Exec(ExecAll(db, others), Finalize(run, exists s :: s in db.shards && HasFailed(db.shards[s], run)))
    else db
  }

  predicate Claimable(db: Db, s: ShardId)
  {
    && s in db.shards && db.shards[s].status == ShardPending
    && db.shards[s].run in db.runs && db.runs[db.shards[s].run].status in {Dispatching, Running}
  }

  /** So every handled transition is a run of ordinary statements, and what is proved
      of all traces holds across it. */
  lemma HandledIsATrace(db: Db, run: RunId, scanned: Status, locked: bool, indices: Option<seq<nat>>,
                        ids: seq<ShardId>, others: seq<Statement>) returns (trace: seq<Statement>)
    requires indices.Some? ==> |ids| == |indices.value|
    ensures Handled(db, run, scanned, locked, indices, ids, others) == ExecAll(db, trace)
  {
    trace := [];
    if locked {
      if scanned == Pending && indices == None {
        trace := [BeginPlanning(run)];
        ExecOneMore(db, [], BeginPlanning(run));
        ExecOneMore(db, trace, FailPlanning(run));
        assert [] + [BeginPlanning(run)] == trace;
        trace := trace + [FailPlanning(run)];
      } else if scanned == Pending {
        if Planned(db, run, ids, indices.value).Some? {
          trace := PlanTrace(run, ids, indices.value);
          PlannedIsATrace(db, run, ids, indices.value);
        }
      } else if scanned == Dispatching {
        trace := [Dispatch(run)];
        assert trace[1..] == [];
      } else if scanned == Finalizing {
        var last := Finalize(run, exists s :: s in db.shards && HasFailed(db.shards[s], run));
        ExecOneMore(db, others, last);
        trace := others + [last];
      }
    }
  }

  /** The intended tests whose key is not done. */
  method Remaining(intended: seq<TestId>, done: set<string>) returns (remaining: seq<TestId>)
    ensures remaining == Residue(intended, done)
  {
    remaining := [];
    for i := 0 to |intended|
      invariant remaining == Residue(intended[..i], done)
    {
      assert intended[..i + 1][..i] == intended[..i];
      if JoinKey(intended[i]) !in done {
        remaining := remaining + [intended[i]];
      }
    }
    assert intended[..|intended|] == intended;
  }

  // ------------------------------------------------ the tables

  class Store {
    var runs: map<RunId, RunRow>
    var shards: map<ShardId, ShardRow>
    var executions: set<(ShardId, TestId)>
    var owed: set<ShardId>

    function Snapshot(): Db
      reads this
    {
      Db(runs, shards, executions, owed)
    }

    ghost predicate Valid()
      reads this
    {
      Consistent(Snapshot())
    }

    constructor ()
      ensures Valid() && Snapshot() == Db(map[], map[], {}, {})
    {
      runs, shards, executions, owed := map[], map[], {}, {};
    }

    /** A guarded UPDATE of one run's status. */
    method UpdateStatus(run: RunId, from: set<Status>, to: Status) returns (affected: bool)
      modifies this`runs
      ensures Snapshot() == SetStatus(old(Snapshot()), run, from, to)
      ensures affected <==> run in old(runs) && old(runs[run].status) in from
    {
      affected := run in runs && runs[run].status in from;
      if affected {
        runs := runs[run := runs[run].(status := to)];
      }
    }

    /** The plan step: all of its statements or, when an insert breaks a constraint,
        none of them. */
    method Plan(run: RunId, indices: seq<nat>, ids: seq<ShardId>) returns (ok: bool)
      requires |ids| == |indices|
      modifies this
      ensures var after := Planned(old(Snapshot()), run, ids, indices);
              ok == after.Some? && Snapshot() == if ok then after.value else old(Snapshot())
    {
      var runs0, shards0 := runs, shards;
      var _ := UpdateStatus(run, {Pending}, Planning);
      ghost var begun := Snapshot();
      for n := 0 to |ids|
        invariant runs == begun.runs && executions == begun.executions && owed == begun.owed
        invariant AfterInserts(begun, run, ids, indices, n) == Some(Snapshot())
      {
        if !CanInsertShard(Snapshot(), ids[n], run, indices[n]) {
          assert AfterInserts(begun, run, ids, indices, n + 1) == None;
          InsertsFailForGood(begun, run, ids, indices, n + 1, |ids|);
          runs, shards := runs0, shards0;
          return false;
        }
        shards := shards[ids[n] := ShardRow(run, indices[n], ShardPending, None, false)];
      }
      var _ := UpdateStatus(run, {Planning}, Dispatching);
      return true;
    }

    /** One guarded transition of a run under its lock, chosen from a scan that may be
        stale: a scanned pending run is planned, or failed when its manifest or its
        predictions cannot be had; a dispatching one starts running; a finalizing one
        gets its outcome from its shards as they were read, whatever others commit before
        it is written. */
    method TryHandle(run: RunId, scanned: Status, locked: bool, indices: Option<seq<nat>>, ids: seq<ShardId>,
                     others: seq<Statement>)
      requires Valid() && (indices.Some? ==> |ids| == |indices.value|)
      modifies this
      ensures Snapshot() == Handled(old(Snapshot()), run, scanned, locked, indices, ids, others)
      ensures var db, later := old(Snapshot()), ExecAll(old(Snapshot()), others);
              locked && scanned == Finalizing && run in later.runs && later.runs[run].status == Finalizing ==>
                && run in runs
                && runs[run].status ==
                     if exists s :: s in db.shards && db.shards[s].run == run &&
                                    (db.shards[s].status == ShardFailed || db.shards[s].status == ShardLost)
                     then Failed else Succeeded
    {
      if !locked { return; }
      if scanned == Pending {
        if indices.Some? {
          var _ := Plan(run, indices.value, ids);
        } else {
          var _ := UpdateStatus(run, {Pending}, Planning);
          var _ := UpdateStatus(run, {Pending, Planning, Dispatching, Running, Finalizing}, Failed);
        }
      } else if scanned == Dispatching {
        var _ := UpdateStatus(run, {Dispatching}, Running);
      } else if scanned == Finalizing {
        var anyFailed := false;
        var rest := shards.Keys;
        while rest != {}
          invariant rest <= shards.Keys
          invariant anyFailed <==> exists s :: s in shards && s !in rest && HasFailed(shards[s], run)
        {
          var s :| s in rest;
          anyFailed := anyFailed || HasFailed(shards[s], run);
          rest := rest - {s};
        }
        FailedIff(Snapshot(), run, anyFailed);
        OthersCommit(others);
        var _ := UpdateStatus(run, {Finalizing}, if anyFailed then Failed else Succeeded);
      }
    }

    /** Cancels a run and reloads it after whatever others commit meanwhile; None when
        there is no such run. */
    method Cancel(run: RunId, others: seq<Statement>) returns (reloaded: Option<Status>)
      requires Valid()
      modifies this
      ensures Snapshot() == ExecAll(Exec(old(Snapshot()), Statement.Cancel(run)), others)
      ensures reloaded == if run in runs then Some(runs[run].status) else None
      ensures run in old(runs) ==> run in runs
      ensures run in old(runs) && old(runs[run].status) != Finalizing ==> IsTerminal(runs[run].status)
    {
      ghost var before := Snapshot();
      var affected := UpdateStatus(run, {Pending, Planning, Dispatching, Running}, Cancelled);
      ghost var after := Snapshot();
      EveryStatementKeepsConsistency(before, Statement.Cancel(run));
      if run in runs { StatusesOnlyAdvance(after, others, run); }
      OthersCommit(others);
      if !affected && run !in runs { return None; }
      return if run in runs then Some(runs[run].status) else None;
    }

    /** Fails every active run whose clock test succeeds. */
    method CheckBudgets(expired: set<RunId>)
      modifies this`runs
      ensures Snapshot() == Exec(old(Snapshot()), SweepBudgets(expired))
      ensures forall r :: r in old(runs) ==>
                r in runs &&
                runs[r] == if r in expired && (old(runs)[r].status == Planning ||
                                               old(runs)[r].status == Dispatching || old(runs)[r].status == Running)
                           then old(runs)[r].(status := Failed) else old(runs)[r]
    {
      runs := map r | r in runs ::
        if r in expired && runs[r].status in {Planning, Dispatching, Running}
        then runs[r].(status := Failed) else runs[r];
    }

    /** The tests stored for a replacement shard, or else the dealt ones. */
    method LoadTestsForShard(s: ShardId) returns (tests: seq<TestId>)
      requires s in shards && shards[s].run in runs
      ensures tests == WorkerTests(Snapshot(), s)
    {
      var stored := runs[shards[s].run].reshards;
      if s in stored && stored[s] != [] { return stored[s]; }
      tests := DealTests(s);
    }

    method DealTests(s: ShardId) returns (tests: seq<TestId>)
      requires s in shards && shards[s].run in runs
      ensures tests == Dealt(Snapshot(), s)
    {
      var r := shards[s].run;
      assert s in ShardsOf(Snapshot(), r);
      tests := LoadPayload(runs[r].manifest, shards[s].index, |ShardsOf(Snapshot(), r)|);
    }

    /** What the gRPC service loads: the tests an older, structured plan row gives the
        shard's index, or else the dealt ones. It knows no stored tests. */
    method LoadShardTests(s: ShardId, assignments: seq<(nat, seq<TestId>)>) returns (tests: seq<TestId>)
      requires s in shards && shards[s].run in runs
      ensures tests == GrpcTests(Snapshot(), s, assignments)
    {
      for i := 0 to |assignments|
        invariant Structured(assignments, shards[s].index) == Structured(assignments[i..], shards[s].index)
      {
        assert assignments[i..][1..] == assignments[i + 1..];
        if assignments[i].0 == shards[s].index { return assignments[i].1; }
      }
      tests := DealTests(s);
    }

    /** Claims the oldest claimable shard that no other transaction has locked. */
    method ClaimNext(w: WorkerId, locked: set<ShardId>, created: ShardId -> nat) returns (claim: Option<ShardId>)
      modifies this`shards
      ensures claim == None ==> Snapshot() == old(Snapshot())
      ensures claim == None <==> forall s :: Claimable(old(Snapshot()), s) ==> s in locked
      ensures claim.Some? ==>
                && Claimable(old(Snapshot()), claim.value) && claim.value !in locked
                && (forall s :: Claimable(old(Snapshot()), s) && s !in locked ==> created(claim.value) <= created(s))
                && Snapshot() == Exec(old(Snapshot()), Statement.ClaimNext(claim.value, w))
    {
      var free := set s | s in shards && Claimable(Snapshot(), s) && s !in locked;
      if free == {} {
        forall s | Claimable(Snapshot(), s) ensures s in locked {
          assert s !in free;
        }
        return None;
      }
      var s := Oldest(free, created);
      shards := shards[s := shards[s].(status := ShardRunning, worker := Some(w))];
      return Some(s);
    }

    /** One gRPC pull: a claim and the tests that go with it; plans is what the stored
        plan row of each run decodes to. */
    method PullAssignment(w: WorkerId, locked: set<ShardId>, created: ShardId -> nat,
                          plans: RunId -> seq<(nat, seq<TestId>)>)
      returns (assignment: Option<(ShardId, seq<TestId>)>)
      modifies this`shards
      ensures assignment == None ==> Snapshot() == old(Snapshot())
      ensures assignment == None <==> forall s :: Claimable(old(Snapshot()), s) ==> s in locked
      ensures assignment.Some? ==>
                var (s, tests) := assignment.value;
                && Claimable(old(Snapshot()), s) && s !in locked
                && (forall t :: Claimable(old(Snapshot()), t) && t !in locked ==> created(s) <= created(t))
                && Snapshot() == Exec(old(Snapshot()), Statement.ClaimNext(s, w))
                && s in shards && shards[s].run in runs && tests == GrpcTests(Snapshot(), s, plans(shards[s].run))
    {
      var claim := ClaimNext(w, locked, created);
      if claim == None { return None; }
      var tests := LoadShardTests(claim.value, plans(shards[claim.value].run));
      return Some((claim.value, tests));
    }

    /** The guarded claim of a dispatched shard. */
    method ClaimDispatched(s: ShardId, w: WorkerId) returns (affected: bool)
      modifies this`shards
      ensures Snapshot() == Exec(old(Snapshot()), ClaimNats(s, w))
      ensures affected <==> s in old(shards) && old(shards[s].status) == ShardPending
    {
      affected := s in shards && shards[s].status == ShardPending;
      if affected {
        shards := shards[s := shards[s].(status := ShardRunning, worker := Some(w))];
      }
    }

    method SetFinished(s: ShardId, ok: bool)
      modifies this`shards
      ensures Snapshot() == Exec(old(Snapshot()), FinishShard(s, ok))
    {
      if s in shards {
        shards := shards[s := shards[s].(status := if ok then ShardSucceeded else ShardFailed)];
      }
    }

    method MarkPreempted(s: ShardId) returns (affected: bool)
      modifies this`shards, this`owed
      ensures Snapshot() == Exec(old(Snapshot()), PreemptShard(s))
      ensures affected <==> s in old(shards) && old(shards[s].status) == ShardRunning
    {
      affected := s in shards && shards[s].status == ShardRunning;
      if affected {
        shards, owed := shards[s := shards[s].(status := ShardPreempted)], owed + {s};
      }
    }

    method BumpPreemptionCount(s: ShardId)
      modifies this`runs, this`owed
      ensures Snapshot() == Exec(old(Snapshot()), CountPreemption(s))
    {
      if s in owed && s in shards && shards[s].run in runs {
        var r := shards[s].run;
        owed := owed - {s};
        runs := runs[r := runs[r].(preemptionCount := runs[r].preemptionCount + 1)];
      }
    }

    /** The counter UPDATE of a committed drain failed. */
    method LoseCount(s: ShardId)
      modifies this`owed
      ensures Snapshot() == Exec(old(Snapshot()), DropPreemption(s))
    {
      owed := owed - {s};
    }

    method AddExecution(s: ShardId, t: TestId)
      modifies this`executions
      ensures executions == old(executions) + {(s, t)}
      ensures Snapshot() == Exec(old(Snapshot()), RecordResult(s, t))
    {
      executions := executions + {(s, t)};
    }

    /** What other processes commit while a transaction or a worker is between two of its
        own statements. */
    method OthersCommit(others: seq<Statement>)
      requires Valid()
      modifies this
      ensures Valid() && Snapshot() == ExecAll(old(Snapshot()), others)
    {
      ghost var before := Snapshot();
      for i := 0 to |others|
        invariant Valid() && ExecAll(Snapshot(), others[i..]) == ExecAll(before, others)
      {
        EveryStatementKeepsConsistency(Snapshot(), others[i]);
        assert others[i..][0] == others[i] && others[i..][1..] == others[i + 1..];
        var next := Exec(Snapshot(), others[i]);
        runs, shards, executions, owed := next.runs, next.shards, next.executions, next.owed;
      }
    }

    /** Reschedules one shard that a scan found preempted: the tests dealt to it, less the
        recorded ones, go to a new last shard. Others may commit between the reads and
        the writes, but no shard of the run, as that takes the lock. */
    method RescheduleOne(s: ShardId, locked: bool, replacement: ShardId, others: seq<Statement>) returns (ok: bool)
      requires Valid() && s in shards
      requires ShardsOf(ExecAll(Snapshot(), others), shards[s].run) == ShardsOf(Snapshot(), shards[s].run)
      modifies this
      ensures Valid()
      ensures var db := old(Snapshot());
              var rest := Residue(Dealt(db, s), Recorded(db, s));
              var later := ExecAll(db, others);
              if !locked || db.runs[db.shards[s].run].manifest == [] then ok && Snapshot() == db
              else if rest == [] then ok && Snapshot() == Exec(later, RescheduleDone(s))
              else ok == Reschedules(later, RescheduleRest(s, replacement, rest), s) &&
                   Snapshot() == Exec(later, RescheduleRest(s, replacement, rest))
    {
      var r := shards[s].run;
      if !locked || runs[r].manifest == [] { return true; }
      var intended := DealTests(s);
      var done := DoneKeys(s);
      var remaining := Remaining(intended, done);
      RowsStay(Snapshot(), others, s);
      OthersCommit(others);
      if remaining == [] {
        EveryStatementKeepsConsistency(Snapshot(), RescheduleDone(s));
        shards := shards[s := shards[s].(status := ShardSucceeded, rescheduled := true)];
        return true;
      }
      EveryStatementKeepsConsistency(Snapshot(), RescheduleRest(s, replacement, remaining));
      ok := AppendReplacement(s, replacement, remaining);
    }

    /** Appends the replacement under the next index, stores its tests and marks the
        original, or does nothing when the insert breaks a constraint. */
    method AppendReplacement(s: ShardId, replacement: ShardId, remaining: seq<TestId>) returns (ok: bool)
      requires s in shards
      modifies this`runs, this`shards
      ensures Snapshot() == Exec(old(Snapshot()), RescheduleRest(s, replacement, remaining))
      ensures ok == Reschedules(old(Snapshot()), RescheduleRest(s, replacement, remaining), s)
    {
      var r := shards[s].run;
      var total := |ShardsOf(Snapshot(), r)|;
      if !CanInsertShard(Snapshot(), replacement, r, total) {
        return false;
      }
      shards := shards[replacement := ShardRow(r, total, ShardPending, None, false)];
      runs := runs[r := runs[r].(reshards := runs[r].reshards[replacement := remaining])];
      shards := shards[s := shards[s].(rescheduled := true)];
      return true;
    }

    /** The keys of the execution rows of one shard. */
    method DoneKeys(s: ShardId) returns (done: set<string>)
      ensures done == Recorded(Snapshot(), s)
    {
      done := {};
      var rows := executions;
      while rows != {}
        invariant rows <= executions
        invariant done == set e | e in executions - rows && e.0 == s :: JoinKey(e.1)
      {
        var e :| e in rows;
        if e.0 == s { done := done + {JoinKey(e.1)}; }
        rows := rows - {e};
      }
    }
  }
}

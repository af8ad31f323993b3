/** What each statement does, row by row and in the values of the rows: which status
    changes it makes and no others, which rows it adds, and what a recorded result is
    good for. */
module RunEffects {
  import opened Wrappers
  import opened RunStates
  import opened RunCoverage
  import opened Reschedule
  import opened RunStore
  import Scans = RescheduleScans

  // ------------------------------------------------ the state machine

  /** The whole table of legal moves: one step on, a failure from anywhere that is not
      final, a cancellation from anywhere before finalizing. */
  lemma MovesAre(a: Status, b: Status)
    ensures CanTransition(a, b) <==>
              || (a == Pending && b == Planning) || (a == Planning && b == Dispatching)
              || (a == Dispatching && b == Running) || (a == Running && b == Finalizing)
              || (a == Finalizing && b == Succeeded)
              || (b == Failed && a != Succeeded && a != Failed && a != Cancelled)
              || (b == Cancelled && (a == Pending || a == Planning || a == Dispatching || a == Running))
  {
  }

  /** A status is terminal exactly when nothing can follow it. */
  lemma TerminalIff(a: Status)
    ensures IsTerminal(a) <==> forall b :: !CanTransition(a, b)
  {
    if !IsTerminal(a) { assert CanTransition(a, Failed); }
  }

  // ------------------------------------------------ statuses of runs

  /** Every change of a run's status that any statement makes. */
  lemma RunStatusChangesIff(db: Db, stmt: Statement, r: RunId)
    requires r in db.runs
    ensures r in Exec(db, stmt).runs
    ensures var a, b := db.runs[r].status, Exec(db, stmt).runs[r].status;
            a != b <==>
              || (stmt == BeginPlanning(r) && a == Pending && b == Planning)
              || (stmt == FinishPlanning(r) && a == Planning && b == Dispatching)
              || (stmt == FailPlanning(r) && b == Failed && a != Succeeded && a != Failed && a != Cancelled)
              || (stmt == Dispatch(r) && a == Dispatching && b == Running)
              || (stmt == EnterFinalizing(r) && a == Running && b == Finalizing)
              || (stmt == Finalize(r, true) && a == Finalizing && b == Failed)
              || (stmt == Finalize(r, false) && a == Finalizing && b == Succeeded)
              || (stmt == Cancel(r) && b == Cancelled &&
                  (a == Pending || a == Planning || a == Dispatching || a == Running))
              || (stmt.SweepBudgets? && r in stmt.expired && b == Failed &&
                  (a == Planning || a == Dispatching || a == Running))
  {
  }

  /** An expired run that was planning, dispatching or running is failed by the sweep. */
  lemma SweepFails(db: Db, expired: set<RunId>, r: RunId)
    requires r in db.runs && r in expired
    requires db.runs[r].status == Planning || db.runs[r].status == Dispatching || db.runs[r].status == Running
    ensures r in Exec(db, SweepBudgets(expired)).runs && Exec(db, SweepBudgets(expired)).runs[r].status == Failed
  {
  }

  /** A cancelled run is cancelled, not just over. */
  lemma CancelCancels(db: Db, r: RunId)
    requires r in db.runs
    requires db.runs[r].status == Pending || db.runs[r].status == Planning ||
             db.runs[r].status == Dispatching || db.runs[r].status == Running
    ensures r in Exec(db, Cancel(r)).runs && Exec(db, Cancel(r)).runs[r].status == Cancelled
  {
  }

  /** A new run is pending, with its manifest, no drains counted and no tests stored. */
  lemma NewRunIsPending(db: Db, stmt: Statement, r: RunId)
    requires r !in db.runs
    ensures r in Exec(db, stmt).runs <==> stmt.InsertRun? && stmt.run == r
    ensures stmt.InsertRun? && stmt.run == r ==> Exec(db, stmt).runs[r] == RunRow(Pending, stmt.manifest, 0, map[])
  {
  }

  /** The counter rises by one with each counted drain of one of the run's shards, and
      never otherwise. */
  lemma CounterRisesIff(db: Db, stmt: Statement, r: RunId)
    requires r in db.runs
    ensures var a, b := db.runs[r].preemptionCount, Exec(db, stmt).runs[r].preemptionCount;
            && a <= b <= a + 1
            && (b == a + 1 <==> stmt.CountPreemption? && stmt.shard in db.owed &&
                                stmt.shard in db.shards && db.shards[stmt.shard].run == r)
  {
  }

  // ------------------------------------------------ statuses of shards

  /** Every change of a shard's status that any statement makes. */
  lemma ShardStatusChangesIff(db: Db, stmt: Statement, s: ShardId)
    requires s in db.shards
    ensures s in Exec(db, stmt).shards
    ensures var a, b := db.shards[s].status, Exec(db, stmt).shards[s].status;
            a != b <==>
              || (stmt.ClaimNext? && stmt.shard == s && a == ShardPending && b == ShardRunning &&
                  db.shards[s].run in db.runs &&
                  (db.runs[db.shards[s].run].status == Dispatching || db.runs[db.shards[s].run].status == Running))
              || (stmt.ClaimNats? && stmt.shard == s && a == ShardPending && b == ShardRunning)
              || (stmt == FinishShard(s, true) && a != b == ShardSucceeded)
              || (stmt == FinishShard(s, false) && a != b == ShardFailed)
              || (stmt == PreemptShard(s) && a == ShardRunning && b == ShardPreempted)
              || (stmt == RescheduleDone(s) && a != b == ShardSucceeded)
  {
  }

  /** A claim writes its own worker into the row. */
  lemma ClaimWritesWorker(db: Db, stmt: Statement, s: ShardId)
    requires s in db.shards && IsClaim(db, stmt, s)
    ensures (stmt.ClaimNext? || stmt.ClaimNats?) && stmt.shard == s
    ensures s in Exec(db, stmt).shards && Exec(db, stmt).shards[s].worker == Some(stmt.worker)
  {
  }

  /** What the polling query may return is what a claim takes effect on. */
  lemma ClaimableIff(db: Db, s: ShardId, w: WorkerId)
    ensures Claimable(db, s) <==> IsClaim(db, ClaimNext(s, w), s)
    ensures Claimable(db, s) <==>
              && s in db.shards && db.shards[s].status == ShardPending && db.shards[s].run in db.runs
              && (db.runs[db.shards[s].run].status == Dispatching || db.runs[db.shards[s].run].status == Running)
  {
  }

  /** A shard comes into being pending, unclaimed and unmarked, by a planned insert at
      its index or by a reschedule at the index after the last. */
  lemma NewShardIsPending(db: Db, stmt: Statement, s: ShardId)
    requires s !in db.shards && s in Exec(db, stmt).shards
    ensures var row := Exec(db, stmt).shards[s];
            && row.status == ShardPending && row.worker == None && !row.rescheduled
            && ((stmt.InsertShard? && stmt.shard == s && row.run == stmt.run && row.index == stmt.index) ||
                (stmt.RescheduleRest? && stmt.replacement == s && stmt.shard in db.shards &&
                 row.run == db.shards[stmt.shard].run && row.index == |ShardsOf(db, row.run)|))
  {
  }

  /** A scan puts a shard on its manager's list exactly when it was preempted or lost, its
      run is dispatching or running and it carries no marker. */
  lemma ScannedIff(y: Scans.System, m: Scans.ManagerId, picked: set<ShardId>, s: ShardId)
    requires s in picked
    ensures (m, s) in Scans.Step(y, Scans.Scan(m, picked)).work <==>
              && s in y.db.shards && !y.db.shards[s].rescheduled
              && (y.db.shards[s].status == ShardPreempted || y.db.shards[s].status == ShardLost)
              && y.db.shards[s].run in y.db.runs
              && (y.db.runs[y.db.shards[s].run].status == Dispatching ||
                  y.db.runs[y.db.shards[s].run].status == Running)
  {
  }

  // ------------------------------------------------ results

  /** An execution row exists exactly when it did before or its result was recorded. */
  lemma RowAppearsIff(db: Db, stmt: Statement, s: ShardId, t: TestId)
    ensures (s, t) in Exec(db, stmt).executions <==> (s, t) in db.executions || stmt == RecordResult(s, t)
  {
  }

  lemma {:induction false} RowsAreRecordings(db: Db, trace: seq<Statement>, s: ShardId, t: TestId)
    ensures (s, t) in ExecAll(db, trace).executions <==>
              (s, t) in db.executions || exists i :: 0 <= i < |trace| && trace[i] == RecordResult(s, t)
    decreases |trace|
  {
    if trace != [] {
      RowAppearsIff(db, trace[0], s, t);
      RowsAreRecordings(Exec(db, trace[0]), trace[1..], s, t);
      assert forall i :: 0 <= i < |trace[1..]| ==> trace[1..][i] == trace[i + 1];
      if i :| 0 <= i < |trace| && trace[i] == RecordResult(s, t) {
        assert i == 0 || trace[1..][i - 1] == RecordResult(s, t);
      }
    }
  }

  /** A test recorded for a shard at any time before a reschedule reads is in no residue
      of that shard. */
  lemma RecordedIsInNoResidue(db: Db, trace: seq<Statement>, i: nat, s: ShardId, t: TestId, intended: seq<TestId>)
    requires i < |trace| && trace[i] == RecordResult(s, t)
    ensures t !in Residue(intended, Recorded(ExecAll(db, trace), s))
  {
    RowsAreRecordings(db, trace, s, t);
    var later := ExecAll(db, trace);
    assert (s, t) in later.executions && (s, t).0 == s && JoinKey((s, t).1) == JoinKey(t);
    ResidueMember(intended, Recorded(later, s), t);
  }

  // ------------------------------------------------ transitions under the lock

  /** A run that was scanned finalizing and still is fails exactly when one of its shard
      rows had failed or was lost when they were read, and succeeds otherwise. */
  lemma FinalizedFailsIff(db: Db, run: RunId, indices: Option<seq<nat>>, ids: seq<ShardId>, others: seq<Statement>)
    requires indices.Some? ==> |ids| == |indices.value|
    requires run in ExecAll(db, others).runs && ExecAll(db, others).runs[run].status == Finalizing
    ensures var after := Handled(db, run, Finalizing, true, indices, ids, others);
            && run in after.runs
            && after.runs[run].status ==
                 if exists s :: s in db.shards && db.shards[s].run == run &&
                                (db.shards[s].status == ShardFailed || db.shards[s].status == ShardLost)
                 then Failed else Succeeded
  {
    var failed := exists s :: s in db.shards && HasFailed(db.shards[s], run);
    if s :| s in db.shards && db.shards[s].run == run &&
            (db.shards[s].status == ShardFailed || db.shards[s].status == ShardLost) {
      assert HasFailed(db.shards[s], run);
    }
  }

  /** A dispatching run starts running; a pending run whose manifest or predictions cannot
      be had is failed; without the lock, or for any other status, nothing happens. */
  lemma HandledOtherwise(db: Db, run: RunId, scanned: Status, locked: bool, indices: Option<seq<nat>>,
                         ids: seq<ShardId>, others: seq<Statement>)
    requires run in db.runs && (indices.Some? ==> |ids| == |indices.value|)
    ensures var after := Handled(db, run, scanned, locked, indices, ids, others);
            && (!locked || (scanned != Pending && scanned != Dispatching && scanned != Finalizing) ==> after == db)
            && (locked && scanned == Dispatching && db.runs[run].status == Dispatching ==>
                  run in after.runs && after.runs[run].status == Running)
            && (locked && scanned == Pending && indices == None && !IsTerminal(db.runs[run].status) ==>
                  run in after.runs && after.runs[run].status == Failed)
  {
  }

  // ------------------------------------------------ structured plan rows

  /** The tests an older plan row gives an index are those of the first assignment that
      carries it. */
  lemma {:induction false} StructuredIsFirst(assignments: seq<(nat, seq<TestId>)>, index: nat)
    ensures Structured(assignments, index) == None <==>
              forall k :: 0 <= k < |assignments| ==> assignments[k].0 != index
    ensures forall k :: 0 <= k < |assignments| && assignments[k].0 == index &&
                        (forall j :: 0 <= j < k ==> assignments[j].0 != index) ==>
                        Structured(assignments, index) == Some(assignments[k].1)
  {
    if assignments != [] {
      var rest := assignments[1..];
      StructuredIsFirst(rest, index);
      assert forall k :: 0 <= k < |rest| ==> rest[k] == assignments[k + 1];
      if assignments[0].0 != index {
        forall k | 0 <= k < |assignments| && assignments[k].0 == index &&
                   (forall j :: 0 <= j < k ==> assignments[j].0 != index)
          ensures Structured(assignments, index) == Some(assignments[k].1) {
          assert rest[k - 1] == assignments[k];
          assert forall j :: 0 <= j < k - 1 ==> rest[j].0 != index;
        }
        if Structured(rest, index) == None {
          forall k | 0 <= k < |assignments| ensures assignments[k].0 != index {
            assert k == 0 || assignments[k] == rest[k - 1];
          }
        }
      }
    }
  }

  /** What the gRPC service loads: those tests, or the dealt ones when no assignment has
      the shard's index. */
  lemma GrpcTestsAre(db: Db, s: ShardId, assignments: seq<(nat, seq<TestId>)>, k: nat)
    requires s in db.shards && db.shards[s].run in db.runs
    ensures (forall j :: 0 <= j < |assignments| ==> assignments[j].0 != db.shards[s].index) ==>
              GrpcTests(db, s, assignments) == Dealt(db, s)
    ensures k < |assignments| && assignments[k].0 == db.shards[s].index &&
            (forall j :: 0 <= j < k ==> assignments[j].0 != db.shards[s].index) ==>
              GrpcTests(db, s, assignments) == assignments[k].1
  {
    StructuredIsFirst(assignments, db.shards[s].index);
  }

  // ------------------------------------------------ the counts are exact

  /** A statement claims or preempts a shard exactly when it is one of these. */
  lemma ClaimsAndPreemptionsAre(db: Db, stmt: Statement, s: ShardId)
    requires s in db.shards
    ensures IsClaim(db, stmt, s) <==>
              db.shards[s].status == ShardPending &&
              ((stmt.ClaimNext? && stmt.shard == s && Claimable(db, s)) || (stmt.ClaimNats? && stmt.shard == s))
    ensures IsPreemption(db, stmt, s) <==> stmt == PreemptShard(s) && db.shards[s].status == ShardRunning
  {
  }

  /** A shard that had no worker and has one in the end was claimed exactly once, and one
      that has none was never claimed. */
  lemma {:induction false} ClaimsAreExact(db: Db, trace: seq<Statement>, s: ShardId)
    requires s in db.shards ==> db.shards[s].worker == None
    ensures var last := ExecAll(db, trace);
            Claims(db, trace, s) == if s in last.shards && last.shards[s].worker != None then 1 else 0
    decreases |trace|
  {
    if trace != [] {
      var next := Exec(db, trace[0]);
      if s in db.shards && IsClaim(db, trace[0], s) {
        ClaimWritesWorker(db, trace[0], s);
        ShardIsClaimedOnce(next, trace[1..], s);
        ClaimantIsKept(next, trace[1..], s);
      } else {
        WorkersComeFromClaims(db, trace[0], s);
        ClaimsAreExact(next, trace[1..], s);
      }
    }
  }

  lemma WorkersComeFromClaims(db: Db, stmt: Statement, s: ShardId)
    requires (s in db.shards ==> db.shards[s].worker == None) && !IsClaim(db, stmt, s)
    ensures s in Exec(db, stmt).shards ==> Exec(db, stmt).shards[s].worker == None
  {
  }

  /** A shard that ends preempted, and was not at first, was preempted exactly once. */
  lemma {:induction false} PreemptionsAreExact(db: Db, trace: seq<Statement>, s: ShardId)
    requires s in db.shards ==> db.shards[s].status != ShardPreempted
    requires s in ExecAll(db, trace).shards && ExecAll(db, trace).shards[s].status == ShardPreempted
    ensures Preemptions(db, trace, s) == 1
    decreases |trace|
  {
    ShardIsPreemptedOnce(db, trace, s);
    if trace != [] && !IsPreemption(db, trace[0], s) {
      PreemptionsAreExact(Exec(db, trace[0]), trace[1..], s);
    }
  }
}

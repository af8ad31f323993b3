/** What becomes of a shard whose worker drains. The last UPDATE of a shard has no
    guard, so it can overwrite a preemption that was committed just before it. */
module Drain {
  import opened RunStates
  import opened RunCoverage
  import opened RescheduleScans

  /** The statements that set a shard's status whatever it was. */
  predicate Overwrites(stmt: Statement, s: ShardId)
  {
    stmt == FinishShard(s, true) || stmt == FinishShard(s, false) || stmt == RescheduleDone(s)
  }

  predicate NoneOverwrites(trace: seq<Statement>, s: ShardId)
  {
    forall i :: 0 <= i < |trace| ==> !Overwrites(trace[i], s)
  }

  lemma PreemptedUntilOverwritten(db: Db, stmt: Statement, s: ShardId)
    requires s in db.shards && db.shards[s].status == ShardPreempted
    ensures var next := Exec(db, stmt);
            && s in next.shards
            && (if Overwrites(stmt, s) then Settled(next, s) else next.shards[s].status == ShardPreempted)
  {
  }

  lemma {:induction false} SettledLasts(db: Db, trace: seq<Statement>, s: ShardId)
    requires Settled(db, s)
    ensures Settled(ExecAll(db, trace), s)
    decreases |trace|
  {
    if trace != [] {
      SettledStays(db, trace[0], s);
      SettledLasts(Exec(db, trace[0]), trace[1..], s);
    }
  }

  /** A preempted shard is still preempted later exactly when no finish of it and no
      empty reschedule of it was committed in between; otherwise it is settled. */
  lemma {:induction false} PreemptedStaysIff(db: Db, trace: seq<Statement>, s: ShardId)
    requires s in db.shards && db.shards[s].status == ShardPreempted
    ensures s in ExecAll(db, trace).shards
    ensures ExecAll(db, trace).shards[s].status == ShardPreempted <==> NoneOverwrites(trace, s)
    ensures !NoneOverwrites(trace, s) ==> Settled(ExecAll(db, trace), s)
    decreases |trace|
  {
    if trace != [] {
      var stmt, rest := trace[0], trace[1..];
      PreemptedUntilOverwritten(db, stmt, s);
      assert NoneOverwrites(trace, s) <==> !Overwrites(stmt, s) && NoneOverwrites(rest, s) by {
        assert forall i :: 0 <= i < |rest| ==> rest[i] == trace[i + 1];
        if NoneOverwrites(rest, s) && !Overwrites(stmt, s) {
          forall i | 0 <= i < |trace| ensures !Overwrites(trace[i], s) {
            assert i == 0 || trace[i] == rest[i - 1];
          }
        }
      }
      if Overwrites(stmt, s) {
        SettledLasts(Exec(db, stmt), rest, s);
      } else {
        PreemptedStaysIff(Exec(db, stmt), rest, s);
      }
    }
  }

  /** The statements that end a running shard. */
  predicate Ends(stmt: Statement, s: ShardId)
  {
    Overwrites(stmt, s) || stmt == PreemptShard(s)
  }

  /** A running shard that nobody finishes, drains or reschedules runs for good, and no
      reschedule scan ever returns it. */
  lemma {:induction false} StrandedShard(db: Db, trace: seq<Statement>, s: ShardId)
    requires s in db.shards && db.shards[s].status == ShardRunning
    requires forall i :: 0 <= i < |trace| ==> !Ends(trace[i], s)
    ensures s in ExecAll(db, trace).shards && ExecAll(db, trace).shards[s].status == ShardRunning
    ensures !ScanPicks(ExecAll(db, trace), s)
    decreases |trace|
  {
    if trace != [] {
      assert !Ends(trace[0], s);
      StrandedShard(Exec(db, trace[0]), trace[1..], s);
    }
  }
}

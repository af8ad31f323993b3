/** The planning transaction: the shard rows that a plan becomes. */
module RunPlanning {
  import opened Wrappers
  import opened RunStates
  import opened RoundRobin
  import opened RunCoverage
  import Scheduler
  import PlanTheorems

  function Indices(plan: Scheduler.Plan): seq<nat>
  {
    seq(|plan.assignments|, i requires 0 <= i < |plan.assignments| => plan.assignments[i].shardIndex)
  }

  /** The inserts of the first n planned shards. */
  function InsertTrace(run: RunId, ids: seq<ShardId>, indices: seq<nat>, n: nat): seq<Statement>
    requires n <= |ids| && n <= |indices|
  {
    if n == 0 then []
    else InsertTrace(run, ids, indices, n - 1) + [InsertShard(ids[n - 1], run, indices[n - 1])]
  }

  function PlanTrace(run: RunId, ids: seq<ShardId>, indices: seq<nat>): seq<Statement>
    requires |ids| == |indices|
  {
    [BeginPlanning(run)] + InsertTrace(run, ids, indices, |ids|) + [FinishPlanning(run)]
  }

  /** The tables after the first n inserts, unless one of them broke a constraint. */
  function AfterInserts(db: Db, run: RunId, ids: seq<ShardId>, indices: seq<nat>, n: nat): Option<Db>
    requires n <= |ids| && n <= |indices|
  {
    if n == 0 then Some(db)
    else
      match AfterInserts(db, run, ids, indices, n - 1)
      case None => None
      case Some(d) =>
        if CanInsertShard(d, ids[n - 1], run, indices[n - 1])
        then Some(Exec(d, InsertShard(ids[n - 1], run, indices[n - 1]))) else None
  }

  /** The tables after a planning transaction, unless it was rolled back. */
  function Planned(db: Db, run: RunId, ids: seq<ShardId>, indices: seq<nat>): Option<Db>
    requires |ids| == |indices|
  {
    match AfterInserts(Exec(db, BeginPlanning(run)), run, ids, indices, |ids|)
    case None => None
    case Some(d) => Some(Exec(d, FinishPlanning(run)))
  }

  lemma {:induction false} ExecOneMore(db: Db, trace: seq<Statement>, stmt: Statement)
    ensures ExecAll(db, trace + [stmt]) == Exec(ExecAll(db, trace), stmt)
  {
    RunSplits(db, trace + [stmt], |trace|);
    assert (trace + [stmt])[..|trace|] == trace;
    assert (trace + [stmt])[|trace|..] == [stmt];
    assert ExecAll(Exec(ExecAll(db, trace), stmt), []) == Exec(ExecAll(db, trace), stmt);
    assert [stmt][1..] == [];
  }

  lemma {:induction false} InsertsFailForGood(db: Db, run: RunId, ids: seq<ShardId>, indices: seq<nat>, n: nat, m: nat)
    requires n <= m <= |ids| && m <= |indices| && AfterInserts(db, run, ids, indices, n) == None
    ensures AfterInserts(db, run, ids, indices, m) == None
  {
    if n < m { InsertsFailForGood(db, run, ids, indices, n, m - 1); }
  }

  lemma {:induction false} InsertsAreStatements(db: Db, run: RunId, ids: seq<ShardId>, indices: seq<nat>, n: nat)
    requires n <= |ids| && n <= |indices| && AfterInserts(Exec(db, BeginPlanning(run)), run, ids, indices, n).Some?
    ensures AfterInserts(Exec(db, BeginPlanning(run)), run, ids, indices, n).value
         == ExecAll(db, [BeginPlanning(run)] + InsertTrace(run, ids, indices, n))
  {
    if n == 0 {
      ExecOneMore(db, [], BeginPlanning(run));
      assert [] + [BeginPlanning(run)] == [BeginPlanning(run)] + InsertTrace(run, ids, indices, 0);
    } else {
      InsertsAreStatements(db, run, ids, indices, n - 1);
      var done := [BeginPlanning(run)] + InsertTrace(run, ids, indices, n - 1);
      var stmt := InsertShard(ids[n - 1], run, indices[n - 1]);
      ExecOneMore(db, done, stmt);
      assert done + [stmt] == [BeginPlanning(run)] + InsertTrace(run, ids, indices, n);
    }
  }

  /** A planning transaction that commits is a run of ordinary statements. */
  lemma PlannedIsATrace(db: Db, run: RunId, ids: seq<ShardId>, indices: seq<nat>)
    requires |ids| == |indices| && Planned(db, run, ids, indices).Some?
    ensures Planned(db, run, ids, indices).value == ExecAll(db, PlanTrace(run, ids, indices))
  {
    InsertsAreStatements(db, run, ids, indices, |ids|);
    ExecOneMore(db, [BeginPlanning(run)] + InsertTrace(run, ids, indices, |ids|), FinishPlanning(run));
  }

  // ------------------------------------------- planned shards are numbered

  /** The first n shards of run r are in, the i-th under index i. */
  predicate InsertedSoFar(db: Db, r: RunId, ids: seq<ShardId>, n: nat)
    requires n <= |ids|
  {
    && r in db.runs && db.runs[r].reshards == map[]
    && (forall s :: s in db.shards && db.shards[s].run == r ==> db.shards[s].index < n && ids[db.shards[s].index] == s)
    && (forall i :: 0 <= i < n ==> ids[i] in db.shards && db.shards[ids[i]].run == r && db.shards[ids[i]].index == i)
    && (forall i :: n <= i < |ids| ==> ids[i] !in db.shards)
  }

  lemma {:induction false} InsertsNumberShards(db: Db, r: RunId, ids: seq<ShardId>, indices: seq<nat>, n: nat)
    requires |indices| == |ids| && n <= |ids| && Distinct(ids) && InsertedSoFar(db, r, ids, 0)
    requires forall i :: 0 <= i < |indices| ==> indices[i] == i
    ensures var after := AfterInserts(db, r, ids, indices, n);
            && after.Some? && InsertedSoFar(after.value, r, ids, n) && after.value.runs == db.runs
            && forall s :: s in after.value.shards && s !in db.shards ==> after.value.shards[s].status == ShardPending
  {
    if n > 0 {
      InsertsNumberShards(db, r, ids, indices, n - 1);
      var before := AfterInserts(db, r, ids, indices, n - 1).value;
      var after := Exec(before, InsertShard(ids[n - 1], r, n - 1));
      forall i | 0 <= i < n
        ensures ids[i] in after.shards && after.shards[ids[i]].run == r && after.shards[ids[i]].index == i {
      }
    }
  }

  /** A pending run without shards that is planned under fresh ids always gets them,
      numbered from 0, and moves to dispatching. */
  lemma PlanningNumbersShards(db: Db, r: RunId, ids: seq<ShardId>, sha: Scheduler.Digest,
                              tests: seq<Scheduler.Test>, c: Scheduler.Constraints)
    requires r in db.runs && db.runs[r].status == Pending && db.runs[r].reshards == map[]
    requires Distinct(ids) && |ids| == |Scheduler.PlanOf(sha, tests, c).assignments|
    requires forall s :: s in db.shards ==> db.shards[s].run != r && s !in ids
    ensures var after := Planned(db, r, ids, Indices(Scheduler.PlanOf(sha, tests, c)));
            && ids != [] && after.Some? && Numbered(after.value, r, ids)
            && after.value.runs[r] == db.runs[r].(status := Dispatching)
            && forall i :: 0 <= i < |ids| ==> after.value.shards[ids[i]].status == ShardPending
  {
    var indices := Indices(Scheduler.PlanOf(sha, tests, c));
    PlanTheorems.ShardsAreNumberedAndFull(sha, tests, c);
    var begun := Exec(db, BeginPlanning(r));
    InsertsNumberShards(begun, r, ids, indices, |ids|);
    NumberedWhenInserted(AfterInserts(begun, r, ids, indices, |ids|).value, r, ids);
  }

  lemma NumberedWhenInserted(db: Db, r: RunId, ids: seq<ShardId>)
    requires InsertedSoFar(db, r, ids, |ids|) && Distinct(ids)
    ensures Numbered(Exec(db, FinishPlanning(r)), r, ids)
  {
    var next := Exec(db, FinishPlanning(r));
    assert ShardsOf(next, r) == set i | 0 <= i < |ids| :: ids[i];
  }

  /** From planning on: whenever the workers claim the planned shards and whatever else
      commits, until a shard is appended they load every test of the manifest exactly
      once between them. */
  lemma PlannedRunIsCovered(db: Db, r: RunId, ids: seq<ShardId>, sha: Scheduler.Digest,
                            tests: seq<Scheduler.Test>, c: Scheduler.Constraints,
                            trace: seq<Statement>, times: seq<nat>)
    requires r in db.runs && db.runs[r].status == Pending && db.runs[r].reshards == map[]
    requires Distinct(ids) && |ids| == |Scheduler.PlanOf(sha, tests, c).assignments|
    requires forall s :: s in db.shards ==> db.shards[s].run != r && s !in ids
    requires |times| == |ids| && forall i :: 0 <= i < |times| ==> times[i] <= |trace|
    ensures var after := Planned(db, r, ids, Indices(Scheduler.PlanOf(sha, tests, c)));
            && after.Some?
            && (ShardsOf(ExecAll(after.value, trace), r) == ShardsOf(after.value, r) ==>
                  Together((i: nat) => LoadedAt(after.value, trace, times, ids, i), |ids|)
                    == multiset(db.runs[r].manifest))
  {
    PlanningNumbersShards(db, r, ids, sha, tests, c);
    var after := Planned(db, r, ids, Indices(Scheduler.PlanOf(sha, tests, c))).value;
    if ShardsOf(ExecAll(after, trace), r) == ShardsOf(after, r) {
      ClaimedTestsPartitionManifest(after, trace, times, r, ids);
    }
  }
}

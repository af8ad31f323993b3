/** Runs, from empty tables, in which a promise of the run protocol fails: a preemption
    is overwritten, a shard is rescheduled twice, and a replacement pulled over gRPC gets
    none of its tests. One run, one test, one shard. */
module RunExamples {
  import opened Wrappers
  import opened RunStates
  import opened RoundRobin
  import opened RunCoverage
  import opened Reschedule
  import opened RescheduleScans
  import opened RunStore
  import Steps = WorkerSteps

  function Empty(): Db
  {
    Db(map[], map[], {}, {})
  }

  function TheTest(): TestId
  {
    TestId("t.py", "a", "")
  }

  /** The run is created, planned and dispatched, and worker 7 claims its shard. */
  function UntilClaimed(): seq<Statement>
  {
    [InsertRun(0, [TheTest()]), BeginPlanning(0), InsertShard(0, 0, 0)] +
    [FinishPlanning(0), Statement.Dispatch(0), ClaimNext(0, 7)]
  }

  function WithShard(status: ShardStatus, preemptions: nat): Db
  {
    Db(map[0 := RunRow(Running, [TheTest()], preemptions, map[])],
       map[0 := ShardRow(0, 0, status, Some(7), false)], {}, {})
  }

  lemma OneByOne(db: Db, a: Statement, rest: seq<Statement>)
    ensures ExecAll(db, [a] + rest) == ExecAll(Exec(db, a), rest)
  {
    assert ([a] + rest)[1..] == rest;
  }

  lemma Two(db: Db, a: Statement, b: Statement)
    ensures ExecAll(db, [a, b]) == Exec(Exec(db, a), b)
  {
    assert [a, b] == [a] + ([b] + []);
    OneByOne(db, a, [b] + []);
    OneByOne(Exec(db, a), b, []);
  }

  lemma Three(db: Db, a: Statement, b: Statement, c: Statement)
    ensures ExecAll(db, [a, b, c]) == Exec(Exec(Exec(db, a), b), c)
  {
    assert [a, b, c] == [a] + [b, c];
    OneByOne(db, a, [b, c]);
    Two(Exec(db, a), b, c);
  }

  function AfterInsert(): Db
  {
    Db(map[0 := RunRow(Planning, [TheTest()], 0, map[])],
       map[0 := ShardRow(0, 0, ShardPending, None, false)], {}, {})
  }

  lemma Planned()
    ensures ExecAll(Empty(), [InsertRun(0, [TheTest()]), BeginPlanning(0), InsertShard(0, 0, 0)]) == AfterInsert()
  {
    Three(Empty(), InsertRun(0, [TheTest()]), BeginPlanning(0), InsertShard(0, 0, 0));
  }

  lemma Claimed()
    ensures ExecAll(Empty(), UntilClaimed()) == WithShard(ShardRunning, 0)
  {
    var first := [InsertRun(0, [TheTest()]), BeginPlanning(0), InsertShard(0, 0, 0)];
    var second := [FinishPlanning(0), Statement.Dispatch(0), ClaimNext(0, 7)];
    RunSplits(Empty(), first + second, 3);
    assert (first + second)[..3] == first && (first + second)[3..] == second;
    Planned();
    Dispatched();
  }

  lemma Dispatched()
    ensures ExecAll(AfterInsert(), [FinishPlanning(0), Statement.Dispatch(0), ClaimNext(0, 7)])
         == WithShard(ShardRunning, 0)
  {
    Three(AfterInsert(), FinishPlanning(0), Statement.Dispatch(0), ClaimNext(0, 7));
  }

  lemma ReachedIsConsistent(trace: seq<Statement>)
    ensures Consistent(ExecAll(Empty(), trace))
  {
    ConsistencyLasts(Empty(), trace);
  }

  // ------------------------------------------------ five changes of status

  /** A run that goes all the way changes its status the five times it can at most. */
  lemma FiveChanges()
    ensures var start := OneRun(Status.Pending);
            var trace := [BeginPlanning(0), FinishPlanning(0), Statement.Dispatch(0)] +
                         [EnterFinalizing(0), Finalize(0, false)];
            StatusChanges(start, trace, 0) == 5
  {
    var t5: seq<Statement> := [];
    var t4 := [Finalize(0, false)] + t5;
    var t3 := [EnterFinalizing(0)] + t4;
    var t2 := [Statement.Dispatch(0)] + t3;
    var t1 := [FinishPlanning(0)] + t2;
    assert [BeginPlanning(0), FinishPlanning(0), Statement.Dispatch(0)] + [EnterFinalizing(0), Finalize(0, false)]
        == [BeginPlanning(0)] + t1;
    FiveMoves();
    OneChange(Status.Pending, Planning, BeginPlanning(0), t1);
    OneChange(Planning, Dispatching, FinishPlanning(0), t2);
    OneChange(Dispatching, Running, Statement.Dispatch(0), t3);
    OneChange(Running, Finalizing, EnterFinalizing(0), t4);
    OneChange(Finalizing, Succeeded, Finalize(0, false), t5);
  }

  lemma FiveMoves()
    ensures Exec(OneRun(Status.Pending), BeginPlanning(0)) == OneRun(Planning)
    ensures Exec(OneRun(Planning), FinishPlanning(0)) == OneRun(Dispatching)
    ensures Exec(OneRun(Dispatching), Statement.Dispatch(0)) == OneRun(Running)
    ensures Exec(OneRun(Running), EnterFinalizing(0)) == OneRun(Finalizing)
    ensures Exec(OneRun(Finalizing), Finalize(0, false)) == OneRun(Succeeded)
  {
  }

  function OneRun(s: Status): Db
  {
    Db(map[0 := RunRow(s, [], 0, map[])], map[], {}, {})
  }

  lemma OneChange(a: Status, b: Status, stmt: Statement, rest: seq<Statement>)
    requires a != b && Exec(OneRun(a), stmt) == OneRun(b)
    ensures StatusChanges(OneRun(a), [stmt] + rest, 0) == 1 + StatusChanges(OneRun(b), rest, 0)
  {
    assert ([stmt] + rest)[1..] == rest;
  }

  // ------------------------------------------------ a cancel that changes nothing

  /** A finalizing run comes back from a cancel as it was, and is not terminal. */
  lemma CancelOfFinalizing()
    ensures var db := ExecAll(Empty(), UntilClaimed() + [FinishShard(0, true), EnterFinalizing(0)]);
            && 0 in db.runs && !IsTerminal(db.runs[0].status)
            && Exec(db, Statement.Cancel(0)) == db
  {
    AfterClaim([FinishShard(0, true), EnterFinalizing(0)]);
    Two(WithShard(ShardRunning, 0), FinishShard(0, true), EnterFinalizing(0));
  }

  // ------------------------------------------------ an overwritten preemption

  /** The worker saw no drain, the drain is committed, and then the worker's own last
      UPDATE: the shard ends as if nobody had preempted it, its test was never recorded,
      and no manager ever reschedules it. */
  lemma FinishOverwritesPreemption(ok: bool, later: seq<Event>)
    ensures var trace := UntilClaimed() + [PreemptShard(0), CountPreemption(0), FinishShard(0, ok)];
            var db := ExecAll(Empty(), trace);
            && 0 in db.shards && 0 in db.runs && db.shards[0].run == 0
            && db.runs[0].preemptionCount == 1
            && db.shards[0].status == (if ok then ShardSucceeded else ShardFailed)
            && WorkerTests(db, 0) == [TheTest()] && !HasRow(db, 0, TheTest())
            && CommitCount(System(db, {}, {}), later, 0) == 0
  {
    Overwritten(ok);
    var db := WithShard(if ok then ShardSucceeded else ShardFailed, 1);
    OnlyShard(db);
    SettledIsNeverRescheduled(System(db, {}, {}), later, 0);
  }

  lemma Overwritten(ok: bool)
    ensures ExecAll(Empty(), UntilClaimed() + [PreemptShard(0), CountPreemption(0), FinishShard(0, ok)])
         == WithShard(if ok then ShardSucceeded else ShardFailed, 1)
  {
    var tail := [PreemptShard(0), CountPreemption(0), FinishShard(0, ok)];
    AfterClaim(tail);
    DrainOfClaimed();
    Three(WithShard(ShardRunning, 0), PreemptShard(0), CountPreemption(0), FinishShard(0, ok));
  }

  lemma AfterClaim(tail: seq<Statement>)
    ensures ExecAll(Empty(), UntilClaimed() + tail) == ExecAll(WithShard(ShardRunning, 0), tail)
  {
    var trace := UntilClaimed() + tail;
    RunSplits(Empty(), trace, 6);
    assert trace[..6] == UntilClaimed() && trace[6..] == tail;
    Claimed();
  }

  lemma DrainOfClaimed()
    ensures Exec(Exec(WithShard(ShardRunning, 0), PreemptShard(0)), CountPreemption(0)) == WithShard(ShardPreempted, 1)
  {
  }

  lemma OnlyShard(db: Db)
    requires 0 in db.runs && db.runs[0].manifest == [TheTest()] && db.runs[0].reshards == map[]
    requires db.shards.Keys == {0} && db.shards[0].run == 0 && db.shards[0].index == 0
    ensures WorkerTests(db, 0) == [TheTest()]
  {
    assert ShardsOf(db, 0) == {0};
    OneTurn([TheTest()], 0, 1);
  }

  // ------------------------------------------------ a drain between test and claim

  function UntilDispatched(): seq<Statement>
  {
    [InsertRun(0, [TheTest()]), BeginPlanning(0), InsertShard(0, 0, 0)] + [FinishPlanning(0), Statement.Dispatch(0)]
  }

  function Pending(): Db
  {
    Db(map[0 := RunRow(Running, [TheTest()], 0, map[])],
       map[0 := ShardRow(0, 0, ShardPending, None, false)], {}, {})
  }

  lemma DispatchedPending()
    ensures ExecAll(Empty(), UntilDispatched()) == Pending()
  {
    var first, second := UntilDispatched()[..3], [FinishPlanning(0), Statement.Dispatch(0)];
    RunSplits(Empty(), UntilDispatched(), 3);
    assert first == [InsertRun(0, [TheTest()]), BeginPlanning(0), InsertShard(0, 0, 0)];
    assert UntilDispatched()[3..] == second;
    Planned();
    Two(AfterInsert(), FinishPlanning(0), Statement.Dispatch(0));
  }

  /** The polling loop tests the flag, the whole drain runs and finds no note, and only
      then is the shard claimed, noted, executed and left alone. */
  function DrainInBetween(): seq<Steps.Event>
  {
    [Steps.Test(Steps.Polling), Steps.SetFlag, Steps.ReadNote, Steps.Mark(false)] +
    ([Steps.Claim(Steps.Polling, 0, false, false), Steps.Note(Steps.Polling),
      Steps.ReadFlag(Steps.Polling), Steps.Write(Steps.Polling, false, false)] + [Steps.Clear(Steps.Polling)])
  }

  function NewWorker(): Steps.Worker
  {
    Steps.Worker(7, Steps.Idle, Steps.Idle, None, Steps.NotBegun)
  }

  lemma FirstHalf()
    ensures Steps.Run4(Steps.System(Pending(), NewWorker()),
                       Steps.Test(Steps.Polling), Steps.SetFlag, Steps.ReadNote, Steps.Mark(false))
         == Steps.System(Pending(), NewWorker().(polling := Steps.Admitted, drain := Steps.Over))
  {
  }

  lemma SecondHalf()
    ensures var y := Steps.System(Pending(), NewWorker().(polling := Steps.Admitted, drain := Steps.Over));
            var last := Steps.Run4(y, Steps.Claim(Steps.Polling, 0, false, false), Steps.Note(Steps.Polling),
                                   Steps.ReadFlag(Steps.Polling), Steps.Write(Steps.Polling, false, false));
            last == Steps.System(WithShard(ShardRunning, 0),
                                 NewWorker().(polling := Steps.Leaving(0), current := Some(0), drain := Steps.Over))
  {
    assert Exec(Pending(), ClaimNext(0, 7)) == WithShard(ShardRunning, 0);
  }

  function Missed(): Steps.System
  {
    Steps.System(WithShard(ShardRunning, 0), NewWorker().(drain := Steps.Over))
  }

  lemma ReachesMissed()
    ensures Steps.Run(Steps.System(Pending(), NewWorker()), DrainInBetween()) == Missed()
  {
    FirstHalf();
    SecondHalf();
    var tail := [Steps.Clear(Steps.Polling)];
    Steps.FourEvents(Steps.System(Pending(), NewWorker()),
                     Steps.Test(Steps.Polling), Steps.SetFlag, Steps.ReadNote, Steps.Mark(false),
                     [Steps.Claim(Steps.Polling, 0, false, false), Steps.Note(Steps.Polling),
                      Steps.ReadFlag(Steps.Polling), Steps.Write(Steps.Polling, false, false)] + tail);
    var y := Steps.System(Pending(), NewWorker().(polling := Steps.Admitted, drain := Steps.Over));
    Steps.FourEvents(y, Steps.Claim(Steps.Polling, 0, false, false), Steps.Note(Steps.Polling),
                     Steps.ReadFlag(Steps.Polling), Steps.Write(Steps.Polling, false, false), tail);
    assert tail == tail + [];
    Steps.OneEvent(Steps.System(WithShard(ShardRunning, 0),
                                NewWorker().(polling := Steps.Leaving(0), current := Some(0), drain := Steps.Over)),
                   Steps.Clear(Steps.Polling), []);
  }

  /** The drained worker is through with its shard, which keeps running without it: its
      test is never recorded and, whatever happens later, no manager's scan returns it. */
  lemma DrainMissesClaimedShard(later: seq<Steps.Event>)
    ensures var start := Steps.System(ExecAll(Empty(), UntilDispatched()), NewWorker());
            var last := Steps.Run(start, DrainInBetween());
            && last.w == NewWorker().(drain := Steps.Over)
            && 0 in last.db.shards && last.db.shards[0].status == ShardRunning
            && 0 in last.db.runs && last.db.shards[0].run == 0
            && WorkerTests(last.db, 0) == [TheTest()] && !HasRow(last.db, 0, TheTest())
            && 0 in Steps.Run(last, later).db.shards
            && Steps.Run(last, later).db.shards[0].status == ShardRunning
            && !ScanPicks(Steps.Run(last, later).db, 0)
  {
    DispatchedPending();
    ReachesMissed();
    OnlyShard(Missed().db);
    Steps.StrandedForGood(Missed(), later, 0);
  }

  // ------------------------------------------------ two stale scans

  function UntilPreempted(): seq<Statement>
  {
    UntilClaimed() + [PreemptShard(0), CountPreemption(0)]
  }

  lemma Preempted()
    ensures ExecAll(Empty(), UntilPreempted()) == WithShard(ShardPreempted, 1)
  {
    AfterClaim([PreemptShard(0), CountPreemption(0)]);
    DrainOfClaimed();
    Two(WithShard(ShardRunning, 0), PreemptShard(0), CountPreemption(0));
  }

  /** After n replacements of shard 0, numbered and named 1 .. n, each storing the test. */
  function Replaced(n: nat): Db
    requires n <= 2
  {
    Db(map[0 := RunRow(Running, [TheTest()], 1,
                       if n == 0 then map[] else if n == 1 then map[1 := [TheTest()]]
                       else map[1 := [TheTest()], 2 := [TheTest()]])],
       if n == 0 then map[0 := ShardRow(0, 0, ShardPreempted, Some(7), false)]
       else if n == 1 then map[0 := ShardRow(0, 0, ShardPreempted, Some(7), true),
                               1 := ShardRow(0, 1, ShardPending, None, false)]
       else map[0 := ShardRow(0, 0, ShardPreempted, Some(7), true),
                1 := ShardRow(0, 1, ShardPending, None, false),
                2 := ShardRow(0, 2, ShardPending, None, false)], {}, {})
  }

  lemma ShardsOfReplaced(n: nat)
    requires n <= 2
    ensures ShardsOf(Replaced(n), 0) == if n == 0 then {0} else if n == 1 then {0, 1} else {0, 1, 2}
    ensures |ShardsOf(Replaced(n), 0)| == n + 1
  {
    assert ShardsOf(Replaced(n), 0) == if n == 0 then {0} else if n == 1 then {0, 1} else {0, 1, 2};
  }

  /** The residue of shard 0 is its test, before and after it was replaced. */
  lemma ResidueOfReplaced(n: nat)
    requires n <= 2
    ensures Residue(Dealt(Replaced(n), 0), Recorded(Replaced(n), 0)) == [TheTest()]
  {
    ShardsOfReplaced(n);
    OneTurn([TheTest()], 0, n + 1);
    assert Recorded(Replaced(n), 0) == {};
    assert [TheTest()][..0] == [];
  }

  lemma ReplaceOnce(n: nat)
    requires n < 2
    ensures Exec(Replaced(n), RescheduleRest(0, n + 1, [TheTest()])) == Replaced(n + 1)
    ensures Reschedules(Replaced(n), RescheduleRest(0, n + 1, [TheTest()]), 0)
  {
    ShardsOfReplaced(n);
    ReplacementFits(n);
    if n == 0 { ReplaceTo(0, 1); } else { ReplaceTo(1, 2); }
  }

  lemma ReplacementFits(n: nat)
    requires n < 2
    ensures CanInsertShard(Replaced(n), n + 1, 0, n + 1)
  {
  }

  lemma ReplaceTo(n: nat, m: nat)
    requires m == n + 1 <= 2
    ensures Replace(Replaced(n), 0, m, [TheTest()]) == Replaced(m)
  {
    ShardsOfReplaced(n);
    var next := Replace(Replaced(n), 0, m, [TheTest()]);
    assert next.shards == Replaced(m).shards;
    assert next.runs == Replaced(m).runs;
  }

  /** Managers 1 and 2 scan, then both commit the residue they compute under the lock:
      two replacements, each of which loads the test. */
  lemma StaleScansRescheduleTwice()
    ensures var db := ExecAll(Empty(), UntilPreempted());
            var first, second := RescheduleRest(0, 1, [TheTest()]), RescheduleRest(0, 2, [TheTest()]);
            var between := Exec(db, first);
            var trace := [Scan(1, {0}), Scan(2, {0}), Commit(1, first), Commit(2, second)];
            var last := RescheduleScans.Run(System(db, {}, {}), trace).db;
            && Consistent(db) && Consistent(last)
            && 0 in db.shards && db.shards[0].run in db.runs
            && first.remaining == Residue(Dealt(db, 0), Recorded(db, 0))
            && 0 in between.shards && between.shards[0].run in between.runs
            && second.remaining == Residue(Dealt(between, 0), Recorded(between, 0))
            && CommitCount(System(db, {}, {}), trace, 0) == 2
            && (forall s :: s in {1, 2} ==> s in last.shards && last.shards[s].run in last.runs)
            && WorkerTests(last, 1) == WorkerTests(last, 2) == [TheTest()]
  {
    Preempted();
    assert WithShard(ShardPreempted, 1) == Replaced(0);
    ResidueOfReplaced(0);
    ResidueOfReplaced(1);
    ReplaceOnce(0);
    ReplaceOnce(1);
    TwoCommits();
    ReachedIsConsistent(UntilPreempted());
    EveryStatementKeepsConsistency(Replaced(0), RescheduleRest(0, 1, [TheTest()]));
    EveryStatementKeepsConsistency(Replaced(1), RescheduleRest(0, 2, [TheTest()]));
  }

  function Working(n: nat, work: set<(ManagerId, ShardId)>, outdated: set<(ManagerId, ShardId)>): System
    requires n <= 2
  {
    System(Replaced(n), work, outdated)
  }

  lemma BothScan()
    ensures RescheduleScans.Step(Working(0, {}, {}), Scan(1, {0})) == Working(0, {(1, 0)}, {})
    ensures RescheduleScans.Step(Working(0, {(1, 0)}, {}), Scan(2, {0})) == Working(0, {(1, 0), (2, 0)}, {})
  {
  }

  lemma FirstCommits()
    ensures var e := Commit(1, RescheduleRest(0, 1, [TheTest()]));
            && RescheduleScans.Step(Working(0, {(1, 0), (2, 0)}, {}), e) == Working(1, {(2, 0)}, {(2, 0)})
            && Commits(Working(0, {(1, 0), (2, 0)}, {}), e, 0)
  {
    ReplaceOnce(0);
  }

  lemma SecondCommits()
    ensures var e := Commit(2, RescheduleRest(0, 2, [TheTest()]));
            && RescheduleScans.Step(Working(1, {(2, 0)}, {(2, 0)}), e).db == Replaced(2)
            && Commits(Working(1, {(2, 0)}, {(2, 0)}), e, 0)
  {
    ReplaceOnce(1);
  }

  lemma TwoCommits()
    ensures var first, second := RescheduleRest(0, 1, [TheTest()]), RescheduleRest(0, 2, [TheTest()]);
            var trace := [Scan(1, {0}), Scan(2, {0}), Commit(1, first), Commit(2, second)];
            && RescheduleScans.Run(System(Replaced(0), {}, {}), trace).db == Replaced(2)
            && CommitCount(System(Replaced(0), {}, {}), trace, 0) == 2
  {
    BothScan();
    FirstCommits();
    SecondCommits();
    var e1, e2 := Commit(1, RescheduleRest(0, 1, [TheTest()])), Commit(2, RescheduleRest(0, 2, [TheTest()]));
    var t1 := [e2] + [];
    var t2 := [e1] + t1;
    var t3 := [Scan(2, {0})] + t2;
    assert [Scan(1, {0}), Scan(2, {0}), e1, e2] == [Scan(1, {0})] + t3;
    OneEvent(Working(0, {}, {}), Scan(1, {0}), t3);
    OneEvent(Working(0, {(1, 0)}, {}), Scan(2, {0}), t2);
    OneEvent(Working(0, {(1, 0), (2, 0)}, {}), e1, t1);
    OneEvent(Working(1, {(2, 0)}, {(2, 0)}), e2, []);
  }

  lemma OneEvent(y: System, e: Event, rest: seq<Event>)
    ensures RescheduleScans.Run(y, [e] + rest) == RescheduleScans.Run(RescheduleScans.Step(y, e), rest)
    ensures CommitCount(y, [e] + rest, 0)
         == (if Commits(y, e, 0) then 1 else 0) + CommitCount(RescheduleScans.Step(y, e), rest, 0)
  {
    assert ([e] + rest)[1..] == rest;
  }

  // ------------------------------------------------ a gRPC pull of a replacement

  /** After one reschedule the replacement stores the test, and a gRPC pull of it would
      deal it nothing. */
  lemma GrpcPullLosesTheTest()
    ensures var db := ExecAll(Empty(), UntilPreempted());
            var next := Exec(db, RescheduleRest(0, 1, [TheTest()]));
            && 1 in next.shards && next.shards[1].run in next.runs && Claimable(next, 1)
            && WorkerTests(next, 1) == [TheTest()] && Dealt(next, 1) == []
  {
    Preempted();
    assert WithShard(ShardPreempted, 1) == Replaced(0);
    ReplaceOnce(0);
    ShardsOfReplaced(1);
    NothingBeyondTheEnd([TheTest()], 1, 2);
  }
}

/** Managers scan for preempted shards and reschedule them later, each in a transaction
    of its own. How often a shard is rescheduled, and which shards never are. */
module RescheduleScans {
  import opened RunStates
  import opened Reschedule

  type ManagerId = nat

  /** The rows the reschedule scan asks for. */
  predicate ScanPicks(db: Db, s: ShardId)
  {
    && s in db.shards && (db.shards[s].status == ShardPreempted || db.shards[s].status == ShardLost)
    && db.shards[s].run in db.runs && db.runs[db.shards[s].run].status in {Dispatching, Running}
    && !db.shards[s].rescheduled
  }

  /** work holds what managers have scanned and not yet rescheduled; outdated, the part
      of it that was scanned before the latest committed reschedule of its shard. */
  datatype System = System(db: Db, work: set<(ManagerId, ShardId)>, outdated: set<(ManagerId, ShardId)>)

  datatype Event =
    | Scan(manager: ManagerId, picked: set<ShardId>)      // of the picked, the ones the query returns
    | Commit(manager: ManagerId, stmt: Statement)         // one scanned shard is rescheduled
    | Other(stmt: Statement)                              // any statement that reschedules nothing

  predicate IsReschedule(stmt: Statement)
  {
    stmt.RescheduleDone? || stmt.RescheduleRest?
  }

  function Step(y: System, e: Event): System
  {
    match e
    case Scan(m, picked) =>
      System(y.db,
             (set w | w in y.work && w.0 != m) + (set s | s in picked && ScanPicks(y.db, s) :: (m, s)),
             set w | w in y.outdated && w.0 != m)
    case Commit(m, stmt) =>
      if IsReschedule(stmt) && (m, stmt.shard) in y.work then
        var rescheduled := Reschedules(y.db, stmt, stmt.shard);
        System(Exec(y.db, stmt), y.work - {(m, stmt.shard)},
               (y.outdated + set w | w in y.work && rescheduled && w.1 == stmt.shard) - {(m, stmt.shard)})
      else y
    case Other(stmt) => if IsReschedule(stmt) then y else y.(db := Exec(y.db, stmt))
  }

  function Run(y: System, trace: seq<Event>): System
    decreases |trace|
  {
    if trace == [] then y else Run(Step(y, trace[0]), trace[1..])
  }

  /** Does the event commit a reschedule of shard s? */
  predicate Commits(y: System, e: Event, s: ShardId)
  {
    e.Commit? && IsReschedule(e.stmt) && e.stmt.shard == s && (e.manager, s) in y.work && Reschedules(y.db, e.stmt, s)
  }

  /** And does it act on a scan older than an earlier reschedule of s? */
  predicate CommitsStale(y: System, e: Event, s: ShardId)
  {
    Commits(y, e, s) && (e.manager, s) in y.outdated
  }

  function CommitCount(y: System, trace: seq<Event>, s: ShardId): nat
    decreases |trace|
  {
    if trace == [] then 0
    else (if Commits(y, trace[0], s) then 1 else 0) + CommitCount(Step(y, trace[0]), trace[1..], s)
  }

  function StaleCount(y: System, trace: seq<Event>, s: ShardId): nat
    decreases |trace|
  {
    if trace == [] then 0
    else (if CommitsStale(y, trace[0], s) then 1 else 0) + StaleCount(Step(y, trace[0]), trace[1..], s)
  }

  predicate Marked(y: System, s: ShardId)
  {
    s in y.db.shards && y.db.shards[s].rescheduled
  }

  /** Before shard s is rescheduled no scan of it is outdated, afterwards all are. */
  ghost predicate ScansKnown(y: System, s: ShardId)
  {
    forall w :: w in y.work && w.1 == s ==> (w in y.outdated <==> Marked(y, s))
  }

  lemma OnlyReschedulesMark(db: Db, stmt: Statement, s: ShardId)
    requires s in Exec(db, stmt).shards
    ensures Exec(db, stmt).shards[s].rescheduled <==>
              (s in db.shards && (db.shards[s].rescheduled || Reschedules(db, stmt, s)))
  {
    if s in db.shards { MarkerIsKept(db, stmt, s); }
  }

  lemma StepKeepsScansKnown(y: System, e: Event, s: ShardId)
    requires ScansKnown(y, s)
    ensures ScansKnown(Step(y, e), s)
    ensures Marked(Step(y, e), s) <==> Marked(y, s) || Commits(y, e, s)
  {
    if e.Commit? || e.Other? {
      if s in y.db.shards { ShardsNeverRevert(y.db, e.stmt, s); }
      if s in Exec(y.db, e.stmt).shards { OnlyReschedulesMark(y.db, e.stmt, s); }
    }
  }

  /** Every commit but the first acts on an outdated scan. */
  lemma {:induction false} OnlyTheFirstIsFresh(y: System, trace: seq<Event>, s: ShardId)
    requires ScansKnown(y, s)
    ensures CommitCount(y, trace, s)
         == StaleCount(y, trace, s) + if !Marked(y, s) && CommitCount(y, trace, s) > 0 then 1 else 0
    decreases |trace|
  {
    if trace != [] {
      StepKeepsScansKnown(y, trace[0], s);
      OnlyTheFirstIsFresh(Step(y, trace[0]), trace[1..], s);
    }
  }

  /** However managers scan and commit, a shard is rescheduled at most once exactly when
      no reschedule of it acts on a scan older than an earlier one. */
  lemma RescheduledOnceIff(db: Db, trace: seq<Event>, s: ShardId)
    requires s in db.shards ==> !db.shards[s].rescheduled
    ensures var y := System(db, {}, {});
            CommitCount(y, trace, s) <= 1 <==> StaleCount(y, trace, s) == 0
  {
    OnlyTheFirstIsFresh(System(db, {}, {}), trace, s);
  }

  /** All reschedules are committed by manager m. */
  predicate OnlyManager(trace: seq<Event>, m: ManagerId)
  {
    forall i :: 0 <= i < |trace| && trace[i].Commit? ==> trace[i].manager == m
  }

  /** A manager that reschedules alone never acts on an outdated scan of its own. */
  lemma {:induction false} AloneIsFresh(y: System, trace: seq<Event>, s: ShardId, m: ManagerId)
    requires OnlyManager(trace, m) && (m, s) !in y.outdated
    ensures StaleCount(y, trace, s) == 0
    decreases |trace|
  {
    if trace != [] {
      assert trace[0].Commit? ==> trace[0].manager == m;
      AloneIsFresh(Step(y, trace[0]), trace[1..], s, m);
    }
  }

  /** With one manager at a time, however it scans and commits, a shard is rescheduled at
      most once. */
  lemma OneManagerIsEnough(db: Db, trace: seq<Event>, s: ShardId, m: ManagerId)
    requires (s in db.shards ==> !db.shards[s].rescheduled) && OnlyManager(trace, m)
    ensures CommitCount(System(db, {}, {}), trace, s) <= 1
  {
    AloneIsFresh(System(db, {}, {}), trace, s, m);
    RescheduledOnceIff(db, trace, s);
  }

  // ------------------------------------------------ shards no scan returns

  /** Finished for good, as far as the reschedule scan goes. */
  predicate Settled(db: Db, s: ShardId)
  {
    s in db.shards && (db.shards[s].status == ShardSucceeded || db.shards[s].status == ShardFailed)
  }

  lemma SettledStays(db: Db, stmt: Statement, s: ShardId)
    requires Settled(db, s)
    ensures Settled(Exec(db, stmt), s)
  {
  }

  /** A shard that succeeded or failed and is on no manager's list is never rescheduled
      again, whatever happens. */
  lemma {:induction false} SettledIsNeverRescheduled(y: System, trace: seq<Event>, s: ShardId)
    requires Settled(y.db, s) && forall w :: w in y.work ==> w.1 != s
    ensures CommitCount(y, trace, s) == 0 && Settled(Run(y, trace).db, s)
    decreases |trace|
  {
    if trace != [] {
      if trace[0].Commit? || trace[0].Other? { SettledStays(y.db, trace[0].stmt, s); }
      SettledIsNeverRescheduled(Step(y, trace[0]), trace[1..], s);
    }
  }
}

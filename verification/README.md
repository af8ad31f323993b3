# TEO core, modelled and proved in Dafny

TEO plans test suites into shards, hands the shards to workers, and follows runs to
their end. This project models the parts of it that are hardest to get right and
proves what they promise: the LPT scheduler and its replay, the SQL script splitter of
the migrator, the run and shard protocol, idempotent run creation, the subscription
hub, the flake classifier and the cluster backfill.

`dafny verify dfyconfig.toml` checks everything.

## How it is laid out

| files | what they hold |
|---|---|
| `Wrappers` | an optional value and facts about collections |
| `Packing`, `StableSort` | greedy packings with Graham's bounds; stable sorting and its uniqueness |
| `Scheduler`, `PlanTheorems`, `ReplayTheorems` | the planner and the replay as loops, and what every plan guarantees |
| `SqlSplit`, `SqlTheorems`, `SqlRegions`, `SqlRoundTrip`, `SqlEdges` | the splitter as nested loops, the token grammar it obeys, the regions no cut lies in, locality and the round trip, and two corner cases |
| `RunStates` | run and shard rows, every SQL statement that writes them, and what all interleavings keep |
| `RoundRobin`, `RunCoverage`, `RunPlanning`, `Reschedule`, `NatsReschedule` | the planning transaction, which tests each shard loads, and what a reschedule keeps of them, for both ways of loading |
| `RescheduleScans`, `Drain`, `RunExamples` | managers that scan and commit later, what becomes of a drained shard, and runs from empty tables in which a promise fails |
| `RunEffects` | what every statement does, row by row and in the values of the rows |
| `RunStore` | the tables as a class, every method tied to the statements it commits |
| `WorkerSteps`, `WorkerOrders`, `Worker` | one worker's loops and drain, step by step among everything else, and the worker as a class whose methods are those steps |
| `RunIntake` | run creation as a concurrent state machine, and the code of one call |
| `Delivery`, `Hub`, `HubLoop`, `HubExamples` | the drop-oldest channel with a free receiver; the hub's lock sections, the hub class, and the loop that decides when a run's subscriptions end |
| `Wilson` | the Wilson interval over exact reals and the classifier |
| `Backfill` | the keyset-paged scan and the doubly cached loop |

Loops over Go slices and maps are methods with invariants, proved equal to a function of
their input; the lemmas are about that function. Objects whose methods change fields
are classes. A trace of the run protocol is a list of committed statements in commit
order. Each statement is an atomic guarded UPDATE or INSERT; its arguments may come from
any earlier, stale read.

Transactions run at READ COMMITTED, so the statements of several interleave, and what a
trace lists is each transaction's statements at its commit. That loses nothing. A row a
transaction has updated stays locked until it commits, so nobody else writes it in
between; a row it has inserted is invisible to others until then; and shards of a run are
inserted only under that run's advisory lock. So an earlier write has the same effect at
the commit as where it stood. Plain reads lock nothing: where an outcome is read first and
written later, the model leaves room for other commits in between (`TryHandle`, `Cancel`,
`RescheduleOne`, and every step of a worker). A rolled-back transaction leaves nothing.

## Where the code and its words differ

Each point is proved, with an input or a run that shows it and the exact condition.

- **Splitter.** Empty statements are said to be dropped (internal/migrate/migrate.go:290),
  but a `;` with nothing before it is kept: `LoneSemicolonIsKept`, `LoneSemicolonIff`. The
  last byte of an unterminated block comment is lexed at top level (:321-329), which
  changes no cut: `UnterminatedCommentIsLast`.
- **Replay.** It is called faithful for every plan (internal/scheduler/scheduler.go:76-81).
  It is when the shards list every tie class in manifest order, `TiesInOrderReplay`, and
  without exclusive tags only then, `ReplayReproducesPlanIff`. `ReplayCanDiverge` gives a
  manifest that fails under the constraints both callers pass.
- **Rescheduling twice.** The marker is said to prevent it
  (internal/runmanager/manager.go:457-458), but the transaction does not check it again:
  `StaleScansRescheduleTwice`, and `RescheduledOnceIff` for when it holds, as with one manager (`OneManagerIsEnough`).
- **Rescheduling the right tests.** After a shard was appended, `count(*)` is larger and a
  reschedule intends other tests: `IntendedIsPlannedIff`, `SecondTurnIsLost`. A shard
  claimed over NATS ran the plan's tests, while its reschedule looks at the round-robin
  deal: `NatsRescheduleKeepsIff`, `NatsNeverLosesIff`, `NatsCanLose`. The `|`-joined key
  can take one test for another: `KeyIdentifiesIff`, `ResidueMember`. A gRPC pull ignores
  the stored tests of a replacement: `GrpcLoadsResidueIff`, `GrpcLoadsResidueLaterIff`,
  `GrpcPullLosesTheTest`.
- **Drains.** A comment says that a drained shard's status is not overwritten
  (internal/worker/worker.go:281-282). The flag is read before the UPDATE, and the UPDATE
  has no guard: `FinishAfterDrain`, `FinishOverwritesPreemption`; `PreemptedStaysIff` and
  `MarkSurvivesIff` say when a preemption lasts. A drain marks the one shard it finds
  noted, and can find none: when it runs between the flag test and the note
  (`DrainMissesClaimedShard`), or after the other loop cleared the note
  (`DrainMissesPolledShard`). `StrandedIff`, `MissedShardIff` and `DrainReachesAllIff` say
  exactly when a shard is left running, and `StrandedForGood` that it then stays so.
- **Initial snapshot.** Closing under the lock is said to keep every send off closed
  channels (internal/api/subscriptions.go:190-193), but the first send of a subscription is
  outside it: `InitialSendMeetsClosedIff`, `InitialSendCanPanic`.
- **Cancel.** A run that did not change is said to be terminal already
  (internal/runsvc/service.go:197); a finalizing run comes back unchanged and is not
  terminal: `CancelEndsIff`, `CancelOfFinalizing`.
- **Subscriptions.** They are said to end when the run is terminal
  (internal/api/subscriptions.go:122-124). SQL writes `cancelled` and the loop compares with
  `canceled`, so those of a cancelled run stay open: `RecognisedIff`, `CancelledIsNeverRecognised`,
  `SubscribersOfCancelledStay`. Elsewhere
  both spellings are the one constructor `Cancelled`.

## Model

| member | source | states |
|---|---|---|
| Packing.GrahamBound | internal/scheduler/scheduler.go:113-115 | every greedy packing in descending order of jobs on m bins has makespan at most (4/3 - 1/(3m)) times that of any packing of the same jobs on m bins |
| Packing.GrahamStep | internal/scheduler/scheduler.go:184-210 | one more job, no longer than those before it, on the least-loaded bin keeps that bin within the bound of any packing of the jobs so far |
| Packing.TargetBound | internal/scheduler/scheduler.go:184-210 | a greedy packing whose work fits m bins of the target length exceeds the target by at most the longest job |
| StableSort.StableSortIsUnique | internal/scheduler/scheduler.go:166-171 | a sorted list that keeps the order inside every key class is the stable sort |
| StableSort.SortForgetsOrder | internal/scheduler/scheduler.go:76-81 | when keys identify elements, sorting forgets the input order |
| StableSort.SameSortIff | internal/scheduler/scheduler.go:164-171 | two listings sort alike exactly when each lists every tie class in the order of the other |
| Scheduler.PickExclusiveTag | internal/scheduler/scheduler.go:242-249 | returns the first tag that begins with the ten letters `exclusive-`, and the empty string exactly when none does |
| Scheduler.FirstExclusiveIff | internal/scheduler/scheduler.go:242-249 | the same of the function the planner is specified with |
| Scheduler.SplitLanes | internal/scheduler/scheduler.go:127-136 | active and quarantined tests, each in input order |
| Scheduler.FloorDurations | internal/scheduler/scheduler.go:141-147 | every duration raised to 50 ms, and their sum |
| Scheduler.PickBin | internal/scheduler/scheduler.go:185-204 | the owner of the test's exclusive tag, or else the first least-loaded bin; the fallback is never reached |
| Scheduler.PackBins | internal/scheduler/scheduler.go:173-210 | the bins hold the tests exactly as the greedy placement puts them, loads being the sums of their tests |
| Scheduler.SortBins | internal/scheduler/scheduler.go:212-217 | sorting within bins changes nothing on bins filled in descending order |
| Scheduler.BinTestsAreSorted | internal/scheduler/scheduler.go:212-217 | bins filled from a list in descending order are in descending order |
| Scheduler.PlanFunc | internal/scheduler/scheduler.go:116-239 | the whole planner computes PlanOf of its input, for all tests and constraints |
| Scheduler.Replay | internal/scheduler/scheduler.go:82-96 | replans the tests a stored plan lists and reports whether the plans are equal |
| PlanTheorems.PlanConservesTests | internal/scheduler/scheduler.go:127-239 | shards hold exactly the active tests, the lane the quarantined ones in order; shard durations are sums, add up to the total, and their maximum is the makespan |
| PlanTheorems.ShardsAreNumberedAndFull | internal/scheduler/scheduler.go:227-230 | shard index equals position, and with any active test no shard is empty |
| PlanTheorems.GreedyFillsFromTheLeft | internal/scheduler/scheduler.go:180-210 | empty bins are always a suffix, with exclusive tags too |
| PlanTheorems.ExclusiveTestsShareAShard | internal/scheduler/scheduler.go:187-209 | tests whose first tag beginning with `exclusive-` is the same are in the same shard |
| PlanTheorems.OthersGoToTheLeastLoaded | internal/scheduler/scheduler.go:189-201 | a test that has no such tag, or is the first with it, goes to the first of the least loaded shards |
| PlanTheorems.ShardOrder | internal/scheduler/scheduler.go:164-171 | within a shard longer tests come first, and of equally long ones the one with the smaller digest of path, name and parameters |
| PlanTheorems.ActiveAreFlooredInputs | internal/scheduler/scheduler.go:127-147 | the planned tests are the inputs that are not quarantined, their durations raised to 50 ms and nothing else changed |
| PlanTheorems.KnobsHaveDefaults | internal/scheduler/scheduler.go:117-125 | zero or negative knobs plan as 300 seconds, one shard, and fifty shards or the minimum |
| PlanTheorems.ShardCountIsLeast | internal/scheduler/scheduler.go:148-162 | one shard fewer would not hold the work within the target unless the minimum forces the count; and the count holds it unless the maximum or the number of tests caps it |
| PlanTheorems.PlanMeetsGrahamBound | internal/scheduler/scheduler.go:110-210 | without exclusive tags, 3m times the makespan is at most (4m - 1) times that of any assignment of the active tests to m = shardCount shards |
| PlanTheorems.PlanMeetsTarget | internal/scheduler/scheduler.go:142-162 | without exclusive tags and unless the shard cap binds, the makespan exceeds the target by at most the longest test |
| ReplayTheorems.PlanForgetsInputOrder | internal/scheduler/scheduler.go:164-171 | any two orderings of the same tests get the same assignments when tests of equal floored duration and equal digest of path, name and parameters are equal |
| ReplayTheorems.ReplayInputRestoresLanes | internal/scheduler/scheduler.go:82-93 | a stored plan lists the same active tests and the same lane it was made from |
| ReplayTheorems.ReplayReproducesPlan | internal/scheduler/scheduler.go:76-96 | replaying a plan under its constraints gives it back under the same premise |
| ReplayTheorems.PlanThenReplay | internal/scheduler/scheduler.go:82-108 | planning and replaying through the loops reports deterministic under the same premise |
| ReplayTheorems.TiesInOrderReplay | internal/scheduler/scheduler.go:82-108 | a plan whose shards list every tie class in manifest order replays, exclusive tags included |
| ReplayTheorems.ReplayReproducesPlanIff | internal/scheduler/scheduler.go:82-108 | without exclusive tags a plan replays exactly when its shards list every tie class in manifest order |
| ReplayTheorems.ReplayCanDiverge | internal/scheduler/scheduler.go:76-81 | for every hash function, a concrete manifest whose plan under the default constraints does not replay |
| SqlSplit.CopyBlock | internal/migrate/migrate.go:317-329 | copies a block comment up to its end as the lexer defines it, the unterminated case included |
| SqlSplit.CopySingle | internal/migrate/migrate.go:330-346 | copies a single-quoted literal with doubled quotes |
| SqlSplit.CopyDollar | internal/migrate/migrate.go:358-389 | copies a tag-quoted body, an unterminated one, or a bare dollar |
| SqlSplit.SplitSQL | internal/migrate/migrate.go:297-401 | the index-hopping loops return exactly the statements of the recursive lexer, for every byte string |
| SqlTheorems.TokenEndIff | internal/migrate/migrate.go:309-396 | where a token ends, against a declarative grammar of comments, quotes and dollar tags |
| SqlTheorems.CutIsFirstTopSemi | internal/migrate/migrate.go:390-393 | the next cut is after the first semicolon that is a token of its own |
| SqlTheorems.CutsAreTopSemis | internal/migrate/migrate.go:390-393 | a script is cut after a byte if and only if that byte is a top-level semicolon |
| SqlTheorems.ChunksConserveScript | internal/migrate/migrate.go:297-401 | the chunks before trimming concatenate to the script |
| SqlRegions.LineCommentIsWhole | internal/migrate/migrate.go:311-316 | two dashes and everything up to the end of the line are one token, and no cut lies inside |
| SqlRegions.BlockCommentIsWhole | internal/migrate/migrate.go:317-329 | `/*` and everything up to the first `*/` are one token, and no cut lies inside |
| SqlRegions.LiteralIsWhole | internal/migrate/migrate.go:330-346 | a quote, any text with its quotes doubled, and a quote are one token, and no cut lies inside |
| SqlRegions.IdentifierIsWhole | internal/migrate/migrate.go:347-357 | a double-quoted identifier is one token, and no cut lies inside |
| SqlRegions.DollarQuoteIsWhole | internal/migrate/migrate.go:358-389 | for every name of letters, digits and underscores, a tag, any body and the first repetition of the tag are one token, and no cut lies inside |
| SqlRegions.BareDollarIsOneByte | internal/migrate/migrate.go:358-375 | a `$` whose run of such bytes ends at another byte than `$`, or at the end, is a token of one byte |
| SqlRegions.PlainByte | internal/migrate/migrate.go:390-396 | any other byte is a token by itself, and a `;` among them is a cut |
| SqlRegions.StatementsAreTrimmedPieces | internal/migrate/migrate.go:300-306 | every statement is a piece of the script without the white space at its ends, and not empty |
| SqlRegions.TrimTakesWhite | internal/migrate/migrate.go:300-306 | trimming takes off the six ASCII white-space bytes at both ends and nothing else |
| SqlRegions.DroppedPiecesAreWhite | internal/migrate/migrate.go:300-306 | only pieces of nothing but white space are dropped |
| SqlRoundTrip.TokenSame | internal/migrate/migrate.go:309-396 | locality: a token depends only on its own bytes and a sealed neighbourhood |
| SqlRoundTrip.SplitStatementIsItself | internal/migrate/migrate.go:297-401 | splitting one returned statement returns just that statement |
| SqlRoundTrip.SplitJoinRoundTrip | internal/migrate/migrate.go:297-401 | joining the statements with newlines and splitting again returns them |
| SqlEdges.LoneSemicolonIsKept | internal/migrate/migrate.go:290-306 | the script `;` yields the statement `;` |
| SqlEdges.LoneSemicolonIff | internal/migrate/migrate.go:290-306 | a script yields the statement `;` exactly when some top-level semicolon has only white space between it and the top-level semicolon before it, or the start |
| SqlEdges.UnterminatedCommentIsLast | internal/migrate/migrate.go:317-329 | an unterminated block comment runs into the last piece of the script |
| RunStates.EveryStatementMovesLegally | internal/runmanager/statemachine.go:14-33 | every statement leaves a run's status alone or makes an allowed move |
| RunStates.StatusesOnlyAdvance | internal/runmanager/statemachine.go:14-28 | in every interleaving a run changes status at most five times and terminal states absorb |
| RunExamples.FiveChanges | internal/runmanager/statemachine.go:14-23 | a run that goes all the way changes its status exactly five times, so the bound is reached |
| RunEffects.MovesAre | internal/runmanager/statemachine.go:14-23 | the whole table of legal moves |
| RunEffects.TerminalIff | internal/runmanager/statemachine.go:25-28 | a status is terminal exactly when nothing can follow it |
| RunEffects.RunStatusChangesIff | internal/runmanager/manager.go:184-202 | every change of a run's status that any statement makes, and no other |
| RunEffects.ShardStatusChangesIff | internal/worker/worker.go:140-191 | every change of a shard's status that any statement makes, and no other |
| RunEffects.ClaimsAndPreemptionsAre | internal/worker/nats.go:64-78 | which statements are claims and preemptions, and when |
| RunEffects.SweepFails | internal/runmanager/manager.go:632-641 | an expired planning, dispatching or running run is failed |
| RunEffects.CancelCancels | internal/runsvc/service.go:178-184 | a cancel leaves a run that is not yet finalizing cancelled |
| RunEffects.NewRunIsPending | internal/runsvc/service.go:112-118 | a run comes into being pending, with its manifest and nothing counted or stored |
| RunEffects.CounterRisesIff | internal/worker/worker.go:153-160 | the counter rises by one with each counted drain and never otherwise |
| RunEffects.ClaimableIff | internal/grpcsvc/workers.go:58-70 | the polling query returns exactly the pending shards of dispatching and running runs, those on which a claim takes effect |
| RunEffects.NewShardIsPending | internal/runmanager/manager.go:294-301 | a shard comes into being pending, unclaimed and unmarked, at its planned index or after the last |
| RunEffects.ScannedIff | internal/runmanager/manager.go:460-468 | what the reschedule scan returns |
| RunEffects.FinalizedFailsIff | internal/runmanager/manager.go:421-445 | a run that was scanned finalizing and still is fails exactly when one of its shard rows was failed or lost when read, and succeeds otherwise |
| RunEffects.HandledOtherwise | internal/runmanager/manager.go:184-206 | a dispatching run starts running, a pending one that cannot be planned is failed, and nothing else happens |
| RunEffects.RowsAreRecordings | internal/worker/worker.go:294-331 | over all traces, an execution row exists exactly when it did before or its result was recorded |
| RunEffects.RecordedIsInNoResidue | internal/runmanager/manager.go:547-573 | a test recorded for a shard before a reschedule reads is in no residue of it |
| RunEffects.StructuredIsFirst | internal/grpcsvc/workers.go:115-140 | an older plan row gives an index the tests of its first assignment with that index |
| RunEffects.GrpcTestsAre | internal/grpcsvc/workers.go:99-160 | those tests are what the gRPC service loads, or the dealt ones when no assignment has the index |
| RunStates.CancelEndsIff | internal/runsvc/service.go:178-198 | a cancel leaves its run terminal exactly when it did not find it finalizing |
| RunExamples.CancelOfFinalizing | internal/runsvc/service.go:187-198 | from empty tables: a finalizing run that a cancel leaves as it is |
| RunStates.ShardsNeverRevert | internal/worker/worker.go:130-191 | no statement returns a shard to pending, renumbers it, moves it to another run or replaces its worker |
| RunStates.ShardIsClaimedOnce | internal/worker/worker.go:163-191 | over all workers and claim paths a shard is claimed at most once |
| RunStates.ClaimantIsKept | internal/grpcsvc/workers.go:58-70 | the worker that claimed a shard stays its worker |
| RunStates.ShardIsPreemptedOnce | internal/worker/worker.go:140-152 | a shard is preempted at most once |
| RunEffects.ClaimsAreExact | internal/worker/worker.go:163-191 | a shard that gains a worker was claimed exactly once, one that has none never |
| RunEffects.PreemptionsAreExact | internal/worker/worker.go:140-152 | a shard that ends preempted was preempted exactly once |
| RunStates.EveryStatementKeepsCounter | internal/worker/worker.go:153-160 | counted and uncounted drains and live shards never exceed the shards of the run |
| RunStates.PreemptionsAreBounded | internal/worker/worker.go:153-160 | a run's preemption counter never exceeds the number of its shards |
| RoundRobin.LoadPayload | internal/worker/worker.go:258-265 | the round-robin loop, shared by worker, gRPC service and rescheduler, returns the tests at positions p with p mod total = index |
| RoundRobin.PayloadsPartitionManifest | internal/worker/worker.go:258-265 | the payloads of the shards 0 .. total-1 together are the manifest |
| RoundRobin.SamePositionsIff | internal/runmanager/manager.go:532-545 | a shard's positions survive a larger shard count exactly when the manifest ends before its second turn |
| RoundRobin.PayloadKeptIff | internal/runmanager/manager.go:532-545 | the same for the payload itself, when the manifest lists no test twice |
| RunCoverage.KeyIdentifiesIff | internal/runmanager/manager.go:559-573 | a joined key tells its test from every other exactly when no field contains the separator |
| RunCoverage.LoadedAtAnyMoment | internal/worker/worker.go:214-266 | until a shard is appended, a shard loads the same tests whenever it is claimed |
| RunCoverage.ClaimedTestsPartitionManifest | internal/worker/worker.go:214-266 | whatever interleaves and whenever the shards are claimed, until an append the loaded tests partition the manifest |
| Reschedule.ResidueSplits | internal/runmanager/manager.go:547-573 | recorded tests and residue share out the intended tests, and no residue test is recorded |
| Reschedule.ResidueMember | internal/runmanager/manager.go:568-573 | the residue holds exactly the intended tests without a recorded key |
| Reschedule.FirstRescheduleSplitsPayload | internal/runmanager/manager.go:497-613 | the first reschedule of a run, whatever commits between claim, read and write: what the shard loaded splits into the tests recorded when read and the tests its replacement loads |
| Reschedule.StoredTestsStay | internal/runmanager/manager.go:603-613 | stored replacement tests are never overwritten |
| Reschedule.IntendedIsPlannedIff | internal/runmanager/manager.go:532-545 | after an append, a reschedule intends the planned tests of a shard exactly when the manifest ended before its second turn |
| Reschedule.SecondTurnIsLost | internal/runmanager/manager.go:532-545 | otherwise a planned test is in no later residue of its shard |
| Reschedule.GrpcLoadsResidueIff | internal/grpcsvc/workers.go:99-160 | right after the append, a first replacement pulled over gRPC loads its stored tests exactly in one case: shard 0, one or two turns, only its second test left; with one shard, exactly when the tests of even position are the recorded ones |
| Reschedule.GrpcLoadsResidueLaterIff | internal/grpcsvc/workers.go:99-160 | the same at any later moment and shard count: exactly when the replacement's turns are those of the unrecorded tests of the original |
| Reschedule.GrpcDealsReplacement | internal/grpcsvc/workers.go:99-160 | what it loads instead: the deal of the new last shard |
| RescheduleScans.RescheduledOnceIff | internal/runmanager/manager.go:450-519 | however managers scan and commit, a shard is rescheduled at most once exactly when no reschedule of it acts on a scan older than an earlier one |
| RescheduleScans.OneManagerIsEnough | internal/runmanager/manager.go:459-495 | when one manager commits all reschedules, a shard is rescheduled at most once |
| RescheduleScans.OnlyTheFirstIsFresh | internal/runmanager/manager.go:459-470 | every reschedule of a shard but the first acts on such a scan |
| RescheduleScans.SettledIsNeverRescheduled | internal/runmanager/manager.go:460-468 | a succeeded or failed shard on no manager's list is never rescheduled again |
| RunExamples.StaleScansRescheduleTwice | internal/runmanager/manager.go:497-627 | from empty tables: two managers scan, both commit the residue they compute, and two replacements load the same test |
| RunExamples.GrpcPullLosesTheTest | internal/grpcsvc/workers.go:49-160 | from empty tables: a claimable replacement stores a test and would be dealt none |
| RunExamples.FinishOverwritesPreemption | internal/worker/worker.go:281-291 | from empty tables: a counted preemption is overwritten, the shard's test is unrecorded and no manager ever reschedules it |
| Drain.PreemptedStaysIff | internal/worker/worker.go:140-152 | over all traces, a preempted shard stays preempted exactly when no finish and no empty reschedule of it follows; otherwise it is settled |
| NatsReschedule.MessagesCarryManifest | internal/runmanager/manager.go:392-414 | the dispatch messages of a plan carry every test of the manifest exactly once |
| NatsReschedule.IdsAre | internal/runmanager/manager.go:406-413 | a message names every test by path, name and parameters of its entry |
| NatsReschedule.NatsRescheduleKeepsIff | internal/runmanager/manager.go:532-573 | a reschedule of a shard run from its message loses nothing exactly when every unrecorded test it was sent stands at a position of its own turns |
| NatsReschedule.NatsNeverLosesIff | internal/runmanager/manager.go:532-573 | no such reschedule can lose a test, whatever was recorded, exactly when every shard was sent what it would have been dealt |
| NatsReschedule.PlanNeverLosesIff | internal/runmanager/manager.go:392-414 | the same for the messages of a plan of the scheduler |
| NatsReschedule.NatsCanLose | internal/runmanager/manager.go:532-573 | a manifest whose first shard, claimed over NATS and preempted, loses a test |
| RunPlanning.PlannedIsATrace | internal/runmanager/manager.go:221-320 | a committed planning transaction is a run of ordinary statements |
| RunPlanning.PlanningNumbersShards | internal/runmanager/manager.go:294-313 | planning a pending run under fresh ids always commits, numbers its shards from 0 and moves it to dispatching |
| RunPlanning.PlannedRunIsCovered | internal/runmanager/manager.go:288-302 | from planning until an append, the shards load every test of the manifest exactly once between them |
| RunStore.EveryStatementKeepsConsistency | migrations/postgres/001_initial.up.sql:61-77 | foreign keys and the unique (run_id, index) survive every statement |
| RunStore.HandledIsATrace | internal/runmanager/manager.go:167-202 | every handled transition is a run of ordinary statements |
| RunStore.Store.Plan | internal/runmanager/manager.go:221-320 | the planning loop commits all of its statements or none |
| RunStore.Store.TryHandle | internal/runmanager/manager.go:167-202 | plan, fail, dispatch or finalize from a stale status; a run still finalizing at the write fails exactly when a shard row of it was failed or lost when read, whatever was committed in between |
| RunStore.Store.Cancel | internal/runsvc/service.go:178-210 | guarded cancel, then whatever others commit, then the reload; the run is terminal at the reload unless it was finalizing at the cancel |
| RunStore.Store.CheckBudgets | internal/runmanager/manager.go:632-641 | fails exactly the expired planning, dispatching and running runs |
| RunStore.Store.LoadTestsForShard | internal/worker/worker.go:214-266 | the stored tests of a replacement, or else the dealt ones |
| RunStore.Store.ClaimNext | internal/worker/worker.go:173-190 | claims the oldest pending, unlocked shard of a dispatching or running run, and none only when there is none |
| RunStore.Store.PullAssignment | internal/grpcsvc/workers.go:49-93 | the same claim with the tests the gRPC service loads |
| RunStore.Store.LoadShardTests | internal/grpcsvc/workers.go:99-160 | the tests an older, structured plan row gives the index, or else the dealt ones |
| RunStore.Store.RescheduleOne | internal/runmanager/manager.go:497-627 | computes the residue from what it read and, after what others commit meanwhile, marks the shard succeeded or appends the replacement, stores its tests and marks the original |
| RunStore.Remaining | internal/runmanager/manager.go:568-573 | the filter loop keeps exactly the intended tests without a recorded key, in order |
| WorkerSteps.StepKeepsSound | internal/worker/worker.go:130-205 | after every step of the worker or of others, whatever a loop holds or the drain has read was claimed by this worker |
| WorkerSteps.OwnershipLasts | internal/worker/worker.go:173-205 | whatever others commit, a claimed shard stays its worker's |
| WorkerSteps.EventsAreStatements | internal/worker/worker.go:130-292 | a worker among others is a run of ordinary statements |
| WorkerSteps.StrandedIff | internal/worker/worker.go:130-292 | in every interleaving, a claimed shard the worker is through with is still running exactly when its loop read the flag after the drain or its last write failed, and the drain did not mark it |
| WorkerSteps.MissedShardIff | internal/worker/worker.go:281-291 | a missed shard whose status could be written is left running exactly when its flag was read after the drain |
| WorkerSteps.DrainReachesAllIff | internal/worker/worker.go:130-152 | a worker leaves no shard running exactly when every one that saw the drain or failed to be written was read from the note and marked, the mark's UPDATE succeeding |
| WorkerSteps.MarkSurvivesIff | internal/worker/worker.go:268-292 | the worker's own last write overwrites a mark exactly when the flag was read before the drain or never, as for an empty shard, and the write succeeds |
| WorkerSteps.StrandedForGood | internal/worker/worker.go:281-285 | a shard left running by a worker that is through with it stays running and out of every scan, whatever follows |
| WorkerOrders.DrainAlone | internal/worker/worker.go:130-161 | an uninterrupted drain preempts and counts the noted shard; either write may fail, and a second drain does nothing |
| WorkerOrders.FinishAfterDrain | internal/worker/worker.go:281-291 | a flag read before the drain and an UPDATE after it: the preemption is overwritten |
| WorkerOrders.DrainMissesPolledShard | internal/worker/nats.go:91-94 | one message consumed while the polling loop executes a shard is enough for the drain to miss that shard |
| RunExamples.DrainMissesClaimedShard | internal/worker/worker.go:163-204 | from empty tables: a drain between flag test and claim; the shard keeps running for good with its test unrecorded |
| Worker.Agent.TestFlag | internal/worker/worker.go:164-166 | one step of a loop: admitted exactly when the flag is not set |
| Worker.Agent.ClaimPolled | internal/worker/worker.go:173-199 | one step: the oldest claimable unlocked shard and its tests, or nothing |
| Worker.Agent.ClaimConsumed | internal/worker/nats.go:55-89 | one step: ack a malformed or lost message, nak a failed claim, take the shard exactly when it was pending |
| Worker.Agent.NoteShard | internal/worker/worker.go:202-203 | one step: the claimed shard replaces whatever was noted |
| Worker.Agent.RecordOne | internal/worker/worker.go:294-331 | one step: the execution rows gain exactly the pair of the shard in flight and the test |
| Worker.Agent.SeeFlag | internal/worker/worker.go:281-285 | one step: the flag as it is now |
| Worker.Agent.WriteStatus | internal/worker/worker.go:268-292 | one step: what is written, given the flag as it was seen |
| Worker.Agent.ClearNote | internal/worker/worker.go:203 | one step: nothing is noted any more, whoever had noted it |
| Worker.Agent.SetDraining | internal/worker/worker.go:131-133 | first step of a drain; only the first drain goes on |
| Worker.Agent.ReadCurrent | internal/worker/worker.go:136-139 | second step: the note as it is now |
| Worker.Agent.MarkNoted | internal/worker/worker.go:140-152 | third step: the noted shard is preempted if it is running and the UPDATE succeeds |
| Worker.Agent.CountMarked | internal/worker/worker.go:153-160 | last step: the marked shard is counted, unless that UPDATE fails |
| RunIntake.EveryStepKeepsInvariant | internal/runsvc/service.go:85-134 | every step of every call keeps keys unique and answers right |
| RunIntake.OneRowPerKey | migrations/postgres/005_idempotency_key_unique.up.sql:9-11 | however calls race, exactly one row is inserted under a key that is free first and taken in the end, and none under any other |
| RunIntake.SuccessfulCallsAgree | internal/runsvc/service.go:64-67 | all successful calls under a key name the same run, which holds their commit |
| RunIntake.ConflictIff | internal/runsvc/service.go:85-97 | an answered call conflicts exactly when the one row under its key holds another commit |
| RunIntake.OneCallCreates | internal/runsvc/service.go:150-156 | at most one call under a key is told it created the run |
| RunIntake.RaceIsClosed | internal/runsvc/service.go:119-134 | without database faults no call ends in an error: the second lookup finds the winner |
| RunIntake.RunTable.Create | internal/runsvc/service.go:68-156 | one call with other inserts between its steps: invalid exactly when repository, commit, branch, runner or tests are missing; created means new and inserted here, existing means same key and commit, conflict means another commit, and then nothing was inserted; an error only after a database fault |
| RunIntake.RunTable.LookupIdempotent | internal/runsvc/service.go:212-230 | finds the row under the key, or says that its commit differs |
| Delivery.ReceivedIsSubsequence | internal/api/subscriptions.go:250-266 | with the receiver interleaving freely with the three operations of a send, it receives a subsequence of what was sent, and between sends the last value is received or buffered |
| Delivery.LastSnapshotArrives | internal/api/subscriptions.go:250-266 | a receiver that drains a closed channel has got the last snapshot sent |
| Delivery.SubsequenceEmbeds | internal/api/subscriptions.go:250-252 | a subsequence arrives in sending order |
| Hub.SendRuns | internal/api/subscriptions.go:253-266 | a send on a full channel always leaves the new value in the buffer, whoever moves between its operations |
| Hub.EverySectionKeepsValid | internal/api/subscriptions.go:127-248 | after every lock section, stale callers included, a run is in the map iff it has a subscriber, channels are open iff registered, fan-outs are live iff in the map |
| Hub.ClosedAtMostOnce | internal/api/subscriptions.go:209-248 | a channel is closed exactly once when it is closed in the end and was not at first, otherwise never; a closed one gets nothing more |
| Hub.SubscriberSeesTheLast | internal/api/subscriptions.go:190-225 | past its initial send a subscriber receives a subsequence of the fanned-out snapshots, the last one included |
| Hub.FanoutReaches | internal/api/subscriptions.go:194-207 | every channel registered for the run has the snapshot sent to it and next to be received, every other channel is untouched |
| Hub.Hub.Register | internal/api/subscriptions.go:130-144 | the lock section of Subscribe |
| Hub.Hub.Fanout | internal/api/subscriptions.go:194-207 | every subscriber of the run, and nobody else, is sent the snapshot; no send meets a closed channel |
| Hub.Hub.CloseRun | internal/api/subscriptions.go:210-225 | closes exactly the run's channels, once each, cancels its fan-out and drops it |
| Hub.Hub.Unsubscribe | internal/api/subscriptions.go:229-248 | removes and closes one registered channel, the fan-out with the last; otherwise changes nothing |
| HubLoop.RecognisedIff | internal/api/subscriptions.go:268-273 | the loop takes a run for terminal exactly when it is and was not cancelled |
| HubLoop.LoopTurn | internal/api/subscriptions.go:168-188 | the lock sections of one turn, with those of others in between: fan out, and for a run it takes for terminal end the subscriptions |
| HubLoop.CancelledIsNeverRecognised | internal/api/subscriptions.go:183-186 | a run that ends up cancelled is taken for terminal at no moment of any trace |
| HubLoop.SubscribersOfCancelledStay | internal/api/subscriptions.go:122-124 | without such an end a subscriber stays registered until it leaves, whatever lock sections follow |
| Hub.InitialSendMeetsClosedIff | internal/api/subscriptions.go:144-160 | the first send of a subscription meets a closed channel exactly when the run's subscriptions are ended between registration and send |
| HubExamples.InitialSendCanPanic | internal/api/subscriptions.go:144-160 | the shortest such run |
| Wilson.LowerExceedsIff | internal/flake/wilson.go:9-21 | the lower bound exceeds c exactly when f > cn and (f - cn)^2 > z^2 c (1 - c) n |
| Wilson.ClampsAreRedundant | internal/flake/wilson.go:18-19 | 0 <= lower <= f/n <= upper <= 1 without either clamp |
| Wilson.IntervalIsMirrored | internal/flake/wilson.go:14-19 | the upper bound for f failures is one minus the lower bound for n - f |
| Wilson.LowerRisesWithFailures | internal/flake/wilson.go:9-21 | more failures never lower the lower bound |
| Wilson.LowerFallsWithAttempts | internal/flake/wilson.go:9-21 | as many failures in more attempts never raise it |
| Wilson.ClassifyIff | internal/flake/wilson.go:54-73 | each verdict exactly, without roots, for all thresholds and no attempts too |
| Wilson.ClassifyReports | internal/flake/wilson.go:54-64 | the decision reports attempts, failures, rate and interval as they are, and nothing but the counts below the sample minimum |
| Wilson.SeverityRisesWithFailures | internal/flake/wilson.go:54-73 | more failures never make a test look healthier |
| Wilson.DefaultInIntegers | internal/flake/wilson.go:45-51 | the default verdicts as tests on integers |
| Backfill.ScanIsExact | internal/resultpipeline/backfill.go:241-254 | the scan lists every pending id above the cursor exactly once, in order |
| Backfill.ExecSource.PendingFailuresPage | internal/resultpipeline/backfill.go:240-274 | a page is the first 5000 rows of the scan, and the cursor its last id |
| Backfill.ExecSource.PendingFailures | internal/resultpipeline/backfill.go:220-236 | the paged scan terminates and equals one query over everything |
| Backfill.CacheIsInvisibleIff | internal/resultpipeline/backfill.go:117-186 | the cached loop decides like the uncached one for all answers of the outside exactly when no trace is shared between repositories |
| Backfill.RowsAreAccountedFor | internal/resultpipeline/backfill.go:84-99 | outside a dry run, scanned = assigned + both skipped counts + errors |
| Backfill.CountersCount | internal/resultpipeline/backfill.go:84-99 | every counter is the number of rows with its outcome |
| Backfill.OutcomeIff | internal/resultpipeline/backfill.go:142-186 | each outcome of a row exactly, in terms of what the outside answers |
| Backfill.PreviewIff | internal/resultpipeline/backfill.go:153-163 | a dry run previews exactly the fingerprints of the stacks it found |
| Backfill.LinkedTo | internal/resultpipeline/backfill.go:276-288 | a new link leads to the cluster of its row's outcome |
| Backfill.Backfill | internal/resultpipeline/backfill.go:105-201 | scan and pass together: the numbers, the stacks asked for, and that exactly the pending rows without a link are still pending, links once made staying |
| Backfill.PendingAfterwardsIff | internal/resultpipeline/backfill.go:105-201 | with no trace shared between repositories, a row is pending afterwards exactly when by itself it gets no link |
| Backfill.RunBackfill | internal/resultpipeline/backfill.go:134-189 | the pass over given rows computes the cached outcomes, their counts, the distinct preview fingerprints and the links, and asks for each trace's stack once |
| Backfill.HandleRow | internal/resultpipeline/backfill.go:142-186 | one row: its outcome, what is remembered, and the link it makes |

## Left out

- Integer widths, JSON, and rounding: integers are unbounded, plans are compared as values instead of by their JSON, flake probabilities and the Wilson interval are exact reals.
- SHA-256: a parameter; where injectivity is needed it is the stated premise that equal (duration, hash) keys occur only on equal tests.
- Unicode white space in the splitter's trimming: only the six ASCII white-space bytes are trimmed.
- Graham's bound with exclusive tags: the tags restrict the assignment, and the source claims nothing there.
- RunStates.StatusesOnlyAdvance: running to finalizing is an environment step, as no code shown makes it; nothing is claimed about progress.
- RunStates.ShardIsClaimedOnce: database errors abort a statement and so leave no step in a trace.
- Test identity in the result tables: execution rows carry path, name and parameters; the fingerprint with its AST signature is left out.
- ReplayTheorems.ReplayReproducesPlanIff: with exclusive tags and ties only one direction is claimed, `TiesInOrderReplay`.
- Reschedule.FirstRescheduleSplitsPayload: scoped to runs without an earlier append, to separator-free fields and to the Postgres claim; `IntendedIsPlannedIff`, `KeyIdentifiesIff` and `NatsRescheduleKeepsIff` say what happens beyond.
- RunStore.Store.RescheduleOne: shards of the run are inserted under the run's lock only, so none is inserted between its reads and writes.
- Publishing to NATS: which messages are delivered, and when, is left to the trace; a message carries the plan's tests of its shard's index.
- RunIntake.RunTable.Create: fields of a request that are only stored, the manifest row and the audit entry are left out; rows are never deleted.
- Hub: fan-outs and channels are held by identity in maps of the hub instead of as heap objects; what the initial send of Subscribe does to the order of snapshots (internal/api/subscriptions.go:150-154), metrics, hints and tickers are left out.
- Wilson.ClassifyIff: negative counts and more failures than attempts, for which the source computes a root of a negative number.
- Backfill.RunBackfill: the outside answers are functions, so a resolver that answers differently on a retry is not covered; log lines and the time window are left out.
- Clocks, transports, object storage, authentication, the web UI, digests, metrics, ownership matching and JUnit totals: no local algorithm or easy.

/** What rescheduling a preempted shard promises, and exactly when it keeps it. */
module Reschedule {
  import opened Wrappers
  import opened RunStates
  import opened RoundRobin
  import opened RunCoverage

  predicate HasRow(db: Db, s: ShardId, t: TestId)
  {
    (s, t) in db.executions
  }

  /** The tests of ts with an execution row for shard s. */
  function DoneTests(ts: seq<TestId>, db: Db, s: ShardId): seq<TestId>
  {
    if ts == [] then []
    else
      var last := |ts| - 1;
      DoneTests(ts[..last], db, s) + if HasRow(db, s, ts[last]) then [ts[last]] else []
  }

  lemma RecordedIff(db: Db, s: ShardId, t: TestId)
    requires SeparatorFree(t)
    ensures JoinKey(t) in Recorded(db, s) <==> HasRow(db, s, t)
  {
    KeyIdentifiesIff(t);
    if JoinKey(t) in Recorded(db, s) {
      var e :| e in db.executions && e.0 == s && JoinKey(e.1) == JoinKey(t);
      assert e == (s, t);
    }
  }

  lemma {:induction false} ResidueIsUnrecorded(ts: seq<TestId>, db: Db, s: ShardId)
    requires forall i :: 0 <= i < |ts| ==> SeparatorFree(ts[i])
    ensures forall i :: 0 <= i < |Residue(ts, Recorded(db, s))| ==> !HasRow(db, s, Residue(ts, Recorded(db, s))[i])
  {
    if ts != [] {
      var front, t := ts[..|ts| - 1], ts[|ts| - 1];
      ResidueIsUnrecorded(front, db, s);
      RecordedIff(db, s, t);
      AllUnrecorded(db, s, Residue(front, Recorded(db, s)), if HasRow(db, s, t) then [] else [t]);
    }
  }

  lemma AllUnrecorded(db: Db, s: ShardId, a: seq<TestId>, b: seq<TestId>)
    requires forall i :: 0 <= i < |a| ==> !HasRow(db, s, a[i])
    requires forall i :: 0 <= i < |b| ==> !HasRow(db, s, b[i])
    ensures forall i :: 0 <= i < |a + b| ==> !HasRow(db, s, (a + b)[i])
  {
  }

  lemma AppendToEither(all: seq<TestId>, done: seq<TestId>, rest: seq<TestId>, t: TestId)
    requires multiset(all) == multiset(done) + multiset(rest)
    ensures multiset(all + [t]) == multiset(done + [t]) + multiset(rest)
    ensures multiset(all + [t]) == multiset(done) + multiset(rest + [t])
  {
  }

  lemma {:induction false} ResidueSplitsIntended(ts: seq<TestId>, db: Db, s: ShardId)
    requires forall i :: 0 <= i < |ts| ==> SeparatorFree(ts[i])
    ensures multiset(ts) == multiset(DoneTests(ts, db, s)) + multiset(Residue(ts, Recorded(db, s)))
  {
    if ts != [] {
      var front, t := ts[..|ts| - 1], ts[|ts| - 1];
      assert ts == front + [t];
      ResidueSplitsIntended(front, db, s);
      RecordedIff(db, s, t);
      var done, rest := DoneTests(front, db, s), Residue(front, Recorded(db, s));
      AppendToEither(front, done, rest, t);
      assert done + [] == done && rest + [] == rest;
    }
  }

  /** Recorded tests and residue share the intended tests out between them. */
  lemma ResidueSplits(ts: seq<TestId>, db: Db, s: ShardId)
    requires forall i :: 0 <= i < |ts| ==> SeparatorFree(ts[i])
    ensures var rest := Residue(ts, Recorded(db, s));
            && multiset(ts) == multiset(DoneTests(ts, db, s)) + multiset(rest)
            && forall i :: 0 <= i < |rest| ==> !HasRow(db, s, rest[i])
  {
    ResidueSplitsIntended(ts, db, s);
    ResidueIsUnrecorded(ts, db, s);
  }

  lemma {:induction false} PayloadIsSeparatorFree(ts: seq<TestId>, index: nat, total: nat)
    requires total > 0 && forall i :: 0 <= i < |ts| ==> SeparatorFree(ts[i])
    ensures forall i :: 0 <= i < |Payload(ts, index, total)| ==> SeparatorFree(Payload(ts, index, total)[i])
  {
    if ts != [] { PayloadIsSeparatorFree(ts[..|ts| - 1], index, total); }
  }

  /** The index a replacement gets is new while the shards are numbered from 0. */
  lemma ReplacementCanBeInserted(db: Db, r: RunId, ids: seq<ShardId>, replacement: ShardId)
    requires Numbered(db, r, ids) && replacement !in db.shards
    ensures CanInsertShard(db, replacement, r, |ShardsOf(db, r)|)
  {
    ListingCounts(ids, ShardsOf(db, r));
    forall s | s in db.shards && db.shards[s].run == r ensures db.shards[s].index != |ids| {
      assert s in ShardsOf(db, r);
      var i :| 0 <= i < |ids| && ids[i] == s;
    }
  }

  /** A committed reschedule marks the shard and stores its residue where the polling
      workers look for the tests of the replacement. */
  lemma ReplacementLoadsResidue(db: Db, s: ShardId, replacement: ShardId, rest: seq<TestId>)
    requires s in db.shards
    requires CanInsertShard(db, replacement, db.shards[s].run, |ShardsOf(db, db.shards[s].run)|)
    ensures var next := Exec(db, RescheduleRest(s, replacement, rest));
            && s in next.shards && next.shards[s].rescheduled
            && replacement in next.shards && next.shards[replacement].run == db.shards[s].run
            && db.shards[s].run in next.runs
            && (rest != [] ==> WorkerTests(next, replacement) == rest)
  {
    var next := Replace(db, s, replacement, rest);
    assert next.runs[db.shards[s].run].reshards[replacement] == rest;
  }

  /** The residue a reschedule of shard ids[i] computes and what it then commits, while
      the shards are numbered. */
  lemma RescheduleSplits(db: Db, next: Db, r: RunId, ids: seq<ShardId>, i: nat, replacement: ShardId)
    requires Numbered(db, r, ids) && Numbered(next, r, ids) && i < |ids| && replacement !in next.shards
    requires forall j :: 0 <= j < |db.runs[r].manifest| ==> SeparatorFree(db.runs[r].manifest[j])
    ensures var s := ids[i];
            var loaded := Payload(db.runs[r].manifest, i, |ids|);
            var rest := Residue(loaded, Recorded(db, s));
            var last := Exec(next, RescheduleRest(s, replacement, rest));
            && s in last.shards && last.shards[s].rescheduled
            && multiset(loaded) == multiset(DoneTests(loaded, db, s)) + multiset(rest)
            && (forall j :: 0 <= j < |rest| ==> !HasRow(db, s, rest[j]))
            && replacement in last.shards && last.shards[replacement].run == r && r in last.runs
            && (rest != [] ==> WorkerTests(last, replacement) == rest)
  {
    var loaded := Payload(db.runs[r].manifest, i, |ids|);
    PayloadIsSeparatorFree(db.runs[r].manifest, i, |ids|);
    ResidueSplits(loaded, db, ids[i]);
    ReplacementCanBeInserted(next, r, ids, replacement);
    ReplacementLoadsResidue(next, ids[i], replacement, Residue(loaded, Recorded(db, ids[i])));
  }

  lemma {:induction false} RowsAreKept(db: Db, trace: seq<Statement>, s: ShardId, t: TestId)
    requires HasRow(db, s, t)
    ensures HasRow(ExecAll(db, trace), s, t)
    decreases |trace|
  {
    if trace != [] { RowsAreKept(Exec(db, trace[0]), trace[1..], s, t); }
  }

  /** The first reschedule in a run. The shard was claimed at one moment of the trace, the
      transaction read its tests and results at another and commits at the end; whatever
      else happened, what the shard loaded splits into the tests that were recorded for
      it when read and the tests the polling workers load for its replacement. Tests
      recorded between the read and the commit run twice; none is lost. */
  lemma FirstRescheduleSplitsPayload(db: Db, trace: seq<Statement>, claimed: nat, read: nat, r: RunId,
                                     ids: seq<ShardId>, i: nat, replacement: ShardId)
    requires Numbered(db, r, ids) && ShardsOf(ExecAll(db, trace), r) == ShardsOf(db, r)
    requires i < |ids| && claimed <= |trace| && read <= |trace| && replacement !in ExecAll(db, trace).shards
    requires forall j :: 0 <= j < |db.runs[r].manifest| ==> SeparatorFree(db.runs[r].manifest[j])
    ensures var loading, reading, s := ExecAll(db, trace[..claimed]), ExecAll(db, trace[..read]), ids[i];
            && s in loading.shards && loading.shards[s].run in loading.runs
            && s in reading.shards && reading.shards[s].run in reading.runs
            && var loaded := WorkerTests(loading, s);
               var rest := Residue(Dealt(reading, s), Recorded(reading, s));
               var last := Exec(ExecAll(db, trace), RescheduleRest(s, replacement, rest));
               && s in last.shards && last.shards[s].rescheduled
               && multiset(loaded) == multiset(DoneTests(loaded, reading, s)) + multiset(rest)
               && (forall j :: 0 <= j < |rest| ==> !HasRow(reading, s, rest[j]))
               && replacement in last.shards && last.shards[replacement].run in last.runs
               && (rest != [] ==> WorkerTests(last, replacement) == rest)
    ensures forall t :: HasRow(ExecAll(db, trace[..read]), ids[i], t) ==> HasRow(ExecAll(db, trace), ids[i], t)
  {
    LoadedAtAnyMoment(db, trace, claimed, r, ids, i);
    LoadedAtAnyMoment(db, trace, read, r, ids, i);
    NumberingLasts(db, trace, r, ids);
    RowsKeepTheirNumber(db, trace[..read], r, ids[i]);
    RescheduleSplits(ExecAll(db, trace[..read]), ExecAll(db, trace), r, ids, i, replacement);
    RunSplits(db, trace, read);
    forall t | HasRow(ExecAll(db, trace[..read]), ids[i], t) ensures HasRow(ExecAll(db, trace), ids[i], t) {
      RowsAreKept(ExecAll(db, trace[..read]), trace[read..], ids[i], t);
    }
  }

  lemma ReplacementIsDealt(db: Db, r: RunId, s: ShardId, replacement: ShardId, rest: seq<TestId>, k: nat)
    requires s in db.shards && db.shards[s].run == r && k == |ShardsOf(db, r)|
    requires CanInsertShard(db, replacement, r, k)
    ensures var next := Replace(db, s, replacement, rest);
            && replacement in next.shards && next.shards[replacement].run == r && r in next.runs
            && Dealt(next, replacement) == Payload(db.runs[r].manifest, k, k + 1)
  {
    var next := Replace(db, s, replacement, rest);
    assert ShardsOf(next, r) == ShardsOf(db, r) + {replacement};
    assert next.shards[replacement].index == k && next.runs[r].manifest == db.runs[r].manifest;
  }

  /** The gRPC service does not look at the stored tests: it deals the replacement a
      share of the whole manifest instead. */
  lemma GrpcDealsReplacement(db: Db, r: RunId, ids: seq<ShardId>, i: nat, replacement: ShardId, rest: seq<TestId>)
    requires Numbered(db, r, ids) && i < |ids| && replacement !in db.shards && rest != []
    ensures ids[i] in db.shards && db.shards[ids[i]].run == r
    ensures Exec(db, RescheduleRest(ids[i], replacement, rest)) == Replace(db, ids[i], replacement, rest)
    ensures var next := Replace(db, ids[i], replacement, rest);
            && replacement in next.shards && next.shards[replacement].run in next.runs
            && WorkerTests(next, replacement) == rest
            && Dealt(next, replacement) == Payload(db.runs[r].manifest, |ids|, |ids| + 1)
  {
    var k := |ids|;
    ListingCounts(ids, ShardsOf(db, r));
    ReplacementCanBeInserted(db, r, ids, replacement);
    ReplacementLoadsResidue(db, ids[i], replacement, rest);
    ReplacementIsDealt(db, r, ids[i], replacement, rest, k);
  }

  lemma {:induction false} ResidueMember(ts: seq<TestId>, recorded: set<string>, t: TestId)
    ensures t in Residue(ts, recorded) <==> t in ts && JoinKey(t) !in recorded
  {
    if ts != [] {
      ResidueMember(ts[..|ts| - 1], recorded, t);
      assert ts == ts[..|ts| - 1] + [ts[|ts| - 1]];
    }
  }

  /** With two shards or more, the deal of a replacement equals the residue of shard i
      only in one case: shard 0, one or two tests dealt per shard, and the second test
      of shard 0 the only one left. */
  lemma DealIsResidueIff(m: seq<TestId>, i: nat, k: nat, rest: seq<TestId>)
    requires i < k && 2 <= k && Distinct(m) && rest != []
    requires forall t :: t in rest ==> t in Payload(m, i, k)
    ensures Payload(m, k, k + 1) == rest <==> i == 0 && k < |m| <= 2 * k + 1 && rest == [m[k]]
  {
    if |m| <= k {
      NothingBeyondTheEnd(m, k, k + 1);
    } else {
      DealHoldsItsFirst(m, i, k, rest);
      if |m| <= 2 * k + 1 {
        OneTurn(m, k, k + 1);
      } else {
        DealHoldsItsSecond(m, i, k, rest);
      }
    }
  }

  lemma DealHoldsItsFirst(m: seq<TestId>, i: nat, k: nat, rest: seq<TestId>)
    requires i < k < |m| && Distinct(m) && forall t :: t in rest ==> t in Payload(m, i, k)
    ensures Payload(m, k, k + 1) == rest ==> i == 0
  {
    BelowFirstRepeat(k, k, k + 1);
    InPayloadIff(m, k, k, k + 1);
    InPayloadIff(m, k, i, k);
    NextMod(0, k);
    if Payload(m, k, k + 1) == rest {
      assert m[k] in rest;
    }
  }

  lemma DealHoldsItsSecond(m: seq<TestId>, i: nat, k: nat, rest: seq<TestId>)
    requires i < k && 2 <= k && 2 * k + 1 < |m| && Distinct(m) && forall t :: t in rest ==> t in Payload(m, i, k)
    requires Payload(m, k, k + 1) == rest ==> i == 0
    ensures Payload(m, k, k + 1) != rest
  {
    var p := 2 * k + 1;
    NextMod(k, k + 1);
    InPayloadIff(m, p, k, k + 1);
    InPayloadIff(m, p, i, k);
    TwoRoundsAndOne(k);
    assert m[p] in rest ==> m[p] in Payload(m, i, k);
  }

  /** With a single shard the deal is every other test, so it equals the residue exactly
      when the others, and only they, are recorded. */
  lemma SingleShardIff(m: seq<TestId>, recorded: set<string>)
    requires Distinct(m)
    ensures Payload(m, 1, 2) == Residue(m, recorded) <==>
            forall p :: 0 <= p < |m| ==> (JoinKey(m[p]) in recorded <==> p % 2 == 0)
  {
    if Payload(m, 1, 2) == Residue(m, recorded) {
      forall p | 0 <= p < |m| ensures JoinKey(m[p]) in recorded <==> p % 2 == 0 {
        InPayloadIff(m, p, 1, 2);
        ResidueMember(m, recorded, m[p]);
      }
    } else if forall p :: 0 <= p < |m| ==> (JoinKey(m[p]) in recorded <==> p % 2 == 0) {
      EveryOtherIsResidue(m, recorded);
    }
  }

  lemma {:induction false} EveryOtherIsResidue(m: seq<TestId>, recorded: set<string>)
    requires forall p :: 0 <= p < |m| ==> (JoinKey(m[p]) in recorded <==> p % 2 == 0)
    ensures Payload(m, 1, 2) == Residue(m, recorded)
  {
    if m != [] { EveryOtherIsResidue(m[..|m| - 1], recorded); }
  }

  lemma {:induction false} WholeManifest<T>(ts: seq<T>)
    ensures Payload(ts, 0, 1) == ts
  {
    if ts != [] {
      WholeManifest(ts[..|ts| - 1]);
      assert ts == ts[..|ts| - 1] + [ts[|ts| - 1]];
    }
  }

  /** When does a gRPC pull of the first replacement load the stored tests? */
  lemma GrpcLoadsResidueIff(db: Db, r: RunId, ids: seq<ShardId>, i: nat, replacement: ShardId, rest: seq<TestId>)
    requires Numbered(db, r, ids) && i < |ids| && replacement !in db.shards && Distinct(db.runs[r].manifest)
    requires rest == Residue(Payload(db.runs[r].manifest, i, |ids|), Recorded(db, ids[i])) != []
    ensures ids[i] in db.shards && db.shards[ids[i]].run in db.runs
    ensures var next, m, k := Replace(db, ids[i], replacement, rest), db.runs[r].manifest, |ids|;
            && replacement in next.shards && next.shards[replacement].run in next.runs
            && (Dealt(next, replacement) == WorkerTests(next, replacement) <==>
                if k == 1 then forall p :: 0 <= p < |m| ==> (JoinKey(m[p]) in Recorded(db, ids[i]) <==> p % 2 == 0)
                else i == 0 && k < |m| <= 2 * k + 1 && rest == [m[k]])
  {
    var m, k := db.runs[r].manifest, |ids|;
    GrpcDealsReplacement(db, r, ids, i, replacement, rest);
    if k == 1 {
      WholeManifest(m);
      SingleShardIff(m, Recorded(db, ids[i]));
    } else {
      forall t | t in rest ensures t in Payload(m, i, k) {
        ResidueMember(Payload(m, i, k), Recorded(db, ids[i]), t);
      }
      DealIsResidueIff(m, i, k, rest);
    }
  }

  /** Stored replacement tests are never overwritten. */
  lemma {:induction false} StoredTestsStay(db: Db, trace: seq<Statement>, s: ShardId)
    requires s in db.shards && db.shards[s].run in db.runs
    requires s in db.runs[db.shards[s].run].reshards
    ensures var last := ExecAll(db, trace);
            && s in last.shards && last.shards[s].run == db.shards[s].run && db.shards[s].run in last.runs
            && s in last.runs[db.shards[s].run].reshards
            && last.runs[db.shards[s].run].reshards[s] == db.runs[db.shards[s].run].reshards[s]
    decreases |trace|
  {
    if trace != [] {
      ShardsNeverRevert(db, trace[0], s);
      StoredTestsStay(Exec(db, trace[0]), trace[1..], s);
    }
  }

  /** Does test p stand at a turn of the replacement, numbered k of total, exactly when it
      stands at a turn of shard i of k and is not recorded? */
  predicate SameTurn(m: seq<TestId>, p: nat, i: nat, k: nat, total: nat, recorded: set<string>)
    requires p < |m| && 0 < k && 0 < total
  {
    p % total == k <==> p % k == i && JoinKey(m[p]) !in recorded
  }

  /** Under any later shard count, what the replacement is dealt equals its stored tests
      exactly when its turns are those of the unrecorded tests of shard i. */
  lemma DealIsStoredIff(m: seq<TestId>, i: nat, k: nat, total: nat, recorded: set<string>)
    requires i < k < total && Distinct(m)
    ensures Payload(m, k, total) == Residue(Payload(m, i, k), recorded) <==>
            forall p: nat :: p < |m| ==> SameTurn(m, p, i, k, total, recorded)
  {
    if Payload(m, k, total) == Residue(Payload(m, i, k), recorded) {
      forall p: nat | p < |m| ensures SameTurn(m, p, i, k, total, recorded) {
        InPayloadIff(m, p, k, total);
        InPayloadIff(m, p, i, k);
        ResidueMember(Payload(m, i, k), recorded, m[p]);
      }
    }
    if forall p: nat :: p < |m| ==> SameTurn(m, p, i, k, total, recorded) {
      SameTurnsSameTests(m, |m|, i, k, total, recorded);
      assert m[..|m|] == m;
    }
  }

  lemma {:induction false} SameTurnsSameTests(m: seq<TestId>, n: nat, i: nat, k: nat, total: nat, recorded: set<string>)
    requires i < k < total && n <= |m|
    requires forall p: nat :: p < |m| ==> SameTurn(m, p, i, k, total, recorded)
    ensures Payload(m[..n], k, total) == Residue(Payload(m[..n], i, k), recorded)
  {
    if n > 0 {
      var p := n - 1;
      SameTurnsSameTests(m, p, i, k, total, recorded);
      var mine := PrefixPayload(m, n, p, k, total);
      var his := PrefixPayload(m, n, p, i, k);
      assert SameTurn(m, p, i, k, total, recorded);
      TurnOfOneMore(Payload(m[..p], k, total), Payload(m[..p], i, k), m[p], mine, his, recorded);
    }
  }

  lemma PrefixPayload(m: seq<TestId>, n: nat, p: nat, index: nat, total: nat) returns (turn: bool)
    requires 0 < total && n == p + 1 <= |m|
    ensures turn <==> p % total == index
    ensures Payload(m[..n], index, total) == Payload(m[..p], index, total) + if turn then [m[p]] else []
  {
    turn := p % total == index;
    assert m[..n] == m[..p] + [m[p]];
    PayloadOfOneMore(m[..p], m[p], index, total, p % total);
  }

  lemma TurnOfOneMore(a: seq<TestId>, b: seq<TestId>, t: TestId, mine: bool, his: bool, recorded: set<string>)
    requires a == Residue(b, recorded) && (mine <==> his && JoinKey(t) !in recorded)
    ensures a + (if mine then [t] else []) == Residue(b + (if his then [t] else []), recorded)
  {
    ResidueOfOneMore(b, t, recorded);
    assert b + [] == b && a + [] == a;
  }

  lemma ResidueOfOneMore(ts: seq<TestId>, t: TestId, recorded: set<string>)
    ensures Residue(ts + [t], recorded) == Residue(ts, recorded) + if JoinKey(t) in recorded then [] else [t]
  {
    assert (ts + [t])[..|ts|] == ts;
  }

  /** The same at any moment after the append, when further shards may have come. */
  lemma GrpcLoadsResidueLaterIff(db: Db, r: RunId, ids: seq<ShardId>, i: nat, replacement: ShardId,
                                 rest: seq<TestId>, later: seq<Statement>)
    requires Numbered(db, r, ids) && i < |ids| && replacement !in db.shards && Distinct(db.runs[r].manifest)
    requires rest == Residue(Payload(db.runs[r].manifest, i, |ids|), Recorded(db, ids[i])) != []
    ensures ids[i] in db.shards && db.shards[ids[i]].run == r
    ensures var last := ExecAll(Replace(db, ids[i], replacement, rest), later);
            var m, k, total := db.runs[r].manifest, |ids|, |ShardsOf(last, r)|;
            && total > k
            && replacement in last.shards && last.shards[replacement].run in last.runs
            && (Dealt(last, replacement) == WorkerTests(last, replacement) <==>
                forall p: nat :: p < |m| ==> SameTurn(m, p, i, k, total, Recorded(db, ids[i])))
  {
    var next := Replace(db, ids[i], replacement, rest);
    ListingCounts(ids, ShardsOf(db, r));
    ReplacementCanBeInserted(db, r, ids, replacement);
    ReplacementRow(db, r, ids[i], replacement, rest, |ids|);
    var total := LaterTests(next, later, r, replacement, |ids|, rest);
    DealIsStoredIff(db.runs[r].manifest, i, |ids|, total, Recorded(db, ids[i]));
  }

  /** What a replacement numbered k is dealt and stores at a later moment. */
  lemma LaterTests(next: Db, later: seq<Statement>, r: RunId, s: ShardId, k: nat, rest: seq<TestId>)
    returns (total: nat)
    requires r in next.runs && s in next.shards && next.shards[s].run == r && next.shards[s].index == k
    requires s in next.runs[r].reshards && next.runs[r].reshards[s] == rest != [] && k < |ShardsOf(next, r)|
    ensures var last := ExecAll(next, later);
            && total == |ShardsOf(last, r)| > k
            && s in last.shards && last.shards[s].run == r && r in last.runs
            && WorkerTests(last, s) == rest && Dealt(last, s) == Payload(next.runs[r].manifest, k, total)
  {
    StoredTestsStay(next, later, s);
    RowsKeepTheirNumber(next, later, r, s);
    ShardsOnlyAccumulate(next, later, r);
    SubsetIsNotLarger(ShardsOf(next, r), ShardsOf(ExecAll(next, later), r));
    total := |ShardsOf(ExecAll(next, later), r)|;
  }

  lemma ReplacementRow(db: Db, r: RunId, s: ShardId, replacement: ShardId, rest: seq<TestId>, k: nat)
    requires s in db.shards && db.shards[s].run == r && k == |ShardsOf(db, r)|
    requires CanInsertShard(db, replacement, r, k)
    ensures var next := Replace(db, s, replacement, rest);
            && r in next.runs && next.runs[r].manifest == db.runs[r].manifest
            && replacement in next.shards && next.shards[replacement].run == r && next.shards[replacement].index == k
            && replacement in next.runs[r].reshards && next.runs[r].reshards[replacement] == rest
            && |ShardsOf(next, r)| == k + 1
  {
    assert ShardsOf(Replace(db, s, replacement, rest), r) == ShardsOf(db, r) + {replacement};
  }

  // ---------------------------------------- after a shard was appended

  lemma {:induction false} RowsKeepTheirNumber(db: Db, trace: seq<Statement>, r: RunId, s: ShardId)
    requires r in db.runs && s in db.shards
    ensures var last := ExecAll(db, trace);
            && s in last.shards && last.shards[s].run == db.shards[s].run
            && last.shards[s].index == db.shards[s].index
            && r in last.runs && last.runs[r].manifest == db.runs[r].manifest
    decreases |trace|
  {
    if trace != [] {
      ShardsNeverRevert(db, trace[0], s);
      StoredTestsAreForNewShards(db, trace[0], r);
      RowsKeepTheirNumber(Exec(db, trace[0]), trace[1..], r, s);
    }
  }

  /** Once shards were appended to the run, the tests a reschedule intends for an
      original shard are those it was planned with exactly when the manifest ended
      before that shard's second turn. */
  lemma IntendedIsPlannedIff(db: Db, trace: seq<Statement>, r: RunId, ids: seq<ShardId>, i: nat)
    requires Numbered(db, r, ids) && i < |ids| && Distinct(db.runs[r].manifest)
    requires ShardsOf(ExecAll(db, trace), r) != ShardsOf(db, r)
    ensures var last := ExecAll(db, trace);
            && ids[i] in last.shards && last.shards[ids[i]].run in last.runs
            && (|db.runs[r].manifest| <= i + |ids| <==>
                Dealt(last, ids[i]) == Payload(db.runs[r].manifest, i, |ids|))
  {
    ShardsOnlyAccumulate(db, trace, r);
    ProperSubsetIsSmaller(ShardsOf(db, r), ShardsOf(ExecAll(db, trace), r));
    ListingCounts(ids, ShardsOf(db, r));
    RowsKeepTheirNumber(db, trace, r, ids[i]);
    PayloadKeptIff(db.runs[r].manifest, i, |ids|, |ShardsOf(ExecAll(db, trace), r)|);
  }

  /** Otherwise the test of that second turn is lost: the shard was planned with it,
      and no later reschedule of the shard puts it into the residue. */
  lemma SecondTurnIsLost(db: Db, trace: seq<Statement>, r: RunId, ids: seq<ShardId>, i: nat)
    requires Numbered(db, r, ids) && i < |ids| && Distinct(db.runs[r].manifest)
    requires ShardsOf(ExecAll(db, trace), r) != ShardsOf(db, r)
    requires i + |ids| < |db.runs[r].manifest|
    ensures var last, t := ExecAll(db, trace), db.runs[r].manifest[i + |ids|];
            && t in Payload(db.runs[r].manifest, i, |ids|)
            && ids[i] in last.shards && last.shards[ids[i]].run in last.runs
            && t !in Residue(Dealt(last, ids[i]), Recorded(last, ids[i]))
  {
    var last, manifest := ExecAll(db, trace), db.runs[r].manifest;
    ShardsOnlyAccumulate(db, trace, r);
    ProperSubsetIsSmaller(ShardsOf(db, r), ShardsOf(last, r));
    ListingCounts(ids, ShardsOf(db, r));
    RowsKeepTheirNumber(db, trace, r, ids[i]);
    SecondTurn(manifest, i, |ids|, |ShardsOf(last, r)|, i + |ids|);
    ResidueMember(Dealt(last, ids[i]), Recorded(last, ids[i]), manifest[i + |ids|]);
  }

  lemma SecondTurn(m: seq<TestId>, i: nat, k: nat, k': nat, p: nat)
    requires i < k < k' && p == i + k < |m| && Distinct(m)
    ensures m[p] in Payload(m, i, k) && m[p] !in Payload(m, i, k')
  {
    NextMod(i, k);
    BelowFirstRepeat(p, i, k');
    InPayloadIff(m, p, i, k);
    InPayloadIff(m, p, i, k');
  }

  // ------------------------------------------------- the marker

  /** Does the statement commit a reschedule of shard s? */
  predicate Reschedules(db: Db, stmt: Statement, s: ShardId)
  {
    && s in db.shards
    && (stmt == RescheduleDone(s) ||
        (stmt.RescheduleRest? && stmt.shard == s &&
         CanInsertShard(db, stmt.replacement, db.shards[s].run, |ShardsOf(db, db.shards[s].run)|)))
  }

  lemma MarkerIsKept(db: Db, stmt: Statement, s: ShardId)
    requires s in db.shards
    ensures var next := Exec(db, stmt);
            && s in next.shards
            && (next.shards[s].rescheduled <==> db.shards[s].rescheduled || Reschedules(db, stmt, s))
  {
  }
}

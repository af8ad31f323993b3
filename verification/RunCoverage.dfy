/** Which tests the shards of a run load, and what a reschedule leaves of them. */
module RunCoverage {
  import opened Wrappers
  import opened RunStates
  import opened RoundRobin

  /** The tests recorded for a preempted shard are compared by this key. */
  function JoinKey(t: TestId): string
  {
    t.path + "|" + t.name + "|" + t.paramsHash
  }

  function Recorded(db: Db, s: ShardId): set<string>
  {
    set e | e in db.executions && e.0 == s :: JoinKey(e.1)
  }

  /** The tests of ts, in order, whose key is not among the recorded keys. */
  function Residue(ts: seq<TestId>, recorded: set<string>): seq<TestId>
  {
    if ts == [] then []
    else
      var last := |ts| - 1;
      Residue(ts[..last], recorded) + if JoinKey(ts[last]) in recorded then [] else [ts[last]]
  }

  /** The manifest of the shard's run, dealt round-robin over the shards it has now. */
  function Dealt(db: Db, s: ShardId): seq<TestId>
    requires s in db.shards && db.shards[s].run in db.runs
  {
    var r := db.shards[s].run;
    assert s in ShardsOf(db, r);
    Payload(db.runs[r].manifest, db.shards[s].index, |ShardsOf(db, r)|)
  }

  /** What the polling worker loads: the stored tests of a replacement shard, or
      else the dealt ones. */
  function WorkerTests(db: Db, s: ShardId): seq<TestId>
    requires s in db.shards && db.shards[s].run in db.runs
  {
    var stored := db.runs[db.shards[s].run].reshards;
    if s in stored && stored[s] != [] then stored[s] else Dealt(db, s)
  }

  // -------------------------------------------- the key separates tests

  predicate SeparatorFree(t: TestId)
  {
    '|' !in t.path && '|' !in t.name && '|' !in t.paramsHash
  }

  ghost predicate KeyIdentifies(t: TestId)
  {
    forall u: TestId :: JoinKey(u) == JoinKey(t) ==> u == t
  }

  function Bars(s: string): nat
  {
    multiset(s)['|']
  }

  lemma BarsOfKey(t: TestId)
    ensures Bars(JoinKey(t)) == Bars(t.path) + Bars(t.name) + Bars(t.paramsHash) + 2
  {
    assert JoinKey(t) == t.path + ("|" + (t.name + ("|" + t.paramsHash)));
  }

  lemma FirstFieldIsUnique(a: string, x: string, b: string, y: string)
    requires '|' !in a && '|' !in b && a + "|" + x == b + "|" + y
    ensures a == b && x == y
  {
    var k := a + "|" + x;
    assert k == b + "|" + y;
    assert forall i :: 0 <= i < |a| ==> k[i] == a[i];
    assert forall i :: 0 <= i < |b| ==> k[i] == b[i];
    assert k[|a|] == '|' && k[|b|] == '|';
    assert |a| == |b|;
    assert a == k[..|a|] && b == k[..|b|];
    assert x == k[|a| + 1..] && y == k[|b| + 1..];
  }

  lemma SplitAtBar(s: string) returns (a: string, b: string)
    requires '|' in s
    ensures s == a + "|" + b
  {
    var i :| 0 <= i < |s| && s[i] == '|';
    a, b := s[..i], s[i + 1..];
    assert s == a + "|" + b;
  }

  lemma AnotherTestWithThisKey(t: TestId) returns (u: TestId)
    requires !SeparatorFree(t)
    ensures u != t && JoinKey(u) == JoinKey(t)
  {
    if '|' in t.path {
      var a, b := SplitAtBar(t.path);
      u := TestId(a, b + "|" + t.name, t.paramsHash);
      assert |a| < |t.path|;
      assert JoinKey(u) == a + "|" + b + "|" + t.name + "|" + t.paramsHash == JoinKey(t);
    } else if '|' in t.name {
      var a, b := SplitAtBar(t.name);
      u := TestId(t.path, a, b + "|" + t.paramsHash);
      assert |a| < |t.name|;
      assert JoinKey(u) == t.path + "|" + a + "|" + b + "|" + t.paramsHash == JoinKey(t);
    } else {
      var a, b := SplitAtBar(t.paramsHash);
      u := TestId(t.path, t.name + "|" + a, b);
      assert |b| < |t.paramsHash|;
      assert JoinKey(u) == t.path + "|" + t.name + "|" + a + "|" + b == JoinKey(t);
    }
  }

  lemma SameKeySameBars(t: TestId, u: TestId)
    requires JoinKey(u) == JoinKey(t) && SeparatorFree(t)
    ensures SeparatorFree(u)
  {
    BarsOfKey(t);
    BarsOfKey(u);
  }

  lemma SeparatorFreeKeyIsUnique(t: TestId, u: TestId)
    requires JoinKey(u) == JoinKey(t) && SeparatorFree(t)
    ensures u == t
  {
    SameKeySameBars(t, u);
    var restT, restU := t.name + "|" + t.paramsHash, u.name + "|" + u.paramsHash;
    assert t.path + "|" + restT == JoinKey(t);
    assert u.path + "|" + restU == JoinKey(u);
    FirstFieldIsUnique(t.path, restT, u.path, restU);
    FirstFieldIsUnique(t.name, t.paramsHash, u.name, u.paramsHash);
  }

  /** A key tells its test apart from every other test exactly when no field of the
      test contains the separator. */
  lemma KeyIdentifiesIff(t: TestId)
    ensures KeyIdentifies(t) <==> SeparatorFree(t)
  {
    if SeparatorFree(t) {
      forall u: TestId | JoinKey(u) == JoinKey(t) ensures u == t {
        SeparatorFreeKeyIsUnique(t, u);
      }
    } else {
      var u := AnotherTestWithThisKey(t);
    }
  }

  // ---------------------------------------------- before any append

  predicate Lists(ids: seq<ShardId>, shards: set<ShardId>)
  {
    Distinct(ids) && shards == set i | 0 <= i < |ids| :: ids[i]
  }

  lemma {:induction false} ListingCounts(ids: seq<ShardId>, shards: set<ShardId>)
    requires Lists(ids, shards)
    ensures |shards| == |ids|
    decreases |ids|
  {
    if ids == [] {
      assert shards == {};
    } else {
      var last := |ids| - 1;
      var fewer := set i | 0 <= i < last :: ids[..last][i];
      assert shards == fewer + {ids[last]};
      assert ids[last] !in fewer;
      ListingCounts(ids[..last], fewer);
    }
  }

  /** The shards of run r are ids, numbered from 0 in this order, none of them a
      replacement. */
  predicate Numbered(db: Db, r: RunId, ids: seq<ShardId>)
  {
    && r in db.runs && Lists(ids, ShardsOf(db, r))
    && (forall i :: 0 <= i < |ids| ==> ids[i] in db.shards && db.shards[ids[i]].run == r)
    && (forall i :: 0 <= i < |ids| ==> db.shards[ids[i]].index == i)
    && (forall i :: 0 <= i < |ids| ==> ids[i] !in db.runs[r].reshards)
  }

  lemma NumberedTests(db: Db, r: RunId, ids: seq<ShardId>, i: nat)
    requires Numbered(db, r, ids) && i < |ids|
    ensures WorkerTests(db, ids[i]) == Dealt(db, ids[i]) == Payload(db.runs[r].manifest, i, |ids|)
  {
    ListingCounts(ids, ShardsOf(db, r));
    assert ids[i] in db.shards && db.shards[ids[i]].index == i;
  }

  lemma ShardsAreNeverDeleted(db: Db, stmt: Statement, r: RunId)
    ensures ShardsOf(db, r) <= ShardsOf(Exec(db, stmt), r)
  {
    forall s | s in ShardsOf(db, r) ensures s in ShardsOf(Exec(db, stmt), r) {
      ShardsNeverRevert(db, stmt, s);
    }
  }

  lemma {:induction false} ShardsOnlyAccumulate(db: Db, trace: seq<Statement>, r: RunId)
    ensures ShardsOf(db, r) <= ShardsOf(ExecAll(db, trace), r)
    decreases |trace|
  {
    if trace != [] {
      ShardsAreNeverDeleted(db, trace[0], r);
      ShardsOnlyAccumulate(Exec(db, trace[0]), trace[1..], r);
    }
  }

  /** A statement stores tests only under the shard it adds to the run, and leaves
      the manifest alone. */
  lemma StoredTestsAreForNewShards(db: Db, stmt: Statement, r: RunId)
    requires r in db.runs
    ensures var next := Exec(db, stmt);
            && r in next.runs && next.runs[r].manifest == db.runs[r].manifest
            && (ShardsOf(next, r) == ShardsOf(db, r) ==> next.runs[r].reshards == db.runs[r].reshards)
  {
    var next := Exec(db, stmt);
    if stmt.RescheduleRest? && next != db && db.shards[stmt.shard].run == r {
      assert stmt.replacement in ShardsOf(next, r);
      assert stmt.replacement !in ShardsOf(db, r);
    }
  }

  lemma NumberingIsKept(db: Db, stmt: Statement, r: RunId, ids: seq<ShardId>)
    requires Numbered(db, r, ids) && ShardsOf(Exec(db, stmt), r) == ShardsOf(db, r)
    ensures Numbered(Exec(db, stmt), r, ids)
    ensures Exec(db, stmt).runs[r].manifest == db.runs[r].manifest
  {
    var next := Exec(db, stmt);
    StoredTestsAreForNewShards(db, stmt, r);
    forall i | 0 <= i < |ids|
      ensures ids[i] in next.shards && next.shards[ids[i]].run == r && next.shards[ids[i]].index == i {
      ShardsNeverRevert(db, stmt, ids[i]);
    }
  }

  /** While no shard is appended to the run, its shards keep their numbers. */
  lemma {:induction false} NumberingLasts(db: Db, trace: seq<Statement>, r: RunId, ids: seq<ShardId>)
    requires Numbered(db, r, ids) && ShardsOf(ExecAll(db, trace), r) == ShardsOf(db, r)
    ensures Numbered(ExecAll(db, trace), r, ids)
    ensures ExecAll(db, trace).runs[r].manifest == db.runs[r].manifest
    decreases |trace|
  {
    if trace != [] {
      var next := Exec(db, trace[0]);
      ShardsAreNeverDeleted(db, trace[0], r);
      ShardsOnlyAccumulate(next, trace[1..], r);
      NumberingIsKept(db, trace[0], r, ids);
      NumberingLasts(next, trace[1..], r, ids);
    }
  }

  lemma {:induction false} RunSplits(db: Db, trace: seq<Statement>, t: nat)
    requires t <= |trace|
    ensures ExecAll(db, trace) == ExecAll(ExecAll(db, trace[..t]), trace[t..])
    decreases |trace|
  {
    if t == 0 {
      assert trace[0..] == trace;
    } else {
      assert trace[..t][0] == trace[0] && trace[..t][1..] == trace[1..][..t - 1];
      assert trace[1..][t - 1..] == trace[t..];
      RunSplits(Exec(db, trace[0]), trace[1..], t - 1);
    }
  }

  /** Shard ids[i] loads the same tests at every moment of a trace that appends no
      shard to the run. */
  lemma LoadedAtAnyMoment(db: Db, trace: seq<Statement>, t: nat, r: RunId, ids: seq<ShardId>, i: nat)
    requires Numbered(db, r, ids) && ShardsOf(ExecAll(db, trace), r) == ShardsOf(db, r)
    requires i < |ids| && t <= |trace|
    ensures var later := ExecAll(db, trace[..t]);
            && Numbered(later, r, ids)
            && WorkerTests(later, ids[i]) == Dealt(later, ids[i]) == Payload(db.runs[r].manifest, i, |ids|)
  {
    RunSplits(db, trace, t);
    ShardsOnlyAccumulate(db, trace[..t], r);
    ShardsOnlyAccumulate(ExecAll(db, trace[..t]), trace[t..], r);
    NumberingLasts(db, trace[..t], r, ids);
    NumberedTests(ExecAll(db, trace[..t]), r, ids, i);
  }

  /** The tests that shard ids[i] loads when it is claimed after times[i] statements. */
  function LoadedAt(db: Db, trace: seq<Statement>, times: seq<nat>, ids: seq<ShardId>, i: nat): seq<TestId>
  {
    if i < |ids| && i < |times| && times[i] <= |trace| then
      var later := ExecAll(db, trace[..times[i]]);
      if ids[i] in later.shards && later.shards[ids[i]].run in later.runs
      then WorkerTests(later, ids[i]) else []
    else []
  }

  lemma {:induction false} SameFamily<T>(f: nat -> seq<T>, g: nat -> seq<T>, k: nat)
    requires forall i: nat :: i < k ==> f(i) == g(i)
    ensures Together(f, k) == Together(g, k)
  {
    if k > 0 { SameFamily(f, g, k - 1); }
  }

  lemma LoadedIsPayload(db: Db, trace: seq<Statement>, times: seq<nat>, r: RunId, ids: seq<ShardId>, i: nat)
    requires Numbered(db, r, ids) && ShardsOf(ExecAll(db, trace), r) == ShardsOf(db, r)
    requires |times| == |ids| && i < |ids| && times[i] <= |trace|
    ensures LoadedAt(db, trace, times, ids, i) == Payload(db.runs[r].manifest, i, |ids|)
  {
    LoadedAtAnyMoment(db, trace, times[i], r, ids, i);
  }

  /** However statements interleave and whenever each shard is claimed, until a shard
      is appended the tests the shards load partition the manifest. */
  lemma ClaimedTestsPartitionManifest(db: Db, trace: seq<Statement>, times: seq<nat>, r: RunId, ids: seq<ShardId>)
    requires Numbered(db, r, ids) && ids != []
    requires ShardsOf(ExecAll(db, trace), r) == ShardsOf(db, r)
    requires |times| == |ids| && forall i :: 0 <= i < |times| ==> times[i] <= |trace|
    ensures Together((i: nat) => LoadedAt(db, trace, times, ids, i), |ids|) == multiset(db.runs[r].manifest)
  {
    var manifest, total := db.runs[r].manifest, |ids|;
    var f := (i: nat) => LoadedAt(db, trace, times, ids, i);
    var g := (i: nat) => Payload(manifest, i, total);
    assert forall i: nat :: i < total ==> f(i) == g(i) by {
      forall i: nat | i < total ensures f(i) == g(i) {
        LoadedIsPayload(db, trace, times, r, ids, i);
      }
    }
    SameFamily(f, g, total);
    PayloadsPartitionManifest(manifest, total);
  }
}

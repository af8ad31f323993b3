/** The longest-processing-time shard scheduler: what a plan is, and the
    imperative planner that computes it. */
module Scheduler {
  import opened Wrappers
  import opened Packing
  import StableSort

  datatype TestEntry = TestEntry(path: string, name: string, paramsHash: string,
                                 astSignature: string, tags: seq<string>)

  datatype Test = Test(entry: TestEntry, predictedMS: int, isColdStart: bool,
                       flakeProb: real, isQuarantined: bool)

  /** Operator knobs; zero or negative values select defaults. */
  datatype Constraints = Constraints(targetShardSeconds: int, minShards: int, maxShards: int)

  datatype Assignment = Assignment(shardIndex: nat, predictedDurationMS: int, tests: seq<Test>)

  datatype Plan = Plan(assignments: seq<Assignment>, quarantineLane: seq<Test>,
                       totalPredictedMS: int, makespanPredictedMS: int, version: string)

  /** The knobs both callers of the planner pass, when planning and when replaying. */
  const DEFAULT_CONSTRAINTS := Constraints(300, 1, 50)

  const FLOOR_MS := 50
  const PLAN_VERSION := "lpt-v1"
  const EXCLUSIVE_PREFIX := "exclusive-"

  /** The first eight bytes of SHA-256, of which nothing is assumed. */
  type Digest = string -> nat

  function StableHash(sha: Digest, e: TestEntry): nat
  {
    sha(e.path + ['\0'] + e.name + ['\0'] + e.paramsHash)
  }

  // ------------------------------------------------------- what a plan is

  function Normalize(c: Constraints): (r: Constraints)
    ensures r.targetShardSeconds >= 1 && 1 <= r.minShards <= r.maxShards
  {
    var target := if c.targetShardSeconds <= 0 then 300 else c.targetShardSeconds;
    var lo := if c.minShards < 1 then 1 else c.minShards;
    var hi := if c.maxShards < lo then (if lo > 50 then lo else 50) else c.maxShards;
    Constraints(target, lo, hi)
  }

  /** The tests of one lane (quarantined or active), in input order. */
  function Lane(tests: seq<Test>, quarantined: bool): seq<Test>
  {
    if tests == [] then []
    else
      var n := |tests| - 1;
      Lane(tests[..n], quarantined) +
      if tests[n].isQuarantined == quarantined then [tests[n]] else []
  }

  function FloorOf(t: Test): Test
  {
    if t.predictedMS < FLOOR_MS then t.(predictedMS := FLOOR_MS) else t
  }

  function Floored(tests: seq<Test>): seq<Test>
  {
    seq(|tests|, k requires 0 <= k < |tests| => FloorOf(tests[k]))
  }

  function Active(tests: seq<Test>): seq<Test>
  {
    Floored(Lane(tests, false))
  }

  function Durations(tests: seq<Test>): seq<int>
  {
    seq(|tests|, k requires 0 <= k < |tests| => tests[k].predictedMS)
  }

  function CeilDiv(a: int, b: int): int
    requires b > 0
  {
    (a + b - 1) / b
  }

  /** Enough shards for the target, within the configured limits, and no more
      than there are tests. */
  function ShardCount(totalMS: int, tests: nat, c: Constraints): (m: nat)
    requires c.targetShardSeconds >= 1 && 1 <= c.minShards <= c.maxShards
    ensures 1 <= m <= c.maxShards && (tests > 0 ==> m <= tests)
  {
    var desired := if totalMS > 0 then CeilDiv(totalMS, c.targetShardSeconds * 1000) else 1;
    var atLeast := if desired < c.minShards then c.minShards else desired;
    var atMost := if atLeast > c.maxShards then c.maxShards else atLeast;
    if atMost > tests && tests > 0 then tests else atMost
  }

  /** Longest first, then by hash. */
  function LptKey(sha: Digest): Test -> StableSort.Key
  {
    (t: Test) => (-t.predictedMS, StableHash(sha, t.entry))
  }

  function DurationKey(): Test -> StableSort.Key
  {
    (t: Test) => (-t.predictedMS, 0)
  }

  function FirstExclusive(tags: seq<string>): (r: string)
    ensures r == "" || EXCLUSIVE_PREFIX <= r
  {
    if tags == [] then ""
    else if EXCLUSIVE_PREFIX <= tags[0] then tags[0]
    else FirstExclusive(tags[1..])
  }

  function TagOf(t: Test): string
  {
    FirstExclusive(t.entry.tags)
  }

  /** Where packing g put the latest test that carries the tag. */
  function Owner(ts: seq<Test>, g: seq<nat>, tag: string): (r: Option<nat>)
    requires |ts| == |g|
    ensures r.Some? ==> r.value in g
  {
    if ts == [] then None
    else
      var n := |ts| - 1;
      if TagOf(ts[n]) == tag then Some(g[n]) else Owner(ts[..n], g[..n], tag)
  }

  /** The bin for the next test: its tag's bin if it has one already, else the
      first least-loaded bin. */
  function Choose(ts: seq<Test>, g: seq<nat>, tag: string, m: nat): (b: nat)
    requires 0 < m && |ts| == |g| && forall k :: 0 <= k < |g| ==> g[k] < m
    ensures b < m
  {
    var owner := if tag == "" then None else Owner(ts, g, tag);
    if owner.Some? then owner.value else ArgMin(Loads(Durations(ts), g, m))
  }

  function Placement(ts: seq<Test>, m: nat): (g: seq<nat>)
    requires 0 < m
    ensures |g| == |ts| && forall k :: 0 <= k < |g| ==> g[k] < m
  {
    if ts == [] then []
    else
      var n := |ts| - 1;
      var g := Placement(ts[..n], m);
      g + [Choose(ts[..n], g, TagOf(ts[n]), m)]
  }

  function BinTests(ts: seq<Test>, g: seq<nat>, i: nat): seq<Test>
    requires |ts| == |g|
  {
    if ts == [] then []
    else
      var n := |ts| - 1;
      BinTests(ts[..n], g[..n], i) + if g[n] == i then [ts[n]] else []
  }

  function Bins(ts: seq<Test>, g: seq<nat>, m: nat): seq<Assignment>
    requires |ts| == |g|
  {
    seq(m, i requires 0 <= i < m => Assignment(i, Load(Durations(ts), g, i), BinTests(ts, g, i)))
  }

  function DropEmptyTail(bins: seq<Assignment>): (r: seq<Assignment>)
    ensures r <= bins
  {
    if |bins| > 1 && bins[|bins| - 1].tests == [] then DropEmptyTail(bins[..|bins| - 1]) else bins
  }

  function Makespan(bins: seq<Assignment>): (r: int)
    ensures forall k :: 0 <= k < |bins| ==> bins[k].predictedDurationMS <= r
    ensures r == 0 || exists k :: 0 <= k < |bins| && bins[k].predictedDurationMS == r
  {
    if bins == [] then 0
    else
      var n := |bins| - 1;
      var r := Makespan(bins[..n]);
      if bins[n].predictedDurationMS > r then bins[n].predictedDurationMS else r
  }

  function SortedActive(sha: Digest, tests: seq<Test>): seq<Test>
  {
    StableSort.Sort(LptKey(sha), Active(tests))
  }

  /** The number of bins the planner packs into. */
  function BinCount(tests: seq<Test>, c: Constraints): (m: nat)
    ensures m >= 1
  {
    ShardCount(Sum(Durations(Active(tests))), |Active(tests)|, Normalize(c))
  }

  function PackedBins(sha: Digest, tests: seq<Test>, c: Constraints): seq<Assignment>
  {
    var m := BinCount(tests, c);
    var ts := SortedActive(sha, tests);
    Bins(ts, Placement(ts, m), m)
  }

  function PlanOf(sha: Digest, tests: seq<Test>, c: Constraints): Plan
  {
    var bins := PackedBins(sha, tests, c);
    Plan(DropEmptyTail(bins), Lane(tests, true), Sum(Durations(Active(tests))),
         Makespan(bins), PLAN_VERSION)
  }

  function Flatten(assignments: seq<Assignment>): seq<Test>
  {
    if assignments == [] then []
    else Flatten(assignments[..|assignments| - 1]) + assignments[|assignments| - 1].tests
  }

  // ------------------------------------------------------ the planner itself

  /** tags[k] is the first tag that begins with the ten letters of the prefix. */
  predicate IsFirstExclusive(tags: seq<string>, k: nat)
  {
    && k < |tags| && |tags[k]| >= 10 && tags[k][..10] == "exclusive-"
    && forall j :: 0 <= j < k ==> |tags[j]| < 10 || tags[j][..10] != "exclusive-"
  }

  /** No tag begins with it. */
  predicate NoneExclusive(tags: seq<string>)
  {
    forall j :: 0 <= j < |tags| ==> |tags[j]| < 10 || tags[j][..10] != "exclusive-"
  }

  lemma {:induction false} FirstExclusiveIff(tags: seq<string>)
    ensures FirstExclusive(tags) == "" <==> NoneExclusive(tags)
    ensures forall k: nat :: IsFirstExclusive(tags, k) ==> FirstExclusive(tags) == tags[k] && tags[k] != ""
    ensures FirstExclusive(tags) != "" ==> exists k: nat :: IsFirstExclusive(tags, k)
  {
    if tags != [] {
      var rest := tags[1..];
      FirstExclusiveIff(rest);
      assert |EXCLUSIVE_PREFIX| == 10;
      if |tags[0]| >= 10 && tags[0][..10] == "exclusive-" {
        assert IsFirstExclusive(tags, 0);
        assert tags[0] != "";
      } else {
        assert !(EXCLUSIVE_PREFIX <= tags[0]);
        assert NoneExclusive(tags) <==> NoneExclusive(rest) by {
          if NoneExclusive(rest) {
            forall j | 0 <= j < |tags| ensures |tags[j]| < 10 || tags[j][..10] != "exclusive-" {
              assert j == 0 || tags[j] == rest[j - 1];
            }
          }
        }
        forall k: nat | IsFirstExclusive(tags, k) ensures FirstExclusive(tags) == tags[k] && tags[k] != "" {
          assert IsFirstExclusive(rest, k - 1);
        }
        if k: nat :| IsFirstExclusive(rest, k) {
          assert IsFirstExclusive(tags, k + 1);
        }
      }
    }
  }

  /** The first tag with the prefix, or "" when there is none. */
  method PickExclusiveTag(tags: seq<string>) returns (r: string)
    ensures r == FirstExclusive(tags)
    ensures r == "" <==> NoneExclusive(tags)
    ensures forall k: nat :: IsFirstExclusive(tags, k) ==> r == tags[k]
  {
    FirstExclusiveIff(tags);
    for i := 0 to |tags|
      invariant FirstExclusive(tags) == FirstExclusive(tags[i..])
    {
      assert tags[i..][1..] == tags[i + 1..];
      if |tags[i]| >= 10 && tags[i][..10] == EXCLUSIVE_PREFIX {
        return tags[i];
      }
    }
    return "";
  }

  method SplitLanes(tests: seq<Test>) returns (active: seq<Test>, quar: seq<Test>)
    ensures active == Lane(tests, false) && quar == Lane(tests, true)
  {
    active, quar := [], [];
    for i := 0 to |tests|
      invariant active == Lane(tests[..i], false) && quar == Lane(tests[..i], true)
    {
      assert tests[..i + 1][..i] == tests[..i];
      if tests[i].isQuarantined {
        quar := quar + [tests[i]];
      } else {
        active := active + [tests[i]];
      }
    }
    assert tests[..|tests|] == tests;
  }

  method FloorDurations(tests: seq<Test>) returns (active: seq<Test>, totalMS: int)
    ensures active == Floored(tests) && totalMS == Sum(Durations(active))
  {
    active, totalMS := tests, 0;
    for i := 0 to |tests|
      invariant |active| == |tests|
      invariant forall k :: 0 <= k < |tests| ==> active[k] == if k < i then FloorOf(tests[k]) else tests[k]
      invariant totalMS == Sum(Durations(active[..i]))
    {
      if active[i].predictedMS < FLOOR_MS {
        active := active[i := active[i].(predictedMS := FLOOR_MS)];
      }
      ghost var prev := Durations(active[..i]);
      assert Durations(active[..i + 1]) == prev + [active[i].predictedMS];
      assert Durations(active[..i + 1])[..i] == prev;
      totalMS := totalMS + active[i].predictedMS;
    }
    assert active[..|tests|] == active;
  }

  function DurationsOf(bins: seq<Assignment>): seq<int>
  {
    seq(|bins|, k requires 0 <= k < |bins| => bins[k].predictedDurationMS)
  }

  /** The scan over the bins for one test. */
  method PickBin(bins: seq<Assignment>, exclusiveBin: map<string, nat>, tag: string)
    returns (best: nat)
    requires bins != []
    requires tag in exclusiveBin ==> exclusiveBin[tag] < |bins|
    ensures best < |bins|
    ensures tag != "" && tag in exclusiveBin ==> best == exclusiveBin[tag]
    ensures !(tag != "" && tag in exclusiveBin) ==>
              best == ArgMin(DurationsOf(bins))
  {
    var found, bestDur := -1, -1;
    ghost var owned := tag != "" && tag in exclusiveBin;
    for i := 0 to |bins|
      invariant -1 <= found < i
      invariant owned ==> found == if exclusiveBin[tag] < i then exclusiveBin[tag] else -1
      invariant !owned ==> (found == -1 <==> i == 0)
      invariant found != -1 ==> bestDur == bins[found].predictedDurationMS
      invariant !owned && found != -1 ==>
                  && (forall j :: 0 <= j < i ==> bestDur <= bins[j].predictedDurationMS)
                  && (forall j :: 0 <= j < found ==> bestDur < bins[j].predictedDurationMS)
    {
      if tag != "" {
        if tag in exclusiveBin && exclusiveBin[tag] != i {
          continue;
        }
      }
      var d := bins[i].predictedDurationMS;
      if found == -1 || d < bestDur {
        found := i;
        bestDur := d;
      }
    }
    assert found >= 0;  // so the fallback below never runs
    if found == -1 {
      found := 0;
    }
    best := found;
    if !owned {
      ArgMinIsUnique(DurationsOf(bins), best);
    }
  }

  ghost predicate OwnersRecorded(exclusiveBin: map<string, nat>, ts: seq<Test>, g: seq<nat>)
    requires |ts| == |g|
  {
    "" !in exclusiveBin &&
    forall tag :: tag != "" ==>
                    Owner(ts, g, tag) == if tag in exclusiveBin then Some(exclusiveBin[tag]) else None
  }

  function Put(bins: seq<Assignment>, b: nat, t: Test): seq<Assignment>
    requires b < |bins|
  {
    bins[b := Assignment(bins[b].shardIndex, bins[b].predictedDurationMS + t.predictedMS, bins[b].tests + [t])]
  }

  lemma BinsExtend(ts: seq<Test>, g: seq<nat>, t: Test, b: nat, m: nat)
    requires |ts| == |g| && b < m
    ensures Bins(ts + [t], g + [b], m) == Put(Bins(ts, g, m), b, t)
  {
    assert (ts + [t])[..|ts|] == ts && (g + [b])[..|ts|] == g;
    assert Durations(ts + [t])[..|ts|] == Durations(ts);
    var after, put := Bins(ts + [t], g + [b], m), Put(Bins(ts, g, m), b, t);
    forall i | 0 <= i < m ensures after[i] == put[i] {
      assert after[i].tests == BinTests(ts, g, i) + if b == i then [t] else [];
    }
  }

  lemma PlacementExtend(ts: seq<Test>, t: Test, m: nat)
    requires 0 < m
    ensures Placement(ts + [t], m) ==
            Placement(ts, m) + [Choose(ts, Placement(ts, m), TagOf(t), m)]
  {
    assert (ts + [t])[..|ts|] == ts;
  }

  /** One round of the greedy loop. */
  method PlaceTest(bins: seq<Assignment>, exclusiveBin: map<string, nat>,
                   ghost done: seq<Test>, t: Test, m: nat)
    returns (bins': seq<Assignment>, exclusiveBin': map<string, nat>)
    requires 0 < m && bins == Bins(done, Placement(done, m), m)
    requires OwnersRecorded(exclusiveBin, done, Placement(done, m))
    ensures bins' == Bins(done + [t], Placement(done + [t], m), m)
    ensures OwnersRecorded(exclusiveBin', done + [t], Placement(done + [t], m))
  {
    ghost var g := Placement(done, m);
    var tag := PickExclusiveTag(t.entry.tags);
    assert DurationsOf(bins) == Loads(Durations(done), g, m);
    assert tag in exclusiveBin ==> exclusiveBin[tag] in g;
    var best := PickBin(bins, exclusiveBin, tag);
    assert best == Choose(done, g, tag, m);
    PlacementExtend(done, t, m);
    BinsExtend(done, g, t, best, m);
    bins' := Put(bins, best, t);
    exclusiveBin' := if tag != "" then exclusiveBin[tag := best] else exclusiveBin;
    assert (done + [t])[..|done|] == done && (g + [best])[..|done|] == g;
  }

  method PackBins(ts: seq<Test>, m: nat) returns (bins: seq<Assignment>)
    requires 0 < m
    ensures bins == Bins(ts, Placement(ts, m), m)
  {
    bins := seq(m, i requires 0 <= i < m => Assignment(i, 0, []));
    var exclusiveBin: map<string, nat> := map[];
    for k := 0 to |ts|
      invariant bins == Bins(ts[..k], Placement(ts[..k], m), m)
      invariant OwnersRecorded(exclusiveBin, ts[..k], Placement(ts[..k], m))
    {
      assert ts[..k + 1] == ts[..k] + [ts[k]];
      bins, exclusiveBin := PlaceTest(bins, exclusiveBin, ts[..k], ts[k], m);
    }
    assert ts[..|ts|] == ts;
  }

  /** Step 5 of the planner: each bin longest-first. */
  method SortBins(bins: seq<Assignment>) returns (r: seq<Assignment>)
    requires forall i :: 0 <= i < |bins| ==> StableSort.Sorted(DurationKey(), bins[i].tests)
    ensures r == bins
  {
    r := bins;
    for i := 0 to |bins|
      invariant r == bins
    {
      StableSort.SortOfSorted(DurationKey(), bins[i].tests);
      r := r[i := r[i].(tests := StableSort.Sort(DurationKey(), r[i].tests))];
    }
  }

  lemma {:induction false} BinTestsAreSorted(key: Test -> StableSort.Key, ts: seq<Test>, g: seq<nat>, i: nat)
    requires |ts| == |g| && StableSort.Sorted(key, ts)
    ensures StableSort.Sorted(key, BinTests(ts, g, i))
    ensures forall t :: t in BinTests(ts, g, i) ==> t in ts
  {
    if ts != [] {
      var n := |ts| - 1;
      BinTestsAreSorted(key, ts[..n], g[..n], i);
      var front := BinTests(ts[..n], g[..n], i);
      forall k | 0 <= k < |front| ensures !StableSort.KeyLess(key(ts[n]), key(front[k])) {
        assert front[k] in ts[..n];
      }
    }
  }

  lemma LptOrderIsDescending(sha: Digest, tests: seq<Test>)
    ensures StableSort.Sorted(DurationKey(), SortedActive(sha, tests))
    ensures Descending(Durations(SortedActive(sha, tests)))
  {
    var ts := SortedActive(sha, tests);
    StableSort.SortIsSorted(LptKey(sha), Active(tests));
    forall i, j | 0 <= i < j < |ts| ensures ts[i].predictedMS >= ts[j].predictedMS {
      assert !StableSort.KeyLess(LptKey(sha)(ts[j]), LptKey(sha)(ts[i]));
    }
  }

  method LongestBin(bins: seq<Assignment>) returns (makespan: int)
    ensures makespan == Makespan(bins)
  {
    makespan := 0;
    for i := 0 to |bins|
      invariant makespan == Makespan(bins[..i])
    {
      assert bins[..i + 1][..i] == bins[..i];
      if bins[i].predictedDurationMS > makespan {
        makespan := bins[i].predictedDurationMS;
      }
    }
    assert bins[..|bins|] == bins;
  }

  method DropTail(all: seq<Assignment>) returns (bins: seq<Assignment>)
    ensures bins == DropEmptyTail(all)
  {
    bins := all;
    while |bins| > 1 && |bins[|bins| - 1].tests| == 0
      invariant DropEmptyTail(bins) == DropEmptyTail(all)
      decreases |bins|
    {
      bins := bins[..|bins| - 1];
    }
  }

  method PlanFunc(sha: Digest, tests: seq<Test>, c: Constraints) returns (plan: Plan)
    ensures plan == PlanOf(sha, tests, c) && plan.version == "lpt-v1"
  {
    var k := Normalize(c);
    var active, quar := SplitLanes(tests);
    var totalMS;
    active, totalMS := FloorDurations(active);
    var shardCount := ShardCount(totalMS, |active|, k);
    active := StableSort.Sort(LptKey(sha), active);
    var bins := PackBins(active, shardCount);
    assert bins == PackedBins(sha, tests, c);
    LptOrderIsDescending(sha, tests);
    forall i | 0 <= i < |bins| ensures StableSort.Sorted(DurationKey(), bins[i].tests) {
      BinTestsAreSorted(DurationKey(), active, Placement(active, shardCount), i);
    }
    bins := SortBins(bins);
    var makespan := LongestBin(bins);
    bins := DropTail(bins);
    plan := Plan(bins, quar, totalMS, makespan, PLAN_VERSION);
  }

  /** Rebuilds the planner's input from a stored plan and plans again. */
  method Replay(sha: Digest, stored: Plan, c: Constraints)
    returns (recomputed: Plan, deterministic: bool)
    ensures recomputed == PlanOf(sha, ReplayInput(stored), c)
    ensures deterministic <==> recomputed == stored
  {
    var tests := ListShards(stored.assignments);
    ghost var active := tests;
    for i := 0 to |stored.quarantineLane|
      invariant tests == active + Relabel(stored.quarantineLane[..i], true)
    {
      tests := tests + [stored.quarantineLane[i].(isQuarantined := true)];
    }
    assert stored.quarantineLane[..|stored.quarantineLane|] == stored.quarantineLane;
    recomputed := PlanFunc(sha, tests, c);
    deterministic := stored == recomputed;
  }

  /** The shards' tests in order, none of them quarantined. */
  method ListShards(assignments: seq<Assignment>) returns (tests: seq<Test>)
    ensures tests == Relabel(Flatten(assignments), false)
  {
    tests := [];
    for i := 0 to |assignments|
      invariant tests == Relabel(Flatten(assignments[..i]), false)
    {
      assert assignments[..i + 1][..i] == assignments[..i];
      var a := assignments[i];
      ghost var before := tests;
      for j := 0 to |a.tests|
        invariant tests == before + Relabel(a.tests[..j], false)
      {
        tests := tests + [a.tests[j].(isQuarantined := false)];
      }
      assert a.tests[..|a.tests|] == a.tests;
    }
    assert assignments[..|assignments|] == assignments;
  }

  function Relabel(ts: seq<Test>, quarantined: bool): seq<Test>
  {
    seq(|ts|, k requires 0 <= k < |ts| => ts[k].(isQuarantined := quarantined))
  }

  function ReplayInput(stored: Plan): seq<Test>
  {
    Relabel(Flatten(stored.assignments), false) + Relabel(stored.quarantineLane, true)
  }
}

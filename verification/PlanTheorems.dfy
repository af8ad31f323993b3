/** What every plan guarantees: conservation, shard shape, exclusivity and makespan
    bounds. */
module PlanTheorems {
  import opened Wrappers
  import opened Packing
  import opened Scheduler
  import StableSort

  // --------------------------------------------------------- conservation

  lemma {:induction false} FlattenOfEmpty(a: seq<Assignment>)
    requires forall k :: 0 <= k < |a| ==> a[k].tests == []
    ensures Flatten(a) == []
  {
    if a != [] { FlattenOfEmpty(a[..|a| - 1]); }
  }

  lemma {:induction false} FlattenAround(bins: seq<Assignment>, b: nat)
    requires b < |bins|
    ensures Flatten(bins) == Flatten(bins[..b]) + bins[b].tests + Flatten(bins[b + 1..])
  {
    var n := |bins| - 1;
    var hi := bins[b + 1..];
    if b < n {
      FlattenAround(bins[..n], b);
      assert bins[..n][..b] == bins[..b] && bins[..n][b + 1..] == hi[..|hi| - 1];
      assert hi[|hi| - 1] == bins[n];
    } else {
      assert hi == [];
    }
  }

  lemma FlattenPut(bins: seq<Assignment>, b: nat, t: Test)
    requires b < |bins|
    ensures multiset(Flatten(Put(bins, b, t))) == multiset(Flatten(bins)) + multiset{t}
  {
    var put := Put(bins, b, t);
    FlattenAround(bins, b);
    FlattenAround(put, b);
    assert put[..b] == bins[..b] && put[b + 1..] == bins[b + 1..];
    MultisetMiddle(Flatten(bins[..b]), bins[b].tests, t, Flatten(bins[b + 1..]));
  }

  lemma MultisetMiddle<T>(a: seq<T>, b: seq<T>, x: T, c: seq<T>)
    ensures multiset(a + (b + [x]) + c) == multiset(a + b + c) + multiset{x}
  {
  }

  /** Packing moves tests into bins without losing or repeating any. */
  lemma {:induction false} BinsHoldTheTests(ts: seq<Test>, g: seq<nat>, m: nat)
    requires IsPacking(g, |ts|, m)
    ensures multiset(Flatten(Bins(ts, g, m))) == multiset(ts)
  {
    if ts == [] {
      FlattenOfEmpty(Bins(ts, g, m));
    } else {
      var n := |ts| - 1;
      assert ts == ts[..n] + [ts[n]] && g == g[..n] + [g[n]];
      BinsHoldTheTests(ts[..n], g[..n], m);
      BinsExtend(ts[..n], g[..n], ts[n], g[n], m);
      FlattenPut(Bins(ts[..n], g[..n], m), g[n], ts[n]);
    }
  }

  lemma {:induction false} FlattenDropEmptyTail(bins: seq<Assignment>)
    ensures Flatten(DropEmptyTail(bins)) == Flatten(bins)
  {
    if |bins| > 1 && bins[|bins| - 1].tests == [] {
      FlattenDropEmptyTail(bins[..|bins| - 1]);
    }
  }

  lemma {:induction false} BinLoadIsItsTests(ts: seq<Test>, g: seq<nat>, i: nat)
    requires |ts| == |g|
    ensures Load(Durations(ts), g, i) == Sum(Durations(BinTests(ts, g, i)))
  {
    if ts != [] {
      var n := |ts| - 1;
      BinLoadIsItsTests(ts[..n], g[..n], i);
      assert Durations(ts)[..n] == Durations(ts[..n]);
      var front, all := BinTests(ts[..n], g[..n], i), BinTests(ts, g, i);
      if g[n] == i {
        assert Durations(all)[..|front|] == Durations(front);
      } else {
        assert all == front;
      }
    }
  }

  lemma RemoveAt<T>(s: seq<T>, j: nat)
    requires j < |s|
    ensures multiset(s[..j] + s[j + 1..]) == multiset(s) - multiset{s[j]}
  {
    assert s == s[..j] + [s[j]] + s[j + 1..];
  }

  lemma {:induction false} SumWithout(s: seq<int>, j: nat)
    requires j < |s|
    ensures Sum(s) == Sum(s[..j] + s[j + 1..]) + s[j]
  {
    var n := |s| - 1;
    if j < n {
      SumWithout(s[..n], j);
      var r, front := s[..j] + s[j + 1..], s[..n][..j] + s[..n][j + 1..];
      assert r == front + [s[n]];
      assert r[..|r| - 1] == front;
    } else {
      assert s[..j] + s[j + 1..] == s[..n];
    }
  }

  lemma {:induction false} SumOfPermutation(a: seq<Test>, b: seq<Test>)
    requires multiset(a) == multiset(b)
    ensures Sum(Durations(a)) == Sum(Durations(b))
  {
    if a == [] {
      assert |multiset(b)| == |b|;
    } else {
      var n := |a| - 1;
      StableSort.FrontMultiset(a);
      assert a[n] in multiset(b);
      var j :| 0 <= j < |b| && b[j] == a[n];
      var rest := b[..j] + b[j + 1..];
      RemoveAt(b, j);
      SumOfPermutation(a[..n], rest);
      SumOfFront(a);
      SumOfRest(b, j, rest);
    }
  }

  lemma SumOfFront(a: seq<Test>)
    requires a != []
    ensures Sum(Durations(a)) == Sum(Durations(a[..|a| - 1])) + a[|a| - 1].predictedMS
  {
    assert Durations(a)[..|a| - 1] == Durations(a[..|a| - 1]);
  }

  lemma SumOfRest(b: seq<Test>, j: nat, rest: seq<Test>)
    requires j < |b| && rest == b[..j] + b[j + 1..]
    ensures Sum(Durations(b)) == Sum(Durations(rest)) + b[j].predictedMS
  {
    SumWithout(Durations(b), j);
    assert Durations(rest) == Durations(b)[..j] + Durations(b)[j + 1..];
  }

  /** Every active test is in exactly one shard and quarantined tests are set
      aside in order; each shard is as long as its tests, the shards add up to the
      total, and the makespan is the longest of them. */
  lemma PlanConservesTests(sha: Digest, tests: seq<Test>, c: Constraints)
    ensures var p := PlanOf(sha, tests, c);
            && multiset(Flatten(p.assignments)) == multiset(Active(tests))
            && p.quarantineLane == Lane(tests, true)
            && (forall a :: a in p.assignments ==> a.predictedDurationMS == Sum(Durations(a.tests)))
            && Sum(DurationsOf(p.assignments)) == p.totalPredictedMS == Sum(Durations(Active(tests)))
            && (forall a :: a in p.assignments ==> a.predictedDurationMS <= p.makespanPredictedMS)
            && (exists a :: a in p.assignments && a.predictedDurationMS == p.makespanPredictedMS)
  {
    var p := PlanOf(sha, tests, c);
    PackedBinsConserve(sha, tests, c);
    FlattenDropEmptyTail(PackedBins(sha, tests, c));
    DropTailKeepsSums(PackedBins(sha, tests, c));
  }

  lemma PackedBinsConserve(sha: Digest, tests: seq<Test>, c: Constraints)
    ensures var bins := PackedBins(sha, tests, c);
            && multiset(Flatten(bins)) == multiset(Active(tests))
            && Sum(DurationsOf(bins)) == Sum(Durations(Active(tests)))
            && forall i :: 0 <= i < |bins| ==>
                             bins[i].predictedDurationMS == Sum(Durations(bins[i].tests)) >= 0
  {
    var m, ts := BinCount(tests, c), SortedActive(sha, tests);
    var g := Placement(ts, m);
    var bins := PackedBins(sha, tests, c);
    BinsHoldTheTests(ts, g, m);
    SortedActiveIsLong(sha, tests);
    BinsAddUp(ts, g, m);
    SumOfPermutation(ts, Active(tests));
  }

  lemma BinsAddUp(ts: seq<Test>, g: seq<nat>, m: nat)
    requires IsPacking(g, |ts|, m) && forall t :: t in ts ==> t.predictedMS >= FLOOR_MS
    ensures var bins := Bins(ts, g, m);
            && Sum(DurationsOf(bins)) == Sum(Durations(ts))
            && forall i :: 0 <= i < |bins| ==>
                             bins[i].predictedDurationMS == Sum(Durations(bins[i].tests)) >= 0
  {
    var bins := Bins(ts, g, m);
    forall i | 0 <= i < m ensures bins[i].predictedDurationMS == Sum(Durations(bins[i].tests)) >= 0 {
      BinLoadIsItsTests(ts, g, i);
      LoadMonotoneZero(Durations(ts), g, i);
    }
    assert DurationsOf(bins) == Loads(Durations(ts), g, m);
    LoadsAddUp(Durations(ts), g, m);
  }

  lemma SortedActiveIsLong(sha: Digest, tests: seq<Test>)
    ensures forall t :: t in SortedActive(sha, tests) ==> t.predictedMS >= FLOOR_MS && !t.isQuarantined
    ensures |SortedActive(sha, tests)| == |Active(tests)|
  {
    forall t | t in SortedActive(sha, tests) ensures t.predictedMS >= FLOOR_MS && !t.isQuarantined {
      assert t in multiset(Active(tests));
      LaneIsUniform(tests, false);
    }
  }

  lemma {:induction false} LaneIsUniform(tests: seq<Test>, q: bool)
    ensures forall t :: t in Lane(tests, q) ==> t.isQuarantined == q
  {
    if tests != [] { LaneIsUniform(tests[..|tests| - 1], q); }
  }

  /** Dropping empty tail bins changes neither the total nor the longest bin. */
  lemma {:induction false} DropTailKeepsSums(bins: seq<Assignment>)
    requires bins != []
    requires forall i :: 0 <= i < |bins| ==>
                           bins[i].predictedDurationMS == Sum(Durations(bins[i].tests)) >= 0
    ensures var r := DropEmptyTail(bins);
            && Sum(DurationsOf(r)) == Sum(DurationsOf(bins))
            && exists i :: 0 <= i < |r| && r[i].predictedDurationMS == Makespan(bins)
  {
    var n := |bins| - 1;
    if |bins| > 1 && bins[n].tests == [] {
      DropTailKeepsSums(bins[..n]);
      assert DurationsOf(bins)[..n] == DurationsOf(bins[..n]);
      assert Makespan(bins[..n]) >= bins[..n][0].predictedDurationMS;
    } else {
      assert Makespan(bins) >= bins[0].predictedDurationMS;
    }
  }

  // ---------------------------------------------------------- shard shape

  ghost predicate EmptyBinsTrail(bins: seq<Assignment>)
  {
    forall i, j :: 0 <= i < j < |bins| && bins[j].tests != [] ==> bins[i].tests != []
  }

  lemma {:induction false} OwnerHasTests(ts: seq<Test>, g: seq<nat>, tag: string)
    requires |ts| == |g|
    ensures var o := Owner(ts, g, tag); o.Some? ==> BinTests(ts, g, o.value) != []
  {
    if ts != [] { OwnerHasTests(ts[..|ts| - 1], g[..|ts| - 1], tag); }
  }

  lemma {:induction false} EmptyMeansNoLoad(ts: seq<Test>, g: seq<nat>, i: nat)
    requires |ts| == |g| && forall t :: t in ts ==> t.predictedMS >= FLOOR_MS
    ensures Load(Durations(ts), g, i) >= 0
    ensures BinTests(ts, g, i) == [] <==> Load(Durations(ts), g, i) == 0
  {
    if ts != [] {
      var n := |ts| - 1;
      EmptyMeansNoLoad(ts[..n], g[..n], i);
      assert Durations(ts)[..n] == Durations(ts[..n]);
      assert ts[n] in ts;
    }
  }

  /** Because of the 50 ms floor an empty bin is always preferred, so bins fill
      from the left, with exclusive tags too. */
  lemma {:induction false} GreedyFillsFromTheLeft(ts: seq<Test>, m: nat)
    requires 0 < m && forall t :: t in ts ==> t.predictedMS >= FLOOR_MS
    ensures EmptyBinsTrail(Bins(ts, Placement(ts, m), m))
  {
    if ts != [] {
      var n := |ts| - 1;
      var done, g, tag := ts[..n], Placement(ts[..n], m), TagOf(ts[n]);
      var b := Choose(done, g, tag, m);
      GreedyFillsFromTheLeft(done, m);
      OwnerHasTests(done, g, tag);
      forall i | 0 <= i < m
        ensures Loads(Durations(done), g, m)[i] == 0 <==> Bins(done, g, m)[i].tests == []
        ensures Loads(Durations(done), g, m)[i] >= 0
      {
        EmptyMeansNoLoad(done, g, i);
      }
      assert ts == done + [ts[n]];
      BinsExtend(done, g, ts[n], b, m);
    }
  }

  lemma {:induction false} DropTailLeavesFull(bins: seq<Assignment>)
    requires EmptyBinsTrail(bins) && exists i :: 0 <= i < |bins| && bins[i].tests != []
    ensures forall a :: a in DropEmptyTail(bins) ==> a.tests != []
  {
    var n := |bins| - 1;
    if bins[n].tests == [] {
      var i :| 0 <= i < |bins| && bins[i].tests != [];
      assert bins[..n][i].tests != [];
      DropTailLeavesFull(bins[..n]);
    }
  }

  /** Shards carry their position as index, and unless there is nothing to run
      none of them is empty. */
  lemma ShardsAreNumberedAndFull(sha: Digest, tests: seq<Test>, c: Constraints)
    ensures var p := PlanOf(sha, tests, c).assignments;
            && 1 <= |p| <= BinCount(tests, c)
            && (forall i :: 0 <= i < |p| ==> p[i].shardIndex == i)
            && (Active(tests) != [] ==> forall a :: a in p ==> a.tests != [])
  {
    var bins := PackedBins(sha, tests, c);
    DropTailIsNonEmpty(bins);
    if Active(tests) != [] {
      SortedActiveIsLong(sha, tests);
      GreedyFillsFromTheLeft(SortedActive(sha, tests), BinCount(tests, c));
      SomeBinIsFull(sha, tests, c);
      DropTailLeavesFull(bins);
    }
  }

  lemma SomeBinIsFull(sha: Digest, tests: seq<Test>, c: Constraints)
    requires Active(tests) != []
    ensures exists i :: 0 <= i < |PackedBins(sha, tests, c)| && PackedBins(sha, tests, c)[i].tests != []
  {
    var bins := PackedBins(sha, tests, c);
    PackedBinsConserve(sha, tests, c);
    assert Active(tests)[0] in multiset(Flatten(bins));
    if forall i :: 0 <= i < |bins| ==> bins[i].tests == [] {
      FlattenOfEmpty(bins);
      assert false;
    }
  }

  lemma {:induction false} DropTailIsNonEmpty(bins: seq<Assignment>)
    requires bins != []
    ensures DropEmptyTail(bins) != []
  {
    if |bins| > 1 && bins[|bins| - 1].tests == [] { DropTailIsNonEmpty(bins[..|bins| - 1]); }
  }

  // ---------------------------------------------------------- exclusivity

  lemma {:induction false} TaggedTestsFollowOwner(ts: seq<Test>, m: nat, k: nat)
    requires 0 < m && k < |ts| && TagOf(ts[k]) != ""
    ensures Owner(ts, Placement(ts, m), TagOf(ts[k])) == Some(Placement(ts, m)[k])
  {
    var n := |ts| - 1;
    var front, g := ts[..n], Placement(ts[..n], m);
    assert ts == front + [ts[n]];
    PlacementExtend(front, ts[n], m);
    OwnerSnoc(front, g, ts[n], Choose(front, g, TagOf(ts[n]), m), TagOf(ts[k]));
    if k < n {
      TaggedTestsFollowOwner(front, m, k);
    }
  }

  lemma OwnerSnoc(ts: seq<Test>, g: seq<nat>, t: Test, b: nat, tag: string)
    requires |ts| == |g|
    ensures Owner(ts + [t], g + [b], tag) == if TagOf(t) == tag then Some(b) else Owner(ts, g, tag)
  {
    assert (ts + [t])[..|ts|] == ts && (g + [b])[..|g|] == g;
  }

  lemma {:induction false} BinOfTest(ts: seq<Test>, g: seq<nat>, i: nat, t: Test) returns (k: nat)
    requires |ts| == |g| && t in BinTests(ts, g, i)
    ensures k < |ts| && ts[k] == t && g[k] == i
  {
    var n := |ts| - 1;
    if g[n] == i && ts[n] == t { k := n; } else { k := BinOfTest(ts[..n], g[..n], i, t); }
  }

  /** Tests whose first tag with the prefix is the same never run in different shards. */
  lemma ExclusiveTestsShareAShard(sha: Digest, tests: seq<Test>, c: Constraints,
                                  i: nat, j: nat, t: Test, u: Test, k: nat, l: nat)
    requires var p := PlanOf(sha, tests, c).assignments;
             i < |p| && j < |p| && t in p[i].tests && u in p[j].tests
    requires IsFirstExclusive(t.entry.tags, k) && IsFirstExclusive(u.entry.tags, l)
    requires t.entry.tags[k] == u.entry.tags[l]
    ensures i == j
  {
    FirstExclusiveIff(t.entry.tags);
    FirstExclusiveIff(u.entry.tags);
    var m, ts := BinCount(tests, c), SortedActive(sha, tests);
    var g := Placement(ts, m);
    var a := BinOfTest(ts, g, i, t);
    var b := BinOfTest(ts, g, j, u);
    TaggedTestsFollowOwner(ts, m, a);
    TaggedTestsFollowOwner(ts, m, b);
  }

  /** No other test is bound to a shard: one whose exclusive tag nobody before it has, or
      that has none, goes to the first of the least loaded shards. */
  lemma {:induction false} OthersGoToTheLeastLoaded(ts: seq<Test>, m: nat, k: nat)
    requires 0 < m && k < |ts|
    requires NoneExclusive(ts[k].entry.tags) || forall j :: 0 <= j < k ==> TagOf(ts[j]) != TagOf(ts[k])
    ensures var g, loads := Placement(ts, m), Loads(Durations(ts[..k]), Placement(ts[..k], m), m);
            && g[k] < m && (forall i :: 0 <= i < m ==> loads[g[k]] <= loads[i])
            && (forall i :: 0 <= i < g[k] ==> loads[g[k]] < loads[i])
    decreases |ts|
  {
    var n := |ts| - 1;
    if k < n {
      OthersGoToTheLeastLoaded(ts[..n], m, k);
      PlacementOfPrefix(ts, m, k, n);
    } else {
      FirstExclusiveIff(ts[k].entry.tags);
      NoOwnerYet(ts[..k], Placement(ts[..k], m), TagOf(ts[k]));
      LastIsChosen(ts, m, k);
    }
  }

  lemma PlacementOfPrefix(ts: seq<Test>, m: nat, k: nat, n: nat)
    requires 0 < m && k < n == |ts| - 1
    ensures ts[..n][..k] == ts[..k] && ts[..n][k] == ts[k] && Placement(ts, m)[k] == Placement(ts[..n], m)[k]
  {
  }

  lemma LastIsChosen(ts: seq<Test>, m: nat, k: nat)
    requires 0 < m && k + 1 == |ts|
    requires TagOf(ts[k]) != "" ==> Owner(ts[..k], Placement(ts[..k], m), TagOf(ts[k])) == None
    ensures Placement(ts, m)[k] == ArgMin(Loads(Durations(ts[..k]), Placement(ts[..k], m), m))
  {
  }

  lemma {:induction false} NoOwnerYet(ts: seq<Test>, g: seq<nat>, tag: string)
    requires |ts| == |g| && (tag == "" || forall j :: 0 <= j < |ts| ==> TagOf(ts[j]) != tag)
    ensures tag != "" ==> Owner(ts, g, tag) == None
  {
    if ts != [] && tag != "" { NoOwnerYet(ts[..|ts| - 1], g[..|ts| - 1], tag); }
  }

  /** Within a shard longer tests come first, and of two equally long ones the one with
      the smaller digest of path, name and parameters. */
  lemma ShardOrder(sha: Digest, tests: seq<Test>, c: Constraints, a: nat, i: nat, j: nat)
    requires a < |PlanOf(sha, tests, c).assignments|
    requires i < j < |PlanOf(sha, tests, c).assignments[a].tests|
    ensures var t, u := PlanOf(sha, tests, c).assignments[a].tests[i], PlanOf(sha, tests, c).assignments[a].tests[j];
            && t.predictedMS >= u.predictedMS
            && (t.predictedMS == u.predictedMS ==>
                  sha(t.entry.path + "\0" + t.entry.name + "\0" + t.entry.paramsHash) <=
                  sha(u.entry.path + "\0" + u.entry.name + "\0" + u.entry.paramsHash))
  {
    var m, ts := BinCount(tests, c), SortedActive(sha, tests);
    StableSort.SortIsSorted(LptKey(sha), Active(tests));
    BinTestsAreSorted(LptKey(sha), ts, Placement(ts, m), a);
    var bin := BinTests(ts, Placement(ts, m), a);
    assert PlanOf(sha, tests, c).assignments[a].tests == bin;
    assert !StableSort.KeyLess(LptKey(sha)(bin[j]), LptKey(sha)(bin[i]));
  }

  // ------------------------------------------------------ floors, knobs and shard count

  /** A planned test is an input test that is not quarantined, with its duration raised to
      50 ms and nothing else changed. */
  lemma {:induction false} ActiveAreFlooredInputs(tests: seq<Test>, t: Test)
    ensures t in Active(tests) <==>
              exists k :: 0 <= k < |tests| && !tests[k].isQuarantined &&
                          t == tests[k].(predictedMS := if tests[k].predictedMS < 50 then 50 else tests[k].predictedMS)
  {
    if tests != [] {
      var n := |tests| - 1;
      ActiveAreFlooredInputs(tests[..n], t);
      LaneSnoc(tests, false);
      FlooredConcat(Lane(tests[..n], false), if tests[n].isQuarantined == false then [tests[n]] else []);
      if t in Active(tests[..n]) {
        var k :| 0 <= k < n && !tests[..n][k].isQuarantined && t == FloorAt50(tests[..n][k]);
        assert tests[k] == tests[..n][k];
      }
      if k :| 0 <= k < |tests| && !tests[k].isQuarantined && t == FloorAt50(tests[k]) {
        assert k < n ==> tests[..n][k] == tests[k];
        assert k == n ==> Floored([tests[n]])[0] == t;
      }
    }
  }

  function FloorAt50(t: Test): Test
  {
    t.(predictedMS := if t.predictedMS < 50 then 50 else t.predictedMS)
  }

  lemma LaneSnoc(tests: seq<Test>, q: bool)
    requires tests != []
    ensures var n := |tests| - 1;
            Lane(tests, q) == Lane(tests[..n], q) + if tests[n].isQuarantined == q then [tests[n]] else []
  {
  }

  lemma FlooredConcat(a: seq<Test>, b: seq<Test>)
    ensures Floored(a + b) == Floored(a) + Floored(b)
  {
  }

  /** Zero or negative knobs mean five minutes, one shard and, unless more is the minimum,
      fifty shards; all knobs zero are the constraints both callers pass. */
  lemma KnobsHaveDefaults(sha: Digest, tests: seq<Test>, c: Constraints)
    ensures c.targetShardSeconds <= 0 ==>
              PlanOf(sha, tests, c) == PlanOf(sha, tests, c.(targetShardSeconds := 300))
    ensures c.minShards < 1 ==> PlanOf(sha, tests, c) == PlanOf(sha, tests, c.(minShards := 1))
    ensures 1 <= c.minShards && c.maxShards < c.minShards ==>
              PlanOf(sha, tests, c) ==
              PlanOf(sha, tests, c.(maxShards := if c.minShards > 50 then c.minShards else 50))
    ensures c.targetShardSeconds >= 1 && 1 <= c.minShards <= c.maxShards ==> Normalize(c) == c
    ensures PlanOf(sha, tests, Constraints(0, 0, 0)) == PlanOf(sha, tests, DEFAULT_CONSTRAINTS)
  {
    assert Normalize(Constraints(0, 0, 0)) == Normalize(DEFAULT_CONSTRAINTS);
    if c.targetShardSeconds <= 0 { assert Normalize(c) == Normalize(c.(targetShardSeconds := 300)); }
    if c.minShards < 1 { assert Normalize(c) == Normalize(c.(minShards := 1)); }
    if 1 <= c.minShards && c.maxShards < c.minShards {
      assert Normalize(c) == Normalize(c.(maxShards := if c.minShards > 50 then c.minShards else 50));
    }
  }

  /** The planner takes no more shards than the target asks for, unless the minimum
      forces it, and no fewer, unless the maximum or the number of tests does. */
  lemma ShardCountIsLeast(tests: seq<Test>, c: Constraints, m: nat, total: int)
    requires c.targetShardSeconds >= 1 && 1 <= c.minShards <= c.maxShards
    requires m == BinCount(tests, c) && total == Sum(Durations(Active(tests)))
    ensures m > c.minShards ==> (m - 1) * (c.targetShardSeconds * 1000) < total
    ensures m < c.maxShards && (m < |Active(tests)| || Active(tests) == []) ==>
              m >= c.minShards && total <= m * (c.targetShardSeconds * 1000)
  {
    assert Normalize(c) == c;
    var target := c.targetShardSeconds * 1000;
    if total > 0 {
      var desired := CeilDiv(total, target);
      CeilDivIsLeast(total, target, desired);
      if m > c.minShards { LessWork(m - 1, desired - 1, target); }
      if m < c.maxShards && (m < |Active(tests)| || Active(tests) == []) { LessWork(desired, m, target); }
    } else {
      LessWork(0, m, target);
    }
  }

  lemma CeilDivIsLeast(a: int, b: int, q: int)
    requires a > 0 && b > 0 && q == CeilDiv(a, b)
    ensures (q - 1) * b < a <= q * b && q >= 1
  {
    var x := a + b - 1;
    assert x == b * q + x % b && 0 <= x % b < b;
    assert (q - 1) * b == b * q - b;
  }

  lemma LessWork(a: int, b: int, k: int)
    requires a <= b && k > 0
    ensures a * k <= b * k
  {
  }

  // ------------------------------------------------------ makespan bounds

  /** No test has a tag with the prefix. */
  ghost predicate Untagged(ts: seq<Test>)
  {
    forall t :: t in ts ==> NoneExclusive(t.entry.tags)
  }

  lemma UntaggedMeansNoTag(ts: seq<Test>, t: Test)
    requires Untagged(ts) && t in ts
    ensures TagOf(t) == ""
  {
    FirstExclusiveIff(t.entry.tags);
  }

  lemma {:induction false} UntaggedPlacementIsGreedy(ts: seq<Test>, m: nat)
    requires 0 < m && Untagged(ts)
    ensures IsGreedy(Durations(ts), Placement(ts, m), m)
  {
    if ts != [] {
      var n := |ts| - 1;
      UntaggedPlacementIsGreedy(ts[..n], m);
      assert Durations(ts)[..n] == Durations(ts[..n]);
      var loads := Loads(Durations(ts[..n]), Placement(ts[..n], m), m);
      UntaggedMeansNoTag(ts, ts[n]);
      forall i: nat | i < m ensures loads[ArgMin(loads)] <= Load(Durations(ts[..n]), Placement(ts[..n], m), i) {
        assert loads[i] == Load(Durations(ts[..n]), Placement(ts[..n], m), i);
      }
    }
  }

  lemma {:induction false} LoadWithout(xs: seq<int>, g: seq<nat>, j: nat, i: nat)
    requires |xs| == |g| && j < |xs|
    ensures Load(xs, g, i) ==
            Load(xs[..j] + xs[j + 1..], g[..j] + g[j + 1..], i) + if g[j] == i then xs[j] else 0
  {
    var n := |xs| - 1;
    var ys, h := xs[..j] + xs[j + 1..], g[..j] + g[j + 1..];
    if j < n {
      LoadWithout(xs[..n], g[..n], j, i);
      var zs, f := xs[..n][..j] + xs[..n][j + 1..], g[..n][..j] + g[..n][j + 1..];
      assert ys == zs + [xs[n]] && h == f + [g[n]];
      LoadSnoc(zs, f, xs[n], g[n], i);
    } else {
      assert ys == xs[..n] && h == g[..n];
    }
  }

  lemma LoadSnoc(xs: seq<int>, g: seq<nat>, x: int, b: nat, i: nat)
    requires |xs| == |g|
    ensures Load(xs + [x], g + [b], i) == Load(xs, g, i) + if b == i then x else 0
  {
    assert (xs + [x])[..|xs|] == xs && (g + [b])[..|g|] == g;
  }

  /** A packing of some tests carries over to any reordering of them. */
  lemma {:induction false} CarryPacking(a: seq<Test>, h: seq<nat>, b: seq<Test>, m: nat) returns (r: seq<nat>)
    requires multiset(a) == multiset(b) && IsPacking(h, |a|, m)
    ensures IsPacking(r, |b|, m)
    ensures forall i: nat :: i < m ==> Load(Durations(b), r, i) == Load(Durations(a), h, i)
  {
    assert |a| == |multiset(a)| == |multiset(b)| == |b|;
    if b == [] {
      r := [];
    } else {
      var n := |b| - 1;
      StableSort.FrontMultiset(b);
      assert b[n] in multiset(a);
      var j :| 0 <= j < |a| && a[j] == b[n];
      RemoveAt(a, j);
      var rest, hRest := a[..j] + a[j + 1..], h[..j] + h[j + 1..];
      var q := CarryPacking(rest, hRest, b[..n], m);
      r := q + [h[j]];
      CarryStep(a, h, b, q, rest, hRest, j, m);
    }
  }

  lemma CarryStep(a: seq<Test>, h: seq<nat>, b: seq<Test>, q: seq<nat>, rest: seq<Test>, hRest: seq<nat>,
                  j: nat, m: nat)
    requires |a| == |h| && j < |a| && |b| > 0 && b[|b| - 1] == a[j] && |q| == |b| - 1 && |rest| == |hRest|
    requires rest == a[..j] + a[j + 1..] && hRest == h[..j] + h[j + 1..]
    requires var front := b[..|b| - 1];
             forall i: nat :: i < m ==> Load(Durations(front), q, i) == Load(Durations(rest), hRest, i)
    ensures var r := q + [h[j]]; forall i: nat :: i < m ==> Load(Durations(b), r, i) == Load(Durations(a), h, i)
  {
    var r := q + [h[j]];
    assert r[..|b| - 1] == q;
    forall i: nat | i < m ensures Load(Durations(b), r, i) == Load(Durations(a), h, i) {
      CarryOne(a, h, b, r, j, i);
    }
  }

  lemma CarryOne(a: seq<Test>, h: seq<nat>, b: seq<Test>, r: seq<nat>, j: nat, i: nat)
    requires |a| == |h| && j < |a| && |b| == |r| > 0 && b[|b| - 1] == a[j] && r[|b| - 1] == h[j]
    requires Load(Durations(b[..|b| - 1]), r[..|b| - 1], i)
          == Load(Durations(a[..j] + a[j + 1..]), h[..j] + h[j + 1..], i)
    ensures Load(Durations(b), r, i) == Load(Durations(a), h, i)
  {
    TestWithout(a, h, j, i);
    TestAppended(b, r, i);
  }

  lemma TestWithout(a: seq<Test>, h: seq<nat>, j: nat, i: nat)
    requires |a| == |h| && j < |a|
    ensures Load(Durations(a), h, i) ==
            Load(Durations(a[..j] + a[j + 1..]), h[..j] + h[j + 1..], i) +
            if h[j] == i then a[j].predictedMS else 0
  {
    LoadWithout(Durations(a), h, j, i);
    assert Durations(a[..j] + a[j + 1..]) == Durations(a)[..j] + Durations(a)[j + 1..];
  }

  lemma TestAppended(b: seq<Test>, r: seq<nat>, i: nat)
    requires |b| == |r| > 0
    ensures var n := |b| - 1;
            Load(Durations(b), r, i) ==
            Load(Durations(b[..n]), r[..n], i) + if r[n] == i then b[n].predictedMS else 0
  {
    assert Durations(b)[..|b| - 1] == Durations(b[..|b| - 1]);
  }

  /** Graham's bound for the whole planner: without exclusive tags the makespan is
      at most (4/3 - 1/(3m)) times that of any assignment h of the same floored
      tests to the same number m of shards. */
  lemma PlanMeetsGrahamBound(sha: Digest, tests: seq<Test>, c: Constraints, h: seq<nat>, best: int,
                             m: nat, makespan: int)
    requires Untagged(Active(tests))
    requires m == BinCount(tests, c) && makespan == PlanOf(sha, tests, c).makespanPredictedMS
    requires IsPacking(h, |Active(tests)|, m)
    requires forall i: nat :: i < m ==> Load(Durations(Active(tests)), h, i) <= best
    ensures 3 * m * makespan <= (4 * m - 1) * best
  {
    var ts := SortedActive(sha, tests);
    SortedIsUntagged(sha, tests);
    LptOrderIsDescending(sha, tests);
    SortedActiveIsLong(sha, tests);
    var r := CarryPacking(Active(tests), h, ts, m);
    PackingMeetsGraham(ts, m, r, best, makespan);
  }

  lemma PackingMeetsGraham(ts: seq<Test>, m: nat, h: seq<nat>, best: int, makespan: int)
    requires 0 < m && Untagged(ts) && Descending(Durations(ts))
    requires forall t :: t in ts ==> t.predictedMS >= FLOOR_MS
    requires IsPacking(h, |ts|, m)
    requires forall i: nat :: i < m ==> Load(Durations(ts), h, i) <= best
    requires makespan == Makespan(Bins(ts, Placement(ts, m), m))
    ensures 3 * m * makespan <= (4 * m - 1) * best
  {
    var xs, g := Durations(ts), Placement(ts, m);
    UntaggedPlacementIsGreedy(ts, m);
    GrahamBound(xs, g, h, m, best);
    MakespanIsALoad(ts, g, m);
    var i :| 0 <= i < m && makespan == Load(xs, g, i);
  }

  lemma SortedIsUntagged(sha: Digest, tests: seq<Test>)
    requires Untagged(Active(tests))
    ensures Untagged(SortedActive(sha, tests))
  {
    forall t | t in SortedActive(sha, tests) ensures NoneExclusive(t.entry.tags) {
      assert t in multiset(Active(tests));
    }
  }

  lemma MakespanIsALoad(ts: seq<Test>, g: seq<nat>, m: nat)
    requires 0 < m && |ts| == |g| && forall t :: t in ts ==> t.predictedMS >= FLOOR_MS
    ensures exists i :: 0 <= i < m && Makespan(Bins(ts, g, m)) == Load(Durations(ts), g, i)
  {
    var bins := Bins(ts, g, m);
    EmptyMeansNoLoad(ts, g, 0);
    assert Makespan(bins) >= bins[0].predictedDurationMS;
  }

  /** If the shard cap does not get in the way, no shard runs longer than the
      target by more than the longest test. */
  lemma PlanMeetsTarget(sha: Digest, tests: seq<Test>, c: Constraints, longest: int)
    requires Untagged(Active(tests))
    requires 0 <= longest && forall t :: t in Active(tests) ==> t.predictedMS <= longest
    requires var k := Normalize(c);
             CeilDiv(Sum(Durations(Active(tests))), k.targetShardSeconds * 1000) <= k.maxShards
    ensures PlanOf(sha, tests, c).makespanPredictedMS <= Normalize(c).targetShardSeconds * 1000 + longest
  {
    SortedIsUntagged(sha, tests);
    SortedDurationsAreBounded(sha, tests, longest);
    if |SortedActive(sha, tests)| > BinCount(tests, c) {
      WorkFitsTarget(sha, tests, c);
    }
    PackingMeetsTarget(SortedActive(sha, tests), BinCount(tests, c),
                       Normalize(c).targetShardSeconds * 1000, longest);
  }

  lemma PackingMeetsTarget(ts: seq<Test>, m: nat, target: nat, longest: nat)
    requires 0 < m && Untagged(ts)
    requires forall t :: t in ts ==> FLOOR_MS <= t.predictedMS <= longest
    requires |ts| > m ==> Sum(Durations(ts)) <= m * target
    ensures Makespan(Bins(ts, Placement(ts, m), m)) <= target + longest
  {
    var g, xs := Placement(ts, m), Durations(ts);
    UntaggedPlacementIsGreedy(ts, m);
    MakespanIsALoad(ts, g, m);
    assert forall k :: 0 <= k < |xs| ==> ts[k] in ts && 0 < xs[k] <= longest;
    if |ts| <= m {
      FewJobsBound(xs, g, m, longest);
    } else {
      TargetBound(xs, g, m, target, longest);
    }
  }

  lemma SortedDurationsAreBounded(sha: Digest, tests: seq<Test>, longest: int)
    requires forall t :: t in Active(tests) ==> t.predictedMS <= longest
    ensures forall t :: t in SortedActive(sha, tests) ==> FLOOR_MS <= t.predictedMS <= longest
  {
    SortedActiveIsLong(sha, tests);
    forall t | t in SortedActive(sha, tests) ensures t.predictedMS <= longest {
      assert t in multiset(Active(tests));
    }
  }

  lemma WorkFitsTarget(sha: Digest, tests: seq<Test>, c: Constraints)
    requires var k := Normalize(c);
             CeilDiv(Sum(Durations(Active(tests))), k.targetShardSeconds * 1000) <= k.maxShards
    requires |SortedActive(sha, tests)| > BinCount(tests, c)
    ensures Sum(Durations(SortedActive(sha, tests))) <=
            BinCount(tests, c) * (Normalize(c).targetShardSeconds * 1000)
  {
    SumOfPermutation(SortedActive(sha, tests), Active(tests));
    CeilDivCovers(Sum(Durations(Active(tests))), Normalize(c).targetShardSeconds * 1000, BinCount(tests, c));
  }

  lemma CeilDivCovers(a: int, b: int, m: int)
    requires b > 0 && m >= 0 && (a > 0 ==> m >= CeilDiv(a, b))
    ensures a <= m * b
  {
    var q := CeilDiv(a, b);
    assert a <= q * b;
    if a > 0 { assert (m - q) * b >= 0; } else { assert m * b >= 0; }
  }
}

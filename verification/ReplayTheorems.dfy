/** Input order does not matter to a plan when ties in duration and hash are between
    equal tests; and when a stored plan replays to itself, ties or not. */
module ReplayTheorems {
  import opened Packing
  import opened Scheduler
  import opened PlanTheorems
  import StableSort

  /** Active tests of equal floored duration whose path, name and parameters have equal
      digests are equal. */
  ghost predicate TieFree(sha: Digest, tests: seq<Test>)
  {
    forall t, u :: t in Active(tests) && u in Active(tests) && SameTurn(sha, t, u) ==> t == u
  }

  /** Nothing in the planning order tells t and u apart. */
  predicate SameTurn(sha: Digest, t: Test, u: Test)
  {
    && t.predictedMS == u.predictedMS
    && sha(t.entry.path + "\0" + t.entry.name + "\0" + t.entry.paramsHash) ==
       sha(u.entry.path + "\0" + u.entry.name + "\0" + u.entry.paramsHash)
  }

  lemma TieFreeIdentifies(sha: Digest, tests: seq<Test>)
    requires TieFree(sha, tests)
    ensures StableSort.KeysIdentify(LptKey(sha), Active(tests))
  {
    var s := Active(tests);
    forall i, j | 0 <= i < |s| && 0 <= j < |s| && LptKey(sha)(s[i]) == LptKey(sha)(s[j]) ensures s[i] == s[j] {
      assert "\0" == ['\0'];
      assert SameTurn(sha, s[i], s[j]);
    }
  }

  lemma {:induction false} LaneConcat(a: seq<Test>, b: seq<Test>, q: bool)
    ensures Lane(a + b, q) == Lane(a, q) + Lane(b, q)
  {
    if b == [] {
      assert a + b == a;
    } else {
      var n := |b| - 1;
      var tail := if b[n].isQuarantined == q then [b[n]] else [];
      assert (a + b)[..|a| + n] == a + b[..n];
      LaneConcat(a, b[..n], q);
      assert Lane(a + b, q) == Lane(a + b[..n], q) + tail;
      assert Lane(b, q) == Lane(b[..n], q) + tail;
    }
  }

  lemma ActiveConcat(a: seq<Test>, b: seq<Test>)
    ensures Active(a + b) == Active(a) + Active(b)
  {
    LaneConcat(a, b, false);
  }

  lemma {:induction false} ActiveOfPermutation(a: seq<Test>, b: seq<Test>)
    requires multiset(a) == multiset(b)
    ensures multiset(Active(a)) == multiset(Active(b))
  {
    if a == [] {
      assert |multiset(b)| == |b|;
    } else {
      var n := |a| - 1;
      StableSort.FrontMultiset(a);
      assert a[n] in multiset(b);
      var j :| 0 <= j < |b| && b[j] == a[n];
      RemoveAt(b, j);
      ActiveOfPermutation(a[..n], b[..j] + b[j + 1..]);
      ActiveAround(a, n);
      assert a[..n] + a[n + 1..] == a[..n];
      ActiveAround(b, j);
    }
  }

  lemma ActiveAround(s: seq<Test>, j: nat)
    requires j < |s|
    ensures multiset(Active(s)) == multiset(Active(s[..j] + s[j + 1..])) + multiset(Active([s[j]]))
  {
    assert s == (s[..j] + [s[j]]) + s[j + 1..];
    ActiveConcat(s[..j] + [s[j]], s[j + 1..]);
    ActiveConcat(s[..j], [s[j]]);
    ActiveConcat(s[..j], s[j + 1..]);
  }

  /** The planner assigns tests the same way whatever order they come in. */
  lemma PlanForgetsInputOrder(sha: Digest, a: seq<Test>, b: seq<Test>, c: Constraints)
    requires multiset(a) == multiset(b) && TieFree(sha, a)
    ensures PlanOf(sha, a, c).assignments == PlanOf(sha, b, c).assignments
    ensures PlanOf(sha, a, c).makespanPredictedMS == PlanOf(sha, b, c).makespanPredictedMS
  {
    ActiveOfPermutation(a, b);
    SameActiveSameBins(sha, a, b, c);
  }

  lemma SameActiveSameBins(sha: Digest, a: seq<Test>, b: seq<Test>, c: Constraints)
    requires multiset(Active(a)) == multiset(Active(b)) && TieFree(sha, a)
    ensures PackedBins(sha, a, c) == PackedBins(sha, b, c)
  {
    TieFreeIdentifies(sha, a);
    StableSort.SortForgetsOrder(LptKey(sha), Active(a), Active(b));
    SameBinCount(a, b, c);
  }

  lemma SameBinCount(a: seq<Test>, b: seq<Test>, c: Constraints)
    requires multiset(Active(a)) == multiset(Active(b))
    ensures BinCount(a, c) == BinCount(b, c)
    ensures Sum(Durations(Active(a))) == Sum(Durations(Active(b)))
  {
    SumOfPermutation(Active(a), Active(b));
    assert |Active(a)| == |multiset(Active(a))| == |multiset(Active(b))| == |Active(b)|;
  }

  // --------------------------------------------------------------- replay

  ghost predicate Uniform(ts: seq<Test>, q: bool)
  {
    forall k :: 0 <= k < |ts| ==> ts[k].isQuarantined == q
  }

  lemma {:induction false} LaneOfUniform(ts: seq<Test>, q: bool, lane: bool)
    requires Uniform(ts, q)
    ensures Lane(ts, lane) == if q == lane then ts else []
  {
    if ts != [] {
      var n := |ts| - 1;
      assert ts == ts[..n] + [ts[n]];
      LaneOfUniform(ts[..n], q, lane);
    }
  }

  /** What the stored plan gives back to the planner: the active tests grouped by
      shard, already floored, and the quarantine lane as it was. */
  lemma ReplayInputRestoresLanes(sha: Digest, tests: seq<Test>, c: Constraints)
    ensures var p := PlanOf(sha, tests, c);
            && Active(ReplayInput(p)) == Flatten(p.assignments)
            && Lane(ReplayInput(p), true) == p.quarantineLane
            && multiset(Flatten(p.assignments)) == multiset(Active(tests))
  {
    var p := PlanOf(sha, tests, c);
    PlanConservesTests(sha, tests, c);
    ShardTestsAreFloored(sha, tests, c);
    LaneIsUniform(tests, true);
    RegroupedLanes(Flatten(p.assignments), p.quarantineLane);
  }

  lemma ShardTestsAreFloored(sha: Digest, tests: seq<Test>, c: Constraints)
    ensures forall t :: t in Flatten(PlanOf(sha, tests, c).assignments) ==>
                          !t.isQuarantined && t.predictedMS >= FLOOR_MS
  {
    PackedBinsConserve(sha, tests, c);
    FlattenDropEmptyTail(PackedBins(sha, tests, c));
    ActiveAreFloored(tests, Flatten(PlanOf(sha, tests, c).assignments));
  }

  lemma ActiveAreFloored(tests: seq<Test>, f: seq<Test>)
    requires multiset(f) == multiset(Active(tests))
    ensures forall t :: t in f ==> !t.isQuarantined && t.predictedMS >= FLOOR_MS
  {
    LaneIsUniform(tests, false);
    forall t | t in f ensures !t.isQuarantined && t.predictedMS >= FLOOR_MS {
      assert t in multiset(f);
      assert t in Active(tests);
    }
  }

  lemma RegroupedLanes(f: seq<Test>, q: seq<Test>)
    requires forall t :: t in f ==> !t.isQuarantined && t.predictedMS >= FLOOR_MS
    requires forall t :: t in q ==> t.isQuarantined
    ensures var input := Relabel(f, false) + Relabel(q, true);
            Active(input) == f && Lane(input, true) == q
  {
    assert Uniform(f, false) && Uniform(q, true);
    assert Relabel(f, false) == f && Relabel(q, true) == q;
    RegroupedLane(f, q, false);
    RegroupedLane(f, q, true);
    assert Floored(f) == f;
  }

  lemma RegroupedLane(f: seq<Test>, q: seq<Test>, lane: bool)
    requires Uniform(f, false) && Uniform(q, true)
    ensures Lane(f + q, lane) == if lane then q else f
  {
    LaneConcat(f, q, lane);
    LaneOfUniform(f, false, lane);
    LaneOfUniform(q, true, lane);
  }

  /** Replaying a plan under the constraints that produced it gives it back. */
  lemma ReplayReproducesPlan(sha: Digest, tests: seq<Test>, c: Constraints)
    requires TieFree(sha, tests)
    ensures PlanOf(sha, ReplayInput(PlanOf(sha, tests, c)), c) == PlanOf(sha, tests, c)
  {
    var input := ReplayInput(PlanOf(sha, tests, c));
    ReplayInputRestoresLanes(sha, tests, c);
    SameActiveSameBins(sha, tests, input, c);
    SameBinCount(tests, input, c);
  }

  /** Plan, store, replay: the report is "deterministic". */
  method PlanThenReplay(sha: Digest, tests: seq<Test>, c: Constraints)
    returns (plan: Plan, recomputed: Plan, deterministic: bool)
    requires TieFree(sha, tests)
    ensures plan == PlanOf(sha, tests, c) && recomputed == plan && deterministic
  {
    plan := PlanFunc(sha, tests, c);
    recomputed, deterministic := Replay(sha, plan, c);
    ReplayReproducesPlan(sha, tests, c);
  }

  // ------------------------------------------------------- replay with ties

  lemma {:induction false} UntaggedPlacementSeesDurations(a: seq<Test>, b: seq<Test>, m: nat)
    requires 0 < m && Untagged(a) && Untagged(b) && Durations(a) == Durations(b)
    ensures Placement(a, m) == Placement(b, m)
  {
    assert |a| == |Durations(a)| == |b|;
    if a != [] {
      var n := |a| - 1;
      assert Durations(a[..n]) == Durations(a)[..n] && Durations(b[..n]) == Durations(b)[..n];
      UntaggedPlacementSeesDurations(a[..n], b[..n], m);
      UntaggedMeansNoTag(a, a[n]);
      UntaggedMeansNoTag(b, b[n]);
    }
  }

  /** A placement and the contents of its bins determine the order of the tests. */
  lemma {:induction false} BinsDetermineOrder(a: seq<Test>, b: seq<Test>, g: seq<nat>, m: nat)
    requires |a| == |b| && IsPacking(g, |a|, m)
    requires forall i: nat :: i < m ==> BinTests(a, g, i) == BinTests(b, g, i)
    ensures a == b
  {
    if a != [] {
      var n := |a| - 1;
      var i := g[n];
      assert BinTests(a, g, i) == BinTests(b, g, i);
      StableSort.SameFront(BinTests(a[..n], g[..n], i), a[n], BinTests(b[..n], g[..n], i), b[n]);
      forall k: nat | k < m ensures BinTests(a[..n], g[..n], k) == BinTests(b[..n], g[..n], k) {
        assert BinTests(a, g, k) == BinTests(b, g, k);
        if k != i {
          assert BinTests(a, g, k) == BinTests(a[..n], g[..n], k);
          assert BinTests(b, g, k) == BinTests(b[..n], g[..n], k);
        }
      }
      BinsDetermineOrder(a[..n], b[..n], g[..n], m);
    }
  }

  lemma {:induction false} DurationsOfPermutation(a: seq<Test>, b: seq<Test>)
    requires multiset(a) == multiset(b)
    ensures multiset(Durations(a)) == multiset(Durations(b))
  {
    if a == [] {
      assert |multiset(b)| == |b|;
    } else {
      var n := |a| - 1;
      StableSort.FrontMultiset(a);
      assert a[n] in multiset(b);
      var j :| 0 <= j < |b| && b[j] == a[n];
      RemoveAt(b, j);
      DurationsOfPermutation(a[..n], b[..j] + b[j + 1..]);
      DurationsWithout(a, n);
      DurationsWithout(b, j);
      assert a[..n] + a[n + 1..] == a[..n];
    }
  }

  lemma DurationsWithout(a: seq<Test>, j: nat)
    requires j < |a|
    ensures multiset(Durations(a)) == multiset(Durations(a[..j] + a[j + 1..])) + multiset{a[j].predictedMS}
  {
    var d := Durations(a);
    assert d == d[..j] + [d[j]] + d[j + 1..];
    assert Durations(a[..j] + a[j + 1..]) == d[..j] + d[j + 1..];
  }

  lemma SortedDurationsAgree(sha: Digest, a: seq<Test>, b: seq<Test>)
    requires multiset(Active(a)) == multiset(Active(b))
    ensures Durations(SortedActive(sha, a)) == Durations(SortedActive(sha, b))
  {
    var x, y := SortedActive(sha, a), SortedActive(sha, b);
    LptOrderIsDescending(sha, a);
    LptOrderIsDescending(sha, b);
    DurationsOfPermutation(x, y);
    StableSort.SortedListingIsUnique((d: int) => (-d, 0), Durations(x), Durations(y));
  }

  /** The shards, read one after the other, list the tests of every tie class in the
      order of the manifest. */
  ghost predicate ListsTiesInOrder(sha: Digest, tests: seq<Test>, c: Constraints)
  {
    StableSort.Stable(LptKey(sha), Active(tests), Flatten(PlanOf(sha, tests, c).assignments))
  }

  /** Such a plan replays to itself, with exclusive tags and ties and all. */
  lemma TiesInOrderReplay(sha: Digest, tests: seq<Test>, c: Constraints)
    requires ListsTiesInOrder(sha, tests, c)
    ensures PlanOf(sha, ReplayInput(PlanOf(sha, tests, c)), c) == PlanOf(sha, tests, c)
  {
    var p := PlanOf(sha, tests, c);
    var input := ReplayInput(p);
    ReplayInputRestoresLanes(sha, tests, c);
    SameBinCount(tests, input, c);
    StableSort.SameSortIff(LptKey(sha), Active(tests), Flatten(p.assignments));
    assert SortedActive(sha, input) == SortedActive(sha, tests);
  }

  /** Without exclusive tags no other plan does. */
  lemma ReplayReproducesPlanIff(sha: Digest, tests: seq<Test>, c: Constraints)
    requires Untagged(Active(tests))
    ensures var p := PlanOf(sha, tests, c);
            PlanOf(sha, ReplayInput(p), c) == p <==> ListsTiesInOrder(sha, tests, c)
  {
    var p := PlanOf(sha, tests, c);
    var input := ReplayInput(p);
    if ListsTiesInOrder(sha, tests, c) {
      TiesInOrderReplay(sha, tests, c);
    }
    if PlanOf(sha, input, c) == p {
      ReplayInputRestoresLanes(sha, tests, c);
      SameBinCount(tests, input, c);
      SortedInputIsUntagged(sha, tests, input);
      SortedDurationsAgree(sha, tests, input);
      SamePackingSameOrder(SortedActive(sha, tests), SortedActive(sha, input), BinCount(tests, c));
      StableSort.SameSortIff(LptKey(sha), Active(tests), Flatten(p.assignments));
    }
  }

  lemma SortedInputIsUntagged(sha: Digest, tests: seq<Test>, input: seq<Test>)
    requires Untagged(Active(tests)) && multiset(Active(input)) == multiset(Active(tests))
    ensures Untagged(SortedActive(sha, tests)) && Untagged(SortedActive(sha, input))
  {
    forall t | t in Active(input) ensures NoneExclusive(t.entry.tags) {
      assert t in multiset(Active(input));
      assert t in Active(tests);
    }
    SortedIsUntagged(sha, tests);
    SortedIsUntagged(sha, input);
  }

  lemma SamePackingSameOrder(a: seq<Test>, b: seq<Test>, m: nat)
    requires 0 < m && Untagged(a) && Untagged(b) && Durations(a) == Durations(b)
    requires DropEmptyTail(Bins(a, Placement(a, m), m)) == DropEmptyTail(Bins(b, Placement(b, m), m))
    ensures a == b
  {
    var g := Placement(a, m);
    UntaggedPlacementSeesDurations(a, b, m);
    assert |a| == |Durations(a)| == |b|;
    forall i: nat | i < m ensures BinTests(a, g, i) == BinTests(b, g, i) {
      SameTailSameBin(Bins(a, g, m), Bins(b, g, m), i);
    }
    BinsDetermineOrder(a, b, g, m);
  }

  /** A bin that was dropped was empty. */
  lemma {:induction false} DroppedBinsAreEmpty(bins: seq<Assignment>, i: nat)
    requires |DropEmptyTail(bins)| <= i < |bins|
    ensures bins[i].tests == []
  {
    if i < |bins| - 1 { DroppedBinsAreEmpty(bins[..|bins| - 1], i); }
  }

  lemma SameTailSameBin(x: seq<Assignment>, y: seq<Assignment>, i: nat)
    requires DropEmptyTail(x) == DropEmptyTail(y) && |x| == |y| && i < |x|
    ensures x[i].tests == y[i].tests
  {
    if i >= |DropEmptyTail(x)| {
      DroppedBinsAreEmpty(x, i);
      DroppedBinsAreEmpty(y, i);
    } else {
      assert DropEmptyTail(x)[i] == x[i] && DropEmptyTail(y)[i] == y[i];
    }
  }

  /** Two longer tests and two shorter, in planning order: the defaults make two shards
      of them, the first and the last test in one, the other two in the other. */
  ghost predicate FourTests(sha: Digest, s: seq<Test>)
  {
    && |s| == 4 && Uniform(s, false) && Untagged(s) && StableSort.Sorted(LptKey(sha), s)
    && s[0].predictedMS == 200000 && s[1].predictedMS == 190000
    && s[2].predictedMS == 100000 && 99000 <= s[3].predictedMS <= 100000
  }

  /** With a tie between the shorter ones. */
  ghost predicate TiedExample(sha: Digest, s: seq<Test>)
  {
    FourTests(sha, s) && LptKey(sha)(s[2]) == LptKey(sha)(s[3]) && s[2] != s[3]
  }

  /** Packing state of the example after k tests: the two loads. */
  ghost predicate Packed(s: seq<Test>, k: nat, l0: int, l1: int)
    requires k <= |s|
  {
    var g := Placement(s[..k], 2);
    Load(Durations(s[..k]), g, 0) == l0 && Load(Durations(s[..k]), g, 1) == l1
  }

  lemma PackNext(s: seq<Test>, k: nat, l0: int, l1: int, b: nat)
    requires k < |s| && Packed(s, k, l0, l1) && Untagged(s)
    requires b == if l1 < l0 then 1 else 0
    ensures Placement(s[..k + 1], 2) == Placement(s[..k], 2) + [b]
    ensures Packed(s, k + 1, if b == 0 then l0 + s[k].predictedMS else l0,
                   if b == 1 then l1 + s[k].predictedMS else l1)
  {
    var ts, g := s[..k], Placement(s[..k], 2);
    var loads := Loads(Durations(ts), g, 2);
    UntaggedMeansNoTag(s, s[k]);
    assert loads[0] == l0 && loads[1] == l1;
    ArgMinIsUnique(loads, b);
    assert s[..k + 1] == ts + [s[k]];
    PlacementExtend(ts, s[k], 2);
    assert Choose(ts, g, "", 2) == b;
    LoadAppended(ts, g, s[k], b, 0);
    LoadAppended(ts, g, s[k], b, 1);
  }

  lemma LoadAppended(ts: seq<Test>, g: seq<nat>, t: Test, b: nat, i: nat)
    requires |ts| == |g|
    ensures Load(Durations(ts + [t]), g + [b], i) == Load(Durations(ts), g, i) + if b == i then t.predictedMS else 0
  {
    var more := ts + [t];
    assert more[..|ts|] == ts && (g + [b])[..|ts|] == g;
    TestAppended(more, g + [b], i);
  }

  lemma FourPlacement(sha: Digest, s: seq<Test>)
    requires FourTests(sha, s)
    ensures var g := Placement(s, 2); g[0] == 0 && g[1] == 1 && g[2] == 1 && g[3] == 0
  {
    FourStart(sha, s);
    PackNext(s, 2, 200000, 190000, 1);
    PackNext(s, 3, 200000, 290000, 0);
    FourBins(Placement(s[..2], 2), Placement(s[..3], 2), Placement(s[..4], 2));
    assert s[..4] == s;
  }

  lemma FourStart(sha: Digest, s: seq<Test>)
    requires FourTests(sha, s)
    ensures Placement(s[..2], 2) == [0, 1] && Packed(s, 2, 200000, 190000)
  {
    assert s[..0] == [];
    PackNext(s, 0, 0, 0, 0);
    PackNext(s, 1, 200000, 0, 1);
    TwoBinNumbers(Placement(s[..0], 2), Placement(s[..1], 2), Placement(s[..2], 2));
  }

  lemma TwoBinNumbers(none: seq<nat>, one: seq<nat>, two: seq<nat>)
    requires none == [] && one == none + [0] && two == one + [1]
    ensures two == [0, 1]
  {
  }

  lemma FourBins(two: seq<nat>, three: seq<nat>, four: seq<nat>)
    requires two == [0, 1] && three == two + [1] && four == three + [0]
    ensures |four| == 4 && four[0] == 0 && four[1] == 1 && four[2] == 1 && four[3] == 0
  {
  }

  lemma BinOfFour(s: seq<Test>, g: seq<nat>, i: nat)
    requires |s| == |g| == 4
    ensures BinTests(s, g, i) ==
            (if g[0] == i then [s[0]] else []) + (if g[1] == i then [s[1]] else []) +
            (if g[2] == i then [s[2]] else []) + (if g[3] == i then [s[3]] else [])
  {
    assert s[..3][..2] == s[..2] && s[..2][..1] == s[..1];
    assert g[..3][..2] == g[..2] && g[..2][..1] == g[..1];
    assert BinTests(s[..1], g[..1], i) == if g[0] == i then [s[0]] else [];
    assert BinTests(s[..2], g[..2], i) == BinTests(s[..1], g[..1], i) + if g[1] == i then [s[1]] else [];
    assert BinTests(s[..3], g[..3], i) == BinTests(s[..2], g[..2], i) + if g[2] == i then [s[2]] else [];
  }

  lemma ClassOfFour(key: Test -> StableSort.Key, s: seq<Test>, k: StableSort.Key)
    requires |s| == 4
    ensures StableSort.Class(key, s, k) ==
            (if key(s[0]) == k then [s[0]] else []) + (if key(s[1]) == k then [s[1]] else []) +
            (if key(s[2]) == k then [s[2]] else []) + (if key(s[3]) == k then [s[3]] else [])
  {
    assert s[..3][..2] == s[..2] && s[..2][..1] == s[..1];
    assert StableSort.Class(key, s[..1], k) == if key(s[0]) == k then [s[0]] else [];
    assert StableSort.Class(key, s[..2], k) ==
           StableSort.Class(key, s[..1], k) + if key(s[1]) == k then [s[1]] else [];
    assert StableSort.Class(key, s[..3], k) ==
           StableSort.Class(key, s[..2], k) + if key(s[2]) == k then [s[2]] else [];
  }

  lemma TwoBins(bins: seq<Assignment>)
    requires |bins| == 2 && bins[1].tests != []
    ensures Flatten(DropEmptyTail(bins)) == bins[0].tests + bins[1].tests
  {
    assert Flatten(bins[..1]) == bins[0].tests;
  }

  lemma SumOfFour(xs: seq<int>)
    requires |xs| == 4
    ensures Sum(xs) == xs[0] + xs[1] + xs[2] + xs[3]
  {
    assert xs[..3][..2] == xs[..2] && xs[..2][..1] == xs[..1];
    assert Sum(xs[..1]) == xs[0] && Sum(xs[..2]) == xs[0] + xs[1];
    assert Sum(xs[..3]) == xs[0] + xs[1] + xs[2];
  }

  lemma FourActive(sha: Digest, s: seq<Test>)
    requires FourTests(sha, s)
    ensures Active(s) == s && SortedActive(sha, s) == s
  {
    LaneOfUniform(s, false, false);
    assert Floored(s) == s;
    StableSort.SortOfSorted(LptKey(sha), s);
  }

  lemma FourBinCount(sha: Digest, s: seq<Test>)
    requires FourTests(sha, s)
    ensures BinCount(s, DEFAULT_CONSTRAINTS) == 2
  {
    FourActive(sha, s);
    SumOfFour(Durations(s));
    assert Normalize(DEFAULT_CONSTRAINTS) == DEFAULT_CONSTRAINTS;
    assert 589000 <= Sum(Durations(s)) <= 590000;
  }

  /** The shards list the shorter two in reverse. */
  lemma FourPlan(sha: Digest, s: seq<Test>)
    requires FourTests(sha, s)
    ensures var shards := PlanOf(sha, s, DEFAULT_CONSTRAINTS).assignments;
            && |shards| == 2 && shards[0].tests == [s[0], s[3]] && shards[1].tests == [s[1], s[2]]
            && Flatten(shards) == [s[0], s[3]] + [s[1], s[2]]
  {
    FourActive(sha, s);
    FourBinCount(sha, s);
    FourPlacement(sha, s);
    var bins := PackedBins(sha, s, DEFAULT_CONSTRAINTS);
    BinOfFour(s, Placement(s, 2), 0);
    BinOfFour(s, Placement(s, 2), 1);
    assert bins[0].tests == [s[0], s[3]] && bins[1].tests == [s[1], s[2]];
    TwoBins(bins);
  }

  lemma TiedOrder(sha: Digest, s: seq<Test>, r: seq<Test>)
    requires TiedExample(sha, s) && r == [s[0], s[3]] + [s[1], s[2]]
    ensures StableSort.Sort(LptKey(sha), r) != s
  {
    var key, k := LptKey(sha), LptKey(sha)(s[2]);
    StableSort.SortClass(key, r, k);
    ClassOfFour(key, r, k);
    ClassOfFour(key, s, k);
    assert StableSort.Class(key, r, k)[0] == s[3];
    assert StableSort.Class(key, s, k)[0] == s[2];
  }

  /** On such a manifest the freshly computed plan does not replay to itself. */
  lemma TiedExampleDiverges(sha: Digest, s: seq<Test>)
    requires TiedExample(sha, s)
    ensures var p := PlanOf(sha, s, DEFAULT_CONSTRAINTS);
            PlanOf(sha, ReplayInput(p), DEFAULT_CONSTRAINTS) != p
  {
    FourActive(sha, s);
    FourPlan(sha, s);
    var r := Flatten(PlanOf(sha, s, DEFAULT_CONSTRAINTS).assignments);
    TiedOrder(sha, s, r);
    StableSort.SameSortIff(LptKey(sha), s, r);
    ReplayReproducesPlanIff(sha, s, DEFAULT_CONSTRAINTS);
  }

  /** A test of the example: no tags, a body of its own, no flakiness predicted. */
  function Plain(name: string, body: string, ms: int): Test
  {
    Test(TestEntry("t.py", name, "", body, []), ms, false, 0.0, false)
  }

  /** Whatever the hash function, a manifest that lists one test with two bodies, which
      the hash does not see, gets a plan under the constraints in use that does not
      replay to itself. */
  lemma ReplayCanDiverge(sha: Digest) returns (s: seq<Test>)
    ensures s == [Plain("a", "", 200000), Plain("b", "", 190000), Plain("c", "1", 100000), Plain("c", "2", 100000)]
    ensures var p := PlanOf(sha, s, DEFAULT_CONSTRAINTS);
            PlanOf(sha, ReplayInput(p), DEFAULT_CONSTRAINTS) != p
  {
    s := [Plain("a", "", 200000), Plain("b", "", 190000), Plain("c", "1", 100000), Plain("c", "2", 100000)];
    assert s[2].entry.astSignature == "1" && s[3].entry.astSignature == "2";
    TiedExampleDiverges(sha, s);
  }
}

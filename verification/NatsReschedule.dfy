/** A shard dispatched over NATS runs the tests the plan gave it, but its reschedule
    subtracts recorded tests from the round-robin deal. When that loses none. */
module NatsReschedule {
  import opened Wrappers
  import opened RunStates
  import opened RoundRobin
  import opened RunCoverage
  import opened Reschedule
  import Scheduler
  import PlanTheorems
  import ReplayTheorems

  function Ids(tests: seq<Scheduler.Test>): seq<TestId>
  {
    seq(|tests|, k requires 0 <= k < |tests| =>
      TestId(tests[k].entry.path, tests[k].entry.name, tests[k].entry.paramsHash))
  }

  /** A message names each test by the path, name and parameters of its manifest entry. */
  lemma IdsAre(tests: seq<Scheduler.Test>, k: nat)
    requires k < |tests|
    ensures |Ids(tests)| == |tests| && Ids(tests)[k].path == tests[k].entry.path
    ensures Ids(tests)[k].name == tests[k].entry.name && Ids(tests)[k].paramsHash == tests[k].entry.paramsHash
  {
  }

  /** The tests in the dispatch message of shard i. */
  function Dispatched(plan: Scheduler.Plan, i: nat): seq<TestId>
  {
    if i < |plan.assignments| then Ids(plan.assignments[i].tests) else []
  }

  // ------------------------------------------------ messages carry the manifest

  lemma IdsOfConcat(a: seq<Scheduler.Test>, b: seq<Scheduler.Test>)
    ensures Ids(a + b) == Ids(a) + Ids(b)
  {
  }

  lemma {:induction false} MessagesCarryFlattened(plan: Scheduler.Plan, n: nat)
    requires n <= |plan.assignments|
    ensures Together((i: nat) => Dispatched(plan, i), n) == multiset(Ids(Scheduler.Flatten(plan.assignments[..n])))
  {
    if n > 0 {
      var front, last := plan.assignments[..n - 1], plan.assignments[n - 1];
      MessagesCarryFlattened(plan, n - 1);
      assert plan.assignments[..n][..n - 1] == front;
      assert Scheduler.Flatten(plan.assignments[..n]) == Scheduler.Flatten(front) + last.tests;
      IdsOfConcat(Scheduler.Flatten(front), last.tests);
    }
  }

  lemma {:induction false} IdsOfPermutation(a: seq<Scheduler.Test>, b: seq<Scheduler.Test>)
    requires multiset(a) == multiset(b)
    ensures multiset(Ids(a)) == multiset(Ids(b))
  {
    if a == [] {
      assert |multiset(b)| == |b|;
    } else {
      var n := |a| - 1;
      assert a == a[..n] + [a[n]];
      assert a[n] in multiset(b);
      var j :| 0 <= j < |b| && b[j] == a[n];
      PlanTheorems.RemoveAt(b, j);
      IdsOfPermutation(a[..n], b[..j] + b[j + 1..]);
      IdsOfConcat(a[..n], [a[n]]);
      IdsAround(b, j);
    }
  }

  lemma IdsAround(b: seq<Scheduler.Test>, j: nat)
    requires j < |b|
    ensures multiset(Ids(b)) == multiset(Ids(b[..j] + b[j + 1..])) + multiset(Ids([b[j]]))
  {
    assert b == b[..j] + ([b[j]] + b[j + 1..]);
    IdsOfConcat(b[..j], [b[j]] + b[j + 1..]);
    IdsOfConcat([b[j]], b[j + 1..]);
    IdsOfConcat(b[..j], b[j + 1..]);
  }

  lemma {:induction false} NothingQuarantined(tests: seq<Scheduler.Test>)
    requires forall t :: t in tests ==> !t.isQuarantined
    ensures Scheduler.Lane(tests, false) == tests
  {
    if tests != [] {
      var n := |tests| - 1;
      assert tests == tests[..n] + [tests[n]];
      NothingQuarantined(tests[..n]);
    }
  }

  /** The run manager quarantines nothing, so the messages of a plan carry every test of
      the manifest exactly once between them. */
  lemma MessagesCarryManifest(sha: Scheduler.Digest, tests: seq<Scheduler.Test>, c: Scheduler.Constraints)
    requires forall t :: t in tests ==> !t.isQuarantined
    ensures var p := Scheduler.PlanOf(sha, tests, c);
            Together((i: nat) => Dispatched(p, i), |p.assignments|) == multiset(Ids(tests))
  {
    var p := Scheduler.PlanOf(sha, tests, c);
    MessagesCarryFlattened(p, |p.assignments|);
    assert p.assignments[..|p.assignments|] == p.assignments;
    PlanTheorems.PlanConservesTests(sha, tests, c);
    IdsOfPermutation(Scheduler.Flatten(p.assignments), Scheduler.Active(tests));
    IdsOfActive(tests);
  }

  lemma IdsOfActive(tests: seq<Scheduler.Test>)
    requires forall t :: t in tests ==> !t.isQuarantined
    ensures Ids(Scheduler.Active(tests)) == Ids(tests)
  {
    NothingQuarantined(tests);
    IdsOfFloored(tests);
  }

  lemma IdsOfFloored(tests: seq<Scheduler.Test>)
    ensures Ids(Scheduler.Floored(tests)) == Ids(tests)
  {
  }

  // ------------------------------------------------ what a reschedule keeps

  /** Every test the shard was sent is recorded or goes to the replacement. */
  predicate KeepsAll(sent: seq<TestId>, intended: seq<TestId>, recorded: set<string>)
  {
    forall t :: t in sent ==> JoinKey(t) in recorded || t in Residue(intended, recorded)
  }

  lemma KeepsAllIff(sent: seq<TestId>, intended: seq<TestId>, recorded: set<string>)
    ensures KeepsAll(sent, intended, recorded) <==> forall t :: t in sent && JoinKey(t) !in recorded ==> t in intended
  {
    forall t ensures t in Residue(intended, recorded) <==> t in intended && JoinKey(t) !in recorded {
      ResidueMember(intended, recorded, t);
    }
  }

  lemma {:induction false} PartOfTogether<T>(f: nat -> seq<T>, k: nat, i: nat, x: T)
    requires i < k
    ensures multiset(f(i))[x] <= Together(f, k)[x]
  {
    if i < k - 1 { PartOfTogether(f, k - 1, i, x); }
  }

  lemma {:induction false} SomePartHolds<T>(f: nat -> seq<T>, k: nat, x: T) returns (i: nat)
    requires x in Together(f, k)
    ensures i < k && x in f(i)
  {
    if x in f(k - 1) { i := k - 1; } else { i := SomePartHolds(f, k - 1, x); }
  }

  lemma {:induction false} DistinctOnce<T>(ts: seq<T>, x: T)
    requires Distinct(ts)
    ensures multiset(ts)[x] <= 1
  {
    if ts != [] {
      var last := |ts| - 1;
      assert ts == ts[..last] + [ts[last]];
      DistinctOnce(ts[..last], x);
      assert ts[last] !in ts[..last];
    }
  }

  ghost predicate NeverLoses(m: seq<TestId>, sent: nat -> seq<TestId>, k: nat)
    requires k > 0
  {
    forall i: nat, recorded :: i < k ==> KeepsAll(sent(i), Payload(m, i, k), recorded)
  }

  ghost predicate SentAsDealt(m: seq<TestId>, sent: nat -> seq<TestId>, k: nat)
    requires k > 0
  {
    forall i: nat :: i < k ==> multiset(sent(i)) == multiset(Payload(m, i, k))
  }

  /** Every part of the partition lies within the same part of the deal. */
  ghost predicate SentWithinDealt(m: seq<TestId>, sent: nat -> seq<TestId>, k: nat)
    requires k > 0
  {
    forall i: nat, t :: i < k && t in sent(i) ==> t in Payload(m, i, k)
  }

  lemma NeverLosesIffWithin(m: seq<TestId>, sent: nat -> seq<TestId>, k: nat)
    requires k > 0
    ensures NeverLoses(m, sent, k) <==> SentWithinDealt(m, sent, k)
  {
    if NeverLoses(m, sent, k) {
      forall i: nat, t | i < k && t in sent(i) ensures t in Payload(m, i, k) {
        assert KeepsAll(sent(i), Payload(m, i, k), {});
        KeepsAllIff(sent(i), Payload(m, i, k), {});
      }
    }
    if SentWithinDealt(m, sent, k) {
      forall i: nat, recorded | i < k ensures KeepsAll(sent(i), Payload(m, i, k), recorded) {
        KeepsAllIff(sent(i), Payload(m, i, k), recorded);
      }
    }
  }

  lemma DealtAtMostOnce<T>(m: seq<T>, k: nat, i: nat, x: T)
    requires i < k && Distinct(m)
    ensures multiset(Payload(m, i, k))[x] <= 1
  {
    DistinctOnce(m, x);
    PayloadsPartitionManifest(m, k);
    PartOfTogether((j: nat) => Payload(m, j, k), k, i, x);
  }

  lemma DealtOnce<T>(m: seq<T>, k: nat, i: nat, j: nat, x: T)
    requires i < k && j < k && Distinct(m) && x in Payload(m, i, k) && x in Payload(m, j, k)
    ensures i == j
  {
    PayloadPicks(m, i, k, x);
    var p :| 0 <= p < |m| && m[p] == x;
    InPayloadIff(m, p, i, k);
    InPayloadIff(m, p, j, k);
  }

  /** A partition within the deal is the deal. */
  lemma WithinIsEqual(m: seq<TestId>, sent: nat -> seq<TestId>, k: nat, i: nat, x: TestId)
    requires i < k && Distinct(m) && Together(sent, k) == multiset(m) && SentWithinDealt(m, sent, k)
    ensures multiset(sent(i))[x] == multiset(Payload(m, i, k))[x]
  {
    DistinctOnce(m, x);
    PartOfTogether(sent, k, i, x);
    DealtAtMostOnce(m, k, i, x);
    if x in Payload(m, i, k) {
      PayloadPicks(m, i, k, x);
      assert x in multiset(m);
      var j := SomePartHolds(sent, k, x);
      DealtOnce(m, k, i, j, x);
      assert x in multiset(sent(i)) && x in multiset(Payload(m, i, k));
    } else {
      assert x !in sent(i);
    }
  }

  /** For a manifest without duplicates: no reschedule of any NATS-run shard can lose a
      test, whatever was recorded, exactly when every shard was sent what it would have
      been dealt. */
  lemma NatsNeverLosesIff(m: seq<TestId>, sent: nat -> seq<TestId>, k: nat)
    requires k > 0 && Distinct(m) && Together(sent, k) == multiset(m)
    ensures NeverLoses(m, sent, k) <==> SentAsDealt(m, sent, k)
  {
    NeverLosesIffWithin(m, sent, k);
    if SentWithinDealt(m, sent, k) {
      forall i: nat | i < k ensures multiset(sent(i)) == multiset(Payload(m, i, k)) {
        forall x ensures multiset(sent(i))[x] == multiset(Payload(m, i, k))[x] {
          WithinIsEqual(m, sent, k, i, x);
        }
      }
    }
    if SentAsDealt(m, sent, k) {
      forall i: nat, t | i < k && t in sent(i) ensures t in Payload(m, i, k) {
        assert t in multiset(sent(i));
      }
    }
  }

  /** The same for a plan of the scheduler, sent as dispatch messages. */
  lemma PlanNeverLosesIff(sha: Scheduler.Digest, tests: seq<Scheduler.Test>, c: Scheduler.Constraints)
    requires (forall t :: t in tests ==> !t.isQuarantined) && Distinct(Ids(tests))
    ensures var p := Scheduler.PlanOf(sha, tests, c);
            var sent := (i: nat) => Dispatched(p, i);
            && p.assignments != []
            && (NeverLoses(Ids(tests), sent, |p.assignments|) <==> SentAsDealt(Ids(tests), sent, |p.assignments|))
  {
    var p := Scheduler.PlanOf(sha, tests, c);
    PlanTheorems.ShardsAreNumberedAndFull(sha, tests, c);
    MessagesCarryManifest(sha, tests, c);
    NatsNeverLosesIff(Ids(tests), (i: nat) => Dispatched(p, i), |p.assignments|);
  }

  /** One reschedule of a NATS-run shard loses no test exactly when every test it was
      sent and did not record stands at a manifest position of its own turns. */
  lemma NatsRescheduleKeepsIff(db: Db, r: RunId, ids: seq<ShardId>, i: nat, sent: seq<TestId>)
    requires Numbered(db, r, ids) && i < |ids| && Distinct(db.runs[r].manifest)
    requires forall t :: t in sent ==> t in db.runs[r].manifest
    ensures ids[i] in db.shards && db.shards[ids[i]].run in db.runs
    ensures var m, k, recorded := db.runs[r].manifest, |ids|, Recorded(db, ids[i]);
            KeepsAll(sent, Dealt(db, ids[i]), recorded) <==>
            forall p :: 0 <= p < |m| && m[p] in sent && JoinKey(m[p]) !in recorded ==> p % k == i
  {
    var m, k, recorded := db.runs[r].manifest, |ids|, Recorded(db, ids[i]);
    NumberedTests(db, r, ids, i);
    KeepsAllIff(sent, Payload(m, i, k), recorded);
    forall p | 0 <= p < |m| ensures m[p] in Payload(m, i, k) <==> p % k == i {
      InPayloadIff(m, p, i, k);
    }
    if forall p :: 0 <= p < |m| && m[p] in sent && JoinKey(m[p]) !in recorded ==> p % k == i {
      forall t | t in sent && JoinKey(t) !in recorded ensures t in Payload(m, i, k) {
        var p :| 0 <= p < |m| && m[p] == t;
      }
    }
  }

  /** Shard 0 is sent tests 0 and 3 and would be dealt tests 0 and 2. */
  lemma FourthIsNotDealt(m: seq<TestId>)
    requires |m| == 4 && Distinct(m)
    ensures forall recorded :: m[3] !in Residue(Payload(m, 0, 2), recorded)
  {
    InPayloadIff(m, 3, 0, 2);
    forall recorded ensures m[3] !in Residue(Payload(m, 0, 2), recorded) {
      ResidueMember(Payload(m, 0, 2), recorded, m[3]);
    }
  }

  lemma FourthIsSent(sha: Scheduler.Digest, s: seq<Scheduler.Test>)
    requires ReplayTheorems.FourTests(sha, s)
    ensures var p := Scheduler.PlanOf(sha, s, Scheduler.DEFAULT_CONSTRAINTS);
            |p.assignments| == 2 && Ids(s)[3] in Dispatched(p, 0)
  {
    ReplayTheorems.FourPlan(sha, s);
    var p := Scheduler.PlanOf(sha, s, Scheduler.DEFAULT_CONSTRAINTS);
    assert Dispatched(p, 0)[1] == Ids(s)[3];
  }

  lemma DistinctNames(s: seq<Scheduler.Test>)
    requires forall i, j :: 0 <= i < j < |s| ==> s[i].entry.name != s[j].entry.name
    ensures Distinct(Ids(s))
  {
  }

  function LosingManifest(): seq<Scheduler.Test>
  {
    [ReplayTheorems.Plain("a", "", 200000), ReplayTheorems.Plain("b", "", 190000),
     ReplayTheorems.Plain("c", "", 100000), ReplayTheorems.Plain("d", "", 99000)]
  }

  /** Whatever the hash function: under the constraints in use, once its first shard is
      preempted after a NATS claim, this manifest loses its last test unless that one was
      recorded. */
  lemma NatsCanLose(sha: Scheduler.Digest)
    ensures var p := Scheduler.PlanOf(sha, LosingManifest(), Scheduler.DEFAULT_CONSTRAINTS);
            |p.assignments| == 2 && Ids(LosingManifest())[3] in Dispatched(p, 0)
    ensures forall recorded :: Ids(LosingManifest())[3] !in Residue(Payload(Ids(LosingManifest()), 0, 2), recorded)
  {
    var s := LosingManifest();
    LosingIsFour(sha);
    FourthIsSent(sha, s);
    LosingNamesDiffer();
    DistinctNames(s);
    FourthIsNotDealt(Ids(s));
  }

  lemma LosingIsFour(sha: Scheduler.Digest)
    ensures ReplayTheorems.FourTests(sha, LosingManifest())
  {
    var s := LosingManifest();
    assert forall t :: t in s ==> t.entry.tags == [] && !t.isQuarantined;
    assert s[0].predictedMS == 200000 && s[1].predictedMS == 190000;
    assert s[2].predictedMS == 100000 && s[3].predictedMS == 99000;
  }

  lemma LosingNamesDiffer()
    ensures var s := LosingManifest();
            forall i, j :: 0 <= i < j < |s| ==> s[i].entry.name != s[j].entry.name
  {
    var s := LosingManifest();
    assert s[0].entry.name == "a" && s[1].entry.name == "b" && s[2].entry.name == "c" && s[3].entry.name == "d";
    assert "a"[0] == 'a' && "b"[0] == 'b' && "c"[0] == 'c' && "d"[0] == 'd';
  }
}

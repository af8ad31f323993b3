/** The round-robin hand-out of a manifest to numbered shards, and the subtraction
    of recorded tests that a reschedule makes from it. */
module RoundRobin {
  import opened Wrappers

  /** The tests of ts at the positions p with p % total == index. */
  function Payload<T>(ts: seq<T>, index: nat, total: nat): seq<T>
    requires total > 0
  {
    if ts == [] then []
    else
      var last := |ts| - 1;
      Payload(ts[..last], index, total) + if last % total == index then [ts[last]] else []
  }

  /** The loop by which a worker, the gRPC service and the rescheduler pick their
      tests out of a manifest. */
  method LoadPayload<T>(ts: seq<T>, index: nat, total: nat) returns (mine: seq<T>)
    requires total > 0
    ensures mine == Payload(ts, index, total)
  {
    mine := [];
    for i := 0 to |ts|
      invariant mine == Payload(ts[..i], index, total)
    {
      assert ts[..i + 1][..i] == ts[..i];
      if i % total == index {
        mine := mine + [ts[i]];
      }
    }
    assert ts[..|ts|] == ts;
  }

  // ------------------------------------------------ payloads partition

  /** The first k of a family of payloads, together. */
  function Together<T>(payload: nat -> seq<T>, k: nat): multiset<T>
  {
    if k == 0 then multiset{} else Together(payload, k - 1) + multiset(payload(k - 1))
  }

  /** The payloads of the first k shards, together. */
  function Payloads<T>(ts: seq<T>, total: nat, k: nat): multiset<T>
    requires total > 0
  {
    Together((index: nat) => Payload(ts, index, total), k)
  }

  lemma PayloadOfOneMore<T>(ts: seq<T>, t: T, index: nat, total: nat, slot: nat)
    requires total > 0 && slot == |ts| % total
    ensures Payload(ts + [t], index, total) == Payload(ts, index, total) + if slot == index then [t] else []
  {
    assert (ts + [t])[..|ts|] == ts;
  }

  /** Adding a test to one payload of a family adds it once to the whole. */
  lemma {:induction false} OneMoreInFamily<T>(f: nat -> seq<T>, g: nat -> seq<T>, t: T, slot: nat, k: nat)
    requires forall i: nat :: g(i) == f(i) + if i == slot then [t] else []
    ensures Together(g, k) == Together(f, k) + if slot < k then multiset{t} else multiset{}
  {
    if k > 0 {
      OneMoreInFamily(f, g, t, slot, k - 1);
      assert multiset(g(k - 1)) == multiset(f(k - 1)) + if k - 1 == slot then multiset{t} else multiset{};
    }
  }

  /** Adding a test at the end changes the payload of one shard only. */
  lemma OneMoreTest<T>(ts: seq<T>, t: T, total: nat, k: nat, slot: nat)
    requires total > 0 && slot == |ts| % total
    ensures Payloads(ts + [t], total, k) == Payloads(ts, total, k) + if slot < k then multiset{t} else multiset{}
  {
    var f := (index: nat) => Payload(ts, index, total);
    var g := (index: nat) => Payload(ts + [t], index, total);
    forall i: nat ensures g(i) == f(i) + if i == slot then [t] else [] {
      PayloadOfOneMore(ts, t, i, total, slot);
    }
    OneMoreInFamily(f, g, t, slot, k);
  }

  lemma SlotExists(n: nat, total: nat) returns (slot: nat)
    requires total > 0
    ensures slot == n % total && slot < total
  {
    slot := n % total;
  }

  /** Every test of the manifest lands in exactly one of the payloads 0 .. total - 1. */
  lemma {:induction false} PayloadsPartitionManifest<T>(ts: seq<T>, total: nat)
    requires total > 0
    ensures Payloads(ts, total, total) == multiset(ts)
  {
    if ts == [] {
      NothingToShare((index: nat) => Payload(ts, index, total), total);
    } else {
      var front, t := ts[..|ts| - 1], ts[|ts| - 1];
      assert ts == front + [t];
      PayloadsPartitionManifest(front, total);
      var slot := SlotExists(|front|, total);
      OneMoreTest(front, t, total, total, slot);
      assert multiset(front + [t]) == multiset(front) + multiset{t};
    }
  }

  lemma {:induction false} NothingToShare<T>(payload: nat -> seq<T>, k: nat)
    requires forall i: nat :: payload(i) == []
    ensures Together(payload, k) == multiset{}
  {
    if k > 0 { NothingToShare(payload, k - 1); }
  }

  // -------------------------------------------------- a changed shard count

  /** Does the shard numbered index pick the same positions of a manifest of n tests
      under both shard counts? */
  ghost predicate SamePositions(n: nat, index: nat, total: nat, total': nat)
    requires total > 0 && total' > 0
  {
    forall p: nat :: p < n ==> (p % total == index <==> p % total' == index)
  }

  lemma SmallMod(a: nat, m: nat)
    requires a < m
    ensures a % m == a
  {
  }

  lemma NextMod(a: nat, m: nat)
    requires a < m
    ensures (a + m) % m == a
  {
    var q, rest := (a + m) / m, (a + m) % m;
    assert a + m == m * q + rest;
    assert m * (q - 1) == a - rest;
    MultipleOf(m, q - 1);
  }

  lemma MultipleOf(m: int, k: int)
    requires m > 0
    ensures k >= 1 ==> m * k >= m
    ensures k <= -1 ==> m * k <= -m
  {
  }

  lemma BelowFirstRepeat(p: nat, index: nat, m: nat)
    requires index < m && p < index + m
    ensures p % m == index <==> p == index
  {
    if p < m { SmallMod(p, m); }
    else { NextMod(p - m, m); }
  }

  /** A shard's payload survives a change of the shard count from total to a larger
      total' exactly when the manifest is too short for a second round. */
  lemma SamePositionsIff(n: nat, index: nat, total: nat, total': nat)
    requires index < total < total'
    ensures SamePositions(n, index, total, total') <==> n <= index + total
  {
    if n <= index + total {
      forall p: nat | p < n ensures p % total == index <==> p % total' == index {
        BelowFirstRepeat(p, index, total);
        BelowFirstRepeat(p, index, total');
      }
    } else {
      var p := index + total;
      NextMod(index, total);
      BelowFirstRepeat(p, index, total');
      assert p < n && p % total == index && p % total' != index;
    }
  }

  lemma {:induction false} PayloadByPositions<T>(ts: seq<T>, index: nat, total: nat, total': nat)
    requires total > 0 && total' > 0 && SamePositions(|ts|, index, total, total')
    ensures Payload(ts, index, total) == Payload(ts, index, total')
  {
    if ts != [] {
      PayloadByPositions(ts[..|ts| - 1], index, total, total');
    }
  }

  lemma {:induction false} InPayloadIff<T>(ts: seq<T>, p: nat, index: nat, total: nat)
    requires total > 0 && Distinct(ts) && p < |ts|
    ensures ts[p] in Payload(ts, index, total) <==> p % total == index
    decreases |ts|
  {
    var last := |ts| - 1;
    if p < last {
      InPayloadIff(ts[..last], p, index, total);
    } else {
      PayloadPicks(ts[..last], index, total, ts[last]);
    }
  }

  lemma {:induction false} PayloadPicks<T>(ts: seq<T>, index: nat, total: nat, t: T)
    requires total > 0
    ensures t in Payload(ts, index, total) ==> t in ts
  {
    if ts != [] {
      var last := |ts| - 1;
      PayloadPicks(ts[..last], index, total, t);
      assert ts == ts[..last] + [ts[last]];
    }
  }

  /** Of a manifest without duplicates, a shard keeps its payload when the shard count
      grows exactly when no second round reached it. */
  lemma PayloadKeptIff<T>(ts: seq<T>, index: nat, total: nat, total': nat)
    requires index < total < total' && Distinct(ts)
    ensures Payload(ts, index, total) == Payload(ts, index, total') <==> |ts| <= index + total
  {
    SamePositionsIff(|ts|, index, total, total');
    if |ts| <= index + total {
      PayloadByPositions(ts, index, total, total');
    } else {
      var p := index + total;
      NextMod(index, total);
      BelowFirstRepeat(p, index, total');
      InPayloadIff(ts, p, index, total);
      InPayloadIff(ts, p, index, total');
    }
  }

  /** A shard numbered beyond the end of the manifest is dealt nothing. */
  lemma {:induction false} NothingBeyondTheEnd<T>(ts: seq<T>, index: nat, total: nat)
    requires |ts| <= index < total
    ensures Payload(ts, index, total) == []
  {
    if ts != [] {
      NothingBeyondTheEnd(ts[..|ts| - 1], index, total);
      SmallMod(|ts| - 1, total);
    }
  }

  /** A shard with one turn is dealt one test. */
  lemma {:induction false} OneTurn<T>(ts: seq<T>, index: nat, total: nat)
    requires index < total && index < |ts| <= index + total
    ensures Payload(ts, index, total) == [ts[index]]
  {
    var last := |ts| - 1;
    BelowFirstRepeat(last, index, total);
    if last == index {
      NothingBeyondTheEnd(ts[..last], index, total);
    } else {
      OneTurn(ts[..last], index, total);
    }
  }

  /** Past two full rounds the remainder is one, unless one shard takes everything. */
  lemma TwoRoundsAndOne(k: nat)
    requires k >= 2
    ensures (2 * k + 1) % k == 1
  {
    NextMod(1, k);
    var q := (2 * k + 1) / k;
    assert 2 * k + 1 == k * q + (2 * k + 1) % k;
    MultipleOf(k, q - 2);
    MultipleOf(k, 2 - q);
    assert k * (q - 2) == k * q - 2 * k;
  }
}

/** Loads of jobs packed into m bins, and Graham's bound for longest-first
    greedy packing against every other packing of the same jobs. */
module Packing {

  /** Sums and sub-sequences recurse on the last element, because the greedy
      packing of a sequence extends the packing of its prefixes. */
  function Sum(xs: seq<int>): int
  {
    if xs == [] then 0 else Sum(xs[..|xs| - 1]) + xs[|xs| - 1]
  }

  /** g sends job k to bin g[k]. */
  ghost predicate IsPacking(g: seq<nat>, n: nat, m: nat)
  {
    |g| == n && forall k :: 0 <= k < n ==> g[k] < m
  }

  /** Work that packing g puts into bin i. */
  function Load(xs: seq<int>, g: seq<nat>, i: nat): int
    requires |xs| == |g|
  {
    if xs == [] then 0
    else
      var n := |xs| - 1;
      Load(xs[..n], g[..n], i) + if g[n] == i then xs[n] else 0
  }

  function Loads(xs: seq<int>, g: seq<nat>, m: nat): (r: seq<int>)
    requires |xs| == |g|
  {
    seq(m, i requires 0 <= i < m => Load(xs, g, i))
  }

  /** The first of the smallest elements. */
  function ArgMin(s: seq<int>): (i: nat)
    requires s != []
    ensures i < |s|
    ensures forall j :: 0 <= j < |s| ==> s[i] <= s[j]
    ensures forall j :: 0 <= j < i ==> s[i] < s[j]
  {
    var n := |s| - 1;
    if n == 0 then 0
    else
      var i := ArgMin(s[..n]);
      if s[n] < s[i] then n else i
  }

  lemma ArgMinIsUnique(s: seq<int>, i: nat)
    requires i < |s|
    requires forall j :: 0 <= j < |s| ==> s[i] <= s[j]
    requires forall j :: 0 <= j < i ==> s[i] < s[j]
    ensures i == ArgMin(s)
  {
    var a := ArgMin(s);
    assert s[a] <= s[i] && s[i] <= s[a];
  }

  ghost predicate LeastLoaded(xs: seq<int>, g: seq<nat>, m: nat, b: nat)
    requires |xs| == |g|
  {
    b < m && forall i: nat :: i < m ==> Load(xs, g, b) <= Load(xs, g, i)
  }

  /** Greedy packing: every job goes to a bin that is least loaded before it. */
  ghost predicate IsGreedy(xs: seq<int>, g: seq<nat>, m: nat)
    requires |xs| == |g|
  {
    xs == [] ||
    var n := |xs| - 1;
    IsGreedy(xs[..n], g[..n], m) && LeastLoaded(xs[..n], g[..n], m, g[n])
  }

  ghost predicate Descending(xs: seq<int>)
  {
    forall j, k :: 0 <= j <= k < |xs| ==> xs[j] >= xs[k]
  }

  // ---------------------------------------------------------------- sums

  lemma {:induction false} SumUpdate(s: seq<int>, i: nat, d: int)
    requires i < |s|
    ensures Sum(s[i := s[i] + d]) == Sum(s) + d
  {
    var n := |s| - 1;
    var t := s[i := s[i] + d];
    if i < n {
      SumUpdate(s[..n], i, d);
      assert t[..n] == s[..n][i := s[..n][i] + d];
    } else {
      assert t[..n] == s[..n];
    }
  }

  lemma {:induction false} SumZeros(s: seq<int>)
    requires forall k :: 0 <= k < |s| ==> s[k] == 0
    ensures Sum(s) == 0
  {
    if s != [] { SumZeros(s[..|s| - 1]); }
  }

  /** No work is lost or counted twice: bin loads add up to the total. */
  lemma {:induction false} LoadsAddUp(xs: seq<int>, g: seq<nat>, m: nat)
    requires IsPacking(g, |xs|, m)
    ensures Sum(Loads(xs, g, m)) == Sum(xs)
  {
    if xs == [] {
      SumZeros(Loads(xs, g, m));
    } else {
      var n := |xs| - 1;
      var before := Loads(xs[..n], g[..n], m);
      LoadsAddUp(xs[..n], g[..n], m);
      SumUpdate(before, g[n], xs[n]);
      assert Loads(xs, g, m) == before[g[n] := before[g[n]] + xs[n]];
    }
  }

  lemma {:induction false} SumAtMost(s: seq<int>, c: int)
    requires forall k :: 0 <= k < |s| ==> s[k] <= c
    ensures Sum(s) <= |s| * c
  {
    if s != [] {
      SumAtMost(s[..|s| - 1], c);
      assert |s| * c == (|s| - 1) * c + c;
    }
  }

  lemma {:induction false} SumAtLeast(s: seq<int>, c: int)
    requires forall k :: 0 <= k < |s| ==> s[k] >= c
    ensures Sum(s) >= |s| * c
  {
    if s != [] {
      SumAtLeast(s[..|s| - 1], c);
      assert |s| * c == (|s| - 1) * c + c;
    }
  }

  lemma {:induction false} LoadMonotone(xs: seq<int>, g: seq<nat>, k: nat, i: nat)
    requires |xs| == |g| && k <= |xs|
    requires forall j :: 0 <= j < |xs| ==> xs[j] >= 0
    ensures Load(xs[..k], g[..k], i) <= Load(xs, g, i)
    decreases |xs|
  {
    if k < |xs| {
      var n := |xs| - 1;
      LoadMonotone(xs[..n], g[..n], k, i);
      assert xs[..n][..k] == xs[..k] && g[..n][..k] == g[..k];
    } else {
      assert xs[..k] == xs && g[..k] == g;
    }
  }

  // ------------------------------------------------- the counting argument

  /** A job weighs 2 when no other job of length at least d fits beside it
      within capacity c, and 1 otherwise. */
  function Weights(xs: seq<int>, d: int, c: int): seq<int>
  {
    seq(|xs|, k requires 0 <= k < |xs| => if xs[k] + d > c then 2 else 1)
  }

  /** What the weight of a bin says about its load when every job is at least d
      and three such jobs overflow c. */
  lemma {:induction false} WeightOfBin(xs: seq<int>, g: seq<nat>, i: nat, d: int, c: int)
    requires |xs| == |g|
    requires forall k :: 0 <= k < |xs| ==> d <= xs[k]
    requires 0 < d <= c < 3 * d
    ensures var w, l := Load(Weights(xs, d, c), g, i), Load(xs, g, i);
            && 0 <= w && 0 <= l
            && (w == 0 ==> l == 0)
            && (w == 1 ==> d <= l <= c - d)
            && (w >= 2 ==> l + d > c)
            && (w >= 3 ==> l > c)
  {
    if xs != [] {
      var n := |xs| - 1;
      WeightOfBin(xs[..n], g[..n], i, d, c);
      assert Weights(xs, d, c)[..n] == Weights(xs[..n], d, c);
    }
  }

  /** If all jobs seen so far are longer than a third of the best makespan c,
      the least loaded bin still has room for the next one within c. */
  lemma LongJobFits(xs: seq<int>, g: seq<nat>, h: seq<nat>, m: nat, d: int, c: int)
    requires 0 < m && IsPacking(g, |xs|, m) && IsPacking(h, |xs| + 1, m)
    requires forall k :: 0 <= k < |xs| ==> d <= xs[k]
    requires 0 < d && c < 3 * d
    requires forall i :: 0 <= i < m ==> Load(xs + [d], h, i) <= c
    ensures exists i :: 0 <= i < m && Load(xs, g, i) + d <= c
  {
    var all := xs + [d];
    assert all[..|xs|] == xs;
    LoadMonotoneZero(xs, h[..|xs|], h[|xs|]);
    assert d <= Load(all, h, h[|xs|]);
    if forall i :: 0 <= i < m ==> Load(xs, g, i) + d > c {
      var wx, wa := Weights(xs, d, c), Weights(all, d, c);
      assert wa[..|xs|] == wx;
      forall i | 0 <= i < m
        ensures Loads(wx, g, m)[i] >= 2 && Loads(wa, h, m)[i] <= 2
      {
        WeightOfBin(xs, g, i, d, c);
        WeightOfBin(all, h, i, d, c);
      }
      SumAtLeast(Loads(wx, g, m), 2);
      SumAtMost(Loads(wa, h, m), 2);
      LoadsAddUp(wx, g, m);
      LoadsAddUp(wa, h, m);
      assert false;
    }
  }

  lemma LoadMonotoneZero(xs: seq<int>, g: seq<nat>, i: nat)
    requires |xs| == |g|
    requires forall j :: 0 <= j < |xs| ==> xs[j] >= 0
    ensures Load(xs, g, i) >= 0
  {
    LoadMonotone(xs, g, 0, i);
  }

  /** m times the smallest load is at most the work placed so far. */
  lemma LeastLoadedIsBelowAverage(xs: seq<int>, g: seq<nat>, m: nat, l: int)
    requires IsPacking(g, |xs|, m)
    requires forall i :: 0 <= i < m ==> l <= Load(xs, g, i)
    ensures m * l <= Sum(xs)
  {
    LoadsAddUp(xs, g, m);
    SumAtLeast(Loads(xs, g, m), l);
  }

  lemma WorkFitsUnder(xs: seq<int>, h: seq<nat>, m: nat, c: int)
    requires IsPacking(h, |xs|, m)
    requires forall i :: 0 <= i < m ==> Load(xs, h, i) <= c
    ensures Sum(xs) <= m * c
  {
    LoadsAddUp(xs, h, m);
    SumAtMost(Loads(xs, h, m), c);
  }

  /** One greedy step: the bin that receives job d stays within the bound. */
  lemma GrahamStep(xs: seq<int>, g: seq<nat>, h: seq<nat>, m: nat, d: int, c: int, b: nat)
    requires IsPacking(g, |xs|, m) && IsPacking(h, |xs| + 1, m)
    requires 0 < d && forall k :: 0 <= k < |xs| ==> d <= xs[k]
    requires LeastLoaded(xs, g, m, b)
    requires forall i :: 0 <= i < m ==> Load(xs + [d], h, i) <= c
    ensures 3 * m * (Load(xs, g, b) + d) <= (4 * m - 1) * c
  {
    var l := Load(xs, g, b);
    var all := xs + [d];
    assert all[..|xs|] == xs;
    WorkFitsUnder(all, h, m, c);
    assert Sum(all) == Sum(xs) + d;
    LeastLoadedIsBelowAverage(xs, g, m, l);
    if c < 3 * d {
      LongJobFits(xs, g, h, m, d, c);
      LoadMonotoneZero(xs, g, b);
      ScaleLong(m, l + d, c);
    } else {
      ScaleShort(m, l, d, c);
    }
  }

  lemma ScaleLong(m: nat, x: int, c: int)
    requires 1 <= m && 0 <= x <= c
    ensures 3 * m * x <= (4 * m - 1) * c
  {
    assert m * x <= m * c;
    assert 3 * m * x == 3 * (m * x) && (4 * m - 1) * c == 4 * (m * c) - c;
    assert c <= m * c;
  }

  lemma ScaleShort(m: nat, l: int, d: int, c: int)
    requires 1 <= m && 3 * d <= c && m * l <= m * c - d
    ensures 3 * m * (l + d) <= (4 * m - 1) * c
  {
    assert 3 * m * (l + d) == 3 * (m * l) + 3 * (m * d);
    assert (m - 1) * (3 * d) <= (m - 1) * c;
    assert (m - 1) * (3 * d) == 3 * (m * d) - 3 * d;
    assert (m - 1) * c == m * c - c && (4 * m - 1) * c == 4 * (m * c) - c;
  }

  /** Graham's theorem. Longest-first greedy packing g of xs into m bins is
      within (4/3 - 1/(3m)) of every packing h of xs into m bins whose makespan is
      at most c, so in particular of an optimal one. */
  lemma {:induction false} GrahamBound(xs: seq<int>, g: seq<nat>, h: seq<nat>, m: nat, c: int)
    requires 0 < m && IsPacking(g, |xs|, m) && IsPacking(h, |xs|, m)
    requires Descending(xs) && forall k :: 0 <= k < |xs| ==> 0 < xs[k]
    requires IsGreedy(xs, g, m)
    requires forall i :: 0 <= i < m ==> Load(xs, h, i) <= c
    ensures forall i :: 0 <= i < m ==> 3 * m * Load(xs, g, i) <= (4 * m - 1) * c
  {
    if xs == [] {
      assert Load(xs, h, 0) == 0;
      ScaleLong(m, 0, c);
    } else {
      var n := |xs| - 1;
      var ys, d := xs[..n], xs[n];
      assert xs == ys + [d];
      forall i | 0 <= i < m ensures Load(ys, h[..n], i) <= c {
        LoadMonotone(xs, h, n, i);
      }
      GrahamBound(ys, g[..n], h[..n], m, c);
      GrahamStep(ys, g[..n], h, m, d, c, g[n]);
      forall i | 0 <= i < m ensures 3 * m * Load(xs, g, i) <= (4 * m - 1) * c {
        assert Load(xs, g, i) == Load(ys, g[..n], i) + if g[n] == i then d else 0;
      }
    }
  }

  lemma CancelFactor(m: nat, l: int, t: int, s: int)
    requires 0 < m && m * l <= s && s <= m * t
    ensures l <= t
  {
    var gap := l - t;
    assert m * gap == m * l - m * t;
    assert gap > 0 ==> m * gap > 0;
  }

  /** List-scheduling bound: when m bins of size t hold all the work, no greedy
      bin exceeds t by more than one longest job. */
  lemma {:induction false} TargetBound(xs: seq<int>, g: seq<nat>, m: nat, t: int, longest: int)
    requires IsPacking(g, |xs|, m) && IsGreedy(xs, g, m)
    requires forall k :: 0 <= k < |xs| ==> 0 < xs[k] <= longest
    requires 0 <= t && 0 <= longest && Sum(xs) <= m * t
    ensures forall i :: 0 <= i < m ==> Load(xs, g, i) <= t + longest
  {
    if xs != [] {
      var n := |xs| - 1;
      var ys := xs[..n];
      TargetBound(ys, g[..n], m, t, longest);
      var l := Load(ys, g[..n], g[n]);
      LeastLoadedIsBelowAverage(ys, g[..n], m, l);
      CancelFactor(m, l, t, Sum(ys));
    }
  }

  /** Fewer jobs than bins leave a bin empty. */
  lemma EmptyBinExists(xs: seq<int>, g: seq<nat>, m: nat)
    requires IsPacking(g, |xs|, m) && |xs| < m
    requires forall k :: 0 <= k < |xs| ==> 0 < xs[k]
    ensures exists i :: 0 <= i < m && Load(xs, g, i) == 0
  {
    var w := Weights(xs, 1, 1);
    if forall i :: 0 <= i < m ==> Load(xs, g, i) != 0 {
      forall i | 0 <= i < m ensures Loads(w, g, m)[i] >= 2 {
        WeightOfBin(xs, g, i, 1, 1);
      }
      SumAtLeast(Loads(w, g, m), 2);
      LoadsAddUp(w, g, m);
      SumAtMost(w, 2);
      assert false;
    }
  }

  /** With at least as many bins as jobs, greedy packing never stacks two jobs. */
  lemma {:induction false} FewJobsBound(xs: seq<int>, g: seq<nat>, m: nat, longest: int)
    requires IsPacking(g, |xs|, m) && IsGreedy(xs, g, m) && |xs| <= m
    requires 0 <= longest && forall k :: 0 <= k < |xs| ==> 0 < xs[k] <= longest
    ensures forall i :: 0 <= i < m ==> Load(xs, g, i) <= longest
  {
    if xs != [] {
      var n := |xs| - 1;
      FewJobsBound(xs[..n], g[..n], m, longest);
      EmptyBinExists(xs[..n], g[..n], m);
    }
  }
}

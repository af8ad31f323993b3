/** Back-linking failed executions to clusters: a keyset-paged scan, and a loop that
    caches the stack and the cluster of a trace. */
module Backfill {
  import opened Wrappers

  type ExecId = nat     // 0 is the nil id that the first page starts after
  type Trace = string
  type Repo = string
  type Cluster = string // "" when the fingerprint came out empty

  datatype ExecRow = ExecRow(id: ExecId, repo: Repo, trace: Trace)

  datatype Stack = Stack(text: string, message: string)

  /** What the outside answers, the same whenever it is asked; None is an error. */
  datatype Seams = Seams(stackFor: Trace -> Option<Stack>,
                         fingerprint: string -> string,
                         clusterFor: (Repo, string, string) -> Option<Cluster>,
                         assignFails: (ExecId, Cluster) -> bool)

  datatype Stats = Stats(scanned: nat, linked: nat, skippedNoStack: nat, skippedNoFingerprint: nat,
                         errors: nat, previewClusters: nat)

  const PAGE_SIZE := 5000

  // ------------------------------------------------ the scan

  function Least(ids: set<ExecId>): (m: ExecId)
    requires ids != {}
    ensures m in ids && forall id :: id in ids ==> m <= id
  {
    LeastExists(ids);
    var m :| m in ids && forall id :: id in ids ==> m <= id;
    m
  }

  lemma LeastExists(ids: set<ExecId>)
    requires ids != {}
    ensures exists m :: m in ids && forall id :: id in ids ==> m <= id
  {
    var x :| x in ids;
    LeastBelow(ids, x);
  }

  lemma LeastBelow(ids: set<ExecId>, x: ExecId)
    requires x in ids
    ensures exists m :: m in ids && forall id :: id in ids ==> m <= id
    decreases x
  {
    if y :| y in ids && y < x {
      LeastBelow(ids, y);
    }
  }

  function Above(ids: set<ExecId>, after: ExecId): set<ExecId>
  {
    set id | id in ids && id > after
  }

  /** The whole one-shot query: every id above after, in order. */
  function Scan(ids: set<ExecId>, after: ExecId): seq<ExecId>
    decreases |Above(ids, after)|
  {
    var rest := Above(ids, after);
    if rest == {} then []
    else
      var m := Least(rest);
      Shrinks(ids, after, m);
      [m] + Scan(ids, m)
  }

  lemma Shrinks(ids: set<ExecId>, after: ExecId, m: ExecId)
    requires m in Above(ids, after)
    ensures |Above(ids, m)| < |Above(ids, after)|
  {
    var less := Above(ids, after) - {m};
    assert Above(ids, m) <= less;
    SubsetIsNotLarger(Above(ids, m), less);
  }

  /** The query returns exactly the ids above after, strictly increasing, so each of
      them once. */
  lemma {:induction false} ScanIsExact(ids: set<ExecId>, after: ExecId)
    ensures forall id :: id in Scan(ids, after) <==> id in ids && id > after
    ensures forall i, j :: 0 <= i < j < |Scan(ids, after)| ==> Scan(ids, after)[i] < Scan(ids, after)[j]
    decreases |Above(ids, after)|
  {
    var rest := Above(ids, after);
    assert forall id :: id in rest <==> id in ids && id > after;
    if rest != {} {
      var m := Least(rest);
      Shrinks(ids, after, m);
      ScanIsExact(ids, m);
      assert Scan(ids, after) == [m] + Scan(ids, m);
      forall i | 0 <= i < |Scan(ids, m)| ensures Scan(ids, m)[i] > m {
        assert Scan(ids, m)[i] in Scan(ids, m);
      }
      forall id ensures id in Scan(ids, after) <==> id in ids && id > after {
        if id in ids && id > after { assert id in rest; }
      }
    }
  }

  /** What follows k rows of a scan is the scan that starts after the k-th. */
  lemma {:induction false} ScanResumes(ids: set<ExecId>, after: ExecId, k: nat)
    requires 0 < k <= |Scan(ids, after)|
    ensures Scan(ids, after)[k..] == Scan(ids, Scan(ids, after)[k - 1])
    ensures Scan(ids, after)[k - 1] in Above(ids, after)
    decreases k
  {
    var m := Least(Above(ids, after));
    assert Scan(ids, after) == [m] + Scan(ids, m);
    if k > 1 {
      ScanResumes(ids, m, k - 1);
      assert Scan(ids, after)[k..] == Scan(ids, m)[k - 1..];
    }
  }

  /** A full page and the scan from its last row on make up the scan. */
  lemma NextPage(ids: set<ExecId>, after: ExecId, page: seq<ExecId>, last: ExecId)
    requires |page| == PAGE_SIZE <= |Scan(ids, after)| && page == Scan(ids, after)[..PAGE_SIZE]
    requires last == page[PAGE_SIZE - 1]
    ensures Scan(ids, after) == page + Scan(ids, last)
    ensures |Above(ids, last)| < |Above(ids, after)|
  {
    ScanResumes(ids, after, PAGE_SIZE);
    Shrinks(ids, after, last);
  }

  lemma Reassociate(a: seq<ExecId>, b: seq<ExecId>, c: seq<ExecId>)
    ensures a + (b + c) == (a + b) + c
  {
  }

  // ------------------------------------------------ one row at a time

  datatype Outcome = FetchError | NoStack | Previewed(fingerprint: string) | NoFingerprint
                   | ResolveError | AssignError(cluster: Cluster) | Linked(cluster: Cluster)

  /** What becomes of a row whose trace resolves to the given answer. */
  function Conclude(seams: Seams, id: ExecId, resolved: Option<Cluster>): Outcome
  {
    match resolved
    case None => ResolveError
    case Some(c) =>
      if c == "" then NoFingerprint
      else if seams.assignFails(id, c) then AssignError(c) else Linked(c)
  }

  function Preview(seams: Seams, text: string): Outcome
  {
    var fp := seams.fingerprint(text);
    if fp == "" then NoFingerprint else Previewed(fp)
  }

  /** The row by itself, every query asked afresh. */
  function OutcomeOf(seams: Seams, dryRun: bool, row: ExecRow): Outcome
  {
    match seams.stackFor(row.trace)
    case None => FetchError
    case Some(stack) =>
      if stack.text == "" then NoStack
      else if dryRun then Preview(seams, stack.text)
      else Conclude(seams, row.id, seams.clusterFor(row.repo, stack.text, stack.message))
  }

  function Uncached(seams: Seams, dryRun: bool, rows: seq<ExecRow>): seq<Outcome>
  {
    if rows == [] then []
    else
      var last := |rows| - 1;
      Uncached(seams, dryRun, rows[..last]) + [OutcomeOf(seams, dryRun, rows[last])]
  }

  // ------------------------------------------------ with the cluster cache

  /** Does the row get as far as a cluster? */
  predicate Resolves(seams: Seams, row: ExecRow)
  {
    seams.stackFor(row.trace).Some? && seams.stackFor(row.trace).value.text != ""
  }

  function Resolve(seams: Seams, row: ExecRow): Option<Cluster>
    requires Resolves(seams, row)
  {
    var stack := seams.stackFor(row.trace).value;
    seams.clusterFor(row.repo, stack.text, stack.message)
  }

  /** A resolver's answer is remembered, an error is not. */
  function CacheStep(seams: Seams, dryRun: bool, cache: map<Trace, Cluster>, row: ExecRow): map<Trace, Cluster>
  {
    if !dryRun && Resolves(seams, row) && row.trace !in cache && Resolve(seams, row).Some?
    then cache[row.trace := Resolve(seams, row).value] else cache
  }

  /** The clusters remembered after these rows: per trace, of the first row for which
      the resolver answered. */
  function CacheAfter(seams: Seams, dryRun: bool, rows: seq<ExecRow>): map<Trace, Cluster>
  {
    if rows == [] then map[]
    else CacheStep(seams, dryRun, CacheAfter(seams, dryRun, rows[..|rows| - 1]), rows[|rows| - 1])
  }

  function CachedOutcome(seams: Seams, dryRun: bool, cache: map<Trace, Cluster>, row: ExecRow): Outcome
  {
    if !dryRun && Resolves(seams, row) && row.trace in cache
    then Conclude(seams, row.id, Some(cache[row.trace]))
    else OutcomeOf(seams, dryRun, row)
  }

  function Cached(seams: Seams, dryRun: bool, rows: seq<ExecRow>): seq<Outcome>
  {
    if rows == [] then []
    else
      var last := |rows| - 1;
      Cached(seams, dryRun, rows[..last]) +
      [CachedOutcome(seams, dryRun, CacheAfter(seams, dryRun, rows[..last]), rows[last])]
  }

  predicate OneRepoPerTrace(rows: seq<ExecRow>)
  {
    forall i, j :: 0 <= i < j < |rows| && rows[i].trace == rows[j].trace ==> rows[i].repo == rows[j].repo
  }

  lemma {:induction false} CacheRemembers(seams: Seams, dryRun: bool, rows: seq<ExecRow>, t: Trace) returns (i: nat)
    requires t in CacheAfter(seams, dryRun, rows)
    ensures i < |rows| && rows[i].trace == t && Resolves(seams, rows[i])
    ensures Resolve(seams, rows[i]) == Some(CacheAfter(seams, dryRun, rows)[t])
  {
    var last := |rows| - 1;
    if t in CacheAfter(seams, dryRun, rows[..last]) {
      i := CacheRemembers(seams, dryRun, rows[..last], t);
    } else {
      i := last;
    }
  }

  /** While every trace belongs to one repository, the cached loop decides each row as
      the uncached one does. */
  lemma {:induction false} CacheIsInvisible(seams: Seams, dryRun: bool, rows: seq<ExecRow>)
    requires OneRepoPerTrace(rows)
    ensures Cached(seams, dryRun, rows) == Uncached(seams, dryRun, rows)
  {
    if rows != [] {
      var front, row := rows[..|rows| - 1], rows[|rows| - 1];
      CacheIsInvisible(seams, dryRun, front);
      var cache := CacheAfter(seams, dryRun, front);
      if row.trace in cache {
        var i := CacheRemembers(seams, dryRun, front, row.trace);
        assert rows[i].repo == row.repo;
      }
    }
  }

  /** Seams under which every repository has a cluster of its own. */
  function ClusterPerRepo(): Seams
  {
    Seams((t: Trace) => Some(Stack("s", "m")),
          (text: string) => text,
          (repo: Repo, text: string, message: string) => Some("c" + repo),
          (id: ExecId, c: Cluster) => false)
  }

  lemma {:induction false} FirstRepoWins(rows: seq<ExecRow>, i: nat)
    requires i < |rows|
    requires forall j :: 0 <= j < i ==> rows[j].trace != rows[i].trace
    ensures rows[i].trace in CacheAfter(ClusterPerRepo(), false, rows)
    ensures CacheAfter(ClusterPerRepo(), false, rows)[rows[i].trace] == "c" + rows[i].repo
    decreases |rows|
  {
    var last, s := |rows| - 1, ClusterPerRepo();
    if i < last {
      FirstRepoWins(rows[..last], i);
    } else if rows[i].trace in CacheAfter(s, false, rows[..last]) {
      var j := CacheRemembers(s, false, rows[..last], rows[i].trace);
      assert false;
    }
  }

  lemma {:induction false} OutcomesInStep(seams: Seams, dryRun: bool, rows: seq<ExecRow>)
    ensures |Cached(seams, dryRun, rows)| == |Uncached(seams, dryRun, rows)| == |rows|
  {
    if rows != [] { OutcomesInStep(seams, dryRun, rows[..|rows| - 1]); }
  }

  lemma {:induction false} UncachedAt(seams: Seams, dryRun: bool, rows: seq<ExecRow>, k: nat)
    requires k < |rows|
    ensures |Uncached(seams, dryRun, rows)| == |rows|
    ensures Uncached(seams, dryRun, rows)[k] == OutcomeOf(seams, dryRun, rows[k])
    decreases |rows|
  {
    var last := |rows| - 1;
    OutcomesInStep(seams, dryRun, rows);
    OutcomesInStep(seams, dryRun, rows[..last]);
    if k < last {
      UncachedAt(seams, dryRun, rows[..last], k);
    }
  }

  lemma {:induction false} CachedAt(seams: Seams, dryRun: bool, rows: seq<ExecRow>, k: nat)
    requires k < |rows|
    ensures |Cached(seams, dryRun, rows)| == |rows|
    ensures Cached(seams, dryRun, rows)[k]
         == CachedOutcome(seams, dryRun, CacheAfter(seams, dryRun, rows[..k]), rows[k])
    decreases |rows|
  {
    var last := |rows| - 1;
    OutcomesInStep(seams, dryRun, rows);
    OutcomesInStep(seams, dryRun, rows[..last]);
    if k < last {
      CachedAt(seams, dryRun, rows[..last], k);
      assert rows[..last][..k] == rows[..k];
    }
  }

  lemma FirstOfTrace(rows: seq<ExecRow>, k: nat) returns (i: nat)
    requires k < |rows|
    ensures i <= k && rows[i].trace == rows[k].trace
    ensures forall j :: 0 <= j < i ==> rows[j].trace != rows[k].trace
  {
    i := 0;
    while rows[i].trace != rows[k].trace
      invariant i <= k && forall j :: 0 <= j < i ==> rows[j].trace != rows[k].trace
      decreases k - i
    {
      i := i + 1;
    }
  }

  /** The cache is invisible to every resolver exactly when no trace is shared between
      repositories. */
  lemma CacheIsInvisibleIff(rows: seq<ExecRow>)
    ensures (forall seams: Seams, dryRun: bool :: Cached(seams, dryRun, rows) == Uncached(seams, dryRun, rows)) <==>
            OneRepoPerTrace(rows)
  {
    if OneRepoPerTrace(rows) {
      forall seams: Seams, dryRun: bool ensures Cached(seams, dryRun, rows) == Uncached(seams, dryRun, rows) {
        CacheIsInvisible(seams, dryRun, rows);
      }
    } else {
      var a, b :| 0 <= a < b < |rows| && rows[a].trace == rows[b].trace && rows[a].repo != rows[b].repo;
      var i := FirstOfTrace(rows, b);
      var k := if rows[a].repo != rows[i].repo then a else b;
      var s := ClusterPerRepo();
      assert i < k;
      FirstRepoWins(rows[..k], i);
      CachedAt(s, false, rows, k);
      UncachedAt(s, false, rows, k);
      DifferentClusters(rows[i].repo, rows[k].repo);
      assert Cached(s, false, rows) != Uncached(s, false, rows);
    }
  }

  lemma DifferentClusters(a: Repo, b: Repo)
    requires a != b
    ensures "c" + a != "c" + b
  {
    assert ("c" + a)[1..] == a && ("c" + b)[1..] == b;
  }

  // ------------------------------------------------ the numbers

  function Tally(outcomes: seq<Outcome>): Stats
  {
    if outcomes == [] then Stats(0, 0, 0, 0, 0, 0)
    else Count(Tally(outcomes[..|outcomes| - 1]), outcomes[|outcomes| - 1])
  }

  function Count(s: Stats, o: Outcome): Stats
  {
    var t := s.(scanned := s.scanned + 1);
    match o
    case NoStack => t.(skippedNoStack := t.skippedNoStack + 1)
    case NoFingerprint => t.(skippedNoFingerprint := t.skippedNoFingerprint + 1)
    case Linked(_) => t.(linked := t.linked + 1)
    case Previewed(_) => t
    case _ => t.(errors := t.errors + 1)
  }

  function Fingerprints(outcomes: seq<Outcome>): set<string>
  {
    set i | 0 <= i < |outcomes| && outcomes[i].Previewed? :: outcomes[i].fingerprint
  }

  lemma {:induction false} TallyIsExact(outcomes: seq<Outcome>)
    requires forall i :: 0 <= i < |outcomes| ==> !outcomes[i].Previewed?
    ensures var t := Tally(outcomes);
            t.scanned == |outcomes| == t.linked + t.skippedNoStack + t.skippedNoFingerprint + t.errors
  {
    if outcomes != [] { TallyIsExact(outcomes[..|outcomes| - 1]); }
  }

  lemma {:induction false} NothingIsPreviewed(seams: Seams, rows: seq<ExecRow>)
    ensures |Cached(seams, false, rows)| == |rows|
    ensures forall i :: 0 <= i < |rows| ==> !Cached(seams, false, rows)[i].Previewed?
  {
    if rows != [] { NothingIsPreviewed(seams, rows[..|rows| - 1]); }
  }

  /** How many outcomes are of a kind. */
  function HowMany(outcomes: seq<Outcome>, kind: Outcome -> bool): nat
  {
    if outcomes == [] then 0
    else HowMany(outcomes[..|outcomes| - 1], kind) + if kind(outcomes[|outcomes| - 1]) then 1 else 0
  }

  /** Every counter is the number of rows with its outcome. */
  lemma {:induction false} CountersCount(outcomes: seq<Outcome>)
    ensures var t := Tally(outcomes);
            && t.scanned == |outcomes| && t.previewClusters == 0
            && t.linked == HowMany(outcomes, (o: Outcome) => o.Linked?)
            && t.skippedNoStack == HowMany(outcomes, (o: Outcome) => o == NoStack)
            && t.skippedNoFingerprint == HowMany(outcomes, (o: Outcome) => o == NoFingerprint)
            && t.errors == HowMany(outcomes, (o: Outcome) => o == FetchError || o == ResolveError || o.AssignError?)
  {
    if outcomes != [] { CountersCount(outcomes[..|outcomes| - 1]); }
  }

  /** What becomes of a row by itself, in terms of what the outside answers. */
  lemma OutcomeIff(seams: Seams, dryRun: bool, row: ExecRow, stack: Stack)
    ensures OutcomeOf(seams, dryRun, row) == FetchError <==> seams.stackFor(row.trace) == None
    ensures seams.stackFor(row.trace) == Some(stack) ==>
              var o, found := OutcomeOf(seams, dryRun, row), seams.clusterFor(row.repo, stack.text, stack.message);
              && (o == NoStack <==> stack.text == "")
              && (forall c :: o == Linked(c) <==>
                    !dryRun && stack.text != "" && found == Some(c) && c != "" && !seams.assignFails(row.id, c))
              && (forall c :: o == AssignError(c) <==>
                    !dryRun && stack.text != "" && found == Some(c) && c != "" && seams.assignFails(row.id, c))
              && (o == ResolveError <==> !dryRun && stack.text != "" && found == None)
              && (forall fp :: o == Previewed(fp) <==>
                    dryRun && stack.text != "" && seams.fingerprint(stack.text) == fp != "")
              && (o == NoFingerprint <==>
                    stack.text != "" && if dryRun then seams.fingerprint(stack.text) == "" else found == Some(""))
  {
  }

  /** A dry run previews the fingerprints of the stacks it found, each once. */
  lemma {:induction false} PreviewIff(seams: Seams, rows: seq<ExecRow>, fp: string)
    ensures fp in Fingerprints(Cached(seams, true, rows)) <==>
              fp != "" && exists i :: 0 <= i < |rows| && seams.stackFor(rows[i].trace).Some? &&
                                      seams.stackFor(rows[i].trace).value.text != "" &&
                                      seams.fingerprint(seams.stackFor(rows[i].trace).value.text) == fp
  {
    if rows != [] {
      var n := |rows| - 1;
      PreviewIff(seams, rows[..n], fp);
      OneMoreOutcome(Cached(seams, true, rows[..n]), OutcomeOf(seams, true, rows[n]));
      assert Cached(seams, true, rows) == Cached(seams, true, rows[..n]) + [OutcomeOf(seams, true, rows[n])];
      if i :| 0 <= i < |rows| && seams.stackFor(rows[i].trace).Some? &&
              seams.stackFor(rows[i].trace).value.text != "" &&
              seams.fingerprint(seams.stackFor(rows[i].trace).value.text) == fp {
        assert i < n ==> rows[..n][i] == rows[i];
      }
    }
  }

  /** Outside a dry run every scanned row is counted under exactly one heading. */
  lemma RowsAreAccountedFor(seams: Seams, rows: seq<ExecRow>)
    ensures var t := Tally(Cached(seams, false, rows));
            t.scanned == |rows| == t.linked + t.skippedNoStack + t.skippedNoFingerprint + t.errors
  {
    NothingIsPreviewed(seams, rows);
    TallyIsExact(Cached(seams, false, rows));
  }

  // ------------------------------------------------ the store and the job

  function LinkStep(links: map<ExecId, Cluster>, row: ExecRow, o: Outcome): map<ExecId, Cluster>
  {
    if o.Linked? && row.id !in links then links[row.id := o.cluster] else links
  }

  /** The back-links after these rows: a link once made stays. */
  function Links(before: map<ExecId, Cluster>, rows: seq<ExecRow>, outcomes: seq<Outcome>): map<ExecId, Cluster>
    requires |rows| == |outcomes|
  {
    if rows == [] then before
    else
      var last := |rows| - 1;
      LinkStep(Links(before, rows[..last], outcomes[..last]), rows[last], outcomes[last])
  }

  function Traces(rows: seq<ExecRow>): set<Trace>
  {
    set i | 0 <= i < |rows| :: rows[i].trace
  }

  ghost predicate IsTable(rows: map<ExecId, ExecRow>)
  {
    forall id :: id in rows ==> rows[id].id == id > 0
  }

  function PendingIn(rows: map<ExecId, ExecRow>, links: map<ExecId, Cluster>): set<ExecId>
  {
    set id | id in rows && id !in links
  }

  /** The failed executions that carry a trace, and the links some of them have. */
  class ExecSource {
    var rows: map<ExecId, ExecRow>
    var links: map<ExecId, Cluster>

    function Pending(): set<ExecId>
      reads this
    {
      PendingIn(rows, links)
    }

    /** Rows are keyed by their id, and no row has the nil id. */
    ghost predicate Valid()
      reads this
    {
      IsTable(rows)
    }

    /** One page of the scan, and the cursor for the next. */
    method PendingFailuresPage(after: ExecId) returns (page: seq<ExecId>, last: ExecId)
      ensures var all := Scan(Pending(), after);
              page == if |all| < 5000 then all else all[..5000]
      ensures page != [] ==> last == page[|page| - 1]
    {
      page, last := [], 0;
      var cursor := after;
      ghost var all := Scan(Pending(), after);
      assert all[..0] == [];
      while |page| < PAGE_SIZE && Above(Pending(), cursor) != {}
        invariant |page| <= |all| && |page| <= PAGE_SIZE && page == all[..|page|]
        invariant all[|page|..] == Scan(Pending(), cursor)
        invariant page != [] ==> last == cursor == page[|page| - 1]
        decreases PAGE_SIZE - |page|
      {
        cursor := Least(Above(Pending(), cursor));
        assert all[|page|] == cursor;
        page, last := page + [cursor], cursor;
      }
    }

    /** The keyset-paged scan returns what one query over everything would. */
    method PendingFailures() returns (out: seq<ExecId>)
      ensures out == Scan(Pending(), 0)
    {
      ghost var ids := Pending();
      var cursor := 0;
      out := [];
      while true
        invariant Scan(ids, 0) == out + Scan(ids, cursor)
        decreases |Above(ids, cursor)|
      {
        var page, last := PendingFailuresPage(cursor);
        if |page| < PAGE_SIZE {
          return out + page;
        }
        NextPage(ids, cursor, page, last);
        Reassociate(out, page, Scan(ids, last));
        out, cursor := out + page, last;
      }
    }

    /** Links the execution unless it is linked already. */
    method AssignCluster(id: ExecId, cluster: Cluster, fails: bool) returns (ok: bool)
      modifies this`links
      ensures ok <==> !fails
      ensures links == if ok && id !in old(links) then old(links)[id := cluster] else old(links)
    {
      if fails { return false; }
      if id !in links {
        links := links[id := cluster];
      }
      return true;
    }
  }


  /** One row of the pass, given its trace's stack. */
  method HandleRow(source: ExecSource, seams: Seams, dryRun: bool, row: ExecRow, fetched: Option<Stack>,
                   clusterCache: map<Trace, Cluster>)
    returns (o: Outcome, cache: map<Trace, Cluster>)
    requires fetched == seams.stackFor(row.trace)
    modifies source`links
    ensures o == CachedOutcome(seams, dryRun, clusterCache, row)
    ensures cache == CacheStep(seams, dryRun, clusterCache, row)
    ensures source.links == LinkStep(old(source.links), row, o)
  {
    cache := clusterCache;
    if fetched == None { return FetchError, cache; }
    var stack := fetched.value;
    if stack.text == "" { return NoStack, cache; }
    if dryRun {
      var fp := seams.fingerprint(stack.text);
      return if fp == "" then NoFingerprint else Previewed(fp), cache;
    }
    if row.trace !in cache {
      var resolved := seams.clusterFor(row.repo, stack.text, stack.message);
      if resolved == None { return ResolveError, cache; }
      cache := cache[row.trace := resolved.value];
    }
    var cluster := cache[row.trace];
    if cluster == "" { return NoFingerprint, cache; }
    var ok := source.AssignCluster(row.id, cluster, seams.assignFails(row.id, cluster));
    o := if ok then Linked(cluster) else AssignError(cluster);
  }

  lemma Prefixes(rows: seq<ExecRow>, n: nat)
    requires n < |rows|
    ensures rows[..n + 1][..n] == rows[..n] && rows[..n + 1][n] == rows[n] && |rows[..n + 1]| == n + 1
    ensures Traces(rows[..n + 1]) == Traces(rows[..n]) + {rows[n].trace}
  {
    forall t | t in Traces(rows[..n]) + {rows[n].trace} ensures t in Traces(rows[..n + 1]) {
      if t in Traces(rows[..n]) {
        var i :| 0 <= i < n && rows[..n][i].trace == t;
        assert rows[..n + 1][i].trace == t;
      } else {
        assert rows[..n + 1][n].trace == t;
      }
    }
  }

  lemma OneMoreOutcome(outcomes: seq<Outcome>, o: Outcome)
    ensures Tally(outcomes + [o]) == Count(Tally(outcomes), o)
    ensures Fingerprints(outcomes + [o]) == Fingerprints(outcomes) + if o.Previewed? then {o.fingerprint} else {}
  {
    var more := outcomes + [o];
    assert more[..|outcomes|] == outcomes;
    forall fp | fp in Fingerprints(outcomes) ensures fp in Fingerprints(more) {
      var i :| 0 <= i < |outcomes| && outcomes[i].Previewed? && outcomes[i].fingerprint == fp;
      assert more[i].Previewed? && more[i].fingerprint == fp;
    }
    if o.Previewed? { assert more[|outcomes|].fingerprint == o.fingerprint; }
  }

  /** What the loop knows after n rows. */
  ghost predicate Progress(seams: Seams, dryRun: bool, rows: seq<ExecRow>, n: nat, outcomes: seq<Outcome>,
                           stats: Stats, preview: set<string>, cache: map<Trace, Cluster>)
    requires n <= |rows|
  {
    && |outcomes| == n && outcomes == Cached(seams, dryRun, rows[..n])
    && stats == Tally(outcomes) && preview == Fingerprints(outcomes)
    && cache == CacheAfter(seams, dryRun, rows[..n])
  }

  lemma OneMoreRow(seams: Seams, dryRun: bool, rows: seq<ExecRow>, n: nat, outcomes: seq<Outcome>, o: Outcome,
                   stats: Stats, preview: set<string>, cache: map<Trace, Cluster>)
    requires n < |rows| && Progress(seams, dryRun, rows, n, outcomes, stats, preview, cache)
    requires o == CachedOutcome(seams, dryRun, cache, rows[n])
    ensures Progress(seams, dryRun, rows, n + 1, outcomes + [o], Count(stats, o),
                     preview + if o.Previewed? then {o.fingerprint} else {},
                     CacheStep(seams, dryRun, cache, rows[n]))
  {
    Prefixes(rows, n);
    OneMoreOutcome(outcomes, o);
  }

  lemma OneMoreLink(before: map<ExecId, Cluster>, rows: seq<ExecRow>, n: nat, outcomes: seq<Outcome>, o: Outcome)
    requires n < |rows| && |outcomes| == n
    ensures Links(before, rows[..n + 1], outcomes + [o]) == LinkStep(Links(before, rows[..n], outcomes), rows[n], o)
  {
    Prefixes(rows, n);
    assert (outcomes + [o])[..n] == outcomes;
  }

  ghost predicate StacksKnown(seams: Seams, stackCache: map<Trace, Option<Stack>>, fetched: seq<Trace>)
  {
    && (forall t :: t in stackCache ==> stackCache[t] == seams.stackFor(t))
    && Distinct(fetched) && (forall t :: t in fetched <==> t in stackCache)
  }

  /** Asks for the stack of a trace unless the cache has it. */
  method FetchOnce(seams: Seams, stackCache: map<Trace, Option<Stack>>, fetched: seq<Trace>, t: Trace)
    returns (stackCache': map<Trace, Option<Stack>>, fetched': seq<Trace>)
    requires StacksKnown(seams, stackCache, fetched)
    ensures StacksKnown(seams, stackCache', fetched') && stackCache'.Keys == stackCache.Keys + {t}
  {
    if t in stackCache { return stackCache, fetched; }
    return stackCache[t := seams.stackFor(t)], fetched + [t];
  }

  /** One pass over the scanned rows. fetched lists the traces whose stack was asked
      for, each of them once. */
  method RunBackfill(source: ExecSource, seams: Seams, dryRun: bool, rows: seq<ExecRow>)
    returns (stats: Stats, fetched: seq<Trace>)
    modifies source`links
    ensures var outcomes := Cached(seams, dryRun, rows);
            && |outcomes| == |rows|
            && stats == Tally(outcomes).(previewClusters := |Fingerprints(outcomes)|)
            && source.links == Links(old(source.links), rows, outcomes)
    ensures Distinct(fetched) && forall t :: t in fetched <==> t in Traces(rows)
  {
    stats, fetched := Stats(0, 0, 0, 0, 0, 0), [];
    var stackCache: map<Trace, Option<Stack>> := map[];
    var clusterCache: map<Trace, Cluster> := map[];
    var preview: set<string> := {};
    ghost var outcomes: seq<Outcome> := [];
    ghost var before := source.links;
    for n := 0 to |rows|
      invariant Progress(seams, dryRun, rows, n, outcomes, stats, preview, clusterCache)
      invariant source.links == Links(before, rows[..n], outcomes)
      invariant StacksKnown(seams, stackCache, fetched) && stackCache.Keys == Traces(rows[..n])
    {
      var row := rows[n];
      Prefixes(rows, n);
      stackCache, fetched := FetchOnce(seams, stackCache, fetched, row.trace);
      var o, remembered := HandleRow(source, seams, dryRun, row, stackCache[row.trace], clusterCache);
      OneMoreRow(seams, dryRun, rows, n, outcomes, o, stats, preview, clusterCache);
      OneMoreLink(before, rows, n, outcomes, o);
      clusterCache, stats := remembered, Count(stats, o);
      preview := preview + if o.Previewed? then {o.fingerprint} else {};
      outcomes := outcomes + [o];
    }
    assert rows[..|rows|] == rows;
    stats := stats.(previewClusters := |preview|);
  }

  // ------------------------------------------------ a whole pass

  function RowsOf(rows: map<ExecId, ExecRow>, ids: seq<ExecId>): seq<ExecRow>
    requires forall i :: 0 <= i < |ids| ==> ids[i] in rows
  {
    seq(|ids|, i requires 0 <= i < |ids| && ids[i] in rows => rows[ids[i]])
  }

  /** Over rows with distinct ids, a row is linked afterwards exactly when it was before
      or its outcome was a link; other rows are left alone. */
  lemma {:induction false} LinkedIff(before: map<ExecId, Cluster>, rows: seq<ExecRow>, outcomes: seq<Outcome>)
    requires |rows| == |outcomes|
    requires forall i, j :: 0 <= i < j < |rows| ==> rows[i].id < rows[j].id
    ensures var links := Links(before, rows, outcomes);
            && (forall id :: id in before ==> id in links && links[id] == before[id])
            && (forall i :: 0 <= i < |rows| ==> (rows[i].id in links <==> rows[i].id in before || outcomes[i].Linked?))
            && (forall id :: id in links && id !in before ==> exists i :: 0 <= i < |rows| && rows[i].id == id)
  {
    if rows != [] {
      var last := |rows| - 1;
      LinkedIff(before, rows[..last], outcomes[..last]);
      var links := Links(before, rows[..last], outcomes[..last]);
      forall i | 0 <= i < last
        ensures rows[i].id in Links(before, rows, outcomes) <==> rows[i].id in before || outcomes[i].Linked? {
        assert rows[..last][i] == rows[i] && outcomes[..last][i] == outcomes[i];
      }
      assert rows[last].id in links ==> rows[last].id in before;
      forall id | id in Links(before, rows, outcomes) && id !in before
        ensures exists i :: 0 <= i < |rows| && rows[i].id == id {
        if id in links {
          var i :| 0 <= i < last && rows[..last][i].id == id;
          assert rows[i].id == id;
        } else {
          assert rows[last].id == id;
        }
      }
    }
  }

  /** And a new link leads to the cluster of its row's outcome. */
  lemma {:induction false} LinkedTo(before: map<ExecId, Cluster>, rows: seq<ExecRow>, outcomes: seq<Outcome>, i: nat)
    requires |rows| == |outcomes| && i < |rows| && rows[i].id !in before && outcomes[i].Linked?
    requires forall i, j :: 0 <= i < j < |rows| ==> rows[i].id < rows[j].id
    ensures rows[i].id in Links(before, rows, outcomes)
    ensures Links(before, rows, outcomes)[rows[i].id] == outcomes[i].cluster
    decreases |rows|
  {
    var last := |rows| - 1;
    if i < last {
      LinkedTo(before, rows[..last], outcomes[..last], i);
    } else {
      LinkedIff(before, rows[..last], outcomes[..last]);
      assert rows[last].id !in Links(before, rows[..last], outcomes[..last]);
    }
  }

  lemma ScannedAreRows(table: map<ExecId, ExecRow>, links: map<ExecId, Cluster>)
    requires IsTable(table)
    ensures var ids := Scan(PendingIn(table, links), 0);
            && (forall i :: 0 <= i < |ids| ==> ids[i] in table && ids[i] !in links && table[ids[i]].id == ids[i])
            && (forall i, j :: 0 <= i < j < |ids| ==> ids[i] < ids[j])
            && (forall id :: id in PendingIn(table, links) ==> id in ids)
  {
    var ids := Scan(PendingIn(table, links), 0);
    ScanIsExact(PendingIn(table, links), 0);
    forall i | 0 <= i < |ids| ensures ids[i] in table && ids[i] !in links {
      assert ids[i] in ids;
    }
  }

  /** What a whole pass over a table leaves behind: links once made stay, and of the
      pending executions exactly those whose row ended in no link are pending still. */
  ghost predicate PassDone(table: map<ExecId, ExecRow>, before: map<ExecId, Cluster>, after: map<ExecId, Cluster>,
                           outcomes: seq<Outcome>)
  {
    var ids := Scan(PendingIn(table, before), 0);
    && |outcomes| == |ids|
    && (forall id :: id in before ==> id in after && after[id] == before[id])
    && (forall i :: 0 <= i < |ids| ==> (ids[i] in PendingIn(table, after) <==> !outcomes[i].Linked?))
    && PendingIn(table, after) <= PendingIn(table, before)
  }

  lemma PassLeaves(table: map<ExecId, ExecRow>, before: map<ExecId, Cluster>, ids: seq<ExecId>, rows: seq<ExecRow>,
                   outcomes: seq<Outcome>)
    requires IsTable(table) && ids == Scan(PendingIn(table, before), 0) && |outcomes| == |rows|
    requires (forall i :: 0 <= i < |ids| ==> ids[i] in table) && rows == RowsOf(table, ids)
    ensures PassDone(table, before, Links(before, rows, outcomes), outcomes)
  {
    ScannedAreRows(table, before);
    assert forall i :: 0 <= i < |rows| ==> rows[i].id == ids[i];
    LinkedIff(before, rows, outcomes);
  }

  /** The whole job: scan, then one pass over what was scanned; None when the scan fails. */
  method Backfill(source: ExecSource, seams: Seams, dryRun: bool, scanFails: bool)
    returns (result: Option<Stats>, fetched: seq<Trace>)
    requires source.Valid()
    modifies source`links
    ensures source.Valid() && (result == None <==> scanFails)
    ensures scanFails ==> source.links == old(source.links)
    ensures !scanFails ==>
              var ids := Scan(old(source.Pending()), 0);
              && (forall i :: 0 <= i < |ids| ==> ids[i] in source.rows)
              && var rows := RowsOf(source.rows, ids);
                 var outcomes := Cached(seams, dryRun, rows);
                 && result == Some(Tally(outcomes).(previewClusters := |Fingerprints(outcomes)|))
                 && (forall t :: t in fetched <==> t in Traces(rows)) && Distinct(fetched)
                 && PassDone(source.rows, old(source.links), source.links, outcomes)
  {
    if scanFails { return None, []; }
    ghost var before := source.links;
    var ids := source.PendingFailures();
    ScannedAreRows(source.rows, before);
    var rows := RowsOf(source.rows, ids);
    var stats;
    stats, fetched := RunBackfill(source, seams, dryRun, rows);
    PassLeaves(source.rows, before, ids, rows, Cached(seams, dryRun, rows));
    result := Some(stats);
  }

  /** When no trace is shared between repositories, an execution that was pending is
      pending after the pass exactly when its row, looked at by itself, gets no link. */
  lemma PendingAfterwardsIff(seams: Seams, dryRun: bool, table: map<ExecId, ExecRow>, before: map<ExecId, Cluster>,
                             after: map<ExecId, Cluster>, rows: seq<ExecRow>, id: ExecId)
    requires IsTable(table) && id in PendingIn(table, before)
    requires var ids := Scan(PendingIn(table, before), 0);
             (forall i :: 0 <= i < |ids| ==> ids[i] in table) && rows == RowsOf(table, ids)
    requires OneRepoPerTrace(rows) && PassDone(table, before, after, Cached(seams, dryRun, rows))
    ensures id in PendingIn(table, after) <==> !OutcomeOf(seams, dryRun, table[id]).Linked?
  {
    var ids := Scan(PendingIn(table, before), 0);
    ScannedAreRows(table, before);
    assert id in ids;
    var i :| 0 <= i < |ids| && ids[i] == id;
    CacheIsInvisible(seams, dryRun, rows);
    UncachedAt(seams, dryRun, rows, i);
    assert rows[i] == table[id];
  }
}

/** Idempotent run creation: look up the key, insert, and on a unique violation look
    up again. Any number of calls run these steps in any interleaving, with database
    faults wherever the code can meet one. */
module RunIntake {
  import opened Wrappers

  type RunId = nat
  type RepoId = nat
  type CallId = nat

  /** A run row as far as intake sees it; key "" is a row without a key. */
  datatype Row = Row(repo: RepoId, key: string, commit: string)

  datatype Outcome = Created(run: RunId) | Existing(run: RunId) | Conflict | Error

  /** Where a call stands: each constructor but Done names the step it takes next. */
  datatype Pc = FirstLookup | Insert | SecondLookup | Reload(run: RunId) | Done(outcome: Outcome)

  datatype Call = Call(req: Row, pc: Pc)

  datatype System = System(rows: map<RunId, Row>, calls: map<CallId, Call>)

  /** A step of the system; fault flags say which of its queries fail. */
  datatype Event =
    | Begin(call: CallId, req: Row)
    | Lookup(call: CallId, queryFails: bool, loadFails: bool)
    | TryInsert(call: CallId, run: RunId, insertFails: bool)
    | LoadCreated(call: CallId, loadFails: bool)
    | InsertElsewhere(run: RunId, repo: RepoId, commit: string)   // reruns carry no key

  /** A row of this repository under this key. */
  predicate Holds(rows: map<RunId, Row>, id: RunId, repo: RepoId, key: string)
  {
    id in rows && rows[id].repo == repo && rows[id].key == key
  }

  predicate KeyTaken(rows: map<RunId, Row>, repo: RepoId, key: string)
  {
    exists id :: id in rows && Holds(rows, id, repo, key)
  }

  predicate SameKey(a: Row, b: Row)
  {
    a.key != "" && a.repo == b.repo && a.key == b.key
  }

  /** The unique index over (repo, key), which skips rows without a key. */
  predicate UniqueKeys(rows: map<RunId, Row>)
  {
    forall a, b :: a in rows && b in rows && SameKey(rows[a], rows[b]) ==> a == b
  }

  predicate CanInsert(rows: map<RunId, Row>, id: RunId, row: Row)
  {
    id !in rows && (row.key == "" || !KeyTaken(rows, row.repo, row.key))
  }

  datatype LookupResult = Found(run: RunId) | Differs | Missing

  /** What the lookup query and the load after it report. */
  ghost function LookUp(rows: map<RunId, Row>, req: Row, queryFails: bool, loadFails: bool): (r: LookupResult)
    ensures r.Found? ==> Holds(rows, r.run, req.repo, req.key) && rows[r.run].commit == req.commit
    ensures r == Differs ==> exists id :: Holds(rows, id, req.repo, req.key) && rows[id].commit != req.commit
    ensures r == Missing && !queryFails && !loadFails ==> !KeyTaken(rows, req.repo, req.key)
  {
    if queryFails || !KeyTaken(rows, req.repo, req.key) then Missing
    else
      var id :| id in rows && Holds(rows, id, req.repo, req.key);
      if rows[id].commit != req.commit then Differs
      else if loadFails then Missing
      else Found(id)
  }

  function Move(s: System, c: CallId, pc: Pc): System
    requires c in s.calls
  {
    s.(calls := s.calls[c := s.calls[c].(pc := pc)])
  }

  ghost function Step(s: System, e: Event): System
  {
    match e
    case Begin(c, req) =>
      if c in s.calls then s
      else s.(calls := s.calls[c := Call(req, if req.key == "" then Insert else FirstLookup)])
    case Lookup(c, queryFails, loadFails) =>
      if c in s.calls && (s.calls[c].pc == FirstLookup || s.calls[c].pc == SecondLookup) then
        match LookUp(s.rows, s.calls[c].req, queryFails, loadFails)
        case Found(id) => Move(s, c, Done(Existing(id)))
        case Differs => Move(s, c, Done(Conflict))
        case Missing => Move(s, c, if s.calls[c].pc == FirstLookup then Insert else Done(Error))
      else s
    case TryInsert(c, id, insertFails) =>
      if c in s.calls && s.calls[c].pc == Insert && id !in s.rows then
        var req := s.calls[c].req;
        if insertFails then Move(s, c, Done(Error))
        else if CanInsert(s.rows, id, req) then Move(s.(rows := s.rows[id := req]), c, Reload(id))
        else Move(s, c, SecondLookup)
      else s
    case LoadCreated(c, loadFails) =>
      if c in s.calls && s.calls[c].pc.Reload? then
        Move(s, c, Done(if loadFails then Error else Created(s.calls[c].pc.run)))
      else s
    case InsertElsewhere(id, repo, commit) =>
      if id in s.rows then s else s.(rows := s.rows[id := Row(repo, "", commit)])
  }

  ghost function Run(s: System, trace: seq<Event>): System
    decreases |trace|
  {
    if trace == [] then s else Run(Step(s, trace[0]), trace[1..])
  }

  /** The run a call has inserted and will report or has reported as its own. */
  function Inserted(call: Call): Option<RunId>
  {
    match call.pc
    case Reload(id) => Some(id)
    case Done(Created(id)) => Some(id)
    case _ => None
  }

  /** What holds of a call at each point: a reported run is the row for its request,
      and a conflict or a violation has a row to blame. */
  ghost predicate CallIsSound(rows: map<RunId, Row>, call: Call)
  {
    match call.pc
    case FirstLookup => call.req.key != ""
    case Insert => true
    case SecondLookup => call.req.key != "" && KeyTaken(rows, call.req.repo, call.req.key)
    case Reload(id) => id in rows && rows[id] == call.req
    case Done(Created(id)) => id in rows && rows[id] == call.req
    case Done(Existing(id)) => call.req.key != "" && id in rows && rows[id] == call.req
    case Done(Conflict) =>
      call.req.key != "" &&
      exists id :: Holds(rows, id, call.req.repo, call.req.key) && rows[id].commit != call.req.commit
    case Done(Error) => true
  }

  ghost predicate Inv(s: System)
  {
    && UniqueKeys(s.rows)
    && (forall c :: c in s.calls ==> CallIsSound(s.rows, s.calls[c]))
    && InsertersDiffer(s.calls)
  }

  predicate InsertersDiffer(calls: map<CallId, Call>)
  {
    forall c, d :: c in calls && d in calls && c != d && Inserted(calls[c]).Some? ==>
      Inserted(calls[c]) != Inserted(calls[d])
  }

  ghost predicate Initial(s: System)
  {
    UniqueKeys(s.rows) && s.calls == map[]
  }

  lemma InitialIsSound(s: System)
    requires Initial(s)
    ensures Inv(s)
  {
  }

  predicate Grown(rows: map<RunId, Row>, more: map<RunId, Row>)
  {
    forall id :: id in rows ==> id in more && more[id] == rows[id]
  }

  lemma SoundnessSurvivesGrowth(rows: map<RunId, Row>, more: map<RunId, Row>, call: Call)
    requires CallIsSound(rows, call) && Grown(rows, more)
    ensures CallIsSound(more, call)
  {
    if call.pc == SecondLookup {
      var id :| id in rows && Holds(rows, id, call.req.repo, call.req.key);
      assert Holds(more, id, call.req.repo, call.req.key);
    }
    if call.pc == Done(Conflict) {
      var id :| Holds(rows, id, call.req.repo, call.req.key) && rows[id].commit != call.req.commit;
      assert Holds(more, id, call.req.repo, call.req.key);
    }
  }

  lemma InsertKeepsKeysUnique(rows: map<RunId, Row>, id: RunId, row: Row)
    requires UniqueKeys(rows) && CanInsert(rows, id, row)
    ensures UniqueKeys(rows[id := row]) && Grown(rows, rows[id := row])
  {
    forall a | a in rows && SameKey(rows[a], row) ensures false {
      assert Holds(rows, a, row.repo, row.key);
    }
  }

  lemma RowsOnlyGrow(s: System, e: Event)
    requires UniqueKeys(s.rows)
    ensures Grown(s.rows, Step(s, e).rows) && UniqueKeys(Step(s, e).rows)
  {
    if e.TryInsert? && e.call in s.calls && CanInsert(s.rows, e.run, s.calls[e.call].req) {
      InsertKeepsKeysUnique(s.rows, e.run, s.calls[e.call].req);
    }
    if e.InsertElsewhere? && e.run !in s.rows {
      InsertKeepsKeysUnique(s.rows, e.run, Row(e.repo, "", e.commit));
    }
  }

  /** The call that moves is sound again where it arrives. */
  lemma MovedCallIsSound(s: System, e: Event, c: CallId)
    requires Inv(s) && c in Step(s, e).calls
    requires c !in s.calls || Step(s, e).calls[c] != s.calls[c]
    ensures CallIsSound(Step(s, e).rows, Step(s, e).calls[c])
  {
  }

  /** Every step of every call keeps the invariant. */
  lemma EveryStepKeepsInvariant(s: System, e: Event)
    requires Inv(s)
    ensures Inv(Step(s, e))
  {
    var next := Step(s, e);
    RowsOnlyGrow(s, e);
    forall c | c in next.calls ensures CallIsSound(next.rows, next.calls[c]) {
      if c in s.calls && next.calls[c] == s.calls[c] {
        SoundnessSurvivesGrowth(s.rows, next.rows, s.calls[c]);
      } else {
        MovedCallIsSound(s, e, c);
      }
    }
    InsertersStayApart(s, e);
  }

  lemma InsertersStayApart(s: System, e: Event)
    requires Inv(s)
    ensures InsertersDiffer(Step(s, e).calls)
  {
    var next := Step(s, e);
    forall c | c in next.calls && Inserted(next.calls[c]).Some?
      ensures (c in s.calls && Inserted(s.calls[c]) == Inserted(next.calls[c])) ||
              (e.TryInsert? && e.call == c && Inserted(next.calls[c]) == Some(e.run) && e.run !in s.rows) {
    }
    forall c | c in s.calls && Inserted(s.calls[c]).Some? ensures Inserted(s.calls[c]).value in s.rows {
      assert CallIsSound(s.rows, s.calls[c]);
    }
  }

  lemma {:induction false} InvariantLasts(s: System, trace: seq<Event>)
    requires Inv(s)
    ensures Inv(Run(s, trace)) && Grown(s.rows, Run(s, trace).rows)
    decreases |trace|
  {
    if trace != [] {
      EveryStepKeepsInvariant(s, trace[0]);
      RowsOnlyGrow(s, trace[0]);
      InvariantLasts(Step(s, trace[0]), trace[1..]);
    }
  }

  // ------------------------------------------------ what callers can rely on

  predicate Succeeded(call: Call)
  {
    call.pc.Done? && (call.pc.outcome.Created? || call.pc.outcome.Existing?)
  }

  predicate Conflicted(call: Call)
  {
    call.pc == Done(Conflict)
  }

  /** In every interleaving: all successful calls under one key name one and the same
      run, which holds the commit they asked for. */
  lemma SuccessfulCallsAgree(s: System, trace: seq<Event>, c: CallId, d: CallId)
    requires Initial(s)
    requires c in Run(s, trace).calls && d in Run(s, trace).calls
    requires Succeeded(Run(s, trace).calls[c]) && Succeeded(Run(s, trace).calls[d])
    requires SameKey(Run(s, trace).calls[c].req, Run(s, trace).calls[d].req)
    ensures var last := Run(s, trace);
            && last.calls[c].pc.outcome.run == last.calls[d].pc.outcome.run
            && last.calls[c].pc.outcome.run in last.rows
            && last.rows[last.calls[c].pc.outcome.run] == last.calls[c].req == last.calls[d].req
  {
    InitialIsSound(s);
    InvariantLasts(s, trace);
    assert CallIsSound(Run(s, trace).rows, Run(s, trace).calls[c]);
    assert CallIsSound(Run(s, trace).rows, Run(s, trace).calls[d]);
  }

  /** A call that answered conflicts exactly when the row under its key holds another
      commit; in every interleaving there is exactly one such row. */
  lemma ConflictIff(s: System, trace: seq<Event>, c: CallId)
    requires Initial(s) && c in Run(s, trace).calls && Run(s, trace).calls[c].req.key != ""
    requires Succeeded(Run(s, trace).calls[c]) || Conflicted(Run(s, trace).calls[c])
    ensures var last := Run(s, trace);
            exists id :: Holds(last.rows, id, last.calls[c].req.repo, last.calls[c].req.key)
                      && (Conflicted(last.calls[c]) <==> last.rows[id].commit != last.calls[c].req.commit)
                      && forall other ::
                           Holds(last.rows, other, last.calls[c].req.repo, last.calls[c].req.key) ==> other == id
  {
    InitialIsSound(s);
    InvariantLasts(s, trace);
    var last := Run(s, trace);
    var req := last.calls[c].req;
    assert CallIsSound(last.rows, last.calls[c]);
    if Succeeded(last.calls[c]) {
      assert Holds(last.rows, last.calls[c].pc.outcome.run, req.repo, req.key);
    }
  }

  /** At most one call under a key is told that it created the run. */
  lemma OneCallCreates(s: System, trace: seq<Event>, c: CallId, d: CallId)
    requires Initial(s)
    requires c in Run(s, trace).calls && d in Run(s, trace).calls
    requires Inserted(Run(s, trace).calls[c]).Some? && Inserted(Run(s, trace).calls[d]).Some?
    requires SameKey(Run(s, trace).calls[c].req, Run(s, trace).calls[d].req)
    ensures c == d
  {
    InitialIsSound(s);
    InvariantLasts(s, trace);
    assert CallIsSound(Run(s, trace).rows, Run(s, trace).calls[c]);
    assert CallIsSound(Run(s, trace).rows, Run(s, trace).calls[d]);
  }

  /** Does the step put a row under this key? */
  ghost predicate AddsKey(s: System, e: Event, repo: RepoId, key: string)
  {
    exists id :: id !in s.rows && Holds(Step(s, e).rows, id, repo, key)
  }

  ghost function KeyInserts(s: System, trace: seq<Event>, repo: RepoId, key: string): nat
    decreases |trace|
  {
    if trace == [] then 0
    else (if AddsKey(s, trace[0], repo, key) then 1 else 0) + KeyInserts(Step(s, trace[0]), trace[1..], repo, key)
  }

  lemma TakenStaysTaken(rows: map<RunId, Row>, more: map<RunId, Row>, repo: RepoId, key: string)
    requires Grown(rows, more) && KeyTaken(rows, repo, key)
    ensures KeyTaken(more, repo, key)
  {
    var id :| id in rows && Holds(rows, id, repo, key);
    assert Holds(more, id, repo, key);
  }

  lemma AddsKeyIff(s: System, e: Event, repo: RepoId, key: string)
    requires Inv(s) && key != ""
    ensures AddsKey(s, e, repo, key) <==> KeyTaken(Step(s, e).rows, repo, key) && !KeyTaken(s.rows, repo, key)
  {
    var next := Step(s, e).rows;
    RowsOnlyGrow(s, e);
    if AddsKey(s, e, repo, key) {
      var id :| id !in s.rows && Holds(next, id, repo, key);
      if earlier: RunId :| earlier in s.rows && Holds(s.rows, earlier, repo, key) {
        assert SameKey(next[earlier], next[id]);
      }
    } else if KeyTaken(next, repo, key) {
      var id :| id in next && Holds(next, id, repo, key);
      assert id in s.rows && Holds(s.rows, id, repo, key);
    }
  }

  /** However many calls race, exactly one row is inserted under a key that is free first
      and taken in the end, and none under any other. */
  lemma {:induction false} OneRowPerKey(s: System, trace: seq<Event>, repo: RepoId, key: string)
    requires Inv(s) && key != ""
    ensures KeyInserts(s, trace, repo, key) ==
              if KeyTaken(Run(s, trace).rows, repo, key) && !KeyTaken(s.rows, repo, key) then 1 else 0
    decreases |trace|
  {
    if trace != [] {
      var next := Step(s, trace[0]);
      EveryStepKeepsInvariant(s, trace[0]);
      RowsOnlyGrow(s, trace[0]);
      OneRowPerKey(next, trace[1..], repo, key);
      InvariantLasts(next, trace[1..]);
      AddsKeyIff(s, trace[0], repo, key);
      if KeyTaken(s.rows, repo, key) { TakenStaysTaken(s.rows, next.rows, repo, key); }
      if KeyTaken(next.rows, repo, key) { TakenStaysTaken(next.rows, Run(next, trace[1..]).rows, repo, key); }
    }
  }

  predicate Fails(e: Event)
  {
    match e
    case Lookup(_, queryFails, loadFails) => queryFails || loadFails
    case TryInsert(_, _, insertFails) => insertFails
    case LoadCreated(_, loadFails) => loadFails
    case _ => false
  }

  lemma NoErrorWithoutFault(s: System, e: Event, c: CallId)
    requires Inv(s) && !Fails(e) && c in Step(s, e).calls && Step(s, e).calls[c].pc == Done(Error)
    ensures c in s.calls && s.calls[c].pc == Done(Error)
  {
    if c in s.calls { assert CallIsSound(s.rows, s.calls[c]); }
  }

  /** Without database faults no call ever ends in an error: the second lookup always
      finds the row that won the race. */
  lemma {:induction false} RaceIsClosed(s: System, trace: seq<Event>, c: CallId)
    requires Inv(s) && (c in s.calls ==> s.calls[c].pc != Done(Error))
    requires forall i :: 0 <= i < |trace| ==> !Fails(trace[i])
    ensures c in Run(s, trace).calls ==> Run(s, trace).calls[c].pc != Done(Error)
    decreases |trace|
  {
    if trace != [] {
      EveryStepKeepsInvariant(s, trace[0]);
      if c in Step(s, trace[0]).calls && Step(s, trace[0]).calls[c].pc == Done(Error) {
        NoErrorWithoutFault(s, trace[0], c);
      }
      RaceIsClosed(Step(s, trace[0]), trace[1..], c);
    }
  }

  // ------------------------------------------------ the code of one call

  datatype Reply = Invalid | RepoNotFound | Finished(outcome: Outcome)

  datatype Request = Request(repoFullName: string, commit: string, branch: string, runner: string,
                             tests: nat, key: string)

  predicate IsValid(req: Request)
  {
    req.repoFullName != "" && req.commit != "" && req.branch != "" && req.runner != "" && req.tests > 0
  }

  /** The runs table. Inserts of other callers commit between the steps of a call. */
  class RunTable {
    var rows: map<RunId, Row>

    constructor ()
      ensures rows == map[]
    {
      rows := map[];
    }

    method InsertRow(id: RunId, row: Row) returns (violated: bool)
      modifies this
      ensures violated <==> !CanInsert(old(rows), id, row)
      ensures rows == if violated then old(rows) else old(rows)[id := row]
    {
      violated := id in rows || (row.key != "" && KeyTaken(rows, row.repo, row.key));
      if !violated {
        rows := rows[id := row];
      }
    }

    method OthersInsert(attempts: seq<(RunId, Row)>)
      requires UniqueKeys(rows)
      modifies this
      ensures UniqueKeys(rows) && Grown(old(rows), rows)
      ensures forall id :: id in rows && id !in old(rows) ==> Attempted(attempts, id)
    {
      for i := 0 to |attempts|
        invariant UniqueKeys(rows) && Grown(old(rows), rows)
        invariant forall id :: id in rows && id !in old(rows) ==> Attempted(attempts, id)
      {
        if CanInsert(rows, attempts[i].0, attempts[i].1) {
          InsertKeepsKeysUnique(rows, attempts[i].0, attempts[i].1);
        }
        var _ := InsertRow(attempts[i].0, attempts[i].1);
      }
    }

    method LookupIdempotent(req: Row, queryFails: bool, loadFails: bool) returns (r: LookupResult)
      requires UniqueKeys(rows) && req.key != ""
      ensures r == LookUp(rows, req, queryFails, loadFails)
    {
      if queryFails || !KeyTaken(rows, req.repo, req.key) { return Missing; }
      var id: RunId :| id in rows && Holds(rows, id, req.repo, req.key);
      assert forall other :: other in rows && Holds(rows, other, req.repo, req.key) ==> SameKey(rows[other], rows[id]);
      if rows[id].commit != req.commit { return Differs; }
      if loadFails { return Missing; }
      return Found(id);
    }

    /** One whole call under a fresh run id, with the inserts that others commit before
        its lookup, before its insert and before its second lookup, and the faults its
        queries meet. */
    method Create(req: Request, repo: Option<RepoId>, id: RunId, others: Others, faults: Faults) returns (reply: Reply)
      requires UniqueKeys(rows) && id !in rows
      requires !Attempted(others.first, id) && !Attempted(others.second, id) && !Attempted(others.third, id)
      modifies this
      ensures UniqueKeys(rows) && Grown(old(rows), rows)
      ensures reply == Invalid <==>
                req.repoFullName == "" || req.commit == "" || req.branch == "" || req.runner == "" || req.tests == 0
      ensures reply == RepoNotFound <==> reply != Invalid && repo == None
      ensures reply.Finished? ==> AnswerIsRight(old(rows), rows, Row(repo.value, req.key, req.commit), reply.outcome)
      ensures reply == Finished(Error) ==> SomeFault(faults)
      ensures id in rows ==> reply == Finished(Created(id)) || (reply == Finished(Error) && faults.reload)
      ensures reply.Finished? && reply.outcome.Created? ==> reply.outcome.run == id
    {
      if !IsValid(req) { return Invalid; }
      if repo == None { return RepoNotFound; }
      var row := Row(repo.value, req.key, req.commit);
      OthersInsert(others.first);
      if req.key != "" {
        var found := LookupIdempotent(row, faults.firstQuery, faults.firstLoad);
        if found == Differs { return Finished(Conflict); }
        if found.Found? { return Finished(Existing(found.run)); }
      }
      OthersInsert(others.second);
      if faults.insert { return Finished(Error); }
      if CanInsert(rows, id, row) { InsertKeepsKeysUnique(rows, id, row); }
      var violated := InsertRow(id, row);
      if violated {
        OthersInsert(others.third);
        if req.key != "" {
          var found := LookupIdempotent(row, faults.secondQuery, faults.secondLoad);
          if found == Differs { return Finished(Conflict); }
          if found.Found? { return Finished(Existing(found.run)); }
        }
        return Finished(Error);
      }
      if faults.reload { return Finished(Error); }
      return Finished(Created(id));
    }
  }

  /** What other callers try to insert before each of the three steps of a call. */
  datatype Others = Others(first: seq<(RunId, Row)>, second: seq<(RunId, Row)>, third: seq<(RunId, Row)>)

  datatype Faults = Faults(firstQuery: bool, firstLoad: bool, insert: bool,
                           secondQuery: bool, secondLoad: bool, reload: bool)

  predicate SomeFault(f: Faults)
  {
    f.firstQuery || f.firstLoad || f.insert || f.secondQuery || f.secondLoad || f.reload
  }

  predicate Attempted(attempts: seq<(RunId, Row)>, id: RunId)
  {
    exists i :: 0 <= i < |attempts| && attempts[i].0 == id
  }

  /** A created run is new and was inserted by the call; an existing one holds the
      same key and commit; a conflict has a row with another commit. */
  ghost predicate AnswerIsRight(before: map<RunId, Row>, after: map<RunId, Row>, row: Row, outcome: Outcome)
  {
    match outcome
    case Created(id) => id !in before && id in after && after[id] == row
    case Existing(id) => row.key != "" && id in after && after[id] == row
    case Conflict => row.key != "" && exists id :: Holds(after, id, row.repo, row.key) && after[id].commit != row.commit
    case Error => true
  }
}

/** One turn of a run's subscription loop: read, fan out, and end the subscriptions when
    the status read is terminal. The test compares texts, and the text of a cancelled run
    in the table is not the one it compares with. */
module HubLoop {
  import RunStates
  import RunCoverage
  import Hub

  /** The status as the runs table spells it. */
  function StoredText(s: RunStates.Status): string
  {
    match s
    case Pending => "pending"
    case Planning => "planning"
    case Dispatching => "dispatching"
    case Running => "running"
    case Finalizing => "finalizing"
    case Succeeded => "succeeded"
    case Failed => "failed"
    case Cancelled => "cancelled"
  }

  predicate IsTerminalText(v: string)
  {
    v == "succeeded" || v == "failed" || v == "canceled"
  }

  /** The loop recognises a terminal run exactly when it was not cancelled. */
  lemma RecognisedIff(s: RunStates.Status)
    ensures IsTerminalText(StoredText(s)) <==> RunStates.IsTerminal(s) && s != RunStates.Cancelled
  {
    var text := StoredText(s);
    if s.Cancelled? {
      assert |text| == 9 && |"canceled"| == 8 && text[0] == 'c';
    }
    assert |"succeeded"| == 9 && |"failed"| == 6;
    assert |"pending"| == 7 && |"planning"| == 8 && |"dispatching"| == 11 && |"running"| == 7 && |"finalizing"| == 10;
    assert "planning"[0] == 'p' && "canceled"[0] == 'c' && "succeeded"[0] == 's';
  }

  /** One turn: sends the snapshot just read and, for a run it takes for terminal, ends the
      run's subscriptions and the loop, in a lock section of its own. Those of a cancelled
      run the turn leaves alone. */
  method LoopTurn(hub: Hub.Hub, run: Hub.RunId, status: RunStates.Status, snap: Hub.Snapshot,
                  first: Hub.ChanId -> bool, second: Hub.ChanId -> bool, others: seq<Hub.Section>) returns (done: bool)
    requires Hub.Valid(hub.Now())
    modifies hub
    ensures done <==> RunStates.IsTerminal(status) && status != RunStates.Cancelled
    ensures Hub.Valid(hub.Now())
    ensures hub.Now() == Hub.EnterAll(old(hub.Now()), Turn(run, snap, first, others, done))
  {
    ghost var before := hub.Now();
    Hub.FanoutKeepsValid(before, run, snap, first);
    hub.Fanout(run, snap, first, second);
    hub.EnterOthers(others);
    RecognisedIff(status);
    done := IsTerminalText(StoredText(status));
    TurnInOrder(before, run, snap, first, others, done);
    if done {
      Hub.CloseRunKeepsValid(hub.Now(), run);
      hub.CloseRun(run);
    }
  }

  /** The lock sections of a turn, with those of others in between. */
  function Turn(run: Hub.RunId, snap: Hub.Snapshot, first: Hub.ChanId -> bool, others: seq<Hub.Section>,
                done: bool): seq<Hub.Section>
  {
    [Hub.FanningOut(run, snap, first)] + (others + if done then [Hub.Closing(run)] else [])
  }

  lemma {:induction false} InOrder(h: Hub.Registry, a: seq<Hub.Section>, b: seq<Hub.Section>)
    ensures Hub.EnterAll(h, a + b) == Hub.EnterAll(Hub.EnterAll(h, a), b)
    decreases |a|
  {
    if a == [] {
      assert a + b == b;
    } else {
      assert (a + b)[0] == a[0] && (a + b)[1..] == a[1..] + b;
      InOrder(Hub.Enter(h, a[0]), a[1..], b);
    }
  }

  lemma TurnInOrder(h: Hub.Registry, run: Hub.RunId, snap: Hub.Snapshot, first: Hub.ChanId -> bool,
                    others: seq<Hub.Section>, done: bool)
    ensures var sent := Hub.EnterAll(Hub.AfterFanout(h, run, snap, first), others);
            Hub.EnterAll(h, Turn(run, snap, first, others, done)) == if done then Hub.AfterCloseRun(sent, run) else sent
  {
    var fan, last := Hub.FanningOut(run, snap, first), if done then [Hub.Closing(run)] else [];
    InOrder(h, [fan], others + last);
    assert [fan][1..] == [];
    InOrder(Hub.AfterFanout(h, run, snap, first), others, last);
    if done { assert last[1..] == []; }
  }

  /** A run that ends up cancelled was recognised as terminal at no moment on the way, so
      no loop of it ever ends its subscriptions. */
  lemma CancelledIsNeverRecognised(db: RunStates.Db, trace: seq<RunStates.Statement>, t: nat, r: RunStates.RunId)
    requires r in db.runs && t <= |trace|
    requires r in RunStates.ExecAll(db, trace).runs
    requires RunStates.ExecAll(db, trace).runs[r].status == RunStates.Cancelled
    ensures r in RunStates.ExecAll(db, trace[..t]).runs
    ensures !IsTerminalText(StoredText(RunStates.ExecAll(db, trace[..t]).runs[r].status))
  {
    RunStates.StatusesOnlyAdvance(db, trace[..t], r);
    RunCoverage.RunSplits(db, trace, t);
    RunStates.StatusesOnlyAdvance(RunStates.ExecAll(db, trace[..t]), trace[t..], r);
    RecognisedIff(RunStates.ExecAll(db, trace[..t]).runs[r].status);
  }

  /** Nor does any sequence of lock sections without such an end: its subscribers stay
      registered until they leave. */
  lemma SubscribersOfCancelledStay(h: Hub.Registry, sections: seq<Hub.Section>, c: Hub.ChanId, run: Hub.RunId)
    requires Hub.Valid(h) && Hub.Registered(h, c, run)
    requires forall i :: 0 <= i < |sections| ==> !Hub.Removes(sections[i], c) && !Hub.ClosesRun(sections[i], run)
    ensures Hub.Registered(Hub.EnterAll(h, sections), c, run)
  {
    Hub.ClosedIff(h, sections, c, run);
  }
}

/** The subscription hub: one fan-out per watched run, one channel of capacity one
    per subscriber, everything changed under one lock. Sending on or closing a closed
    channel would panic, so both are preconditions here and the methods below meet
    them in every state a lock section can leave. Fan-outs and channels are known by
    identity, so a stale caller can hold one that the map has long replaced. */
module Hub {
  import opened Delivery

  type RunId = nat
  type FanoutId = nat
  type ChanId = nat
  type Snapshot = nat
  type Chan = Delivery.State<Snapshot>

  /** The channel operations of one send. */
  function SendTrace(full: bool, v: Snapshot, first: bool, second: bool): seq<Event<Snapshot>>
  {
    if !full then [Offer(v)]
    else [Offer(v)] + Turn(first) + [DropOldest] + Turn(second) + [Retry]
  }

  function Turn(receiver: bool): seq<Event<Snapshot>>
  {
    if receiver then [Receive] else []
  }

  lemma RunOne(s: Chan, e: Event<Snapshot>)
    ensures Run(s, [e]) == Step(s, e)
  {
    assert [e][1..] == [];
  }

  lemma {:induction false} RunSplits(s: Chan, a: seq<Event<Snapshot>>, b: seq<Event<Snapshot>>)
    ensures Run(s, a + b) == Run(Run(s, a), b)
    decreases |a|
  {
    if a == [] {
      assert a + b == b;
    } else {
      assert (a + b)[0] == a[0] && (a + b)[1..] == a[1..] + b;
      RunSplits(Step(s, a[0]), a[1..], b);
    }
  }

  /** A channel after a send: the new value alone in the buffer, the one before it
      received or dropped. */
  function Sent(s: Chan, v: Snapshot, first: bool): Chan
  {
    s.(buf := [v], sent := s.sent + [v], received := s.received + if first then s.buf else [])
  }

  lemma TurnRuns(s: Chan, receiver: bool)
    ensures Run(s, Turn(receiver)) == if receiver then Step(s, Receive) else s
  {
    if receiver { RunOne(s, Receive); }
  }

  lemma SendRuns(s: Chan, v: Snapshot, first: bool, second: bool)
    requires !s.closed && s.sender == Idle && |s.buf| == 1
    ensures Run(s, SendTrace(true, v, first, second))
         == Sent(s, v, first)
  {
    var a, b, c := [Offer(v)], Turn(first), [DropOldest];
    var d, e := Turn(second), [Retry];
    RunSplits(s, a + b + c + d, e);
    RunSplits(s, a + b + c, d);
    RunSplits(s, a + b, c);
    RunSplits(s, a, b);
    RunOne(s, a[0]);
    var s1 := Step(s, a[0]);
    TurnRuns(s1, first);
    var s2 := Run(s1, b);
    RunOne(s2, c[0]);
    var s3 := Step(s2, c[0]);
    TurnRuns(s3, second);
    RunOne(s3, e[0]);
    assert s.buf == [s.buf[0]];
  }

  // ------------------------------------------------ the state under the lock

  datatype Registry = Registry(
    runs: map<RunId, FanoutId>,
    subs: map<FanoutId, set<ChanId>>,   // of every fan-out ever made
    cancelled: set<FanoutId>,
    chans: map<ChanId, Chan>)           // every channel ever handed out

  predicate Registered(h: Registry, c: ChanId, run: RunId)
  {
    run in h.runs && h.runs[run] in h.subs && c in h.subs[h.runs[run]]
  }

  predicate InMap(h: Registry, f: FanoutId)
  {
    exists r :: r in h.runs && h.runs[r] == f
  }

  /** A run in the map has a fan-out of its own with a subscriber in it, and a fan-out
      is live exactly while it is in the map. */
  predicate FanoutsKept(h: Registry)
  {
    && (forall r :: r in h.runs ==> h.runs[r] in h.subs && h.subs[h.runs[r]] != {})
    && (forall r, q :: r in h.runs && q in h.runs && r != q ==> h.runs[r] != h.runs[q])
    && (forall f :: f in h.subs ==> (f in h.cancelled <==> !InMap(h, f)))
  }

  /** A channel is open exactly while it is registered, and with one run only. */
  ghost predicate ChannelsKept(h: Registry)
  {
    && (forall c, r :: Registered(h, c, r) ==> c in h.chans && !h.chans[c].closed)
    && (forall c, r, q :: Registered(h, c, r) && Registered(h, c, q) ==> r == q)
    && (forall c :: c in h.chans && !h.chans[c].closed ==> exists r :: Registered(h, c, r))
    && (forall c :: c in h.chans ==> |h.chans[c].buf| <= 1 && h.chans[c].sender == Idle)
  }

  /** What every lock section finds and leaves. */
  ghost predicate Valid(h: Registry)
  {
    FanoutsKept(h) && ChannelsKept(h)
  }

  // ------------------------------------------------ the lock sections

  const EMPTY: Chan := Delivery.State([], false, Idle, [], [])

  function AfterRegister(h: Registry, run: RunId, ch: ChanId, made: FanoutId): Registry
  {
    var f := if run in h.runs then h.runs[run] else made;
    var before := if f in h.subs && run in h.runs then h.subs[f] else {};
    Registry(h.runs[run := f], h.subs[f := before + {ch}], h.cancelled, h.chans[ch := EMPTY])
  }

  function AfterFanout(h: Registry, run: RunId, snap: Snapshot, first: ChanId -> bool): Registry
  {
    h.(chans := map c | c in h.chans ::
         if Registered(h, c, run) then Sent(h.chans[c], snap, first(c)) else h.chans[c])
  }

  function AfterCloseRun(h: Registry, run: RunId): Registry
  {
    if run !in h.runs then h
    else Registry(h.runs - {run}, h.subs, h.cancelled + {h.runs[run]},
               map c | c in h.chans ::
                 if Registered(h, c, run) then h.chans[c].(closed := true) else h.chans[c])
  }

  function AfterUnsubscribe(h: Registry, run: RunId, ch: ChanId): Registry
  {
    if !Registered(h, ch, run) || ch !in h.chans then h
    else
      var f := h.runs[run];
      var left := h.subs[f] - {ch};
      Registry(if left == {} then h.runs - {run} else h.runs, h.subs[f := left],
            if left == {} then h.cancelled + {f} else h.cancelled,
            h.chans[ch := h.chans[ch].(closed := true)])
  }

  predicate CanRegister(h: Registry, ch: ChanId, made: FanoutId)
  {
    ch !in h.chans && made !in h.subs && made !in h.cancelled
  }

  lemma RegisterRegisters(h: Registry, run: RunId, ch: ChanId, made: FanoutId)
    requires Valid(h) && CanRegister(h, ch, made)
    ensures forall c, r :: Registered(AfterRegister(h, run, ch, made), c, r) <==>
                             Registered(h, c, r) || (c == ch && r == run)
  {
  }

  lemma RegisterKeepsFanouts(h: Registry, run: RunId, ch: ChanId, made: FanoutId)
    requires Valid(h) && CanRegister(h, ch, made)
    ensures FanoutsKept(AfterRegister(h, run, ch, made))
  {
    var next := AfterRegister(h, run, ch, made);
    forall f | f in next.subs ensures f in next.cancelled <==> !InMap(next, f) {
      if r :| r in h.runs && h.runs[r] == f { assert next.runs[r] == f; }
      assert next.runs[run] == if run in h.runs then h.runs[run] else made;
    }
  }

  lemma RegisterKeepsValid(h: Registry, run: RunId, ch: ChanId, made: FanoutId)
    requires Valid(h) && CanRegister(h, ch, made)
    ensures Valid(AfterRegister(h, run, ch, made))
  {
    RegisterKeepsFanouts(h, run, ch, made);
    RegisterRegisters(h, run, ch, made);
    var next := AfterRegister(h, run, ch, made);
    forall c | c in next.chans && !next.chans[c].closed ensures exists r :: Registered(next, c, r) {
      if c == ch {
        assert Registered(next, c, run);
      } else {
        var r :| Registered(h, c, r);
        assert Registered(next, c, r);
      }
    }
  }

  lemma FanoutKeepsValid(h: Registry, run: RunId, snap: Snapshot, first: ChanId -> bool)
    requires Valid(h)
    ensures Valid(AfterFanout(h, run, snap, first))
  {
    var next := AfterFanout(h, run, snap, first);
    assert forall c, r :: Registered(next, c, r) <==> Registered(h, c, r);
    assert forall f :: InMap(next, f) <==> InMap(h, f);
  }

  lemma CloseRunUnregisters(h: Registry, run: RunId)
    requires Valid(h)
    ensures forall c, r :: Registered(AfterCloseRun(h, run), c, r) <==> Registered(h, c, r) && r != run
  {
  }

  lemma CloseRunKeepsFanouts(h: Registry, run: RunId)
    requires Valid(h)
    ensures FanoutsKept(AfterCloseRun(h, run))
  {
    var next := AfterCloseRun(h, run);
    forall f | f in next.subs ensures f in next.cancelled <==> !InMap(next, f) {
      if r :| r in h.runs && h.runs[r] == f {
        if r != run { assert r in next.runs && next.runs[r] == f; }
      }
    }
  }

  lemma CloseRunKeepsValid(h: Registry, run: RunId)
    requires Valid(h)
    ensures Valid(AfterCloseRun(h, run))
  {
    CloseRunKeepsFanouts(h, run);
    CloseRunUnregisters(h, run);
    var next := AfterCloseRun(h, run);
    forall c | c in next.chans && !next.chans[c].closed ensures exists r :: Registered(next, c, r) {
      var r :| Registered(h, c, r);
      assert Registered(next, c, r);
    }
  }

  lemma UnsubscribeUnregisters(h: Registry, run: RunId, ch: ChanId)
    requires Valid(h)
    ensures forall c, r :: Registered(AfterUnsubscribe(h, run, ch), c, r) <==>
                             Registered(h, c, r) && !(c == ch && r == run)
  {
    if Registered(h, ch, run) {
      assert ch in h.chans;
      var next := AfterUnsubscribe(h, run, ch);
      forall c, r
        ensures Registered(next, c, r) <==> Registered(h, c, r) && !(c == ch && r == run) {
        if r in h.runs && r != run {
          assert h.runs[r] != h.runs[run];
        }
      }
    }
  }

  lemma UnsubscribeKeepsFanouts(h: Registry, run: RunId, ch: ChanId)
    requires Valid(h)
    ensures FanoutsKept(AfterUnsubscribe(h, run, ch))
  {
    var next := AfterUnsubscribe(h, run, ch);
    forall f | f in next.subs ensures f in next.cancelled <==> !InMap(next, f) {
      if r :| r in h.runs && h.runs[r] == f {
        if r in next.runs { assert next.runs[r] == f; }
      }
    }
  }

  lemma UnsubscribeKeepsValid(h: Registry, run: RunId, ch: ChanId)
    requires Valid(h)
    ensures Valid(AfterUnsubscribe(h, run, ch))
  {
    UnsubscribeKeepsFanouts(h, run, ch);
    UnsubscribeUnregisters(h, run, ch);
    var next := AfterUnsubscribe(h, run, ch);
    forall c | c in next.chans && !next.chans[c].closed ensures exists r :: Registered(next, c, r) {
      var r :| Registered(h, c, r);
      assert Registered(next, c, r);
    }
  }

  /** A fan-out sends the snapshot to the channels registered for the run, where it is
      then the one to be received next, and to no other. */
  lemma FanoutReaches(h: Registry, run: RunId, snap: Snapshot, first: ChanId -> bool, c: ChanId)
    requires Valid(h) && c in h.chans
    ensures c in AfterFanout(h, run, snap, first).chans
    ensures var a, b := h.chans[c], AfterFanout(h, run, snap, first).chans[c];
            if Registered(h, c, run) then b.buf == [snap] && b.sent == a.sent + [snap] && !b.closed else b == a
  {
  }

  // ------------------------------------------------ any sequence of lock sections

  datatype Section =
    | Subscribing(run: RunId, ch: ChanId, made: FanoutId)
    | FanningOut(run: RunId, snap: Snapshot, first: ChanId -> bool)
    | Closing(run: RunId)
    | Unsubscribing(run: RunId, ch: ChanId)   // of any age, for any run
    | Receiving(ch: ChanId)                   // a receiver, between lock sections

  function Enter(h: Registry, section: Section): Registry
  {
    match section
    case Subscribing(run, ch, made) => if CanRegister(h, ch, made) then AfterRegister(h, run, ch, made) else h
    case FanningOut(run, snap, first) => AfterFanout(h, run, snap, first)
    case Closing(run) => AfterCloseRun(h, run)
    case Unsubscribing(run, ch) => AfterUnsubscribe(h, run, ch)
    case Receiving(ch) => if ch in h.chans then h.(chans := h.chans[ch := Step(h.chans[ch], Receive)]) else h
  }

  function EnterAll(h: Registry, sections: seq<Section>): Registry
    decreases |sections|
  {
    if sections == [] then h else EnterAll(Enter(h, sections[0]), sections[1..])
  }

  lemma ReceivingKeepsValid(h: Registry, ch: ChanId)
    requires Valid(h)
    ensures Valid(Enter(h, Receiving(ch)))
  {
    var next := Enter(h, Receiving(ch));
    assert forall c, r :: Registered(next, c, r) <==> Registered(h, c, r);
    assert forall f :: InMap(next, f) <==> InMap(h, f);
  }

  lemma SectionKeepsValid(h: Registry, section: Section)
    requires Valid(h)
    ensures Valid(Enter(h, section))
  {
    match section
    case Subscribing(run, ch, made) =>
      if CanRegister(h, ch, made) { RegisterKeepsValid(h, run, ch, made); }
    case FanningOut(run, snap, first) => FanoutKeepsValid(h, run, snap, first);
    case Closing(run) => CloseRunKeepsValid(h, run);
    case Unsubscribing(run, ch) => UnsubscribeKeepsValid(h, run, ch);
    case Receiving(ch) => ReceivingKeepsValid(h, ch);
  }

  /** Whatever lock sections follow one another, with stale callers and receivers
      among them, the registry stays valid. */
  lemma {:induction false} EverySectionKeepsValid(h: Registry, sections: seq<Section>)
    requires Valid(h)
    ensures Valid(EnterAll(h, sections))
    decreases |sections|
  {
    if sections != [] {
      SectionKeepsValid(h, sections[0]);
      EverySectionKeepsValid(Enter(h, sections[0]), sections[1..]);
    }
  }

  /** How often a channel goes from open to closed. */
  function Closings(h: Registry, sections: seq<Section>, c: ChanId): nat
    decreases |sections|
  {
    if sections == [] then 0
    else
      var next := Enter(h, sections[0]);
      (if c in h.chans && c in next.chans && !h.chans[c].closed && next.chans[c].closed then 1 else 0) +
      Closings(next, sections[1..], c)
  }

  lemma ClosedStaysClosed(h: Registry, section: Section, c: ChanId)
    requires Valid(h) && c in h.chans && h.chans[c].closed
    ensures c in Enter(h, section).chans && Enter(h, section).chans[c].closed
    ensures Enter(h, section).chans[c].sent == h.chans[c].sent
  {
    assert forall r :: !Registered(h, c, r);
  }

  lemma {:induction false} ClosedForGood(h: Registry, sections: seq<Section>, c: ChanId)
    requires Valid(h) && c in h.chans && h.chans[c].closed
    ensures c in EnterAll(h, sections).chans && EnterAll(h, sections).chans[c].closed
    decreases |sections|
  {
    if sections != [] {
      SectionKeepsValid(h, sections[0]);
      ClosedStaysClosed(h, sections[0], c);
      ClosedForGood(Enter(h, sections[0]), sections[1..], c);
    }
  }

  predicate IsClosed(h: Registry, c: ChanId)
  {
    c in h.chans && h.chans[c].closed
  }

  /** New channels are open. */
  lemma ClosedWasThere(h: Registry, section: Section, c: ChanId)
    requires IsClosed(Enter(h, section), c)
    ensures c in h.chans
  {
  }

  /** A channel is closed exactly once when it is closed in the end and was not at first,
      and otherwise never; a closed one gets nothing more. */
  lemma {:induction false} ClosedAtMostOnce(h: Registry, sections: seq<Section>, c: ChanId)
    requires Valid(h)
    ensures Closings(h, sections, c) == if IsClosed(EnterAll(h, sections), c) && !IsClosed(h, c) then 1 else 0
    ensures IsClosed(h, c) ==>
              c in EnterAll(h, sections).chans && EnterAll(h, sections).chans[c].sent == h.chans[c].sent
    decreases |sections|
  {
    if sections != [] {
      var next, rest := Enter(h, sections[0]), sections[1..];
      SectionKeepsValid(h, sections[0]);
      ClosedAtMostOnce(next, rest, c);
      if IsClosed(h, c) { ClosedStaysClosed(h, sections[0], c); }
      if IsClosed(next, c) {
        ClosedWasThere(h, sections[0], c);
        ClosedForGood(next, rest, c);
      }
      ClosingsUnfold(h, sections, c);
    }
  }

  lemma ClosingsUnfold(h: Registry, sections: seq<Section>, c: ChanId)
    requires sections != [] && (IsClosed(Enter(h, sections[0]), c) ==> c in h.chans)
    ensures Closings(h, sections, c) ==
              (if IsClosed(Enter(h, sections[0]), c) && !IsClosed(h, c) then 1 else 0) +
              Closings(Enter(h, sections[0]), sections[1..], c)
  {
  }

  // ------------------------------------------------ the send outside the lock

  /** Does the section end the subscriptions of the run? */
  predicate ClosesRun(section: Section, run: RunId)
  {
    section.Closing? && section.run == run
  }

  /** Does the section remove this very subscriber? */
  predicate Removes(section: Section, c: ChanId)
  {
    section.Unsubscribing? && section.ch == c
  }

  lemma RegisteredUntilClosed(h: Registry, section: Section, c: ChanId, run: RunId)
    requires Valid(h) && Registered(h, c, run) && !Removes(section, c)
    ensures var next := Enter(h, section);
            c in next.chans && if ClosesRun(section, run) then next.chans[c].closed else Registered(next, c, run)
  {
    assert c in h.chans;
    match section
    case Subscribing(r, ch, made) =>
      if CanRegister(h, ch, made) { RegisterRegisters(h, r, ch, made); }
    case Closing(r) => CloseRunUnregisters(h, r);
    case Unsubscribing(r, ch) => UnsubscribeUnregisters(h, r, ch);
    case FanningOut(_, _, _) => assert Registered(Enter(h, section), c, run);
    case Receiving(_) => assert Registered(Enter(h, section), c, run);
  }

  /** A registered channel that nobody removes is closed later exactly when its run's
      subscriptions were ended, and registered for its run otherwise. */
  lemma {:induction false} ClosedIff(h: Registry, sections: seq<Section>, c: ChanId, run: RunId)
    requires Valid(h) && Registered(h, c, run)
    requires forall i :: 0 <= i < |sections| ==> !Removes(sections[i], c)
    ensures c in EnterAll(h, sections).chans
    ensures EnterAll(h, sections).chans[c].closed <==> exists i :: 0 <= i < |sections| && ClosesRun(sections[i], run)
    ensures !EnterAll(h, sections).chans[c].closed ==> Registered(EnterAll(h, sections), c, run)
    decreases |sections|
  {
    if sections != [] {
      var next, rest := Enter(h, sections[0]), sections[1..];
      SectionKeepsValid(h, sections[0]);
      RegisteredUntilClosed(h, sections[0], c, run);
      assert !Removes(sections[0], c);
      if ClosesRun(sections[0], run) {
        ClosedForGood(next, rest, c);
      } else {
        assert forall i :: 0 <= i < |rest| ==> rest[i] == sections[i + 1];
        ClosedIff(next, rest, c, run);
        if i :| 0 <= i < |sections| && ClosesRun(sections[i], run) {
          assert ClosesRun(rest[i - 1], run);
        }
      }
    }
  }

  /** Subscribe sends its initial snapshot after it released the lock, and hands the
      channel to the goroutine that may remove it only after that. So the send meets a
      closed channel, which panics, exactly when the run's subscriptions are ended
      between the registration and the send. */
  lemma InitialSendMeetsClosedIff(h: Registry, run: RunId, ch: ChanId, made: FanoutId, between: seq<Section>)
    requires Valid(h) && CanRegister(h, ch, made)
    requires forall i :: 0 <= i < |between| ==> !Removes(between[i], ch)
    ensures var last := EnterAll(Enter(h, Subscribing(run, ch, made)), between);
            && ch in last.chans
            && (last.chans[ch].closed <==> exists i :: 0 <= i < |between| && ClosesRun(between[i], run))
  {
    RegisterKeepsValid(h, run, ch, made);
    RegisterRegisters(h, run, ch, made);
    ClosedIff(AfterRegister(h, run, ch, made), between, ch, run);
  }

  // ------------------------------------------------ what a subscriber receives

  lemma SentIsSound(s: Chan, v: Snapshot, first: bool)
    requires IsSound(s) && !s.closed && s.sender == Idle
    ensures IsSound(Sent(s, v, first))
  {
    if s.buf == [] {
      RunOne(s, Offer(v));
      assert s.received + [] == s.received && Step(s, Offer(v)) == Sent(s, v, first);
      EveryStepKeepsSound(s, Offer(v));
    } else {
      SendRuns(s, v, first, false);
      SoundnessLasts(s, SendTrace(true, v, first, false));
    }
  }

  lemma ClosedIsSound(s: Chan)
    requires IsSound(s)
    ensures IsSound(s.(closed := true))
  {
    assert Arrived(s.(closed := true)) == Arrived(s);
  }

  lemma SectionKeepsSound(h: Registry, section: Section, c: ChanId)
    requires Valid(h) && c in h.chans && IsSound(h.chans[c])
    ensures c in Enter(h, section).chans && IsSound(Enter(h, section).chans[c])
  {
    match section
    case Subscribing(run, ch, made) =>
    case FanningOut(run, snap, first) =>
      if Registered(h, c, run) { SentIsSound(h.chans[c], snap, first(c)); }
    case Closing(run) => ClosedIsSound(h.chans[c]);
    case Unsubscribing(run, ch) => ClosedIsSound(h.chans[c]);
    case Receiving(ch) => EveryStepKeepsSound(h.chans[c], Receive);
  }

  lemma {:induction false} EverySectionKeepsSound(h: Registry, sections: seq<Section>, c: ChanId)
    requires Valid(h) && c in h.chans && IsSound(h.chans[c])
    ensures c in EnterAll(h, sections).chans && IsSound(EnterAll(h, sections).chans[c])
    decreases |sections|
  {
    if sections != [] {
      SectionKeepsValid(h, sections[0]);
      SectionKeepsSound(h, sections[0], c);
      EverySectionKeepsSound(Enter(h, sections[0]), sections[1..], c);
    }
  }

  /** Past its initial send, a subscriber receives a subsequence of the snapshots
      fanned out to it, and once its channel is drained it has got the last of them,
      whether the channel is closed by then or not. */
  lemma SubscriberSeesTheLast(h: Registry, sections: seq<Section>, c: ChanId)
    requires Valid(h) && c in h.chans && Fresh(h.chans[c])
    ensures c in EnterAll(h, sections).chans
    ensures var s := EnterAll(h, sections).chans[c];
            && Subsequence(s.received, s.sent)
            && (s.buf == [] && s.sent != [] ==>
                  s.received != [] && s.received[|s.received| - 1] == s.sent[|s.sent| - 1])
  {
    SubsequenceOfItself(h.chans[c].sent);
    EverySectionKeepsSound(h, sections, c);
    EverySectionKeepsValid(h, sections);
    var s := EnterAll(h, sections).chans[c];
    ReceivedWhenSound(s);
    if s.buf == [] {
      assert Arrived(s) == s.received;
    }
  }

  // ------------------------------------------------ the hub itself

  /** The channels while a fan-out still has to serve the rest. */
  ghost predicate PartlySent(h: Registry, chans: map<ChanId, Chan>, run: RunId, snap: Snapshot,
                             first: ChanId -> bool, rest: set<ChanId>)
  {
    && chans.Keys == h.chans.Keys
    && forall c :: c in h.chans ==>
         chans[c] == if Registered(h, c, run) && c !in rest then Sent(h.chans[c], snap, first(c)) else h.chans[c]
  }

  lemma AllSent(h: Registry, chans: map<ChanId, Chan>, run: RunId, snap: Snapshot, first: ChanId -> bool)
    requires PartlySent(h, chans, run, snap, first, {})
    ensures chans == AfterFanout(h, run, snap, first).chans
  {
  }

  class Hub {
    var runs: map<RunId, FanoutId>
    var subs: map<FanoutId, set<ChanId>>
    var cancelled: set<FanoutId>
    var chans: map<ChanId, Chan>

    function Now(): Registry
      reads this
    {
      Registry(runs, subs, cancelled, chans)
    }

    constructor ()
      ensures Now() == Registry(map[], map[], {}, map[]) && Valid(Now())
    {
      runs, subs, cancelled, chans := map[], map[], {}, map[];
    }

    /** What other goroutines do between two lock sections of one. */
    method EnterOthers(others: seq<Section>)
      requires Valid(Now())
      modifies this
      ensures Valid(Now()) && Now() == EnterAll(old(Now()), others)
    {
      ghost var before := Now();
      for i := 0 to |others|
        invariant Valid(Now()) && EnterAll(Now(), others[i..]) == EnterAll(before, others)
      {
        SectionKeepsValid(Now(), others[i]);
        assert others[i..][0] == others[i] && others[i..][1..] == others[i + 1..];
        var next := Enter(Now(), others[i]);
        runs, subs, cancelled, chans := next.runs, next.subs, next.cancelled, next.chans;
      }
    }

    /** The lock section of Subscribe, with the channel and, should the run need one,
        the fan-out that it makes. */
    method Register(run: RunId, ch: ChanId, made: FanoutId)
      requires Valid(Now()) && CanRegister(Now(), ch, made)
      modifies this
      ensures Now() == AfterRegister(old(Now()), run, ch, made)
    {
      if run !in runs {
        runs, subs := runs[run := made], subs[made := {}];
      }
      var f := runs[run];
      subs := subs[f := subs[f] + {ch}];
      chans := chans[ch := EMPTY];
    }

    /** The receiver's turn: it takes what is buffered, if anything. */
    method TakeTurn(c: ChanId, turn: bool)
      requires c in chans && |chans[c].buf| <= 1
      modifies this`chans
      ensures chans == old(chans)[c := if turn then Step(old(chans)[c], Receive) else old(chans)[c]]
    {
      if turn && chans[c].buf != [] {
        assert chans[c].buf[1..] == [];
        chans := chans[c := chans[c].(buf := [], received := chans[c].received + [chans[c].buf[0]])];
      } else {
        assert chans == chans[c := chans[c]];
      }
    }

    /** The drop-oldest send; first and second say whether the receiver gets a turn
        after the first and after the second channel operation. The value always ends
        up in the buffer. */
    method TrySend(c: ChanId, v: Snapshot, first: bool, second: bool)
      requires c in chans && !chans[c].closed && chans[c].sender == Idle && |chans[c].buf| <= 1
      modifies this`chans
      ensures chans == old(chans)[c := Sent(old(chans)[c], v, first)]
      ensures chans[c] == Run(old(chans)[c], SendTrace(old(chans)[c].buf != [], v, first, second))
    {
      ghost var before := chans[c];
      chans := chans[c := chans[c].(sent := chans[c].sent + [v])];
      if chans[c].buf == [] {
        chans := chans[c := chans[c].(buf := [v])];
        RunOne(before, Offer(v));
        assert before.received + [] == before.received && chans[c] == Sent(before, v, first);
        assert chans == old(chans)[c := chans[c]];
        return;
      }
      TakeTurn(c, first);
      chans := chans[c := chans[c].(buf := [])];
      TakeTurn(c, second);
      if chans[c].buf == [] {
        chans := chans[c := chans[c].(buf := [v])];
      }
      SendRuns(before, v, first, second);
      assert before.received + [] == before.received && before.buf == [before.buf[0]];
      assert chans[c] == Sent(before, v, first);
      assert chans == old(chans)[c := chans[c]];
    }

    method Close(c: ChanId)
      requires c in chans && !chans[c].closed
      modifies this`chans
      ensures chans == old(chans)[c := old(chans)[c].(closed := true)]
    {
      chans := chans[c := chans[c].(closed := true)];
    }

    /** Sends the snapshot to every subscriber of the run; first and second say how the
        receivers interleave with the sends. */
    method Fanout(run: RunId, snap: Snapshot, first: ChanId -> bool, second: ChanId -> bool)
      requires Valid(Now())
      modifies this`chans
      ensures Now() == AfterFanout(old(Now()), run, snap, first)
    {
      ghost var before := Now();
      var rest := if run in runs then subs[runs[run]] else {};
      while rest != {}
        invariant rest <= (if run in runs then subs[runs[run]] else {})
        invariant PartlySent(before, chans, run, snap, first, rest)
      {
        var c :| c in rest;
        assert Registered(before, c, run);
        TrySend(c, snap, first(c), second(c));
        rest := rest - {c};
      }
      AllSent(before, chans, run, snap, first);
    }

    /** Ends every subscription of a run, also when the call comes from the loop of an
        older fan-out than the one now in the map. */
    method CloseRun(run: RunId)
      requires Valid(Now())
      modifies this
      ensures Now() == AfterCloseRun(old(Now()), run)
    {
      ghost var before := Now();
      if run !in runs { return; }
      var f := runs[run];
      var rest := subs[f];
      while rest != {}
        modifies this`chans
        invariant rest <= subs[f] && chans.Keys == before.chans.Keys
        invariant forall c :: c in before.chans ==>
                    chans[c] == if Registered(before, c, run) && c !in rest
                                then before.chans[c].(closed := true) else before.chans[c]
      {
        var c :| c in rest;
        assert Registered(before, c, run);
        Close(c);
        rest := rest - {c};
      }
      assert chans == AfterCloseRun(before, run).chans;
      cancelled := cancelled + {f};
      runs := runs - {run};
    }

    /** Removes one subscriber, and the fan-out with the last one. A subscriber that
        is gone already, whatever fan-out the run has by now, changes nothing. */
    method Unsubscribe(run: RunId, ch: ChanId)
      requires Valid(Now())
      modifies this
      ensures Now() == AfterUnsubscribe(old(Now()), run, ch)
    {
      if run !in runs { return; }
      var f := runs[run];
      if ch !in subs[f] { return; }
      assert Registered(Now(), ch, run);
      subs := subs[f := subs[f] - {ch}];
      Close(ch);
      if subs[f] == {} {
        cancelled := cancelled + {f};
        runs := runs - {run};
      }
    }
  }
}

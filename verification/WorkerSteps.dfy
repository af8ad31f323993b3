/** One worker process, step by step. A polling loop and a message consumer each test the
    drain flag, claim a shard, note it, execute it, read the flag again, write the shard's
    status and clear the note; a drain sets the flag, reads the note, marks the noted
    shard and counts it. The three run concurrently with one another and with every other
    process, and every database write may fail. */
module WorkerSteps {
  import opened Wrappers
  import opened RunStates
  import opened RunStore
  import Scans = RescheduleScans
  import opened Drain

  datatype Who = Polling | Consuming

  /** How far a loop is with its shard. */
  datatype Activity =
    | Idle
    | Admitted                                      // the flag was not set
    | Claimed(shard: ShardId, empty: bool)          // its tests are loaded
    | Executing(shard: ShardId, empty: bool)        // and it was noted
    | Finishing(shard: ShardId, seen: bool)         // the flag was read again
    | Leaving(shard: ShardId)                       // its status was written, or left alone

  datatype Progress = NotBegun | Begun | NoteRead(note: Option<ShardId>) | Counting(shard: ShardId) | Over

  datatype Worker = Worker(id: WorkerId, polling: Activity, consuming: Activity,
                           current: Option<ShardId>, drain: Progress)

  datatype System = System(db: Db, w: Worker)

  datatype Event =
    | Test(who: Who)
    | Claim(who: Who, shard: ShardId, empty: bool, fails: bool)
    | Note(who: Who)
    | Record(who: Who, test: TestId)
    | ReadFlag(who: Who)
    | Write(who: Who, failed: bool, fails: bool)    // failed: the tests; fails: the UPDATE
    | Clear(who: Who)
    | SetFlag
    | ReadNote
    | Mark(fails: bool)
    | Count(fails: bool)
    | Others(stmt: Statement)

  predicate Draining(w: Worker)
  {
    w.drain != NotBegun
  }

  function At(w: Worker, who: Who): Activity
  {
    if who == Polling then w.polling else w.consuming
  }

  function Put(w: Worker, who: Who, a: Activity): Worker
  {
    if who == Polling then w.(polling := a) else w.(consuming := a)
  }

  /** Polling claims from the rows, consuming whatever pending shard it has a message for. */
  predicate CanClaim(db: Db, who: Who, s: ShardId)
  {
    if who == Polling then Claimable(db, s) else s in db.shards && db.shards[s].status == ShardPending
  }

  function ClaimOf(who: Who, s: ShardId, id: WorkerId): Statement
  {
    if who == Polling then ClaimNext(s, id) else ClaimNats(s, id)
  }

  /** What other processes may commit: they claim for themselves, the status of a claimed
      shard is written by the worker that claimed it, and managers reschedule shards that
      were seen preempted, which a pending or running shard never was. */
  predicate Foreign(db: Db, id: WorkerId, stmt: Statement)
  {
    match stmt
    case ClaimNext(s, w) => w != id
    case ClaimNats(s, w) => w != id
    case FinishShard(s, _) => s in db.shards ==> db.shards[s].worker != Some(id)
    case PreemptShard(s) => s in db.shards ==> db.shards[s].worker != Some(id)
    case RescheduleDone(s) => s in db.shards ==> !Live(db.shards[s])
    case _ => true
  }

  function Step(y: System, e: Event): System
  {
    match e
    case Test(who) =>
      if At(y.w, who) == Idle && !Draining(y.w) then y.(w := Put(y.w, who, Admitted)) else y
    case Claim(who, s, empty, fails) =>
      if At(y.w, who) != Admitted then y
      else if fails || !CanClaim(y.db, who, s) then y.(w := Put(y.w, who, Idle))
      else System(Exec(y.db, ClaimOf(who, s, y.w.id)), Put(y.w, who, Claimed(s, empty)))
    case Note(who) =>
      (match At(y.w, who)
       case Claimed(s, empty) => y.(w := Put(y.w, who, Executing(s, empty)).(current := Some(s)))
       case _ => y)
    case Record(who, t) =>
      (match At(y.w, who)
       case Executing(s, false) => y.(db := Exec(y.db, RecordResult(s, t)))
       case _ => y)
    case ReadFlag(who) =>
      (match At(y.w, who)
       case Executing(s, false) => y.(w := Put(y.w, who, Finishing(s, Draining(y.w))))
       case _ => y)
    case Write(who, failed, fails) =>
      (match At(y.w, who)
       case Executing(s, true) =>
         System(if fails then y.db else Exec(y.db, FinishShard(s, true)), Put(y.w, who, Leaving(s)))
       case Finishing(s, seen) =>
         System(if seen || fails then y.db else Exec(y.db, FinishShard(s, !failed)), Put(y.w, who, Leaving(s)))
       case _ => y)
    case Clear(who) =>
      if At(y.w, who).Leaving? then y.(w := Put(y.w, who, Idle).(current := None)) else y
    case SetFlag =>
      if y.w.drain == NotBegun then y.(w := y.w.(drain := Begun)) else y
    case ReadNote =>
      if y.w.drain == Begun then y.(w := y.w.(drain := NoteRead(y.w.current))) else y
    case Mark(fails) =>
      (match y.w.drain
       case NoteRead(Some(s)) =>
         if fails || s !in y.db.shards || y.db.shards[s].status != ShardRunning then y.(w := y.w.(drain := Over))
         else System(Exec(y.db, PreemptShard(s)), y.w.(drain := Counting(s)))
       case NoteRead(None) => y.(w := y.w.(drain := Over))
       case _ => y)
    case Count(fails) =>
      (match y.w.drain
       case Counting(s) =>
         System(Exec(y.db, if fails then DropPreemption(s) else CountPreemption(s)), y.w.(drain := Over))
       case _ => y)
    case Others(stmt) => if Foreign(y.db, y.w.id, stmt) then y.(db := Exec(y.db, stmt)) else y
  }

  function Run(y: System, trace: seq<Event>): System
    decreases |trace|
  {
    if trace == [] then y else Run(Step(y, trace[0]), trace[1..])
  }

  // ------------------------------------------------ what every step keeps

  predicate OwnedBy(db: Db, s: ShardId, w: WorkerId)
  {
    s in db.shards && db.shards[s].status != ShardPending && db.shards[s].worker == Some(w)
  }

  /** Whatever is committed meanwhile, a shard stays with the worker that claimed it. */
  lemma {:induction false} OwnershipLasts(db: Db, trace: seq<Statement>, s: ShardId, w: WorkerId)
    requires OwnedBy(db, s, w)
    ensures OwnedBy(ExecAll(db, trace), s, w)
    decreases |trace|
  {
    if trace != [] {
      ShardsNeverRevert(db, trace[0], s);
      OwnershipLasts(Exec(db, trace[0]), trace[1..], s, w);
    }
  }

  /** The shard of an activity, if it has one. */
  function Held(a: Activity): Option<ShardId>
  {
    match a
    case Idle => None
    case Admitted => None
    case Claimed(s, _) => Some(s)
    case Executing(s, _) => Some(s)
    case Finishing(s, _) => Some(s)
    case Leaving(s) => Some(s)
  }

  function Noted(p: Progress): Option<ShardId>
  {
    match p
    case NoteRead(n) => n
    case Counting(s) => Some(s)
    case _ => None
  }

  predicate Mine(db: Db, s: Option<ShardId>, id: WorkerId)
  {
    s.Some? ==> OwnedBy(db, s.value, id)
  }

  /** Whatever the worker holds or notes it has claimed, and its loops hold different
      shards. */
  predicate IsSound(y: System)
  {
    && Mine(y.db, Held(y.w.polling), y.w.id) && Mine(y.db, Held(y.w.consuming), y.w.id)
    && Mine(y.db, y.w.current, y.w.id) && Mine(y.db, Noted(y.w.drain), y.w.id)
    && (Held(y.w.polling).Some? ==> Held(y.w.polling) != Held(y.w.consuming))
  }

  /** The statement a step commits, if any. */
  function Committed(y: System, e: Event): Option<Statement>
  {
    match e
    case Claim(who, s, _, fails) =>
      if At(y.w, who) == Admitted && !fails && CanClaim(y.db, who, s) then Some(ClaimOf(who, s, y.w.id)) else None
    case Record(who, t) =>
      (match At(y.w, who) case Executing(s, false) => Some(RecordResult(s, t)) case _ => None)
    case Write(who, failed, fails) =>
      (match At(y.w, who)
       case Executing(s, true) => if fails then None else Some(FinishShard(s, true))
       case Finishing(s, seen) => if seen || fails then None else Some(FinishShard(s, !failed))
       case _ => None)
    case Mark(fails) =>
      (match y.w.drain
       case NoteRead(Some(s)) =>
         if fails || s !in y.db.shards || y.db.shards[s].status != ShardRunning then None else Some(PreemptShard(s))
       case _ => None)
    case Count(fails) =>
      (match y.w.drain
       case Counting(s) => Some(if fails then DropPreemption(s) else CountPreemption(s))
       case _ => None)
    case Others(stmt) => if Foreign(y.db, y.w.id, stmt) then Some(stmt) else None
    case _ => None
  }

  lemma StepCommits(y: System, e: Event)
    ensures Step(y, e).db == match Committed(y, e) case None => y.db case Some(stmt) => Exec(y.db, stmt)
    ensures Step(y, e).w.id == y.w.id
  {
  }

  lemma OwnershipSurvivesStep(y: System, e: Event, s: ShardId)
    requires OwnedBy(y.db, s, y.w.id)
    ensures OwnedBy(Step(y, e).db, s, y.w.id) && Step(y, e).w.id == y.w.id
  {
    StepCommits(y, e);
    if Committed(y, e).Some? { ShardsNeverRevert(y.db, Committed(y, e).value, s); }
  }

  lemma ClaimOwns(db: Db, who: Who, s: ShardId, id: WorkerId)
    requires CanClaim(db, who, s)
    ensures OwnedBy(Exec(db, ClaimOf(who, s, id)), s, id) && !OwnedBy(db, s, id)
    ensures Exec(db, ClaimOf(who, s, id)).shards[s].status == ShardRunning
  {
  }

  lemma MineSurvivesStep(y: System, e: Event, s: Option<ShardId>)
    requires Mine(y.db, s, y.w.id)
    ensures Mine(Step(y, e).db, s, y.w.id)
  {
    if s.Some? { OwnershipSurvivesStep(y, e, s.value); }
  }

  lemma StepKeepsSound(y: System, e: Event)
    requires IsSound(y)
    ensures IsSound(Step(y, e))
  {
    StepCommits(y, e);
    MineSurvivesStep(y, e, Held(y.w.polling));
    MineSurvivesStep(y, e, Held(y.w.consuming));
    MineSurvivesStep(y, e, y.w.current);
    MineSurvivesStep(y, e, Noted(y.w.drain));
    if e.Claim? && CanClaim(y.db, e.who, e.shard) { ClaimOwns(y.db, e.who, e.shard, y.w.id); }
  }

  // ------------------------------------------------ the fate of one shard

  /** What can happen to shard s that decides how it ends. */
  datatype Kind = SeesDrain | WriteFails | MarksIt

  predicate Is(kind: Kind, y: System, e: Event, s: ShardId)
  {
    match kind
    case SeesDrain => e.ReadFlag? && At(y.w, e.who) == Executing(s, false) && Draining(y.w)
    case WriteFails =>
      e.Write? && e.fails && (At(y.w, e.who) == Executing(s, true) || At(y.w, e.who) == Finishing(s, false))
    case MarksIt =>
      e == Mark(false) && y.w.drain == NoteRead(Some(s)) && s in y.db.shards && y.db.shards[s].status == ShardRunning
  }

  predicate Happens(kind: Kind, y: System, trace: seq<Event>, s: ShardId)
    decreases |trace|
  {
    trace != [] && (Is(kind, y, trace[0], s) || Happens(kind, Step(y, trace[0]), trace[1..], s))
  }

  /** Still on its way through a loop, its last status not yet written. */
  predicate HeldBy(a: Activity, s: ShardId)
  {
    Held(a) == Some(s) && !a.Leaving?
  }

  predicate InHand(y: System, s: ShardId)
  {
    HeldBy(y.w.polling, s) || HeldBy(y.w.consuming, s)
  }

  predicate FlagAsSeen(a: Activity, s: ShardId, late: bool)
  {
    match a
    case Claimed(t, _) => t == s ==> !late
    case Executing(t, _) => t == s ==> !late
    case Finishing(t, seen) => t == s ==> late == seen
    case _ => true
  }

  /** How the status of s follows from what has happened to it: whether it saw the drain,
      whether its last write failed, and whether it was marked. */
  ghost predicate Accounted(y: System, s: ShardId, late: bool, lost: bool, marked: bool)
  {
    if !OwnedBy(y.db, s, y.w.id) then !late && !lost && !marked
    else
      var row := y.db.shards[s];
      && FlagAsSeen(y.w.polling, s, late) && FlagAsSeen(y.w.consuming, s, late)
      && (InHand(y, s) ==> !lost && (row.status == ShardRunning <==> !marked))
      && (!InHand(y, s) ==> (row.status == ShardRunning <==> (late || lost) && !marked))
      && (marked && (InHand(y, s) || late || lost) ==>
            row.status == ShardPreempted || (row.rescheduled && Scans.Settled(y.db, s)))
      && (marked && !InHand(y, s) && !late && !lost ==> Scans.Settled(y.db, s))
  }

  /** The rows of s that a statement of another kind leaves as they are, as far as the
      account goes. */
  lemma ForeignKeepsAccount(y: System, stmt: Statement, s: ShardId, late: bool, lost: bool, marked: bool)
    requires Accounted(y, s, late, lost, marked) && Foreign(y.db, y.w.id, stmt)
    ensures Accounted(Step(y, Others(stmt)), s, late, lost, marked)
  {
  }

  lemma ClaimKeepsAccount(y: System, e: Event, s: ShardId, late: bool, lost: bool, marked: bool)
    requires IsSound(y) && Accounted(y, s, late, lost, marked) && e.Claim?
    ensures Accounted(Step(y, e), s, late, lost, marked)
  {
    if CanClaim(y.db, e.who, e.shard) { ClaimOwns(y.db, e.who, e.shard, y.w.id); }
  }

  lemma WriteOfAnother(y: System, e: Event, s: ShardId, late: bool, lost: bool, marked: bool)
    requires IsSound(y) && Accounted(y, s, late, lost, marked) && e.Write? && Held(At(y.w, e.who)) != Some(s)
    ensures Accounted(Step(y, e), s, late, lost, marked) && !Is(WriteFails, y, e, s)
  {
  }

  lemma WriteOfThis(y: System, e: Event, s: ShardId, late: bool, lost: bool, marked: bool)
    requires IsSound(y) && Accounted(y, s, late, lost, marked) && e.Write? && Held(At(y.w, e.who)) == Some(s)
    ensures Accounted(Step(y, e), s, late, lost || Is(WriteFails, y, e, s), marked)
  {
    assert OwnedBy(y.db, s, y.w.id);
  }

  lemma WriteKeepsAccount(y: System, e: Event, s: ShardId, late: bool, lost: bool, marked: bool)
    requires IsSound(y) && Accounted(y, s, late, lost, marked) && e.Write?
    ensures Accounted(Step(y, e), s, late, lost || Is(WriteFails, y, e, s), marked)
  {
    if Held(At(y.w, e.who)) == Some(s) {
      WriteOfThis(y, e, s, late, lost, marked);
    } else {
      WriteOfAnother(y, e, s, late, lost, marked);
    }
  }

  lemma DrainKeepsAccount(y: System, e: Event, s: ShardId, late: bool, lost: bool, marked: bool)
    requires IsSound(y) && Accounted(y, s, late, lost, marked)
    requires e.SetFlag? || e.ReadNote? || e.Mark? || e.Count?
    ensures Accounted(Step(y, e), s, late, lost, marked || Is(MarksIt, y, e, s))
  {
  }

  lemma QuietKeepsAccount(y: System, e: Event, s: ShardId, late: bool, lost: bool, marked: bool)
    requires IsSound(y) && Accounted(y, s, late, lost, marked)
    requires e.Test? || e.Note? || e.Record? || e.ReadFlag? || e.Clear?
    ensures Accounted(Step(y, e), s, late || Is(SeesDrain, y, e, s), lost, marked)
  {
  }

  lemma StepKeepsAccount(y: System, e: Event, s: ShardId, late: bool, lost: bool, marked: bool)
    requires IsSound(y) && Accounted(y, s, late, lost, marked)
    ensures Accounted(Step(y, e), s, late || Is(SeesDrain, y, e, s), lost || Is(WriteFails, y, e, s),
                      marked || Is(MarksIt, y, e, s))
  {
    match e
    case Claim(_, _, _, _) => ClaimKeepsAccount(y, e, s, late, lost, marked);
    case Write(_, _, _) => WriteKeepsAccount(y, e, s, late, lost, marked);
    case Others(stmt) => if Foreign(y.db, y.w.id, stmt) { ForeignKeepsAccount(y, stmt, s, late, lost, marked); }
    case Test(_) => QuietKeepsAccount(y, e, s, late, lost, marked);
    case Note(_) => QuietKeepsAccount(y, e, s, late, lost, marked);
    case Record(_, _) => QuietKeepsAccount(y, e, s, late, lost, marked);
    case ReadFlag(_) => QuietKeepsAccount(y, e, s, late, lost, marked);
    case Clear(_) => QuietKeepsAccount(y, e, s, late, lost, marked);
    case _ => DrainKeepsAccount(y, e, s, late, lost, marked);
  }

  lemma {:induction false} AccountLasts(y: System, trace: seq<Event>, s: ShardId, late: bool, lost: bool, marked: bool)
    requires IsSound(y) && Accounted(y, s, late, lost, marked)
    ensures IsSound(Run(y, trace))
    ensures Accounted(Run(y, trace), s, late || Happens(SeesDrain, y, trace, s),
                      lost || Happens(WriteFails, y, trace, s), marked || Happens(MarksIt, y, trace, s))
    decreases |trace|
  {
    if trace != [] {
      var e := trace[0];
      StepKeepsSound(y, e);
      StepKeepsAccount(y, e, s, late, lost, marked);
      AccountLasts(Step(y, e), trace[1..], s, late || Is(SeesDrain, y, e, s),
                   lost || Is(WriteFails, y, e, s), marked || Is(MarksIt, y, e, s));
    }
  }

  /** A worker that has just started. */
  predicate Started(w: Worker)
  {
    w.polling == Idle && w.consuming == Idle && w.current == None && w.drain == NotBegun
  }

  /** In every interleaving: a shard this worker claimed and is through with is still
      running exactly when its loop saw the drain or failed to write its status, and the
      drain did not mark it. */
  lemma StrandedIff(y: System, trace: seq<Event>, s: ShardId)
    requires Started(y.w) && !OwnedBy(y.db, s, y.w.id)
    requires OwnedBy(Run(y, trace).db, s, y.w.id) && !InHand(Run(y, trace), s)
    ensures Run(y, trace).w.id == y.w.id
    ensures Run(y, trace).db.shards[s].status == ShardRunning <==>
              (Happens(SeesDrain, y, trace, s) || Happens(WriteFails, y, trace, s)) && !Happens(MarksIt, y, trace, s)
  {
    IdLasts(y, trace);
    AccountLasts(y, trace, s, false, false, false);
  }

  /** A shard that the drain missed, and whose status could be written, is left running
      exactly when its loop read the flag after the drain had set it. */
  lemma MissedShardIff(y: System, trace: seq<Event>, s: ShardId)
    requires Started(y.w) && !OwnedBy(y.db, s, y.w.id)
    requires OwnedBy(Run(y, trace).db, s, y.w.id) && !InHand(Run(y, trace), s)
    requires !Happens(MarksIt, y, trace, s) && !Happens(WriteFails, y, trace, s)
    ensures Run(y, trace).db.shards[s].status == ShardRunning <==> Happens(SeesDrain, y, trace, s)
  {
    StrandedIff(y, trace, s);
  }

  lemma {:induction false} IdLasts(y: System, trace: seq<Event>)
    ensures Run(y, trace).w.id == y.w.id
    decreases |trace|
  {
    if trace != [] {
      StepCommits(y, trace[0]);
      IdLasts(Step(y, trace[0]), trace[1..]);
    }
  }

  /** So a drained worker that is through with its shards leaves none of them running
      exactly when every one that saw the drain, or whose write failed, was the one that
      the drain had read from the note and then marked. */
  lemma DrainReachesAllIff(y: System, trace: seq<Event>)
    requires Started(y.w) && forall s :: s in y.db.shards ==> !OwnedBy(y.db, s, y.w.id)
    requires Held(Run(y, trace).w.polling) == None && Held(Run(y, trace).w.consuming) == None
    ensures var last := Run(y, trace);
            (forall s :: OwnedBy(last.db, s, y.w.id) ==> last.db.shards[s].status != ShardRunning) <==>
            (forall s :: OwnedBy(last.db, s, y.w.id) &&
                         (Happens(SeesDrain, y, trace, s) || Happens(WriteFails, y, trace, s)) ==>
                         Happens(MarksIt, y, trace, s))
  {
    var last := Run(y, trace);
    IdLasts(y, trace);
    forall s | OwnedBy(last.db, s, y.w.id)
      ensures last.db.shards[s].status == ShardRunning <==>
                (Happens(SeesDrain, y, trace, s) || Happens(WriteFails, y, trace, s)) &&
                !Happens(MarksIt, y, trace, s) {
      StrandedIff(y, trace, s);
    }
  }

  /** A marked shard that no manager gave up on is still preempted in the end exactly when
      its loop saw the drain or failed to write its status: the worker's own last write
      overwrites the mark whenever the flag was read before the drain, or never, as for
      an empty shard. */
  lemma MarkSurvivesIff(y: System, trace: seq<Event>, s: ShardId)
    requires Started(y.w) && !OwnedBy(y.db, s, y.w.id)
    requires OwnedBy(Run(y, trace).db, s, y.w.id) && !InHand(Run(y, trace), s)
    requires Happens(MarksIt, y, trace, s) && !Run(y, trace).db.shards[s].rescheduled
    ensures Run(y, trace).db.shards[s].status == ShardPreempted <==>
              Happens(SeesDrain, y, trace, s) || Happens(WriteFails, y, trace, s)
  {
    IdLasts(y, trace);
    AccountLasts(y, trace, s, false, false, false);
  }

  // ------------------------------------------------ events in a row

  function Run4(y: System, a: Event, b: Event, c: Event, d: Event): System
  {
    Step(Step(Step(Step(y, a), b), c), d)
  }

  lemma FourEvents(y: System, a: Event, b: Event, c: Event, d: Event, rest: seq<Event>)
    ensures Run(y, [a, b, c, d] + rest) == Run(Run4(y, a, b, c, d), rest)
  {
    OneEvent(y, a, [b, c, d] + rest);
    OneEvent(Step(y, a), b, [c, d] + rest);
    OneEvent(Step(Step(y, a), b), c, [d] + rest);
    OneEvent(Step(Step(Step(y, a), b), c), d, rest);
    assert [a, b, c, d] + rest == [a] + ([b, c, d] + rest);
    assert [b, c, d] + rest == [b] + ([c, d] + rest);
    assert [c, d] + rest == [c] + ([d] + rest);
  }

  lemma OneEvent(y: System, a: Event, rest: seq<Event>)
    ensures Run(y, [a] + rest) == Run(Step(y, a), rest)
  {
    assert ([a] + rest)[1..] == rest;
  }

  lemma TwoEvents(y: System, a: Event, b: Event)
    ensures Run(y, [a, b]) == Step(Step(y, a), b)
  {
    assert [a, b] == [a] + ([b] + []);
    OneEvent(y, a, [b] + []);
    OneEvent(Step(y, a), b, []);
  }

  // ------------------------------------------------ and after that

  /** The statements that the events commit, in order. */
  function History(y: System, trace: seq<Event>): seq<Statement>
    decreases |trace|
  {
    if trace == [] then []
    else
      (match Committed(y, trace[0]) case None => [] case Some(stmt) => [stmt]) +
      History(Step(y, trace[0]), trace[1..])
  }

  /** What is proved of traces of statements holds of a worker among others. */
  lemma {:induction false} EventsAreStatements(y: System, trace: seq<Event>)
    ensures Run(y, trace).db == ExecAll(y.db, History(y, trace))
    decreases |trace|
  {
    if trace != [] {
      StepCommits(y, trace[0]);
      EventsAreStatements(Step(y, trace[0]), trace[1..]);
      var tail := History(Step(y, trace[0]), trace[1..]);
      match Committed(y, trace[0])
      case None => assert [] + tail == tail;
      case Some(stmt) => assert ([stmt] + tail)[1..] == tail && ([stmt] + tail)[0] == stmt;
    }
  }

  /** The worker is through with shard s and its drain cannot reach s any more. */
  predicate OutOfReach(y: System, s: ShardId)
  {
    && Held(y.w.polling) != Some(s) && Held(y.w.consuming) != Some(s)
    && (y.w.drain == Over || y.w.drain.Counting?)
  }

  lemma StepEndsNothing(y: System, e: Event, s: ShardId)
    requires IsSound(y) && OwnedBy(y.db, s, y.w.id) && y.db.shards[s].status == ShardRunning && OutOfReach(y, s)
    ensures Committed(y, e).Some? ==> !Ends(Committed(y, e).value, s)
  {
  }

  lemma StillOutOfReach(y: System, e: Event, s: ShardId)
    requires IsSound(y) && OwnedBy(y.db, s, y.w.id) && y.db.shards[s].status == ShardRunning && OutOfReach(y, s)
    ensures OutOfReach(Step(y, e), s)
  {
  }

  lemma StillRunning(db: Db, stmt: Statement, s: ShardId)
    requires s in db.shards && db.shards[s].status == ShardRunning && !Ends(stmt, s)
    ensures s in Exec(db, stmt).shards && Exec(db, stmt).shards[s].status == ShardRunning
  {
  }

  lemma {:induction false} HistoryEndsNothing(y: System, trace: seq<Event>, s: ShardId)
    requires IsSound(y) && OwnedBy(y.db, s, y.w.id) && y.db.shards[s].status == ShardRunning && OutOfReach(y, s)
    ensures NoneEnds(History(y, trace), s)
    decreases |trace|
  {
    if trace != [] {
      var e := trace[0];
      StepKeepsSound(y, e);
      StepEndsNothing(y, e, s);
      StillOutOfReach(y, e, s);
      OwnershipSurvivesStep(y, e, s);
      StepCommits(y, e);
      var head: seq<Statement> := match Committed(y, e) case None => [] case Some(stmt) => [stmt];
      if Committed(y, e).Some? { StillRunning(y.db, Committed(y, e).value, s); }
      HistoryEndsNothing(Step(y, e), trace[1..], s);
      EndsNothingTogether(head, History(Step(y, e), trace[1..]), s);
    }
  }

  predicate NoneEnds(trace: seq<Statement>, s: ShardId)
  {
    forall i :: 0 <= i < |trace| ==> !Ends(trace[i], s)
  }

  lemma EndsNothingTogether(a: seq<Statement>, b: seq<Statement>, s: ShardId)
    requires NoneEnds(a, s) && NoneEnds(b, s)
    ensures NoneEnds(a + b, s)
  {
  }

  /** A shard left running by a worker that is through with it, its drain over, runs for
      good, and no manager's scan ever returns it. */
  lemma StrandedForGood(y: System, trace: seq<Event>, s: ShardId)
    requires IsSound(y) && OwnedBy(y.db, s, y.w.id) && y.db.shards[s].status == ShardRunning && OutOfReach(y, s)
    ensures var last := Run(y, trace).db;
            s in last.shards && last.shards[s].status == ShardRunning && !Scans.ScanPicks(last, s)
  {
    HistoryEndsNothing(y, trace, s);
    EventsAreStatements(y, trace);
    StrandedShard(y.db, History(y, trace), s);
  }
}

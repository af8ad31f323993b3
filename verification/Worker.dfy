/** A worker process as an object. Every method is one of its steps; between any two of
    them the other loop, the drain and other processes may move. */
module Worker {
  import opened Wrappers
  import opened RunStates
  import opened RunCoverage
  import opened RunStore
  import opened WorkerSteps

  datatype Reply = Nak | Ack | Take(tests: seq<TestId>)

  class Agent {
    const store: Store
    const id: WorkerId
    var polling: Activity
    var consuming: Activity
    var current: Option<ShardId>
    var drain: Progress

    constructor (store: Store, id: WorkerId)
      ensures this.store == store && this.id == id && Started(Now().w)
    {
      this.store, this.id := store, id;
      polling, consuming, current, drain := Idle, Idle, None, NotBegun;
    }

    function Now(): System
      reads this, store
    {
      System(store.Snapshot(), WorkerSteps.Worker(id, polling, consuming, current, drain))
    }

    ghost predicate Valid()
      reads this, store
    {
      store.Valid() && IsSound(Now())
    }

    method SetActivity(who: Who, a: Activity)
      modifies this`polling, this`consuming
      ensures Now() == old(Now()).(w := Put(old(Now()).w, who, a))
    {
      if who == Polling { polling := a; } else { consuming := a; }
    }

    /** Does the loop go on to claim? */
    method TestFlag(who: Who) returns (admitted: bool)
      requires At(Now().w, who) == Idle
      modifies this`polling, this`consuming
      ensures Now() == Step(old(Now()), Test(who))
      ensures admitted <==> !Draining(Now().w)
    {
      admitted := drain == NotBegun;
      if admitted { SetActivity(who, Admitted); }
    }

    /** The polling loop claims the oldest claimable shard that is not locked and loads its
        tests in the same transaction, which may fail. */
    method ClaimPolled(locked: set<ShardId>, created: ShardId -> nat, fails: bool) returns (tests: Option<seq<TestId>>)
      requires polling == Admitted
      modifies this`polling, this`consuming, store`shards
      ensures tests == None ==> Now() == old(Now()).(w := Put(old(Now()).w, Polling, Idle))
      ensures tests == None <==> fails || forall s :: Claimable(old(store.Snapshot()), s) ==> s in locked
      ensures tests.Some? ==>
                && polling.Claimed?
                && Now() == Step(old(Now()), Claim(Polling, polling.shard, tests.value == [], false))
                && Claimable(old(store.Snapshot()), polling.shard) && polling.shard !in locked
                && (forall s :: Claimable(old(store.Snapshot()), s) && s !in locked ==>
                      created(polling.shard) <= created(s))
                && polling.shard in store.shards && store.shards[polling.shard].run in store.runs
                && tests.value == WorkerTests(store.Snapshot(), polling.shard)
    {
      var claim := None;
      if !fails { claim := store.ClaimNext(id, locked, created); }
      if claim == None {
        SetActivity(Polling, Idle);
        return None;
      }
      var loaded := store.LoadTestsForShard(claim.value);
      SetActivity(Polling, Claimed(claim.value, loaded == []));
      return Some(loaded);
    }

    /** The consumer's claim of the shard a message names; None is a message that does not
        decode, and the claim may fail. */
    method ClaimConsumed(message: Option<(ShardId, seq<TestId>)>, fails: bool) returns (reply: Reply)
      requires consuming == Admitted
      modifies this`polling, this`consuming, store`shards
      ensures message == None ==> Now() == old(Now()).(w := Put(old(Now()).w, Consuming, Idle))
      ensures message.Some? ==>
                Now() == Step(old(Now()), Claim(Consuming, message.value.0, message.value.1 == [], fails))
      ensures reply ==
                if message == None then Ack
                else if fails then Nak
                else if message.value.0 in old(store.shards) &&
                        old(store.shards[message.value.0].status) == ShardPending then Take(message.value.1)
                else Ack
    {
      if message == None || fails {
        SetActivity(Consuming, Idle);
        return if message == None then Ack else Nak;
      }
      var affected := store.ClaimDispatched(message.value.0, id);
      if !affected {
        SetActivity(Consuming, Idle);
        return Ack;
      }
      SetActivity(Consuming, Claimed(message.value.0, message.value.1 == []));
      return Take(message.value.1);
    }

    /** The claimed shard becomes the noted one, whichever was noted before. */
    method NoteShard(who: Who)
      requires At(Now().w, who).Claimed?
      modifies this`polling, this`consuming, this`current
      ensures Now() == Step(old(Now()), Note(who)) && current == Some(At(old(Now()).w, who).shard)
    {
      var a := if who == Polling then polling else consuming;
      current := Some(a.shard);
      SetActivity(who, Executing(a.shard, a.empty));
    }

    /** One result of the shard being executed. */
    method RecordOne(who: Who, t: TestId)
      requires At(Now().w, who).Executing? && !At(Now().w, who).empty
      modifies store`executions
      ensures Now() == Step(old(Now()), Record(who, t))
      ensures store.executions == old(store.executions) + {(At(old(Now()).w, who).shard, t)}
    {
      store.AddExecution((if who == Polling then polling else consuming).shard, t);
    }

    /** Execution has ended: the flag is read now and acted upon later. */
    method SeeFlag(who: Who) returns (seen: bool)
      requires At(Now().w, who).Executing? && !At(Now().w, who).empty
      modifies this`polling, this`consuming
      ensures Now() == Step(old(Now()), ReadFlag(who))
      ensures seen <==> Draining(Now().w)
    {
      seen := drain != NotBegun;
      SetActivity(who, Finishing((if who == Polling then polling else consuming).shard, seen));
    }

    /** The last write of a shard's status. An empty shard succeeds without reading the
        flag; otherwise a flag seen set leaves the status to the manager. */
    method WriteStatus(who: Who, failed: bool, fails: bool)
      requires var a := At(Now().w, who); a.Finishing? || (a.Executing? && a.empty)
      modifies this`polling, this`consuming, store`shards
      ensures Now() == Step(old(Now()), Write(who, failed, fails))
    {
      var a := if who == Polling then polling else consuming;
      if !fails {
        if a.Executing? { store.SetFinished(a.shard, true); }
        else if !a.seen { store.SetFinished(a.shard, !failed); }
      }
      SetActivity(who, Leaving(a.shard));
    }

    /** The loop forgets its shard, and whatever is noted. */
    method ClearNote(who: Who)
      requires At(Now().w, who).Leaving?
      modifies this`polling, this`consuming, this`current
      ensures Now() == Step(old(Now()), Clear(who)) && current == None
    {
      current := None;
      SetActivity(who, Idle);
    }

    // The drain, in the four steps of one interruption; a second interruption stops at
    // the first of them.

    method SetDraining() returns (first: bool)
      modifies this`drain
      ensures Now() == Step(old(Now()), SetFlag) && Draining(Now().w)
      ensures first <==> old(drain) == NotBegun
    {
      first := drain == NotBegun;
      if first { drain := Begun; }
    }

    method ReadCurrent()
      requires drain == Begun
      modifies this`drain
      ensures Now() == Step(old(Now()), ReadNote)
    {
      drain := NoteRead(current);
    }

    method MarkNoted(fails: bool)
      requires drain.NoteRead?
      modifies this`drain, store`shards, store`owed
      ensures Now() == Step(old(Now()), Mark(fails))
    {
      var note := drain.note;
      if note == None || fails {
        drain := Over;
        return;
      }
      var affected := store.MarkPreempted(note.value);
      drain := if affected then Counting(note.value) else Over;
    }

    method CountMarked(fails: bool)
      requires drain.Counting?
      modifies this`drain, store`runs, store`owed
      ensures Now() == Step(old(Now()), Count(fails))
    {
      if fails { store.LoseCount(drain.shard); } else { store.BumpPreemptionCount(drain.shard); }
      drain := Over;
    }
  }
}

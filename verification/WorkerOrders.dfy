/** Some orders of a worker's events: a drain that nothing interrupts, one that a last
    write overwrites, and one that misses a shard because the other loop cleared the
    note. */
module WorkerOrders {
  import opened Wrappers
  import opened RunStates
  import opened WorkerSteps

  /** The tables after a drain that nothing interrupts. */
  function Drained(y: System, markFails: bool, countFails: bool): Db
  {
    if Draining(y.w) || y.w.current == None || markFails then y.db
    else
      var s := y.w.current.value;
      if s !in y.db.shards || y.db.shards[s].status != ShardRunning then y.db
      else Exec(Exec(y.db, PreemptShard(s)), if countFails then DropPreemption(s) else CountPreemption(s))
  }

  /** An uninterrupted drain preempts the noted shard and counts it; either write may fail,
      and a worker whose flag is set already does nothing. */
  lemma DrainAlone(y: System, markFails: bool, countFails: bool)
    requires y.w.drain == NotBegun || y.w.drain == Over
    ensures var last := Run4(y, SetFlag, ReadNote, Mark(markFails), Count(countFails));
            last.w == y.w.(drain := Over) && last.db == Drained(y, markFails, countFails)
  {
  }

  /** The flag is read before the drain and the write comes after it: the preemption of
      the shard in flight is overwritten. */
  lemma FinishAfterDrain(y: System, s: ShardId, failed: bool)
    requires y.w.drain == NotBegun && y.w.polling == Executing(s, false) && y.w.current == Some(s)
    requires s in y.db.shards && y.db.shards[s].status == ShardRunning
    ensures var trace := [ReadFlag(Polling), SetFlag, ReadNote, Mark(false)] +
                         [Count(false), Write(Polling, failed, false)];
            var last := Run(y, trace).db;
            && last == Exec(Exec(Exec(y.db, PreemptShard(s)), CountPreemption(s)), FinishShard(s, !failed))
            && s in last.shards && last.shards[s].status == if failed then ShardFailed else ShardSucceeded
  {
    FourEvents(y, ReadFlag(Polling), SetFlag, ReadNote, Mark(false), [Count(false), Write(Polling, failed, false)]);
    FlagThenDrain(y, s);
    var y4 := Run4(y, ReadFlag(Polling), SetFlag, ReadNote, Mark(false));
    TwoEvents(y4, Count(false), Write(Polling, failed, false));
    ShardsNeverRevert(y.db, PreemptShard(s), s);
    ShardsNeverRevert(y4.db, CountPreemption(s), s);
  }

  lemma FlagThenDrain(y: System, s: ShardId)
    requires y.w.drain == NotBegun && y.w.polling == Executing(s, false) && y.w.current == Some(s)
    requires s in y.db.shards && y.db.shards[s].status == ShardRunning
    ensures Run4(y, ReadFlag(Polling), SetFlag, ReadNote, Mark(false))
         == System(Exec(y.db, PreemptShard(s)), y.w.(polling := Finishing(s, false), drain := Counting(s)))
  {
    var seen := Step(y, ReadFlag(Polling));
    assert seen == y.(w := y.w.(polling := Finishing(s, false)));
    var noted := Step(Step(seen, SetFlag), ReadNote);
    assert noted == y.(w := y.w.(polling := Finishing(s, false), drain := NoteRead(Some(s))));
  }

  /** The consumer takes, executes and leaves a shard of its own. */
  function ConsumeOne(t: ShardId): seq<Event>
  {
    [Test(Consuming), Claim(Consuming, t, false, false), Note(Consuming), ReadFlag(Consuming)] +
    [Write(Consuming, false, false), Clear(Consuming)]
  }

  lemma ConsumedOne(y: System, t: ShardId)
    requires y.w.drain == NotBegun && y.w.consuming == Idle
    requires t in y.db.shards && y.db.shards[t].status == ShardPending
    ensures Run(y, ConsumeOne(t)) ==
              System(Exec(Exec(y.db, ClaimNats(t, y.w.id)), FinishShard(t, true)), y.w.(current := None))
  {
    FourEvents(y, Test(Consuming), Claim(Consuming, t, false, false), Note(Consuming), ReadFlag(Consuming),
               [Write(Consuming, false, false), Clear(Consuming)]);
    var y4 := Run4(y, Test(Consuming), Claim(Consuming, t, false, false), Note(Consuming), ReadFlag(Consuming));
    assert y4 == System(Exec(y.db, ClaimNats(t, y.w.id)), y.w.(consuming := Finishing(t, false), current := Some(t)));
    TwoEvents(y4, Write(Consuming, false, false), Clear(Consuming));
  }

  /** Both loops at once: whatever shard the polling loop has running, one message consumed
      in between clears the note, and the drain misses that shard. */
  lemma DrainMissesPolledShard(y: System, s: ShardId, t: ShardId)
    requires y.w.drain == NotBegun && y.w.consuming == Idle && y.w.polling == Executing(s, false)
    requires s in y.db.shards && y.db.shards[s].status == ShardRunning
    requires t in y.db.shards && y.db.shards[t].status == ShardPending
    ensures var busy := Run(y, ConsumeOne(t));
            var last := Run4(busy, SetFlag, ReadNote, Mark(false), Count(false));
            && last.w == y.w.(current := None, drain := Over)
            && s in last.db.shards && last.db.shards[s].status == ShardRunning
  {
    ConsumedOne(y, t);
    DrainAlone(Run(y, ConsumeOne(t)), false, false);
  }
}

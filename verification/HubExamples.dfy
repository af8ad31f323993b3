/** A run of the hub in which the first send of a subscription meets a closed channel. */
module HubExamples {
  import opened Hub

  /** The shortest such run: the first subscriber of a run that the loop finds terminal. */
  lemma InitialSendCanPanic()
    ensures var h := Enter(Registry(map[], map[], {}, map[]), Subscribing(0, 0, 0));
            0 in Enter(h, Closing(0)).chans && Enter(h, Closing(0)).chans[0].closed
  {
    var empty := Registry(map[], map[], {}, map[]);
    assert Valid(empty);
    var between := [Closing(0)];
    InitialSendMeetsClosedIff(empty, 0, 0, 0, between);
    assert ClosesRun(between[0], 0) && between[1..] == [];
    var subscribed := Enter(empty, Subscribing(0, 0, 0));
    assert EnterAll(subscribed, between) == Enter(subscribed, Closing(0));
  }
}

/** A subscriber's channel of capacity one, the three channel operations of a
    drop-oldest send, and a receiver that may act before, between and after them. */
module Delivery {

  /** Where the sender stands inside a send: the two later operations are still to come. */
  datatype Sender<T> = Idle | DropNext(value: T) | RetryNext(value: T)

  /** sent lists what was fanned out, received what the receiver has taken. */
  datatype State<T> = State(buf: seq<T>, closed: bool, sender: Sender<T>, sent: seq<T>, received: seq<T>)

  datatype Event<T> =
    | Offer(value: T)      // first operation: send if there is room
    | DropOldest           // second: take the stale value if it is still there
    | Retry                // third: send if there is room
    | Receive
    | Close

  function Step<T>(s: State<T>, e: Event<T>): State<T>
  {
    match e
    case Offer(v) =>
      if s.closed || s.sender != Idle then s
      else if s.buf == [] then s.(buf := [v], sent := s.sent + [v])
      else s.(sender := DropNext(v), sent := s.sent + [v])
    case DropOldest =>
      if s.sender.DropNext? then s.(buf := [], sender := RetryNext(s.sender.value)) else s
    case Retry =>
      if s.sender.RetryNext? then
        s.(buf := if s.buf == [] then [s.sender.value] else s.buf, sender := Idle)
      else s
    case Receive =>
      if s.buf == [] then s else s.(buf := s.buf[1..], received := s.received + [s.buf[0]])
    case Close =>
      if s.sender == Idle then s.(closed := true) else s    // sends and closes hold the lock
  }

  function Run<T>(s: State<T>, trace: seq<Event<T>>): State<T>
    decreases |trace|
  {
    if trace == [] then s else Run(Step(s, trace[0]), trace[1..])
  }

  // ------------------------------------------------ subsequences

  /** Is a obtained from b by leaving values out? */
  predicate Subsequence<T(==)>(a: seq<T>, b: seq<T>)
    decreases |b|
  {
    a == [] ||
    (b != [] &&
     ((a[|a| - 1] == b[|b| - 1] && Subsequence(a[..|a| - 1], b[..|b| - 1])) ||
      Subsequence(a, b[..|b| - 1])))
  }

  lemma Unsnoc<T>(a: seq<T>, x: T)
    ensures (a + [x])[..|a|] == a && (a + [x])[|a|] == x && |a + [x]| == |a| + 1
  {
  }

  lemma SkipOne<T>(a: seq<T>, b: seq<T>, x: T)
    requires Subsequence(a, b)
    ensures Subsequence(a, b + [x])
  {
    Unsnoc(b, x);
  }

  lemma TakeOne<T>(a: seq<T>, b: seq<T>, x: T)
    requires Subsequence(a, b)
    ensures Subsequence(a + [x], b + [x])
  {
    Unsnoc(a, x);
    Unsnoc(b, x);
  }

  lemma {:induction false} DropLast<T>(a: seq<T>, x: T, b: seq<T>)
    requires Subsequence(a + [x], b)
    ensures Subsequence(a, b)
    decreases |b|
  {
    Unsnoc(a, x);
    var front, last := b[..|b| - 1], b[|b| - 1];
    assert b == front + [last];
    if x == last && Subsequence(a, front) {
      SkipOne(a, front, last);
    } else {
      DropLast(a, x, front);
      SkipOne(a, front, last);
    }
  }

  /** A subsequence keeps the order: values sent later never arrive earlier. */
  lemma {:induction false} SubsequenceEmbeds<T>(a: seq<T>, b: seq<T>) returns (at: seq<nat>)
    requires Subsequence(a, b)
    ensures |at| == |a|
    ensures forall i :: 0 <= i < |a| ==> at[i] < |b| && a[i] == b[at[i]]
    ensures forall i, j :: 0 <= i < j < |a| ==> at[i] < at[j]
    decreases |b|
  {
    if a == [] {
      at := [];
    } else if a[|a| - 1] == b[|b| - 1] && Subsequence(a[..|a| - 1], b[..|b| - 1]) {
      var front := SubsequenceEmbeds(a[..|a| - 1], b[..|b| - 1]);
      at := front + [|b| - 1];
    } else {
      at := SubsequenceEmbeds(a, b[..|b| - 1]);
    }
  }

  // ------------------------------------------------ what arrives

  /** What has been received or waits in the buffer. */
  function Arrived<T>(s: State<T>): seq<T>
  {
    s.received + s.buf
  }

  /** The sent values before the one a send in progress still carries. */
  predicate IsSound<T(==)>(s: State<T>)
  {
    && |s.buf| <= 1
    && match s.sender
       case Idle =>
         Subsequence(Arrived(s), s.sent) &&
         (s.sent != [] ==> Arrived(s) != [] && Arrived(s)[|Arrived(s)| - 1] == s.sent[|s.sent| - 1])
       case DropNext(v) =>
         s.sent != [] && s.sent[|s.sent| - 1] == v && Subsequence(Arrived(s), s.sent[..|s.sent| - 1])
       case RetryNext(v) =>
         s.buf == [] && s.sent != [] && s.sent[|s.sent| - 1] == v &&
         Subsequence(s.received, s.sent[..|s.sent| - 1])
  }

  lemma OfferKeepsSound<T>(s: State<T>, v: T)
    requires IsSound(s)
    ensures IsSound(Step(s, Offer(v)))
  {
    if !s.closed && s.sender == Idle {
      Unsnoc(s.sent, v);
      if s.buf == [] {
        assert Arrived(s) == s.received;
        TakeOne(s.received, s.sent, v);
        assert Arrived(Step(s, Offer(v))) == s.received + [v];
      }
    }
  }

  lemma DropKeepsSound<T>(s: State<T>)
    requires IsSound(s)
    ensures IsSound(Step(s, DropOldest))
  {
    if s.sender.DropNext? {
      if s.buf == [] {
        assert Arrived(s) == s.received;
      } else {
        assert Arrived(s) == s.received + [s.buf[0]];
        DropLast(s.received, s.buf[0], s.sent[..|s.sent| - 1]);
      }
    }
  }

  lemma RetryKeepsSound<T>(s: State<T>)
    requires IsSound(s)
    ensures IsSound(Step(s, Retry))
  {
    if s.sender.RetryNext? {
      var v := s.sender.value;
      var front := s.sent[..|s.sent| - 1];
      assert s.sent == front + [v];
      TakeOne(s.received, front, v);
      assert Arrived(Step(s, Retry)) == s.received + [v];
    }
  }

  lemma ReceiveKeepsSound<T>(s: State<T>)
    requires IsSound(s)
    ensures IsSound(Step(s, Receive))
  {
    if s.buf != [] {
      assert Arrived(Step(s, Receive)) == Arrived(s);
    }
  }

  lemma EveryStepKeepsSound<T>(s: State<T>, e: Event<T>)
    requires IsSound(s)
    ensures IsSound(Step(s, e))
  {
    match e
    case Offer(v) => OfferKeepsSound(s, v);
    case DropOldest => DropKeepsSound(s);
    case Retry => RetryKeepsSound(s);
    case Receive => ReceiveKeepsSound(s);
    case Close =>
      assert Arrived(Step(s, e)) == Arrived(s);
  }

  lemma {:induction false} SoundnessLasts<T>(s: State<T>, trace: seq<Event<T>>)
    requires IsSound(s)
    ensures IsSound(Run(s, trace))
    decreases |trace|
  {
    if trace != [] {
      EveryStepKeepsSound(s, trace[0]);
      SoundnessLasts(Step(s, trace[0]), trace[1..]);
    }
  }

  /** A channel whose initial send is over, with whatever that left behind. */
  predicate Fresh<T(==)>(s: State<T>)
  {
    s.sender == Idle && s.sent == Arrived(s) && |s.buf| <= 1
  }

  lemma {:induction false} SubsequenceOfItself<T>(a: seq<T>)
    ensures Subsequence(a, a)
  {
    if a != [] { SubsequenceOfItself(a[..|a| - 1]); }
  }

  /** However sender and receiver interleave, the receiver sees a subsequence of what
      was sent; and between sends nothing newer than what it got or can get was sent. */
  lemma ReceivedIsSubsequence<T>(s: State<T>, trace: seq<Event<T>>)
    requires Fresh(s)
    ensures var last := Run(s, trace);
            && |last.buf| <= 1
            && Subsequence(last.received, last.sent)
            && (last.sender == Idle && last.sent != [] ==>
                  Arrived(last) != [] && Arrived(last)[|Arrived(last)| - 1] == last.sent[|last.sent| - 1])
  {
    SubsequenceOfItself(s.sent);
    SoundnessLasts(s, trace);
    ReceivedWhenSound(Run(s, trace));
  }

  lemma ReceivedPart<T>(s: State<T>, sent: seq<T>)
    requires |s.buf| <= 1 && Subsequence(Arrived(s), sent)
    ensures Subsequence(s.received, sent)
  {
    if s.buf == [] {
      assert Arrived(s) == s.received;
    } else {
      assert Arrived(s) == s.received + [s.buf[0]];
      DropLast(s.received, s.buf[0], sent);
    }
  }

  lemma ReceivedWhenSound<T>(s: State<T>)
    requires IsSound(s)
    ensures Subsequence(s.received, s.sent)
  {
    if s.sender == Idle {
      ReceivedPart(s, s.sent);
    } else {
      var front, v := s.sent[..|s.sent| - 1], s.sent[|s.sent| - 1];
      if s.sender.RetryNext? { assert Arrived(s) == s.received; }
      ReceivedPart(s, front);
      SkipOne(s.received, front, v);
      assert s.sent == front + [v];
    }
  }

  /** A receiver that drains a closed channel has got the last snapshot sent. */
  lemma LastSnapshotArrives<T>(s: State<T>, trace: seq<Event<T>>)
    requires Fresh(s) && !s.closed
    requires Run(s, trace).closed && Run(s, trace).buf == [] && Run(s, trace).sent != []
    ensures var last := Run(s, trace);
            last.received != [] && last.received[|last.received| - 1] == last.sent[|last.sent| - 1]
  {
    ReceivedIsSubsequence(s, trace);
    ClosedMeansIdle(s, trace);
    var last := Run(s, trace);
    assert Arrived(last) == last.received;
  }

  lemma {:induction false} ClosedMeansIdle<T>(s: State<T>, trace: seq<Event<T>>)
    requires s.closed ==> s.sender == Idle
    ensures Run(s, trace).closed ==> Run(s, trace).sender == Idle
    decreases |trace|
  {
    if trace != [] { ClosedMeansIdle(Step(s, trace[0]), trace[1..]); }
  }
}

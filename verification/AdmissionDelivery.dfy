/** Replies reach their callers: what a caller finds in its response channel, and that a
    live caller on an open queue can always still succeed. */
module AdmissionDelivery {
  import opened Transactions
  import opened AdmissionQueue
  import opened AdmissionTheorems

  // ------------------------------------------------------------- the invariant

  /** The reply says what became of request `r`: the receipt of its transaction if it was
      admitted, and otherwise no receipt. */
  ghost predicate Fits(s: Queue, r: RequestId, reply: Reply) {
    && (forall i :: PlacedAt(s, i, r) && i < |Admitted(s)| ==> reply == Receipt(Admitted(s)[i]))
    && (reply.Receipt? ==> IsAdmitted(s, r))
  }

  ghost predicate OutOfHand(s: Queue, k: int) {
    0 <= k < s.taken && k < |s.entered| && !(Occupied(s) && s.loop.r == s.entered[k])
  }

  /** The reply waits in the response channel. */
  ghost predicate Answered(s: Queue, r: RequestId) {
    r < |s.reqs| && |s.reqs[r].resp| == 1 && Fits(s, r, s.reqs[r].resp[0])
  }

  ghost predicate Delivered(s: Queue) {
    && (forall k :: OutOfHand(s, k) && s.entered[k] < |s.reqs| && s.reqs[s.entered[k]].phase.Waiting? ==>
          Answered(s, s.entered[k]))
    && (s.loop.Replying? ==> Fits(s, s.loop.r, s.loop.reply))
  }

  lemma FitsStays(s: Queue, t: Queue, r: RequestId, reply: Reply)
    requires Inv(s) && Fits(s, r, reply)
    requires t.places == s.places && s.entered <= t.entered && Admitted(t) == Admitted(s)
    ensures Fits(t, r, reply)
  {
    forall i ensures PlacedAt(t, i, r) <==> PlacedAt(s, i, r) {
      assert 0 <= i < |s.places| ==> i < |Admitted(s)| && s.places[i] < s.taken;
    }
  }

  /** Changes that leave the goroutine, the entry order and the admissions alone. */
  lemma QuietDelivers(s: Queue, t: Queue)
    requires Inv(s) && Delivered(s)
    requires t.loop == s.loop && t.taken == s.taken && t.places == s.places && s.entered <= t.entered
    requires Admitted(t) == Admitted(s) && |t.reqs| >= |s.reqs|
    requires forall r :: 0 <= r < |s.reqs| && t.reqs[r].phase.Waiting? && s.reqs[r].phase.Waiting? ==>
               t.reqs[r].resp == s.reqs[r].resp
    requires forall k :: 0 <= k < |s.entered| && t.reqs[s.entered[k]].phase.Waiting? ==>
               s.reqs[s.entered[k]].phase.Waiting?
    ensures Delivered(t)
  {
    forall k | OutOfHand(t, k) && t.entered[k] < |t.reqs| && t.reqs[t.entered[k]].phase.Waiting?
      ensures Answered(t, t.entered[k])
    {
      var r := s.entered[k];
      assert OutOfHand(s, k) && Answered(s, r);
      FitsStays(s, t, r, s.reqs[r].resp[0]);
    }
    if s.loop.Replying? {
      FitsStays(s, t, s.loop.r, s.loop.reply);
    }
  }

  lemma EnterDelivers(s: Queue, r: RequestId)
    requires Inv(s) && Delivered(s) && r < |s.reqs| && s.reqs[r].phase.Sending?
    ensures Delivered(EnterCh(s, r))
  {
    var t := EnterCh(s, r);
    assert Admitted(t) == Admitted(s);
    assert forall k :: 0 <= k < |s.entered| ==> s.entered[k] != r;
    QuietDelivers(s, t);
  }

  /** The request just taken was never admitted before. */
  lemma TakenIsFresh(s: Queue, r: RequestId)
    requires Inv(s) && s.taken < |s.entered| && s.entered[s.taken] == r
    ensures !IsAdmitted(s, r)
  {
    forall i ensures !PlacedAt(s, i, r) {
      assert 0 <= i < |s.places| ==> i < |Admitted(s)| && s.places[i] < s.taken;
    }
  }

  lemma TakeDelivers(s: Queue)
    requires Inv(s) && Delivered(s) && s.submitCh != [] && ReadyToReceive(s)
    ensures Delivered(TakeOldest(s))
  {
    var t := TakeOldest(s);
    assert s.submitCh[0] == s.entered[s.taken];
    assert Admitted(t) == Admitted(s);
    TakenIsFresh(s, s.submitCh[0]);
    forall k | OutOfHand(t, k) && t.entered[k] < |t.reqs| && t.reqs[t.entered[k]].phase.Waiting?
      ensures Answered(t, t.entered[k])
    {
      assert k != s.taken;
      assert OutOfHand(s, k);
      FitsStays(s, t, s.entered[k], s.reqs[s.entered[k]].resp[0]);
    }
    if t.loop.Replying? {
      assert forall i :: PlacedAt(t, i, t.loop.r) <==> PlacedAt(s, i, t.loop.r);
    }
  }

  lemma ClientDelivers(s: Queue, r: RequestId, c: ClientEvent)
    requires Inv(s) && Delivered(s) && ClientEnabled(s, r, c)
    ensures Delivered(ClientNext(s, r, c))
  {
    if c.Enter? || c.HandOver? {
      EnterDelivers(s, r);
      if c.HandOver? {
        EnterKeeps(s, r);
        TakeDelivers(EnterCh(s, r));
      }
    } else {
      assert Admitted(ClientNext(s, r, c)) == Admitted(s);
      QuietDelivers(s, ClientNext(s, r, c));
    }
  }

  /** The request in hand, until it is sent, has no transaction among the admitted ones. */
  lemma InHandIsFresh(s: Queue)
    requires Inv(s) && (s.loop.Holding? || s.loop.Stamped?)
    ensures !IsAdmitted(s, s.loop.r)
  {
    forall i ensures !PlacedAt(s, i, s.loop.r) {
      assert 0 <= i < |s.places| ==> i < |Admitted(s)| && s.places[i] < s.taken - 1;
    }
  }

  lemma SendDelivers(s: Queue)
    requires Inv(s) && Delivered(s) && s.loop.Stamped?
    ensures Delivered(SendCh(s))
  {
    var t := SendCh(s);
    InHandIsFresh(s);
    assert Admitted(t) == Admitted(s) + [s.loop.tx];
    forall k | OutOfHand(t, k) && t.entered[k] < |t.reqs| && t.reqs[t.entered[k]].phase.Waiting?
      ensures Answered(t, t.entered[k])
    {
      assert OutOfHand(s, k);
      SendFits(s, s.entered[k], s.reqs[s.entered[k]].resp[0]);
    }
    forall i | PlacedAt(t, i, s.loop.r) ensures t.loop.reply == Receipt(Admitted(t)[i]) {
      assert !PlacedAt(s, i, s.loop.r);
    }
    assert PlacedAt(t, |s.places|, s.loop.r);
  }

  lemma SendFits(s: Queue, r: RequestId, reply: Reply)
    requires Inv(s) && s.loop.Stamped? && r != s.loop.r && Fits(s, r, reply)
    ensures Fits(SendCh(s), r, reply)
  {
    var t := SendCh(s);
    assert Admitted(t) == Admitted(s) + [s.loop.tx];
    forall i ensures PlacedAt(t, i, r) <==> PlacedAt(s, i, r) {
      assert t.entered[t.places[|s.places|]] == s.loop.r;
    }
    forall i | PlacedAt(t, i, r) ensures reply == Receipt(Admitted(t)[i]) {
      assert i < |Admitted(s)|;
    }
  }

  /** A move that changes the loop but not the request in hand, or lets go of none. */
  lemma MoveDelivers(s: Queue, t: Queue)
    requires Inv(s) && Delivered(s)
    requires t == s.(loop := t.loop, nextID := t.nextID, abandoned := t.abandoned, chClosed := t.chClosed)
    requires Occupied(s) <==> Occupied(t)
    requires Occupied(s) ==> t.loop.r == s.loop.r
    requires t.loop.Replying? ==> !s.loop.Replying? && t.loop.reply.Refused? && !IsAdmitted(s, s.loop.r)
    ensures Delivered(t)
  {
    assert Admitted(t) == Admitted(s);
    forall k | OutOfHand(t, k) && t.entered[k] < |t.reqs| && t.reqs[t.entered[k]].phase.Waiting?
      ensures Answered(t, t.entered[k])
    {
      assert OutOfHand(s, k);
      FitsStays(s, t, s.entered[k], s.reqs[s.entered[k]].resp[0]);
    }
    if t.loop.Replying? {
      assert forall i :: PlacedAt(t, i, s.loop.r) <==> PlacedAt(s, i, s.loop.r);
    }
  }

  lemma AnswerDelivers(s: Queue)
    requires Inv(s) && Delivered(s) && LoopEnabled(s, Answer)
    ensures Delivered(LoopNext(s, Answer))
  {
    var t := LoopNext(s, Answer);
    assert Admitted(t) == Admitted(s);
    forall k | OutOfHand(t, k) && t.entered[k] < |t.reqs| && t.reqs[t.entered[k]].phase.Waiting?
      ensures Answered(t, t.entered[k])
    {
      if t.entered[k] == s.loop.r {
        FitsStays(s, t, s.loop.r, s.loop.reply);
      } else {
        assert OutOfHand(s, k);
        FitsStays(s, t, s.entered[k], s.reqs[s.entered[k]].resp[0]);
      }
    }
  }

  lemma LoopDelivers(s: Queue, l: LoopEvent)
    requires Inv(s) && Delivered(s) && LoopEnabled(s, l)
    ensures Delivered(LoopNext(s, l))
  {
    match l
    case Take => TakeDelivers(s);
    case RejectNext => TakeDelivers(s);
    case Send => SendDelivers(s);
    case SendTo(d) =>
      SendDelivers(s);
      SendKeeps(s);
      ReceiveDelivers(SendCh(s), d);
    case Answer => AnswerDelivers(s);
    case SeeDone => MoveDelivers(s, LoopNext(s, l));
    case RejectDone => MoveDelivers(s, LoopNext(s, l));
    case CloseCh => MoveDelivers(s, LoopNext(s, l));
    case Stamp(_) => MoveDelivers(s, LoopNext(s, l));
    case _ =>
      InHandIsFresh(s);
      MoveDelivers(s, LoopNext(s, l));
  }

  lemma ReceiveDelivers(s: Queue, d: DrainerId)
    requires Inv(s) && Delivered(s) && s.ch != [] && d < |s.drainers|
    ensures Delivered(ReceiveCh(s, d))
  {
    assert Admitted(ReceiveCh(s, d)) == Admitted(s);
    QuietDelivers(s, ReceiveCh(s, d));
  }

  lemma StepDelivers(s: Queue, e: Event)
    requires Inv(s) && Delivered(s)
    ensures Delivered(Step(s, e))
  {
    match e
    case Submit(data) => SubmitDelivers(s, data);
    case Client(r, c) => if ClientEnabled(s, r, c) { ClientDelivers(s, r, c); }
    case Admission(l) => if LoopEnabled(s, l) { LoopDelivers(s, l); }
    case StartDrain(_, _) => SameDelivers(s, Step(s, e));
    case Drain(d, x) =>
      if DrainEnabled(s, d, x) {
        if x.Receive? { ReceiveDelivers(s, d); } else { SameDelivers(s, DrainNext(s, d, x)); }
      }
    case Close => SameDelivers(s, Step(s, e));
  }

  lemma SubmitDelivers(s: Queue, data: Bytes)
    requires Inv(s) && Delivered(s)
    ensures Delivered(Step(s, Submit(data)))
  {
    assert Admitted(Step(s, Submit(data))) == Admitted(s);
    QuietDelivers(s, Step(s, Submit(data)));
  }

  lemma SameDelivers(s: Queue, t: Queue)
    requires Inv(s) && Delivered(s) && t == s.(drainers := t.drainers, done := t.done)
    ensures Delivered(t)
  {
    assert Admitted(t) == Admitted(s);
    QuietDelivers(s, t);
  }

  lemma {:induction false} RunDelivers(capacity: nat, events: seq<Event>)
    ensures Delivered(Run(capacity, events))
    decreases |events|
  {
    if events != [] {
      var front := events[..|events| - 1];
      RunDelivers(capacity, front);
      RunKeepsInv(capacity, front);
      StepDelivers(Run(capacity, front), events[|events| - 1]);
    }
  }

  /** In every run, a request that was taken out of `submitCh`, is not in the goroutine's
      hand and whose caller still waits has exactly one reply in its channel.  One receive
      returns it, and it is the receipt of the request's own transaction if and only if that
      was admitted. */
  lemma RepliesAreDelivered(capacity: nat, events: seq<Event>, k: nat)
    requires OutOfHand(Run(capacity, events), k)
    ensures var s := Run(capacity, events);
            var r := s.entered[k];
            && r < |s.reqs|
            && (s.reqs[r].phase.Waiting? ==>
                  && |s.reqs[r].resp| == 1
                  && Step(s, Client(r, TakeReply)).reqs[r].phase == Returned(s.reqs[r].resp[0])
                  && (s.reqs[r].resp[0].Receipt? <==> IsAdmitted(s, r))
                  && (s.reqs[r].resp[0].Receipt? ==> AdmittedFor(s, r, s.reqs[r].resp[0].tx)))
  {
    RunDelivers(capacity, events);
    RunKeepsInv(capacity, events);
    var s := Run(capacity, events);
    var r := s.entered[k];
    if s.reqs[r].phase.Waiting? {
      var reply := s.reqs[r].resp[0];
      assert Fits(s, r, reply) && Justified(s, r, s.reqs[r].resp[0]);
      if IsAdmitted(s, r) {
        var i :| PlacedAt(s, i, r);
        assert i < |Admitted(s)|;
      }
    }
  }

  // ---------------------------------------------- a live caller can still succeed

  /** The queue is open, and the caller still waits with a context that has not ended. */
  ghost predicate Live(s: Queue, r: RequestId) {
    !s.done && r < |s.reqs| && !s.reqs[r].cancelled && !s.reqs[r].phase.Returned?
  }

  /** From s to t the goroutine has at most dealt with other requests. */
  ghost predicate StillLive(s: Queue, t: Queue, r: RequestId) {
    Live(s, r) && Live(t, r) && t.reqs[r].phase == s.reqs[r].phase
  }

  /** The reply in hand is put into its channel. */
  lemma FinishReplying(capacity: nat, events: seq<Event>, s: Queue, r: RequestId)
    returns (more: seq<Event>, t: Queue)
    requires s == Run(capacity, events) && Live(s, r) && s.loop.Replying?
    ensures t == Run(capacity, more) && StillLive(s, t, r) && t.loop.Idle?
    ensures t.submitCh == s.submitCh && t.entered == s.entered && events <= more
  {
    RunKeepsInv(capacity, events);
    more, t := RunOn(capacity, events, s, Admission(Answer));
  }

  /** The stamped transaction is sent, if need be to a new drainer. */
  lemma FinishStamped(capacity: nat, events: seq<Event>, s: Queue, r: RequestId)
    returns (more: seq<Event>, t: Queue)
    requires s == Run(capacity, events) && Live(s, r) && s.loop.Stamped?
    ensures t == Run(capacity, more) && StillLive(s, t, r) && t.loop.Idle?
    ensures t.submitCh == s.submitCh && t.entered == s.entered && events <= more
  {
    RunExplains(capacity, events);
    var room, l := MakeRoom(capacity, events);
    more, t := events + room, Run(capacity, events + room);
    RunKeepsInv(capacity, more);
    var p;
    more, p := RunOn(capacity, more, t, Admission(l));
    SentMeansReplying(t, l);
    more, t := FinishReplying(capacity, more, p, r);
  }

  lemma SentMeansReplying(s: Queue, l: LoopEvent)
    requires s.loop.Stamped? && !s.chClosed && LoopEnabled(s, l) && (l.Send? || l.SendTo?)
    ensures var t := LoopNext(s, l);
            && t.loop.Replying? && t.reqs == s.reqs && t.submitCh == s.submitCh && t.entered == s.entered
            && t.done == s.done
  {
  }

  /** The request in hand is refused if its context ended, and stamped otherwise. */
  lemma FinishHolding(capacity: nat, events: seq<Event>, s: Queue, r: RequestId)
    returns (more: seq<Event>, t: Queue)
    requires s == Run(capacity, events) && Live(s, r) && s.loop.Holding?
    ensures t == Run(capacity, more) && StillLive(s, t, r) && t.loop.Idle?
    ensures t.submitCh == s.submitCh && t.entered == s.entered && events <= more
  {
    RunExplains(capacity, events);
    var p;
    if s.reqs[s.loop.r].cancelled {
      more, p := RunOn(capacity, events, s, Admission(DropCancelled));
      more, t := FinishReplying(capacity, more, p, r);
    } else {
      more, p := RunOn(capacity, events, s, Admission(Stamp(0)));
      more, t := FinishStamped(capacity, more, p, r);
    }
  }

  /** Whatever the goroutine has in hand can be finished. */
  lemma FinishHand(capacity: nat, events: seq<Event>, s: Queue, r: RequestId)
    returns (more: seq<Event>, t: Queue)
    requires s == Run(capacity, events) && Live(s, r)
    ensures t == Run(capacity, more) && StillLive(s, t, r) && t.loop.Idle?
    ensures t.submitCh == s.submitCh && t.entered == s.entered && events <= more
  {
    RunKeepsInv(capacity, events);
    match s.loop
    case Holding(_) => more, t := FinishHolding(capacity, events, s, r);
    case Stamped(_, _) => more, t := FinishStamped(capacity, events, s, r);
    case Replying(_, _, _) => more, t := FinishReplying(capacity, events, s, r);
    case _ => more, t := events, s;
  }

  /** All requests that wait in `submitCh` can be dealt with. */
  lemma {:induction false} EmptySubmitCh(capacity: nat, events: seq<Event>, s: Queue, r: RequestId)
    returns (more: seq<Event>, t: Queue)
    requires s == Run(capacity, events) && Live(s, r) && s.loop.Idle?
    ensures t == Run(capacity, more) && StillLive(s, t, r) && t.loop.Idle?
    ensures t.submitCh == [] && t.entered == s.entered && events <= more
    decreases |s.submitCh|
  {
    more, t := events, s;
    if s.submitCh != [] {
      var p, q;
      more, p := RunOn(capacity, events, s, Admission(Take));
      more, q := FinishHand(capacity, more, p, r);
      more, t := EmptySubmitCh(capacity, more, q, r);
    }
  }

  ghost predicate WaitingEntered(s: Queue) {
    forall r :: 0 <= r < |s.reqs| && s.reqs[r].phase.Waiting? ==> r in s.entered
  }

  lemma StepWaitingEntered(s: Queue, e: Event)
    requires WaitingEntered(s)
    ensures WaitingEntered(Step(s, e))
  {
    if e.Client? && ClientEnabled(s, e.r, e.c) {
      ClientWaitingEntered(s, e.r, e.c);
    } else if e.Admission? && LoopEnabled(s, e.l) {
      LoopWaitingEntered(s, e.l);
    } else if e.Drain? && DrainEnabled(s, e.d, e.e) {
      DrainIsQuiet(s, e.d, e.e);
    }
  }

  lemma ClientWaitingEntered(s: Queue, r: RequestId, c: ClientEvent)
    requires WaitingEntered(s) && ClientEnabled(s, r, c)
    ensures WaitingEntered(ClientNext(s, r, c))
  {
    if c.Enter? || c.HandOver? {
      assert (s.entered + [r])[|s.entered|] == r;
    }
  }

  lemma LoopWaitingEntered(s: Queue, l: LoopEvent)
    requires WaitingEntered(s) && LoopEnabled(s, l)
    ensures WaitingEntered(LoopNext(s, l))
  {
  }

  lemma {:induction false} RunWaitingEntered(capacity: nat, events: seq<Event>)
    ensures WaitingEntered(Run(capacity, events))
    decreases |events|
  {
    if events != [] {
      RunWaitingEntered(capacity, events[..|events| - 1]);
      StepWaitingEntered(Run(capacity, events[..|events| - 1]), events[|events| - 1]);
    }
  }

  /** An idle goroutine with nothing to take has answered every caller that waits, and a live
      one finds its receipt. */
  lemma TakeReceipt(capacity: nat, events: seq<Event>, s: Queue, r: RequestId)
    returns (more: seq<Event>, t: Queue)
    requires s == Run(capacity, events) && Live(s, r) && s.reqs[r].phase.Waiting?
    requires s.loop.Idle? && s.submitCh == []
    ensures t == Run(capacity, more) && HoldsReceipt(t, r) && events <= more
  {
    RunKeepsInv(capacity, events);
    RunExplains(capacity, events);
    RunWaitingEntered(capacity, events);
    assert s.taken == |s.entered|;
    var k :| 0 <= k < |s.entered| && s.entered[k] == r;
    assert OutOfHand(s, k);
    RepliesAreDelivered(capacity, events, k);
    assert Explained(s, r, s.reqs[r].resp[0]);
    more, t := RunOn(capacity, events, s, Client(r, TakeReply));
  }

  /** On an open queue no caller is ever stuck: in every run a caller whose context has not
      ended and who has not returned can still get the receipt of its transaction, whatever
      the capacity, however many requests are ahead of it and wherever the goroutine is. */
  lemma LiveCallersCanSucceed(capacity: nat, events: seq<Event>, r: RequestId) returns (later: seq<Event>)
    requires Live(Run(capacity, events), r)
    ensures HoldsReceipt(Run(capacity, events + later), r)
  {
    var es, t := events, Run(capacity, events);
    es, t := FinishHand(capacity, es, t, r);
    es, t := EmptySubmitCh(capacity, es, t, r);
    if t.reqs[r].phase.Sending? {
      es, t := HandItOver(capacity, es, t, r);
    }
    es, t := TakeReceipt(capacity, es, t, r);
    later := es[|events|..];
    assert es == events + later;
  }

  lemma HandItOver(capacity: nat, events: seq<Event>, s: Queue, r: RequestId)
    returns (more: seq<Event>, t: Queue)
    requires s == Run(capacity, events) && Live(s, r) && s.reqs[r].phase.Sending?
    requires s.loop.Idle? && s.submitCh == []
    ensures t == Run(capacity, more) && Live(t, r) && t.reqs[r].phase.Waiting?
    ensures t.loop.Idle? && t.submitCh == [] && events <= more
  {
    var p;
    more, p := RunOn(capacity, events, s, Client(r, HandOver));
    more, t := FinishHand(capacity, more, p, r);
  }

  // ------------------------------------------------------------- IDs and times

  /** The clock readings of the stamps of a run, in order. */
  ghost function StampTimes(capacity: nat, events: seq<Event>): seq<int> {
    if events == [] then [] else
    var front, e := events[..|events| - 1], events[|events| - 1];
    StampTimes(capacity, front) +
    if e.Admission? && e.l.Stamp? && LoopEnabled(Run(capacity, front), e.l) then [e.l.now] else []
  }

  /** The transaction was the id-th to be stamped, at that time. */
  ghost predicate StampedAs(tx: Tx, times: seq<int>) {
    1 <= tx.id <= |times| && tx.arrivedAt == times[tx.id - 1]
  }

  ghost predicate Recorded(s: Queue, times: seq<int>) {
    && |times| == s.nextID
    && (forall i :: 0 <= i < |Admitted(s)| ==> StampedAs(Admitted(s)[i], times))
    && (s.loop.Stamped? ==> s.loop.tx.id == |times| && StampedAs(s.loop.tx, times))
  }

  lemma LoopRecords(s: Queue, l: LoopEvent, times: seq<int>)
    requires Recorded(s, times) && ShutsDownOnce(s) && LoopEnabled(s, l)
    ensures Recorded(LoopNext(s, l), times + if l.Stamp? then [l.now] else [])
  {
    var t := LoopNext(s, l);
    if l.Send? || l.SendTo? {
      assert Admitted(t) == Admitted(s) + [s.loop.tx];
    } else {
      assert Admitted(t) == Admitted(s);
    }
  }

  lemma StepRecords(s: Queue, e: Event, times: seq<int>)
    requires Recorded(s, times) && !(e.Admission? && LoopEnabled(s, e.l))
    ensures Recorded(Step(s, e), times)
  {
    if e.Client? && ClientEnabled(s, e.r, e.c) {
      ClientAdmitsNothing(s, e.r, e.c);
      ClientStampsNothing(s, e.r, e.c);
    } else if e.Drain? && DrainEnabled(s, e.d, e.e) {
      DrainAdmitsNothing(s, e.d, e.e);
      DrainIsQuiet(s, e.d, e.e);
      DrainStampsNothing(s, e.d, e.e);
    }
    assert Admitted(Step(s, e)) == Admitted(s);
  }

  lemma DrainStampsNothing(s: Queue, d: DrainerId, e: DrainEvent)
    requires DrainEnabled(s, d, e)
    ensures DrainNext(s, d, e).nextID == s.nextID
  {
  }

  lemma ClientStampsNothing(s: Queue, r: RequestId, c: ClientEvent)
    requires ClientEnabled(s, r, c)
    ensures ClientNext(s, r, c).nextID == s.nextID
    ensures ClientNext(s, r, c).loop.Stamped? ==> ClientNext(s, r, c).loop == s.loop
  {
  }

  /** In every run each admitted transaction carries its place among the stamps as its ID and
      the clock reading of that stamp as its time. */
  lemma {:induction false} StampsAreRecorded(capacity: nat, events: seq<Event>)
    ensures Recorded(Run(capacity, events), StampTimes(capacity, events))
    decreases |events|
  {
    if events != [] {
      var front, e := events[..|events| - 1], events[|events| - 1];
      StampsAreRecorded(capacity, front);
      RunKeepsInv(capacity, front);
      var s := Run(capacity, front);
      if e.Admission? && LoopEnabled(s, e.l) {
        LoopRecords(s, e.l, StampTimes(capacity, front));
      } else {
        StepRecords(s, e, StampTimes(capacity, front));
      }
    }
  }

  lemma {:induction false} AtLeastPlace(txs: seq<Tx>, i: nat)
    requires IncreasingIds(txs) && i < |txs| && txs[0].id >= 1
    ensures txs[i].id >= i + 1
    decreases i
  {
    if i > 0 {
      AtLeastPlace(txs, i - 1);
    }
  }

  lemma {:induction false} AtMostPlace(txs: seq<Tx>, i: nat)
    requires IncreasingIds(txs) && i < |txs| && txs[|txs| - 1].id <= |txs|
    ensures txs[i].id <= i + 1
    decreases |txs| - i
  {
    if i + 1 < |txs| {
      AtMostPlace(txs, i + 1);
    }
  }

  /** While no stamped transaction is given up, IDs have no gaps: 1, 2, 3 and so on. */
  lemma IdsAreConsecutive(capacity: nat, events: seq<Event>, i: nat)
    requires Run(capacity, events).abandoned == 0
    requires i < |Run(capacity, events).drained + Run(capacity, events).ch|
    ensures (Run(capacity, events).drained + Run(capacity, events).ch)[i].id == i + 1
  {
    var s := Run(capacity, events);
    var txs := Admitted(s);
    RunKeepsInv(capacity, events);
    StampsAreRecorded(capacity, events);
    assert StampedAs(txs[0], StampTimes(capacity, events)) && txs[|txs| - 1].id <= s.nextID;
    AtLeastPlace(txs, i);
    AtMostPlace(txs, i);
  }

  // ------------------------------------------------------------------ drainers

  /** The Drain and DrainWait calls of a run. */
  ghost function DrainCalls(events: seq<Event>): seq<Event> {
    if events == [] then [] else
    var e := events[|events| - 1];
    DrainCalls(events[..|events| - 1]) + if e.StartDrain? then [e] else []
  }

  ghost predicate SameCalls(s: Queue, t: Queue) {
    && |t.drainers| == |s.drainers|
    && forall d :: 0 <= d < |s.drainers| ==>
         t.drainers[d].want == s.drainers[d].want && t.drainers[d].blocking == s.drainers[d].blocking
  }

  lemma StepKeepsCalls(s: Queue, e: Event)
    requires !e.StartDrain?
    ensures SameCalls(s, Step(s, e))
  {
    if e.Client? && ClientEnabled(s, e.r, e.c) {
      ClientKeepsDrainers(s, e.r, e.c);
    } else if e.Admission? && LoopEnabled(s, e.l) {
      LoopKeepsCalls(s, e.l);
    } else if e.Drain? && DrainEnabled(s, e.d, e.e) {
      DrainKeepsCalls(s, e.d, e.e);
    }
  }

  lemma DrainKeepsCalls(s: Queue, d: DrainerId, e: DrainEvent)
    requires DrainEnabled(s, d, e)
    ensures SameCalls(s, DrainNext(s, d, e))
  {
  }

  lemma ClientKeepsDrainers(s: Queue, r: RequestId, c: ClientEvent)
    requires ClientEnabled(s, r, c)
    ensures ClientNext(s, r, c).drainers == s.drainers
  {
  }

  lemma LoopKeepsCalls(s: Queue, l: LoopEvent)
    requires LoopEnabled(s, l)
    ensures SameCalls(s, LoopNext(s, l))
  {
  }

  /** Each drainer wants what it was called with. */
  lemma {:induction false} DrainersKeepTheirCall(capacity: nat, events: seq<Event>)
    ensures var s, calls := Run(capacity, events), DrainCalls(events);
            && |s.drainers| == |calls|
            && forall d :: 0 <= d < |calls| ==>
                 && calls[d].StartDrain?
                 && s.drainers[d].want == calls[d].want && s.drainers[d].blocking == calls[d].blocking
    decreases |events|
  {
    if events != [] {
      DrainersKeepTheirCall(capacity, events[..|events| - 1]);
      if !events[|events| - 1].StartDrain? {
        StepKeepsCalls(Run(capacity, events[..|events| - 1]), events[|events| - 1]);
      }
    }
  }

  /** A drainer returns for a true reason, at the moment it holds: full, nothing buffered (a
      call that does not block), closed with nothing left, or its context ended. */
  lemma DrainersReturnTruly(s: Queue, e: Event, d: DrainerId)
    requires d < |s.drainers| && s.drainers[d].outcome.Running?
    ensures d < |Step(s, e).drainers|
    ensures ReturnsTruly(s, s.drainers[d], Step(s, e).drainers[d])
  {
    if e.Client? && ClientEnabled(s, e.r, e.c) {
      ClientKeepsDrainers(s, e.r, e.c);
    } else if e.Admission? && LoopEnabled(s, e.l) {
      LoopKeepsCalls(s, e.l);
      LoopEndsNoDrain(s, e.l, d);
    } else if e.Drain? && DrainEnabled(s, e.d, e.e) {
      DrainKeepsCalls(s, e.d, e.e);
      DrainReturnsTruly(s, e.d, e.e, d);
    }
  }

  lemma DrainReturnsTruly(s: Queue, x: DrainerId, e: DrainEvent, d: DrainerId)
    requires DrainEnabled(s, x, e) && d < |s.drainers| == |DrainNext(s, x, e).drainers|
    requires s.drainers[d].outcome.Running?
    ensures ReturnsTruly(s, s.drainers[d], DrainNext(s, x, e).drainers[d])
  {
  }

  /** Why a drainer that was w in state s may be v after one event. */
  ghost predicate ReturnsTruly(s: Queue, w: Drainer, v: Drainer) {
    match v.outcome
    case Running => true
    case Full => |w.batch| >= w.want && v.batch == w.batch
    case Empty => s.ch == [] && !w.blocking && |w.batch| < w.want && v.batch == w.batch
    case Closed => s.ch == [] && s.chClosed && v.batch == w.batch
    case Cancelled => w.blocking && w.cancelled && v.batch == w.batch
  }

  lemma LoopEndsNoDrain(s: Queue, l: LoopEvent, d: DrainerId)
    requires LoopEnabled(s, l) && d < |s.drainers|
    ensures d < |LoopNext(s, l).drainers| && LoopNext(s, l).drainers[d].outcome == s.drainers[d].outcome
  {
  }

  /** A drainer that runs can move on unless it is a blocking one that still wants more, with
      nothing buffered, an open channel and a live context. */
  lemma DrainersBlockOnlyOnEmpty(s: Queue, d: DrainerId)
    requires d < |s.drainers| && s.drainers[d].outcome.Running?
    ensures var w := s.drainers[d];
            (exists e: DrainEvent :: !e.CancelDrain? && DrainEnabled(s, d, e)) <==>
            !(w.blocking && |w.batch| < w.want && s.ch == [] && !s.chClosed && !w.cancelled)
    ensures Step(s, Drain(d, CancelDrain)).drainers[d].cancelled
  {
    var w := s.drainers[d];
    if |w.batch| >= w.want {
      assert DrainEnabled(s, d, Finish);
    } else if s.ch != [] {
      assert DrainEnabled(s, d, Receive);
    } else if s.chClosed {
      assert DrainEnabled(s, d, SeeChClosed);
    } else if !w.blocking {
      assert DrainEnabled(s, d, SeeNothing);
    } else if w.cancelled {
      assert DrainEnabled(s, d, SeeCancelled);
    }
  }

  // -------------------------------------------------------- who can be blocked

  /** The queue is closed exactly when Close was called. */
  lemma {:induction false} ClosedIff(capacity: nat, events: seq<Event>)
    ensures Run(capacity, events).done <==> Close in events
    decreases |events|
  {
    if events != [] {
      var front, e := events[..|events| - 1], events[|events| - 1];
      ClosedIff(capacity, front);
      assert events == front + [e];
      if Run(capacity, front).done {
        StepStaysClosed(Run(capacity, front), e);
      } else if e != Close {
        StepStaysOpen(Run(capacity, front), e);
      }
    }
  }

  lemma StepStaysOpen(s: Queue, e: Event)
    requires !s.done && e != Close
    ensures !Step(s, e).done
  {
    if e.Client? && ClientEnabled(s, e.r, e.c) {
      ClientStaysClosed(s, e.r, e.c);
    } else if e.Admission? && LoopEnabled(s, e.l) {
      LoopStaysClosed(s, e.l);
    } else if e.Drain? && DrainEnabled(s, e.d, e.e) {
      DrainIsQuiet(s, e.d, e.e);
    }
  }

  /** Leaving aside what it does to its own buffer and context, a caller can move exactly when
      one of its selects has a ready branch. */
  lemma CallersBlockOnlyWithoutCause(s: Queue, r: RequestId)
    requires r < |s.reqs|
    ensures var q := s.reqs[r];
            (exists c: ClientEvent :: !c.Overwrite? && !c.Cancel? && ClientEnabled(s, r, c)) <==>
            !q.phase.Returned? &&
            (s.done || q.cancelled || (q.phase.Waiting? && q.resp != []) ||
             (q.phase.Sending? && (|s.submitCh| < s.capacity || (s.submitCh == [] && ReadyToReceive(s)))))
  {
    var q := s.reqs[r];
    if !q.phase.Returned? {
      if s.done {
        assert ClientEnabled(s, r, SeeClosed);
      } else if q.cancelled {
        assert ClientEnabled(s, r, GiveUp);
      } else if q.phase.Waiting? && q.resp != [] {
        assert ClientEnabled(s, r, TakeReply);
      } else if q.phase.Sending? && |s.submitCh| < s.capacity {
        assert ClientEnabled(s, r, Enter);
      } else if q.phase.Sending? && s.submitCh == [] && ReadyToReceive(s) {
        assert ClientEnabled(s, r, HandOver);
      }
    }
  }

  /** The goroutine has cause to move: it is not exited, not idle on an open queue with
      nothing to take, and not holding a stamped transaction that finds no room, no drainer,
      a live context and an open queue. */
  ghost predicate HasCause(s: Queue) {
    match s.loop
    case Idle => s.done || s.submitCh != []
    case Stamped(r, _) =>
      s.done || (r < |s.reqs| && s.reqs[r].cancelled) || |s.ch| < s.capacity ||
      (s.ch == [] && exists d :: Collecting(s, d))
    case Exited => false
    case _ => true
  }

  lemma CauseMeansMove(s: Queue)
    requires Inv(s) && HasCause(s)
    ensures exists l :: LoopEnabled(s, l)
  {
    match s.loop
    case Idle => assert LoopEnabled(s, SeeDone) || LoopEnabled(s, Take);
    case Holding(r) => assert LoopEnabled(s, DropClosed) || LoopEnabled(s, DropCancelled) || LoopEnabled(s, Stamp(0));
    case Stamped(r, _) =>
      if s.ch == [] && exists d :: Collecting(s, d) {
        var d :| Collecting(s, d);
        assert LoopEnabled(s, SendTo(d));
      } else {
        assert LoopEnabled(s, AbandonClosed) || LoopEnabled(s, AbandonCancelled) || LoopEnabled(s, Send);
      }
    case Replying(_, _, _) => assert LoopEnabled(s, Answer);
    case Rejecting => assert LoopEnabled(s, RejectNext) || LoopEnabled(s, RejectDone);
    case Closing => assert LoopEnabled(s, CloseCh);
    case Exited =>
  }

  lemma MoveMeansCause(s: Queue, l: LoopEvent)
    requires LoopEnabled(s, l)
    ensures HasCause(s)
  {
  }

  /** In every run the goroutine is blocked in those places and in no others. */
  lemma GoroutineBlocksOnlyWithoutCause(capacity: nat, events: seq<Event>)
    ensures (exists l :: LoopEnabled(Run(capacity, events), l)) <==> HasCause(Run(capacity, events))
  {
    var s := Run(capacity, events);
    RunKeepsInv(capacity, events);
    if HasCause(s) {
      CauseMeansMove(s);
    }
    if l :| LoopEnabled(s, l) {
      MoveMeansCause(s, l);
    }
  }
}

/** What the admission queue promises in every interleaving. */
module AdmissionTheorems {
  import opened Transactions
  import opened AdmissionQueue

  // ------------------------------------------------ each event keeps the invariant

  /** History only grows, so a justified receipt stays justified. */
  lemma JustifiedStays(s: Queue, t: Queue, r: RequestId, reply: Reply)
    requires Justified(s, r, reply)
    requires Admitted(s) <= Admitted(t) && s.places <= t.places && s.entered <= t.entered
    ensures Justified(t, r, reply)
  {
    if reply.Receipt? {
      var i :| 0 <= i < |Admitted(s)| && i < |s.places| && s.places[i] < |s.entered| &&
               Admitted(s)[i] == reply.tx && s.entered[s.places[i]] == r;
      assert Admitted(t)[i] == reply.tx && t.entered[t.places[i]] == r;
    }
  }

  lemma ReceiptsStay(s: Queue, t: Queue)
    requires ReceiptsJustified(s)
    requires Admitted(s) <= Admitted(t) && s.places <= t.places && s.entered <= t.entered
    requires |t.reqs| == |s.reqs|
    requires forall r :: 0 <= r < |s.reqs| ==> t.reqs[r].resp == s.reqs[r].resp
    requires forall r :: 0 <= r < |s.reqs| && t.reqs[r].phase.Returned? ==> t.reqs[r].phase == s.reqs[r].phase
    requires t.loop.Replying? ==> Justified(t, t.loop.r, t.loop.reply)
    ensures ReceiptsJustified(t)
  {
    forall r, k | 0 <= r < |t.reqs| && 0 <= k < |t.reqs[r].resp| ensures Justified(t, r, t.reqs[r].resp[k]) {
      JustifiedStays(s, t, r, s.reqs[r].resp[k]);
    }
    forall r | 0 <= r < |t.reqs| && t.reqs[r].phase.Returned? ensures Justified(t, r, t.reqs[r].phase.reply) {
      JustifiedStays(s, t, r, s.reqs[r].phase.reply);
    }
  }

  lemma SetReqKeepsReceipts(s: Queue, r: RequestId, q: Request)
    requires ReceiptsJustified(s) && r < |s.reqs|
    requires forall k :: 0 <= k < |q.resp| ==> Justified(s, r, q.resp[k])
    requires q.phase.Returned? ==> Justified(s, r, q.phase.reply)
    ensures ReceiptsJustified(SetReq(s, r, q))
  {
    var t := SetReq(s, r, q);
    assert forall x, reply :: Justified(s, x, reply) ==> Justified(t, x, reply) by {
      forall x, reply | Justified(s, x, reply) ensures Justified(t, x, reply) {
        JustifiedStays(s, t, x, reply);
      }
    }
  }

  /** A change to one request that neither reopens it nor invents a reply. */
  lemma SetReqKeeps(s: Queue, r: RequestId, q: Request)
    requires Inv(s) && r < |s.reqs|
    requires q.payload == s.reqs[r].payload
    requires q.phase.Sending? ==> s.reqs[r].phase.Sending?
    requires q.resp != [] ==> r in s.answered
    requires forall k :: 0 <= k < |q.resp| ==> Justified(s, r, q.resp[k])
    requires q.phase.Returned? ==> Justified(s, r, q.phase.reply)
    ensures Inv(SetReq(s, r, q))
  {
    SetReqKeepsRequests(s, r, q);
    SetReqKeepsAdmitted(s, r, q);
    SetReqKeepsReceipts(s, r, q);
  }

  lemma SetReqKeepsRequests(s: Queue, r: RequestId, q: Request)
    requires RequestsInOrder(s) && r < |s.reqs|
    requires q.phase.Sending? ==> s.reqs[r].phase.Sending?
    requires q.resp != [] ==> r in s.answered
    ensures RequestsInOrder(SetReq(s, r, q))
  {
  }

  lemma SetReqKeepsAdmitted(s: Queue, r: RequestId, q: Request)
    requires AdmittedInOrder(s) && r < |s.reqs| && q.payload == s.reqs[r].payload
    ensures AdmittedInOrder(SetReq(s, r, q))
  {
    assert Admitted(SetReq(s, r, q)) == Admitted(s);
  }

  lemma EnterKeepsRequests(s: Queue, r: RequestId)
    requires RequestsInOrder(s) && r < |s.reqs| && s.reqs[r].phase.Sending?
    ensures RequestsInOrder(EnterCh(s, r))
  {
    var t := EnterCh(s, r);
    assert t.entered[t.taken..] == s.entered[s.taken..] + [r];
    assert t.entered[..t.taken] == s.entered[..s.taken];
  }

  lemma EnterKeepsAdmitted(s: Queue, r: RequestId)
    requires AdmittedInOrder(s) && r < |s.reqs|
    ensures AdmittedInOrder(EnterCh(s, r))
  {
    assert Admitted(EnterCh(s, r)) == Admitted(s);
  }

  lemma EnterKeeps(s: Queue, r: RequestId)
    requires Inv(s) && r < |s.reqs| && s.reqs[r].phase.Sending?
    ensures Inv(EnterCh(s, r))
  {
    var t := EnterCh(s, r);
    EnterKeepsRequests(s, r);
    EnterKeepsAdmitted(s, r);
    if s.loop.Replying? {
      JustifiedStays(s, t, s.loop.r, s.loop.reply);
    }
    ReceiptsStay(s, t);
  }

  lemma TakeKeeps(s: Queue)
    requires Inv(s) && s.submitCh != [] && ReadyToReceive(s)
    ensures Inv(TakeOldest(s))
  {
    var t := TakeOldest(s);
    assert s.submitCh[0] == s.entered[s.taken];
    assert t.submitCh == s.entered[t.taken..];
    assert s.entered[..t.taken] == s.entered[..s.taken] + [s.entered[s.taken]];
    ReceiptsStay(s, t);
  }

  lemma ClientKeeps(s: Queue, r: RequestId, c: ClientEvent)
    requires Inv(s) && ClientEnabled(s, r, c)
    ensures Inv(ClientNext(s, r, c))
  {
    var q := s.reqs[r];
    match c
    case Overwrite(buffer) => SetReqKeeps(s, r, q.(buffer := buffer));
    case Cancel => SetReqKeeps(s, r, q.(cancelled := true));
    case Enter => EnterKeeps(s, r);
    case HandOver => EnterKeeps(s, r); TakeKeeps(EnterCh(s, r));
    case GiveUp => SetReqKeeps(s, r, q.(phase := Returned(Refused(ContextDone))));
    case SeeClosed => SetReqKeeps(s, r, q.(phase := Returned(Refused(QueueClosed))));
    case TakeReply => SetReqKeeps(s, r, q.(phase := Returned(q.resp[0]), resp := q.resp[1..]));
  }

  lemma SendKeepsOrder(s: Queue)
    requires RequestsInOrder(s) && AdmittedInOrder(s) && s.loop.Stamped? && !s.chClosed
    ensures AdmittedInOrder(SendCh(s)) && RequestsInOrder(SendCh(s))
    ensures Admitted(SendCh(s)) == Admitted(s) + [s.loop.tx]
    ensures AdmittedFor(SendCh(s), s.loop.r, s.loop.tx)
  {
    var t := SendCh(s);
    var n := |Admitted(s)|;
    assert Admitted(t) == Admitted(s) + [s.loop.tx];
    assert Admitted(t)[n] == s.loop.tx && t.entered[t.places[n]] == s.loop.r;
  }

  lemma SendKeeps(s: Queue)
    requires Inv(s) && s.loop.Stamped?
    ensures Inv(SendCh(s))
  {
    SendKeepsOrder(s);
    ReceiptsStay(s, SendCh(s));
  }

  lemma ReceivedSnoc(txs: seq<Tx>, owners: seq<DrainerId>, tx: Tx, d: DrainerId, e: DrainerId)
    requires |txs| == |owners|
    ensures ReceivedBy(txs + [tx], owners + [d], e) == ReceivedBy(txs, owners, e) + if d == e then [tx] else []
  {
    assert (txs + [tx])[..|txs|] == txs && (owners + [d])[..|txs|] == owners;
  }

  lemma ReceiveKeepsExact(s: Queue, d: DrainerId)
    requires DrainersExact(s) && s.ch != [] && Collecting(s, d)
    ensures DrainersExact(ReceiveCh(s, d))
  {
    var t := ReceiveCh(s, d);
    forall e | 0 <= e < |t.drainers|
      ensures t.drainers[e].batch == ReceivedBy(t.drained, t.drainedBy, e)
    {
      ReceivedSnoc(s.drained, s.drainedBy, s.ch[0], d, e);
    }
    assert forall e :: 0 <= e < |t.drainers| && e != d ==> t.drainers[e] == s.drainers[e];
  }

  lemma ReceiveKeeps(s: Queue, d: DrainerId)
    requires Inv(s) && s.ch != [] && Collecting(s, d)
    ensures Inv(ReceiveCh(s, d))
  {
    var t := ReceiveCh(s, d);
    assert Admitted(t) == Admitted(s);
    ReceiveKeepsExact(s, d);
    if s.loop.Replying? {
      JustifiedStays(s, t, s.loop.r, s.loop.reply);
    }
    ReceiptsStay(s, t);
  }

  /** A move of the goroutine that touches no history. */
  lemma MoveKeeps(s: Queue, t: Queue)
    requires Inv(s) && t == s.(loop := t.loop, nextID := t.nextID, abandoned := t.abandoned, chClosed := t.chClosed)
    requires RequestsInOrder(t) && AdmittedInOrder(t) && ShutsDownOnce(t)
    requires t.loop.Replying? ==> t.loop.reply.Refused?
    requires s.chClosed ==> t.chClosed
    ensures Inv(t)
  {
    ReceiptsStay(s, t);
  }

  lemma AnswerKeepsRequests(s: Queue)
    requires RequestsInOrder(s) && LoopEnabled(s, Answer)
    ensures RequestsInOrder(LoopNext(s, Answer))
  {
    assert s.loop.r in s.entered[..s.taken] by {
      assert s.entered[..s.taken][s.taken - 1] == s.loop.r;
    }
  }

  lemma AnswerKeepsAdmitted(s: Queue)
    requires AdmittedInOrder(s) && LoopEnabled(s, Answer)
    ensures AdmittedInOrder(LoopNext(s, Answer))
  {
    assert Admitted(LoopNext(s, Answer)) == Admitted(s);
  }

  lemma AnswerKeeps(s: Queue)
    requires Inv(s) && LoopEnabled(s, Answer)
    ensures Inv(LoopNext(s, Answer))
  {
    AnswerKeepsRequests(s);
    AnswerKeepsAdmitted(s);
    AnswerKeepsReceipts(s);
  }

  lemma AnswerKeepsReceipts(s: Queue)
    requires ReceiptsJustified(s) && LoopEnabled(s, Answer)
    ensures ReceiptsJustified(LoopNext(s, Answer))
  {
    var t := LoopNext(s, Answer);
    forall x, k | 0 <= x < |t.reqs| && 0 <= k < |t.reqs[x].resp| ensures Justified(t, x, t.reqs[x].resp[k]) {
      JustifiedStays(s, t, x, t.reqs[x].resp[k]);
    }
    forall x | 0 <= x < |t.reqs| && t.reqs[x].phase.Returned? ensures Justified(t, x, t.reqs[x].phase.reply) {
      JustifiedStays(s, t, x, t.reqs[x].phase.reply);
    }
  }

  lemma StampKeeps(s: Queue, now: int)
    requires Inv(s) && LoopEnabled(s, Stamp(now))
    ensures Inv(LoopNext(s, Stamp(now)))
  {
    StampKeepsAdmitted(s, now);
    MoveKeeps(s, LoopNext(s, Stamp(now)));
  }

  lemma StampKeepsAdmitted(s: Queue, now: int)
    requires AdmittedInOrder(s) && LoopEnabled(s, Stamp(now))
    ensures AdmittedInOrder(LoopNext(s, Stamp(now)))
  {
    assert Admitted(LoopNext(s, Stamp(now))) == Admitted(s);
  }

  lemma DropKeeps(s: Queue, l: LoopEvent)
    requires Inv(s) && LoopEnabled(s, l) && (l.DropCancelled? || l.DropClosed?)
    ensures Inv(LoopNext(s, l))
  {
    MoveKeeps(s, LoopNext(s, l));
  }

  lemma AbandonKeeps(s: Queue, l: LoopEvent)
    requires Inv(s) && LoopEnabled(s, l) && (l.AbandonCancelled? || l.AbandonClosed?)
    ensures Inv(LoopNext(s, l))
  {
    MoveKeeps(s, LoopNext(s, l));
  }

  lemma ShutdownKeeps(s: Queue, l: LoopEvent)
    requires Inv(s) && LoopEnabled(s, l)
    requires l.SeeDone? || l.RejectDone? || l.CloseCh?
    ensures Inv(LoopNext(s, l))
  {
    MoveKeeps(s, LoopNext(s, l));
  }

  lemma LoopKeeps(s: Queue, l: LoopEvent)
    requires Inv(s) && LoopEnabled(s, l)
    ensures Inv(LoopNext(s, l))
  {
    match l
    case Take => TakeKeeps(s);
    case RejectNext => TakeKeeps(s);
    case Send => SendKeeps(s);
    case SendTo(d) => SendKeeps(s); ReceiveKeeps(SendCh(s), d);
    case Answer => AnswerKeeps(s);
    case Stamp(now) => StampKeeps(s, now);
    case SeeDone => ShutdownKeeps(s, l);
    case RejectDone => ShutdownKeeps(s, l);
    case CloseCh => ShutdownKeeps(s, l);
    case DropCancelled => DropKeeps(s, l);
    case DropClosed => DropKeeps(s, l);
    case _ => AbandonKeeps(s, l);
  }

  /** A change that concerns only the drainers or the close flag. */
  lemma QuietKeeps(s: Queue, t: Queue)
    requires Inv(s) && t == s.(drainers := t.drainers, done := t.done)
    requires DrainersExact(t) && ShutsDownOnce(t)
    ensures Inv(t)
  {
    if s.loop.Replying? {
      JustifiedStays(s, t, s.loop.r, s.loop.reply);
    }
    ReceiptsStay(s, t);
  }

  lemma FinishDrainKeepsExact(s: Queue, d: DrainerId, e: DrainEvent)
    requires DrainersExact(s) && DrainEnabled(s, d, e) && !e.Receive?
    ensures DrainersExact(DrainNext(s, d, e))
  {
  }

  lemma DrainKeeps(s: Queue, d: DrainerId, e: DrainEvent)
    requires Inv(s) && DrainEnabled(s, d, e)
    ensures Inv(DrainNext(s, d, e))
  {
    if e.Receive? {
      ReceiveKeeps(s, d);
    } else {
      FinishDrainKeepsExact(s, d, e);
      QuietKeeps(s, DrainNext(s, d, e));
    }
  }

  lemma SubmitKeeps(s: Queue, data: Bytes)
    requires Inv(s)
    ensures Inv(Step(s, Submit(data)))
  {
    var t := Step(s, Submit(data));
    forall x, k | 0 <= x < |t.reqs| && 0 <= k < |t.reqs[x].resp| ensures Justified(t, x, t.reqs[x].resp[k]) {
      JustifiedStays(s, t, x, t.reqs[x].resp[k]);
    }
    forall x | 0 <= x < |t.reqs| && t.reqs[x].phase.Returned? ensures Justified(t, x, t.reqs[x].phase.reply) {
      JustifiedStays(s, t, x, t.reqs[x].phase.reply);
    }
    if s.loop.Replying? {
      JustifiedStays(s, t, s.loop.r, s.loop.reply);
    }
  }

  lemma {:induction false} NothingReceived(txs: seq<Tx>, owners: seq<DrainerId>, d: DrainerId)
    requires |txs| == |owners| && forall k :: 0 <= k < |owners| ==> owners[k] != d
    ensures ReceivedBy(txs, owners, d) == []
    decreases |txs|
  {
    if txs != [] {
      NothingReceived(txs[..|txs| - 1], owners[..|txs| - 1], d);
    }
  }

  lemma StartDrainKeeps(s: Queue, want: nat, blocking: bool)
    requires Inv(s)
    ensures Inv(Step(s, StartDrain(want, blocking)))
  {
    var t := Step(s, StartDrain(want, blocking));
    NothingReceived(s.drained, s.drainedBy, |s.drainers|);
    assert forall d :: 0 <= d < |s.drainers| ==> t.drainers[d] == s.drainers[d];
    QuietKeeps(s, t);
  }

  lemma CloseKeeps(s: Queue)
    requires Inv(s)
    ensures Inv(Step(s, Close))
  {
    QuietKeeps(s, Step(s, Close));
  }

  lemma StepKeepsInv(s: Queue, e: Event)
    requires Inv(s)
    ensures Inv(Step(s, e))
  {
    match e
    case Submit(data) => SubmitKeeps(s, data);
    case Client(r, c) => if ClientEnabled(s, r, c) { ClientKeeps(s, r, c); }
    case Admission(l) => if LoopEnabled(s, l) { LoopKeeps(s, l); }
    case StartDrain(want, blocking) => StartDrainKeeps(s, want, blocking);
    case Drain(d, x) => if DrainEnabled(s, d, x) { DrainKeeps(s, d, x); }
    case Close => CloseKeeps(s);
  }

  // ------------------------------------------------------------------ the runs

  ghost function Run(capacity: nat, events: seq<Event>): Queue {
    if events == [] then NewTxQueue(capacity) else
    Step(Run(capacity, events[..|events| - 1]), events[|events| - 1])
  }

  lemma {:induction false} RunKeepsInv(capacity: nat, events: seq<Event>)
    ensures Inv(Run(capacity, events))
    decreases |events|
  {
    if events != [] {
      RunKeepsInv(capacity, events[..|events| - 1]);
      StepKeepsInv(Run(capacity, events[..|events| - 1]), events[|events| - 1]);
    }
  }

  /** The data of the successive SubmitWithReceipt calls of a run. */
  ghost function SubmittedData(events: seq<Event>): seq<Bytes> {
    if events == [] then [] else
    var e := events[|events| - 1];
    SubmittedData(events[..|events| - 1]) + if e.Submit? then [e.data] else []
  }

  ghost predicate SamePayloads(s: Queue, t: Queue) {
    |t.reqs| == |s.reqs| && forall r :: 0 <= r < |s.reqs| ==> t.reqs[r].payload == s.reqs[r].payload
  }

  lemma ClientKeepsPayloads(s: Queue, r: RequestId, c: ClientEvent)
    requires ClientEnabled(s, r, c)
    ensures SamePayloads(s, ClientNext(s, r, c))
  {
  }

  lemma LoopKeepsPayloads(s: Queue, l: LoopEvent)
    requires LoopEnabled(s, l)
    ensures SamePayloads(s, LoopNext(s, l))
  {
  }

  lemma StepKeepsPayloads(s: Queue, e: Event)
    requires !e.Submit?
    ensures SamePayloads(s, Step(s, e))
  {
    if e.Client? && ClientEnabled(s, e.r, e.c) {
      ClientKeepsPayloads(s, e.r, e.c);
    } else if e.Admission? && LoopEnabled(s, e.l) {
      LoopKeepsPayloads(s, e.l);
    }
  }

  /** Each request keeps the bytes it was called with, whatever the caller later writes
      into its buffer. */
  lemma {:induction false} PayloadsAreCopies(capacity: nat, events: seq<Event>)
    ensures var s := Run(capacity, events);
            && |s.reqs| == |SubmittedData(events)|
            && forall r :: 0 <= r < |s.reqs| ==> s.reqs[r].payload == SubmittedData(events)[r]
    decreases |events|
  {
    if events != [] {
      PayloadsAreCopies(capacity, events[..|events| - 1]);
      if !events[|events| - 1].Submit? {
        StepKeepsPayloads(Run(capacity, events[..|events| - 1]), events[|events| - 1]);
      }
    }
  }

  /** In every interleaving, what was drained followed by what is buffered has strictly
      increasing IDs, and is an order-preserving selection of the order in which requests
      entered `submitCh`, each request chosen at most once and with its own data. */
  lemma AdmissionIsFifo(capacity: nat, events: seq<Event>) returns (places: seq<nat>)
    ensures var s := Run(capacity, events);
            var txs := s.drained + s.ch;
            && IncreasingIds(txs)
            && |places| == |txs| && Increasing(places)
            && (forall i :: 0 <= i < |txs| ==>
                  && places[i] < |s.entered| && s.entered[places[i]] < |SubmittedData(events)|
                  && txs[i].ciphertext == SubmittedData(events)[s.entered[places[i]]])
            && (forall i, j :: 0 <= i < j < |txs| ==> s.entered[places[i]] != s.entered[places[j]])
  {
    RunKeepsInv(capacity, events);
    PayloadsAreCopies(capacity, events);
    places := Run(capacity, events).places;
  }

  ghost predicate HoldsReceipt(s: Queue, r: RequestId) {
    r < |s.reqs| && s.reqs[r].phase.Returned? && s.reqs[r].phase.reply.Receipt?
  }

  /** A success receipt is only ever for an admitted transaction of that very request, so
      no two requests hold receipts with the same ID. */
  lemma ReceiptsAreSound(capacity: nat, events: seq<Event>, r: RequestId)
    requires HoldsReceipt(Run(capacity, events), r)
    ensures var s := Run(capacity, events);
            var tx := s.reqs[r].phase.reply.tx;
            && AdmittedFor(s, r, tx) && tx in s.drained + s.ch && tx.ciphertext == s.reqs[r].payload
            && forall q: RequestId :: HoldsReceipt(s, q) && q != r ==> s.reqs[q].phase.reply.tx.id != tx.id
  {
    RunKeepsInv(capacity, events);
    var s := Run(capacity, events);
    var tx := s.reqs[r].phase.reply.tx;
    assert Justified(s, r, s.reqs[r].phase.reply);
    forall q: RequestId | HoldsReceipt(s, q) && q != r ensures s.reqs[q].phase.reply.tx.id != tx.id {
      assert Justified(s, q, s.reqs[q].phase.reply);
      DistinctAdmissions(s, r, tx, q, s.reqs[q].phase.reply.tx);
    }
  }

  lemma DistinctAdmissions(s: Queue, r: RequestId, tx: Tx, q: RequestId, ux: Tx)
    requires Inv(s) && r != q && AdmittedFor(s, r, tx) && AdmittedFor(s, q, ux)
    ensures tx.id != ux.id
  {
    var i :| 0 <= i < |Admitted(s)| && i < |s.places| && s.places[i] < |s.entered| &&
             Admitted(s)[i] == tx && s.entered[s.places[i]] == r;
    var j :| 0 <= j < |Admitted(s)| && j < |s.places| && s.places[j] < |s.entered| &&
             Admitted(s)[j] == ux && s.entered[s.places[j]] == q;
    assert i != j;
  }

  /** The converse fails: a caller can be told its context ended although its transaction
      was admitted and will be drained. */
  lemma ErrorDespiteAdmission(data: Bytes) returns (events: seq<Event>, s: Queue)
    ensures s == Run(1, events)
    ensures |s.reqs| == 1 && s.reqs[0].phase == Returned(Refused(ContextDone))
    ensures s.drained + s.ch == [Tx(1, 7, data)]
  {
    events, s := AdmitOne(data);
    events, s := RunOn(1, events, s, Client(0, Cancel));
    events, s := RunOn(1, events, s, Client(0, GiveUp));
  }

  lemma AdmitOne(data: Bytes) returns (events: seq<Event>, s: Queue)
    ensures s == Run(1, events)
    ensures s.reqs == [Request(data, data, false, Waiting, [])]
    ensures s.drained == [] && s.ch == [Tx(1, 7, data)]
  {
    events, s := [], NewTxQueue(1);
    events, s := RunOn(1, events, s, Submit(data));
    events, s := RunOn(1, events, s, Client(0, Enter));
    assert s.submitCh == [0] && s.reqs == [Request(data, data, false, Waiting, [])];
    events, s := RunOn(1, events, s, Admission(Take));
    events, s := RunOn(1, events, s, Admission(Stamp(7)));
    events, s := RunOn(1, events, s, Admission(Send));
  }

  lemma RunOn(capacity: nat, events: seq<Event>, s: Queue, e: Event) returns (more: seq<Event>, t: Queue)
    requires s == Run(capacity, events)
    ensures more == events + [e] && t == Run(capacity, more) == Step(s, e)
  {
    more, t := events + [e], Step(s, e);
    RunNext(capacity, events, e);
  }

  // ------------------------------------------- what an error tells the caller

  /** An error about the context is only for a request whose context ended, and an error
      about the queue only after close. */
  ghost predicate Explained(s: Queue, r: RequestId, reply: Reply) {
    r < |s.reqs| &&
    (reply.Refused? ==> if reply.err.ContextDone? then s.reqs[r].cancelled else s.done)
  }

  ghost predicate ErrorsExplained(s: Queue) {
    && (forall r, k :: 0 <= r < |s.reqs| && 0 <= k < |s.reqs[r].resp| ==> Explained(s, r, s.reqs[r].resp[k]))
    && (forall r :: 0 <= r < |s.reqs| && s.reqs[r].phase.Returned? ==> Explained(s, r, s.reqs[r].phase.reply))
    && (s.loop.Replying? ==> Explained(s, s.loop.r, s.loop.reply))
    && (s.loop.Rejecting? ==> s.done)
    && (Occupied(s) ==> s.loop.r < |s.reqs|)
    && (forall i :: 0 <= i < |s.submitCh| ==> s.submitCh[i] < |s.reqs|)
    && |s.ch| <= s.capacity
  }

  lemma SetReqExplains(s: Queue, r: RequestId, q: Request)
    requires ErrorsExplained(s) && r < |s.reqs| && (s.reqs[r].cancelled ==> q.cancelled)
    requires forall k :: 0 <= k < |q.resp| ==> Explained(SetReq(s, r, q), r, q.resp[k])
    requires q.phase.Returned? ==> Explained(SetReq(s, r, q), r, q.phase.reply)
    ensures ErrorsExplained(SetReq(s, r, q))
  {
    assert forall x, reply :: Explained(s, x, reply) ==> Explained(SetReq(s, r, q), x, reply);
  }

  lemma EnterExplains(s: Queue, r: RequestId)
    requires ErrorsExplained(s) && r < |s.reqs|
    ensures ErrorsExplained(EnterCh(s, r))
  {
    var t := SetReq(s, r, s.reqs[r].(phase := Waiting));
    assert forall reply :: Explained(s, r, reply) ==> Explained(t, r, reply);
    SetReqExplains(s, r, s.reqs[r].(phase := Waiting));
    assert forall x, reply :: Explained(t, x, reply) ==> Explained(EnterCh(s, r), x, reply);
  }

  lemma TakeExplains(s: Queue)
    requires ErrorsExplained(s) && s.submitCh != [] && ReadyToReceive(s)
    ensures ErrorsExplained(TakeOldest(s))
  {
    assert forall x, reply :: Explained(s, x, reply) ==> Explained(TakeOldest(s), x, reply);
  }

  lemma ClientExplains(s: Queue, r: RequestId, c: ClientEvent)
    requires ErrorsExplained(s) && ClientEnabled(s, r, c)
    ensures ErrorsExplained(ClientNext(s, r, c))
  {
    if c.Enter? || c.HandOver? {
      EnterExplains(s, r);
      if c.HandOver? {
        TakeExplains(EnterCh(s, r));
      }
    } else {
      var t := ClientNext(s, r, c);
      assert forall reply :: Explained(s, r, reply) ==> Explained(t, r, reply);
      SetReqExplains(s, r, t.reqs[r]);
    }
  }

  lemma LoopExplains(s: Queue, l: LoopEvent)
    requires ErrorsExplained(s) && ShutsDownOnce(s) && LoopEnabled(s, l)
    ensures ErrorsExplained(LoopNext(s, l))
  {
  }

  /** Drainers concern neither requests nor the goroutine. */
  lemma DrainIsQuiet(s: Queue, d: DrainerId, e: DrainEvent)
    requires DrainEnabled(s, d, e)
    ensures var t := DrainNext(s, d, e);
            && t.reqs == s.reqs && t.submitCh == s.submitCh && t.entered == s.entered && t.loop == s.loop
            && t.done == s.done && t.capacity == s.capacity && |t.ch| <= |s.ch| && t.places == s.places
  {
  }

  lemma QuietExplains(s: Queue, t: Queue)
    requires ErrorsExplained(s) && t.loop == s.loop && t.submitCh == s.submitCh
    requires t.reqs == s.reqs && (s.done ==> t.done) && |t.ch| <= |s.ch| && t.capacity == s.capacity
    ensures ErrorsExplained(t)
  {
    assert forall r, reply :: Explained(s, r, reply) ==> Explained(t, r, reply);
  }

  lemma SubmitExplains(s: Queue, data: Bytes)
    requires ErrorsExplained(s)
    ensures ErrorsExplained(Step(s, Submit(data)))
  {
  }

  lemma StepExplains(s: Queue, e: Event)
    requires ErrorsExplained(s) && ShutsDownOnce(s)
    ensures ErrorsExplained(Step(s, e))
  {
    match e
    case Submit(data) => SubmitExplains(s, data);
    case Client(r, c) => if ClientEnabled(s, r, c) { ClientExplains(s, r, c); }
    case Admission(l) => if LoopEnabled(s, l) { LoopExplains(s, l); }
    case StartDrain(_, _) => QuietExplains(s, Step(s, e));
    case Drain(d, x) =>
      if DrainEnabled(s, d, x) {
        DrainIsQuiet(s, d, x);
        QuietExplains(s, DrainNext(s, d, x));
      }
    case Close => QuietExplains(s, Step(s, e));
  }

  lemma {:induction false} RunExplains(capacity: nat, events: seq<Event>)
    ensures ErrorsExplained(Run(capacity, events))
    decreases |events|
  {
    if events != [] {
      RunExplains(capacity, events[..|events| - 1]);
      RunKeepsInv(capacity, events[..|events| - 1]);
      StepExplains(Run(capacity, events[..|events| - 1]), events[|events| - 1]);
    }
  }

  /** A live caller on an open queue never sees an error: in every run an error about the
      context means the context ended, and one about the queue means it was closed. */
  lemma ErrorsAreJustified(capacity: nat, events: seq<Event>, r: RequestId)
    requires r < |Run(capacity, events).reqs|
    ensures var s := Run(capacity, events);
            && (s.reqs[r].phase == Returned(Refused(ContextDone)) ==> s.reqs[r].cancelled)
            && (s.reqs[r].phase == Returned(Refused(QueueClosed)) ==> s.done)
  {
    RunExplains(capacity, events);
  }

  /** The i-th admitted transaction is the one of request `r`. */
  ghost predicate PlacedAt(s: Queue, i: int, r: RequestId) {
    0 <= i < |s.places| && s.places[i] < |s.entered| && s.entered[s.places[i]] == r
  }

  ghost predicate IsAdmitted(s: Queue, r: RequestId) {
    exists i :: PlacedAt(s, i, r)
  }

  ghost predicate InHand(s: Queue, r: RequestId) {
    s.loop.Stamped? && s.loop.r == r
  }

  /** The context ended or the queue was closed, and the request is neither admitted nor
      stamped. */
  ghost predicate Hopeless(s: Queue, r: RequestId) {
    && r < |s.reqs| && (s.reqs[r].cancelled || s.done)
    && !IsAdmitted(s, r) && !InHand(s, r)
  }

  /** Admissions refer to places taken out of `submitCh`, so later entries do not matter. */
  lemma SamePlacesSameAdmissions(s: Queue, t: Queue, r: RequestId)
    requires Inv(s) && !IsAdmitted(s, r) && t.places == s.places && s.entered <= t.entered
    ensures !IsAdmitted(t, r)
  {
    forall i ensures !PlacedAt(t, i, r) {
      assert !PlacedAt(s, i, r);
      assert 0 <= i < |s.places| ==> s.places[i] < s.taken;
    }
  }

  lemma ClientStaysHopeless(s: Queue, q: RequestId, c: ClientEvent, r: RequestId)
    requires Inv(s) && Hopeless(s, r) && ClientEnabled(s, q, c)
    ensures Hopeless(ClientNext(s, q, c), r)
  {
    SamePlacesSameAdmissions(s, ClientNext(s, q, c), r);
  }

  lemma SendStaysHopeless(s: Queue, t: Queue, r: RequestId)
    requires Inv(s) && Hopeless(s, r) && s.loop.Stamped?
    requires t.places == s.places + [s.taken - 1] && t.entered == s.entered
    ensures !IsAdmitted(t, r)
  {
    forall i ensures !PlacedAt(t, i, r) {
      assert !PlacedAt(s, i, r);
      assert s.entered[s.taken - 1] == s.loop.r;
    }
  }

  lemma LoopStaysHopeless(s: Queue, l: LoopEvent, r: RequestId)
    requires Inv(s) && Hopeless(s, r) && LoopEnabled(s, l)
    ensures Hopeless(LoopNext(s, l), r)
  {
    if l.Send? || l.SendTo? {
      SendStaysHopeless(s, LoopNext(s, l), r);
    } else {
      SamePlacesSameAdmissions(s, LoopNext(s, l), r);
    }
  }

  lemma StepStaysHopeless(s: Queue, e: Event, r: RequestId)
    requires Inv(s) && Hopeless(s, r)
    ensures Hopeless(Step(s, e), r)
  {
    if e.Client? && ClientEnabled(s, e.r, e.c) {
      ClientStaysHopeless(s, e.r, e.c, r);
    } else if e.Admission? && LoopEnabled(s, e.l) {
      LoopStaysHopeless(s, e.l, r);
    } else if e.Drain? && DrainEnabled(s, e.d, e.e) {
      DrainIsQuiet(s, e.d, e.e);
      SamePlacesSameAdmissions(s, DrainNext(s, e.d, e.e), r);
    } else {
      SamePlacesSameAdmissions(s, Step(s, e), r);
    }
  }

  lemma {:induction false} HopelessForever(capacity: nat, events: seq<Event>, later: seq<Event>, r: RequestId)
    requires Hopeless(Run(capacity, events), r)
    ensures Hopeless(Run(capacity, events + later), r)
  {
    forall es, e | Hopeless(Run(capacity, es), r) ensures Hopeless(Run(capacity, es + [e]), r) {
      RunKeepsInv(capacity, es);
      RunNext(capacity, es, e);
      StepStaysHopeless(Run(capacity, es), e, r);
    }
    HoldsLater(es => Hopeless(Run(capacity, es), r), events, later);
  }

  ghost predicate SameWork(s: Queue, t: Queue) {
    && t.loop == s.loop && t.taken == s.taken && t.entered == s.entered && t.chClosed == s.chClosed
    && t.reqs == s.reqs && t.submitCh == s.submitCh && t.done == s.done
  }

  /** A new drainer makes room for the stamped transaction, or takes it. */
  lemma MakeRoom(capacity: nat, events: seq<Event>) returns (later: seq<Event>, l: LoopEvent)
    requires var s := Run(capacity, events); s.loop.Stamped? && |s.ch| <= s.capacity
    ensures SameWork(Run(capacity, events), Run(capacity, events + later))
    ensures LoopEnabled(Run(capacity, events + later), l) && (l.Send? || l.SendTo?)
  {
    var s := Run(capacity, events);
    var d := |s.drainers|;
    var start, receive := StartDrain(1, true), Drain(d, Receive);
    later, l := [], Send;
    assert events + later == events;
    if |s.ch| == s.capacity {
      later, l := [start], SendTo(d);
      RunNext(capacity, events, start);
      if s.ch != [] {
        later, l := [start, receive], Send;
        RunNext(capacity, events + [start], receive);
        assert events + [start] + [receive] == events + later;
      }
    }
  }

  /** A stamped transaction can still be sent. */
  lemma StampedCanBeSent(capacity: nat, events: seq<Event>, r: RequestId) returns (later: seq<Event>)
    requires InHand(Run(capacity, events), r)
    ensures IsAdmitted(Run(capacity, events + later), r)
  {
    RunKeepsInv(capacity, events);
    RunExplains(capacity, events);
    var room, l := MakeRoom(capacity, events);
    SendAdmits(Run(capacity, events + room), l);
    RunNext(capacity, events + room, Admission(l));
    later := room + [Admission(l)];
    assert events + room + [Admission(l)] == events + later;
  }

  lemma SendAdmits(s: Queue, l: LoopEvent)
    requires s.loop.Stamped? && !s.chClosed && LoopEnabled(s, l) && (l.Send? || l.SendTo?)
    requires 0 < s.taken <= |s.entered| && s.entered[s.taken - 1] == s.loop.r
    ensures IsAdmitted(LoopNext(s, l), s.loop.r)
  {
    var t := LoopNext(s, l);
    assert PlacedAt(t, |s.places|, s.loop.r);
  }

  /** Exactly when an ended context or a closed queue means that the request is out: once
      either holds, the request is admitted in some continuation if and only if it already
      is, or the goroutine has it in hand, stamped. */
  lemma LateAdmissionIff(capacity: nat, events: seq<Event>, r: RequestId)
    requires var s := Run(capacity, events); r < |s.reqs| && (s.reqs[r].cancelled || s.done)
    ensures (exists later :: IsAdmitted(Run(capacity, events + later), r)) <==>
            IsAdmitted(Run(capacity, events), r) || InHand(Run(capacity, events), r)
  {
    var s := Run(capacity, events);
    if IsAdmitted(s, r) {
      assert events + [] == events;
    } else if InHand(s, r) {
      var later := StampedCanBeSent(capacity, events, r);
    } else {
      forall later ensures !IsAdmitted(Run(capacity, events + later), r) {
        HopelessForever(capacity, events, later, r);
      }
    }
  }

  /** So an error tells the caller that its transaction is out for good exactly when it was
      neither admitted nor stamped at that moment. */
  lemma ErrorMeansOutIff(capacity: nat, events: seq<Event>, r: RequestId)
    requires r < |Run(capacity, events).reqs|
    requires var phase := Run(capacity, events).reqs[r].phase; phase.Returned? && phase.reply.Refused?
    ensures (forall later :: !IsAdmitted(Run(capacity, events + later), r)) <==>
            !IsAdmitted(Run(capacity, events), r) && !InHand(Run(capacity, events), r)
  {
    RunExplains(capacity, events);
    LateAdmissionIff(capacity, events, r);
  }

  // ------------------------------------------------------------------ shutdown

  /** In every interleaving no channel is closed twice or sent on after closing, the
      goroutine's reply always finds room, and the ID counter is accounted for: admitted,
      given up after stamping, or in hand. */
  lemma NeverPanicsOrBlocks(capacity: nat, events: seq<Event>)
    ensures var s := Run(capacity, events);
            && !s.panicked && (s.chClosed <==> s.loop.Exited?)
            && (s.loop.Replying? ==> LoopEnabled(s, Answer))
            && s.nextID == |s.drained + s.ch| + s.abandoned + if s.loop.Stamped? then 1 else 0
  {
    RunKeepsInv(capacity, events);
  }

  /** What holds of a run and is kept by each further event holds of every longer run. */
  lemma {:induction false} HoldsLater(holds: seq<Event> -> bool, events: seq<Event>, later: seq<Event>)
    requires holds(events)
    requires forall es, e :: holds(es) ==> holds(es + [e])
    ensures holds(events + later)
    decreases |later|
  {
    if later == [] {
      assert events + later == events;
    } else {
      var n := |later| - 1;
      HoldsLater(holds, events, later[..n]);
      assert events + later == events + later[..n] + [later[n]];
    }
  }

  lemma RunNext(capacity: nat, events: seq<Event>, e: Event)
    ensures Run(capacity, events + [e]) == Step(Run(capacity, events), e)
  {
    assert (events + [e])[..|events + [e]| - 1] == events;
  }

  lemma ClientStaysClosed(s: Queue, r: RequestId, c: ClientEvent)
    requires ClientEnabled(s, r, c)
    ensures ClientNext(s, r, c).done == s.done
  {
  }

  lemma LoopStaysClosed(s: Queue, l: LoopEvent)
    requires LoopEnabled(s, l)
    ensures LoopNext(s, l).done == s.done
  {
  }

  lemma StepStaysClosed(s: Queue, e: Event)
    requires s.done
    ensures Step(s, e).done && |Step(s, e).reqs| >= |s.reqs|
  {
    if !e.Submit? {
      StepKeepsPayloads(s, e);
    }
    if e.Client? && ClientEnabled(s, e.r, e.c) {
      ClientStaysClosed(s, e.r, e.c);
    } else if e.Admission? && LoopEnabled(s, e.l) {
      LoopStaysClosed(s, e.l);
    }
  }

  ghost predicate ClosedWith(s: Queue, requests: nat) {
    s.done && |s.reqs| >= requests
  }

  /** Close is for good, and no request is forgotten. */
  lemma StaysClosed(capacity: nat, events: seq<Event>, later: seq<Event>)
    requires Run(capacity, events).done
    ensures ClosedWith(Run(capacity, events + later), |Run(capacity, events).reqs|)
  {
    var requests := |Run(capacity, events).reqs|;
    forall es, e | ClosedWith(Run(capacity, es), requests) ensures ClosedWith(Run(capacity, es + [e]), requests) {
      RunNext(capacity, es, e);
      StepStaysClosed(Run(capacity, es), e);
    }
    HoldsLater(es => ClosedWith(Run(capacity, es), requests), events, later);
  }

  /** After close, whatever else happens meanwhile, every caller that has not returned can
      return at once -- also one whose request enters `submitCh` after the goroutine left. */
  lemma NoSubmitterStaysBlocked(capacity: nat, events: seq<Event>, later: seq<Event>, r: RequestId)
    requires Run(capacity, events).done && r < |Run(capacity, events).reqs|
    ensures var s := Run(capacity, events + later);
            && r < |s.reqs|
            && (s.reqs[r].phase.Returned? ||
                Step(s, Client(r, SeeClosed)).reqs[r].phase == Returned(Refused(QueueClosed)))
  {
    StaysClosed(capacity, events, later);
  }

  /** An upper bound on what the goroutine still does after close. */
  ghost function Remaining(s: Queue): nat {
    3 * |s.submitCh| +
    match s.loop
    case Exited => 0
    case Closing => 1
    case Rejecting => 2
    case Idle => 3
    case Replying(_, _, _) => 4
    case Holding(_) => 5
    case Stamped(_, _) => 5
  }

  /** How often the goroutine has moved in a run. */
  ghost function Moves(capacity: nat, events: seq<Event>): nat {
    if events == [] then 0 else
    var n := |events| - 1;
    var e := events[n];
    Moves(capacity, events[..n]) +
    if e.Admission? && LoopEnabled(Run(capacity, events[..n]), e.l) then 1 else 0
  }

  lemma MovesNext(capacity: nat, events: seq<Event>, e: Event)
    ensures Moves(capacity, events + [e]) == Moves(capacity, events) +
            if e.Admission? && LoopEnabled(Run(capacity, events), e.l) then 1 else 0
  {
    assert (events + [e])[..|events + [e]| - 1] == events;
  }

  /** Moves made and still to come, less three for each request that entered. */
  ghost function Budget(capacity: nat, events: seq<Event>): int {
    Moves(capacity, events) + Remaining(Run(capacity, events)) - 3 * |Run(capacity, events).entered|
  }

  ghost predicate ClosedWithin(capacity: nat, events: seq<Event>, bound: int) {
    Run(capacity, events).done && Budget(capacity, events) <= bound
  }

  lemma BudgetNext(capacity: nat, events: seq<Event>, e: Event, bound: int)
    requires ClosedWithin(capacity, events, bound)
    ensures ClosedWithin(capacity, events + [e], bound)
  {
    var s := Run(capacity, events);
    RunKeepsInv(capacity, events);
    RunNext(capacity, events, e);
    MovesNext(capacity, events, e);
    StepStaysClosed(s, e);
    StepBudget(s, e);
  }

  /** Over any run after close, each move of the goroutine uses up some of `Remaining`, and
      each late request adds three at most. */
  lemma CloseBudget(capacity: nat, events: seq<Event>, later: seq<Event>)
    requires Run(capacity, events).done
    ensures ClosedWithin(capacity, events + later, Budget(capacity, events))
  {
    var bound := Budget(capacity, events);
    forall es, e | ClosedWithin(capacity, es, bound) ensures ClosedWithin(capacity, es + [e], bound) {
      BudgetNext(capacity, es, e, bound);
    }
    HoldsLater(es => ClosedWithin(capacity, es, bound), events, later);
  }

  lemma StepBudget(s: Queue, e: Event)
    requires Inv(s) && s.done
    ensures Remaining(Step(s, e)) + 3 * |s.entered| + (if e.Admission? && LoopEnabled(s, e.l) then 1 else 0)
            <= Remaining(s) + 3 * |Step(s, e).entered|
  {
    if e.Client? && ClientEnabled(s, e.r, e.c) {
      ClientBudget(s, e.r, e.c);
    } else if e.Admission? && LoopEnabled(s, e.l) {
      CloseCountsDown(s, e.l);
    } else if e.Drain? && DrainEnabled(s, e.d, e.e) {
      DrainIsQuiet(s, e.d, e.e);
    }
  }

  lemma ClientBudget(s: Queue, r: RequestId, c: ClientEvent)
    requires ClientEnabled(s, r, c)
    ensures Remaining(ClientNext(s, r, c)) + 3 * |s.entered| <= Remaining(s) + 3 * |ClientNext(s, r, c).entered|
  {
  }

  /** After close the goroutine always has a move until it has exited, and however its moves
      are interleaved with callers and drainers there are at most five of them, and three
      more for each request that was waiting or came late. */
  lemma CloseTerminates(capacity: nat, events: seq<Event>, later: seq<Event>)
    requires Run(capacity, events).done
    ensures var s, t := Run(capacity, events), Run(capacity, events + later);
            && (t.loop.Exited? || exists l :: LoopEnabled(t, l))
            && Moves(capacity, events + later) - Moves(capacity, events)
               <= 5 + 3 * (|s.submitCh| + |t.entered| - |s.entered|)
  {
    CloseBudget(capacity, events, later);
    RunKeepsInv(capacity, events + later);
    CloseProgress(Run(capacity, events + later));
  }

  lemma CloseProgress(s: Queue)
    requires Inv(s) && s.done
    ensures s.loop.Exited? || exists l :: LoopEnabled(s, l)
  {
    match s.loop
    case Idle => assert LoopEnabled(s, SeeDone);
    case Holding(_) => assert LoopEnabled(s, DropClosed);
    case Stamped(_, _) => assert LoopEnabled(s, AbandonClosed);
    case Replying(_, _, _) => assert LoopEnabled(s, Answer);
    case Rejecting => assert LoopEnabled(s, RejectNext) || LoopEnabled(s, RejectDone);
    case Closing => assert LoopEnabled(s, CloseCh);
    case Exited =>
  }

  lemma CloseCountsDown(s: Queue, l: LoopEvent)
    requires ShutsDownOnce(s) && s.done && LoopEnabled(s, l)
    ensures Remaining(LoopNext(s, l)) < Remaining(s) && LoopNext(s, l).entered == s.entered
  {
  }

  lemma ClientAdmitsNothing(s: Queue, r: RequestId, c: ClientEvent)
    requires ClientEnabled(s, r, c)
    ensures ClientNext(s, r, c).ch == s.ch && ClientNext(s, r, c).drained == s.drained
    ensures s.loop.Exited? ==> ClientNext(s, r, c).loop.Exited?
  {
  }

  lemma DrainAdmitsNothing(s: Queue, d: DrainerId, e: DrainEvent)
    requires DrainEnabled(s, d, e)
    ensures Admitted(DrainNext(s, d, e)) == Admitted(s)
  {
    if e.Receive? {
      assert [s.ch[0]] + s.ch[1..] == s.ch;
    }
  }

  lemma ClosedAdmitsNothing(s: Queue, e: Event)
    requires s.loop.Exited?
    ensures Step(s, e).loop.Exited? && Admitted(Step(s, e)) == Admitted(s)
  {
    if e.Client? && ClientEnabled(s, e.r, e.c) {
      ClientAdmitsNothing(s, e.r, e.c);
    } else if e.Drain? && DrainEnabled(s, e.d, e.e) {
      DrainAdmitsNothing(s, e.d, e.e);
    }
  }

  ghost predicate ExitedWith(s: Queue, admitted: seq<Tx>) {
    s.loop.Exited? && Admitted(s) == admitted
  }

  lemma ExitedAdmitsNothing(capacity: nat, events: seq<Event>, later: seq<Event>)
    requires Run(capacity, events).loop.Exited?
    ensures ExitedWith(Run(capacity, events + later), Admitted(Run(capacity, events)))
  {
    var admitted := Admitted(Run(capacity, events));
    forall es, e | ExitedWith(Run(capacity, es), admitted) ensures ExitedWith(Run(capacity, es + [e]), admitted) {
      RunNext(capacity, es, e);
      ClosedAdmitsNothing(Run(capacity, es), e);
    }
    HoldsLater(es => ExitedWith(Run(capacity, es), admitted), events, later);
  }

  /** A drainer that was told the queue is closed missed nothing: every transaction ever
      admitted had been drained, and none is admitted in any run from there. */
  lemma ClosedMeansDrained(capacity: nat, events: seq<Event>, d: DrainerId, later: seq<Event>)
    requires d < |Run(capacity, events).drainers| && Run(capacity, events).drainers[d].outcome.Closed?
    ensures Run(capacity, events).ch == []
    ensures Admitted(Run(capacity, events + later)) == Run(capacity, events).drained
  {
    RunKeepsInv(capacity, events);
    ExitedAdmitsNothing(capacity, events, later);
  }

  lemma {:induction false} ReceivedIsOrdered(txs: seq<Tx>, owners: seq<DrainerId>, d: DrainerId, bound: nat)
    requires |txs| == |owners| && IncreasingIds(txs) && forall i :: 0 <= i < |txs| ==> txs[i].id < bound
    ensures IncreasingIds(ReceivedBy(txs, owners, d))
    ensures forall i :: 0 <= i < |ReceivedBy(txs, owners, d)| ==> ReceivedBy(txs, owners, d)[i].id < bound
    decreases |txs|
  {
    if txs != [] {
      var n := |txs| - 1;
      ReceivedIsOrdered(txs[..n], owners[..n], d, txs[n].id);
    }
  }

  /** Every drained transaction went to exactly one drainer; each drainer holds its share
      in ID order, and one that finished without an error holds exactly what it asked for. */
  lemma DrainersShareInOrder(capacity: nat, events: seq<Event>, d: DrainerId)
    requires d < |Run(capacity, events).drainers|
    ensures var s := Run(capacity, events);
            && |s.drained| == |s.drainedBy|
            && s.drainers[d].batch == ReceivedBy(s.drained, s.drainedBy, d)
            && IncreasingIds(s.drainers[d].batch)
            && (s.drainers[d].outcome.Full? ==> |s.drainers[d].batch| == s.drainers[d].want)
  {
    RunKeepsInv(capacity, events);
    var s := Run(capacity, events);
    assert forall i :: 0 <= i < |s.drained| ==> Admitted(s)[i] == s.drained[i];
    ReceivedIsOrdered(s.drained, s.drainedBy, d, s.nextID + 1);
  }
}

/** The single-node admission queue as a labelled transition system: any number of
    submitters and drainers, one admission goroutine, cancellation at any moment and
    close.  Each event is one channel operation or one branch of a `select`. */
module AdmissionQueue {
  import opened Transactions

  type RequestId = nat
  type DrainerId = nat

  datatype Error = QueueClosed | ContextDone

  datatype Reply = Receipt(tx: Tx) | Refused(err: Error)

  /** A call of SubmitWithReceipt: at its first select, at its second, or returned. */
  datatype Phase = Sending | Waiting | Returned(reply: Reply)

  /** `buffer` is the caller's slice, which it may overwrite; `payload` is the queue's
      copy; `resp` is the response channel, of capacity one. */
  datatype Request = Request(buffer: Bytes, payload: Bytes, cancelled: bool, phase: Phase, resp: seq<Reply>)

  /** Where the admission goroutine stands. */
  datatype Loop =
    | Idle
    | Holding(r: RequestId)
    | Stamped(r: RequestId, tx: Tx)
    | Replying(r: RequestId, reply: Reply, shutdown: bool)
    | Rejecting
    | Closing
    | Exited

  datatype Outcome = Running | Full | Empty | Cancelled | Closed

  /** A call of Drain (not blocking) or DrainWait (blocking). */
  datatype Drainer = Drainer(want: nat, blocking: bool, cancelled: bool, batch: seq<Tx>, outcome: Outcome)

  /** The queue and its callers.  The last six fields are history: the order in which
      requests entered `submitCh`, how many of those were taken out, which were answered,
      the place of each admitted transaction in that order, what was drained and by whom,
      and how many stamped transactions were given up. */
  datatype Queue = Queue(
    capacity: nat, reqs: seq<Request>, submitCh: seq<RequestId>, ch: seq<Tx>, chClosed: bool,
    done: bool, nextID: nat, loop: Loop, drainers: seq<Drainer>, panicked: bool,
    entered: seq<RequestId>, taken: nat, answered: set<RequestId>, places: seq<nat>,
    drained: seq<Tx>, drainedBy: seq<DrainerId>, abandoned: nat)

  function NewTxQueue(capacity: nat): Queue {
    Queue(capacity, [], [], [], false, false, 0, Idle, [], false, [], 0, {}, [], [], [], 0)
  }

  datatype ClientEvent =
    | Overwrite(buffer: Bytes)     // the caller reuses its slice
    | Cancel                       // the caller's context ends
    | Enter                        // line 112, buffered
    | HandOver                     // line 112 meeting line 195 or 244 on an empty channel
    | GiveUp                       // lines 115 and 125
    | SeeClosed                    // lines 113 and 123
    | TakeReply                    // line 121

  datatype LoopEvent =
    | SeeDone                      // line 189
    | Take                         // line 195
    | DropCancelled                // line 199
    | DropClosed                   // line 202
    | Stamp(now: int)              // lines 211-216
    | Send                         // line 224, buffered
    | SendTo(d: DrainerId)         // line 224 meeting a receive on an empty channel
    | AbandonCancelled             // line 226
    | AbandonClosed                // line 228
    | Answer                       // the send on `resp`
    | RejectNext                   // line 244
    | RejectDone                   // line 246
    | CloseCh                      // lines 192, 205, 231

  datatype DrainEvent =
    | CancelDrain
    | Receive                      // lines 139 and 162
    | SeeChClosed                  // lines 140 and 163
    | SeeNothing                   // line 144
    | SeeCancelled                 // line 167
    | Finish                       // lines 149 and 171

  datatype Event =
    | Submit(data: Bytes)
    | Client(r: RequestId, c: ClientEvent)
    | Admission(l: LoopEvent)
    | StartDrain(want: nat, blocking: bool)
    | Drain(d: DrainerId, e: DrainEvent)
    | Close

  // --------------------------------------------------------- the transitions

  predicate ReadyToReceive(s: Queue) {
    s.loop.Idle? || s.loop.Rejecting?
  }

  predicate Collecting(s: Queue, d: DrainerId) {
    d < |s.drainers| && s.drainers[d].outcome.Running? && |s.drainers[d].batch| < s.drainers[d].want
  }

  predicate ClientEnabled(s: Queue, r: RequestId, c: ClientEvent) {
    && r < |s.reqs|
    && var q := s.reqs[r];
    match c
    case Overwrite(_) => true
    case Cancel => true
    case Enter => q.phase.Sending? && |s.submitCh| < s.capacity
    case HandOver => q.phase.Sending? && s.submitCh == [] && ReadyToReceive(s)
    case GiveUp => !q.phase.Returned? && q.cancelled
    case SeeClosed => !q.phase.Returned? && s.done
    case TakeReply => q.phase.Waiting? && q.resp != []
  }

  function SetReq(s: Queue, r: RequestId, q: Request): Queue
    requires r < |s.reqs|
  {
    s.(reqs := s.reqs[r := q])
  }

  /** A request enters `submitCh`. */
  function EnterCh(s: Queue, r: RequestId): Queue
    requires r < |s.reqs|
  {
    SetReq(s, r, s.reqs[r].(phase := Waiting)).(submitCh := s.submitCh + [r], entered := s.entered + [r])
  }

  /** The goroutine takes the oldest request out of `submitCh`. */
  function TakeOldest(s: Queue): Queue
    requires s.submitCh != [] && ReadyToReceive(s)
  {
    var r := s.submitCh[0];
    s.(submitCh := s.submitCh[1..], taken := s.taken + 1,
       loop := if s.loop.Idle? then Holding(r) else Replying(r, Refused(QueueClosed), true))
  }

  function ClientNext(s: Queue, r: RequestId, c: ClientEvent): Queue
    requires ClientEnabled(s, r, c)
  {
    var q := s.reqs[r];
    match c
    case Overwrite(buffer) => SetReq(s, r, q.(buffer := buffer))
    case Cancel => SetReq(s, r, q.(cancelled := true))
    case Enter => EnterCh(s, r)
    case HandOver => TakeOldest(EnterCh(s, r))
    case GiveUp => SetReq(s, r, q.(phase := Returned(Refused(ContextDone))))
    case SeeClosed => SetReq(s, r, q.(phase := Returned(Refused(QueueClosed))))
    case TakeReply => SetReq(s, r, q.(phase := Returned(q.resp[0]), resp := q.resp[1..]))
  }

  predicate LoopEnabled(s: Queue, l: LoopEvent) {
    match l
    case SeeDone => s.loop.Idle? && s.done
    case Take => s.loop.Idle? && s.submitCh != []
    case DropCancelled => s.loop.Holding? && s.loop.r < |s.reqs| && s.reqs[s.loop.r].cancelled
    case DropClosed => s.loop.Holding? && s.done
    case Stamp(_) => s.loop.Holding? && s.loop.r < |s.reqs| && !s.reqs[s.loop.r].cancelled && !s.done
    case Send => s.loop.Stamped? && |s.ch| < s.capacity
    case SendTo(d) => s.loop.Stamped? && s.ch == [] && Collecting(s, d)
    case AbandonCancelled => s.loop.Stamped? && s.loop.r < |s.reqs| && s.reqs[s.loop.r].cancelled
    case AbandonClosed => s.loop.Stamped? && s.done
    case Answer => s.loop.Replying? && s.loop.r < |s.reqs| && s.reqs[s.loop.r].resp == []
    case RejectNext => s.loop.Rejecting? && s.submitCh != []
    case RejectDone => s.loop.Rejecting? && s.submitCh == []
    case CloseCh => s.loop.Closing?
  }

  /** Sending on a closed channel panics. */
  function SendCh(s: Queue): Queue
    requires s.loop.Stamped?
  {
    if s.chClosed then s.(panicked := true) else
    s.(ch := s.ch + [s.loop.tx], places := s.places + [if s.taken > 0 then s.taken - 1 else 0],
       loop := Replying(s.loop.r, Receipt(s.loop.tx), false))
  }

  function Abandon(s: Queue, err: Error, shutdown: bool): Queue
    requires s.loop.Stamped?
  {
    s.(abandoned := s.abandoned + 1, loop := Replying(s.loop.r, Refused(err), shutdown))
  }

  function LoopNext(s: Queue, l: LoopEvent): Queue
    requires LoopEnabled(s, l)
  {
    match l
    case SeeDone => s.(loop := Rejecting)
    case Take => TakeOldest(s)
    case DropCancelled => s.(loop := Replying(s.loop.r, Refused(ContextDone), false))
    case DropClosed => s.(loop := Replying(s.loop.r, Refused(QueueClosed), true))
    case Stamp(now) =>
      s.(nextID := s.nextID + 1, loop := Stamped(s.loop.r, Tx(s.nextID + 1, now, s.reqs[s.loop.r].payload)))
    case Send => SendCh(s)
    case SendTo(d) => if s.chClosed then s.(panicked := true) else ReceiveCh(SendCh(s), d)
    case AbandonCancelled => Abandon(s, ContextDone, false)
    case AbandonClosed => Abandon(s, QueueClosed, true)
    case Answer =>
      SetReq(s, s.loop.r, s.reqs[s.loop.r].(resp := [s.loop.reply]))
      .(answered := s.answered + {s.loop.r}, loop := if s.loop.shutdown then Rejecting else Idle)
    case RejectNext => TakeOldest(s)
    case RejectDone => s.(loop := Closing)
    case CloseCh => s.(panicked := s.panicked || s.chClosed, chClosed := true, loop := Exited)
  }

  predicate DrainEnabled(s: Queue, d: DrainerId, e: DrainEvent) {
    && d < |s.drainers|
    && var w := s.drainers[d];
    match e
    case CancelDrain => true
    case Receive => Collecting(s, d) && s.ch != []
    case SeeChClosed => Collecting(s, d) && s.ch == [] && s.chClosed
    case SeeNothing => Collecting(s, d) && s.ch == [] && !s.chClosed && !w.blocking
    case SeeCancelled => Collecting(s, d) && w.blocking && w.cancelled
    case Finish => w.outcome.Running? && |w.batch| >= w.want
  }

  function SetDrainer(s: Queue, d: DrainerId, w: Drainer): Queue
    requires d < |s.drainers|
  {
    s.(drainers := s.drainers[d := w])
  }

  /** A drainer takes the oldest transaction out of `ch`. */
  function ReceiveCh(s: Queue, d: DrainerId): Queue
    requires d < |s.drainers| && s.ch != []
  {
    SetDrainer(s, d, s.drainers[d].(batch := s.drainers[d].batch + [s.ch[0]]))
    .(ch := s.ch[1..], drained := s.drained + [s.ch[0]], drainedBy := s.drainedBy + [d])
  }

  function DrainNext(s: Queue, d: DrainerId, e: DrainEvent): Queue
    requires DrainEnabled(s, d, e)
  {
    var w := s.drainers[d];
    match e
    case CancelDrain => SetDrainer(s, d, w.(cancelled := true))
    case Receive => ReceiveCh(s, d)
    case SeeChClosed => SetDrainer(s, d, w.(outcome := Closed))
    case SeeNothing => SetDrainer(s, d, w.(outcome := Empty))
    case SeeCancelled => SetDrainer(s, d, w.(outcome := Cancelled))
    case Finish => SetDrainer(s, d, w.(outcome := Full))
  }

  /** One event; an event that is not enabled does nothing. */
  function Step(s: Queue, e: Event): Queue {
    match e
    case Submit(data) => s.(reqs := s.reqs + [Request(data, data, false, Sending, [])])
    case Client(r, c) => if ClientEnabled(s, r, c) then ClientNext(s, r, c) else s
    case Admission(l) => if LoopEnabled(s, l) then LoopNext(s, l) else s
    case StartDrain(want, blocking) =>
      s.(drainers := s.drainers + [Drainer(want, blocking, false, [], Running)])
    case Drain(d, e) => if DrainEnabled(s, d, e) then DrainNext(s, d, e) else s
    case Close => s.(done := true)
  }

  // ----------------------------------------------------------- the invariant

  /** Every transaction that ever went into `ch`, in order. */
  ghost function Admitted(s: Queue): seq<Tx> {
    s.drained + s.ch
  }

  predicate Occupied(s: Queue) {
    s.loop.Holding? || s.loop.Stamped? || s.loop.Replying?
  }

  /** Requests enter once, leave in the order they entered, and are answered once, in
      that order; only the one in the goroutine's hand is taken and not yet answered. */
  ghost predicate RequestsInOrder(s: Queue) {
    && s.taken <= |s.entered| && s.submitCh == s.entered[s.taken..]
    && (forall i :: 0 <= i < |s.entered| ==> s.entered[i] < |s.reqs| && !s.reqs[s.entered[i]].phase.Sending?)
    && (forall i, j :: 0 <= i < j < |s.entered| ==> s.entered[i] != s.entered[j])
    && (Occupied(s) ==> s.taken > 0 && s.entered[s.taken - 1] == s.loop.r && s.loop.r !in s.answered)
    && (forall r :: r in s.answered ==> r in s.entered[..s.taken])
    && (forall r :: 0 <= r < |s.reqs| && s.reqs[r].resp != [] ==> r in s.answered)
  }

  /** Admitted transactions sit at increasing places of the entry order, with increasing
      IDs and the payload of the request found there. */
  ghost predicate AdmittedInOrder(s: Queue) {
    var txs := Admitted(s);
    && |s.places| == |txs| && Increasing(s.places) && IncreasingIds(txs)
    && s.taken <= |s.entered|
    && (forall i :: 0 <= i < |txs| ==>
          && s.places[i] < s.taken && s.entered[s.places[i]] < |s.reqs|
          && txs[i].id <= s.nextID
          && txs[i].ciphertext == s.reqs[s.entered[s.places[i]]].payload)
    && (s.loop.Stamped? ==> s.loop.tx.id == s.nextID && s.loop.r < |s.reqs| &&
                            s.loop.tx.ciphertext == s.reqs[s.loop.r].payload &&
                            forall i :: 0 <= i < |txs| ==> txs[i].id < s.nextID)
    && (s.loop.Holding? || s.loop.Stamped? || (s.loop.Replying? && s.loop.reply.Refused?) ==>
          forall i :: 0 <= i < |txs| ==> s.places[i] < s.taken - 1)
    && s.nextID == |txs| + s.abandoned + if s.loop.Stamped? then 1 else 0
  }

  /** `tx` is the transaction admitted for request `r`. */
  ghost predicate AdmittedFor(s: Queue, r: RequestId, tx: Tx) {
    exists i :: 0 <= i < |Admitted(s)| && i < |s.places| && s.places[i] < |s.entered| &&
                Admitted(s)[i] == tx && s.entered[s.places[i]] == r
  }

  ghost predicate Justified(s: Queue, r: RequestId, reply: Reply) {
    reply.Receipt? ==> AdmittedFor(s, r, reply.tx)
  }

  ghost predicate ReceiptsJustified(s: Queue) {
    && (forall r, k :: 0 <= r < |s.reqs| && 0 <= k < |s.reqs[r].resp| ==> Justified(s, r, s.reqs[r].resp[k]))
    && (forall r :: 0 <= r < |s.reqs| && s.reqs[r].phase.Returned? ==> Justified(s, r, s.reqs[r].phase.reply))
    && (s.loop.Replying? ==> Justified(s, s.loop.r, s.loop.reply))
  }

  /** The transactions that one drainer received, in order. */
  ghost function ReceivedBy(txs: seq<Tx>, owners: seq<DrainerId>, d: DrainerId): seq<Tx>
    requires |txs| == |owners|
  {
    if txs == [] then [] else
    var n := |txs| - 1;
    ReceivedBy(txs[..n], owners[..n], d) + if owners[n] == d then [txs[n]] else []
  }

  ghost predicate DrainersExact(s: Queue) {
    && |s.drained| == |s.drainedBy|
    && (forall k :: 0 <= k < |s.drainedBy| ==> s.drainedBy[k] < |s.drainers|)
    && (forall d :: 0 <= d < |s.drainers| ==>
          && s.drainers[d].batch == ReceivedBy(s.drained, s.drainedBy, d)
          && |s.drainers[d].batch| <= s.drainers[d].want
          && (s.drainers[d].outcome.Full? ==> |s.drainers[d].batch| == s.drainers[d].want)
          && (s.drainers[d].outcome.Closed? ==> s.chClosed && s.ch == []))
  }

  ghost predicate ShutsDownOnce(s: Queue) {
    && !s.panicked
    && (s.chClosed <==> s.loop.Exited?)
    && (s.loop.Rejecting? || s.loop.Closing? || s.loop.Exited? || (s.loop.Replying? && s.loop.shutdown) ==> s.done)
  }

  ghost predicate Inv(s: Queue) {
    RequestsInOrder(s) && AdmittedInOrder(s) && ReceiptsJustified(s) && DrainersExact(s) && ShutsDownOnce(s)
  }
}

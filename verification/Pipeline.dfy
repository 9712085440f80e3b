/** One node's path from the agreed Raft log to its batch commitments: FSM, committed
    channel, collector, mempool and batch loop, each running at its own pace. */
module Pipeline {
  import opened Transactions

  const BATCH_SIZE := 1000

  /** What the FSM makes of an entry's bytes. */
  datatype Decoded = Malformed | Proposal(submittedAt: int, ciphertext: Bytes)

  datatype Entry = Entry(index: nat, data: Decoded)

  /** The well-formed entries of a log, in order, as transactions. */
  ghost function Txs(log: seq<Entry>): seq<Tx> {
    if log == [] then [] else
    var e := log[|log| - 1];
    Txs(log[..|log| - 1]) + if e.data.Malformed? then [] else [TxOf(e)]
  }

  function TxOf(e: Entry): Tx
    requires e.data.Proposal?
  {
    Tx(e.index, e.data.submittedAt, e.data.ciphertext)
  }

  /** The reference: cut a list of transactions into full batches; a rest stays. */
  ghost function Cut(txs: seq<Tx>): seq<seq<Tx>> {
    if |txs| < BATCH_SIZE then [] else [txs[..BATCH_SIZE]] + Cut(txs[BATCH_SIZE..])
  }

  datatype Fsm = Ready | Delivering(tx: Tx)

  /** In DrainWait with what it has collected, in the loop that adds, or returned. */
  datatype Collector = Draining(batch: seq<Tx>) | Adding(rest: seq<Tx>) | CollectorStopped

  /** At the shutdown check, about to lock the mempool, asleep between polls, with a full
      batch, or returned. */
  datatype Batcher = Top | Polling | Asleep | Holding(batch: seq<Tx>) | BatcherStopped

  /** `lost`, `discarded` and `kept` are history: what a failing DrainWait dropped, what the
      FSM threw away after close, and for each well-formed entry whether it was delivered. */
  datatype Node = Node(
    applied: nat, fsm: Fsm, committed: seq<Tx>, buffer: nat, collector: Collector, mempool: seq<Tx>,
    batcher: Batcher, batches: seq<seq<Tx>>, cancelled: bool, closed: bool,
    lost: seq<Tx>, discarded: seq<Tx>, kept: seq<bool>)

  function Start(buffer: nat): Node {
    Node(0, Ready, [], buffer, Draining([]), [], Top, [], false, false, [], [], [])
  }

  datatype Event =
    | ApplyEntry         // raft_log.go 362-372
    | Deliver            // raft_log.go 377
    | Discard            // raft_log.go 378
    | Receive            // raft_log.go 320
    | ReturnBatch        // raft_log.go 328
    | Fail               // raft_log.go 322-325, main.go 298-300
    | AddNext            // main.go 302-304
    | CheckShutdown      // main.go 318-322
    | Poll               // encrypted_mempool.go 64-80
    | Tick               // encrypted_mempool.go 85
    | SeeCancel          // encrypted_mempool.go 83, main.go 326
    | CommitBatch        // main.go 339-377
    | CancelContext      // main.go 449
    | CloseLog           // raft_log.go 336

  predicate Enabled(log: seq<Entry>, n: Node, e: Event) {
    match e
    case ApplyEntry => n.fsm.Ready? && n.applied < |log|
    case Deliver => n.fsm.Delivering? && |n.committed| < n.buffer
    case Discard => n.fsm.Delivering? && n.closed
    case Receive => n.collector.Draining? && |n.collector.batch| < 1 && n.committed != []
    case ReturnBatch => n.collector.Draining? && |n.collector.batch| >= 1
    case Fail => n.collector.Draining? && |n.collector.batch| < 1 && (n.cancelled || n.closed)
    case AddNext => n.collector.Adding?
    case CheckShutdown => n.batcher.Top?
    case Poll => n.batcher.Polling?
    case Tick => n.batcher.Asleep?
    case SeeCancel => n.batcher.Asleep? && n.cancelled
    case CommitBatch => n.batcher.Holding?
    case CancelContext => true
    case CloseLog => true
  }

  function Next(log: seq<Entry>, n: Node, e: Event): Node
    requires Enabled(log, n, e)
  {
    match e
    case ApplyEntry =>
      var x := log[n.applied];
      n.(applied := n.applied + 1, fsm := if x.data.Malformed? then Ready else Delivering(TxOf(x)))
    case Deliver => n.(committed := n.committed + [n.fsm.tx], kept := n.kept + [true], fsm := Ready)
    case Discard => n.(discarded := n.discarded + [n.fsm.tx], kept := n.kept + [false], fsm := Ready)
    case Receive =>
      n.(collector := Draining(n.collector.batch + [n.committed[0]]), committed := n.committed[1..])
    case ReturnBatch => n.(collector := Adding(n.collector.batch))
    case Fail => n.(collector := CollectorStopped, lost := n.lost + n.collector.batch)
    case AddNext =>
      if n.collector.rest == [] then n.(collector := Draining([]))
      else n.(mempool := n.mempool + [n.collector.rest[0]], collector := Adding(n.collector.rest[1..]))
    case CheckShutdown => n.(batcher := if n.cancelled then BatcherStopped else Polling)
    case Poll =>
      if |n.mempool| >= BATCH_SIZE then
        n.(batcher := Holding(n.mempool[..BATCH_SIZE]), mempool := n.mempool[BATCH_SIZE..])
      else n.(batcher := Asleep)
    case Tick => n.(batcher := Polling)
    case SeeCancel => n.(batcher := Top)
    case CommitBatch => n.(batches := n.batches + [n.batcher.batch], batcher := Top)
    case CancelContext => n.(cancelled := true)
    case CloseLog => n.(closed := true)
  }

  /** One event; an event that is not enabled does nothing. */
  function Step(log: seq<Entry>, n: Node, e: Event): Node {
    if Enabled(log, n, e) then Next(log, n, e) else n
  }

  ghost function Run(log: seq<Entry>, buffer: nat, events: seq<Event>): Node {
    if events == [] then Start(buffer) else
    Step(log, Run(log, buffer, events[..|events| - 1]), events[|events| - 1])
  }

  // ----------------------------------------------------------- the invariant

  function FsmHand(n: Node): seq<Tx> {
    if n.fsm.Delivering? then [n.fsm.tx] else []
  }

  function CollectorHand(n: Node): seq<Tx> {
    match n.collector
    case Draining(batch) => batch
    case Adding(rest) => rest
    case CollectorStopped => []
  }

  function BatcherHand(n: Node): seq<Tx> {
    if n.batcher.Holding? then n.batcher.batch else []
  }

  /** Everything from the commitments back to the committed channel, in order. */
  ghost function Downstream(n: Node): seq<Tx> {
    Flatten(n.batches) + (BatcherHand(n) + (n.mempool + (CollectorHand(n) + n.committed)))
  }

  /** Everything between the log and the commitments, in order. */
  ghost function Flow(n: Node): seq<Tx> {
    Downstream(n) + FsmHand(n)
  }

  /** The transactions marked `mark`, in order. */
  ghost function Marked(txs: seq<Tx>, marks: seq<bool>, mark: bool): seq<Tx>
    requires |txs| == |marks|
  {
    if txs == [] then [] else
    var k := |txs| - 1;
    Marked(txs[..k], marks[..k], mark) + if marks[k] == mark then [txs[k]] else []
  }

  lemma MarkedSnoc(txs: seq<Tx>, marks: seq<bool>, mark: bool, tx: Tx, m: bool)
    requires |txs| == |marks|
    ensures Marked(txs + [tx], marks + [m], mark) == Marked(txs, marks, mark) + if m == mark then [tx] else []
  {
    assert (txs + [tx])[..|txs|] == txs && (marks + [m])[..|marks|] == marks;
  }

  /** The FSM has decided on every applied transaction but the one in its hand; those it
      delivered are downstream and those it threw away are the discarded ones. */
  ghost predicate Decided(txs: seq<Tx>, n: Node) {
    && |txs| == |n.kept| + |FsmHand(n)| && txs == txs[..|n.kept|] + FsmHand(n)
    && Downstream(n) == Marked(txs[..|n.kept|], n.kept, true)
    && n.discarded == Marked(txs[..|n.kept|], n.kept, false)
  }

  ghost predicate Inv(log: seq<Entry>, n: Node) {
    && n.applied <= |log|
    && (forall k :: 0 <= k < |n.batches| ==> |n.batches[k]| == BATCH_SIZE)
    && (n.batcher.Holding? ==> |n.batcher.batch| == BATCH_SIZE)
    && n.lost == []
    && (n.collector.CollectorStopped? ==> n.cancelled || n.closed)
    && (!n.closed ==> n.discarded == [])
    && Decided(Txs(log[..n.applied]), n)
  }

  lemma TxsSnoc(log: seq<Entry>, k: nat)
    requires k < |log|
    ensures Txs(log[..k + 1]) == Txs(log[..k]) + if log[k].data.Malformed? then [] else [TxOf(log[k])]
  {
    assert log[..k + 1][..k] == log[..k];
  }

  /** Moving the boundary between two neighbouring stages. */
  lemma Shift<T>(a: seq<T>, b: seq<T>, c: seq<T>, d: seq<T>, rest: seq<T>)
    requires a + b == c + d
    ensures a + (b + rest) == c + (d + rest)
  {
    assert a + (b + rest) == a + b + rest;
    assert c + (d + rest) == c + d + rest;
  }

  lemma DownstreamEnd(n: Node, tx: Tx)
    ensures Downstream(n.(committed := n.committed + [tx])) == Downstream(n) + [tx]
  {
    Append(CollectorHand(n), n.committed, tx);
    Append(n.mempool, CollectorHand(n) + n.committed, tx);
    Append(BatcherHand(n), n.mempool + (CollectorHand(n) + n.committed), tx);
    Append(Flatten(n.batches), BatcherHand(n) + (n.mempool + (CollectorHand(n) + n.committed)), tx);
  }

  lemma Append<T>(a: seq<T>, b: seq<T>, x: T)
    ensures a + (b + [x]) == a + b + [x]
  {
  }

  lemma ApplyKeepsInv(log: seq<Entry>, n: Node)
    requires Inv(log, n) && Enabled(log, n, ApplyEntry)
    ensures Inv(log, Next(log, n, ApplyEntry))
  {
    TxsSnoc(log, n.applied);
    var txs, m := Txs(log[..n.applied]), Next(log, n, ApplyEntry);
    assert txs[..|n.kept|] == txs;
    assert Txs(log[..m.applied])[..|n.kept|] == txs;
  }

  /** The FSM settles the transaction in its hand. */
  lemma SettleKeepsInv(log: seq<Entry>, n: Node, e: Event)
    requires Inv(log, n) && Enabled(log, n, e) && (e.Deliver? || e.Discard?)
    ensures Inv(log, Next(log, n, e))
  {
    DownstreamEnd(n, n.fsm.tx);
    SettleDecides(Txs(log[..n.applied]), n, Next(log, n, e), e.Deliver?);
  }

  lemma SettleDecides(txs: seq<Tx>, n: Node, m: Node, kept: bool)
    requires Decided(txs, n) && n.fsm.Delivering? && m.fsm.Ready? && m.kept == n.kept + [kept]
    requires Downstream(m) == Downstream(n) + if kept then [n.fsm.tx] else []
    requires m.discarded == n.discarded + if kept then [] else [n.fsm.tx]
    ensures Decided(txs, m)
  {
    var decided := txs[..|n.kept|];
    MarkedSnoc(decided, n.kept, true, n.fsm.tx, kept);
    MarkedSnoc(decided, n.kept, false, n.fsm.tx, kept);
    assert txs[..|m.kept|] == txs == decided + [n.fsm.tx];
  }

  /** An event behind the FSM that keeps what is downstream, in order. */
  lemma MoveKeepsInv(log: seq<Entry>, n: Node, m: Node)
    requires Inv(log, n) && Downstream(m) == Downstream(n)
    requires m.applied == n.applied && m.fsm == n.fsm && m.kept == n.kept && m.discarded == n.discarded
    requires m.lost == [] && m.closed == n.closed && m.cancelled == n.cancelled
    requires m.collector.CollectorStopped? ==> n.cancelled || n.closed
    requires forall k :: 0 <= k < |m.batches| ==> |m.batches[k]| == BATCH_SIZE
    requires m.batcher.Holding? ==> |m.batcher.batch| == BATCH_SIZE
    ensures Inv(log, m)
  {
    assert FsmHand(m) == FsmHand(n);
  }

  lemma MoveFirst<T>(a: seq<T>, b: seq<T>)
    requires b != []
    ensures a + b == a + [b[0]] + b[1..]
  {
  }

  lemma ReceiveKeepsInv(log: seq<Entry>, n: Node)
    requires Inv(log, n) && Enabled(log, n, Receive)
    ensures Inv(log, Next(log, n, Receive))
  {
    var m := Next(log, n, Receive);
    MoveFirst(CollectorHand(n), n.committed);
    MoveKeepsInv(log, n, m);
  }

  lemma AddKeepsInv(log: seq<Entry>, n: Node)
    requires Inv(log, n) && Enabled(log, n, AddNext)
    ensures Inv(log, Next(log, n, AddNext))
  {
    var m := Next(log, n, AddNext);
    if n.collector.rest != [] {
      MoveFirst(n.mempool, n.collector.rest);
      Shift(n.mempool, CollectorHand(n), m.mempool, CollectorHand(m), n.committed);
    }
    MoveKeepsInv(log, n, m);
  }

  lemma PollKeepsInv(log: seq<Entry>, n: Node)
    requires Inv(log, n) && Enabled(log, n, Poll)
    ensures Inv(log, Next(log, n, Poll))
  {
    var m := Next(log, n, Poll);
    if |n.mempool| >= BATCH_SIZE {
      Shift(BatcherHand(n), n.mempool, BatcherHand(m), m.mempool, CollectorHand(n) + n.committed);
    }
    MoveKeepsInv(log, n, m);
  }

  lemma CommitKeepsInv(log: seq<Entry>, n: Node)
    requires Inv(log, n) && Enabled(log, n, CommitBatch)
    ensures Inv(log, Next(log, n, CommitBatch))
  {
    var m := Next(log, n, CommitBatch);
    assert m.batches[..|m.batches| - 1] == n.batches;
    Shift(Flatten(n.batches), BatcherHand(n), Flatten(m.batches), BatcherHand(m),
          n.mempool + (CollectorHand(n) + n.committed));
    MoveKeepsInv(log, n, m);
  }

  lemma BatcherKeepsInv(log: seq<Entry>, n: Node, e: Event)
    requires Inv(log, n) && Enabled(log, n, e) && (e.CheckShutdown? || e.Tick? || e.SeeCancel?)
    ensures Inv(log, Next(log, n, e))
  {
    MoveKeepsInv(log, n, Next(log, n, e));
  }

  lemma FlagKeepsInv(log: seq<Entry>, n: Node, e: Event)
    requires Inv(log, n) && (e.CancelContext? || e.CloseLog?)
    ensures Inv(log, Next(log, n, e))
  {
    var m := Next(log, n, e);
    assert Downstream(m) == Downstream(n) && FsmHand(m) == FsmHand(n);
  }

  lemma CollectorKeepsInv(log: seq<Entry>, n: Node, e: Event)
    requires Inv(log, n) && Enabled(log, n, e) && (e.ReturnBatch? || e.Fail?)
    ensures Inv(log, Next(log, n, e))
  {
    MoveKeepsInv(log, n, Next(log, n, e));
  }

  lemma StepKeepsInv(log: seq<Entry>, n: Node, e: Event)
    requires Inv(log, n)
    ensures Inv(log, Step(log, n, e))
  {
    if Enabled(log, n, e) {
      match e
      case ApplyEntry => ApplyKeepsInv(log, n);
      case Deliver => SettleKeepsInv(log, n, e);
      case Discard => SettleKeepsInv(log, n, e);
      case Receive => ReceiveKeepsInv(log, n);
      case ReturnBatch => CollectorKeepsInv(log, n, e);
      case Fail => CollectorKeepsInv(log, n, e);
      case AddNext => AddKeepsInv(log, n);
      case Poll => PollKeepsInv(log, n);
      case CommitBatch => CommitKeepsInv(log, n);
      case CancelContext => FlagKeepsInv(log, n, e);
      case CloseLog => FlagKeepsInv(log, n, e);
      case _ => BatcherKeepsInv(log, n, e);
    }
  }

  lemma {:induction false} RunKeepsInv(log: seq<Entry>, buffer: nat, events: seq<Event>)
    ensures Inv(log, Run(log, buffer, events))
    decreases |events|
  {
    if events != [] {
      RunKeepsInv(log, buffer, events[..|events| - 1]);
      StepKeepsInv(log, Run(log, buffer, events[..|events| - 1]), events[|events| - 1]);
    }
  }

  // ------------------------------------------------- with and without discards

  lemma {:induction false} MarkedLength(txs: seq<Tx>, marks: seq<bool>)
    requires |txs| == |marks|
    ensures |Marked(txs, marks, true)| + |Marked(txs, marks, false)| == |txs|
    ensures Marked(txs, marks, false) == [] ==> Marked(txs, marks, true) == txs
    decreases |txs|
  {
    if txs != [] {
      var k := |txs| - 1;
      MarkedLength(txs[..k], marks[..k]);
      assert txs == txs[..k] + [txs[k]];
    }
  }

  /** In every run, discards included, what is between the log and the commitments and what
      was thrown away split the applied log: each well-formed entry is in one of the two,
      both in log order.  So the flow is the applied log if and only if nothing was
      discarded. */
  lemma FlowAndDiscardsSplitLog(log: seq<Entry>, buffer: nat, events: seq<Event>) returns (keep: seq<bool>)
    ensures var n := Run(log, buffer, events);
            n.applied <= |log| &&
            var txs := Txs(log[..n.applied]);
            && |keep| == |txs|
            && Flow(n) == Marked(txs, keep, true) && n.discarded == Marked(txs, keep, false)
            && (Flow(n) == txs <==> n.discarded == [])
  {
    RunKeepsInv(log, buffer, events);
    var n := Run(log, buffer, events);
    keep := SplitNode(log, n);
  }

  lemma SplitNode(log: seq<Entry>, n: Node) returns (keep: seq<bool>)
    requires Inv(log, n)
    ensures var txs := Txs(log[..n.applied]);
            && |keep| == |txs| && n.kept <= keep
            && Flow(n) == Marked(txs, keep, true) && n.discarded == Marked(txs, keep, false)
            && (Flow(n) == txs <==> n.discarded == [])
  {
    var txs := Txs(log[..n.applied]);
    keep := n.kept;
    if n.fsm.Delivering? {
      keep := n.kept + [true];
      MarkedSnoc(txs[..|n.kept|], n.kept, true, n.fsm.tx, true);
      MarkedSnoc(txs[..|n.kept|], n.kept, false, n.fsm.tx, true);
    } else {
      assert txs[..|n.kept|] == txs;
    }
    MarkedLength(txs, keep);
  }

  // ------------------------------------------------------------ the theorems

  lemma {:induction false} TxsPrefix(log: seq<Entry>, k: nat)
    requires k <= |log|
    ensures Txs(log[..k]) <= Txs(log)
    decreases |log| - k
  {
    if k == |log| {
      assert log[..k] == log;
    } else {
      TxsSnoc(log, k);
      TxsPrefix(log, k + 1);
    }
  }

  ghost predicate IncreasingIndices(log: seq<Entry>) {
    forall i, j :: 0 <= i < j < |log| ==> log[i].index < log[j].index
  }

  /** Raft indices increase along the log, hence so do the IDs of its transactions. */
  lemma {:induction false} IdsFollowIndices(log: seq<Entry>, bound: nat)
    requires IncreasingIndices(log) && forall i :: 0 <= i < |log| ==> log[i].index < bound
    ensures IncreasingIds(Txs(log)) && forall i :: 0 <= i < |Txs(log)| ==> Txs(log)[i].id < bound
    decreases |log|
  {
    if log != [] {
      IdsFollowIndices(log[..|log| - 1], log[|log| - 1].index);
    }
  }

  lemma {:induction false} FlattenLength(batches: seq<seq<Tx>>)
    requires forall k :: 0 <= k < |batches| ==> |batches[k]| == BATCH_SIZE
    ensures |Flatten(batches)| == BATCH_SIZE * |batches|
    decreases |batches|
  {
    if batches != [] {
      FlattenLength(batches[..|batches| - 1]);
    }
  }

  /** Full batches whose concatenation starts a list are the first batches of its cut. */
  lemma {:induction false} BatchesAreSlices(batches: seq<seq<Tx>>, txs: seq<Tx>, k: nat)
    requires forall i :: 0 <= i < |batches| ==> |batches[i]| == BATCH_SIZE
    requires Flatten(batches) <= txs && k < |batches|
    ensures BATCH_SIZE * k + BATCH_SIZE <= |txs|
    ensures batches[k] == txs[BATCH_SIZE * k..BATCH_SIZE * k + BATCH_SIZE]
    decreases |batches|
  {
    var n := |batches| - 1;
    var front := batches[..n];
    FlattenLength(batches);
    FlattenLength(front);
    assert Flatten(batches) == Flatten(front) + batches[n];
    assert Flatten(batches) == txs[..BATCH_SIZE * (n + 1)];
    if k < n {
      assert Flatten(front) <= txs;
      BatchesAreSlices(front, txs, k);
    } else {
      assert batches[n] == Flatten(batches)[BATCH_SIZE * n..];
    }
  }

  lemma {:induction false} CutSlices(txs: seq<Tx>, k: nat)
    ensures |Cut(txs)| == |txs| / BATCH_SIZE
    ensures k < |Cut(txs)| ==> BATCH_SIZE * k + BATCH_SIZE <= |txs| &&
                               Cut(txs)[k] == txs[BATCH_SIZE * k..BATCH_SIZE * k + BATCH_SIZE]
    decreases |txs|
  {
    if |txs| >= BATCH_SIZE {
      var rest := txs[BATCH_SIZE..];
      CutSlices(rest, if k > 0 then k - 1 else 0);
      if 0 < k < |Cut(txs)| {
        SliceOfRest(txs, BATCH_SIZE, BATCH_SIZE * (k - 1), BATCH_SIZE * k);
        assert Cut(txs)[k] == Cut(rest)[k - 1];
      }
    }
  }

  lemma SliceOfRest<T>(s: seq<T>, n: nat, a: nat, b: nat)
    requires a <= b && n + b <= |s|
    ensures s[n..][a..b] == s[n + a..n + b]
  {
  }

  /** Full batches whose concatenation starts a list are the first batches of its cut, and
      conversely. */
  lemma RefinesCutIff(batches: seq<seq<Tx>>, txs: seq<Tx>)
    requires forall i :: 0 <= i < |batches| ==> |batches[i]| == BATCH_SIZE
    ensures batches <= Cut(txs) <==> Flatten(batches) <= txs
  {
    CutSlices(txs, 0);
    if Flatten(batches) <= txs {
      FlattenLength(batches);
      assert |batches| <= |Cut(txs)|;
      forall k | 0 <= k < |batches| ensures batches[k] == Cut(txs)[k] {
        BatchesAreSlices(batches, txs, k);
        CutSlices(txs, k);
      }
    }
    if batches <= Cut(txs) {
      FlattenOfCut(batches, txs);
    }
  }

  lemma {:induction false} FlattenOfCut(batches: seq<seq<Tx>>, txs: seq<Tx>)
    requires batches <= Cut(txs)
    ensures Flatten(batches) <= txs && |Flatten(batches)| == BATCH_SIZE * |batches|
    decreases |batches|
  {
    if batches != [] {
      var k := |batches| - 1;
      FlattenOfCut(batches[..k], txs);
      CutSlices(txs, k);
      assert Flatten(batches) == txs[..BATCH_SIZE * k] + txs[BATCH_SIZE * k..BATCH_SIZE * k + BATCH_SIZE];
    }
  }

  /** In every run the k-th batch is the k-th thousand of what the FSM let through, so in a
      run without a discard it is exactly well-formed log entries 1000k to 1000k+999. */
  lemma BatchIsLogSlice(log: seq<Entry>, buffer: nat, events: seq<Event>, k: nat)
    requires k < |Run(log, buffer, events).batches|
    ensures var n := Run(log, buffer, events);
            var i := BATCH_SIZE * k;
            && i + BATCH_SIZE <= |Flow(n)| && n.batches[k] == Flow(n)[i..i + BATCH_SIZE]
            && (n.discarded == [] ==> i + BATCH_SIZE <= |Txs(log)| && n.batches[k] == Txs(log)[i..i + BATCH_SIZE])
  {
    var n := Run(log, buffer, events);
    RunKeepsInv(log, buffer, events);
    NodeBatches(log, n, k);
  }

  lemma BatchesLeadFlow(n: Node)
    ensures Flatten(n.batches) <= Downstream(n) <= Flow(n)
  {
  }

  /** Without a discard the flow is the applied part of the log. */
  lemma FlowIsPrefix(log: seq<Entry>, n: Node)
    requires Inv(log, n) && n.discarded == []
    ensures Flow(n) == Txs(log[..n.applied]) <= Txs(log)
  {
    var _ := SplitNode(log, n);
    TxsPrefix(log, n.applied);
  }

  lemma NodeBatches(log: seq<Entry>, n: Node, k: nat)
    requires Inv(log, n) && k < |n.batches|
    ensures var i := BATCH_SIZE * k;
            && i + BATCH_SIZE <= |Flow(n)| && n.batches[k] == Flow(n)[i..i + BATCH_SIZE]
            && (n.discarded == [] ==> i + BATCH_SIZE <= |Txs(log)| && n.batches[k] == Txs(log)[i..i + BATCH_SIZE])
  {
    BatchesLeadFlow(n);
    BatchesAreSlices(n.batches, Flow(n), k);
    if n.discarded == [] {
      FlowIsPrefix(log, n);
      BatchesAreSlices(n.batches, Txs(log), k);
    }
  }

  /** The asynchronous pipeline refines "cut the log into thousands". */
  lemma PipelineRefinesCut(log: seq<Entry>, buffer: nat, events: seq<Event>)
    requires Run(log, buffer, events).discarded == []
    ensures Run(log, buffer, events).batches <= Cut(Txs(log))
  {
    RunKeepsInv(log, buffer, events);
    NodeRefinesCut(log, Run(log, buffer, events));
  }

  lemma NodeRefinesCut(log: seq<Entry>, n: Node)
    requires Inv(log, n) && n.discarded == []
    ensures n.batches <= Cut(Txs(log))
  {
    BatchesLeadFlow(n);
    FlowIsPrefix(log, n);
    RefinesCutIff(n.batches, Txs(log));
  }

  lemma {:induction false} AllMarked(txs: seq<Tx>, marks: seq<bool>, m: nat)
    requires m <= |txs| == |marks| && NoneDropped(marks, m)
    ensures txs[..m] <= Marked(txs, marks, true)
    decreases |txs|
  {
    if txs != [] {
      var k := |txs| - 1;
      if m <= k {
        AllMarked(txs[..k], marks[..k], m);
        PrefixTakes(txs[..k], txs, m);
      } else {
        AllMarked(txs[..k], marks[..k], k);
        FullFront(txs, marks, k);
      }
    }
  }

  lemma FullFront(txs: seq<Tx>, marks: seq<bool>, k: nat)
    requires |txs| == |marks| == k + 1 && marks[k] && txs[..k][..k] <= Marked(txs[..k], marks[..k], true)
    ensures txs == Marked(txs, marks, true)
  {
    MarkedLength(txs[..k], marks[..k]);
    assert txs[..k][..k] == txs[..k];
    assert txs == txs[..k] + [txs[k]];
  }

  lemma PrefixTakes<T>(a: seq<T>, b: seq<T>, m: nat)
    requires a <= b && m <= |a|
    ensures a[..m] == b[..m]
  {
  }

  /** With distinct IDs a selection agrees with the list on m places only if the first m
      were all selected. */
  lemma {:induction false} MarkedMatches(txs: seq<Tx>, marks: seq<bool>, m: nat)
    requires |txs| == |marks| && IncreasingIds(txs) && m <= |Marked(txs, marks, true)|
    requires m <= |txs| && Marked(txs, marks, true)[..m] == txs[..m]
    ensures NoneDropped(marks, m)
    decreases |txs|
  {
    if m > 0 {
      var k := |txs| - 1;
      var front, all := Marked(txs[..k], marks[..k], true), Marked(txs, marks, true);
      MarkedLength(txs[..k], marks[..k]);
      if m <= |front| {
        PrefixTakes(front, all, m);
        PrefixTakes(txs[..k], txs, m);
        FrontIncreases(txs, k);
        MarkedMatches(txs[..k], marks[..k], m);
        FrontNotDropped(marks, k, m);
      } else {
        LastPlace(txs, all, m, k);
        AllKept(txs, marks);
      }
    }
  }

  lemma FrontIncreases(txs: seq<Tx>, k: nat)
    requires k <= |txs| && IncreasingIds(txs)
    ensures IncreasingIds(txs[..k])
  {
  }

  lemma FrontNotDropped(marks: seq<bool>, k: nat, m: nat)
    requires m <= k <= |marks| && NoneDropped(marks[..k], m)
    ensures NoneDropped(marks, m)
  {
    assert forall i :: 0 <= i < m ==> marks[i] == marks[..k][i];
  }

  /** The last transaction can only stand at its own place. */
  lemma LastPlace(txs: seq<Tx>, all: seq<Tx>, m: nat, k: nat)
    requires IncreasingIds(txs) && 0 < m <= |all| && m <= |txs| == k + 1
    requires all[..m] == txs[..m] && all[m - 1] == txs[k]
    ensures m == k + 1
  {
    assert all[..m][m - 1] == txs[..m][m - 1];
  }

  lemma {:induction false} AllKept(txs: seq<Tx>, marks: seq<bool>)
    requires |txs| == |marks| == |Marked(txs, marks, true)|
    ensures NoneDropped(marks, |marks|)
    decreases |txs|
  {
    if txs != [] {
      var k := |txs| - 1;
      MarkedLength(txs[..k], marks[..k]);
      AllKept(txs[..k], marks[..k]);
    }
  }

  /** Exactly when the batches are those of the log: if and only if none of the first
      1000*|batches| well-formed entries was discarded. */
  lemma RefinesCutIffNoneDropped(log: seq<Entry>, buffer: nat, events: seq<Event>)
    requires IncreasingIndices(log)
    ensures var n := Run(log, buffer, events);
            && BATCH_SIZE * |n.batches| <= |n.kept|
            && (n.batches <= Cut(Txs(log)) <==> NoneDropped(n.kept, BATCH_SIZE * |n.batches|))
  {
    RunKeepsInv(log, buffer, events);
    NodeRefinesCutIff(log, Run(log, buffer, events));
  }

  ghost predicate NoneDropped(kept: seq<bool>, m: nat)
    requires m <= |kept|
  {
    forall i :: 0 <= i < m ==> kept[i]
  }

  lemma NodeRefinesCutIff(log: seq<Entry>, n: Node)
    requires Inv(log, n) && IncreasingIndices(log)
    ensures BATCH_SIZE * |n.batches| <= |n.kept|
    ensures n.batches <= Cut(Txs(log)) <==> NoneDropped(n.kept, BATCH_SIZE * |n.batches|)
  {
    DecidedOfLog(log, n);
    BatchesLeadFlow(n);
    FlattenLength(n.batches);
    RefinesCutIff(n.batches, Txs(log));
    LogIdsIncrease(log);
    SelectionLeadsIff(Txs(log), n.kept, Flatten(n.batches));
  }

  lemma LogIdsIncrease(log: seq<Entry>)
    requires IncreasingIndices(log)
    ensures IncreasingIds(Txs(log))
  {
    IdsFollowIndices(log, if log == [] then 0 else log[|log| - 1].index + 1);
  }

  lemma DecidedOfLog(log: seq<Entry>, n: Node)
    requires Inv(log, n)
    ensures |n.kept| <= |Txs(log)| && Downstream(n) == Marked(Txs(log)[..|n.kept|], n.kept, true)
  {
    TxsPrefix(log, n.applied);
    assert Txs(log)[..|n.kept|] == Txs(log[..n.applied])[..|n.kept|];
  }

  lemma LeadsSlice<T>(start: seq<T>, s: seq<T>, k: nat)
    requires |start| <= k <= |s|
    ensures start <= s <==> start <= s[..k]
  {
  }

  lemma SamePrefix<T>(a: seq<T>, b: seq<T>, c: seq<T>)
    requires a <= c && b <= c && |a| == |b|
    ensures a == b
  {
  }

  /** The start of a selection is the start of the list exactly when nothing was left out
      of it. */
  lemma SelectionLeadsIff(txs: seq<Tx>, marks: seq<bool>, start: seq<Tx>)
    requires |marks| <= |txs| && IncreasingIds(txs) && start <= Marked(txs[..|marks|], marks, true)
    ensures |start| <= |marks|
    ensures start <= txs <==> NoneDropped(marks, |start|)
  {
    MarkedLength(txs[..|marks|], marks);
    LeadsSlice(start, txs, |marks|);
    SelectionLeads(txs[..|marks|], marks, start);
  }

  lemma SelectionLeads(txs: seq<Tx>, marks: seq<bool>, start: seq<Tx>)
    requires |marks| == |txs| && IncreasingIds(txs)
    requires start <= Marked(txs, marks, true) && |start| <= |txs|
    ensures start <= txs <==> NoneDropped(marks, |start|)
  {
    if start <= txs {
      LeadingIsComplete(txs, marks, start);
    }
    if NoneDropped(marks, |start|) {
      AllMarked(txs, marks, |start|);
      SamePrefix(start, txs[..|start|], Marked(txs, marks, true));
    }
  }

  lemma LeadingIsComplete(txs: seq<Tx>, marks: seq<bool>, start: seq<Tx>)
    requires |marks| == |txs| && IncreasingIds(txs) && start <= Marked(txs, marks, true) && start <= txs
    ensures NoneDropped(marks, |start|)
  {
    PrefixTakes(start, txs, |start|);
    PrefixTakes(start, Marked(txs, marks, true), |start|);
    MarkedMatches(txs, marks, |start|);
  }

  ghost predicate NeverClosed(events: seq<Event>) {
    forall i :: 0 <= i < |events| ==> !events[i].CloseLog?
  }

  /** Without a close nothing is discarded; with or without one, a DrainWait that fails
      has collected nothing, so cancellation loses nothing. */
  lemma {:induction false} NothingLost(log: seq<Entry>, buffer: nat, events: seq<Event>)
    ensures Run(log, buffer, events).lost == []
    ensures NeverClosed(events) ==> !Run(log, buffer, events).closed && Run(log, buffer, events).discarded == []
    decreases |events|
  {
    RunKeepsInv(log, buffer, events);
    if events != [] {
      var front, e := events[..|events| - 1], events[|events| - 1];
      NothingLost(log, buffer, front);
      if NeverClosed(events) {
        assert !e.CloseLog? && NeverClosed(front);
        StepStaysOpen(log, Run(log, buffer, front), e);
      }
    }
  }

  lemma StepStaysOpen(log: seq<Entry>, n: Node, e: Event)
    requires !n.closed && !e.CloseLog?
    ensures !Step(log, n, e).closed
  {
  }

  /** Nothing applied is lost, duplicated or reordered anywhere between the stages. */
  lemma FlowIsAppliedLog(log: seq<Entry>, buffer: nat, events: seq<Event>)
    requires NeverClosed(events)
    ensures var n := Run(log, buffer, events); n.applied <= |log| && Flow(n) == Txs(log[..n.applied])
  {
    NothingLost(log, buffer, events);
    var _ := FlowAndDiscardsSplitLog(log, buffer, events);
  }

  /** The FSM takes an entry and delivers it, and the collector receives it. */
  lemma PassFsm(log: seq<Entry>, buffer: nat, events: seq<Event>, n: Node) returns (more: seq<Event>, m: Node)
    requires n == Run(log, buffer, events) && n.applied < |log| && log[n.applied].data.Proposal?
    requires n.fsm.Ready? && n.committed == [] && n.buffer > 0 && n.collector == Draining([])
    ensures m == Run(log, buffer, more)
    ensures m == n.(applied := n.applied + 1, kept := n.kept + [true], collector := Draining([TxOf(log[n.applied])]))
  {
    var tx := TxOf(log[n.applied]);
    more, m := RunOn(log, buffer, events, n, ApplyEntry);
    assert m == n.(applied := n.applied + 1, fsm := Delivering(tx));
    more, m := RunOn(log, buffer, more, m, Deliver);
    assert m == n.(applied := n.applied + 1, committed := [tx], kept := n.kept + [true]);
    more, m := RunOn(log, buffer, more, m, Receive);
  }

  /** The collector adds the transaction it holds to the mempool. */
  lemma PassCollector(log: seq<Entry>, buffer: nat, events: seq<Event>, n: Node, tx: Tx)
    returns (more: seq<Event>, m: Node)
    requires n == Run(log, buffer, events) && n.collector == Draining([tx])
    ensures m == Run(log, buffer, more) && m == n.(collector := Draining([]), mempool := n.mempool + [tx])
  {
    more, m := RunOn(log, buffer, events, n, ReturnBatch);
    assert m == n.(collector := Adding([tx]));
    assert [tx][1..] == [];
    more, m := RunOn(log, buffer, more, m, AddNext);
    assert m == n.(collector := Adding([]), mempool := n.mempool + [tx]);
    more, m := RunOn(log, buffer, more, m, AddNext);
  }

  /** One entry passes through every stage up to the mempool. */
  lemma PassOne(log: seq<Entry>, buffer: nat, events: seq<Event>, n: Node) returns (more: seq<Event>, m: Node)
    requires n == Run(log, buffer, events) && n.applied < |log| && log[n.applied].data.Proposal?
    requires n.fsm.Ready? && n.committed == [] && n.buffer > 0 && n.collector == Draining([])
    ensures m == Run(log, buffer, more)
    ensures m == n.(applied := n.applied + 1, kept := n.kept + [true], mempool := n.mempool + [TxOf(log[n.applied])])
  {
    more, m := PassFsm(log, buffer, events, n);
    more, m := PassCollector(log, buffer, more, m, TxOf(log[n.applied]));
  }

  ghost predicate WellFormed(log: seq<Entry>) {
    forall i :: 0 <= i < |log| ==> log[i].data.Proposal?
  }

  lemma {:induction false} WellFormedTxs(log: seq<Entry>)
    requires WellFormed(log)
    ensures |Txs(log)| == |log| && forall i :: 0 <= i < |log| ==> Txs(log)[i] == TxOf(log[i])
    decreases |log|
  {
    if log != [] {
      WellFormedTxs(log[..|log| - 1]);
    }
  }

  lemma {:induction false} PassMany(log: seq<Entry>, buffer: nat, txs: seq<Tx>, events: seq<Event>,
                                     n: Node, count: nat)
    returns (more: seq<Event>, m: Node)
    requires n == Run(log, buffer, events) && n.applied + count <= |log| == |txs|
    requires WellFormed(log) && forall i :: 0 <= i < |log| ==> txs[i] == TxOf(log[i])
    requires n.fsm.Ready? && n.committed == [] && n.buffer > 0 && n.collector == Draining([])
    ensures m == Run(log, buffer, more) && n.kept <= m.kept
    ensures m == n.(applied := n.applied + count, kept := m.kept,
                    mempool := n.mempool + txs[n.applied..n.applied + count])
    decreases count
  {
    more, m := events, n;
    if count > 0 {
      var p;
      more, p := PassMany(log, buffer, txs, events, n, count - 1);
      more, m := PassOne(log, buffer, more, p);
      PassedOneMore(txs, n, p, m, count);
    } else {
      assert n.mempool + txs[n.applied..n.applied] == n.mempool;
    }
  }

  lemma PassedOneMore(txs: seq<Tx>, n: Node, p: Node, m: Node, count: nat)
    requires 0 < count && n.applied + count <= |txs|
    requires p == n.(applied := n.applied + count - 1, kept := p.kept,
                     mempool := n.mempool + txs[n.applied..n.applied + count - 1])
    requires m == p.(applied := p.applied + 1, kept := m.kept, mempool := p.mempool + [txs[p.applied]])
    ensures m == n.(applied := n.applied + count, kept := m.kept,
                    mempool := n.mempool + txs[n.applied..n.applied + count])
  {
    TakeOneMore(n.mempool, txs, n.applied, n.applied + count - 1);
  }

  lemma TakeOneMore<T>(head: seq<T>, s: seq<T>, a: nat, b: nat)
    requires a <= b < |s|
    ensures head + s[a..b] + [s[b]] == head + s[a..b + 1]
  {
    assert s[a..b] + [s[b]] == s[a..b + 1];
    assert head + (s[a..b] + [s[b]]) == head + s[a..b] + [s[b]];
  }

  lemma FallAsleep(log: seq<Entry>, buffer: nat) returns (events: seq<Event>, n: Node)
    ensures n == Run(log, buffer, events) && n == Start(buffer).(batcher := Asleep)
  {
    events, n := RunOn(log, buffer, [], Start(buffer), CheckShutdown);
    assert n == Start(buffer).(batcher := Polling);
    events, n := RunOn(log, buffer, events, n, Poll);
  }

  lemma ShutDown(log: seq<Entry>, buffer: nat, events: seq<Event>, n: Node) returns (more: seq<Event>, m: Node)
    requires n == Run(log, buffer, events)
    ensures m == Run(log, buffer, more) && m == n.(cancelled := true, closed := true)
  {
    more, m := RunOn(log, buffer, events, n, CancelContext);
    assert m == n.(cancelled := true);
    more, m := RunOn(log, buffer, more, m, CloseLog);
  }

  /** The FSM throws an entry away. */
  lemma DropOne(log: seq<Entry>, buffer: nat, events: seq<Event>, n: Node) returns (more: seq<Event>, m: Node)
    requires n == Run(log, buffer, events) && n.applied < |log| && log[n.applied].data.Proposal?
    requires n.fsm.Ready? && n.closed
    ensures m == Run(log, buffer, more)
    ensures m == n.(applied := n.applied + 1, kept := n.kept + [false],
                    discarded := n.discarded + [TxOf(log[n.applied])])
  {
    more, m := RunOn(log, buffer, events, n, ApplyEntry);
    assert m == n.(applied := n.applied + 1, fsm := Delivering(TxOf(log[n.applied])));
    more, m := RunOn(log, buffer, more, m, Discard);
  }

  /** The sleeping batch loop may see its ticker before the cancellation. */
  lemma CommitFull(log: seq<Entry>, buffer: nat, events: seq<Event>, n: Node) returns (more: seq<Event>, m: Node)
    requires n == Run(log, buffer, events) && n.batcher.Asleep? && |n.mempool| == BATCH_SIZE
    ensures m == Run(log, buffer, more) && m.batches == n.batches + [n.mempool] && m.kept == n.kept
  {
    assert n.mempool[..BATCH_SIZE] == n.mempool;
    more, m := RunOn(log, buffer, events, n, Tick);
    assert m == n.(batcher := Polling);
    more, m := RunOn(log, buffer, more, m, Poll);
    assert m == n.(batcher := Holding(n.mempool), mempool := []);
    more, m := RunOn(log, buffer, more, m, CommitBatch);
  }

  // ------------------------------------------------------- what is in a batch

  /** The transaction carries the index, the submission time and the bytes of the entry. */
  ghost predicate Carries(tx: Tx, e: Entry) {
    && e.data.Proposal?
    && tx.id == e.index && tx.arrivedAt == e.data.submittedAt && tx.ciphertext == e.data.ciphertext
  }

  /** The places of the well-formed entries of a log, in order. */
  ghost predicate WellFormedPlaces(log: seq<Entry>, places: seq<nat>) {
    && Increasing(places)
    && (forall i :: 0 <= i < |places| ==> places[i] < |log| && log[places[i]].data.Proposal?)
    && (forall p: nat :: p < |log| && log[p].data.Proposal? ==> p in places)
  }

  ghost predicate CarriesAll(txs: seq<Tx>, log: seq<Entry>, places: seq<nat>) {
    && |txs| == |places|
    && forall i :: 0 <= i < |txs| ==> places[i] < |log| && Carries(txs[i], log[places[i]])
  }

  lemma {:induction false} TxsCarryEntries(log: seq<Entry>) returns (places: seq<nat>)
    ensures WellFormedPlaces(log, places) && CarriesAll(Txs(log), log, places)
    decreases |log|
  {
    places := [];
    if log != [] {
      var n := |log| - 1;
      var before := TxsCarryEntries(log[..n]);
      places := if log[n].data.Proposal? then before + [n] else before;
      OneMorePlace(log, before);
      OneMoreCarried(log, before, Txs(log[..n]));
    }
  }

  lemma OneMorePlace(log: seq<Entry>, before: seq<nat>)
    requires log != [] && WellFormedPlaces(log[..|log| - 1], before)
    ensures var n := |log| - 1;
            WellFormedPlaces(log, if log[n].data.Proposal? then before + [n] else before)
  {
    var n := |log| - 1;
    var places := if log[n].data.Proposal? then before + [n] else before;
    assert forall i :: 0 <= i < |before| ==> log[before[i]] == log[..n][before[i]];
    forall p: nat | p < |log| && log[p].data.Proposal? ensures p in places {
      if p < n {
        assert log[..n][p].data.Proposal?;
      }
    }
  }

  lemma OneMoreCarried(log: seq<Entry>, before: seq<nat>, txs: seq<Tx>)
    requires log != [] && CarriesAll(txs, log[..|log| - 1], before)
    ensures CarriesAll(txs, log, before)
    ensures var n := |log| - 1;
            log[n].data.Proposal? ==> CarriesAll(txs + [TxOf(log[n])], log, before + [n])
  {
    var n := |log| - 1;
    assert forall i :: 0 <= i < |before| ==> log[before[i]] == log[..n][before[i]];
  }

  /** In every run without a discard the j-th transaction of batch k carries the index, the
      submission time and the bytes of the (1000k+j)-th well-formed entry of the log. */
  lemma BatchCarriesEntries(log: seq<Entry>, buffer: nat, events: seq<Event>) returns (places: seq<nat>)
    requires Run(log, buffer, events).discarded == []
    ensures WellFormedPlaces(log, places)
    ensures var batches := Run(log, buffer, events).batches;
            && 1000 * |batches| <= |places|
            && forall k, j :: 0 <= k < |batches| && 0 <= j < 1000 ==>
                 |batches[k]| == 1000 && Carries(batches[k][j], log[places[1000 * k + j]])
  {
    places := TxsCarryEntries(log);
    var n := Run(log, buffer, events);
    RunKeepsInv(log, buffer, events);
    if n.batches != [] {
      BatchIsLogSlice(log, buffer, events, |n.batches| - 1);
    }
    forall k, j | 0 <= k < |n.batches| && 0 <= j < 1000
      ensures |n.batches[k]| == 1000 && Carries(n.batches[k][j], log[places[1000 * k + j]])
    {
      BatchIsLogSlice(log, buffer, events, k);
      InSlice(Txs(log), 1000 * k, 1000, j);
    }
  }

  lemma InSlice<T>(s: seq<T>, a: nat, n: nat, j: nat)
    requires a + n <= |s| && j < n
    ensures s[a..a + n][j] == s[a + j]
  {
  }

  /** In every run, discards included, everything between the log and the commitments carries
      a well-formed entry that was applied, each its own, in log order. */
  lemma FlowCarriesEntries(log: seq<Entry>, buffer: nat, events: seq<Event>) returns (places: seq<nat>)
    ensures var n := Run(log, buffer, events);
            Increasing(places) && CarriesAll(Flow(n), log, places) &&
            forall i :: 0 <= i < |places| ==> places[i] < n.applied
  {
    var n := Run(log, buffer, events);
    var keep := FlowAndDiscardsSplitLog(log, buffer, events);
    places := SelectionCarries(log, n.applied, keep);
  }

  lemma SelectionCarries(log: seq<Entry>, applied: nat, keep: seq<bool>) returns (places: seq<nat>)
    requires applied <= |log| && |keep| == |Txs(log[..applied])|
    ensures Increasing(places) && CarriesAll(Marked(Txs(log[..applied]), keep, true), log, places)
    ensures forall i :: 0 <= i < |places| ==> places[i] < applied
  {
    var all := TxsCarryEntries(log[..applied]);
    places := MarkedCarry(Txs(log[..applied]), keep, log[..applied], all);
    CarriesInLonger(Marked(Txs(log[..applied]), keep, true), log, applied, places);
  }

  lemma CarriesInLonger(txs: seq<Tx>, log: seq<Entry>, applied: nat, places: seq<nat>)
    requires applied <= |log| && CarriesAll(txs, log[..applied], places)
    ensures CarriesAll(txs, log, places) && forall i :: 0 <= i < |places| ==> places[i] < applied
  {
    assert forall i :: 0 <= i < |places| ==> log[..applied][places[i]] == log[places[i]];
  }

  lemma {:induction false} MarkedCarry(txs: seq<Tx>, marks: seq<bool>, log: seq<Entry>, all: seq<nat>)
    returns (places: seq<nat>)
    requires |txs| == |marks| && CarriesAll(txs, log, all) && Increasing(all)
    ensures Increasing(places) && CarriesAll(Marked(txs, marks, true), log, places)
    ensures forall i :: 0 <= i < |places| ==> places[i] in all
    decreases |txs|
  {
    places := [];
    if txs != [] {
      var k := |txs| - 1;
      var front := MarkedCarry(txs[..k], marks[..k], log, all[..k]);
      forall i | 0 <= i < |front| ensures front[i] in all && front[i] < all[k] {
        var j :| 0 <= j < k && all[..k][j] == front[i];
        assert all[j] == front[i];
      }
      places := front + if marks[k] then [all[k]] else [];
    }
  }

  // --------------------------------------------------------------- cancellation

  /** Batches committed, and one more if the batch loop can still come by one. */
  ghost function Committing(n: Node): nat {
    |n.batches| + if n.batcher.Top? || n.batcher.BatcherStopped? then 0 else 1
  }

  ghost predicate CancelledWithin(n: Node, bound: nat) {
    n.cancelled && Committing(n) <= bound
  }

  lemma StepStaysCancelled(log: seq<Entry>, n: Node, e: Event, bound: nat)
    requires CancelledWithin(n, bound)
    ensures CancelledWithin(Step(log, n, e), bound)
  {
  }

  /** After the context is cancelled the batch loop commits at most one more batch. */
  lemma {:induction false} CancelEndsBatches(log: seq<Entry>, buffer: nat, events: seq<Event>, later: seq<Event>)
    requires Run(log, buffer, events).cancelled
    ensures CancelledWithin(Run(log, buffer, events + later), Committing(Run(log, buffer, events)))
    ensures |Run(log, buffer, events + later).batches| <= |Run(log, buffer, events).batches| + 1
    decreases |later|
  {
    if later == [] {
      assert events + later == events;
    } else {
      var n := |later| - 1;
      CancelEndsBatches(log, buffer, events, later[..n]);
      var all := events + later;
      assert all[..|all| - 1] == events + later[..n];
      StepStaysCancelled(log, Run(log, buffer, events + later[..n]), later[n],
                         Committing(Run(log, buffer, events)));
    }
  }

  function CollectorWork(c: Collector): nat {
    match c
    case Draining(batch) => if batch == [] then 0 else |batch| + 2
    case Adding(rest) => |rest| + 1
    case CollectorStopped => 0
  }

  /** The collector returns, after it has added what it holds. */
  lemma {:induction false} StopCollector(log: seq<Entry>, buffer: nat, events: seq<Event>, n: Node)
    returns (more: seq<Event>, m: Node)
    requires n == Run(log, buffer, events) && n.cancelled
    ensures m == Run(log, buffer, more) && events <= more && m.cancelled && m.collector.CollectorStopped?
    decreases CollectorWork(n.collector)
  {
    match n.collector
    case CollectorStopped => more, m := events, n;
    case Draining(batch) =>
      if batch == [] {
        more, m := RunOn(log, buffer, events, n, Fail);
      } else {
        more, m := RunOn(log, buffer, events, n, ReturnBatch);
        more, m := StopCollector(log, buffer, more, m);
      }
    case Adding(rest) =>
      more, m := RunOn(log, buffer, events, n, AddNext);
      more, m := StopCollector(log, buffer, more, m);
  }

  /** The batch loop comes to its shutdown check and returns. */
  lemma StopBatcher(log: seq<Entry>, buffer: nat, events: seq<Event>, n: Node)
    returns (more: seq<Event>, m: Node)
    requires n == Run(log, buffer, events) && n.cancelled
    ensures m == Run(log, buffer, more) && events <= more && m.batcher.BatcherStopped?
    ensures m.collector == n.collector
  {
    more, m := ReachTop(log, buffer, events, n);
    if m.batcher.Top? {
      more, m := RunOn(log, buffer, more, m, CheckShutdown);
    }
  }

  lemma ReachTop(log: seq<Entry>, buffer: nat, events: seq<Event>, n: Node)
    returns (more: seq<Event>, m: Node)
    requires n == Run(log, buffer, events) && n.cancelled
    ensures m == Run(log, buffer, more) && events <= more && (m.batcher.Top? || m.batcher.BatcherStopped?)
    ensures m.collector == n.collector && m.cancelled
  {
    more, m := events, n;
    if m.batcher.Polling? {
      more, m := RunOn(log, buffer, more, m, Poll);
    }
    if m.batcher.Asleep? {
      more, m := RunOn(log, buffer, more, m, SeeCancel);
    } else if m.batcher.Holding? {
      more, m := RunOn(log, buffer, more, m, CommitBatch);
    }
  }

  /** Once the context is cancelled both loops can return, wherever they stand. */
  lemma ShutdownCompletes(log: seq<Entry>, buffer: nat, events: seq<Event>) returns (later: seq<Event>)
    requires Run(log, buffer, events).cancelled
    ensures var n := Run(log, buffer, events + later); n.collector.CollectorStopped? && n.batcher.BatcherStopped?
  {
    var more, n := StopCollector(log, buffer, events, Run(log, buffer, events));
    more, n := StopBatcher(log, buffer, more, n);
    later := more[|events|..];
    assert events + later == more;
  }

  /** Why close is excluded: at shutdown, with the batch loop asleep between two polls, the
      context is cancelled and the log closed; the FSM may still drop the first entry and
      then deliver the next thousand, which are committed as the first batch although the
      log's first batch is another one. */
  lemma CloseCanCommitWrongBatch(log: seq<Entry>, buffer: nat) returns (events: seq<Event>, n: Node)
    requires |log| > BATCH_SIZE && WellFormed(log) && IncreasingIndices(log) && buffer > 0
    ensures |Txs(log)| == |log| && n == Run(log, buffer, events)
    ensures n.batches == [Txs(log)[1..1 + BATCH_SIZE]]
    ensures !(n.batches <= Cut(Txs(log)))
  {
    WellFormedTxs(log);
    events, n := FallAsleep(log, buffer);
    events, n := ShutDown(log, buffer, events, n);
    events, n := DropOne(log, buffer, events, n);
    events, n := PassMany(log, buffer, Txs(log), events, n, BATCH_SIZE);
    assert [] + Txs(log)[1..1 + BATCH_SIZE] == Txs(log)[1..1 + BATCH_SIZE];
    events, n := CommitFull(log, buffer, events, n);
    FirstDropped(log, buffer, events, n);
  }

  lemma FirstDropped(log: seq<Entry>, buffer: nat, events: seq<Event>, n: Node)
    requires IncreasingIndices(log) && n == Run(log, buffer, events) && [false] <= n.kept && n.batches != []
    ensures !(n.batches <= Cut(Txs(log)))
  {
    RefinesCutIffNoneDropped(log, buffer, events);
    assert n.kept[0] == [false][0];
  }

  lemma RunOn(log: seq<Entry>, buffer: nat, events: seq<Event>, n: Node, e: Event)
    returns (more: seq<Event>, m: Node)
    requires n == Run(log, buffer, events)
    ensures more == events + [e] && m == Run(log, buffer, more) == Step(log, n, e)
  {
    more, m := events + [e], Step(log, n, e);
    assert more[..|more| - 1] == events;
  }

  /** Neither the FSM nor the collector can move a transaction. */
  predicate NoneMoves(log: seq<Entry>, n: Node) {
    && !Enabled(log, n, ApplyEntry) && !Enabled(log, n, Deliver)
    && !Enabled(log, n, Receive) && !Enabled(log, n, ReturnBatch) && !Enabled(log, n, AddNext)
  }

  /** A node that is running and cannot move a transaction holds less than one batch. */
  lemma StillNode(log: seq<Entry>, n: Node)
    requires Inv(log, n) && n.discarded == [] && !n.closed && !n.cancelled && n.buffer > 0
    requires NoneMoves(log, n) && !n.batcher.Holding? && |n.mempool| < BATCH_SIZE
    ensures |n.batches| == |Txs(log)| / BATCH_SIZE
  {
    FlattenLength(n.batches);
    assert log[..n.applied] == log;
    FlowIsPrefix(log, n);
    assert |BatcherHand(n)| == |CollectorHand(n)| == |n.committed| == |FsmHand(n)| == 0;
    assert |Flow(n)| == |Flatten(n.batches)| + |n.mempool|;
  }

  lemma {:induction false} BufferFixed(log: seq<Entry>, buffer: nat, events: seq<Event>)
    ensures Run(log, buffer, events).buffer == buffer
    decreases |events|
  {
    if events != [] {
      BufferFixed(log, buffer, events[..|events| - 1]);
    }
  }

  /** When no stage can move a transaction any further, every full thousand of the log has
      been committed. */
  lemma DrainedPipelineIsComplete(log: seq<Entry>, buffer: nat, events: seq<Event>)
    requires NeverClosed(events) && buffer > 0
    requires var n := Run(log, buffer, events);
             !n.cancelled && !n.batcher.Holding? && |n.mempool| < BATCH_SIZE && NoneMoves(log, n)
    ensures Run(log, buffer, events).batches == Cut(Txs(log))
  {
    RunKeepsInv(log, buffer, events);
    NothingLost(log, buffer, events);
    BufferFixed(log, buffer, events);
    StillNode(log, Run(log, buffer, events));
    CutSlices(Txs(log), 0);
    PipelineRefinesCut(log, buffer, events);
  }

  /** The commitments a node publishes for its batches, for any commitment function. */
  ghost function Commitments<D>(commit: seq<Tx> -> D, batches: seq<seq<Tx>>): seq<D> {
    seq(|batches|, k requires 0 <= k < |batches| => commit(batches[k]))
  }

  /** Any two replicas that have seen a common log, one perhaps further than the other,
      commit sequences of which one is a prefix of the other. */
  lemma ReplicasAgree<D>(log1: seq<Entry>, buffer1: nat, events1: seq<Event>,
                         log2: seq<Entry>, buffer2: nat, events2: seq<Event>, commit: seq<Tx> -> D)
    requires log1 <= log2 && NeverClosed(events1) && NeverClosed(events2)
    ensures var c1 := Commitments(commit, Run(log1, buffer1, events1).batches);
            var c2 := Commitments(commit, Run(log2, buffer2, events2).batches);
            c1 <= c2 || c2 <= c1
  {
    var b1, b2 := Run(log1, buffer1, events1).batches, Run(log2, buffer2, events2).batches;
    NothingLost(log1, buffer1, events1);
    NothingLost(log2, buffer2, events2);
    assert log2[..|log1|] == log1;
    TxsPrefix(log2, |log1|);
    forall k | 0 <= k < |b1| && k < |b2| ensures b1[k] == b2[k] {
      BatchIsLogSlice(log1, buffer1, events1, k);
      BatchIsLogSlice(log2, buffer2, events2, k);
    }
  }
}

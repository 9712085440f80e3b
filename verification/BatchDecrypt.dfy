/** Batch decryption: ceiling-division chunks, one task per chunk, tasks interleaved in any
    order on a shared output array and a shared failure flag. */
module BatchDecrypt {
  import opened IntegerMath
  import opened Transactions

  const SEAL_BYTES := 48
  const SO_SUCCESS := 0
  const SO_ERR_BAD_CIPHER := -1
  const SO_ERR_KEY_MISMATCH := -2
  const TWO_32 := 0x1_0000_0000

  /** What crypto_box_seal_open answers for a sealed box under fixed keys, and what it
      makes of the plaintext buffer it is given, which it may leave as it is. */
  datatype Opened = Opened(ok: bool, buffer: Bytes -> Bytes)

  datatype DecryptedTx = DecryptedTx(plaintext: Bytes, length: nat, originalIndex: nat, status: int)

  predicate Opens(open: Bytes -> Opened, input: Bytes) {
    |input| >= SEAL_BYTES && open(input).ok
  }

  /** decrypt_single_tx on one output struct. */
  function Single(open: Bytes -> Opened, input: Bytes, prior: DecryptedTx): DecryptedTx {
    if |input| < SEAL_BYTES then
      prior.(status := SO_ERR_BAD_CIPHER, length := 0)
    else if !open(input).ok then
      prior.(plaintext := open(input).buffer(prior.plaintext), status := SO_ERR_KEY_MISMATCH, length := 0)
    else
      prior.(plaintext := open(input).buffer(prior.plaintext), length := |input| - SEAL_BYTES, status := SO_SUCCESS)
  }

  /** The body of a chunk's loop on item j. */
  function Item(open: Bytes -> Opened, input: Bytes, j: nat, prior: DecryptedTx): DecryptedTx {
    if |input| < SEAL_BYTES then
      prior.(status := SO_ERR_BAD_CIPHER, length := 0)
    else if !open(input).ok then
      prior.(plaintext := open(input).buffer(prior.plaintext), status := SO_ERR_BAD_CIPHER, length := 0)
    else
      prior.(plaintext := open(input).buffer(prior.plaintext), length := |input| - SEAL_BYTES,
             originalIndex := j % TWO_32, status := SO_SUCCESS)
  }

  /** A batch item agrees with the single call on success, length and plaintext; the error
      codes differ exactly when a long enough box fails to open. */
  lemma ItemAgreesWithSingle(open: Bytes -> Opened, input: Bytes, j: nat, prior: DecryptedTx)
    ensures var b, s := Item(open, input, j, prior), Single(open, input, prior);
            && (b.status == SO_SUCCESS <==> s.status == SO_SUCCESS) && (b.status == SO_SUCCESS <==> Opens(open, input))
            && b.length == s.length && b.plaintext == s.plaintext
            && (b.status != s.status <==> |input| >= SEAL_BYTES && !open(input).ok)
            && s.status == (if |input| < 48 then -1 else if open(input).ok then 0 else -2)
            && s.originalIndex == prior.originalIndex
  {
  }

  /** Output j of a batch, whatever was there before: an input that opens gives its plaintext,
      48 bytes shorter, under its own index, with status 0; any other gives length 0 and
      status -1 and keeps the index, and a short one keeps the plaintext buffer too. */
  ghost predicate Decrypted(open: Bytes -> Opened, input: Bytes, j: nat, prior: DecryptedTx, out: DecryptedTx) {
    if |input| >= 48 && open(input).ok then
      && out.status == 0 && out.length == |input| - 48 && out.originalIndex == j % 0x1_0000_0000
      && out.plaintext == open(input).buffer(prior.plaintext)
    else
      && out.status == -1 && out.length == 0 && out.originalIndex == prior.originalIndex
      && out.plaintext == if |input| < 48 then prior.plaintext else open(input).buffer(prior.plaintext)
  }

  ghost predicate AllDecrypted(open: Bytes -> Opened, inputs: seq<Bytes>, prior: seq<DecryptedTx>,
                               outputs: seq<DecryptedTx>) {
    && |outputs| == |inputs| == |prior|
    && forall j :: 0 <= j < |inputs| ==> Decrypted(open, inputs[j], j, prior[j], outputs[j])
  }

  lemma SequentialDecrypts(open: Bytes -> Opened, inputs: seq<Bytes>, prior: seq<DecryptedTx>)
    requires |inputs| == |prior|
    ensures AllDecrypted(open, inputs, prior, Sequential(open, inputs, prior))
  {
  }

  /** The result of decrypting one item after another. */
  function Sequential(open: Bytes -> Opened, inputs: seq<Bytes>, prior: seq<DecryptedTx>): seq<DecryptedTx>
    requires |inputs| == |prior|
  {
    seq(|inputs|, j requires 0 <= j < |inputs| => Item(open, inputs[j], j, prior[j]))
  }

  // ------------------------------------------------------------------ chunks

  function Threads(hardware: nat, n: nat): nat {
    var t := if hardware == 0 then 2 else hardware;
    if t < n then t else n
  }

  function ChunkSize(n: nat, threads: nat): nat
    requires threads > 0
  {
    (n + threads - 1) / threads
  }

  function ChunkEnd(n: nat, size: nat, i: nat): nat {
    if i * size + size < n then i * size + size else n
  }

  predicate InChunk(n: nat, size: nat, i: nat, j: nat) {
    i * size <= j < ChunkEnd(n, size, i)
  }

  /** The chunk size is the least that covers the batch with one chunk per thread. */
  lemma ChunkSizeBounds(n: nat, threads: nat)
    requires 0 < threads <= n
    ensures 0 < ChunkSize(n, threads)
    ensures threads * (ChunkSize(n, threads) - 1) < n <= threads * ChunkSize(n, threads)
  {
    var m := n + threads - 1;
    DivBounds(m, threads);
    DivIsLargest(m, threads, 1);
    assert (m / threads + 1) * threads == threads * (m / threads) + threads;
  }

  lemma ChunkOfIndex(n: nat, size: nat, i: nat, j: nat)
    requires size > 0
    ensures InChunk(n, size, i, j) <==> j < n && j / size == i
  {
    DivIsLargest(j, size, i);
    DivBounds(j, size);
    assert (i + 1) * size == i * size + size;
    assert (j / size + 1) * size == j / size * size + size;
  }

  /** For every batch size and thread count the chunks partition the index range: each
      index lies in exactly one chunk. */
  lemma ChunksPartition(n: nat, hardware: nat, j: nat) returns (i: nat)
    requires j < n
    ensures Threads(hardware, n) > 0
    ensures i < Threads(hardware, n) && InChunk(n, ChunkSize(n, Threads(hardware, n)), i, j)
    ensures forall k: nat :: InChunk(n, ChunkSize(n, Threads(hardware, n)), k, j) ==> k == i
  {
    var t := Threads(hardware, n);
    var c := ChunkSize(n, t);
    ChunkSizeBounds(n, t);
    i := j / c;
    forall k: nat ensures InChunk(n, c, k, j) <==> k == i {
      ChunkOfIndex(n, c, k, j);
    }
    DivIsLargest(j, c, t);
  }

  /** How many chunks hold an item. */
  function UsedChunks(n: nat, size: nat): nat
    requires size > 0
  {
    (n + size - 1) / size
  }

  /** The guard of the chunk loop. */
  predicate PastEnd(n: nat, size: nat, i: nat) {
    i * size >= n
  }

  ghost predicate HoldsItem(n: nat, size: nat, i: nat) {
    exists j: nat :: InChunk(n, size, i, j)
  }

  lemma UsedChunksExact(n: nat, size: nat, i: nat)
    requires size > 0
    ensures i < UsedChunks(n, size) <==> !PastEnd(n, size, i)
    ensures i < UsedChunks(n, size) <==> HoldsItem(n, size, i)
  {
    var m := n + size - 1;
    DivIsLargest(m, size, i + 1);
    DivIsLargest(m, size, i);
    assert (i + 1) * size == i * size + size;
    if i * size < n {
      assert InChunk(n, size, i, i * size);
    }
  }

  /** Exactly when the guard commented as "should never trigger" does: some chunk starts at or
      past the end if and only if the last one does.  The chunks that hold an item are the
      first `UsedChunks`, never more than there are threads. */
  lemma EmptyChunkIff(n: nat, hardware: nat)
    requires n > 0
    ensures var t := Threads(hardware, n);
            t > 0 && ChunkSize(n, t) > 0 &&
            var c := ChunkSize(n, t);
            && ((exists i: nat :: i < t && PastEnd(n, c, i)) <==> (t - 1) * c >= n)
            && (forall i: nat :: HoldsItem(n, c, i) <==> i < UsedChunks(n, c))
            && UsedChunks(n, c) <= t
            && (UsedChunks(n, c) < t <==> (t - 1) * c >= n)
  {
    var t := Threads(hardware, n);
    var c := ChunkSize(n, t);
    ChunkSizeBounds(n, t);
    UsedChunksExact(n, c, t);
    UsedChunksExact(n, c, t - 1);
    assert PastEnd(n, c, t - 1) <==> (t - 1) * c >= n;
    forall i: nat
      ensures i < UsedChunks(n, c) <==> !PastEnd(n, c, i)
      ensures i < UsedChunks(n, c) <==> HoldsItem(n, c, i)
    {
      UsedChunksExact(n, c, i);
    }
  }

  /** It does trigger: five items on four threads leave the last chunk empty. */
  lemma TrailingChunkCanBeEmpty()
    ensures Threads(4, 5) == 4 && Threads(8, 5) == 5 && Threads(0, 5) == 2
    ensures ChunkSize(5, 4) == 2 && 3 * ChunkSize(5, 4) >= 5
    ensures forall j: nat :: !InChunk(5, 2, 3, j)
  {
  }

  // ------------------------------------------------------------ interleaving

  /** A chunk's task: its next index, and whether it still has to store the failure flag
      for the item it has just written. */
  datatype ChunkTask = ChunkTask(cursor: nat, owes: bool)

  datatype Batch = Batch(outputs: seq<DecryptedTx>, flag: int, tasks: seq<ChunkTask>)

  ghost function Begin(prior: seq<DecryptedTx>, size: nat, threads: nat): Batch {
    Batch(prior, SO_SUCCESS, seq(threads, i requires 0 <= i < threads => ChunkTask(i * size, false)))
  }

  predicate TaskDone(n: nat, size: nat, b: Batch, i: nat)
    requires i < |b.tasks|
  {
    b.tasks[i].cursor >= ChunkEnd(n, size, i) && !b.tasks[i].owes
  }

  /** One write of one task; a finished task has none left. */
  function Act(open: Bytes -> Opened, inputs: seq<Bytes>, size: nat, b: Batch, i: nat): Batch
    requires |b.outputs| == |inputs|
  {
    if i >= |b.tasks| || TaskDone(|inputs|, size, b, i) then b else
    var task := b.tasks[i];
    var j := task.cursor;
    if task.owes then
      b.(flag := SO_ERR_BAD_CIPHER, tasks := b.tasks[i := ChunkTask(j + 1, false)])
    else
      assert j < ChunkEnd(|inputs|, size, i) <= |inputs|;
      var out := Item(open, inputs[j], j, b.outputs[j]);
      b.(outputs := b.outputs[j := out],
         tasks := b.tasks[i := if out.status != SO_SUCCESS then ChunkTask(j, true) else ChunkTask(j + 1, false)])
  }

  /** The state after the writes of a schedule, a list of task numbers in any order. */
  ghost function RunSchedule(open: Bytes -> Opened, inputs: seq<Bytes>, prior: seq<DecryptedTx>,
                             size: nat, threads: nat, schedule: seq<nat>): (b: Batch)
    requires |prior| == |inputs|
    ensures |b.outputs| == |inputs| && |b.tasks| == threads
    decreases |schedule|
  {
    if schedule == [] then Begin(prior, size, threads) else
    var n := |schedule| - 1;
    Act(open, inputs, size, RunSchedule(open, inputs, prior, size, threads, schedule[..n]), schedule[n])
  }

  /** Item j has been written, by the task of its chunk. */
  ghost predicate Written(b: Batch, size: nat, j: nat)
    requires size > 0
  {
    j / size < |b.tasks| &&
    (j < b.tasks[j / size].cursor || (j == b.tasks[j / size].cursor && b.tasks[j / size].owes))
  }

  /** Item j has been written and, if it failed, reported. */
  ghost predicate Reported(b: Batch, size: nat, j: nat)
    requires size > 0
  {
    j / size < |b.tasks| && j < b.tasks[j / size].cursor
  }

  ghost predicate Inv(open: Bytes -> Opened, inputs: seq<Bytes>, prior: seq<DecryptedTx>, size: nat, b: Batch) {
    && size > 0 && |b.outputs| == |inputs| == |prior|
    && (forall i :: 0 <= i < |b.tasks| ==> i * size <= b.tasks[i].cursor)
    && (forall i :: 0 <= i < |b.tasks| && b.tasks[i].owes ==>
          && b.tasks[i].cursor < ChunkEnd(|inputs|, size, i)
          && !Opens(open, inputs[b.tasks[i].cursor]))
    && (forall j :: 0 <= j < |inputs| ==>
          b.outputs[j] == if Written(b, size, j) then Item(open, inputs[j], j, prior[j]) else prior[j])
    && (b.flag == SO_SUCCESS || b.flag == SO_ERR_BAD_CIPHER)
    && (b.flag == SO_SUCCESS ==> forall j :: 0 <= j < |inputs| && Reported(b, size, j) ==> Opens(open, inputs[j]))
    && (b.flag == SO_ERR_BAD_CIPHER ==>
          exists j :: 0 <= j < |inputs| && Reported(b, size, j) && !Opens(open, inputs[j]))
  }

  /** Only the item under the acting task's cursor changes its standing. */
  lemma ActFrame(open: Bytes -> Opened, inputs: seq<Bytes>, size: nat, b: Batch, i: nat, j: nat)
    requires size > 0 && |b.outputs| == |inputs| && i < |b.tasks| && j < |inputs|
    requires !TaskDone(|inputs|, size, b, i) && i * size <= b.tasks[i].cursor < ChunkEnd(|inputs|, size, i)
    requires j != b.tasks[i].cursor
    ensures var c := Act(open, inputs, size, b, i);
            && (Written(c, size, j) <==> Written(b, size, j)) && (Reported(c, size, j) <==> Reported(b, size, j))
            && c.outputs[j] == b.outputs[j]
  {
    ChunkOfIndex(|inputs|, size, i, j);
  }

  lemma ActKeepsInv(open: Bytes -> Opened, inputs: seq<Bytes>, prior: seq<DecryptedTx>, size: nat, b: Batch, i: nat)
    requires Inv(open, inputs, prior, size, b)
    ensures Inv(open, inputs, prior, size, Act(open, inputs, size, b, i))
  {
    if i < |b.tasks| && !TaskDone(|inputs|, size, b, i) {
      var c := Act(open, inputs, size, b, i);
      var x := b.tasks[i].cursor;
      ChunkOfIndex(|inputs|, size, i, x);
      forall j | 0 <= j < |inputs| && j != x
        ensures (Written(c, size, j) <==> Written(b, size, j)) && (Reported(c, size, j) <==> Reported(b, size, j))
        ensures c.outputs[j] == b.outputs[j]
      {
        ActFrame(open, inputs, size, b, i, j);
      }
      if b.flag == SO_ERR_BAD_CIPHER {
        var j :| 0 <= j < |inputs| && Reported(b, size, j) && !Opens(open, inputs[j]);
        assert Reported(c, size, j);
      }
      if b.tasks[i].owes {
        assert Reported(c, size, x);
      }
    }
  }

  lemma {:induction false} ScheduleKeepsInv(open: Bytes -> Opened, inputs: seq<Bytes>, prior: seq<DecryptedTx>,
                                            size: nat, threads: nat, schedule: seq<nat>)
    requires size > 0 && |prior| == |inputs|
    ensures Inv(open, inputs, prior, size, RunSchedule(open, inputs, prior, size, threads, schedule))
    decreases |schedule|
  {
    if schedule == [] {
      forall j | 0 <= j < |inputs| ensures !Written(Begin(prior, size, threads), size, j) {
        ChunkOfIndex(|inputs|, size, j / size, j);
      }
    } else {
      var n := |schedule| - 1;
      ScheduleKeepsInv(open, inputs, prior, size, threads, schedule[..n]);
      var b := RunSchedule(open, inputs, prior, size, threads, schedule[..n]);
      ActKeepsInv(open, inputs, prior, size, b, schedule[n]);
    }
  }

  /** Whatever the order of the writes, once all tasks are done the outputs are those of
      the sequential loop, and the flag is success exactly when every item succeeded. */
  lemma AnyScheduleIsSequential(open: Bytes -> Opened, inputs: seq<Bytes>, prior: seq<DecryptedTx>,
                                hardware: nat, threads: nat, size: nat, schedule: seq<nat>)
    requires |prior| == |inputs| > 0
    requires threads == Threads(hardware, |inputs|) > 0 && size == ChunkSize(|inputs|, threads)
    requires forall i :: 0 <= i < threads ==>
               TaskDone(|inputs|, size, RunSchedule(open, inputs, prior, size, threads, schedule), i)
    ensures var b := RunSchedule(open, inputs, prior, size, threads, schedule);
            && b.outputs == Sequential(open, inputs, prior) && AllDecrypted(open, inputs, prior, b.outputs)
            && (b.flag == SO_SUCCESS <==> forall j :: 0 <= j < |inputs| ==> Opens(open, inputs[j]))
            && (b.flag == SO_SUCCESS || b.flag == SO_ERR_BAD_CIPHER)
  {
    ChunkSizeBounds(|inputs|, threads);
    var b := RunSchedule(open, inputs, prior, size, threads, schedule);
    ScheduleKeepsInv(open, inputs, prior, size, threads, schedule);
    forall j | 0 <= j < |inputs| ensures Written(b, size, j) && Reported(b, size, j) {
      var i := ChunksPartition(|inputs|, hardware, j);
      ChunkOfIndex(|inputs|, size, i, j);
      assert TaskDone(|inputs|, size, b, i);
    }
    FinishedBatch(open, inputs, prior, size, b);
    SequentialDecrypts(open, inputs, prior);
  }

  lemma FinishedBatch(open: Bytes -> Opened, inputs: seq<Bytes>, prior: seq<DecryptedTx>, size: nat, b: Batch)
    requires Inv(open, inputs, prior, size, b)
    requires forall j :: 0 <= j < |inputs| ==> Written(b, size, j) && Reported(b, size, j)
    ensures b.outputs == Sequential(open, inputs, prior)
    ensures b.flag == SO_SUCCESS <==> forall j :: 0 <= j < |inputs| ==> Opens(open, inputs[j])
  {
  }

  // ------------------------------------------------------------ how long it takes

  /** How many writes the tasks of a schedule have made; a turn of a finished task is none. */
  ghost function Moves(open: Bytes -> Opened, inputs: seq<Bytes>, prior: seq<DecryptedTx>,
                       size: nat, threads: nat, schedule: seq<nat>): nat
    requires |prior| == |inputs|
    decreases |schedule|
  {
    if schedule == [] then 0 else
    var n := |schedule| - 1;
    var b := RunSchedule(open, inputs, prior, size, threads, schedule[..n]);
    Moves(open, inputs, prior, size, threads, schedule[..n]) +
    if schedule[n] < threads && !TaskDone(|inputs|, size, b, schedule[n]) then 1 else 0
  }

  /** The writes an item costs in all: its output, and the flag if it fails. */
  function Cost(open: Bytes -> Opened, input: Bytes): nat {
    if Opens(open, input) then 1 else 2
  }

  ghost function TotalCost(open: Bytes -> Opened, inputs: seq<Bytes>, upto: nat): nat
    requires upto <= |inputs|
  {
    if upto == 0 then 0 else TotalCost(open, inputs, upto - 1) + Cost(open, inputs[upto - 1])
  }

  /** The writes already made for item j. */
  ghost function Spent(open: Bytes -> Opened, inputs: seq<Bytes>, size: nat, b: Batch, j: nat): nat
    requires size > 0 && j < |inputs|
  {
    if Reported(b, size, j) then Cost(open, inputs[j]) else if Written(b, size, j) then 1 else 0
  }

  ghost function TotalSpent(open: Bytes -> Opened, inputs: seq<Bytes>, size: nat, b: Batch, upto: nat): nat
    requires size > 0 && upto <= |inputs|
  {
    if upto == 0 then 0 else
    TotalSpent(open, inputs, size, b, upto - 1) + Spent(open, inputs, size, b, upto - 1)
  }

  /** A write is spent on the item under the cursor, and on no other. */
  lemma ActSpends(open: Bytes -> Opened, inputs: seq<Bytes>, prior: seq<DecryptedTx>, size: nat, b: Batch, i: nat)
    requires Inv(open, inputs, prior, size, b) && i < |b.tasks| && !TaskDone(|inputs|, size, b, i)
    ensures b.tasks[i].cursor < |inputs|
    ensures var c := Act(open, inputs, size, b, i);
            forall j: nat :: j < |inputs| ==>
              Spent(open, inputs, size, c, j) ==
              Spent(open, inputs, size, b, j) + if j == b.tasks[i].cursor then 1 else 0
  {
    var c := Act(open, inputs, size, b, i);
    var x := b.tasks[i].cursor;
    ChunkOfIndex(|inputs|, size, i, x);
    forall j: nat | j < |inputs| && j != x
      ensures Spent(open, inputs, size, c, j) == Spent(open, inputs, size, b, j)
    {
      ActFrame(open, inputs, size, b, i, j);
    }
  }

  lemma {:induction false} SpentOnOne(open: Bytes -> Opened, inputs: seq<Bytes>, size: nat, b: Batch, c: Batch,
                                      x: nat, upto: nat)
    requires size > 0 && upto <= |inputs|
    requires forall j: nat :: j < |inputs| ==>
               Spent(open, inputs, size, c, j) == Spent(open, inputs, size, b, j) + if j == x then 1 else 0
    ensures TotalSpent(open, inputs, size, c, upto)
            == TotalSpent(open, inputs, size, b, upto) + if x < upto then 1 else 0
    decreases upto
  {
    if upto > 0 {
      SpentOnOne(open, inputs, size, b, c, x, upto - 1);
    }
  }

  lemma {:induction false} NothingSpent(open: Bytes -> Opened, inputs: seq<Bytes>, prior: seq<DecryptedTx>,
                                        size: nat, threads: nat, upto: nat)
    requires size > 0 && upto <= |inputs|
    ensures TotalSpent(open, inputs, size, Begin(prior, size, threads), upto) == 0
    decreases upto
  {
    if upto > 0 {
      ChunkOfIndex(|inputs|, size, (upto - 1) / size, upto - 1);
      NothingSpent(open, inputs, prior, size, threads, upto - 1);
    }
  }

  /** Every write of a run is spent on some item. */
  lemma {:induction false} MovesAreSpent(open: Bytes -> Opened, inputs: seq<Bytes>, prior: seq<DecryptedTx>,
                                         size: nat, threads: nat, schedule: seq<nat>)
    requires size > 0 && |prior| == |inputs|
    ensures Moves(open, inputs, prior, size, threads, schedule)
            == TotalSpent(open, inputs, size, RunSchedule(open, inputs, prior, size, threads, schedule), |inputs|)
    decreases |schedule|
  {
    if schedule == [] {
      NothingSpent(open, inputs, prior, size, threads, |inputs|);
    } else {
      var n := |schedule| - 1;
      var b := RunSchedule(open, inputs, prior, size, threads, schedule[..n]);
      MovesAreSpent(open, inputs, prior, size, threads, schedule[..n]);
      ScheduleKeepsInv(open, inputs, prior, size, threads, schedule[..n]);
      if schedule[n] < threads && !TaskDone(|inputs|, size, b, schedule[n]) {
        var c := Act(open, inputs, size, b, schedule[n]);
        ActSpends(open, inputs, prior, size, b, schedule[n]);
        SpentOnOne(open, inputs, size, b, c, b.tasks[schedule[n]].cursor, |inputs|);
      }
    }
  }

  /** All items below `upto` are settled. */
  ghost predicate AllReported(b: Batch, size: nat, upto: nat)
    requires size > 0
  {
    forall j: nat :: j < upto ==> Reported(b, size, j)
  }

  lemma {:induction false} SpentVersusCost(open: Bytes -> Opened, inputs: seq<Bytes>, prior: seq<DecryptedTx>,
                                           size: nat, b: Batch, upto: nat)
    requires Inv(open, inputs, prior, size, b) && upto <= |inputs|
    ensures TotalSpent(open, inputs, size, b, upto) <= TotalCost(open, inputs, upto) <= 2 * upto
    ensures TotalSpent(open, inputs, size, b, upto) == TotalCost(open, inputs, upto) <==> AllReported(b, size, upto)
    decreases upto
  {
    if upto > 0 {
      SpentVersusCost(open, inputs, prior, size, b, upto - 1);
      SpentAtMostCost(open, inputs, prior, size, b, upto - 1);
      assert AllReported(b, size, upto) <==> AllReported(b, size, upto - 1) && Reported(b, size, upto - 1);
    }
  }

  /** An item that is written and not reported is a failed one, with the flag still to come. */
  lemma SpentAtMostCost(open: Bytes -> Opened, inputs: seq<Bytes>, prior: seq<DecryptedTx>,
                        size: nat, b: Batch, j: nat)
    requires Inv(open, inputs, prior, size, b) && j < |inputs|
    ensures Spent(open, inputs, size, b, j) <= Cost(open, inputs[j])
    ensures Spent(open, inputs, size, b, j) == Cost(open, inputs[j]) <==> Reported(b, size, j)
  {
  }

  /** All tasks are done exactly when all items are settled. */
  lemma DoneIffReported(open: Bytes -> Opened, inputs: seq<Bytes>, prior: seq<DecryptedTx>, hardware: nat, b: Batch)
    requires |inputs| > 0 && |b.tasks| == Threads(hardware, |inputs|) > 0
    requires Inv(open, inputs, prior, ChunkSize(|inputs|, |b.tasks|), b)
    ensures var size := ChunkSize(|inputs|, |b.tasks|);
            AllReported(b, size, |inputs|) <==> forall i :: 0 <= i < |b.tasks| ==> TaskDone(|inputs|, size, b, i)
  {
    var n, size := |inputs|, ChunkSize(|inputs|, |b.tasks|);
    if forall i :: 0 <= i < |b.tasks| ==> TaskDone(n, size, b, i) {
      forall j: nat | j < n ensures Reported(b, size, j) {
        var i := ChunksPartition(n, hardware, j);
        ChunkOfIndex(n, size, i, j);
        assert TaskDone(n, size, b, i);
      }
    }
    if AllReported(b, size, n) {
      forall i | 0 <= i < |b.tasks| ensures TaskDone(n, size, b, i) {
        var x := b.tasks[i].cursor;
        ChunkOfIndex(n, size, i, x);
        assert x < n ==> (Reported(b, size, x) <==> x / size < |b.tasks| && x < b.tasks[x / size].cursor);
      }
    }
  }

  /** However the tasks are scheduled, a batch takes exactly one write per item and one more
      per failing item, so at most two per item: no run makes more, and the tasks are all
      done once that many have been made and not before. */
  lemma ScheduleTerminates(open: Bytes -> Opened, inputs: seq<Bytes>, prior: seq<DecryptedTx>,
                           hardware: nat, threads: nat, size: nat, schedule: seq<nat>)
    requires |prior| == |inputs| > 0
    requires threads == Threads(hardware, |inputs|) > 0 && size == ChunkSize(|inputs|, threads)
    ensures var total := TotalCost(open, inputs, |inputs|);
            var moves := Moves(open, inputs, prior, size, threads, schedule);
            && moves <= total <= 2 * |inputs|
            && (moves == total <==> forall i :: 0 <= i < threads ==>
                  TaskDone(|inputs|, size, RunSchedule(open, inputs, prior, size, threads, schedule), i))
  {
    var b := RunSchedule(open, inputs, prior, size, threads, schedule);
    ChunkSizeBounds(|inputs|, threads);
    ScheduleKeepsInv(open, inputs, prior, size, threads, schedule);
    MovesAreSpent(open, inputs, prior, size, threads, schedule);
    SpentVersusCost(open, inputs, prior, size, b, |inputs|);
    DoneIffReported(open, inputs, prior, hardware, b);
  }

  // ------------------------------------------------------ the loops themselves

  /** One chunk's loop on the shared array (lines 99-137). */
  method RunChunk(open: Bytes -> Opened, inputs: seq<Bytes>, outputs: array<DecryptedTx>, start: nat, end: nat)
    returns (failed: bool)
    requires outputs.Length == |inputs| && start <= end <= |inputs|
    modifies outputs
    ensures forall j :: 0 <= j < |inputs| ==>
              if start <= j < end then Decrypted(open, inputs[j], j, old(outputs[j]), outputs[j])
              else outputs[j] == old(outputs[j])
    ensures forall j :: start <= j < end ==> outputs[j] == Item(open, inputs[j], j, old(outputs[j]))
    ensures failed <==> exists j :: start <= j < end && !Opens(open, inputs[j])
  {
    failed := false;
    for j := start to end
      invariant forall k :: 0 <= k < |inputs| ==>
                  outputs[k] == if start <= k < j then Item(open, inputs[k], k, old(outputs[k])) else old(outputs[k])
      invariant failed <==> exists k :: start <= k < j && !Opens(open, inputs[k])
    {
      outputs[j] := Item(open, inputs[j], j, outputs[j]);
      if outputs[j].status != SO_SUCCESS {
        failed := true;
      }
    }
  }

  /** The first `upto` outputs are decrypted and the rest untouched. */
  ghost predicate DecryptedUpTo(open: Bytes -> Opened, inputs: seq<Bytes>, prior: seq<DecryptedTx>,
                                outputs: seq<DecryptedTx>, upto: nat) {
    && |outputs| == |inputs| == |prior|
    && forall j :: 0 <= j < |inputs| ==>
         outputs[j] == if j < upto then Item(open, inputs[j], j, prior[j]) else prior[j]
  }

  ghost predicate AllOpen(open: Bytes -> Opened, inputs: seq<Bytes>, upto: nat) {
    forall j :: 0 <= j < |inputs| && j < upto ==> Opens(open, inputs[j])
  }

  /** decrypt_batch with its tasks run one after the other: the chunks the loop hands out
      cover the batch, so the array holds the sequential result. */
  method DecryptBatch(open: Bytes -> Opened, hardware: nat, inputs: seq<Bytes>, outputs: array<DecryptedTx>)
    returns (code: int)
    requires outputs.Length == |inputs|
    modifies outputs
    ensures outputs[..] == Sequential(open, inputs, old(outputs[..]))
    ensures AllDecrypted(open, inputs, old(outputs[..]), outputs[..])
    ensures code == if AllOpen(open, inputs, |inputs|) then 0 else -1
  {
    var n := |inputs|;
    if n == 0 { return SO_SUCCESS; }
    var t := Threads(hardware, n);
    var size := ChunkSize(n, t);
    ChunkSizeBounds(n, t);
    var anyFailure := SO_SUCCESS;
    ghost var prior := outputs[..];
    var i, start := 0, 0;
    while i < t && start < n
      invariant i <= t && start == i * size
      invariant DecryptedUpTo(open, inputs, prior, outputs[..], start)
      invariant anyFailure == if AllOpen(open, inputs, start) then SO_SUCCESS else SO_ERR_BAD_CIPHER
    {
      var end := if start + size < n then start + size else n;
      var failed := RunChunk(open, inputs, outputs, start, end);
      if failed {
        anyFailure := SO_ERR_BAD_CIPHER;
      }
      assert (i + 1) * size == i * size + size;
      i, start := i + 1, start + size;
    }
    code := anyFailure;
    SequentialDecrypts(open, inputs, prior);
  }
}

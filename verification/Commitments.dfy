/** The byte strings that the sequencer hashes, and which transactions they determine.
    SHA-256 itself is a parameter. */
module Commitments {
  import opened Transactions
  import opened Hashing
  import opened IntegerMath

  // ------------------------------------------------- fixed-width little endian

  ghost function Pow256(n: nat): nat {
    if n == 0 then 1 else 256 * Pow256(n - 1)
  }

  function LittleEndian(x: nat, width: nat): (bytes: Bytes)
    ensures |bytes| == width
  {
    if width == 0 then [] else [x % 256] + LittleEndian(x / 256, width - 1)
  }

  ghost function FromLittleEndian(bytes: Bytes): nat {
    if bytes == [] then 0 else bytes[0] + 256 * FromLittleEndian(bytes[1..])
  }

  /** Decoding undoes encoding for every value that fits. */
  lemma {:induction false} LittleEndianRoundTrip(x: nat, width: nat)
    requires x < Pow256(width)
    ensures FromLittleEndian(LittleEndian(x, width)) == x
    decreases width
  {
    if width > 0 {
      LittleEndianRoundTrip(x / 256, width - 1);
    }
  }

  const TWO_63: int := 0x8000_0000_0000_0000
  const TWO_64: int := 0x1_0000_0000_0000_0000

  lemma Pow256Of8()
    ensures Pow256(8) == TWO_64
  {
    assert Pow256(4) == 0x1_0000_0000;
    assert Pow256(8) == 256 * (256 * (256 * (256 * Pow256(4))));
  }

  /** Go's conversion of an int64 to a uint64. */
  function ToUint64(t: int): nat
    requires -TWO_63 <= t < TWO_63
  {
    if t < 0 then t + TWO_64 else t
  }

  /** The ranges of the Go types: a uint64 ID and int64 nanoseconds. */
  predicate Encodable(tx: Tx) {
    tx.id < TWO_64 && -TWO_63 <= tx.arrivedAt < TWO_63
  }

  predicate AllEncodable(batch: seq<Tx>) {
    forall i :: 0 <= i < |batch| ==> Encodable(batch[i])
  }

  // ------------------------------------------------------------- the preimages

  /** ID, arrival time and ciphertext, as written to the hasher. */
  function Preimage(tx: Tx): Bytes
    requires Encodable(tx)
  {
    LittleEndian(tx.id, 8) + LittleEndian(ToUint64(tx.arrivedAt), 8) + tx.ciphertext
  }

  function BatchPreimage(batch: seq<Tx>): Bytes
    requires AllEncodable(batch)
  {
    if batch == [] then [] else Preimage(batch[0]) + BatchPreimage(batch[1..])
  }

  /** Byte k of the encoding, least significant first. */
  lemma {:induction false} LittleEndianByte(x: nat, width: nat, k: nat)
    requires k < width
    ensures Pow256(k) > 0 && LittleEndian(x, width)[k] == x / Pow256(k) % 256
    decreases k
  {
    if k > 0 {
      LittleEndianByte(x / 256, width - 1, k - 1);
      DivideTwice(x, Pow256(k - 1));
    }
  }

  lemma DivideTwice(x: nat, p: nat)
    requires p > 0
    ensures x / 256 / p == x / (256 * p)
  {
    var q := x / 256 / p;
    DivBounds(x, 256);
    DivBounds(x / 256, p);
    assert q * p <= x / 256 < (q + 1) * p;
    assert q * (256 * p) == 256 * (q * p) && (q + 1) * (256 * p) == 256 * ((q + 1) * p);
    DivIsLargest(x, 256 * p, q);
  }

  /** The layout: eight bytes of the ID, eight of the time as an unsigned word, both least
      significant first, then the ciphertext. */
  lemma PreimageLayout(tx: Tx, k: nat)
    requires Encodable(tx) && k < 8
    ensures Pow256(k) > 0 && |Preimage(tx)| == 16 + |tx.ciphertext| && Preimage(tx)[16..] == tx.ciphertext
    ensures Preimage(tx)[k] == tx.id / Pow256(k) % 256
    ensures Preimage(tx)[8 + k] == tx.arrivedAt % 0x1_0000_0000_0000_0000 / Pow256(k) % 256
  {
    LittleEndianByte(tx.id, 8, k);
    LittleEndianByte(ToUint64(tx.arrivedAt), 8, k);
    AsUnsigned(tx.arrivedAt);
    ThreeParts(LittleEndian(tx.id, 8), LittleEndian(ToUint64(tx.arrivedAt), 8), tx.ciphertext, k);
  }

  lemma AsUnsigned(t: int)
    requires -TWO_63 <= t < TWO_63
    ensures ToUint64(t) == t % 0x1_0000_0000_0000_0000
  {
  }

  lemma ThreeParts(a: Bytes, b: Bytes, c: Bytes, k: nat)
    requires |a| == |b| == 8 && k < 8
    ensures (a + b + c)[k] == a[k] && (a + b + c)[8 + k] == b[k] && (a + b + c)[16..] == c
  {
  }

  /** The first sixteen bytes give the ID and the time. */
  lemma HeaderDecodes(a: Tx, b: Tx, x: Bytes, y: Bytes)
    requires Encodable(a) && Encodable(b) && Preimage(a) + x == Preimage(b) + y
    ensures a.id == b.id && a.arrivedAt == b.arrivedAt
    ensures a.ciphertext + x == b.ciphertext + y
  {
    var p, q := Preimage(a) + x, Preimage(b) + y;
    var ta, tb := ToUint64(a.arrivedAt), ToUint64(b.arrivedAt);
    assert p[..8] == LittleEndian(a.id, 8) && q[..8] == LittleEndian(b.id, 8);
    assert p[8..16] == LittleEndian(ta, 8) && q[8..16] == LittleEndian(tb, 8);
    assert p[16..] == a.ciphertext + x && q[16..] == b.ciphertext + y;
    Pow256Of8();
    LittleEndianRoundTrip(a.id, 8);
    LittleEndianRoundTrip(b.id, 8);
    LittleEndianRoundTrip(ta, 8);
    LittleEndianRoundTrip(tb, 8);
  }

  /** The reception preimage determines the transaction. */
  lemma ReceptionPreimageInjective(a: Tx, b: Tx)
    requires Encodable(a) && Encodable(b) && Preimage(a) == Preimage(b)
    ensures a == b
  {
    assert Preimage(a) + [] == Preimage(a) && Preimage(b) + [] == Preimage(b);
    HeaderDecodes(a, b, [], []);
    assert a.ciphertext + [] == a.ciphertext && b.ciphertext + [] == b.ciphertext;
  }

  ghost predicate DistinctIds(batch: seq<Tx>) {
    forall i, j :: 0 <= i < j < |batch| ==> batch[i].id != batch[j].id
  }

  /** Two orderings of the same transactions with distinct IDs have different preimages. */
  lemma {:induction false} OrderIsCommitted(b1: seq<Tx>, b2: seq<Tx>)
    requires AllEncodable(b1) && AllEncodable(b2) && DistinctIds(b1)
    requires multiset(b1) == multiset(b2) && BatchPreimage(b1) == BatchPreimage(b2)
    ensures b1 == b2
    decreases |b1|
  {
    assert |b1| == |multiset(b1)| == |multiset(b2)| == |b2|;
    if b1 != [] {
      var x, y := BatchPreimage(b1[1..]), BatchPreimage(b2[1..]);
      HeaderDecodes(b1[0], b2[0], x, y);
      SameHead(b1, b2);
      SameSuffix(b1[0].ciphertext, x, y);
      OrderIsCommitted(b1[1..], b2[1..]);
    }
  }

  /** Rearrangements that start with the same ID start with the same transaction. */
  lemma SameHead(b1: seq<Tx>, b2: seq<Tx>)
    requires b1 != [] && b2 != [] && multiset(b1) == multiset(b2) && DistinctIds(b1) && b1[0].id == b2[0].id
    ensures b1[0] == b2[0] && multiset(b1[1..]) == multiset(b2[1..])
    ensures b1 == [b1[0]] + b1[1..] && b2 == [b2[0]] + b2[1..]
  {
    assert b2[0] in multiset(b1);
    RestOf(b1);
    RestOf(b2);
  }

  lemma RestOf(b: seq<Tx>)
    requires b != []
    ensures b == [b[0]] + b[1..] && multiset(b[1..]) == multiset(b) - multiset{b[0]}
  {
    assert b == [b[0]] + b[1..];
  }

  lemma SameSuffix(a: Bytes, x: Bytes, y: Bytes)
    requires a + x == a + y
    ensures x == y
  {
    assert x == (a + x)[|a|..] && y == (a + y)[|a|..];
  }

  ghost predicate SameLengths(b1: seq<Tx>, b2: seq<Tx>) {
    |b1| == |b2| && forall i :: 0 <= i < |b1| ==> |b1[i].ciphertext| == |b2[i].ciphertext|
  }

  lemma {:induction false} SameLengthsDecode(b1: seq<Tx>, b2: seq<Tx>)
    requires AllEncodable(b1) && AllEncodable(b2)
    requires BatchPreimage(b1) == BatchPreimage(b2) && SameLengths(b1, b2)
    ensures b1 == b2
    decreases |b1|
  {
    if b1 != [] {
      var x, y := BatchPreimage(b1[1..]), BatchPreimage(b2[1..]);
      HeaderDecodes(b1[0], b2[0], x, y);
      var c1, c2 := b1[0].ciphertext, b2[0].ciphertext;
      assert c1 == (c1 + x)[..|c1|] && c2 == (c2 + y)[..|c2|];
      SameSuffix(c1, x, y);
      SameLengthsDecode(b1[1..], b2[1..]);
      assert b1 == [b1[0]] + b1[1..] && b2 == [b2[0]] + b2[1..];
    }
  }

  /** Among batches with one preimage, exactly those with the same list of ciphertext
      lengths are equal. */
  lemma PreimageDecodesGivenLengths(b1: seq<Tx>, b2: seq<Tx>)
    requires AllEncodable(b1) && AllEncodable(b2) && BatchPreimage(b1) == BatchPreimage(b2)
    ensures b1 == b2 <==> SameLengths(b1, b2)
  {
    if SameLengths(b1, b2) {
      SameLengthsDecode(b1, b2);
    }
  }

  // ------------------------------------------------ what the preimage leaves open

  lemma {:induction false} BatchPreimageConcat(b1: seq<Tx>, b2: seq<Tx>)
    requires AllEncodable(b1) && AllEncodable(b2)
    ensures AllEncodable(b1 + b2) && BatchPreimage(b1 + b2) == BatchPreimage(b1) + BatchPreimage(b2)
    decreases |b1|
  {
    if b1 == [] {
      assert b1 + b2 == b2;
    } else {
      assert (b1 + b2)[0] == b1[0] && (b1 + b2)[1..] == b1[1..] + b2;
      BatchPreimageConcat(b1[1..], b2);
      Regroup(Preimage(b1[0]), BatchPreimage(b1[1..]), BatchPreimage(b2));
    }
  }

  lemma Regroup(a: Bytes, b: Bytes, c: Bytes)
    ensures a + (b + c) == a + b + c
  {
  }

  lemma PreimageOfOne(tx: Tx)
    requires Encodable(tx)
    ensures BatchPreimage([tx]) == Preimage(tx)
  {
    assert [tx][1..] == [];
  }

  lemma PreimageOfTwo(a: Tx, b: Tx)
    requires Encodable(a) && Encodable(b)
    ensures AllEncodable([a, b]) && BatchPreimage([a, b]) == Preimage(a) + Preimage(b)
  {
    PreimageOfOne(a);
    PreimageOfOne(b);
    BatchPreimageConcat([a], [b]);
    assert [a] + [b] == [a, b];
  }

  /** Replacing a part of a batch by one with the same preimage. */
  lemma SwapMiddle(front: seq<Tx>, x: seq<Tx>, y: seq<Tx>, rest: seq<Tx>)
    requires AllEncodable(front) && AllEncodable(x) && AllEncodable(y) && AllEncodable(rest)
    requires BatchPreimage(x) == BatchPreimage(y)
    ensures AllEncodable(front + x + rest) && AllEncodable(front + y + rest)
    ensures BatchPreimage(front + x + rest) == BatchPreimage(front + y + rest)
  {
    BatchPreimageConcat(front, x);
    BatchPreimageConcat(front, y);
    BatchPreimageConcat(front + x, rest);
    BatchPreimageConcat(front + y, rest);
  }

  /** Ciphertexts are not length-prefixed, so anywhere in a batch a transaction can absorb
      its successor without changing the preimage. */
  lemma NeighboursCanMerge(front: seq<Tx>, a: Tx, b: Tx, rest: seq<Tx>)
    requires AllEncodable(front) && Encodable(a) && Encodable(b) && AllEncodable(rest)
    ensures var merged := a.(ciphertext := a.ciphertext + Preimage(b));
            && AllEncodable(front + [merged] + rest) && AllEncodable(front + [a, b] + rest)
            && BatchPreimage(front + [merged] + rest) == BatchPreimage(front + [a, b] + rest)
            && front + [merged] + rest != front + [a, b] + rest
  {
    var merged := a.(ciphertext := a.ciphertext + Preimage(b));
    PreimageOfOne(merged);
    PreimageOfTwo(a, b);
    assert Preimage(merged) == Preimage(a) + Preimage(b);
    SwapMiddle(front, [merged], [a, b], rest);
    assert |front + [merged] + rest| != |front + [a, b] + rest|;
  }

  /** Encoding undoes decoding. */
  lemma {:induction false} FromLittleEndianRoundTrip(bytes: Bytes)
    ensures FromLittleEndian(bytes) < Pow256(|bytes|)
    ensures LittleEndian(FromLittleEndian(bytes), |bytes|) == bytes
    decreases |bytes|
  {
    if bytes != [] {
      FromLittleEndianRoundTrip(bytes[1..]);
      LowByte(bytes[0], FromLittleEndian(bytes[1..]));
      assert bytes == [bytes[0]] + bytes[1..];
    }
  }

  lemma LowByte(low: Byte, high: nat)
    ensures (low + 256 * high) % 256 == low && (low + 256 * high) / 256 == high
  {
  }

  /** Any sixteen bytes are the header of some transaction. */
  lemma AnyHeader(header: Bytes, ciphertext: Bytes) returns (tx: Tx)
    requires |header| == 16
    ensures Encodable(tx) && tx.ciphertext == ciphertext && Preimage(tx) == header + ciphertext
  {
    Pow256Of8();
    FromLittleEndianRoundTrip(header[..8]);
    FromLittleEndianRoundTrip(header[8..]);
    var time := FromLittleEndian(header[8..]);
    tx := Tx(FromLittleEndian(header[..8]), if time < TWO_63 then time else time - TWO_64, ciphertext);
    assert ToUint64(tx.arrivedAt) == time;
    assert header == header[..8] + header[8..];
  }

  /** The bytes of two neighbours, cut at another place, are two neighbours again. */
  lemma Recut(a: Tx, b: Tx, length: nat) returns (c: Tx, d: Tx)
    requires Encodable(a) && Encodable(b) && length <= |a.ciphertext| + |b.ciphertext|
    ensures Encodable(c) && Encodable(d) && |c.ciphertext| == length
    ensures Preimage(c) + Preimage(d) == Preimage(a) + Preimage(b)
  {
    var bytes := Preimage(a) + Preimage(b);
    assert |bytes| == 32 + |a.ciphertext| + |b.ciphertext|;
    var i := 16 + length;
    c := AnyHeader(bytes[..16], bytes[16..i]);
    d := AnyHeader(bytes[i..i + 16], bytes[i + 16..]);
    assert bytes[..16] + bytes[16..i] == bytes[..i];
    assert bytes[i..i + 16] + bytes[i + 16..] == bytes[i..];
    assert bytes[..i] + bytes[i..] == bytes;
  }

  /** Two neighbours that are not both empty can exchange bytes, so that a batch of the same
      size has the same preimage. */
  lemma NeighboursCanShift(front: seq<Tx>, a: Tx, b: Tx, rest: seq<Tx>) returns (c: Tx, d: Tx)
    requires AllEncodable(front) && Encodable(a) && Encodable(b) && AllEncodable(rest)
    requires a.ciphertext != [] || b.ciphertext != []
    ensures AllEncodable(front + [a, b] + rest) && AllEncodable(front + [c, d] + rest)
    ensures BatchPreimage(front + [c, d] + rest) == BatchPreimage(front + [a, b] + rest)
    ensures front + [c, d] + rest != front + [a, b] + rest
  {
    c, d := Recut(a, b, if a.ciphertext == [] then 1 else |a.ciphertext| - 1);
    PreimageOfTwo(a, b);
    PreimageOfTwo(c, d);
    SwapMiddle(front, [a, b], [c, d], rest);
    assert (front + [c, d] + rest)[|front|] == c && (front + [a, b] + rest)[|front|] == a;
  }

  ghost predicate AllEmpty(batch: seq<Tx>) {
    forall i :: 0 <= i < |batch| ==> batch[i].ciphertext == []
  }

  lemma {:induction false} PreimageLength(batch: seq<Tx>)
    requires AllEncodable(batch)
    ensures |BatchPreimage(batch)| >= 16 * |batch|
    ensures |BatchPreimage(batch)| == 16 * |batch| <==> AllEmpty(batch)
    decreases |batch|
  {
    if batch != [] {
      PreimageLength(batch[1..]);
      assert batch == [batch[0]] + batch[1..];
    }
  }

  /** Another batch of the same size with the same preimage. */
  ghost predicate Confusable(batch: seq<Tx>, other: seq<Tx>)
    requires AllEncodable(batch)
  {
    && AllEncodable(other) && |other| == |batch| && other != batch
    && BatchPreimage(other) == BatchPreimage(batch)
  }

  /** Exactly when the preimage fixes a batch among those of its size: if and only if it has
      fewer than two transactions or no ciphertext bytes at all. */
  lemma BatchRecoverableIff(batch: seq<Tx>)
    requires AllEncodable(batch)
    ensures (forall other :: !Confusable(batch, other)) <==> |batch| < 2 || AllEmpty(batch)
  {
    if |batch| < 2 || AllEmpty(batch) {
      forall other ensures !Confusable(batch, other) {
        if Confusable(batch, other) {
          SameSizeDecodes(batch, other);
        }
      }
    } else {
      var other := ShiftedBatch(batch);
    }
  }

  lemma ShiftedBatch(batch: seq<Tx>) returns (other: seq<Tx>)
    requires AllEncodable(batch) && |batch| >= 2 && !AllEmpty(batch)
    ensures Confusable(batch, other)
  {
    var k :| 0 <= k < |batch| && batch[k].ciphertext != [];
    var i := if k + 1 < |batch| then k else k - 1;
    var front, a, b, rest := batch[..i], batch[i], batch[i + 1], batch[i + 2..];
    var c, d := NeighboursCanShift(front, a, b, rest);
    assert front + [a, b] + rest == batch;
    other := front + [c, d] + rest;
  }

  lemma SameSizeDecodes(batch: seq<Tx>, other: seq<Tx>)
    requires AllEncodable(batch) && AllEncodable(other) && |other| == |batch|
    requires BatchPreimage(other) == BatchPreimage(batch) && (|batch| < 2 || AllEmpty(batch))
    ensures other == batch
  {
    PreimageLength(batch);
    PreimageLength(other);
    if |batch| == 1 {
      PreimageOfOne(batch[0]);
      PreimageOfOne(other[0]);
      assert batch == [batch[0]] && other == [other[0]];
      ReceptionPreimageInjective(batch[0], other[0]);
    } else if AllEmpty(batch) {
      SameLengthsDecode(batch, other);
    }
  }

  // ---------------------------------------------------------- the hashing loop

  lemma {:induction false} BatchPreimageSnoc(batch: seq<Tx>, tx: Tx)
    requires AllEncodable(batch) && Encodable(tx)
    ensures BatchPreimage(batch + [tx]) == BatchPreimage(batch) + Preimage(tx)
    decreases |batch|
  {
    if batch == [] {
      assert [tx][1..] == [];
    } else {
      assert (batch + [tx])[1..] == batch[1..] + [tx];
      BatchPreimageSnoc(batch[1..], tx);
    }
  }

  /** GenerateBatchCommitment: three writes per transaction to one running hasher. */
  method GenerateBatchCommitment<D>(sha: Bytes -> D, batch: seq<Tx>) returns (digest: D)
    requires AllEncodable(batch)
    ensures digest == sha(BatchPreimage(batch))
  {
    var written: Bytes := [];
    for i := 0 to |batch|
      invariant written == BatchPreimage(batch[..i])
    {
      var tx := batch[i];
      BatchPreimageSnoc(batch[..i], tx);
      assert batch[..i] + [tx] == batch[..i + 1];
      written := written + LittleEndian(tx.id, 8);
      written := written + LittleEndian(ToUint64(tx.arrivedAt), 8);
      written := written + tx.ciphertext;
    }
    assert batch[..|batch|] == batch;
    digest := sha(written);
  }

  /** Replacing any one transaction of a batch, its ciphertext, ID or time, changes the
      preimage. */
  lemma {:induction false} TamperingChangesPreimage(batch: seq<Tx>, i: nat, tx: Tx)
    requires AllEncodable(batch) && Encodable(tx) && i < |batch| && tx != batch[i]
    ensures AllEncodable(batch[i := tx]) && BatchPreimage(batch[i := tx]) != BatchPreimage(batch)
    decreases |batch|
  {
    var forged := batch[i := tx];
    var x, y := BatchPreimage(batch[1..]), BatchPreimage(forged[1..]);
    if i > 0 {
      assert forged[1..] == batch[1..][i - 1 := tx];
      TamperingChangesPreimage(batch[1..], i - 1, tx);
      if Preimage(batch[0]) + x == Preimage(batch[0]) + y {
        SameSuffix(Preimage(batch[0]), x, y);
      }
    } else {
      assert forged[1..] == batch[1..];
      if Preimage(batch[0]) + x == Preimage(tx) + x {
        HeaderDecodes(batch[0], tx, x, x);
        SameFront(batch[0].ciphertext, tx.ciphertext, x);
      }
    }
  }

  lemma SameFront(a: Bytes, b: Bytes, x: Bytes)
    requires a + x == b + x
    ensures a == b
  {
    assert |a| == |b|;
    assert a == (a + x)[..|a|] && b == (b + x)[..|b|];
  }

  /** With a collision-free hash, tampering with one transaction changes the commitment. */
  lemma TamperingChangesCommitment<D>(sha: Bytes -> D, batch: seq<Tx>, i: nat, tx: Tx)
    requires CollisionFree(sha) && AllEncodable(batch) && Encodable(tx) && i < |batch| && tx != batch[i]
    ensures AllEncodable(batch[i := tx]) && sha(BatchPreimage(batch[i := tx])) != sha(BatchPreimage(batch))
  {
    TamperingChangesPreimage(batch, i, tx);
  }

  /** With a collision-free hash, committing a batch commits to its order. */
  lemma ReorderingChangesCommitment<D>(sha: Bytes -> D, b1: seq<Tx>, b2: seq<Tx>)
    requires CollisionFree(sha) && AllEncodable(b1) && AllEncodable(b2) && DistinctIds(b1)
    requires multiset(b1) == multiset(b2) && b1 != b2
    ensures sha(BatchPreimage(b1)) != sha(BatchPreimage(b2))
  {
    if BatchPreimage(b1) == BatchPreimage(b2) {
      OrderIsCommitted(b1, b2);
    }
  }
}

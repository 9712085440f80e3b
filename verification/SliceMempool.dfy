/** The Go mempool between the collector and the batch loop: a slice over a backing array
    that is appended to, copied out of, and shifted left in place. */
module SliceMempool {
  import opened Transactions

  const NO_TX := Tx(0, 0, [])

  lemma FlattenNext(parts: seq<seq<Tx>>, k: nat, head: seq<Tx>)
    requires k < |parts|
    ensures head + Flatten(parts[..k]) + parts[k] == head + Flatten(parts[..k + 1])
    ensures [] + (head + Flatten(parts[..k])) == head + Flatten(parts[..k])
  {
    assert parts[..k + 1][..k] == parts[..k];
    assert head + (Flatten(parts[..k]) + parts[k]) == head + Flatten(parts[..k]) + parts[k];
  }

  /** A larger backing array that starts with the same elements. */
  method Larger(a: array<Tx>) returns (b: array<Tx>)
    ensures fresh(b) && b.Length == 2 * a.Length + 1 && b[..a.Length] == a[..]
  {
    b := new Tx[2 * a.Length + 1](_ => NO_TX);
    for i := 0 to a.Length
      invariant forall k :: 0 <= k < i ==> b[k] == a[k]
    {
      b[i] := a[i];
    }
  }

  class EncryptedMempool {
    var items: array<Tx>
    var len: nat

    ghost predicate Valid()
      reads this
    {
      len <= items.Length
    }

    /** The transactions held, oldest first. */
    ghost function Contents(): seq<Tx>
      requires Valid()
      reads this, items
    {
      items[..len]
    }

    constructor (capacity: int)
      ensures Valid() && fresh(items) && Contents() == []
    {
      items := new Tx[if capacity < 0 then 0 else capacity](_ => NO_TX);
      len := 0;
    }

    /** Appends, moving to a larger backing array when the slice is at capacity. */
    method Add(tx: Tx)
      requires Valid()
      modifies this, items
      ensures Valid() && (items == old(items) || fresh(items))
      ensures Contents() == old(Contents()) + [tx]
    {
      if len == items.Length {
        items := Larger(items);
      }
      items[len] := tx;
      len := len + 1;
    }

    /** `append(items[:0], items[n:]...)`: the overlapping copy to the front. */
    method ShiftLeft(n: nat)
      requires Valid() && n <= len
      modifies this, items
      ensures Valid() && items == old(items)
      ensures Contents() == old(Contents()[n..])
    {
      ghost var before := items[..];
      var rest := len - n;
      for i := 0 to rest
        invariant len == old(len) && items == old(items)
        invariant items[..i] == before[n..n + i]
        invariant items[i..] == before[i..]
      {
        assert items[i + n] == items[i..][n] == before[i + n];
        items[i] := items[i + n];
      }
      len := rest;
    }

    /** One turn of DrainWait under the lock: exactly n, or nothing. */
    method Poll(n: nat) returns (out: seq<Tx>)
      requires Valid() && n > 0
      modifies this, items
      ensures Valid() && items == old(items)
      ensures out + Contents() == old(Contents())
      ensures out == [] <==> |old(Contents())| < n
      ensures out == [] ==> Contents() == old(Contents())
      ensures out != [] ==> |out| == n
    {
      out := [];
      if len >= n {
        ghost var before := Contents();
        out := items[..n];
        ShiftLeft(n);
        assert before[..n] + before[n..] == before;
      }
    }

    /** The polling loop.  `arrivals[k]` is what other goroutines add during the k-th sleep;
        the context is cancelled after the last of them.  It returns at the first poll that
        finds n transactions, with the oldest n; otherwise it returns nothing and leaves
        everything in place. */
    method DrainWait(n: int, arrivals: seq<seq<Tx>>) returns (out: seq<Tx>, slept: nat)
      requires Valid()
      modifies this, items
      ensures Valid() && (items == old(items) || fresh(items))
      ensures slept <= |arrivals|
      ensures out + Contents() == old(Contents()) + Flatten(arrivals[..slept])
      ensures out != [] ==> |out| == n
      ensures forall k :: 0 <= k < slept ==> |old(Contents()) + Flatten(arrivals[..k])| < n
      ensures out == [] && n > 0 ==> slept == |arrivals| && |Contents()| < n
    {
      out, slept := [], 0;
      if n <= 0 { return; }
      while true
        invariant Valid() && (items == old(items) || fresh(items))
        invariant slept <= |arrivals| && out == []
        invariant Contents() == old(Contents()) + Flatten(arrivals[..slept])
        invariant forall k :: 0 <= k < slept ==> |old(Contents()) + Flatten(arrivals[..k])| < n
        decreases |arrivals| - slept
      {
        out := Poll(n);
        if out != [] || slept == |arrivals| { return; }
        AddAll(arrivals[slept]);
        FlattenNext(arrivals, slept, old(Contents()));
        slept := slept + 1;
      }
    }

    /** Several Add calls in a row. */
    method AddAll(txs: seq<Tx>)
      requires Valid()
      modifies this, items
      ensures Valid() && (items == old(items) || fresh(items))
      ensures Contents() == old(Contents()) + txs
    {
      for i := 0 to |txs|
        invariant Valid() && (items == old(items) || fresh(items))
        invariant Contents() == old(Contents()) + txs[..i]
      {
        Add(txs[i]);
      }
    }

    /** Up to n, never blocking. */
    method DrainUpTo(n: int) returns (out: seq<Tx>)
      requires Valid()
      modifies this, items
      ensures Valid() && items == old(items)
      ensures out + Contents() == old(Contents())
      ensures |out| == if n <= 0 then 0 else if n < |old(Contents())| then n else |old(Contents())|
    {
      out := [];
      if n <= 0 || len == 0 { return; }
      ghost var before := Contents();
      var k := if n > len then len else n;
      out := items[..k];
      ShiftLeft(k);
      assert before[..k] + before[k..] == before;
    }

    method DrainAll() returns (out: seq<Tx>)
      requires Valid()
      modifies this
      ensures Valid() && items == old(items)
      ensures out == old(Contents()) && Contents() == []
    {
      out := items[..len];
      len := 0;
    }
  }
}

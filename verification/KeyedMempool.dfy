/** The C++ mempool: a hash map for the ciphertexts and a deque of keys for the order, with
    removed keys left in the deque until the next drain. */
module KeyedMempool {
  import opened Transactions

  type Key = string

  // ------------------------------------------------------------- the class

  class EncryptedMempool {
    var mempool: map<Key, Bytes>
    var arrivalOrder: seq<Key>

    constructor ()
      ensures mempool == map[] && arrivalOrder == []
    {
      mempool, arrivalOrder := map[], [];
    }

    method AddTransaction(key: Key, value: Bytes)
      modifies this
      ensures mempool == old(mempool)[key := value]
      ensures arrivalOrder == AddedOrder(old(mempool), old(arrivalOrder), key)
    {
      var isNew := key !in mempool;
      mempool := mempool[key := value];
      if isNew {
        arrivalOrder := arrivalOrder + [key];
      }
    }

    method RemoveTransaction(key: Key)
      modifies this`mempool
      ensures mempool == old(mempool) - {key}
    {
      mempool := mempool - {key};
    }

    /** Walks the deque and moves each value out of the map; a moved-from vector stays in
        the map, empty, until both containers are cleared. */
    method DrainAll() returns (result: seq<(Key, Bytes)>)
      modifies this
      ensures mempool == map[] && arrivalOrder == []
      ensures result == DrainOut(old(mempool), old(arrivalOrder))
    {
      result := [];
      for i := 0 to |arrivalOrder|
        invariant arrivalOrder == old(arrivalOrder)
        invariant result + DrainOut(mempool, arrivalOrder[i..]) == DrainOut(old(mempool), arrivalOrder)
      {
        var key := arrivalOrder[i];
        assert arrivalOrder[i..][1..] == arrivalOrder[i + 1..];
        if key in mempool {
          result := result + [(key, mempool[key])];
          mempool := mempool[key := []];
        }
      }
      mempool, arrivalOrder := map[], [];
    }
  }

  function AddedOrder(pool: map<Key, Bytes>, order: seq<Key>, key: Key): seq<Key> {
    if key in pool then order else order + [key]
  }

  /** The pairs that the drain loop emits. */
  function DrainOut(pool: map<Key, Bytes>, order: seq<Key>): seq<(Key, Bytes)> {
    if order == [] then []
    else if order[0] in pool then [(order[0], pool[order[0]])] + DrainOut(pool[order[0] := []], order[1..])
    else DrainOut(pool, order[1..])
  }

  // --------------------------------------- runs, and the ordered map they refine

  datatype Call = Add(key: Key, value: Bytes) | Remove(key: Key) | Drain

  /** The store, with the history of keys that were added back, since the last drain, while
      their removed entry was still in the deque. */
  datatype Store = Store(pool: map<Key, Bytes>, order: seq<Key>, readded: set<Key>)

  function Apply(s: Store, c: Call): Store {
    match c
    case Add(k, v) =>
      Store(s.pool[k := v], AddedOrder(s.pool, s.order, k),
            if k !in s.pool && k in s.order then s.readded + {k} else s.readded)
    case Remove(k) => s.(pool := s.pool - {k})
    case Drain => Store(map[], [], {})
  }

  ghost function Run(calls: seq<Call>): Store {
    if calls == [] then Store(map[], [], {}) else Apply(Run(calls[..|calls| - 1]), calls[|calls| - 1])
  }

  /** The call changes what is stored under key k. */
  ghost predicate Touches(c: Call, k: Key) {
    c.Drain? || c.key == k
  }

  /** Call j adds k with value v, and no later call touches k. */
  ghost predicate AddedLast(calls: seq<Call>, j: int, k: Key, v: Bytes) {
    0 <= j < |calls| && calls[j] == Add(k, v) && forall m :: j < m < |calls| ==> !Touches(calls[m], k)
  }

  /** After any run a lookup finds a value exactly when it was added under that key and the
      key was neither added again nor removed, nor the store drained, since. */
  lemma {:induction false} LookupFindsLatest(calls: seq<Call>, k: Key, v: Bytes)
    ensures k in Run(calls).pool && Run(calls).pool[k] == v <==> exists j :: AddedLast(calls, j, k, v)
    decreases |calls|
  {
    if calls != [] {
      var n := |calls| - 1;
      var front := calls[..n];
      LookupFindsLatest(front, k, v);
      if calls[n] == Add(k, v) {
        assert AddedLast(calls, n, k, v);
      } else if !Touches(calls[n], k) {
        forall j ensures AddedLast(calls, j, k, v) <==> AddedLast(front, j, k, v) {
        }
      } else {
        assert forall j :: !AddedLast(calls, j, k, v);
      }
    }
  }

  /** The reference: keys in the order they were added, and their latest values. */
  datatype OrderedMap = OrderedMap(keys: seq<Key>, values: map<Key, Bytes>)

  function Without(keys: seq<Key>, k: Key): seq<Key> {
    if keys == [] then [] else
    var n := |keys| - 1;
    Without(keys[..n], k) + if keys[n] == k then [] else [keys[n]]
  }

  function ApplyRef(m: OrderedMap, c: Call): OrderedMap {
    match c
    case Add(k, v) => OrderedMap(if k in m.values then m.keys else m.keys + [k], m.values[k := v])
    case Remove(k) => OrderedMap(Without(m.keys, k), m.values - {k})
    case Drain => OrderedMap([], map[])
  }

  ghost function RunRef(calls: seq<Call>): OrderedMap {
    if calls == [] then OrderedMap([], map[]) else ApplyRef(RunRef(calls[..|calls| - 1]), calls[|calls| - 1])
  }

  /** The contents of an ordered map as pairs. */
  ghost function Pairs(keys: seq<Key>, values: map<Key, Bytes>): seq<(Key, Bytes)>
    requires forall i :: 0 <= i < |keys| ==> keys[i] in values
  {
    seq(|keys|, i requires 0 <= i < |keys| => (keys[i], values[keys[i]]))
  }

  // ----------------------------------------------------------- the invariant

  /** The live keys of the deque, each at its last occurrence. */
  ghost function LastOf(order: seq<Key>, live: set<Key>): seq<Key> {
    if order == [] then [] else
    var n := |order| - 1;
    if order[n] in live then LastOf(order[..n], live - {order[n]}) + [order[n]] else LastOf(order[..n], live)
  }

  /** All live occurrences of the deque, which the drain loop visits. */
  ghost function LiveOf(order: seq<Key>, live: set<Key>): seq<Key> {
    if order == [] then [] else
    var n := |order| - 1;
    LiveOf(order[..n], live) + if order[n] in live then [order[n]] else []
  }

  ghost predicate Twice(order: seq<Key>, k: Key) {
    multiset(order)[k] >= 2
  }

  ghost predicate Refines(s: Store, m: OrderedMap) {
    && m.values == s.pool && m.keys == LastOf(s.order, s.pool.Keys)
    && (forall k :: k in s.pool ==> k in s.order)
    && (forall k :: k in s.readded ==> k in s.order)
    && (forall k :: k in s.pool ==> (Twice(s.order, k) <==> k in s.readded))
  }

  lemma {:induction false} LastOfWithout(order: seq<Key>, live: set<Key>, k: Key)
    ensures LastOf(order, live - {k}) == Without(LastOf(order, live), k)
    decreases |order|
  {
    if order != [] {
      var n := |order| - 1;
      var x := order[n];
      if x in live {
        var front := LastOf(order[..n], live - {x});
        assert LastOf(order, live)[..|front|] == front;
        LastOfWithout(order[..n], live - {x}, k);
        if x == k {
          assert live - {k} - {k} == live - {k};
        } else {
          assert live - {x} - {k} == live - {k} - {x};
        }
      } else {
        LastOfWithout(order[..n], live, k);
      }
    }
  }

  lemma AddNewKeepsRefines(s: Store, m: OrderedMap, k: Key, v: Bytes)
    requires Refines(s, m) && k !in s.pool
    ensures Refines(Apply(s, Add(k, v)), ApplyRef(m, Add(k, v)))
  {
    var t := Apply(s, Add(k, v));
    assert t.pool.Keys == s.pool.Keys + {k} && t.pool.Keys - {k} == s.pool.Keys;
    assert t.order[..|s.order|] == s.order;
    forall x | x in t.pool ensures Twice(t.order, x) <==> x in t.readded {
      TwiceSnoc(s.order, k, x);
    }
  }

  lemma TwiceSnoc(order: seq<Key>, k: Key, x: Key)
    ensures Twice(order + [k], x) <==> Twice(order, x) || (x == k && k in order)
  {
    assert multiset(order + [k]) == multiset(order) + multiset{k};
    assert multiset(order)[k] > 0 <==> k in order;
  }

  lemma OverwriteKeepsRefines(s: Store, m: OrderedMap, k: Key, v: Bytes)
    requires Refines(s, m) && k in s.pool
    ensures Refines(Apply(s, Add(k, v)), ApplyRef(m, Add(k, v)))
  {
    assert s.pool[k := v].Keys == s.pool.Keys;
  }

  lemma RemoveKeepsRefines(s: Store, m: OrderedMap, k: Key)
    requires Refines(s, m)
    ensures Refines(Apply(s, Remove(k)), ApplyRef(m, Remove(k)))
  {
    assert (s.pool - {k}).Keys == s.pool.Keys - {k};
    LastOfWithout(s.order, s.pool.Keys, k);
  }

  lemma ApplyKeepsRefines(s: Store, m: OrderedMap, c: Call)
    requires Refines(s, m)
    ensures Refines(Apply(s, c), ApplyRef(m, c))
  {
    match c
    case Add(k, v) =>
      if k in s.pool {
        OverwriteKeepsRefines(s, m, k, v);
      } else {
        AddNewKeepsRefines(s, m, k, v);
      }
    case Remove(k) => RemoveKeepsRefines(s, m, k);
    case Drain =>
  }

  lemma {:induction false} RunRefines(calls: seq<Call>)
    ensures Refines(Run(calls), RunRef(calls))
    decreases |calls|
  {
    if calls != [] {
      RunRefines(calls[..|calls| - 1]);
      ApplyKeepsRefines(Run(calls[..|calls| - 1]), RunRef(calls[..|calls| - 1]), calls[|calls| - 1]);
    }
  }

  // ---------------------------------------------------- what a drain emits

  lemma {:induction false} LiveOfCons(order: seq<Key>, live: set<Key>)
    requires order != []
    ensures LiveOf(order, live) == (if order[0] in live then [order[0]] else []) + LiveOf(order[1..], live)
    decreases |order|
  {
    if |order| > 1 {
      var n := |order| - 1;
      assert order[..n][1..] == order[1..][..n - 1];
      LiveOfCons(order[..n], live);
    }
  }

  lemma {:induction false} LiveOfMembers(order: seq<Key>, live: set<Key>, k: Key)
    ensures k in LiveOf(order, live) <==> k in order && k in live
    decreases |order|
  {
    if order != [] {
      var n := |order| - 1;
      LiveOfMembers(order[..n], live, k);
      assert order == order[..n] + [order[n]];
    }
  }

  /** A drain emits one pair per live occurrence. */
  lemma {:induction false} DrainLength(pool: map<Key, Bytes>, order: seq<Key>)
    ensures |DrainOut(pool, order)| == |LiveOf(order, pool.Keys)|
    decreases |order|
  {
    if order != [] {
      LiveOfCons(order, pool.Keys);
      if order[0] in pool {
        assert pool[order[0] := []].Keys == pool.Keys;
        DrainLength(pool[order[0] := []], order[1..]);
      } else {
        DrainLength(pool, order[1..]);
      }
    }
  }

  lemma LiveOfIsLive(order: seq<Key>, pool: map<Key, Bytes>)
    ensures forall i :: 0 <= i < |LiveOf(order, pool.Keys)| ==> LiveOf(order, pool.Keys)[i] in pool
  {
    forall i | 0 <= i < |LiveOf(order, pool.Keys)| ensures LiveOf(order, pool.Keys)[i] in pool {
      LiveOfMembers(order, pool.Keys, LiveOf(order, pool.Keys)[i]);
    }
  }

  lemma OnceOnly(k: Key, rest: seq<Key>)
    requires !Twice([k] + rest, k)
    ensures k !in rest
  {
    assert multiset([k] + rest) == multiset{k} + multiset(rest);
  }

  lemma FewerInRest(k: Key, rest: seq<Key>, x: Key)
    requires !Twice([k] + rest, x)
    ensures !Twice(rest, x)
  {
    assert multiset([k] + rest) == multiset{k} + multiset(rest);
  }

  lemma PairsCons(k: Key, keys: seq<Key>, pool: map<Key, Bytes>)
    requires k in pool && k !in keys && forall i :: 0 <= i < |keys| ==> keys[i] in pool
    ensures Pairs([k] + keys, pool) == [(k, pool[k])] + Pairs(keys, pool[k := []])
  {
  }

  /** Without live duplicates each pair carries the key's value. */
  lemma {:induction false} DrainPairs(pool: map<Key, Bytes>, order: seq<Key>)
    requires forall k :: k in pool ==> !Twice(order, k)
    ensures forall i :: 0 <= i < |LiveOf(order, pool.Keys)| ==> LiveOf(order, pool.Keys)[i] in pool
    ensures DrainOut(pool, order) == Pairs(LiveOf(order, pool.Keys), pool)
    decreases |order|
  {
    LiveOfIsLive(order, pool);
    if order != [] {
      var k, rest := order[0], order[1..];
      assert order == [k] + rest;
      LiveOfCons(order, pool.Keys);
      forall x | x in pool ensures !Twice(rest, x) {
        FewerInRest(k, rest, x);
      }
      if k in pool {
        var moved := pool[k := []];
        assert moved.Keys == pool.Keys;
        DrainPairs(moved, rest);
        OnceOnly(k, rest);
        LiveOfMembers(rest, pool.Keys, k);
        LiveOfIsLive(rest, pool);
        PairsCons(k, LiveOf(rest, pool.Keys), pool);
      } else {
        DrainPairs(pool, rest);
      }
    }
  }

  lemma {:induction false} LiveOfDrop(order: seq<Key>, live: set<Key>, k: Key)
    requires k in live
    ensures |LiveOf(order, live)| == |LiveOf(order, live - {k})| + multiset(order)[k]
    ensures k !in order ==> LiveOf(order, live) == LiveOf(order, live - {k})
    decreases |order|
  {
    if order != [] {
      var n := |order| - 1;
      assert order == order[..n] + [order[n]];
      LiveOfDrop(order[..n], live, k);
    }
  }

  /** All live occurrences are the last ones exactly when no live key occurs twice. */
  lemma {:induction false} LiveVersusLast(order: seq<Key>, live: set<Key>)
    ensures |LiveOf(order, live)| >= |LastOf(order, live)|
    ensures (forall k :: k in live ==> !Twice(order, k)) ==> LiveOf(order, live) == LastOf(order, live)
    ensures |LiveOf(order, live)| == |LastOf(order, live)| ==> forall k :: k in live ==> !Twice(order, k)
    decreases |order|
  {
    if order != [] {
      var n := |order| - 1;
      var x, front := order[n], order[..n];
      assert order == front + [x];
      assert multiset(order) == multiset(front) + multiset{x};
      if x in live {
        LiveVersusLast(front, live - {x});
        LiveOfDrop(front, live, x);
        if |LiveOf(order, live)| == |LastOf(order, live)| {
          forall k | k in live ensures !Twice(order, k) {
            assert k != x ==> k in live - {x} && !Twice(front, k);
          }
        }
      } else {
        LiveVersusLast(front, live);
      }
    }
  }

  lemma {:induction false} LastOfSize(order: seq<Key>, live: set<Key>)
    requires forall k :: k in live ==> k in order
    ensures |LastOf(order, live)| == |live|
    decreases |order|
  {
    if order != [] {
      var n := |order| - 1;
      assert order == order[..n] + [order[n]];
      if order[n] in live {
        LastOfSize(order[..n], live - {order[n]});
      } else {
        LastOfSize(order[..n], live);
      }
    }
  }

  /** Key k is live after the calls: added, and neither removed nor drained since. */
  ghost predicate Live(calls: seq<Call>, k: Key) {
    exists j, v :: AddedLast(calls, j, k, v)
  }

  ghost predicate IsAdd(c: Call, k: Key) {
    c.Add? && c.key == k
  }

  /** Call i adds k, call j removes it later, and nothing drains after call i. */
  ghost predicate RemovedAt(calls: seq<Call>, k: Key, i: int, j: int) {
    && 0 <= i < j < |calls| && IsAdd(calls[i], k) && calls[j] == Remove(k)
    && forall m :: i < m < |calls| ==> !calls[m].Drain?
  }

  ghost predicate RemovedAfterAdd(calls: seq<Call>, k: Key) {
    exists i, j :: RemovedAt(calls, k, i, j)
  }

  /** Key k was added, removed and added again since the last drain. */
  ghost predicate AddedBack(calls: seq<Call>, k: Key) {
    exists i, j, l :: RemovedAt(calls, k, i, j) && j < l < |calls| && IsAdd(calls[l], k)
  }

  /** Every live key was added after any removal of it. */
  lemma LiveAfterRemoval(calls: seq<Call>, k: Key, i: int, j: int)
    requires RemovedAt(calls, k, i, j) && k in Run(calls).pool
    ensures AddedBack(calls, k)
  {
    LookupFindsLatest(calls, k, Run(calls).pool[k]);
    var l :| AddedLast(calls, l, k, Run(calls).pool[k]);
    assert Touches(calls[j], k);
    assert RemovedAt(calls, k, i, j) && j < l && IsAdd(calls[l], k);
  }

  lemma {:induction false} InOrderIff(calls: seq<Call>, k: Key)
    ensures k in Run(calls).order <==> exists i :: AddedUndrained(calls, k, i)
    decreases |calls|
  {
    if calls != [] {
      var n := |calls| - 1;
      var front := calls[..n];
      InOrderIff(front, k);
      if calls[n].Drain? {
        assert forall i :: !AddedUndrained(calls, k, i);
      } else {
        forall i | i != n ensures AddedUndrained(calls, k, i) <==> AddedUndrained(front, k, i) {
        }
        if IsAdd(calls[n], k) {
          assert AddedUndrained(calls, k, n);
          RunRefines(front);
        }
      }
    }
  }

  ghost predicate AddedUndrained(calls: seq<Call>, k: Key, i: int) {
    0 <= i < |calls| && IsAdd(calls[i], k) && forall m :: i < m < |calls| ==> !calls[m].Drain?
  }

  /** A key that is in the deque and not live was removed after it was added. */
  lemma {:induction false} StaleMeansRemoved(calls: seq<Call>, k: Key)
    requires k in Run(calls).order && k !in Run(calls).pool
    ensures RemovedAfterAdd(calls, k)
    decreases |calls|
  {
    var n := |calls| - 1;
    var front := calls[..n];
    if calls[n] == Remove(k) {
      InOrderIff(front, k);
      var i :| AddedUndrained(front, k, i);
      assert RemovedAt(calls, k, i, n);
    } else {
      StaleMeansRemoved(front, k);
      var i, j :| RemovedAt(front, k, i, j);
      assert RemovedAt(calls, k, i, j);
    }
  }

  lemma AddedBackGrows(calls: seq<Call>, k: Key)
    requires calls != [] && !calls[|calls| - 1].Drain? && AddedBack(calls[..|calls| - 1], k)
    ensures AddedBack(calls, k)
  {
    var front := calls[..|calls| - 1];
    var i, j, l :| RemovedAt(front, k, i, j) && j < l < |front| && IsAdd(front[l], k);
    assert RemovedAt(calls, k, i, j) && IsAdd(calls[l], k);
  }

  /** The keys marked as added back are those added, removed and added again. */
  lemma {:induction false} ReaddedIff(calls: seq<Call>, k: Key)
    ensures k in Run(calls).readded <==> AddedBack(calls, k)
    decreases |calls|
  {
    if calls != [] {
      var n := |calls| - 1;
      var front := calls[..n];
      ReaddedIff(front, k);
      if k in Run(calls).readded {
        ReaddedMeansAddedBack(calls, k);
      }
      if AddedBack(calls, k) {
        AddedBackMeansReadded(calls, k);
      }
    }
  }

  lemma ReaddedMeansAddedBack(calls: seq<Call>, k: Key)
    requires calls != [] && k in Run(calls).readded
    requires k in Run(calls[..|calls| - 1]).readded ==> AddedBack(calls[..|calls| - 1], k)
    ensures AddedBack(calls, k)
  {
    var n := |calls| - 1;
    var front := calls[..n];
    if k in Run(front).readded {
      AddedBackGrows(calls, k);
    } else {
      assert IsAdd(calls[n], k) && k in Run(front).order && k !in Run(front).pool;
      StaleMeansRemoved(front, k);
      StaleAddedBack(calls, k);
    }
  }

  lemma StaleAddedBack(calls: seq<Call>, k: Key)
    requires calls != [] && IsAdd(calls[|calls| - 1], k)
    requires RemovedAfterAdd(calls[..|calls| - 1], k)
    ensures AddedBack(calls, k)
  {
    var n := |calls| - 1;
    var i, j :| RemovedAt(calls[..n], k, i, j);
    assert RemovedAt(calls, k, i, j) && j < n && IsAdd(calls[n], k);
  }

  lemma AddedBackMeansReadded(calls: seq<Call>, k: Key)
    requires calls != [] && AddedBack(calls, k)
    requires AddedBack(calls[..|calls| - 1], k) ==> k in Run(calls[..|calls| - 1]).readded
    ensures k in Run(calls).readded
  {
    var n := |calls| - 1;
    var front := calls[..n];
    var i, j, l :| RemovedAt(calls, k, i, j) && j < l < |calls| && IsAdd(calls[l], k);
    assert !calls[n].Drain?;
    assert RemovedAt(front, k, i, j);
    if l < n {
      assert IsAdd(front[l], k);
      assert AddedBack(front, k);
    } else {
      AddAfterRemoval(calls, k, i, j);
    }
  }

  lemma AddAfterRemoval(calls: seq<Call>, k: Key, i: int, j: int)
    requires calls != [] && IsAdd(calls[|calls| - 1], k) && RemovedAt(calls[..|calls| - 1], k, i, j)
    requires AddedBack(calls[..|calls| - 1], k) ==> k in Run(calls[..|calls| - 1]).readded
    ensures k in Run(calls).readded
  {
    var front := calls[..|calls| - 1];
    if k in Run(front).pool {
      LiveAfterRemoval(front, k, i, j);
    } else {
      assert AddedUndrained(front, k, i);
      InOrderIff(front, k);
    }
  }

  lemma LiveIff(calls: seq<Call>, k: Key)
    ensures k in Run(calls).pool <==> Live(calls, k)
  {
    if k in Run(calls).pool {
      LookupFindsLatest(calls, k, Run(calls).pool[k]);
    }
    if Live(calls, k) {
      var j, v :| AddedLast(calls, j, k, v);
      LookupFindsLatest(calls, k, v);
    }
  }

  /** No live key was added, removed and added again since the last drain. */
  ghost predicate NoneAddedBack(calls: seq<Call>) {
    forall k :: Live(calls, k) ==> !AddedBack(calls, k)
  }

  /** In every run, a drain emits as many pairs as `size` reports if and only if no live key
      was added, removed and added again since the last drain; and then it emits exactly the
      ordered map: each live key once, in order of insertion, with its latest value. */
  lemma DrainIsOrderedMapIff(calls: seq<Call>)
    ensures var s, m := Run(calls), RunRef(calls);
            var out := DrainOut(s.pool, s.order);
            && (|out| == |s.pool| <==> NoneAddedBack(calls))
            && |out| >= |s.pool|
            && (forall i :: 0 <= i < |m.keys| ==> m.keys[i] in m.values)
            && (NoneAddedBack(calls) ==> out == Pairs(m.keys, m.values))
  {
    DrainIsExactIff(calls);
    forall k
      ensures k in Run(calls).pool <==> Live(calls, k)
      ensures k in Run(calls).readded <==> AddedBack(calls, k)
    {
      LiveIff(calls, k);
      ReaddedIff(calls, k);
    }
    assert NoneAddedBack(calls) <==> Run(calls).readded !! Run(calls).pool.Keys;
  }

  lemma DrainIsExactIff(calls: seq<Call>)
    ensures var s, m := Run(calls), RunRef(calls);
            var out := DrainOut(s.pool, s.order);
            && (|out| == |s.pool| <==> s.readded !! s.pool.Keys)
            && |out| >= |s.pool|
            && (forall i :: 0 <= i < |m.keys| ==> m.keys[i] in m.values)
            && (s.readded !! s.pool.Keys ==> out == Pairs(m.keys, m.values))
  {
    RunRefines(calls);
    var s := Run(calls);
    DrainLength(s.pool, s.order);
    LiveVersusLast(s.order, s.pool.Keys);
    LastOfSize(s.order, s.pool.Keys);
    forall i | 0 <= i < |RunRef(calls).keys| ensures RunRef(calls).keys[i] in s.pool {
      LastOfMembers(s.order, s.pool.Keys, i);
    }
    if s.readded !! s.pool.Keys {
      DrainPairs(s.pool, s.order);
    }
  }

  lemma {:induction false} LastOfMembers(order: seq<Key>, live: set<Key>, i: nat)
    requires i < |LastOf(order, live)|
    ensures LastOf(order, live)[i] in live
    decreases |order|
  {
    var n := |order| - 1;
    if order[n] in live {
      if i < |LastOf(order[..n], live - {order[n]})| {
        LastOfMembers(order[..n], live - {order[n]}, i);
      }
    } else {
      LastOfMembers(order[..n], live, i);
    }
  }

  /** Key k has been removed, and nothing drained since. */
  ghost predicate RemovedSinceDrain(calls: seq<Call>, k: Key) {
    exists i :: 0 <= i < |calls| && calls[i] == Remove(k) && forall j :: i < j < |calls| ==> !calls[j].Drain?
  }

  /** What a caller must avoid: adding back a removed key before the next drain. */
  ghost predicate NeverReadds(calls: seq<Call>) {
    forall j :: 0 <= j < |calls| && calls[j].Add? ==> !RemovedSinceDrain(calls[..j], calls[j].key)
  }

  /** What a caller may rely on without looking at what is live. */
  lemma NeverReaddsAddsNoneBack(calls: seq<Call>)
    requires NeverReadds(calls)
    ensures NoneAddedBack(calls)
  {
    forall k ensures !AddedBack(calls, k) {
      if AddedBack(calls, k) {
        AddedBackIsReadd(calls, k);
      }
    }
  }

  lemma AddedBackIsReadd(calls: seq<Call>, k: Key)
    requires AddedBack(calls, k)
    ensures !NeverReadds(calls)
  {
    var i, j, l :| RemovedAt(calls, k, i, j) && j < l < |calls| && IsAdd(calls[l], k);
    assert calls[..l][j] == Remove(k) && forall m :: j < m < l ==> !calls[..l][m].Drain?;
    assert RemovedSinceDrain(calls[..l], calls[l].key);
  }

  /** Over every run that adds no removed key back before the next drain, the lazily
      cleaned index refines the ordered map. */
  lemma DrainRefinesOrderedMap(calls: seq<Call>)
    requires NeverReadds(calls)
    ensures var s, m := Run(calls), RunRef(calls);
            && (forall i :: 0 <= i < |m.keys| ==> m.keys[i] in m.values)
            && DrainOut(s.pool, s.order) == Pairs(m.keys, m.values)
            && |DrainOut(s.pool, s.order)| == |s.pool|
  {
    NeverReaddsAddsNoneBack(calls);
    DrainIsOrderedMapIff(calls);
  }

  /** The failure: a key that is added, removed and added back is drained twice, the second
      time with an empty ciphertext. */
  lemma ReaddedKeyDrainsTwice(k: Key, v: Bytes, w: Bytes)
    ensures var s := Run([Add(k, v), Remove(k), Add(k, w)]);
            |s.pool| == 1 && DrainOut(s.pool, s.order) == [(k, w), (k, [])]
  {
    var calls := [Add(k, v), Remove(k), Add(k, w)];
    assert calls[..2][..1] == [Add(k, v)] && calls[..1][..0] == [];
    assert Run(calls[..1]) == Store(map[k := v], [k], {});
    assert calls[..2] == [Add(k, v), Remove(k)];
    assert Run(calls[..2]) == Store(map[], [k], {});
    var s := Run(calls);
    assert s == Store(map[k := w], [k, k], {k});
    assert [k, k][1..] == [k] && [k][1..] == [];
    assert DrainOut(map[k := w][k := []], [k]) == [(k, [])];
  }
}

/** What the pool promises over whole runs of calls, by any number of users, with
    reverted calls mixed in. */
module DexTheorems {
  import opened IntegerMath
  import opened DexModel

  function Last(calls: seq<Call>): Call
    requires calls != []
  {
    calls[|calls| - 1]
  }

  function Front(calls: seq<Call>): (front: seq<Call>)
    requires calls != []
    ensures |front| == |calls| - 1 && calls == front + [Last(calls)]
  {
    calls[..|calls| - 1]
  }

  /** The state after a run.  Every call, accepted or reverted, keeps the invariant: the
      stored product is the product of the reserves, the shares add up to the total, and
      the pool holds both tokens exactly while shares exist. */
  ghost function Run(s: Dex, calls: seq<Call>): (t: Dex)
    requires Inv(s)
    ensures Inv(t)
    decreases |calls|
  {
    if calls == [] then s else
    var p := Run(s, Front(calls));
    ApplyKeepsInv(p, Last(calls));
    Apply(p, Last(calls))
  }

  // ------------------------------------------------------------ conservation

  ghost function SupplyA(s: Dex): nat {
    Sum(s.balanceA) + s.reserveA + s.feeA
  }

  ghost function SupplyB(s: Dex): nat {
    SupplyA(Mirror(s))
  }

  /** Tokens created by the successful mints of a run. */
  ghost function MintedA(s: Dex, calls: seq<Call>): nat
    requires Inv(s)
    decreases |calls|
  {
    if calls == [] then 0 else
    MintedA(s, Front(calls)) +
    if Last(calls).Mint? && Succeeds(Run(s, Front(calls)), Last(calls)) then Last(calls).amountA else 0
  }

  ghost function MintedB(s: Dex, calls: seq<Call>): nat
    requires Inv(s)
    decreases |calls|
  {
    if calls == [] then 0 else
    MintedB(s, Front(calls)) +
    if Last(calls).Mint? && Succeeds(Run(s, Front(calls)), Last(calls)) then Last(calls).amountB else 0
  }

  function Caller(c: Call): Address {
    if c.Mint? then c.user else c.sender
  }

  lemma CallMovesTokens(s: Dex, c: Call)
    requires Inv(s)
    ensures SupplyA(Apply(s, c)) == SupplyA(s) + if c.Mint? && Succeeds(s, c) then c.amountA else 0
    ensures SupplyB(Apply(s, c)) == SupplyB(s) + if c.Mint? && Succeeds(s, c) then c.amountB else 0
  {
    if Succeeds(s, c) {
      var t := Apply(s, c);
      var who := Caller(c);
      if c.Remove? { SharesBound(s); }
      if c.Add? { DepositWithinOffer(s.total, s.reserveA, s.reserveB, c.amountA, c.amountB); }
      SumSet(s.balanceA, who, Get(t.balanceA, who));
      SumSet(s.balanceB, who, Get(t.balanceB, who));
      if c.SwapAForB? { SwapProduct(s.reserveA, s.reserveB, Net(c.amountIn)); }
      if c.SwapBForA? { SwapProduct(s.reserveB, s.reserveA, Net(c.amountIn)); }
    }
  }

  /** Per token, balances plus reserve plus accumulated fee is everything ever minted. */
  lemma {:induction false} Conservation(s: Dex, calls: seq<Call>)
    requires Inv(s)
    ensures SupplyA(Run(s, calls)) == SupplyA(s) + MintedA(s, calls)
    ensures SupplyB(Run(s, calls)) == SupplyB(s) + MintedB(s, calls)
    decreases |calls|
  {
    if calls != [] {
      Conservation(s, Front(calls));
      CallMovesTokens(Run(s, Front(calls)), Last(calls));
    }
  }

  lemma DeployedEmpty()
    ensures Inv(EMPTY) && SupplyA(EMPTY) == 0 && SupplyB(EMPTY) == 0
  {
  }

  /** Balances plus reserve plus fees is everything minted, per token; the shares add up to
      the total; the stored product is exact; and no shares exist exactly when both reserves
      are zero, and exactly when either is. */
  ghost predicate Consistent(t: Dex, mintedA: nat, mintedB: nat) {
    && SupplyA(t) == mintedA && SupplyB(t) == mintedB
    && Sum(t.shares) == t.total && t.lastK == t.reserveA * t.reserveB
    && (t.total == 0 <==> t.reserveA == 0 && t.reserveB == 0)
    && (t.total == 0 <==> t.reserveA == 0 || t.reserveB == 0)
  }

  lemma {:induction false} ConsistentFrom(s: Dex, calls: seq<Call>)
    requires Inv(s) && SupplyA(s) == 0 && SupplyB(s) == 0
    ensures Consistent(Run(s, calls), MintedA(s, calls), MintedB(s, calls))
  {
    Conservation(s, calls);
  }

  /** Every state reachable from deployment is consistent, so the overwrite of the reserves
      by a first deposit destroys nothing. */
  lemma {:induction false} PoolConsistent(calls: seq<Call>)
    ensures Inv(EMPTY) && Consistent(Run(EMPTY, calls), MintedA(EMPTY, calls), MintedB(EMPTY, calls))
  {
    DeployedEmpty();
    ConsistentFrom(EMPTY, calls);
  }

  /** A call touches nobody's holdings but its own caller's, so together with
      `CallMovesTokens` it pins down what the caller pays and receives. */
  lemma OthersUntouched(s: Dex, c: Call, who: Address)
    requires Inv(s) && who != Caller(c)
    ensures var t := Apply(s, c);
            && Get(t.balanceA, who) == Get(s.balanceA, who)
            && Get(t.balanceB, who) == Get(s.balanceB, who)
            && Get(t.shares, who) == Get(s.shares, who)
  {
  }

  // --------------------------------------------------------------- swap runs

  ghost predicate IsSwap(c: Call) {
    c.SwapAForB? || c.SwapBForA?
  }

  ghost predicate OnlySwaps(calls: seq<Call>) {
    forall i :: 0 <= i < |calls| ==> IsSwap(calls[i])
  }

  /** A swap raises the stored product by exactly the remainder it rounds away. */
  lemma SwapRaisesProduct(s: Dex, c: Call)
    requires Inv(s) && IsSwap(c) && Succeeds(s, c)
    ensures var dx := Net(c.amountIn);
            var rIn, rOut := if c.SwapAForB? then s.reserveA else s.reserveB,
                             if c.SwapAForB? then s.reserveB else s.reserveA;
            && Apply(s, c).lastK == s.lastK + rOut * dx % (rIn + dx)
            && Apply(s, c).total == s.total
            && Apply(s, c).feeA >= s.feeA && Apply(s, c).feeB >= s.feeB
  {
    if c.SwapAForB? {
      AfterSwapRaisesProduct(s, c.sender, c.amountIn);
    } else {
      MirrorInv(s);
      AfterSwapRaisesProduct(Mirror(s), c.sender, c.amountIn);
    }
  }

  lemma AfterSwapRaisesProduct(s: Dex, sender: Address, amountIn: nat)
    requires Inv(s) && s.total > 0 && Get(s.balanceA, sender) >= amountIn
    ensures AfterSwap(s, sender, amountIn).lastK
            == s.lastK + s.reserveB * Net(amountIn) % (s.reserveA + Net(amountIn))
  {
    SwapProduct(s.reserveA, s.reserveB, Net(amountIn));
  }

  lemma {:induction false} SwapsRaiseProduct(s: Dex, calls: seq<Call>)
    requires Inv(s) && OnlySwaps(calls)
    ensures var t := Run(s, calls);
            t.lastK >= s.lastK && t.total == s.total && t.feeA >= s.feeA && t.feeB >= s.feeB
    ensures SupplyA(Run(s, calls)) == SupplyA(s) && SupplyB(Run(s, calls)) == SupplyB(s)
    decreases |calls|
  {
    if calls != [] {
      SwapsRaiseProduct(s, Front(calls));
      var p := Run(s, Front(calls));
      CallMovesTokens(p, Last(calls));
      if Succeeds(p, Last(calls)) {
        SwapRaisesProduct(p, Last(calls));
      }
    }
  }

  /** From s to t the users together lose nothing of either token and gain some. */
  ghost predicate UsersGain(s: Dex, t: Dex) {
    && Sum(t.balanceA) >= Sum(s.balanceA) && Sum(t.balanceB) >= Sum(s.balanceB)
    && (Sum(t.balanceA) > Sum(s.balanceA) || Sum(t.balanceB) > Sum(s.balanceB))
  }

  /** No run of swaps, by any traders in any order, leaves the traders together with at
      least as much of both tokens and more of one. */
  lemma NoFreeLunch(s: Dex, calls: seq<Call>)
    requires Inv(s) && s.total > 0 && OnlySwaps(calls)
    ensures !UsersGain(s, Run(s, calls))
  {
    SwapsRaiseProduct(s, calls);
    LargerProductNoGain(s, Run(s, calls));
  }

  /** Where the supply and the fees do not fall, a product that does not fall leaves the
      users no gain. */
  lemma LargerProductNoGain(s: Dex, t: Dex)
    requires Inv(s) && Inv(t) && s.total > 0 && t.lastK >= s.lastK
    requires SupplyA(t) == SupplyA(s) && SupplyB(t) == SupplyB(s) && t.feeA >= s.feeA && t.feeB >= s.feeB
    ensures !UsersGain(s, t)
  {
    if t.reserveA <= s.reserveA && t.reserveB <= s.reserveB && (t.reserveA < s.reserveA || t.reserveB < s.reserveB) {
      ProductFalls(s.reserveA, s.reserveB, t.reserveA, t.reserveB);
    }
  }

  // -------------------------------------------------- splitting a swap or a burn

  ghost predicate AllAForB(calls: seq<Call>) {
    forall i :: 0 <= i < |calls| ==> calls[i].SwapAForB?
  }

  /** The post-fee inputs of the successful swaps of a run. */
  ghost function NetIn(s: Dex, calls: seq<Call>): nat
    requires Inv(s) && OnlySwaps(calls)
    decreases |calls|
  {
    if calls == [] then 0 else
    NetIn(s, Front(calls)) +
    if Succeeds(Run(s, Front(calls)), Last(calls)) then Net(Last(calls).amountIn) else 0
  }

  lemma {:induction false} NetInIsReserveGrowth(s: Dex, calls: seq<Call>)
    requires Inv(s) && AllAForB(calls)
    ensures OnlySwaps(calls)
    ensures var t := Run(s, calls);
            t.reserveA == s.reserveA + NetIn(s, calls) && t.reserveB <= s.reserveB && t.feeB == s.feeB
    decreases |calls|
  {
    if calls != [] {
      NetInIsReserveGrowth(s, Front(calls));
      var p := Run(s, Front(calls));
      if Succeeds(p, Last(calls)) {
        SwapProduct(p.reserveA, p.reserveB, Net(Last(calls).amountIn));
      }
    }
  }

  /** Consecutive A-for-B swaps pay, in total, at most what one swap of the same
      post-fee input pays. */
  lemma SplittingSwapsNeverPaysMore(s: Dex, calls: seq<Call>)
    requires Inv(s) && s.total > 0 && AllAForB(calls) && OnlySwaps(calls)
    ensures Sum(Run(s, calls).balanceB) - Sum(s.balanceB) <= SwapOut(s.reserveA, s.reserveB, NetIn(s, calls))
  {
    NetInIsReserveGrowth(s, calls);
    SwapsRaiseProduct(s, calls);
    SwapRunBound(s, Run(s, calls), NetIn(s, calls));
  }

  lemma SwapRunBound(s: Dex, t: Dex, dx: nat)
    requires Inv(s) && Inv(t) && s.total > 0
    requires t.reserveA == s.reserveA + dx && t.reserveB <= s.reserveB && t.feeB == s.feeB
    requires t.lastK >= s.lastK && SupplyB(t) == SupplyB(s)
    ensures Sum(t.balanceB) - Sum(s.balanceB) <= SwapOut(s.reserveA, s.reserveB, dx)
  {
    PayoutBound(s.reserveA, s.reserveB, dx, s.reserveB - t.reserveB);
  }

  ghost function MirrorCall(c: Call): Call {
    match c
    case SwapAForB(u, x, m) => SwapBForA(u, x, m)
    case SwapBForA(u, x, m) => SwapAForB(u, x, m)
    case _ => c
  }

  ghost function MirrorCalls(calls: seq<Call>): seq<Call> {
    seq(|calls|, i requires 0 <= i < |calls| => MirrorCall(calls[i]))
  }

  lemma MirrorApply(s: Dex, c: Call)
    requires Inv(s) && IsSwap(c)
    ensures Inv(Mirror(s)) && Apply(Mirror(s), MirrorCall(c)) == Mirror(Apply(s, c))
    ensures Succeeds(Mirror(s), MirrorCall(c)) <==> Succeeds(s, c)
  {
    MirrorInv(s);
  }

  lemma MirrorFront(calls: seq<Call>)
    requires calls != []
    ensures MirrorCalls(calls) != [] && MirrorCalls(Front(calls)) == Front(MirrorCalls(calls))
    ensures Last(MirrorCalls(calls)) == MirrorCall(Last(calls))
    ensures OnlySwaps(calls) ==> OnlySwaps(MirrorCalls(calls))
  {
  }

  /** Exchanging the tokens commutes with every run of swaps. */
  lemma {:induction false} MirrorRun(s: Dex, calls: seq<Call>)
    requires Inv(s) && OnlySwaps(calls)
    ensures Inv(Mirror(s)) && OnlySwaps(MirrorCalls(calls))
    ensures Run(Mirror(s), MirrorCalls(calls)) == Mirror(Run(s, calls))
    ensures NetIn(Mirror(s), MirrorCalls(calls)) == NetIn(s, calls)
    decreases |calls|
  {
    MirrorInv(s);
    if calls != [] {
      MirrorRun(s, Front(calls));
      MirrorFront(calls);
      MirrorApply(Run(s, Front(calls)), Last(calls));
    }
  }

  lemma SplittingSwapsNeverPaysMoreBForA(s: Dex, calls: seq<Call>)
    requires Inv(s) && s.total > 0 && OnlySwaps(calls)
    requires forall i :: 0 <= i < |calls| ==> calls[i].SwapBForA?
    ensures Sum(Run(s, calls).balanceA) - Sum(s.balanceA) <= SwapOut(s.reserveB, s.reserveA, NetIn(s, calls))
  {
    MirrorRun(s, calls);
    MirrorDirection(calls);
    SplittingSwapsNeverPaysMore(Mirror(s), MirrorCalls(calls));
  }

  lemma MirrorDirection(calls: seq<Call>)
    requires forall i :: 0 <= i < |calls| ==> calls[i].SwapBForA?
    ensures AllAForB(MirrorCalls(calls))
  {
  }

  ghost predicate OnlyRemoves(calls: seq<Call>) {
    forall i :: 0 <= i < |calls| ==> calls[i].Remove?
  }

  lemma {:induction false} RemovesKeepRatio(s: Dex, calls: seq<Call>)
    requires Inv(s) && OnlyRemoves(calls)
    ensures var t := Run(s, calls);
            && t.total <= s.total && t.reserveA <= s.reserveA && t.reserveB <= s.reserveB
            && t.reserveA * s.total >= s.reserveA * t.total
            && t.reserveB * s.total >= s.reserveB * t.total
            && t.feeA == s.feeA && t.feeB == s.feeB
            && SupplyA(t) == SupplyA(s) && SupplyB(t) == SupplyB(s)
    decreases |calls|
  {
    if calls != [] {
      RemovesKeepRatio(s, Front(calls));
      var p := Run(s, Front(calls));
      var t := Run(s, calls);
      CallMovesTokens(p, Last(calls));
      if Succeeds(p, Last(calls)) {
        SharesBound(p);
        RemovePerShare(p, Last(calls).sender, Last(calls).burned);
        RatioChain(s.reserveA, s.total, p.reserveA, p.total, t.reserveA, t.total);
        RatioChain(s.reserveB, s.total, p.reserveB, p.total, t.reserveB, t.total);
      }
    }
  }

  lemma RatioCapsPayout(r0: nat, t0: nat, r1: nat, t1: nat)
    requires t0 > 0 && t1 <= t0 && r1 <= r0 && r1 * t0 >= r0 * t1
    ensures r0 - r1 <= Claim(t0 - t1, r0, t0)
  {
    assert (r0 - r1) * t0 == r0 * t0 - r1 * t0;
    assert (t0 - t1) * r0 == r0 * t0 - r0 * t1;
    DivIsLargest((t0 - t1) * r0, t0, r0 - r1);
  }

  /** Burning shares in pieces, by anyone, pays at most what one burn of them all pays. */
  lemma SplittingBurnsNeverPaysMore(s: Dex, calls: seq<Call>)
    requires Inv(s) && s.total > 0 && OnlyRemoves(calls)
    ensures var t := Run(s, calls);
            && t.total <= s.total
            && Sum(t.balanceA) - Sum(s.balanceA) <= Claim(s.total - t.total, s.reserveA, s.total)
            && Sum(t.balanceB) - Sum(s.balanceB) <= Claim(s.total - t.total, s.reserveB, s.total)
  {
    var t := Run(s, calls);
    RemovesKeepRatio(s, calls);
    RatioCapsPayout(s.reserveA, s.total, t.reserveA, t.total);
    RatioCapsPayout(s.reserveB, s.total, t.reserveB, t.total);
  }

  // ------------------------------------------------------- reserves per share

  /** A removal never lowers what each remaining share is worth in either token. */
  lemma RemovePerShare(s: Dex, sender: Address, burned: nat)
    requires Inv(s) && RemoveSucceeds(s, sender, burned) && Get(s.shares, sender) <= s.total
    ensures var t := AfterRemove(s, sender, burned);
            && t.reserveA * s.total >= s.reserveA * t.total && t.reserveA <= s.reserveA
            && t.reserveB * s.total >= s.reserveB * t.total && t.reserveB <= s.reserveB
  {
    ClaimPerShare(burned, s.reserveA, s.total);
    ClaimPerShare(burned, s.reserveB, s.total);
  }

  lemma ClaimPerShare(burned: nat, r: nat, total: nat)
    requires 0 < burned <= total
    ensures Claim(burned, r, total) <= r
    ensures (r - Claim(burned, r, total)) * total >= r * (total - burned)
  {
    var c := Claim(burned, r, total);
    ClaimWithinReserve(burned, r, total);
    DivBounds(burned * r, total);
    assert (r - c) * total == r * total - c * total;
    assert r * (total - burned) == r * total - burned * r;
  }

  /** A claim is the proportional part of the reserve, rounded down. */
  lemma ClaimIsProportional(burned: nat, r: nat, total: nat)
    requires total > 0
    ensures Claim(burned, r, total) * total <= burned * r < (Claim(burned, r, total) + 1) * total
  {
    DivBounds(burned * r, total);
  }

  /** A deposit uses the whole offer of its scarce token and matches it at the pool's
      ratio, and mints the shares that its token A covers, all rounded down. */
  lemma DepositIsProportional(s: Dex, amountA: nat, amountB: nat)
    requires Inv(s) && s.total > 0
    ensures var d := DepositFor(s, amountA, amountB);
            && (ALimited(s, amountA, amountB) ==>
                  d.a == amountA && d.b * s.reserveA <= amountA * s.reserveB < (d.b + 1) * s.reserveA)
            && (BLimited(s, amountA, amountB) ==>
                  d.b == amountB && d.a * s.reserveB <= amountB * s.reserveA < (d.a + 1) * s.reserveB)
            && d.minted * s.reserveA <= d.a * s.total < (d.minted + 1) * s.reserveA
  {
    var d := DepositFor(s, amountA, amountB);
    DivBounds(d.a * s.total, s.reserveA);
    if ALimited(s, amountA, amountB) {
      DivBounds(amountA * s.reserveB, s.reserveA);
    } else {
      DivBounds(amountB * s.reserveA, s.reserveB);
    }
  }

  /** Growing a reserve and the shares together keeps the ratio exactly when the deposit
      covers the shares it mints. */
  lemma GrowRatio(r: nat, t: nat, dr: nat, dt: nat)
    ensures (r + dr) * t >= r * (t + dt) <==> dt * r <= dr * t
  {
    assert (r + dr) * t == r * t + dr * t;
    assert r * (t + dt) == r * t + dt * r;
  }

  lemma QuoteWithin(a: nat, b: nat, d: nat)
    requires d > 0
    ensures MulDiv(a, b, d) * d <= a * b < (MulDiv(a, b, d) + 1) * d
  {
    var n: nat := a * b;
    DivBounds(n, d);
  }

  lemma BLimitedCovered(rA: nat, rB: nat, t: nat, b: nat)
    requires rA > 0 && rB > 0 && t > 0
    ensures MulDiv(MulDiv(b, rA, rB), t, rA) * rB <= b * t < (b + 1) * t
  {
    var a := MulDiv(b, rA, rB);
    QuoteWithin(b, rA, rB);
    QuoteWithin(a, t, rA);
    CrossLess(MulDiv(a, t, rA), rA, a, t, b, rB);
    assert (b + 1) * t == b * t + t;
  }

  lemma ALimitedCovered(rA: nat, rB: nat, t: nat, a: nat)
    requires rA > 0 && t > 0
    ensures MulDiv(a, t, rA) * rB < (MulDiv(a, rB, rA) + 1) * t
  {
    QuoteWithin(a, t, rA);
    QuoteWithin(a, rB, rA);
    CrossLessStrict(MulDiv(a, t, rA), rA, a, t, MulDiv(a, rB, rA) + 1, rB);
  }

  /** What a deposit into a live pool buys: never more shares than its token A covers,
      and never more than its token B plus one unit covers. */
  lemma MintCovered(s: Dex, amountA: nat, amountB: nat)
    requires Inv(s) && s.total > 0
    ensures var d := DepositFor(s, amountA, amountB);
            && d.minted * s.reserveA <= d.a * s.total
            && d.minted * s.reserveB < (d.b + 1) * s.total
            && (BLimited(s, amountA, amountB) ==> d.minted * s.reserveB <= d.b * s.total)
  {
    QuoteWithin(DepositFor(s, amountA, amountB).a, s.total, s.reserveA);
    if BLimited(s, amountA, amountB) {
      BLimitedCovered(s.reserveA, s.reserveB, s.total, amountB);
    } else {
      ALimitedCovered(s.reserveA, s.reserveB, s.total, amountA);
    }
  }

  /** A deposit never lowers token A per share; a B-limited deposit never lowers token B
      per share either; an A-limited one lowers it by less than one unit of B. */
  lemma AddPerShare(s: Dex, sender: Address, amountA: nat, amountB: nat)
    requires Inv(s) && s.total > 0
    ensures var t := Apply(s, Add(sender, amountA, amountB));
            && t.reserveA * s.total >= s.reserveA * t.total
            && (BLimited(s, amountA, amountB) ==> t.reserveB * s.total >= s.reserveB * t.total)
            && (t.reserveB + 1) * s.total > s.reserveB * t.total
  {
    if AddSucceeds(s, sender, amountA, amountB) {
      var d := DepositFor(s, amountA, amountB);
      MintCovered(s, amountA, amountB);
      GrowRatio(s.reserveA, s.total, d.a, d.minted);
      GrowRatio(s.reserveB, s.total, d.b, d.minted);
      GrowRatioStrict(s.reserveB, s.total, d.b, d.minted);
    } else {
      GrowRatioStrict(s.reserveB, s.total, 0, 0);
    }
  }

  lemma GrowRatioStrict(r: nat, t: nat, dr: nat, dt: nat)
    requires dt * r < (dr + 1) * t
    ensures (r + dr + 1) * t > r * (t + dt)
  {
    assert (r + dr + 1) * t == r * t + (dr + 1) * t;
    assert r * (t + dt) == r * t + dt * r;
  }

  /** Exactly when an A-limited deposit spares the existing holders' token B: when the
      remainder lost on the B quote, weighed by the shares, is at most the remainder lost
      on the minted shares, weighed by reserve B. */
  lemma ALimitedDilutionCondition(s: Dex, sender: Address, amountA: nat, amountB: nat)
    requires Inv(s) && AddSucceeds(s, sender, amountA, amountB) && ALimited(s, amountA, amountB)
    ensures var t := Apply(s, Add(sender, amountA, amountB));
            t.reserveB * s.total >= s.reserveB * t.total <==>
            amountA * s.reserveB % s.reserveA * s.total <= s.reserveB * (amountA * s.total % s.reserveA)
  {
    var d := DepositFor(s, amountA, amountB);
    var rA, rB, t := s.reserveA, s.reserveB, s.total;
    GrowRatio(rB, t, d.b, d.minted);
    RemainderBalance(amountA, rA, rB, t);
  }

  lemma RemainderBalance(a: nat, rA: nat, rB: nat, t: nat)
    requires rA > 0
    ensures a * t / rA * rB <= a * rB / rA * t <==> a * rB % rA * t <= rB * (a * t % rA)
  {
    var n, k: nat := a * rB, a * t;
    var q, u := DivMod(n, rA);
    var m, v := DivMod(k, rA);
    RemainderAlgebra(a, rA, rB, t, q, u, m, v);
  }

  lemma RemainderAlgebra(a: nat, rA: nat, rB: nat, t: nat, q: nat, u: nat, m: nat, v: nat)
    requires rA > 0 && q * rA + u == a * rB && m * rA + v == a * t
    ensures m * rB <= q * t <==> u * t <= rB * v
  {
    var x, y := q * t, m * rB;
    assert x * rA + u * t == a * rB * t by {
      Distribute(q * rA, u, t);
      MulReorder(q, rA, t);
    }
    assert y * rA + rB * v == a * rB * t by {
      Distribute(m * rA, v, rB);
      MulReorder(m, rA, rB);
      MulReorder(a, t, rB);
    }
    ScaledOrder(x, y, rA);
  }

  lemma Distribute(x: nat, y: nat, z: nat)
    ensures (x + y) * z == x * z + z * y
  {
  }

  lemma ScaledOrder(x: nat, y: nat, z: nat)
    requires z > 0
    ensures y <= x <==> y * z <= x * z
  {
    if y <= x {
      MulMonotone(y, x, z);
    } else {
      MulMonotone(x + 1, y, z);
    }
  }

  /** What an A-limited deposit loses on its B quote is at most what the pool gains from
      rounding the minted shares, each weighed: an inequality between the two remainders. */
  ghost predicate ValueSpared(rA: nat, rB: nat, t: nat, a: nat)
    requires rA > 0
  {
    var u, v, m := a * rB % rA, a * t % rA, a * t / rA;
    (rA + a) * t * (t * u) <= v * rB * ((rA + a) * t + rA * (t + m))
  }

  /** The core of `ValueAlgebra`, with the products named. */
  lemma NamedAlgebra(rA: nat, P: nat, Q: nat, X: nat, Y: nat, v: nat, K: nat, L: nat, U: nat)
    requires rA > 0 && P == X + v && rA * Q + U == K + L && K == rA * Y
    ensures P * Q >= X * Y <==> P * U <= v * K + P * L
  {
    assert P * (rA * Q) + P * U == P * K + P * L by {
      assert P * (rA * Q + U) == P * (K + L);
    }
    assert P * K == X * K + v * K;
    assert P * Q * rA == P * (rA * Q) && X * Y * rA == X * K;
    ScaledOrder(P * Q, X * Y, rA);
  }

  lemma ValueAlgebra(a: nat, rA: nat, rB: nat, t: nat, q: nat, u: nat, m: nat, v: nat)
    requires rA > 0 && q * rA + u == a * rB && m * rA + v == a * t
    ensures (rA + a) * t * ((rB + q) * t) >= rA * (t + m) * (rB * (t + m)) <==>
            (rA + a) * t * (t * u) <= v * rB * ((rA + a) * t + rA * (t + m))
  {
    var P, Q, X, Y := (rA + a) * t, (rB + q) * t, rA * (t + m), rB * (t + m);
    MintedPart(a, rA, t, m, v);
    QuotedSide(a, rA, rB, t, q, u);
    MintedSide(a, rA, rB, t, m, v);
    NamedAlgebra(rA, P, Q, X, Y, v, rA * Y, rB * v, t * u);
    WeighedSum(P, X, rA, rB, t + m, v);
  }

  lemma MintedPart(a: nat, rA: nat, t: nat, m: nat, v: nat)
    requires m * rA + v == a * t
    ensures (rA + a) * t == rA * (t + m) + v
  {
    assert (rA + a) * t == rA * t + a * t && rA * (t + m) == rA * t + m * rA;
  }

  lemma WeighedSum(P: nat, X: nat, rA: nat, rB: nat, w: nat, v: nat)
    requires X == rA * w
    ensures v * (rA * (rB * w)) + P * (rB * v) == v * rB * (P + X)
  {
    assert rA * (rB * w) == rB * X;
    assert v * (rB * X) == v * rB * X && P * (rB * v) == v * rB * P;
  }

  lemma QuotedSide(a: nat, rA: nat, rB: nat, t: nat, q: nat, u: nat)
    requires q * rA + u == a * rB
    ensures rA * ((rB + q) * t) + t * u == rA * rB * t + a * rB * t
  {
    assert rA * ((rB + q) * t) == rA * rB * t + q * rA * t;
    assert (q * rA + u) * t == q * rA * t + t * u;
  }

  lemma MintedSide(a: nat, rA: nat, rB: nat, t: nat, m: nat, v: nat)
    requires m * rA + v == a * t
    ensures rA * (rB * (t + m)) + rB * v == rA * rB * t + a * rB * t
  {
    assert rA * (rB * (t + m)) == rA * rB * t + m * rA * rB;
    assert (m * rA + v) * rB == m * rA * rB + rB * v;
    MulReorder(a, t, rB);
  }

  lemma ValueSparedExact(rA: nat, rB: nat, t: nat, a: nat)
    requires rA > 0
    ensures var q, m := MulDiv(a, rB, rA), MulDiv(a, t, rA);
            Prod(rA + a, rB + q) * (t * t) >= Prod(rA, rB) * ((t + m) * (t + m)) <==> ValueSpared(rA, rB, t, a)
  {
    var n, k: nat := a * rB, a * t;
    var q, u := DivMod(n, rA);
    var m, v := DivMod(k, rA);
    ValueAlgebra(a, rA, rB, t, q, u, m, v);
    SquareOfTotals(rA + a, rB + q, t);
    SquareOfTotals(rA, rB, t + m);
  }

  /** Exactly when an A-limited deposit does not lower reserveA*reserveB / totalShares^2. */
  lemma ALimitedValueCondition(s: Dex, sender: Address, amountA: nat, amountB: nat)
    requires Inv(s) && AddSucceeds(s, sender, amountA, amountB) && ALimited(s, amountA, amountB)
    ensures var t := Apply(s, Add(sender, amountA, amountB));
            t.lastK * (s.total * s.total) >= s.lastK * (t.total * t.total) <==>
            ValueSpared(s.reserveA, s.reserveB, s.total, amountA)
  {
    ValueSparedExact(s.reserveA, s.reserveB, s.total, amountA);
  }

  lemma SquareOfTotals(x: nat, y: nat, t: nat)
    ensures x * t * (y * t) == Prod(x, y) * (t * t)
  {
    assert x * t * (y * t) == x * y * (t * t);
  }

  /** The comment "existing LPs don't get diluted" (line 239) is not what the code does:
      on a pool of a million A and one B, a deposit of 999999 A uses no token B, is given
      almost half of the shares, and cuts the reserve product per squared share. */
  lemma DilutionExample(s: Dex)
    requires Inv(s) && s.reserveA == 1000000 && s.reserveB == 1 && s.total == 1000
    requires Get(s.balanceA, 2) == 999999 && Get(s.balanceB, 2) == 1
    ensures AddSucceeds(s, 2, 999999, 1) && ALimited(s, 999999, 1)
    ensures var t := Apply(s, Add(2, 999999, 1));
            && t.total == 1999 && t.reserveA == 1999999 && t.reserveB == 1
            && Inv(t) && t.lastK * (s.total * s.total) < s.lastK * (t.total * t.total)
  {
    WordHoldsTrillions();
    var d := DepositFor(s, 999999, 1);
    assert d == Deposit(999999, 0, 999);
    assert AddSucceeds(s, 2, 999999, 1);
    ApplyKeepsInv(s, Add(2, 999999, 1));
  }

  /** The state of `DilutionExample` is reachable. */
  lemma DilutionReachable() returns (calls: seq<Call>, s: Dex)
    ensures s == Run(EMPTY, calls)
    ensures s.reserveA == 1000000 && s.reserveB == 1 && s.total == 1000
    ensures Get(s.balanceA, 2) == 999999 && Get(s.balanceB, 2) == 1
  {
    calls, s := TwoMinted();
    s := DilutionFunded(s);
    RunSnoc(EMPTY, calls, Add(1, 1000000, 1));
    calls := calls + [Add(1, 1000000, 1)];
  }

  lemma TwoMinted() returns (calls: seq<Call>, s: Dex)
    ensures Inv(EMPTY) && s == Run(EMPTY, calls) && s.total == 0
    ensures Get(s.balanceA, 1) == 1000000 && Get(s.balanceB, 1) == 1
    ensures Get(s.balanceA, 2) == 999999 && Get(s.balanceB, 2) == 1
  {
    WordHoldsTrillions();
    var c1, c2 := Mint(1, 1000000, 1), Mint(2, 999999, 1);
    var s1 := Apply(EMPTY, c1);
    RunSnoc(EMPTY, [], c1);
    assert [] + [c1] == [c1];
    RunSnoc(EMPTY, [c1], c2);
    calls, s := [c1] + [c2], Apply(s1, c2);
  }

  /** A first deposit of a million A and one B. */
  lemma DilutionFunded(s: Dex) returns (t: Dex)
    requires Inv(s) && s.total == 0 && Get(s.balanceA, 1) == 1000000 && Get(s.balanceB, 1) == 1
    ensures t == Apply(s, Add(1, 1000000, 1))
    ensures t.reserveA == 1000000 && t.reserveB == 1 && t.total == 1000
    ensures Get(t.balanceA, 2) == Get(s.balanceA, 2) && Get(t.balanceB, 2) == Get(s.balanceB, 2)
  {
    WordHoldsTrillions();
    FloorSqrtUnique(1000, 1000000);
    assert DepositFor(s, 1000000, 1) == Deposit(1000000, 1, 1000);
    t := Apply(s, Add(1, 1000000, 1));
  }

  lemma RunSnoc(s: Dex, calls: seq<Call>, c: Call)
    requires Inv(s)
    ensures Run(s, calls + [c]) == Apply(Run(s, calls), c)
  {
    assert Front(calls + [c]) == calls;
  }

  /** Calls that do not dilute: everything except first deposits and those A-limited
      deposits whose remainders fail the inequality. */
  ghost predicate Undiluting(s: Dex, c: Call)
    requires Inv(s)
  {
    c.Add? && Succeeds(s, c) ==>
      s.total > 0 && (ALimited(s, c.amountA, c.amountB) ==> ValueSpared(s.reserveA, s.reserveB, s.total, c.amountA))
  }

  ghost predicate UndilutingRun(s: Dex, calls: seq<Call>)
    requires Inv(s)
    decreases |calls|
  {
    calls == [] || (UndilutingRun(s, Front(calls)) && Undiluting(Run(s, Front(calls)), Last(calls)))
  }

  /** A call on a live pool keeps the value per share if and only if it is not a diluting
      deposit. */
  lemma CallKeepsValuePerShare(s: Dex, c: Call)
    requires Inv(s) && s.total > 0
    ensures var t := Apply(s, c);
            t.lastK * (s.total * s.total) >= s.lastK * (t.total * t.total) <==> Undiluting(s, c)
  {
    var t := Apply(s, c);
    ApplyKeepsInv(s, c);
    if Succeeds(s, c) {
      if c.Add? && ALimited(s, c.amountA, c.amountB) {
        ALimitedValueCondition(s, c.sender, c.amountA, c.amountB);
      } else if c.Add? {
        AddPerShare(s, c.sender, c.amountA, c.amountB);
        RatioProduct(s.reserveA, s.reserveB, s.total, t.reserveA, t.reserveB, t.total);
      } else if c.Remove? {
        SharesBound(s);
        RemovePerShare(s, c.sender, c.burned);
        RatioProduct(s.reserveA, s.reserveB, s.total, t.reserveA, t.reserveB, t.total);
      } else if IsSwap(c) {
        SwapRaisesProduct(s, c);
        MulMonotone(s.lastK, t.lastK, s.total * s.total);
      }
    }
  }

  /** Only a first deposit revives an emptied pool. */
  lemma EmptyStaysEmpty(s: Dex, c: Call)
    requires Inv(s) && s.total == 0 && Undiluting(s, c)
    ensures Apply(s, c).total == 0
  {
  }

  lemma SquareChain(s: Dex, p: Dex, t: Dex)
    requires p.total > 0
    requires p.lastK * (s.total * s.total) >= s.lastK * (p.total * p.total)
    requires t.lastK * (p.total * p.total) >= p.lastK * (t.total * t.total)
    ensures t.lastK * (s.total * s.total) >= s.lastK * (t.total * t.total)
  {
    RatioChain(s.lastK, s.total * s.total, p.lastK, p.total * p.total, t.lastK, t.total * t.total);
  }

  /** While shares remain, reserveA*reserveB / totalShares^2 never falls over any run of
      mints, swaps, removals, B-limited deposits and sparing A-limited ones. */
  lemma {:induction false} ValuePerShareNeverFalls(s: Dex, calls: seq<Call>)
    requires Inv(s) && s.total > 0 && UndilutingRun(s, calls)
    requires Run(s, calls).total > 0
    ensures var t := Run(s, calls); t.lastK * (s.total * s.total) >= s.lastK * (t.total * t.total)
    decreases |calls|
  {
    if calls != [] {
      var p, t := Run(s, Front(calls)), Run(s, calls);
      if p.total == 0 {
        EmptyStaysEmpty(p, Last(calls));
        assert false;
      }
      ValuePerShareNeverFalls(s, Front(calls));
      CallKeepsValuePerShare(p, Last(calls));
      SquareChain(s, p, t);
    }
  }

  lemma {:induction false} FeesNeverFall(s: Dex, calls: seq<Call>)
    requires Inv(s)
    ensures Run(s, calls).feeA >= s.feeA && Run(s, calls).feeB >= s.feeB
    decreases |calls|
  {
    if calls != [] {
      FeesNeverFall(s, Front(calls));
      CallKeepsFees(Run(s, Front(calls)), Last(calls));
    }
  }

  lemma CallKeepsFees(s: Dex, c: Call)
    requires Inv(s)
    ensures Apply(s, c).feeA >= s.feeA && Apply(s, c).feeB >= s.feeB
  {
  }

  ghost predicate NoMints(calls: seq<Call>) {
    forall i :: 0 <= i < |calls| ==> !calls[i].Mint?
  }

  lemma {:induction false} NothingMinted(s: Dex, calls: seq<Call>)
    requires Inv(s) && NoMints(calls)
    ensures SupplyA(Run(s, calls)) == SupplyA(s) && SupplyB(Run(s, calls)) == SupplyB(s)
    decreases |calls|
  {
    if calls != [] {
      NothingMinted(s, Front(calls));
      CallMovesTokens(Run(s, Front(calls)), Last(calls));
    }
  }

  /** What `NoFreeLunch` says of swaps holds with liquidity calls mixed in: over every run
      without mints and diluting deposits that ends with as many shares as it began with,
      the users together never hold at least as much of both tokens and more of one. */
  lemma {:induction false} NoFreeLunchWithLiquidity(s: Dex, calls: seq<Call>)
    requires Inv(s) && s.total > 0 && NoMints(calls) && UndilutingRun(s, calls)
    requires Run(s, calls).total == s.total
    ensures !UsersGain(s, Run(s, calls))
  {
    ValuePerShareNeverFalls(s, calls);
    NothingMinted(s, calls);
    FeesNeverFall(s, calls);
    NoGainAtSameValue(s, Run(s, calls));
  }

  lemma NoGainAtSameValue(s: Dex, t: Dex)
    requires Inv(s) && Inv(t) && t.total == s.total > 0
    requires t.lastK * (s.total * s.total) >= s.lastK * (t.total * t.total)
    requires SupplyA(t) == SupplyA(s) && SupplyB(t) == SupplyB(s) && t.feeA >= s.feeA && t.feeB >= s.feeB
    ensures !UsersGain(s, t)
  {
    CancelSquare(s.lastK, t.lastK, s.total);
    LargerProductNoGain(s, t);
  }

  lemma CancelSquare(k: nat, l: nat, n: nat)
    requires n > 0 && k * (n * n) <= l * (n * n)
    ensures k <= l
  {
    MulMonotone(1, n, n);
    MulCancel(k, l, n * n);
  }

  // --------------------------------------------------- depositing and leaving

  lemma ClaimOfMint(r: nat, total: nat, dr: nat, minted: nat)
    requires minted > 0 && minted * r < (dr + 1) * total
    ensures Claim(minted, r + dr, total + minted) <= dr
  {
    assert minted * (r + dr) == minted * r + minted * dr;
    assert (dr + 1) * (total + minted) == (dr + 1) * total + dr * minted + minted;
    DivIsLargest(minted * (r + dr), total + minted, dr);
  }

  lemma ClaimOfCoveredMint(r: nat, total: nat, dr: nat, minted: nat)
    requires minted > 0 && total > 0 && minted * r <= dr * total
    ensures Claim(minted, r + dr, total + minted) <= dr
  {
    MulMonotone(dr, dr + 1, total);
    assert (dr + 1) * total == dr * total + total;
    ClaimOfMint(r, total, dr, minted);
  }

  /** The claim of freshly minted shares never exceeds the deposit that minted them. */
  lemma MintedClaim(s: Dex, amountA: nat, amountB: nat)
    requires Inv(s) && DepositFor(s, amountA, amountB).minted > 0
    ensures var d := DepositFor(s, amountA, amountB);
            && Claim(d.minted, s.reserveA + d.a, s.total + d.minted) <= d.a
            && Claim(d.minted, s.reserveB + d.b, s.total + d.minted) <= d.b
  {
    var d := DepositFor(s, amountA, amountB);
    if s.total == 0 {
      ClaimWithinReserve(d.minted, d.a, d.minted);
      ClaimWithinReserve(d.minted, d.b, d.minted);
    } else {
      MintCovered(s, amountA, amountB);
      ClaimOfCoveredMint(s.reserveA, s.total, d.a, d.minted);
      ClaimOfMint(s.reserveB, s.total, d.b, d.minted);
    }
  }

  /** Depositing and at once burning the minted shares never leaves the provider with more
      of either token than before, in all three branches. */
  lemma DepositThenLeaveNeverGains(s: Dex, sender: Address, amountA: nat, amountB: nat)
    requires Inv(s) && AddSucceeds(s, sender, amountA, amountB)
    ensures var t := Apply(s, Add(sender, amountA, amountB));
            Inv(t) &&
            var u := Apply(t, Remove(sender, DepositFor(s, amountA, amountB).minted));
            && Get(u.balanceA, sender) <= Get(s.balanceA, sender)
            && Get(u.balanceB, sender) <= Get(s.balanceB, sender)
  {
    var d := DepositFor(s, amountA, amountB);
    ApplyKeepsInv(s, Add(sender, amountA, amountB));
    DepositWithinOffer(s.total, s.reserveA, s.reserveB, amountA, amountB);
    MintedClaim(s, amountA, amountB);
    var t := Apply(s, Add(sender, amountA, amountB));
    assert t == AfterAdd(s, sender, d);
  }

  /** The first provider gets the exact deposit back -- if and only if neither product of
      shares and reserve overflows a word; otherwise the withdrawal reverts. */
  lemma FirstProviderRoundTrip(s: Dex, sender: Address, amountA: nat, amountB: nat)
    requires Inv(s) && s.total == 0 && AddSucceeds(s, sender, amountA, amountB)
    ensures var minted := FloorSqrt(amountA * amountB);
            var t := Apply(s, Add(sender, amountA, amountB));
            Inv(t) && t != s &&
            var u := Apply(t, Remove(sender, minted));
            && (minted * amountA <= MAX_UINT256 && minted * amountB <= MAX_UINT256 ==>
                  && Get(u.balanceA, sender) == Get(s.balanceA, sender)
                  && Get(u.balanceB, sender) == Get(s.balanceB, sender)
                  && u.total == 0 && u.reserveA == 0 && u.reserveB == 0)
            && (!(minted * amountA <= MAX_UINT256 && minted * amountB <= MAX_UINT256) ==> u == t)
  {
    var minted := FloorSqrt(amountA * amountB);
    ApplyKeepsInv(s, Add(sender, amountA, amountB));
    var t := Apply(s, Add(sender, amountA, amountB));
    SumSet(s.shares, sender, 0);
    assert Get(t.shares, sender) == minted == t.total;
    ClaimWithinReserve(minted, amountA, minted);
    ClaimWithinReserve(minted, amountB, minted);
    assert RemoveSucceeds(t, sender, minted) <==> minted * amountA <= MAX_UINT256 && minted * amountB <= MAX_UINT256;
  }

  /** The overflow happens: a provider who brings almost a full word of token A and one
      token B gets shares that cannot be burned at once. */
  lemma FirstProviderStuck(s: Dex, a: nat)
    requires Inv(s) && s.total == 0 && a == MAX_UINT256 - 1
    requires Get(s.balanceA, 1) == a && Get(s.balanceB, 1) == 1
    ensures AddSucceeds(s, 1, a, 1)
    ensures var t := Apply(s, Add(1, a, 1));
            && Inv(t) && t.total > 0 && Get(t.shares, 1) == t.total
            && Apply(t, Remove(1, t.total)) == t
  {
    LargeRoot();
    FirstProviderRoundTrip(s, 1, a, 1);
    SumSet(s.shares, 1, 0);
  }

  /** And the state of `FirstProviderStuck` is reached by the first call after deployment. */
  lemma FirstProviderStuckReachable(a: nat) returns (s: Dex)
    requires a == MAX_UINT256 - 1
    ensures Inv(EMPTY) && s == Run(EMPTY, [Mint(1, a, 1)])
    ensures s.total == 0 && Get(s.balanceA, 1) == a && Get(s.balanceB, 1) == 1
  {
    var mint := Mint(1, a, 1);
    WordHoldsTrillions();
    RunSnoc(EMPTY, [], mint);
    assert [] + [mint] == [mint];
    s := Apply(EMPTY, mint);
  }

  lemma LargeRoot()
    ensures var a: nat := MAX_UINT256 - 1; a * 1 == a && FloorSqrt(a) >= 1000 && FloorSqrt(a) * a > MAX_UINT256
  {
    WordHoldsTrillions();
    var a: nat := MAX_UINT256 - 1;
    var r := FloorSqrt(a);
    if r < 1000 {
      MulMonotone(r + 1, 1000, r + 1);
    }
    MulMonotone(1000, r, a);
  }
}

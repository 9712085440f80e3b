/** What each call of the pool does to whom, in balances before and after, and exactly when
    it succeeds.  Nothing here speaks of how the amounts are computed. */
module DexEffects {
  import opened IntegerMath
  import opened DexModel

  /** The quotient `q` of a floor division, told by its products. */
  ghost predicate IsFloor(q: int, n: int, d: int) {
    q * d <= n < (q + 1) * d
  }

  lemma MulDivIsFloor(a: nat, b: nat, d: nat)
    requires d > 0
    ensures IsFloor(MulDiv(a, b, d), a * b, d)
  {
    var n: nat := a * b;
    DivBounds(n, d);
  }

  /** A floor quotient reaches m exactly when m fits. */
  lemma FloorReaches(q: nat, n: nat, d: nat, m: nat)
    requires d > 0 && IsFloor(q, n, d)
    ensures m <= q <==> m * d <= n
  {
    if m <= q {
      MulMonotone(m, q, d);
    } else {
      MulMonotone(q + 1, m, d);
    }
  }

  // ------------------------------------------------------------------- swaps

  /** A swap of `amountIn` for at least `minOut`: the caller pays all of it; three in a
      thousand, rounded down, go to the fees and the rest to the reserve; what leaves the
      other reserve goes to the caller and is the constant-product payout, rounded down. */
  ghost predicate SwapMoves(amountIn: nat, minOut: nat, balanceIn: nat, balanceIn2: nat,
                            balanceOut: nat, balanceOut2: nat, rIn: nat, rIn2: nat,
                            rOut: nat, rOut2: nat, fee: nat, fee2: nat) {
    && IsFloor(fee2 - fee, 3 * amountIn, 1000)
    && balanceIn2 == balanceIn - amountIn
    && rIn2 - rIn == amountIn - (fee2 - fee)
    && balanceOut2 - balanceOut == rOut - rOut2
    && 0 < minOut <= rOut - rOut2
    && IsFloor(rOut - rOut2, rOut * (rIn2 - rIn), rIn2)
  }

  /** Every successful swap, in either direction. */
  lemma SwapEffect(s: Dex, c: Call)
    requires Inv(s) && Succeeds(s, c) && (c.SwapAForB? || c.SwapBForA?)
    ensures var t := Apply(s, c);
            && t.shares == s.shares && t.total == s.total
            && (c.SwapAForB? ==>
                  && t.feeB == s.feeB
                  && SwapMoves(c.amountIn, c.minOut, Get(s.balanceA, c.sender), Get(t.balanceA, c.sender),
                               Get(s.balanceB, c.sender), Get(t.balanceB, c.sender),
                               s.reserveA, t.reserveA, s.reserveB, t.reserveB, s.feeA, t.feeA))
            && (c.SwapBForA? ==>
                  && t.feeA == s.feeA
                  && SwapMoves(c.amountIn, c.minOut, Get(s.balanceB, c.sender), Get(t.balanceB, c.sender),
                               Get(s.balanceA, c.sender), Get(t.balanceA, c.sender),
                               s.reserveB, t.reserveB, s.reserveA, t.reserveA, s.feeB, t.feeB))
  {
    if c.SwapAForB? {
      AfterSwapMoves(s, c.sender, c.amountIn, c.minOut);
    } else {
      MirrorInv(s);
      AfterSwapMoves(Mirror(s), c.sender, c.amountIn, c.minOut);
    }
  }

  lemma AfterSwapMoves(s: Dex, sender: Address, amountIn: nat, minOut: nat)
    requires Inv(s) && SwapSucceeds(s, sender, amountIn, minOut)
    ensures var t := AfterSwap(s, sender, amountIn);
            && t.shares == s.shares && t.total == s.total && t.feeB == s.feeB
            && SwapMoves(amountIn, minOut, Get(s.balanceA, sender), Get(t.balanceA, sender),
                         Get(s.balanceB, sender), Get(t.balanceB, sender),
                         s.reserveA, t.reserveA, s.reserveB, t.reserveB, s.feeA, t.feeA)
  {
    SwapProduct(s.reserveA, s.reserveB, Net(amountIn));
    MulDivIsFloor(s.reserveB, Net(amountIn), s.reserveA + Net(amountIn));
  }

  /** A swap on numbers succeeds exactly when the pool is live, the caller can pay, the
      minimum fits under the payout, and no word overflows. */
  lemma SwapPassesIff(total: nat, rIn: nat, rOut: nat, feeIn: nat, balanceIn: nat, balanceOut: nat,
                      amountIn: nat, minOut: nat, fee: nat, out: nat)
    requires rIn > 0 && rOut > 0 && IsFloor(fee, 3 * amountIn, 1000)
    requires fee <= amountIn && IsFloor(out, rOut * (amountIn - fee), rIn + amountIn - fee)
    ensures out <= rOut
    ensures SwapPasses(total, rIn, rOut, feeIn, balanceIn, balanceOut, amountIn, minOut) <==>
            && total > 0 && 0 < amountIn <= balanceIn && 0 < minOut
            && minOut * (rIn + amountIn - fee) <= rOut * (amountIn - fee)
            && 3 * amountIn <= MAX_UINT256 && rIn + amountIn - fee <= MAX_UINT256
            && rOut * (amountIn - fee) <= MAX_UINT256 && feeIn + fee <= MAX_UINT256
            && balanceOut + out <= MAX_UINT256
            && (rIn + amountIn - fee) * (rOut - out) <= MAX_UINT256
  {
    var dx := amountIn - fee;
    assert Fee(amountIn) == fee && Net(amountIn) == dx;
    MulDivIsFloor(rOut, dx, rIn + dx);
    SameFloor(out, SwapOut(rIn, rOut, dx), rOut * dx, rIn + dx);
    SwapProduct(rIn, rOut, dx);
    FloorReaches(out, rOut * dx, rIn + dx, minOut);
  }

  lemma SameFloor(p: nat, q: nat, n: nat, d: nat)
    requires d > 0 && IsFloor(p, n, d) && IsFloor(q, n, d)
    ensures p == q
  {
    FloorReaches(p, n, d, q);
    FloorReaches(q, n, d, p);
  }

  /** The same for the calls, in either direction. */
  lemma SwapSucceedsIff(s: Dex, c: Call, fee: nat, out: nat)
    requires Inv(s) && s.total > 0 && (c.SwapAForB? || c.SwapBForA?)
    requires fee <= c.amountIn && IsFloor(fee, 3 * c.amountIn, 1000)
    requires var dx := c.amountIn - fee;
             if c.SwapAForB? then IsFloor(out, s.reserveB * dx, s.reserveA + dx)
             else IsFloor(out, s.reserveA * dx, s.reserveB + dx)
    ensures var dx := c.amountIn - fee;
            var rIn, rOut := if c.SwapAForB? then s.reserveA else s.reserveB,
                             if c.SwapAForB? then s.reserveB else s.reserveA;
            var balanceIn, balanceOut := Get(if c.SwapAForB? then s.balanceA else s.balanceB, c.sender),
                                         Get(if c.SwapAForB? then s.balanceB else s.balanceA, c.sender);
            var feeIn := if c.SwapAForB? then s.feeA else s.feeB;
            && out <= rOut
            && (Succeeds(s, c) <==>
                  && 0 < c.amountIn <= balanceIn && 0 < c.minOut && c.minOut * (rIn + dx) <= rOut * dx
                  && 3 * c.amountIn <= MAX_UINT256 && rIn + dx <= MAX_UINT256 && rOut * dx <= MAX_UINT256
                  && feeIn + fee <= MAX_UINT256 && balanceOut + out <= MAX_UINT256
                  && (rIn + dx) * (rOut - out) <= MAX_UINT256)
  {
    if c.SwapAForB? {
      SwapPassesIff(s.total, s.reserveA, s.reserveB, s.feeA, Get(s.balanceA, c.sender), Get(s.balanceB, c.sender),
                    c.amountIn, c.minOut, fee, out);
    } else {
      SwapPassesIff(s.total, s.reserveB, s.reserveA, s.feeB, Get(s.balanceB, c.sender), Get(s.balanceA, c.sender),
                    c.amountIn, c.minOut, fee, out);
    }
  }

  // ---------------------------------------------------------------- removals

  /** What burning pays in one token: what the reserve loses, which is the proportional part
      of the reserve, rounded down, and not nothing. */
  ghost predicate PaysOut(burned: nat, total: nat, balance: nat, balance2: nat, reserve: nat, reserve2: nat) {
    && balance2 - balance == reserve - reserve2 > 0
    && IsFloor(reserve - reserve2, burned * reserve, total)
  }

  /** Every successful removal. */
  lemma RemovalEffect(s: Dex, sender: Address, burned: nat)
    requires Inv(s) && Succeeds(s, Remove(sender, burned))
    ensures var t := Apply(s, Remove(sender, burned));
            && PaysOut(burned, s.total, Get(s.balanceA, sender), Get(t.balanceA, sender), s.reserveA, t.reserveA)
            && PaysOut(burned, s.total, Get(s.balanceB, sender), Get(t.balanceB, sender), s.reserveB, t.reserveB)
            && Get(t.shares, sender) == Get(s.shares, sender) - burned && t.total == s.total - burned
            && t.feeA == s.feeA && t.feeB == s.feeB
  {
    SharesBound(s);
    ClaimWithinReserve(burned, s.reserveA, s.total);
    ClaimWithinReserve(burned, s.reserveB, s.total);
    MulDivIsFloor(burned, s.reserveA, s.total);
    MulDivIsFloor(burned, s.reserveB, s.total);
  }

  /** A removal succeeds exactly when the caller holds the shares, they are worth at least
      one unit of each token, and no word overflows. */
  lemma RemovalSucceedsIff(s: Dex, sender: Address, burned: nat, a: nat, b: nat)
    requires Inv(s) && s.total > 0
    requires IsFloor(a, burned * s.reserveA, s.total) && IsFloor(b, burned * s.reserveB, s.total)
    ensures Succeeds(s, Remove(sender, burned)) <==>
            && 0 < burned <= Get(s.shares, sender)
            && s.total <= burned * s.reserveA <= MAX_UINT256 && s.total <= burned * s.reserveB <= MAX_UINT256
            && Get(s.balanceA, sender) + a <= MAX_UINT256 && Get(s.balanceB, sender) + b <= MAX_UINT256
  {
    MulDivIsFloor(burned, s.reserveA, s.total);
    MulDivIsFloor(burned, s.reserveB, s.total);
    SameFloor(a, Claim(burned, s.reserveA, s.total), burned * s.reserveA, s.total);
    SameFloor(b, Claim(burned, s.reserveB, s.total), burned * s.reserveB, s.total);
    FloorReaches(a, burned * s.reserveA, s.total, 1);
    FloorReaches(b, burned * s.reserveB, s.total, 1);
  }

  // ---------------------------------------------------------------- deposits

  /** What a deposit uses and mints.  A first one uses the whole offer and mints the floor
      root of its product; a later one uses its scarce token in full, matches it at the
      pool's ratio and mints what its token A covers, all rounded down. */
  ghost predicate DepositTerms(total: nat, rA: nat, rB: nat, amountA: nat, amountB: nat,
                               a: int, b: int, minted: int) {
    if total == 0 then
      a == amountA && b == amountB && minted >= 1000 &&
      minted * minted <= amountA * amountB < (minted + 1) * (minted + 1)
    else
      && IsFloor(minted, a * total, rA) && minted > 0
      && if amountA * rB < (amountB + 1) * rA
         then a == amountA && IsFloor(b, amountA * rB, rA) && b <= amountB
         else b == amountB && IsFloor(a, amountB * rA, rB) && a <= amountA
  }

  /** Every successful deposit. */
  lemma DepositEffect(s: Dex, sender: Address, amountA: nat, amountB: nat)
    requires Inv(s) && Succeeds(s, Add(sender, amountA, amountB))
    ensures var t := Apply(s, Add(sender, amountA, amountB));
            && DepositTerms(s.total, s.reserveA, s.reserveB, amountA, amountB, t.reserveA - s.reserveA,
                            t.reserveB - s.reserveB, t.total - s.total)
            && Get(t.balanceA, sender) == Get(s.balanceA, sender) - (t.reserveA - s.reserveA)
            && Get(t.balanceB, sender) == Get(s.balanceB, sender) - (t.reserveB - s.reserveB)
            && Get(t.shares, sender) == Get(s.shares, sender) + (t.total - s.total)
            && t.feeA == s.feeA && t.feeB == s.feeB
  {
    DepositWithinOffer(s.total, s.reserveA, s.reserveB, amountA, amountB);
    DepositMeetsTerms(s.total, s.reserveA, s.reserveB, amountA, amountB);
  }

  lemma DepositMeetsTerms(total: nat, rA: nat, rB: nat, amountA: nat, amountB: nat)
    requires total > 0 ==> rA > 0 && rB > 0
    requires DepositPasses(total, rA, rB, amountA, amountB)
    ensures var d := DepositOf(total, rA, rB, amountA, amountB);
            DepositTerms(total, rA, rB, amountA, amountB, d.a, d.b, d.minted)
  {
    var d := DepositOf(total, rA, rB, amountA, amountB);
    DepositWithinOffer(total, rA, rB, amountA, amountB);
    if total > 0 {
      MulDivIsFloor(amountA, rB, rA);
      MulDivIsFloor(d.a, total, rA);
      FloorReaches(MulDiv(amountA, rB, rA), amountA * rB, rA, amountB + 1);
      if MulDiv(amountA, rB, rA) > amountB {
        MulDivIsFloor(amountB, rA, rB);
      }
    }
  }

  /** A first deposit succeeds exactly when the caller can pay it and its product reaches a
      million, so that the shares reach the minimum, and stays below the largest word. */
  lemma FirstDepositSucceedsIff(s: Dex, sender: Address, amountA: nat, amountB: nat)
    requires Inv(s) && s.total == 0
    ensures Succeeds(s, Add(sender, amountA, amountB)) <==>
            && amountA <= Get(s.balanceA, sender) && amountB <= Get(s.balanceB, sender)
            && 1_000_000 <= amountA * amountB < MAX_UINT256
  {
    FirstPassesIff(s.reserveA, s.reserveB, amountA, amountB);
  }

  lemma FirstPassesIff(rA: nat, rB: nat, amountA: nat, amountB: nat)
    ensures DepositPasses(0, rA, rB, amountA, amountB) <==> 1_000_000 <= amountA * amountB < MAX_UINT256
    ensures DepositPasses(0, rA, rB, amountA, amountB) ==>
              amountA > 0 && amountB > 0 && DepositOf(0, rA, rB, amountA, amountB).minted <= MAX_UINT256
  {
    RootReaches(amountA * amountB);
    assert amountA == 0 || amountB == 0 ==> amountA * amountB == 0;
  }

  lemma RootReaches(n: nat)
    ensures FloorSqrt(n) >= 1000 <==> n >= 1_000_000
    ensures FloorSqrt(n) <= n
  {
    var r := FloorSqrt(n);
    if r >= 1000 {
      MulMonotone(1000, r, r);
    } else {
      MulMonotone(r + 1, 1000, r + 1);
    }
    if r > 0 {
      MulMonotone(1, r, r);
    }
  }

  /** A later deposit succeeds exactly when the caller can pay it, it mints a share, and no
      word overflows. */
  lemma LaterDepositSucceedsIff(s: Dex, sender: Address, amountA: nat, amountB: nat, a: nat, b: nat, minted: nat)
    requires Inv(s) && s.total > 0 && 0 < amountA && 0 < amountB
    requires IsFloor(minted, a * s.total, s.reserveA)
    requires if amountA * s.reserveB < (amountB + 1) * s.reserveA
             then a == amountA && IsFloor(b, amountA * s.reserveB, s.reserveA)
             else b == amountB && IsFloor(a, amountB * s.reserveA, s.reserveB)
    ensures Succeeds(s, Add(sender, amountA, amountB)) <==>
            && amountA <= Get(s.balanceA, sender) && amountB <= Get(s.balanceB, sender)
            && amountA * s.reserveB <= MAX_UINT256
            && (amountA * s.reserveB < (amountB + 1) * s.reserveA || amountB * s.reserveA <= MAX_UINT256)
            && s.reserveA <= a * s.total <= MAX_UINT256
            && (s.reserveA + a) * (s.reserveB + b) <= MAX_UINT256
            && s.total + minted <= MAX_UINT256
  {
    var rA, rB, t := s.reserveA, s.reserveB, s.total;
    MulDivIsFloor(amountA, rB, rA);
    FloorReaches(MulDiv(amountA, rB, rA), amountA * rB, rA, amountB + 1);
    if amountA * rB < (amountB + 1) * rA {
      SameFloor(b, MulDiv(amountA, rB, rA), amountA * rB, rA);
    } else {
      MulDivIsFloor(amountB, rA, rB);
      SameFloor(a, MulDiv(amountB, rA, rB), amountB * rA, rB);
    }
    MulDivIsFloor(a, t, rA);
    SameFloor(minted, MulDiv(a, t, rA), a * t, rA);
    FloorReaches(minted, a * t, rA, 1);
    assert DepositFor(s, amountA, amountB) == Deposit(a, b, minted);
  }

  // ------------------------------------------------------------------- mints

  /** A mint gives the user the tokens and nobody else anything, exactly when it is to a
      real address, of something, and no balance overflows. */
  lemma MintEffect(s: Dex, user: Address, amountA: nat, amountB: nat)
    requires Inv(s)
    ensures var c := Mint(user, amountA, amountB);
            var t := Apply(s, c);
            && (Succeeds(s, c) <==> user != 0 && amountA + amountB > 0 &&
                                    Get(s.balanceA, user) + amountA <= MAX_UINT256 &&
                                    Get(s.balanceB, user) + amountB <= MAX_UINT256)
            && (Succeeds(s, c) ==>
                  && Get(t.balanceA, user) == Get(s.balanceA, user) + amountA
                  && Get(t.balanceB, user) == Get(s.balanceB, user) + amountB)
            && t.shares == s.shares && t.total == s.total && t.feeA == s.feeA && t.feeB == s.feeB
            && t.reserveA == s.reserveA && t.reserveB == s.reserveB
  {
  }
}

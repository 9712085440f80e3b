/** The contract itself: each method runs the contract's checks in order on its own
    fields and is proved against `DexModel`.  A revert restores the state on chain, so
    the checked operations are evaluated first and the fields written only at the end. */
module DexEngine {
  import opened IntegerMath
  import opened DexModel
  import opened DexEffects

  /** How a call ends: rolled back, or done with the returned amounts. */
  datatype Outcome = Reverted | Done(first: nat, second: nat)

  /** The Babylonian loop.  It reverts only at the largest word, where `x + 1`
      overflows; the sum inside the loop never does. */
  method Sqrt(x: nat) returns (ok: bool, r: nat)
    requires x <= MAX_UINT256
    ensures ok <==> x < MAX_UINT256
    ensures ok ==> IsFloorSqrt(r, x)
  {
    if x == 0 { return true, 0; }
    if x + 1 > MAX_UINT256 { return false, 0; }
    var z, y := (x + 1) / 2, x;
    while z < y
      invariant 0 < z && 0 < y <= x && z <= x
      invariant z == (x / y + y) / 2
      invariant x < (y + 1) * (y + 1)
      decreases y
    {
      BabylonianStep(x, y);
      EstimateFits(x, z);
      var sum := x / z + z;
      assert sum <= MAX_UINT256;
      y := z;
      z := sum / 2;
    }
    BabylonianStop(x, y);
    return true, y;
  }

  /** The sum of an estimate and its quotient never exceeds `x + 1`. */
  lemma EstimateFits(x: nat, z: nat)
    requires 0 < z <= x
    ensures 2 <= x / z + z <= x + 1
  {
    var q := x / z;
    DivIsLargest(x, z, 1);
    DivBounds(x, z);
    MulMonotone(1, z, q - 1);
    assert q * z == z * (q - 1) + z;
  }

  /** Lines 379-411 and 428-431 for a swap in either direction: the checks, the fee and
      the payout.  The reserve check and the product check can never fail. */
  method CheckSwap(total: nat, rIn: nat, rOut: nat, feeIn: nat, lastK: nat,
                   balanceIn: nat, balanceOut: nat, amountIn: nat, minOut: nat)
    returns (ok: bool, fee: nat, out: nat)
    requires total > 0 ==> rIn > 0 && rOut > 0
    requires lastK == Prod(rIn, rOut)
    ensures ok <==> SwapPasses(total, rIn, rOut, feeIn, balanceIn, balanceOut, amountIn, minOut)
    ensures ok ==> fee == Fee(amountIn) && out == SwapOut(rIn, rOut, Net(amountIn)) && out <= rOut
  {
    fee, out := Fee(amountIn), 0;
    ok := total > 0 && amountIn > 0 && minOut > 0 && balanceIn >= amountIn
          && amountIn * FEE_NUMERATOR <= MAX_UINT256;
    if ok {
      var dx := Net(amountIn);
      var denominator := rIn + dx;
      out := MulDiv(rOut, dx, denominator);
      SwapProduct(rIn, rOut, dx);
      var newK := Prod(denominator, rOut - out);
      ok := && denominator <= MAX_UINT256 && rOut * dx <= MAX_UINT256
            && out >= minOut && out > 0 && rOut >= out
            && feeIn + fee <= MAX_UINT256 && balanceOut + out <= MAX_UINT256
            && newK <= MAX_UINT256 && newK >= lastK;
    }
  }

  /** Lines 221-273: how much a deposit uses and mints, or a revert. */
  method PlanDeposit(total: nat, rA: nat, rB: nat, amountA: nat, amountB: nat)
    returns (ok: bool, usedA: nat, usedB: nat, minted: nat)
    requires total > 0 ==> rA > 0 && rB > 0
    ensures ok <==> DepositPasses(total, rA, rB, amountA, amountB)
    ensures ok ==> Deposit(usedA, usedB, minted) == DepositOf(total, rA, rB, amountA, amountB)
    ensures ok ==> usedA <= amountA && usedB <= amountB
  {
    ok, usedA, usedB, minted := false, 0, 0, 0;
    DepositWithinOffer(total, rA, rB, amountA, amountB);
    if total == 0 {
      if amountA * amountB > MAX_UINT256 { return; }
      ok, minted := Sqrt(amountA * amountB);
      if !ok { return; }
      FloorSqrtUnique(minted, amountA * amountB);
      return minted >= MINIMUM_LIQUIDITY, amountA, amountB, minted;
    }
    if amountA * rB > MAX_UINT256 { return; }
    var quoteB := MulDiv(amountA, rB, rA);
    if quoteB <= amountB {
      usedA, usedB := amountA, quoteB;
    } else {
      if amountB * rA > MAX_UINT256 { return; }
      var quoteA := MulDiv(amountB, rA, rB);
      assert quoteA <= amountA;
      usedA, usedB := quoteA, amountB;
    }
    if usedA * total > MAX_UINT256 { return; }
    minted := MulDiv(usedA, total, rA);
    if minted == 0 { return; }
    FactorsFit(rA + usedA, rB + usedB);
    if rA + usedA > MAX_UINT256 || rB + usedB > MAX_UINT256 { return; }
    ok := (rA + usedA) * (rB + usedB) <= MAX_UINT256;
  }

  /** Lines 305-333: the two claims, or a revert.  The reserve check cannot fail, and
      the product check reports a drop every time it is reached. */
  method PlanWithdrawal(total: nat, rA: nat, rB: nat, lastK: nat, held: nat, shares: nat)
    returns (ok: bool, amountA: nat, amountB: nat, productFell: bool)
    requires total > 0 ==> rA > 0 && rB > 0
    requires lastK == Prod(rA, rB) <= MAX_UINT256 && held <= total
    ensures ok <==> WithdrawalPasses(total, rA, rB, held, shares)
    ensures ok ==> amountA == Claim(shares, rA, total) <= rA && amountB == Claim(shares, rB, total) <= rB
    ensures productFell <==> ok
  {
    ok, amountA, amountB, productFell := false, 0, 0, false;
    if total == 0 || shares == 0 || held < shares { return; }
    if shares * rA > MAX_UINT256 || shares * rB > MAX_UINT256 { return; }
    amountA, amountB := MulDiv(shares, rA, total), MulDiv(shares, rB, total);
    if amountA == 0 || amountB == 0 { return; }
    ClaimsShrink(total, rA, rB, shares);
    if rA < amountA || rB < amountB { return; }
    var newK := Prod(rA - amountA, rB - amountB);
    if newK > MAX_UINT256 { return; }
    ok, productFell := true, newK < lastK;
  }

  class MockDexEngine {
    var balanceTokenA: Ledger
    var balanceTokenB: Ledger
    var liquidityShares: Ledger
    var totalLiquidityShares: nat
    var reserveTokenA: nat
    var reserveTokenB: nat
    var accumulatedFeeTokenA: nat
    var accumulatedFeeTokenB: nat
    var lastK: nat

    ghost function State(): Dex
      reads this
    {
      Dex(balanceTokenA, balanceTokenB, liquidityShares, totalLiquidityShares,
          reserveTokenA, reserveTokenB, accumulatedFeeTokenA, accumulatedFeeTokenB, lastK)
    }

    ghost predicate Valid()
      reads this
    {
      Inv(State())
    }

    constructor ()
      ensures Valid() && State() == EMPTY
    {
      balanceTokenA, balanceTokenB, liquidityShares := map[], map[], map[];
      totalLiquidityShares, reserveTokenA, reserveTokenB := 0, 0, 0;
      accumulatedFeeTokenA, accumulatedFeeTokenB, lastK := 0, 0, 0;
    }

    method MintTestTokens(user: Address, amountA: nat, amountB: nat) returns (r: Outcome)
      requires Valid() && amountA <= MAX_UINT256 && amountB <= MAX_UINT256
      modifies this
      ensures Valid()
      ensures r.Done? <==> old(Succeeds(State(), Mint(user, amountA, amountB)))
      ensures State() == old(Apply(State(), Mint(user, amountA, amountB)))
      ensures r.Done? ==> Get(balanceTokenA, user) == old(Get(balanceTokenA, user)) + amountA
      ensures r.Done? ==> Get(balanceTokenB, user) == old(Get(balanceTokenB, user)) + amountB
      ensures r.Reverted? ==> State() == old(State())
    {
      ApplyKeepsInv(State(), Mint(user, amountA, amountB));
      if user == ZERO_ADDRESS || (amountA == 0 && amountB == 0) { return Reverted; }
      var a, b := Get(balanceTokenA, user) + amountA, Get(balanceTokenB, user) + amountB;
      if a > MAX_UINT256 || b > MAX_UINT256 { return Reverted; }
      balanceTokenA, balanceTokenB := balanceTokenA[user := a], balanceTokenB[user := b];
      return Done(0, 0);
    }

    method AddLiquidity(sender: Address, amountA: nat, amountB: nat) returns (r: Outcome)
      requires Valid() && amountA <= MAX_UINT256 && amountB <= MAX_UINT256
      modifies this
      ensures Valid()
      ensures r.Done? <==> old(Succeeds(State(), Add(sender, amountA, amountB)))
      ensures State() == old(Apply(State(), Add(sender, amountA, amountB)))
      ensures r.Done? ==>
                && r.first == totalLiquidityShares - old(totalLiquidityShares)
                && r.first == Get(liquidityShares, sender) - old(Get(liquidityShares, sender))
                && DepositTerms(old(totalLiquidityShares), old(reserveTokenA), old(reserveTokenB), amountA, amountB,
                                old(Get(balanceTokenA, sender)) - Get(balanceTokenA, sender),
                                old(Get(balanceTokenB, sender)) - Get(balanceTokenB, sender), r.first)
                && reserveTokenA - old(reserveTokenA) == old(Get(balanceTokenA, sender)) - Get(balanceTokenA, sender)
                && reserveTokenB - old(reserveTokenB) == old(Get(balanceTokenB, sender)) - Get(balanceTokenB, sender)
      ensures r.Reverted? ==> State() == old(State())
    {
      ghost var before := State();
      ApplyKeepsInv(State(), Add(sender, amountA, amountB));
      SharesBound(State());
      if amountA == 0 || amountB == 0 { return Reverted; }
      if Get(balanceTokenA, sender) < amountA || Get(balanceTokenB, sender) < amountB { return Reverted; }
      var ok, usedA, usedB, minted := PlanDeposit(totalLiquidityShares, reserveTokenA, reserveTokenB, amountA, amountB);
      if !ok || totalLiquidityShares + minted > MAX_UINT256 { return Reverted; }
      if Get(liquidityShares, sender) + minted > MAX_UINT256 { return Reverted; }
      CommitDeposit(sender, usedA, usedB, minted);
      DepositEffect(before, sender, amountA, amountB);
      return Done(minted, 0);
    }

    /** Lines 231-233 and 260-272: a first deposit overwrites the reserves, a later one adds. */
    method FillReserves(usedA: nat, usedB: nat)
      requires totalLiquidityShares == 0 ==> reserveTokenA == 0 && reserveTokenB == 0
      modifies this`reserveTokenA, this`reserveTokenB, this`lastK
      ensures reserveTokenA == old(reserveTokenA) + usedA && reserveTokenB == old(reserveTokenB) + usedB
      ensures lastK == Prod(reserveTokenA, reserveTokenB)
    {
      if totalLiquidityShares == 0 {
        reserveTokenA, reserveTokenB := usedA, usedB;
      } else {
        reserveTokenA, reserveTokenB := reserveTokenA + usedA, reserveTokenB + usedB;
      }
      lastK := Prod(reserveTokenA, reserveTokenB);
    }

    /** Lines 231-282: the effects of a deposit. */
    method CommitDeposit(sender: Address, usedA: nat, usedB: nat, minted: nat)
      requires Get(balanceTokenA, sender) >= usedA && Get(balanceTokenB, sender) >= usedB
      requires totalLiquidityShares == 0 ==> reserveTokenA == 0 && reserveTokenB == 0
      modifies this
      ensures State() == old(AfterAdd(State(), sender, Deposit(usedA, usedB, minted)))
    {
      FillReserves(usedA, usedB);
      balanceTokenA := balanceTokenA[sender := Get(balanceTokenA, sender) - usedA];
      balanceTokenB := balanceTokenB[sender := Get(balanceTokenB, sender) - usedB];
      liquidityShares := liquidityShares[sender := Get(liquidityShares, sender) + minted];
      totalLiquidityShares := totalLiquidityShares + minted;
    }

    method RemoveLiquidity(sender: Address, shares: nat) returns (r: Outcome, productFell: bool)
      requires Valid() && shares <= MAX_UINT256
      modifies this
      ensures Valid()
      ensures r.Done? <==> old(Succeeds(State(), Remove(sender, shares)))
      ensures State() == old(Apply(State(), Remove(sender, shares)))
      ensures r.Done? ==>
                && PaysOut(shares, old(totalLiquidityShares), old(Get(balanceTokenA, sender)),
                           Get(balanceTokenA, sender), old(reserveTokenA), reserveTokenA)
                && PaysOut(shares, old(totalLiquidityShares), old(Get(balanceTokenB, sender)),
                           Get(balanceTokenB, sender), old(reserveTokenB), reserveTokenB)
                && r.first == old(reserveTokenA) - reserveTokenA && r.second == old(reserveTokenB) - reserveTokenB
                && totalLiquidityShares == old(totalLiquidityShares) - shares
                && Get(liquidityShares, sender) == old(Get(liquidityShares, sender)) - shares
      ensures r.Done? ==> productFell
      ensures r.Reverted? ==> State() == old(State())
    {
      ghost var before := State();
      ApplyKeepsInv(State(), Remove(sender, shares));
      SharesBound(State());
      var ok, amountA, amountB, fell := PlanWithdrawal(totalLiquidityShares, reserveTokenA, reserveTokenB,
                                                       lastK, Get(liquidityShares, sender), shares);
      if !ok || totalLiquidityShares < shares { return Reverted, fell; }
      if Get(balanceTokenA, sender) + amountA > MAX_UINT256 { return Reverted, fell; }
      if Get(balanceTokenB, sender) + amountB > MAX_UINT256 { return Reverted, fell; }
      CommitWithdrawal(sender, shares, amountA, amountB);
      RemovalEffect(before, sender, shares);
      return Done(amountA, amountB), fell;
    }

    /** Lines 325-341: the effects of a withdrawal. */
    method CommitWithdrawal(sender: Address, shares: nat, amountA: nat, amountB: nat)
      requires 0 < shares <= Get(liquidityShares, sender) <= totalLiquidityShares
      requires amountA == Claim(shares, reserveTokenA, totalLiquidityShares) <= reserveTokenA
      requires amountB == Claim(shares, reserveTokenB, totalLiquidityShares) <= reserveTokenB
      modifies this
      ensures State() == old(AfterRemove(State(), sender, shares))
    {
      reserveTokenA, reserveTokenB := reserveTokenA - amountA, reserveTokenB - amountB;
      lastK := Prod(reserveTokenA, reserveTokenB);
      liquidityShares := liquidityShares[sender := Get(liquidityShares, sender) - shares];
      totalLiquidityShares := totalLiquidityShares - shares;
      balanceTokenA := balanceTokenA[sender := Get(balanceTokenA, sender) + amountA];
      balanceTokenB := balanceTokenB[sender := Get(balanceTokenB, sender) + amountB];
    }

    /** Succeeds exactly when the model says so, although the model lists neither the
        product check nor the reserve check: both always pass. */
    method SwapExactTokenAForTokenB(sender: Address, amountIn: nat, minAmountOut: nat) returns (r: Outcome)
      requires Valid() && amountIn <= MAX_UINT256 && minAmountOut <= MAX_UINT256
      modifies this
      ensures Valid()
      ensures r.Done? <==> old(Succeeds(State(), SwapAForB(sender, amountIn, minAmountOut)))
      ensures State() == old(Apply(State(), SwapAForB(sender, amountIn, minAmountOut)))
      ensures r.Done? ==>
                && r.first == old(reserveTokenB) - reserveTokenB
                && SwapMoves(amountIn, minAmountOut, old(Get(balanceTokenA, sender)), Get(balanceTokenA, sender),
                             old(Get(balanceTokenB, sender)), Get(balanceTokenB, sender),
                             old(reserveTokenA), reserveTokenA, old(reserveTokenB), reserveTokenB,
                             old(accumulatedFeeTokenA), accumulatedFeeTokenA)
      ensures r.Reverted? ==> State() == old(State())
    {
      ghost var before := State();
      ApplyKeepsInv(State(), SwapAForB(sender, amountIn, minAmountOut));
      var ok, fee, out := CheckSwap(totalLiquidityShares, reserveTokenA, reserveTokenB, accumulatedFeeTokenA, lastK,
                                    Get(balanceTokenA, sender), Get(balanceTokenB, sender), amountIn, minAmountOut);
      if !ok { return Reverted; }
      CommitAForB(sender, amountIn, fee, out);
      SwapEffect(before, SwapAForB(sender, amountIn, minAmountOut));
      return Done(out, 0);
    }

    /** Lines 416-432: the effects of that swap. */
    method CommitAForB(sender: Address, amountIn: nat, fee: nat, out: nat)
      requires reserveTokenA > 0 && reserveTokenB > 0 && Get(balanceTokenA, sender) >= amountIn
      requires fee == Fee(amountIn) && out == SwapOut(reserveTokenA, reserveTokenB, Net(amountIn)) <= reserveTokenB
      modifies this
      ensures State() == old(AfterSwap(State(), sender, amountIn))
    {
      balanceTokenA := balanceTokenA[sender := Get(balanceTokenA, sender) - amountIn];
      reserveTokenA := reserveTokenA + (amountIn - fee);
      reserveTokenB := reserveTokenB - out;
      accumulatedFeeTokenA := accumulatedFeeTokenA + fee;
      balanceTokenB := balanceTokenB[sender := Get(balanceTokenB, sender) + out];
      lastK := Prod(reserveTokenA, reserveTokenB);
    }

    method SwapExactTokenBForTokenA(sender: Address, amountIn: nat, minAmountOut: nat) returns (r: Outcome)
      requires Valid() && amountIn <= MAX_UINT256 && minAmountOut <= MAX_UINT256
      modifies this
      ensures Valid()
      ensures r.Done? <==> old(Succeeds(State(), SwapBForA(sender, amountIn, minAmountOut)))
      ensures State() == old(Apply(State(), SwapBForA(sender, amountIn, minAmountOut)))
      ensures r.Done? ==>
                && r.first == old(reserveTokenA) - reserveTokenA
                && SwapMoves(amountIn, minAmountOut, old(Get(balanceTokenB, sender)), Get(balanceTokenB, sender),
                             old(Get(balanceTokenA, sender)), Get(balanceTokenA, sender),
                             old(reserveTokenB), reserveTokenB, old(reserveTokenA), reserveTokenA,
                             old(accumulatedFeeTokenB), accumulatedFeeTokenB)
      ensures r.Reverted? ==> State() == old(State())
    {
      ghost var before := State();
      ApplyKeepsInv(State(), SwapBForA(sender, amountIn, minAmountOut));
      MirrorInv(State());
      var ok, fee, out := CheckSwap(totalLiquidityShares, reserveTokenB, reserveTokenA, accumulatedFeeTokenB, lastK,
                                    Get(balanceTokenB, sender), Get(balanceTokenA, sender), amountIn, minAmountOut);
      if !ok { return Reverted; }
      CommitBForA(sender, amountIn, fee, out);
      SwapEffect(before, SwapBForA(sender, amountIn, minAmountOut));
      return Done(out, 0);
    }

    /** Lines 489-504: the effects of that swap. */
    method CommitBForA(sender: Address, amountIn: nat, fee: nat, out: nat)
      requires reserveTokenA > 0 && reserveTokenB > 0 && Get(balanceTokenB, sender) >= amountIn
      requires fee == Fee(amountIn) && out == SwapOut(reserveTokenB, reserveTokenA, Net(amountIn)) <= reserveTokenA
      modifies this
      ensures State() == old(Mirror(AfterSwap(Mirror(State()), sender, amountIn)))
    {
      balanceTokenB := balanceTokenB[sender := Get(balanceTokenB, sender) - amountIn];
      reserveTokenB := reserveTokenB + (amountIn - fee);
      reserveTokenA := reserveTokenA - out;
      accumulatedFeeTokenB := accumulatedFeeTokenB + fee;
      balanceTokenA := balanceTokenA[sender := Get(balanceTokenA, sender) + out];
      ProdCommutes(reserveTokenA, reserveTokenB);
      lastK := Prod(reserveTokenA, reserveTokenB);
    }

    /** The previews: what a swap in either direction would pay. */
    method GetSwapOutput(amountIn: nat, fromA: bool) returns (r: Outcome)
      requires Valid() && amountIn <= MAX_UINT256
      ensures r.Done? ==> amountIn > 0 &&
                          r.first == (if fromA then SwapOut(reserveTokenA, reserveTokenB, Net(amountIn))
                                      else SwapOut(reserveTokenB, reserveTokenA, Net(amountIn)))
      ensures forall sender, minOut ::
                (fromA && Succeeds(State(), SwapAForB(sender, amountIn, minOut)) ==> r.Done?) &&
                (!fromA && Succeeds(State(), SwapBForA(sender, amountIn, minOut)) ==> r.Done?)
    {
      var rIn, rOut := if fromA then reserveTokenA else reserveTokenB, if fromA then reserveTokenB else reserveTokenA;
      if amountIn == 0 || amountIn * FEE_NUMERATOR > MAX_UINT256 { return Reverted; }
      var dx := amountIn - amountIn * FEE_NUMERATOR / FEE_DENOMINATOR;
      if rOut * dx > MAX_UINT256 || rIn + dx > MAX_UINT256 { return Reverted; }
      r := Done(SwapOut(rIn, rOut, dx), 0);
    }

    /** The value shown to a provider: the proportional part of both reserves, rounded down;
        what burning all the holder's shares pays whenever that succeeds. */
    method GetLPValue(lp: Address) returns (r: Outcome)
      requires Valid()
      ensures r.Reverted? <==> totalLiquidityShares > 0 && (Get(liquidityShares, lp) * reserveTokenA > MAX_UINT256 ||
                                                            Get(liquidityShares, lp) * reserveTokenB > MAX_UINT256)
      ensures totalLiquidityShares == 0 ==> r == Done(0, 0)
      ensures r.Done? && totalLiquidityShares > 0 ==>
                var held, total := Get(liquidityShares, lp), totalLiquidityShares;
                && r.first * total <= held * reserveTokenA < (r.first + 1) * total
                && r.second * total <= held * reserveTokenB < (r.second + 1) * total
      ensures Succeeds(State(), Remove(lp, Get(liquidityShares, lp))) ==>
                var s := Apply(State(), Remove(lp, Get(liquidityShares, lp)));
                && r.Done?
                && Get(s.balanceA, lp) == Get(balanceTokenA, lp) + r.first
                && Get(s.balanceB, lp) == Get(balanceTokenB, lp) + r.second
    {
      if totalLiquidityShares == 0 { return Done(0, 0); }
      var held := Get(liquidityShares, lp);
      if held * reserveTokenA > MAX_UINT256 || held * reserveTokenB > MAX_UINT256 { return Reverted; }
      var a, b := MulDiv(held, reserveTokenA, totalLiquidityShares), MulDiv(held, reserveTokenB, totalLiquidityShares);
      DivBounds(held * reserveTokenA, totalLiquidityShares);
      DivBounds(held * reserveTokenB, totalLiquidityShares);
      return Done(a, b);
    }
  }
}

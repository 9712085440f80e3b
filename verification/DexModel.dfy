/** The pool as a value: its state, its calls, when each call succeeds and what it
    does.  `DexEngine` proves the contract's own methods against these definitions. */
module DexModel {
  import opened IntegerMath

  type Address = nat

  const ZERO_ADDRESS: Address := 0
  const FEE_NUMERATOR := 3
  const FEE_DENOMINATOR := 1000
  const MINIMUM_LIQUIDITY := 1000

  /** A Solidity mapping: absent keys read as zero. */
  type Ledger = map<Address, nat>

  function Get(m: Ledger, a: Address): nat {
    if a in m then m[a] else 0
  }

  datatype Dex = Dex(
    balanceA: Ledger, balanceB: Ledger, shares: Ledger, total: nat,
    reserveA: nat, reserveB: nat, feeA: nat, feeB: nat, lastK: nat)

  const EMPTY := Dex(map[], map[], map[], 0, 0, 0, 0, 0, 0)

  datatype Call =
    | Mint(user: Address, amountA: nat, amountB: nat)
    | Add(sender: Address, amountA: nat, amountB: nat)
    | Remove(sender: Address, burned: nat)
    | SwapAForB(sender: Address, amountIn: nat, minOut: nat)
    | SwapBForA(sender: Address, amountIn: nat, minOut: nat)

  /** The same pool with the two tokens exchanged. */
  function Mirror(s: Dex): Dex {
    Dex(s.balanceB, s.balanceA, s.shares, s.total, s.reserveB, s.reserveA, s.feeB, s.feeA, s.lastK)
  }

  // ---------------------------------------------------------------- formulas

  /** Three in a thousand, rounded down. */
  function Fee(amountIn: nat): (fee: nat)
    ensures 1000 * fee <= 3 * amountIn < 1000 * (fee + 1)
  {
    amountIn * FEE_NUMERATOR / FEE_DENOMINATOR
  }

  function Net(amountIn: nat): (n: nat)
    ensures amountIn > 0 ==> n > 0
  {
    amountIn - Fee(amountIn)
  }

  function SwapOut(rIn: nat, rOut: nat, dx: nat): nat
    requires rIn + dx > 0
  {
    MulDiv(rOut, dx, rIn + dx)
  }

  function Claim(burned: nat, reserve: nat, total: nat): nat
    requires total > 0
  {
    MulDiv(burned, reserve, total)
  }

  /** What a deposit consumes and mints. */
  datatype Deposit = Deposit(a: nat, b: nat, minted: nat)

  ghost predicate Funded(s: Dex) {
    s.total > 0 ==> s.reserveA > 0 && s.reserveB > 0
  }

  ghost function DepositOf(total: nat, rA: nat, rB: nat, amountA: nat, amountB: nat): Deposit
    requires total > 0 ==> rA > 0 && rB > 0
  {
    if total == 0 then
      Deposit(amountA, amountB, FloorSqrt(amountA * amountB))
    else if MulDiv(amountA, rB, rA) <= amountB then
      Deposit(amountA, MulDiv(amountA, rB, rA), MulDiv(amountA, total, rA))
    else
      var a := MulDiv(amountB, rA, rB);
      Deposit(a, amountB, MulDiv(a, total, rA))
  }

  ghost function DepositFor(s: Dex, amountA: nat, amountB: nat): Deposit
    requires Funded(s)
  {
    DepositOf(s.total, s.reserveA, s.reserveB, amountA, amountB)
  }

  /** Token A is the scarce side of the offer (line 245). */
  ghost predicate ALimited(s: Dex, amountA: nat, amountB: nat)
    requires Funded(s)
  {
    s.total > 0 && MulDiv(amountA, s.reserveB, s.reserveA) <= amountB
  }

  /** Token B is the scarce side of the offer (line 248). */
  ghost predicate BLimited(s: Dex, amountA: nat, amountB: nat)
    requires Funded(s)
  {
    s.total > 0 && MulDiv(amountA, s.reserveB, s.reserveA) > amountB
  }

  // ----------------------------------------------------- when a call succeeds

  ghost predicate SwapPasses(total: nat, rIn: nat, rOut: nat, feeIn: nat,
                             balanceIn: nat, balanceOut: nat, amountIn: nat, minOut: nat)
    requires total > 0 ==> rIn > 0 && rOut > 0
  {
    var dx := Net(amountIn);
    && total > 0 && amountIn > 0 && minOut > 0
    && balanceIn >= amountIn
    && amountIn * FEE_NUMERATOR <= MAX_UINT256
    && rIn + dx <= MAX_UINT256
    && rOut * dx <= MAX_UINT256
    && var out := SwapOut(rIn, rOut, dx);
    && out >= minOut
    && feeIn + Fee(amountIn) <= MAX_UINT256
    && balanceOut + out <= MAX_UINT256
    && (rIn + dx) * (rOut - out) <= MAX_UINT256
  }

  ghost predicate SwapSucceeds(s: Dex, sender: Address, amountIn: nat, minOut: nat)
    requires Funded(s)
  {
    SwapPasses(s.total, s.reserveA, s.reserveB, s.feeA,
               Get(s.balanceA, sender), Get(s.balanceB, sender), amountIn, minOut)
  }

  ghost predicate DepositPasses(total: nat, rA: nat, rB: nat, amountA: nat, amountB: nat)
    requires total > 0 ==> rA > 0 && rB > 0
  {
    var d := DepositOf(total, rA, rB, amountA, amountB);
    if total == 0 then
      amountA * amountB < MAX_UINT256 && d.minted >= MINIMUM_LIQUIDITY
    else
      && amountA * rB <= MAX_UINT256
      && (MulDiv(amountA, rB, rA) > amountB ==> amountB * rA <= MAX_UINT256)
      && d.a * total <= MAX_UINT256
      && d.minted > 0
      && (rA + d.a) * (rB + d.b) <= MAX_UINT256
  }

  ghost predicate AddSucceeds(s: Dex, sender: Address, amountA: nat, amountB: nat)
    requires Funded(s)
  {
    && amountA > 0 && amountB > 0
    && Get(s.balanceA, sender) >= amountA && Get(s.balanceB, sender) >= amountB
    && DepositPasses(s.total, s.reserveA, s.reserveB, amountA, amountB)
    && s.total + DepositFor(s, amountA, amountB).minted <= MAX_UINT256
  }

  ghost predicate WithdrawalPasses(total: nat, rA: nat, rB: nat, held: nat, burned: nat) {
    && total > 0 && 0 < burned <= held
    && burned * rA <= MAX_UINT256 && burned * rB <= MAX_UINT256
    && Claim(burned, rA, total) > 0 && Claim(burned, rB, total) > 0
  }

  ghost predicate RemoveSucceeds(s: Dex, sender: Address, burned: nat) {
    && WithdrawalPasses(s.total, s.reserveA, s.reserveB, Get(s.shares, sender), burned)
    && Get(s.balanceA, sender) + Claim(burned, s.reserveA, s.total) <= MAX_UINT256
    && Get(s.balanceB, sender) + Claim(burned, s.reserveB, s.total) <= MAX_UINT256
  }

  ghost predicate Succeeds(s: Dex, c: Call)
    requires Funded(s)
  {
    match c
    case Mint(user, a, b) =>
      && user != ZERO_ADDRESS && (a > 0 || b > 0)
      && Get(s.balanceA, user) + a <= MAX_UINT256 && Get(s.balanceB, user) + b <= MAX_UINT256
    case Add(sender, a, b) => AddSucceeds(s, sender, a, b)
    case Remove(sender, burned) => RemoveSucceeds(s, sender, burned)
    case SwapAForB(sender, amountIn, minOut) => SwapSucceeds(s, sender, amountIn, minOut)
    case SwapBForA(sender, amountIn, minOut) => SwapSucceeds(Mirror(s), sender, amountIn, minOut)
  }

  // -------------------------------------------------------- what a call does

  ghost function AfterSwap(s: Dex, sender: Address, amountIn: nat): Dex
    requires s.reserveA > 0 && s.reserveB > 0 && Get(s.balanceA, sender) >= amountIn
  {
    var dx := Net(amountIn);
    var out := SwapOut(s.reserveA, s.reserveB, dx);
    SwapProduct(s.reserveA, s.reserveB, dx);
    s.(balanceA := s.balanceA[sender := Get(s.balanceA, sender) - amountIn],
       balanceB := s.balanceB[sender := Get(s.balanceB, sender) + out],
       reserveA := s.reserveA + dx,
       reserveB := s.reserveB - out,
       feeA := s.feeA + Fee(amountIn),
       lastK := Prod(s.reserveA + dx, s.reserveB - out))
  }

  ghost function AfterAdd(s: Dex, sender: Address, d: Deposit): Dex
    requires Get(s.balanceA, sender) >= d.a && Get(s.balanceB, sender) >= d.b
  {
    s.(balanceA := s.balanceA[sender := Get(s.balanceA, sender) - d.a],
       balanceB := s.balanceB[sender := Get(s.balanceB, sender) - d.b],
       shares := s.shares[sender := Get(s.shares, sender) + d.minted],
       total := s.total + d.minted,
       reserveA := s.reserveA + d.a,
       reserveB := s.reserveB + d.b,
       lastK := Prod(s.reserveA + d.a, s.reserveB + d.b))
  }

  ghost function AfterRemove(s: Dex, sender: Address, burned: nat): Dex
    requires 0 < burned <= Get(s.shares, sender) <= s.total
  {
    var a, b := Claim(burned, s.reserveA, s.total), Claim(burned, s.reserveB, s.total);
    ClaimWithinReserve(burned, s.reserveA, s.total);
    ClaimWithinReserve(burned, s.reserveB, s.total);
    s.(balanceA := s.balanceA[sender := Get(s.balanceA, sender) + a],
       balanceB := s.balanceB[sender := Get(s.balanceB, sender) + b],
       shares := s.shares[sender := Get(s.shares, sender) - burned],
       total := s.total - burned,
       reserveA := s.reserveA - a,
       reserveB := s.reserveB - b,
       lastK := Prod(s.reserveA - a, s.reserveB - b))
  }

  /** The effect of a call; a reverted call changes nothing. */
  ghost function Apply(s: Dex, c: Call): Dex
    requires Inv(s)
  {
    if !Succeeds(s, c) then s else
    SharesBound(s);
    match c
    case Mint(user, a, b) =>
      s.(balanceA := s.balanceA[user := Get(s.balanceA, user) + a],
         balanceB := s.balanceB[user := Get(s.balanceB, user) + b])
    case Add(sender, a, b) =>
      DepositWithinOffer(s.total, s.reserveA, s.reserveB, a, b);
      AfterAdd(s, sender, DepositFor(s, a, b))
    case Remove(sender, burned) => AfterRemove(s, sender, burned)
    case SwapAForB(sender, amountIn, _) => AfterSwap(s, sender, amountIn)
    case SwapBForA(sender, amountIn, _) => Mirror(AfterSwap(Mirror(s), sender, amountIn))
  }

  // ---------------------------------------------------------- the invariant

  ghost function Sum(m: Ledger): nat
  {
    if m == map[] then 0 else
    var k :| k in m;
    m[k] + Sum(m - {k})
  }

  ghost predicate Small(m: Ledger) {
    forall a :: a in m ==> m[a] <= MAX_UINT256
  }

  ghost predicate Inv(s: Dex) {
    && s.total == Sum(s.shares)
    && s.lastK == Prod(s.reserveA, s.reserveB)
    && Funded(s)
    && (s.total == 0 ==> s.reserveA == 0 && s.reserveB == 0)
    && Small(s.balanceA) && Small(s.balanceB) && Small(s.shares)
    && s.total <= MAX_UINT256 && s.lastK <= MAX_UINT256
    && s.feeA <= MAX_UINT256 && s.feeB <= MAX_UINT256
  }

  lemma {:induction false} SumTake(m: Ledger, k: Address)
    requires k in m
    ensures Sum(m) == m[k] + Sum(m - {k})
    decreases |m|
  {
    var j :| j in m && Sum(m) == m[j] + Sum(m - {j});
    if j != k {
      SumTake(m - {j}, k);
      SumTake(m - {k}, j);
      assert m - {j} - {k} == m - {k} - {j};
    }
  }

  lemma SumSet(m: Ledger, k: Address, v: nat)
    ensures Sum(m[k := v]) == Sum(m) - Get(m, k) + v
    ensures Get(m, k) <= Sum(m)
  {
    SumTake(m[k := v], k);
    assert m[k := v] - {k} == m - {k};
    if k in m {
      SumTake(m, k);
    } else {
      assert m - {k} == m;
    }
  }

  /** Nobody holds more shares than exist. */
  lemma SharesBound(s: Dex)
    requires Inv(s)
    ensures forall a :: Get(s.shares, a) <= s.total
  {
    forall a ensures Get(s.shares, a) <= s.total {
      SumSet(s.shares, a, 0);
    }
  }

  /** A deposit never takes more than was offered: in the B-limited branch the quoted
      amount of token A is at most the offer, so the contract's `assert` cannot fail. */
  lemma DepositWithinOffer(total: nat, rA: nat, rB: nat, amountA: nat, amountB: nat)
    requires total > 0 ==> rA > 0 && rB > 0
    ensures var d := DepositOf(total, rA, rB, amountA, amountB); d.a <= amountA && d.b <= amountB
  {
    if total > 0 && MulDiv(amountA, rB, rA) > amountB {
      var n := amountA * rB;
      DivBounds(n, rA);
      MulMonotone(amountB + 1, n / rA, rA);
      DivIsLargest(amountB * rA, rB, amountA);
    }
  }

  /** A partial claim leaves something behind; a full claim empties the reserve. */
  lemma ClaimWithinReserve(burned: nat, reserve: nat, total: nat)
    requires 0 < burned <= total
    ensures Claim(burned, reserve, total) <= reserve
    ensures burned < total && reserve > 0 ==> Claim(burned, reserve, total) < reserve
    ensures burned == total ==> Claim(burned, reserve, total) == reserve
  {
    MulMonotone(burned, total, reserve);
    assert total * reserve == reserve * total;
    DivIsLargest(burned * reserve, total, reserve);
    if burned < total && reserve > 0 {
      assert burned * reserve < total * reserve by {
        MulMonotone(burned + 1, total, reserve);
      }
    }
  }

  lemma FactorsFit(a: nat, b: nat)
    requires a > 0 && b > 0
    ensures a <= a * b && b <= a * b
  {
    MulMonotone(1, b, a);
    MulMonotone(1, a, b);
  }

  // ------------------------------------------- every call keeps the invariant

  lemma SwapKeepsInv(s: Dex, sender: Address, amountIn: nat, minOut: nat)
    requires Inv(s) && SwapSucceeds(s, sender, amountIn, minOut)
    ensures Inv(AfterSwap(s, sender, amountIn))
  {
    SwapProduct(s.reserveA, s.reserveB, Net(amountIn));
  }

  lemma MirrorInv(s: Dex)
    ensures Inv(Mirror(s)) <==> Inv(s)
    ensures Mirror(Mirror(s)) == s
  {
    assert s.reserveA * s.reserveB == s.reserveB * s.reserveA;
  }

  lemma AddKeepsInv(s: Dex, sender: Address, amountA: nat, amountB: nat)
    requires Inv(s) && AddSucceeds(s, sender, amountA, amountB)
    requires DepositFor(s, amountA, amountB).a <= amountA && DepositFor(s, amountA, amountB).b <= amountB
    ensures Inv(AfterAdd(s, sender, DepositFor(s, amountA, amountB)))
  {
    SumSet(s.shares, sender, Get(s.shares, sender) + DepositFor(s, amountA, amountB).minted);
  }

  lemma RemoveKeepsInv(s: Dex, sender: Address, burned: nat)
    requires Inv(s) && RemoveSucceeds(s, sender, burned) && Get(s.shares, sender) <= s.total
    ensures Inv(AfterRemove(s, sender, burned))
  {
    SumSet(s.shares, sender, Get(s.shares, sender) - burned);
    ClaimsShrink(s.total, s.reserveA, s.reserveB, burned);
  }

  lemma ApplyKeepsInv(s: Dex, c: Call)
    requires Inv(s)
    ensures Inv(Apply(s, c))
  {
    if Succeeds(s, c) {
      match c
      case Mint(user, a, b) =>
      case Add(sender, a, b) =>
        DepositWithinOffer(s.total, s.reserveA, s.reserveB, a, b);
        AddKeepsInv(s, sender, a, b);
      case Remove(sender, burned) =>
        SharesBound(s);
        RemoveKeepsInv(s, sender, burned);
      case SwapAForB(sender, amountIn, minOut) =>
        SwapKeepsInv(s, sender, amountIn, minOut);
      case SwapBForA(sender, amountIn, minOut) =>
        MirrorInv(s);
        SwapKeepsInv(Mirror(s), sender, amountIn, minOut);
        MirrorInv(AfterSwap(Mirror(s), sender, amountIn));
    }
  }

  /** A removal that pays out lowers the product, strictly; it empties the pool exactly
      when every share is burned. */
  lemma ClaimsShrink(total: nat, rA: nat, rB: nat, burned: nat)
    requires 0 < burned <= total && rA > 0 && rB > 0
    ensures var a, b := Claim(burned, rA, total), Claim(burned, rB, total);
            && a <= rA && b <= rB
            && (burned < total ==> a < rA && b < rB)
            && (burned == total ==> a == rA && b == rB)
            && (a > 0 ==> (rA - a) * (rB - b) < rA * rB)
            && (rA - a) * (rB - b) <= rA * rB
  {
    var a, b := Claim(burned, rA, total), Claim(burned, rB, total);
    ClaimWithinReserve(burned, rA, total);
    ClaimWithinReserve(burned, rB, total);
    MulMonotone(rB - b, rB, rA - a);
    MulMonotone(rA - a, rA, rB);
    if a > 0 {
      MulMonotone(rA - a + 1, rA, rB);
    }
  }
}

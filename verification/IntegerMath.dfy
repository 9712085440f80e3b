/** Integer arithmetic for the pool and the batch chunks: floor division, cross-multiplied
    ratios, and integer square roots.  Nothing here mentions any state. */
module IntegerMath {

  /** The number with the given binary digits. */
  function OfBits(bits: seq<nat>): nat {
    if bits == [] then 0 else 2 * OfBits(bits[..|bits| - 1]) + bits[|bits| - 1]
  }

  function Ones(n: nat): seq<nat> {
    seq(n, _ => 1)
  }

  /** The largest value of the contract's `uint256` words: 256 ones.  It is given by its
      bits so that no proof about products has so large a numeral in scope: the solver's
      nonlinear arithmetic is not reliable there. */
  const MAX_UINT256: nat := OfBits(Ones(256))

  lemma OneMore(n: nat)
    ensures OfBits(Ones(n + 1)) == 2 * OfBits(Ones(n)) + 1
  {
    assert Ones(n + 1)[..n] == Ones(n);
  }

  lemma FourMoreOnes(n: nat)
    ensures OfBits(Ones(n + 4)) == 0x10 * OfBits(Ones(n)) + 0xF
  {
    OneMore(n);
    OneMore(n + 1);
    OneMore(n + 2);
    OneMore(n + 3);
  }

  lemma SixteenMoreOnes(n: nat)
    ensures OfBits(Ones(n + 16)) == 0x1_0000 * OfBits(Ones(n)) + 0xFFFF
  {
    FourMoreOnes(n);
    FourMoreOnes(n + 4);
    FourMoreOnes(n + 8);
    FourMoreOnes(n + 12);
  }

  lemma MoreOnes(n: nat)
    ensures OfBits(Ones(n + 64)) == 0x1_0000_0000_0000_0000 * OfBits(Ones(n)) + 0xFFFF_FFFF_FFFF_FFFF
  {
    SixteenMoreOnes(n);
    SixteenMoreOnes(n + 16);
    SixteenMoreOnes(n + 32);
    SixteenMoreOnes(n + 48);
  }

  lemma MaxWordValue()
    ensures MAX_UINT256 == 0xFFFF_FFFF_FFFF_FFFF_FFFF_FFFF_FFFF_FFFF_FFFF_FFFF_FFFF_FFFF_FFFF_FFFF_FFFF_FFFF
  {
    assert OfBits(Ones(0)) == 0;
    MoreOnes(0);
    MoreOnes(64);
    MoreOnes(128);
    MoreOnes(192);
  }

  lemma WordHoldsTrillions()
    ensures MAX_UINT256 > 1_000_000_000_000
  {
    MaxWordValue();
  }

  /** `a * b`, as the contract's stored product. */
  function Prod(a: nat, b: nat): nat {
    a * b
  }

  lemma ProdCommutes(a: nat, b: nat)
    ensures Prod(a, b) == Prod(b, a)
  {
  }

  /** `(a * b) / d`, the one shape of division the contract uses. */
  function MulDiv(a: nat, b: nat, d: nat): nat
    requires d > 0
  {
    var n: nat := a * b;
    n / d
  }

  lemma DivBounds(n: nat, d: nat)
    requires d > 0
    ensures n / d * d <= n < (n / d + 1) * d
    ensures n / d * d + n % d == n
  {
  }

  /** The quotient is the largest factor that fits. */
  lemma DivIsLargest(n: nat, d: nat, q: nat)
    requires d > 0
    ensures q * d <= n ==> q <= n / d
    ensures n < (q + 1) * d ==> n / d <= q
    ensures n < q * d ==> n / d < q
  {
    DivBounds(n, d);
    if q * d <= n && q > n / d {
      MulMonotone(n / d + 1, q, d);
    }
    if n < (q + 1) * d && n / d > q {
      MulMonotone(q + 1, n / d, d);
    }
    if n < q * d && n / d >= q {
      MulMonotone(q, n / d, d);
    }
  }

  lemma MulMonotone(a: nat, b: nat, c: nat)
    requires a <= b
    ensures a * c <= b * c
  {
  }

  lemma MulCancel(a: nat, b: nat, c: nat)
    requires c > 0 && a * c <= b * c
    ensures a <= b
  {
    if a > b {
      MulMonotone(b + 1, a, c);
    }
  }

  /** Paying out `out = floor(rOut*dx / (rIn+dx))` raises the product by exactly the
      remainder of that division, and always leaves something in the pool. */
  lemma SwapProduct(rIn: nat, rOut: nat, dx: nat)
    requires rIn > 0 && rOut > 0
    ensures var out := rOut * dx / (rIn + dx);
            out < rOut && (rIn + dx) * (rOut - out) == rIn * rOut + rOut * dx % (rIn + dx)
  {
    var d := rIn + dx;
    var out := rOut * dx / d;
    DivBounds(rOut * dx, d);
    assert rOut * dx < rOut * d by {
      assert rOut * d == rOut * rIn + rOut * dx;
    }
    DivIsLargest(rOut * dx, d, rOut);
    assert d * (rOut - out) == rOut * rIn + rOut * dx - out * d;
  }

  lemma DivMod(n: nat, d: nat) returns (q: nat, r: nat)
    requires d > 0
    ensures q == n / d && r == n % d && q * d + r == n
  {
    q, r := n / d, n % d;
  }

  /** Whatever leaves the product at least as large pays no more than the formula. */
  lemma PayoutBound(rIn: nat, rOut: nat, dx: nat, paid: nat)
    requires rIn + dx > 0 && paid <= rOut
    requires (rIn + dx) * (rOut - paid) >= rIn * rOut
    ensures paid <= rOut * dx / (rIn + dx)
  {
    var d := rIn + dx;
    assert d * (rOut - paid) == rIn * rOut + rOut * dx - paid * d;
    DivIsLargest(rOut * dx, d, paid);
  }

  /** A ratio `r/t` that does not fall on either of two steps does not fall over both. */
  lemma RatioChain(r0: nat, t0: nat, r1: nat, t1: nat, r2: nat, t2: nat)
    requires t1 > 0
    requires r1 * t0 >= r0 * t1 && r2 * t1 >= r1 * t2
    ensures r2 * t0 >= r0 * t2
  {
    MulMonotone(r1 * t2, r2 * t1, t0);
    MulMonotone(r0 * t1, r1 * t0, t2);
    assert r1 * t2 * t0 == r1 * t0 * t2;
    assert r0 * t1 * t2 == r0 * t2 * t1;
    assert r2 * t1 * t0 == r2 * t0 * t1;
    MulCancel(r0 * t2, r2 * t0, t1);
  }

  /** Multiplying two ratio comparisons. */
  lemma RatioProduct(a0: nat, b0: nat, t0: nat, a1: nat, b1: nat, t1: nat)
    requires a1 * t0 >= a0 * t1 && b1 * t0 >= b0 * t1
    ensures a1 * b1 * (t0 * t0) >= a0 * b0 * (t1 * t1)
  {
    MulMonotone(a0 * t1, a1 * t0, b0 * t1);
    MulMonotone(b0 * t1, b1 * t0, a1 * t0);
    assert a1 * b1 * (t0 * t0) == b1 * t0 * (a1 * t0);
    assert b0 * t1 * (a1 * t0) == a1 * t0 * (b0 * t1);
    assert a0 * b0 * (t1 * t1) == a0 * t1 * (b0 * t1);
  }

  /** Shrinking one positive factor and not growing the other shrinks the product. */
  lemma ProductFalls(a0: nat, b0: nat, a1: nat, b1: nat)
    requires a0 > 0 && b0 > 0 && a1 <= a0 && b1 <= b0 && (a1 < a0 || b1 < b0)
    ensures a1 * b1 < a0 * b0
  {
    if a1 < a0 {
      MulMonotone(b1, b0, a1);
      MulMonotone(a1 + 1, a0, b0);
    } else {
      MulMonotone(b1 + 1, b0, a0);
    }
  }

  /** Cross-multiplied transitivity: `p/x <= q/y` and `q/y <= r/z` give `p/x <= r/z`, for
      shares minted per reserve. */
  lemma CrossLess(m: nat, rA: nat, a: nat, t: nat, b: nat, rB: nat)
    requires rA > 0 && m * rA <= a * t && a * rB <= b * rA
    ensures m * rB <= b * t
  {
    MulMonotone(m * rA, a * t, rB);
    MulMonotone(a * rB, b * rA, t);
    MulReorder(m, rA, rB);
    MulReorder(a, t, rB);
    MulReorder(b, rA, t);
    MulCancel(m * rB, b * t, rA);
  }

  lemma CrossLessStrict(m: nat, rA: nat, a: nat, t: nat, b: nat, rB: nat)
    requires rA > 0 && t > 0 && m * rA <= a * t && a * rB < b * rA
    ensures m * rB < b * t
  {
    MulMonotone(m * rA, a * t, rB);
    MulMonotone(a * rB + 1, b * rA, t);
    MulReorder(m, rA, rB);
    MulReorder(a, t, rB);
    MulReorder(b, rA, t);
    assert (a * rB + 1) * t == a * rB * t + t;
    if m * rB >= b * t {
      MulMonotone(b * t, m * rB, rA);
    }
  }

  lemma MulReorder(a: nat, b: nat, c: nat)
    ensures a * b * c == a * c * b
  {
  }

  predicate IsFloorSqrt(r: nat, x: nat) {
    r * r <= x < (r + 1) * (r + 1)
  }

  /** The simple definition of the floor square root, one candidate at a time. */
  ghost function FloorSqrt(x: nat): (r: nat)
    ensures IsFloorSqrt(r, x)
  {
    if x == 0 then 0 else
    var r := FloorSqrt(x - 1);
    if (r + 1) * (r + 1) <= x then r + 1 else r
  }

  lemma FloorSqrtUnique(r: nat, x: nat)
    requires IsFloorSqrt(r, x)
    ensures r == FloorSqrt(x)
  {
    var f := FloorSqrt(x);
    if r < f {
      MulMonotone(r + 1, f, r + 1);
      MulMonotone(r + 1, f, f);
    } else if f < r {
      MulMonotone(f + 1, r, f + 1);
      MulMonotone(f + 1, r, r);
    }
  }

  /** One Babylonian step from any positive estimate lands at or above the floor root. */
  lemma BabylonianStep(x: nat, y: nat)
    requires y > 0
    ensures var z := (x / y + y) / 2; x < (z + 1) * (z + 1)
  {
    var q := x / y;
    var z := (q + y) / 2;
    DivBounds(x, y);
    var s, d := q + 1 + y, q + 1 - y;
    assert s * s == 4 * ((q + 1) * y) + d * d;
    assert d * d >= 0;
    MulMonotone(s, 2 * (z + 1), s);
    MulMonotone(s, 2 * (z + 1), 2 * (z + 1));
    assert 2 * (z + 1) * (2 * (z + 1)) == 4 * ((z + 1) * (z + 1));
  }

  /** If the next estimate is not below `y`, then `y` does not exceed the root. */
  lemma BabylonianStop(x: nat, y: nat)
    requires y > 0 && (x / y + y) / 2 >= y
    ensures y * y <= x
  {
    DivBounds(x, y);
    MulMonotone(y, x / y, y);
  }
}

/** The gas limit and base fee recurrences of the block headers (blockchain/blockchain.go). */
module GasRules {
  import opened Arithmetic
  import opened Transactions

  const DIVISOR: nat := 1024

  /** The result of a 64-bit operation. */
  function Wrap(x: int): nat { x % TWO64 }

  // Gas limit.

  /** The gas limit of the block after one with limit `p`, for the target `t`; target zero means unset. */
  function CalculateGasLimit(p: nat, t: nat): (r: nat)
    requires p < TWO64 && t < TWO64
    ensures r < TWO64
  {
    var delta := p / DIVISOR;
    if t == 0 || p == t then p
    else if p < t then Min(t, Wrap(p + delta))
    else Max(t, Max(Wrap(p - delta), 0))
  }

  /** The check of a header against its parent's limit `p`: the limits are subtracted as signed 64-bit integers. */
  predicate VerifyGasLimit(number: nat, gasUsed: nat, gasLimit: nat, p: nat) {
    var diff := Signed(Wrap(Signed(p) - Signed(gasLimit)));
    gasUsed <= gasLimit && (number == 0 || (if diff < 0 then Wrap(-diff) else diff) <= p / DIVISOR)
  }

  function Distance(x: nat, y: nat): nat { if x < y then y - x else x - y }

  /** The absolute value of a signed 64-bit difference is the distance around the 64-bit circle. */
  lemma SignedDistance(x: nat, y: nat)
    requires x < TWO64 && y < TWO64
    ensures var diff := Signed(Wrap(Signed(x) - Signed(y)));
            (if diff < 0 then Wrap(-diff) else diff) == Min(Distance(x, y), TWO64 - Distance(x, y))
  {
    SameRest(x - y, Signed(x) - Signed(y));
    SameRest(x - y, if x < y then x - y + TWO64 else x - y);
  }

  lemma SameRest(d: int, e: int)
    requires e == d || e == d - TWO64 || e == d + TWO64
    ensures Wrap(d) == Wrap(e)
  {
  }

  /** The check measures the distance around the 64-bit circle: limits at its two ends count as neighbours. */
  lemma VerifiedLimitExactly(number: nat, gasUsed: nat, gasLimit: nat, p: nat)
    requires gasLimit < TWO64 && p < TWO64 && number > 0
    ensures VerifyGasLimit(number, gasUsed, gasLimit, p) <==>
            gasUsed <= gasLimit && Min(Distance(p, gasLimit), TWO64 - Distance(p, gasLimit)) <= p / DIVISOR
  {
    SignedDistance(p, gasLimit);
  }

  /** The next limit is held up by no overflow. */
  predicate Rises(p: nat, t: nat) { t == 0 || p >= t || p + p / DIVISOR < TWO64 }

  /** Every computed limit passes the check; it lies between the old limit and the target exactly when the sum fits. */
  lemma NextLimitIsValid(p: nat, t: nat, number: nat, gasUsed: nat)
    requires p < TWO64 && t < TWO64 && gasUsed <= CalculateGasLimit(p, t)
    ensures VerifyGasLimit(number, gasUsed, CalculateGasLimit(p, t), p)
    ensures t != 0 ==> (Min(p, t) <= CalculateGasLimit(p, t) <= Max(p, t) <==> Rises(p, t))
  {
    StepUp(p);
    StepDown(p);
    hide Wrap;
    if number > 0 {
      VerifiedLimitExactly(number, gasUsed, CalculateGasLimit(p, t), p);
      hide VerifyGasLimit;
    }
  }

  /** Of all limits that a block may set after `p`, the computed one is nearest to the target. */
  lemma NextLimitIsNearest(p: nat, t: nat, limit: nat)
    requires p < TWO64 && 0 < t < TWO64 && Rises(p, t) && Distance(p, limit) <= p / DIVISOR
    ensures Distance(p, CalculateGasLimit(p, t)) <= p / DIVISOR
    ensures Distance(CalculateGasLimit(p, t), t) <= Distance(limit, t)
  {
    StepUp(p);
    StepDown(p);
    hide Wrap;
  }

  lemma StepUp(p: nat)
    requires p < TWO64
    ensures var up := p + p / DIVISOR; Wrap(up) == if up < TWO64 then up else up - TWO64
  {
  }

  lemma StepDown(p: nat)
    requires p < TWO64
    ensures Wrap(p - p / DIVISOR) == p - p / DIVISOR
  {
  }

  function LimitAfter(p: nat, t: nat, n: nat): (r: nat)
    requires p < TWO64 && t < TWO64
    ensures r < TWO64
    decreases n
  {
    if n == 0 then p else LimitAfter(CalculateGasLimit(p, t), t, n - 1)
  }

  /** Starting from the limit `p`, a chain gets to its target. */
  ghost predicate Reaches(p: nat, t: nat)
    requires p < TWO64 && t < TWO64
  {
    exists n: nat :: LimitAfter(p, t, n) == t
  }

  lemma ReachesStep(p: nat, t: nat)
    requires p < TWO64 && t < TWO64 && Reaches(CalculateGasLimit(p, t), t)
    ensures Reaches(p, t)
  {
    var n: nat :| LimitAfter(CalculateGasLimit(p, t), t, n) == t;
    assert LimitAfter(p, t, n + 1) == t;
  }

  /** No limit on the way from `p` to `t` overflows. */
  predicate NoOverflow(p: nat, t: nat) { p < TWO64 && t < TWO64 && (p >= t || t + t / DIVISOR < TWO64) }

  lemma {:induction false} ReachesTarget(p: nat, t: nat)
    requires NoOverflow(p, t) && (p == t || (p >= 1024 && t >= 1023))
    ensures Reaches(p, t)
    decreases Distance(p, t)
  {
    if p == t {
      assert LimitAfter(p, t, 0) == t;
    } else {
      ReachesTarget(CalculateGasLimit(p, t), t);
      ReachesStep(p, t);
    }
  }

  /** A limit below 1024 never moves, and a falling one stops at 1023. */
  lemma {:induction false} StaysAway(p: nat, t: nat, n: nat)
    requires NoOverflow(p, t) && p != t && (p < 1024 || t < 1023)
    ensures LimitAfter(p, t, n) != t
    decreases n
  {
    if n > 0 { StaysAway(CalculateGasLimit(p, t), t, n - 1); }
  }

  /**
   A chain reaches its gas target exactly when it starts there, or starts from at least 1024 towards at least 1023.
   */
  lemma ReachesTargetExactly(p: nat, t: nat)
    requires NoOverflow(p, t)
    ensures Reaches(p, t) <==> p == t || (p >= 1024 && t >= 1023)
  {
    if p == t || (p >= 1024 && t >= 1023) {
      ReachesTarget(p, t);
    } else {
      forall n: nat ensures LimitAfter(p, t, n) != t { StaysAway(p, t, n); }
    }
  }

  /** The lowest limit whose step up overflows. */
  const OVERFLOWING_LIMIT: nat := 18_428_747_250_223_005_712

  /** A rising limit that overflows: it falls to zero and stays there, although it was within the target's reach. */
  lemma OverflowLosesTarget(t: nat)
    requires OVERFLOWING_LIMIT < t < TWO64
    ensures CalculateGasLimit(OVERFLOWING_LIMIT, t) == 0 && !Reaches(OVERFLOWING_LIMIT, t)
  {
    forall n: nat ensures LimitAfter(OVERFLOWING_LIMIT, t, n) != t {
      if n > 0 { StuckAt(t, n - 1); }
    }
  }

  lemma {:induction false} StuckAt(t: nat, n: nat)
    requires 0 < t < TWO64
    ensures LimitAfter(0, t, n) == 0
    decreases n
  {
    if n > 0 { StuckAt(t, n - 1); }
  }

  // Base fee.

  const GENESIS_BASE_FEE: nat := 1_000_000_000

  datatype Parent = Parent(baseFee: nat, gasLimit: nat, gasUsed: nat)

  datatype Params = Params(genesisBaseFee: nat, elasticity: nat, denominator: nat)

  predicate ValidParams(g: Params) { g.elasticity > 0 && g.denominator > 0 }

  /** The fees and limits for which no 64-bit operation overflows and no division is by zero. */
  predicate Fits(g: Params, p: Parent)
    requires ValidParams(g)
  {
    p.gasUsed <= p.gasLimit && g.elasticity <= p.gasLimit && p.baseFee * p.gasLimit < TWO64
  }

  function Target(g: Params, p: Parent): nat
    requires ValidParams(g)
  {
    p.gasLimit / g.elasticity
  }

  /** The change of the fee, with the product in 64 bits. */
  function CalcBaseFeeDelta(gasUsedDelta: nat, target: nat, baseFee: nat, denominator: nat): nat
    requires target > 0 && denominator > 0
  {
    Wrap(baseFee * gasUsedDelta) / target / denominator
  }

  /** The base fee of the next block once London is active, in 64-bit arithmetic. */
  function CalculateBaseFee(g: Params, p: Parent): nat
    requires ValidParams(g) && Target(g, p) > 0
  {
    var target := Target(g, p);
    if p.baseFee == 0 then (if g.genesisBaseFee > 0 then g.genesisBaseFee else GENESIS_BASE_FEE)
    else if p.gasUsed == target then p.baseFee
    else if p.gasUsed > target then
      Wrap(p.baseFee + Max(CalcBaseFeeDelta(p.gasUsed - target, target, p.baseFee, g.denominator), 1))
    else Max(Wrap(p.baseFee - CalcBaseFeeDelta(target - p.gasUsed, target, p.baseFee, g.denominator)), 0)
  }

  // The same rule on unbounded integers.

  function Delta(baseFee: nat, gasUsedDelta: nat, target: nat, denominator: nat): nat
    requires target > 0 && denominator > 0
  {
    baseFee * gasUsedDelta / target / denominator
  }

  function NextFee(baseFee: nat, gasUsed: nat, target: nat, denominator: nat): int
    requires target > 0 && denominator > 0
  {
    if gasUsed == target then baseFee
    else if gasUsed > target then baseFee + Max(Delta(baseFee, gasUsed - target, target, denominator), 1)
    else baseFee - Delta(baseFee, target - gasUsed, target, denominator)
  }

  lemma DeltaMonotone(baseFee: nat, a: nat, b: nat, t: nat, d: nat)
    requires t > 0 && d > 0 && a <= b
    ensures Delta(baseFee, a, t, d) <= Delta(baseFee, b, t, d)
  {
    MulMonotone(a, b, baseFee);
    var x, y := baseFee * a, baseFee * b;
    DivMonotone(x, y, t);
    DivMonotone(x / t, y / t, d);
  }

  /** A change within the target moves the fee by at most one part in `d`. */
  lemma DeltaAtMost(baseFee: nat, a: nat, t: nat, d: nat)
    requires t > 0 && d > 0 && a <= t
    ensures Delta(baseFee, a, t, d) <= baseFee / d <= baseFee
  {
    DeltaMonotone(baseFee, a, t, t, d);
    Cancel(baseFee, t);
    QuotientAtMost(baseFee, d);
  }

  lemma QuotientAtMost(x: nat, d: nat)
    requires d > 0
    ensures x / d <= x
  {
    DivFits(x, d, x / d);
    MulMonotone(1, d, x / d);
  }

  lemma DeltaAtMostProduct(baseFee: nat, a: nat, t: nat, d: nat)
    requires t > 0 && d > 0
    ensures Delta(baseFee, a, t, d) <= baseFee * a
  {
    QuotientAtMost(baseFee * a, t);
    QuotientAtMost(baseFee * a / t, d);
  }

  /** A product of the fee and an amount of gas within the limit fits. */
  lemma ProductFits(g: Params, p: Parent, a: nat)
    requires ValidParams(g) && Fits(g, p) && a <= p.gasLimit
    ensures Wrap(p.baseFee * a) == p.baseFee * a
  {
    MulMonotone(a, p.gasLimit, p.baseFee);
  }

  /** A fee raised by at most the product still fits. */
  lemma SumFits(g: Params, p: Parent, a: nat, delta: nat)
    requires ValidParams(g) && Fits(g, p) && 0 < a < p.gasLimit && delta <= p.baseFee * a
    ensures p.baseFee + Max(delta, 1) < TWO64
  {
    MulMonotone(a + 1, p.gasLimit, p.baseFee);
    MulMonotone(2, p.gasLimit, p.baseFee);
    assert p.baseFee * (a + 1) == p.baseFee * a + p.baseFee;
  }

  lemma TargetWithinLimit(g: Params, p: Parent)
    requires ValidParams(g) && Fits(g, p)
    ensures 0 < Target(g, p) <= p.gasLimit
  {
    DivFits(p.gasLimit, g.elasticity, 1);
    QuotientAtMost(p.gasLimit, g.elasticity);
  }

  lemma RiseFits(g: Params, p: Parent, t: nat)
    requires ValidParams(g) && Fits(g, p) && 0 < t < p.gasUsed
    ensures var delta := CalcBaseFeeDelta(p.gasUsed - t, t, p.baseFee, g.denominator);
            && delta == Delta(p.baseFee, p.gasUsed - t, t, g.denominator)
            && Wrap(p.baseFee + Max(delta, 1)) == p.baseFee + Max(delta, 1)
  {
    ProductFits(g, p, p.gasUsed - t);
    DeltaAtMostProduct(p.baseFee, p.gasUsed - t, t, g.denominator);
    SumFits(g, p, p.gasUsed - t, Delta(p.baseFee, p.gasUsed - t, t, g.denominator));
    assert CalcBaseFeeDelta(p.gasUsed - t, t, p.baseFee, g.denominator) ==
           Delta(p.baseFee, p.gasUsed - t, t, g.denominator);
    hide Delta, CalcBaseFeeDelta, Fits;
  }

  lemma FallFits(g: Params, p: Parent, t: nat)
    requires ValidParams(g) && Fits(g, p) && p.gasUsed < t <= p.gasLimit
    ensures var delta := CalcBaseFeeDelta(t - p.gasUsed, t, p.baseFee, g.denominator);
            && delta == Delta(p.baseFee, t - p.gasUsed, t, g.denominator) <= p.baseFee
            && Wrap(p.baseFee - delta) == p.baseFee - delta
  {
    ProductFits(g, p, t - p.gasUsed);
    DeltaAtMost(p.baseFee, t - p.gasUsed, t, g.denominator);
    FeeFits(g, p);
    assert CalcBaseFeeDelta(t - p.gasUsed, t, p.baseFee, g.denominator) ==
           Delta(p.baseFee, t - p.gasUsed, t, g.denominator);
    hide Delta, CalcBaseFeeDelta, Fits;
  }

  /** On these fees and limits the 64-bit rule is the rule on integers. */
  lemma FeeIsExact(g: Params, p: Parent)
    requires ValidParams(g) && Fits(g, p) && p.baseFee > 0
    ensures Target(g, p) > 0 && CalculateBaseFee(g, p) == NextFee(p.baseFee, p.gasUsed, Target(g, p), g.denominator)
  {
    hide Target, Fits, Delta, CalcBaseFeeDelta, Wrap;
    TargetWithinLimit(g, p);
    var t := Target(g, p);
    if p.gasUsed > t {
      RiseFits(g, p, t);
    } else if p.gasUsed < t {
      FallFits(g, p, t);
    }
  }

  lemma FeeFits(g: Params, p: Parent)
    requires ValidParams(g) && Fits(g, p)
    ensures p.baseFee < TWO64
  {
    MulMonotone(1, p.gasLimit, p.baseFee);
  }

  lemma QuotientBracket(x: nat, t: nat, d: nat)
    requires t > 0 && d > 0
    ensures var q := x / t / d; q * t * d <= x < (q + 1) * t * d
  {
    var y := x / t;
    var q := y / d;
    DivFits(x, t, y);
    DivFits(x, t, y + 1);
    DivFits(y, d, q);
    DivFits(y, d, q + 1);
    MulMonotone(q * d, y, t);
    MulMonotone(y + 1, (q + 1) * d, t);
    Swap(q, t, d);
    Swap(q + 1, t, d);
  }

  lemma Swap(q: nat, t: nat, d: nat)
    ensures q * d * t == q * t * d
  {
  }

  /** `delta` is the part of the fee that `gas` is of `target`, divided by the denominator and rounded down. */
  ghost predicate IsShare(delta: nat, baseFee: nat, gas: nat, target: nat, denominator: nat) {
    delta * target * denominator <= baseFee * gas < (delta + 1) * target * denominator
  }

  /**
   The next fee, by inequalities: at the target it stays, below it falls by the share of the missing gas, above it rises
   by the share of the excess and by one at least. A chain without a base fee starts with that of its genesis.
   */
  lemma BaseFeeExactly(g: Params, p: Parent)
    requires ValidParams(g) && Fits(g, p)
    ensures Target(g, p) > 0
    ensures var t, fee := Target(g, p), CalculateBaseFee(g, p);
            && t * g.elasticity <= p.gasLimit < (t + 1) * g.elasticity
            && (p.baseFee == 0 ==> fee == if g.genesisBaseFee > 0 then g.genesisBaseFee else 1_000_000_000)
            && (p.baseFee > 0 && p.gasUsed == t ==> fee == p.baseFee)
            && (p.baseFee > 0 && p.gasUsed < t ==>
                  fee <= p.baseFee && IsShare(p.baseFee - fee, p.baseFee, t - p.gasUsed, t, g.denominator))
            && (p.baseFee > 0 && p.gasUsed > t ==>
                  exists delta: nat :: IsShare(delta, p.baseFee, p.gasUsed - t, t, g.denominator)
                                       && fee == p.baseFee + Max(delta, 1))
  {
    TargetWithinLimit(g, p);
    TargetBracket(g, p);
    if p.baseFee > 0 {
      FeeIsExact(g, p);
      NextFeeExactly(p.baseFee, p.gasUsed, Target(g, p), g.denominator);
      hide CalculateBaseFee, Target, Fits, IsShare, NextFee;
    }
  }

  lemma TargetBracket(g: Params, p: Parent)
    requires ValidParams(g)
    ensures var t := Target(g, p); t * g.elasticity <= p.gasLimit < (t + 1) * g.elasticity
  {
    var t := Target(g, p);
    DivFits(p.gasLimit, g.elasticity, t);
    DivFits(p.gasLimit, g.elasticity, t + 1);
  }

  lemma NextFeeExactly(baseFee: nat, gasUsed: nat, t: nat, d: nat)
    requires t > 0 && d > 0
    ensures var fee := NextFee(baseFee, gasUsed, t, d);
            && (gasUsed == t ==> fee == baseFee)
            && (gasUsed < t ==> 0 <= fee <= baseFee && IsShare(baseFee - fee, baseFee, t - gasUsed, t, d))
            && (gasUsed > t ==>
                  exists delta: nat :: IsShare(delta, baseFee, gasUsed - t, t, d) && fee == baseFee + Max(delta, 1))
  {
    hide Delta, IsShare;
    if gasUsed < t {
      DeltaIsShare(baseFee, t - gasUsed, t, d);
      DeltaAtMost(baseFee, t - gasUsed, t, d);
    } else if gasUsed > t {
      var delta := Delta(baseFee, gasUsed - t, t, d);
      DeltaIsShare(baseFee, gasUsed - t, t, d);
      assert IsShare(delta, baseFee, gasUsed - t, t, d) && NextFee(baseFee, gasUsed, t, d) == baseFee + Max(delta, 1);
    }
  }

  lemma DeltaIsShare(baseFee: nat, gas: nat, t: nat, d: nat)
    requires t > 0 && d > 0
    ensures IsShare(Delta(baseFee, gas, t, d), baseFee, gas, t, d)
  {
    QuotientBracket(baseFee * gas, t, d);
  }

  /** A full block whose product overflows: the fee rises by one instead of an eighth. */
  lemma OverflowedFee()
    ensures var g, p := Params(0, 2, 8), Parent(0x100_0000_0000, 0x200_0000, 0x200_0000);
            && CalculateBaseFee(g, p) == p.baseFee + 1
            && NextFee(p.baseFee, p.gasUsed, Target(g, p), g.denominator) == p.baseFee + p.baseFee / 8
  {
  }

  /** The next base fee grows with the gas used. */
  lemma BaseFeeIsMonotone(g: Params, p: Parent, gasUsed: nat)
    requires ValidParams(g) && Fits(g, p.(gasUsed := gasUsed)) && p.gasUsed <= gasUsed
    ensures Target(g, p) > 0 && CalculateBaseFee(g, p) <= CalculateBaseFee(g, p.(gasUsed := gasUsed))
  {
    var t, q := Target(g, p), p.(gasUsed := gasUsed);
    assert Target(g, q) == t;
    TargetWithinLimit(g, p);
    if p.baseFee > 0 {
      FeeIsExact(g, p);
      FeeIsExact(g, q);
      hide Target, Delta, CalculateBaseFee;
      if p.gasUsed > t {
        DeltaMonotone(p.baseFee, p.gasUsed - t, gasUsed - t, t, g.denominator);
      } else if gasUsed < t {
        DeltaMonotone(p.baseFee, t - gasUsed, t - p.gasUsed, t, g.denominator);
      }
    }
  }

  /** It falls by at most one part in `denominator`, and it rises exactly when the target is exceeded. */
  lemma BaseFeeMoves(g: Params, p: Parent)
    requires ValidParams(g) && Fits(g, p) && p.baseFee > 0
    ensures Target(g, p) > 0 && CalculateBaseFee(g, p) >= p.baseFee - p.baseFee / g.denominator
    ensures CalculateBaseFee(g, p) > p.baseFee <==> p.gasUsed > Target(g, p)
  {
    FeeIsExact(g, p);
    NextFeeMoves(p.baseFee, p.gasUsed, Target(g, p), g.denominator);
  }

  lemma NextFeeMoves(baseFee: nat, gasUsed: nat, t: nat, d: nat)
    requires t > 0 && d > 0
    ensures NextFee(baseFee, gasUsed, t, d) >= baseFee - baseFee / d
    ensures NextFee(baseFee, gasUsed, t, d) > baseFee <==> gasUsed > t
  {
    hide Delta;
    QuotientAtMost(baseFee, d);
    if gasUsed < t { DeltaAtMost(baseFee, t - gasUsed, t, d); }
  }

  /** A positive base fee stays positive, whatever the blocks use, exactly when the denominator is at least two. */
  lemma BaseFeeStaysPositiveExactly(g: Params)
    requires ValidParams(g) && g.elasticity < TWO64
    ensures (forall p: Parent :: p.baseFee > 0 && Fits(g, p) && Target(g, p) > 0 ==> CalculateBaseFee(g, p) > 0)
            <==> g.denominator >= 2
  {
    if g.denominator >= 2 {
      forall p: Parent | p.baseFee > 0 && Fits(g, p) && Target(g, p) > 0 ensures CalculateBaseFee(g, p) > 0 {
        BaseFeeMoves(g, p);
        SmallerQuotient(p.baseFee, g.denominator);
      }
    } else {
      ZeroFee(g, Parent(1, g.elasticity, 0));
    }
  }

  /** Consecutive headers, each with the base fee computed from the one before. */
  ghost predicate FeeChain(g: Params, ps: seq<Parent>)
    requires ValidParams(g)
  {
    && (forall i :: 0 <= i < |ps| ==> Fits(g, ps[i]) && Target(g, ps[i]) > 0)
    && (forall i, j :: 0 <= i < j < |ps| && j == i + 1 ==> ps[j].baseFee == CalculateBaseFee(g, ps[i]))
  }

  /** With denominator at least two no block of any chain loses its base fee. */
  lemma {:induction false} FeeChainStaysPositive(g: Params, ps: seq<Parent>, i: nat)
    requires ValidParams(g) && g.denominator >= 2 && FeeChain(g, ps) && i < |ps| && ps[0].baseFee > 0
    ensures ps[i].baseFee > 0
  {
    if i > 0 {
      FeeChainStaysPositive(g, ps, i - 1);
      BaseFeeMoves(g, ps[i - 1]);
      SmallerQuotient(ps[i - 1].baseFee, g.denominator);
    }
  }

  /** With denominator one, an empty block takes the whole base fee away. */
  lemma ZeroFee(g: Params, p: Parent)
    requires ValidParams(g) && g.denominator == 1 && g.elasticity < TWO64 && p == Parent(1, g.elasticity, 0)
    ensures Fits(g, p) && Target(g, p) > 0 && CalculateBaseFee(g, p) == 0
  {
    Cancel(1, g.elasticity);
  }

  lemma SmallerQuotient(x: nat, d: nat)
    requires x > 0 && d >= 2
    ensures x / d < x
  {
    DivFits(x, d, x);
    MulMonotone(2, d, x);
  }
}

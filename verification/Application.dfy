/**
 One transaction applied to the world state (state/executor.go, apply), and what it does to the sum of all balances.
 */
module Application {
  import opened Transactions
  import opened WorldState
  import opened HostOps
  import opened Supply
  import opened Solvency
  import opened TransactionFees
  import opened TransactionGas

  const STATE_TRANSACTION_GAS: nat := 1000000

  /**
   What the virtual machine does with a transaction: the operations it performs, how it ends, the address of a
   created contract and the gas it would return. It returns no more than it got.
   */
  datatype Run = Run(body: seq<HostOp>, failed: bool, end: CreateEnd, addr: Address, gasLeft: nat)

  function OpOf(t: Tx, run: Run): HostOp {
    match t.msg.to
    case Some(to) => Call(t.from, to, t.msg.value, true, run.body, run.failed)
    case None => Create(t.from, run.addr, t.msg.value, run.body, run.end)
  }

  /** The state after the consensus checks and the up-front payment. None when a check fails. */
  function Charged(b: Base, c: Context, o: Overlay, t: Tx): Option<Overlay> {
    if t.fees.txType == StateTx then
      if && t.fees.gasPrice == 0 && t.msg.gas == STATE_TRANSACTION_GAS && t.from == c.systemCaller
         && t.msg.to.Some? && t.msg.to.value != ZERO_ADDRESS
      then Some(o) else None
    else if GetNonce(b, o, t.from) != t.nonce || !FeesAllowed(c, t) then None
    else SubBalance(b, o, t.from, UpfrontGasCost(c, t))
  }

  function Needs(c: Context, t: Tx): nat { IntrinsicGas(t, c.forks.homestead, c.forks.istanbul) }

  /** A call counts the sender's nonce here; a contract creation does so itself. None when the nonce is used up. */
  function Entered(b: Base, o: Overlay, t: Tx): Option<Overlay> {
    if t.msg.to.None? then Some(o)
    else if NonceOverflows(b, o, t.from) then None
    else Some(IncrNonce(b, o, t.from))
  }

  predicate Accepted(b: Base, c: Context, o: Overlay, t: Tx, gasPool: nat) {
    && Charged(b, c, o, t).Some?
    && t.msg.gas <= gasPool
    && Needs(c, t) <= t.msg.gas
    && Entered(b, Charged(b, c, o, t).value, t).Some?
  }

  /** The rejections that happen after the gas was taken from the pool. */
  predicate Leaks(b: Base, c: Context, o: Overlay, t: Tx, gasPool: nat) {
    Charged(b, c, o, t).Some? && t.msg.gas <= gasPool && !Accepted(b, c, o, t, gasPool)
  }

  function Before(b: Base, c: Context, o: Overlay, t: Tx): Overlay
    requires Accepted(b, c, o, t, t.msg.gas)
  {
    Entered(b, Charged(b, c, o, t).value, t).value
  }

  function After(b: Base, c: Context, o: Overlay, t: Tx, run: Run): Overlay
    requires Accepted(b, c, o, t, t.msg.gas)
  {
    Exec(b, c.forks, OpOf(t, run), Before(b, c, o, t))
  }

  /** Gas used and gas left. */
  function GasOf(c: Context, t: Tx, run: Run, refund: nat): (r: (nat, nat))
    requires Needs(c, t) <= t.msg.gas
    ensures r.0 + r.1 == t.msg.gas && r.0 > 0
  {
    UpdateGasUsed(t.msg.gas, Min(run.gasLeft, t.msg.gas - Needs(c, t)), refund)
  }

  /** The state after an accepted transaction. */
  function Applied(b: Base, c: Context, o: Overlay, t: Tx, run: Run): Overlay
    requires Accepted(b, c, o, t, t.msg.gas)
  {
    var after := After(b, c, o, t, run);
    var gas := GasOf(c, t, run, after.refund);
    Settle(b, c, after, t, gas.0, gas.1)
  }

  lemma BeforeTotal(b: Base, c: Context, o: Overlay, t: Tx)
    requires Accepted(b, c, o, t, t.msg.gas) && t.fees.txType != StateTx
    ensures Total(b, Before(b, c, o, t)) == Total(b, o) - UpfrontGasCost(c, t)
  {
    TotalSub(b, o, t.from, UpfrontGasCost(c, t));
    TotalIncrNonce(b, Charged(b, c, o, t).value, t.from);
  }

  /** The fees of the applied transaction add up. */
  predicate Balanced(b: Base, c: Context, o: Overlay, t: Tx, run: Run)
    requires Accepted(b, c, o, t, t.msg.gas)
  {
    var after := After(b, c, o, t, run);
    var gas := GasOf(c, t, run, after.refund);
    FeesAddUp(b, c, after, t, gas.0, gas.1)
  }

  /** A transaction changes the sum of all balances by exactly what its run burns, if and only if its fees add up. */
  lemma TransactionConservesExactly(b: Base, c: Context, o: Overlay, t: Tx, run: Run)
    requires Accepted(b, c, o, t, t.msg.gas) && t.fees.txType != StateTx
    ensures Total(b, Applied(b, c, o, t, run)) == Total(b, o) - Burned(b, c.forks, OpOf(t, run), Before(b, c, o, t))
            <==> Balanced(b, c, o, t, run)
  {
    hide Total, Settle, FeesAddUp, Burned, Exec, UpfrontGasCost;
    var before, after := Before(b, c, o, t), After(b, c, o, t, run);
    var gas := GasOf(c, t, run, after.refund);
    BeforeTotal(b, c, o, t);
    ExecTotal(b, c.forks, OpOf(t, run), before);
    FeesAreConservedExactly(b, c, after, t, gas.0, gas.1);
  }

  /** Where the tip is not negative that means: if and only if it is priced exactly. */
  lemma BalancedMeans(b: Base, c: Context, o: Overlay, t: Tx, run: Run)
    requires Accepted(b, c, o, t, t.msg.gas) && t.fees.txType != StateTx
    requires !(c.london && c.baseFee > 0 && OffersNothing(t))
    ensures Balanced(b, c, o, t, run) <==> PricedExactly(c, t)
  {
    var after := After(b, c, o, t, run);
    var gas := GasOf(c, t, run, after.refund);
    TipIsNonNegativeExactly(c, t);
    ShortOnlyIfNegative(b, c, after, t, gas.0, gas.1);
  }

  lemma SoundPayProducer(b: Base, c: Context, o: Overlay, fee: nat, calm: bool)
    requires Sound(b, o, calm)
    ensures Sound(b, PayProducer(b, c, o, fee), calm)
  {
    if !Exist(b, o, c.staking) {
      SoundAdd(b, o, c.coinbase, fee, calm);
    } else if fee != 0 {
      SoundShare(b, c, o, fee / 2, fee - fee / 2, calm);
    }
  }

  lemma SoundShare(b: Base, c: Context, o: Overlay, half: nat, rest: nat, calm: bool)
    requires Sound(b, o, calm)
    ensures Sound(b, Share(b, c, o, half, rest), calm)
  {
    SoundAdd(b, o, c.owner, half, calm);
    SoundAdd(b, AddBalance(b, o, c.owner, half), c.coinbase, rest, calm);
  }

  lemma SoundCredit(b: Base, c: Context, o: Overlay, sender: Address, refund: nat, fee: nat, burn: Option<nat>,
                    calm: bool)
    requires Sound(b, o, calm)
    ensures Sound(b, Credit(b, c, o, sender, refund, fee, burn), calm)
  {
    SoundAdd(b, o, sender, refund, calm);
    var o1 := AddBalance(b, o, sender, refund);
    SoundPayProducer(b, c, o1, fee, calm);
    if burn.Some? { SoundAdd(b, PayProducer(b, c, o1, fee), c.burnContract, burn.value, calm); }
  }

  lemma SoundSettle(b: Base, c: Context, o: Overlay, t: Tx, gasUsed: nat, gasLeft: nat, calm: bool)
    requires Sound(b, o, calm) && Tip(c, t) >= 0
    ensures Sound(b, Settle(b, c, o, t, gasUsed, gasLeft), calm)
  {
    ProductIsNat(gasUsed, Tip(c, t));
    SoundCredit(b, c, o, t.from, Price(gasLeft, GetGasPrice(t, c.baseFee)), gasUsed * Tip(c, t), Burnt(c, t, gasUsed),
      calm);
  }

  /** A transaction a block may carry without creating money or charging its producer. */
  predicate WellPriced(c: Context, t: Tx) {
    t.fees.txType != StateTx && PricedExactly(c, t) && !(c.london && c.baseFee > 0 && OffersNothing(t))
  }

  /**
   A well-priced transaction makes no balance negative and does not raise the total; it keeps it if nothing is
   destroyed.
   */
  lemma TransactionKeepsSound(b: Base, c: Context, o: Overlay, t: Tx, run: Run, calm: bool)
    requires Accepted(b, c, o, t, t.msg.gas) && WellPriced(c, t)
    requires Sound(b, o, calm) && (calm ==> !DestructsAny(run.body))
    ensures Sound(b, Applied(b, c, o, t, run), calm)
    ensures Total(b, Applied(b, c, o, t, run)) <= Total(b, o)
    ensures calm ==> Total(b, Applied(b, c, o, t, run)) == Total(b, o)
  {
    var before, after := Before(b, c, o, t), After(b, c, o, t, run);
    SoundBefore(b, c, o, t, calm);
    ExecKeepsSound(b, c.forks, OpOf(t, run), before, calm);
    TipIsNonNegativeExactly(c, t);
    var gas := GasOf(c, t, run, after.refund);
    SoundSettle(b, c, after, t, gas.0, gas.1, calm);
    TransactionConservesExactly(b, c, o, t, run);
    BalancedMeans(b, c, o, t, run);
  }

  lemma SoundBefore(b: Base, c: Context, o: Overlay, t: Tx, calm: bool)
    requires Accepted(b, c, o, t, t.msg.gas) && Sound(b, o, calm)
    ensures Sound(b, Before(b, c, o, t), calm)
  {
    if t.fees.txType != StateTx { SoundSub(b, o, t.from, UpfrontGasCost(c, t), calm); }
    SoundIncrNonce(b, Charged(b, c, o, t).value, t.from, calm);
  }

  // A transaction that offers nothing, in a block whose producer owns nothing.

  const FREE_BASE: Base := Base(map[], (a, r, k) => ZERO)
  const FREE_CONTEXT: Context := Context(Forks(true, true, true, true, true), true, 1, 3, 4, 5, 6, 7, 21000)
  const FREE_TX: Tx := Tx(0, 1, 0, 100, Fees(DynamicFeeTx, 0, 0, 0), Message(21000, Some(2), 0, []))
  const FREE_RUN: Run := Run([], false, NotAuthorized, 0, 0)

  lemma FreeTransactionRuns()
    ensures Accepted(FREE_BASE, FREE_CONTEXT, NOTHING, FREE_TX, 21000)
    ensures var after := After(FREE_BASE, FREE_CONTEXT, NOTHING, FREE_TX, FREE_RUN);
            && GasOf(FREE_CONTEXT, FREE_TX, FREE_RUN, after.refund) == (21000, 0)
            && GetBalance(FREE_BASE, after, 1) == GetBalance(FREE_BASE, after, 3) == 0
            && !Exist(FREE_BASE, after, 6)
    ensures Burned(FREE_BASE, FREE_CONTEXT.forks, OpOf(FREE_TX, FREE_RUN),
                   Before(FREE_BASE, FREE_CONTEXT, NOTHING, FREE_TX)) == 0
  {
  }

  /**
   It is priced exactly and accepted, and yet 42000 units appear: the producer's debt of 21000 is read as 21000 owned.
   */
  lemma FreeTransactionCreatesMoney()
    ensures Accepted(FREE_BASE, FREE_CONTEXT, NOTHING, FREE_TX, 21000) && PricedExactly(FREE_CONTEXT, FREE_TX)
    ensures var o := Applied(FREE_BASE, FREE_CONTEXT, NOTHING, FREE_TX, FREE_RUN);
            && GetBalance(FREE_BASE, o, FREE_CONTEXT.coinbase) == 21000
            && Total(FREE_BASE, o) == Total(FREE_BASE, NOTHING) + 42000
    ensures !Balanced(FREE_BASE, FREE_CONTEXT, NOTHING, FREE_TX, FREE_RUN)
  {
    FreeTransactionRuns();
    var b, c := FREE_BASE, FREE_CONTEXT;
    var before, after := Before(b, c, NOTHING, FREE_TX), After(b, c, NOTHING, FREE_TX, FREE_RUN);
    hide Exec, Burned;
    BeforeTotal(b, c, NOTHING, FREE_TX);
    ExecTotal(b, c.forks, OpOf(FREE_TX, FREE_RUN), before);
    FreeSettlement(after);
    TransactionConservesExactly(b, c, NOTHING, FREE_TX, FREE_RUN);
  }

  lemma FreeSettlement(after: Overlay)
    requires GetBalance(FREE_BASE, after, 1) == GetBalance(FREE_BASE, after, 3) == 0 && !Exist(FREE_BASE, after, 6)
    ensures var o := Settle(FREE_BASE, FREE_CONTEXT, after, FREE_TX, 21000, 0);
            Total(FREE_BASE, o) == Total(FREE_BASE, after) + 42000 && GetBalance(FREE_BASE, o, 3) == 21000
  {
    var b, c, t := FREE_BASE, FREE_CONTEXT, FREE_TX;
    var o1 := AddBalance(b, after, 1, 0);
    assert Tip(c, t) == -1 && BurnRate(c, t) == 1 && GetGasPrice(t, 1) == 0;
    BalanceAfterAdd(b, after, 1, 0, 3);
    assert !Exist(b, o1, 6);
    FeeDifference(b, c, after, t, 21000, 0);
    CreditBalance(b, c, after, 1, 0, 21000 * Tip(c, t), Burnt(c, t, 21000), 3);
  }
}

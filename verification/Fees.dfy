/** What a transaction pays (state/londonFix_fork.go, LondonFixForkV2, and the settlement in state/executor.go). */
module TransactionFees {
  import opened Transactions
  import opened WorldState
  import opened HostOps
  import opened Supply

  const TWO256: nat := 0x1_0000000000000000_0000000000000000_0000000000000000_0000000000000000

  /** The block a transaction runs in. `owner` and `staking` are the addresses of the fee distribution. */
  datatype Context = Context(forks: Forks, london: bool, baseFee: nat, coinbase: Address, burnContract: Address,
                             owner: Address, staking: Address, systemCaller: Address, gasLimit: nat)

  /** The check of the price fields. */
  predicate FeesAllowed(c: Context, t: Tx) {
    c.london ==>
      if t.fees.txType == DynamicFeeTx && t.fees.gasFeeCap == 0 && t.fees.gasTipCap == 0 then true
      else
        && (t.fees.txType == DynamicFeeTx ==>
              t.fees.gasFeeCap < TWO256 && t.fees.gasTipCap < TWO256 && t.fees.gasFeeCap >= t.fees.gasTipCap)
        && GetGasFeeCap(t) >= c.baseFee
  }

  function UpfrontGasCost(c: Context, t: Tx): nat { t.msg.gas * GetGasPrice(t, c.baseFee) }

  /** What one unit of used gas earns the block producer. */
  function Tip(c: Context, t: Tx): int {
    if c.london then EffectiveGasTip(t, c.baseFee) else GetGasPrice(t, c.baseFee)
  }

  /** What one unit of used gas sends to the burn contract. */
  function BurnRate(c: Context, t: Tx): nat {
    if c.london && t.fees.txType != StateTx then c.baseFee else 0
  }

  /** The price field agrees with the caps. Only a dynamic-fee transaction under London can break this. */
  predicate PricedExactly(c: Context, t: Tx) {
    c.london && t.fees.txType == DynamicFeeTx ==>
      if c.baseFee == 0 then t.fees.gasPrice == t.fees.gasTipCap
      else t.fees.gasPrice == 0 || t.fees.gasPrice == Min(t.fees.gasTipCap + c.baseFee, t.fees.gasFeeCap)
  }

  /**
   The price paid: the price field if there is one; else nothing where nothing is offered or there is no base fee; else
   the most that neither the fee cap nor tip cap plus base fee forbids.
   */
  lemma PricePaid(t: Tx, baseFee: nat)
    ensures var p, f := GetGasPrice(t, baseFee), t.fees;
            && (f.gasPrice > 0 ==> p == f.gasPrice)
            && (f.gasPrice == 0 && (baseFee == 0 || (f.gasFeeCap == 0 && f.gasTipCap == 0)) ==> p == 0)
            && (f.gasPrice == 0 && baseFee > 0 && (f.gasFeeCap > 0 || f.gasTipCap > 0) ==>
                  && p <= f.gasFeeCap && p <= f.gasTipCap + baseFee
                  && (p == f.gasFeeCap || p == f.gasTipCap + baseFee))
  {
  }

  /** The tip earned under London with a base fee: the most that neither tip cap nor fee cap forbids. */
  lemma TipEarned(c: Context, t: Tx)
    ensures var tip, f := Tip(c, t), t.fees;
            && (!c.london ==> tip == GetGasPrice(t, c.baseFee))
            && (c.london && f.txType != DynamicFeeTx ==> tip + c.baseFee == f.gasPrice)
            && (c.london && f.txType == DynamicFeeTx && c.baseFee == 0 ==> tip == f.gasTipCap)
            && (c.london && f.txType == DynamicFeeTx && c.baseFee > 0 ==>
                  && tip <= f.gasTipCap && tip + c.baseFee <= f.gasFeeCap
                  && (tip == f.gasTipCap || tip + c.baseFee == f.gasFeeCap))
  {
  }

  /** Tip and base fee add up to the gas price exactly for the transactions whose price field agrees with their caps. */
  lemma TipAndBurnMakePriceExactly(c: Context, t: Tx)
    requires FeesAllowed(c, t) && t.fees.txType != StateTx
    ensures Tip(c, t) + BurnRate(c, t) == GetGasPrice(t, c.baseFee) <==> PricedExactly(c, t)
  {
  }

  /** A transaction offering nothing at all, which the check lets through even where the base fee is positive. */
  predicate OffersNothing(t: Tx) { t.fees.txType == DynamicFeeTx && t.fees.gasFeeCap == 0 && t.fees.gasTipCap == 0 }

  /** The block producer is never charged, exactly when the transaction offers something or there is no base fee. */
  lemma TipIsNonNegativeExactly(c: Context, t: Tx)
    requires FeesAllowed(c, t) && t.fees.txType != StateTx
    ensures Tip(c, t) >= 0 <==> !(c.london && c.baseFee > 0 && OffersNothing(t))
  {
  }

  /**
   Half of the fee to the owner and the rest to the producer where the staking contract exists, else all to the
   producer.
   */
  function PayProducer(b: Base, c: Context, o: Overlay, fee: int): Overlay {
    if !Exist(b, o, c.staking) then AddBalance(b, o, c.coinbase, fee)
    else if fee == 0 then o
    else Share(b, c, o, fee / 2, fee - fee / 2)
  }

  function Share(b: Base, c: Context, o: Overlay, half: int, rest: int): Overlay {
    AddBalance(b, AddBalance(b, o, c.owner, half), c.coinbase, rest)
  }

  /** By how much the fee takes balances below zero. */
  function PayShortfall(b: Base, c: Context, o: Overlay, fee: int): nat {
    if !Exist(b, o, c.staking) then Shortfall(b, o, c.coinbase, fee)
    else if fee == 0 then 0
    else ShareShortfall(b, c, o, fee / 2, fee - fee / 2)
  }

  function ShareShortfall(b: Base, c: Context, o: Overlay, half: int, rest: int): nat {
    Shortfall(b, o, c.owner, half) + Shortfall(b, AddBalance(b, o, c.owner, half), c.coinbase, rest)
  }

  lemma ShareTotal(b: Base, c: Context, o: Overlay, half: int, rest: int)
    ensures Total(b, Share(b, c, o, half, rest)) == Total(b, o) + half + rest + 2 * ShareShortfall(b, c, o, half, rest)
  {
    hide Total, Shortfall, AddBalance;
    TotalAdd(b, o, c.owner, half);
    TotalAdd(b, AddBalance(b, o, c.owner, half), c.coinbase, rest);
  }

  /** The distribution credits exactly the fee, and twice what it takes below zero appears besides. */
  lemma PayProducerTotal(b: Base, c: Context, o: Overlay, fee: int)
    ensures Total(b, PayProducer(b, c, o, fee)) == Total(b, o) + fee + 2 * PayShortfall(b, c, o, fee)
  {
    hide Total, Share, ShareShortfall, Shortfall, AddBalance, Exist;
    if !Exist(b, o, c.staking) {
      TotalAdd(b, o, c.coinbase, fee);
    } else if fee != 0 {
      ShareTotal(b, c, o, fee / 2, fee - fee / 2);
    }
  }

  /** The credits after the run: `refund` to the sender, `fee` to the producer and `burn` to the burn contract. */
  function Credit(b: Base, c: Context, o: Overlay, sender: Address, refund: nat, fee: int, burn: Option<nat>): Overlay {
    var o' := PayProducer(b, c, AddBalance(b, o, sender, refund), fee);
    match burn
    case Some(amount) => AddBalance(b, o', c.burnContract, amount)
    case None => o'
  }

  lemma CreditTotal(b: Base, c: Context, o: Overlay, sender: Address, refund: nat, fee: int, burn: Option<nat>)
    ensures Total(b, Credit(b, c, o, sender, refund, fee, burn)) ==
            Total(b, o) + refund + fee + (if burn.Some? then burn.value else 0)
            + 2 * PayShortfall(b, c, AddBalance(b, o, sender, refund), fee)
  {
    hide Total, AddBalance, PayProducer, PayShortfall;
    var o1 := AddBalance(b, o, sender, refund);
    TotalAdd(b, o, sender, refund);
    PayProducerTotal(b, c, o1, fee);
    if burn.Some? { TotalAdd(b, PayProducer(b, c, o1, fee), c.burnContract, burn.value); }
  }

  /** What will be read of a balance once its owner's share of the fee is credited. */
  function Held(c: Context, staked: bool, fee: int, balance: nat, a: Address): nat {
    if !staked then (if a == c.coinbase then Abs(balance + fee) else balance)
    else
      var first := if a == c.owner then Abs(balance + fee / 2) else balance;
      if a == c.coinbase then Abs(first + (fee - fee / 2)) else first
  }

  lemma ShareBalance(b: Base, c: Context, o: Overlay, half: int, rest: int, a: Address)
    ensures var first := if a == c.owner then Abs(GetBalance(b, o, a) + half) else GetBalance(b, o, a);
            GetBalance(b, Share(b, c, o, half, rest), a) == if a == c.coinbase then Abs(first + rest) else first
  {
    BalanceAfterAdd(b, o, c.owner, half, a);
    BalanceAfterAdd(b, AddBalance(b, o, c.owner, half), c.coinbase, rest, a);
  }

  /** Half of the fee, rounded down, to the owner and the rest to the producer; no other balance changes. */
  lemma PayProducerBalance(b: Base, c: Context, o: Overlay, fee: int, a: Address)
    ensures GetBalance(b, PayProducer(b, c, o, fee), a) == Held(c, Exist(b, o, c.staking), fee, GetBalance(b, o, a), a)
  {
    hide GetBalance, Share, AddBalance, Exist;
    if !Exist(b, o, c.staking) {
      BalanceAfterAdd(b, o, c.coinbase, fee, a);
    } else if fee != 0 {
      ShareBalance(b, c, o, fee / 2, fee - fee / 2, a);
    }
  }

  /** Who gets what: the balance of every address after the settlement. */
  lemma CreditBalance(b: Base, c: Context, o: Overlay, sender: Address, refund: nat, fee: int, burn: Option<nat>,
                      a: Address)
    ensures var staked := Exist(b, AddBalance(b, o, sender, refund), c.staking);
            GetBalance(b, Credit(b, c, o, sender, refund, fee, burn), a) ==
            Held(c, staked, fee, GetBalance(b, o, a) + (if a == sender then refund else 0), a)
            + (if burn.Some? && a == c.burnContract then burn.value else 0)
  {
    hide GetBalance, AddBalance, Exist, PayProducer, Held;
    var o1 := AddBalance(b, o, sender, refund);
    BalanceAfterAdd(b, o, sender, refund, a);
    PayProducerBalance(b, c, o1, fee, a);
    if burn.Some? { BalanceAfterAdd(b, PayProducer(b, c, o1, fee), c.burnContract, burn.value, a); }
  }

  lemma ProductIsNat(x: nat, y: nat)
    ensures x * y >= 0
  {
  }

  /** What a gas amount costs at a price. */
  function Price(gas: nat, price: nat): nat {
    ProductIsNat(gas, price);
    gas * price
  }

  /** What used gas sends to the burn contract, if anything. */
  function Burnt(c: Context, t: Tx, gasUsed: nat): Option<nat> {
    if c.london && t.fees.txType != StateTx then Some(Price(gasUsed, c.baseFee)) else None
  }

  /** Unused gas goes back to the sender at the price paid; used gas earns the tip and burns the base fee. */
  function Settle(b: Base, c: Context, o: Overlay, t: Tx, gasUsed: nat, gasLeft: nat): Overlay {
    Credit(b, c, o, t.from, Price(gasLeft, GetGasPrice(t, c.baseFee)), gasUsed * Tip(c, t), Burnt(c, t, gasUsed))
  }

  /** What a negative tip takes from balances that do not have it. */
  function SettleShortfall(b: Base, c: Context, o: Overlay, t: Tx, gasUsed: nat, gasLeft: nat): nat {
    PayShortfall(b, c, AddBalance(b, o, t.from, Price(gasLeft, GetGasPrice(t, c.baseFee))), gasUsed * Tip(c, t))
  }

  lemma SettleTotal(b: Base, c: Context, o: Overlay, t: Tx, gasUsed: nat, gasLeft: nat)
    ensures Total(b, Settle(b, c, o, t, gasUsed, gasLeft)) ==
            Total(b, o) + gasLeft * GetGasPrice(t, c.baseFee) + gasUsed * Tip(c, t) + gasUsed * BurnRate(c, t)
            + 2 * SettleShortfall(b, c, o, t, gasUsed, gasLeft)
  {
    hide Total, Credit, PayShortfall, AddBalance, Tip, GetGasPrice;
    CreditTotal(b, c, o, t.from, Price(gasLeft, GetGasPrice(t, c.baseFee)), gasUsed * Tip(c, t), Burnt(c, t, gasUsed));
  }

  lemma NoShortfall(b: Base, c: Context, o: Overlay, fee: nat)
    ensures PayShortfall(b, c, o, fee) == 0
  {
  }

  lemma Distribute(used: nat, left: nat, price: int, rate: int)
    ensures left * price + used * rate - (used + left) * price == used * (rate - price)
    ensures used > 0 ==> (used * (rate - price) == 0 <==> rate == price)
  {
  }

  lemma SplitRate(used: nat, tip: int, burn: int)
    ensures used * tip + used * burn == used * (tip + burn)
  {
  }

  /**
   When the fees of a transaction add up. Without a negative tip: when it is priced exactly. With one, which only a
   transaction that offers nothing has: when producer and owner can bear their shares; and if the transaction
   nevertheless carries a price, when what they cannot bear makes up for that price.
   */
  predicate FeesAddUp(b: Base, c: Context, o: Overlay, t: Tx, gasUsed: nat, gasLeft: nat) {
    var short := SettleShortfall(b, c, o, t, gasUsed, gasLeft);
    if Tip(c, t) >= 0 || t.fees.gasPrice == 0 then PricedExactly(c, t) && short == 0
    else 2 * short == gasUsed * t.fees.gasPrice
  }

  /** The up-front debit comes back to the last unit as refund, tip and burn, exactly when the fees add up. */
  lemma FeesAreConservedExactly(b: Base, c: Context, o: Overlay, t: Tx, gasUsed: nat, gasLeft: nat)
    requires FeesAllowed(c, t) && t.fees.txType != StateTx
    requires gasUsed + gasLeft == t.msg.gas && gasUsed > 0
    ensures Total(b, Settle(b, c, o, t, gasUsed, gasLeft)) - Total(b, o) == UpfrontGasCost(c, t)
            <==> FeesAddUp(b, c, o, t, gasUsed, gasLeft)
  {
    hide Total, Settle, SettleShortfall, Tip, BurnRate, GetGasPrice, PricedExactly, UpfrontGasCost, FeesAllowed;
    FeeDifference(b, c, o, t, gasUsed, gasLeft);
    TipAndBurnMakePriceExactly(c, t);
    NegativeTip(c, t);
    ShortOnlyIfNegative(b, c, o, t, gasUsed, gasLeft);
    AddsUp(gasUsed, Tip(c, t), Tip(c, t) + BurnRate(c, t), GetGasPrice(t, c.baseFee),
           SettleShortfall(b, c, o, t, gasUsed, gasLeft), t.fees.gasPrice);
  }

  /** Under a negative tip nothing of the price is spent. */
  lemma NegativeTip(c: Context, t: Tx)
    requires FeesAllowed(c, t) && t.fees.txType != StateTx
    ensures Tip(c, t) < 0 ==> Tip(c, t) + BurnRate(c, t) == 0 && GetGasPrice(t, c.baseFee) == t.fees.gasPrice
  {
  }

  lemma ShortOnlyIfNegative(b: Base, c: Context, o: Overlay, t: Tx, gasUsed: nat, gasLeft: nat)
    ensures Tip(c, t) >= 0 ==> SettleShortfall(b, c, o, t, gasUsed, gasLeft) == 0
  {
    hide PayShortfall, Tip, GetGasPrice, AddBalance;
    if Tip(c, t) >= 0 {
      ProductIsNat(gasUsed, Tip(c, t));
      NoShortfall(b, c, AddBalance(b, o, t.from, Price(gasLeft, GetGasPrice(t, c.baseFee))), gasUsed * Tip(c, t));
    }
  }

  lemma AddsUp(used: nat, tip: int, rate: int, price: nat, short: nat, field: nat)
    requires used > 0 && (tip >= 0 ==> short == 0) && (tip < 0 ==> rate == 0 && price == field)
    ensures used * (rate - price) + 2 * short == 0 <==>
            if tip >= 0 || field == 0 then rate == price && short == 0 else 2 * short == used * field
  {
    if tip >= 0 || field == 0 {
      Distribute(used, 0, price, rate);
    } else {
      assert used * (rate - price) == -(used * field);
    }
  }

  /** The fees are off by the rate per unit of gas used, and by twice the shortfall. */
  lemma FeeDifference(b: Base, c: Context, o: Overlay, t: Tx, gasUsed: nat, gasLeft: nat)
    requires gasUsed + gasLeft == t.msg.gas
    ensures Total(b, Settle(b, c, o, t, gasUsed, gasLeft)) - Total(b, o) - UpfrontGasCost(c, t) ==
            gasUsed * (Tip(c, t) + BurnRate(c, t) - GetGasPrice(t, c.baseFee))
            + 2 * SettleShortfall(b, c, o, t, gasUsed, gasLeft)
  {
    hide Total, Settle, PayShortfall, Tip, BurnRate, GetGasPrice;
    SettleTotal(b, c, o, t, gasUsed, gasLeft);
    SplitRate(gasUsed, Tip(c, t), BurnRate(c, t));
    Distribute(gasUsed, gasLeft, GetGasPrice(t, c.baseFee), Tip(c, t) + BurnRate(c, t));
  }

  /** A price field that disagrees with the caps: five is paid where tip and base fee make two. */
  lemma PriceFieldCanDisagree()
    ensures var c := Context(Forks(true, true, true, true, true), true, 1, 0, 0, 0, 0, 0, 0);
            var t := Tx(0, 0, 0, 0, Fees(DynamicFeeTx, 5, 1, 10), Message(21000, None, 0, []));
            FeesAllowed(c, t) && !PricedExactly(c, t) && Tip(c, t) + BurnRate(c, t) == 2
              && GetGasPrice(t, c.baseFee) == 5
  {
  }
}

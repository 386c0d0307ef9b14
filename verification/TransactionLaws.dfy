/**
 What senders and contracts can rely on: which transactions are accepted, that none is applied twice, who pays whom,
 and what a receipt says (state/executor.go).
 */
module TransactionLaws {
  import opened Transactions
  import opened WorldState
  import opened HostOps
  import opened Observers
  import opened Rollback
  import opened Supply
  import opened TransactionFees
  import opened TransactionGas
  import opened Application
  import opened Transitions

  // Acceptance.

  function ZeroPlaces(payload: seq<bv8>): set<nat> { set i | 0 <= i < |payload| && payload[i] == 0 }

  lemma {:induction false} ZerosAreCounted(payload: seq<bv8>)
    ensures Zeros(payload) == |ZeroPlaces(payload)|
    decreases |payload|
  {
    if payload != [] {
      var n := |payload| - 1;
      var x := payload[n];
      ZerosAreCounted(payload[..n]);
      ZerosSnoc(payload[..n], x);
      assert payload == payload[..n] + [x];
      assert ZeroPlaces(payload) == ZeroPlaces(payload[..n]) + if x == 0 then {n} else {};
    }
  }

  /** The gas that is due before the run, from the number of zero and other bytes of the input. */
  function DueGas(c: Context, t: Tx): int {
    var zeros := |ZeroPlaces(t.msg.input)|;
    (if t.msg.to.None? && c.forks.homestead then 53000 else 21000)
    + 4 * zeros + (if c.forks.istanbul then 16 else 68) * (|t.msg.input| - zeros)
  }

  lemma NeedsDueGas(c: Context, t: Tx)
    ensures Needs(c, t) == DueGas(c, t)
  {
    ZerosAreCounted(t.msg.input);
    CountedGas(t.msg.input, c.forks.istanbul);
  }

  /** Before London any price; then the fee cap covers the base fee and the tip, unless nothing at all is offered. */
  predicate PriceCovers(c: Context, t: Tx) {
    !c.london ||
    match t.fees.txType
    case DynamicFeeTx =>
      || (t.fees.gasFeeCap == 0 && t.fees.gasTipCap == 0)
      || (t.fees.gasTipCap <= t.fees.gasFeeCap < TWO256 && c.baseFee <= t.fees.gasFeeCap)
    case _ => c.baseFee <= t.fees.gasPrice
  }

  /**
   A transaction is accepted if and only if it carries the sender's nonce, its price covers the base fee, the sender
   can pay for all of its gas, the gas fits the pool and covers what is due, and a call leaves the nonce below 2^64.
   */
  lemma AcceptedExactly(b: Base, c: Context, o: Overlay, t: Tx, gasPool: nat)
    requires t.fees.txType != StateTx
    ensures Accepted(b, c, o, t, gasPool) <==>
            && GetNonce(b, o, t.from) == t.nonce && PriceCovers(c, t)
            && t.msg.gas * GetGasPrice(t, c.baseFee) <= GetBalance(b, o, t.from)
            && DueGas(c, t) <= t.msg.gas <= gasPool && (t.msg.to.Some? ==> t.nonce < MAX_UINT64)
  {
    NeedsDueGas(c, t);
    PaidKeepsNonce(b, o, t.from, UpfrontGasCost(c, t));
    hide Needs, DueGas, GetGasPrice;
  }

  lemma PaidKeepsNonce(b: Base, o: Overlay, a: Address, amount: nat)
    ensures SubBalance(b, o, a, amount).Some? <==> amount <= GetBalance(b, o, a)
    ensures SubBalance(b, o, a, amount).Some? ==>
              GetNonce(b, SubBalance(b, o, a, amount).value, a) == GetNonce(b, o, a)
  {
  }

  /** A state transaction is accepted if and only if the system sends it to somebody, free, with its fixed gas. */
  lemma StateTransactionAcceptedExactly(b: Base, c: Context, o: Overlay, t: Tx, gasPool: nat)
    requires t.fees.txType == StateTx
    ensures Accepted(b, c, o, t, gasPool) <==>
            && t.fees.gasPrice == 0 && t.msg.gas == 1000000 && t.from == c.systemCaller
            && t.msg.to.Some? && t.msg.to.value != ZERO_ADDRESS
            && DueGas(c, t) <= t.msg.gas <= gasPool && GetNonce(b, o, t.from) < MAX_UINT64
  {
    NeedsDueGas(c, t);
    hide Needs, DueGas;
  }

  /** A rejection costs the pool the gas if and only if only the gas due, or the last nonce, was in the way. */
  lemma LeaksExactly(b: Base, c: Context, o: Overlay, t: Tx, gasPool: nat)
    requires t.fees.txType != StateTx
    ensures Leaks(b, c, o, t, gasPool) <==>
            && GetNonce(b, o, t.from) == t.nonce && PriceCovers(c, t)
            && t.msg.gas * GetGasPrice(t, c.baseFee) <= GetBalance(b, o, t.from) && t.msg.gas <= gasPool
            && (DueGas(c, t) > t.msg.gas || (t.msg.to.Some? && t.nonce >= MAX_UINT64))
  {
    AcceptedExactly(b, c, o, t, gasPool);
    PaidKeepsNonce(b, o, t.from, UpfrontGasCost(c, t));
    hide Accepted, DueGas, GetGasPrice;
  }

  // No transaction is applied twice.

  lemma CreditKeepsNonce(b: Base, o: Overlay, x: Address, amount: int, a: Address)
    ensures GetNonce(b, AddBalance(b, o, x, amount), a) == GetNonce(b, o, a)
    ensures HasSuicided(b, AddBalance(b, o, x, amount), a) == HasSuicided(b, o, a)
  {
  }

  lemma SettleKeepsNonce(b: Base, c: Context, o: Overlay, t: Tx, gasUsed: nat, gasLeft: nat, a: Address)
    ensures var o' := Settle(b, c, o, t, gasUsed, gasLeft);
            && GetNonce(b, o', a) == GetNonce(b, o, a) && HasSuicided(b, o', a) == HasSuicided(b, o, a)
            && o'.logs == o.logs
  {
    hide GetNonce, HasSuicided, Tip, GetGasPrice, Burnt, Price;
    var refund, fee := Price(gasLeft, GetGasPrice(t, c.baseFee)), gasUsed * Tip(c, t);
    CreditKeepsNonce(b, o, t.from, refund, a);
    var o1 := AddBalance(b, o, t.from, refund);
    CreditKeepsNonce(b, o1, c.coinbase, fee, a);
    CreditKeepsNonce(b, o1, c.owner, fee / 2, a);
    CreditKeepsNonce(b, AddBalance(b, o1, c.owner, fee / 2), c.coinbase, fee - fee / 2, a);
    var o2 := PayProducer(b, c, o1, fee);
    if Burnt(c, t, gasUsed).Some? { CreditKeepsNonce(b, o2, c.burnContract, Burnt(c, t, gasUsed).value, a); }
  }

  lemma PaymentObserved(b: Base, o: Overlay, x: Address, amount: nat, a: Address)
    requires SubBalance(b, o, x, amount).Some?
    ensures var o' := SubBalance(b, o, x, amount).value;
            && GetBalance(b, o', a) == GetBalance(b, o, a) - (if a == x then amount else 0)
            && GetNonce(b, o', a) == GetNonce(b, o, a) && HasSuicided(b, o', a) == HasSuicided(b, o, a)
            && o'.logs == o.logs && o'.refund == o.refund
  {
  }

  lemma CountObserved(b: Base, o: Overlay, x: Address, a: Address)
    requires !NonceOverflows(b, o, x)
    ensures var o' := IncrNonce(b, o, x);
            && GetBalance(b, o', a) == GetBalance(b, o, a)
            && GetNonce(b, o', a) == GetNonce(b, o, a) + (if a == x then 1 else 0)
            && HasSuicided(b, o', a) == HasSuicided(b, o, a) && o'.logs == o.logs && o'.refund == o.refund
  {
  }

  /** What is paid and counted before the run: only the sender's balance and, for a call, its nonce. */
  lemma BeforeObserved(b: Base, c: Context, o: Overlay, t: Tx, a: Address)
    requires Accepted(b, c, o, t, t.msg.gas) && t.fees.txType != StateTx
    ensures var o' := Before(b, c, o, t);
            && GetNonce(b, o', a) == GetNonce(b, o, a) + (if a == t.from && t.msg.to.Some? then 1 else 0)
            && GetBalance(b, o', a) ==
               GetBalance(b, o, a) - (if a == t.from then t.msg.gas * GetGasPrice(t, c.baseFee) else 0)
            && HasSuicided(b, o', a) == HasSuicided(b, o, a) && o'.logs == o.logs && o'.refund == o.refund
  {
    PaymentObserved(b, o, t.from, UpfrontGasCost(c, t), a);
    if t.msg.to.Some? { CountObserved(b, Charged(b, c, o, t).value, t.from, a); }
    hide SubBalance, IncrNonce, NonceOverflows, GetNonce, GetBalance, HasSuicided, GetGasPrice, Needs;
  }

  lemma BeforeKeeps(b: Base, c: Context, o: Overlay, t: Tx, a: Address)
    requires Accepted(b, c, o, t, t.msg.gas)
    ensures var o' := Before(b, c, o, t);
            && GetNonce(b, o', a) >= GetNonce(b, o, a) && HasSuicided(b, o', a) == HasSuicided(b, o, a)
            && o'.logs == o.logs
  {
    if t.fees.txType != StateTx { PaymentObserved(b, o, t.from, UpfrontGasCost(c, t), a); }
    if t.msg.to.Some? { CountObserved(b, Charged(b, c, o, t).value, t.from, a); }
    hide SubBalance, IncrNonce, NonceOverflows, GetNonce, GetBalance, HasSuicided, GetGasPrice, Needs;
  }

  /** The run counts the nonce of a creation; nothing takes a nonce or a log back. */
  lemma AppliedAdvances(b: Base, c: Context, o: Overlay, t: Tx, run: Run)
    requires Accepted(b, c, o, t, t.msg.gas)
    ensures Advances(b, o, Applied(b, c, o, t, run))
    ensures Advances(b, After(b, c, o, t, run), Applied(b, c, o, t, run))
  {
    var before, after := Before(b, c, o, t), After(b, c, o, t, run);
    var gas := GasOf(c, t, run, after.refund);
    ExecAdvances(b, c.forks, OpOf(t, run), before);
    forall a ensures GetNonce(b, o, a) <= GetNonce(b, before, a) { BeforeKeeps(b, c, o, t, a); }
    BeforeKeeps(b, c, o, t, t.from);
    forall a ensures GetNonce(b, Applied(b, c, o, t, run), a) == GetNonce(b, after, a) {
      SettleKeepsNonce(b, c, after, t, gas.0, gas.1, a);
    }
    SettleKeepsNonce(b, c, after, t, gas.0, gas.1, t.from);
    hide Before, Exec, Settle, GetNonce;
  }

  lemma NonceOfCreator(b: Base, f: Forks, op: HostOp, o: Overlay)
    requires op.Create?
    ensures if GetNonce(b, o, op.caller) < MAX_UINT64
            then GetNonce(b, Exec(b, f, op, o), op.caller) > GetNonce(b, o, op.caller)
            else GetNonce(b, Exec(b, f, op, o), op.caller) == GetNonce(b, o, op.caller)
  {
    var o1 := IncrNonce(b, o, op.caller);
    NonceAfterIncr(b, o, op.caller, op.caller);
    if !NonceOverflows(b, o, op.caller) && !HasCodeOrNonce(b, o1, op.addr) { DeployAdvances(b, f, op, o1); }
  }

  /**
   An applied transaction leaves its sender with a higher nonce if and only if the nonce was not the last one.
   */
  lemma NonceMovesOnExactly(b: Base, c: Context, o: Overlay, t: Tx, run: Run)
    requires Accepted(b, c, o, t, t.msg.gas) && t.fees.txType != StateTx && t.nonce <= MAX_UINT64
    ensures GetNonce(b, Applied(b, c, o, t, run), t.from) >= t.nonce
    ensures GetNonce(b, Applied(b, c, o, t, run), t.from) > t.nonce <==> t.nonce < MAX_UINT64
  {
    var before, after := Before(b, c, o, t), After(b, c, o, t, run);
    var gas := GasOf(c, t, run, after.refund);
    AcceptedExactly(b, c, o, t, t.msg.gas);
    BeforeObserved(b, c, o, t, t.from);
    ExecAdvances(b, c.forks, OpOf(t, run), before);
    SettleKeepsNonce(b, c, after, t, gas.0, gas.1, t.from);
    if t.msg.to.None? { NonceOfCreator(b, c.forks, OpOf(t, run), before); }
    hide Accepted, Before, Exec, Settle, GetNonce;
  }

  /** So it is not accepted again, in whatever context, as long as the sender's nonce does not fall. */
  lemma NotAcceptedAgain(b: Base, c: Context, o: Overlay, t: Tx, run: Run, c': Context, o': Overlay, gasPool: nat)
    requires Accepted(b, c, o, t, t.msg.gas) && t.fees.txType != StateTx && t.nonce < MAX_UINT64
    requires GetNonce(b, o', t.from) >= GetNonce(b, Applied(b, c, o, t, run), t.from)
    ensures !Accepted(b, c', o', t, gasPool)
  {
    NonceMovesOnExactly(b, c, o, t, run);
    AcceptedExactly(b, c', o', t, gasPool);
  }

  /** The failing case: a free contract creation with the last nonce is accepted again and again. */
  lemma LastNonceIsReplayed(b: Base, c: Context, o: Overlay, t: Tx, run: Run)
    requires Accepted(b, c, o, t, t.msg.gas) && t.fees.txType != StateTx
    requires t.nonce == MAX_UINT64 && GetGasPrice(t, c.baseFee) == 0
    ensures t.msg.to.None? && Accepted(b, c, Applied(b, c, o, t, run), t, t.msg.gas)
  {
    NonceMovesOnExactly(b, c, o, t, run);
    AcceptedExactly(b, c, o, t, t.msg.gas);
    AcceptedExactly(b, c, Applied(b, c, o, t, run), t, t.msg.gas);
    hide Accepted, Applied, GetNonce;
  }

  /** Between transactions a nonce falls only with a destroyed account. */
  lemma FinishedKeepsNonce(b: Base, o: Overlay, a: Address)
    requires !HasSuicided(b, o, a)
    ensures GetNonce(b, Finished(o), a) == GetNonce(b, o, a) && !HasSuicided(b, Finished(o), a)
    ensures Finished(o).logs == [] && Finished(o).refund == 0
  {
    CleanupDeletes(b, o.(logs := []), true, a);
  }

  /** Between transactions exactly the destroyed accounts and the touched empty ones disappear. */
  lemma FinishedDeletes(b: Base, o: Overlay, a: Address)
    ensures Exist(b, Finished(o), a) <==>
            Exist(b, o, a) && !HasSuicided(b, o, a) && !(a in o.objects && IsEmpty(b, o, a))
    ensures Exist(b, Finished(o), a) ==> GetObject(b, Finished(o), a) == GetObject(b, o, a)
  {
    CleanupDeletes(b, o.(logs := []), true, a);
  }

  /** One transaction of a block, seen from an account that its run does not destroy. */
  lemma TransactionKeepsAlive(b: Base, c: Context, o: Overlay, t: Tx, run: Run, a: Address)
    requires Accepted(b, c, o, t, t.msg.gas) && !DestroysAny(run.body, a) && !HasSuicided(b, o, a)
    ensures var o' := Finished(Applied(b, c, o, t, run));
            && !HasSuicided(b, o', a) && GetNonce(b, o', a) == GetNonce(b, Applied(b, c, o, t, run), a)
            && GetNonce(b, o', a) >= GetNonce(b, o, a)
  {
    var before, after := Before(b, c, o, t), After(b, c, o, t, run);
    var gas := GasOf(c, t, run, after.refund);
    BeforeKeeps(b, c, o, t, a);
    ExecKeepsUnmarked(b, c.forks, OpOf(t, run), before, a);
    SettleKeepsNonce(b, c, after, t, gas.0, gas.1, a);
    FinishedKeepsNonce(b, Applied(b, c, o, t, run), a);
    AppliedAdvances(b, c, o, t, run);
    hide Accepted, Before, Exec, Settle, GetNonce, HasSuicided, Finished;
  }

  /** The block up to its first `n` transactions. */
  ghost function StateAt(b: Base, c: Context, txs: seq<Tx>, runs: seq<Run>, n: nat): Option<(Overlay, nat)>
    requires |runs| == |txs| && n <= |txs|
  {
    BlockRun(b, c, txs[..n], runs[..n])
  }

  lemma StateStep(b: Base, c: Context, txs: seq<Tx>, runs: seq<Run>, n: nat)
    requires |runs| == |txs| && n < |txs| && StateAt(b, c, txs, runs, n + 1).Some?
    ensures StateAt(b, c, txs, runs, n).Some?
    ensures var s, s' := StateAt(b, c, txs, runs, n).value, StateAt(b, c, txs, runs, n + 1).value;
            if txs[n].msg.gas > c.gasLimit then s' == s
            else && Accepted(b, c, s.0, txs[n], s.1) && s'.0 == Finished(Applied(b, c, s.0, txs[n], runs[n]))
                 && s'.1 == s.1 - GasOf(c, txs[n], runs[n], After(b, c, s.0, txs[n], runs[n]).refund).0
  {
    assert txs[..n + 1][..n] == txs[..n] && runs[..n + 1][..n] == runs[..n];
  }

  lemma {:induction false} PrefixRuns(b: Base, c: Context, txs: seq<Tx>, runs: seq<Run>, n: nat)
    requires |runs| == |txs| && n <= |txs| && BlockRun(b, c, txs, runs).Some?
    ensures StateAt(b, c, txs, runs, n).Some?
    decreases |txs| - n
  {
    if n == |txs| {
      assert txs[..n] == txs && runs[..n] == runs;
    } else {
      PrefixRuns(b, c, txs, runs, n + 1);
      StateStep(b, c, txs, runs, n);
    }
  }

  /** From one place of a block to a later one no nonce falls, unless the account is destroyed. */
  lemma {:induction false} NoncesOfBlock(b: Base, c: Context, txs: seq<Tx>, runs: seq<Run>, i: nat, j: nat, a: Address)
    requires |runs| == |txs| && i <= j <= |txs| && BlockRun(b, c, txs, runs).Some?
    requires forall k :: 0 <= k < |txs| ==> !DestroysAny(runs[k].body, a)
    ensures StateAt(b, c, txs, runs, i).Some? && StateAt(b, c, txs, runs, j).Some?
    ensures !HasSuicided(b, StateAt(b, c, txs, runs, j).value.0, a)
    ensures GetNonce(b, StateAt(b, c, txs, runs, i).value.0, a) <= GetNonce(b, StateAt(b, c, txs, runs, j).value.0, a)
    decreases j
  {
    PrefixRuns(b, c, txs, runs, i);
    PrefixRuns(b, c, txs, runs, j);
    if j == 0 {
      assert txs[..0] == [] && runs[..0] == [];
    } else {
      NoncesOfBlock(b, c, txs, runs, if i < j then i else j - 1, j - 1, a);
      StateStep(b, c, txs, runs, j - 1);
      if txs[j - 1].msg.gas <= c.gasLimit {
        TransactionKeepsAlive(b, c, StateAt(b, c, txs, runs, j - 1).value.0, txs[j - 1], runs[j - 1], a);
      }
      hide StateAt, GetNonce, HasSuicided, Applied, Finished, Accepted;
    }
  }

  /** An executed transaction of a block carries its sender's nonce and leaves a higher one. */
  lemma NonceAt(b: Base, c: Context, txs: seq<Tx>, runs: seq<Run>, i: nat)
    requires |runs| == |txs| && i < |txs| && BlockRun(b, c, txs, runs).Some? && txs[i].msg.gas <= c.gasLimit
    requires txs[i].fees.txType != StateTx && forall k :: 0 <= k < |txs| ==> !DestroysAny(runs[k].body, txs[i].from)
    ensures StateAt(b, c, txs, runs, i).Some? && StateAt(b, c, txs, runs, i + 1).Some?
    ensures GetNonce(b, StateAt(b, c, txs, runs, i).value.0, txs[i].from) == txs[i].nonce
    ensures txs[i].nonce < MAX_UINT64 ==>
              GetNonce(b, StateAt(b, c, txs, runs, i + 1).value.0, txs[i].from) > txs[i].nonce
  {
    hide StateAt, BlockRun, GetNonce, HasSuicided, Finished, PriceCovers, DueGas, GetGasPrice;
    NoncesOfBlock(b, c, txs, runs, i, i, txs[i].from);
    PrefixRuns(b, c, txs, runs, i + 1);
    StateStep(b, c, txs, runs, i);
    var s := StateAt(b, c, txs, runs, i).value;
    AcceptedExactly(b, c, s.0, txs[i], s.1);
    if txs[i].nonce < MAX_UINT64 {
      TransactionKeepsAlive(b, c, s.0, txs[i], runs[i], txs[i].from);
      NonceMovesOnExactly(b, c, s.0, txs[i], runs[i]);
    }
  }

  /**
   In a block whose runs do not destroy the sender, two transactions of one sender that are both executed carry
   rising nonces, unless the first one carries the last nonce: no transaction is applied twice.
   */
  lemma NoReplayInBlock(b: Base, c: Context, txs: seq<Tx>, runs: seq<Run>, i: nat, j: nat)
    requires |runs| == |txs| && i < j < |txs| && BlockRun(b, c, txs, runs).Some? && txs[i].from == txs[j].from
    requires txs[i].msg.gas <= c.gasLimit && txs[j].msg.gas <= c.gasLimit && txs[i].nonce < MAX_UINT64
    requires txs[i].fees.txType != StateTx && txs[j].fees.txType != StateTx
    requires forall k :: 0 <= k < |txs| ==> !DestroysAny(runs[k].body, txs[i].from)
    ensures txs[i].nonce < txs[j].nonce && txs[i] != txs[j]
  {
    hide StateAt, BlockRun, GetNonce, HasSuicided;
    NonceAt(b, c, txs, runs, i);
    NonceAt(b, c, txs, runs, j);
    NoncesOfBlock(b, c, txs, runs, i + 1, j, txs[i].from);
  }

  // Who pays whom.

  /** What one address gets of a fee: half, rounded down, is the owner's where the staking contract exists. */
  function FeeShare(c: Context, staked: bool, fee: nat, a: Address): nat {
    (if a == c.coinbase then (if staked then fee - fee / 2 else fee) else 0)
    + (if staked && a == c.owner then fee / 2 else 0)
  }

  lemma ProducerIsPaid(b: Base, c: Context, o: Overlay, fee: nat, a: Address)
    ensures GetBalance(b, PayProducer(b, c, o, fee), a) ==
            GetBalance(b, o, a) + FeeShare(c, Exist(b, o, c.staking), fee, a)
  {
    PayProducerBalance(b, c, o, fee, a);
    hide PayProducer, GetBalance, Exist;
  }

  /** Every balance after the settlement: unused gas goes back, the tip is shared, and the base fee is burnt. */
  lemma SettlementPays(b: Base, c: Context, o: Overlay, t: Tx, used: nat, left: nat, a: Address)
    requires Tip(c, t) >= 0
    ensures used * Tip(c, t) >= 0
    ensures GetBalance(b, Settle(b, c, o, t, used, left), a) ==
            GetBalance(b, o, a) + (if a == t.from then left * GetGasPrice(t, c.baseFee) else 0)
            + FeeShare(c, c.staking == t.from || Exist(b, o, c.staking), used * Tip(c, t), a)
            + (if c.london && t.fees.txType != StateTx && a == c.burnContract then used * c.baseFee else 0)
  {
    var refund := Price(left, GetGasPrice(t, c.baseFee));
    ProductIsNat(used, Tip(c, t));
    BalanceAfterAdd(b, o, t.from, refund, a);
    var o1 := AddBalance(b, o, t.from, refund);
    assert Exist(b, o1, c.staking) == (c.staking == t.from || Exist(b, o, c.staking));
    ProducerIsPaid(b, c, o1, used * Tip(c, t), a);
    var o2 := PayProducer(b, c, o1, used * Tip(c, t));
    if Burnt(c, t, used).Some? { BalanceAfterAdd(b, o2, c.burnContract, Burnt(c, t, used).value, a); }
    hide GetBalance, AddBalance, PayProducer, Tip, GetGasPrice, FeeShare, Exist;
  }

  lemma SplitGas(used: nat, left: nat, price: nat)
    ensures (used + left) * price == used * price + left * price
  {
  }

  /**
   A transaction to an account without code. The sender pays the used gas, and the value reaches the recipient if and
   only if the run does not fail and the sender owns it on top of the price of all the gas.
   */
  lemma TransferTransactionPays(b: Base, c: Context, o: Overlay, t: Tx, run: Run, a: Address)
    requires Accepted(b, c, o, t, t.msg.gas) && t.fees.txType != StateTx && t.msg.to.Some? && run.body == []
    requires Tip(c, t) >= 0
    ensures var price, used := GetGasPrice(t, c.baseFee), GasOf(c, t, run, o.refund).0;
            var paid := !run.failed && t.msg.gas * price + t.msg.value <= GetBalance(b, o, t.from);
            var value := if paid then t.msg.value else 0;
            var staked := c.staking == t.from || Exist(b, After(b, c, o, t, run), c.staking);
            && used * Tip(c, t) >= 0
            && GetBalance(b, Applied(b, c, o, t, run), a) ==
               GetBalance(b, o, a)
               - (if a == t.from then used * price + value else 0) + (if a == t.msg.to.value then value else 0)
               + FeeShare(c, staked, used * Tip(c, t), a)
               + (if c.london && a == c.burnContract then used * c.baseFee else 0)
  {
    var before, after := Before(b, c, o, t), After(b, c, o, t, run);
    var gas := GasOf(c, t, run, o.refund);
    BeforeObserved(b, c, o, t, a);
    BeforeObserved(b, c, o, t, t.from);
    PlainCallPays(b, c.forks, before, OpOf(t, run), a);
    SettlementPays(b, c, after, t, gas.0, gas.1, a);
    SplitGas(gas.0, gas.1, GetGasPrice(t, c.baseFee));
    hide Accepted, Before, Exec, Settle, GetBalance, Exist, Tip, GetGasPrice, FeeShare;
  }

  /** The gas used: what is due at least, less a refund of at most half. */
  lemma GasUsedExactly(c: Context, t: Tx, run: Run, refund: nat)
    requires Needs(c, t) <= t.msg.gas
    ensures var spent := Max(t.msg.gas - run.gasLeft, DueGas(c, t));
            GasOf(c, t, run, refund).0 == spent - Min(refund, spent / 2)
  {
    NeedsDueGas(c, t);
    hide Needs, DueGas;
  }

  /** A destroyed account is gone once its transaction is finished, and its owner's money is the beneficiary's. */
  lemma DestroyedIsGone(b: Base, f: Forks, o: Overlay, x: Address, beneficiary: Address)
    requires Exist(b, o, x) && x != beneficiary
    ensures var o' := Finished(Exec(b, f, Destruct(x, beneficiary), o));
            && !Exist(b, o', x) && GetBalance(b, o', x) == 0
            && GetBalance(b, o', beneficiary) ==
               (if HasSuicided(b, o, beneficiary) then 0 else GetBalance(b, o, beneficiary) + GetBalance(b, o, x))
  {
    var o1 := Selfdestruct(b, o, x, beneficiary);
    DestructionMoves(b, o, x, beneficiary, x);
    DestructionMoves(b, o, x, beneficiary, beneficiary);
    CleanupDeletes(b, o1.(logs := []), true, x);
    CleanupDeletes(b, o1.(logs := []), true, beneficiary);
    assert Exec(b, f, Destruct(x, beneficiary), o) == o1;
    hide Selfdestruct, CleanDeleteObjects;
  }

  // Receipts.

  lemma CreationInContext(b: Base, c: Context, o: Overlay, t: Tx, run: Run)
    requires Accepted(b, c, o, t, t.msg.gas) && t.fees.txType != StateTx && t.msg.to.None?
    ensures CanCreate(b, Before(b, c, o, t), OpOf(t, run)) <==> CanCreate(b, o, OpOf(t, run))
  {
  }

  /**
   A receipt reports success if and only if the run did not fail, the sender owned the value on top of the price of all
   the gas, and, for a creation, the address was free and the code was deployed.
   */
  lemma SucceedsExactly(b: Base, c: Context, o: Overlay, t: Tx, run: Run, gasPool: nat, totalGas: nat)
    requires Accepted(b, c, o, t, gasPool) && t.fees.txType != StateTx
    ensures var r := ReceiptOf(totalGas, t, Outcome(b, c, o, t, run, gasPool).value);
            && r.hash == t.hash && r.cumulativeGasUsed == totalGas + r.gasUsed && 0 < r.gasUsed <= t.msg.gas
            && (r.success <==>
                && t.msg.gas * GetGasPrice(t, c.baseFee) + t.msg.value <= GetBalance(b, o, t.from)
                && (if t.msg.to.Some? then !run.failed else CanCreate(b, o, OpOf(t, run)) && run.end.Deployed?))
  {
    var before, op := Before(b, c, o, t), OpOf(t, run);
    BeforeObserved(b, c, o, t, t.from);
    if t.msg.to.Some? {
      CallMovesValue(b, before, op, t.from);
    } else {
      CreationInContext(b, c, o, t, run);
      CreationStarts(b, before, op);
      NonceAfterIncr(b, before, t.from, t.from);
      CreateMovesValue(b, c.forks, IncrNonce(b, before, t.from), op, t.from);
    }
    hide Accepted, Before, EnterCall, EnterCreate, GetBalance, GetGasPrice, GetNonce, Applied, GasOf, CanCreate;
  }

  /** A receipt carries the logs of its run, and without success only what was there before. */
  lemma FailureLeavesNoLogs(b: Base, c: Context, o: Overlay, t: Tx, run: Run, gasPool: nat, totalGas: nat)
    requires Accepted(b, c, o, t, gasPool) && (t.msg.to.Some? || c.forks.homestead)
    ensures var r := ReceiptOf(totalGas, t, Outcome(b, c, o, t, run, gasPool).value);
            r.logs == After(b, c, o, t, run).logs && (!r.success ==> r.logs == o.logs)
  {
    var before, op := Before(b, c, o, t), OpOf(t, run);
    BeforeKeeps(b, c, o, t, t.from);
    if RunFails(b, c, before, op) { FailedRunKeepsLogs(b, c, op, before); }
    var after := After(b, c, o, t, run);
    var gas := GasOf(c, t, run, after.refund);
    SettleKeepsNonce(b, c, after, t, gas.0, gas.1, t.from);
    hide Accepted, Before, Exec, Settle, RunFails;
  }

  lemma FailedRunKeepsLogs(b: Base, c: Context, op: HostOp, o: Overlay)
    requires (op.Call? || (op.Create? && c.forks.homestead)) && RunFails(b, c, o, op)
    ensures Exec(b, c.forks, op, o).logs == o.logs
  {
  }
}

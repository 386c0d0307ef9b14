/** The state transition of a block (state/executor.go, Transition and ProcessBlock). */
module Transitions {
  import opened Transactions
  import opened WorldState
  import opened HostOps
  import opened Rollback
  import opened Supply
  import opened Solvency
  import opened TransactionFees
  import opened TransactionGas
  import opened Application
  import opened TxnObjects
  import opened HostRuns

  datatype Receipt = Receipt(cumulativeGasUsed: nat, gasUsed: nat, hash: Hash, success: bool, logs: seq<Log>)

  /** What an accepted transaction leaves: the state, the gas it used and whether its run failed. */
  datatype Effect = Effect(state: Overlay, gasUsed: nat, failed: bool)

  function GasUsedBy(receipts: seq<Receipt>): nat {
    if receipts == [] then 0 else GasUsedBy(receipts[..|receipts| - 1]) + receipts[|receipts| - 1].gasUsed
  }

  /** Each receipt's cumulative gas is the sum over the receipts up to it. */
  ghost predicate PrefixSums(receipts: seq<Receipt>) {
    forall i :: 0 <= i < |receipts| ==> receipts[i].cumulativeGasUsed == GasUsedBy(receipts[..i + 1])
  }

  lemma PrefixSumsSnoc(receipts: seq<Receipt>, r: Receipt)
    requires PrefixSums(receipts) && r.cumulativeGasUsed == GasUsedBy(receipts) + r.gasUsed
    ensures PrefixSums(receipts + [r]) && GasUsedBy(receipts + [r]) == GasUsedBy(receipts) + r.gasUsed
  {
    var all := receipts + [r];
    assert all[..|receipts|] == receipts;
    forall i | 0 <= i < |all| ensures all[i].cumulativeGasUsed == GasUsedBy(all[..i + 1]) {
      if i < |receipts| { assert all[..i + 1] == receipts[..i + 1]; } else { assert all[..i + 1] == all; }
    }
  }

  predicate RunFails(b: Base, c: Context, o: Overlay, op: HostOp)
    requires op.Call? || op.Create?
  {
    if op.Call? then CallFails(b, op, o) else CreateFails(b, c.forks, op, o)
  }

  /**
   The state for the next transaction: the logs are taken, destroyed and empty accounts are deleted, the refund is
   gone.
   */
  function Finished(o: Overlay): Overlay { CleanDeleteObjects(o.(logs := []), true) }

  lemma FinishedTotal(b: Base, o: Overlay, calm: bool)
    requires Sound(b, o, calm)
    ensures Sound(b, Finished(o), calm) && Total(b, Finished(o)) <= Total(b, o)
    ensures calm ==> Total(b, Finished(o)) == Total(b, o)
  {
    SoundSameObjects(b, o, o.(logs := []), calm);
    TotalOfSameObjects(b, o, o.(logs := []));
    CleanupTotal(b, o.(logs := []), true, calm);
  }

  /** None for a rejected transaction. */
  function Outcome(b: Base, c: Context, o: Overlay, t: Tx, run: Run, gasPool: nat): (r: Option<Effect>)
    ensures r.Some? <==> Accepted(b, c, o, t, gasPool)
    ensures r.Some? ==> 0 < r.value.gasUsed <= t.msg.gas <= gasPool
  {
    if !Accepted(b, c, o, t, gasPool) then None
    else Some(Effect(Applied(b, c, o, t, run), GasOf(c, t, run, After(b, c, o, t, run).refund).0,
                     RunFails(b, c, Before(b, c, o, t), OpOf(t, run))))
  }

  /** Subtraction of 64-bit numbers; the result exceeds the minuend exactly when it wraps around. */
  function Sub64(x: nat, y: nat): (r: nat)
    requires x <= MAX_UINT64 && y <= MAX_UINT64
    ensures r > x <==> y > x
  {
    if y <= x then x - y else x - y + TWO64
  }

  /** The consensus checks and the up-front payment, on the journal. */
  method ChargeSender(s: Txn, c: Context, t: Tx) returns (ok: bool)
    requires s.Valid()
    modifies s
    ensures s.Valid() && s.Kept() && ok == Charged(s.base, c, old(s.view), t).Some?
    ensures s.view == if ok then Charged(s.base, c, old(s.view), t).value else old(s.view)
  {
    if t.fees.txType == StateTx {
      return && t.fees.gasPrice == 0 && t.msg.gas == STATE_TRANSACTION_GAS && t.from == c.systemCaller
             && t.msg.to.Some? && t.msg.to.value != ZERO_ADDRESS;
    }
    var nonce := s.GetNonce(t.from);
    if nonce != t.nonce || !FeesAllowed(c, t) {
      return false;
    }
    ok := s.SubBalance(t.from, UpfrontGasCost(c, t));
  }

  /** What is left of the gas for the run; nothing when the intrinsic gas overflows or is not covered. */
  method GasForRun(c: Context, t: Tx) returns (gas: Option<nat>)
    requires t.msg.gas <= MAX_UINT64
    ensures gas.Some? <==> Needs(c, t) <= t.msg.gas
    ensures gas.Some? ==> gas.value + Needs(c, t) == t.msg.gas
  {
    var cost := TransactionGasCost(t, c.forks.homestead, c.forks.istanbul);
    if cost.None? || Sub64(t.msg.gas, cost.value) > t.msg.gas {
      return None;
    }
    return Some(Sub64(t.msg.gas, cost.value));
  }

  /** Counts the nonce of a call's sender. */
  method CountNonce(s: Txn, t: Tx) returns (ok: bool)
    requires s.Valid()
    modifies s
    ensures s.Valid() && s.Kept() && ok == Entered(s.base, old(s.view), t).Some?
    ensures ok ==> s.view == Entered(s.base, old(s.view), t).value
  {
    if t.msg.to.None? {
      return true;
    }
    ok := s.IncrNonce(t.from);
  }

  method RunTransaction(s: Txn, c: Context, op: HostOp) returns (failed: bool)
    requires s.Valid() && (op.Call? || op.Create?)
    modifies s, s.current.logs
    ensures s.Valid() && Grown(s) && s.view == Exec(s.base, c.forks, op, old(s.view))
    ensures failed == RunFails(s.base, c, old(s.view), op)
    ensures s.current.logs == old(s.current.logs) || fresh(s.current.logs)
  {
    if op.Call? {
      failed := ApplyCall(s, c.forks, op);
    } else {
      failed := ApplyCreate(s, c.forks, op);
    }
  }

  method PayFee(s: Txn, c: Context, fee: int)
    requires s.Valid()
    modifies s
    ensures s.Valid() && s.Kept() && s.view == PayProducer(s.base, c, old(s.view), fee)
  {
    hide WorldState.AddBalance, WorldState.Exist;
    var staked := s.Exist(c.staking);
    if !staked {
      s.AddBalance(c.coinbase, fee);
    } else if fee != 0 {
      s.AddBalance(c.owner, fee / 2);
      s.AddBalance(c.coinbase, fee - fee / 2);
    }
  }

  method SettleFees(s: Txn, c: Context, t: Tx, gasUsed: nat, gasLeft: nat)
    requires s.Valid()
    modifies s
    ensures s.Valid() && s.Kept() && s.view == Settle(s.base, c, old(s.view), t, gasUsed, gasLeft)
  {
    hide PayProducer, WorldState.AddBalance, Tip, GetGasPrice;
    s.AddBalance(t.from, Price(gasLeft, GetGasPrice(t, c.baseFee)));
    PayFee(s, c, gasUsed * Tip(c, t));
    if c.london && t.fees.txType != StateTx {
      s.AddBalance(c.burnContract, Price(gasUsed, c.baseFee));
    }
  }

  /** Takes the amount from the pool if it is there. */
  method SubGasPool(gasPool: nat, amount: nat) returns (ok: bool, pool: nat)
    ensures ok == (amount <= gasPool) && pool == gasPool - (if ok then amount else 0)
  {
    if gasPool < amount {
      return false, gasPool;
    }
    return true, gasPool - amount;
  }

  /**
   Everything before the run. Gives the gas the run gets, or nothing when the transaction is rejected; what is then
   missing from the pool is what a late rejection took.
   */
  method Purchase(s: Txn, c: Context, t: Tx, gasPool: nat) returns (gas: Option<nat>, pool: nat)
    requires s.Valid() && gasPool <= MAX_UINT64
    modifies s
    ensures s.Valid() && s.Kept() && gas.Some? == Accepted(s.base, c, old(s.view), t, gasPool)
    ensures gas.Some? ==>
              && s.view == Before(s.base, c, old(s.view), t)
              && gas.value + Needs(c, t) == t.msg.gas && pool == gasPool - t.msg.gas
    ensures gas.None? ==> gasPool == pool + if Leaks(s.base, c, old(s.view), t, gasPool) then t.msg.gas else 0
  {
    hide Needs, Charged, Entered;
    gas, pool := None, gasPool;
    var ok := ChargeSender(s, c, t);
    if !ok {
      return;
    }
    ok, pool := SubGasPool(gasPool, t.msg.gas);
    if !ok {
      return;
    }
    gas := GasForRun(c, t);
    if gas.Some? {
      ok := CountNonce(s, t);
      if !ok { gas := None; }
    }
  }

  /** Takes the logs and cleans up for the next transaction. */
  method FinishTransaction(s: Txn) returns (logs: seq<Log>)
    requires s.Valid()
    modifies s
    ensures s.Valid() && fresh(s.current.logs) && logs == old(s.view).logs && s.view == Finished(old(s.view))
  {
    hide WorldState.CleanDeleteObjects;
    logs := s.Logs();
    s.CleanDeleteObjects(true);
  }

  /** The run and the settlement. */
  method Execute(s: Txn, c: Context, t: Tx, run: Run, gas: nat, ghost o: Overlay) returns (gasUsed: nat, failed: bool)
    requires s.Valid() && Accepted(s.base, c, o, t, t.msg.gas) && s.view == Before(s.base, c, o, t)
    requires gas + Needs(c, t) == t.msg.gas
    modifies s, s.current.logs
    ensures s.Valid() && Grown(s) && (s.current.logs == old(s.current.logs) || fresh(s.current.logs))
    ensures s.view == Applied(s.base, c, o, t, run) && failed == RunFails(s.base, c, old(s.view), OpOf(t, run))
    ensures gasUsed == GasOf(c, t, run, After(s.base, c, o, t, run).refund).0
  {
    hide Settle, Exec, RunFails, Needs, Accepted, Before;
    failed := RunTransaction(s, c, OpOf(t, run));
    var used := UpdateGasUsed(t.msg.gas, Min(run.gasLeft, gas), s.current.refund);
    SettleFees(s, c, t, used.0, used.1);
    gasUsed := used.0;
  }

  /**
   Applies a transaction, or rejects it and reverts the journal to the snapshot taken before. `pool` is what is left
   of the gas pool: a late rejection does not give its gas back.
   */
  method Apply(s: Txn, c: Context, t: Tx, run: Run, gasPool: nat)
    returns (done: bool, gasUsed: nat, failed: bool, pool: nat)
    requires s.Valid() && gasPool <= MAX_UINT64
    modifies s, s.current.logs
    ensures s.Valid() && (s.current.logs == old(s.current.logs) || fresh(s.current.logs))
    ensures Outcome(s.base, c, old(s.view), t, run, gasPool) ==
            if done then Some(Effect(s.view, gasUsed, failed)) else None
    ensures done ==> pool == gasPool - gasUsed
    ensures !done ==> s.view == old(s.view)
    ensures !done ==> gasPool == pool + if Leaks(s.base, c, old(s.view), t, gasPool) then t.msg.gas else 0
  {
    hide Applied, Before, After, GasOf, RunFails, Leaks, Needs, Charged, Entered;
    ghost var o := s.view;
    var snapshot := s.Snapshot();
    var gas;
    gas, pool := Purchase(s, c, t, gasPool);
    if gas.None? {
      var ok := s.RevertToSnapshot(snapshot);
      return false, 0, false, pool;
    }
    gasUsed, failed := Execute(s, c, t, run, gas.value, o);
    done, pool := true, pool + (t.msg.gas - gasUsed);
  }

  /** Applies a transaction and, if that worked, prepares the journal for the next one. */
  method ApplyAndFinish(s: Txn, c: Context, t: Tx, run: Run, gasPool: nat)
    returns (done: bool, gasUsed: nat, failed: bool, logs: seq<Log>, pool: nat)
    requires s.Valid() && gasPool <= MAX_UINT64
    modifies s, s.current.logs
    ensures s.Valid() && (s.current.logs == old(s.current.logs) || fresh(s.current.logs))
    ensures var e := Outcome(s.base, c, old(s.view), t, run, gasPool);
            && done == e.Some?
            && (done ==> && s.view == Finished(e.value.state) && gasUsed == e.value.gasUsed && failed == e.value.failed
                         && logs == e.value.state.logs && pool == gasPool - gasUsed)
    ensures !done ==> s.view == old(s.view)
    ensures !done ==> gasPool == pool + if Leaks(s.base, c, old(s.view), t, gasPool) then t.msg.gas else 0
  {
    hide Outcome, Leaks, Accepted, Finished;
    done, gasUsed, failed, pool := Apply(s, c, t, run, gasPool);
    logs := [];
    if done { logs := FinishTransaction(s); }
  }

  function ReceiptOf(totalGas: nat, t: Tx, e: Effect): Receipt {
    Receipt(totalGas + e.gasUsed, e.gasUsed, t.hash, !e.failed, e.state.logs)
  }

  class Transition {
    const state: Txn
    const ctx: Context
    var gasPool: nat
    var totalGas: nat
    var receipts: seq<Receipt>
    /** Gas taken from the pool by rejected transactions and never given back. */
    ghost var leaked: nat

    /** Every unit of the header's gas limit is in the pool, in a receipt, or leaked; receipts carry prefix sums. */
    ghost predicate Accounted()
      reads this
    {
      && gasPool + totalGas + leaked == ctx.gasLimit <= MAX_UINT64
      && totalGas == GasUsedBy(receipts)
      && PrefixSums(receipts)
    }

    constructor (base: Base, ctx: Context)
      requires ctx.gasLimit <= MAX_UINT64
      ensures state.Valid() && Accounted() && state.base == base && this.ctx == ctx && fresh(state)
      ensures fresh(state.current.logs)
      ensures state.view == NOTHING && receipts == [] && leaked == 0 && gasPool == ctx.gasLimit
    {
      state := new Txn(base);
      this.ctx := ctx;
      gasPool, totalGas, receipts, leaked := ctx.gasLimit, 0, [], 0;
    }

    /** Applies a transaction and records its receipt. */
    method Write(t: Tx, run: Run) returns (ok: bool)
      requires state.Valid() && Accounted()
      modifies this, state, state.current.logs
      ensures state.Valid() && Accounted()
      ensures state.current.logs == old(state.current.logs) || fresh(state.current.logs)
      ensures var e := Outcome(state.base, ctx, old(state.view), t, run, old(gasPool));
              && ok == e.Some?
              && (ok ==>
                    && state.view == Finished(e.value.state) && gasPool == old(gasPool) - e.value.gasUsed
                    && receipts == old(receipts) + [ReceiptOf(old(totalGas), t, e.value)]
                    && leaked == old(leaked))
      ensures !ok ==>
                && state.view == old(state.view) && totalGas == old(totalGas) && receipts == old(receipts)
                && leaked == old(leaked) +
                             if Leaks(state.base, ctx, old(state.view), t, old(gasPool)) then t.msg.gas else 0
    {
      hide Outcome, Leaks, Accepted, Finished, PrefixSums, GasUsedBy, Txn.Valid;
      var gasUsed, failed, logs, pool;
      ok, gasUsed, failed, logs, pool := ApplyAndFinish(state, ctx, t, run, gasPool);
      label Done:
      if ok { Record(t, gasUsed, failed, logs, pool); } else { Leak(pool); }
      ValidStays@Done(state);
    }

    /** The receipt of an applied transaction. */
    method Record(t: Tx, gasUsed: nat, failed: bool, logs: seq<Log>, pool: nat)
      requires Accounted() && pool + gasUsed == gasPool
      modifies `gasPool, `totalGas, `receipts
      ensures Accounted() && gasPool == pool && leaked == old(leaked)
      ensures receipts == old(receipts) + [Receipt(old(totalGas) + gasUsed, gasUsed, t.hash, !failed, logs)]
    {
      gasPool, totalGas := pool, totalGas + gasUsed;
      var receipt := Receipt(totalGas, gasUsed, t.hash, !failed, logs);
      PrefixSumsSnoc(receipts, receipt);
      receipts := receipts + [receipt];
    }

    /** What a late rejection took is gone. */
    method Leak(pool: nat)
      requires Accounted() && pool <= gasPool
      modifies `gasPool, `leaked
      ensures Accounted() && gasPool == pool && leaked == old(leaked) + (old(gasPool) - pool)
    {
      gasPool, leaked := pool, leaked + (gasPool - pool);
    }
  }

  /**
   State and gas pool after a block; None when one of its transactions is rejected. Oversized transactions are
   skipped.
   */
  function BlockRun(b: Base, c: Context, txs: seq<Tx>, runs: seq<Run>): (r: Option<(Overlay, nat)>)
    requires |runs| == |txs|
    ensures r.Some? ==> r.value.1 <= c.gasLimit
  {
    if txs == [] then Some((NOTHING, c.gasLimit))
    else
      var n := |txs| - 1;
      match BlockRun(b, c, txs[..n], runs[..n])
      case None => None
      case Some((o, pool)) =>
        if txs[n].msg.gas > c.gasLimit then Some((o, pool))
        else
          match Outcome(b, c, o, txs[n], runs[n], pool)
          case None => None
          case Some(e) => Some((Finished(e.state), pool - e.gasUsed))
  }

  /**
   What a block does to the balances: none becomes negative, the sum does not grow, and it stays if nothing is
   destroyed.
   */
  ghost predicate Conserves(b: Base, o: Overlay, calm: bool) {
    Sound(b, o, calm) && Total(b, o) <= Total(b, NOTHING) && (calm ==> Total(b, o) == Total(b, NOTHING))
  }

  /** Every block of well-priced transactions, from every base without negative balances. */
  lemma {:induction false} BlockConserves(b: Base, c: Context, txs: seq<Tx>, runs: seq<Run>, calm: bool)
    requires |runs| == |txs| && BlockRun(b, c, txs, runs).Some?
    requires forall i :: 0 <= i < |txs| ==> WellPriced(c, txs[i]) && (calm ==> !DestructsAny(runs[i].body))
    ensures Conserves(b, BlockRun(b, c, txs, runs).value.0, calm)
  {
    if txs == [] {
      assert NoneSuicided(b, NOTHING);
    } else {
      var n := |txs| - 1;
      BlockConserves(b, c, txs[..n], runs[..n], calm);
      var (o, pool) := BlockRun(b, c, txs[..n], runs[..n]).value;
      if txs[n].msg.gas <= c.gasLimit {
        TransactionKeepsSound(b, c, o, txs[n], runs[n], calm);
        FinishedTotal(b, Applied(b, c, o, txs[n], runs[n]), calm);
      }
    }
  }

  /** The transactions of the block that it executes: those whose gas fits the block at all. */
  function Executable(c: Context, txs: seq<Tx>): seq<Tx> {
    if txs == [] then []
    else Executable(c, txs[..|txs| - 1]) + (if txs[|txs| - 1].msg.gas > c.gasLimit then [] else [txs[|txs| - 1]])
  }

  ghost predicate Records(receipts: seq<Receipt>, txs: seq<Tx>) {
    |receipts| == |txs| && forall i :: 0 <= i < |txs| ==> receipts[i].hash == txs[i].hash
  }

  /** Executes a block, and gives up at the first rejected transaction. */
  method ProcessBlock(base: Base, ctx: Context, txs: seq<Tx>, runs: seq<Run>) returns (result: Transition?)
    requires ctx.gasLimit <= MAX_UINT64 && |runs| == |txs|
    ensures result == null <==> BlockRun(base, ctx, txs, runs).None?
    ensures result != null ==>
              && fresh(result) && result.state.Valid() && result.Accounted() && result.state.base == base
              && result.ctx == ctx
              && result.gasPool + result.totalGas == ctx.gasLimit
              && BlockRun(base, ctx, txs, runs) == Some((result.state.view, result.gasPool))
              && Records(result.receipts, Executable(ctx, txs))
  {
    hide Outcome, Leaks, Accepted, PrefixSums, GasUsedBy, Finished, Txn.Valid;
    var t := new Transition(base, ctx);
    for i := 0 to |txs|
      invariant t.state.Valid() && t.Accounted() && t.leaked == 0 && t.state.base == base && t.ctx == ctx
      invariant fresh(t) && fresh(t.state) && fresh(t.state.current.logs)
      invariant Records(t.receipts, Executable(ctx, txs[..i]))
      invariant BlockRun(base, ctx, txs[..i], runs[..i]) == Some((t.state.view, t.gasPool))
    {
      assert txs[..i + 1][..i] == txs[..i] && runs[..i + 1][..i] == runs[..i];
      if txs[i].msg.gas > ctx.gasLimit { continue; }
      var ok := t.Write(txs[i], runs[i]);
      if !ok {
        RejectedPrefix(base, ctx, txs, runs, i + 1);
        return null;
      }
    }
    assert txs[..|txs|] == txs && runs[..|runs|] == runs;
    return t;
  }

  /** A block with a rejected transaction is rejected. */
  lemma {:induction false} RejectedPrefix(b: Base, c: Context, txs: seq<Tx>, runs: seq<Run>, n: nat)
    requires |runs| == |txs| && n <= |txs| && BlockRun(b, c, txs[..n], runs[..n]).None?
    ensures BlockRun(b, c, txs, runs).None?
    decreases |txs|
  {
    if n == |txs| {
      assert txs[..n] == txs && runs[..n] == runs;
    } else {
      var m := |txs| - 1;
      assert txs[..m][..n] == txs[..n] && runs[..m][..n] == runs[..n];
      RejectedPrefix(b, c, txs[..m], runs[..m], n);
    }
  }

  /** A transaction with too little gas takes its whole gas from the pool although it is rejected. */
  lemma TooLittleGasLeaks(b: Base, c: Context, o: Overlay, t: Tx, gasPool: nat)
    requires t.msg.gas <= gasPool && t.msg.gas < Needs(c, t) && Charged(b, c, o, t).Some?
    ensures Leaks(b, c, o, t, gasPool) && !Accepted(b, c, o, t, gasPool)
  {
  }
}

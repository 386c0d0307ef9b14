/** The pool object of txpool/txpool.go: each operation is proved to be the step of the state machine. */
module TxPoolObjects {
  import opened Transactions
  import opened AccountQueues
  import opened PoolAccounts
  import opened AccountObjects
  import opened PoolModel
  import opened PoolInvariant
  import opened Sums


  /** Removes the hashes of `txs` from the lookup map. */
  method RemoveHashes(index: map<Hash, Tx>, txs: seq<Tx>, ghost v: map<nat, Tx>) returns (r: map<Hash, Tx>)
    requires Represents(multiset(txs), v)
    ensures r == index - HashesOf(v.Values)
  {
    r := index;
    for i := 0 to |txs|
      invariant r == index - (set k | 0 <= k < i :: txs[k].hash)
    {
      r := r - {txs[i].hash};
    }
    ListedHashes(txs, v);
  }

  lemma ListedHashes(txs: seq<Tx>, v: map<nat, Tx>)
    requires Represents(multiset(txs), v)
    ensures HashesOf(v.Values) == set k | 0 <= k < |txs| :: txs[k].hash
  {
    forall t | t in v.Values ensures exists k :: 0 <= k < |txs| && txs[k] == t {
      var n :| n in v && v[n] == t;
      assert multiset(txs)[v[n]] == 1;
      assert t in txs;
    }
    forall k | 0 <= k < |txs| ensures txs[k] in v.Values {
      assert multiset(txs)[txs[k]] > 0;
      assert v[txs[k].nonce] == txs[k];
    }
  }

  /**
   The shared fields of the pool. An operation works on these and on one account, which the caller looked up;
   `Matches` says that they show the part of a state of the machine that the operation can see.
   */
  class TxPool {
    const maxSlots: nat
    const maxEnqueued: nat
    ghost const preimage: Hash -> Tx
    var index: map<Hash, Tx>
    var gauge: int
    var pending: int
    var requests: set<Address>
    var baseFee: nat

    ghost function Settings(): Config { Config(maxSlots, maxEnqueued, preimage) }

    ghost predicate Shows(p: Pool)
      reads this
    {
      index == p.index && gauge == p.gauge && pending == p.pending && requests == p.requests && baseFee == p.baseFee
    }

    ghost predicate Matches(p: Pool, account: Account)
      reads this, account, account.enqueued, account.promoted
    {
      Shows(p) && account.Valid() && account.owner in p.accounts && account.View() == p.accounts[account.owner]
    }

    method Pop(account: Account, tx: Tx, ghost p: Pool)
      requires Matches(p, account) && account.owner == tx.from
      modifies this, account, account.promoted
      ensures Matches(PoolModel.Pop(p, tx), account)
    {
      account.PopHead(tx);
      gauge := Decrease(gauge, Slots(tx));
      pending := pending - 1;
    }

    method DropAccount(account: Account, nonce: nat, ghost p: Pool)
      requires Matches(p, account)
      modifies this, account, account.enqueued, account.promoted
      ensures Matches(PoolModel.DropAccount(p, account.owner, nonce), account)
    {
      ghost var a := account.View();
      var promoted, enqueued := account.Empty(nonce);
      ReleaseSlots(promoted, a.promoted);
      pending := pending - |promoted|;
      LengthIsSize(promoted, a.promoted);
      CountIsSize(a.promoted);
      ReleaseSlots(enqueued, a.enqueued);
    }

    /** Takes a list of transactions out of the index and gives their slots back. */
    method ReleaseSlots(txs: seq<Tx>, ghost v: map<nat, Tx>)
      requires Represents(multiset(txs), v)
      modifies this`index, this`gauge
      ensures index == old(index) - HashesOf(v.Values) && gauge == Decrease(old(gauge), SlotsIn(v))
    {
      index := RemoveHashes(index, txs, v);
      var slots := SlotsRequired(txs);
      SlotsOfRepresents(txs, v);
      gauge := Decrease(gauge, slots);
    }

    /** Counts a demotion; the eleventh in a row drops the account instead. */
    method Demote(account: Account, tx: Tx, ghost p: Pool)
      requires Matches(p, account) && account.owner == tx.from
      modifies this, account, account.enqueued, account.promoted
      ensures Matches(if old(account.demotions) >= MAX_ACCOUNT_DEMOTIONS
                      then SetDemotions(PoolModel.DropAccount(p, tx.from, tx.nonce), tx.from, 0)
                      else SetDemotions(p, tx.from, old(account.demotions) + 1), account)
    {
      if account.demotions >= MAX_ACCOUNT_DEMOTIONS {
        DropAccount(account, tx.nonce, p);
        account.demotions := 0;
      } else {
        account.demotions := account.demotions + 1;
      }
    }

    method PruneAccountWithNonceHoles(account: Account, ghost p: Pool)
      requires Matches(p, account)
      modifies this, account, account.enqueued
      ensures Matches(PruneHoles(p, account.owner), account)
    {
      ghost var a := account.View();
      var first := account.enqueued.Peek();
      if first.None? || first.value.nonce == account.nextNonce {
        return;
      }
      var removed := account.enqueued.Clear();
      account.nonceToTx := RemoveNonces(account.nonceToTx, removed, a.enqueued);
      ReleaseSlots(removed, a.enqueued);
    }

    method PromoteAccount(account: Account) returns (count: nat)
      requires account.Valid() && WellFormed(account.View(), account.owner)
      modifies account, account.enqueued, account.promoted
      ensures account.Valid() && account.View() == PromoteRun(old(account.View()))
      ensures count == PromotedBy(old(account.View()))
    {
      ghost var a := account.View();
      var promoted, pruned := account.Promote();
      CountRun(a.enqueued, a.nextNonce, RunEnd(a.enqueued, a.nextNonce));
      count := |promoted|;
    }

    /** Promotes and then, after the locks are released, counts the promoted transactions. */
    method HandlePromoteRequest(addr: Address, account: Account, more: bool, ghost p: Pool, ghost job: nat)
      requires Matches(p, account) && account.owner == addr && WellFormed(p.accounts[addr], addr) && job !in p.jobs
      modifies this, account, account.enqueued, account.promoted
      ensures var q := HandlePromote(p, addr, job, more);
              Shows(q.(pending := p.pending + q.jobs[job].pendingDelta))
      ensures account.Valid() && account.View() == HandlePromote(p, addr, job, more).accounts[addr]
    {
      var promoted := PromoteAccount(account);
      requests := if more then requests else requests - {addr};
      pending := pending + promoted;
    }

    /** Resets one account and hands what it pruned to the caller, who cleans up when all accounts are done. */
    method ResetAccount(addr: Address, account: Account, nonce: nat, ghost p: Pool, ghost job: nat)
      returns (prunedPromoted: seq<Tx>, prunedEnqueued: seq<Tx>)
      requires Matches(p, account) && account.owner == addr && job in p.jobs && addr in p.jobs[job].todo
      requires p.jobs[job].todo[addr] == nonce
      modifies this, account, account.enqueued, account.promoted
      ensures Matches(PoolModel.ResetAccount(p, job, addr), account)
      ensures Represents(multiset(prunedPromoted), Below(p.accounts[addr].promoted, nonce))
      ensures Represents(multiset(prunedEnqueued), PrunedEnqueued(p.accounts[addr], nonce))
    {
      var signal;
      prunedPromoted, prunedEnqueued, signal := account.Reset(nonce);
      if signal {
        requests := requests + {addr};
      }
      account.demotions := 0;
    }

    /** The locked part of `addTx`. */
    method AddTx(account: Account, tx: Tx, ghost p: Pool) returns (result: AddResult)
      requires Matches(p, account) && account.owner == tx.from && 0 <= p.gauge < TWO64
      requires forall n :: n in p.accounts[tx.from].enqueued ==> n in p.accounts[tx.from].nonceToTx
      modifies this, account, account.enqueued, account.promoted
      ensures result == AddVerdict(Settings(), p, tx) && Matches(PoolModel.AddTx(Settings(), p, tx), account)
    {
      var accountNonce := account.nextNonce;
      result := ScreenTx(account, tx, p);
      if result != Added {
        return;
      }
      ghost var a := account.View();
      var replace := tx.nonce in account.nonceToTx;
      result := Charge(tx, if replace then Slots(account.nonceToTx[tx.nonce]) else 0);
      if result == Added {
        ghost var q := PoolModel.AddTx(Settings(), p, tx);
        if replace {
          index := index - {account.nonceToTx[tx.nonce].hash};
        }
        assert index == q.index && gauge == q.gauge && pending == q.pending && baseFee == q.baseFee;
        account.Enqueue(tx, replace);
        assert account.View() == q.accounts[tx.from];
        if tx.nonce <= accountNonce {
          requests := requests + {tx.from};
        }
      }
    }

    /** The checks that come before any slot is taken. */
    method ScreenTx(account: Account, tx: Tx, ghost p: Pool) returns (result: AddResult)
      requires Matches(p, account)
      ensures result == Screen(Settings(), p, account.View(), tx)
    {
      var accountNonce := account.nextNonce;
      if HighPressure(gauge, maxSlots) && tx.nonce > accountNonce {
        return ErrRejectFutureTx;
      }
      if tx.nonce in account.nonceToTx {
        var prior := account.nonceToTx[tx.nonce];
        if prior.hash == tx.hash {
          return ErrAlreadyKnown;
        } else if GetGasPrice(prior, baseFee) >= GetGasPrice(tx, baseFee) {
          return ErrReplacementUnderpriced;
        }
      } else {
        var length := account.enqueued.Length();
        if length == maxEnqueued && tx.nonce != accountNonce {
          return ErrMaxEnqueuedLimitReached;
        }
        if tx.nonce < accountNonce {
          return ErrNonceTooLow;
        }
      }
      return Added;
    }

    /** Takes the slots and registers the hash; a known hash gives the slots back. */
    method Charge(tx: Tx, slotsFreed: int) returns (result: AddResult)
      requires 0 <= gauge < TWO64 && slotsFreed >= 0
      modifies this`gauge, this`index
      ensures var increase := Slots(tx) - slotsFreed;
              result == if increase > 0 && IncreaseWithinLimit(old(gauge), maxSlots, increase).None?
                        then ErrTxPoolOverflow
                        else if tx.hash in old(index) then ErrAlreadyKnown else Added
      ensures result == Added ==>
              index == old(index)[tx.hash := tx] && gauge == Moved(old(gauge), Slots(tx) - slotsFreed)
      ensures result != Added ==> index == old(index) && gauge == old(gauge)
    {
      var slotsAllocated := Slots(tx);
      var increased := 0;
      if slotsAllocated > slotsFreed {
        increased := slotsAllocated - slotsFreed;
        match IncreaseWithinLimit(gauge, maxSlots, increased) {
          case None => return ErrTxPoolOverflow;
          case Some(height) => gauge := height;
        }
      }
      if tx.hash in index {
        if increased > 0 {
          gauge := Decrease(gauge, increased);
        }
        return ErrAlreadyKnown;
      }
      index := index[tx.hash := tx];
      if slotsFreed > slotsAllocated {
        gauge := Decrease(gauge, slotsFreed - slotsAllocated);
      }
      return Added;
    }
  }

  lemma {:induction false} CountRun(enqueued: map<nat, Tx>, next: nat, end: nat)
    requires next <= end && (forall n :: n in enqueued ==> n >= next) && forall k :: next <= k < end ==> k in enqueued
    ensures Count(Below(enqueued, end)) == end - next
    decreases end
  {
    if end == next {
      assert Below(enqueued, end) == map[];
    } else {
      var last: nat := end - 1;
      var low := Below(enqueued, last);
      CountRun(enqueued, next, last);
      SumUpdate(low, One, last, enqueued[last]);
      assert Count(low[last := enqueued[last]]) == end - next;
      assert Below(enqueued, end) == low[last := enqueued[last]];
    }
  }
}

/** What the operations of the pool do, in terms of who is queued where (txpool/txpool.go). */
module PoolLaws {
  import opened Transactions
  import opened AccountQueues
  import opened PoolAccounts
  import opened PoolModel
  import opened PoolInvariant
  import opened PoolSafety

  // Additions.

  /** A size takes the least number of slots that hold it. */
  lemma SlotsHoldSize(t: Tx)
    ensures t.size <= Slots(t) * 32768 && (Slots(t) > 0 ==> (Slots(t) - 1) * 32768 < t.size)
  {
  }

  /** The pool is under pressure when more than 80 percent of its slots are used, in 64-bit arithmetic. */
  lemma PressureExactly(height: nat, max: nat)
    ensures HighPressure(height, max) <==> 100 * height > (80 * max) % TWO64
    ensures 80 * max < TWO64 ==> (HighPressure(height, max) <==> 100 * height > 80 * max)
  {
  }

  /** A limit so high that eighty times it overflows: one used slot puts the pool under pressure. */
  lemma OverflowedPressure()
    ensures var max := 230_584_300_921_369_396; max + MAX_TX_SLOTS < TWO64 && HighPressure(1, max)
  {
  }

  /** The nonce is above the next one while more than 80 percent of the slots are in use. */
  ghost predicate TooEarly(c: Config, p: Pool, tx: Tx)
    requires tx.from in p.accounts
  {
    tx.nonce > p.accounts[tx.from].nextNonce && 100 * p.gauge > (80 * c.maxSlots) % TWO64
  }

  /** The sender has a transaction with this nonce queued, and `prior` is it. */
  ghost predicate Holds(p: Pool, tx: Tx, prior: Tx) {
    prior.from == tx.from && prior.nonce == tx.nonce && Queued(p, prior)
  }

  ghost predicate NonceFree(p: Pool, tx: Tx) { forall prior :: !Holds(p, tx, prior) }

  /** A queued nonce is taken over for a higher price; a free one is not passed and there is room in the queue. */
  ghost predicate PlaceFor(c: Config, p: Pool, tx: Tx)
    requires tx.from in p.accounts
  {
    var a := p.accounts[tx.from];
    || (NonceFree(p, tx) && (tx.nonce == a.nextNonce || (tx.nonce > a.nextNonce && |a.enqueued| != c.maxEnqueued)))
    || (exists prior :: Holds(p, tx, prior) && prior.hash != tx.hash
                        && GetGasPrice(prior, p.baseFee) < GetGasPrice(tx, p.baseFee))
  }

  /** The slots of the sender's transaction with this nonce. */
  ghost function Freed(p: Pool, tx: Tx): int
    requires tx.from in p.accounts
  {
    var known := p.accounts[tx.from].nonceToTx;
    if tx.nonce in known then Slots(known[tx.nonce]) else 0
  }

  ghost predicate SlotsFit(c: Config, p: Pool, tx: Tx)
    requires tx.from in p.accounts
  {
    Slots(tx) <= Freed(p, tx) || p.gauge + Slots(tx) - Freed(p, tx) <= c.maxSlots
  }

  lemma HoldsExactly(p: Pool, tx: Tx, prior: Tx)
    requires AccountsOk(p) && tx.from in p.accounts
    ensures var known := p.accounts[tx.from].nonceToTx;
            Holds(p, tx, prior) <==> tx.nonce in known && known[tx.nonce] == prior
  {
    if tx.nonce in p.accounts[tx.from].nonceToTx { QueuedFields(p, tx.from, tx.nonce); }
  }

  lemma HoldsAll(p: Pool, tx: Tx)
    requires AccountsOk(p) && tx.from in p.accounts
    ensures var known := p.accounts[tx.from].nonceToTx;
            forall prior :: Holds(p, tx, prior) <==> tx.nonce in known && known[tx.nonce] == prior
  {
    var known := p.accounts[tx.from].nonceToTx;
    forall prior ensures Holds(p, tx, prior) <==> tx.nonce in known && known[tx.nonce] == prior {
      HoldsExactly(p, tx, prior);
    }
  }

  lemma FreeExactly(p: Pool, tx: Tx)
    requires AccountsOk(p) && tx.from in p.accounts
    ensures NonceFree(p, tx) <==> tx.nonce !in p.accounts[tx.from].nonceToTx
  {
    var known := p.accounts[tx.from].nonceToTx;
    if tx.nonce in known { HoldsExactly(p, tx, known[tx.nonce]); }
    forall prior ensures tx.nonce !in known ==> !Holds(p, tx, prior) { HoldsExactly(p, tx, prior); }
  }

  lemma PlaceExactly(c: Config, p: Pool, tx: Tx)
    requires AccountsOk(p) && tx.from in p.accounts
    ensures var a := p.accounts[tx.from];
            PlaceFor(c, p, tx) <==>
            if tx.nonce in a.nonceToTx
            then a.nonceToTx[tx.nonce].hash != tx.hash
                 && GetGasPrice(a.nonceToTx[tx.nonce], p.baseFee) < GetGasPrice(tx, p.baseFee)
            else tx.nonce == a.nextNonce || (tx.nonce > a.nextNonce && |a.enqueued| != c.maxEnqueued)
  {
    FreeExactly(p, tx);
    HoldsAll(p, tx);
    hide Holds, NonceFree;
  }

  lemma FitsExactly(c: Config, p: Pool, tx: Tx)
    requires ValidConfig(c) && Inv(c, p) && Enabled(c, p, Add(tx))
    ensures var increase := Slots(tx) - Freed(p, tx);
            SlotsFit(c, p, tx) <==> !(increase > 0 && IncreaseWithinLimit(p.gauge, c.maxSlots, increase).None?)
  {
    SlotsHoldSize(tx);
  }

  /**
   A transaction is added if and only if it does not come too early, there is a place for it, its slots fit and its
   hash is unknown.
   */
  lemma AddedExactly(c: Config, p: Pool, tx: Tx)
    requires ValidConfig(c) && Inv(c, p) && Enabled(c, p, Add(tx))
    ensures AddVerdict(c, p, tx) == Added <==>
            !TooEarly(c, p, tx) && PlaceFor(c, p, tx) && SlotsFit(c, p, tx) && tx.hash !in p.index
  {
    PressureExactly(p.gauge, c.maxSlots);
    PlaceExactly(c, p, tx);
    FitsExactly(c, p, tx);
    hide HighPressure, PlaceFor, SlotsFit, IncreaseWithinLimit, GetGasPrice, Slots;
  }

  /** The errors that say the nonce is too high for a crowded pool, or the price too low for a queued nonce. */
  lemma EarlyErrorsExactly(c: Config, p: Pool, tx: Tx)
    requires ValidConfig(c) && Inv(c, p) && Enabled(c, p, Add(tx))
    ensures AddVerdict(c, p, tx) == ErrRejectFutureTx <==> TooEarly(c, p, tx)
    ensures AddVerdict(c, p, tx) == ErrReplacementUnderpriced <==>
            exists prior :: Holds(p, tx, prior) && prior.hash != tx.hash && !TooEarly(c, p, tx)
                            && GetGasPrice(prior, p.baseFee) >= GetGasPrice(tx, p.baseFee)
  {
    PressureExactly(p.gauge, c.maxSlots);
    HoldsAll(p, tx);
    hide HighPressure, IncreaseWithinLimit, GetGasPrice, Slots, Holds;
  }

  /** The errors that say the queue is full, the nonce is passed, or the slots do not fit. */
  lemma LateErrorsExactly(c: Config, p: Pool, tx: Tx)
    requires ValidConfig(c) && Inv(c, p) && Enabled(c, p, Add(tx))
    ensures var r, a := AddVerdict(c, p, tx), p.accounts[tx.from];
            && (r == ErrMaxEnqueuedLimitReached <==>
                !TooEarly(c, p, tx) && NonceFree(p, tx) && tx.nonce != a.nextNonce && |a.enqueued| == c.maxEnqueued)
            && (r == ErrNonceTooLow <==>
                NonceFree(p, tx) && tx.nonce < a.nextNonce && |a.enqueued| != c.maxEnqueued)
            && (r == ErrTxPoolOverflow <==> !TooEarly(c, p, tx) && PlaceFor(c, p, tx) && !SlotsFit(c, p, tx))
  {
    PressureExactly(p.gauge, c.maxSlots);
    PlaceExactly(c, p, tx);
    FitsExactly(c, p, tx);
    FreeExactly(p, tx);
    hide HighPressure, PlaceFor, SlotsFit, IncreaseWithinLimit, GetGasPrice, Slots, NonceFree;
  }

  /** A known transaction: it is queued, or it would be added but for its hash. */
  lemma KnownExactly(c: Config, p: Pool, tx: Tx)
    requires ValidConfig(c) && Inv(c, p) && Enabled(c, p, Add(tx))
    ensures AddVerdict(c, p, tx) == ErrAlreadyKnown <==>
            && !TooEarly(c, p, tx)
            && ((exists prior :: Holds(p, tx, prior) && prior.hash == tx.hash)
                || (PlaceFor(c, p, tx) && SlotsFit(c, p, tx) && tx.hash in p.index))
  {
    PressureExactly(p.gauge, c.maxSlots);
    PlaceExactly(c, p, tx);
    FitsExactly(c, p, tx);
    HoldsAll(p, tx);
    hide HighPressure, PlaceFor, SlotsFit, IncreaseWithinLimit, GetGasPrice, Slots, Holds;
  }

  // The other operations.

  /** The run of enqueued nonces from the next one on reaches `n`. */
  ghost predicate InRun(a: AccountState, n: nat) {
    n >= a.nextNonce && forall k :: a.nextNonce <= k <= n ==> k in a.enqueued
  }

  /** A promotion moves exactly the unbroken run from the next nonce on, and the next nonce becomes the first gap. */
  lemma PromoteExactly(c: Config, p: Pool, addr: Address, job: nat, more: bool, n: nat)
    requires AccountsOk(p) && NoncesOk(p) && Enabled(c, p, PromoteStep(addr, job, more))
    ensures var a, q := p.accounts[addr], HandlePromote(p, addr, job, more);
            var a' := q.accounts[addr];
            && (n in a'.promoted <==> n in a.promoted || InRun(a, n))
            && (n in a'.enqueued <==> n in a.enqueued && !InRun(a, n))
            && a'.nonceToTx == a.nonceToTx && a'.demotions == a.demotions
            && a.nextNonce <= a'.nextNonce && a'.nextNonce !in a.enqueued
            && (a.nextNonce <= n < a'.nextNonce ==> InRun(a, n))
            && q.accounts == p.accounts[addr := a'] && q.index == p.index
  {
    var a := p.accounts[addr];
    assert WellFormed(a, addr) && BelowMax(a);
    var end := RunEnd(a.enqueued, a.nextNonce);
    assert MAX_UINT64 !in a.enqueued;
    assert end <= MAX_UINT64;
    assert n >= a.nextNonce ==> (InRun(a, n) <==> n < end);
  }

  lemma PrunedExactly(a: AccountState, owner: Address, nonce: nat, n: nat)
    requires WellFormed(a, owner)
    ensures var a' := PruneBelow(a, nonce);
            && (n in a'.promoted <==> n in a.promoted && n >= nonce)
            && (n in a'.enqueued <==> n in a.enqueued && n >= nonce)
            && (n in a'.nonceToTx <==> n in a.nonceToTx && n >= nonce)
            && (n in a'.nonceToTx ==> a'.nonceToTx[n] == a.nonceToTx[n])
            && a'.nextNonce == Max(a.nextNonce, nonce)
  {
  }

  /** A reset drops exactly what the state has passed, of this account alone. */
  lemma ResetExactly(c: Config, p: Pool, job: nat, addr: Address, n: nat, t: Tx)
    requires AccountsOk(p) && Enabled(c, p, ResetStep(job, addr)) && addr in p.accounts
    ensures var q, nonce := ResetAccount(p, job, addr), p.jobs[job].todo[addr];
            var a, a' := p.accounts[addr], q.accounts[addr];
            && (n in a'.promoted <==> n in a.promoted && n >= nonce)
            && (n in a'.enqueued <==> n in a.enqueued && n >= nonce)
            && a'.nextNonce == Max(a.nextNonce, nonce) && a'.demotions == 0
            && (Queued(q, t) <==> Queued(p, t) && (t.from == addr ==> t.nonce >= nonce))
  {
    assert WellFormed(p.accounts[addr], addr);
    PrunedExactly(p.accounts[addr], addr, p.jobs[job].todo[addr], n);
    PrunedExactly(p.accounts[addr], addr, p.jobs[job].todo[addr], t.nonce);
    hide PruneBelow, AccountsOk, PrunedEnqueued, SlotsIn, Count;
  }

  /** A dropped account has nothing queued or indexed and goes back to the given nonce; others stay as they are. */
  lemma DropExactly(c: Config, p: Pool, addr: Address, nonce: nat, t: Tx)
    requires AccountsOk(p) && Enabled(c, p, DropStep(addr, nonce))
    ensures var q := DropAccount(p, addr, nonce);
            && q.accounts[addr].nextNonce == nonce && q.accounts[addr].demotions == p.accounts[addr].demotions
            && (Queued(q, t) <==> Queued(p, t) && t.from != addr)
            && (Queued(p, t) && t.from == addr ==> t.hash !in q.index)
  {
    var a := p.accounts[addr];
    assert WellFormed(a, addr);
    if Queued(p, t) && t.from == addr {
      assert t in a.enqueued.Values || t in a.promoted.Values by {
        assert t.nonce in a.enqueued || t.nonce in a.promoted;
      }
      assert t.hash in HashesOf(a.promoted.Values) || t.hash in HashesOf(a.enqueued.Values);
    }
  }

  /** Only an account that waits for a missing nonce loses what it has enqueued. */
  lemma PruneHolesExactly(p: Pool, addr: Address, t: Tx)
    requires AccountsOk(p) && addr in p.accounts
    ensures var a, q := p.accounts[addr], PruneHoles(p, addr);
            var waits := a.enqueued != map[] && a.nextNonce !in a.enqueued;
            && (!waits ==> q == p)
            && (waits ==>
                  && q.accounts[addr].promoted == a.promoted && q.accounts[addr].nextNonce == a.nextNonce
                  && (Queued(q, t) <==> Queued(p, t) && !(t.from == addr && t.nonce in a.enqueued)))
  {
    var a := p.accounts[addr];
    assert WellFormed(a, addr);
    if a.enqueued != map[] { assert Lowest(a.enqueued) >= a.nextNonce; }
  }

  /** The head leaves its queue and nothing else does; the demotions are forgotten. */
  lemma PopExactly(c: Config, p: Pool, tx: Tx, t: Tx)
    requires AccountsOk(p) && Enabled(c, p, PopStep(tx))
    ensures var q := Pop(p, tx);
            && (Queued(q, t) <==> Queued(p, t) && t != tx)
            && q.accounts[tx.from].enqueued == p.accounts[tx.from].enqueued
            && q.accounts[tx.from].nextNonce == p.accounts[tx.from].nextNonce && q.accounts[tx.from].demotions == 0
            && q.pending == p.pending - 1 && q.index == p.index
  {
    assert WellFormed(p.accounts[tx.from], tx.from);
    assert IsHead(p.accounts[tx.from], tx);
    if Queued(p, t) { QueuedFields(p, t.from, t.nonce); }
  }

  /** The first one to ask creates the account, empty and with the nonce given; later ones change nothing. */
  lemma InitOnceExactly(p: Pool, addr: Address, nonce: nat, later: nat, t: Tx)
    ensures var q := InitOnce(p, addr, nonce);
            && addr in q.accounts && (addr in p.accounts ==> q == p) && InitOnce(q, addr, later) == q
            && (addr !in p.accounts ==> q.accounts[addr].nextNonce == nonce && q.accounts[addr].enqueued == map[])
            && (Queued(q, t) <==> Queued(p, t))
  {
  }
}

/** What the operations of the pool keep: the gauge, the pending counter and the structure of the accounts. */
module PoolInvariant {
  import opened Transactions
  import opened AccountQueues
  import opened PoolAccounts
  import opened PoolModel
  import opened Sums

  // Sums over a queue that is split or changed at one nonce.

  lemma {:induction false} CountIsSize(q: map<nat, Tx>)
    ensures Count(q) == |q|
    decreases |q|
  {
    if q != map[] {
      var k := PickKey(q);
      CountIsSize(q - {k});
      assert q.Keys == (q - {k}).Keys + {k};
    }
  }

  lemma QueueSplit(q: map<nat, Tx>, nonce: nat)
    ensures SlotsIn(q) == SlotsIn(Below(q, nonce)) + SlotsIn(From(q, nonce))
    ensures Count(q) == Count(Below(q, nonce)) + Count(From(q, nonce))
  {
    SumSplit(Below(q, nonce), From(q, nonce), Slots);
    SumSplit(Below(q, nonce), From(q, nonce), One);
    assert Below(q, nonce) + From(q, nonce) == q;
  }

  lemma QueueSlotsNonNegative(q: map<nat, Tx>)
    ensures SlotsIn(q) >= 0
  {
    SumNonNegative(q, Slots);
  }

  lemma AccountSlotsNonNegative(a: AccountState)
    ensures AccountSlots(a) >= 0
  {
    QueueSlotsNonNegative(a.enqueued);
    QueueSlotsNonNegative(a.promoted);
  }

  lemma PruneMeasures(a: AccountState, owner: Address, nonce: nat)
    requires WellFormed(a, owner)
    ensures AccountSlots(PruneBelow(a, nonce))
            == AccountSlots(a) - SlotsIn(Below(a.promoted, nonce)) - SlotsIn(PrunedEnqueued(a, nonce))
    ensures PromotedCount(PruneBelow(a, nonce)) == PromotedCount(a) - Count(Below(a.promoted, nonce))
  {
    QueueSplit(a.promoted, nonce);
    QueueSplit(a.enqueued, nonce);
  }

  lemma PromoteMeasures(a: AccountState, owner: Address)
    requires WellFormed(a, owner)
    ensures AccountSlots(PromoteRun(a)) == AccountSlots(a)
    ensures PromotedCount(PromoteRun(a)) == PromotedCount(a) + PromotedBy(a)
  {
    var end := RunEnd(a.enqueued, a.nextNonce);
    QueueSplit(a.enqueued, end);
    assert a.promoted.Keys !! Below(a.enqueued, end).Keys;
    SumSplit(a.promoted, Below(a.enqueued, end), Slots);
    SumSplit(a.promoted, Below(a.enqueued, end), One);
  }

  lemma InsertMeasures(a: AccountState, owner: Address, tx: Tx)
    requires WellFormed(a, owner)
    ensures AccountSlots(Insert(a, tx, tx.nonce in a.nonceToTx)) == AccountSlots(a) + Slots(tx) - SlotsFreed(a, tx)
    ensures PromotedCount(Insert(a, tx, tx.nonce in a.nonceToTx)) == PromotedCount(a)
  {
    SumUpdate(a.enqueued, Slots, tx.nonce, tx);
    SumUpdate(a.promoted, Slots, tx.nonce, tx);
    SumUpdate(a.promoted, One, tx.nonce, tx);
  }

  lemma PopMeasures(a: AccountState, tx: Tx)
    requires IsHead(a, tx)
    ensures AccountSlots(AfterPop(a, tx)) == AccountSlots(a) - Slots(tx)
    ensures PromotedCount(AfterPop(a, tx)) == PromotedCount(a) - 1
  {
    SumRemove(a.promoted, Slots, tx.nonce);
    SumRemove(a.promoted, One, tx.nonce);
    assert Lowest(a.promoted) == tx.nonce;
  }

  lemma EmptyMeasures(a: AccountState, nonce: nat)
    ensures AccountSlots(Emptied(a, nonce)) == 0 && PromotedCount(Emptied(a, nonce)) == 0
  {
  }

  lemma AccountSumNonNegative(accounts: map<Address, AccountState>)
    ensures Sum(accounts, AccountSlots) >= 0
  {
    forall k | k in accounts ensures AccountSlots(accounts[k]) >= 0 { AccountSlotsNonNegative(accounts[k]); }
    SumNonNegative(accounts, AccountSlots);
  }

  // The sums over the accounts when one account changes, and over the jobs when one job changes.

  lemma AccountSums(accounts: map<Address, AccountState>, addr: Address, a: AccountState)
    requires addr in accounts
    ensures Sum(accounts[addr := a], AccountSlots)
            == Sum(accounts, AccountSlots) - AccountSlots(accounts[addr]) + AccountSlots(a)
    ensures Sum(accounts[addr := a], PromotedCount)
            == Sum(accounts, PromotedCount) - PromotedCount(accounts[addr]) + PromotedCount(a)
    ensures Sum(accounts[addr := a], AccountSlots) >= 0
  {
    SumUpdate(accounts, AccountSlots, addr, a);
    SumUpdate(accounts, PromotedCount, addr, a);
    AccountSumNonNegative(accounts[addr := a]);
  }

  lemma NewAccountSums(accounts: map<Address, AccountState>, addr: Address, nonce: nat)
    requires addr !in accounts
    ensures Sum(accounts[addr := NewAccount(nonce)], AccountSlots) == Sum(accounts, AccountSlots)
    ensures Sum(accounts[addr := NewAccount(nonce)], PromotedCount) == Sum(accounts, PromotedCount)
  {
    SumUpdate(accounts, AccountSlots, addr, NewAccount(nonce));
    SumUpdate(accounts, PromotedCount, addr, NewAccount(nonce));
  }

  lemma JobSums(jobs: map<nat, Job>, job: nat, j: Job)
    ensures Sum(jobs[job := j], Uncharged)
            == Sum(jobs, Uncharged) - (if job in jobs then jobs[job].uncharge else 0) + j.uncharge
    ensures Sum(jobs[job := j], Delta)
            == Sum(jobs, Delta) - (if job in jobs then jobs[job].pendingDelta else 0) + j.pendingDelta
  {
    SumUpdate(jobs, Uncharged, job, j);
    SumUpdate(jobs, Delta, job, j);
  }

  lemma JobSumNonNegative(c: Config, p: Pool)
    requires JobsOk(p)
    ensures Sum(p.jobs, Uncharged) >= 0
  {
    forall j | j in p.jobs ensures Uncharged(p.jobs[j]) >= 0 { assert JobOk(p, p.jobs[j]); }
    SumNonNegative(p.jobs, Uncharged);
  }

  /** The totals of the pool: the gauge law and the pending law together. */
  ghost predicate Totals(c: Config, p: Pool) { GaugeOk(c, p) && PendingOk(p) }

  /** One account exchanges slots with the gauge and promoted transactions with the pending counter. */
  lemma TotalsAccount(c: Config, p: Pool, q: Pool, addr: Address, a: AccountState)
    requires Totals(c, p) && JobsOk(p) && addr in p.accounts
    requires q.accounts == p.accounts[addr := a] && q.jobs == p.jobs
    requires q.gauge == p.gauge + AccountSlots(a) - AccountSlots(p.accounts[addr]) <= c.maxSlots
    requires q.pending == p.pending + PromotedCount(a) - PromotedCount(p.accounts[addr])
    ensures Totals(c, q)
  {
    AccountSums(p.accounts, addr, a);
    JobSumNonNegative(c, p);
  }

  /** One account hands slots and promoted transactions to a job. */
  lemma TotalsHandOver(c: Config, p: Pool, q: Pool, addr: Address, a: AccountState, job: nat, j: Job)
    requires Totals(c, p) && addr in p.accounts
    requires q.accounts == p.accounts[addr := a] && q.jobs == p.jobs[job := j] && q.gauge == p.gauge
    requires q.pending == p.pending
    requires AccountSlots(p.accounts[addr]) - AccountSlots(a)
             == j.uncharge - (if job in p.jobs then p.jobs[job].uncharge else 0)
    requires PromotedCount(a) - PromotedCount(p.accounts[addr])
             == j.pendingDelta - (if job in p.jobs then p.jobs[job].pendingDelta else 0)
    ensures Totals(c, q)
  {
    AccountSums(p.accounts, addr, a);
    JobSums(p.jobs, job, j);
  }

  /** The slots of one account are covered by the gauge, so giving them back does not wrap around. */
  lemma DecreaseIsExact(c: Config, p: Pool, addr: Address, slots: int)
    requires ValidConfig(c) && GaugeOk(c, p) && JobsOk(p) && addr in p.accounts
    requires 0 <= slots <= AccountSlots(p.accounts[addr])
    ensures 0 <= p.gauge - slots && Decrease(p.gauge, slots) == p.gauge - slots
  {
    JobSumNonNegative(c, p);
    SumRemove(p.accounts, AccountSlots, addr);
    AccountSumNonNegative(p.accounts - {addr});
  }

  lemma HeadIsCovered(a: AccountState, tx: Tx)
    requires IsHead(a, tx)
    ensures Slots(tx) <= AccountSlots(a)
  {
    PopMeasures(a, tx);
    AccountSlotsNonNegative(AfterPop(a, tx));
  }

  lemma PopTotals(c: Config, p: Pool, tx: Tx)
    requires ValidConfig(c) && Totals(c, p) && JobsOk(p) && Enabled(c, p, PopStep(tx))
    ensures Totals(c, Pop(p, tx))
  {
    var a := p.accounts[tx.from];
    HeadIsCovered(a, tx);
    DecreaseIsExact(c, p, tx.from, Slots(tx));
    PopMeasures(a, tx);
    TotalsAccount(c, p, Pop(p, tx), tx.from, AfterPop(a, tx));
  }

  lemma DropTotals(c: Config, p: Pool, addr: Address, nonce: nat)
    requires ValidConfig(c) && Totals(c, p) && JobsOk(p) && addr in p.accounts
    ensures Totals(c, DropAccount(p, addr, nonce))
  {
    var a := p.accounts[addr];
    EmptyMeasures(a, nonce);
    QueueSlotsNonNegative(a.promoted);
    QueueSlotsNonNegative(a.enqueued);
    DecreaseIsExact(c, p, addr, SlotsIn(a.promoted));
    DecreaseIsExact(c, p, addr, AccountSlots(a));
    TotalsAccount(c, p, DropAccount(p, addr, nonce), addr, Emptied(a, nonce));
  }

  lemma PruneHolesTotals(c: Config, p: Pool, addr: Address)
    requires ValidConfig(c) && Totals(c, p) && JobsOk(p) && addr in p.accounts
    ensures Totals(c, PruneHoles(p, addr))
  {
    var a := p.accounts[addr];
    var q := PruneHoles(p, addr);
    if a.enqueued != map[] && Lowest(a.enqueued) != a.nextNonce {
      QueueSlotsNonNegative(a.enqueued);
      QueueSlotsNonNegative(a.promoted);
      DecreaseIsExact(c, p, addr, SlotsIn(a.enqueued));
      TotalsAccount(c, p, q, addr, q.accounts[addr]);
    }
  }

  lemma PromoteTotals(c: Config, p: Pool, addr: Address, job: nat, more: bool)
    requires Totals(c, p) && addr in p.accounts && WellFormed(p.accounts[addr], addr) && job !in p.jobs
    ensures Totals(c, HandlePromote(p, addr, job, more))
  {
    var q := HandlePromote(p, addr, job, more);
    PromoteMeasures(p.accounts[addr], addr);
    TotalsHandOver(c, p, q, addr, q.accounts[addr], job, q.jobs[job]);
  }

  lemma ResetTotals(c: Config, p: Pool, job: nat, addr: Address)
    requires Totals(c, p) && AccountsOk(p) && job in p.jobs && addr in p.jobs[job].todo
    ensures Totals(c, ResetAccount(p, job, addr))
  {
    var q := ResetAccount(p, job, addr);
    if addr in p.accounts {
      PruneMeasures(p.accounts[addr], addr, p.jobs[job].todo[addr]);
      TotalsHandOver(c, p, q, addr, q.accounts[addr], job, q.jobs[job]);
    } else {
      JobSums(p.jobs, job, q.jobs[job]);
    }
  }

  /** An accepted transaction fits: the 64-bit sum is the true sum. */
  lemma AcceptedFits(c: Config, p: Pool, tx: Tx)
    requires ValidConfig(c) && 0 <= p.gauge <= c.maxSlots && tx.size <= TX_MAX_SIZE
    requires tx.from in p.accounts && AddVerdict(c, p, tx) == Added
    ensures p.gauge + Slots(tx) - SlotsFreed(p.accounts[tx.from], tx) <= c.maxSlots
  {
  }

  lemma InitTotals(c: Config, p: Pool, addr: Address, nonce: nat)
    requires Totals(c, p)
    ensures Totals(c, InitOnce(p, addr, nonce))
  {
    if addr !in p.accounts {
      NewAccountSums(p.accounts, addr, nonce);
    }
  }

  lemma AddTotals(c: Config, p: Pool, tx: Tx)
    requires ValidConfig(c) && Totals(c, p) && JobsOk(p) && Enabled(c, p, Add(tx))
    requires WellFormed(p.accounts[tx.from], tx.from)
    ensures Totals(c, AddTx(c, p, tx))
  {
    var a := p.accounts[tx.from];
    var q := AddTx(c, p, tx);
    if AddVerdict(c, p, tx) == Added {
      InsertMeasures(a, tx.from, tx);
      AcceptedFits(c, p, tx);
      AccountSlotsNonNegative(q.accounts[tx.from]);
      if Slots(tx) < SlotsFreed(a, tx) { DecreaseIsExact(c, p, tx.from, SlotsFreed(a, tx) - Slots(tx)); }
      TotalsAccount(c, p, q, tx.from, q.accounts[tx.from]);
    }
  }

  lemma SettleGaugeTotals(c: Config, p: Pool, job: nat)
    requires ValidConfig(c) && Totals(c, p) && JobsOk(p) && job in p.jobs
    ensures Totals(c, Do(c, p, SettleGauge(job)))
  {
    JobSums(p.jobs, job, p.jobs[job].(uncharge := 0));
    assert JobOk(p, p.jobs[job]);
    RemainingJobs(c, p, job);
    AccountSumNonNegative(p.accounts);
  }

  lemma FinishTotals(c: Config, p: Pool, job: nat)
    requires Totals(c, p) && job in p.jobs && Settled(p.jobs[job])
    ensures Totals(c, Do(c, p, FinishJob(job)))
  {
    SumRemove(p.jobs, Uncharged, job);
    SumRemove(p.jobs, Delta, job);
  }

  lemma JobTotals(c: Config, p: Pool, q: Pool, job: nat, j: Job)
    requires Totals(c, p) && q.accounts == p.accounts && q.gauge == p.gauge && q.jobs == p.jobs[job := j]
    requires j.uncharge == (if job in p.jobs then p.jobs[job].uncharge else 0)
    requires q.pending + j.pendingDelta == p.pending + (if job in p.jobs then p.jobs[job].pendingDelta else 0)
    ensures Totals(c, q)
  {
    JobSums(p.jobs, job, j);
  }

  lemma RemainingJobs(c: Config, p: Pool, job: nat)
    requires JobsOk(p) && job in p.jobs
    ensures Sum(p.jobs, Uncharged) - p.jobs[job].uncharge >= 0
  {
    SumRemove(p.jobs, Uncharged, job);
    var rest := p.jobs - {job};
    forall j | j in rest ensures Uncharged(rest[j]) >= 0 { assert JobOk(p, p.jobs[j]); }
    SumNonNegative(rest, Uncharged);
  }

  // The accounts, the nonces and the promotion requests.

  ghost predicate Structure(p: Pool) { AccountsOk(p) && NoncesOk(p) && RequestsOk(p) && StateOk(p) }

  ghost predicate RequestOk(p: Pool, addr: Address, a: AccountState) {
    a.nextNonce in a.enqueued ==> addr in p.requests
  }

  lemma StructureAccount(p: Pool, q: Pool, addr: Address, a: AccountState)
    requires Structure(p) && q.accounts == p.accounts[addr := a] && q.stateNonce == p.stateNonce
    requires WellFormed(a, addr) && BelowMax(a) && RequestOk(q, addr, a)
    requires forall b :: b in p.requests && b != addr ==> b in q.requests
    ensures Structure(q)
  {
    forall b | b in q.accounts && q.accounts[b].nextNonce in q.accounts[b].enqueued ensures b in q.requests {
      if b != addr { assert b in p.requests; }
    }
  }

  lemma AddStructure(c: Config, p: Pool, tx: Tx)
    requires Structure(p) && Enabled(c, p, Add(tx))
    ensures Structure(AddTx(c, p, tx))
  {
    var a := p.accounts[tx.from];
    assert WellFormed(a, tx.from) && BelowMax(a) && RequestOk(p, tx.from, a);
    if AddVerdict(c, p, tx) == Added {
      var q := AddTx(c, p, tx);
      InsertKeepsWellFormed(a, tx.from, tx);
      StructureAccount(p, q, tx.from, Insert(a, tx, tx.nonce in a.nonceToTx));
    }
  }

  lemma PromoteStructure(p: Pool, addr: Address, job: nat, more: bool)
    requires Structure(p) && addr in p.accounts && addr in p.requests
    ensures Structure(HandlePromote(p, addr, job, more))
  {
    var a := p.accounts[addr];
    assert WellFormed(a, addr) && BelowMax(a);
    var end := RunEnd(a.enqueued, a.nextNonce);
    assert end > a.nextNonce ==> end - 1 in a.enqueued && end - 1 in a.nonceToTx;
    PromoteKeepsWellFormed(a, addr);
    StructureAccount(p, HandlePromote(p, addr, job, more), addr, PromoteRun(a));
  }

  lemma PopStructure(p: Pool, tx: Tx)
    requires Structure(p) && tx.from in p.accounts && IsHead(p.accounts[tx.from], tx)
    ensures Structure(Pop(p, tx))
  {
    var a := p.accounts[tx.from];
    assert WellFormed(a, tx.from) && BelowMax(a) && RequestOk(p, tx.from, a);
    PopKeepsWellFormed(a, tx.from);
    assert Lowest(a.promoted) == tx.nonce;
    StructureAccount(p, Pop(p, tx), tx.from, AfterPop(a, tx));
  }

  lemma DropStructure(p: Pool, addr: Address, nonce: nat)
    requires Structure(p) && addr in p.accounts && nonce < TWO64
    ensures Structure(DropAccount(p, addr, nonce))
  {
    StructureAccount(p, DropAccount(p, addr, nonce), addr, Emptied(p.accounts[addr], nonce));
  }

  lemma PruneHolesStructure(p: Pool, addr: Address)
    requires Structure(p) && addr in p.accounts
    ensures Structure(PruneHoles(p, addr))
  {
    var a := p.accounts[addr];
    assert WellFormed(a, addr) && BelowMax(a);
    if a.enqueued != map[] && Lowest(a.enqueued) != a.nextNonce {
      StructureAccount(p, PruneHoles(p, addr), addr, a.(enqueued := map[], nonceToTx := a.nonceToTx - a.enqueued.Keys));
    }
  }

  lemma ResetStructure(c: Config, p: Pool, job: nat, addr: Address)
    requires Structure(p) && JobsOk(p) && job in p.jobs && addr in p.jobs[job].todo
    ensures Structure(ResetAccount(p, job, addr))
  {
    assert JobOk(p, p.jobs[job]);
    var nonce := p.jobs[job].todo[addr];
    if addr in p.accounts {
      var a := p.accounts[addr];
      assert WellFormed(a, addr) && BelowMax(a) && RequestOk(p, addr, a);
      PruneKeepsWellFormed(a, addr, nonce);
      StructureAccount(p, ResetAccount(p, job, addr), addr, PruneBelow(a, nonce).(demotions := 0));
    }
  }
}

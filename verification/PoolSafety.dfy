/** The hash index and the unfinished jobs, and the theorem over all runs of the pool. */
module PoolSafety {
  import opened Transactions
  import opened AccountQueues
  import opened PoolAccounts
  import opened PoolModel
  import opened PoolInvariant
  import opened Sums

  /** `q` queues nothing that `p` does not. */
  ghost predicate Shrinks(a: AccountState, b: AccountState) {
    forall n :: n in b.nonceToTx ==> n in a.nonceToTx && b.nonceToTx[n] == a.nonceToTx[n]
  }

  /** The charges and the nonces of the jobs are not touched, or one sound job is added. */
  lemma JobsSame(p: Pool, q: Pool)
    requires JobsOk(p) && q.stateNonce == p.stateNonce
    requires forall j :: j in q.jobs ==> (j in p.jobs && q.jobs[j] == p.jobs[j]) || JobOk(q, q.jobs[j])
    ensures JobsOk(q)
  {
    forall j | j in q.jobs ensures JobOk(q, q.jobs[j]) {
      if j in p.jobs && q.jobs[j] == p.jobs[j] { assert JobOk(p, p.jobs[j]); }
    }
  }

  /** Clean-up stays sound when an account only loses transactions or gains one that no job has. */
  lemma CleanupAccount(c: Config, p: Pool, q: Pool, addr: Address, a: AccountState)
    requires CleanupOk(c, p) && q.accounts == p.accounts[addr := a]
    requires forall j, t :: j in q.jobs && t in q.jobs[j].unindex ==>
             (j in p.jobs && t in p.jobs[j].unindex) || Cleared(c, q, t)
    requires forall j, t :: j in p.jobs && t in p.jobs[j].unindex && t.from == addr && t.nonce in a.nonceToTx ==>
               (addr in p.accounts && t.nonce in p.accounts[addr].nonceToTx
                 && p.accounts[addr].nonceToTx[t.nonce] == a.nonceToTx[t.nonce])
               || a.nonceToTx[t.nonce] != t
    ensures CleanupOk(c, q)
  {
    forall j, t | j in q.jobs && t in q.jobs[j].unindex ensures Cleared(c, q, t) {
      if j in p.jobs && t in p.jobs[j].unindex { assert Cleared(c, p, t); }
    }
  }

  ghost predicate KeepsTodo(p: Pool, q: Pool) {
    forall j :: j in p.jobs ==> j in q.jobs && p.jobs[j].todo.Keys <= q.jobs[j].todo.Keys
                                && forall a :: a in p.jobs[j].todo ==> q.jobs[j].todo[a] == p.jobs[j].todo[a]
  }

  lemma MinedKept(p: Pool, q: Pool, t: Tx)
    requires KeepsTodo(p, q) && MinedPending(p, t)
    ensures MinedPending(q, t)
  {
    var j :| j in p.jobs && Mined(p.jobs[j], t);
    assert Mined(q.jobs[j], t);
  }

  /** One account changes and hashes leave the index; none of them belongs to a transaction that stays queued. */
  lemma IndexAccount(c: Config, p: Pool, q: Pool, addr: Address, a: AccountState)
    requires IndexOk(c, p) && KeepsTodo(p, q) && q.accounts == p.accounts[addr := a]
    requires forall n :: n in a.nonceToTx ==> Traced(c, q, a.nonceToTx[n])
    requires forall b, n :: b in p.accounts && b != addr && n in p.accounts[b].nonceToTx ==>
      Indexed(p, p.accounts[b].nonceToTx[n]) ==> Indexed(q, p.accounts[b].nonceToTx[n])
    ensures IndexOk(c, q)
  {
    forall b, n | b in q.accounts && n in q.accounts[b].nonceToTx ensures Traced(c, q, q.accounts[b].nonceToTx[n])
    {
      if b != addr {
        var t := p.accounts[b].nonceToTx[n];
        if !Indexed(p, t) { MinedKept(p, q, t); }
      }
    }
  }

  /** A hash that leaves the index belongs to another transaction. */
  lemma StaysIndexed(c: Config, p: Pool, q: Pool, t: Tx, txs: set<Tx>)
    requires Indexed(p, t) && c.preimage(t.hash) == t && t !in txs
    requires forall u :: u in txs ==> c.preimage(u.hash) == u
    requires q.index == p.index - HashesOf(txs)
    ensures Indexed(q, t)
  {
  }

  /** Adding a new hash and removing the replaced one leaves every other transaction indexed. */
  lemma AddKeepsIndexed(c: Config, p: Pool, tx: Tx, t: Tx)
    requires tx.from in p.accounts && AddVerdict(c, p, tx) == Added && Indexed(p, t) && c.preimage(t.hash) == t
    requires tx.nonce in p.accounts[tx.from].nonceToTx ==>
               var replaced := p.accounts[tx.from].nonceToTx[tx.nonce];
               t != replaced && c.preimage(replaced.hash) == replaced
    ensures Indexed(AddTx(c, p, tx), t)
  {
    assert t.hash != tx.hash;
  }

  lemma NewIsIndexed(c: Config, p: Pool, tx: Tx)
    requires tx.from in p.accounts && AddVerdict(c, p, tx) == Added
    ensures Indexed(AddTx(c, p, tx), tx)
  {
  }

  lemma AddIndex(c: Config, p: Pool, tx: Tx)
    requires IndexOk(c, p) && AccountsOk(p) && Enabled(c, p, Add(tx)) && AddVerdict(c, p, tx) == Added
    ensures IndexOk(c, AddTx(c, p, tx))
  {
    var q := AddTx(c, p, tx);
    NewIsIndexed(c, p, tx);
    forall d, n | d in q.accounts && n in q.accounts[d].nonceToTx ensures Traced(c, q, q.accounts[d].nonceToTx[n]) {
      if d != tx.from || n != tx.nonce { AddKeepsTraced(c, p, tx, d, n); }
    }
  }

  lemma AddKeepsTraced(c: Config, p: Pool, tx: Tx, d: Address, n: nat)
    requires IndexOk(c, p) && AccountsOk(p) && tx.from in p.accounts && AddVerdict(c, p, tx) == Added
    requires d in p.accounts && n in p.accounts[d].nonceToTx && (d != tx.from || n != tx.nonce)
    ensures Traced(c, AddTx(c, p, tx), p.accounts[d].nonceToTx[n])
  {
    var t := p.accounts[d].nonceToTx[n];
    QueuedFields(p, d, n);
    if tx.nonce in p.accounts[tx.from].nonceToTx { QueuedFields(p, tx.from, tx.nonce); }
    if Indexed(p, t) { AddKeepsIndexed(c, p, tx, t); } else { MinedKept(p, AddTx(c, p, tx), t); }
  }

  lemma QueuedFields(p: Pool, d: Address, n: nat)
    requires AccountsOk(p) && d in p.accounts && n in p.accounts[d].nonceToTx
    ensures p.accounts[d].nonceToTx[n].from == d && p.accounts[d].nonceToTx[n].nonce == n
  {
    assert WellFormed(p.accounts[d], d);
  }

  lemma AddBook(c: Config, p: Pool, tx: Tx)
    requires Book(c, p) && AccountsOk(p) && Enabled(c, p, Add(tx)) && Fresh(p, tx)
    ensures Book(c, AddTx(c, p, tx))
  {
    if AddVerdict(c, p, tx) == Added {
      AddIndex(c, p, tx);
      var a := p.accounts[tx.from];
      assert WellFormed(a, tx.from);
      CleanupAccount(c, p, AddTx(c, p, tx), tx.from, Insert(a, tx, tx.nonce in a.nonceToTx));
    }
  }

  /** The account of `addr` loses some transactions, whose hashes may leave the index. */
  lemma ShrinkIndex(c: Config, p: Pool, q: Pool, addr: Address, a: AccountState, gone: set<Tx>)
    requires IndexOk(c, p) && AccountsOk(p) && KeepsTodo(p, q) && addr in p.accounts
    requires q.accounts == p.accounts[addr := a]
    requires Shrinks(p.accounts[addr], a) && q.index == p.index - HashesOf(gone)
    requires forall t :: t in gone ==>
             t.from == addr && t.nonce in p.accounts[addr].nonceToTx && p.accounts[addr].nonceToTx[t.nonce] == t
    requires forall t :: t in gone ==> t.nonce !in a.nonceToTx
    ensures IndexOk(c, q)
  {
    var was := p.accounts[addr];
    assert WellFormed(was, addr);
    forall t | t in gone ensures c.preimage(t.hash) == t { assert was.nonceToTx[t.nonce] == t; }
    forall n | n in a.nonceToTx ensures Traced(c, q, a.nonceToTx[n])
    {
      var t := was.nonceToTx[n];
      assert t.nonce == n && t !in gone;
      if Indexed(p, t) { StaysIndexed(c, p, q, t, gone); } else { MinedKept(p, q, t); }
    }
    forall d, n | d in p.accounts && d != addr && n in p.accounts[d].nonceToTx && Indexed(p, p.accounts[d].nonceToTx[n])
      ensures Indexed(q, p.accounts[d].nonceToTx[n])
    {
      assert WellFormed(p.accounts[d], d);
      StaysIndexed(c, p, q, p.accounts[d].nonceToTx[n], gone);
    }
    IndexAccount(c, p, q, addr, a);
  }

  lemma ShrinkBook(c: Config, p: Pool, q: Pool, addr: Address, a: AccountState, gone: set<Tx>)
    requires Book(c, p) && AccountsOk(p) && addr in p.accounts && q.accounts == p.accounts[addr := a]
    requires q.jobs == p.jobs
    requires Shrinks(p.accounts[addr], a) && q.index == p.index - HashesOf(gone)
    requires forall t :: t in gone ==>
             t.from == addr && t.nonce in p.accounts[addr].nonceToTx && p.accounts[addr].nonceToTx[t.nonce] == t
    requires forall t :: t in gone ==> t.nonce !in a.nonceToTx
    ensures Book(c, q)
  {
    ShrinkIndex(c, p, q, addr, a, gone);
    CleanupAccount(c, p, q, addr, a);
  }

  lemma DropBook(c: Config, p: Pool, addr: Address, nonce: nat)
    requires Book(c, p) && AccountsOk(p) && addr in p.accounts
    ensures Book(c, DropAccount(p, addr, nonce))
  {
    var a := p.accounts[addr];
    assert WellFormed(a, addr);
    var gone := a.promoted.Values + a.enqueued.Values;
    assert p.index - HashesOf(a.promoted.Values) - HashesOf(a.enqueued.Values) == p.index - HashesOf(gone) by {
      assert HashesOf(gone) == HashesOf(a.promoted.Values) + HashesOf(a.enqueued.Values);
    }
    ShrinkBook(c, p, DropAccount(p, addr, nonce), addr, Emptied(a, nonce), gone);
  }

  lemma PruneHolesBook(c: Config, p: Pool, addr: Address)
    requires Book(c, p) && AccountsOk(p) && addr in p.accounts
    ensures Book(c, PruneHoles(p, addr))
  {
    var a := p.accounts[addr];
    assert WellFormed(a, addr);
    if a.enqueued != map[] && Lowest(a.enqueued) != a.nextNonce {
      ShrinkBook(c, p, PruneHoles(p, addr), addr, a.(enqueued := map[], nonceToTx := a.nonceToTx - a.enqueued.Keys),
        a.enqueued.Values);
    }
  }

  lemma PopBook(c: Config, p: Pool, tx: Tx)
    requires Book(c, p) && AccountsOk(p) && tx.from in p.accounts
    ensures Book(c, Pop(p, tx))
  {
    assert p.index - HashesOf({}) == p.index;
    ShrinkBook(c, p, Pop(p, tx), tx.from, AfterPop(p.accounts[tx.from], tx), {});
  }

  lemma PromoteBook(c: Config, p: Pool, addr: Address, job: nat, more: bool)
    requires Book(c, p) && AccountsOk(p) && addr in p.accounts && job !in p.jobs
    ensures Book(c, HandlePromote(p, addr, job, more))
  {
    var q := HandlePromote(p, addr, job, more);
    assert p.index - HashesOf({}) == p.index;
    ShrinkIndex(c, p, q, addr, PromoteRun(p.accounts[addr]), {});
    CleanupAccount(c, p, q, addr, PromoteRun(p.accounts[addr]));
  }

  lemma InitBook(c: Config, p: Pool, addr: Address, nonce: nat)
    requires Book(c, p)
    ensures Book(c, InitOnce(p, addr, nonce))
  {
    var q := InitOnce(p, addr, nonce);
    if addr !in p.accounts {
      IndexAccount(c, p, q, addr, NewAccount(nonce));
      CleanupAccount(c, p, q, addr, NewAccount(nonce));
    }
  }

  lemma PruneShrinks(a: AccountState, owner: Address, nonce: nat)
    requires WellFormed(a, owner)
    ensures Shrinks(a, PruneBelow(a, nonce)) && forall n :: n in PruneBelow(a, nonce).nonceToTx ==> n >= nonce
  {
  }

  /** What a reset prunes is no longer queued. */
  lemma PrunedIsCleared(c: Config, p: Pool, q: Pool, addr: Address, nonce: nat, t: Tx)
    requires IndexOk(c, p) && addr in p.accounts && addr in q.accounts && WellFormed(p.accounts[addr], addr)
    requires forall n :: n in q.accounts[addr].nonceToTx ==> n >= nonce
    requires t in Below(p.accounts[addr].promoted, nonce).Values || t in PrunedEnqueued(p.accounts[addr], nonce).Values
    ensures Cleared(c, q, t)
  {
    PrunedFields(p.accounts[addr], addr, nonce, t);
    assert Traced(c, p, p.accounts[addr].nonceToTx[t.nonce]);
  }

  lemma PrunedSlots(a: AccountState, nonce: nat)
    ensures SlotsIn(Below(a.promoted, nonce)) + SlotsIn(PrunedEnqueued(a, nonce)) >= 0
  {
    QueueSlotsNonNegative(Below(a.promoted, nonce));
    QueueSlotsNonNegative(PrunedEnqueued(a, nonce));
  }

  lemma PrunedFields(a: AccountState, addr: Address, nonce: nat, t: Tx)
    requires WellFormed(a, addr) && (t in Below(a.promoted, nonce).Values || t in PrunedEnqueued(a, nonce).Values)
    ensures t.from == addr && t.nonce < nonce && t.nonce in a.nonceToTx && a.nonceToTx[t.nonce] == t
  {
  }

  lemma ResetShape(p: Pool, q: Pool, job: nat, addr: Address)
    requires job in p.jobs && addr in p.jobs[job].todo && q == ResetAccount(p, job, addr)
    ensures q.index == p.index && q.accounts.Keys == p.accounts.Keys && q.jobs.Keys == p.jobs.Keys
    ensures forall j :: j in p.jobs && j != job ==> q.jobs[j] == p.jobs[j]
    ensures q.jobs[job].todo == p.jobs[job].todo - {addr}
    ensures forall d :: d in p.accounts && d != addr ==> q.accounts[d] == p.accounts[d]
    ensures addr in p.accounts ==>
            q.accounts[addr].nonceToTx == PruneBelow(p.accounts[addr], p.jobs[job].todo[addr]).nonceToTx
  {
  }

  lemma ResetIndex(c: Config, p: Pool, q: Pool, job: nat, addr: Address)
    requires IndexOk(c, p) && AccountsOk(p) && job in p.jobs && addr in p.jobs[job].todo
    requires q == ResetAccount(p, job, addr)
    ensures IndexOk(c, q)
  {
    ResetShape(p, q, job, addr);
    if addr in p.accounts {
      assert WellFormed(p.accounts[addr], addr);
      PruneShrinks(p.accounts[addr], addr, p.jobs[job].todo[addr]);
    }
    forall d, n | d in q.accounts && n in q.accounts[d].nonceToTx ensures Traced(c, q, q.accounts[d].nonceToTx[n]) {
      QueuedFields(p, d, n);
      ResetKeepsTraced(c, p, q, job, addr, p.accounts[d].nonceToTx[n]);
    }
  }

  /**
   A transaction of another sender, or one that the reset spares, stays traced when `addr` leaves the list of the job.
   */
  lemma ResetKeepsTraced(c: Config, p: Pool, q: Pool, job: nat, addr: Address, t: Tx)
    requires Traced(c, p, t) && job in p.jobs && addr in p.jobs[job].todo
    requires q.index == p.index && q.jobs.Keys == p.jobs.Keys
    requires forall j :: j in p.jobs && j != job ==> q.jobs[j] == p.jobs[j]
    requires q.jobs[job].todo == p.jobs[job].todo - {addr}
    requires t.from == addr ==> t.nonce >= p.jobs[job].todo[addr]
    ensures Traced(c, q, t)
  {
    if !Indexed(p, t) {
      var j :| j in p.jobs && Mined(p.jobs[j], t);
      assert Mined(q.jobs[j], t);
    }
  }

  lemma ResetCleanup(c: Config, p: Pool, job: nat, addr: Address)
    requires Book(c, p) && AccountsOk(p) && job in p.jobs && addr in p.jobs[job].todo && addr in p.accounts
    ensures CleanupOk(c, ResetAccount(p, job, addr))
  {
    var q := ResetAccount(p, job, addr);
    var nonce := p.jobs[job].todo[addr];
    assert WellFormed(p.accounts[addr], addr);
    PruneShrinks(p.accounts[addr], addr, nonce);
    forall j, t | j in q.jobs && t in q.jobs[j].unindex && !(j in p.jobs && t in p.jobs[j].unindex)
      ensures Cleared(c, q, t)
    {
      PrunedIsCleared(c, p, q, addr, nonce, t);
    }
    CleanupAccount(c, p, q, addr, q.accounts[addr]);
  }

  lemma ResetBook(c: Config, p: Pool, job: nat, addr: Address)
    requires Book(c, p) && AccountsOk(p) && job in p.jobs && addr in p.jobs[job].todo
    ensures Book(c, ResetAccount(p, job, addr))
  {
    var q := ResetAccount(p, job, addr);
    ResetIndex(c, p, q, job, addr);
    if addr in p.accounts { ResetCleanup(c, p, job, addr); } else { CleanupSame(c, p, q); }
  }

  lemma CleanupSame(c: Config, p: Pool, q: Pool)
    requires CleanupOk(c, p) && q.accounts == p.accounts
    requires forall j, t :: j in q.jobs && t in q.jobs[j].unindex ==> j in p.jobs && t in p.jobs[j].unindex
    ensures CleanupOk(c, q)
  {
    forall j, t | j in q.jobs && t in q.jobs[j].unindex ensures Cleared(c, q, t) { assert Cleared(c, p, t); }
  }

  /** Steps that change no account: hashes leave the index and one job changes. */
  lemma BookJob(c: Config, p: Pool, q: Pool, job: nat, gone: set<Tx>)
    requires Book(c, p) && AccountsOk(p) && q.accounts == p.accounts
    requires q.jobs.Keys == p.jobs.Keys + {job} && forall j :: j in p.jobs && j != job ==> q.jobs[j] == p.jobs[j]
    requires q.jobs[job].unindex <= (if job in p.jobs then p.jobs[job].unindex else {}) && KeepsTodo(p, q)
    requires q.index == p.index - HashesOf(gone)
    requires forall t :: t in gone ==> c.preimage(t.hash) == t && (MinedPending(q, t) || !Queued(p, t))
    ensures Book(c, q)
  {
    forall d, n | d in q.accounts && n in q.accounts[d].nonceToTx ensures Traced(c, q, q.accounts[d].nonceToTx[n]) {
      var t := p.accounts[d].nonceToTx[n];
      assert Traced(c, p, t);
      QueuedFields(p, d, n);
      if !Indexed(p, t) {
        MinedKept(p, q, t);
      } else if t !in gone {
        StaysIndexed(c, p, q, t, gone);
      }
    }
    CleanupSame(c, p, q);
  }

  lemma SettleIndexBook(c: Config, p: Pool, job: nat)
    requires Book(c, p) && AccountsOk(p) && job in p.jobs
    ensures Book(c, Do(c, p, SettleIndex(job)))
  {
    forall t | t in p.jobs[job].unindex ensures c.preimage(t.hash) == t && !Queued(p, t) { assert Cleared(c, p, t); }
    BookJob(c, p, Do(c, p, SettleIndex(job)), job, p.jobs[job].unindex);
  }

  lemma IndexBlockBook(c: Config, p: Pool, job: nat, txs: set<Tx>, nonces: map<Address, nat>)
    requires Book(c, p) && AccountsOk(p) && Enabled(c, p, IndexBlockStep(job, txs, nonces))
    ensures Book(c, IndexBlock(p, job, txs, nonces))
  {
    var q := IndexBlock(p, job, txs, nonces);
    forall t | t in txs ensures c.preimage(t.hash) == t && MinedPending(q, t) { assert Mined(q.jobs[job], t); }
    BookJob(c, p, q, job, txs);
  }

  lemma OtherJobBook(c: Config, p: Pool, s: Step)
    requires Book(c, p) && AccountsOk(p) && Enabled(c, p, s) && (s.BeginEvent? || s.SettleGauge? || s.SettlePending?)
    ensures Book(c, Do(c, p, s))
  {
    assert p.index - HashesOf({}) == p.index;
    BookJob(c, p, Do(c, p, s), s.job, {});
  }

  lemma FinishBook(c: Config, p: Pool, job: nat)
    requires Book(c, p) && job in p.jobs && Settled(p.jobs[job])
    ensures Book(c, Do(c, p, FinishJob(job)))
  {
    var q := Do(c, p, FinishJob(job));
    forall d, n | d in q.accounts && n in q.accounts[d].nonceToTx ensures Traced(c, q, q.accounts[d].nonceToTx[n]) {
      var t := p.accounts[d].nonceToTx[n];
      assert Traced(c, p, t);
      if !Indexed(p, t) {
        var j :| j in p.jobs && Mined(p.jobs[j], t);
        assert j in q.jobs;
      }
    }
    CleanupSame(c, p, q);
  }

  /** The state nonces and the base fee do not matter to the index. */
  lemma SameBook(c: Config, p: Pool, q: Pool)
    requires Book(c, p) && q.accounts == p.accounts && q.index == p.index && q.jobs == p.jobs
    ensures Book(c, q)
  {
    forall d, n | d in q.accounts && n in q.accounts[d].nonceToTx ensures Traced(c, q, q.accounts[d].nonceToTx[n]) {
      var t := p.accounts[d].nonceToTx[n];
      assert Traced(c, p, t);
      if !Indexed(p, t) { MinedKept(p, q, t); }
    }
    CleanupSame(c, p, q);
  }

  // All together.

  lemma StepKeepsTotals(c: Config, p: Pool, s: Step)
    requires ValidConfig(c) && Totals(c, p) && AccountsOk(p) && JobsOk(p) && Enabled(c, p, s)
    ensures Totals(c, Do(c, p, s))
  {
    hide InitOnce, AddTx, HandlePromote, Pop, DropAccount, SetDemotions, PruneHoles, ResetAccount, IndexBlock, Totals;
    match s
    case InitStep(addr, nonce) => InitTotals(c, p, addr, nonce);
    case Add(tx) => AddTotals(c, p, tx);
    case PromoteStep(addr, job, more) => PromoteTotals(c, p, addr, job, more);
    case PopStep(tx) => PopTotals(c, p, tx);
    case DropStep(addr, nonce) => DropTotals(c, p, addr, nonce);
    case DemotionsStep(addr, demotions) => DemotionsTotals(c, p, addr, demotions);
    case PruneHolesStep(addr) => PruneHolesTotals(c, p, addr);
    case ResetStep(job, addr) => ResetTotals(c, p, job, addr);
    case SettleGauge(job) => SettleGaugeTotals(c, p, job);
    case FinishJob(job) => FinishTotals(c, p, job);
    case _ => OtherTotals(c, p, s);
  }

  lemma OtherTotals(c: Config, p: Pool, s: Step)
    requires Totals(c, p) && Enabled(c, p, s)
    requires || s.AdvanceState? || s.SetBaseFee? || s.BeginEvent? || s.IndexBlockStep? || s.SettleIndex?
             || s.SettlePending?
    ensures Totals(c, Do(c, p, s))
  {
    if !s.AdvanceState? && !s.SetBaseFee? {
      var q := Do(c, p, s);
      JobTotals(c, p, q, s.job, q.jobs[s.job]);
    }
  }

  lemma DemotionsTotals(c: Config, p: Pool, addr: Address, demotions: nat)
    requires Totals(c, p) && JobsOk(p) && addr in p.accounts
    ensures Totals(c, SetDemotions(p, addr, demotions))
  {
    TotalsAccount(c, p, SetDemotions(p, addr, demotions), addr, p.accounts[addr].(demotions := demotions));
  }

  lemma DemotionsStructure(p: Pool, addr: Address, demotions: nat)
    requires Structure(p) && addr in p.accounts
    ensures Structure(SetDemotions(p, addr, demotions))
  {
    var a := p.accounts[addr];
    assert WellFormed(a, addr) && BelowMax(a) && RequestOk(p, addr, a);
    StructureAccount(p, SetDemotions(p, addr, demotions), addr, a.(demotions := demotions));
  }

  lemma DemotionsBook(c: Config, p: Pool, addr: Address, demotions: nat)
    requires Book(c, p) && AccountsOk(p) && addr in p.accounts
    ensures Book(c, SetDemotions(p, addr, demotions))
  {
    assert p.index - HashesOf({}) == p.index;
    ShrinkBook(c, p, SetDemotions(p, addr, demotions), addr, p.accounts[addr].(demotions := demotions), {});
  }

  lemma StepKeepsStructure(c: Config, p: Pool, s: Step)
    requires Structure(p) && JobsOk(p) && Enabled(c, p, s)
    ensures Structure(Do(c, p, s))
  {
    assert StateOk(p);
    hide InitOnce, AddTx, HandlePromote, Pop, DropAccount, SetDemotions, PruneHoles, ResetAccount, Structure, StateOk;
    match s
    case InitStep(addr, nonce) => InitStructure(c, p, addr, nonce);
    case Add(tx) => AddStructure(c, p, tx);
    case PromoteStep(addr, job, more) => PromoteStructure(p, addr, job, more);
    case PopStep(tx) => PopStructure(p, tx);
    case DropStep(addr, nonce) => DropStructure(p, addr, nonce);
    case DemotionsStep(addr, demotions) => DemotionsStructure(p, addr, demotions);
    case PruneHolesStep(addr) => PruneHolesStructure(p, addr);
    case ResetStep(job, addr) => ResetStructure(c, p, job, addr);
    case AdvanceState(addr, nonce) => AdvanceStructure(c, p, addr, nonce);
    case IndexBlockStep(job, txs, nonces) => StructureSame(p, IndexBlock(p, job, txs, nonces));
    case _ => StructureSame(p, Do(c, p, s));
  }

  lemma InitStructure(c: Config, p: Pool, addr: Address, nonce: nat)
    requires Structure(p) && Enabled(c, p, InitStep(addr, nonce))
    ensures Structure(InitOnce(p, addr, nonce))
  {
    if addr !in p.accounts { StructureAccount(p, InitOnce(p, addr, nonce), addr, NewAccount(nonce)); }
  }

  lemma AdvanceStructure(c: Config, p: Pool, addr: Address, nonce: nat)
    requires Structure(p) && Enabled(c, p, AdvanceState(addr, nonce))
    ensures Structure(p.(stateNonce := p.stateNonce[addr := nonce]))
  {
    StructureSame(p, p.(stateNonce := p.stateNonce[addr := nonce]));
  }

  lemma StructureSame(p: Pool, q: Pool)
    requires Structure(p) && q.accounts == p.accounts && q.requests == p.requests && StateOk(q)
    ensures Structure(q)
  {
  }

  lemma StepKeepsBook(c: Config, p: Pool, s: Step)
    requires Book(c, p) && AccountsOk(p) && Enabled(c, p, s) && FreshStep(p, s)
    ensures Book(c, Do(c, p, s))
  {
    hide InitOnce, AddTx, HandlePromote, Pop, DropAccount, SetDemotions, PruneHoles, ResetAccount, IndexBlock;
    hide IndexOk, CleanupOk;
    match s
    case InitStep(addr, nonce) => InitBook(c, p, addr, nonce);
    case Add(tx) => AddBook(c, p, tx);
    case PromoteStep(addr, job, more) => PromoteBook(c, p, addr, job, more);
    case PopStep(tx) => PopBook(c, p, tx);
    case DropStep(addr, nonce) => DropBook(c, p, addr, nonce);
    case DemotionsStep(addr, demotions) => DemotionsBook(c, p, addr, demotions);
    case PruneHolesStep(addr) => PruneHolesBook(c, p, addr);
    case AdvanceState(addr, nonce) => SameBook(c, p, Do(c, p, s));
    case SetBaseFee(fee) => SameBook(c, p, Do(c, p, s));
    case IndexBlockStep(job, txs, nonces) => IndexBlockBook(c, p, job, txs, nonces);
    case ResetStep(job, addr) => ResetBook(c, p, job, addr);
    case SettleIndex(job) => SettleIndexBook(c, p, job);
    case FinishJob(job) => FinishBook(c, p, job);
    case _ => OtherJobBook(c, p, s);
  }

  lemma ResetJobs(c: Config, p: Pool, job: nat, addr: Address)
    requires JobsOk(p) && AccountsOk(p) && Enabled(c, p, ResetStep(job, addr))
    ensures JobsOk(ResetAccount(p, job, addr))
  {
    assert JobOk(p, p.jobs[job]);
    if addr in p.accounts { PrunedSlots(p.accounts[addr], p.jobs[job].todo[addr]); }
    JobsSame(p, ResetAccount(p, job, addr));
  }

  lemma PromoteJobs(c: Config, p: Pool, addr: Address, job: nat, more: bool)
    requires JobsOk(p) && Enabled(c, p, PromoteStep(addr, job, more))
    ensures JobsOk(HandlePromote(p, addr, job, more))
  {
    JobsSame(p, HandlePromote(p, addr, job, more));
  }

  lemma SettleJobs(c: Config, p: Pool, s: Step)
    requires JobsOk(p) && Enabled(c, p, s)
    requires s.IndexBlockStep? || s.SettleIndex? || s.SettleGauge? || s.SettlePending?
    ensures JobsOk(Do(c, p, s))
  {
    assert JobOk(p, p.jobs[s.job]);
    JobsSame(p, Do(c, p, s));
  }

  /** The jobs never owe slots, and they reset accounts to nonces that the state has reached. */
  lemma StepKeepsJobs(c: Config, p: Pool, s: Step)
    requires JobsOk(p) && AccountsOk(p) && Enabled(c, p, s)
    ensures JobsOk(Do(c, p, s))
  {
    hide AddVerdict, Insert, Moved, HandlePromote, AfterPop, Emptied, ResetAccount, IndexBlock, AccountsOk;
    var q := Do(c, p, s);
    match s
    case PromoteStep(addr, job, more) => PromoteJobs(c, p, addr, job, more);
    case ResetStep(job, addr) => ResetJobs(c, p, job, addr);
    case AdvanceState(addr, nonce) =>
      forall j | j in q.jobs ensures JobOk(q, q.jobs[j]) { assert JobOk(p, p.jobs[j]); }
    case IndexBlockStep(_, _, _) => SettleJobs(c, p, s);
    case SettleIndex(_) => SettleJobs(c, p, s);
    case SettleGauge(_) => SettleJobs(c, p, s);
    case SettlePending(_) => SettleJobs(c, p, s);
    case _ => JobsSame(p, q);
  }

  /** Every step keeps the invariant, whatever state its transaction was validated against. */
  lemma StepKeepsInvariant(c: Config, p: Pool, s: Step)
    requires ValidConfig(c) && Inv(c, p) && Enabled(c, p, s)
    ensures Inv(c, Do(c, p, s))
  {
    StepKeepsTotals(c, p, s);
    StepKeepsStructure(c, p, s);
    StepKeepsJobs(c, p, s);
  }

  /** Every pool that any sequence of steps can reach satisfies the invariant. */
  lemma {:induction false} ReachablePoolsAreSound(c: Config, steps: seq<Step>, pools: seq<Pool>, i: nat)
    requires ValidConfig(c) && Run(c, steps, pools) && i < |pools|
    ensures Inv(c, pools[i])
  {
    if i > 0 {
      ReachablePoolsAreSound(c, steps, pools, i - 1);
      assert Leads(c, pools[i - 1], steps[i - 1], pools[i]);
      StepKeepsInvariant(c, pools[i - 1], steps[i - 1]);
    }
  }

  /** The index law holds throughout every run that adds no transaction which a job is still going to take out. */
  lemma {:induction false} FreshRunsKeepIndex(c: Config, steps: seq<Step>, pools: seq<Pool>, i: nat)
    requires ValidConfig(c) && Run(c, steps, pools) && i < |pools|
    requires forall k :: 0 <= k < i ==> FreshStep(pools[k], steps[k])
    ensures Book(c, pools[i])
  {
    if i > 0 {
      FreshRunsKeepIndex(c, steps, pools, i - 1);
      ReachablePoolsAreSound(c, steps, pools, i - 1);
      assert Leads(c, pools[i - 1], steps[i - 1], pools[i]);
      StepKeepsBook(c, pools[i - 1], steps[i - 1]);
    }
  }

  /** An accepted transaction keeps the index law if and only if no job is going to take it out of the index. */
  lemma AddKeepsBookExactly(c: Config, p: Pool, tx: Tx)
    requires Book(c, p) && AccountsOk(p) && Enabled(c, p, Add(tx)) && AddVerdict(c, p, tx) == Added
    ensures Book(c, AddTx(c, p, tx)) <==> Fresh(p, tx)
  {
    if Fresh(p, tx) {
      AddBook(c, p, tx);
    } else {
      var j :| j in p.jobs && tx in p.jobs[j].unindex;
      AddReplacesOnlyCheaper(c, p, tx);
      var q := AddTx(c, p, tx);
      assert j in q.jobs && tx in q.jobs[j].unindex && !Cleared(c, q, tx);
    }
  }

  /** An accepted transaction stays in the index, whichever job cleans up next, if and only if no job has it. */
  lemma AddedStaysIndexedExactly(c: Config, p: Pool, tx: Tx)
    requires Enabled(c, p, Add(tx)) && AddVerdict(c, p, tx) == Added
    requires forall j, t :: j in p.jobs && t in p.jobs[j].unindex ==> c.preimage(t.hash) == t
    ensures var q := AddTx(c, p, tx);
            (forall j :: j in q.jobs ==> Indexed(Do(c, q, SettleIndex(j)), tx)) <==> Fresh(p, tx)
  {
    var q := AddTx(c, p, tx);
    NewIsIndexed(c, p, tx);
    forall j | j in q.jobs ensures Indexed(Do(c, q, SettleIndex(j)), tx) <==> tx !in p.jobs[j].unindex {
      if tx !in p.jobs[j].unindex {
        StaysIndexed(c, q, Do(c, q, SettleIndex(j)), tx, p.jobs[j].unindex);
      }
    }
  }

  /**
   Between two bursts of activity the counters are exact: the gauge is the slots of the queued transactions and
   `pending` is the number of promoted ones. If the run was fresh, the index holds every queued transaction.
   */
  lemma PoolAtRest(c: Config, steps: seq<Step>, pools: seq<Pool>, i: nat)
    requires ValidConfig(c) && Run(c, steps, pools) && i < |pools| && pools[i].jobs == map[]
    ensures pools[i].gauge == Sum(pools[i].accounts, AccountSlots) <= c.maxSlots
    ensures pools[i].pending == Sum(pools[i].accounts, PromotedCount)
    ensures (forall k :: 0 <= k < i ==> FreshStep(pools[k], steps[k])) ==> AllIndexed(pools[i])
  {
    var p := pools[i];
    ReachablePoolsAreSound(c, steps, pools, i);
    if forall k :: 0 <= k < i ==> FreshStep(pools[k], steps[k]) {
      FreshRunsKeepIndex(c, steps, pools, i);
      forall a, n | a in p.accounts && n in p.accounts[a].nonceToTx ensures Indexed(p, p.accounts[a].nonceToTx[n]) {
        assert Traced(c, p, p.accounts[a].nonceToTx[n]);
      }
    }
  }

  ghost predicate AllIndexed(p: Pool) {
    forall a, n :: a in p.accounts && n in p.accounts[a].nonceToTx ==> Indexed(p, p.accounts[a].nonceToTx[n])
  }

  ghost predicate OtherPlace(t: Tx, u: Tx) { t.from != u.from || t.nonce != u.nonce }

  /**
   An accepted transaction takes the place of a strictly cheaper one, whose hash leaves the index, or a free nonce
   that the account has not passed.
   */
  lemma AddReplacesOnlyCheaper(c: Config, p: Pool, tx: Tx)
    requires AccountsOk(p) && IndexOk(c, p) && Enabled(c, p, Add(tx)) && AddVerdict(c, p, tx) == Added
    ensures var a, q := p.accounts[tx.from], AddTx(c, p, tx);
            && !Indexed(p, tx) && Queued(q, tx) && Indexed(q, tx)
            && (if tx.nonce in a.nonceToTx
                then GetGasPrice(a.nonceToTx[tx.nonce], p.baseFee) < GetGasPrice(tx, p.baseFee)
                     && !Indexed(q, a.nonceToTx[tx.nonce])
                else tx.nonce >= a.nextNonce && (|a.enqueued| != c.maxEnqueued || tx.nonce == a.nextNonce))
  {
    assert WellFormed(p.accounts[tx.from], tx.from);
    NewIsIndexed(c, p, tx);
  }

  /** Nothing else in the queues changes, and a rejected transaction changes nothing at all. */
  lemma AddKeepsQueued(c: Config, p: Pool, tx: Tx, t: Tx)
    requires Enabled(c, p, Add(tx))
    ensures AddVerdict(c, p, tx) != Added ==> AddTx(c, p, tx) == p
    ensures OtherPlace(t, tx) ==> (Queued(AddTx(c, p, tx), t) <==> Queued(p, t))
  {
    hide AddVerdict, Moved;
    if AddVerdict(c, p, tx) == Added {
      assert Insert(p.accounts[tx.from], tx, tx.nonce in p.accounts[tx.from].nonceToTx).nonceToTx
          == p.accounts[tx.from].nonceToTx[tx.nonce := tx];
    }
  }

  /** Of the queued transactions the index gains and loses no other. */
  lemma AddKeepsOthersIndexed(c: Config, p: Pool, tx: Tx, t: Tx)
    requires AccountsOk(p) && IndexOk(c, p) && Enabled(c, p, Add(tx)) && OtherPlace(t, tx) && Queued(p, t)
    ensures Indexed(AddTx(c, p, tx), t) <==> Indexed(p, t)
  {
    hide AccountsOk, IndexOk, AddVerdict, Moved, Insert;
    if AddVerdict(c, p, tx) == Added {
      TracedAt(c, p, t.from, t.nonce);
      if tx.nonce in p.accounts[tx.from].nonceToTx { TracedAt(c, p, tx.from, tx.nonce); }
      if Indexed(p, t) { AddKeepsIndexed(c, p, tx, t); }
    }
  }

  lemma TracedAt(c: Config, p: Pool, a: Address, n: nat)
    requires AccountsOk(p) && IndexOk(c, p) && a in p.accounts && n in p.accounts[a].nonceToTx
    ensures var t := p.accounts[a].nonceToTx[n]; c.preimage(t.hash) == t && t.from == a && t.nonce == n
  {
    assert Traced(c, p, p.accounts[a].nonceToTx[n]);
    QueuedFields(p, a, n);
  }

  /**
   `Pop` takes the head off the queue but charges the slots and the nonce of its argument. It keeps the account
   and the totals sound exactly when the argument has the nonce and the slots of the head.
   */
  lemma PopIsSoundExactlyForTheHead(c: Config, p: Pool, tx: Tx)
    requires ValidConfig(c) && Inv(c, p) && tx.from in p.accounts && Slots(tx) < TWO64
    ensures var promoted := p.accounts[tx.from].promoted;
            (WellFormed(Pop(p, tx).accounts[tx.from], tx.from) && Totals(c, Pop(p, tx)))
            <==> (promoted != map[] && tx.nonce == Lowest(promoted) && Slots(tx) == Slots(promoted[tx.nonce]))
  {
    var a, q := p.accounts[tx.from], Pop(p, tx);
    assert WellFormed(a, tx.from);
    if a.promoted == map[] {
      AccountSums(p.accounts, tx.from, AfterPop(a, tx));
      assert !PendingOk(q);
    } else {
      var head := a.promoted[Lowest(a.promoted)];
      if WellFormed(q.accounts[tx.from], tx.from) && Totals(c, q) { PopChargesTheHead(c, p, tx, head); }
      if tx.nonce == Lowest(a.promoted) && Slots(tx) == Slots(head) {
        PopTotals(c, p, head);
        PopKeepsWellFormed(a, tx.from);
      }
    }
  }

  lemma PopChargesTheHead(c: Config, p: Pool, tx: Tx, head: Tx)
    requires ValidConfig(c) && Inv(c, p) && tx.from in p.accounts && Slots(tx) < TWO64
    requires IsHead(p.accounts[tx.from], head)
    requires WellFormed(Pop(p, tx).accounts[tx.from], tx.from) && Totals(c, Pop(p, tx))
    ensures tx.nonce == head.nonce && Slots(tx) == Slots(head)
  {
    var a := p.accounts[tx.from];
    assert WellFormed(a, tx.from);
    PopsTheHead(a, tx, head);
    HeadIsCovered(a, head);
    PopMeasures(a, head);
    AccountSums(p.accounts, tx.from, AfterPop(a, tx));
    DecreaseIsExact(c, p, tx.from, Slots(head));
    SameDecrease(p.gauge, Slots(tx), Slots(head));
  }

  lemma PopsTheHead(a: AccountState, tx: Tx, head: Tx)
    requires WellFormed(a, tx.from) && IsHead(a, head) && WellFormed(AfterPop(a, tx), tx.from)
    ensures tx.nonce == head.nonce && AfterPop(a, tx) == AfterPop(a, head)
  {
    assert Lowest(a.promoted) == head.nonce;
    assert head.nonce in a.nonceToTx;
  }

  lemma SameDecrease(height: int, s: int, t: int)
    requires 0 <= s < TWO64 && 0 <= t <= height < TWO64 && Decrease(height, s) == height - t
    ensures s == t
  {
  }
}

/**
 The transaction pool (txpool/txpool.go) as a state machine. A step is one region that runs under
 the locks of an account, or one atomic update of the gauge, the index or the pending counter.
 Work that the source finishes after releasing the locks is kept in `jobs`.
 */
module PoolModel {
  import opened Transactions
  import opened AccountQueues
  import opened PoolAccounts
  import opened Sums

  const TX_MAX_SIZE: nat := 128 * 1024
  const MAX_TX_SLOTS: nat := 4
  const HIGH_PRESSURE_MARK: nat := 80

  /** `preimage` says which transaction a hash stands for: the hash has no collisions. */
  datatype Config = Config(maxSlots: nat, maxEnqueued: nat, preimage: Hash -> Tx)

  /**
   Unfinished work of one thread: the accounts an event still has to reset, the transactions still to be
   taken out of the index, the slots still to be given back, the change still to be made to `pending`.
   */
  datatype Job = Job(todo: map<Address, nat>, unindex: set<Tx>, uncharge: int, pendingDelta: int)

  /** `requests` are the accounts for which at least one promotion request waits. */
  datatype Pool = Pool(
    accounts: map<Address, AccountState>,
    index: map<Hash, Tx>,
    gauge: int,
    pending: int,
    requests: set<Address>,
    jobs: map<nat, Job>,
    stateNonce: map<Address, nat>,
    baseFee: nat)

  // Measures.

  ghost function AccountSlots(a: AccountState): int { SlotsIn(a.enqueued) + SlotsIn(a.promoted) }

  ghost function PromotedCount(a: AccountState): int { Count(a.promoted) }

  ghost function Uncharged(j: Job): int { j.uncharge }

  ghost function Delta(j: Job): int { j.pendingDelta }

  ghost function StateNonce(p: Pool, a: Address): nat { if a in p.stateNonce then p.stateNonce[a] else 0 }

  ghost function HashesOf(txs: set<Tx>): set<Hash> { set t | t in txs :: t.hash }

  // The invariant.

  ghost predicate AccountsOk(p: Pool) { forall a :: a in p.accounts ==> WellFormed(p.accounts[a], a) }

  ghost predicate BelowMax(a: AccountState) {
    a.nextNonce < TWO64 && forall n :: n in a.nonceToTx ==> n < MAX_UINT64
  }

  ghost predicate NoncesOk(p: Pool) { forall a :: a in p.accounts ==> BelowMax(p.accounts[a]) }

  /** Every slot in use is held by a queued transaction or by one that was pruned and not yet cleaned up. */
  ghost predicate GaugeOk(c: Config, p: Pool) {
    p.gauge == Sum(p.accounts, AccountSlots) + Sum(p.jobs, Uncharged) && 0 <= p.gauge <= c.maxSlots
  }

  ghost predicate PendingOk(p: Pool) {
    p.pending + Sum(p.jobs, Delta) == Sum(p.accounts, PromotedCount)
  }

  ghost predicate Indexed(p: Pool, t: Tx) { t.hash in p.index && p.index[t.hash] == t }

  /** An event already removed the mined transaction from the index and has yet to reset its sender. */
  ghost predicate Mined(j: Job, t: Tx) { t.from in j.todo && t.nonce < j.todo[t.from] }

  ghost predicate MinedPending(p: Pool, t: Tx) { exists j :: j in p.jobs && Mined(p.jobs[j], t) }

  ghost predicate Traced(c: Config, p: Pool, t: Tx) {
    c.preimage(t.hash) == t && (Indexed(p, t) || MinedPending(p, t))
  }

  ghost predicate IndexOk(c: Config, p: Pool) {
    forall a, n :: a in p.accounts && n in p.accounts[a].nonceToTx ==> Traced(c, p, p.accounts[a].nonceToTx[n])
  }

  /** No transaction that is ready for promotion waits without a request for it. */
  ghost predicate RequestsOk(p: Pool) {
    forall a :: a in p.accounts && p.accounts[a].nextNonce in p.accounts[a].enqueued ==> a in p.requests
  }

  ghost predicate JobOk(p: Pool, j: Job) {
    j.uncharge >= 0 && forall a :: a in j.todo ==> j.todo[a] <= StateNonce(p, a)
  }

  ghost predicate JobsOk(p: Pool) { forall j :: j in p.jobs ==> JobOk(p, p.jobs[j]) }

  ghost predicate StateOk(p: Pool) { forall a :: a in p.stateNonce ==> p.stateNonce[a] < TWO64 }

  /** What holds in every interleaving. */
  ghost predicate Inv(c: Config, p: Pool) {
    && AccountsOk(p) && NoncesOk(p) && GaugeOk(c, p) && PendingOk(p)
    && RequestsOk(p) && JobsOk(p) && StateOk(p)
  }

  ghost predicate Queued(p: Pool, t: Tx) {
    t.from in p.accounts && t.nonce in p.accounts[t.from].nonceToTx && p.accounts[t.from].nonceToTx[t.nonce] == t
  }

  ghost predicate Cleared(c: Config, p: Pool, t: Tx) { c.preimage(t.hash) == t && !Queued(p, t) }

  /** What a job is going to take out of the index is not queued. */
  ghost predicate CleanupOk(c: Config, p: Pool) {
    forall j, t :: j in p.jobs && t in p.jobs[j].unindex ==> Cleared(c, p, t)
  }

  /** The law of the hash index. */
  ghost predicate Book(c: Config, p: Pool) { IndexOk(c, p) && CleanupOk(c, p) }

  /** No job is going to take the transaction out of the index. */
  ghost predicate Fresh(p: Pool, tx: Tx) { forall j :: j in p.jobs ==> tx !in p.jobs[j].unindex }

  // The operations.

  /** The gauge after an attempt to take `slots`, in the 64-bit arithmetic of the source. */
  function IncreaseWithinLimit(height: int, max: nat, slots: int): Option<int> {
    var newHeight := if height + slots < TWO64 then height + slots else height + slots - TWO64;
    if newHeight > max then None else Some(newHeight)
  }

  function Decrease(height: int, slots: int): int {
    if slots <= height then height - slots else height - slots + TWO64
  }

  /** The gauge moved up or down in 64-bit arithmetic. */
  function Moved(height: int, change: int): int {
    if change >= 0 then (if height + change < TWO64 then height + change else height + change - TWO64)
    else Decrease(height, -change)
  }

  predicate HighPressure(height: int, max: nat) {
    height > ((HIGH_PRESSURE_MARK * max) % TWO64) / 100
  }

  datatype AddResult =
    | Added | ErrRejectFutureTx | ErrAlreadyKnown | ErrReplacementUnderpriced
    | ErrMaxEnqueuedLimitReached | ErrNonceTooLow | ErrTxPoolOverflow

  ghost function NewAccount(nonce: nat): AccountState { AccountState(map[], map[], map[], nonce, 0) }

  /** `initOnce`: the first caller creates the account. */
  ghost function InitOnce(p: Pool, addr: Address, nonce: nat): Pool {
    if addr in p.accounts then p else p.(accounts := p.accounts[addr := NewAccount(nonce)])
  }

  /** The checks of `addTx` that come before any slot is taken. */
  ghost function Screen(c: Config, p: Pool, a: AccountState, tx: Tx): AddResult {
    if HighPressure(p.gauge, c.maxSlots) && tx.nonce > a.nextNonce then ErrRejectFutureTx
    else if tx.nonce in a.nonceToTx then
      var prior := a.nonceToTx[tx.nonce];
      if prior.hash == tx.hash then ErrAlreadyKnown
      else if GetGasPrice(prior, p.baseFee) >= GetGasPrice(tx, p.baseFee) then ErrReplacementUnderpriced
      else Added
    else if |a.enqueued| == c.maxEnqueued && tx.nonce != a.nextNonce then ErrMaxEnqueuedLimitReached
    else if tx.nonce < a.nextNonce then ErrNonceTooLow
    else Added
  }

  ghost function SlotsFreed(a: AccountState, tx: Tx): int {
    if tx.nonce in a.nonceToTx then Slots(a.nonceToTx[tx.nonce]) else 0
  }

  ghost function AddVerdict(c: Config, p: Pool, tx: Tx): AddResult
    requires tx.from in p.accounts
  {
    var a := p.accounts[tx.from];
    var screened := Screen(c, p, a, tx);
    var increase := Slots(tx) - SlotsFreed(a, tx);
    if screened != Added then screened
    else if increase > 0 && IncreaseWithinLimit(p.gauge, c.maxSlots, increase).None? then ErrTxPoolOverflow
    else if tx.hash in p.index then ErrAlreadyKnown
    else Added
  }

  ghost function AddTx(c: Config, p: Pool, tx: Tx): Pool
    requires tx.from in p.accounts
  {
    var a := p.accounts[tx.from];
    if AddVerdict(c, p, tx) != Added then p
    else
      var replace := tx.nonce in a.nonceToTx;
      var added := p.index[tx.hash := tx];
      p.(accounts := p.accounts[tx.from := Insert(a, tx, replace)],
         gauge := Moved(p.gauge, Slots(tx) - SlotsFreed(a, tx)),
         index := if replace then added - {a.nonceToTx[tx.nonce].hash} else added,
         requests := if tx.nonce <= a.nextNonce then p.requests + {tx.from} else p.requests)
  }

  /** The number of transactions that a promotion moves. */
  ghost function PromotedBy(a: AccountState): int { Count(Below(a.enqueued, RunEnd(a.enqueued, a.nextNonce))) }

  /** Handles one promotion request; `more` says that another one for the same account is waiting. */
  ghost function HandlePromote(p: Pool, addr: Address, job: nat, more: bool): Pool
    requires addr in p.accounts
  {
    var a := p.accounts[addr];
    p.(accounts := p.accounts[addr := PromoteRun(a)],
       requests := if more then p.requests else p.requests - {addr},
       jobs := p.jobs[job := Job(map[], {}, 0, PromotedBy(a))])
  }

  ghost function Pop(p: Pool, tx: Tx): Pool
    requires tx.from in p.accounts
  {
    p.(accounts := p.accounts[tx.from := AfterPop(p.accounts[tx.from], tx)],
       gauge := Decrease(p.gauge, Slots(tx)),
       pending := p.pending - 1)
  }

  ghost function DropAccount(p: Pool, addr: Address, nonce: nat): Pool
    requires addr in p.accounts
  {
    var a := p.accounts[addr];
    p.(accounts := p.accounts[addr := Emptied(a, nonce)],
       index := p.index - HashesOf(a.promoted.Values) - HashesOf(a.enqueued.Values),
       gauge := Decrease(Decrease(p.gauge, SlotsIn(a.promoted)), SlotsIn(a.enqueued)),
       pending := p.pending - Count(a.promoted))
  }

  ghost function SetDemotions(p: Pool, addr: Address, demotions: nat): Pool
    requires addr in p.accounts
  {
    p.(accounts := p.accounts[addr := p.accounts[addr].(demotions := demotions)])
  }

  ghost function PruneHoles(p: Pool, addr: Address): Pool
    requires addr in p.accounts
  {
    var a := p.accounts[addr];
    if a.enqueued == map[] || Lowest(a.enqueued) == a.nextNonce then p
    else
      p.(accounts := p.accounts[addr := a.(enqueued := map[], nonceToTx := a.nonceToTx - a.enqueued.Keys)],
         index := p.index - HashesOf(a.enqueued.Values),
         gauge := Decrease(p.gauge, SlotsIn(a.enqueued)))
  }

  ghost function ResetAccount(p: Pool, job: nat, addr: Address): Pool
    requires job in p.jobs && addr in p.jobs[job].todo
  {
    var j := p.jobs[job];
    var rest := j.(todo := j.todo - {addr});
    if addr !in p.accounts then p.(jobs := p.jobs[job := rest])
    else
      var a, nonce := p.accounts[addr], j.todo[addr];
      var low, stale := Below(a.promoted, nonce), PrunedEnqueued(a, nonce);
      p.(accounts := p.accounts[addr := PruneBelow(a, nonce).(demotions := 0)],
         requests := if a.nextNonce < nonce && nonce in a.enqueued then p.requests + {addr} else p.requests,
         jobs := p.jobs[job := rest.(unindex := j.unindex + low.Values + stale.Values,
                                     uncharge := j.uncharge + SlotsIn(low) + SlotsIn(stale),
                                     pendingDelta := j.pendingDelta - Count(low))])
  }

  ghost function IndexBlock(p: Pool, job: nat, txs: set<Tx>, nonces: map<Address, nat>): Pool
    requires job in p.jobs
  {
    p.(index := p.index - HashesOf(txs),
       jobs := p.jobs[job := p.jobs[job].(todo := nonces + p.jobs[job].todo)])
  }

  datatype Step =
    | InitStep(addr: Address, nonce: nat)
    | Add(tx: Tx)
    | PromoteStep(addr: Address, job: nat, more: bool)
    | PopStep(tx: Tx)
    | DropStep(addr: Address, nonce: nat)
    | DemotionsStep(addr: Address, demotions: nat)
    | PruneHolesStep(addr: Address)
    | AdvanceState(addr: Address, nonce: nat)
    | SetBaseFee(fee: nat)
    | BeginEvent(job: nat)
    | IndexBlockStep(job: nat, txs: set<Tx>, nonces: map<Address, nat>)
    | ResetStep(job: nat, addr: Address)
    | SettleIndex(job: nat)
    | SettleGauge(job: nat)
    | SettlePending(job: nat)
    | FinishJob(job: nat)

  /**
   What a step may rely on. An added transaction has a hash without collision, a checked size and a nonce that is not
   the last 64-bit one; it may have been validated against a state long gone. A popped transaction is the promoted head;
   the state nonce of a mined transaction's sender is above its nonce.
   */
  ghost predicate Enabled(c: Config, p: Pool, s: Step) {
    match s
    case InitStep(addr, nonce) => nonce <= StateNonce(p, addr)
    case Add(tx) =>
      tx.from in p.accounts && c.preimage(tx.hash) == tx && tx.nonce < MAX_UINT64 && tx.size <= TX_MAX_SIZE
    case PromoteStep(addr, job, more) => addr in p.accounts && addr in p.requests && job !in p.jobs
    case PopStep(tx) => tx.from in p.accounts && IsHead(p.accounts[tx.from], tx)
    case DropStep(addr, nonce) => addr in p.accounts && nonce < TWO64
    case DemotionsStep(addr, demotions) => addr in p.accounts
    case PruneHolesStep(addr) => addr in p.accounts
    case AdvanceState(addr, nonce) => StateNonce(p, addr) <= nonce < TWO64
    case SetBaseFee(_) => true
    case BeginEvent(job) => job !in p.jobs
    case IndexBlockStep(job, txs, nonces) =>
      && job in p.jobs
      && (forall a :: a in nonces ==> nonces[a] <= StateNonce(p, a))
      && (forall t :: t in txs ==> c.preimage(t.hash) == t && Mined(p.jobs[job].(todo := nonces + p.jobs[job].todo), t))
    case ResetStep(job, addr) => job in p.jobs && addr in p.jobs[job].todo
    case SettleIndex(job) => job in p.jobs
    case SettleGauge(job) => job in p.jobs
    case SettlePending(job) => job in p.jobs
    case FinishJob(job) => job in p.jobs && Settled(p.jobs[job])
  }

  ghost predicate IsHead(a: AccountState, tx: Tx) { IsFirst(a.promoted, Some(tx)) }

  ghost predicate Settled(j: Job) { j == Job(map[], {}, 0, 0) }

  ghost function Do(c: Config, p: Pool, s: Step): Pool
    requires Enabled(c, p, s)
  {
    match s
    case InitStep(addr, nonce) => InitOnce(p, addr, nonce)
    case Add(tx) => AddTx(c, p, tx)
    case PromoteStep(addr, job, more) => HandlePromote(p, addr, job, more)
    case PopStep(tx) => Pop(p, tx)
    case DropStep(addr, nonce) => DropAccount(p, addr, nonce)
    case DemotionsStep(addr, demotions) => SetDemotions(p, addr, demotions)
    case PruneHolesStep(addr) => PruneHoles(p, addr)
    case AdvanceState(addr, nonce) => p.(stateNonce := p.stateNonce[addr := nonce])
    case SetBaseFee(fee) => p.(baseFee := fee)
    case BeginEvent(job) => p.(jobs := p.jobs[job := Job(map[], {}, 0, 0)])
    case IndexBlockStep(job, txs, nonces) => IndexBlock(p, job, txs, nonces)
    case ResetStep(job, addr) => ResetAccount(p, job, addr)
    case SettleIndex(job) =>
      p.(index := p.index - HashesOf(p.jobs[job].unindex), jobs := p.jobs[job := p.jobs[job].(unindex := {})])
    case SettleGauge(job) =>
      p.(gauge := Decrease(p.gauge, p.jobs[job].uncharge), jobs := p.jobs[job := p.jobs[job].(uncharge := 0)])
    case SettlePending(job) =>
      p.(pending := p.pending + p.jobs[job].pendingDelta, jobs := p.jobs[job := p.jobs[job].(pendingDelta := 0)])
    case FinishJob(job) => p.(jobs := p.jobs - {job})
  }

  ghost function Init(): Pool { Pool(map[], map[], 0, 0, {}, map[], map[], 0) }

  /** The pools that the steps lead through, from the empty one on. */
  ghost predicate Run(c: Config, steps: seq<Step>, pools: seq<Pool>) {
    && |pools| == |steps| + 1 && pools[0] == Init()
    && forall i :: 0 <= i < |steps| ==> Leads(c, pools[i], steps[i], pools[i + 1])
  }

  ghost predicate Leads(c: Config, p: Pool, s: Step, q: Pool) { Enabled(c, p, s) && q == Do(c, p, s) }

  /** The step does not add a transaction that a job is still going to take out of the index. */
  ghost predicate FreshStep(p: Pool, s: Step) { s.Add? ==> Fresh(p, s.tx) }

  ghost predicate ValidConfig(c: Config) { c.maxSlots + MAX_TX_SLOTS < TWO64 }
}

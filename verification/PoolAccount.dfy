/** One account of the pool (txpool/account.go) as a value: its state, the invariant, and what every operation does. */
module PoolAccounts {
  import opened Transactions
  import opened AccountQueues
  import opened Sums

  /** The two queues are read as maps from nonce to transaction. */
  datatype AccountState = AccountState(
    enqueued: map<nat, Tx>,
    promoted: map<nat, Tx>,
    nonceToTx: map<nat, Tx>,
    nextNonce: nat,
    demotions: nat)

  const MAX_ACCOUNT_DEMOTIONS: nat := 10

  ghost predicate KeyedByNonce(q: map<nat, Tx>, owner: Address) {
    forall n :: n in q ==> q[n].nonce == n && q[n].from == owner && n <= MAX_UINT64
  }

  /** The promoted nonces form an interval that ends just below `next`. */
  ghost predicate EndsAt(promoted: map<nat, Tx>, next: nat) {
    && (forall n :: n in promoted ==> n < next)
    && (forall n, k :: n in promoted && n <= k < next ==> k in promoted)
  }

  ghost predicate IsUnion(m: map<nat, Tx>, a: map<nat, Tx>, b: map<nat, Tx>) {
    && (forall n :: n in m ==> n in a || n in b)
    && (forall n :: n in a ==> n in m && m[n] == a[n])
    && (forall n :: n in b ==> n in m && m[n] == b[n])
  }

  ghost predicate WellFormed(a: AccountState, owner: Address) {
    && KeyedByNonce(a.enqueued, owner)
    && KeyedByNonce(a.promoted, owner)
    && EndsAt(a.promoted, a.nextNonce)
    && (forall n :: n in a.enqueued ==> n >= a.nextNonce)
    && IsUnion(a.nonceToTx, a.enqueued, a.promoted)
    && a.nextNonce <= MAX_UINT64
  }

  ghost function NoncesFrom(enqueued: map<nat, Tx>, n: nat): set<nat> { set k | k in enqueued && k >= n }

  /** The first nonce from `n` upwards that is not enqueued. */
  ghost function RunEnd(enqueued: map<nat, Tx>, n: nat): (end: nat)
    ensures end >= n && end !in enqueued
    ensures forall k :: n <= k < end ==> k in enqueued
    decreases NoncesFrom(enqueued, n)
  {
    if n !in enqueued then n
    else
      assert n in NoncesFrom(enqueued, n) && n !in NoncesFrom(enqueued, n + 1);
      RunEnd(enqueued, n + 1)
  }

  lemma RunEndUnique(enqueued: map<nat, Tx>, n: nat, end: nat)
    requires end >= n && end !in enqueued && forall k :: n <= k < end ==> k in enqueued
    ensures end == RunEnd(enqueued, n)
  {
  }

  // The operations of an account, on values.

  ghost function PruneBelow(a: AccountState, nonce: nat): AccountState {
    if nonce <= a.nextNonce then
      a.(promoted := From(a.promoted, nonce), nonceToTx := a.nonceToTx - Below(a.promoted, nonce).Keys)
    else
      a.(promoted := From(a.promoted, nonce),
         enqueued := From(a.enqueued, nonce),
         nonceToTx := a.nonceToTx - Below(a.promoted, nonce).Keys - Below(a.enqueued, nonce).Keys,
         nextNonce := nonce)
  }

  ghost function PrunedEnqueued(a: AccountState, nonce: nat): map<nat, Tx> {
    if nonce <= a.nextNonce then map[] else Below(a.enqueued, nonce)
  }

  /** The run of consecutive nonces that starts at `nextNonce` moves over; the counter of the source is 64 bits wide. */
  ghost function PromoteRun(a: AccountState): AccountState {
    var end := RunEnd(a.enqueued, a.nextNonce);
    a.(enqueued := From(a.enqueued, end),
       promoted := a.promoted + Below(a.enqueued, end),
       nextNonce := if end < TWO64 then end else a.nextNonce)
  }

  ghost function Insert(a: AccountState, tx: Tx, replace: bool): AccountState {
    var b := a.(nonceToTx := a.nonceToTx[tx.nonce := tx]);
    if !replace || tx.nonce in a.enqueued then b.(enqueued := a.enqueued[tx.nonce := tx])
    else if tx.nonce in a.promoted then b.(promoted := a.promoted[tx.nonce := tx])
    else b
  }

  ghost function Emptied(a: AccountState, nonce: nat): AccountState {
    a.(enqueued := map[], promoted := map[], nonceToTx := map[], nextNonce := nonce)
  }

  lemma {:induction false} LowestExists(q: map<nat, Tx>)
    requires q != map[]
    ensures exists n :: IsLowest(q, n)
    decreases |q|
  {
    var k := PickKey(q);
    if q - {k} == map[] {
      assert IsLowest(q, k) by { forall j | j in q ensures j == k { assert j !in q - {k}; } }
    } else {
      LowestExists(q - {k});
      var m :| IsLowest(q - {k}, m);
      var n := if k < m then k else m;
      assert IsLowest(q, n) by { forall j | j in q ensures n <= j { if j != k { assert j in q - {k}; } } }
    }
  }

  ghost function Lowest(q: map<nat, Tx>): (n: nat)
    requires q != map[]
    ensures IsLowest(q, n)
  {
    LowestExists(q);
    var n :| IsLowest(q, n); n
  }

  ghost function AfterPop(a: AccountState, tx: Tx): AccountState {
    var b := a.(nonceToTx := a.nonceToTx - {tx.nonce}, demotions := 0);
    if a.promoted == map[] then b else b.(promoted := a.promoted - {Lowest(a.promoted)})
  }

  // Every operation keeps the invariant.

  lemma PruneKeepsWellFormed(a: AccountState, owner: Address, nonce: nat)
    requires WellFormed(a, owner) && nonce <= MAX_UINT64
    ensures WellFormed(PruneBelow(a, nonce), owner)
    ensures a.nextNonce < nonce ==> PruneBelow(a, nonce).promoted == map[]
  {
  }

  /** Nothing is lost: the two queues still hold the same transactions, each in one place. */
  lemma PromoteLosesNothing(a: AccountState, owner: Address)
    requires WellFormed(a, owner)
    ensures IsUnion(a.nonceToTx, PromoteRun(a).enqueued, PromoteRun(a).promoted)
    ensures PromoteRun(a).enqueued.Keys !! PromoteRun(a).promoted.Keys
    ensures KeyedByNonce(PromoteRun(a).enqueued, owner) && KeyedByNonce(PromoteRun(a).promoted, owner)
  {
  }

  /** Promotion keeps the invariant exactly when the run does not reach the last 64-bit nonce. */
  lemma PromoteKeepsWellFormed(a: AccountState, owner: Address)
    requires WellFormed(a, owner)
    ensures WellFormed(PromoteRun(a), owner) <==> RunEnd(a.enqueued, a.nextNonce) < TWO64
    ensures RunEnd(a.enqueued, a.nextNonce) < TWO64 ==> PromoteRun(a).nextNonce !in PromoteRun(a).enqueued
  {
    var end := RunEnd(a.enqueued, a.nextNonce);
    PromoteLosesNothing(a, owner);
    if end < TWO64 {
      PromotedInterval(a.promoted, a.enqueued, a.nextNonce, end);
    } else {
      assert MAX_UINT64 in a.enqueued;
      assert MAX_UINT64 in PromoteRun(a).promoted;
    }
  }

  /** The account on which promotion fails: its counter stays at the last nonce, which is promoted all the same. */
  lemma LastNonceBreaksPromotion(t: Tx)
    requires t.nonce == MAX_UINT64
    ensures var a := AccountState(map[t.nonce := t], map[], map[t.nonce := t], MAX_UINT64, 0);
            WellFormed(a, t.from) && !WellFormed(PromoteRun(a), t.from)
  {
    var a := AccountState(map[t.nonce := t], map[], map[t.nonce := t], MAX_UINT64, 0);
    RunEndUnique(a.enqueued, MAX_UINT64, TWO64);
    PromoteKeepsWellFormed(a, t.from);
  }

  lemma PromotedInterval(promoted: map<nat, Tx>, enqueued: map<nat, Tx>, next: nat, end: nat)
    requires EndsAt(promoted, next) && next <= end
    requires forall n :: n in enqueued ==> n >= next
    requires forall k :: next <= k < end ==> k in enqueued
    ensures EndsAt(promoted + Below(enqueued, end), end)
  {
    var p := promoted + Below(enqueued, end);
    forall n, k | n in p && n <= k < end ensures k in p {
      if k < next { assert n in promoted; } else { assert k in enqueued; }
    }
  }

  lemma InsertKeepsWellFormed(a: AccountState, owner: Address, tx: Tx)
    requires WellFormed(a, owner) && tx.from == owner && tx.nonce <= MAX_UINT64
    requires tx.nonce in a.nonceToTx || tx.nonce >= a.nextNonce
    ensures WellFormed(Insert(a, tx, tx.nonce in a.nonceToTx), owner)
  {
  }

  lemma PopKeepsWellFormed(a: AccountState, owner: Address)
    requires WellFormed(a, owner) && a.promoted != map[]
    ensures var head := Lowest(a.promoted);
            WellFormed(a.(promoted := a.promoted - {head}, nonceToTx := a.nonceToTx - {head}), owner)
  {
  }

  ghost function One(t: Tx): int { 1 }

  ghost function Count(q: map<nat, Tx>): int { Sum(q, One) }

  ghost function SlotsIn(q: map<nat, Tx>): int { Sum(q, Slots) }

  /** The slots of a list are the slots of the map it represents. */
  lemma {:induction false} SlotsOfRepresents(txs: seq<Tx>, v: map<nat, Tx>)
    requires Represents(multiset(txs), v)
    ensures SlotsOf(txs) == SlotsIn(v)
  {
    if txs == [] {
      RepresentsEmpty(multiset(txs), v);
    } else {
      var last := |txs| - 1;
      DropLast(txs, v);
      RemoveOne(v, txs[last].nonce);
      SlotsOfRepresents(txs[..last], v - {txs[last].nonce});
    }
  }

  lemma RemoveOne(v: map<nat, Tx>, n: nat)
    requires n in v
    ensures SlotsIn(v) == SlotsIn(v - {n}) + Slots(v[n])
  {
    SumRemove(v, Slots, n);
  }
}

/** The account object of txpool/account.go, proved against the operations on values. */
module AccountObjects {
  import opened Transactions
  import opened AccountQueues
  import opened PoolAccounts

  /** Deletes the nonces of `txs` from the lookup. */
  method RemoveNonces(m: map<nat, Tx>, txs: seq<Tx>, ghost v: map<nat, Tx>) returns (r: map<nat, Tx>)
    requires Represents(multiset(txs), v)
    ensures r == m - v.Keys
    ensures txs == [] ==> r == m
  {
    r := m;
    for i := 0 to |txs|
      invariant r == m - (set k | 0 <= k < i :: txs[k].nonce)
    {
      r := r - {txs[i].nonce};
    }
    assert v.Keys == set k | 0 <= k < |txs| :: txs[k].nonce by {
      forall n | n in v ensures exists k :: 0 <= k < |txs| && txs[k].nonce == n {
        assert v[n] in multiset(txs);
        assert v[n] in txs;
      }
      forall k | 0 <= k < |txs| ensures txs[k].nonce in v { assert txs[k] in multiset(txs); }
    }
  }

  class Account {
    ghost const owner: Address
    const enqueued: AccountQueue
    const promoted: AccountQueue
    var nonceToTx: map<nat, Tx>
    var nextNonce: nat
    var demotions: nat

    ghost predicate Valid()
      reads this, enqueued, promoted
    {
      enqueued != promoted && enqueued.Valid() && promoted.Valid() && enqueued.owner == promoted.owner == owner
    }

    ghost function View(): AccountState
      reads this, enqueued, promoted
    {
      AccountState(enqueued.content, promoted.content, nonceToTx, nextNonce, demotions)
    }

    constructor (nonce: nat, ghost owner: Address)
      ensures Valid() && View() == AccountState(map[], map[], map[], nonce, 0)
      ensures fresh(enqueued) && fresh(promoted) && this.owner == owner
    {
      this.owner := owner;
      enqueued := new AccountQueue(owner);
      promoted := new AccountQueue(owner);
      nonceToTx := map[];
      nextNonce := nonce;
      demotions := 0;
    }

    /** Aligns the account with a new state nonce; `signal` asks for a promotion. */
    method Reset(nonce: nat) returns (prunedPromoted: seq<Tx>, prunedEnqueued: seq<Tx>, signal: bool)
      requires Valid()
      modifies this, enqueued, promoted
      ensures Valid() && View() == PruneBelow(old(View()), nonce)
      ensures Represents(multiset(prunedPromoted), Below(old(View()).promoted, nonce))
      ensures Represents(multiset(prunedEnqueued), PrunedEnqueued(old(View()), nonce))
      ensures signal <==> old(nextNonce) < nonce && nonce in View().enqueued
    {
      prunedEnqueued, signal := [], false;
      prunedPromoted := promoted.Prune(nonce);
      nonceToTx := RemoveNonces(nonceToTx, prunedPromoted, Below(old(promoted.content), nonce));
      if nonce <= nextNonce {
        return;
      }
      prunedEnqueued := enqueued.Prune(nonce);
      nonceToTx := RemoveNonces(nonceToTx, prunedEnqueued, Below(old(enqueued.content), nonce));
      nextNonce := nonce;
      var first := enqueued.Peek();
      signal := first.Some? && first.value.nonce == nonce;
    }

    /** The account part of `Pop`: the head leaves the queue, the nonce of the argument leaves the lookup. */
    method PopHead(tx: Tx)
      requires Valid()
      modifies this, promoted
      ensures Valid() && View() == AfterPop(old(View()), tx)
    {
      ghost var a := View();
      var head := promoted.Pop();
      nonceToTx := nonceToTx - {tx.nonce};
      demotions := 0;
      if head.Some? {
        assert Lowest(a.promoted) == head.value.nonce;
      }
    }

    /** The account part of `dropAccount`. */
    method Empty(nonce: nat) returns (droppedPromoted: seq<Tx>, droppedEnqueued: seq<Tx>)
      requires Valid()
      modifies this, enqueued, promoted
      ensures Valid() && View() == Emptied(old(View()), nonce)
      ensures Represents(multiset(droppedPromoted), old(View()).promoted)
      ensures Represents(multiset(droppedEnqueued), old(View()).enqueued)
    {
      nextNonce := nonce;
      nonceToTx := map[];
      droppedPromoted := promoted.Clear();
      droppedEnqueued := enqueued.Clear();
    }

    method Enqueue(tx: Tx, replace: bool)
      requires Valid()
      requires !replace ==> tx.nonce !in View().enqueued
      modifies this, enqueued, promoted
      ensures Valid() && View() == Insert(old(View()), tx, replace)
    {
      nonceToTx := nonceToTx[tx.nonce := tx];
      if !replace {
        enqueued.Push(tx);
      } else {
        var found := enqueued.Replace(tx);
        if !found {
          found := promoted.Replace(tx);
        }
      }
    }

    /** Moves the consecutive run that starts at `nextNonce`, in order; nothing is ever pruned on the way. */
    method Promote() returns (moved: seq<Tx>, pruned: seq<Tx>)
      requires Valid() && WellFormed(View(), owner)
      modifies this, enqueued, promoted
      ensures Valid() && View() == PromoteRun(old(View()))
      ensures pruned == [] && IsRun(moved, old(View()).enqueued, old(nextNonce))
      ensures old(nextNonce) + |moved| == RunEnd(old(View()).enqueued, old(nextNonce))
    {
      var current := nextNonce;
      var next;
      moved, pruned, next := PromoteQueues(enqueued, promoted, current, View(), owner);
      if next > current {
        nextNonce := next;
      }
      nonceToTx := RemoveNonces(nonceToTx, pruned, map[]);
    }
  }

  /** The part of `promote` that works on the two queues. */
  method PromoteQueues(enqueued: AccountQueue, promoted: AccountQueue, current: nat, ghost a: AccountState,
                       ghost owner: Address)
    returns (moved: seq<Tx>, pruned: seq<Tx>, next: nat)
    requires enqueued != promoted && enqueued.Valid() && promoted.Valid() && WellFormed(a, owner)
    requires enqueued.content == a.enqueued && promoted.content == a.promoted && current == a.nextNonce
    modifies enqueued, promoted
    ensures enqueued.Valid() && promoted.Valid()
    ensures enqueued.content == PromoteRun(a).enqueued && promoted.content == PromoteRun(a).promoted
    ensures PromoteRun(a).nextNonce == if next > current then next else current
    ensures pruned == [] && IsRun(moved, a.enqueued, current) && current + |moved| == RunEnd(a.enqueued, current)
  {
    var first := enqueued.Peek();
    PromoteStart(a.enqueued, a.promoted, current);
    if first.None? || first.value.nonce > current {
      return [], [], current;
    }
    ghost var end;
    moved, pruned, next, end := PromoteLoop(enqueued, promoted, current, a.enqueued, a.promoted);
    SplitMaps(enqueued.content, promoted.content, a.enqueued, a.promoted, end);
    FirstIsLowest(enqueued);
    PromoteDone(a, owner, end, moved, enqueued.First());
  }

  /** The two queues when the nonces of `ev` below `end` have moved to the promoted queue `pv`. */
  ghost predicate Shifted(enqueued: AccountQueue, promoted: AccountQueue, ev: map<nat, Tx>, pv: map<nat, Tx>, end: nat)
    reads enqueued, promoted
  {
    enqueued.Valid() && promoted.Valid() && SplitAt(enqueued.content, promoted.content, ev, pv, end)
  }

  ghost predicate SplitAt(e: map<nat, Tx>, p: map<nat, Tx>, ev: map<nat, Tx>, pv: map<nat, Tx>, end: nat) {
    && (forall n :: n in e <==> n in ev && n >= end)
    && (forall n :: n in e ==> e[n] == ev[n])
    && (forall n :: n in p <==> n in pv || (n in ev && n < end))
    && (forall n :: n in p ==> p[n] == if n in pv then pv[n] else ev[n])
  }

  method PromoteLoop(enqueued: AccountQueue, promoted: AccountQueue, start: nat, ghost ev: map<nat, Tx>,
                     ghost pv: map<nat, Tx>)
    returns (moved: seq<Tx>, pruned: seq<Tx>, next: nat, ghost end: nat)
    requires enqueued != promoted && Shifted(enqueued, promoted, ev, pv, start) && StartsWith(enqueued, start)
    requires Promotable(ev, pv)
    requires start <= MAX_UINT64
    modifies enqueued, promoted
    ensures Shifted(enqueued, promoted, ev, pv, end) && !StartsWith(enqueued, next)
    ensures pruned == [] && MovedRun(ev, start, end, moved, next) && end > start
  {
    moved, pruned, next, end := [], [], start, start;
    while StartsWith(enqueued, next)
      invariant Shifted(enqueued, promoted, ev, pv, end) && (end == start ==> StartsWith(enqueued, next))
      invariant pruned == [] && MovedRun(ev, start, end, moved, next)
      decreases |enqueued.queue|
    {
      var tx, low;
      tx, low, next := PromoteStep(enqueued, promoted, next, ev, pv, end);
      RunAppend(ev, start, end, moved, tx);
      moved, pruned, end := moved + [tx], pruned + low, end + 1;
    }
  }

  /** One turn of the loop: the lowest transaction moves over and the pruning finds nothing. */
  method PromoteStep(enqueued: AccountQueue, promoted: AccountQueue, nonce: nat,
                     ghost ev: map<nat, Tx>, ghost pv: map<nat, Tx>, ghost end: nat)
    returns (tx: Tx, low: seq<Tx>, next: nat)
    requires enqueued != promoted && Shifted(enqueued, promoted, ev, pv, end) && Promotable(ev, pv)
    requires StartsWith(enqueued, nonce) && nonce == Wrap(end)
    modifies enqueued, promoted
    ensures Shifted(enqueued, promoted, ev, pv, end + 1) && |enqueued.queue| < old(|enqueued.queue|)
    ensures IsMoved(ev, end, tx) && low == [] && next == Wrap(end + 1)
  {
    FirstIsLowest(enqueued);
    assert nonce == end;
    var r := enqueued.Pop();
    tx := r.value;
    promoted.Push(tx);
    next := Wrap(tx.nonce + 1);
    low := PruneNothing(enqueued, next, enqueued.content);
  }

  /** Pruning a queue that holds nothing below `next`. */
  method PruneNothing(q: AccountQueue, next: nat, ghost v: map<nat, Tx>) returns (low: seq<Tx>)
    requires q.Valid() && q.content == v && forall n :: n in v ==> n >= next
    modifies q
    ensures q.Valid() && q.content == v && low == [] && |q.queue| <= old(|q.queue|)
  {
    NothingBelow(v, next);
    low := q.Prune(next);
    RepresentsEmpty(multiset(low), map[]);
  }

  /** A 64-bit counter. */
  function Wrap(n: nat): nat { if n < TWO64 then n else n - TWO64 }

  ghost predicate IsRun(moved: seq<Tx>, enqueued: map<nat, Tx>, first: nat) {
    forall i :: 0 <= i < |moved| ==>
      moved[i].nonce == first + i && moved[i].nonce in enqueued && enqueued[moved[i].nonce] == moved[i]
  }

  predicate StartsWith(q: AccountQueue, nonce: nat)
    reads q
  {
    q.First().Some? && q.First().value.nonce == nonce
  }

  lemma FirstIsLowest(q: AccountQueue)
    requires q.Valid()
    ensures IsFirst(q.content, q.First())
  {
    RootIsLowest(q.queue, q.content);
  }

  ghost predicate Promotable(ev: map<nat, Tx>, pv: map<nat, Tx>) {
    forall n :: n in ev ==> n !in pv && n <= MAX_UINT64
  }

  ghost predicate IsMoved(ev: map<nat, Tx>, nonce: nat, tx: Tx) {
    tx.nonce == nonce && tx.nonce in ev && ev[tx.nonce] == tx
  }

  /** What the promotion loop has collected when the nonces in [start, end) have moved over. */
  ghost predicate MovedRun(ev: map<nat, Tx>, start: nat, end: nat, moved: seq<Tx>, next: nat) {
    next == Wrap(end) && end == start + |moved| && IsRun(moved, ev, start)
  }

  lemma RunAppend(ev: map<nat, Tx>, start: nat, end: nat, moved: seq<Tx>, tx: Tx)
    requires MovedRun(ev, start, end, moved, Wrap(end)) && IsMoved(ev, end, tx)
    ensures MovedRun(ev, start, end + 1, moved + [tx], Wrap(end + 1))
  {
  }

  lemma PromoteStart(ev: map<nat, Tx>, pv: map<nat, Tx>, start: nat)
    requires forall n :: n in ev ==> n >= start
    ensures From(ev, start) == ev && pv + Below(ev, start) == pv
  {
  }

  lemma SplitMaps(e: map<nat, Tx>, p: map<nat, Tx>, ev: map<nat, Tx>, pv: map<nat, Tx>, end: nat)
    requires SplitAt(e, p, ev, pv, end) && Promotable(ev, pv)
    ensures e == From(ev, end) && p == pv + Below(ev, end)
  {
  }

  /** After a move every remaining nonce is at least the (possibly wrapped) next one. */
  lemma NothingBelow(v: map<nat, Tx>, next: nat)
    requires forall n :: n in v ==> n >= next
    ensures Below(v, next) == map[] && From(v, next) == v
  {
  }

  lemma PromoteDone(a: AccountState, owner: Address, end: nat, moved: seq<Tx>, first: Option<Tx>)
    requires WellFormed(a, owner) && end > a.nextNonce && MovedRun(a.enqueued, a.nextNonce, end, moved, Wrap(end))
    requires IsFirst(From(a.enqueued, end), first) && (first.None? || first.value.nonce != Wrap(end))
    ensures end == RunEnd(a.enqueued, a.nextNonce)
    ensures Wrap(end) > a.nextNonce <==> end < TWO64
  {
    forall k | a.nextNonce <= k < end ensures k in a.enqueued { assert moved[k - a.nextNonce].nonce == k; }
    assert end - 1 in a.enqueued;
    assert end in a.enqueued ==> end in From(a.enqueued, end);
    RunEndUnique(a.enqueued, a.nextNonce, end);
  }
}

/**
 Block building over the pool: the priced queue of primaries (txpool/queue_priced.go) and the loop that
 writes transactions into a block (consensus/ibft/consensus_backend.go).
 */
module BlockBuilding {
  import opened Transactions
  import opened SliceHeap
  import opened Sums
  import PoolAccounts

  function Compare(x: int, y: int): int { if x > y then 1 else if x < y then -1 else 0 }

  /** Effective tips first when there is a base fee, then fee caps, then tip caps. */
  function Cmp(a: Tx, b: Tx, baseFee: nat): int {
    var byTip := if baseFee > 0 then Compare(EffectiveGasTip(a, baseFee), EffectiveGasTip(b, baseFee)) else 0;
    if byTip != 0 then byTip
    else
      var byCap := Compare(GetGasFeeCap(a), GetGasFeeCap(b));
      if byCap != 0 then byCap else Compare(GetGasTipCap(a), GetGasTipCap(b))
  }

  predicate PriceLess(a: Tx, b: Tx, baseFee: nat) {
    var c := Cmp(a, b, baseFee);
    if c == -1 then false else if c == 1 then true else a.nonce < b.nonce
  }

  /**
   The better price comes first: a higher tip where there is a base fee, then a higher fee cap, then a higher tip cap,
   then a lower nonce.
   */
  lemma BetterPriceFirst(a: Tx, b: Tx, baseFee: nat)
    ensures PriceLess(a, b, baseFee) <==>
            || (baseFee > 0 && EffectiveGasTip(a, baseFee) > EffectiveGasTip(b, baseFee))
            || ((baseFee > 0 ==> EffectiveGasTip(a, baseFee) == EffectiveGasTip(b, baseFee))
                && (|| GetGasFeeCap(a) > GetGasFeeCap(b)
                    || (GetGasFeeCap(a) == GetGasFeeCap(b) && GetGasTipCap(a) > GetGasTipCap(b))
                    || (GetGasFeeCap(a) == GetGasFeeCap(b) && GetGasTipCap(a) == GetGasTipCap(b) && a.nonce < b.nonce)))
  {
  }

  function PriceOrder(baseFee: nat): (Tx, Tx) -> bool { (a, b) => PriceLess(a, b, baseFee) }

  lemma PriceLessIsAnOrder(baseFee: nat)
    ensures StrictWeakOrder(PriceOrder(baseFee))
  {
    forall a, b, c: Tx | !PriceOrder(baseFee)(b, a) && !PriceOrder(baseFee)(c, b) ensures !PriceOrder(baseFee)(c, a) {
      PriceLessTransitive(a, b, c, baseFee);
    }
  }

  lemma PriceLessTransitive(a: Tx, b: Tx, c: Tx, baseFee: nat)
    requires !PriceLess(b, a, baseFee) && !PriceLess(c, b, baseFee)
    ensures !PriceLess(c, a, baseFee)
  {
  }

  /** The promoted transactions of each account in order of nonce. */
  type Queues = map<Address, seq<Tx>>

  ghost predicate Consecutive(q: seq<Tx>, owner: Address) {
    forall i :: 0 <= i < |q| ==> q[i].from == owner && q[i].nonce == q[0].nonce + i
  }

  ghost predicate ValidQueues(queues: Queues) {
    forall a :: a in queues ==> Consecutive(queues[a], a)
  }

  ghost predicate IsPrimary(t: Tx, queues: Queues) {
    t.from in queues && queues[t.from] != [] && queues[t.from][0] == t
  }

  /** The first promoted transaction of an account that was not passed over. */
  ghost predicate IsCandidate(t: Tx, queues: Queues, waiting: set<Address>) {
    t.from in waiting && IsPrimary(t, queues)
  }

  /** The executables are the candidates, each of them once. */
  ghost predicate Offers(executables: seq<Tx>, queues: Queues, waiting: set<Address>) {
    && (forall t :: t in executables <==> IsCandidate(t, queues, waiting))
    && (forall t :: t in executables ==> multiset(executables)[t] == 1)
  }

  /** The executed transactions of one sender, in order. */
  ghost function BySender(executed: seq<Tx>, a: Address): seq<Tx> {
    if executed == [] then []
    else
      var rest := BySender(executed[..|executed| - 1], a);
      if executed[|executed| - 1].from == a then rest + [executed[|executed| - 1]] else rest
  }

  lemma BySenderAppend(executed: seq<Tx>, tx: Tx, a: Address)
    ensures BySender(executed + [tx], a) == if tx.from == a then BySender(executed, a) + [tx] else BySender(executed, a)
  {
    assert (executed + [tx])[..|executed|] == executed;
  }

  datatype Outcome = Success | GasLimitReached | Recoverable | Fatal

  datatype Status = Executed | Failed | Skipped | Stopped

  /** A block under construction; `waiting` are the accounts that were not passed over. */
  datatype Build = Build(queues: Queues, waiting: set<Address>, demotions: map<Address, nat>, executed: seq<Tx>)

  ghost function Start(queues: Queues, demotions: map<Address, nat>): Build {
    Build(queues, queues.Keys, demotions, [])
  }

  function Demotions(demotions: map<Address, nat>, a: Address): nat { if a in demotions then demotions[a] else 0 }

  function StatusOf(tx: Tx, outcome: Outcome, gasLimit: nat): Status {
    if tx.msg.gas > gasLimit then Failed
    else
      match outcome
      case Success => Executed
      case GasLimitReached => Stopped
      case Recoverable => Skipped
      case Fatal => Failed
  }

  ghost function Tail(q: seq<Tx>): seq<Tx> { if q == [] then [] else q[1..] }

  /** What one transaction does to the build: only an executed one leaves its sender in the running. */
  ghost function After(b: Build, tx: Tx, status: Status): Build {
    var q := if tx.from in b.queues then b.queues[tx.from] else [];
    var out := b.(waiting := b.waiting - {tx.from});
    match status
    case Executed =>
      b.(queues := b.queues[tx.from := Tail(q)], demotions := b.demotions[tx.from := 0], executed := b.executed + [tx])
    case Stopped => out
    case Failed => out.(queues := b.queues[tx.from := []])
    case Skipped =>
      var count := Demotions(b.demotions, tx.from);
      if count < PoolAccounts.MAX_ACCOUNT_DEMOTIONS then out.(demotions := b.demotions[tx.from := count + 1])
      else out.(queues := b.queues[tx.from := []], demotions := b.demotions[tx.from := 0])
  }

  /** The build after the given picks. */
  ghost function Replay(b: Build, picks: seq<Tx>, outcomes: nat -> Outcome, gasLimit: nat): Build {
    if picks == [] then b
    else
      var k := |picks| - 1;
      After(Replay(b, picks[..k], outcomes, gasLimit), picks[k], StatusOf(picks[k], outcomes(k), gasLimit))
  }

  /** A candidate than which no other has a better price. */
  ghost predicate IsBest(tx: Tx, b: Build, baseFee: nat) {
    && IsCandidate(tx, b.queues, b.waiting)
    && forall t :: IsCandidate(t, b.queues, b.waiting) ==> !PriceLess(t, tx, baseFee)
  }

  /** Every pick is a best candidate of its round. */
  ghost predicate BestPicks(b: Build, picks: seq<Tx>, outcomes: nat -> Outcome, gasLimit: nat, baseFee: nat) {
    forall k :: 0 <= k < |picks| ==> IsBest(picks[k], Replay(b, picks[..k], outcomes, gasLimit), baseFee)
  }

  ghost predicate StoppedAt(picks: seq<Tx>, outcomes: nat -> Outcome, gasLimit: nat, k: nat)
    requires k < |picks|
  {
    StatusOf(picks[k], outcomes(k), gasLimit) == Stopped
  }

  /** What is left of a queue: what was not executed, or nothing if the account was dropped. */
  ghost predicate Progress(before: seq<Tx>, done: seq<Tx>, left: seq<Tx>) {
    done <= before && (left == before[|done|..] || left == [])
  }

  ghost predicate AllProgress(before: Queues, executed: seq<Tx>, queues: Queues) {
    && queues.Keys == before.Keys
    && forall a :: a in before ==> Progress(before[a], BySender(executed, a), queues[a])
  }

  ghost function Length(q: seq<Tx>): int { |q| }

  /** Collects the head of every promoted queue and orders them as a heap. */
  method Prepare(queues: Queues, baseFee: nat) returns (executables: seq<Tx>)
    requires ValidQueues(queues)
    ensures Ordered(executables, PriceOrder(baseFee)) && Offers(executables, queues, queues.Keys)
  {
    var heads: seq<Tx> := [];
    var rest := queues.Keys;
    while rest != {}
      invariant rest <= queues.Keys && Offers(heads, queues, queues.Keys - rest)
      decreases rest
    {
      var a :| a in rest;
      if queues[a] != [] {
        assert Consecutive(queues[a], a);
        Offered(heads, heads + [queues[a][0]], queues[a][0], queues, queues.Keys - rest);
        heads := heads + [queues[a][0]];
      }
      assert queues.Keys - (rest - {a}) == queues.Keys - rest + {a};
      rest := rest - {a};
    }
    assert queues.Keys - rest == queues.Keys;
    PriceLessIsAnOrder(baseFee);
    executables := Init(heads, PriceOrder(baseFee));
    SameOffers(heads, executables, queues, queues.Keys);
  }

  /** One more account is in the running. */
  lemma Offered(p: seq<Tx>, q: seq<Tx>, t: Tx, queues: Queues, waiting: set<Address>)
    requires Offers(p, queues, waiting) && IsPrimary(t, queues) && t.from !in waiting
    requires multiset(q) == multiset(p) + multiset{t}
    ensures Offers(q, queues, waiting + {t.from})
  {
    assert t !in p;
    forall u ensures u in q <==> IsCandidate(u, queues, waiting + {t.from}) {
      assert u in q <==> u in multiset(q);
      assert u in p <==> u in multiset(p);
    }
    forall u | u in q ensures multiset(q)[u] == 1 {
      assert u in multiset(q);
      assert u in p <==> u in multiset(p);
    }
  }

  lemma SameOffers(p: seq<Tx>, q: seq<Tx>, queues: Queues, waiting: set<Address>)
    requires multiset(p) == multiset(q) && Offers(p, queues, waiting)
    ensures Offers(q, queues, waiting)
  {
    forall t ensures t in q <==> t in p {
      assert t in q <==> t in multiset(q);
      assert t in p <==> t in multiset(p);
    }
  }

  /** Takes the best candidate off the heap. */
  method Peek(executables: seq<Tx>, ghost b: Build, baseFee: nat) returns (tx: Tx, rest: seq<Tx>)
    requires Ordered(executables, PriceOrder(baseFee)) && Offers(executables, b.queues, b.waiting) && executables != []
    ensures IsBest(tx, b, baseFee)
    ensures Ordered(rest, PriceOrder(baseFee)) && Offers(rest, b.queues, b.waiting - {tx.from})
    ensures |rest| == |executables| - 1
  {
    PriceLessIsAnOrder(baseFee);
    tx, rest := Pop(executables, PriceOrder(baseFee));
    forall t | t in executables ensures !PriceLess(t, tx, baseFee) {
      var k :| 0 <= k < |executables| && executables[k] == t;
      RootIsMinimal(executables, PriceOrder(baseFee), k);
    }
    Taken(executables, rest, tx, b.queues, b.waiting);
  }

  lemma Taken(p: seq<Tx>, rest: seq<Tx>, tx: Tx, queues: Queues, waiting: set<Address>)
    requires Offers(p, queues, waiting) && tx in p && multiset(rest) == multiset(p) - multiset{tx}
    ensures Offers(rest, queues, waiting - {tx.from})
  {
    forall t ensures t in rest <==> IsCandidate(t, queues, waiting - {tx.from}) {
      assert t in rest <==> t in multiset(rest);
      assert t in p <==> t in multiset(p);
    }
    forall t | t in rest ensures multiset(rest)[t] == 1 {
      assert t in multiset(rest);
      assert t in multiset(p);
      assert t in p;
    }
  }

  /** The executed transaction is the next one of its sender. */
  lemma PopProgress(before: Queues, executed: seq<Tx>, queues: Queues, tx: Tx)
    requires AllProgress(before, executed, queues) && IsPrimary(tx, queues)
    ensures AllProgress(before, executed + [tx], queues[tx.from := queues[tx.from][1..]])
  {
    var after := queues[tx.from := queues[tx.from][1..]];
    forall a | a in before ensures Progress(before[a], BySender(executed + [tx], a), after[a]) {
      BySenderAppend(executed, tx, a);
      assert Progress(before[a], BySender(executed, a), queues[a]);
      if a == tx.from {
        var done := BySender(executed, a);
        assert before[a][|done|..][0] == tx && before[a][|done|..][1..] == before[a][|done| + 1..];
        assert done + [tx] == before[a][..|done| + 1];
      }
    }
  }

  /** The queue of an account out of the running does not matter. */
  lemma SameOthers(p: seq<Tx>, queues: Queues, waiting: set<Address>, a: Address, q: seq<Tx>)
    requires Offers(p, queues, waiting) && a !in waiting
    ensures Offers(p, queues[a := q], waiting)
  {
    forall t ensures IsCandidate(t, queues, waiting) <==> IsCandidate(t, queues[a := q], waiting) {}
  }

  lemma TailConsecutive(queues: Queues, a: Address)
    requires ValidQueues(queues) && a in queues && queues[a] != []
    ensures ValidQueues(queues[a := queues[a][1..]]) && ValidQueues(queues[a := []])
    ensures |queues[a]| > 1 ==> queues[a][1].from == a
  {
    var q := queues[a];
    assert Consecutive(q, a);
    assert Consecutive(q[1..], a);
  }

  /** Removes an executed transaction from its queue and offers the next one of the sender. */
  method PopExecuted(queues: Queues, executables: seq<Tx>, tx: Tx, baseFee: nat, ghost waiting: set<Address>)
    returns (queues': Queues, executables': seq<Tx>)
    requires ValidQueues(queues) && IsCandidate(tx, queues, waiting)
    requires Ordered(executables, PriceOrder(baseFee)) && Offers(executables, queues, waiting - {tx.from})
    ensures queues' == queues[tx.from := queues[tx.from][1..]] && ValidQueues(queues')
    ensures Ordered(executables', PriceOrder(baseFee)) && Offers(executables', queues', waiting)
  {
    TailConsecutive(queues, tx.from);
    SameOthers(executables, queues, waiting - {tx.from}, tx.from, queues[tx.from][1..]);
    queues', executables' := queues[tx.from := queues[tx.from][1..]], executables;
    if queues'[tx.from] != [] {
      PriceLessIsAnOrder(baseFee);
      var next := queues'[tx.from][0];
      executables' := Push(executables, PriceOrder(baseFee), next);
      Offered(executables, executables', next, queues', waiting - {tx.from});
      assert waiting - {tx.from} + {tx.from} == waiting;
    }
  }

  /** One transaction: it is executed and popped, dropped with its account, demoted, or ends the block. */
  method WriteTransaction(queues: Queues, executables: seq<Tx>, demotions: map<Address, nat>, tx: Tx, outcome: Outcome,
                          gasLimit: nat, baseFee: nat, ghost b: Build)
    returns (queues': Queues, executables': seq<Tx>, demotions': map<Address, nat>, status: Status)
    requires queues == b.queues && demotions == b.demotions && ValidQueues(queues) && IsCandidate(tx, queues, b.waiting)
    requires Ordered(executables, PriceOrder(baseFee)) && Offers(executables, queues, b.waiting - {tx.from})
    ensures status == StatusOf(tx, outcome, gasLimit)
    ensures queues' == After(b, tx, status).queues && demotions' == After(b, tx, status).demotions
    ensures ValidQueues(queues')
    ensures Ordered(executables', PriceOrder(baseFee)) && Offers(executables', queues', After(b, tx, status).waiting)
    ensures status == Executed || executables' == executables
  {
    TailConsecutive(queues, tx.from);
    SameOthers(executables, queues, b.waiting - {tx.from}, tx.from, []);
    queues', executables', demotions' := queues, executables, demotions;
    if tx.msg.gas > gasLimit {
      queues' := queues[tx.from := []];
      return queues', executables', demotions', Failed;
    }
    match outcome
    case Success =>
      queues', executables' := PopExecuted(queues, executables, tx, baseFee, b.waiting);
      return queues', executables', demotions[tx.from := 0], Executed;
    case GasLimitReached =>
      return queues', executables', demotions', Stopped;
    case Recoverable =>
      var count := Demotions(demotions, tx.from);
      if count < PoolAccounts.MAX_ACCOUNT_DEMOTIONS {
        return queues', executables', demotions[tx.from := count + 1], Skipped;
      }
      return queues[tx.from := []], executables', demotions[tx.from := 0], Skipped;
    case Fatal =>
      return queues[tx.from := []], executables', demotions', Failed;
  }

  lemma ReplayAppend(b: Build, picks: seq<Tx>, tx: Tx, outcomes: nat -> Outcome, gasLimit: nat, baseFee: nat)
    requires BestPicks(b, picks, outcomes, gasLimit, baseFee)
    requires IsBest(tx, Replay(b, picks, outcomes, gasLimit), baseFee)
    ensures Replay(b, picks + [tx], outcomes, gasLimit)
         == After(Replay(b, picks, outcomes, gasLimit), tx, StatusOf(tx, outcomes(|picks|), gasLimit))
    ensures BestPicks(b, picks + [tx], outcomes, gasLimit, baseFee)
  {
    var all := picks + [tx];
    assert all[..|picks|] == picks;
    forall k | 0 <= k < |all| ensures IsBest(all[k], Replay(b, all[..k], outcomes, gasLimit), baseFee) {
      if k < |picks| { assert all[..k] == picks[..k]; }
    }
  }

  lemma NoPicks(b: Build, outcomes: nat -> Outcome, gasLimit: nat, baseFee: nat)
    ensures Replay(b, [], outcomes, gasLimit) == b && BestPicks(b, [], outcomes, gasLimit, baseFee)
  {
  }

  lemma SameStops(picks: seq<Tx>, tx: Tx, outcomes: nat -> Outcome, gasLimit: nat)
    ensures forall k :: 0 <= k < |picks| ==>
              (StoppedAt(picks + [tx], outcomes, gasLimit, k) <==> StoppedAt(picks, outcomes, gasLimit, k))
  {
  }

  lemma NothingOffered(executables: seq<Tx>, queues: Queues, waiting: set<Address>)
    requires Offers(executables, queues, waiting)
    ensures executables == [] ==> forall t :: !IsCandidate(t, queues, waiting)
  {
  }

  /** What is left to do gets less: a transaction of the queues, or a candidate. */
  lemma LessToDo(b: Build, tx: Tx, status: Status)
    requires IsPrimary(tx, b.queues)
    ensures Sum(After(b, tx, status).queues, Length) < Sum(b.queues, Length)
            || (status != Executed && After(b, tx, status).queues == b.queues)
    ensures After(b, tx, status).executed == if status == Executed then b.executed + [tx] else b.executed
  {
    SumUpdate(b.queues, Length, tx.from, b.queues[tx.from][1..]);
    SumUpdate(b.queues, Length, tx.from, []);
  }

  /**
   The block-building loop, for every sequence of execution outcomes and every deadline. In every round it takes a
   best candidate and does to the pool what the outcome says. It ends only when no candidate is left, when the
   deadline expires or when the block is full.
   */
  method WriteTransactions(queues: Queues, demotions: map<Address, nat>, outcomes: nat -> Outcome, expired: nat -> bool,
                           gasLimit: nat, baseFee: nat)
    returns (executed: seq<Tx>, left: Queues, counts: map<Address, nat>, picks: seq<Tx>)
    requires ValidQueues(queues)
    ensures BestPicks(Start(queues, demotions), picks, outcomes, gasLimit, baseFee)
    ensures var b := Replay(Start(queues, demotions), picks, outcomes, gasLimit);
            && executed == b.executed && left == b.queues && counts == b.demotions
            && ((forall t :: !IsCandidate(t, left, b.waiting)) || expired(|picks|)
                || (picks != [] && StoppedAt(picks, outcomes, gasLimit, |picks| - 1)))
    ensures forall k :: 0 <= k < |picks| ==> !expired(k)
    ensures forall k :: 0 <= k < |picks| - 1 ==> !StoppedAt(picks, outcomes, gasLimit, k)
  {
    hide Replay, BestPicks, After, Offers, IsPrimary, ValidQueues, StatusOf, Ordered;
    ghost var start := Start(queues, demotions);
    executed, left, counts, picks := [], queues, demotions, [];
    var executables := Prepare(queues, baseFee);
    ghost var b := start;
    NoPicks(start, outcomes, gasLimit, baseFee);
    while executables != [] && !expired(|picks|)
      invariant b == Replay(start, picks, outcomes, gasLimit) && BestPicks(start, picks, outcomes, gasLimit, baseFee)
      invariant executed == b.executed && left == b.queues && counts == b.demotions && ValidQueues(left)
      invariant Ordered(executables, PriceOrder(baseFee)) && Offers(executables, left, b.waiting)
      invariant forall k :: 0 <= k < |picks| ==> !expired(k)
      invariant forall k :: 0 <= k < |picks| ==> !StoppedAt(picks, outcomes, gasLimit, k)
      decreases Sum(left, Length), |executables|
    {
      LengthSumNonNegative(left);
      var tx, rest := Peek(executables, b, baseFee);
      var status;
      LessToDo(b, tx, StatusOf(tx, outcomes(|picks|), gasLimit));
      left, executables, counts, status :=
        WriteTransaction(left, rest, counts, tx, outcomes(|picks|), gasLimit, baseFee, b);
      ReplayAppend(start, picks, tx, outcomes, gasLimit, baseFee);
      SameStops(picks, tx, outcomes, gasLimit);
      b := After(b, tx, status);
      picks := picks + [tx];
      if status == Executed {
        executed := executed + [tx];
      } else if status == Stopped {
        break;
      }
    }
    NothingOffered(executables, left, b.waiting);
  }

  lemma LengthSumNonNegative(queues: Queues)
    ensures Sum(queues, Length) >= 0
  {
    SumNonNegative(queues, Length);
  }

  /** An executed transaction is the next one of its sender; any other leaves the queue alone or clears it. */
  lemma AfterProgress(before: Queues, b: Build, tx: Tx, status: Status)
    requires AllProgress(before, b.executed, b.queues) && IsPrimary(tx, b.queues)
    ensures AllProgress(before, After(b, tx, status).executed, After(b, tx, status).queues)
  {
    if status == Executed {
      PopProgress(before, b.executed, b.queues, tx);
    }
  }

  /**
   The executed transactions of a sender are the first ones of its queue, in order, and the others stay or are
   dropped.
   */
  lemma {:induction false} ExecutedInOrder(queues: Queues, demotions: map<Address, nat>, picks: seq<Tx>,
                                           outcomes: nat -> Outcome, gasLimit: nat, baseFee: nat)
    requires BestPicks(Start(queues, demotions), picks, outcomes, gasLimit, baseFee)
    ensures var b := Replay(Start(queues, demotions), picks, outcomes, gasLimit);
            AllProgress(queues, b.executed, b.queues)
    decreases |picks|
  {
    if picks != [] {
      var k := |picks| - 1;
      EarlierPicks(Start(queues, demotions), picks, outcomes, gasLimit, baseFee, k);
      ExecutedInOrder(queues, demotions, picks[..k], outcomes, gasLimit, baseFee);
      AfterProgress(queues, Replay(Start(queues, demotions), picks[..k], outcomes, gasLimit), picks[k],
                    StatusOf(picks[k], outcomes(k), gasLimit));
    }
  }

  lemma EarlierPicks(b: Build, picks: seq<Tx>, outcomes: nat -> Outcome, gasLimit: nat, baseFee: nat, n: nat)
    requires BestPicks(b, picks, outcomes, gasLimit, baseFee) && n <= |picks|
    ensures BestPicks(b, picks[..n], outcomes, gasLimit, baseFee)
  {
    forall k | 0 <= k < n ensures IsBest(picks[..n][k], Replay(b, picks[..n][..k], outcomes, gasLimit), baseFee) {
      assert picks[..n][..k] == picks[..k];
    }
  }

  lemma RoundAt(b: Build, picks: seq<Tx>, outcomes: nat -> Outcome, gasLimit: nat, baseFee: nat, k: nat)
    requires BestPicks(b, picks, outcomes, gasLimit, baseFee) && k < |picks|
    ensures picks[k].from in Replay(b, picks[..k], outcomes, gasLimit).waiting
    ensures var waiting := Replay(b, picks[..k], outcomes, gasLimit).waiting;
            Replay(b, picks[..k + 1], outcomes, gasLimit).waiting
            == if StatusOf(picks[k], outcomes(k), gasLimit) == Executed then waiting else waiting - {picks[k].from}
  {
    assert picks[..k + 1][..k] == picks[..k];
  }

  /** A sender that was passed over once is not picked again for the block. */
  lemma {:induction false} PassedOverOnce(b: Build, picks: seq<Tx>, outcomes: nat -> Outcome, gasLimit: nat,
                                          baseFee: nat, i: nat, j: nat)
    requires BestPicks(b, picks, outcomes, gasLimit, baseFee) && i < j <= |picks|
    requires StatusOf(picks[i], outcomes(i), gasLimit) != Executed
    ensures picks[i].from !in Replay(b, picks[..j], outcomes, gasLimit).waiting
    ensures j < |picks| ==> picks[j].from != picks[i].from
    decreases j
  {
    hide Replay, BestPicks, StatusOf;
    RoundAt(b, picks, outcomes, gasLimit, baseFee, j - 1);
    if i < j - 1 { PassedOverOnce(b, picks, outcomes, gasLimit, baseFee, i, j - 1); }
    if j < |picks| { RoundAt(b, picks, outcomes, gasLimit, baseFee, j); }
  }

  /** The account is as the build had it. */
  ghost predicate Untouched(b: Build, b': Build, a: Address) {
    && (a in b'.queues <==> a in b.queues) && (a in b.queues && a in b'.queues ==> b'.queues[a] == b.queues[a])
    && Demotions(b'.demotions, a) == Demotions(b.demotions, a) && (a in b'.waiting <==> a in b.waiting)
  }

  /**
   What one more pick does, by gas limit and outcome. Executed: it leaves the front of its queue and the demotions are
   forgotten. Too large or failed for good: the whole queue is dropped. Failed for now: a demotion is counted, and the
   tenth is the last before the queue is dropped. Block full: nothing. Nobody else is affected.
   */
  lemma PickDecides(b: Build, picks: seq<Tx>, tx: Tx, outcomes: nat -> Outcome, gasLimit: nat, other: Address)
    requires IsCandidate(tx, Replay(b, picks, outcomes, gasLimit).queues, Replay(b, picks, outcomes, gasLimit).waiting)
    ensures var s, s' := Replay(b, picks, outcomes, gasLimit), Replay(b, picks + [tx], outcomes, gasLimit);
            var fits, outcome, count := tx.msg.gas <= gasLimit, outcomes(|picks|), Demotions(s.demotions, tx.from);
            && tx.from in s'.queues && (other != tx.from ==> Untouched(s, s', other))
            && (fits && outcome == Success ==>
                  && s'.executed == s.executed + [tx] && [tx] + s'.queues[tx.from] == s.queues[tx.from]
                  && Demotions(s'.demotions, tx.from) == 0 && tx.from in s'.waiting)
            && (!(fits && outcome == Success) ==> s'.executed == s.executed && tx.from !in s'.waiting)
            && (!fits || outcome == Fatal ==>
                  s'.queues[tx.from] == [] && Demotions(s'.demotions, tx.from) == count)
            && (fits && outcome == GasLimitReached ==>
                  s'.queues[tx.from] == s.queues[tx.from] && Demotions(s'.demotions, tx.from) == count)
            && (fits && outcome == Recoverable && count < 10 ==>
                  s'.queues[tx.from] == s.queues[tx.from] && Demotions(s'.demotions, tx.from) == count + 1)
            && (fits && outcome == Recoverable && count >= 10 ==>
                  s'.queues[tx.from] == [] && Demotions(s'.demotions, tx.from) == 0)
  {
    assert (picks + [tx])[..|picks|] == picks;
    var s, s' := Replay(b, picks, outcomes, gasLimit), Replay(b, picks + [tx], outcomes, gasLimit);
    assert s' == After(s, tx, StatusOf(tx, outcomes(|picks|), gasLimit));
    hide Replay;
  }

  /** The nonces of the executed transactions of a sender run up from the head of its promoted queue. */
  lemma ExecutedNoncesAreConsecutive(queues: Queues, executed: seq<Tx>, left: Queues, a: Address, i: nat)
    requires ValidQueues(queues) && AllProgress(queues, executed, left) && a in queues && i < |BySender(executed, a)|
    ensures BySender(executed, a)[i].nonce == queues[a][0].nonce + i
  {
    assert Progress(queues[a], BySender(executed, a), left[a]);
    assert Consecutive(queues[a], a);
  }

  ghost function Listed(m: map<nat, Tx>, lo: nat, hi: nat): seq<Tx>
    requires lo <= hi && forall k :: lo <= k < hi ==> k in m
    decreases hi
  {
    if lo == hi then [] else Listed(m, lo, hi - 1) + [m[hi - 1]]
  }

  lemma {:induction false} ListedAt(m: map<nat, Tx>, lo: nat, hi: nat, i: nat)
    requires lo <= hi && (forall k :: lo <= k < hi ==> k in m) && lo + i < hi
    ensures |Listed(m, lo, hi)| == hi - lo && Listed(m, lo, hi)[i] == m[lo + i]
    decreases hi
  {
    if lo + i < hi - 1 {
      ListedAt(m, lo, hi - 1, i);
    } else if i > 0 {
      ListedAt(m, lo, hi - 1, i - 1);
    }
  }

  /** The promoted queue of a sound account, listed by nonce from its head, is a valid input of the loop. */
  lemma PromotedQueueIsConsecutive(a: PoolAccounts.AccountState, owner: Address)
    requires PoolAccounts.WellFormed(a, owner) && a.promoted != map[]
    ensures var lo := PoolAccounts.Lowest(a.promoted);
            (forall k :: k in a.promoted <==> lo <= k < a.nextNonce) && lo < a.nextNonce
            && Consecutive(Listed(a.promoted, lo, a.nextNonce), owner)
  {
    var lo := PoolAccounts.Lowest(a.promoted);
    var q := Listed(a.promoted, lo, a.nextNonce);
    ListedAt(a.promoted, lo, a.nextNonce, 0);
    forall i | 0 <= i < |q| ensures q[i].from == owner && q[i].nonce == q[0].nonce + i {
      ListedAt(a.promoted, lo, a.nextNonce, i);
    }
  }
}

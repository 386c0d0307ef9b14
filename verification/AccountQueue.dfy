/** The min-nonce heap of one account (txpool/queue_account.go) and the slot count of a list (txpool/slot_gauge.go). */
module AccountQueues {
  import opened Transactions
  import opened SliceHeap

  const TX_SLOT_SIZE: nat := 32 * 1024

  /** Lower nonce first; the higher gas price first between equal nonces. */
  predicate NonceLess(a: Tx, b: Tx) {
    if a.nonce == b.nonce then a.fees.gasPrice > b.fees.gasPrice else a.nonce < b.nonce
  }

  lemma NonceLessIsAnOrder()
    ensures StrictWeakOrder(NonceLess)
  {
  }

  function Slots(t: Tx): (slots: int)
    ensures slots >= 0
  {
    (t.size + TX_SLOT_SIZE - 1) / TX_SLOT_SIZE
  }

  ghost function SlotsOf(txs: seq<Tx>): nat {
    if txs == [] then 0 else SlotsOf(txs[..|txs| - 1]) + Slots(txs[|txs| - 1])
  }

  method SlotsRequired(txs: seq<Tx>) returns (slots: nat)
    ensures slots == SlotsOf(txs)
  {
    slots := 0;
    for i := 0 to |txs|
      invariant slots == SlotsOf(txs[..i])
    {
      assert txs[..i + 1][..i] == txs[..i];
      slots := slots + Slots(txs[i]);
    }
    assert txs[..|txs|] == txs;
  }

  /** The queue holds each transaction of `v` once and nothing else: its nonces are not repeated. */
  ghost predicate Represents(m: multiset<Tx>, v: map<nat, Tx>) {
    && (forall t {:trigger m[t]} :: t in m ==> t.nonce in v && v[t.nonce] == t)
    && (forall n {:trigger m[v[n]]} :: n in v ==> v[n].nonce == n && m[v[n]] == 1)
  }

  ghost function Below(v: map<nat, Tx>, nonce: nat): map<nat, Tx> { map n | n in v && n < nonce :: v[n] }

  ghost function From(v: map<nat, Tx>, nonce: nat): map<nat, Tx> { map n | n in v && n >= nonce :: v[n] }

  lemma RepresentsAdd(m: multiset<Tx>, v: map<nat, Tx>, t: Tx)
    requires Represents(m, v) && t.nonce !in v
    ensures Represents(m + multiset{t}, v[t.nonce := t])
  {
    var w := v[t.nonce := t];
    assert t !in m;
    forall u | u in m + multiset{t} ensures u.nonce in w && w[u.nonce] == u { assert u == t || m[u] > 0; }
    forall n | n in w ensures w[n].nonce == n && (m + multiset{t})[w[n]] == 1 {
      if n != t.nonce { assert m[v[n]] == 1; }
    }
  }

  lemma RepresentsRemove(m: multiset<Tx>, v: map<nat, Tx>, t: Tx)
    requires Represents(m, v) && t in m
    ensures Represents(m - multiset{t}, v - {t.nonce})
  {
    forall n | n in v - {t.nonce} ensures v[n].nonce == n && (m - multiset{t})[v[n]] == 1 { assert m[v[n]] == 1; }
    forall u | u in m - multiset{t} ensures u.nonce in v - {t.nonce} && v[u.nonce] == u {
      assert u in m;
      assert m[v[t.nonce]] == 1;
    }
  }

  lemma RepresentsEmpty(m: multiset<Tx>, v: map<nat, Tx>)
    requires Represents(m, v)
    ensures m == multiset{} <==> v == map[]
  {
    if v == map[] {
      forall t ensures t !in m { }
    }
    if m == multiset{} {
      forall n ensures n !in v { assert n in v ==> m[v[n]] == 1; }
    }
  }

  /** In a queue without repeated nonces the price is never consulted: distinct positions compare by nonce alone. */
  lemma NoncesDecide(q: seq<Tx>, v: map<nat, Tx>, i: nat, j: nat)
    requires Represents(multiset(q), v) && i < |q| && j < |q| && i != j
    ensures q[i].nonce != q[j].nonce && NonceLess(q[i], q[j]) == (q[i].nonce < q[j].nonce)
  {
    var hi := if i < j then j else i;
    assert q == q[..hi] + q[hi..];
    assert multiset(q) == multiset(q[..hi]) + multiset(q[hi..]);
    assert q[i + j - hi] in q[..hi] && q[hi] in q[hi..];
    assert q[i] == q[j] ==> multiset(q)[q[i]] >= 2;
    assert multiset(q)[q[i]] >= 1 && multiset(q)[q[j]] >= 1;
    assert multiset(q)[v[q[i].nonce]] == 1;
  }

  ghost predicate IsLowest(q: map<nat, Tx>, n: nat) { n in q && forall k :: k in q ==> n <= k }

  /** `r` is the entry with the lowest nonce, if there is one. */
  ghost predicate IsFirst(q: map<nat, Tx>, r: Option<Tx>) {
    match r
    case None => q == map[]
    case Some(t) => IsLowest(q, t.nonce) && q[t.nonce] == t
  }

  /** In strictly increasing order of nonce, all below `cut`. */
  ghost predicate AscendingBelow(txs: seq<Tx>, cut: nat) {
    && (forall i, j :: 0 <= i < j < |txs| ==> txs[i].nonce < txs[j].nonce)
    && (forall i :: 0 <= i < |txs| ==> txs[i].nonce < cut)
  }

  lemma AscendingAppend(txs: seq<Tx>, cut: nat, t: Tx)
    requires AscendingBelow(txs, cut) && cut <= t.nonce
    ensures AscendingBelow(txs + [t], t.nonce + 1)
  {
  }

  /** The state of a pruning loop that has removed the nonces below `cut` of `was`. */
  ghost predicate Pruned(was: map<nat, Tx>, cut: nat, content: map<nat, Tx>, pruned: seq<Tx>) {
    content == From(was, cut) && Represents(multiset(pruned), Below(was, cut)) && AscendingBelow(pruned, cut)
  }

  lemma CutLowest(was: map<nat, Tx>, cut: nat, t: Tx, pruned: seq<Tx>)
    requires Pruned(was, cut, From(was, cut), pruned) && IsFirst(From(was, cut), Some(t))
    ensures Pruned(was, t.nonce + 1, From(was, cut) - {t.nonce}, pruned + [t])
  {
    CutMaps(was, cut, t.nonce);
    RepresentsAdd(multiset(pruned), Below(was, cut), t);
    AscendingAppend(pruned, cut, t);
    assert multiset(pruned + [t]) == multiset(pruned) + multiset{t};
  }

  lemma CutMaps(v: map<nat, Tx>, cut: nat, n: nat)
    requires IsLowest(From(v, cut), n)
    ensures From(v, cut) - {n} == From(v, n + 1) && Below(v, cut)[n := v[n]] == Below(v, n + 1) && cut <= n
  {
    forall k | k in v && k < n ensures k < cut { assert k !in From(v, cut); }
  }

  lemma CutDone(v: map<nat, Tx>, cut: nat, nonce: nat)
    requires cut <= nonce && forall n :: n in From(v, cut) ==> nonce <= n
    ensures From(v, cut) == From(v, nonce) && Below(v, cut) == Below(v, nonce)
  {
    forall n | n in v && n >= cut ensures n >= nonce { assert n in From(v, cut); }
  }

  /** The root of the heap carries the lowest nonce. */
  lemma RootIsLowest(q: seq<Tx>, v: map<nat, Tx>)
    requires Ordered(q, NonceLess) && Represents(multiset(q), v)
    ensures q == [] <==> v == map[]
    ensures q != [] ==> IsLowest(v, q[0].nonce) && v[q[0].nonce] == q[0]
  {
    RepresentsEmpty(multiset(q), v);
    if q != [] {
      assert q[0] in multiset(q);
      NonceLessIsAnOrder();
      forall n | n in v ensures q[0].nonce <= n {
        assert multiset(q)[v[n]] == 1;
        var k :| 0 <= k < |q| && q[k] == v[n];
        RootIsMinimal(q, NonceLess, k);
      }
    }
  }

  /** The queue object; `content` is the queue read as a map from nonce to transaction. */
  class AccountQueue {
    ghost const owner: Address
    var queue: seq<Tx>
    ghost var content: map<nat, Tx>

    ghost predicate Valid() reads this { Ordered(queue, NonceLess) && Represents(multiset(queue), content) }

    constructor (ghost owner: Address)
      ensures Valid() && content == map[] && this.owner == owner
    {
      this.owner := owner;
      queue := [];
      content := map[];
    }

    method Push(tx: Tx)
      requires Valid() && tx.nonce !in content
      modifies this
      ensures Valid() && content == old(content)[tx.nonce := tx]
    {
      NonceLessIsAnOrder();
      RepresentsAdd(multiset(queue), content, tx);
      queue := SliceHeap.Push(queue, NonceLess, tx);
      content := content[tx.nonce := tx];
    }

    /** The root of the heap, if there is one. */
    function First(): Option<Tx>
      reads this
    {
      if queue == [] then None else Some(queue[0])
    }

    method Peek() returns (r: Option<Tx>)
      requires Valid()
      ensures r == First() && IsFirst(content, r)
    {
      RootIsLowest(queue, content);
      r := First();
    }

    method Pop() returns (r: Option<Tx>)
      requires Valid()
      modifies this
      ensures Valid() && r == old(First()) && IsFirst(old(content), r)
      ensures content == if r.Some? then old(content) - {r.value.nonce} else old(content)
      ensures |queue| == if r.Some? then old(|queue|) - 1 else old(|queue|)
    {
      NonceLessIsAnOrder();
      RootIsLowest(queue, content);
      if queue == [] {
        return None;
      }
      assert queue[0] in multiset(queue);
      RepresentsRemove(multiset(queue), content, queue[0]);
      var x, q := SliceHeap.Pop(queue, NonceLess);
      queue := q;
      content := content - {x.nonce};
      r := Some(x);
    }

    /** Removes exactly the transactions below `nonce`, lowest first. */
    method Prune(nonce: nat) returns (pruned: seq<Tx>)
      requires Valid()
      modifies this
      ensures Valid() && content == From(old(content), nonce) && |queue| <= old(|queue|)
      ensures Represents(multiset(pruned), Below(old(content), nonce)) && AscendingBelow(pruned, nonce)
    {
      pruned := [];
      ghost var was := content;
      ghost var cut: nat := 0;
      assert From(was, 0) == was && Below(was, 0) == map[];
      var first := Peek();
      while first.Some? && first.value.nonce < nonce
        invariant Valid() && IsFirst(content, first) && cut <= nonce
        invariant Pruned(was, cut, content, pruned)
        invariant |queue| <= old(|queue|)
        decreases |queue|
      {
        cut := first.value.nonce + 1;
        pruned, first := PruneFirst(pruned, first.value, was);
      }
      CutDone(was, cut, nonce);
    }

    method PruneFirst(pruned: seq<Tx>, t: Tx, ghost was: map<nat, Tx>) returns (pruned': seq<Tx>, first: Option<Tx>)
      requires Valid() && IsFirst(content, Some(t)) && exists cut :: Pruned(was, cut, content, pruned)
      modifies this
      ensures Valid() && IsFirst(content, first) && |queue| == old(|queue|) - 1
      ensures Pruned(was, t.nonce + 1, content, pruned')
    {
      ghost var cut :| Pruned(was, cut, content, pruned);
      CutLowest(was, cut, t, pruned);
      var r := Pop();
      pruned' := pruned + [r.value];
      first := Peek();
    }

    method Clear() returns (removed: seq<Tx>)
      requires Valid()
      modifies this
      ensures Valid() && content == map[] && Represents(multiset(removed), old(content))
    {
      removed := queue;
      queue := [];
      content := map[];
    }

    /** Overwrites in place the entry with the same nonce, if there is one; the heap stays ordered. */
    method Replace(tx: Tx) returns (found: bool)
      requires Valid()
      modifies this
      ensures Valid() && (found <==> tx.nonce in old(content))
      ensures content == if found then old(content)[tx.nonce := tx] else old(content)
    {
      var i := 0;
      while i < |queue|
        invariant 0 <= i <= |queue| && queue == old(queue) && content == old(content)
        invariant forall k :: 0 <= k < i ==> queue[k].nonce != tx.nonce
      {
        if queue[i].nonce == tx.nonce {
          ReplaceKeepsOrder(queue, content, i, tx);
          queue := queue[i := tx];
          content := content[tx.nonce := tx];
          return true;
        }
        i := i + 1;
      }
      forall n | n in content
        ensures content[n] in queue && content[n].nonce == n
      {
        assert multiset(queue)[content[n]] == 1;
      }
      return false;
    }

    method Length() returns (n: nat)
      requires Valid()
      ensures n == |content|
    {
      LengthIsSize(queue, content);
      n := |queue|;
    }
  }

  lemma {:induction false} LengthIsSize(q: seq<Tx>, v: map<nat, Tx>)
    requires Represents(multiset(q), v)
    ensures |q| == |v|
  {
    if q == [] {
      RepresentsEmpty(multiset(q), v);
    } else {
      DropLast(q, v);
      var n := q[|q| - 1].nonce;
      assert v.Keys == (v - {n}).Keys + {n};
      LengthIsSize(q[..|q| - 1], v - {n});
    }
  }

  lemma DropLast(txs: seq<Tx>, v: map<nat, Tx>)
    requires Represents(multiset(txs), v) && txs != []
    ensures txs[|txs| - 1].nonce in v && v[txs[|txs| - 1].nonce] == txs[|txs| - 1]
    ensures Represents(multiset(txs[..|txs| - 1]), v - {txs[|txs| - 1].nonce})
  {
    var last := txs[|txs| - 1];
    assert txs == txs[..|txs| - 1] + [last];
    assert multiset(txs) == multiset(txs[..|txs| - 1]) + multiset{last};
    assert multiset(txs[..|txs| - 1]) == multiset(txs) - multiset{last};
    assert last in multiset(txs);
    RepresentsRemove(multiset(txs), v, last);
  }

  lemma ReplaceKeepsOrder(q: seq<Tx>, v: map<nat, Tx>, i: nat, tx: Tx)
    requires Ordered(q, NonceLess) && Represents(multiset(q), v) && i < |q| && q[i].nonce == tx.nonce
    ensures Ordered(q[i := tx], NonceLess) && Represents(multiset(q[i := tx]), v[tx.nonce := tx]) && tx.nonce in v
  {
    var r := q[i := tx];
    forall j | 1 <= j < |r| ensures OrderedAt(r, NonceLess, j) {
      assert OrderedAt(q, NonceLess, j);
      NoncesDecide(q, v, j, (j - 1) / 2);
    }
    assert q[i] in multiset(q);
    RepresentsRemove(multiset(q), v, q[i]);
    RepresentsAdd(multiset(q) - multiset{q[i]}, v - {tx.nonce}, tx);
    assert multiset(r) == multiset(q) - multiset{q[i]} + multiset{tx};
    assert (v - {tx.nonce})[tx.nonce := tx] == v[tx.nonce := tx];
  }
}

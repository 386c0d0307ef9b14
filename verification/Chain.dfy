/**
 Fork choice over a tree of headers (blockchain/blockchain.go): the stored chain, its invariants, and what a write
 does.
 */
module Chains {
  import opened Transactions

  /** A header is identified by its hash. */
  datatype Header = Header(hash: Hash, parentHash: Hash, number: nat, difficulty: nat)

  type Headers = map<Hash, Header>

  /** What the storage holds, with the current header. */
  datatype Chain = Chain(genesis: Header, headers: Headers, td: map<Hash, nat>, canonical: map<nat, Hash>,
                         forks: seq<Hash>, head: Header)

  /** The parent of a header above number zero is stored and numbered one below. */
  predicate HasParent(hs: Headers, h: Header) {
    h.number > 0 ==> h.parentHash in hs && hs[h.parentHash].number == h.number - 1
  }

  predicate LinkedAt(hs: Headers, x: Hash) {
    x in hs ==> hs[x].hash == x && HasParent(hs, hs[x])
  }

  ghost predicate Linked(hs: Headers) {
    forall x :: LinkedAt(hs, x)
  }

  ghost predicate Rooted(hs: Headers, genesis: Header) {
    && genesis.number == 0 && genesis.hash in hs && hs[genesis.hash] == genesis && genesis.parentHash !in hs
    && (forall x :: x in hs && hs[x].number == 0 ==> hs[x] == genesis)
  }

  ghost predicate TdOk(c: Chain) {
    && c.td.Keys == c.headers.Keys
    && (forall x :: TdAt(c, x))
  }

  predicate TdAt(c: Chain, x: Hash) {
    x in c.headers && c.headers[x].number > 0 ==>
      var p := c.headers[x].parentHash;
      x in c.td && p in c.td && c.td[x] == c.td[p] + c.headers[x].difficulty
  }

  /** The head is stored, has the largest total difficulty, and no stored header is its child. */
  ghost predicate HeadOk(c: Chain) {
    && c.head.hash in c.headers && c.headers[c.head.hash] == c.head && c.head.hash in c.td
    && HasParent(c.headers, c.head)
    && (forall x :: x in c.td ==> c.td[x] <= c.td[c.head.hash])
    && (forall x :: x in c.headers ==> c.headers[x].parentHash != c.head.hash)
  }

  ghost predicate Inv(c: Chain) {
    Linked(c.headers) && Rooted(c.headers, c.genesis) && TdOk(c) && HeadOk(c)
  }

  // Ancestors.

  /** The ancestor at height `n` of a header that is stored or whose parent is. */
  ghost function Ancestor(hs: Headers, h: Header, n: nat): (r: Header)
    requires Linked(hs) && HasParent(hs, h) && n <= h.number
    ensures r.number == n
    ensures n < h.number ==> r.hash in hs && hs[r.hash] == r
    decreases h.number
  {
    if n == h.number then h
    else
      assert LinkedAt(hs, h.parentHash);
      Ancestor(hs, hs[h.parentHash], n)
  }

  lemma {:induction false} AncestorOfAncestor(hs: Headers, h: Header, n: nat, j: nat)
    requires Linked(hs) && HasParent(hs, h) && j <= n <= h.number
    ensures HasParent(hs, Ancestor(hs, h, n))
    ensures Ancestor(hs, Ancestor(hs, h, n), j) == Ancestor(hs, h, j)
    decreases h.number
  {
    if n < h.number {
      assert LinkedAt(hs, h.parentHash);
      AncestorOfAncestor(hs, hs[h.parentHash], n, j);
    }
  }

  /** One step down a branch. */
  lemma AncestorParent(hs: Headers, h: Header, n: nat)
    requires Linked(hs) && HasParent(hs, h) && 0 < n <= h.number
    ensures Ancestor(hs, h, n).parentHash in hs && hs[Ancestor(hs, h, n).parentHash] == Ancestor(hs, h, n - 1)
  {
    AncestorOfAncestor(hs, h, n, n - 1);
  }

  /** Branches that meet at a height have met at all lower ones. */
  lemma MeetBelow(hs: Headers, a: Header, b: Header, n: nat, j: nat)
    requires Linked(hs) && HasParent(hs, a) && HasParent(hs, b)
    requires j <= n <= a.number && n <= b.number && Ancestor(hs, a, n) == Ancestor(hs, b, n)
    ensures Ancestor(hs, a, j) == Ancestor(hs, b, j)
  {
    AncestorOfAncestor(hs, a, n, j);
    AncestorOfAncestor(hs, b, n, j);
  }

  /** Storing one more header does not change the branch of another. */
  lemma {:induction false} AncestorGrows(hs: Headers, h: Header, n: nat, x: Header)
    requires Linked(hs) && HasParent(hs, h) && n <= h.number
    requires x.hash in hs ==> hs[x.hash] == x
    requires Linked(hs[x.hash := x])
    ensures HasParent(hs[x.hash := x], h) && Ancestor(hs[x.hash := x], h, n) == Ancestor(hs, h, n)
    decreases h.number
  {
    if n < h.number {
      assert LinkedAt(hs, h.parentHash);
      AncestorGrows(hs, hs[h.parentHash], n, x);
    }
  }

  /** The height at which two branches part: they agree up to `k` and nowhere above. */
  ghost predicate ForkPoint(hs: Headers, a: Header, b: Header, k: nat)
    requires Linked(hs) && HasParent(hs, a) && HasParent(hs, b)
  {
    && k <= a.number && k <= b.number
    && Ancestor(hs, a, k) == Ancestor(hs, b, k)
    && forall j :: k < j <= a.number && j <= b.number ==> Ancestor(hs, a, j) != Ancestor(hs, b, j)
  }

  // Writing a header.

  /**
   What the callers check of a header before it is written: hashes do not collide, and it is numbered after its
   parent.
   */
  ghost predicate Writable(c: Chain, h: Header) {
    && (h.hash in c.headers ==> c.headers[h.hash] == h)
    && h.hash != c.genesis.parentHash && h.hash != h.parentHash
    && (h.parentHash in c.headers ==> h.number == c.headers[h.parentHash].number + 1)
  }

  predicate Known(c: Chain, h: Header) { h.parentHash in c.td }

  function IncomingTd(c: Chain, h: Header): nat
    requires Known(c, h)
  {
    c.td[h.parentHash] + h.difficulty
  }

  predicate Extends(c: Chain, h: Header) { h.parentHash == c.head.hash }

  predicate Overtakes(c: Chain, h: Header) {
    !Extends(c, h) && Known(c, h) && c.head.hash in c.td && IncomingTd(c, h) > c.td[c.head.hash]
  }

  function Without(forks: seq<Hash>, x: Hash): seq<Hash> {
    if forks == [] then []
    else Without(forks[..|forks| - 1], x) + if forks[|forks| - 1] != x then [forks[|forks| - 1]] else []
  }

  function ForksToWrite(forks: seq<Hash>, h: Header): seq<Hash> { Without(forks, h.parentHash) + [h.hash] }

  /** The canonical index after a reorganisation: rewritten from the old head's height to the new head. */
  ghost predicate Reindexed(c: Chain, h: Header, canonical: map<nat, Hash>)
    requires Linked(c.headers) && HasParent(c.headers, h)
  {
    && (forall j :: j in canonical <==> j in c.canonical || j == h.number || c.head.number <= j <= h.number)
    && (forall j :: j in canonical ==>
          canonical[j] == if j == h.number || c.head.number <= j <= h.number
                          then Ancestor(c.headers, h, j).hash
                          else c.canonical[j])
  }

  /** What one write makes of the chain. */
  ghost predicate Wrote(c: Chain, h: Header, c': Chain)
    requires Linked(c.headers) && HasParent(c.headers, h) && Known(c, h)
  {
    && c'.genesis == c.genesis
    && c'.headers == c.headers[h.hash := h]
    && c'.td == c.td[h.hash := IncomingTd(c, h)]
    && (if Extends(c, h) then c'.head == h && c'.forks == c.forks && c'.canonical == c.canonical[h.number := h.hash]
        else if Overtakes(c, h) then
          c'.head == h && c'.forks == ForksToWrite(c.forks, c.head) && Reindexed(c, h, c'.canonical)
        else c'.head == c.head && c'.forks == ForksToWrite(c.forks, h) && c'.canonical == c.canonical)
  }

  /** A stored header written again has the total difficulty it is stored with. */
  lemma StoredTd(c: Chain, h: Header)
    requires Inv(c) && Writable(c, h) && Known(c, h)
    ensures h.hash in c.headers ==> c.td[h.hash] == IncomingTd(c, h)
  {
    assert TdAt(c, h.hash);
  }

  /** A header that extends or overtakes the head was not stored before, and nothing stored descends from it. */
  lemma NewHeadIsNew(c: Chain, h: Header)
    requires Inv(c) && Writable(c, h) && Known(c, h) && (Extends(c, h) || Overtakes(c, h))
    ensures h.hash !in c.headers
    ensures forall x :: x in c.headers ==> c.headers[x].parentHash != h.hash
  {
    StoredTd(c, h);
    forall x | x in c.headers ensures c.headers[x].parentHash != h.hash { assert LinkedAt(c.headers, x); }
  }

  lemma WriteKeepsLinks(c: Chain, h: Header)
    requires Inv(c) && Writable(c, h) && Known(c, h)
    ensures HasParent(c.headers, h) && h.number > 0
    ensures Linked(c.headers[h.hash := h]) && Rooted(c.headers[h.hash := h], c.genesis)
  {
    var hs := c.headers[h.hash := h];
    forall x ensures LinkedAt(hs, x) { assert LinkedAt(c.headers, x); }
  }

  lemma WriteKeepsTd(c: Chain, h: Header, c': Chain)
    requires Inv(c) && Writable(c, h) && Known(c, h) && HasParent(c.headers, h) && Wrote(c, h, c')
    ensures TdOk(c')
    ensures forall x :: x in c.td ==> x in c'.td && c'.td[x] == c.td[x]
  {
    StoredTd(c, h);
    forall x ensures TdAt(c', x) { assert TdAt(c, x); }
  }

  lemma WriteKeepsHead(c: Chain, h: Header, c': Chain)
    requires Inv(c) && Writable(c, h) && Known(c, h) && HasParent(c.headers, h) && Wrote(c, h, c')
    ensures HeadOk(c') && c'.td[c'.head.hash] >= c.td[c.head.hash]
  {
    WriteKeepsTd(c, h, c');
    if Extends(c, h) || Overtakes(c, h) { NewHeadIsNew(c, h); }
  }

  /** Every write keeps the invariant, and the head's total difficulty never falls. */
  lemma WriteKeepsInv(c: Chain, h: Header, c': Chain)
    requires Inv(c) && Writable(c, h) && Known(c, h) && HasParent(c.headers, h) && Wrote(c, h, c')
    ensures Inv(c') && c'.td[c'.head.hash] >= c.td[c.head.hash]
  {
    WriteKeepsLinks(c, h);
    WriteKeepsTd(c, h, c');
    WriteKeepsHead(c, h, c');
  }

  function Start(genesis: Header): Chain {
    Chain(genesis, map[genesis.hash := genesis], map[genesis.hash := genesis.difficulty], map[0 := genesis.hash], [],
      genesis)
  }

  /** A run of writes; a header whose parent is unknown is refused and changes nothing. */
  ghost predicate Run(cs: seq<Chain>, hs: seq<Header>, genesis: Header) {
    && |cs| == |hs| + 1 && cs[0] == Start(genesis)
    && genesis.number == 0 && genesis.parentHash != genesis.hash
    && forall i :: 0 <= i < |hs| ==> Step(cs[i], hs[i], cs[i + 1])
  }

  ghost predicate Step(c: Chain, h: Header, c': Chain) {
    Writable(c, h) && if Known(c, h) && Linked(c.headers) && HasParent(c.headers, h) then Wrote(c, h, c') else c' == c
  }

  /** Over every run the invariant holds, and the head's total difficulty never falls. */
  lemma {:induction false} RunsAreSound(cs: seq<Chain>, hs: seq<Header>, genesis: Header, i: nat, j: nat)
    requires Run(cs, hs, genesis) && i <= j < |cs|
    ensures Inv(cs[i]) && Inv(cs[j]) && cs[i].td[cs[i].head.hash] <= cs[j].td[cs[j].head.hash]
    decreases j
  {
    if j > i {
      RunsAreSound(cs, hs, genesis, i, j - 1);
      StepKeepsInv(cs[j - 1], hs[j - 1], cs[j]);
    } else if j > 0 {
      RunsAreSound(cs, hs, genesis, j - 1, j - 1);
      StepKeepsInv(cs[j - 1], hs[j - 1], cs[j]);
    }
  }

  lemma StepKeepsInv(c: Chain, h: Header, c': Chain)
    requires Inv(c) && Step(c, h, c')
    ensures Inv(c') && c'.td[c'.head.hash] >= c.td[c.head.hash]
  {
    if Known(c, h) {
      WriteKeepsLinks(c, h);
      WriteKeepsInv(c, h, c');
    }
  }

  /** The difficulties of a header and of all its ancestors, added up. */
  ghost function Weight(hs: Headers, h: Header): nat
    requires Linked(hs) && HasParent(hs, h)
    decreases h.number
  {
    if h.number == 0 then h.difficulty
    else
      assert LinkedAt(hs, h.parentHash);
      h.difficulty + Weight(hs, hs[h.parentHash])
  }

  lemma GenesisKeepsTd(c: Chain, h: Header, c': Chain)
    requires Inv(c) && Step(c, h, c')
    ensures c'.genesis == c.genesis && c'.td[c.genesis.hash] == c.td[c.genesis.hash]
  {
    assert h.hash == c.genesis.hash ==> h == c.genesis;
  }

  lemma {:induction false} GenesisTd(cs: seq<Chain>, hs: seq<Header>, genesis: Header, j: nat)
    requires Run(cs, hs, genesis) && j < |cs|
    ensures Inv(cs[j]) && cs[j].genesis == genesis && cs[j].td[genesis.hash] == genesis.difficulty
  {
    RunsAreSound(cs, hs, genesis, j, j);
    if j > 0 {
      GenesisTd(cs, hs, genesis, j - 1);
      GenesisKeepsTd(cs[j - 1], hs[j - 1], cs[j]);
    }
  }

  lemma {:induction false} TdIsWeight(c: Chain, x: Hash)
    requires Inv(c) && c.td[c.genesis.hash] == c.genesis.difficulty && x in c.headers
    ensures LinkedAt(c.headers, x) && c.td[x] == Weight(c.headers, c.headers[x])
    decreases c.headers[x].number
  {
    assert LinkedAt(c.headers, x) && TdAt(c, x);
    if c.headers[x].number > 0 { TdIsWeight(c, c.headers[x].parentHash); }
  }

  /** In every run the head is a heaviest of all stored headers, by the difficulties of their whole branches. */
  lemma HeadIsHeaviest(cs: seq<Chain>, hs: seq<Header>, genesis: Header, j: nat, x: Hash)
    requires Run(cs, hs, genesis) && j < |cs| && x in cs[j].headers
    ensures Inv(cs[j]) && LinkedAt(cs[j].headers, x)
    ensures Weight(cs[j].headers, cs[j].headers[x]) <= Weight(cs[j].headers, cs[j].head)
  {
    GenesisTd(cs, hs, genesis, j);
    TdIsWeight(cs[j], x);
    TdIsWeight(cs[j], cs[j].head.hash);
  }

  /** The head moves to a child of it, whatever its difficulty, and else only to a strictly heavier branch. */
  lemma HeadChosenExactly(c: Chain, h: Header, c': Chain)
    requires Inv(c) && Writable(c, h) && Known(c, h) && HasParent(c.headers, h) && Wrote(c, h, c')
    requires c.td[c.genesis.hash] == c.genesis.difficulty && h.parentHash in c.headers
    ensures LinkedAt(c.headers, h.parentHash)
    ensures c'.head == if || h.parentHash == c.head.hash
                          || Weight(c.headers, c.headers[h.parentHash]) + h.difficulty > Weight(c.headers, c.head)
                       then h else c.head
  {
    TdIsWeight(c, h.parentHash);
    TdIsWeight(c, c.head.hash);
  }

  /** The fork list loses the parent, which is no tip any more, and gains the header. */
  lemma {:induction false} ForksExactly(forks: seq<Hash>, h: Header, x: Hash)
    ensures x in ForksToWrite(forks, h) <==> x == h.hash || (x in forks && x != h.parentHash)
    decreases |forks|
  {
    if forks != [] { ForksExactly(forks[..|forks| - 1], h, x); }
  }

  // The canonical index.

  /** The index holds the head's branch and nothing else. */
  ghost predicate IndexExact(c: Chain)
    requires Linked(c.headers) && HasParent(c.headers, c.head)
  {
    Covers(c.canonical, c.head.number) && EntriesRight(c)
  }

  ghost predicate Covers(canonical: map<nat, Hash>, n: nat) {
    forall j :: j in canonical <==> 0 <= j <= n
  }

  ghost predicate EntriesRight(c: Chain)
    requires Linked(c.headers) && HasParent(c.headers, c.head)
  {
    forall j :: j in c.canonical && j <= c.head.number ==> c.canonical[j] == Ancestor(c.headers, c.head, j).hash
  }

  lemma EntryStaysRight(c: Chain, h: Header, c': Chain, j: nat)
    requires Inv(c) && Inv(c') && Writable(c, h) && Known(c, h) && HasParent(c.headers, h) && Wrote(c, h, c')
    requires !Overtakes(c, h)
    requires EntriesRight(c) && Covers(c.canonical, c.head.number) && j <= c'.head.number
    ensures j in c'.canonical && c'.canonical[j] == Ancestor(c'.headers, c'.head, j).hash
  {
    if j <= c.head.number { AncestorGrows(c.headers, c.head, j, h); }
  }

  /** An extension or a side branch keeps an exact index exact. */
  lemma IndexStaysExact(c: Chain, h: Header, c': Chain)
    requires Inv(c) && Writable(c, h) && Known(c, h) && HasParent(c.headers, h) && Wrote(c, h, c') && !Overtakes(c, h)
    requires IndexExact(c)
    ensures Inv(c') && IndexExact(c')
  {
    WriteKeepsInv(c, h, c');
    assert Covers(c'.canonical, c'.head.number) by { hide Inv, EntriesRight, Reindexed; }
    assert EntriesRight(c') by {
      forall j: nat | j <= c'.head.number
        ensures j in c'.canonical ==> c'.canonical[j] == Ancestor(c'.headers, c'.head, j).hash
      {
        EntryStaysRight(c, h, c', j);
      }
    }
  }

  /** Different headers at one height of two branches have different hashes. */
  lemma HashesTellApart(c: Chain, h: Header, j: nat)
    requires Inv(c) && HasParent(c.headers, h) && h.hash !in c.headers && j <= c.head.number && j <= h.number
    ensures Ancestor(c.headers, c.head, j).hash == Ancestor(c.headers, h, j).hash <==>
            Ancestor(c.headers, c.head, j) == Ancestor(c.headers, h, j)
  {
  }

  /**
   Which entries a reorganisation leaves right: those up to the fork point, those from the old head's height on, and
   the new head's.
   */
  lemma ReorgEntries(c: Chain, h: Header, c': Chain, k: nat, j: nat)
    requires Inv(c) && Writable(c, h) && Overtakes(c, h) && HasParent(c.headers, h) && Wrote(c, h, c')
    requires IndexExact(c) && ForkPoint(c.headers, c.head, h, k) && j <= h.number
    ensures Inv(c') && (j in c'.canonical)
    ensures c'.canonical[j] == Ancestor(c'.headers, h, j).hash <==> j <= k || c.head.number <= j || j == h.number
  {
    WriteKeepsInv(c, h, c');
    NewHeadIsNew(c, h);
    AncestorGrows(c.headers, h, j, h);
    if j <= c.head.number && j < h.number {
      HashesTellApart(c, h, j);
      if j <= k { MeetBelow(c.headers, c.head, h, k, j); }
    }
  }

  /** A reorganisation leaves the index exact if and only if it abandons one header and does not lose height. */
  lemma ReorgIndexExactly(c: Chain, h: Header, c': Chain, k: nat)
    requires Inv(c) && Writable(c, h) && Overtakes(c, h) && HasParent(c.headers, h) && Wrote(c, h, c')
    requires IndexExact(c) && ForkPoint(c.headers, c.head, h, k) && k < c.head.number
    ensures Inv(c') && (IndexExact(c') <==> h.number >= c.head.number && k == c.head.number - 1)
  {
    WriteKeepsInv(c, h, c');
    if h.number < c.head.number {
      assert c.head.number in c'.canonical;
    } else {
      forall j | 0 <= j <= h.number ensures j in c'.canonical
        ensures c'.canonical[j] == Ancestor(c'.headers, h, j).hash <==> j <= k || c.head.number <= j || j == h.number
      {
        ReorgEntries(c, h, c', k, j);
      }
      assert k + 1 in c'.canonical;
    }
  }

  /** A reorganisation that abandons only the old head, for a branch at least as high. */
  ghost predicate Shallow(c: Chain, h: Header)
    requires Linked(c.headers) && HasParent(c.headers, c.head) && HasParent(c.headers, h)
  {
    0 < c.head.number <= h.number && ForkPoint(c.headers, c.head, h, c.head.number - 1)
  }

  /** The index is exact throughout every run whose reorganisations are shallow. */
  lemma {:induction false} ShallowRunsKeepIndex(cs: seq<Chain>, hs: seq<Header>, genesis: Header, j: nat)
    requires Run(cs, hs, genesis) && j < |cs|
    requires forall i :: 0 <= i < j && Overtakes(cs[i], hs[i]) && Inv(cs[i]) && HasParent(cs[i].headers, hs[i]) ==>
             Shallow(cs[i], hs[i])
    ensures Inv(cs[j]) && IndexExact(cs[j])
  {
    RunsAreSound(cs, hs, genesis, j, j);
    if j > 0 {
      var c, h, c' := cs[j - 1], hs[j - 1], cs[j];
      ShallowRunsKeepIndex(cs, hs, genesis, j - 1);
      assert Step(c, h, c');
      if Known(c, h) {
        WriteKeepsLinks(c, h);
        if Overtakes(c, h) { ReorgIndexExactly(c, h, c', c.head.number - 1); } else { IndexStaysExact(c, h, c'); }
      }
    }
  }
}

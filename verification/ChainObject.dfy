/** Pending writes to the chain database (blockchain/storage/batch_writer.go). */
module ChainStorage {
  import opened Transactions
  import opened Chains

  /** The key-value tables that hold the chain. */
  datatype Store = Store(headers: Headers, td: map<Hash, nat>, canonical: map<nat, Hash>, forks: seq<Hash>,
                         headHash: Hash, headNumber: nat)

  datatype Put =
    | PutHeader(header: Header)
    | PutTotalDifficulty(hash: Hash, td: nat)
    | PutCanonicalHash(number: nat, hash: Hash)
    | PutForks(forks: seq<Hash>)
    | PutHead(hash: Hash, number: nat)

  function ApplyPut(s: Store, p: Put): Store {
    match p
    case PutHeader(h) => s.(headers := s.headers[h.hash := h])
    case PutTotalDifficulty(x, d) => s.(td := s.td[x := d])
    case PutCanonicalHash(n, x) => s.(canonical := s.canonical[n := x])
    case PutForks(forks) => s.(forks := forks)
    case PutHead(x, n) => s.(headHash := x, headNumber := n)
  }

  function ApplyAll(s: Store, puts: seq<Put>): Store {
    if puts == [] then s else ApplyPut(ApplyAll(s, puts[..|puts| - 1]), puts[|puts| - 1])
  }

  lemma {:induction false} ApplyConcat(s: Store, a: seq<Put>, b: seq<Put>)
    ensures ApplyAll(s, a + b) == ApplyAll(ApplyAll(s, a), b)
    decreases |b|
  {
    if b == [] {
      assert a + b == a;
    } else {
      var n := |b| - 1;
      assert (a + b)[..|a + b| - 1] == a + b[..n];
      ApplyConcat(s, a, b[..n]);
    }
  }

  lemma ApplyOne(s: Store, p: Put)
    ensures ApplyAll(s, [p]) == ApplyPut(s, p)
  {
    assert [p][..0] == [];
  }

  /** The writes of a new canonical head. */
  function HeadPuts(h: Header, td: nat): seq<Put> {
    [PutHeader(h), PutHead(h.hash, h.number), PutCanonicalHash(h.number, h.hash), PutTotalDifficulty(h.hash, td)]
  }

  lemma ApplyHead(s: Store, h: Header, td: nat)
    ensures ApplyAll(s, HeadPuts(h, td)) ==
            Store(s.headers[h.hash := h], s.td[h.hash := td], s.canonical[h.number := h.hash], s.forks, h.hash,
              h.number)
  {
    var p := HeadPuts(h, td);
    assert p == (([p[0]] + [p[1]]) + [p[2]]) + [p[3]];
    ApplyConcat(s, ([p[0]] + [p[1]]) + [p[2]], [p[3]]);
    ApplyConcat(s, [p[0]] + [p[1]], [p[2]]);
    ApplyConcat(s, [p[0]], [p[1]]);
    ApplyOne(s, p[0]);
    ApplyOne(ApplyPut(s, p[0]), p[1]);
    ApplyOne(ApplyPut(ApplyPut(s, p[0]), p[1]), p[2]);
    ApplyOne(ApplyPut(ApplyPut(ApplyPut(s, p[0]), p[1]), p[2]), p[3]);
  }

  /** The writes of a side branch. */
  function SidePuts(h: Header, td: nat, forks: seq<Hash>): seq<Put> {
    [PutHeader(h), PutTotalDifficulty(h.hash, td), PutForks(forks)]
  }

  lemma ApplySide(s: Store, h: Header, td: nat, forks: seq<Hash>)
    ensures ApplyAll(s, SidePuts(h, td, forks))
            == s.(headers := s.headers[h.hash := h], td := s.td[h.hash := td], forks := forks)
  {
    var p := SidePuts(h, td, forks);
    assert p == ([p[0]] + [p[1]]) + [p[2]];
    ApplyConcat(s, [p[0]] + [p[1]], [p[2]]);
    ApplyConcat(s, [p[0]], [p[1]]);
    ApplyOne(s, p[0]);
    ApplyOne(ApplyPut(s, p[0]), p[1]);
    ApplyOne(ApplyPut(ApplyPut(s, p[0]), p[1]), p[2]);
  }

  function CanonicalPuts(hs: seq<Header>): seq<Put> {
    if hs == [] then [] else CanonicalPuts(hs[..|hs| - 1]) + [PutCanonicalHash(hs[|hs| - 1].number, hs[|hs| - 1].hash)]
  }

  /** The headers below `h` on its branch, in descending order. */
  ghost predicate Descent(hs: Headers, h: Header, s: seq<Header>)
    requires Linked(hs) && HasParent(hs, h)
  {
    |s| <= h.number && forall i :: 0 <= i < |s| ==> s[i] == Ancestor(hs, h, h.number - 1 - i)
  }

  /** The index `to` is `from` with the entries of `h`'s branch from height `low` up to, but without, `h`. */
  ghost predicate Rewritten(hs: Headers, h: Header, low: nat, from: map<nat, Hash>, to: map<nat, Hash>)
    requires Linked(hs) && HasParent(hs, h)
  {
    && (forall j :: j in to <==> j in from || low <= j < h.number)
    && (forall j :: j in to ==> to[j] == if low <= j < h.number then Ancestor(hs, h, j).hash else from[j])
  }

  lemma RewrittenStep(hs: Headers, h: Header, low: nat, from: map<nat, Hash>, to: map<nat, Hash>)
    requires Linked(hs) && HasParent(hs, h) && low < h.number && Rewritten(hs, h, low + 1, from, to)
    ensures Rewritten(hs, h, low, from, to[low := Ancestor(hs, h, low).hash])
  {
  }

  lemma {:induction false} ApplyDescent(st: Store, hs: Headers, h: Header, s: seq<Header>)
    requires Linked(hs) && HasParent(hs, h) && Descent(hs, h, s)
    ensures var st' := ApplyAll(st, CanonicalPuts(s));
            st' == st.(canonical := st'.canonical) && Rewritten(hs, h, h.number - |s|, st.canonical, st'.canonical)
    decreases |s|
  {
    if s == [] {
      assert Rewritten(hs, h, h.number, st.canonical, st.canonical);
    } else {
      var n := |s| - 1;
      var low := h.number - 1 - n;
      assert Descent(hs, h, s[..n]) && s[n] == Ancestor(hs, h, low);
      hide Rewritten, Descent, Ancestor, Linked, HasParent;
      ApplyDescent(st, hs, h, s[..n]);
      var st' := ApplyAll(st, CanonicalPuts(s[..n]));
      var put := PutCanonicalHash(s[n].number, s[n].hash);
      ApplyConcat(st, CanonicalPuts(s[..n]), [put]);
      ApplyOne(st', put);
      RewrittenStep(hs, h, low, st.canonical, st'.canonical);
    }
  }

  class BatchWriter {
    var puts: seq<Put>

    constructor ()
      ensures puts == []
    {
      puts := [];
    }

    method Put(p: Put)
      modifies this
      ensures puts == old(puts) + [p]
    {
      puts := puts + [p];
    }

    method PutCanonicalHashes(hs: seq<Header>)
      modifies this
      ensures puts == old(puts) + CanonicalPuts(hs)
    {
      for i := 0 to |hs|
        invariant puts == old(puts) + CanonicalPuts(hs[..i])
      {
        assert hs[..i + 1][..i] == hs[..i];
        Put(PutCanonicalHash(hs[i].number, hs[i].hash));
      }
      assert hs[..|hs|] == hs;
    }

    method PutCanonicalHeader(h: Header, td: nat)
      modifies this
      ensures puts == old(puts) + HeadPuts(h, td)
    {
      Put(PutHeader(h));
      Put(PutHead(h.hash, h.number));
      Put(PutCanonicalHash(h.number, h.hash));
      Put(PutTotalDifficulty(h.hash, td));
    }
  }
}

/** The blockchain object: storage, caches and the current header (blockchain/blockchain.go). */
module Blockchains {
  import opened Transactions
  import opened Chains
  import opened ChainStorage

  datatype EventType = EventHead | EventReorg | EventFork

  class Event {
    var oldChain: seq<Header>
    var newChain: seq<Header>
    var kind: EventType
    var difficulty: Option<nat>

    constructor ()
      ensures oldChain == [] && newChain == [] && kind == EventHead && difficulty == None
    {
      oldChain, newChain, kind, difficulty := [], [], EventHead, None;
    }

    method AddNewHeader(h: Header)
      modifies `newChain
      ensures newChain == old(newChain) + [h]
    {
      newChain := newChain + [h];
    }

    method AddOldHeader(h: Header)
      modifies `oldChain
      ensures oldChain == old(oldChain) + [h]
    {
      oldChain := oldChain + [h];
    }

    /** The walked old chain without the meeting point, then the old head; the new head, then the walked new chain. */
    method Reorganise(walkedOld: seq<Header>, walkedNew: seq<Header>, oldHead: Header, newHead: Header, td: nat)
      requires oldChain == [] && newChain == [] && walkedOld != []
      modifies this
      ensures oldChain == walkedOld[..|walkedOld| - 1] + [oldHead]
      ensures newChain == [newHead] + walkedNew
      ensures kind == EventReorg && difficulty == Some(td)
    {
      for i := 0 to |walkedOld| - 1
        invariant oldChain == walkedOld[..i] && newChain == []
      {
        AddOldHeader(walkedOld[i]);
      }
      AddOldHeader(oldHead);
      AddNewHeader(newHead);
      for i := 0 to |walkedNew|
        invariant newChain == [newHead] + walkedNew[..i]
        invariant oldChain == walkedOld[..|walkedOld| - 1] + [oldHead]
      {
        AddNewHeader(walkedNew[i]);
      }
      kind, difficulty := EventReorg, Some(td);
    }
  }

  /**
   The event's old chain after a reorganisation: the abandoned headers below the old head, descending, then the old
   head.
   */
  ghost predicate Abandons(hs: Headers, head: Header, k: nat, s: seq<Header>)
    requires Linked(hs) && HasParent(hs, head)
  {
    && k < head.number && |s| == head.number - k
    && (forall i :: 0 <= i < |s| - 1 ==> s[i] == Ancestor(hs, head, head.number - 1 - i))
    && s[|s| - 1] == head
  }

  /** It holds exactly the headers of the old branch above the fork point. */
  lemma AbandonedHeaders(hs: Headers, head: Header, k: nat, s: seq<Header>, x: Header)
    requires Linked(hs) && HasParent(hs, head) && Abandons(hs, head, k, s)
    ensures x in s <==> exists j: nat :: k < j <= head.number && x == Ancestor(hs, head, j)
  {
    if x in s {
      var i: nat :| i < |s| && s[i] == x;
      var j: nat := if i == |s| - 1 then head.number else head.number - 1 - i;
      assert k < j <= head.number && x == Ancestor(hs, head, j);
      assert exists j: nat :: k < j <= head.number && x == Ancestor(hs, head, j);
    }
    if exists j: nat :: k < j <= head.number && x == Ancestor(hs, head, j) {
      var j: nat :| k < j <= head.number && x == Ancestor(hs, head, j);
      var i: nat := if j == head.number then |s| - 1 else head.number - 1 - j;
      assert s[i] == x;
    }
  }

  /** The event's new chain: the new head and its ancestors down to the old head's height, descending. */
  ghost predicate Adopts(hs: Headers, head: Header, h: Header, s: seq<Header>)
    requires Linked(hs) && HasParent(hs, h)
  {
    && |s| == 1 + (if h.number > head.number then h.number - head.number else 0)
    && |s| <= h.number + 1
    && forall i :: 0 <= i < |s| ==> s[i] == Ancestor(hs, h, h.number - i)
  }

  /**
   The last header of the new chain, which the event reports as its header, is the new head only if the chain did not
   grow.
   */
  lemma EventHeaderIsHeadExactly(hs: Headers, head: Header, h: Header, s: seq<Header>)
    requires Linked(hs) && HasParent(hs, h) && Adopts(hs, head, h, s)
    ensures s[|s| - 1] == h <==> h.number <= head.number
    ensures h.number > head.number ==> s[|s| - 1] == Ancestor(hs, h, head.number)
  {
    assert s[|s| - 1] == Ancestor(hs, h, h.number - (|s| - 1));
  }

  ghost predicate Reports(c: Chain, h: Header, kind: EventType, oldChain: seq<Header>, newChain: seq<Header>)
    requires Linked(c.headers) && HasParent(c.headers, c.head) && HasParent(c.headers, h)
  {
    if Extends(c, h) then kind == EventHead && oldChain == [] && newChain == [h]
    else if Overtakes(c, h) then
      && kind == EventReorg
      && Adopts(c.headers, c.head, h, newChain)
      && exists k :: ForkPoint(c.headers, c.head, h, k) && Abandons(c.headers, c.head, k, oldChain)
    else kind == EventFork && oldChain == [h] && newChain == []
  }

  /** What the walked chains make of the event. */
  lemma ReorgReport(c: Chain, h: Header, k: nat, oldChain: seq<Header>, newChain: seq<Header>)
    requires Linked(c.headers) && HasParent(c.headers, c.head) && HasParent(c.headers, h) && Overtakes(c, h)
    requires ForkPoint(c.headers, c.head, h, k) && k < c.head.number
    requires Descent(c.headers, c.head, oldChain) && |oldChain| == c.head.number - k
    requires Descent(c.headers, h, newChain)
             && |newChain| == if h.number > c.head.number then h.number - c.head.number else 0
    ensures Reports(c, h, EventReorg, oldChain[..|oldChain| - 1] + [c.head], [h] + newChain)
  {
    assert Abandons(c.headers, c.head, k, oldChain[..|oldChain| - 1] + [c.head]);
    assert Adopts(c.headers, c.head, h, [h] + newChain);
  }

  /** The branches differ everywhere above `n`. */
  ghost predicate Apart(hs: Headers, a: Header, b: Header, n: nat)
    requires Linked(hs) && HasParent(hs, a) && HasParent(hs, b)
  {
    forall j :: n < j <= a.number && j <= b.number ==> Ancestor(hs, a, j) != Ancestor(hs, b, j)
  }

  lemma MeetAtRoot(c: Chain, h: Header)
    requires Inv(c) && HasParent(c.headers, h) && h.number > 0
    ensures Ancestor(c.headers, c.head, 0) == c.genesis == Ancestor(c.headers, h, 0)
  {
    assert c.head.number == 0 ==> c.head == c.genesis;
  }

  /** The new head does not descend from the old one. */
  lemma HeadIsLeft(c: Chain, h: Header)
    requires Inv(c) && Writable(c, h) && Overtakes(c, h) && HasParent(c.headers, h)
    ensures c.head.number <= h.number ==> Ancestor(c.headers, h, c.head.number) != c.head
  {
    NewHeadIsNew(c, h);
    var m := c.head.number;
    if m < h.number {
      AncestorParent(c.headers, h, m + 1);
      assert LinkedAt(c.headers, Ancestor(c.headers, h, m + 1).parentHash);
    }
  }

  ghost predicate Mirrors(headersCache: Headers, difficultyCache: map<Hash, nat>, headers: Headers,
                          td: map<Hash, nat>) {
    && (forall x :: x in headersCache ==> x in headers && headers[x] == headersCache[x])
    && (forall x :: x in difficultyCache ==> x in td && td[x] == difficultyCache[x])
  }

  lemma MirrorsAfterWrite(headersCache: Headers, difficultyCache: map<Hash, nat>, c: Chain, h: Header, c': Chain,
                          evicted: set<Hash>)
    requires Inv(c) && Writable(c, h) && Known(c, h) && HasParent(c.headers, h) && Wrote(c, h, c')
    requires Mirrors(headersCache, difficultyCache, c.headers, c.td)
    ensures Mirrors(headersCache, difficultyCache, c'.headers, c'.td)
    ensures Mirrors(headersCache[h.hash := h] - evicted, difficultyCache, c'.headers, c'.td)
  {
    WriteKeepsTd(c, h, c');
  }

  class Blockchain {
    const genesis: Header
    var db: Store
    var currentHeader: Header
    var currentDifficulty: nat
    var headersCache: Headers
    var difficultyCache: map<Hash, nat>

    ghost function View(): Chain
      reads this
    {
      Chain(genesis, db.headers, db.td, db.canonical, db.forks, currentHeader)
    }

    /** Whatever the caches hold is what the storage holds. */
    ghost predicate CachesOk()
      reads this
    {
      Mirrors(headersCache, difficultyCache, db.headers, db.td)
    }

    ghost predicate Valid()
      reads this
    {
      && Inv(View()) && CachesOk()
      && db.headHash == currentHeader.hash && db.headNumber == currentHeader.number
      && currentDifficulty == db.td[currentHeader.hash]
    }

    constructor (genesis: Header)
      requires genesis.number == 0 && genesis.parentHash != genesis.hash
      ensures Valid() && View() == Start(genesis)
    {
      this.genesis := genesis;
      db := Store(map[genesis.hash := genesis], map[genesis.hash := genesis.difficulty], map[0 := genesis.hash], [],
        genesis.hash, 0);
      currentHeader, currentDifficulty := genesis, genesis.difficulty;
      headersCache, difficultyCache := map[genesis.hash := genesis], map[];
    }

    /** Adding to a full cache evicts entries; which ones is left open. */
    method CacheHeader(x: Hash, h: Header)
      requires CachesOk() && x in db.headers && db.headers[x] == h
      modifies `headersCache
      ensures CachesOk()
    {
      var evicted: set<Hash> := *;
      headersCache := headersCache[x := h] - evicted;
    }

    method ReadHeader(x: Hash) returns (r: Option<Header>)
      requires CachesOk()
      modifies `headersCache
      ensures CachesOk()
      ensures r == if x in db.headers then Some(db.headers[x]) else None
    {
      if x in headersCache { return Some(headersCache[x]); }
      if x !in db.headers { return None; }
      CacheHeader(x, db.headers[x]);
      return Some(db.headers[x]);
    }

    method ReadTotalDifficulty(x: Hash) returns (r: Option<nat>)
      requires CachesOk()
      modifies `difficultyCache
      ensures CachesOk()
      ensures r == if x in db.td then Some(db.td[x]) else None
    {
      if x in difficultyCache { return Some(difficultyCache[x]); }
      if x !in db.td { return None; }
      var evicted: set<Hash> := *;
      difficultyCache := difficultyCache[x := db.td[x]] - evicted;
      return Some(db.td[x]);
    }

    method GetForksToWrite(h: Header) returns (r: seq<Hash>)
      ensures r == ForksToWrite(db.forks, h)
    {
      var forks := db.forks;
      var newForks := [];
      for i := 0 to |forks|
        invariant newForks == Without(forks[..i], h.parentHash)
      {
        assert forks[..i + 1][..i] == forks[..i];
        if forks[i] != h.parentHash { newForks := newForks + [forks[i]]; }
      }
      assert forks[..|forks|] == forks;
      return newForks + [h.hash];
    }

    /** Steps from a header of the branch of `tip` to its parent. */
    method Parent(h: Header, ghost tip: Header) returns (r: Header)
      requires Valid() && HasParent(db.headers, tip)
      requires 0 < h.number <= tip.number && h == Ancestor(db.headers, tip, h.number)
      modifies `headersCache
      ensures Valid() && r.number == h.number - 1 && r == Ancestor(db.headers, tip, r.number)
    {
      AncestorParent(db.headers, tip, h.number);
      var found := ReadHeader(h.parentHash);
      return found.value;
    }

    /** Follows the branch of `tip` down to height `n`, collecting the headers passed. */
    method Descend(tip: Header, n: nat) returns (h: Header, chain: seq<Header>)
      requires Valid() && HasParent(db.headers, tip)
      modifies `headersCache
      ensures Valid()
      ensures h.number == (if tip.number > n then n else tip.number) && h == Ancestor(db.headers, tip, h.number)
      ensures Descent(db.headers, tip, chain) && |chain| == tip.number - h.number
    {
      h, chain := tip, [];
      while h.number > n
        invariant Valid()
        invariant h.number <= tip.number && (h.number >= n || h == tip) && h == Ancestor(db.headers, tip, h.number)
        invariant Descent(db.headers, tip, chain) && |chain| == tip.number - h.number
        decreases h.number
      {
        hide Inv, CachesOk;
        h := Parent(h, tip);
        chain := chain + [h];
      }
    }

    /** Steps down both branches together until they meet; only the old branch is collected. */
    method Lockstep(h: Header, oldHeader: Header, newHeader: Header, chain: seq<Header>)
      returns (oldChain: seq<Header>, ghost k: nat)
      requires Valid() && HasParent(db.headers, h) && h.number > 0 && h.hash !in db.headers
      requires oldHeader.number == newHeader.number <= currentHeader.number && newHeader.number <= h.number
      requires oldHeader == Ancestor(db.headers, currentHeader, oldHeader.number)
      requires newHeader == Ancestor(db.headers, h, newHeader.number)
      requires Descent(db.headers, currentHeader, chain) && |chain| == currentHeader.number - oldHeader.number
      requires Apart(db.headers, currentHeader, h, oldHeader.number)
      modifies `headersCache
      ensures Valid() && ForkPoint(db.headers, currentHeader, h, k)
      ensures Descent(db.headers, currentHeader, oldChain) && |oldChain| == currentHeader.number - k
    {
      var o, n := oldHeader, newHeader;
      oldChain := chain;
      assert Linked(db.headers) && HasParent(db.headers, currentHeader);
      hide Inv, CachesOk, Linked, HasParent;
      while o.hash != n.hash
        invariant Valid()
        invariant o.number == n.number <= currentHeader.number && n.number <= h.number
        invariant o == Ancestor(db.headers, currentHeader, o.number) && n == Ancestor(db.headers, h, n.number)
        invariant Descent(db.headers, currentHeader, oldChain) && |oldChain| == currentHeader.number - o.number
        invariant Apart(db.headers, currentHeader, h, o.number)
        decreases o.number
      {
        MeetAtRoot(View(), h);
        o := Parent(o, currentHeader);
        n := Parent(n, h);
        oldChain := oldChain + [o];
      }
      k := o.number;
      HashesTellApart(View(), h, k);
    }

    /** The walk of a reorganisation down to the point where the branches part. */
    method MeetingPoint(h: Header) returns (oldChain: seq<Header>, newChain: seq<Header>, ghost k: nat)
      requires Valid() && Writable(View(), h) && Overtakes(View(), h) && HasParent(db.headers, h)
      modifies `headersCache
      ensures Valid()
      ensures ForkPoint(db.headers, currentHeader, h, k) && k < currentHeader.number
      ensures Descent(db.headers, currentHeader, oldChain) && |oldChain| == currentHeader.number - k
      ensures Descent(db.headers, h, newChain)
      ensures |newChain| == if h.number > currentHeader.number then h.number - currentHeader.number else 0
    {
      NewHeadIsNew(View(), h);
      HeadIsLeft(View(), h);
      var o, n;
      o, oldChain := Descend(currentHeader, h.number);
      n, newChain := Descend(h, o.number);
      oldChain, k := Lockstep(h, o, n, oldChain);
    }

    /** Collects the writes and the event of a reorganisation. */
    method HandleReorg(batch: BatchWriter, event: Event, h: Header, td: nat)
      requires Valid() && Writable(View(), h) && Overtakes(View(), h) && HasParent(db.headers, h)
      requires event.oldChain == [] && event.newChain == []
      modifies `headersCache, batch, event
      ensures Valid() && View() == old(View())
      ensures Reports(View(), h, event.kind, event.oldChain, event.newChain) && event.difficulty == Some(td)
      ensures exists newChain ::
                && Descent(db.headers, h, newChain)
                && |newChain| == (if h.number > currentHeader.number then h.number - currentHeader.number else 0)
                && batch.puts
                  == old(batch.puts) + [PutForks(ForksToWrite(db.forks, currentHeader))] + CanonicalPuts(newChain)
    {
      assert Linked(db.headers) && HasParent(db.headers, currentHeader);
      hide Inv, CachesOk, Linked, HasParent, Writable, ForkPoint, Reports, Descent, Without;
      var oldChain, newChain, k := MeetingPoint(h);
      var forks := GetForksToWrite(currentHeader);
      batch.Put(PutForks(forks));
      batch.PutCanonicalHashes(newChain);
      event.Reorganise(oldChain, newChain, currentHeader, h, td);
      ReorgReport(View(), h, k, oldChain, newChain);
    }

    method WriteReorg(batch: BatchWriter, event: Event, h: Header, td: nat)
      requires Valid() && Writable(View(), h) && Overtakes(View(), h) && HasParent(db.headers, h)
      requires td == IncomingTd(View(), h)
      requires batch.puts == [] && event.oldChain == [] && event.newChain == []
      modifies `headersCache, batch, event
      ensures Valid() && View() == old(View())
      ensures Batched(View(), h, batch.puts)
      ensures Reports(View(), h, event.kind, event.oldChain, event.newChain)
    {
      assert Linked(db.headers) && HasParent(db.headers, currentHeader);
      hide Inv, CachesOk, Linked, HasParent, Writable, Descent, Without, HeadPuts, CanonicalPuts, Reports;
      HandleReorg(batch, event, h, td);
      assert Overtakes(View(), h);
      batch.PutCanonicalHeader(h, td);
    }

    method WriteSide(batch: BatchWriter, event: Event, h: Header, td: nat)
      requires batch.puts == [] && event.oldChain == []
      modifies batch, event
      ensures batch.puts == SidePuts(h, td, ForksToWrite(db.forks, h))
      ensures event.oldChain == [h] && event.newChain == old(event.newChain) && event.kind == EventFork
    {
      var forks := GetForksToWrite(h);
      batch.Put(PutHeader(h));
      batch.Put(PutTotalDifficulty(h.hash, td));
      batch.Put(PutForks(forks));
      event.AddOldHeader(h);
      event.kind := EventFork;
    }

    /** Decides what a header does to the chain and collects the writes; nothing is stored yet. */
    method WriteHeaderImpl(batch: BatchWriter, event: Event, h: Header) returns (td: Option<nat>, canonical: bool)
      requires Valid() && Writable(View(), h)
      requires batch.puts == [] && event.oldChain == [] && event.newChain == [] && event.kind == EventHead
      modifies `headersCache, `difficultyCache, batch, event
      ensures Valid() && View() == old(View())
      ensures td == (if Known(View(), h) then Some(IncomingTd(View(), h)) else None)
      ensures td.Some? ==>
                && HasParent(db.headers, h)
                && canonical == (Extends(View(), h) || Overtakes(View(), h))
                && Batched(View(), h, batch.puts)
                && Reports(View(), h, event.kind, event.oldChain, event.newChain)
    {
      canonical := false;
      var parentTd := ReadTotalDifficulty(h.parentHash);
      if parentTd.None? { return None, false; }
      WriteKeepsLinks(View(), h);
      assert Linked(db.headers) && HasParent(db.headers, currentHeader) && currentHeader.hash in db.td;
      hide Inv, CachesOk, Linked, HasParent, Writable, Descent, Without;
      td := Some(parentTd.value + h.difficulty);
      if h.parentHash == currentHeader.hash {
        batch.PutCanonicalHeader(h, td.value);
        event.AddNewHeader(h);
        event.difficulty := td;
        return td, true;
      }
      var currentTd := ReadTotalDifficulty(currentHeader.hash);
      if td.value > currentTd.value {
        hide Batched, Reports;
        WriteReorg(batch, event, h, td.value);
        return td, true;
      }
      WriteSide(batch, event, h, td.value);
    }

    method WriteBatch(batch: BatchWriter)
      modifies `db
      ensures db == ApplyAll(old(db), batch.puts)
    {
      var puts := batch.puts;
      for i := 0 to |puts|
        invariant puts == batch.puts && db == ApplyAll(old(db), puts[..i])
      {
        assert puts[..i + 1][..i] == puts[..i];
        db := ApplyPut(db, puts[i]);
      }
      assert puts[..|puts|] == puts;
    }

    /**
     Writes a header: the chain changes as `Wrote` says, every invariant is kept, and the event reports the change.
     */
    method WriteHeader(h: Header) returns (ok: bool, event: Event)
      requires Valid() && Writable(View(), h)
      modifies this
      ensures Valid() && fresh(event)
      ensures ok == Known(old(View()), h)
      ensures ok ==> HasParent(old(db.headers), h) && Wrote(old(View()), h, View())
      ensures ok ==> Reports(old(View()), h, event.kind, event.oldChain, event.newChain)
      ensures !ok ==> View() == old(View())
    {
      hide Batched, Reports, ApplyAll, Wrote, Mirrors, TdOk, HeadOk, Rooted;
      event := new Event();
      var batch := new BatchWriter();
      var td, canonical := WriteHeaderImpl(batch, event, h);
      if td.None? { return false, event; }
      ghost var c := View();
      BatchWrites(c, db, h, batch.puts);
      var evicted: set<Hash> := *;
      WriteBatch(batch);
      ghost var c' := Holding(genesis, db, if canonical then h else currentHeader);
      WriteKeepsInv(c, h, c');
      MirrorsAfterWrite(headersCache, difficultyCache, c, h, c', evicted);
      CurrentTd(c, h, c');
      hide Inv, Writable, HasParent, Linked;
      if canonical {
        headersCache := headersCache[h.hash := h] - evicted;
        currentHeader, currentDifficulty := h, td.value;
      }
      return true, event;
    }

    /** A block no higher than the head is ignored. */
    method WriteBlock(h: Header) returns (ok: bool, event: Event?)
      requires Valid() && Writable(View(), h)
      modifies this
      ensures Valid()
      ensures h.number <= old(currentHeader.number) ==> ok && event == null && View() == old(View())
      ensures h.number > old(currentHeader.number) ==>
                && ok == Known(old(View()), h) && event != null
                && (ok ==> HasParent(old(db.headers), h) && Wrote(old(View()), h, View()))
                && (ok ==> Reports(old(View()), h, event.kind, event.oldChain, event.newChain))
                && (!ok ==> View() == old(View()))
    {
      if h.number <= currentHeader.number { return true, null; }
      ok, event := WriteHeader(h);
    }

    method GetHeaderByNumber(n: nat) returns (r: Option<Header>)
      requires Valid()
      modifies `headersCache
      ensures Valid() && View() == old(View())
      ensures IndexExact(View()) ==>
              r == if n <= currentHeader.number then Some(Ancestor(db.headers, currentHeader, n)) else None
    {
      if n !in db.canonical { return None; }
      r := ReadHeader(db.canonical[n]);
    }
  }

  lemma CurrentTd(c: Chain, h: Header, c': Chain)
    requires Inv(c) && Writable(c, h) && Known(c, h) && HasParent(c.headers, h) && Wrote(c, h, c')
    ensures c'.head.hash in c'.td
    ensures c'.td[c'.head.hash] == if Extends(c, h) || Overtakes(c, h) then IncomingTd(c, h) else c.td[c.head.hash]
  {
    WriteKeepsTd(c, h, c');
  }

  /** The writes that a header causes. */
  ghost predicate Batched(c: Chain, h: Header, puts: seq<Put>)
    requires Linked(c.headers) && HasParent(c.headers, h) && Known(c, h)
  {
    if Extends(c, h) then puts == HeadPuts(h, IncomingTd(c, h))
    else if Overtakes(c, h) then
      exists newChain ::
        && Descent(c.headers, h, newChain)
        && |newChain| == (if h.number > c.head.number then h.number - c.head.number else 0)
        && puts == [PutForks(ForksToWrite(c.forks, c.head))] + CanonicalPuts(newChain) + HeadPuts(h, IncomingTd(c, h))
    else puts == SidePuts(h, IncomingTd(c, h), ForksToWrite(c.forks, h))
  }

  function Holding(genesis: Header, st: Store, head: Header): Chain {
    Chain(genesis, st.headers, st.td, st.canonical, st.forks, head)
  }

  lemma ReorgWrites(c: Chain, st: Store, h: Header, newChain: seq<Header>)
    requires Linked(c.headers) && HasParent(c.headers, h) && Known(c, h) && Overtakes(c, h)
    requires c == Holding(c.genesis, st, c.head)
    requires Descent(c.headers, h, newChain)
             && |newChain| == if h.number > c.head.number then h.number - c.head.number else 0
    ensures var puts := [PutForks(ForksToWrite(c.forks, c.head))] + CanonicalPuts(newChain)
            + HeadPuts(h, IncomingTd(c, h));
            var st' := ApplyAll(st, puts);
            Wrote(c, h, Holding(c.genesis, st', h)) && st'.headHash == h.hash && st'.headNumber == h.number
  {
    var first := PutForks(ForksToWrite(c.forks, c.head));
    var td := IncomingTd(c, h);
    ApplyConcat(st, [first] + CanonicalPuts(newChain), HeadPuts(h, td));
    ApplyConcat(st, [first], CanonicalPuts(newChain));
    ApplyOne(st, first);
    var st1 := ApplyPut(st, first);
    ApplyDescent(st1, c.headers, h, newChain);
    var st2 := ApplyAll(st1, CanonicalPuts(newChain));
    ApplyHead(st2, h, td);
    assert Reindexed(c, h, st2.canonical[h.number := h.hash]);
  }

  lemma BatchWrites(c: Chain, st: Store, h: Header, puts: seq<Put>)
    requires Linked(c.headers) && HasParent(c.headers, h) && Known(c, h) && Batched(c, h, puts)
    requires c == Holding(c.genesis, st, c.head)
    ensures var st' := ApplyAll(st, puts);
            var moved := Extends(c, h) || Overtakes(c, h);
            && Wrote(c, h, Holding(c.genesis, st', if moved then h else c.head))
            && st'.headHash == (if moved then h.hash else st.headHash)
            && st'.headNumber == if moved then h.number else st.headNumber
  {
    if Extends(c, h) {
      ApplyHead(st, h, IncomingTd(c, h));
    } else if Overtakes(c, h) {
      var newChain :|
        && Descent(c.headers, h, newChain)
        && |newChain| == (if h.number > c.head.number then h.number - c.head.number else 0)
        && puts == [PutForks(ForksToWrite(c.forks, c.head))] + CanonicalPuts(newChain) + HeadPuts(h, IncomingTd(c, h));
      ReorgWrites(c, st, h, newChain);
    } else {
      ApplySide(st, h, IncomingTd(c, h), ForksToWrite(c.forks, h));
    }
  }
}

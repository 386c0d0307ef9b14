/**
 The fork manager's sorted handler index (forkmanager/fork_manager.go) against the naive choice over all active forks.
 */
module ForkManagers {
  import opened Transactions

  type Name = nat
  type Desc = nat
  type Handler = nat

  datatype Container = Container(id: nat, handler: Handler)

  datatype Fork = Fork(from: nat, active: bool, handlers: map<Desc, Container>)

  datatype Entry = Entry(id: nat, from: nat, handler: Handler)

  type Forks = map<Name, Fork>

  /** Fork `f` is active and has a handler of this description. */
  predicate Contributes(forks: Forks, d: Desc, f: Name) {
    f in forks && forks[f].active && d in forks[f].handlers
  }

  function EntryOf(forks: Forks, d: Desc, f: Name): Entry
    requires Contributes(forks, d, f)
  {
    Entry(forks[f].handlers[d].id, forks[f].from, forks[f].handlers[d].handler)
  }

  /** The entry of some active fork. */
  ghost predicate Offered(forks: Forks, d: Desc, e: Entry) {
    exists f :: Contributes(forks, d, f) && EntryOf(forks, d, f) == e
  }

  /** By block, then by id. */
  predicate Before(from: nat, id: nat, e: Entry) { from < e.from || (from == e.from && id < e.id) }

  predicate AtOrAfter(e: Entry, from: nat, id: nat) { e.from > from || (e.from == from && e.id >= id) }

  ghost predicate Sorted(s: seq<Entry>) { forall i, j :: 0 <= i < j < |s| ==> Before(s[i].from, s[i].id, s[j]) }

  /** The list holds exactly the entries of the active forks, strictly sorted. */
  ghost predicate Indexes(s: seq<Entry>, forks: Forks, d: Desc) {
    Sorted(s) && forall e :: e in s <==> Offered(forks, d, e)
  }

  function ListFor(lists: map<Desc, seq<Entry>>, d: Desc): seq<Entry> { if d in lists then lists[d] else [] }

  ghost predicate AllExact(lists: map<Desc, seq<Entry>>, forks: Forks) {
    forall d :: Indexes(ListFor(lists, d), forks, d)
  }

  /** Ids were given out by the counter, each to one handler. */
  ghost predicate IdsOk(forks: Forks, count: nat) {
    && (forall f, d :: f in forks && d in forks[f].handlers ==> forks[f].handlers[d].id <= count)
    && (forall f, g, d ::
          (f in forks && g in forks && d in forks[f].handlers && d in forks[g].handlers
           && forks[f].handlers[d].id == forks[g].handlers[d].id) ==> f == g)
  }

  /** The naive choice: the active handler with the largest block and id whose block is not above the query. */
  ghost predicate NaiveChoice(forks: Forks, d: Desc, block: nat, r: Option<Handler>) {
    match r
    case None => forall e :: Offered(forks, d, e) ==> e.from > block
    case Some(h) =>
      exists e ::
        && Offered(forks, d, e) && e.handler == h && e.from <= block
        && forall e' :: Offered(forks, d, e') && e'.from <= block && e' != e ==> Before(e'.from, e'.id, e)
  }

  /** Binary search for the first entry for which `p` holds, as the standard library does it. */
  method Search(s: seq<Entry>, p: Entry -> bool) returns (r: nat)
    requires forall i, j :: 0 <= i < j < |s| && p(s[i]) ==> p(s[j])
    ensures r <= |s| && (forall i :: 0 <= i < r ==> !p(s[i])) && (forall i :: r <= i < |s| ==> p(s[i]))
  {
    var lo, hi := 0, |s|;
    while lo < hi
      invariant 0 <= lo <= hi <= |s|
      invariant (forall i :: 0 <= i < lo ==> !p(s[i])) && (forall i :: hi <= i < |s| ==> p(s[i]))
    {
      var mid := (lo + hi) / 2;
      if !p(s[mid]) { lo := mid + 1; } else { hi := mid; }
    }
    return lo;
  }

  method Position(s: seq<Entry>, from: nat, id: nat) returns (r: nat)
    requires Sorted(s)
    ensures r <= |s| && (forall i :: 0 <= i < r ==> !AtOrAfter(s[i], from, id))
    ensures forall i :: r <= i < |s| ==> AtOrAfter(s[i], from, id)
  {
    r := Search(s, (e: Entry) => AtOrAfter(e, from, id));
  }

  lemma InsertKeepsSorted(s: seq<Entry>, k: nat, x: Entry)
    requires Sorted(s) && k <= |s| && (forall i :: 0 <= i < k ==> !AtOrAfter(s[i], x.from, x.id))
    requires (forall i :: k <= i < |s| ==> AtOrAfter(s[i], x.from, x.id)) && forall e :: e in s ==> e.id != x.id
    ensures Sorted(s[..k] + [x] + s[k..])
    ensures forall e :: e in s[..k] + [x] + s[k..] <==> e in s || e == x
  {
    assert s == s[..k] + s[k..];
  }

  lemma RemoveKeepsSorted(s: seq<Entry>, k: nat)
    requires Sorted(s) && k < |s|
    ensures Sorted(s[..k] + s[k + 1..])
    ensures forall e :: e in s[..k] + s[k + 1..] <==> e in s && e != s[k]
  {
    var t := s[..k] + s[k + 1..];
    forall e ensures e in t <==> e in s && e != s[k] {
      if e in s && e != s[k] {
        var i :| 0 <= i < |s| && s[i] == e;
        assert t[if i < k then i else i - 1] == e;
      }
      if e in t {
        var i :| 0 <= i < |t| && t[i] == e;
        assert s[if i < k then i else i + 1] == e;
      }
    }
  }

  /** Switching a fork on or off changes what is offered by that fork's entry alone. */
  lemma OfferedAfterSwitch(forks: Forks, f: Name, fork: Fork, count: nat, d: Desc)
    requires f in forks && fork.handlers == forks[f].handlers && IdsOk(forks, count)
    requires fork.active != forks[f].active && (forks[f].active ==> fork.from == forks[f].from)
    ensures forall e :: Offered(forks[f := fork], d, e) <==>
                        if d in fork.handlers && e == Entry(fork.handlers[d].id, fork.from, fork.handlers[d].handler)
                        then fork.active
                        else Offered(forks, d, e)
  {
    var forks' := forks[f := fork];
    forall e ensures Offered(forks', d, e) <==>
                     if d in fork.handlers && e == Entry(fork.handlers[d].id, fork.from, fork.handlers[d].handler)
                     then fork.active
                     else Offered(forks, d, e)
    {
      forall g | g != f ensures Contributes(forks', d, g) == Contributes(forks, d, g) { }
      if Contributes(forks', d, f) {
        assert EntryOf(forks', d, f) == Entry(fork.handlers[d].id, fork.from, fork.handlers[d].handler);
      }
      if Offered(forks, d, e) {
        var g :| Contributes(forks, d, g) && EntryOf(forks, d, g) == e;
        assert g != f ==> Contributes(forks', d, g) && EntryOf(forks', d, g) == e;
      }
      if Offered(forks', d, e) {
        var g :| Contributes(forks', d, g) && EntryOf(forks', d, g) == e;
        assert g != f ==> Contributes(forks, d, g) && EntryOf(forks, d, g) == e;
      }
    }
  }

  /** The last entry of an exact list that is not above the block is the naive choice. */
  lemma LastIsNaive(s: seq<Entry>, forks: Forks, d: Desc, block: nat, pos: nat)
    requires Indexes(s, forks, d) && pos <= |s|
    requires (forall i :: 0 <= i < pos ==> s[i].from <= block) && (forall i :: pos <= i < |s| ==> s[i].from > block)
    ensures NaiveChoice(forks, d, block, if pos == 0 then None else Some(s[pos - 1].handler))
  {
    forall e | Offered(forks, d, e) && e.from <= block
      ensures pos > 0 && (e == s[pos - 1] || Before(e.from, e.id, s[pos - 1]))
    {
      assert e in s;
      var i :| 0 <= i < |s| && s[i] == e;
      assert i < pos;
    }
    if pos > 0 { assert Offered(forks, d, s[pos - 1]); }
  }

  class ForkManager {
    var forkMap: Forks
    var handlersMap: map<Desc, seq<Entry>>
    var handlerIdCnt: nat

    /** Every handler list is exact. */
    ghost predicate Exact()
      reads this
    {
      AllExact(handlersMap, forkMap)
    }

    ghost predicate Valid()
      reads this
    {
      IdsOk(forkMap, handlerIdCnt) && Exact()
    }

    constructor ()
      ensures Valid() && forkMap == map[]
    {
      forkMap, handlersMap, handlerIdCnt := map[], map[], 0;
    }

    /** Inserts a handler at its place. */
    method AddHandler(d: Desc, from: nat, c: Container)
      requires Sorted(ListFor(handlersMap, d)) && forall e :: e in ListFor(handlersMap, d) ==> e.id != c.id
      modifies `handlersMap
      ensures Sorted(ListFor(handlersMap, d))
      ensures forall e ::
                e in ListFor(handlersMap, d) <==> e in ListFor(old(handlersMap), d) || e == Entry(c.id, from, c.handler)
      ensures forall x :: x != d ==> ListFor(handlersMap, x) == ListFor(old(handlersMap), x)
    {
      var entry := Entry(c.id, from, c.handler);
      if d !in handlersMap {
        handlersMap := handlersMap[d := [entry]];
      } else {
        var s := handlersMap[d];
        var index := Position(s, from, c.id);
        InsertKeepsSorted(s, index, entry);
        handlersMap := handlersMap[d := s[..index] + [entry] + s[index..]];
      }
    }

    /** Removes the handler with this block and id if it is there. */
    method RemoveHandler(d: Desc, from: nat, id: nat)
      requires Sorted(ListFor(handlersMap, d))
      modifies `handlersMap
      ensures Sorted(ListFor(handlersMap, d))
      ensures forall e ::
                e in ListFor(handlersMap, d) <==> e in ListFor(old(handlersMap), d) && !(e.from == from && e.id == id)
      ensures forall x :: x != d ==> ListFor(handlersMap, x) == ListFor(old(handlersMap), x)
    {
      if d !in handlersMap { return; }
      var s := handlersMap[d];
      var index := Position(s, from, id);
      if index < |s| && s[index].from == from && s[index].id == id {
        RemoveKeepsSorted(s, index);
        handlersMap := handlersMap[d := s[..index] + s[index + 1..]];
      }
    }

    /** The binary search finds the naive choice over all active forks. */
    method GetHandler(d: Desc, block: nat) returns (r: Option<Handler>)
      requires Valid()
      ensures NaiveChoice(forkMap, d, block, r)
    {
      assert Indexes(ListFor(handlersMap, d), forkMap, d);
      if d !in handlersMap {
        LastIsNaive([], forkMap, d, block, 0);
        return None;
      }
      var s := handlersMap[d];
      var pos := Search(s, (e: Entry) => e.from > block);
      LastIsNaive(s, forkMap, d, block, pos);
      if pos == 0 { return None; }
      return Some(s[pos - 1].handler);
    }

    /**
     Registers a fork, inactive and without handlers. This leaves stale entries exactly when it replaces an active
     fork with handlers.
     */
    method RegisterFork(name: Name)
      requires Valid()
      modifies `forkMap
      ensures forkMap == old(forkMap)[name := Fork(0, false, map[])]
      ensures IdsOk(forkMap, handlerIdCnt)
      ensures Exact() <==> !(name in old(forkMap) && old(forkMap)[name].active && old(forkMap)[name].handlers != map[])
    {
      ReplaceFork(forkMap, handlersMap, handlerIdCnt, name, Fork(0, false, map[]));
      forkMap := forkMap[name := Fork(0, false, map[])];
    }

    /** Registers a handler of a fork. The index misses it exactly when the fork is active already. */
    method RegisterHandler(name: Name, d: Desc, handler: Handler) returns (ok: bool)
      requires Valid()
      modifies `forkMap, `handlerIdCnt
      ensures ok == (name in old(forkMap))
      ensures !ok ==> forkMap == old(forkMap) && Valid()
      ensures ok ==> && var fork := old(forkMap)[name];
                     && var containers := fork.handlers[d := Container(handlerIdCnt, handler)];
                     && forkMap == old(forkMap)[name := fork.(handlers := containers)]
                     && IdsOk(forkMap, handlerIdCnt)
                     && (Exact() <==> !fork.active)
    {
      if name !in forkMap { return false; }
      handlerIdCnt := handlerIdCnt + 1;
      NewHandler(forkMap, handlersMap, handlerIdCnt, name, d, handler);
      var fork := forkMap[name];
      forkMap := forkMap[name := fork.(handlers := fork.handlers[d := Container(handlerIdCnt, handler)])];
      return true;
    }

    /** Adds all handlers of the fork to the index, in any order. */
    method ActivateFork(name: Name, block: nat) returns (ok: bool)
      requires Valid()
      modifies `forkMap, `handlersMap
      ensures Valid() && ok == (name in old(forkMap))
      ensures forkMap == if !ok || old(forkMap)[name].active then old(forkMap)
                         else old(forkMap)[name := old(forkMap)[name].(active := true, from := block)]
    {
      if name !in forkMap { return false; }
      if forkMap[name].active { return true; }
      var fork := forkMap[name].(active := true, from := block);
      forkMap := forkMap[name := fork];
      var todo := fork.handlers.Keys;
      forall d ensures Indexes(ListFor(handlersMap, d), if d in todo then old(forkMap) else forkMap, d) {
        SwitchedList(old(forkMap), name, fork, handlerIdCnt, d, ListFor(handlersMap, d));
      }
      while todo != {}
        invariant todo <= fork.handlers.Keys && forkMap == old(forkMap)[name := fork]
        invariant forall d :: Indexes(ListFor(handlersMap, d), if d in todo then old(forkMap) else forkMap, d)
        decreases |todo|
      {
        var d :| d in todo;
        ghost var was := handlersMap;
        assert Indexes(ListFor(was, d), old(forkMap), d);
        FreshId(old(forkMap), name, handlerIdCnt, d, ListFor(was, d));
        AddHandler(d, block, fork.handlers[d]);
        OfferedAfterSwitch(old(forkMap), name, fork, handlerIdCnt, d);
        todo := todo - {d};
        forall x ensures Indexes(ListFor(handlersMap, x), if x in todo then old(forkMap) else forkMap, x) {
          assert Indexes(ListFor(was, x), if x in todo || x == d then old(forkMap) else forkMap, x);
        }
      }
      SwitchKeepsIds(old(forkMap), name, fork, handlerIdCnt);
      return true;
    }

    /** Takes all handlers of the fork out of the index. */
    method DeactivateFork(name: Name) returns (ok: bool)
      requires Valid()
      modifies `forkMap, `handlersMap
      ensures Valid() && ok == (name in old(forkMap))
      ensures forkMap == if !ok then old(forkMap) else old(forkMap)[name := old(forkMap)[name].(active := false)]
    {
      if name !in forkMap { return false; }
      if !forkMap[name].active {
        assert forkMap == forkMap[name := forkMap[name].(active := false)];
        return true;
      }
      var fork := forkMap[name].(active := false);
      forkMap := forkMap[name := fork];
      var todo := fork.handlers.Keys;
      forall d ensures Indexes(ListFor(handlersMap, d), if d in todo then old(forkMap) else forkMap, d) {
        SwitchedList(old(forkMap), name, fork, handlerIdCnt, d, ListFor(handlersMap, d));
      }
      while todo != {}
        invariant todo <= fork.handlers.Keys && forkMap == old(forkMap)[name := fork]
        invariant forall d :: Indexes(ListFor(handlersMap, d), if d in todo then old(forkMap) else forkMap, d)
        decreases |todo|
      {
        var d :| d in todo;
        ghost var was := handlersMap;
        assert Indexes(ListFor(was, d), old(forkMap), d);
        OwnEntry(old(forkMap), name, handlerIdCnt, d, ListFor(was, d));
        RemoveHandler(d, fork.from, fork.handlers[d].id);
        OfferedAfterSwitch(old(forkMap), name, fork, handlerIdCnt, d);
        todo := todo - {d};
        forall x ensures Indexes(ListFor(handlersMap, x), if x in todo then old(forkMap) else forkMap, x) {
          assert Indexes(ListFor(was, x), if x in todo || x == d then old(forkMap) else forkMap, x);
        }
      }
      SwitchKeepsIds(old(forkMap), name, fork, handlerIdCnt);
      return true;
    }
  }

  /** A list that the switched fork has no handler for is exact after the switch if it was before. */
  lemma SwitchedList(forks: Forks, f: Name, fork: Fork, count: nat, d: Desc, s: seq<Entry>)
    requires f in forks && fork.handlers == forks[f].handlers && IdsOk(forks, count)
    requires fork.active != forks[f].active && (forks[f].active ==> fork.from == forks[f].from)
    requires Indexes(s, forks, d)
    ensures d !in fork.handlers ==> Indexes(s, forks[f := fork], d)
  {
    OfferedAfterSwitch(forks, f, fork, count, d);
  }

  lemma SwitchKeepsIds(forks: Forks, f: Name, fork: Fork, count: nat)
    requires f in forks && fork.handlers == forks[f].handlers && IdsOk(forks, count)
    ensures IdsOk(forks[f := fork], count)
  {
  }

  /** An inactive fork's handler is not in the list yet. */
  lemma FreshId(forks: Forks, f: Name, count: nat, d: Desc, s: seq<Entry>)
    requires IdsOk(forks, count) && f in forks && !forks[f].active && d in forks[f].handlers && Indexes(s, forks, d)
    ensures forall e :: e in s ==> e.id != forks[f].handlers[d].id
  {
    forall e | e in s ensures e.id != forks[f].handlers[d].id { assert Offered(forks, d, e); }
  }

  /** The entry with an active fork's block and id is that fork's. */
  lemma OwnEntry(forks: Forks, f: Name, count: nat, d: Desc, s: seq<Entry>)
    requires IdsOk(forks, count) && Contributes(forks, d, f) && Indexes(s, forks, d)
    ensures forall e :: e in s && e.from == forks[f].from && e.id == forks[f].handlers[d].id ==>
            e == EntryOf(forks, d, f)
  {
    forall e | e in s && e.from == forks[f].from && e.id == forks[f].handlers[d].id ensures e == EntryOf(forks, d, f) {
      assert Offered(forks, d, e);
    }
  }

  lemma ReplaceFork(forks: Forks, lists: map<Desc, seq<Entry>>, count: nat, f: Name, fork: Fork)
    requires fork == Fork(0, false, map[])
    requires AllExact(lists, forks) && IdsOk(forks, count)
    ensures AllExact(lists, forks[f := fork]) <==> !(f in forks && forks[f].active && forks[f].handlers != map[])
    ensures IdsOk(forks[f := fork], count)
  {
    var forks' := forks[f := fork];
    if f in forks && forks[f].active && forks[f].handlers != map[] {
      assert forks[f].handlers.Keys != {};
      var d :| d in forks[f].handlers.Keys;
      var e := EntryOf(forks, d, f);
      assert Offered(forks, d, e) && Indexes(ListFor(lists, d), forks, d);
      forall g | Contributes(forks', d, g)
        ensures EntryOf(forks', d, g) != e
      {
        assert Contributes(forks, d, g) && g != f;
      }
      assert !Offered(forks', d, e);
      assert !Indexes(ListFor(lists, d), forks', d);
    } else {
      forall d ensures Indexes(ListFor(lists, d), forks', d) {
        assert Indexes(ListFor(lists, d), forks, d);
        forall g ensures Contributes(forks', d, g) == Contributes(forks, d, g) { }
        forall e ensures Offered(forks', d, e) == Offered(forks, d, e) {
          if g :| Contributes(forks, d, g) && EntryOf(forks, d, g) == e { assert EntryOf(forks', d, g) == e; }
          if g :| Contributes(forks', d, g) && EntryOf(forks', d, g) == e { assert EntryOf(forks, d, g) == e; }
        }
      }
    }
  }

  lemma NewHandler(forks: Forks, lists: map<Desc, seq<Entry>>, count: nat, f: Name, d: Desc, handler: Handler)
    requires f in forks && count > 0 && IdsOk(forks, count - 1) && AllExact(lists, forks)
    ensures var forks' := forks[f := forks[f].(handlers := forks[f].handlers[d := Container(count, handler)])];
            IdsOk(forks', count) && (AllExact(lists, forks') <==> !forks[f].active)
  {
    var forks' := forks[f := forks[f].(handlers := forks[f].handlers[d := Container(count, handler)])];
    if forks[f].active {
      var e := Entry(count, forks[f].from, handler);
      assert Contributes(forks', d, f) && EntryOf(forks', d, f) == e;
      assert Offered(forks', d, e) && Indexes(ListFor(lists, d), forks, d);
      assert !Offered(forks, d, e);
      assert !Indexes(ListFor(lists, d), forks', d);
    } else {
      forall x ensures Indexes(ListFor(lists, x), forks', x) {
        assert Indexes(ListFor(lists, x), forks, x);
        forall g ensures Contributes(forks', x, g) == Contributes(forks, x, g) { }
        forall e ensures Offered(forks', x, e) == Offered(forks, x, e) {
          if g :| Contributes(forks, x, g) && EntryOf(forks, x, g) == e { assert EntryOf(forks', x, g) == e; }
          if g :| Contributes(forks', x, g) && EntryOf(forks', x, g) == e { assert EntryOf(forks, x, g) == e; }
        }
      }
    }
  }
}

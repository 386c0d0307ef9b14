/**
 The state journal as an object (state/txn.go). Account objects are shared between the current overlay and the
 snapshots, so they must never change once inserted; the log list is a slice whose backing array is shared and
 written in place.
 */
module TxnObjects {
  import opened Transactions
  import opened WorldState

  /** The account record that a state object points to. */
  class AccountCell {
    var value: Account

    constructor (value: Account)
      ensures this.value == value
    {
      this.value := value;
    }

    method Copy() returns (c: AccountCell)
      ensures fresh(c) && c.value == value.(balance := Abs(value.balance))
    {
      c := new AccountCell(value.(balance := Abs(value.balance)));
    }
  }

  /** The tree of changed slots that a state object points to; it is updated in place. */
  class SlotTree {
    var slots: map<Key, Value>

    constructor (slots: map<Key, Value>)
      ensures this.slots == slots
    {
      this.slots := slots;
    }
  }

  class StateObject {
    const account: AccountCell
    const storage: SlotTree
    var suicide: bool
    var deleted: bool
    var code: Option<Code>

    ghost function View(): Object
      reads this, account, storage
    {
      Object(account.value, storage.slots, suicide, deleted, code)
    }

    constructor (x: Object)
      ensures View() == x && fresh(account) && fresh(storage)
    {
      account := new AccountCell(x.account);
      storage := new SlotTree(x.storage);
      suicide, deleted, code := x.suicide, x.deleted, x.code;
    }

    constructor Of(account: AccountCell, storage: SlotTree, suicide: bool, deleted: bool, code: Option<Code>)
      ensures this.account == account && this.storage == storage
      ensures View() == Object(account.value, storage.slots, suicide, deleted, code)
    {
      this.account, this.storage, this.suicide, this.deleted, this.code := account, storage, suicide, deleted, code;
    }

    predicate Removable(deleteEmpty: bool)
      reads this, account, storage
      ensures Removable(deleteEmpty) == WorldState.Removable(View(), deleteEmpty)
    {
      suicide || (deleteEmpty && account.value.nonce == 0 && account.value.balance == 0
                  && account.value.codeHash == EMPTY_CODE_HASH)
    }

    method Update(change: Object -> Object)
      modifies this, account, storage
      ensures View() == change(old(View()))
    {
      var changed := change(Object(account.value, storage.slots, suicide, deleted, code));
      account.value, storage.slots := changed.account, changed.storage;
      suicide, deleted, code := changed.suicide, changed.deleted, changed.code;
    }

    /** A deep copy: neither the account record nor the slots are shared. */
    method Copy() returns (c: StateObject)
      ensures fresh(c) && fresh(c.account) && fresh(c.storage) && c.View() == Copied(View())
    {
      var accountCopy := account.Copy();
      var storageCopy := new SlotTree(storage.slots);
      c := new StateObject.Of(accountCopy, storageCopy, suicide, deleted, code);
    }
  }

  ghost predicate ObjectsShow(objects: map<Address, StateObject>, v: map<Address, Object>)
    reads objects.Values, set x | x in objects.Values :: x.account, set x | x in objects.Values :: x.storage
  {
    objects.Keys == v.Keys && forall a :: a in objects ==> objects[a].View() == v[a]
  }

  /** A tree of the immutable radix: the objects, the log slice and the refund. */
  datatype Tree = Tree(objects: map<Address, StateObject>, logs: array<Log>, logLen: nat, refund: nat)

  ghost predicate LogsShow(t: Tree, logs: seq<Log>)
    reads t.logs
  {
    t.logLen <= t.logs.Length && t.logs[..t.logLen] == logs
  }

  /** The slice `s` ends no later than `t` in a backing array that both use. */
  predicate Within(s: Tree, t: Tree) { s.logs == t.logs ==> s.logLen <= t.logLen }

  /** The overlay while its objects are cleaned; those in `todo` are still to be looked at. */
  ghost predicate Cleaning(o: Overlay, v: Overlay, todo: set<Address>, deleteEmpty: bool) {
    && v.objects.Keys == o.objects.Keys && todo <= o.objects.Keys && v.logs == o.logs
    && forall a :: a in o.objects ==>
         v.objects[a] == if a !in todo && Removable(o.objects[a], deleteEmpty)
                         then Copied(o.objects[a]).(deleted := true)
                         else o.objects[a]
  }

  function CleanOne(o: Overlay, a: Address, deleteEmpty: bool): Overlay
    requires a in o.objects
  {
    if Removable(o.objects[a], deleteEmpty) then Put(o, a, Copied(o.objects[a]).(deleted := true)) else o
  }

  lemma CleaningStart(o: Overlay, deleteEmpty: bool)
    ensures Cleaning(o, o, o.objects.Keys, deleteEmpty)
  {
  }

  lemma CleaningStep(o: Overlay, v: Overlay, todo: set<Address>, deleteEmpty: bool, a: Address)
    requires Cleaning(o, v, todo, deleteEmpty) && a in todo
    ensures a in v.objects && Cleaning(o, CleanOne(v, a, deleteEmpty), todo - {a}, deleteEmpty)
  {
  }

  lemma CleaningDone(o: Overlay, v: Overlay, deleteEmpty: bool)
    requires Cleaning(o, v, {}, deleteEmpty)
    ensures v.(refund := 0) == CleanDeleteObjects(o, deleteEmpty)
  {
    assert v.objects == CleanDeleteObjects(o, deleteEmpty).objects;
  }

  /** The object with its nonce counted, if 64 bits hold it. */
  function Counted(x: Object): Object {
    if x.account.nonce + 1 < TWO64 then x.(account := x.account.(nonce := x.account.nonce + 1)) else x
  }

  lemma CountsNonce(b: Base, o: Overlay, a: Address)
    ensures WorldState.IncrNonce(b, o, a) == Put(o, a, Counted(ObjectOrNew(b, o, a)))
    ensures NonceOverflows(b, o, a) <==> WorldState.GetNonce(b, o, a) + 1 >= TWO64
  {
  }


  class Txn {
    const base: Base
    var current: Tree
    var snapshots: seq<Tree>
    ghost var view: Overlay
    ghost var saved: seq<Overlay>
    ghost var live: set<nat>

    ghost function Objects(): set<StateObject>
      reads this
    {
      current.objects.Values + (set i, x | 0 <= i < |snapshots| && x in snapshots[i].objects.Values :: x)
    }

    /** The account records and slot trees behind the objects. */
    ghost function Records(): set<AccountCell>
      reads this
    {
      set x | x in Objects() :: x.account
    }

    ghost function Trees(): set<SlotTree>
      reads this
    {
      set x | x in Objects() :: x.storage
    }

    ghost function Arrays(): set<array<Log>>
      reads this
    {
      {current.logs} + (set i | 0 <= i < |snapshots| :: snapshots[i].logs)
    }

    /** Every snapshot keeps its objects and its refund. */
    ghost predicate SavedOk(i: nat)
      requires i < |snapshots| == |saved|
      reads this, snapshots[i].objects.Values
      reads set x | x in snapshots[i].objects.Values :: x.account, set x | x in snapshots[i].objects.Values :: x.storage
    {
      && ObjectsShow(snapshots[i].objects, saved[i].objects) && snapshots[i].refund == saved[i].refund
      && snapshots[i].logLen <= snapshots[i].logs.Length
    }

    /** A live snapshot also keeps its logs: nothing will be written below its length. */
    ghost predicate LiveOk(i: nat)
      requires i < |snapshots| == |saved|
      reads this, snapshots[i].logs
    {
      && LogsShow(snapshots[i], saved[i].logs) && Within(snapshots[i], current)
      && forall j :: i < j < |snapshots| ==> Within(snapshots[i], snapshots[j])
    }

    ghost predicate Valid()
      reads this, Objects(), Records(), Trees(), Arrays()
    {
      && |snapshots| == |saved|
      && ObjectsShow(current.objects, view.objects) && LogsShow(current, view.logs) && current.refund == view.refund
      && (forall i :: 0 <= i < |snapshots| ==> SavedOk(i))
      && (forall i :: i in live ==> i < |snapshots| && LiveOk(i))
    }

    constructor (base: Base)
      ensures Valid() && this.base == base && view == NOTHING && snapshots == [] && fresh(current.logs)
    {
      this.base := base;
      var empty := new Log[0];
      current := Tree(map[], empty, 0, 0);
      snapshots, saved, live := [], [], {};
      view := NOTHING;
    }

    method Snapshot() returns (id: nat)
      requires Valid()
      modifies this
      ensures Valid() && id == |old(snapshots)| && view == old(view) && current == old(current)
      ensures snapshots == old(snapshots) + [old(current)] && saved == old(saved) + [old(view)]
      ensures live == old(live) + {id}
    {
      id := |snapshots|;
      snapshots := snapshots + [current];
      saved := saved + [view];
      live := live + {id};
      forall i | 0 <= i < |snapshots| ensures SavedOk(i) { if i < id { assert old(SavedOk(i)); } }
      forall i | i in live ensures i < |snapshots| && LiveOk(i) { if i < id { assert old(LiveOk(i)); } }
    }

    /**
     An unknown id is an error. A snapshot that no earlier revert has overtaken brings back the whole state; an
     overtaken one brings back everything but the logs.
     */
    method RevertToSnapshot(id: nat) returns (ok: bool)
      requires Valid()
      modifies this
      ensures Valid() && snapshots == old(snapshots) && saved == old(saved)
      ensures ok <==> id < |snapshots|
      ensures ok ==> current == snapshots[id] && view.objects == saved[id].objects && view.refund == saved[id].refund
      ensures ok && id in old(live) ==> view == saved[id]
      ensures ok ==> live == set i | i in old(live) && i <= id
      ensures !ok ==> view == old(view) && current == old(current) && live == old(live)
    {
      if id >= |snapshots| {
        return false;
      }
      assert SavedOk(id) && (id in live ==> LiveOk(id));
      current := snapshots[id];
      view := saved[id].(logs := current.logs[..current.logLen]);
      live := set i | i in live && i <= id;
      forall i | 0 <= i < |snapshots| ensures SavedOk(i) { assert old(SavedOk(i)); }
      forall i | i in live ensures i < |snapshots| && LiveOk(i) { assert old(LiveOk(i)); }
      return true;
    }

    /** No snapshot is added or lost, and the log slice stays where it is. */
    twostate predicate Kept()
      reads this
    {
      snapshots == old(snapshots) && saved == old(saved) && live == old(live) && current.logs == old(current.logs)
    }

    /** Replaces the object of one address by a new one. */
    method Insert(a: Address, x: StateObject, ghost v: Object)
      requires Valid() && x.View() == v
      modifies this
      ensures Valid() && Kept() && view == Put(old(view), a, v)
    {
      current := current.(objects := current.objects[a := x]);
      view := Put(view, a, v);
      forall i | 0 <= i < |snapshots| ensures SavedOk(i) { assert old(SavedOk(i)); }
      forall i | i in live ensures i < |snapshots| && LiveOk(i) { assert old(LiveOk(i)); }
    }

    /** A private copy of the object of an address, or a new object. */
    method GetOrNew(a: Address) returns (x: StateObject, found: bool)
      requires Valid()
      ensures fresh(x) && fresh(x.account) && fresh(x.storage)
      ensures x.View() == ObjectOrNew(base, view, a) && found == GetObject(base, view, a).Some?
    {
      if a in current.objects {
        if current.objects[a].deleted {
          x := new StateObject(NewObject());
          return x, false;
        }
        x := current.objects[a].Copy();
        return x, true;
      }
      if a in base.accounts {
        x := new StateObject(Copied(Object(base.accounts[a], map[], false, false, None)));
        return x, true;
      }
      x := new StateObject(NewObject());
      return x, false;
    }

    /** Applies a change to a private copy of the object and stores the copy; a missing object is created if asked. */
    method UpsertAccount(a: Address, create: bool, change: Object -> Object)
      requires Valid()
      modifies this
      ensures Valid() && Kept()
      ensures view == if create || GetObject(base, old(view), a).Some?
                      then Put(old(view), a, change(ObjectOrNew(base, old(view), a)))
                      else old(view)
    {
      ghost var y := ObjectOrNew(base, view, a);
      var x, found := GetOrNew(a);
      if !found && !create {
        return;
      }
      x.Update(change);
      Insert(a, x, change(y));
    }

    method AddBalance(a: Address, amount: int)
      requires Valid()
      modifies this
      ensures Valid() && Kept() && view == WorldState.AddBalance(base, old(view), a, amount)
    {
      UpsertAccount(a, true, (x: Object) => WithBalance(x, x.account.balance + amount));
    }

    method GetBalance(a: Address) returns (balance: nat)
      requires Valid()
      ensures balance == WorldState.GetBalance(base, view, a)
    {
      var x, found := GetOrNew(a);
      balance := if found then x.account.value.balance else 0;
    }

    method GetNonce(a: Address) returns (nonce: nat)
      requires Valid()
      ensures nonce == WorldState.GetNonce(base, view, a)
    {
      var x, found := GetOrNew(a);
      nonce := if found then x.account.value.nonce else 0;
    }

    method Exist(a: Address) returns (found: bool)
      requires Valid()
      ensures found == WorldState.Exist(base, view, a)
    {
      var x;
      x, found := GetOrNew(a);
    }

    method SubBalance(a: Address, amount: nat) returns (ok: bool)
      requires Valid()
      modifies this
      ensures Valid() && Kept() && ok == WorldState.SubBalance(base, old(view), a, amount).Some?
      ensures view == if ok then WorldState.SubBalance(base, old(view), a, amount).value else old(view)
    {
      if amount == 0 {
        return true;
      }
      var balance := GetBalance(a);
      if balance < amount {
        return false;
      }
      UpsertAccount(a, true, (x: Object) => WithBalance(x, x.account.balance - amount));
      return true;
    }

    method Transfer(from: Address, to: Address, amount: nat) returns (ok: bool)
      requires Valid()
      modifies this
      ensures Valid() && Kept() && ok == WorldState.Transfer(base, old(view), from, to, amount).Some?
      ensures view == if ok then WorldState.Transfer(base, old(view), from, to, amount).value else old(view)
    {
      ok := SubBalance(from, amount);
      if ok {
        AddBalance(to, amount);
      }
    }

    method TouchAccount(a: Address)
      requires Valid()
      modifies this
      ensures Valid() && Kept() && view == Touch(base, old(view), a)
    {
      UpsertAccount(a, true, (x: Object) => x);
    }

    method IncrNonce(a: Address) returns (ok: bool)
      requires Valid()
      modifies this
      ensures Valid() && Kept() && ok == !NonceOverflows(base, old(view), a)
      ensures view == WorldState.IncrNonce(base, old(view), a)
    {
      CountsNonce(base, view, a);
      var nonce := GetNonce(a);
      ok := nonce + 1 < TWO64;
      UpsertAccount(a, true, Counted);
      hide WorldState.IncrNonce, WorldState.GetNonce, Counted;
    }

    method SetCode(a: Address, code: Code)
      requires Valid()
      modifies this
      ensures Valid() && Kept() && view == WorldState.SetCode(base, old(view), a, code)
    {
      UpsertAccount(a, true, (x: Object) => x.(account := x.account.(codeHash := CodeHash(code)), code := Some(code)));
    }

    method CreateAccount(a: Address)
      requires Valid()
      modifies this
      ensures Valid() && Kept() && view == WorldState.CreateAccount(base, old(view), a)
    {
      var balance := GetBalance(a);
      var x := new StateObject(WithBalance(NewObject(), balance));
      Insert(a, x, WithBalance(NewObject(), balance));
    }

    method Suicide(a: Address)
      requires Valid()
      modifies this
      ensures Valid() && Kept() && view == WorldState.Suicide(base, old(view), a)
    {
      UpsertAccount(a, false, (x: Object) => WithBalance(x.(suicide := true), 0));
    }

    method SetRefund(refund: nat)
      requires Valid()
      modifies this
      ensures Valid() && Kept() && view == old(view).(refund := refund)
    {
      current := current.(refund := refund);
      view := view.(refund := refund);
      forall i | 0 <= i < |snapshots| ensures SavedOk(i) { assert old(SavedOk(i)); }
      forall i | i in live ensures i < |snapshots| && LiveOk(i) { assert old(LiveOk(i)); }
    }

    method SetState(a: Address, k: Key, value: Value)
      requires Valid()
      modifies this
      ensures Valid() && Kept() && view == WorldState.SetState(base, old(view), a, k, value)
    {
      UpsertAccount(a, true, (x: Object) => x.(storage := x.storage[k := value]));
    }

    /** The value of a slot now, and the value committed for it. */
    method GetSlot(a: Address, k: Key) returns (now: Value, original: Value)
      requires Valid()
      ensures now == GetState(base, view, a, k) && original == GetCommittedState(base, view, a, k)
    {
      var x, found := GetOrNew(a);
      if !found {
        return ZERO, ZERO;
      }
      original := base.storage(a, x.account.value.root, k);
      now := if k in x.storage.slots then x.storage.slots[k] else original;
    }

    method SetStorage(f: Forks, a: Address, k: Key, value: Value) returns (status: StorageStatus)
      requires Valid()
      modifies this
      ensures Valid() && Kept() && view == WorldState.SetStorage(base, f, old(view), a, k, value)
      ensures status == StatusFor(f, GetCommittedState(base, old(view), a, k), GetState(base, old(view), a, k), value)
    {
      var now, original := GetSlot(a, k);
      if now == value {
        return StorageUnchanged;
      }
      SetState(a, k, value);
      SetRefund(RefundFor(f, current.refund, original, now, value));
      if Legacy(f) || original == now {
        return if now == ZERO then StorageAdded else if value == ZERO then StorageDeleted else StorageModified;
      }
      return StorageModifiedAgain;
    }

    /** The first destruction of an account in a transaction earns a refund. */
    method RefundDestruction(a: Address)
      requires Valid()
      modifies this
      ensures Valid() && Kept()
              && view == if HasSuicided(base, old(view), a) then old(view) else AddRefund(old(view), 24000)
    {
      var x, found := GetOrNew(a);
      if !(found && x.suicide) {
        SetRefund(Plus(current.refund, 24000));
      }
    }

    method Selfdestruct(a: Address, beneficiary: Address)
      requires Valid()
      modifies this
      ensures Valid() && Kept() && view == WorldState.Selfdestruct(base, old(view), a, beneficiary)
    {
      RefundDestruction(a);
      var balance := GetBalance(a);
      AddBalance(beneficiary, balance);
      Suicide(a);
    }

    /** Hands the logs out and starts a new list. */
    method Logs() returns (logs: seq<Log>)
      requires Valid()
      modifies this
      ensures Valid() && logs == old(view).logs && view == old(view).(logs := [])
      ensures snapshots == old(snapshots) && saved == old(saved) && live == old(live) && fresh(current.logs)
    {
      logs := current.logs[..current.logLen];
      var empty := new Log[0];
      current := current.(logs := empty, logLen := 0);
      view := view.(logs := []);
      forall i | 0 <= i < |snapshots| ensures SavedOk(i) { assert old(SavedOk(i)); }
      forall i | i in live ensures i < |snapshots| && LiveOk(i) { assert old(LiveOk(i)); }
    }

    /** Marks destroyed accounts, and empty ones if asked, as deleted in private copies, and forgets the refund. */
    method CleanDeleteObjects(deleteEmpty: bool)
      requires Valid()
      modifies this
      ensures Valid() && Kept() && view == WorldState.CleanDeleteObjects(old(view), deleteEmpty)
    {
      ghost var o := view;
      CleanObjects(deleteEmpty);
      CleaningDone(o, view, deleteEmpty);
      SetRefund(0);
    }

    method CleanObjects(deleteEmpty: bool)
      requires Valid()
      modifies this
      ensures Valid() && Kept() && Cleaning(old(view), view, {}, deleteEmpty)
    {
      hide CleanOne, Cleaning;
      var todo := current.objects.Keys;
      ghost var o := view;
      CleaningStart(o, deleteEmpty);
      while todo != {}
        invariant Valid() && Kept() && Cleaning(o, view, todo, deleteEmpty)
        decreases |todo|
      {
        var a :| a in todo;
        CleaningStep(o, view, todo, deleteEmpty, a);
        CleanObject(a, deleteEmpty);
        todo := todo - {a};
      }
    }

    method CleanObject(a: Address, deleteEmpty: bool)
      requires Valid() && a in view.objects
      modifies this
      ensures Valid() && Kept() && view == CleanOne(old(view), a, deleteEmpty)
    {
      ghost var y := view.objects[a];
      if current.objects[a].Removable(deleteEmpty) {
        var x := current.objects[a].Copy();
        x.deleted := true;
        Insert(a, x, Copied(y).(deleted := true));
      }
    }

    /** Appends in place while the backing array has room, beyond the end of every live snapshot. */
    method EmitLog(log: Log)
      requires Valid()
      modifies this, current.logs
      ensures Valid() && view == WorldState.EmitLog(old(view), log)
      ensures snapshots == old(snapshots) && saved == old(saved) && live == old(live)
      ensures current.logs == old(current.logs) || fresh(current.logs)
    {
      if current.logLen == current.logs.Length {
        Reserve();
      }
      Append(log);
    }

    /** Moves the logs to a larger array, as `append` does when the capacity is used up. */
    method Reserve()
      requires Valid()
      modifies this
      ensures Valid() && view == old(view) && snapshots == old(snapshots) && saved == old(saved) && live == old(live)
      ensures fresh(current.logs) && current.logLen < current.logs.Length
    {
      var grown := Grow(current.logs, current.logLen);
      current := current.(logs := grown);
      forall i | 0 <= i < |snapshots| ensures SavedOk(i) { assert old(SavedOk(i)); }
      forall i | i in live ensures i < |snapshots| && LiveOk(i) { assert old(LiveOk(i)); }
    }

    method Append(log: Log)
      requires Valid() && current.logLen < current.logs.Length
      modifies this, current.logs
      ensures Valid() && Kept() && view == WorldState.EmitLog(old(view), log)
    {
      current.logs[current.logLen] := log;
      current := current.(logLen := current.logLen + 1);
      view := view.(logs := view.logs + [log]);
      assert current.logs[..current.logLen] == view.logs;
      forall i | 0 <= i < |snapshots| ensures SavedOk(i) { assert old(SavedOk(i)); }
      forall i | i in live ensures i < |snapshots| && LiveOk(i) {
        assert old(LiveOk(i));
        assert snapshots[i].logs[..snapshots[i].logLen] == old(snapshots[i].logs[..snapshots[i].logLen]);
      }
    }
  }

  /** The journal stays valid when none of its objects changes. */
  twostate lemma ValidStays(t: Txn)
    requires old(t.Valid()) && unchanged(t) && unchanged(t.Objects()) && unchanged(t.Records()) && unchanged(t.Trees())
    requires unchanged(t.Arrays())
    ensures t.Valid()
  {
  }

  method Grow(a: array<Log>, n: nat) returns (grown: array<Log>)
    requires n <= a.Length
    ensures fresh(grown) && grown.Length > n && grown[..n] == a[..n]
  {
    grown := new Log[2 * n + 1];
    for i := 0 to n
      invariant grown[..i] == a[..i]
    {
      grown[i] := a[i];
    }
  }
}

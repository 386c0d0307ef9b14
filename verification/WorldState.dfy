/**
 The journaled world state (state/txn.go, state/state.go) on values: an overlay of changed accounts, logs and the
 refund counter over a committed base, and the host operations that a transaction may perform on it.
 */
module WorldState {
  import opened Transactions

  type Key = nat
  type Value = nat
  type Root = nat
  type Code = nat
  type Log = nat

  const EMPTY_ROOT: Root := 0
  const ZERO: Value := 0
  const ZERO_HASH: nat := 0
  const EMPTY_CODE_HASH: nat := 1

  /** Balances are the source's unbounded integers; a negative fee credit can leave a negative one until it is read. */
  datatype Account = Account(nonce: nat, balance: int, root: Root, codeHash: nat)

  /** `storage` holds the slots written since the base was committed; a deleted slot holds zero. */
  datatype Object = Object(account: Account, storage: map<Key, Value>, suicide: bool, deleted: bool, code: Option<Code>)

  datatype Overlay = Overlay(objects: map<Address, Object>, logs: seq<Log>, refund: nat)

  /** An overlay in which nothing has changed yet. */
  const NOTHING: Overlay := Overlay(map[], [], 0)

  /** The committed state. */
  datatype Base = Base(accounts: map<Address, Account>, storage: (Address, Root, Key) -> Value)

  ghost predicate ValidBase(b: Base) { forall a, k :: b.storage(a, EMPTY_ROOT, k) == ZERO }

  datatype Forks = Forks(homestead: bool, eip158: bool, constantinople: bool, petersburg: bool, istanbul: bool)

  function NewObject(): Object {
    Object(Account(0, 0, EMPTY_ROOT, EMPTY_CODE_HASH), map[], false, false, None)
  }

  function Abs(x: int): nat { if x < 0 then -x else x }

  /** A copy rebuilds the balance from its bytes, which lose the sign. */
  function Copied(x: Object): Object { x.(account := x.account.(balance := Abs(x.account.balance))) }

  /** The live object of an address, as a copy: from the overlay, else from the base. */
  function GetObject(b: Base, o: Overlay, a: Address): Option<Object> {
    if a in o.objects then (if o.objects[a].deleted then None else Some(Copied(o.objects[a])))
    else if a in b.accounts then Some(Copied(Object(b.accounts[a], map[], false, false, None)))
    else None
  }

  function ObjectOrNew(b: Base, o: Overlay, a: Address): Object {
    match GetObject(b, o, a)
    case Some(x) => x
    case None => NewObject()
  }

  function Put(o: Overlay, a: Address, x: Object): Overlay { o.(objects := o.objects[a := x]) }

  // What can be observed.

  function GetBalance(b: Base, o: Overlay, a: Address): nat {
    match GetObject(b, o, a)
    case Some(x) => x.account.balance
    case None => 0
  }

  function GetNonce(b: Base, o: Overlay, a: Address): nat {
    match GetObject(b, o, a)
    case Some(x) => x.account.nonce
    case None => 0
  }

  function StorageOf(b: Base, a: Address, x: Object, k: Key): Value {
    if k in x.storage then x.storage[k] else b.storage(a, x.account.root, k)
  }

  function GetState(b: Base, o: Overlay, a: Address, k: Key): Value {
    match GetObject(b, o, a)
    case Some(x) => StorageOf(b, a, x, k)
    case None => ZERO
  }

  function GetCommittedState(b: Base, o: Overlay, a: Address, k: Key): Value {
    match GetObject(b, o, a)
    case Some(x) => b.storage(a, x.account.root, k)
    case None => ZERO
  }

  function GetCodeHash(b: Base, o: Overlay, a: Address): nat {
    match GetObject(b, o, a)
    case Some(x) => x.account.codeHash
    case None => ZERO_HASH
  }

  predicate HasSuicided(b: Base, o: Overlay, a: Address) {
    match GetObject(b, o, a)
    case Some(x) => x.suicide
    case None => false
  }

  predicate Exist(b: Base, o: Overlay, a: Address) { GetObject(b, o, a).Some? }

  // The updates.

  function WithBalance(x: Object, balance: int): Object { x.(account := x.account.(balance := balance)) }

  function AddBalance(b: Base, o: Overlay, a: Address, amount: int): Overlay {
    var x := ObjectOrNew(b, o, a);
    Put(o, a, WithBalance(x, x.account.balance + amount))
  }

  /** None when the balance is too small; taking nothing touches nothing. */
  function SubBalance(b: Base, o: Overlay, a: Address, amount: nat): Option<Overlay> {
    if amount == 0 then Some(o)
    else if GetBalance(b, o, a) < amount then None
    else
      var x := ObjectOrNew(b, o, a);
      Some(Put(o, a, WithBalance(x, GetBalance(b, o, a) - amount)))
  }

  function Transfer(b: Base, o: Overlay, from: Address, to: Address, amount: nat): Option<Overlay> {
    match SubBalance(b, o, from, amount)
    case None => None
    case Some(o') => Some(AddBalance(b, o', to, amount))
  }

  function Touch(b: Base, o: Overlay, a: Address): Overlay { Put(o, a, ObjectOrNew(b, o, a)) }

  predicate NonceOverflows(b: Base, o: Overlay, a: Address) { GetNonce(b, o, a) + 1 >= TWO64 }

  /** A nonce that would overflow 64 bits stays, but its account is touched. */
  function IncrNonce(b: Base, o: Overlay, a: Address): Overlay {
    var x := ObjectOrNew(b, o, a);
    if NonceOverflows(b, o, a) then Touch(b, o, a)
    else Put(o, a, x.(account := x.account.(nonce := x.account.nonce + 1)))
  }

  /** Code 0 is the empty code. */
  function CodeHash(code: Code): nat { EMPTY_CODE_HASH + code }

  function SetCode(b: Base, o: Overlay, a: Address, code: Code): Overlay {
    var x := ObjectOrNew(b, o, a);
    Put(o, a, x.(account := x.account.(codeHash := CodeHash(code)), code := Some(code)))
  }

  function SetState(b: Base, o: Overlay, a: Address, k: Key, v: Value): Overlay {
    var x := ObjectOrNew(b, o, a);
    Put(o, a, x.(storage := x.storage[k := v]))
  }

  /** A fresh account that keeps only the balance. */
  function CreateAccount(b: Base, o: Overlay, a: Address): Overlay {
    Put(o, a, WithBalance(NewObject(), GetBalance(b, o, a)))
  }

  function Suicide(b: Base, o: Overlay, a: Address): Overlay {
    match GetObject(b, o, a)
    case Some(x) => Put(o, a, WithBalance(x.(suicide := true), 0))
    case None => o
  }

  /** Refunds are counted in 64 bits. */
  function Plus(refund: nat, gas: nat): nat {
    if refund + gas < TWO64 then refund + gas else (refund + gas) % TWO64
  }

  function Minus(refund: nat, gas: nat): nat {
    if gas <= refund then refund - gas else (refund - gas) % TWO64
  }

  function AddRefund(o: Overlay, gas: nat): Overlay { o.(refund := Plus(o.refund, gas)) }

  function EmitLog(o: Overlay, log: Log): Overlay { o.(logs := o.logs + [log]) }

  predicate Legacy(f: Forks) { !f.istanbul && (f.petersburg || !f.constantinople) }

  datatype StorageStatus = StorageUnchanged | StorageModified | StorageModifiedAgain | StorageAdded | StorageDeleted

  /** What a write does to a slot committed as `original`. */
  function StatusFor(f: Forks, original: Value, current: Value, value: Value): StorageStatus {
    if current == value then StorageUnchanged
    else if Legacy(f) || original == current then
      if current == ZERO then StorageAdded else if value == ZERO then StorageDeleted else StorageModified
    else StorageModifiedAgain
  }

  /** The refund after `value` is written over `current` in a slot committed as `original`. */
  function RefundFor(f: Forks, refund: nat, original: Value, current: Value, value: Value): nat {
    if current == value then refund
    else if Legacy(f) then (if current != ZERO && value == ZERO then Plus(refund, 15000) else refund)
    else if original == current then (if original != ZERO && value == ZERO then Plus(refund, 15000) else refund)
    else
      var r := if original == ZERO then refund
               else if current == ZERO then Minus(refund, 15000)
               else if value == ZERO then Plus(refund, 15000)
               else refund;
      if original != value then r
      else if original == ZERO then Plus(r, if f.istanbul then 19200 else 19800)
      else Plus(r, if f.istanbul then 4200 else 4800)
  }

  function SetStorage(b: Base, f: Forks, o: Overlay, a: Address, k: Key, value: Value): Overlay {
    var current := GetState(b, o, a, k);
    if current == value then o
    else SetState(b, o, a, k, value).(refund := RefundFor(f, o.refund, GetCommittedState(b, o, a, k), current, value))
  }

  function Selfdestruct(b: Base, o: Overlay, a: Address, beneficiary: Address): Overlay {
    var o1 := if HasSuicided(b, o, a) then o else AddRefund(o, 24000);
    Suicide(b, AddBalance(b, o1, beneficiary, GetBalance(b, o1, a)), a)
  }

  /** A removed object keeps its entry so that the commit deletes the account. */
  predicate Removable(x: Object, deleteEmpty: bool) {
    x.suicide || (deleteEmpty && x.account.nonce == 0 && x.account.balance == 0
      && x.account.codeHash == EMPTY_CODE_HASH)
  }

  function CleanDeleteObjects(o: Overlay, deleteEmpty: bool): Overlay {
    Overlay(map a | a in o.objects ::
              if Removable(o.objects[a], deleteEmpty) then Copied(o.objects[a]).(deleted := true) else o.objects[a],
            o.logs, 0)
  }
}

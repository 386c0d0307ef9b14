/** The sum of all balances over every nested run of host operations. */
module Supply {
  import opened Sums
  import opened Transactions
  import opened WorldState
  import opened HostOps

  function Id(x: int): int { x }

  ghost function Balances(b: Base, o: Overlay): map<Address, int> {
    map a | a in b.accounts.Keys + o.objects.Keys :: GetBalance(b, o, a)
  }

  /** The sum of all balances; every address outside the sum has balance zero. */
  ghost function Total(b: Base, o: Overlay): int { Sum(Balances(b, o), Id) }

  /** What will be read of an object's balance. */
  function Read(x: Object): nat { if x.deleted then 0 else Abs(x.account.balance) }

  lemma BalancesPut(b: Base, o: Overlay, a: Address, x: Object)
    ensures Balances(b, Put(o, a, x)) == Balances(b, o)[a := Read(x)]
  {
  }

  lemma TotalPut(b: Base, o: Overlay, a: Address, x: Object)
    ensures Total(b, Put(o, a, x)) == Total(b, o) - GetBalance(b, o, a) + Read(x)
  {
    BalancesPut(b, o, a, x);
    SumUpdate(Balances(b, o), Id, a, Read(x));
  }

  lemma TotalOfSameObjects(b: Base, o: Overlay, o': Overlay)
    requires o.objects == o'.objects
    ensures Total(b, o) == Total(b, o')
  {
    assert Balances(b, o) == Balances(b, o');
  }

  lemma ObjectBalance(b: Base, o: Overlay, a: Address)
    ensures ObjectOrNew(b, o, a).account.balance == GetBalance(b, o, a) && !ObjectOrNew(b, o, a).deleted
  {
  }

  /** Updates that keep the balance of an object keep the total. */
  lemma PutKeepsTotal(b: Base, o: Overlay, a: Address, x: Object)
    requires !x.deleted && x.account.balance == GetBalance(b, o, a)
    ensures Total(b, Put(o, a, x)) == Total(b, o)
  {
    TotalPut(b, o, a, x);
  }

  /** How far a credit takes a balance below zero. */
  function Shortfall(b: Base, o: Overlay, a: Address, amount: int): nat {
    if GetBalance(b, o, a) + amount < 0 then -(GetBalance(b, o, a) + amount) else 0
  }

  /**
   A credit changes the total by its amount, and by twice what it takes below zero, since the sign is lost on reading.
   */
  lemma TotalAdd(b: Base, o: Overlay, a: Address, amount: int)
    ensures Total(b, AddBalance(b, o, a, amount)) == Total(b, o) + amount + 2 * Shortfall(b, o, a, amount)
  {
    var x := ObjectOrNew(b, o, a);
    ObjectBalance(b, o, a);
    TotalPut(b, o, a, WithBalance(x, x.account.balance + amount));
  }

  lemma TotalSub(b: Base, o: Overlay, a: Address, amount: nat)
    requires SubBalance(b, o, a, amount).Some?
    ensures Total(b, SubBalance(b, o, a, amount).value) == Total(b, o) - amount
  {
    if amount != 0 {
      ObjectBalance(b, o, a);
      TotalPut(b, o, a, WithBalance(ObjectOrNew(b, o, a), GetBalance(b, o, a) - amount));
    }
  }

  lemma TotalTransfer(b: Base, o: Overlay, from: Address, to: Address, amount: nat)
    requires Transfer(b, o, from, to, amount).Some?
    ensures Total(b, Transfer(b, o, from, to, amount).value) == Total(b, o)
  {
    TotalSub(b, o, from, amount);
    TotalAdd(b, SubBalance(b, o, from, amount).value, to, amount);
  }

  lemma TotalTouch(b: Base, o: Overlay, a: Address)
    ensures Total(b, Touch(b, o, a)) == Total(b, o)
  {
    ObjectBalance(b, o, a);
    PutKeepsTotal(b, o, a, ObjectOrNew(b, o, a));
  }

  lemma TotalIncrNonce(b: Base, o: Overlay, a: Address)
    ensures Total(b, IncrNonce(b, o, a)) == Total(b, o)
  {
    var x := ObjectOrNew(b, o, a);
    ObjectBalance(b, o, a);
    PutKeepsTotal(b, o, a, x);
    PutKeepsTotal(b, o, a, x.(account := x.account.(nonce := x.account.nonce + 1)));
  }

  lemma TotalSetCode(b: Base, o: Overlay, a: Address, code: Code)
    ensures Total(b, SetCode(b, o, a, code)) == Total(b, o)
  {
    var x := ObjectOrNew(b, o, a);
    ObjectBalance(b, o, a);
    PutKeepsTotal(b, o, a, x.(account := x.account.(codeHash := CodeHash(code)), code := Some(code)));
  }

  lemma TotalStore(b: Base, f: Forks, o: Overlay, a: Address, k: Key, v: Value)
    ensures Total(b, SetStorage(b, f, o, a, k, v)) == Total(b, o)
  {
    if GetState(b, o, a, k) != v {
      var x := ObjectOrNew(b, o, a);
      ObjectBalance(b, o, a);
      PutKeepsTotal(b, o, a, x.(storage := x.storage[k := v]));
      TotalOfSameObjects(b, SetState(b, o, a, k, v), SetStorage(b, f, o, a, k, v));
    }
  }

  lemma TotalPrepared(b: Base, f: Forks, o: Overlay, a: Address)
    ensures Total(b, Prepared(b, f, o, a)) == Total(b, o)
  {
    PutKeepsTotal(b, o, a, WithBalance(NewObject(), GetBalance(b, o, a)));
    TotalIncrNonce(b, CreateAccount(b, o, a), a);
  }

  lemma TotalSuicide(b: Base, o: Overlay, a: Address)
    ensures Total(b, Suicide(b, o, a)) == Total(b, o) - GetBalance(b, o, a)
  {
    if GetObject(b, o, a).Some? {
      ObjectBalance(b, o, a);
      TotalPut(b, o, a, WithBalance(ObjectOrNew(b, o, a).(suicide := true), 0));
    }
  }

  lemma BalanceAfterAdd(b: Base, o: Overlay, a: Address, amount: int, c: Address)
    ensures GetBalance(b, AddBalance(b, o, a, amount), c) ==
            if c == a then Abs(GetBalance(b, o, c) + amount) else GetBalance(b, o, c)
  {
  }

  /** Destroying a contract moves its balance; one that names itself as the beneficiary burns it. */
  lemma TotalSelfdestruct(b: Base, o: Overlay, a: Address, beneficiary: Address)
    ensures Total(b, Selfdestruct(b, o, a, beneficiary))
            == Total(b, o) - (if a == beneficiary then GetBalance(b, o, a) else 0)
  {
    var o1 := if HasSuicided(b, o, a) then o else AddRefund(o, 24000);
    TotalOfSameObjects(b, o, o1);
    assert GetBalance(b, o1, a) == GetBalance(b, o, a);
    TotalAdd(b, o1, beneficiary, GetBalance(b, o1, a));
    BalanceAfterAdd(b, o1, beneficiary, GetBalance(b, o1, a), a);
    TotalSuicide(b, AddBalance(b, o1, beneficiary, GetBalance(b, o1, a)), a);
  }

  /**
   What a run burns: the balances of contracts that destroy themselves to their own benefit and are not rolled back.
   */
  ghost function Burned(b: Base, f: Forks, op: HostOp, o: Overlay): int
    decreases op, 0
  {
    match op
    case Store(_, _, _) => 0
    case Emit(_) => 0
    case Destruct(a, beneficiary) => if a == beneficiary then GetBalance(b, o, a) else 0
    case Call(_, _, _, _, body, failed) =>
      var inside := EnterCall(b, o, op);
      if failed || inside.None? then 0 else BurnedAll(b, f, body, inside.value)
    case Create(caller, addr, _, body, end) =>
      var o1 := IncrNonce(b, o, caller);
      var inside := EnterCreate(b, f, o1, op);
      if NonceOverflows(b, o, caller) || HasCodeOrNonce(b, o1, addr)
         || inside.None? || end.NotAuthorized? || Reverts(f, end) then 0
      else BurnedAll(b, f, body, inside.value)
  }

  ghost function BurnedAll(b: Base, f: Forks, ops: seq<HostOp>, o: Overlay): int
    decreases ops, 1
  {
    if ops == [] then 0 else Burned(b, f, ops[0], o) + BurnedAll(b, f, ops[1..], Exec(b, f, ops[0], o))
  }

  /** Over every run, whatever its nesting and its failures, the total falls by exactly what is burned. */
  lemma {:induction false} ExecTotal(b: Base, f: Forks, op: HostOp, o: Overlay)
    ensures Total(b, Exec(b, f, op, o)) == Total(b, o) - Burned(b, f, op, o)
    decreases op, 0
  {
    match op
    case Store(a, k, v) => TotalStore(b, f, o, a, k, v);
    case Emit(log) => TotalOfSameObjects(b, o, EmitLog(o, log));
    case Destruct(a, beneficiary) => TotalSelfdestruct(b, o, a, beneficiary);
    case Call(_, to, _, _, body, failed) =>
      TotalTouch(b, o, to);
      EnterCallTotal(b, o, op);
      if EnterCall(b, o, op).Some? {
        ExecAllTotal(b, f, body, EnterCall(b, o, op).value);
      }
    case Create(caller, _, _, _, _) =>
      TotalIncrNonce(b, o, caller);
      DeployTotal(b, f, op, IncrNonce(b, o, caller));
  }

  lemma EnterCallTotal(b: Base, o: Overlay, op: HostOp)
    requires op.Call?
    ensures EnterCall(b, o, op).Some? ==> Total(b, EnterCall(b, o, op).value) == Total(b, o)
  {
    TotalTouch(b, o, op.to);
    if op.moves && EnterCall(b, o, op).Some? { TotalTransfer(b, Touch(b, o, op.to), op.caller, op.to, op.amount); }
  }

  lemma {:induction false} DeployTotal(b: Base, f: Forks, op: HostOp, o: Overlay)
    requires op.Create?
    ensures var inside := EnterCreate(b, f, o, op);
            Total(b, Deploy(b, f, op, o)) == Total(b, o) -
            (if inside.None? || op.end.NotAuthorized? || Reverts(f, op.end)
             then 0
             else BurnedAll(b, f, op.body, inside.value))
    decreases op.body, 2
  {
    TotalPrepared(b, f, o, op.addr);
    if EnterCreate(b, f, o, op).Some? {
      TotalTransfer(b, Prepared(b, f, o, op.addr), op.caller, op.addr, op.amount);
      var inside := EnterCreate(b, f, o, op).value;
      ExecAllTotal(b, f, op.body, inside);
      if op.end.Deployed? { TotalSetCode(b, ExecAll(b, f, op.body, inside), op.addr, op.end.code); }
    }
  }

  lemma {:induction false} ExecAllTotal(b: Base, f: Forks, ops: seq<HostOp>, o: Overlay)
    ensures Total(b, ExecAll(b, f, ops, o)) == Total(b, o) - BurnedAll(b, f, ops, o)
    decreases ops, 1
  {
    if ops != [] {
      ExecTotal(b, f, ops[0], o);
      ExecAllTotal(b, f, ops[1..], Exec(b, f, ops[0], o));
    }
  }
}

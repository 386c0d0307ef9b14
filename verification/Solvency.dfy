/** No run makes a balance negative, none raises the total, and only self-destruction lowers it. */
module Solvency {
  import opened Sums
  import opened Transactions
  import opened WorldState
  import opened HostOps
  import opened Supply

  /** No stored balance is below zero. */
  ghost predicate Solvent(o: Overlay) { forall a :: a in o.objects ==> o.objects[a].account.balance >= 0 }

  ghost predicate NoneSuicided(b: Base, o: Overlay) { forall a :: !HasSuicided(b, o, a) }

  /** The operation destroys some contract, at whatever depth. */
  predicate Destructs(op: HostOp)
    decreases op, 0
  {
    match op
    case Store(_, _, _) => false
    case Emit(_) => false
    case Destruct(_, _) => true
    case Call(_, _, _, _, body, _) => DestructsAny(body)
    case Create(_, _, _, body, _) => DestructsAny(body)
  }

  predicate DestructsAny(ops: seq<HostOp>)
    decreases ops, 1
  {
    ops != [] && (Destructs(ops[0]) || DestructsAny(ops[1..]))
  }

  /** A state in good order; `calm` asks in addition that nothing has been destroyed. */
  ghost predicate Sound(b: Base, o: Overlay, calm: bool) { Solvent(o) && (calm ==> NoneSuicided(b, o)) }

  lemma SoundPut(b: Base, o: Overlay, a: Address, x: Object, calm: bool)
    requires Sound(b, o, calm) && x.account.balance >= 0 && (calm ==> !x.suicide)
    ensures Sound(b, Put(o, a, x), calm)
  {
    forall c ensures calm ==> !HasSuicided(b, Put(o, a, x), c) {
      assert calm ==> !HasSuicided(b, o, c);
    }
  }

  lemma SoundObject(b: Base, o: Overlay, a: Address, calm: bool)
    requires Sound(b, o, calm)
    ensures ObjectOrNew(b, o, a).account.balance == GetBalance(b, o, a)
    ensures ObjectOrNew(b, o, a).suicide == HasSuicided(b, o, a) && (calm ==> !ObjectOrNew(b, o, a).suicide)
  {
  }

  lemma SoundSameObjects(b: Base, o: Overlay, o': Overlay, calm: bool)
    requires Sound(b, o, calm) && o.objects == o'.objects
    ensures Sound(b, o', calm)
  {
    forall a ensures calm ==> !HasSuicided(b, o', a) {
      assert calm ==> !HasSuicided(b, o, a);
    }
  }

  lemma SoundAdd(b: Base, o: Overlay, a: Address, amount: int, calm: bool)
    requires Sound(b, o, calm) && amount >= 0
    ensures Sound(b, AddBalance(b, o, a, amount), calm)
  {
    var x := ObjectOrNew(b, o, a);
    SoundObject(b, o, a, calm);
    SoundPut(b, o, a, WithBalance(x, x.account.balance + amount), calm);
  }

  lemma SoundSub(b: Base, o: Overlay, a: Address, amount: nat, calm: bool)
    requires Sound(b, o, calm) && SubBalance(b, o, a, amount).Some?
    ensures Sound(b, SubBalance(b, o, a, amount).value, calm)
  {
    if amount != 0 {
      SoundObject(b, o, a, calm);
      SoundPut(b, o, a, WithBalance(ObjectOrNew(b, o, a), GetBalance(b, o, a) - amount), calm);
    }
  }

  lemma SoundTransfer(b: Base, o: Overlay, from: Address, to: Address, amount: nat, calm: bool)
    requires Sound(b, o, calm) && Transfer(b, o, from, to, amount).Some?
    ensures Sound(b, Transfer(b, o, from, to, amount).value, calm)
  {
    SoundSub(b, o, from, amount, calm);
    SoundAdd(b, SubBalance(b, o, from, amount).value, to, amount, calm);
  }

  lemma SoundTouch(b: Base, o: Overlay, a: Address, calm: bool)
    requires Sound(b, o, calm)
    ensures Sound(b, Touch(b, o, a), calm)
  {
    SoundObject(b, o, a, calm);
    SoundPut(b, o, a, ObjectOrNew(b, o, a), calm);
  }

  lemma SoundIncrNonce(b: Base, o: Overlay, a: Address, calm: bool)
    requires Sound(b, o, calm)
    ensures Sound(b, IncrNonce(b, o, a), calm)
  {
    var x := ObjectOrNew(b, o, a);
    SoundTouch(b, o, a, calm);
    SoundObject(b, o, a, calm);
    SoundPut(b, o, a, x.(account := x.account.(nonce := x.account.nonce + 1)), calm);
  }

  lemma SoundSetCode(b: Base, o: Overlay, a: Address, code: Code, calm: bool)
    requires Sound(b, o, calm)
    ensures Sound(b, SetCode(b, o, a, code), calm)
  {
    var x := ObjectOrNew(b, o, a);
    SoundObject(b, o, a, calm);
    SoundPut(b, o, a, x.(account := x.account.(codeHash := CodeHash(code)), code := Some(code)), calm);
  }

  lemma SoundStore(b: Base, f: Forks, o: Overlay, a: Address, k: Key, v: Value, calm: bool)
    requires Sound(b, o, calm)
    ensures Sound(b, SetStorage(b, f, o, a, k, v), calm)
  {
    if GetState(b, o, a, k) != v {
      var x := ObjectOrNew(b, o, a);
      SoundObject(b, o, a, calm);
      SoundPut(b, o, a, x.(storage := x.storage[k := v]), calm);
      SoundSameObjects(b, SetState(b, o, a, k, v), SetStorage(b, f, o, a, k, v), calm);
    }
  }

  lemma SoundPrepared(b: Base, f: Forks, o: Overlay, a: Address, calm: bool)
    requires Sound(b, o, calm)
    ensures Sound(b, Prepared(b, f, o, a), calm)
  {
    SoundPut(b, o, a, WithBalance(NewObject(), GetBalance(b, o, a)), calm);
    SoundIncrNonce(b, CreateAccount(b, o, a), a, calm);
  }

  lemma SolventSelfdestruct(b: Base, o: Overlay, a: Address, beneficiary: Address)
    requires Solvent(o)
    ensures Solvent(Selfdestruct(b, o, a, beneficiary))
  {
    var o1 := if HasSuicided(b, o, a) then o else AddRefund(o, 24000);
    SoundSameObjects(b, o, o1, false);
    var o2 := AddBalance(b, o1, beneficiary, GetBalance(b, o1, a));
    SoundAdd(b, o1, beneficiary, GetBalance(b, o1, a), false);
    if GetObject(b, o2, a).Some? {
      SoundPut(b, o2, a, WithBalance(ObjectOrNew(b, o2, a).(suicide := true), 0), false);
    }
  }

  lemma SoundEnterCall(b: Base, o: Overlay, op: HostOp, calm: bool)
    requires Sound(b, o, calm) && op.Call?
    ensures EnterCall(b, o, op).Some? ==> Sound(b, EnterCall(b, o, op).value, calm)
  {
    SoundTouch(b, o, op.to, calm);
    if op.moves && EnterCall(b, o, op).Some? {
      SoundTransfer(b, Touch(b, o, op.to), op.caller, op.to, op.amount, calm);
    }
  }

  /** What holds of every run: no balance goes below zero and no burn is negative; without destruction nothing burns. */
  lemma {:induction false} ExecKeepsSound(b: Base, f: Forks, op: HostOp, o: Overlay, calm: bool)
    requires Sound(b, o, calm) && (calm ==> !Destructs(op))
    ensures Sound(b, Exec(b, f, op, o), calm) && Burned(b, f, op, o) >= 0 && (calm ==> Burned(b, f, op, o) == 0)
    decreases op, 0
  {
    match op
    case Store(a, k, v) => SoundStore(b, f, o, a, k, v, calm);
    case Emit(log) => SoundSameObjects(b, o, EmitLog(o, log), calm);
    case Destruct(a, beneficiary) => SolventSelfdestruct(b, o, a, beneficiary);
    case Call(_, to, _, _, body, _) =>
      SoundTouch(b, o, to, calm);
      SoundEnterCall(b, o, op, calm);
      if EnterCall(b, o, op).Some? { ExecAllKeepsSound(b, f, body, EnterCall(b, o, op).value, calm); }
    case Create(caller, _, _, _, _) =>
      SoundIncrNonce(b, o, caller, calm);
      DeployKeepsSound(b, f, op, IncrNonce(b, o, caller), calm);
  }

  lemma {:induction false} DeployKeepsSound(b: Base, f: Forks, op: HostOp, o: Overlay, calm: bool)
    requires op.Create? && Sound(b, o, calm) && (calm ==> !DestructsAny(op.body))
    ensures Sound(b, Deploy(b, f, op, o), calm)
    ensures var inside := EnterCreate(b, f, o, op);
            inside.Some? ==>
              BurnedAll(b, f, op.body, inside.value) >= 0 && (calm ==> BurnedAll(b, f, op.body, inside.value) == 0)
    decreases op.body, 2
  {
    SoundPrepared(b, f, o, op.addr, calm);
    if EnterCreate(b, f, o, op).Some? {
      SoundTransfer(b, Prepared(b, f, o, op.addr), op.caller, op.addr, op.amount, calm);
      var inside := EnterCreate(b, f, o, op).value;
      ExecAllKeepsSound(b, f, op.body, inside, calm);
      if op.end.Deployed? { SoundSetCode(b, ExecAll(b, f, op.body, inside), op.addr, op.end.code, calm); }
    }
  }

  lemma {:induction false} ExecAllKeepsSound(b: Base, f: Forks, ops: seq<HostOp>, o: Overlay, calm: bool)
    requires Sound(b, o, calm) && (calm ==> !DestructsAny(ops))
    ensures Sound(b, ExecAll(b, f, ops, o), calm) && BurnedAll(b, f, ops, o) >= 0
    ensures calm ==> BurnedAll(b, f, ops, o) == 0
    decreases ops, 1
  {
    if ops != [] {
      ExecKeepsSound(b, f, ops[0], o, calm);
      ExecAllKeepsSound(b, f, ops[1..], Exec(b, f, ops[0], o), calm);
    }
  }

  /** The cleanup after a transaction. */
  lemma CleanedObject(b: Base, o: Overlay, deleteEmpty: bool, a: Address)
    ensures var o' := CleanDeleteObjects(o, deleteEmpty);
            GetObject(b, o', a) == if a in o.objects && Removable(o.objects[a], deleteEmpty)
                                   then None
                                   else GetObject(b, o, a)
  {
  }

  lemma CleanupTotal(b: Base, o: Overlay, deleteEmpty: bool, calm: bool)
    requires Sound(b, o, calm)
    ensures Sound(b, CleanDeleteObjects(o, deleteEmpty), calm)
    ensures Total(b, CleanDeleteObjects(o, deleteEmpty)) <= Total(b, o)
    ensures calm ==> Total(b, CleanDeleteObjects(o, deleteEmpty)) == Total(b, o)
  {
    var o' := CleanDeleteObjects(o, deleteEmpty);
    forall a
      ensures GetBalance(b, o', a) <= GetBalance(b, o, a)
      ensures calm ==> GetBalance(b, o', a) == GetBalance(b, o, a) && !HasSuicided(b, o', a)
    {
      CleanedObject(b, o, deleteEmpty, a);
      assert calm ==> !HasSuicided(b, o, a);
    }
    SumAtMost(Balances(b, o'), Balances(b, o), Id);
    if calm { SumAtMost(Balances(b, o), Balances(b, o'), Id); }
  }
}

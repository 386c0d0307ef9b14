/**
 What each host operation does to everything that can be observed of an account: balance, nonce, code, slots,
 destruction and existence.
 */
module Observers {
  import opened Transactions
  import opened WorldState
  import opened HostOps

  /** Where nothing has changed yet, the committed accounts and slots are read. */
  lemma CommittedIsRead(b: Base, a: Address, k: Key)
    requires a in b.accounts && b.accounts[a].balance >= 0
    ensures var account := b.accounts[a];
            && GetBalance(b, NOTHING, a) == account.balance && GetNonce(b, NOTHING, a) == account.nonce
            && GetCodeHash(b, NOTHING, a) == account.codeHash && !HasSuicided(b, NOTHING, a)
            && GetState(b, NOTHING, a, k) == GetCommittedState(b, NOTHING, a, k) == b.storage(a, account.root, k)
  {
  }

  // Moving value.

  /** A transfer fails exactly when the sender has too little; otherwise exactly the amount changes hands. */
  lemma TransferBalances(b: Base, o: Overlay, from: Address, to: Address, amount: nat, a: Address)
    ensures var o' := Transfer(b, o, from, to, amount);
            && (o'.None? <==> GetBalance(b, o, from) < amount)
            && (o'.Some? ==>
                  GetBalance(b, o'.value, a) ==
                  GetBalance(b, o, a) - (if a == from then amount else 0) + (if a == to then amount else 0))
  {
  }

  lemma TransferKeeps(b: Base, o: Overlay, from: Address, to: Address, amount: nat, a: Address, k: Key)
    requires ValidBase(b) && Transfer(b, o, from, to, amount).Some?
    ensures var o' := Transfer(b, o, from, to, amount).value;
            && GetNonce(b, o', a) == GetNonce(b, o, a) && GetState(b, o', a, k) == GetState(b, o, a, k)
            && HasSuicided(b, o', a) == HasSuicided(b, o, a) && o'.logs == o.logs && o'.refund == o.refund
  {
  }

  lemma TouchBalances(b: Base, o: Overlay, x: Address, a: Address)
    ensures GetBalance(b, Touch(b, o, x), a) == GetBalance(b, o, a)
  {
  }

  /**
   A call that moves value starts exactly when the caller has it: the caller pays, the callee receives, and nobody
   else's balance changes. A call that moves none changes no balance.
   */
  lemma CallMovesValue(b: Base, o: Overlay, op: HostOp, a: Address)
    requires op.Call?
    ensures var inside := EnterCall(b, o, op);
            && (inside.None? <==> op.moves && GetBalance(b, o, op.caller) < op.amount)
            && (inside.Some? && op.moves && op.caller != op.to ==>
                  && GetBalance(b, inside.value, op.caller) == GetBalance(b, o, op.caller) - op.amount
                  && GetBalance(b, inside.value, op.to) == GetBalance(b, o, op.to) + op.amount)
            && (inside.Some? && (!op.moves || op.caller == op.to || (a != op.caller && a != op.to)) ==>
                  GetBalance(b, inside.value, a) == GetBalance(b, o, a))
  {
    var touched := Touch(b, o, op.to);
    forall x ensures GetBalance(b, touched, x) == GetBalance(b, o, x) { TouchBalances(b, o, op.to, x); }
    if op.moves {
      hide Transfer, GetBalance, Touch;
      TransferBalances(b, touched, op.caller, op.to, op.amount, op.caller);
      TransferBalances(b, touched, op.caller, op.to, op.amount, op.to);
      TransferBalances(b, touched, op.caller, op.to, op.amount, a);
    }
  }

  /** The callee exists from then on, and logs and refund are as before. */
  lemma EnterCallKeeps(b: Base, o: Overlay, op: HostOp)
    requires op.Call?
    ensures Exist(b, Touch(b, o, op.to), op.to)
    ensures EnterCall(b, o, op).Some? ==>
              && Exist(b, EnterCall(b, o, op).value, op.to)
              && EnterCall(b, o, op).value.logs == o.logs && EnterCall(b, o, op).value.refund == o.refund
  {
  }

  /** A call into an account without code: if it fails nobody pays, else exactly its value changes hands. */
  lemma PlainCallPays(b: Base, f: Forks, o: Overlay, op: HostOp, a: Address)
    requires op.Call? && op.moves && op.body == []
    ensures Exec(b, f, op, o).logs == o.logs && Exec(b, f, op, o).refund == o.refund
    ensures var o' := Exec(b, f, op, o);
            if op.failed || GetBalance(b, o, op.caller) < op.amount then GetBalance(b, o', a) == GetBalance(b, o, a)
            else GetBalance(b, o', a) ==
                 GetBalance(b, o, a) - (if a == op.caller then op.amount else 0) + (if a == op.to then op.amount else 0)
  {
    CallMovesValue(b, o, op, a);
    TouchBalances(b, o, op.to, a);
    EnterCallKeeps(b, o, op);
    assert Touch(b, o, op.to).logs == o.logs && Touch(b, o, op.to).refund == o.refund;
    assert ExecAll(b, f, [], o) == o;
    hide EnterCall, Touch, GetBalance;
  }

  // Nonces.

  lemma NonceAfterIncr(b: Base, o: Overlay, x: Address, a: Address)
    ensures GetNonce(b, IncrNonce(b, o, x), a) ==
            GetNonce(b, o, a) + if a == x && GetNonce(b, o, a) < MAX_UINT64 then 1 else 0
    ensures GetBalance(b, IncrNonce(b, o, x), a) == GetBalance(b, o, a)
  {
  }

  // Code.

  /**
   The code is read back where it was stored, different codes have different hashes, and only that account changes.
   */
  lemma CodeIsStored(b: Base, o: Overlay, x: Address, code: Code, other: Code, a: Address)
    ensures var o' := SetCode(b, o, x, code);
            && Exist(b, o', x) && ObjectOrNew(b, o', x).code == Some(code)
            && (GetCodeHash(b, o', x) == GetCodeHash(b, SetCode(b, o, x, other), x) <==> code == other)
            && (GetCodeHash(b, o', x) == EMPTY_CODE_HASH <==> code == 0) && GetCodeHash(b, o', x) != ZERO_HASH
            && (a != x ==> GetObject(b, o', a) == GetObject(b, o, a))
            && GetBalance(b, o', a) == GetBalance(b, o, a) && GetNonce(b, o', a) == GetNonce(b, o, a)
  {
  }

  /** A fresh account at the address: the balance stays, nonce, code and slots are gone. */
  lemma CreatedIsFresh(b: Base, o: Overlay, x: Address, a: Address, k: Key)
    requires ValidBase(b)
    ensures var o' := CreateAccount(b, o, x);
            && Exist(b, o', x) && GetNonce(b, o', x) == 0 && GetCodeHash(b, o', x) == EMPTY_CODE_HASH
            && GetState(b, o', x, k) == GetCommittedState(b, o', x, k) == ZERO && !HasSuicided(b, o', x)
            && GetBalance(b, o', a) == GetBalance(b, o, a) && (a != x ==> GetObject(b, o', a) == GetObject(b, o, a))
  {
  }

  // Slots.

  /** A write changes the slot it names and no other, and no balance or nonce. */
  lemma SlotIsWritten(b: Base, f: Forks, o: Overlay, x: Address, k: Key, v: Value, a: Address, j: Key)
    requires ValidBase(b)
    ensures var o' := Exec(b, f, Store(x, k, v), o);
            && GetState(b, o', a, j) == (if a == x && j == k then v else GetState(b, o, a, j))
            && GetCommittedState(b, o', a, j) == GetCommittedState(b, o, a, j)
            && GetBalance(b, o', a) == GetBalance(b, o, a) && GetNonce(b, o', a) == GetNonce(b, o, a)
            && o'.logs == o.logs
  {
  }

  /** A log is appended and nothing else changes. */
  lemma LogIsEmitted(b: Base, f: Forks, o: Overlay, log: Log, a: Address)
    ensures var o' := Exec(b, f, Emit(log), o);
            |o'.logs| == |o.logs| + 1 && o.logs < o'.logs && o'.logs[|o.logs|] == log
            && GetObject(b, o', a) == GetObject(b, o, a) && o'.refund == o.refund
  {
  }

  // Destruction.

  /**
   A destroyed account is marked and owns nothing, and its beneficiary has what it owned. The refund is earned once.
   */
  lemma DestructionMoves(b: Base, o: Overlay, x: Address, beneficiary: Address, a: Address)
    ensures var o' := Selfdestruct(b, o, x, beneficiary);
            && (Exist(b, o, x) ==> HasSuicided(b, o', x)) && GetBalance(b, o', x) == 0
            && (a != x ==>
                  && HasSuicided(b, o', a) == HasSuicided(b, o, a)
                  && GetBalance(b, o', a) == GetBalance(b, o, a) + if a == beneficiary then GetBalance(b, o, x) else 0)
            && GetNonce(b, o', a) == GetNonce(b, o, a) && o'.logs == o.logs
            && (o.refund + 24000 < TWO64 ==> o'.refund == o.refund + if HasSuicided(b, o, x) then 0 else 24000)
  {
  }

  /** Nothing to delete: an account without nonce, balance and code. */
  predicate IsEmpty(b: Base, o: Overlay, a: Address) {
    GetNonce(b, o, a) == 0 && GetBalance(b, o, a) == 0 && GetCodeHash(b, o, a) == EMPTY_CODE_HASH
  }

  /** The clean-up deletes exactly the destroyed accounts and, on request, the touched empty ones; others stay. */
  lemma CleanupDeletes(b: Base, o: Overlay, deleteEmpty: bool, a: Address)
    ensures var o' := CleanDeleteObjects(o, deleteEmpty);
            && (Exist(b, o', a) <==>
                Exist(b, o, a) && !HasSuicided(b, o, a) && !(deleteEmpty && a in o.objects && IsEmpty(b, o, a)))
            && (Exist(b, o', a) ==> GetObject(b, o', a) == GetObject(b, o, a)) && o'.refund == 0 && o'.logs == o.logs
  {
  }

  // Contract creation.

  /** The nonce, the code hash and the balances that decide whether a creation starts and can pay. */
  predicate CanCreate(b: Base, o: Overlay, op: HostOp)
    requires op.Create?
  {
    && GetNonce(b, o, op.caller) < MAX_UINT64 && op.caller != op.addr && GetNonce(b, o, op.addr) == 0
    && (GetCodeHash(b, o, op.addr) == EMPTY_CODE_HASH || GetCodeHash(b, o, op.addr) == ZERO_HASH)
  }

  lemma CreationStarts(b: Base, o: Overlay, op: HostOp)
    requires op.Create?
    ensures CanCreate(b, o, op) <==>
            !NonceOverflows(b, o, op.caller) && !HasCodeOrNonce(b, IncrNonce(b, o, op.caller), op.addr)
  {
    NonceAfterIncr(b, o, op.caller, op.addr);
  }

  lemma PreparedKeeps(b: Base, f: Forks, o: Overlay, x: Address, a: Address)
    ensures var o' := Prepared(b, f, o, x);
            && GetBalance(b, o', a) == GetBalance(b, o, a)
            && GetNonce(b, o', a) == (if f.eip158 && a == x then 1 else GetNonce(b, o, a))
  {
  }

  /** Under EIP-158 a constructor finds a fresh account: no code, no slot and no mark of an earlier destruction. */
  lemma PreparedIsFresh(b: Base, f: Forks, o: Overlay, x: Address, k: Key)
    requires ValidBase(b) && f.eip158
    ensures var o' := Prepared(b, f, o, x);
            && Exist(b, o', x) && GetCodeHash(b, o', x) == EMPTY_CODE_HASH && !HasSuicided(b, o', x)
            && GetState(b, o', x, k) == GetCommittedState(b, o', x, k) == ZERO
  {
    CreatedIsFresh(b, o, x, x, k);
  }

  /** A constructor starts exactly when the creator has the value; then exactly the value has changed hands. */
  lemma CreateMovesValue(b: Base, f: Forks, o: Overlay, op: HostOp, a: Address)
    requires op.Create?
    ensures var inside := EnterCreate(b, f, o, op);
            && (inside.None? <==> GetBalance(b, o, op.caller) < op.amount)
            && (inside.Some? ==>
                  && GetBalance(b, inside.value, a) ==
                     GetBalance(b, o, a) - (if a == op.caller then op.amount else 0)
                     + (if a == op.addr then op.amount else 0)
                  && GetNonce(b, inside.value, a) == if f.eip158 && a == op.addr then 1 else GetNonce(b, o, a))
  {
    var prepared := Prepared(b, f, o, op.addr);
    PreparedKeeps(b, f, o, op.addr, op.caller);
    PreparedKeeps(b, f, o, op.addr, a);
    TransferBalances(b, prepared, op.caller, op.addr, op.amount, a);
    TransferNonce(b, prepared, op.caller, op.addr, op.amount, a);
    hide Prepared, Transfer, GetBalance, GetNonce;
  }

  lemma TransferNonce(b: Base, o: Overlay, from: Address, to: Address, amount: nat, a: Address)
    ensures var o' := Transfer(b, o, from, to, amount); o'.Some? ==> GetNonce(b, o'.value, a) == GetNonce(b, o, a)
  {
  }

  /**
   A successful creation whose constructor does nothing else: the creator's nonce is counted, the value has changed
   hands, and the new account has the code, and nonce one under EIP-158.
   */
  lemma PlainCreationDeploys(b: Base, f: Forks, o: Overlay, op: HostOp, a: Address)
    requires op.Create? && op.body == [] && op.end.Deployed? && CanCreate(b, o, op)
    requires GetBalance(b, o, op.caller) >= op.amount
    ensures var o' := Exec(b, f, op, o);
            && GetBalance(b, o', a) ==
               GetBalance(b, o, a) - (if a == op.caller then op.amount else 0) + (if a == op.addr then op.amount else 0)
            && GetNonce(b, o', a) ==
               (if a == op.caller then GetNonce(b, o, a) + 1
                else if a == op.addr && f.eip158 then 1
                else GetNonce(b, o, a))
            && ObjectOrNew(b, o', op.addr).code == Some(op.end.code)
            && (GetCodeHash(b, o', op.addr) == EMPTY_CODE_HASH <==> op.end.code == 0)
  {
    var o1 := IncrNonce(b, o, op.caller);
    CreationStarts(b, o, op);
    NonceAfterIncr(b, o, op.caller, op.caller);
    NonceAfterIncr(b, o, op.caller, a);
    CreateMovesValue(b, f, o1, op, a);
    var inside := EnterCreate(b, f, o1, op).value;
    assert ExecAll(b, f, [], inside) == inside;
    CodeIsStored(b, inside, op.addr, op.end.code, 0, a);
    assert Exec(b, f, op, o) == SetCode(b, inside, op.addr, op.end.code);
    hide EnterCreate, SetCode, GetBalance, GetNonce, GetCodeHash, ObjectOrNew, Exec;
  }

  // Whole runs.

  /** No nonce ever falls and no log is ever lost, however the run is nested and whatever of it fails. */
  ghost predicate Advances(b: Base, o: Overlay, o': Overlay) {
    (forall a :: GetNonce(b, o, a) <= GetNonce(b, o', a)) && o.logs <= o'.logs
  }

  lemma {:induction false} ExecAdvances(b: Base, f: Forks, op: HostOp, o: Overlay)
    ensures Advances(b, o, Exec(b, f, op, o))
    decreases op, 0
  {
    match op
    case Store(a, k, v) =>
    case Emit(log) =>
    case Destruct(a, beneficiary) =>
      forall x ensures GetNonce(b, Selfdestruct(b, o, a, beneficiary), x) == GetNonce(b, o, x) {
        DestructionMoves(b, o, a, beneficiary, x);
      }
      DestructionMoves(b, o, a, beneficiary, a);
    case Call(_, to, _, _, body, failed) =>
      EnterCallAdvances(b, o, op);
      if EnterCall(b, o, op).Some? && !failed {
        ExecAllAdvances(b, f, body, EnterCall(b, o, op).value);
      }
    case Create(caller, addr, _, _, _) =>
      var o1 := IncrNonce(b, o, caller);
      assert Advances(b, o, o1);
      if !NonceOverflows(b, o, caller) && !HasCodeOrNonce(b, o1, addr) {
        DeployAdvances(b, f, op, o1);
      }
  }

  lemma EnterCallAdvances(b: Base, o: Overlay, op: HostOp)
    requires op.Call?
    ensures Advances(b, o, Touch(b, o, op.to))
    ensures EnterCall(b, o, op).Some? ==> Advances(b, o, EnterCall(b, o, op).value)
  {
    if op.moves {
      var o1 := Touch(b, o, op.to);
      var o2 := Transfer(b, o1, op.caller, op.to, op.amount);
      forall a ensures o2.Some? ==> GetNonce(b, o2.value, a) == GetNonce(b, o1, a) {
        TransferNonce(b, o1, op.caller, op.to, op.amount, a);
      }
    }
  }

  lemma EnterCreateAdvances(b: Base, f: Forks, o: Overlay, op: HostOp)
    requires op.Create? && GetNonce(b, o, op.addr) == 0
    ensures Advances(b, o, Prepared(b, f, o, op.addr))
    ensures EnterCreate(b, f, o, op).Some? ==> Advances(b, o, EnterCreate(b, f, o, op).value)
  {
    forall a ensures GetNonce(b, Prepared(b, f, o, op.addr), a) >= GetNonce(b, o, a) {
      PreparedKeeps(b, f, o, op.addr, a);
    }
    if EnterCreate(b, f, o, op).Some? {
      forall a ensures GetNonce(b, EnterCreate(b, f, o, op).value, a) >= GetNonce(b, o, a) {
        CreateMovesValue(b, f, o, op, a);
      }
    }
  }

  lemma SetCodeAdvances(b: Base, o: Overlay, x: Address, code: Code)
    ensures Advances(b, o, SetCode(b, o, x, code))
  {
    forall a ensures GetNonce(b, SetCode(b, o, x, code), a) == GetNonce(b, o, a) { CodeIsStored(b, o, x, code, 0, a); }
  }

  lemma {:induction false} DeployAdvances(b: Base, f: Forks, op: HostOp, o: Overlay)
    requires op.Create? && GetNonce(b, o, op.addr) == 0
    ensures Advances(b, o, Deploy(b, f, op, o))
    decreases op.body, 2
  {
    var inside := EnterCreate(b, f, o, op);
    EnterCreateAdvances(b, f, o, op);
    if inside.Some? {
      ExecAllAdvances(b, f, op.body, inside.value);
      var after := ExecAll(b, f, op.body, inside.value);
      if op.end.Deployed? { SetCodeAdvances(b, after, op.addr, op.end.code); }
      hide EnterCreate, Prepared, SetCode, GetNonce;
    }
  }

  lemma {:induction false} ExecAllAdvances(b: Base, f: Forks, ops: seq<HostOp>, o: Overlay)
    ensures Advances(b, o, ExecAll(b, f, ops, o))
    decreases ops, 1
  {
    if ops != [] {
      ExecAdvances(b, f, ops[0], o);
      ExecAllAdvances(b, f, ops[1..], Exec(b, f, ops[0], o));
    }
  }

  /** An operation of the run names the account. */
  predicate Names(op: HostOp, a: Address)
    decreases op, 0
  {
    match op
    case Store(x, _, _) => x == a
    case Emit(_) => false
    case Destruct(x, beneficiary) => x == a || beneficiary == a
    case Call(caller, to, _, _, body, _) => caller == a || to == a || NamesAny(body, a)
    case Create(caller, addr, _, body, _) => caller == a || addr == a || NamesAny(body, a)
  }

  predicate NamesAny(ops: seq<HostOp>, a: Address)
    decreases ops, 1
  {
    ops != [] && (Names(ops[0], a) || NamesAny(ops[1..], a))
  }

  lemma EnterKeepsOthers(b: Base, f: Forks, op: HostOp, o: Overlay, a: Address)
    requires (op.Call? || op.Create?) && !Names(op, a)
    ensures op.Call? && EnterCall(b, o, op).Some? ==> GetObject(b, EnterCall(b, o, op).value, a) == GetObject(b, o, a)
    ensures op.Create? ==>
              && GetObject(b, Prepared(b, f, o, op.addr), a) == GetObject(b, o, a)
              && (EnterCreate(b, f, o, op).Some? ==>
                    GetObject(b, EnterCreate(b, f, o, op).value, a) == GetObject(b, o, a))
  {
  }

  /** A run leaves every account alone that none of its operations names. */
  lemma {:induction false} ExecKeepsOthers(b: Base, f: Forks, op: HostOp, o: Overlay, a: Address)
    requires !Names(op, a)
    ensures GetObject(b, Exec(b, f, op, o), a) == GetObject(b, o, a)
    decreases op, 0
  {
    match op
    case Store(_, _, _) =>
    case Emit(_) =>
    case Destruct(_, _) =>
    case Call(_, _, _, _, body, _) =>
      hide EnterCall;
      EnterKeepsOthers(b, f, op, o, a);
      if EnterCall(b, o, op).Some? { ExecAllKeepsOthers(b, f, body, EnterCall(b, o, op).value, a); }
    case Create(caller, addr, _, body, _) =>
      var o1 := IncrNonce(b, o, caller);
      assert GetObject(b, o1, a) == GetObject(b, o, a);
      DeployKeepsOthers(b, f, op, o1, a);
      hide Deploy, IncrNonce, HasCodeOrNonce, NonceOverflows;
  }

  lemma {:induction false} DeployKeepsOthers(b: Base, f: Forks, op: HostOp, o: Overlay, a: Address)
    requires op.Create? && !Names(op, a)
    ensures GetObject(b, Deploy(b, f, op, o), a) == GetObject(b, o, a)
    decreases op.body, 2
  {
    hide EnterCreate, Prepared;
    EnterKeepsOthers(b, f, op, o, a);
    var inside := EnterCreate(b, f, o, op);
    if inside.Some? { ExecAllKeepsOthers(b, f, op.body, inside.value, a); }
  }

  lemma {:induction false} ExecAllKeepsOthers(b: Base, f: Forks, ops: seq<HostOp>, o: Overlay, a: Address)
    requires !NamesAny(ops, a)
    ensures GetObject(b, ExecAll(b, f, ops, o), a) == GetObject(b, o, a)
    decreases ops, 1
  {
    if ops != [] {
      ExecKeepsOthers(b, f, ops[0], o, a);
      ExecAllKeepsOthers(b, f, ops[1..], Exec(b, f, ops[0], o), a);
    }
  }

  /** The operation destroys the account, at whatever depth. */
  predicate Destroys(op: HostOp, a: Address)
    decreases op, 0
  {
    match op
    case Store(_, _, _) => false
    case Emit(_) => false
    case Destruct(x, _) => x == a
    case Call(_, _, _, _, body, _) => DestroysAny(body, a)
    case Create(_, _, _, body, _) => DestroysAny(body, a)
  }

  predicate DestroysAny(ops: seq<HostOp>, a: Address)
    decreases ops, 1
  {
    ops != [] && (Destroys(ops[0], a) || DestroysAny(ops[1..], a))
  }

  lemma EnterCallKeepsUnmarked(b: Base, op: HostOp, o: Overlay, a: Address)
    requires op.Call? && !HasSuicided(b, o, a)
    ensures !HasSuicided(b, Touch(b, o, op.to), a)
    ensures EnterCall(b, o, op).Some? ==> !HasSuicided(b, EnterCall(b, o, op).value, a)
  {
  }

  lemma EnterCreateKeepsUnmarked(b: Base, f: Forks, op: HostOp, o: Overlay, a: Address)
    requires op.Create? && !HasSuicided(b, o, a)
    ensures !HasSuicided(b, Prepared(b, f, o, op.addr), a)
    ensures EnterCreate(b, f, o, op).Some? ==> !HasSuicided(b, EnterCreate(b, f, o, op).value, a)
  {
  }

  /** An account that no operation destroys is not marked as destroyed. */
  lemma {:induction false} ExecKeepsUnmarked(b: Base, f: Forks, op: HostOp, o: Overlay, a: Address)
    requires !Destroys(op, a) && !HasSuicided(b, o, a)
    ensures !HasSuicided(b, Exec(b, f, op, o), a)
    decreases op, 0
  {
    match op
    case Store(_, _, _) =>
    case Emit(_) =>
    case Destruct(x, beneficiary) => DestructionMoves(b, o, x, beneficiary, a);
    case Call(_, _, _, _, body, _) =>
      EnterCallKeepsUnmarked(b, op, o, a);
      if EnterCall(b, o, op).Some? { ExecAllKeepsUnmarked(b, f, body, EnterCall(b, o, op).value, a); }
      hide EnterCall, Touch, HasSuicided;
    case Create(caller, addr, _, body, _) =>
      var o1 := IncrNonce(b, o, caller);
      assert !HasSuicided(b, o1, a);
      DeployKeepsUnmarked(b, f, op, o1, a);
      hide Deploy, IncrNonce, HasCodeOrNonce, NonceOverflows;
  }

  lemma {:induction false} DeployKeepsUnmarked(b: Base, f: Forks, op: HostOp, o: Overlay, a: Address)
    requires op.Create? && !Destroys(op, a) && !HasSuicided(b, o, a)
    ensures !HasSuicided(b, Deploy(b, f, op, o), a)
    decreases op.body, 2
  {
    hide EnterCreate, Prepared;
    EnterCreateKeepsUnmarked(b, f, op, o, a);
    var inside := EnterCreate(b, f, o, op);
    if inside.Some? { ExecAllKeepsUnmarked(b, f, op.body, inside.value, a); }
  }

  lemma {:induction false} ExecAllKeepsUnmarked(b: Base, f: Forks, ops: seq<HostOp>, o: Overlay, a: Address)
    requires !DestroysAny(ops, a) && !HasSuicided(b, o, a)
    ensures !HasSuicided(b, ExecAll(b, f, ops, o), a)
    decreases ops, 1
  {
    if ops != [] {
      ExecKeepsUnmarked(b, f, ops[0], o, a);
      ExecAllKeepsUnmarked(b, f, ops[1..], Exec(b, f, ops[0], o), a);
    }
  }

  // Operations take effect in order, at every depth.

  lemma {:induction false} RunsInOrder(b: Base, f: Forks, ops: seq<HostOp>, op: HostOp, o: Overlay)
    ensures ExecAll(b, f, ops + [op], o) == Exec(b, f, op, ExecAll(b, f, ops, o))
    decreases |ops|
  {
    if ops == [] {
      assert (ops + [op])[1..] == [];
    } else {
      assert (ops + [op])[1..] == ops[1..] + [op];
      RunsInOrder(b, f, ops[1..], op, Exec(b, f, ops[0], o));
    }
  }

  /** The call starts and does not fail, or the creation starts, is paid for and deploys its code. */
  predicate Succeeds(b: Base, o: Overlay, op: HostOp)
    requires op.Call? || op.Create?
  {
    if op.Call? then !op.failed && (op.moves ==> GetBalance(b, o, op.caller) >= op.amount)
    else CanCreate(b, o, op) && GetBalance(b, o, op.caller) >= op.amount && op.end.Deployed?
  }

  /** What a successful call or constructor does last is seen by its caller. */
  lemma LastEffectIsSeen(b: Base, f: Forks, o: Overlay, op: HostOp, ops: seq<HostOp>, x: Address, k: Key, v: Value,
                         log: Log)
    requires ValidBase(b) && (op.Call? || op.Create?) && Succeeds(b, o, op)
    ensures op.body == ops + [Store(x, k, v)] ==> GetState(b, Exec(b, f, op, o), x, k) == v
    ensures op.body == ops + [Emit(log)] ==>
              var logs := Exec(b, f, op, o).logs; o.logs < logs && logs[|logs| - 1] == log
  {
    var inside := BodyState(b, f, o, op);
    var before := ExecAll(b, f, ops, inside);
    RunsInOrder(b, f, ops, Store(x, k, v), inside);
    RunsInOrder(b, f, ops, Emit(log), inside);
    SlotIsWritten(b, f, before, x, k, v, x, k);
    LogIsEmitted(b, f, before, log, x);
    ExecAllAdvances(b, f, ops, inside);
    if op.Create? {
      var after := ExecAll(b, f, op.body, inside);
      CodeKeepsSlots(b, after, op.addr, op.end.code, x, k);
    }
    hide Exec, ExecAll, SetCode, GetState, Succeeds;
  }

  lemma CodeKeepsSlots(b: Base, o: Overlay, y: Address, code: Code, x: Address, k: Key)
    requires ValidBase(b)
    ensures GetState(b, SetCode(b, o, y, code), x, k) == GetState(b, o, x, k) && SetCode(b, o, y, code).logs == o.logs
  {
  }

  /** The state in which the body of a successful call or creation runs. */
  lemma BodyState(b: Base, f: Forks, o: Overlay, op: HostOp) returns (inside: Overlay)
    requires (op.Call? || op.Create?) && Succeeds(b, o, op)
    ensures inside.logs == o.logs
    ensures Exec(b, f, op, o) ==
            if op.Call? then ExecAll(b, f, op.body, inside)
            else SetCode(b, ExecAll(b, f, op.body, inside), op.addr, op.end.code)
  {
    if op.Call? {
      CallMovesValue(b, o, op, op.caller);
      EnterCallKeeps(b, o, op);
      inside := EnterCall(b, o, op).value;
    } else {
      var o1 := IncrNonce(b, o, op.caller);
      CreationStarts(b, o, op);
      NonceAfterIncr(b, o, op.caller, op.caller);
      CreateMovesValue(b, f, o1, op, op.caller);
      inside := EnterCreate(b, f, o1, op).value;
      assert inside.logs == o.logs;
      hide EnterCreate, SetCode, IncrNonce, GetBalance, CanCreate;
    }
  }
}

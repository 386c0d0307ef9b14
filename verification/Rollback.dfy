/** What a failed call or contract creation leaves behind (state/executor.go, applyCall and applyCreate). */
module Rollback {
  import opened Transactions
  import opened WorldState
  import opened HostOps

  /** Nothing a contract can read tells the two states apart; whether an empty account has been touched is not read. */
  ghost predicate Same(b: Base, o: Overlay, o': Overlay) {
    && (forall a :: GetBalance(b, o', a) == GetBalance(b, o, a))
    && (forall a :: GetNonce(b, o', a) == GetNonce(b, o, a))
    && (forall a :: HasSuicided(b, o', a) == HasSuicided(b, o, a))
    && (forall a, k :: GetState(b, o', a, k) == GetState(b, o, a, k))
    && (forall a, k :: GetCommittedState(b, o', a, k) == GetCommittedState(b, o, a, k))
    && o'.logs == o.logs
    && o'.refund == o.refund
  }

  lemma TouchIsSame(b: Base, o: Overlay, a: Address)
    requires ValidBase(b)
    ensures Same(b, o, Touch(b, o, a))
  {
  }

  predicate CallFails(b: Base, op: HostOp, o: Overlay)
    requires op.Call?
  {
    op.failed || EnterCall(b, o, op).None?
  }

  /** A failed call leaves no trace, however deep the calls, creations, writes and logs inside it. */
  lemma FailedCallLeavesNoTrace(b: Base, f: Forks, op: HostOp, o: Overlay)
    requires ValidBase(b) && op.Call? && CallFails(b, op, o)
    ensures Same(b, o, Exec(b, f, op, o))
  {
    TouchIsSame(b, o, op.to);
  }

  /** The creation starts: the caller has a nonce left and nothing lives at the address. */
  predicate Starts(b: Base, op: HostOp, o: Overlay)
    requires op.Create?
  {
    !NonceOverflows(b, o, op.caller) && !HasCodeOrNonce(b, IncrNonce(b, o, op.caller), op.addr)
  }

  predicate CreateFails(b: Base, f: Forks, op: HostOp, o: Overlay)
    requires op.Create?
  {
    !Starts(b, op, o) || EnterCreate(b, f, IncrNonce(b, o, op.caller), op).None? || !op.end.Deployed?
  }

  /**
   The failures that end without going back to the snapshot: the value is missing, or a deployment list refuses the
   creator. Both come after the address was prepared, and the second one after the value was moved.
   */
  predicate LeavesTrace(b: Base, f: Forks, op: HostOp, o: Overlay)
    requires op.Create?
  {
    && Starts(b, op, o)
    && (if EnterCreate(b, f, IncrNonce(b, o, op.caller), op).None? then f.eip158
        else op.end.NotAuthorized? && (f.eip158 || op.amount > 0))
  }

  lemma NonceOfPrepared(b: Base, f: Forks, o: Overlay, a: Address)
    requires f.eip158
    ensures GetNonce(b, Prepared(b, f, o, a), a) == 1
  {
  }

  lemma TransferKeepsNonce(b: Base, o: Overlay, from: Address, to: Address, amount: nat, a: Address)
    ensures var o' := Transfer(b, o, from, to, amount); o'.Some? ==> GetNonce(b, o'.value, a) == GetNonce(b, o, a)
  {
  }

  lemma TransferMoves(b: Base, o: Overlay, from: Address, to: Address, amount: nat)
    requires from != to
    ensures var o' := Transfer(b, o, from, to, amount);
            o'.Some? ==> GetBalance(b, o'.value, to) == GetBalance(b, o, to) + amount
  {
  }

  lemma TransferOfNothing(b: Base, o: Overlay, from: Address, to: Address)
    requires ValidBase(b)
    ensures Transfer(b, o, from, to, 0).Some? && Same(b, o, Transfer(b, o, from, to, 0).value)
  {
    TouchIsSame(b, o, to);
    assert WithBalance(ObjectOrNew(b, o, to), ObjectOrNew(b, o, to).account.balance) == ObjectOrNew(b, o, to);
  }

  lemma RefusedCreation(b: Base, f: Forks, op: HostOp, o1: Overlay)
    requires op.Create? && ValidBase(b) && !HasCodeOrNonce(b, o1, op.addr) && GetNonce(b, o1, op.caller) > 0
    ensures !f.eip158 && op.amount == 0 ==>
            EnterCreate(b, f, o1, op).Some? && Same(b, o1, EnterCreate(b, f, o1, op).value)
    ensures (f.eip158 || op.amount > 0) && EnterCreate(b, f, o1, op).Some? ==>
            !Same(b, o1, EnterCreate(b, f, o1, op).value)
  {
    var o2 := Prepared(b, f, o1, op.addr);
    TransferKeepsNonce(b, o2, op.caller, op.addr, op.amount, op.addr);
    TransferMoves(b, o2, op.caller, op.addr, op.amount);
    TransferOfNothing(b, o2, op.caller, op.addr);
    if f.eip158 { NonceOfPrepared(b, f, o1, op.addr); }
  }

  lemma IncrNonceCounts(b: Base, o: Overlay, a: Address)
    requires !NonceOverflows(b, o, a)
    ensures GetNonce(b, IncrNonce(b, o, a), a) == GetNonce(b, o, a) + 1
  {
  }

  /**
   Under Homestead rules a failed creation changes nothing but the creator's nonce, exactly when the failure is not
   one of those that leave a trace.
   */
  lemma FailedCreateLeavesNoTraceExactly(b: Base, f: Forks, op: HostOp, o: Overlay)
    requires ValidBase(b) && op.Create? && f.homestead && CreateFails(b, f, op, o)
    ensures Same(b, IncrNonce(b, o, op.caller), Exec(b, f, op, o)) <==> !LeavesTrace(b, f, op, o)
  {
    var o1 := IncrNonce(b, o, op.caller);
    if Starts(b, op, o) {
      assert Exec(b, f, op, o) == Deploy(b, f, op, o1);
      IncrNonceCounts(b, o, op.caller);
      RefusedCreation(b, f, op, o1);
      if f.eip158 { NonceOfPrepared(b, f, o1, op.addr); }
    }
  }

  /**
   Before Homestead, code that cannot be paid for leaves everything that a successful creation would have left, except
   the code: the value stays moved, and the constructor's writes, logs and refunds stay.
   */
  lemma FrontierKeepsAllButCode(b: Base, f: Forks, op: HostOp, o: Overlay, code: Code)
    requires ValidBase(b) && op.Create? && !f.homestead && Starts(b, op, o)
    requires EnterCreate(b, f, IncrNonce(b, o, op.caller), op).Some?
    ensures Same(b, Exec(b, f, op.(end := Deployed(code)), o), Exec(b, f, op.(end := CodeStoreOutOfGas), o))
  {
    var o1 := IncrNonce(b, o, op.caller);
    var paid, unpaid := op.(end := Deployed(code)), op.(end := CodeStoreOutOfGas);
    assert EnterCreate(b, f, o1, paid) == EnterCreate(b, f, o1, unpaid) == EnterCreate(b, f, o1, op);
    var after := ExecAll(b, f, op.body, EnterCreate(b, f, o1, op).value);
    assert Exec(b, f, paid, o) == Deploy(b, f, paid, o1) == SetCode(b, after, op.addr, code);
    assert Exec(b, f, unpaid, o) == Deploy(b, f, unpaid, o1) == after;
    SetCodeIsSame(b, after, op.addr, code);
  }

  lemma SetCodeIsSame(b: Base, o: Overlay, a: Address, code: Code)
    requires ValidBase(b)
    ensures Same(b, SetCode(b, o, a, code), o)
  {
  }

  /** A refused creation that moved value: the creator has paid and the address holds the payment. */
  lemma RefusedCreationKeepsValue(b: Base, f: Forks, op: HostOp, o: Overlay)
    requires op.Create? && op.end.NotAuthorized? && Starts(b, op, o)
    requires EnterCreate(b, f, IncrNonce(b, o, op.caller), op).Some?
    ensures GetBalance(b, Exec(b, f, op, o), op.addr) == GetBalance(b, o, op.addr) + op.amount
  {
    var o1 := IncrNonce(b, o, op.caller);
    IncrNonceCounts(b, o, op.caller);
    assert op.caller != op.addr;
    assert GetBalance(b, o1, op.addr) == GetBalance(b, o, op.addr);
    assert GetBalance(b, Prepared(b, f, o1, op.addr), op.addr) == GetBalance(b, o1, op.addr);
    TransferMoves(b, Prepared(b, f, o1, op.addr), op.caller, op.addr, op.amount);
    assert Exec(b, f, op, o) == Deploy(b, f, op, o1);
  }
}

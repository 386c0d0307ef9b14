/**
 The virtual machine as an arbitrary nesting of host operations. Calls and contract creations
 (state/executor.go, applyCall and applyCreate) take a snapshot and revert to it when they fail.
 */
module HostOps {
  import opened Transactions
  import opened WorldState

  /** How a contract creation ends once its snapshot is taken and its value moved. */
  datatype CreateEnd =
    | NotAuthorized            // refused by a deployment list
    | RunFailed                // the constructor failed
    | TooLarge                 // the code exceeds the size limit
    | CodeStoreOutOfGas        // the code cannot be paid for
    | Deployed(code: Code)

  datatype HostOp =
    | Store(addr: Address, key: Key, value: Value)
    | Emit(log: Log)
    | Destruct(addr: Address, beneficiary: Address)
    | Call(caller: Address, to: Address, amount: nat, moves: bool, body: seq<HostOp>, failed: bool)
    | Create(caller: Address, addr: Address, amount: nat, body: seq<HostOp>, end: CreateEnd)

  predicate HasCodeOrNonce(b: Base, o: Overlay, a: Address) {
    || GetNonce(b, o, a) != 0
    || (GetCodeHash(b, o, a) != EMPTY_CODE_HASH && GetCodeHash(b, o, a) != ZERO_HASH)
  }

  /** The state in which a call runs: the callee is touched and the value moved. None when the value is missing. */
  function EnterCall(b: Base, o: Overlay, op: HostOp): Option<Overlay>
    requires op.Call?
  {
    var touched := Touch(b, o, op.to);
    if op.moves then Transfer(b, touched, op.caller, op.to, op.amount) else Some(touched)
  }

  function Prepared(b: Base, f: Forks, o: Overlay, a: Address): Overlay {
    if f.eip158 then IncrNonce(b, CreateAccount(b, o, a), a) else o
  }

  /** Whether the end of a creation reverts to the snapshot. */
  predicate Reverts(f: Forks, end: CreateEnd) {
    end.RunFailed? || end.TooLarge? || (end.CodeStoreOutOfGas? && f.homestead)
  }

  function Exec(b: Base, f: Forks, op: HostOp, o: Overlay): Overlay
    decreases op, 0
  {
    match op
    case Store(a, k, v) => SetStorage(b, f, o, a, k, v)
    case Emit(log) => EmitLog(o, log)
    case Destruct(a, beneficiary) => Selfdestruct(b, o, a, beneficiary)
    case Call(caller, to, amount, moves, body, failed) =>
      (match EnterCall(b, o, op)
       case None => Touch(b, o, to)
       case Some(inside) =>
         var after := ExecAll(b, f, body, inside);
         if failed then o else after)
    case Create(caller, addr, amount, body, end) =>
      var o1 := IncrNonce(b, o, caller);
      if NonceOverflows(b, o, caller) || HasCodeOrNonce(b, o1, addr) then o1 else Deploy(b, f, op, o1)
  }

  /** The state in which a constructor runs. None when the value is missing. */
  function EnterCreate(b: Base, f: Forks, o: Overlay, op: HostOp): Option<Overlay>
    requires op.Create?
  {
    Transfer(b, Prepared(b, f, o, op.addr), op.caller, op.addr, op.amount)
  }

  /** A creation from its snapshot on. */
  function Deploy(b: Base, f: Forks, op: HostOp, o: Overlay): Overlay
    requires op.Create?
    decreases op.body, 2
  {
    match EnterCreate(b, f, o, op)
    case None => Prepared(b, f, o, op.addr)
    case Some(inside) =>
      if op.end.NotAuthorized? then inside
      else
        var after := ExecAll(b, f, op.body, inside);
        if Reverts(f, op.end) then o
        else if op.end.Deployed? then SetCode(b, after, op.addr, op.end.code)
        else after
  }

  function ExecAll(b: Base, f: Forks, ops: seq<HostOp>, o: Overlay): Overlay
    decreases ops, 1
  {
    if ops == [] then o else ExecAll(b, f, ops[1..], Exec(b, f, ops[0], o))
  }
}

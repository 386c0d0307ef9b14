/**
 Nested calls on the journal object: what `applyCall` and `applyCreate` do with numbered snapshots
 (state/executor.go).
 */
module HostRuns {
  import opened Transactions
  import opened WorldState
  import opened HostOps
  import opened Rollback
  import opened TxnObjects

  /** Snapshots are only added, and those that could be reverted to still can. */
  twostate predicate Grown(t: Txn)
    reads t
  {
    old(t.snapshots) <= t.snapshots && old(t.saved) <= t.saved && old(t.live) <= t.live
  }

  /**
   A run of host operations leaves the journal in the state that the operations define, where a failed call
   restores the state before it, whatever snapshots its body took and reverted. Every snapshot that was live
   before the run still shows the state it was taken in.
   */
  method RunAll(t: Txn, f: Forks, ops: seq<HostOp>)
    requires t.Valid()
    modifies t, t.current.logs
    ensures t.Valid() && Grown(t) && t.view == ExecAll(t.base, f, ops, old(t.view))
    ensures t.current.logs == old(t.current.logs) || fresh(t.current.logs)
    decreases ops, 1
  {
    if ops != [] {
      RunOp(t, f, ops[0]);
      RunAll(t, f, ops[1..]);
    }
  }

  method RunOp(t: Txn, f: Forks, op: HostOp)
    requires t.Valid()
    modifies t, t.current.logs
    ensures t.Valid() && Grown(t) && t.view == Exec(t.base, f, op, old(t.view))
    ensures t.current.logs == old(t.current.logs) || fresh(t.current.logs)
    decreases op, 0
  {
    match op
    case Store(a, k, v) => var status := t.SetStorage(f, a, k, v);
    case Emit(log) => t.EmitLog(log);
    case Destruct(a, beneficiary) => t.Selfdestruct(a, beneficiary);
    case Call(caller, to, amount, moves, body, failed) => var fails := ApplyCall(t, f, op);
    case Create(caller, addr, amount, body, end) => var fails := ApplyCreate(t, f, op);
  }

  /**
   A call that fails leaves nothing that a contract could read, whatever its body wrote, emitted, called or reverted.
   */
  method ApplyCall(t: Txn, f: Forks, op: HostOp) returns (fails: bool)
    requires t.Valid() && op.Call?
    modifies t, t.current.logs
    ensures t.Valid() && Grown(t) && t.view == Exec(t.base, f, op, old(t.view))
    ensures fails == CallFails(t.base, op, old(t.view))
    ensures ValidBase(t.base) && fails ==> Same(t.base, old(t.view), t.view)
    ensures t.current.logs == old(t.current.logs) || fresh(t.current.logs)
    decreases op.body, 3
  {
    fails := RunCall(t, f, op);
    if fails && ValidBase(t.base) {
      hide Same, Exec;
      FailedCallLeavesNoTrace(t.base, f, op, old(t.view));
    }
  }

  method RunCall(t: Txn, f: Forks, op: HostOp) returns (fails: bool)
    requires t.Valid() && op.Call?
    modifies t, t.current.logs
    ensures fails == CallFails(t.base, op, old(t.view))
    ensures t.Valid() && Grown(t) && t.view == Exec(t.base, f, op, old(t.view))
    ensures t.current.logs == old(t.current.logs) || fresh(t.current.logs)
    decreases op.body, 2
  {
    var snapshot := t.Snapshot();
    var entered := BeginCall(t, op);
    if !entered {
      return true;
    }
    RunAll(t, f, op.body);
    fails := op.failed;
    if fails {
      var ok := t.RevertToSnapshot(snapshot);
    }
  }

  /** Touches the callee and moves the value. */
  method BeginCall(t: Txn, op: HostOp) returns (entered: bool)
    requires t.Valid() && op.Call?
    modifies t
    ensures t.Valid() && t.Kept() && entered == EnterCall(t.base, old(t.view), op).Some?
    ensures t.view == if entered then EnterCall(t.base, old(t.view), op).value else Touch(t.base, old(t.view), op.to)
  {
    t.TouchAccount(op.to);
    entered := true;
    if op.moves {
      entered := t.Transfer(op.caller, op.to, op.amount);
    }
  }

  /** A creation that fails leaves the creator's nonce, and more exactly in the cases that leave a trace. */
  method ApplyCreate(t: Txn, f: Forks, op: HostOp) returns (fails: bool)
    requires t.Valid() && op.Create?
    modifies t, t.current.logs
    ensures t.Valid() && Grown(t) && t.view == Exec(t.base, f, op, old(t.view))
    ensures fails == CreateFails(t.base, f, op, old(t.view))
    ensures ValidBase(t.base) && f.homestead && fails ==>
              (Same(t.base, WorldState.IncrNonce(t.base, old(t.view), op.caller), t.view) <==>
               !LeavesTrace(t.base, f, op, old(t.view)))
    ensures t.current.logs == old(t.current.logs) || fresh(t.current.logs)
    decreases op.body, 4
  {
    fails := RunCreate(t, f, op);
    if fails && f.homestead && ValidBase(t.base) {
      hide Same, Exec, LeavesTrace, CreateFails;
      FailedCreateLeavesNoTraceExactly(t.base, f, op, old(t.view));
    }
  }

  method RunCreate(t: Txn, f: Forks, op: HostOp) returns (fails: bool)
    requires t.Valid() && op.Create?
    modifies t, t.current.logs
    ensures fails == CreateFails(t.base, f, op, old(t.view))
    ensures t.Valid() && Grown(t) && t.view == Exec(t.base, f, op, old(t.view))
    ensures t.current.logs == old(t.current.logs) || fresh(t.current.logs)
    decreases op.body, 3
  {
    hide HasCodeOrNonce, NonceOverflows, WorldState.IncrNonce, Deploy;
    var counted := t.IncrNonce(op.caller);
    var collides := Collides(t, op.addr);
    if !counted || collides {
      return true;
    }
    fails := RunDeploy(t, f, op);
  }

  method RunDeploy(t: Txn, f: Forks, op: HostOp) returns (fails: bool)
    requires t.Valid() && op.Create?
    modifies t, t.current.logs
    ensures fails == (EnterCreate(t.base, f, old(t.view), op).None? || !op.end.Deployed?)
    ensures t.Valid() && Grown(t) && t.view == Deploy(t.base, f, op, old(t.view))
    ensures t.current.logs == old(t.current.logs) || fresh(t.current.logs)
    decreases op.body, 2
  {
    hide EnterCreate, Prepared, WorldState.SetCode, Txn.Valid;
    var snapshot := t.Snapshot();
    var moved := BeginCreate(t, f, op);
    if !moved || op.end.NotAuthorized? {
      return true;
    }
    RunAll(t, f, op.body);
    fails := !op.end.Deployed?;
    if Reverts(f, op.end) {
      var ok := t.RevertToSnapshot(snapshot);
    } else if op.end.Deployed? {
      t.SetCode(op.addr, op.end.code);
    }
  }

  /** Creates the account and moves the value. */
  method BeginCreate(t: Txn, f: Forks, op: HostOp) returns (moved: bool)
    requires t.Valid() && op.Create?
    modifies t
    ensures t.Valid() && t.Kept() && moved == EnterCreate(t.base, f, old(t.view), op).Some?
    ensures t.view == if moved
                      then EnterCreate(t.base, f, old(t.view), op).value
                      else Prepared(t.base, f, old(t.view), op.addr)
  {
    if f.eip158 {
      t.CreateAccount(op.addr);
      var first := t.IncrNonce(op.addr);
    }
    moved := t.Transfer(op.caller, op.addr, op.amount);
  }

  method Collides(t: Txn, a: Address) returns (r: bool)
    requires t.Valid()
    ensures r == HasCodeOrNonce(t.base, t.view, a)
  {
    var x, found := t.GetOrNew(a);
    var record := x.account.value;
    r := found && (record.nonce != 0 || (record.codeHash != EMPTY_CODE_HASH && record.codeHash != ZERO_HASH));
  }
}

/**
 The refund counter of one transaction (state/txn.go, SetStorage) never wraps around under net-metered storage rules.
 */
module Refunds {
  import opened Transactions
  import opened WorldState
  import opened HostOps

  /** The slot was committed non-zero and holds zero now. */
  ghost predicate IsCleared(b: Base, o: Overlay, a: Address, k: Key) {
    GetCommittedState(b, o, a, k) != ZERO && GetState(b, o, a, k) == ZERO
  }

  ghost function Cleared(b: Base, o: Overlay): set<(Address, Key)> {
    set a, k | a in o.objects && k in o.objects[a].storage && IsCleared(b, o, a, k) :: (a, k)
  }

  lemma ClearedIsAll(b: Base, o: Overlay, a: Address, k: Key)
    ensures (a, k) in Cleared(b, o) <==> IsCleared(b, o, a, k)
  {
  }

  ghost predicate SameSlots(b: Base, o: Overlay, o': Overlay) {
    forall a, k :: GetState(b, o', a, k) == GetState(b, o, a, k)
      && GetCommittedState(b, o', a, k) == GetCommittedState(b, o, a, k)
  }

  /** The slots of `o'` that are cleared were cleared in `o`. */
  ghost predicate FewerCleared(b: Base, o: Overlay, o': Overlay) {
    forall a, k :: IsCleared(b, o', a, k) ==> IsCleared(b, o, a, k)
  }

  lemma FewerCount(b: Base, o: Overlay, o': Overlay)
    requires FewerCleared(b, o, o')
    ensures |Cleared(b, o')| <= |Cleared(b, o)|
  {
    forall p | p in Cleared(b, o') ensures p in Cleared(b, o) {
      ClearedIsAll(b, o', p.0, p.1);
      ClearedIsAll(b, o, p.0, p.1);
    }
    SubsetCount(Cleared(b, o'), Cleared(b, o));
  }

  lemma SubsetCount<T>(s: set<T>, t: set<T>)
    requires s <= t
    ensures |s| <= |t|
  {
    assert t == s + (t - s);
  }

  /** An update that keeps the storage and the root of the object keeps every slot. */
  lemma PutKeepsSlots(b: Base, o: Overlay, a: Address, x: Object)
    requires ValidBase(b) && !x.deleted
    requires x.storage == ObjectOrNew(b, o, a).storage && x.account.root == ObjectOrNew(b, o, a).account.root
    ensures SameSlots(b, o, Put(o, a, x))
  {
  }

  lemma SameSlotsTransitive(b: Base, o: Overlay, o1: Overlay, o2: Overlay)
    requires SameSlots(b, o, o1) && SameSlots(b, o1, o2)
    ensures SameSlots(b, o, o2)
  {
  }

  lemma AddBalanceKeepsSlots(b: Base, o: Overlay, a: Address, amount: int)
    requires ValidBase(b)
    ensures SameSlots(b, o, AddBalance(b, o, a, amount))
  {
    var x := ObjectOrNew(b, o, a);
    PutKeepsSlots(b, o, a, WithBalance(x, x.account.balance + amount));
  }

  lemma SubBalanceKeepsSlots(b: Base, o: Overlay, a: Address, amount: nat)
    requires ValidBase(b)
    ensures SubBalance(b, o, a, amount).Some? ==> SameSlots(b, o, SubBalance(b, o, a, amount).value)
  {
    if SubBalance(b, o, a, amount).Some? && amount != 0 {
      PutKeepsSlots(b, o, a, WithBalance(ObjectOrNew(b, o, a), GetBalance(b, o, a) - amount));
    }
  }

  lemma TransferKeepsSlots(b: Base, o: Overlay, from: Address, to: Address, amount: nat)
    requires ValidBase(b) && Transfer(b, o, from, to, amount).Some?
    ensures SameSlots(b, o, Transfer(b, o, from, to, amount).value)
    ensures Transfer(b, o, from, to, amount).value.refund == o.refund
  {
    var o1 := SubBalance(b, o, from, amount).value;
    SubBalanceKeepsSlots(b, o, from, amount);
    AddBalanceKeepsSlots(b, o1, to, amount);
    SameSlotsTransitive(b, o, o1, AddBalance(b, o1, to, amount));
  }

  /** The refund covers the cleared slots. */
  ghost predicate Covered(b: Base, o: Overlay) { o.refund >= 15000 * |Cleared(b, o)| }

  lemma CoveredFewer(b: Base, o: Overlay, o': Overlay)
    requires Covered(b, o) && FewerCleared(b, o, o') && o'.refund >= o.refund
    ensures Covered(b, o')
  {
    FewerCount(b, o, o');
  }

  lemma SlotsAfterStore(b: Base, o: Overlay, a: Address, k: Key, v: Value, a': Address, k': Key)
    requires ValidBase(b)
    ensures var o' := SetState(b, o, a, k, v);
            && GetCommittedState(b, o', a', k') == GetCommittedState(b, o, a', k')
            && GetState(b, o', a', k') == if a' == a && k' == k then v else GetState(b, o, a', k')
  {
  }

  /** One write adds the slot to the cleared ones or takes it out; all others stay. */
  lemma ClearedAfterStore(b: Base, o: Overlay, a: Address, k: Key, v: Value)
    requires ValidBase(b)
    ensures Cleared(b, SetState(b, o, a, k, v)) ==
            if GetCommittedState(b, o, a, k) != ZERO && v == ZERO
            then Cleared(b, o) + {(a, k)}
            else Cleared(b, o) - {(a, k)}
  {
    var o' := SetState(b, o, a, k, v);
    forall p: (Address, Key) ensures p in Cleared(b, o') <==>
      p in (if GetCommittedState(b, o, a, k) != ZERO && v == ZERO
            then Cleared(b, o) + {(a, k)}
            else Cleared(b, o) - {(a, k)})
    {
      ClearedIsAll(b, o, p.0, p.1);
      ClearedIsAll(b, o', p.0, p.1);
      SlotsAfterStore(b, o, a, k, v, p.0, p.1);
    }
  }

  /** The branch of `SetStorage` that takes a refund back. */
  ghost predicate TakesBack(b: Base, f: Forks, o: Overlay, a: Address, k: Key, v: Value) {
    !Legacy(f) && GetState(b, o, a, k) == ZERO && v != ZERO && GetCommittedState(b, o, a, k) != ZERO
  }

  lemma CountWithout<T>(s: set<T>, x: T)
    ensures |s - {x}| == |s| - (if x in s then 1 else 0)
    ensures |s + {x}| == |s| + (if x in s then 0 else 1)
  {
    if x in s { assert s + {x} == s; } else { assert s - {x} == s; }
  }

  /** How many cleared slots there are after one write. */
  lemma CountAfterStore(b: Base, o: Overlay, a: Address, k: Key, v: Value)
    requires ValidBase(b)
    ensures IsCleared(b, o, a, k) ==> |Cleared(b, o)| >= 1
    ensures |Cleared(b, SetState(b, o, a, k, v))| == |Cleared(b, o)|
            - (if IsCleared(b, o, a, k) then 1 else 0)
            + (if GetCommittedState(b, o, a, k) != ZERO && v == ZERO then 1 else 0)
  {
    ClearedIsAll(b, o, a, k);
    ClearedAfterStore(b, o, a, k, v);
    CountWithout(Cleared(b, o), (a, k));
  }

  /** The refund rule keeps the refund above 15000 for each of `n` cleared slots, of which this may be one. */
  lemma RefundForCovers(f: Forks, refund: nat, original: Value, current: Value, value: Value, n: nat)
    requires !Legacy(f) && refund >= 15000 * n && refund + 24000 < TWO64 && current != value
    requires original != ZERO && current == ZERO ==> n >= 1
    ensures var n' := n - (if original != ZERO && current == ZERO then 1 else 0)
            + (if original != ZERO && value == ZERO then 1 else 0);
            RefundFor(f, refund, original, current, value) >= 15000 * n'
    ensures RefundFor(f, refund, original, current, value) <= refund + 24000
  {
  }

  lemma StoreCovered(b: Base, f: Forks, o: Overlay, a: Address, k: Key, v: Value)
    requires ValidBase(b) && !Legacy(f) && Covered(b, o) && o.refund + 24000 < TWO64
    ensures Covered(b, SetStorage(b, f, o, a, k, v)) && SetStorage(b, f, o, a, k, v).refund <= o.refund + 24000
    ensures TakesBack(b, f, o, a, k, v) ==> o.refund >= 15000
  {
    CountAfterStore(b, o, a, k, v);
    var original, current := GetCommittedState(b, o, a, k), GetState(b, o, a, k);
    if current != v {
      RefundForCovers(f, o.refund, original, current, v, |Cleared(b, o)|);
      SameCleared(b, SetState(b, o, a, k, v), SetStorage(b, f, o, a, k, v));
    }
  }

  lemma SameCleared(b: Base, o: Overlay, o': Overlay)
    requires o.objects == o'.objects
    ensures Cleared(b, o) == Cleared(b, o')
  {
    forall a, k ensures IsCleared(b, o, a, k) == IsCleared(b, o', a, k) { }
  }

  // Whole runs.

  /** The number of writes and destructions in an operation; each raises the refund by at most 24000. */
  function Weight(op: HostOp): nat
    decreases op, 0
  {
    match op
    case Store(_, _, _) => 1
    case Emit(_) => 0
    case Destruct(_, _) => 1
    case Call(_, _, _, _, body, _) => WeightAll(body)
    case Create(_, _, _, body, _) => WeightAll(body)
  }

  function WeightAll(ops: seq<HostOp>): nat
    decreases ops, 1
  {
    if ops == [] then 0 else Weight(ops[0]) + WeightAll(ops[1..])
  }

  /** Every write of the run that takes a refund back finds one to take, at whatever depth it happens. */
  ghost predicate NoWrap(b: Base, f: Forks, op: HostOp, o: Overlay)
    decreases op, 0
  {
    match op
    case Store(a, k, v) => TakesBack(b, f, o, a, k, v) ==> o.refund >= 15000
    case Emit(_) => true
    case Destruct(_, _) => true
    case Call(_, _, _, _, body, _) =>
      var inside := EnterCall(b, o, op);
      inside.Some? ==> NoWrapAll(b, f, body, inside.value)
    case Create(caller, addr, _, body, end) =>
      var o1 := IncrNonce(b, o, caller);
      var inside := EnterCreate(b, f, o1, op);
      !NonceOverflows(b, o, caller) && !HasCodeOrNonce(b, o1, addr) && inside.Some? && !end.NotAuthorized? ==>
      NoWrapAll(b, f, body, inside.value)
  }

  ghost predicate NoWrapAll(b: Base, f: Forks, ops: seq<HostOp>, o: Overlay)
    decreases ops, 1
  {
    ops != [] ==> NoWrap(b, f, ops[0], o) && NoWrapAll(b, f, ops[1..], Exec(b, f, ops[0], o))
  }

  /**
   From `o` to `o'` the cleared slots stay covered and the refund grows by at most 24000 for each of `n` operations.
   */
  ghost predicate KeepsCover(b: Base, o: Overlay, o': Overlay, n: nat) {
    Covered(b, o') && o'.refund <= o.refund + 24000 * n
  }

  lemma SameSlotsKeepCover(b: Base, o: Overlay, o': Overlay)
    requires Covered(b, o) && SameSlots(b, o, o') && o'.refund == o.refund
    ensures KeepsCover(b, o, o', 0)
  {
    CoveredFewer(b, o, o');
  }

  lemma TouchKeepsCover(b: Base, o: Overlay, a: Address)
    requires ValidBase(b) && Covered(b, o)
    ensures KeepsCover(b, o, Touch(b, o, a), 0)
  {
    PutKeepsSlots(b, o, a, ObjectOrNew(b, o, a));
    SameSlotsKeepCover(b, o, Touch(b, o, a));
  }

  lemma IncrNonceKeepsCover(b: Base, o: Overlay, a: Address)
    requires ValidBase(b) && Covered(b, o)
    ensures KeepsCover(b, o, IncrNonce(b, o, a), 0)
  {
    if NonceOverflows(b, o, a) {
      TouchKeepsCover(b, o, a);
    } else {
      var x := ObjectOrNew(b, o, a);
      PutKeepsSlots(b, o, a, x.(account := x.account.(nonce := x.account.nonce + 1)));
      SameSlotsKeepCover(b, o, IncrNonce(b, o, a));
    }
  }

  lemma SetCodeKeepsCover(b: Base, o: Overlay, a: Address, code: Code)
    requires ValidBase(b) && Covered(b, o)
    ensures KeepsCover(b, o, SetCode(b, o, a, code), 0)
  {
    var x := ObjectOrNew(b, o, a);
    PutKeepsSlots(b, o, a, x.(account := x.account.(codeHash := CodeHash(code)), code := Some(code)));
    SameSlotsKeepCover(b, o, SetCode(b, o, a, code));
  }

  lemma TransferKeepsCover(b: Base, o: Overlay, from: Address, to: Address, amount: nat)
    requires ValidBase(b) && Covered(b, o)
    ensures var o' := Transfer(b, o, from, to, amount); o'.Some? ==> KeepsCover(b, o, o'.value, 0)
  {
    if Transfer(b, o, from, to, amount).Some? {
      TransferKeepsSlots(b, o, from, to, amount);
      SameSlotsKeepCover(b, o, Transfer(b, o, from, to, amount).value);
    }
  }

  lemma CreateAccountKeepsCover(b: Base, o: Overlay, a: Address)
    requires ValidBase(b) && Covered(b, o)
    ensures KeepsCover(b, o, CreateAccount(b, o, a), 0)
  {
    var o' := CreateAccount(b, o, a);
    forall c, k ensures IsCleared(b, o', c, k) ==> IsCleared(b, o, c, k) { }
    CoveredFewer(b, o, o');
  }

  lemma SuicideKeepsSlots(b: Base, o: Overlay, a: Address)
    requires ValidBase(b)
    ensures SameSlots(b, o, Suicide(b, o, a)) && Suicide(b, o, a).refund == o.refund
  {
    if GetObject(b, o, a).Some? {
      PutKeepsSlots(b, o, a, WithBalance(ObjectOrNew(b, o, a).(suicide := true), 0));
    }
  }

  lemma SelfdestructKeepsCover(b: Base, o: Overlay, a: Address, beneficiary: Address)
    requires ValidBase(b) && Covered(b, o) && o.refund + 24000 < TWO64
    ensures KeepsCover(b, o, Selfdestruct(b, o, a, beneficiary), 1)
  {
    var o1 := if HasSuicided(b, o, a) then o else AddRefund(o, 24000);
    SameCleared(b, o, o1);
    AddBalanceKeepsSlots(b, o1, beneficiary, GetBalance(b, o1, a));
    var o2 := AddBalance(b, o1, beneficiary, GetBalance(b, o1, a));
    SameSlotsKeepCover(b, o1, o2);
    SuicideKeepsSlots(b, o2, a);
    SameSlotsKeepCover(b, o2, Suicide(b, o2, a));
  }

  lemma EmitKeepsCover(b: Base, o: Overlay, log: Log)
    requires Covered(b, o)
    ensures KeepsCover(b, o, EmitLog(o, log), 0)
  {
    SameCleared(b, o, EmitLog(o, log));
  }

  lemma EnterCallKeepsCover(b: Base, o: Overlay, op: HostOp)
    requires ValidBase(b) && Covered(b, o) && op.Call?
    ensures EnterCall(b, o, op).Some? ==> KeepsCover(b, o, EnterCall(b, o, op).value, 0)
  {
    TouchKeepsCover(b, o, op.to);
    TransferKeepsCover(b, Touch(b, o, op.to), op.caller, op.to, op.amount);
  }

  lemma PreparedKeepsCover(b: Base, f: Forks, o: Overlay, a: Address)
    requires ValidBase(b) && Covered(b, o)
    ensures KeepsCover(b, o, Prepared(b, f, o, a), 0)
  {
    CreateAccountKeepsCover(b, o, a);
    IncrNonceKeepsCover(b, CreateAccount(b, o, a), a);
  }

  lemma EnterCreateKeepsCover(b: Base, f: Forks, o: Overlay, op: HostOp)
    requires ValidBase(b) && Covered(b, o) && op.Create?
    ensures EnterCreate(b, f, o, op).Some? ==> KeepsCover(b, o, EnterCreate(b, f, o, op).value, 0)
  {
    PreparedKeepsCover(b, f, o, op.addr);
    TransferKeepsCover(b, Prepared(b, f, o, op.addr), op.caller, op.addr, op.amount);
  }

  /** One operation with everything nested in it. */
  lemma {:induction false} ExecKeepsCover(b: Base, f: Forks, op: HostOp, o: Overlay)
    requires ValidBase(b) && !Legacy(f) && Covered(b, o) && o.refund + 24000 * Weight(op) < TWO64
    ensures NoWrap(b, f, op, o) && KeepsCover(b, o, Exec(b, f, op, o), Weight(op))
    decreases op, 0
  {
    match op
    case Store(a, k, v) => StoreCovered(b, f, o, a, k, v);
    case Emit(log) => EmitKeepsCover(b, o, log);
    case Destruct(a, beneficiary) => SelfdestructKeepsCover(b, o, a, beneficiary);
    case Call(_, to, _, _, body, _) =>
      TouchKeepsCover(b, o, to);
      EnterCallKeepsCover(b, o, op);
      if EnterCall(b, o, op).Some? {
        ExecAllKeepsCover(b, f, body, EnterCall(b, o, op).value);
      }
    case Create(caller, addr, _, body, end) =>
      IncrNonceKeepsCover(b, o, caller);
      DeployKeepsCover(b, f, op, IncrNonce(b, o, caller));
  }

  lemma {:induction false} DeployKeepsCover(b: Base, f: Forks, op: HostOp, o: Overlay)
    requires op.Create? && ValidBase(b) && !Legacy(f) && Covered(b, o) && o.refund + 24000 * WeightAll(op.body) < TWO64
    ensures var inside := EnterCreate(b, f, o, op);
            inside.Some? ==> NoWrapAll(b, f, op.body, inside.value)
    ensures KeepsCover(b, o, Deploy(b, f, op, o), WeightAll(op.body))
    decreases op.body, 2
  {
    PreparedKeepsCover(b, f, o, op.addr);
    EnterCreateKeepsCover(b, f, o, op);
    if EnterCreate(b, f, o, op).Some? {
      var inside := EnterCreate(b, f, o, op).value;
      ExecAllKeepsCover(b, f, op.body, inside);
      if op.end.Deployed? {
        SetCodeKeepsCover(b, ExecAll(b, f, op.body, inside), op.addr, op.end.code);
      }
    }
  }

  lemma {:induction false} ExecAllKeepsCover(b: Base, f: Forks, ops: seq<HostOp>, o: Overlay)
    requires ValidBase(b) && !Legacy(f) && Covered(b, o) && o.refund + 24000 * WeightAll(ops) < TWO64
    ensures NoWrapAll(b, f, ops, o) && KeepsCover(b, o, ExecAll(b, f, ops, o), WeightAll(ops))
    decreases ops, 1
  {
    if ops != [] {
      ExecKeepsCover(b, f, ops[0], o);
      ExecAllKeepsCover(b, f, ops[1..], Exec(b, f, ops[0], o));
    }
  }

  /** A run of realistic size: one that cannot overflow 64 bits by adding refunds. */
  predicate Bounded(ops: seq<HostOp>) { 24000 * WeightAll(ops) < TWO64 }

  /**
   A transaction that starts with refund zero never takes back a refund that was not given, whatever it does,
   exactly when it starts from a state in which no slot is cleared.
   */
  lemma RefundNeverWrapsExactly(b: Base, f: Forks, o: Overlay)
    requires ValidBase(b) && !Legacy(f) && o.refund == 0
    ensures (forall ops :: Bounded(ops) ==> NoWrapAll(b, f, ops, o)) <==> Cleared(b, o) == {}
  {
    if Cleared(b, o) == {} {
      forall ops | Bounded(ops) ensures NoWrapAll(b, f, ops, o) { ExecAllKeepsCover(b, f, ops, o); }
    } else {
      var p :| p in Cleared(b, o);
      ClearedIsAll(b, o, p.0, p.1);
      var op := Store(p.0, p.1, 1);
      assert Bounded([op]) && [op][0] == op;
      assert !NoWrap(b, f, op, o);
      assert !NoWrapAll(b, f, [op], o);
    }
  }

  /** The first transaction of a block starts from the committed state, where nothing is cleared. */
  lemma FirstTransactionNeverWraps(b: Base, f: Forks, ops: seq<HostOp>)
    requires ValidBase(b) && !Legacy(f) && Bounded(ops)
    ensures NoWrapAll(b, f, ops, NOTHING)
    ensures ExecAll(b, f, ops, NOTHING).refund >= 15000 * |Cleared(b, ExecAll(b, f, ops, NOTHING))|
  {
    assert Cleared(b, NOTHING) == {};
    ExecAllKeepsCover(b, f, ops, NOTHING);
  }

  /**
   A later transaction of the block may: a slot that the first one clears and the second one fills again
   leaves the second with nearly 2^64 of refund.
   */
  lemma LaterTransactionWraps(b: Base, f: Forks, a: Address, k: Key, v: Value, deleteEmpty: bool)
    requires ValidBase(b) && !Legacy(f) && a in b.accounts && b.accounts[a].nonce > 0
    requires b.storage(a, b.accounts[a].root, k) != ZERO && v != ZERO && v != b.storage(a, b.accounts[a].root, k)
    ensures var first := CleanDeleteObjects(Exec(b, f, Store(a, k, ZERO), NOTHING), deleteEmpty);
            first.refund == 0 && Exec(b, f, Store(a, k, v), first).refund == TWO64 - 15000
  {
    var cleared := Exec(b, f, Store(a, k, ZERO), NOTHING);
    var first := CleanDeleteObjects(cleared, deleteEmpty);
    assert !Removable(cleared.objects[a], deleteEmpty);
    assert first.objects[a] == cleared.objects[a];
    assert GetState(b, first, a, k) == ZERO && GetCommittedState(b, first, a, k) == b.storage(a, b.accounts[a].root, k);
  }
}

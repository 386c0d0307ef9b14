/** Runs of the pool in which a law of the index or of the gauge fails. */
module PoolRuns {
  import opened Transactions
  import opened AccountQueues
  import opened PoolAccounts
  import opened PoolModel
  import opened PoolInvariant
  import opened PoolSafety
  import opened Sums

  ghost predicate Reaches(c: Config, p: Pool) {
    exists steps, pools :: Run(c, steps, pools) && pools[|steps|] == p
  }

  lemma Start(c: Config)
    ensures Reaches(c, Init())
  {
    assert Run(c, [], [Init()]) && [Init()][0] == Init();
  }

  lemma Next(c: Config, p: Pool, s: Step, q: Pool)
    requires Reaches(c, p) && Leads(c, p, s, q)
    ensures Reaches(c, q)
  {
    var steps, pools :| Run(c, steps, pools) && pools[|steps|] == p;
    var more, all := steps + [s], pools + [q];
    forall i | 0 <= i < |more| ensures Leads(c, all[i], more[i], all[i + 1]) {
      if i < |steps| { assert Leads(c, pools[i], steps[i], pools[i + 1]); }
    }
    assert Run(c, more, all) && all[|more|] == q;
  }

  /** The first transaction of an account, waiting for promotion. */
  ghost function Waiting(t: Tx): AccountState { AccountState(map[t.nonce := t], map[], map[t.nonce := t], 0, 0) }

  ghost predicate First(c: Config, t: Tx) {
    ValidConfig(c) && t.nonce == 0 && t.size <= TX_MAX_SIZE && c.preimage(t.hash) == t
  }

  /** An account without transactions takes its first one. */
  lemma FirstIsAdded(c: Config, p: Pool, t: Tx)
    requires First(c, t) && t.from in p.accounts && p.accounts[t.from] == NewAccount(0) && t.hash !in p.index
    requires 0 <= p.gauge && p.gauge + Slots(t) <= c.maxSlots
    ensures Leads(c, p, Add(t), p.(accounts := p.accounts[t.from := Waiting(t)], gauge := p.gauge + Slots(t),
                                   index := p.index[t.hash := t], requests := p.requests + {t.from}))
  {
    assert AddVerdict(c, p, t) == Added;
    assert Insert(NewAccount(0), t, false) == Waiting(t);
  }

  /** The pool after the first transaction of its first account. */
  ghost function WithFirst(t: Tx): Pool {
    Pool(map[t.from := Waiting(t)], map[t.hash := t], Slots(t), 0, {t.from}, map[], map[], 0)
  }

  lemma ReachFirst(c: Config, t: Tx)
    requires First(c, t) && Slots(t) <= c.maxSlots
    ensures Reaches(c, WithFirst(t))
  {
    Start(c);
    var p := Init().(accounts := map[t.from := NewAccount(0)]);
    Next(c, Init(), InitStep(t.from, 0), p);
    FirstIsAdded(c, p, t);
    Next(c, p, Add(t), WithFirst(t));
  }

  /** The event of a block with `t` has removed `t` from the index and reset its sender, and has yet to clean up. */
  ghost function WithMined(t: Tx): Pool {
    Pool(map[t.from := NewAccount(1)], map[], Slots(t), 0, {t.from}, map[0 := Job(map[], {t}, Slots(t), 0)],
         map[t.from := 1], 0)
  }

  lemma ReachMined(c: Config, t: Tx)
    requires First(c, t) && Slots(t) <= c.maxSlots
    ensures Reaches(c, WithMined(t))
  {
    ReachFirst(c, t);
    var p1 := WithFirst(t).(stateNonce := map[t.from := 1]);
    Next(c, WithFirst(t), AdvanceState(t.from, 1), p1);
    var p2 := p1.(jobs := map[0 := Job(map[], {}, 0, 0)]);
    Next(c, p1, BeginEvent(0), p2);
    var p3 := p2.(jobs := map[0 := Job(map[t.from := 1], {}, 0, 0)], index := map[]);
    IndexBlockLeads(c, p2, t, p3);
    Next(c, p2, IndexBlockStep(0, {t}, map[t.from := 1]), p3);
    ResetLeads(c, p3, t);
    Next(c, p3, ResetStep(0, t.from), WithMined(t));
  }

  lemma IndexBlockLeads(c: Config, p: Pool, t: Tx, q: Pool)
    requires First(c, t) && p.jobs == map[0 := Job(map[], {}, 0, 0)] && p.stateNonce == map[t.from := 1]
    requires p.index == map[t.hash := t]
    requires q == p.(jobs := map[0 := Job(map[t.from := 1], {}, 0, 0)], index := map[])
    ensures Leads(c, p, IndexBlockStep(0, {t}, map[t.from := 1]), q)
  {
    var todo: map<Address, nat> := map[t.from := 1];
    assert todo + map[] == todo;
    assert t.hash in HashesOf({t});
    assert p.index - HashesOf({t}) == map[];
  }

  lemma ResetLeads(c: Config, p: Pool, t: Tx)
    requires First(c, t)
    requires p == WithFirst(t).(stateNonce := map[t.from := 1], index := map[],
                                  jobs := map[0 := Job(map[t.from := 1], {}, 0, 0)])
    ensures Leads(c, p, ResetStep(0, t.from), WithMined(t))
  {
    var a := Waiting(t);
    assert Below(a.enqueued, 1) == a.enqueued && From(a.enqueued, 1) == map[];
    assert Below(a.promoted, 1) == map[] && From(a.promoted, 1) == map[];
    assert PruneBelow(a, 1) == NewAccount(1);
    OneSlots(t);
    assert Below(a.promoted, 1).Values == {} && PrunedEnqueued(a, 1).Values == {t};
    assert p.jobs[0].todo - {t.from} == map[];
    var j := ResetAccount(p, 0, t.from).jobs[0];
    assert j.todo == map[];
    assert j.unindex == {t};
    assert j.uncharge == Slots(t);
    assert j.pendingDelta == 0;
    assert ResetAccount(p, 0, t.from).jobs == WithMined(t).jobs;
  }

  lemma OneSlots(t: Tx)
    ensures SlotsIn(map[t.nonce := t]) == Slots(t) && Count(map[t.nonce := t]) == 1
    ensures SlotsIn(map[]) == 0 && Count(map[]) == 0
  {
    var q: map<nat, Tx> := map[t.nonce := t];
    SumRemove(q, Slots, t.nonce);
    SumRemove(q, One, t.nonce);
    assert q - {t.nonce} == map[];
  }

  /**
   The index law fails in the run in which a mined transaction is added again before the event has cleaned up: the
   pool is at rest, the transaction is queued and the index does not know it.
   */
  lemma StaleAddIsLost(c: Config, t: Tx) returns (p: Pool)
    requires First(c, t) && 2 * Slots(t) <= c.maxSlots
    ensures Reaches(c, p) && p.jobs == map[] && Queued(p, t) && !Indexed(p, t)
  {
    ReachMined(c, t);
    var p0 := WithMined(t);
    var p1 := p0.(accounts := map[t.from := NewAccount(0)]);
    DropLeads(c, p0, t.from, p1);
    Next(c, p0, DropStep(t.from, 0), p1);
    var p2 := p1.(accounts := map[t.from := Waiting(t)], gauge := 2 * Slots(t), index := map[t.hash := t]);
    FirstIsAdded(c, p1, t);
    Next(c, p1, Add(t), p2);
    var p3 := p2.(index := map[], jobs := map[0 := Job(map[], {}, Slots(t), 0)]);
    assert t.hash in HashesOf({t});
    assert p2.index - HashesOf({t}) == map[];
    Next(c, p2, SettleIndex(0), p3);
    var p4 := p3.(gauge := Slots(t), jobs := map[0 := Job(map[], {}, 0, 0)]);
    Next(c, p3, SettleGauge(0), p4);
    p := p4.(jobs := map[]);
    Next(c, p4, FinishJob(0), p);
  }

  lemma DropLeads(c: Config, p: Pool, addr: Address, q: Pool)
    requires addr in p.accounts && p.accounts[addr] == NewAccount(1) && p.gauge >= 0
    requires q == p.(accounts := p.accounts[addr := NewAccount(0)])
    ensures Leads(c, p, DropStep(addr, 0), q)
  {
    var a := p.accounts[addr];
    assert a.promoted.Values == {} && a.enqueued.Values == {};
    assert p.index - HashesOf({}) - HashesOf({}) == p.index;
  }

  // A promoted head that is replaced between the peek and the pop.

  ghost function Promoted(t: Tx): AccountState { AccountState(map[], map[t.nonce := t], map[t.nonce := t], 1, 0) }

  ghost function WithHead(t: Tx): Pool {
    Pool(map[t.from := Promoted(t)], map[t.hash := t], Slots(t), 1, {}, map[], map[], 0)
  }

  lemma ReachHead(c: Config, t: Tx)
    requires First(c, t) && Slots(t) <= c.maxSlots
    ensures Reaches(c, WithHead(t))
  {
    ReachFirst(c, t);
    var p1 := WithFirst(t).(accounts := map[t.from := Promoted(t)], requests := {},
                            jobs := map[0 := Job(map[], {}, 0, 1)]);
    PromoteLeads(c, t, p1);
    Next(c, WithFirst(t), PromoteStep(t.from, 0, false), p1);
    var p2 := p1.(pending := 1, jobs := map[0 := Job(map[], {}, 0, 0)]);
    Next(c, p1, SettlePending(0), p2);
    Next(c, p2, FinishJob(0), WithHead(t));
  }

  lemma PromoteLeads(c: Config, t: Tx, q: Pool)
    requires First(c, t)
    requires q == WithFirst(t).(accounts := map[t.from := Promoted(t)], requests := {},
                                jobs := map[0 := Job(map[], {}, 0, 1)])
    ensures Leads(c, WithFirst(t), PromoteStep(t.from, 0, false), q)
  {
    var a := Waiting(t);
    RunEndUnique(a.enqueued, 0, 1);
    assert Below(a.enqueued, 1) == a.enqueued && From(a.enqueued, 1) == map[];
    assert map[] + a.enqueued == a.enqueued;
    assert PromoteRun(a) == Promoted(t);
    OneSlots(t);
  }

  ghost predicate Replaces(c: Config, t: Tx, u: Tx) {
    && First(c, t) && First(c, u) && t.from == u.from && t.hash != u.hash
    && GetGasPrice(t, 0) < GetGasPrice(u, 0) && Slots(t) <= c.maxSlots && Slots(u) <= c.maxSlots
  }

  lemma ReplaceLeads(c: Config, t: Tx, u: Tx)
    requires Replaces(c, t, u)
    ensures Leads(c, WithHead(t), Add(u), WithHead(u).(requests := {t.from}))
  {
    var p := WithHead(t);
    assert AddVerdict(c, p, u) == Added;
    assert Insert(Promoted(t), u, true) == Promoted(u);
    assert p.index[u.hash := u] - {t.hash} == WithHead(u).index;
  }

  /** What popping `t` leaves when `u` is the head. */
  lemma PopOther(c: Config, q: Pool, t: Tx, u: Tx)
    requires Replaces(c, t, u) && Slots(t) != Slots(u) && q == WithHead(u).(requests := {t.from})
    ensures !GaugeOk(c, Pop(q, t))
  {
    var r := Pop(q, t);
    assert AfterPop(Promoted(u), t).promoted == map[];
    SumRemove(r.accounts, AccountSlots, t.from);
    assert r.accounts - {t.from} == map[];
    assert AccountSlots(r.accounts[t.from]) == 0 && Sum(r.jobs, Uncharged) == 0;
  }

  /**
   The block builder peeks `t`; a dearer transaction takes its place before `t` is popped. If it takes other slots,
   popping `t` leaves the gauge wrong.
   */
  lemma ReplacedHeadIsMischarged(c: Config, t: Tx, u: Tx) returns (p: Pool, q: Pool)
    requires Replaces(c, t, u) && Slots(t) != Slots(u)
    ensures Reaches(c, p) && t.from in p.accounts && IsHead(p.accounts[t.from], t)
    ensures Leads(c, p, Add(u), q) && t.from in q.accounts && !GaugeOk(c, Pop(q, t))
  {
    hide Reaches, Leads, GaugeOk, Pop;
    p, q := WithHead(t), WithHead(u).(requests := {t.from});
    ReachHead(c, t);
    ReplaceLeads(c, t, u);
    PopOther(c, q, t, u);
  }
}

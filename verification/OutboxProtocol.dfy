/**
 The outbox transfer as a concurrent protocol: transfers, any number of relays each holding a batch
 it read earlier, crashes between any two statements, and replays that clear the delivered mark.

 It refines atomic transfers. The abstract balance of a tenant is its settled balance: its ledger
 rows on every shard plus the credits queued for it that their target has not applied yet.
 */
module OutboxProtocol {
  import opened Sums
  import opened Outbox

  datatype RowKey = RowKey(shard: ShardId, id: EventId)

  ghost function Rows(db: Shards): set<RowKey> {
    set s, id | s in db && id in db[s].outbox :: RowKey(s, id)
  }

  ghost function BalanceAt(db: Shards, s: ShardId, tenant: Tenant): int {
    if s in db then Balance(db[s], tenant) else 0
  }

  ghost predicate Credited(db: Shards, id: EventId, ev: Event) {
    ev.target in db && id in db[ev.target].applied
  }

  ghost function Owed(db: Shards, r: RowKey, tenant: Tenant): int {
    if r.shard in db && r.id in db[r.shard].outbox then
      var ev := db[r.shard].outbox[r.id].event;
      if ev.tenant == tenant && !Credited(db, r.id, ev) then ev.cents else 0
    else 0
  }

  ghost function Settled(db: Shards, tenant: Tenant): int {
    Sum(db.Keys, s => BalanceAt(db, s, tenant)) + Sum(Rows(db), r => Owed(db, r, tenant))
  }

  /** The specification: both balances move in one step. */
  ghost function AtomicMove(balance: int, tenant: Tenant, from: Tenant, to: Tenant, cents: int): int {
    balance - (if tenant == from then cents else 0) + (if tenant == to then cents else 0)
  }

  // ---- what each transaction does to settled balances ----

  lemma TransferSettles(db: Shards, src: ShardId, id: EventId, ev: Event, tenant: Tenant)
    requires src in db && TransferTx(db[src], id, ev).Some?
    ensures var after := db[src := TransferTx(db[src], id, ev).value];
            Settled(after, tenant) ==
            if Credited(db, id, ev) then AtomicMove(Settled(db, tenant), tenant, ev.from, ev.tenant, ev.cents)
                                         - (if tenant == ev.tenant then ev.cents else 0)
            else AtomicMove(Settled(db, tenant), tenant, ev.from, ev.tenant, ev.cents)
  {
    var after := db[src := TransferTx(db[src], id, ev).value];
    assert after.Keys == db.Keys;
    SumChange(db.Keys, s => BalanceAt(db, s, tenant), s => BalanceAt(after, s, tenant), src);
    var row := RowKey(src, id);
    assert Rows(after) == Rows(db) + {row};
    SumAdd(Rows(db), r => Owed(after, r, tenant), row);
    SumAgree(Rows(db), r => Owed(db, r, tenant), r => Owed(after, r, tenant));
  }

  /** Outbox rows that the same `applied` entry would mark as credited. */
  ghost function Rivals(db: Shards, id: EventId, target: ShardId): set<RowKey> {
    set r | r in Rows(db) && r.id == id && db[r.shard].outbox[r.id].event.target == target
  }

  // Exactly what applying an event does: it credits one tenant and cancels the claim of every row
  // that shares the event's id and target.
  lemma ApplySettles(db: Shards, q: Queued, tenant: Tenant)
    requires Deliverable(db, q) && q.id !in db[q.event.target].applied
    ensures Settled(Apply(db, q), tenant) ==
            Settled(db, tenant) + (if tenant == q.event.tenant then q.event.cents else 0)
            - Sum(Rivals(db, q.id, q.event.target), r => Owed(db, r, tenant))
  {
    ApplyBalances(db, q, tenant);
    ApplyOwed(db, q, tenant);
  }

  lemma ApplyBalances(db: Shards, q: Queued, tenant: Tenant)
    requires Deliverable(db, q) && q.id !in db[q.event.target].applied
    ensures Sum(Apply(db, q).Keys, s => BalanceAt(Apply(db, q), s, tenant)) ==
            Sum(db.Keys, s => BalanceAt(db, s, tenant)) + if tenant == q.event.tenant then q.event.cents else 0
  {
    var after := Apply(db, q);
    assert after.Keys == db.Keys;
    SumChange(db.Keys, s => BalanceAt(db, s, tenant), s => BalanceAt(after, s, tenant), q.event.target);
  }

  lemma ApplyOwed(db: Shards, q: Queued, tenant: Tenant)
    requires Deliverable(db, q) && q.id !in db[q.event.target].applied
    ensures Sum(Rows(Apply(db, q)), r => Owed(Apply(db, q), r, tenant)) ==
            Sum(Rows(db), r => Owed(db, r, tenant)) - Sum(Rivals(db, q.id, q.event.target), r => Owed(db, r, tenant))
  {
    var after, rivals := Apply(db, q), Rivals(db, q.id, q.event.target);
    var was, now := r => Owed(db, r, tenant), r => Owed(after, r, tenant);
    assert Rows(after) == Rows(db);
    forall r | r in Rows(db)
      ensures now(r) == if r in rivals then 0 else was(r)
    {
      assert after[r.shard].outbox == db[r.shard].outbox;
    }
    SumSplit(Rows(db), rivals, was);
    SumSplit(Rows(db), rivals, now);
    SumZero(rivals, now);
    SumAgree(Rows(db) - rivals, was, now);
  }

  lemma MarkSettles(db: Shards, src: ShardId, id: EventId, delivered: bool, tenant: Tenant)
    requires src in db
    ensures Settled(db[src := SetDelivered(db[src], id, delivered)], tenant) == Settled(db, tenant)
  {
    var after := db[src := SetDelivered(db[src], id, delivered)];
    assert after.Keys == db.Keys;
    SumAgree(db.Keys, s => BalanceAt(db, s, tenant), s => BalanceAt(after, s, tenant));
    assert Rows(after) == Rows(db);
    SumAgree(Rows(db), r => Owed(db, r, tenant), r => Owed(after, r, tenant));
  }

  // ---- the step machine ----

  datatype Relay = Idle | Busy(src: ShardId, todo: seq<Queued>, applied: bool)

  type RelayId = nat

  datatype System = System(db: Shards, relays: map<RelayId, Relay>)

  datatype Step =
    | Transfer(id: EventId, src: ShardId, dst: ShardId, from: Tenant, to: Tenant, cents: int)
    | Read(relay: RelayId, src: ShardId, batch: nat)
    | ApplyHead(relay: RelayId)
    | MarkHead(relay: RelayId)
    | Crash(relay: RelayId)
    | Replay(src: ShardId, id: EventId)

  ghost predicate BusyAt(s: System, r: RelayId, applied: bool) {
    r in s.relays && s.relays[r].Busy? && s.relays[r].todo != [] && s.relays[r].applied == applied
  }

  ghost predicate Next(s: System, step: Step, s': System) {
    match step
    case Transfer(id, src, dst, from, to, cents) =>
      var ev := Event(dst, to, cents, from);
      && src in s.db && TransferTx(s.db[src], id, ev).Some?
      && s' == s.(db := s.db[src := TransferTx(s.db[src], id, ev).value])
    case Read(r, src, batch) =>
      && src in s.db && (r in s.relays ==> s.relays[r].Idle?)
      && s' == s.(relays := s.relays[r := Busy(src, Batch(s.db[src], batch), false)])
    case ApplyHead(r) =>
      && BusyAt(s, r, false) && Deliverable(s.db, s.relays[r].todo[0])
      && s' == System(Apply(s.db, s.relays[r].todo[0]), s.relays[r := s.relays[r].(applied := true)])
    case MarkHead(r) =>
      && BusyAt(s, r, true)
      && s' == System(Mark(s.db, s.relays[r].src, s.relays[r].todo[0].id),
                      s.relays[r := Busy(s.relays[r].src, s.relays[r].todo[1..], false)])
    case Crash(r) =>
      && r in s.relays && s' == s.(relays := s.relays[r := Idle])
    case Replay(src, id) =>
      && src in s.db && s' == s.(db := s.db[src := SetDelivered(s.db[src], id, false)])
  }

  // The environment's own moves are always open to it: any covered transfer under a new id, a crash of any
  // relay, a replay of any row.
  lemma EnvironmentMoves(s: System, src: ShardId, id: EventId, ev: Event, r: RelayId)
    requires src in s.db
    ensures id !in s.db[src].outbox && ev.from in s.db[src].ledger && s.db[src].ledger[ev.from] >= ev.cents
            && -0x8000_0000_0000_0000 <= s.db[src].ledger[ev.from] - ev.cents <= 0x7fff_ffff_ffff_ffff ==>
              exists s' :: Next(s, Transfer(id, src, ev.target, ev.from, ev.tenant, ev.cents), s') && id in s'.db[src].outbox
    ensures r in s.relays ==> exists s' :: Next(s, Crash(r), s') && s'.db == s.db && s'.relays == s.relays[r := Idle]
    ensures exists s' :: Next(s, Replay(src, id), s') && s'.relays == s.relays
                         && (id in s.db[src].outbox ==> id in s'.db[src].outbox && !s'.db[src].outbox[id].delivered)
  {
    if CanDebit(s.db[src], ev.from, ev.cents) && id !in s.db[src].outbox {
      var sent := s.(db := s.db[src := TransferTx(s.db[src], id, ev).value]);
      assert Event(ev.target, ev.tenant, ev.cents, ev.from) == ev;
      assert Next(s, Transfer(id, src, ev.target, ev.from, ev.tenant, ev.cents), sent);
    }
    if r in s.relays {
      assert Next(s, Crash(r), s.(relays := s.relays[r := Idle]));
    }
    assert Next(s, Replay(src, id), s.(db := s.db[src := SetDelivered(s.db[src], id, false)]));
  }

  /** No other transfer to this target carries the id: what a caller of Transfer must arrange. */
  ghost predicate FreshAt(db: Shards, id: EventId, target: ShardId) {
    Rivals(db, id, target) == {} && (target in db ==> id !in db[target].applied)
  }

  ghost predicate FreshIds(s: System, step: Step) {
    step.Transfer? ==> FreshAt(s.db, step.id, step.dst)
  }

  ghost predicate UniqueAtTarget(db: Shards) {
    forall r1, r2 | r1 in Rows(db) && r2 in Rows(db) && r1.id == r2.id ::
      db[r1.shard].outbox[r1.id].event.target == db[r2.shard].outbox[r2.id].event.target ==> r1 == r2
  }

  /** A row marked delivered has been applied at its target. */
  ghost predicate DeliveredIsApplied(db: Shards) {
    forall r :: r in Rows(db) && db[r.shard].outbox[r.id].delivered ==>
      Credited(db, r.id, db[r.shard].outbox[r.id].event)
  }

  ghost predicate HasRow(db: Shards, src: ShardId, q: Queued) {
    RowKey(src, q.id) in Rows(db) && db[src].outbox[q.id].event == q.event
  }

  ghost predicate RelayInv(db: Shards, relay: Relay) {
    relay.Busy? ==>
      && (forall k :: 0 <= k < |relay.todo| ==> HasRow(db, relay.src, relay.todo[k]))
      && (relay.applied ==> relay.todo != [] && Credited(db, relay.todo[0].id, relay.todo[0].event))
  }

  ghost predicate Inv(s: System) {
    && UniqueAtTarget(s.db)
    && DeliveredIsApplied(s.db)
    && forall r :: r in s.relays ==> RelayInv(s.db, s.relays[r])
  }

  /** Outbox and `applied` only grow, and queued events never change. */
  ghost predicate Grows(db: Shards, db': Shards) {
    && db.Keys == db'.Keys
    && Rows(db) <= Rows(db')
    && (forall r :: r in Rows(db) ==> db'[r.shard].outbox[r.id].event == db[r.shard].outbox[r.id].event)
    && (forall s :: s in db ==> db[s].applied <= db'[s].applied)
  }

  lemma RelaysSurvive(db: Shards, db': Shards, relay: Relay)
    requires Grows(db, db') && RelayInv(db, relay)
    ensures RelayInv(db', relay)
  {
    if relay.Busy? {
      forall k | 0 <= k < |relay.todo|
        ensures HasRow(db', relay.src, relay.todo[k])
      {
        assert HasRow(db, relay.src, relay.todo[k]);
      }
    }
  }

  lemma StepGrows(s: System, step: Step, s': System)
    requires Next(s, step, s')
    ensures Grows(s.db, s'.db)
  {
  }

  lemma StepKeepsInv(s: System, step: Step, s': System)
    requires Inv(s) && Next(s, step, s') && FreshIds(s, step)
    ensures Inv(s')
  {
    StepGrows(s, step, s');
    forall r | r in s'.relays
      ensures RelayInv(s'.db, s'.relays[r])
    {
      if r in s.relays {
        RelaysSurvive(s.db, s'.db, s.relays[r]);
      }
    }
    StepKeepsUnique(s, step, s');
    StepKeepsDelivered(s, step, s');
  }

  lemma StepKeepsUnique(s: System, step: Step, s': System)
    requires UniqueAtTarget(s.db) && Next(s, step, s') && FreshIds(s, step)
    ensures UniqueAtTarget(s'.db)
  {
    StepGrows(s, step, s');
    if step.Transfer? {
      assert Rows(s'.db) == Rows(s.db) + {RowKey(step.src, step.id)};
      forall r | r in Rows(s.db) && r.id == step.id
        ensures s.db[r.shard].outbox[r.id].event.target != step.dst
      {
        assert r !in Rivals(s.db, step.id, step.dst);
      }
    } else {
      assert Rows(s'.db) == Rows(s.db);
    }
  }

  lemma StepKeepsDelivered(s: System, step: Step, s': System)
    requires Inv(s) && Next(s, step, s')
    ensures DeliveredIsApplied(s'.db)
  {
    StepGrows(s, step, s');
    if step.MarkHead? {
      assert RelayInv(s.db, s.relays[step.relay]);
      assert HasRow(s.db, s.relays[step.relay].src, s.relays[step.relay].todo[0]);
    }
    forall r | r in Rows(s'.db) && s'.db[r.shard].outbox[r.id].delivered
      ensures Credited(s'.db, r.id, s'.db[r.shard].outbox[r.id].event)
    {
      assert r in Rows(s.db);
      assert s.db[r.shard].outbox[r.id].event == s'.db[r.shard].outbox[r.id].event;
    }
  }

  /** What one protocol step is in the world of atomic transfers: a transfer or nothing. */
  ghost function AbstractStep(balance: int, tenant: Tenant, step: Step): int {
    if step.Transfer? then AtomicMove(balance, tenant, step.from, step.to, step.cents) else balance
  }

  // Refinement, one step: settled balances move atomically at a transfer commit and never otherwise.
  lemma StepRefines(s: System, step: Step, s': System, tenant: Tenant)
    requires Inv(s) && Next(s, step, s') && FreshIds(s, step)
    ensures Settled(s'.db, tenant) == AbstractStep(Settled(s.db, tenant), tenant, step)
  {
    match step
    case Transfer(id, src, dst, from, to, cents) =>
      TransferSettles(s.db, src, id, Event(dst, to, cents, from), tenant);
    case ApplyHead(r) =>
      ApplyOfQueuedRow(s.db, s.relays[r].src, s.relays[r].todo[0], tenant);
    case MarkHead(r) =>
      assert HasRow(s.db, s.relays[r].src, s.relays[r].todo[0]);
      MarkSettles(s.db, s.relays[r].src, s.relays[r].todo[0].id, true, tenant);
    case Replay(src, id) =>
      MarkSettles(s.db, src, id, false, tenant);
    case _ =>
  }

  // Applying an event whose row exists and has no rival leaves every settled balance alone, however
  // often it is repeated.
  lemma ApplyOfQueuedRow(db: Shards, src: ShardId, q: Queued, tenant: Tenant)
    requires UniqueAtTarget(db) && HasRow(db, src, q) && Deliverable(db, q)
    ensures Settled(Apply(db, q), tenant) == Settled(db, tenant)
  {
    if q.id in db[q.event.target].applied {
      assert Apply(db, q) == db;
    } else {
      ApplySettles(db, q, tenant);
      var row, owed := RowKey(src, q.id), r => Owed(db, r, tenant);
      assert Rivals(db, q.id, q.event.target) == {row};
      SumRemove({row}, owed, row);
      assert {row} - {row} == {};
    }
  }

  // ---- whole runs ----

  ghost predicate Run(states: seq<System>, steps: seq<Step>) {
    && |states| == |steps| + 1
    && forall i :: 0 <= i < |steps| ==> Next(states[i], steps[i], states[i + 1]) && FreshIds(states[i], steps[i])
  }

  ghost function AbstractRun(balance: int, tenant: Tenant, steps: seq<Step>): int
    decreases |steps|
  {
    if steps == [] then balance
    else AbstractStep(AbstractRun(balance, tenant, steps[..|steps| - 1]), tenant, steps[|steps| - 1])
  }

  // Refinement of whole runs: in every interleaving the settled balance of every tenant is what the
  // transfers alone, executed atomically in commit order, would have made it.
  lemma {:induction false} RunRefines(states: seq<System>, steps: seq<Step>, tenant: Tenant)
    requires Run(states, steps) && Inv(states[0])
    ensures Inv(states[|steps|])
    ensures Settled(states[|steps|].db, tenant) == AbstractRun(Settled(states[0].db, tenant), tenant, steps)
    decreases |steps|
  {
    if steps != [] {
      var n := |steps| - 1;
      RunRefines(states[..n + 1], steps[..n], tenant);
      StepKeepsInv(states[n], steps[n], states[n + 1]);
      StepRefines(states[n], steps[n], states[n + 1], tenant);
    }
  }

  // The total over any set of tenants that every transfer stays inside, or outside, never changes.
  lemma {:induction false} RunConserves(states: seq<System>, steps: seq<Step>, tenants: set<Tenant>)
    requires Run(states, steps) && Inv(states[0])
    requires forall k :: 0 <= k < |steps| && steps[k].Transfer? ==> (steps[k].from in tenants <==> steps[k].to in tenants)
    ensures Sum(tenants, t => Settled(states[|steps|].db, t)) == Sum(tenants, t => Settled(states[0].db, t))
    decreases |steps|
  {
    if steps == [] {
      SumAgree(tenants, t => Settled(states[|steps|].db, t), t => Settled(states[0].db, t));
    } else {
      var n := |steps| - 1;
      RunConserves(states[..n + 1], steps[..n], tenants);
      RunRefines(states[..n + 1], steps[..n], 0);
      SumAgree(tenants, t => Settled(states[..n + 1][n].db, t), t => Settled(states[n].db, t));
      SumAgree(tenants, t => Settled(states[..n + 1][0].db, t), t => Settled(states[0].db, t));
      StepConserves(states[n], steps[n], states[n + 1], tenants);
    }
  }

  lemma StepConserves(s: System, step: Step, s': System, tenants: set<Tenant>)
    requires Inv(s) && Next(s, step, s') && FreshIds(s, step)
    requires step.Transfer? ==> (step.from in tenants <==> step.to in tenants)
    ensures Sum(tenants, t => Settled(s'.db, t)) == Sum(tenants, t => Settled(s.db, t))
  {
    forall t
      ensures Settled(s'.db, t) == AbstractStep(Settled(s.db, t), t, step)
    {
      StepRefines(s, step, s', t);
    }
    var f, g := t => Settled(s.db, t), t => Settled(s'.db, t);
    if step.Transfer? {
      MoveConserves(tenants, f, g, step.from, step.to, step.cents);
    } else {
      SumAgree(tenants, f, g);
    }
  }

  lemma MoveConserves(tenants: set<Tenant>, f: Tenant -> int, g: Tenant -> int, from: Tenant, to: Tenant, cents: int)
    requires forall t :: g(t) == AtomicMove(f(t), t, from, to, cents)
    requires from in tenants <==> to in tenants
    ensures Sum(tenants, g) == Sum(tenants, f)
  {
    if from in tenants && from != to {
      SumRemove(tenants, f, from);
      SumRemove(tenants, g, from);
      SumRemove(tenants - {from}, f, to);
      SumRemove(tenants - {from}, g, to);
      SumAgree(tenants - {from} - {to}, f, g);
    } else {
      SumAgree(tenants, f, g);
    }
  }

  // ---- solvency ----

  ghost predicate NonNegative(db: Shards) {
    && (forall s, t :: s in db && t in db[s].ledger ==> db[s].ledger[t] >= 0)
    && forall r :: r in Rows(db) ==> db[r.shard].outbox[r.id].event.cents >= 0
  }

  // With no negative amounts no ledger row ever goes negative, and every transfer that commits is
  // covered by the settled balance it is taken from.
  lemma StepSolvent(s: System, step: Step, s': System)
    requires Inv(s) && Next(s, step, s') && NonNegative(s.db)
    requires step.Transfer? ==> step.cents >= 0
    ensures NonNegative(s'.db)
    ensures step.Transfer? ==> Settled(s.db, step.from) >= step.cents
  {
    if step.Transfer? {
      TransferSolvent(s.db, step.src, step.id, Event(step.dst, step.to, step.cents, step.from));
    } else if step.ApplyHead? {
      ApplySolvent(s.db, s.relays[step.relay].src, s.relays[step.relay].todo[0]);
    } else {
      assert Rows(s'.db) == Rows(s.db);
    }
  }

  lemma TransferSolvent(db: Shards, src: ShardId, id: EventId, ev: Event)
    requires NonNegative(db) && src in db && TransferTx(db[src], id, ev).Some? && ev.cents >= 0
    ensures NonNegative(db[src := TransferTx(db[src], id, ev).value])
    ensures Settled(db, ev.from) >= ev.cents
  {
    assert Rows(db[src := TransferTx(db[src], id, ev).value]) == Rows(db) + {RowKey(src, id)};
    SumNonNegative(db.Keys, sh => BalanceAt(db, sh, ev.from));
    SumNonNegative(Rows(db), r => Owed(db, r, ev.from));
    assert BalanceAt(db, src, ev.from) >= ev.cents;
  }

  lemma ApplySolvent(db: Shards, src: ShardId, q: Queued)
    requires NonNegative(db) && Deliverable(db, q) && HasRow(db, src, q)
    ensures NonNegative(Apply(db, q))
  {
    assert RowKey(src, q.id) in Rows(db);
    assert Rows(Apply(db, q)) == Rows(db);
  }

  // ---- why the id must be fresh at the target ----

  ghost predicate SettlesAtomically(db: Shards, step: Step, db': Shards)
    requires step.Transfer?
  {
    forall t :: Settled(db', t) == AtomicMove(Settled(db, t), t, step.from, step.to, step.cents)
  }

  ghost predicate NoApplyChangesSettled(db: Shards) {
    forall src, q, t :: HasRow(db, src, q) && Deliverable(db, q) ==> Settled(Apply(db, q), t) == Settled(db, t)
  }

  // `outbox.id` is unique per source shard only, `applied.event_id` per target. A committed transfer
  // of a nonzero amount behaves atomically exactly when its id is fresh at the target.
  lemma FreshIffAtomic(s: System, step: Step, s': System)
    requires Inv(s) && step.Transfer? && step.cents != 0 && Next(s, step, s')
    requires forall r :: r in Rivals(s'.db, step.id, step.dst) ==>
               Deliverable(s'.db, Queued(r.id, s'.db[r.shard].outbox[r.id].event))
    ensures FreshAt(s.db, step.id, step.dst) <==>
            SettlesAtomically(s.db, step, s'.db) && NoApplyChangesSettled(s'.db)
  {
    var ev := Event(step.dst, step.to, step.cents, step.from);
    var row := RowKey(step.src, step.id);
    assert Rows(s'.db) == Rows(s.db) + {row};
    assert row in Rivals(s'.db, step.id, step.dst);
    if FreshAt(s.db, step.id, step.dst) {
      forall t
        ensures Settled(s'.db, t) == AtomicMove(Settled(s.db, t), t, step.from, step.to, step.cents)
      {
        TransferSettles(s.db, step.src, step.id, ev, t);
      }
      StepKeepsInv(s, step, s');
      forall src, q, t | HasRow(s'.db, src, q) && Deliverable(s'.db, q)
        ensures Settled(Apply(s'.db, q), t) == Settled(s'.db, t)
      {
        ApplyOfQueuedRow(s'.db, src, q, t);
      }
    } else if Credited(s.db, step.id, ev) {
      TransferSettles(s.db, step.src, step.id, ev, step.to);
      assert !SettlesAtomically(s.db, step, s'.db);
    } else {
      var rival :| rival in Rivals(s.db, step.id, step.dst);
      assert rival != row;
      SharedIdLosesCredit(s'.db, rival, row);
      assert HasRow(s'.db, rival.shard, Queued(rival.id, s'.db[rival.shard].outbox[rival.id].event)) by {
        assert rival in Rows(s'.db);
      }
      assert !NoApplyChangesSettled(s'.db);
    }
  }

  // Of two rows that share id and target, applying the first destroys the second one's credit.
  lemma SharedIdLosesCredit(db: Shards, first: RowKey, second: RowKey)
    requires first in Rows(db) && second in Rows(db) && first != second && first.id == second.id
    requires var ev := db[first.shard].outbox[first.id].event;
             ev.target == db[second.shard].outbox[second.id].event.target
             && Deliverable(db, Queued(first.id, ev)) && first.id !in db[ev.target].applied
    requires forall r :: r in Rivals(db, first.id, db[first.shard].outbox[first.id].event.target) ==>
               r == first || r == second
    ensures var lost := db[second.shard].outbox[second.id].event;
            var after := Apply(db, Queued(first.id, db[first.shard].outbox[first.id].event));
            Settled(after, lost.tenant) == Settled(db, lost.tenant) - lost.cents
  {
    var ev, lost := db[first.shard].outbox[first.id].event, db[second.shard].outbox[second.id].event;
    var tenant := lost.tenant;
    var owed := r => Owed(db, r, tenant);
    ApplySettles(db, Queued(first.id, ev), tenant);
    var rivals := Rivals(db, first.id, ev.target);
    assert rivals == {first, second};
    SumRemove(rivals, owed, first);
    SumRemove(rivals - {first}, owed, second);
    assert rivals - {first} - {second} == {};
  }
}

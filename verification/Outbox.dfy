/**
 The outbox money transfer: `Outbox.Transfer`, `Outbox.RelayOnce` and `replayLast`.

 A shard is a value holding its three tables. Each transaction is a function on one shard's tables;
 the class below runs those transactions the way the program does, with every server answer chosen
 by the environment.
 */
module Outbox {
  import opened Common
  import opened Sums

  type ShardId = int
  type Tenant = int
  type EventId = int

  /** The payload of an outbox row together with its target shard. */
  datatype Event = Event(target: ShardId, tenant: Tenant, cents: int, from: Tenant)

  datatype OutboxRow = OutboxRow(event: Event, delivered: bool)

  datatype Tables = Tables(
    ledger: map<Tenant, int>,
    outbox: map<EventId, OutboxRow>,
    applied: set<EventId>)

  type Shards = map<ShardId, Tables>

  /** An outbox row as the relay holds it in memory. */
  datatype Queued = Queued(id: EventId, event: Event)

  function Balance(t: Tables, tenant: Tenant): int {
    if tenant in t.ledger then t.ledger[tenant] else 0
  }

  // ---- the transactions ----

  /** The guarded UPDATE matches a row and does not overflow `bigint`. */
  predicate CanDebit(t: Tables, from: Tenant, cents: int) {
    from in t.ledger && t.ledger[from] >= cents && FitsInt64(t.ledger[from] - cents)
  }

  /** Debit and outbox row in one transaction; None is a rolled-back transaction. */
  function TransferTx(t: Tables, id: EventId, ev: Event): Option<Tables> {
    if !CanDebit(t, ev.from, ev.cents) || id in t.outbox then None
    else Some(t.(ledger := t.ledger[ev.from := t.ledger[ev.from] - ev.cents],
                 outbox := t.outbox[id := OutboxRow(ev, false)]))
  }

  /** Insert into `applied`, and only if that inserted a row credit the tenant. */
  function ApplyTx(t: Tables, id: EventId, ev: Event): Option<Tables> {
    if id in t.applied then Some(t)
    else
      var credited := Balance(t, ev.tenant) + ev.cents;
      if !FitsInt64(credited) then None
      else Some(t.(applied := t.applied + {id}, ledger := t.ledger[ev.tenant := credited]))
  }

  function SetDelivered(t: Tables, id: EventId, delivered: bool): Tables {
    if id in t.outbox then t.(outbox := t.outbox[id := t.outbox[id].(delivered := delivered)]) else t
  }

  function Pending(t: Tables): set<EventId> {
    set id | id in t.outbox && !t.outbox[id].delivered
  }

  /** The relay's SELECT: the lowest `batch` pending ids, ascending. */
  function Batch(t: Tables, batch: nat): (evs: seq<Queued>)
    ensures |evs| == if |Pending(t)| <= batch then |Pending(t)| else batch
    ensures forall k :: 0 <= k < |evs| ==> evs[k].id in Pending(t) && evs[k].event == t.outbox[evs[k].id].event
  {
    var ids := Ascending(Pending(t));
    assert forall k :: 0 <= k < |ids| ==> ids[k] in ids;
    seq(if |ids| <= batch then |ids| else batch,
        k requires 0 <= k < |ids| => Queued(ids[k], t.outbox[ids[k]].event))
  }

  // The batch is ascending and skips no pending id below one it contains.
  lemma BatchIsLowest(t: Tables, batch: nat)
    ensures var evs := Batch(t, batch);
            && (forall j, k :: 0 <= j < k < |evs| ==> evs[j].id < evs[k].id)
            && (forall id, k :: id in Pending(t) && 0 <= k < |evs| && id < evs[k].id ==> id in Ids(evs))
  {
    var pending := Pending(t);
    forall id, k | id in pending && 0 <= k < |Batch(t, batch)| && id < Batch(t, batch)[k].id
      ensures id in Ids(Batch(t, batch))
    {
      NoneSkipped(t, batch, id, k);
    }
  }

  lemma NoneSkipped(t: Tables, batch: nat, id: EventId, k: nat)
    requires id in Pending(t) && k < |Batch(t, batch)| && id < Batch(t, batch)[k].id
    ensures id in Ids(Batch(t, batch))
  {
    var evs, ids := Batch(t, batch), Ascending(Pending(t));
    assert id in ids;
    var j :| 0 <= j < |ids| && ids[j] == id;
    assert j < k && evs[j].id == id;
  }

  function Ids(evs: seq<Queued>): (r: set<EventId>)
    ensures forall k :: 0 <= k < |evs| ==> evs[k].id in r
    ensures forall id :: id in r ==> exists k :: 0 <= k < |evs| && evs[k].id == id
  {
    if evs == [] then {} else Ids(evs[..|evs| - 1]) + {evs[|evs| - 1].id}
  }

  // ---- delivery ----

  /** The target has a pool and its transaction goes through. */
  predicate Deliverable(db: Shards, q: Queued) {
    q.event.target in db && ApplyTx(db[q.event.target], q.id, q.event).Some?
  }

  function Apply(db: Shards, q: Queued): Shards {
    if Deliverable(db, q) then
      db[q.event.target := ApplyTx(db[q.event.target], q.id, q.event).value]
    else db
  }

  function Mark(db: Shards, src: ShardId, id: EventId): Shards {
    if src in db then db[src := SetDelivered(db[src], id, true)] else db
  }

  function Deliver(db: Shards, src: ShardId, q: Queued): Shards {
    Mark(Apply(db, q), src, q.id)
  }

  /** The state after the first n events of a batch are delivered in order. */
  function DeliverAll(db: Shards, src: ShardId, evs: seq<Queued>, n: nat): Shards
    requires n <= |evs|
  {
    if n == 0 then db else Deliver(DeliverAll(db, src, evs, n - 1), src, evs[n - 1])
  }

  /** None of the first n deliveries is refused by its target. */
  predicate AllDeliverable(db: Shards, src: ShardId, evs: seq<Queued>, n: nat)
    requires n <= |evs|
  {
    n == 0 || (AllDeliverable(db, src, evs, n - 1) && Deliverable(DeliverAll(db, src, evs, n - 1), evs[n - 1]))
  }

  lemma {:induction false} AllDeliverableAt(db: Shards, src: ShardId, evs: seq<Queued>, n: nat, k: nat)
    requires k < n <= |evs|
    requires AllDeliverable(db, src, evs, n)
    ensures Deliverable(DeliverAll(db, src, evs, k), evs[k])
    decreases n
  {
    if k < n - 1 {
      AllDeliverableAt(db, src, evs, n - 1, k);
    }
  }

  /**
   The relay stopped at event k of its batch: the first k are delivered in id order, and event k is
   untouched, applied but not marked, or applied and marked.
   */
  predicate StoppedAt(before: Shards, src: ShardId, evs: seq<Queued>, k: nat, after: Shards) {
    k < |evs| && AllDeliverable(before, src, evs, k) &&
    var reached := DeliverAll(before, src, evs, k);
    (after == reached ||
     (Deliverable(reached, evs[k]) && (after == Apply(reached, evs[k]) || after == Deliver(reached, src, evs[k]))))
  }

  /** What the two transactions of one delivery leave behind, by their fates; a lost answer stops it, too. */
  function AfterDelivery(db: Shards, src: ShardId, q: Queued, apply: Fate, mark: Fate): Shards {
    if !Deliverable(db, q) || apply.Fails? then db
    else if apply.CommitsUnacknowledged? || mark.Fails? then Apply(db, q)
    else Deliver(db, src, q)
  }

  // ---- one delivery in plain numbers ----

  /** The credited row: the amount is added, to nothing if the tenant had no row. */
  ghost predicate CreditedTo(before: map<Tenant, int>, after: map<Tenant, int>, tenant: Tenant, cents: int) {
    && after.Keys == before.Keys + {tenant}
    && after[tenant] == (if tenant in before then before[tenant] else 0) + cents
    && forall t :: t in before && t != tenant ==> after[t] == before[t]
  }

  /** The event was applied before, or its credit fits a `bigint`. */
  ghost predicate CanPay(t: Tables, q: Queued) {
    q.id in t.applied ||
    -0x8000_0000_0000_0000 <= (if q.event.tenant in t.ledger then t.ledger[q.event.tenant] else 0) + q.event.cents
      <= 0x7fff_ffff_ffff_ffff
  }

  // Applying an event credits its tenant and notes the id, or does nothing if the id was noted before; it
  // fails only for a missing target or a credit out of range. No other shard and no outbox is touched.
  lemma ApplyIsPlain(db: Shards, q: Queued)
    ensures Deliverable(db, q) <==> q.event.target in db && CanPay(db[q.event.target], q)
    ensures Apply(db, q).Keys == db.Keys
    ensures forall s :: s in db && s != q.event.target ==> Apply(db, q)[s] == db[s]
    ensures q.event.target in db ==> Apply(db, q)[q.event.target].outbox == db[q.event.target].outbox
    ensures Deliverable(db, q) && q.id in db[q.event.target].applied ==> Apply(db, q)[q.event.target] == db[q.event.target]
    ensures Deliverable(db, q) && q.id !in db[q.event.target].applied ==>
              && Apply(db, q)[q.event.target].applied == db[q.event.target].applied + {q.id}
              && CreditedTo(db[q.event.target].ledger, Apply(db, q)[q.event.target].ledger, q.event.tenant, q.event.cents)
  {
  }

  // Marking sets the one row's delivered flag and nothing else.
  lemma MarkIsPlain(db: Shards, src: ShardId, id: EventId)
    requires src in db
    ensures var after := Mark(db, src, id);
            && after.Keys == db.Keys && (forall s :: s in db && s != src ==> after[s] == db[s])
            && after[src].ledger == db[src].ledger && after[src].applied == db[src].applied
            && after[src].outbox.Keys == db[src].outbox.Keys
            && (id in db[src].outbox ==> after[src].outbox[id] == OutboxRow(db[src].outbox[id].event, true))
            && forall k :: k in db[src].outbox && k != id ==> after[src].outbox[k] == db[src].outbox[k]
  {
  }

  /** The pass delivered its whole batch, or its first k events, with event k where its own fates put it. */
  ghost predicate PassEnds(before: Shards, src: ShardId, evs: seq<Queued>, k: nat, applies: nat -> Fate, marks: nat -> Fate,
                           ok: bool, after: Shards) {
    && k <= |evs| && AllDeliverable(before, src, evs, k)
    && var reached := DeliverAll(before, src, evs, k);
       if ok then k == |evs| && after == reached
       else
         && k < |evs| && after == AfterDelivery(reached, src, evs[k], applies(k), marks(k))
         && !(Deliverable(reached, evs[k]) && applies(k).Commits? && marks(k).Commits?)
  }

  lemma PassEndsStopped(before: Shards, src: ShardId, evs: seq<Queued>, k: nat, applies: nat -> Fate, marks: nat -> Fate, after: Shards)
    requires PassEnds(before, src, evs, k, applies, marks, false, after)
    ensures StoppedAt(before, src, evs, k, after)
    ensures !AllDeliverable(before, src, evs, |evs|) || !applies(k).Commits? || !marks(k).Commits?
  {
    if AllDeliverable(before, src, evs, |evs|) {
      AllDeliverableAt(before, src, evs, |evs|, k);
    }
  }

  class Store {
    var db: Shards

    constructor (db: Shards)
      ensures this.db == db
    {
      this.db := db;
    }

    /** `src` and `dst` are the read routes of the two tenants when the call starts. */
    method Transfer(id: EventId, src: ShardId, dst: ShardId, from: Tenant, to: Tenant, cents: int, fate: Fate)
      returns (ok: bool)
      modifies this
      ensures db == old(db) ||
              (src in old(db) && TransferTx(old(db)[src], id, Event(dst, to, cents, from)).Some? &&
               db == old(db)[src := TransferTx(old(db)[src], id, Event(dst, to, cents, from)).value])
      ensures ok || db != old(db) ==>
                && src in old(db) && from in old(db)[src].ledger && old(db)[src].ledger[from] >= cents
                && id !in old(db)[src].outbox
                && db == old(db)[src := Tables(
                     old(db)[src].ledger[from := old(db)[src].ledger[from] - cents],
                     old(db)[src].outbox[id := OutboxRow(Event(dst, to, cents, from), false)],
                     old(db)[src].applied)]
      ensures src in old(db) && from in old(db)[src].ledger && old(db)[src].ledger[from] >= cents
              && -0x8000_0000_0000_0000 <= old(db)[src].ledger[from] - cents <= 0x7fff_ffff_ffff_ffff
              && id !in old(db)[src].outbox ==>
                (ok <==> fate.Commits?) && (db == old(db) <==> fate.Fails?)
    {
      if src !in db {
        return false;
      }
      var committed := TransferTx(db[src], id, Event(dst, to, cents, from));
      if committed.None? || fate.Fails? {
        return false;
      }
      db := db[src := committed.value];
      return fate.Commits?;
    }

    /** The loop body of the relay: apply on the target, then mark on the source. */
    method DeliverOne(src: ShardId, q: Queued, apply: Fate, mark: Fate) returns (done: bool)
      requires src in db
      modifies this
      ensures src in db
      ensures done ==> Deliverable(old(db), q) && db == Deliver(old(db), src, q)
      ensures db == AfterDelivery(old(db), src, q, apply, mark)
      ensures done <==> Deliverable(old(db), q) && apply.Commits? && mark.Commits?
    {
      if q.event.target !in db {
        return false;
      }
      var applied := ApplyTx(db[q.event.target], q.id, q.event);
      if applied.None? || apply.Fails? {
        return false;
      }
      db := db[q.event.target := applied.value];
      if apply.CommitsUnacknowledged? || mark.Fails? {
        return false;
      }
      db := db[src := SetDelivered(db[src], q.id, true)];
      return mark.Commits?;
    }

    /** The loop of the relay; `applies` and `marks` give the fates of the k-th event's two transactions. */
    method DeliverBatch(src: ShardId, evs: seq<Queued>, applies: nat -> Fate, marks: nat -> Fate) returns (delivered: nat, ok: bool)
      requires src in db
      modifies this
      ensures PassEnds(old(db), src, evs, delivered, applies, marks, ok, db)
    {
      delivered, ok := 0, false;
      while delivered < |evs|
        invariant delivered <= |evs| && src in db
        invariant db == DeliverAll(old(db), src, evs, delivered) && AllDeliverable(old(db), src, evs, delivered)
      {
        var done := DeliverOne(src, evs[delivered], applies(delivered), marks(delivered));
        if !done {
          return;
        }
        delivered := delivered + 1;
      }
      ok := true;
    }

    /** One pass of the relay; `read` is false when the SELECT fails. */
    method RelayOnce(src: ShardId, batch: int, read: bool, applies: nat -> Fate, marks: nat -> Fate)
      returns (delivered: nat, ok: bool)
      modifies this
      ensures !read || src !in old(db) || batch < 0 ==> !ok && delivered == 0 && db == old(db)
      ensures read && src in old(db) && batch >= 0 ==>
                PassEnds(old(db), src, Batch(old(db)[src], batch), delivered, applies, marks, ok, db)
      ensures read && src in old(db) && batch >= 0 && !ok ==> StoppedAt(old(db), src, Batch(old(db)[src], batch), delivered, db)
      ensures read && src in old(db) && batch >= 0 && AllDeliverable(old(db), src, Batch(old(db)[src], batch), |Batch(old(db)[src], batch)|) ==>
                ok || !applies(delivered).Commits? || !marks(delivered).Commits?
    {
      if src !in db || batch < 0 || !read {
        return 0, false;
      }
      ghost var before := db;
      var evs := Batch(db[src], batch);
      delivered, ok := DeliverBatch(src, evs, applies, marks);
      if !ok {
        PassEndsStopped(before, src, evs, delivered, applies, marks, db);
      }
    }
  }
}

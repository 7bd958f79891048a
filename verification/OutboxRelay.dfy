/** What a single relay pass achieves, and how passes drain an outbox. */
module OutboxRelay {
  import opened Sums
  import opened Outbox
  import opened OutboxProtocol

  ghost predicate Queueable(db: Shards, src: ShardId, evs: seq<Queued>) {
    && src in db && UniqueAtTarget(db) && DeliveredIsApplied(db)
    && forall k :: 0 <= k < |evs| ==> HasRow(db, src, evs[k])
  }

  lemma BatchQueueable(db: Shards, src: ShardId, batch: nat)
    requires src in db && UniqueAtTarget(db) && DeliveredIsApplied(db)
    ensures Queueable(db, src, Batch(db[src], batch))
  {
    var evs := Batch(db[src], batch);
    forall k | 0 <= k < |evs|
      ensures HasRow(db, src, evs[k])
    {
      assert evs[k].id in Pending(db[src]);
    }
  }

  // Applying an event twice, in any later state, is the same as applying it once.
  lemma ApplyIdempotent(db: Shards, q: Queued)
    requires Deliverable(db, q)
    ensures Credited(Apply(db, q), q.id, q.event)
    ensures forall later: Shards :: Grows(Apply(db, q), later) ==> Apply(later, q) == later
  {
    forall later: Shards | Grows(Apply(db, q), later)
      ensures Apply(later, q) == later
    {
      assert Apply(db, q)[q.event.target].applied <= later[q.event.target].applied;
    }
  }

  // One delivery: one row of the source becomes delivered, and it is applied at its target.
  lemma DeliverEffect(db: Shards, src: ShardId, q: Queued, after: Shards)
    requires Queueable(db, src, [q]) && Deliverable(db, q) && after == Deliver(db, src, q)
    ensures Grows(db, after) && UniqueAtTarget(after) && DeliveredIsApplied(after)
    ensures Credited(after, q.id, q.event)
    ensures src in after && Pending(after[src]) == Pending(db[src]) - {q.id}
  {
    assert HasRow(db, src, [q][0]);
    var applied := Apply(db, q);
    assert Rows(applied) == Rows(db);
    assert Rows(after) == Rows(db);
    forall r | r in Rows(after) && after[r.shard].outbox[r.id].delivered
      ensures Credited(after, r.id, after[r.shard].outbox[r.id].event)
    {
      assert after[r.shard].outbox[r.id].event == db[r.shard].outbox[r.id].event;
      if r != RowKey(src, q.id) {
        assert db[r.shard].outbox[r.id].delivered;
      }
    }
  }

  // One delivery moves no settled balance.
  lemma DeliverSettles(db: Shards, src: ShardId, q: Queued, t: Tenant)
    requires Queueable(db, src, [q]) && Deliverable(db, q)
    ensures Settled(Apply(db, q), t) == Settled(db, t)
    ensures Settled(Deliver(db, src, q), t) == Settled(db, t)
  {
    assert HasRow(db, src, [q][0]);
    ApplyOfQueuedRow(db, src, q, t);
    MarkSettles(Apply(db, q), src, q.id, true, t);
  }

  // The first n deliveries of a batch keep what later deliveries need.
  lemma {:induction false} DeliverAllKeeps(db: Shards, src: ShardId, evs: seq<Queued>, n: nat, after: Shards)
    requires n <= |evs| && Queueable(db, src, evs) && AllDeliverable(db, src, evs, n) && after == DeliverAll(db, src, evs, n)
    ensures Grows(db, after) && UniqueAtTarget(after) && DeliveredIsApplied(after)
    decreases n
  {
    if n > 0 {
      var mid := DeliverAll(db, src, evs, n - 1);
      DeliverAllKeeps(db, src, evs, n - 1, mid);
      NextIsQueueable(db, src, evs, n - 1, mid);
      DeliverEffect(mid, src, evs[n - 1], after);
    }
  }

  // Every one of them is applied at its target.
  lemma {:induction false} DeliverAllApplies(db: Shards, src: ShardId, evs: seq<Queued>, n: nat, k: nat, after: Shards)
    requires k < n <= |evs| && Queueable(db, src, evs) && AllDeliverable(db, src, evs, n) && after == DeliverAll(db, src, evs, n)
    ensures Credited(after, evs[k].id, evs[k].event)
    decreases n
  {
    var mid := DeliverAll(db, src, evs, n - 1);
    DeliverAllKeeps(db, src, evs, n - 1, mid);
    NextIsQueueable(db, src, evs, n - 1, mid);
    DeliverEffect(mid, src, evs[n - 1], after);
    if k < n - 1 {
      DeliverAllApplies(db, src, evs, n - 1, k, mid);
      assert mid[evs[k].event.target].applied <= after[evs[k].event.target].applied;
    }
  }

  // The first n deliveries of a batch mark exactly those n rows delivered.
  lemma {:induction false} DeliverAllEffect(db: Shards, src: ShardId, evs: seq<Queued>, n: nat, after: Shards)
    requires n <= |evs| && Queueable(db, src, evs) && AllDeliverable(db, src, evs, n) && after == DeliverAll(db, src, evs, n)
    ensures src in after && Pending(after[src]) == Pending(db[src]) - Ids(evs[..n])
    decreases n
  {
    if n > 0 {
      var mid := DeliverAll(db, src, evs, n - 1);
      DeliverAllEffect(db, src, evs, n - 1, mid);
      DeliverAllKeeps(db, src, evs, n - 1, mid);
      NextIsQueueable(db, src, evs, n - 1, mid);
      DeliverEffect(mid, src, evs[n - 1], after);
      IdsNext(evs, n);
      MinusBoth(Pending(db[src]), Ids(evs[..n - 1]), evs[n - 1].id, Ids(evs[..n]));
    }
  }

  lemma MinusBoth(p: set<EventId>, done: set<EventId>, id: EventId, next: set<EventId>)
    requires next == done + {id}
    ensures p - done - {id} == p - next
  {
  }

  lemma NextIsQueueable(db: Shards, src: ShardId, evs: seq<Queued>, k: nat, mid: Shards)
    requires k < |evs| && Queueable(db, src, evs) && Grows(db, mid) && UniqueAtTarget(mid) && DeliveredIsApplied(mid)
    ensures Queueable(mid, src, [evs[k]])
  {
    assert HasRow(db, src, evs[k]);
  }

  // However many events of a batch are delivered, no settled balance moves.
  lemma {:induction false} DeliverAllSettles(db: Shards, src: ShardId, evs: seq<Queued>, n: nat, t: Tenant)
    requires n <= |evs| && Queueable(db, src, evs) && AllDeliverable(db, src, evs, n)
    ensures Settled(DeliverAll(db, src, evs, n), t) == Settled(db, t)
    decreases n
  {
    if n > 0 {
      var mid := DeliverAll(db, src, evs, n - 1);
      DeliverAllSettles(db, src, evs, n - 1, t);
      DeliverAllKeeps(db, src, evs, n - 1, mid);
      NextIsQueueable(db, src, evs, n - 1, mid);
      DeliverSettles(mid, src, evs[n - 1], t);
    }
  }

  lemma IdsNext(evs: seq<Queued>, n: nat)
    requires 0 < n <= |evs|
    ensures Ids(evs[..n]) == Ids(evs[..n - 1]) + {evs[n - 1].id}
  {
    assert evs[..n][..n - 1] == evs[..n - 1];
  }

  ghost function PendingAt(db: Shards, src: ShardId): set<EventId> {
    if src in db then Pending(db[src]) else {}
  }

  // A pass that stops at event k: the k rows before it are delivered, the rows after it still pending.
  lemma StoppedPassEffect(db: Shards, src: ShardId, evs: seq<Queued>, k: nat, after: Shards)
    requires Queueable(db, src, evs) && StoppedAt(db, src, evs, k, after)
    ensures PendingAt(after, src) == PendingAt(db, src) - Ids(evs[..k])
            || PendingAt(after, src) == PendingAt(db, src) - Ids(evs[..k + 1])
  {
    var reached, q := DeliverAll(db, src, evs, k), evs[k];
    DeliverAllEffect(db, src, evs, k, reached);
    if after != reached {
      StopIsLate(db, src, evs, k, reached, after);
      IdsNext(evs, k + 1);
      MinusBoth(PendingAt(db, src), Ids(evs[..k]), q.id, Ids(evs[..k + 1]));
    }
  }

  lemma StopIsLate(db: Shards, src: ShardId, evs: seq<Queued>, k: nat, reached: Shards, after: Shards)
    requires Queueable(db, src, evs) && StoppedAt(db, src, evs, k, after) && reached == DeliverAll(db, src, evs, k)
    requires after != reached
    ensures PendingAt(after, src) == PendingAt(reached, src)
            || PendingAt(after, src) == PendingAt(reached, src) - {evs[k].id}
  {
    DeliverAllKeeps(db, src, evs, k, reached);
    NextIsQueueable(db, src, evs, k, reached);
    StoppedLate(reached, src, evs[k], after);
  }

  // A pass that stops half way, even between the apply and the mark, moves no settled balance.
  lemma StoppedPassSettles(db: Shards, src: ShardId, evs: seq<Queued>, k: nat, after: Shards, t: Tenant)
    requires Queueable(db, src, evs) && StoppedAt(db, src, evs, k, after)
    ensures Settled(after, t) == Settled(db, t)
  {
    var reached := DeliverAll(db, src, evs, k);
    DeliverAllSettles(db, src, evs, k, t);
    if after != reached {
      DeliverAllKeeps(db, src, evs, k, reached);
      NextIsQueueable(db, src, evs, k, reached);
      DeliverSettles(reached, src, evs[k], t);
    }
  }

  lemma StoppedLate(reached: Shards, src: ShardId, q: Queued, after: Shards)
    requires Queueable(reached, src, [q]) && Deliverable(reached, q)
    requires after == Apply(reached, q) || after == Deliver(reached, src, q)
    ensures PendingAt(after, src) == PendingAt(reached, src)
            || PendingAt(after, src) == PendingAt(reached, src) - {q.id}
  {
    assert HasRow(reached, src, [q][0]);
    if after == Apply(reached, q) {
      assert after[src].outbox == reached[src].outbox;
    } else {
      DeliverEffect(reached, src, q, after);
    }
  }

  // ---- draining ----

  lemma {:induction false} AscendingIdsCount(evs: seq<Queued>, n: nat)
    requires n <= |evs| && forall j, k :: 0 <= j < k < |evs| ==> evs[j].id < evs[k].id
    ensures |Ids(evs[..n])| == n
    decreases n
  {
    if n == 0 {
      assert Ids(evs[..0]) == {};
    } else {
      AscendingIdsCount(evs, n - 1);
      IdsNext(evs, n);
      NotYet(evs, evs[..n - 1]);
    }
  }

  lemma NotYet(evs: seq<Queued>, front: seq<Queued>)
    requires |front| < |evs| && front == evs[..|front|]
    requires forall j, k :: 0 <= j < k < |evs| ==> evs[j].id < evs[k].id
    ensures evs[|front|].id !in Ids(front)
  {
    assert forall k :: 0 <= k < |front| ==> front[k].id < evs[|front|].id;
  }

  function Pass(db: Shards, src: ShardId, batch: nat): Shards
    requires src in db
  {
    DeliverAll(db, src, Batch(db[src], batch), |Batch(db[src], batch)|)
  }

  ghost predicate ErrorFree(db: Shards, src: ShardId, batch: nat)
    requires src in db
  {
    AllDeliverable(db, src, Batch(db[src], batch), |Batch(db[src], batch)|)
  }

  lemma PassEffect(db: Shards, src: ShardId, batch: nat, after: Shards)
    requires src in db && UniqueAtTarget(db) && DeliveredIsApplied(db)
    requires ErrorFree(db, src, batch) && after == Pass(db, src, batch)
    ensures src in after && UniqueAtTarget(after) && DeliveredIsApplied(after)
    ensures var ids := Ids(Batch(db[src], batch));
            && ids <= PendingAt(db, src) && PendingAt(after, src) == PendingAt(db, src) - ids
            && |ids| == |Batch(db[src], batch)|
  {
    var evs := Batch(db[src], batch);
    BatchQueueable(db, src, batch);
    DeliverAllKeeps(db, src, evs, |evs|, after);
    DeliverAllEffect(db, src, evs, |evs|, after);
    BatchIsLowest(db[src], batch);
    AscendingIdsCount(evs, |evs|);
    assert evs[..|evs|] == evs;
  }

  lemma PassSettles(db: Shards, src: ShardId, batch: nat, t: Tenant)
    requires src in db && UniqueAtTarget(db) && DeliveredIsApplied(db) && ErrorFree(db, src, batch)
    ensures Settled(Pass(db, src, batch), t) == Settled(db, t)
  {
    var evs := Batch(db[src], batch);
    BatchQueueable(db, src, batch);
    DeliverAllSettles(db, src, evs, |evs|, t);
  }

  // One error-free pass delivers exactly the lowest min(batch, pending) ids and nothing else.
  lemma PassDeliversLowest(db: Shards, src: ShardId, batch: nat)
    requires src in db && UniqueAtTarget(db) && DeliveredIsApplied(db) && ErrorFree(db, src, batch)
    ensures var before, after := PendingAt(db, src), PendingAt(Pass(db, src, batch), src);
            && after <= before
            && |before - after| == (if |before| <= batch then |before| else batch)
            && (forall done, left :: done in before - after && left in after ==> done < left)
  {
    PassEffect(db, src, batch, Pass(db, src, batch));
    BatchIsLowest(db[src], batch);
    var evs := Batch(db[src], batch);
    var before, after := PendingAt(db, src), PendingAt(Pass(db, src, batch), src);
    assert before - after == Ids(evs);
    forall done, left | done in before - after && left in after
      ensures done < left
    {
      var k :| 0 <= k < |evs| && evs[k].id == done;
      assert left != done && left !in Ids(evs);
    }
  }

  /** A chain of error-free passes with no transfers in between. */
  ghost predicate Passes(states: seq<Shards>, src: ShardId, batch: nat) {
    && states != []
    && (forall i :: 0 <= i < |states| ==> src in states[i])
    && forall i, j :: 0 <= i < j < |states| && j == i + 1 ==>
         ErrorFree(states[i], src, batch) && states[j] == Pass(states[i], src, batch)
  }

  lemma {:induction false} PassesKeep(states: seq<Shards>, src: ShardId, batch: nat, n: nat)
    requires Passes(states, src, batch) && n < |states|
    requires UniqueAtTarget(states[0]) && DeliveredIsApplied(states[0])
    ensures UniqueAtTarget(states[n]) && DeliveredIsApplied(states[n])
    decreases n
  {
    if n > 0 {
      PassesKeep(states, src, batch, n - 1);
      PassEffect(states[n - 1], src, batch, states[n]);
    }
  }

  // Counts that each drop by a batch, down to zero.
  lemma {:induction false} CountsDrop(counts: seq<nat>, batch: nat, n: nat)
    requires n < |counts|
    requires forall i, j :: 0 <= i < j < |counts| && j == i + 1 ==>
               counts[j] == if counts[i] <= batch then 0 else counts[i] - batch
    ensures counts[n] == if n * batch >= counts[0] then 0 else counts[0] - n * batch
    decreases n
  {
    if n > 0 {
      CountsDrop(counts, batch, n - 1);
      OneBatchLess(counts[0], counts[n - 1], n, batch);
    }
  }

  lemma OneBatchLess(first: nat, before: nat, n: nat, batch: nat)
    requires n > 0 && before == if (n - 1) * batch >= first then 0 else first - (n - 1) * batch
    ensures (if before <= batch then 0 else before - batch) == if n * batch >= first then 0 else first - n * batch
  {
    assert n * batch == (n - 1) * batch + batch;
  }

  lemma OnePassCount(states: seq<Shards>, src: ShardId, batch: nat, n: nat)
    requires Passes(states, src, batch) && 0 < n < |states|
    requires UniqueAtTarget(states[0]) && DeliveredIsApplied(states[0])
    ensures |PendingAt(states[n], src)| ==
            if |PendingAt(states[n - 1], src)| <= batch then 0 else |PendingAt(states[n - 1], src)| - batch
  {
    PassesKeep(states, src, batch, n - 1);
    PassCount(states[n - 1], src, batch, states[n]);
  }

  lemma PassCount(db: Shards, src: ShardId, batch: nat, after: Shards)
    requires src in db && UniqueAtTarget(db) && DeliveredIsApplied(db)
    requires ErrorFree(db, src, batch) && after == Pass(db, src, batch)
    ensures |PendingAt(after, src)| == if |PendingAt(db, src)| <= batch then 0 else |PendingAt(db, src)| - batch
  {
    PassEffect(db, src, batch, after);
    var ids, before := Ids(Batch(db[src], batch)), PendingAt(db, src);
    assert before == (before - ids) + ids;
  }

  // After n error-free passes n * batch rows are gone, so the outbox drains.
  lemma PassesDrain(states: seq<Shards>, src: ShardId, batch: nat, n: nat)
    requires Passes(states, src, batch) && n < |states|
    requires UniqueAtTarget(states[0]) && DeliveredIsApplied(states[0])
    ensures |PendingAt(states[n], src)| ==
            if n * batch >= |PendingAt(states[0], src)| then 0 else |PendingAt(states[0], src)| - n * batch
  {
    var counts := seq(|states|, i requires 0 <= i < |states| => |PendingAt(states[i], src)|);
    forall i, j | 0 <= i < j < |counts| && j == i + 1
      ensures counts[j] == if counts[i] <= batch then 0 else counts[i] - batch
    {
      OnePassCount(states, src, batch, j);
    }
    CountsDrop(counts, batch, n);
  }

  // It drains without moving a settled balance.
  lemma {:induction false} PassesSettle(states: seq<Shards>, src: ShardId, batch: nat, n: nat, t: Tenant)
    requires Passes(states, src, batch) && n < |states|
    requires UniqueAtTarget(states[0]) && DeliveredIsApplied(states[0])
    ensures Settled(states[n], t) == Settled(states[0], t)
    decreases n
  {
    if n > 0 {
      PassesSettle(states, src, batch, n - 1, t);
      OnePassSettles(states, src, batch, n, t);
    }
  }

  lemma OnePassSettles(states: seq<Shards>, src: ShardId, batch: nat, n: nat, t: Tenant)
    requires Passes(states, src, batch) && 0 < n < |states|
    requires UniqueAtTarget(states[0]) && DeliveredIsApplied(states[0])
    ensures Settled(states[n], t) == Settled(states[n - 1], t)
  {
    PassesKeep(states, src, batch, n - 1);
    assert states[n] == Pass(states[n - 1], src, batch);
    PassSettles(states[n - 1], src, batch, t);
  }

  // ---- replaying ----

  /** `replayLast`'s UPDATE. */
  function Clear(db: Shards, src: ShardId, id: EventId): Shards {
    if src in db then db[src := SetDelivered(db[src], id, false)] else db
  }

  // Clearing one row's mark commutes with delivering another row.
  lemma ClearCommutes(db: Shards, src: ShardId, id: EventId, q: Queued)
    requires src in db && q.id != id
    ensures Deliverable(Clear(db, src, id), q) <==> Deliverable(db, q)
    ensures Deliver(Clear(db, src, id), src, q) == Clear(Deliver(db, src, q), src, id)
  {
    ClearThenApply(db, src, id, q);
    ClearThenMark(Apply(db, q), src, id, q.id);
  }

  lemma ClearThenApply(db: Shards, src: ShardId, id: EventId, q: Queued)
    requires src in db
    ensures Deliverable(Clear(db, src, id), q) <==> Deliverable(db, q)
    ensures Apply(Clear(db, src, id), q) == Clear(Apply(db, q), src, id)
  {
  }

  lemma ClearThenMark(db: Shards, src: ShardId, id: EventId, other: EventId)
    requires src in db && other != id
    ensures Mark(Clear(db, src, id), src, other) == Clear(Mark(db, src, other), src, id)
  {
    var t := db[src];
    assert SetDelivered(SetDelivered(t, id, false), other, true) == SetDelivered(SetDelivered(t, other, true), id, false);
  }

  /** The row of id is delivered and its event applied, as at the moment of the replay. */
  ghost predicate Settles(db: Shards, src: ShardId, id: EventId, row: OutboxRow) {
    && src in db && id in db[src].outbox && db[src].outbox[id] == row && row.delivered
    && Credited(db, id, row.event)
  }

  lemma DeliverOther(db: Shards, src: ShardId, id: EventId, row: OutboxRow, q: Queued)
    requires Settles(db, src, id, row) && q.id != id
    ensures Settles(Deliver(db, src, q), src, id, row)
  {
  }

  // Delivering the replayed row again puts the mark back and changes nothing else.
  lemma RedeliverRestores(db: Shards, src: ShardId, id: EventId, row: OutboxRow)
    requires Settles(db, src, id, row)
    ensures Deliverable(Clear(db, src, id), Queued(id, row.event))
    ensures Deliver(Clear(db, src, id), src, Queued(id, row.event)) == db
  {
    var cleared := Clear(db, src, id);
    assert Apply(cleared, Queued(id, row.event)) == cleared;
    assert SetDelivered(SetDelivered(db[src], id, false), id, true) == db[src] by {
      assert SetDelivered(SetDelivered(db[src], id, false), id, true).outbox == db[src].outbox;
    }
    assert Mark(cleared, src, id) == db;
  }

  // Up to the replayed row, the two passes run in step, one with the mark cleared.
  lemma {:induction false} InStep(db: Shards, src: ShardId, evs: seq<Queued>, id: EventId, row: OutboxRow, n: nat)
    requires n <= |evs| && Settles(db, src, id, row) && forall k :: 0 <= k < |evs| ==> evs[k].id != id
    ensures Settles(DeliverAll(db, src, evs, n), src, id, row)
    ensures DeliverAll(Clear(db, src, id), src, evs, n) == Clear(DeliverAll(db, src, evs, n), src, id)
    ensures AllDeliverable(Clear(db, src, id), src, evs, n) <==> AllDeliverable(db, src, evs, n)
    decreases n
  {
    if n > 0 {
      InStep(db, src, evs, id, row, n - 1);
      var mid := DeliverAll(db, src, evs, n - 1);
      ClearCommutes(mid, src, id, evs[n - 1]);
      DeliverOther(mid, src, id, row, evs[n - 1]);
    }
  }

  // What a pass does depends on its first n events only.
  lemma {:induction false} SamePrefix(db: Shards, src: ShardId, a: seq<Queued>, b: seq<Queued>, n: nat)
    requires n <= |a| && n <= |b| && a[..n] == b[..n]
    ensures DeliverAll(db, src, a, n) == DeliverAll(db, src, b, n)
    ensures AllDeliverable(db, src, a, n) <==> AllDeliverable(db, src, b, n)
    decreases n
  {
    if n > 0 {
      assert a[n - 1] == a[..n][n - 1] == b[..n][n - 1] == b[n - 1];
      assert a[..n - 1] == a[..n][..n - 1] == b[..n][..n - 1] == b[..n - 1];
      SamePrefix(db, src, a, b, n - 1);
    }
  }

  /** evs with the replayed row back at position p. */
  function WithRow(evs: seq<Queued>, p: nat, q: Queued): seq<Queued>
    requires p <= |evs|
  {
    evs[..p] + [q] + evs[p..]
  }

  // From the replayed row on, the pass is one event behind and otherwise the same.
  lemma {:induction false} CatchesUp(db: Shards, src: ShardId, evs: seq<Queued>, id: EventId, row: OutboxRow, p: nat, n: nat)
    requires p <= n <= |evs| && Settles(db, src, id, row) && forall k :: 0 <= k < |evs| ==> evs[k].id != id
    ensures var more := WithRow(evs, p, Queued(id, row.event));
            && DeliverAll(Clear(db, src, id), src, more, n + 1) == DeliverAll(db, src, evs, n)
            && (AllDeliverable(Clear(db, src, id), src, more, n + 1) <==> AllDeliverable(db, src, evs, n))
    decreases n
  {
    var q := Queued(id, row.event);
    var more := WithRow(evs, p, q);
    if n == p {
      assert more[..p] == evs[..p] && more[p] == q;
      SamePrefix(Clear(db, src, id), src, more, evs, p);
      InStep(db, src, evs, id, row, p);
      RedeliverRestores(DeliverAll(db, src, evs, p), src, id, row);
    } else {
      CatchesUp(db, src, evs, id, row, p, n - 1);
      assert more[n] == evs[n - 1];
    }
  }

  ghost predicate QueuesOf(t: Tables, ids: seq<EventId>, evs: seq<Queued>) {
    && |evs| == |ids|
    && (forall k :: 0 <= k < |ids| ==> ids[k] in t.outbox)
    && (forall k :: 0 <= k < |ids| ==> evs[k] == Queued(ids[k], t.outbox[ids[k]].event))
  }

  lemma BatchOfAll(t: Tables, batch: nat, ids: seq<EventId>, evs: seq<Queued>)
    requires batch >= |Pending(t)| && ids == Ascending(Pending(t)) && evs == Batch(t, batch)
    ensures QueuesOf(t, ids, evs)
  {
    assert forall k :: 0 <= k < |ids| ==> ids[k] in ids;
  }

  lemma PendingAfterClear(t: Tables, id: EventId)
    requires id in t.outbox && t.outbox[id].delivered
    ensures id !in Pending(t) && Pending(SetDelivered(t, id, false)) == Pending(t) + {id}
    ensures |Pending(SetDelivered(t, id, false))| == |Pending(t)| + 1
  {
    assert Pending(SetDelivered(t, id, false)) == Pending(t) + {id};
  }

  lemma QueuesWithRow(t: Tables, u: Tables, a: seq<EventId>, b: seq<EventId>, queues: seq<Queued>, more: seq<Queued>, p: nat, id: EventId)
    requires QueuesOf(t, a, queues) && QueuesOf(u, b, more) && p <= |a| && b == a[..p] + [id] + a[p..]
    requires forall i :: i in u.outbox ==> i in t.outbox && t.outbox[i].event == u.outbox[i].event
    ensures id in t.outbox && more == WithRow(queues, p, Queued(id, t.outbox[id].event))
  {
    var q := Queued(id, u.outbox[b[p]].event);
    forall k | 0 <= k < |more|
      ensures more[k] == WithRow(queues, p, q)[k]
    {
      if k < p {
        assert b[k] == a[k];
      } else if k > p {
        assert b[k] == a[k - 1];
      }
    }
  }

  lemma QueuesAvoid(t: Tables, ids: seq<EventId>, evs: seq<Queued>, id: EventId)
    requires QueuesOf(t, ids, evs) && id !in ids
    ensures forall k :: 0 <= k < |evs| ==> evs[k].id != id
  {
    assert forall k :: 0 <= k < |ids| ==> ids[k] in ids;
  }

  // The batch after the replay is the batch before it with the row put back in its place.
  lemma ReplayedBatch(t: Tables, u: Tables, id: EventId, batch: nat, evs: seq<Queued>, more: seq<Queued>) returns (p: nat)
    requires id in t.outbox && t.outbox[id].delivered && batch > |Pending(t)| && u == SetDelivered(t, id, false)
    requires evs == Batch(t, batch) && more == Batch(u, batch)
    ensures p <= |evs| && more == WithRow(evs, p, Queued(id, t.outbox[id].event))
    ensures forall k :: 0 <= k < |evs| ==> evs[k].id != id
  {
    PendingAfterClear(t, id);
    var a, b := Ascending(Pending(t)), Ascending(Pending(u));
    p := InsertAscending(Pending(t), id);
    BatchOfAll(t, batch, a, evs);
    BatchOfAll(u, batch, b, more);
    WithRowBack(t, u, id, a, b, evs, more, p);
  }

  lemma WithRowBack(t: Tables, u: Tables, id: EventId, a: seq<EventId>, b: seq<EventId>, evs: seq<Queued>, more: seq<Queued>, p: nat)
    requires id in t.outbox && u == SetDelivered(t, id, false) && QueuesOf(t, a, evs) && QueuesOf(u, b, more)
    requires id !in a && p <= |a| && b == a[..p] + [id] + a[p..]
    ensures p <= |evs| && more == WithRow(evs, p, Queued(id, t.outbox[id].event))
    ensures forall k :: 0 <= k < |evs| ==> evs[k].id != id
  {
    QueuesWithRow(t, u, a, b, evs, more, p, id);
    QueuesAvoid(t, a, evs, id);
  }

  lemma DeliveredSettles(db: Shards, src: ShardId, id: EventId)
    requires src in db && DeliveredIsApplied(db) && id in db[src].outbox && db[src].outbox[id].delivered
    ensures Settles(db, src, id, db[src].outbox[id])
  {
    assert RowKey(src, id) in Rows(db);
  }

  lemma ReplayOfDelivered(db: Shards, src: ShardId, id: EventId, row: OutboxRow, batch: nat)
    requires Settles(db, src, id, row) && batch > |Pending(db[src])|
    ensures ErrorFree(db, src, batch) ==> ErrorFree(Clear(db, src, id), src, batch)
    ensures Pass(Clear(db, src, id), src, batch) == Pass(db, src, batch)
  {
    var cleared := Clear(db, src, id);
    var evs, more := Batch(db[src], batch), Batch(cleared[src], batch);
    var p := ReplayedBatch(db[src], cleared[src], id, batch, evs, more);
    PassWithRow(db, src, id, row, evs, more, p);
  }

  lemma PassWithRow(db: Shards, src: ShardId, id: EventId, row: OutboxRow, evs: seq<Queued>, more: seq<Queued>, p: nat)
    requires Settles(db, src, id, row) && p <= |evs| && more == WithRow(evs, p, Queued(id, row.event))
    requires forall k :: 0 <= k < |evs| ==> evs[k].id != id
    ensures DeliverAll(Clear(db, src, id), src, more, |more|) == DeliverAll(db, src, evs, |evs|)
    ensures AllDeliverable(Clear(db, src, id), src, more, |more|) <==> AllDeliverable(db, src, evs, |evs|)
  {
    CatchesUp(db, src, evs, id, row, p, |evs|);
  }

  // `replayLast`: clearing the mark of a row and relaying with a batch that reaches every pending row
  // leaves every table on every shard as the same pass without the replay would have left it, whatever
  // else is pending.
  lemma ReplayChangesNothing(db: Shards, src: ShardId, id: EventId, batch: nat)
    requires src in db && DeliveredIsApplied(db) && batch > |Pending(db[src])|
    requires id in db[src].outbox && ErrorFree(db, src, batch)
    ensures ErrorFree(Clear(db, src, id), src, batch)
    ensures Pass(Clear(db, src, id), src, batch) == Pass(db, src, batch)
  {
    if db[src].outbox[id].delivered {
      DeliveredSettles(db, src, id);
      ReplayOfDelivered(db, src, id, db[src].outbox[id], batch);
    } else {
      assert SetDelivered(db[src], id, false) == db[src] by {
        assert SetDelivered(db[src], id, false).outbox == db[src].outbox;
      }
      assert Clear(db, src, id) == db;
    }
  }

  // With nothing else pending it gives back the very tables it started from.
  lemma ReplayRestoresEverything(db: Shards, src: ShardId, id: EventId, batch: nat)
    requires src in db && DeliveredIsApplied(db) && batch >= 1
    requires id in db[src].outbox && Pending(db[src]) == {}
    ensures ErrorFree(Clear(db, src, id), src, batch) && Pass(Clear(db, src, id), src, batch) == db
  {
    assert Batch(db[src], batch) == [];
    assert AllDeliverable(db, src, [], 0) && DeliverAll(db, src, [], 0) == db;
    ReplayChangesNothing(db, src, id, batch);
  }

  // ---- the relay's code and the protocol's steps ----

  lemma RunOn(states: seq<System>, steps: seq<Step>, step: Step, t: System)
    requires Run(states, steps) && Next(states[|steps|], step, t) && !step.Transfer?
    ensures Run(states + [t], steps + [step])
    ensures (states + [t])[0] == states[0] && (states + [t])[|steps| + 1] == t
  {
    var all, moves := states + [t], steps + [step];
    forall i | 0 <= i < |moves|
      ensures Next(all[i], moves[i], all[i + 1]) && FreshIds(all[i], moves[i])
    {
      if i < |steps| {
        assert all[i] == states[i] && all[i + 1] == states[i + 1] && moves[i] == steps[i];
      }
    }
  }

  // What the relay's loop has done after n events is what a run of the protocol does: one read, then apply
  // and mark for each of them. So every theorem about runs speaks of the relay that the program runs.
  lemma PassIsARun(s: System, r: RelayId, src: ShardId, batch: nat, evs: seq<Queued>, n: nat)
    returns (states: seq<System>, steps: seq<Step>)
    requires src in s.db && (r in s.relays ==> s.relays[r].Idle?) && evs == Batch(s.db[src], batch)
    requires n <= |evs| && AllDeliverable(s.db, src, evs, n)
    ensures Run(states, steps) && states[0] == s
    ensures states[|steps|] == System(DeliverAll(s.db, src, evs, n), s.relays[r := Busy(src, evs[n..], false)])
  {
    states, steps := FromRead(s, Read(r, src, batch), s.(relays := s.relays[r := Busy(src, evs, false)]), r, src, evs, n);
  }

  lemma FromRead(s: System, step: Step, read: System, r: RelayId, src: ShardId, evs: seq<Queued>, n: nat)
    returns (states: seq<System>, steps: seq<Step>)
    requires Next(s, step, read) && !step.Transfer? && read == System(s.db, s.relays[r := Busy(src, evs, false)])
    requires n <= |evs| && AllDeliverable(s.db, src, evs, n)
    ensures Run(states, steps) && states[0] == s
    ensures states[|steps|] == System(DeliverAll(s.db, src, evs, n), s.relays[r := Busy(src, evs[n..], false)])
  {
    states, steps := EventsFollow([s, read], [step], read, r, src, evs, n);
    assert read.relays[r := Busy(src, evs[n..], false)] == s.relays[r := Busy(src, evs[n..], false)];
  }

  lemma {:induction false} EventsFollow(states: seq<System>, steps: seq<Step>, s: System, r: RelayId, src: ShardId, evs: seq<Queued>, n: nat)
    returns (longer: seq<System>, moves: seq<Step>)
    requires Run(states, steps) && states[|steps|] == s && r in s.relays && s.relays[r] == Busy(src, evs, false)
    requires n <= |evs| && AllDeliverable(s.db, src, evs, n)
    ensures Run(longer, moves) && longer[0] == states[0]
    ensures longer[|moves|] == System(DeliverAll(s.db, src, evs, n), s.relays[r := Busy(src, evs[n..], false)])
    decreases n
  {
    if n == 0 {
      longer, moves := states, steps;
      assert evs[0..] == evs;
      assert s.relays[r := Busy(src, evs, false)] == s.relays;
    } else {
      longer, moves := EventsFollow(states, steps, s, r, src, evs, n - 1);
      var mid := longer[|moves|];
      longer, moves := OneEventMore(longer, moves, r, src, evs, n - 1);
      assert mid.relays[r := Busy(src, evs[n..], false)] == s.relays[r := Busy(src, evs[n..], false)];
    }
  }

  lemma OneEventMore(states: seq<System>, steps: seq<Step>, r: RelayId, src: ShardId, evs: seq<Queued>, k: nat)
    returns (longer: seq<System>, moves: seq<Step>)
    requires Run(states, steps) && k < |evs| && Deliverable(states[|steps|].db, evs[k])
    requires r in states[|steps|].relays && states[|steps|].relays[r] == Busy(src, evs[k..], false)
    ensures Run(longer, moves) && longer[0] == states[0]
    ensures var s := states[|steps|];
            longer[|moves|] == System(Deliver(s.db, src, evs[k]), s.relays[r := Busy(src, evs[k + 1..], false)])
  {
    var s := states[|steps|];
    var applied := System(Apply(s.db, evs[k]), s.relays[r := Busy(src, evs[k..], true)]);
    var marked := System(Mark(Apply(s.db, evs[k]), src, evs[k].id), s.relays[r := Busy(src, evs[k + 1..], false)]);
    HeadSteps(s, applied, marked, r, src, evs, k);
    RunOn(states, steps, ApplyHead(r), applied);
    RunOn(states + [applied], steps + [ApplyHead(r)], MarkHead(r), marked);
    longer, moves := states + [applied] + [marked], steps + [ApplyHead(r)] + [MarkHead(r)];
  }

  lemma HeadSteps(s: System, applied: System, marked: System, r: RelayId, src: ShardId, evs: seq<Queued>, k: nat)
    requires k < |evs| && r in s.relays && s.relays[r] == Busy(src, evs[k..], false) && Deliverable(s.db, evs[k])
    requires applied == System(Apply(s.db, evs[k]), s.relays[r := Busy(src, evs[k..], true)])
    requires marked == System(Mark(Apply(s.db, evs[k]), src, evs[k].id), s.relays[r := Busy(src, evs[k + 1..], false)])
    ensures Next(s, ApplyHead(r), applied) && Next(applied, MarkHead(r), marked)
  {
    assert evs[k..][0] == evs[k] && evs[k..][1..] == evs[k + 1..];
    assert marked.relays == applied.relays[r := Busy(src, evs[k + 1..], false)];
  }
}

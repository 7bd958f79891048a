/** What the order operations promise about placement: which rows `Misplaced` can ever count. */
module OrderAudit {
  import opened Hash
  import opened Sums
  import opened Directory
  import opened Orders

  predicate NoWindow(d: Placement, tenant: Word)
    requires WellFormed(d)
  {
    RouteWrite(d, tenant) == [RouteRead(d, tenant)]
  }

  // ---- Insert ----

  // An insert outside a window leaves no row where its tenant is not read, whatever the servers answer.
  lemma InsertKeepsPlaced(before: Tables, after: Tables, d: Placement, o: NewOrder, replies: seq<Reply>, r: Outcome)
    requires WellFormed(d) && |replies| >= 2 && InsertStep(before, after, d, o, replies, r)
    requires AllPlaced(before, d) && NoWindow(d, o.tenant)
    ensures AllPlaced(after, d)
  {
    var w := RouteWrite(d, o.tenant);
    forall s, id | s in after && id in after[s]
      ensures Placed(d, s, after[s][id])
    {
      if s == w[0] && after != before {
        assert after[w[0]] == AfterReply(before[w[0]], o, Logical(d, o.tenant), replies[0]);
      }
    }
  }

  datatype InsertCall = InsertCall(o: NewOrder, replies: seq<Reply>, outcome: Outcome)

  ghost predicate InsertRun(states: seq<Tables>, calls: seq<InsertCall>, d: Placement)
    requires WellFormed(d)
  {
    && |states| == |calls| + 1
    && (forall i :: 0 <= i < |calls| ==> |calls[i].replies| >= 2)
    && (forall i :: 0 <= i < |calls| ==>
          InsertStep(states[i], states[i + 1], d, calls[i].o, calls[i].replies, calls[i].outcome))
  }

  // With no window open and the map unchanged, no run of inserts misplaces a row.
  lemma {:induction false} RunsKeepPlaced(states: seq<Tables>, calls: seq<InsertCall>, d: Placement)
    requires WellFormed(d) && InsertRun(states, calls, d) && AllPlaced(states[0], d)
    requires forall i :: 0 <= i < |calls| ==> NoWindow(d, calls[i].o.tenant)
    ensures AllPlaced(states[|calls|], d)
    decreases |calls|
  {
    if calls != [] {
      var n := |calls| - 1;
      RunsKeepPlaced(states[..n + 1], calls[..n], d);
      InsertKeepsPlaced(states[n], states[n + 1], d, calls[n].o, calls[n].replies, calls[n].outcome);
    }
  }

  // An acknowledged order with a new id is misplaced nowhere exactly when it was not dual-written.
  lemma MisplacedIffDualWritten(before: Tables, after: Tables, d: Placement, o: NewOrder, replies: seq<Reply>)
    requires WellFormed(d) && |replies| >= 2 && InsertStep(before, after, d, o, replies, Acknowledged)
    requires AllPlaced(before, d) && forall s :: s in before ==> o.id !in before[s]
    ensures AllPlaced(after, d) <==> NoWindow(d, o.tenant)
  {
    var w := RouteWrite(d, o.tenant);
    if |w| == 1 {
      InsertKeepsPlaced(before, after, d, o, replies, Acknowledged);
    } else {
      assert after[w[1]] == AfterReply(before[w[1]], o, Logical(d, o.tenant), replies[1]);
      assert o.id in after[w[1]] && !Placed(d, w[1], after[w[1]][o.id]);
    }
  }

  // A client that retries until it is acknowledged ends with one row of that id on every write shard;
  // rows an earlier attempt left there are not touched again.
  lemma RetryConverges(start: Tables, mid: Tables, end: Tables, d: Placement, o: NewOrder,
                       first: seq<Reply>, r: Outcome, second: seq<Reply>)
    requires WellFormed(d) && |first| >= 2 && |second| >= 2
    requires InsertStep(start, mid, d, o, first, r) && InsertStep(mid, end, d, o, second, Acknowledged)
    ensures forall s :: s in RouteWrite(d, o.tenant) ==> s in end && o.id in end[s]
    ensures forall s, id :: s in mid && id in mid[s] ==> id in end[s] && end[s][id] == mid[s][id]
    ensures forall s, id :: s in start && id in start[s] ==> id in end[s] && end[s][id] == start[s][id]
  {
    StepKeepsRows(start, mid, d, o, first, r);
    StepKeepsRows(mid, end, d, o, second, Acknowledged);
    var w := RouteWrite(d, o.tenant);
    forall i | 0 <= i < |w|
      ensures w[i] in end && o.id in end[w[i]]
    {
      assert end[w[i]] == AfterReply(mid[w[i]], o, Logical(d, o.tenant), second[i]);
    }
  }

  lemma StepKeepsRows(before: Tables, after: Tables, d: Placement, o: NewOrder, replies: seq<Reply>, r: Outcome)
    requires WellFormed(d) && |replies| >= 2 && InsertStep(before, after, d, o, replies, r)
    ensures after.Keys == before.Keys
    ensures forall s, id :: s in before && id in before[s] ==> id in after[s] && after[s][id] == before[s][id]
  {
    var w := RouteWrite(d, o.tenant);
    forall s, id | s in before && id in before[s]
      ensures id in after[s] && after[s][id] == before[s][id]
    {
      if s in w && !r.NoPool? {
        var i :| 0 <= i < |w| && w[i] == s;
        assert after[w[i]] == if Reached(replies, i) then AfterReply(before[w[i]], o, Logical(d, o.tenant), replies[i]) else before[w[i]];
      }
    }
  }

  // Whatever the stream delivered, a shard without misplaced rows is reported as zero; and a stream cut
  // short before the wrong tenants reports zero for a shard that has some.
  lemma TruncatedAuditReportsZero(t: Table, d: Placement, s: int, delivered: set<Word>)
    requires WellFormed(d)
    ensures MisplacedIds(t, d, s) == {} ==> |SeenIds(t, d, s, delivered)| == 0
    ensures (forall id :: id in t && !Placed(d, s, t[id]) ==> t[id].tenant !in delivered) ==> |SeenIds(t, d, s, delivered)| == 0
  {
    if MisplacedIds(t, d, s) == {} {
      forall id | id in SeenIds(t, d, s, delivered)
        ensures id in MisplacedIds(t, d, s)
      {
      }
    }
    assert (forall id :: id in t && !Placed(d, s, t[id]) ==> t[id].tenant !in delivered) ==> SeenIds(t, d, s, delivered) == {};
  }

  // One row of tenant 9 on shard 1, where it is not read, and a listing that ended before its tenant.
  lemma MissedByTheAudit(row: OrderRow)
    requires row.tenant == 9
    ensures var d, t := Placement(1, [0], map[], map[]), map[5 := row];
            |MisplacedIds(t, d, 1)| == 1 && |SeenIds(t, d, 1, {})| == 0 && !AuditFails(t, d, 1, Delivered({}), false)
  {
    var d, t := Placement(1, [0], map[], map[]), map[5 := row];
    assert RouteRead(d, 9) == 0;
    assert MisplacedIds(t, d, 1) == {5};
    assert SeenIds(t, d, 1, {}) == {};
  }

  // The shard a tenant is read from is the head of its write set, so an acknowledged order is found there,
  // whatever window is open.
  lemma ReadsOwnWrites(before: Tables, after: Tables, d: Placement, o: NewOrder, replies: seq<Reply>)
    requires WellFormed(d) && |replies| >= 2 && InsertStep(before, after, d, o, replies, Acknowledged)
    ensures RouteRead(d, o.tenant) == RouteWrite(d, o.tenant)[0]
    ensures RouteRead(d, o.tenant) in after && o.id in after[RouteRead(d, o.tenant)]
    ensures o.id !in before[RouteRead(d, o.tenant)] ==>
              HasColumns(after[RouteRead(d, o.tenant)][o.id], o.tenant, Key(o.tenant) % |d.owners|, replies[0].now, o.cents, o.state)
  {
    var w := RouteWrite(d, o.tenant);
    assert after[w[0]] == AfterReply(before[w[0]], o, Logical(d, o.tenant), replies[0]);
  }

  // The two copies of a dual-written order agree in everything but created_at, which each shard reads
  // from its own clock.
  lemma DualCopiesAgreeIffClocksDo(before: Tables, after: Tables, d: Placement, o: NewOrder, replies: seq<Reply>)
    requires WellFormed(d) && |replies| >= 2 && InsertStep(before, after, d, o, replies, Acknowledged)
    requires !NoWindow(d, o.tenant) && forall s :: s in before ==> o.id !in before[s]
    ensures var w := RouteWrite(d, o.tenant);
            && |w| == 2 && w[0] in after && w[1] in after && o.id in after[w[0]] && o.id in after[w[1]]
            && after[w[0]][o.id].(createdAt := 0) == after[w[1]][o.id].(createdAt := 0)
            && (after[w[0]][o.id] == after[w[1]][o.id] <==> replies[0].now == replies[1].now)
  {
    var w := RouteWrite(d, o.tenant);
    assert after[w[0]] == AfterReply(before[w[0]], o, Logical(d, o.tenant), replies[0]);
    assert after[w[1]] == AfterReply(before[w[1]], o, Logical(d, o.tenant), replies[1]);
  }

  // After the cutover of one logical shard the audit reports exactly the rows of its unpinned tenants
  // still at the source, and no longer reports their copies at the target.
  lemma CutoverMisplacesExactly(d: Placement, l: int, target: int, s: int, o: OrderRow)
    requires WellFormed(d) && 0 <= l < |d.owners|
    ensures var done := Apply(Apply(d, BeginMove(l, target)), Commit(l));
            && WellFormed(done)
            && (Placed(d, s, o) ==> (Placed(done, s, o) <==> !Moves(d, l, target, o.tenant)))
            && (Moves(d, l, target, o.tenant) ==> (Placed(done, s, o) <==> s == target))
  {
    MoveChangesExactly(d, l, target, o.tenant);
  }

  // ---- Seed ----

  function TotalRows(perTenant: int, upto: nat): nat
    requires upto <= MAX_TENANT
  {
    if upto == 0 then 0 else TotalRows(perTenant, upto - 1) + RowsFor(perTenant, upto)
  }

  ghost function BucketRows(b: BucketMap): int {
    Sum(b.Keys, s => |In(b, s)|)
  }

  lemma {:induction false} RowsOfShape(tenant: Word, logical: int, n: nat, draw: (Word, nat) -> Drawn)
    ensures |RowsOf(tenant, logical, n, draw)| == n
    ensures forall i :: 0 <= i < n ==> RowsOf(tenant, logical, n, draw)[i] == SeedRow(tenant, logical, draw(tenant, i))
  {
    if n > 0 {
      RowsOfShape(tenant, logical, n - 1, draw);
    }
  }

  ghost predicate BucketsPlaced(b: BucketMap, d: Placement)
    requires WellFormed(d)
  {
    forall s, k :: s in b && 0 <= k < |b[s]| ==> Placed(d, s, b[s][k])
  }

  // Every seeded row is bucketed at its tenant's read shard.
  lemma {:induction false} SeedBucketsPlaced(d: Placement, upto: nat, perTenant: int, draw: (Word, nat) -> Drawn)
    requires WellFormed(d) && upto <= MAX_TENANT
    ensures BucketsPlaced(Buckets(d, upto, perTenant, draw), d)
    decreases upto
  {
    if upto > 0 {
      SeedBucketsPlaced(d, upto - 1, perTenant, draw);
      RowsOfShape(upto, Logical(d, upto), RowsFor(perTenant, upto), draw);
    }
  }

  // No row is lost or doubled by bucketing.
  lemma {:induction false} SeedBucketsCount(d: Placement, upto: nat, perTenant: int, draw: (Word, nat) -> Drawn)
    requires WellFormed(d) && upto <= MAX_TENANT
    ensures BucketRows(Buckets(d, upto, perTenant, draw)) == TotalRows(perTenant, upto)
    decreases upto
  {
    if upto > 0 {
      SeedBucketsCount(d, upto - 1, perTenant, draw);
      AddRowsCounts(Buckets(d, upto - 1, perTenant, draw), RouteRead(d, upto), upto, Logical(d, upto), RowsFor(perTenant, upto), draw);
    }
  }

  lemma AddRowsCounts(b: BucketMap, target: int, tenant: Word, logical: int, n: nat, draw: (Word, nat) -> Drawn)
    ensures BucketRows(AddRows(b, target, tenant, logical, n, draw)) == BucketRows(b) + n
  {
    RowsOfShape(tenant, logical, n, draw);
    if n > 0 {
      AppendCounts(b, target, RowsOf(tenant, logical, n, draw));
    }
  }

  lemma AppendCounts(b: BucketMap, s: int, rows: seq<OrderRow>)
    ensures BucketRows(b[s := In(b, s) + rows]) == BucketRows(b) + |rows|
  {
    var c := b[s := In(b, s) + rows];
    if s in b {
      assert c.Keys == b.Keys;
      SumChange(b.Keys, s => |In(b, s)|, s => |In(c, s)|, s);
    } else {
      assert c.Keys == b.Keys + {s};
      SumAdd(b.Keys, s => |In(c, s)|, s);
      SumAgree(b.Keys, s => |In(b, s)|, s => |In(c, s)|);
    }
  }

  // Seeding, even one that stops half way, misplaces nothing: on an empty cluster the audit stays at
  // zero everywhere.
  lemma SeedKeepsPlaced(before: Tables, after: Tables, d: Placement, tenants: nat, perTenant: int,
                        draw: (Word, nat) -> Drawn, ids: (int, nat) -> int, ok: bool)
    requires WellFormed(d) && tenants <= MAX_TENANT && AllPlaced(before, d)
    requires Seeded(before, after, Buckets(d, tenants, perTenant, draw), ids, ok)
    ensures AllPlaced(after, d)
  {
    var b := Buckets(d, tenants, perTenant, draw);
    SeedBucketsPlaced(d, tenants, perTenant, draw);
    forall s, id | s in after && id in after[s]
      ensures Placed(d, s, after[s][id])
    {
      if after[s] != before[s] && !(id in before[s] && after[s][id] == before[s][id]) {
        assert after[s][id] in b[s];
      }
    }
  }

  // Every bucket holds at least one row, so a COPY that ran without being answered always leaves the
  // reported total short.
  lemma {:induction false} SeedBucketsNotEmpty(d: Placement, upto: nat, perTenant: int, draw: (Word, nat) -> Drawn, s: int)
    requires WellFormed(d) && upto <= MAX_TENANT && s in Buckets(d, upto, perTenant, draw)
    ensures |Buckets(d, upto, perTenant, draw)[s]| > 0
    decreases upto
  {
    RowsOfShape(upto, Logical(d, upto), RowsFor(perTenant, upto), draw);
    if s in Buckets(d, upto - 1, perTenant, draw) {
      SeedBucketsNotEmpty(d, upto - 1, perTenant, draw, s);
    }
  }

  // What a failed seed reports is at most what it added, and equal if and only if the failing COPY left
  // its shard as it was.
  lemma SeedTotalShortIff(before: Tables, after: Tables, d: Placement, tenants: nat, perTenant: int,
                          draw: (Word, nat) -> Drawn, total: nat, s: int)
    requires WellFormed(d) && tenants <= MAX_TENANT && s in Buckets(d, tenants, perTenant, draw) && after.Keys == before.Keys
    requires RowCount(after) == RowCount(before) + total + Unreported(before, after, Buckets(d, tenants, perTenant, draw), s)
    ensures total <= RowCount(after) - RowCount(before)
    ensures total == RowCount(after) - RowCount(before) <==> s !in before || after[s] == before[s]
  {
    SeedBucketsNotEmpty(d, tenants, perTenant, draw, s);
  }

  // ---- what the buckets hold ----

  /** One tenant's rows, in order. */
  function RowsBy(rows: seq<OrderRow>, tenant: Word): seq<OrderRow> {
    if rows == [] then []
    else RowsBy(rows[..|rows| - 1], tenant) + (if rows[|rows| - 1].tenant == tenant then [rows[|rows| - 1]] else [])
  }

  lemma {:induction false} RowsByJoin(a: seq<OrderRow>, b: seq<OrderRow>, tenant: Word)
    ensures RowsBy(a + b, tenant) == RowsBy(a, tenant) + RowsBy(b, tenant)
    decreases |b|
  {
    if b == [] {
      assert a + b == a;
    } else {
      var n := |b| - 1;
      RowsByJoin(a, b[..n], tenant);
      assert (a + b)[..|a + b| - 1] == a + b[..n];
    }
  }

  lemma {:induction false} RowsByOne(rows: seq<OrderRow>, owner: Word, tenant: Word)
    requires forall i :: 0 <= i < |rows| ==> rows[i].tenant == owner
    ensures RowsBy(rows, tenant) == if tenant == owner then rows else []
    decreases |rows|
  {
    if rows != [] {
      RowsByOne(rows[..|rows| - 1], owner, tenant);
      assert rows == rows[..|rows| - 1] + [rows[|rows| - 1]];
    }
  }

  /** The bucket of shard s holds exactly these n rows of the tenant, the values drawn for it in order. */
  ghost predicate HoldsRows(d: Placement, bucket: seq<OrderRow>, tenant: Word, n: int, draw: (Word, nat) -> Drawn)
    requires WellFormed(d)
  {
    var rows := RowsBy(bucket, tenant);
    && |rows| == n
    && forall k :: 0 <= k < n ==>
         HasColumns(rows[k], tenant, Key(tenant) % |d.owners|, draw(tenant, k).createdAt, draw(tenant, k).cents, draw(tenant, k).state)
  }

  /** Tenants 1 and 2 have twenty times the rows of the others. */
  function SeedCount(perTenant: int, tenants: nat, tenant: Word): int {
    if perTenant < 0 || tenant < 1 || tenant > tenants then 0
    else if tenant == 1 || tenant == 2 then 20 * perTenant
    else perTenant
  }

  // Tenant by tenant: the shard a tenant is read from gets all of its rows, and no other shard any.
  lemma {:induction false} SeedBucketsHold(d: Placement, upto: nat, perTenant: int, draw: (Word, nat) -> Drawn, tenant: Word, s: int)
    requires WellFormed(d) && upto <= MAX_TENANT
    ensures HoldsRows(d, In(Buckets(d, upto, perTenant, draw), s), tenant,
                      if RouteRead(d, tenant) == s then SeedCount(perTenant, upto, tenant) else 0, draw)
    decreases upto
  {
    if upto > 0 {
      SeedBucketsHold(d, upto - 1, perTenant, draw, tenant, s);
      TenantAdded(d, Buckets(d, upto - 1, perTenant, draw), upto, perTenant, draw, tenant, s);
    }
  }

  lemma TenantAdded(d: Placement, was: BucketMap, upto: nat, perTenant: int, draw: (Word, nat) -> Drawn, tenant: Word, s: int)
    requires WellFormed(d) && 0 < upto <= MAX_TENANT
    requires HoldsRows(d, In(was, s), tenant, if RouteRead(d, tenant) == s then SeedCount(perTenant, upto - 1, tenant) else 0, draw)
    ensures HoldsRows(d, In(AddRows(was, RouteRead(d, upto), upto, Logical(d, upto), RowsFor(perTenant, upto), draw), s), tenant,
                      if RouteRead(d, tenant) == s then SeedCount(perTenant, upto, tenant) else 0, draw)
  {
    var target, n := RouteRead(d, upto), RowsFor(perTenant, upto);
    var rows := RowsOf(upto, Logical(d, upto), n, draw);
    AddedTo(was, target, upto, Logical(d, upto), n, draw, s, rows);
    OneTenantMore(perTenant, upto, tenant);
    if s == target {
      RowsOfShape(upto, Logical(d, upto), n, draw);
      var held := if RouteRead(d, tenant) == s then SeedCount(perTenant, upto - 1, tenant) else 0;
      HoldsMore(d, In(was, s), rows, tenant, upto, held, draw);
    }
  }

  lemma OneTenantMore(perTenant: int, upto: nat, tenant: Word)
    requires 0 < upto <= MAX_TENANT
    ensures SeedCount(perTenant, upto, tenant) ==
            if tenant == upto then RowsFor(perTenant, upto) else SeedCount(perTenant, upto - 1, tenant)
    ensures SeedCount(perTenant, upto - 1, upto) == 0
  {
  }

  lemma HoldsMore(d: Placement, was: seq<OrderRow>, rows: seq<OrderRow>, tenant: Word, owner: Word, n: int, draw: (Word, nat) -> Drawn)
    requires WellFormed(d) && HoldsRows(d, was, tenant, n, draw) && (tenant == owner ==> n == 0)
    requires forall k :: 0 <= k < |rows| ==> rows[k] == SeedRow(owner, Key(owner) % |d.owners|, draw(owner, k))
    ensures HoldsRows(d, was + rows, tenant, if tenant == owner then |rows| else n, draw)
  {
    RowsByOne(rows, owner, tenant);
    RowsByJoin(was, rows, tenant);
    var before, after := RowsBy(was, tenant), RowsBy(was + rows, tenant);
    if tenant == owner {
      assert before == [] && after == rows;
    } else {
      assert after == before;
    }
  }

  lemma AddedTo(b: BucketMap, target: int, tenant: Word, logical: int, n: nat, draw: (Word, nat) -> Drawn, s: int, rows: seq<OrderRow>)
    requires rows == RowsOf(tenant, logical, n, draw)
    ensures In(AddRows(b, target, tenant, logical, n, draw), s) == if s == target then In(b, s) + rows else In(b, s)
  {
  }

  lemma {:induction false} TotalRowsIs(perTenant: nat, upto: nat)
    requires upto <= MAX_TENANT
    ensures TotalRows(perTenant, upto) == perTenant * (upto + 19 * (if upto < 2 then upto else 2))
    decreases upto
  {
    if upto > 0 {
      TotalRowsIs(perTenant, upto - 1);
      var was := upto - 1 + 19 * (if upto - 1 < 2 then upto - 1 else 2);
      var now := upto + 19 * (if upto < 2 then upto else 2);
      assert perTenant * now == perTenant * was + perTenant * (now - was);
    }
  }

  // A seed without an error loads every row of every tenant: twenty times as many for tenants 1 and 2.
  lemma SeedLoadsEverything(before: Tables, after: Tables, d: Placement, tenants: nat, perTenant: int,
                            draw: (Word, nat) -> Drawn, ids: (int, nat) -> int)
    requires WellFormed(d) && tenants <= MAX_TENANT
    requires Seeded(before, after, Buckets(d, tenants, perTenant, draw), ids, true)
    ensures RowCount(after) == RowCount(before) + TotalRows(perTenant, tenants)
    ensures perTenant >= 0 ==>
              RowCount(after) == RowCount(before) + perTenant * (tenants + 19 * (if tenants < 2 then tenants else 2))
  {
    if perTenant >= 0 {
      TotalRowsIs(perTenant, tenants);
    }
    SeedBucketsCount(d, tenants, perTenant, draw);
    SeededCounts(before, after, Buckets(d, tenants, perTenant, draw), ids);
  }

  lemma SeededCounts(before: Tables, after: Tables, b: BucketMap, ids: (int, nat) -> int)
    requires Seeded(before, after, b, ids, true)
    ensures RowCount(after) == RowCount(before) + BucketRows(b)
  {
    var was, now, add := s => if s in before then |before[s]| else 0, s => if s in after then |after[s]| else 0, s => |In(b, s)|;
    forall s | s in after
      ensures now(s) == was(s) + add(s)
    {
      CopiedCount(before[s], after[s], In(b, s), s, ids, s in b);
    }
    forall s: int | s in b.Keys
      ensures s in after.Keys
    {
    }
    assert b.Keys <= after.Keys;
    SumPlus(after.Keys, was, add, now);
    SumSplit(after.Keys, b.Keys, add);
    SumZero(after.Keys - b.Keys, add);
  }

  lemma CopiedCount(before: Table, after: Table, rows: seq<OrderRow>, s: int, ids: (int, nat) -> int, touched: bool)
    requires if touched then Copied(before, after, rows, s, ids) else after == before && rows == []
    ensures |after| == |before| + |rows|
  {
  }
}

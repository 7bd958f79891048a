/**
 The cluster state of one router and the order operations on it: pools, `SetTopology`, `Shards`,
 `ReadPool`, `WritePools`, `Insert`, `Seed`, `Misplaced`.

 A pool is the shard's `orders` table, keyed by the primary key. Every server answer is chosen by the
 environment: a statement may run or not run, and may run and still report an error.
 */
module Orders {
  import opened Common
  import opened Hash
  import opened Sums
  import opened Directory

  datatype OrderRow = OrderRow(tenant: Word, logical: int, createdAt: int, cents: int, state: string)

  type Table = map<int, OrderRow>

  type Tables = map<int, Table>

  datatype Reply =
    | Executed(now: int)
    | ErrorAfter(now: int)    // committed, but the answer was an error
    | ErrorBefore

  datatype Outcome = Acknowledged | NoPool(shard: int) | FailedOn(shard: int)

  /** INSERT .. ON CONFLICT (id) DO NOTHING. */
  function Put(t: Table, id: int, o: OrderRow): Table {
    if id in t then t else t[id := o]
  }

  /** The values of one order, before a shard stamps it with its own now(). */
  datatype NewOrder = NewOrder(id: int, tenant: Word, cents: int, state: string)

  function Stamp(o: NewOrder, logical: int, now: int): OrderRow {
    OrderRow(o.tenant, logical, now, o.cents, o.state)
  }

  predicate Ran(r: Reply) {
    !r.ErrorBefore?
  }

  /** One shard's table after its turn in the loop of `Insert`. */
  function AfterReply(t: Table, o: NewOrder, logical: int, r: Reply): Table {
    if Ran(r) then Put(t, o.id, Stamp(o, logical, r.now)) else t
  }

  predicate Reached(replies: seq<Reply>, i: nat)
    requires i <= |replies|
  {
    forall j :: 0 <= j < i ==> replies[j].Executed?
  }

  /** The write loop: each shard in turn, stopping at the first reported error. */
  ghost predicate Written(before: Tables, after: Tables, w: seq<int>, o: NewOrder, logical: int, replies: seq<Reply>)
    requires |replies| >= |w|
  {
    && after.Keys == before.Keys
    && (forall s :: s in before && s !in w ==> after[s] == before[s])
    && (forall i :: 0 <= i < |w| && w[i] in before ==>
          after[w[i]] == if Reached(replies, i) then AfterReply(before[w[i]], o, logical, replies[i]) else before[w[i]])
  }

  ghost predicate InAll(w: seq<int>, tables: Tables) {
    forall i :: 0 <= i < |w| ==> w[i] in tables
  }

  ghost function WriteFirst(before: Tables, w: seq<int>, o: NewOrder, logical: int, replies: seq<Reply>, n: nat): (r: Tables)
    requires |replies| >= |w| >= n && InAll(w, before)
    ensures r.Keys == before.Keys
  {
    if n == 0 then before
    else
      var t := WriteFirst(before, w, o, logical, replies, n - 1);
      t[w[n - 1] := AfterReply(t[w[n - 1]], o, logical, replies[n - 1])]
  }

  lemma WriteNext(before: Tables, w: seq<int>, o: NewOrder, logical: int, replies: seq<Reply>, n: nat)
    requires |replies| >= |w| > n && InAll(w, before)
    ensures var t := WriteFirst(before, w, o, logical, replies, n);
            WriteFirst(before, w, o, logical, replies, n + 1) == t[w[n] := AfterReply(t[w[n]], o, logical, replies[n])]
  {
  }

  lemma {:induction false} WriteFirstAt(before: Tables, w: seq<int>, o: NewOrder, logical: int, replies: seq<Reply>, n: nat, i: nat)
    requires |replies| >= |w| >= n && InAll(w, before) && Distinct(w) && i < |w|
    ensures WriteFirst(before, w, o, logical, replies, n)[w[i]] ==
            if i < n then AfterReply(before[w[i]], o, logical, replies[i]) else before[w[i]]
    decreases n
  {
    if n > 0 {
      WriteFirstAt(before, w, o, logical, replies, n - 1, i);
    }
  }

  lemma {:induction false} WriteFirstElsewhere(before: Tables, w: seq<int>, o: NewOrder, logical: int, replies: seq<Reply>, n: nat, s: int)
    requires |replies| >= |w| >= n && InAll(w, before) && s in before && s !in w
    ensures WriteFirst(before, w, o, logical, replies, n)[s] == before[s]
    decreases n
  {
    if n > 0 {
      WriteFirstElsewhere(before, w, o, logical, replies, n - 1, s);
      assert w[n - 1] in w;
    }
  }

  // Running the loop up to and including the first reply that is an error writes what `Written` says.
  lemma FirstAreWritten(before: Tables, w: seq<int>, o: NewOrder, logical: int, replies: seq<Reply>, n: nat)
    requires |replies| >= |w| >= n && InAll(w, before) && Distinct(w)
    requires (n == |w| && Reached(replies, n)) || (n > 0 && Reached(replies, n - 1) && !replies[n - 1].Executed?)
    ensures Written(before, WriteFirst(before, w, o, logical, replies, n), w, o, logical, replies)
  {
    forall i | 0 <= i < |w|
      ensures Reached(replies, i) <==> i < n
    {
      WriteFirstAt(before, w, o, logical, replies, n, i);
    }
    forall i | 0 <= i < |w| {
      WriteFirstAt(before, w, o, logical, replies, n, i);
    }
    forall s | s in before && s !in w {
      WriteFirstElsewhere(before, w, o, logical, replies, n, s);
    }
  }

  /** The loop of `Insert` over its pools: n statements were answered without an error. */
  method WriteInOrder(before: Tables, w: seq<int>, o: NewOrder, logical: int, replies: seq<Reply>)
    returns (tables: Tables, n: nat)
    requires |replies| >= |w| && Distinct(w) && InAll(w, before)
    ensures Written(before, tables, w, o, logical, replies)
    ensures n <= |w| && Reached(replies, n) && (n < |w| ==> !replies[n].Executed?)
  {
    n, tables := 0, before;
    while n < |w|
      invariant n <= |w| && Reached(replies, n)
      invariant tables == WriteFirst(before, w, o, logical, replies, n)
    {
      WriteNext(before, w, o, logical, replies, n);
      tables := tables[w[n] := AfterReply(tables[w[n]], o, logical, replies[n])];
      if !replies[n].Executed? {
        FirstAreWritten(before, w, o, logical, replies, n + 1);
        return;
      }
      n := n + 1;
    }
    FirstAreWritten(before, w, o, logical, replies, n);
  }

  predicate FirstMissing(w: seq<int>, tables: Tables, s: int) {
    exists i :: 0 <= i < |w| && w[i] == s && s !in tables && forall j :: 0 <= j < i ==> w[j] in tables
  }

  /** What one call of `Insert` may do: nothing when a pool is missing, else its write loop. */
  ghost predicate InsertStep(before: Tables, after: Tables, d: Placement, o: NewOrder, replies: seq<Reply>, r: Outcome)
    requires WellFormed(d) && |replies| >= 2
  {
    var w := RouteWrite(d, o.tenant);
    match r
    case NoPool(s) => FirstMissing(w, before, s) && after == before
    case Acknowledged =>
      InAll(w, before) && Written(before, after, w, o, Logical(d, o.tenant), replies) && Reached(replies, |w|)
    case FailedOn(s) =>
      && InAll(w, before)
      && Written(before, after, w, o, Logical(d, o.tenant), replies)
      && exists i :: 0 <= i < |w| && w[i] == s && Reached(replies, i) && !replies[i].Executed?
  }

  /** A stored order, column by column. */
  ghost predicate HasColumns(row: OrderRow, tenant: Word, logical: int, createdAt: int, cents: int, state: string) {
    row.tenant == tenant && row.logical == logical && row.createdAt == createdAt && row.cents == cents && row.state == state
  }

  /**
   The call kept every row there was, and each row it added holds the values sent, the tenant's hash modulo
   the number of logical shards, and the time of the shard it is on.
   */
  ghost predicate StoresOnly(before: Tables, after: Tables, d: Placement, o: NewOrder, replies: seq<Reply>)
    requires WellFormed(d) && |replies| >= 2
  {
    var w := RouteWrite(d, o.tenant);
    && after.Keys == before.Keys
    && (forall s, id :: s in before && id in before[s] ==> id in after[s] && after[s][id] == before[s][id])
    && (forall s, id :: s in after && id in after[s] && id !in before[s] ==> id == o.id && s in w)
    && (forall i :: 0 <= i < |w| && w[i] in after && o.id in after[w[i]] && o.id !in before[w[i]] ==>
          !replies[i].ErrorBefore? &&
          HasColumns(after[w[i]][o.id], o.tenant, Key(o.tenant) % |d.owners|, replies[i].now, o.cents, o.state))
  }

  /**
   With all its pools present the call leaves the order on every write shard it reached whose statement ran,
   answered or not; it reaches a shard while the ones before it answered without an error.
   */
  ghost predicate Reaches(before: Tables, after: Tables, d: Placement, o: NewOrder, replies: seq<Reply>)
    requires WellFormed(d) && |replies| >= 2
  {
    var w := RouteWrite(d, o.tenant);
    (forall s :: s in w ==> s in before) ==>
      after.Keys == before.Keys &&
      forall i :: 0 <= i < |w| ==>
        if (forall j :: 0 <= j < i ==> replies[j].Executed?) && !replies[i].ErrorBefore? then w[i] in after && o.id in after[w[i]]
        else w[i] in after && after[w[i]] == before[w[i]]
  }

  lemma StepReaches(before: Tables, after: Tables, d: Placement, o: NewOrder, replies: seq<Reply>, r: Outcome)
    requires WellFormed(d) && |replies| >= 2 && InsertStep(before, after, d, o, replies, r)
    ensures Reaches(before, after, d, o, replies)
  {
    var w := RouteWrite(d, o.tenant);
    if !r.NoPool? {
      forall i | 0 <= i < |w|
        ensures after[w[i]] == if Reached(replies, i) then AfterReply(before[w[i]], o, Logical(d, o.tenant), replies[i]) else before[w[i]]
      {
      }
    } else {
      var i :| 0 <= i < |w| && w[i] == r.shard;
      assert w[i] in w;
    }
  }

  /** Every write shard has a pool and answers without an error. */
  ghost predicate AllAnswer(before: Tables, d: Placement, o: NewOrder, replies: seq<Reply>)
    requires WellFormed(d) && |replies| >= 2
  {
    var w := RouteWrite(d, o.tenant);
    forall i :: 0 <= i < |w| ==> w[i] in before && replies[i].Executed?
  }

  /** One statement keeps every row, and adds the order with its values if it runs and the id is new. */
  lemma ReplyStores(t: Table, o: NewOrder, logical: int, r: Reply)
    ensures var after := AfterReply(t, o, logical, r);
            && (forall id :: id in t ==> id in after && after[id] == t[id])
            && (forall id :: id in after && id !in t ==> id == o.id)
            && (r.ErrorBefore? ==> after == t) && (!r.ErrorBefore? ==> o.id in after)
            && (!r.ErrorBefore? && o.id !in t ==> HasColumns(after[o.id], o.tenant, logical, r.now, o.cents, o.state))
  {
  }

  lemma StepStores(before: Tables, after: Tables, d: Placement, o: NewOrder, replies: seq<Reply>, r: Outcome)
    requires WellFormed(d) && |replies| >= 2 && InsertStep(before, after, d, o, replies, r)
    ensures StoresOnly(before, after, d, o, replies)
    ensures r.Acknowledged? <==> AllAnswer(before, d, o, replies)
    ensures r.Acknowledged? ==> forall s :: s in RouteWrite(d, o.tenant) ==> s in after && o.id in after[s]
  {
    var w := RouteWrite(d, o.tenant);
    if !r.NoPool? {
      forall i | 0 <= i < |w|
        ensures after[w[i]] == if Reached(replies, i) then AfterReply(before[w[i]], o, Logical(d, o.tenant), replies[i]) else before[w[i]]
      {
        ReplyStores(before[w[i]], o, Logical(d, o.tenant), replies[i]);
      }
      forall s | s in before && s in w
        ensures exists i :: 0 <= i < |w| && w[i] == s
      {
      }
    }
  }

  predicate Placed(d: Placement, s: int, o: OrderRow)
    requires WellFormed(d)
  {
    RouteRead(d, o.tenant) == s
  }

  ghost predicate AllPlaced(tables: Tables, d: Placement)
    requires WellFormed(d)
  {
    forall s, id :: s in tables && id in tables[s] ==> Placed(d, s, tables[s][id])
  }

  function MisplacedIds(t: Table, d: Placement, s: int): set<int>
    requires WellFormed(d)
  {
    set id | id in t && !Placed(d, s, t[id])
  }

  /** One step of sorting the shard ids as they come out of the pool map. */
  function InsertInt(x: int, s: seq<int>): (r: seq<int>)
    requires StrictlyAscending(s) && x !in s
    ensures StrictlyAscending(r) && forall y :: y in r <==> y == x || y in s
  {
    if s == [] || x < s[0] then [x] + s
    else
      var rest := InsertInt(x, s[1..]);
      assert forall i :: 0 <= i < |rest| ==> rest[i] in rest;
      [s[0]] + rest
  }

  // ---- the audit ----

  /**
   What the audit gets to see of a shard's distinct tenants: an error, or the tenants delivered before
   the rows ended. It never asks whether they ended early, so a stream cut short looks complete.
   */
  datatype Listing = Refused | Delivered(tenants: set<Word>)

  /** The misplaced rows of delivered tenants: all that the second query counts. */
  function SeenIds(t: Table, d: Placement, s: int, delivered: set<Word>): set<int>
    requires WellFormed(d)
  {
    set id | id in t && !Placed(d, s, t[id]) && t[id].tenant in delivered
  }

  /** No misplaced row's tenant was cut off. */
  ghost predicate EveryWrongDelivered(t: Table, d: Placement, s: int, delivered: set<Word>)
    requires WellFormed(d)
  {
    forall id :: id in t && !Placed(d, s, t[id]) ==> t[id].tenant in delivered
  }

  lemma SubsetSize<K>(part: set<K>, all: set<K>)
    requires part <= all
    ensures |part| <= |all| && (|part| == |all| <==> all <= part)
  {
    assert all == part + (all - part);
  }

  // The audit never overcounts, and it is exact if and only if every tenant with misplaced rows was delivered.
  lemma SeenAtMost(t: Table, d: Placement, s: int, delivered: set<Word>)
    requires WellFormed(d)
    ensures |SeenIds(t, d, s, delivered)| <= |MisplacedIds(t, d, s)|
    ensures |SeenIds(t, d, s, delivered)| == |MisplacedIds(t, d, s)| <==> EveryWrongDelivered(t, d, s, delivered)
  {
    var seen, all := SeenIds(t, d, s, delivered), MisplacedIds(t, d, s);
    SubsetSize(seen, all);
    if all <= seen {
      forall id | id in t && !Placed(d, s, t[id])
        ensures t[id].tenant in delivered
      {
        assert id in all;
        assert id in seen;
      }
    }
    if EveryWrongDelivered(t, d, s, delivered) {
      forall id | id in all
        ensures id in seen
      {
      }
    }
  }

  function WrongTenants(t: Table, d: Placement, s: int, delivered: set<Word>): set<Word>
    requires WellFormed(d)
  {
    set id | id in t && t[id].tenant in delivered && !Placed(d, s, t[id]) :: t[id].tenant
  }

  lemma RowsOfWrongTenants(t: Table, d: Placement, s: int, delivered: set<Word>)
    requires WellFormed(d)
    ensures (set id | id in t && t[id].tenant in WrongTenants(t, d, s, delivered)) == SeenIds(t, d, s, delivered)
    ensures WrongTenants(t, d, s, delivered) == {} <==> SeenIds(t, d, s, delivered) == {}
  {
    var wrong, seen := WrongTenants(t, d, s, delivered), SeenIds(t, d, s, delivered);
    forall id | id in t
      ensures t[id].tenant in wrong <==> id in seen
    {
      if t[id].tenant in wrong {
        var other :| other in t && t[other].tenant in delivered && !Placed(d, s, t[other]) && t[other].tenant == t[id].tenant;
      }
    }
    if wrong != {} {
      var tenant: Word := Pick(wrong);
      var id :| id in t && t[id].tenant == tenant;
      assert id in seen;
    }
  }

  /** The wrong tenants first, then, only if there are any, their rows. */
  method CountMisplaced(t: Table, d: Placement, s: int, delivered: set<Word>, countFails: bool) returns (n: Option<nat>)
    requires WellFormed(d)
    ensures n.None? <==> countFails && SeenIds(t, d, s, delivered) != {}
    ensures n.Some? ==> n.value == |SeenIds(t, d, s, delivered)|
  {
    var wrong := WrongTenants(t, d, s, delivered);
    RowsOfWrongTenants(t, d, s, delivered);
    if wrong == {} {
      return Some(0);
    }
    var rows := set id | id in t && t[id].tenant in wrong;
    n := if countFails then None else Some(|rows|);
  }

  ghost predicate AuditFails(t: Table, d: Placement, s: int, list: Listing, countFails: bool)
    requires WellFormed(d)
  {
    list.Refused? || (countFails && SeenIds(t, d, s, list.tenants) != {})
  }

  /** One shard's line of the audit, None when either query fails. */
  ghost function Audited(t: Table, d: Placement, s: int, list: Listing, countFails: bool): Option<nat>
    requires WellFormed(d)
  {
    if AuditFails(t, d, s, list, countFails) then None else Some(|SeenIds(t, d, s, list.tenants)|)
  }

  method AuditShard(t: Table, d: Placement, s: int, list: Listing, countFails: bool) returns (n: Option<nat>)
    requires WellFormed(d)
    ensures n == Audited(t, d, s, list, countFails)
  {
    if list.Refused? {
      return None;
    }
    n := CountMisplaced(t, d, s, list.tenants, countFails);
  }

  // ---- seeding ----

  /** Tenants are counted by a Go int. */
  const MAX_TENANT: int := 0x7fff_ffff_ffff_ffff

  datatype Drawn = Drawn(createdAt: int, cents: int, state: string)

  /** Tenants 1 and 2 get twenty times the rows. */
  function RowsFor(perTenant: int, tenant: Word): nat {
    var n := if tenant <= 2 then perTenant * 20 else perTenant;
    if n < 0 then 0 else n
  }

  function SeedRow(tenant: Word, logical: int, x: Drawn): OrderRow {
    OrderRow(tenant, logical, x.createdAt, x.cents, x.state)
  }

  ghost function RowsOf(tenant: Word, logical: int, n: nat, draw: (Word, nat) -> Drawn): seq<OrderRow> {
    if n == 0 then [] else RowsOf(tenant, logical, n - 1, draw) + [SeedRow(tenant, logical, draw(tenant, n - 1))]
  }

  type BucketMap = map<int, seq<OrderRow>>

  function In(buckets: BucketMap, s: int): seq<OrderRow> {
    if s in buckets then buckets[s] else []
  }

  ghost function AddRows(buckets: BucketMap, target: int, tenant: Word, logical: int, n: nat, draw: (Word, nat) -> Drawn): BucketMap {
    if n == 0 then buckets else buckets[target := In(buckets, target) + RowsOf(tenant, logical, n, draw)]
  }

  /** The rows of tenants 1..upto, each appended to the bucket of the shard its tenant is read from. */
  ghost function Buckets(d: Placement, upto: nat, perTenant: int, draw: (Word, nat) -> Drawn): BucketMap
    requires WellFormed(d) && upto <= MAX_TENANT
    decreases upto
  {
    if upto == 0 then map[]
    else
      AddRows(Buckets(d, upto - 1, perTenant, draw), RouteRead(d, upto), upto, Logical(d, upto), RowsFor(perTenant, upto), draw)
  }

  /** COPY of the first n rows under the ids a shard's generator hands out; None on a duplicate key. */
  function CopyFirst(t: Table, rows: seq<OrderRow>, s: int, ids: (int, nat) -> int, n: nat): (r: Option<Table>)
    requires n <= |rows|
    ensures r.Some? ==> |r.value| == |t| + n && t.Keys <= r.value.Keys
    ensures r.Some? ==> forall id :: id in r.value ==> (id in t && r.value[id] == t[id]) || r.value[id] in rows
  {
    if n == 0 then Some(t)
    else
      var prev := CopyFirst(t, rows, s, ids, n - 1);
      if prev.None? || ids(s, n - 1) in prev.value then None else Some(prev.value[ids(s, n - 1) := rows[n - 1]])
  }

  /** Row k of the first n is stored under the shard's k-th id, new on the shard; nothing else changes. */
  ghost predicate Filled(before: Table, after: Table, rows: seq<OrderRow>, s: int, ids: (int, nat) -> int, n: nat)
    requires n <= |rows|
  {
    && (forall id :: id in after ==> id in before || exists k :: 0 <= k < n && ids(s, k) == id)
    && (forall id :: id in before ==> id in after && after[id] == before[id])
    && (forall k :: 0 <= k < n ==> ids(s, k) in after && after[ids(s, k)] == rows[k])
  }

  /** The first n ids handed out are new on the shard and distinct. */
  ghost predicate IdsFree(t: Table, s: int, ids: (int, nat) -> int, n: nat) {
    && (forall k :: 0 <= k < n ==> ids(s, k) !in t)
    && (forall j, k :: 0 <= j < k < n ==> ids(s, j) != ids(s, k))
  }

  // A COPY goes through exactly when its ids are free, and then stores every row under its own id.
  lemma {:induction false} CopyFirstFills(t: Table, rows: seq<OrderRow>, s: int, ids: (int, nat) -> int, n: nat)
    requires n <= |rows|
    ensures CopyFirst(t, rows, s, ids, n).Some? <==> IdsFree(t, s, ids, n)
    ensures CopyFirst(t, rows, s, ids, n).Some? ==> Filled(t, CopyFirst(t, rows, s, ids, n).value, rows, s, ids, n)
    decreases n
  {
    if n > 0 {
      CopyFirstFills(t, rows, s, ids, n - 1);
      var prev := CopyFirst(t, rows, s, ids, n - 1);
      if prev.Some? {
        OneMoreFills(t, prev.value, rows, s, ids, n);
      }
    }
  }

  lemma OneMoreFills(t: Table, prev: Table, rows: seq<OrderRow>, s: int, ids: (int, nat) -> int, n: nat)
    requires 0 < n <= |rows| && Filled(t, prev, rows, s, ids, n - 1) && IdsFree(t, s, ids, n - 1)
    ensures ids(s, n - 1) !in prev <==> IdsFree(t, s, ids, n)
    ensures ids(s, n - 1) !in prev ==> Filled(t, prev[ids(s, n - 1) := rows[n - 1]], rows, s, ids, n)
  {
    var last := ids(s, n - 1);
    if last in prev && last !in t {
      var k :| 0 <= k < n - 1 && ids(s, k) == last;
    }
    var next := prev[last := rows[n - 1]];
    forall id | id in next
      ensures id in t || exists k :: 0 <= k < n && ids(s, k) == id
    {
      if id == last {
        assert ids(s, n - 1) == id;
      }
    }
  }

  method AddTenant(buckets: BucketMap, target: int, tenant: Word, logical: int, n: nat, draw: (Word, nat) -> Drawn)
    returns (r: BucketMap)
    ensures r == AddRows(buckets, target, tenant, logical, n, draw)
  {
    r := buckets;
    for i := 0 to n
      invariant r == AddRows(buckets, target, tenant, logical, i, draw)
    {
      r := r[target := In(r, target) + [SeedRow(tenant, logical, draw(tenant, i))]];
      assert In(r, target) == In(buckets, target) + RowsOf(tenant, logical, i + 1, draw);
    }
  }

  method FillBuckets(d: Placement, tenants: int, perTenant: int, draw: (Word, nat) -> Drawn) returns (buckets: BucketMap)
    requires WellFormed(d) && 0 <= tenants <= MAX_TENANT
    ensures buckets == Buckets(d, tenants, perTenant, draw)
  {
    buckets := map[];
    for t := 0 to tenants
      invariant buckets == Buckets(d, t, perTenant, draw)
    {
      buckets := AddTenant(buckets, RouteRead(d, t + 1), t + 1, Logical(d, t + 1), RowsFor(perTenant, t + 1), draw);
    }
  }

  /** One shard's bucket loaded as one COPY under its generator's ids. */
  ghost predicate Copied(before: Table, after: Table, rows: seq<OrderRow>, s: int, ids: (int, nat) -> int) {
    CopyFirst(before, rows, s, ids, |rows|) == Some(after)
  }

  ghost function RowCount(tables: Tables): int {
    Sum(tables.Keys, s => if s in tables then |tables[s]| else 0)
  }

  /** The first i shards of the order are loaded, every other table is as it was. */
  ghost predicate Loaded(before: Tables, tables: Tables, order: seq<int>, i: nat, buckets: BucketMap, ids: (int, nat) -> int)
    requires i <= |order|
  {
    && tables.Keys == before.Keys
    && (forall j :: 0 <= j < i ==> order[j] in before && order[j] in buckets)
    && (forall j :: 0 <= j < i ==> Copied(before[order[j]], tables[order[j]], buckets[order[j]], order[j], ids))
    && (forall s :: s in before && s !in order[..i] ==> tables[s] == before[s])
  }

  lemma LoadedNext(before: Tables, tables: Tables, order: seq<int>, i: nat, buckets: BucketMap, ids: (int, nat) -> int, t: Table)
    requires i < |order| && Distinct(order) && Loaded(before, tables, order, i, buckets, ids)
    requires order[i] in tables && order[i] in buckets && Copied(tables[order[i]], t, buckets[order[i]], order[i], ids)
    ensures Loaded(before, tables[order[i] := t], order, i + 1, buckets, ids)
  {
    assert order[..i + 1] == order[..i] + [order[i]];
  }

  /**
   Copies bucket by bucket, stopping at the first error; total counts the rows of the copies that were
   answered. A COPY may commit and its answer be lost: then its rows are there and not in the total.
   */
  method CopyBuckets(before: Tables, buckets: BucketMap, ids: (int, nat) -> int, fate: int -> Fate)
    returns (tables: Tables, total: nat, failedOn: Option<int>)
    ensures Seeded(before, tables, buckets, ids, failedOn.None?)
    ensures failedOn.None? ==> RowCount(tables) == RowCount(before) + total
    ensures failedOn.Some? ==> failedOn.value in buckets && CopyRefused(before, buckets, ids, fate, failedOn.value)
    ensures failedOn.Some? ==> FailedCopyLeft(before, tables, buckets, ids, fate, failedOn.value)
    ensures failedOn.Some? ==>
              RowCount(tables) == RowCount(before) + total + Unreported(before, tables, buckets, failedOn.value)
  {
    tables, total, failedOn := before, 0, None;
    var order := ListKeys(buckets);
    var i := 0;
    while i < |order|
      invariant i <= |order| && Loaded(before, tables, order, i, buckets, ids)
      invariant RowCount(tables) == RowCount(before) + total
    {
      var s := order[i];
      assert s in order;
      assert s in tables ==> tables[s] == before[s];
      if s in before {
        CopyFirstFills(before[s], buckets[s], s, ids, |buckets[s]|);
      }
      var loaded := if s in tables then CopyFirst(tables[s], buckets[s], s, ids, |buckets[s]|) else None;
      if fate(s).Fails? || loaded.None? {
        failedOn := Some(s);
        return;
      }
      LoadedNext(before, tables, order, i, buckets, ids, loaded.value);
      CountAfterUpdate(tables, s, loaded.value);
      tables := tables[s := loaded.value];
      if fate(s).CommitsUnacknowledged? {
        failedOn := Some(s);
        return;
      }
      total, i := total + |buckets[s]|, i + 1;
    }
  }

  /** Why the COPY of a bucket reports an error: no pool, an error from the server, or a duplicate id. */
  ghost predicate CopyRefused(before: Tables, buckets: BucketMap, ids: (int, nat) -> int, fate: int -> Fate, s: int)
    requires s in buckets
  {
    !fate(s).Commits? || s !in before || !IdsFree(before[s], s, ids, |buckets[s]|)
  }

  /** The failing COPY stored its bucket if it ran, its answer lost, and nothing if it did not. */
  ghost predicate FailedCopyLeft(before: Tables, after: Tables, buckets: BucketMap, ids: (int, nat) -> int, fate: int -> Fate, s: int)
    requires s in buckets && after.Keys == before.Keys
  {
    s in before ==>
      if fate(s).Fails? || !IdsFree(before[s], s, ids, |buckets[s]|) then after[s] == before[s]
      else Filled(before[s], after[s], buckets[s], s, ids, |buckets[s]|)
  }

  /** Every shard is as it was or has its whole bucket stored row by row; with ok, none is left out. */
  ghost predicate Stored(before: Tables, after: Tables, buckets: BucketMap, ids: (int, nat) -> int, ok: bool) {
    && after.Keys == before.Keys
    && (forall s :: s in before ==>
          after[s] == before[s] || (s in buckets && Filled(before[s], after[s], buckets[s], s, ids, |buckets[s]|)))
    && (ok ==> forall s :: s in buckets ==> s in before && Filled(before[s], after[s], buckets[s], s, ids, |buckets[s]|))
  }

  lemma SeededStores(before: Tables, after: Tables, buckets: BucketMap, ids: (int, nat) -> int, ok: bool)
    requires Seeded(before, after, buckets, ids, ok)
    ensures Stored(before, after, buckets, ids, ok)
  {
    forall s | s in before && s in buckets {
      CopyFirstFills(before[s], buckets[s], s, ids, |buckets[s]|);
    }
  }

  /** The rows of the failing COPY when it ran all the same. */
  function Unreported(before: Tables, after: Tables, buckets: BucketMap, s: int): nat
    requires s in buckets && after.Keys == before.Keys
  {
    if s in before && after[s] != before[s] then |buckets[s]| else 0
  }

  lemma CountAfterUpdate(tables: Tables, s: int, t: Table)
    requires s in tables
    ensures RowCount(tables[s := t]) == RowCount(tables) + |t| - |tables[s]|
  {
    var after := tables[s := t];
    assert after.Keys == tables.Keys;
    SumChange(tables.Keys, s => if s in tables then |tables[s]| else 0, s => if s in after then |after[s]| else 0, s);
  }

  /** Every shard is untouched or holds its whole bucket; with ok, none is left untouched. */
  ghost predicate Seeded(before: Tables, after: Tables, buckets: BucketMap, ids: (int, nat) -> int, ok: bool) {
    && after.Keys == before.Keys
    && (forall s :: s in before ==> after[s] == before[s] || (s in buckets && Copied(before[s], after[s], buckets[s], s, ids)))
    && (ok ==> forall s :: s in buckets ==> s in before && Copied(before[s], after[s], buckets[s], s, ids))
  }

  class Cluster {
    var tables: Tables
    var topo: Placement

    constructor (shards: set<int>, topo: Placement)
      ensures this.topo == topo && tables.Keys == shards && forall s :: s in shards ==> tables[s] == map[]
    {
      this.topo := topo;
      this.tables := map s | s in shards :: map[];
    }

    method SetTopology(t: Placement)
      modifies `topo
      ensures topo == t
    {
      topo := t;
    }

    method Shards() returns (out: seq<int>)
      ensures StrictlyAscending(out) && forall s :: s in out <==> s in tables
    {
      var ids := ListKeys(tables);
      out := [];
      for i := 0 to |ids|
        invariant StrictlyAscending(out)
        invariant forall s :: s in out <==> s in ids[..i]
      {
        out := InsertInt(ids[i], out);
      }
      assert ids[..|ids|] == ids;
    }

    method ReadPool(tenant: Word) returns (pool: Option<Table>, shard: int)
      requires WellFormed(topo)
      ensures shard == RouteWrite(topo, tenant)[0]
      ensures pool.Some? <==> shard in tables
      ensures pool.Some? ==> pool.value == tables[shard]
    {
      shard := RouteRead(topo, tenant);
      pool := if shard in tables then Some(tables[shard]) else None;
    }

    /** The write shards, or the first of them that has no pool. */
    method WritePools(tenant: Word) returns (shards: seq<int>, missing: Option<int>)
      requires WellFormed(topo)
      ensures missing.None? <==> forall s :: s in RouteWrite(topo, tenant) ==> s in tables
      ensures missing.None? ==> shards == RouteWrite(topo, tenant)
      ensures missing.Some? ==> shards == [] && FirstMissing(RouteWrite(topo, tenant), tables, missing.value)
    {
      shards := RouteWrite(topo, tenant);
      for i := 0 to |shards|
        invariant forall j :: 0 <= j < i ==> shards[j] in tables
      {
        if shards[i] !in tables {
          return [], Some(shards[i]);
        }
      }
      missing := None;
    }

    method Insert(o: NewOrder, replies: seq<Reply>) returns (r: Outcome)
      requires WellFormed(topo) && |replies| >= 2
      modifies `tables
      ensures InsertStep(old(tables), tables, topo, o, replies, r)
      ensures StoresOnly(old(tables), tables, topo, o, replies) && Reaches(old(tables), tables, topo, o, replies)
      ensures r.Acknowledged? <==> AllAnswer(old(tables), topo, o, replies)
      ensures r.Acknowledged? ==> forall s :: s in RouteWrite(topo, o.tenant) ==> s in tables && o.id in tables[s]
    {
      var shards, missing := WritePools(o.tenant);
      if missing.Some? {
        StepStores(tables, tables, topo, o, replies, NoPool(missing.value));
        StepReaches(tables, tables, topo, o, replies, NoPool(missing.value));
        return NoPool(missing.value);
      }
      WriteSetShape(topo, o.tenant);
      var after, n := WriteInOrder(tables, shards, o, Logical(topo, o.tenant), replies);
      r := if n == |shards| then Acknowledged else FailedOn(shards[n]);
      StepStores(tables, after, topo, o, replies, r);
      StepReaches(tables, after, topo, o, replies, r);
      tables := after;
    }

    /**
     Counts, per shard, the rows of tenants that the current map reads elsewhere. `list` is what the first
     query of each shard delivers, `countFails` the shards whose second query fails.
     */
    method Misplaced(list: int -> Listing, countFails: set<int>) returns (out: map<int, nat>, failed: bool)
      requires WellFormed(topo)
      ensures failed <==> exists s :: s in tables && AuditFails(tables[s], topo, s, list(s), s in countFails)
      ensures !failed ==> forall s :: s in out <==> s in tables
      ensures !failed ==> forall s :: s in tables ==> out[s] == |SeenIds(tables[s], topo, s, list(s).tenants)|
      ensures !failed ==> forall s :: s in tables ==>
        && out[s] <= |MisplacedIds(tables[s], topo, s)|
        && (out[s] == |MisplacedIds(tables[s], topo, s)| <==> EveryWrongDelivered(tables[s], topo, s, list(s).tenants))
    {
      out := map[];
      var shards := Shards();
      for i := 0 to |shards|
        invariant forall s :: s in out <==> s in shards[..i]
        invariant forall s :: s in out ==> s in tables && Some(out[s]) == Audited(tables[s], topo, s, list(s), s in countFails)
      {
        var s := shards[i];
        assert s in shards;
        var n := AuditShard(tables[s], topo, s, list(s), s in countFails);
        if n.None? {
          return map[], true;
        }
        out := out[s := n.value];
      }
      assert shards[..|shards|] == shards;
      assert forall s :: s in tables ==> s in shards;
      forall s | s in tables && list(s).Delivered? {
        SeenAtMost(tables[s], topo, s, list(s).tenants);
      }
      failed := false;
    }

    /**
     Buckets the rows by read shard, then copies bucket by bucket. The ids come from one generator per
     shard, so a shard number that NewIDGen refuses ends it before anything is written. The total is the
     number of rows added unless the failing COPY ran all the same.
     */
    method Seed(tenants: int, perTenant: int, ids: (int, nat) -> int, draw: (Word, nat) -> Drawn, fate: int -> Fate)
      returns (total: nat, ok: bool, failedOn: Option<int>)
      requires WellFormed(topo) && 0 <= tenants <= MAX_TENANT
      requires forall t: Word :: 1 <= t <= tenants && RowsFor(perTenant, t) > 0 ==> RouteRead(topo, t) in tables
      modifies `tables
      ensures Seeded(old(tables), tables, Buckets(topo, tenants, perTenant, draw), ids, ok)
      ensures Stored(old(tables), tables, Buckets(topo, tenants, perTenant, draw), ids, ok)
      ensures failedOn.None? ==> RowCount(tables) == RowCount(old(tables)) + total
      ensures ok || failedOn.Some? || exists s :: s in old(tables) && !(0 <= s <= 1023)
      ensures failedOn.Some? ==> !ok && failedOn.value in Buckets(topo, tenants, perTenant, draw)
      ensures failedOn.Some? ==> CopyRefused(old(tables), Buckets(topo, tenants, perTenant, draw), ids, fate, failedOn.value)
      ensures failedOn.Some? ==> FailedCopyLeft(old(tables), tables, Buckets(topo, tenants, perTenant, draw), ids, fate, failedOn.value)
      ensures failedOn.Some? ==>
                RowCount(tables) == RowCount(old(tables)) + total
                                    + Unreported(old(tables), tables, Buckets(topo, tenants, perTenant, draw), failedOn.value)
      ensures (exists s :: s in old(tables) && !(0 <= s <= 1023)) ==> !ok && tables == old(tables)
    {
      var shards := Shards();
      for i := 0 to |shards|
        invariant forall j :: 0 <= j < i ==> 0 <= shards[j] <= 1023
      {
        if shards[i] < 0 || shards[i] > 1023 {
          assert shards[i] in shards;
          return 0, false, None;
        }
      }
      var buckets := FillBuckets(topo, tenants, perTenant, draw);
      var after: Tables;
      after, total, failedOn := CopyBuckets(tables, buckets, ids, fate);
      SeededStores(tables, after, buckets, ids, failedOn.None?);
      tables, ok := after, failedOn.None?;
    }
  }
}

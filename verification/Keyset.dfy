/**
 Cross-shard keyset pagination: `MergeDesc`, `PageRecent` and the page walk.

 A snapshot is what one shard's table holds at the instant it answers; every shard of every page may
 answer at a different instant. Timestamps are whole microseconds, the resolution of `timestamptz`.
 */
module Keyset {
  import opened Common

  /** `shard` is where the copy was read, not a stored column. */
  datatype Order = Order(
    id: int, tenantID: nat, logicalShard: int, createdAt: int, totalCents: int, state: string, shard: int)

  datatype Cursor = Cursor(createdAt: int, id: int)

  /** Go's zero time, 0001-01-01 00:00:00 UTC, in microseconds since 1970. */
  const ZERO_TIME: int := -62135596800000000

  const FIRST_PAGE := Cursor(ZERO_TIME, 0)

  predicate KeyAbove(t: int, id: int, t': int, id': int) {
    t > t' || (t == t' && id > id')
  }

  /** a comes strictly before b in (created_at DESC, id DESC). */
  predicate Newer(a: Order, b: Order) {
    KeyAbove(a.createdAt, a.id, b.createdAt, b.id)
  }

  predicate SameKey(a: Order, b: Order) {
    a.createdAt == b.createdAt && a.id == b.id
  }

  ghost predicate Descending(s: seq<Order>) {
    forall i, j :: 0 <= i < j < |s| ==> !Newer(s[j], s[i])
  }

  ghost predicate StrictlyDescending(s: seq<Order>) {
    forall i, j :: 0 <= i < j < |s| ==> Newer(s[i], s[j])
  }

  // ---- sort.SliceStable ----

  function Insert(o: Order, s: seq<Order>): (r: seq<Order>)
    ensures |r| == |s| + 1
  {
    if s == [] || !Newer(s[0], o) then [o] + s else [s[0]] + Insert(o, s[1..])
  }

  function SortDesc(s: seq<Order>): (r: seq<Order>)
    ensures |r| == |s|
  {
    if s == [] then [] else Insert(s[0], SortDesc(s[1..]))
  }

  lemma {:induction false} InsertContents(o: Order, s: seq<Order>)
    ensures multiset(Insert(o, s)) == multiset{o} + multiset(s)
    decreases |s|
  {
    if s != [] && Newer(s[0], o) {
      InsertContents(o, s[1..]);
      assert s == [s[0]] + s[1..];
    }
  }

  lemma {:induction false} InsertDescending(o: Order, s: seq<Order>)
    requires Descending(s)
    ensures Descending(Insert(o, s))
    ensures Insert(o, s)[0] == o || (s != [] && Insert(o, s)[0] == s[0])
    decreases |s|
  {
    if s != [] && Newer(s[0], o) {
      InsertDescending(o, s[1..]);
    }
  }

  lemma {:induction false} SortSorts(s: seq<Order>)
    ensures Descending(SortDesc(s)) && multiset(SortDesc(s)) == multiset(s)
    decreases |s|
  {
    if s != [] {
      SortSorts(s[1..]);
      InsertDescending(s[0], SortDesc(s[1..]));
      InsertContents(s[0], SortDesc(s[1..]));
      assert s == [s[0]] + s[1..];
    }
  }

  /** The rows of s with the key of o, in order. */
  function Ties(s: seq<Order>, o: Order): seq<Order> {
    if s == [] then [] else (if SameKey(s[0], o) then [s[0]] else []) + Ties(s[1..], o)
  }

  lemma {:induction false} InsertStable(x: Order, s: seq<Order>, o: Order)
    ensures Ties(Insert(x, s), o) == (if SameKey(x, o) then [x] else []) + Ties(s, o)
    decreases |s|
  {
    if s == [] || !Newer(s[0], x) {
      assert ([x] + s)[1..] == s;
    } else {
      InsertStable(x, s[1..], o);
      assert ([s[0]] + Insert(x, s[1..]))[1..] == Insert(x, s[1..]);
    }
  }

  // The sort is stable: rows with equal keys keep their order.
  lemma {:induction false} SortStable(s: seq<Order>, o: Order)
    ensures Ties(SortDesc(s), o) == Ties(s, o)
    decreases |s|
  {
    if s != [] {
      SortStable(s[1..], o);
      InsertStable(s[0], SortDesc(s[1..]), o);
    }
  }

  // ---- what "the top rows" means ----

  /** ans is a newest-first list of the `limit` newest rows of all. */
  ghost predicate IsTop(ans: seq<Order>, all: multiset<Order>, limit: nat) {
    && Descending(ans)
    && multiset(ans) <= all
    && |ans| == (if |all| <= limit then |all| else limit)
    && forall x, y :: x in all - multiset(ans) && y in ans ==> !Newer(x, y)
  }

  function Take<T>(s: seq<T>, n: nat): seq<T> {
    if |s| <= n then s else s[..n]
  }

  lemma TakeIsTop(s: seq<Order>, limit: nat)
    ensures IsTop(Take(SortDesc(s), limit), multiset(s), limit)
  {
    SortSorts(s);
    var all := SortDesc(s);
    assert |multiset(s)| == |s|;
    if |all| > limit {
      HeadIsTop(all, limit);
    }
  }

  lemma HeadIsTop(all: seq<Order>, limit: nat)
    requires Descending(all) && limit < |all|
    ensures IsTop(all[..limit], multiset(all), limit)
  {
    var ans, rest := all[..limit], all[limit..];
    assert all == ans + rest;
    assert |multiset(all)| == |all|;
    forall x, y | x in multiset(all) - multiset(ans) && y in ans
      ensures !Newer(x, y)
    {
      assert x in multiset(rest);
      var i :| 0 <= i < |rest| && rest[i] == x;
      var j :| 0 <= j < limit && ans[j] == y;
      assert all[limit + i] == x && all[j] == y;
    }
  }

  // Replacing one shard's rows by its own top rows does not change the top rows of the whole.
  lemma TopThroughOneShard(m: seq<Order>, own: seq<Order>, table: multiset<Order>, others: multiset<Order>, limit: nat)
    requires IsTop(own, table, limit) && IsTop(m, multiset(own) + others, limit)
    ensures IsTop(m, table + others, limit)
  {
    var seen := multiset(own) + others;
    assert |multiset(own)| == |own|;
    assert table == multiset(own) + (table - multiset(own));
    assert |table| == |own| + |table - multiset(own)|;
    forall x, y | x in table + others - multiset(m) && y in m
      ensures !Newer(x, y)
    {
      if x !in seen - multiset(m) {
        assert x in table - multiset(own);
        assert |own| == limit;
        if Newer(x, y) {
          ShardFillsThePage(m, own, others, limit, x, y);
        }
      }
    }
  }

  lemma ShardFillsThePage(m: seq<Order>, own: seq<Order>, others: multiset<Order>, limit: nat, x: Order, y: Order)
    requires IsTop(m, multiset(own) + others, limit) && |own| == limit
    requires forall z :: z in own ==> !Newer(x, z)
    requires y in m
    ensures !Newer(x, y)
  {
    assert y in multiset(m) && |multiset(m)| == |m| && |multiset(own)| == |own|;
    Pigeonhole(multiset(own), multiset(m) - multiset{y});
    var z :| multiset(own)[z] > (multiset(m) - multiset{y})[z];
    assert z in multiset(own) && z in own;
    if z != y {
      assert z in multiset(own) + others - multiset(m);
    }
  }

  lemma Pigeonhole(a: multiset<Order>, b: multiset<Order>)
    requires |a| > |b|
    ensures exists z :: a[z] > b[z]
  {
    if forall z :: a[z] <= b[z] {
      NotLarger(a, b);
    }
  }

  lemma NotLarger(a: multiset<Order>, b: multiset<Order>)
    requires forall z :: a[z] <= b[z]
    ensures |a| <= |b|
  {
    assert b == a + (b - a);
  }

  function Concat<T>(parts: seq<seq<T>>): seq<T> {
    if parts == [] then [] else parts[0] + Concat(parts[1..])
  }

  // The merge of every shard's own top rows is the top of the union of all their rows.
  lemma {:induction false} MergeOfTops(m: seq<Order>, answers: seq<seq<Order>>, tables: seq<seq<Order>>,
                                       others: multiset<Order>, limit: nat)
    requires |answers| == |tables|
    requires forall s :: 0 <= s < |tables| ==> IsTop(answers[s], multiset(tables[s]), limit)
    requires IsTop(m, multiset(Concat(answers)) + others, limit)
    ensures IsTop(m, multiset(Concat(tables)) + others, limit)
    decreases |tables|
  {
    if tables != [] {
      var own, rest := multiset(answers[0]), multiset(Concat(answers[1..]));
      assert multiset(Concat(answers)) + others == own + (rest + others);
      TopThroughOneShard(m, answers[0], multiset(tables[0]), rest + others, limit);
      assert multiset(tables[0]) + (rest + others) == rest + (multiset(tables[0]) + others);
      MergeOfTops(m, answers[1..], tables[1..], multiset(tables[0]) + others, limit);
      assert multiset(Concat(tables)) + others == multiset(Concat(tables[1..])) + (multiset(tables[0]) + others);
    }
  }

  // The top rows are unique up to rows with equal keys.
  lemma TopKeysUnique(a: seq<Order>, b: seq<Order>, all: multiset<Order>, limit: nat, i: nat)
    requires IsTop(a, all, limit) && IsTop(b, all, limit) && i < |a|
    ensures SameKey(a[i], b[i])
  {
    if Newer(a[i], b[i]) {
      TopKeyNotNewer(a, b, all, limit, i);
    } else if Newer(b[i], a[i]) {
      TopKeyNotNewer(b, a, all, limit, i);
    }
  }

  lemma TopKeyNotNewer(a: seq<Order>, b: seq<Order>, all: multiset<Order>, limit: nat, i: nat)
    requires IsTop(a, all, limit) && IsTop(b, all, limit) && i < |a|
    ensures !Newer(a[i], b[i])
  {
    var head, before := multiset(a[..i + 1]), multiset(b[..i]);
    assert |head| == i + 1 && |before| == i;
    Pigeonhole(head, before);
    var z :| head[z] > before[z];
    assert z in head && z in a[..i + 1];
    if Newer(a[i], b[i]) {
      NewerRowsComeFirst(a, b, all, limit, i, z);
    }
  }

  // A row newer than b[i] occurs in b only before i.
  lemma NewerIsBefore(b: seq<Order>, i: nat, z: Order)
    requires Descending(b) && i < |b| && Newer(z, b[i])
    ensures multiset(b)[z] == multiset(b[..i])[z]
  {
    var tail := b[i..];
    forall k | 0 <= k < |tail|
      ensures tail[k] != z
    {
      assert tail[k] == b[i + k];
    }
    assert z !in tail && multiset(tail)[z] == 0;
    assert b == b[..i] + tail;
  }

  // A row of a's first i + 1 sits among b's first i when those rows are all newer than b[i].
  lemma NewerRowsComeFirst(a: seq<Order>, b: seq<Order>, all: multiset<Order>, limit: nat, i: nat, z: Order)
    requires IsTop(a, all, limit) && IsTop(b, all, limit) && i < |a| && Newer(a[i], b[i])
    requires z in a[..i + 1]
    ensures multiset(a[..i + 1])[z] <= multiset(b[..i])[z]
  {
    HeadIsNewer(a, i, z, b[i]);
    NewerIsBefore(b, i, z);
    assert a == a[..i + 1] + a[i + 1..];
    assert multiset(a[..i + 1])[z] <= multiset(a)[z] <= all[z];
    TopHoldsNewer(b, all, limit, i, z);
  }

  lemma TopHoldsNewer(b: seq<Order>, all: multiset<Order>, limit: nat, i: nat, z: Order)
    requires IsTop(b, all, limit) && i < |b| && Newer(z, b[i])
    ensures all[z] <= multiset(b)[z]
  {
    var y := b[i];
    assert y in b;
    assert z in all - multiset(b) ==> !Newer(z, y);
  }

  lemma HeadIsNewer(a: seq<Order>, i: nat, z: Order, y: Order)
    requires Descending(a) && i < |a| && Newer(a[i], y) && z in a[..i + 1]
    ensures Newer(z, y)
  {
    var j :| 0 <= j < i + 1 && a[..i + 1][j] == z;
    assert a[j] == z;
  }

  /** Later times first, and among equal times larger ids first. */
  ghost predicate NewestFirst(page: seq<Order>) {
    forall i, j :: 0 <= i < j < |page| ==>
      page[i].createdAt > page[j].createdAt || (page[i].createdAt == page[j].createdAt && page[i].id >= page[j].id)
  }

  // ---- the program ----

  method MergeDesc(perShard: seq<seq<Order>>, limit: nat) returns (all: seq<Order>)
    ensures all == Take(SortDesc(Concat(perShard)), limit)
    ensures IsTop(all, multiset(Concat(perShard)), limit)
    ensures NewestFirst(all) && NoneNewerLeft(multiset(Concat(perShard)), all)
  {
    all := [];
    for s := 0 to |perShard|
      invariant all + Concat(perShard[s..]) == Concat(perShard)
    {
      assert perShard[s..][1..] == perShard[s + 1..];
      all := all + perShard[s];
    }
    assert all == Concat(perShard);
    ghost var rows := multiset(all);
    TakeIsTop(all, limit);
    all := SortDesc(all);
    if |all| > limit {
      all := all[..limit];
    }
    TopInNumbers(all, rows, limit);
  }

  /** No row left off the answer has a later time, or the same time and a larger id, than one on it. */
  ghost predicate NoneNewerLeft(all: multiset<Order>, ans: seq<Order>) {
    forall x, y :: x in all - multiset(ans) && y in ans ==>
      y.createdAt > x.createdAt || (y.createdAt == x.createdAt && y.id >= x.id)
  }

  lemma TopInNumbers(ans: seq<Order>, all: multiset<Order>, limit: nat)
    requires IsTop(ans, all, limit)
    ensures NewestFirst(ans) && NoneNewerLeft(all, ans)
  {
  }

  predicate Below(o: Order, cur: Cursor) {
    cur.createdAt == ZERO_TIME || KeyAbove(cur.createdAt, cur.id, o.createdAt, o.id)
  }

  /** The two WHERE clauses: every row, or the rows below the cursor. */
  function Eligible(rows: seq<Order>, after: Cursor): seq<Order> {
    if rows == [] then []
    else
      (if Below(rows[0], after) then [rows[0]] else []) + Eligible(rows[1..], after)
  }

  /** One shard's answer: ORDER BY created_at DESC, id DESC LIMIT limit. */
  function Query(rows: seq<Order>, after: Cursor, limit: nat): seq<Order> {
    Take(SortDesc(Eligible(rows, after)), limit)
  }

  function QueryAll(shards: seq<seq<Order>>, after: Cursor, limit: nat): (r: seq<seq<Order>>)
    ensures |r| == |shards|
    ensures forall s :: 0 <= s < |shards| ==> r[s] == Query(shards[s], after, limit)
  {
    if shards == [] then [] else [Query(shards[0], after, limit)] + QueryAll(shards[1..], after, limit)
  }

  function Page(shards: seq<seq<Order>>, after: Cursor, limit: nat): seq<Order> {
    Take(SortDesc(Concat(QueryAll(shards, after, limit))), limit)
  }

  function NextCursor(page: seq<Order>, after: Cursor): Cursor {
    if page == [] then after else Cursor(page[|page| - 1].createdAt, page[|page| - 1].id)
  }

  lemma {:induction false} EligibleContents(rows: seq<Order>, cur: Cursor, o: Order)
    ensures multiset(Eligible(rows, cur))[o] == if Below(o, cur) then multiset(rows)[o] else 0
    decreases |rows|
  {
    if rows != [] {
      EligibleContents(rows[1..], cur, o);
      assert rows == [rows[0]] + rows[1..];
    }
  }

  function EligibleAll(shards: seq<seq<Order>>, cur: Cursor): (r: seq<seq<Order>>)
    ensures |r| == |shards|
    ensures forall s :: 0 <= s < |shards| ==> r[s] == Eligible(shards[s], cur)
  {
    if shards == [] then [] else [Eligible(shards[0], cur)] + EligibleAll(shards[1..], cur)
  }

  lemma {:induction false} EligibleAppend(a: seq<Order>, b: seq<Order>, cur: Cursor)
    ensures Eligible(a + b, cur) == Eligible(a, cur) + Eligible(b, cur)
    decreases |a|
  {
    if a == [] {
      assert a + b == b;
    } else {
      EligibleAppend(a[1..], b, cur);
      assert (a + b)[1..] == a[1..] + b;
    }
  }

  lemma {:induction false} EligibleConcat(shards: seq<seq<Order>>, cur: Cursor)
    ensures Concat(EligibleAll(shards, cur)) == Eligible(Concat(shards), cur)
    decreases |shards|
  {
    if shards != [] {
      EligibleConcat(shards[1..], cur);
      EligibleAppend(shards[0], Concat(shards[1..]), cur);
    }
  }

  // A page is the newest `limit` of all rows below the cursor on any shard, although each shard
  // was asked for its own newest `limit` only.
  lemma PageIsTop(shards: seq<seq<Order>>, cur: Cursor, limit: nat)
    ensures IsTop(Page(shards, cur, limit), multiset(Eligible(Concat(shards), cur)), limit)
  {
    var answers, tables := QueryAll(shards, cur, limit), EligibleAll(shards, cur);
    forall s | 0 <= s < |tables|
      ensures IsTop(answers[s], multiset(tables[s]), limit)
    {
      TakeIsTop(tables[s], limit);
    }
    TakeIsTop(Concat(answers), limit);
    assert multiset(Concat(answers)) + multiset{} == multiset(Concat(answers));
    MergeOfTops(Page(shards, cur, limit), answers, tables, multiset{}, limit);
    EligibleConcat(shards, cur);
    assert multiset(Concat(tables)) + multiset{} == multiset(Concat(tables));
  }

  lemma PageRows(shards: seq<seq<Order>>, cur: Cursor, limit: nat, o: Order)
    requires o in Page(shards, cur, limit)
    ensures o in Concat(shards) && Below(o, cur)
  {
    PageIsTop(shards, cur, limit);
    EligibleContents(Concat(shards), cur, o);
    assert o in multiset(Page(shards, cur, limit));
    assert o in multiset(Eligible(Concat(shards), cur));
    assert o in multiset(Concat(shards));
  }

  // A row below the cursor that is not on the page is not above the page's last row.
  lemma LeftOutIsBelow(shards: seq<seq<Order>>, cur: Cursor, limit: nat, r: Order)
    requires limit >= 1 && r in Concat(shards) && Below(r, cur) && r !in Page(shards, cur, limit)
    ensures Page(shards, cur, limit) != []
    ensures !Newer(r, Page(shards, cur, limit)[|Page(shards, cur, limit)| - 1])
  {
    var page, all := Page(shards, cur, limit), multiset(Eligible(Concat(shards), cur));
    PageIsTop(shards, cur, limit);
    EligibleContents(Concat(shards), cur, r);
    assert r in multiset(Concat(shards));
    assert r in all && r !in multiset(page);
    assert r in all - multiset(page) && |all| > 0;
  }

  // ---- a page in plain numbers ----

  /** A cursor at 0001-01-01 00:00:00 UTC admits every row, any other one the rows strictly older than it. */
  ghost predicate Admits(cur: Cursor, o: Order) {
    cur.createdAt == -62135596800000000 ||
    o.createdAt < cur.createdAt || (o.createdAt == cur.createdAt && o.id < cur.id)
  }

  /** What is on the page and what is not, shard by shard. */
  ghost predicate PlainPage(rows: seq<seq<Order>>, after: Cursor, limit: nat, page: seq<Order>) {
    && |page| <= limit && NewestFirst(page)
    && (forall o :: o in page ==> Admits(after, o) && exists s :: 0 <= s < |rows| && o in rows[s])
    && (forall s, o :: 0 <= s < |rows| && o in rows[s] && Admits(after, o) && o !in page ==> |page| == limit)
    && (forall s, o, k :: 0 <= s < |rows| && o in rows[s] && Admits(after, o) && o !in page && 0 <= k < |page| ==>
          page[k].createdAt > o.createdAt || (page[k].createdAt == o.createdAt && page[k].id >= o.id))
  }

  lemma {:induction false} ConcatHolds<T>(parts: seq<seq<T>>, x: T)
    ensures x in Concat(parts) <==> exists s :: 0 <= s < |parts| && x in parts[s]
    decreases |parts|
  {
    if parts != [] {
      ConcatHolds(parts[1..], x);
      if s :| 0 <= s < |parts| && x in parts[s] {
        assert s > 0 ==> parts[1..][s - 1] == parts[s];
      }
    }
  }

  lemma PageIsPlain(rows: seq<seq<Order>>, after: Cursor, limit: nat)
    ensures PlainPage(rows, after, limit, Page(rows, after, limit))
  {
    var page := Page(rows, after, limit);
    var all := multiset(Eligible(Concat(rows), after));
    PageIsTop(rows, after, limit);
    forall o | o in page
      ensures Admits(after, o) && exists s :: 0 <= s < |rows| && o in rows[s]
    {
      PageRows(rows, after, limit, o);
      ConcatHolds(rows, o);
    }
    forall s, o | 0 <= s < |rows| && o in rows[s] && Admits(after, o) && o !in page
      ensures |page| == limit && forall k :: 0 <= k < |page| ==> !Newer(o, page[k])
    {
      ConcatHolds(rows, o);
      LeftOut(rows, after, limit, o);
    }
  }

  lemma LeftOut(rows: seq<seq<Order>>, after: Cursor, limit: nat, o: Order)
    requires o in Concat(rows) && Below(o, after) && o !in Page(rows, after, limit)
    ensures |Page(rows, after, limit)| == limit
    ensures forall k :: 0 <= k < limit ==> !Newer(o, Page(rows, after, limit)[k])
  {
    var page, all := Page(rows, after, limit), multiset(Eligible(Concat(rows), after));
    PageIsTop(rows, after, limit);
    EligibleContents(Concat(rows), after, o);
    assert o in multiset(Concat(rows));
    assert o in all - multiset(page);
    assert |multiset(page)| == |page| && all == multiset(page) + (all - multiset(page));
    forall k | 0 <= k < |page|
      ensures !Newer(o, page[k])
    {
      var y := page[k];
      assert y in page;
    }
  }

  datatype ShardAnswer = Failed | Snapshot(rows: seq<Order>)

  /** The rows behind every answer. */
  ghost function Held(shards: seq<ShardAnswer>): (r: seq<seq<Order>>)
    ensures |r| == |shards| && forall s :: 0 <= s < |shards| && shards[s].Snapshot? ==> r[s] == shards[s].rows
  {
    seq(|shards|, s requires 0 <= s < |shards| => if shards[s].Snapshot? then shards[s].rows else [])
  }

  /** Every shard's own page, or None when one fails or refuses the negative LIMIT. */
  method AskAll(shards: seq<ShardAnswer>, after: Cursor, limit: int) returns (perShard: Option<seq<seq<Order>>>)
    requires limit >= 0 || shards != []
    ensures perShard.None? <==> limit < 0 || exists s :: 0 <= s < |shards| && shards[s].Failed?
    ensures perShard.Some? ==> perShard.value == QueryAll(Held(shards), after, limit)
  {
    var answers: seq<seq<Order>> := [];
    for s := 0 to |shards|
      invariant forall k :: 0 <= k < s ==> shards[k].Snapshot? && limit >= 0
      invariant limit >= 0 ==> answers == QueryAll(Held(shards)[..s], after, limit)
      invariant s == 0 ==> answers == []
    {
      if shards[s].Failed? || limit < 0 {
        return None;
      }
      QueryAllAppend(Held(shards)[..s], shards[s].rows, after, limit);
      assert Held(shards)[..s + 1] == Held(shards)[..s] + [shards[s].rows];
      answers := answers + [Query(shards[s].rows, after, limit)];
    }
    assert shards == [] || shards[0].Snapshot?;
    assert Held(shards)[..|shards|] == Held(shards);
    perShard := Some(answers);
  }

  /** One page, or None when a shard fails or Postgres refuses the negative LIMIT. */
  method PageRecent(shards: seq<ShardAnswer>, after: Cursor, limit: int)
    returns (page: Option<seq<Order>>, next: Cursor)
    requires limit >= 0 || shards != []
    ensures page.None? <==> limit < 0 || exists s :: 0 <= s < |shards| && shards[s].Failed?
    ensures page.Some? ==> page.value == Page(Held(shards), after, limit)
    ensures page.Some? ==> PlainPage(Held(shards), after, limit, page.value)
    ensures page.Some? ==>
              if page.value == [] then next == after
              else next.createdAt == page.value[|page.value| - 1].createdAt && next.id == page.value[|page.value| - 1].id
  {
    var perShard := AskAll(shards, after, limit);
    if perShard.None? {
      return None, FIRST_PAGE;
    }
    var merged := MergeDesc(perShard.value, limit);
    PageIsPlain(Held(shards), after, limit);
    page, next := Some(merged), NextCursor(merged, after);
  }

  lemma {:induction false} QueryAllAppend(shards: seq<seq<Order>>, last: seq<Order>, after: Cursor, limit: nat)
    ensures QueryAll(shards + [last], after, limit) == QueryAll(shards, after, limit) + [Query(last, after, limit)]
  {
    var l, r := QueryAll(shards + [last], after, limit), QueryAll(shards, after, limit) + [Query(last, after, limit)];
    forall k | 0 <= k < |l|
      ensures l[k] == r[k]
    {
    }
  }
}

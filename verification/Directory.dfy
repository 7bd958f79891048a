/**
 The directory topology: tenant to logical shard by hash, logical shard to physical shard by an
 editable table, with dual-write windows and pinned tenants.

 `Placement` is the directory's content as a value, which is also what a router caches; the class
 below is the object that operators edit in place.
 */
module Directory {
  import opened Hash

  datatype Placement = Placement(
    logicalCount: int,
    owners: seq<int>,           // logical -> physical
    migrating: map<int, int>,   // logical -> target physical
    pins: map<Word, int>)       // tenant -> physical

  predicate WellFormed(d: Placement) {
    d.logicalCount > 0 && |d.owners| == d.logicalCount
  }

  function Logical(d: Placement, tenant: Word): nat
    requires WellFormed(d)
    ensures Logical(d, tenant) < |d.owners|
  {
    Key(tenant) % d.logicalCount
  }

  function RouteRead(d: Placement, tenant: Word): int
    requires WellFormed(d)
  {
    if tenant in d.pins then d.pins[tenant] else d.owners[Logical(d, tenant)]
  }

  function RouteWrite(d: Placement, tenant: Word): seq<int>
    requires WellFormed(d)
  {
    var src := RouteRead(d, tenant);
    if tenant in d.pins then [src]
    else
      var l := Logical(d, tenant);
      if l in d.migrating && d.migrating[l] != src then [src, d.migrating[l]] else [src]
  }

  // ---- edits ----

  datatype Edit =
    | BeginMove(logical: int, target: int)
    | Commit(logical: int)
    | Pin(tenant: Word, physical: int)

  /** A commit of an open window writes the placement table; Go panics when that is out of range. */
  predicate CanApply(d: Placement, e: Edit) {
    e.Commit? && e.logical in d.migrating ==> 0 <= e.logical < |d.owners|
  }

  function Apply(d: Placement, e: Edit): Placement
    requires CanApply(d, e)
  {
    match e
    case BeginMove(l, target) => d.(migrating := d.migrating[l := target])
    case Commit(l) =>
      if l in d.migrating then d.(owners := d.owners[l := d.migrating[l]], migrating := d.migrating - {l}) else d
    case Pin(t, p) => d.(pins := d.pins[t := p])
  }

  class Directory {
    const logicalCount: int
    var owners: seq<int>
    var migrating: map<int, int>
    var pins: map<Word, int>

    function View(): Placement
      reads this
    {
      Placement(logicalCount, owners, migrating, pins)
    }

    /** `NewDirectory`: contiguous ranges, the last shard taking the remainder. */
    constructor (logicalCount: int, physicalCount: int)
      requires 0 < physicalCount <= logicalCount
      ensures View() == Placement(logicalCount, Ranges(logicalCount, physicalCount), map[], map[])
    {
      this.logicalCount := logicalCount;
      owners := [];
      migrating := map[];
      pins := map[];
      new;
      var per := logicalCount / physicalCount;
      DivAtLeastOne(logicalCount, physicalCount);
      for i := 0 to logicalCount
        invariant owners == Ranges(logicalCount, physicalCount)[..i]
        invariant migrating == map[] && pins == map[]
      {
        var p := i / per;
        if p >= physicalCount {
          p := physicalCount - 1;
        }
        owners := owners + [p];
      }
    }

    method BeginMove(logical: int, target: int)
      modifies this
      ensures View() == Apply(old(View()), Edit.BeginMove(logical, target))
      ensures migrating == old(migrating)[logical := target] && owners == old(owners) && pins == old(pins)
    {
      migrating := migrating[logical := target];
    }

    method Commit(logical: int)
      requires CanApply(View(), Edit.Commit(logical))
      modifies this
      ensures View() == Apply(old(View()), Edit.Commit(logical))
      ensures pins == old(pins) && migrating == old(migrating) - {logical}
      ensures owners == if logical in old(migrating) then old(owners)[logical := old(migrating)[logical]] else old(owners)
    {
      if logical in migrating {
        owners := owners[logical := migrating[logical]];
        migrating := migrating - {logical};
      }
    }

    method Pin(tenant: Word, physical: int)
      modifies this
      ensures View() == Apply(old(View()), Edit.Pin(tenant, physical))
      ensures pins == old(pins)[tenant := physical] && owners == old(owners) && migrating == old(migrating)
    {
      pins := pins[tenant := physical];
    }

    /** The doubling of `shardctl topology`, editing the placement table in place. */
    method SplitHalves(from: int)
      requires 0 < from <= |owners|
      modifies this`owners
      ensures owners == Split(old(owners), from)
      ensures |owners| == |old(owners)| && |owners| / from > 0
      ensures forall l :: 0 <= l < |owners| ==>
                owners[l] == if l % (|owners| / from) < |owners| / from / 2 then old(owners)[l] else old(owners)[l] + from
    {
      DivAtLeastOne(|owners|, from);
      ghost var before := owners;
      var per := |owners| / from;
      for l := 0 to |owners|
        invariant |owners| == |before| && owners[..l] == Split(before, from)[..l] && owners[l..] == before[l..]
      {
        assert owners[l] == before[l..][0];
        if l % per >= per / 2 {
          owners := owners[l := owners[l] + from];
        }
      }
    }

    method LogicalsOn(physical: int) returns (out: seq<int>)
      ensures out == OwnedBy(owners, physical)
    {
      out := [];
      for l := 0 to |owners|
        invariant out == OwnedBy(owners[..l], physical)
      {
        assert owners[..l + 1][..l] == owners[..l];
        if owners[l] == physical {
          out := out + [l];
        }
      }
      assert owners[..|owners|] == owners;
    }
  }

  // ---- routing ----

  // Every write set starts with the read shard, has at most one more shard, and never repeats one;
  // a pinned tenant is never dual-written.
  lemma WriteSetShape(d: Placement, tenant: Word)
    requires WellFormed(d)
    ensures var w := RouteWrite(d, tenant);
            && 1 <= |w| <= 2 && w[0] == RouteRead(d, tenant)
            && (|w| == 2 ==> w[0] != w[1])
            && (tenant in d.pins ==> |w| == 1)
            && (|w| == 2 <==> tenant !in d.pins && Key(tenant) % |d.owners| in d.migrating
                              && d.migrating[Key(tenant) % |d.owners|] != d.owners[Key(tenant) % |d.owners|])
            && (|w| == 2 ==> w[1] == d.migrating[Key(tenant) % |d.owners|])
  {
  }

  // A shard reads exactly the tenants pinned to it and the unpinned ones whose hash, modulo the number of
  // logical shards, is among those the shard lists as its own.
  lemma ReadsAreListed(d: Placement, tenant: Word, p: int)
    requires WellFormed(d)
    ensures tenant in d.pins ==> (RouteRead(d, tenant) == p <==> d.pins[tenant] == p)
    ensures tenant !in d.pins ==> (RouteRead(d, tenant) == p <==> Key(tenant) % |d.owners| in OwnedBy(d.owners, p))
  {
  }

  ghost predicate Edited(states: seq<Placement>, edits: seq<Edit>) {
    && |states| == |edits| + 1
    && forall i :: 0 <= i < |edits| ==> CanApply(states[i], edits[i]) && states[i + 1] == Apply(states[i], edits[i])
  }

  // No sequence of edits rehashes a tenant, or makes the map unusable.
  lemma {:induction false} EditsKeepLogical(states: seq<Placement>, edits: seq<Edit>, tenant: Word)
    requires Edited(states, edits) && WellFormed(states[0])
    ensures WellFormed(states[|edits|])
    ensures Logical(states[|edits|], tenant) == Logical(states[0], tenant)
    decreases |edits|
  {
    if edits != [] {
      var n := |edits| - 1;
      EditsKeepLogical(states[..n + 1], edits[..n], tenant);
    }
  }

  // A tenant's read shard changes only when that tenant is pinned elsewhere, or when the open window
  // of its own logical shard is committed to another node while it is not pinned.
  lemma EditMovesReadOnlyBy(d: Placement, e: Edit, tenant: Word)
    requires WellFormed(d) && CanApply(d, e)
    ensures WellFormed(Apply(d, e))
    ensures RouteRead(Apply(d, e), tenant) != RouteRead(d, tenant) <==>
            match e
            case Pin(t, p) => t == tenant && p != RouteRead(d, tenant)
            case Commit(l) => tenant !in d.pins && l == Logical(d, tenant) && l in d.migrating && d.migrating[l] != d.owners[l]
            case BeginMove(_, _) => false
  {
  }

  /** Which tenants a move of logical shard l to target concerns. */
  predicate Moves(d: Placement, l: int, target: int, tenant: Word)
    requires WellFormed(d)
  {
    tenant !in d.pins && Logical(d, tenant) == l && target != d.owners[l]
  }

  // Opening a window changes no read; committing it changes the reads of exactly the unpinned
  // tenants of that logical shard, to the target. Inside the window exactly those tenants are
  // written to both homes.
  lemma MoveChangesExactly(d: Placement, l: int, target: int, tenant: Word)
    requires WellFormed(d) && 0 <= l < |d.owners|
    ensures var open := Apply(d, BeginMove(l, target));
            var done := Apply(open, Commit(l));
            && WellFormed(open) && WellFormed(done)
            && RouteRead(open, tenant) == RouteRead(d, tenant)
            && (Moves(d, l, target, tenant) <==> RouteRead(done, tenant) != RouteRead(d, tenant))
            && (Moves(d, l, target, tenant) ==>
                  RouteWrite(open, tenant) == [RouteRead(d, tenant), target] && RouteWrite(done, tenant) == [target])
            && (!Moves(d, l, target, tenant) && (tenant in d.pins || Logical(d, tenant) != l) ==>
                  RouteWrite(open, tenant) == RouteWrite(done, tenant) == RouteWrite(d, tenant))
  {
  }

  // ---- placement tables ----

  function Ranges(logicalCount: int, physicalCount: int): (r: seq<int>)
    requires 0 < physicalCount <= logicalCount
    ensures |r| == logicalCount
  {
    DivAtLeastOne(logicalCount, physicalCount);
    var per := logicalCount / physicalCount;
    seq(logicalCount, i requires 0 <= i => if i / per >= physicalCount then physicalCount - 1 else i / per)
  }

  lemma DivAtLeastOne(n: int, m: int)
    requires 0 < m <= n
    ensures n / m >= 1 && n / m * m <= n < (n / m + 1) * m
  {
  }

  // Shard p owns exactly the logical shards p * per up to (p + 1) * per, the last shard all the rest:
  // every shard but the last owns floor(logical / physical) of them, and the table is monotone.
  lemma RangesAre(logicalCount: int, physicalCount: int, i: int, p: int)
    requires 0 < physicalCount <= logicalCount && 0 <= i < logicalCount && 0 <= p < physicalCount
    ensures var per := logicalCount / physicalCount;
            Ranges(logicalCount, physicalCount)[i] == p <==>
            p * per <= i && (p == physicalCount - 1 || i < (p + 1) * per)
  {
    DivAtLeastOne(logicalCount, physicalCount);
    var per := logicalCount / physicalCount;
    QuotientOf(i, per);
    ClampedRange(i, i / per, i % per, p, physicalCount - 1, per);
  }

  lemma ClampedRange(i: int, q: int, r: int, p: int, top: int, per: int)
    requires i == q * per + r && 0 <= r < per && p <= top
    ensures (if q >= top then top else q) == p <==> p * per <= i && (p == top || i < (p + 1) * per)
  {
    assert (p + 1) * per == p * per + per;
    assert (q + 1) * per == q * per + per;
    OrderByMultiples(p, q, per);
    OrderByMultiples(top, q, per);
  }

  lemma {:induction false} TimesMonotone(a: int, b: int, per: int)
    requires a <= b && per >= 0
    ensures a * per <= b * per
    decreases b - a
  {
    if a < b {
      TimesMonotone(a, b - 1, per);
      assert b * per == (b - 1) * per + per;
    }
  }

  lemma OrderByMultiples(p: int, q: int, per: int)
    requires per > 0
    ensures p < q ==> (p + 1) * per <= q * per
    ensures q < p ==> (q + 1) * per <= p * per
  {
    if p < q {
      TimesMonotone(p + 1, q, per);
    } else if q < p {
      TimesMonotone(q + 1, p, per);
    }
  }

  /** The logical shards of one physical shard, ascending. */
  function OwnedBy(owners: seq<int>, physical: int): (r: seq<int>)
    ensures forall l :: l in r <==> 0 <= l < |owners| && owners[l] == physical
    ensures forall i, j :: 0 <= i < j < |r| ==> r[i] < r[j]
  {
    if owners == [] then []
    else
      var n := |owners| - 1;
      var rest := OwnedBy(owners[..n], physical);
      assert forall i :: 0 <= i < |rest| ==> rest[i] in rest && rest[i] < n;
      if owners[n] == physical then rest + [n] else rest
  }

  // Every logical shard is listed under exactly one physical shard.
  lemma OwnersPartition(owners: seq<int>, l: int, physical: int)
    requires 0 <= l < |owners|
    ensures l in OwnedBy(owners, physical) <==> physical == owners[l]
  {
  }

  /** The doubling of `shardctl topology`: the second half of every range moves to a new shard. */
  function Split(owners: seq<int>, from: int): seq<int>
    requires 0 < from <= |owners|
  {
    DivAtLeastOne(|owners|, from);
    var per := |owners| / from;
    seq(|owners|, l requires 0 <= l < |owners| => if l % per >= per / 2 then owners[l] + from else owners[l])
  }

  lemma RangesWhenDividing(logicalCount: int, from: int, l: int)
    requires 0 < from <= logicalCount && logicalCount % from == 0 && 0 <= l < logicalCount
    ensures var per := logicalCount / from;
            per > 0 && 0 <= l / per < from && Ranges(logicalCount, from)[l] == l / per
  {
    var per := logicalCount / from;
    DivAtLeastOne(logicalCount, from);
    assert logicalCount == from * per;
    QuotientOf(l, per);
    OrderByMultiples(from - 1, l / per, per);
  }

  lemma QuotientOf(l: nat, per: nat)
    requires per > 0
    ensures l == l / per * per + l % per && 0 <= l % per < per && l / per >= 0
  {
  }

  lemma HalfOfRange(l: int, q: int, r: int, p: int, per: int)
    requires l == q * per + r && 0 <= r < per
    ensures q == p && r < per / 2 <==> p * per <= l < p * per + per / 2
    ensures q == p && r >= per / 2 <==> p * per + per / 2 <= l < (p + 1) * per
  {
    assert (p + 1) * per == p * per + per;
    assert (q + 1) * per == q * per + per;
    OrderByMultiples(p, q, per);
  }

  // When the shard count divides the logical count, splitting leaves the first floor(half) of each
  // shard's range in place and moves the others to its paired new shard.
  lemma SplitPairsShards(logicalCount: int, from: int, p: int, l: int)
    requires 0 < from <= logicalCount && logicalCount % from == 0
    requires 0 <= p < from && 0 <= l < logicalCount
    ensures var per, after := logicalCount / from, Split(Ranges(logicalCount, from), from);
            && (after[l] == p <==> p * per <= l < p * per + per / 2)
            && (after[l] == p + from <==> p * per + per / 2 <= l < (p + 1) * per)
  {
    var per := logicalCount / from;
    var owners := Ranges(logicalCount, from);
    RangesWhenDividing(logicalCount, from, l);
    QuotientOf(l, per);
    HalfOfRange(l, l / per, l % per, p, per);
    SplitAt(owners, from, l);
  }

  lemma SplitAt(owners: seq<int>, from: int, l: int)
    requires 0 < from <= |owners| && 0 <= l < |owners|
    ensures |owners| / from > 0
    ensures |Split(owners, from)| == |owners|
    ensures var per := |owners| / from;
            Split(owners, from)[l] == if l % per >= per / 2 then owners[l] + from else owners[l]
  {
  }

  // ---- checkPlacementFits ----

  ghost predicate Below<K(!new)>(targets: map<K, int>, n: int) {
    forall k :: k in targets ==> targets[k] < n
  }

  ghost predicate AllBelow(d: Placement, n: int) {
    && (forall i :: 0 <= i < |d.owners| ==> d.owners[i] < n)
    && Below(d.migrating, n)
    && Below(d.pins, n)
  }

  ghost predicate NonNegative(d: Placement) {
    && (forall i :: 0 <= i < |d.owners| ==> d.owners[i] >= 0)
    && (forall l :: l in d.migrating ==> d.migrating[l] >= 0)
    && (forall t :: t in d.pins ==> d.pins[t] >= 0)
  }

  /** The running maximum over one of the maps, whose iteration order is arbitrary. */
  method NoteAll<K(!new)>(targets: map<K, int>, start: int, ghost n: int) returns (highest: int)
    ensures highest < n <==> start < n && Below(targets, n)
  {
    highest := start;
    var left := targets.Keys;
    while left != {}
      invariant left <= targets.Keys
      invariant highest >= start && forall k :: k in targets && k !in left ==> targets[k] <= highest
      invariant start < n && Below(targets, n) ==> highest < n
      decreases |left|
    {
      var k :| k in left;
      left := left - {k};
      if targets[k] > highest {
        highest := targets[k];
      }
    }
  }

  /** Accepts exactly the maps whose placements, window targets and pins all have a pool below nShards. */
  method CheckPlacementFits(d: Placement, nShards: int) returns (ok: bool)
    requires nShards >= 0
    ensures ok <==> AllBelow(d, nShards)
  {
    var highest := -1;
    for i := 0 to |d.owners|
      invariant highest < nShards <==> forall k :: 0 <= k < i ==> d.owners[k] < nShards
    {
      if d.owners[i] > highest {
        highest := d.owners[i];
      }
    }
    highest := NoteAll(d.migrating, highest, nShards);
    highest := NoteAll(d.pins, highest, nShards);
    return highest < nShards;
  }

  // With pools 0..n opened, an accepted directory never routes to a missing pool.
  lemma AcceptedRoutesHavePools(d: Placement, n: int, tenant: Word, s: int)
    requires WellFormed(d) && NonNegative(d) && AllBelow(d, n)
    requires s == RouteRead(d, tenant) || s in RouteWrite(d, tenant)
    ensures 0 <= s < n
  {
  }
}

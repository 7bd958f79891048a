/**
 Consistent hashing with virtual nodes.

 A tenant belongs to the shard of the first point clockwise from it. The class keeps the points
 sorted and searches them; the specification looks only at which points exist.
 */
module Ring {
  import opened Bits
  import opened Common
  import opened Hash
  import Sums

  datatype Point = Point(hash: Word, shard: int)

  /** `uint64(shard)<<32 | uint64(i)`. */
  function PointKey(shard: int, i: nat): Word
    requires i < 0x1_0000_0000
  {
    shard % 0x1_0000_0000 * 0x1_0000_0000 + i
  }

  function PointOf(shard: int, i: nat): Point
    requires i < 0x1_0000_0000
  {
    Point(RingPos(Key(PointKey(shard, i))), shard)
  }

  function TenantPos(t: Word): Word {
    RingPos(Key(t))
  }

  function VnodePoints(shard: int, vnodes: nat): seq<Point>
    requires vnodes <= 0x1_0000_0000
  {
    seq(vnodes, i requires 0 <= i < vnodes => PointOf(shard, i))
  }

  predicate Sorted(points: seq<Point>) {
    forall i, j :: 0 <= i < j < |points| ==> points[i].hash <= points[j].hash
  }

  // ---- specification ----

  /** p is the nearest of the points going clockwise from h, h itself included. */
  ghost predicate Successor(points: set<Point>, h: Word, p: Point) {
    p in points && forall q :: q in points ==> Distance(h, p.hash) <= Distance(h, q.hash)
  }

  /** What RouteRead may answer for a tenant at h. */
  ghost predicate Owner(points: set<Point>, h: Word, shard: int) {
    if points == {} then shard == 0 else exists p :: Successor(points, h, p) && p.shard == shard
  }

  ghost predicate NoCrossCollision(points: set<Point>) {
    forall p, q :: p in points && q in points && p.hash == q.hash ==> p.shard == q.shard
  }

  /** The points of a ring that holds these shards. */
  ghost function PointsOf(shards: set<int>, vnodes: nat): set<Point>
    requires vnodes <= 0x1_0000_0000
  {
    set s, i | s in shards && 0 <= i < vnodes :: PointOf(s, i)
  }

  lemma DistanceInjective(h: Word, a: Word, b: Word)
    requires Distance(h, a) == Distance(h, b)
    ensures a == b
  {
  }

  // The owner is unique as long as no two shards share a position.
  lemma OwnerUnique(points: set<Point>, h: Word, s: int, s': int)
    requires NoCrossCollision(points) && Owner(points, h, s) && Owner(points, h, s')
    ensures s == s'
  {
    if points != {} {
      var p :| Successor(points, h, p) && p.shard == s;
      var q :| Successor(points, h, q) && q.shard == s';
      DistanceInjective(h, p.hash, q.hash);
    }
  }

  // Adding points moves a tenant only onto the shard of an added point.
  lemma GrowingMovesOntoAdded(points: set<Point>, added: set<Point>, h: Word, was: int, now: int)
    requires points != {} && NoCrossCollision(points)
    requires Owner(points, h, was) && Owner(points + added, h, now)
    ensures now == was || exists q :: q in added && q.shard == now
  {
    var p :| Successor(points, h, p) && p.shard == was;
    var q :| Successor(points + added, h, q) && q.shard == now;
    if q in points {
      DistanceInjective(h, p.hash, q.hash);
    }
  }

  // ---- no collisions within one page of 256 shard numbers, with at most 256 vnodes each ----

  // One shard's first 256 points are pairwise distinct, whatever the shard.
  lemma OneShardDistinct(shard: int, i: nat, j: nat)
    requires i < 256 && j < 256
    ensures PointOf(shard, i) == PointOf(shard, j) ==> i == j
  {
    var t, u := PointKey(shard, i), PointKey(shard, j);
    RingPosInjective(Key(t), Key(u));
    PointKeyPrefix(shard, i);
    PointKeyPrefix(shard, j);
    if Key(t) == Key(u) {
      KeyInjectiveInLastByte(t, u);
    }
  }

  lemma PointKeyPrefix(shard: int, i: nat)
    requires i < 256
    ensures PointKey(shard, i) / 256 == shard % 0x1_0000_0000 * 0x100_0000
  {
    var high := shard % 0x1_0000_0000 * 0x100_0000;
    assert PointKey(shard, i) == high * 256 + i;
  }

  /** Hash state of a point key before its last byte; c is the state before the shard's low byte. */
  function ShardState(c: Word, low: nat): Word
    requires low < 256
  {
    XorWord(c, low) * 0x9ffaac085635bc91 % 0x1_0000_0000_0000_0000
  }

  lemma MixZero(h: Word)
    ensures Mix(h, 0) == h * 0x100000001b3 % 0x1_0000_0000_0000_0000
  {
    XorZero(h);
  }

  lemma FoldZero(v: nat, w: Word, n: nat)
    requires w == v * 256
    ensures Fold(w, n + 1) == Fold(v, n) * 0x100000001b3 % 0x1_0000_0000_0000_0000
  {
    FoldNext(v, 0, n);
    MixZero(Fold(v, n));
  }

  lemma FourPrimes(x: Word)
    ensures var a: Word := x * 0x100000001b3 % 0x1_0000_0000_0000_0000;
            var b: Word := a * 0x100000001b3 % 0x1_0000_0000_0000_0000;
            var c: Word := b * 0x100000001b3 % 0x1_0000_0000_0000_0000;
            c * 0x100000001b3 % 0x1_0000_0000_0000_0000 == x * 0x9ffaac085635bc91 % 0x1_0000_0000_0000_0000
  {
    var m, f := 0x1_0000_0000_0000_0000, 0x100000001b3;
    TwoFactors(x, f, f, m);
    TwoFactors(x, f * f, f, m);
    TwoFactors(x, f * f * f, f, m);
    TwoFactors(x, 1, f * f * f * f, m);
    assert f * f * f * f == 0x9ffaac085635bc91 + m * ((f * f * f * f) / m);
    SameModulo(x, f * f * f * f, 0x9ffaac085635bc91, m, (f * f * f * f) / m);
  }

  lemma TwoFactors(x: int, f: int, g: int, m: int)
    requires m > 0
    ensures (x * f % m) * g % m == x * (f * g) % m
  {
    ModTimes(x * f, g, m);
    assert x * f * g == x * (f * g);
  }

  lemma SameModulo(x: int, f: int, g: int, m: int, q: int)
    requires m > 0 && f == g + m * q
    ensures x * f % m == x * g % m
  {
    DivMod(x * g, m);
    var a, r := x * g / m, x * g % m;
    assert x * f == (a + x * q) * m + r by {
      assert x * f == x * g + x * (m * q);
      assert x * (m * q) == (x * q) * m;
      assert (a + x * q) * m == a * m + (x * q) * m;
    }
    DivUnique(x * f, m, a + x * q, r);
  }

  lemma KeyOfPoint(page: nat, low: nat, i: nat)
    requires page < 0x100_0000 && low < 256 && i < 256
    ensures Key(PointKey(page * 256 + low, i)) == Mix(ShardState(Fold(page, 3), low), i)
  {
    var shard := page * 256 + low;
    assert PointKey(shard, i) == shard * 0x100_0000 * 256 + i;
    FoldNext(shard * 0x100_0000, i, 7);
    ThreeZeros(shard);
    FoldNext(page, low, 3);
    FourPrimes(XorWord(Fold(page, 3), low));
  }

  lemma ThreeZeros(shard: nat)
    requires shard < 0x1_0000_0000
    ensures var a: Word := Fold(shard, 4) * 0x100000001b3 % 0x1_0000_0000_0000_0000;
            var b: Word := a * 0x100000001b3 % 0x1_0000_0000_0000_0000;
            Fold(shard * 0x100_0000, 7) == b * 0x100000001b3 % 0x1_0000_0000_0000_0000
  {
    FoldZero(shard, shard * 0x100, 4);
    FoldZero(shard * 0x100, shard * 0x1_0000, 5);
    FoldZero(shard * 0x1_0000, shard * 0x100_0000, 6);
  }

  lemma FoldNext(v: nat, octet: nat, n: nat)
    requires octet < 256 && v * 256 + octet < 0x1_0000_0000_0000_0000
    ensures Fold(v * 256 + octet, n + 1) == Mix(Fold(v, n), octet)
  {
    assert (v * 256 + octet) / 256 == v && (v * 256 + octet) % 256 == octet;
  }

  // Multiples of the fourth power of the prime stay far from zero.
  lemma FarFromZero(d: int)
    requires 0 < d < 256
    ensures 255 < d * 0x9ffaac085635bc91 % 0x1_0000_0000_0000_0000 < 0x1_0000_0000_0000_0000 - 255
  {
    var a, b := d / 8, d % 8;
    var q := 5 * a + [-1, 0, 1, 1, 2, 3, 3, 4][b];
    var r := d * 0x9ffaac085635bc91 - q * 0x1_0000_0000_0000_0000;
    assert d == 8 * a + b;
    assert 255 < r < 0x1_0000_0000_0000_0000 - 255;
    DivUnique(d * 0x9ffaac085635bc91, 0x1_0000_0000_0000_0000, q, r);
  }

  lemma ShardStatesApart(c: Word, s: nat, s': nat)
    requires s < s' < 256
    ensures ShardState(c, s) / 256 != ShardState(c, s') / 256
  {
    var x, y := XorWord(c, s), XorWord(c, s');
    XorShiftMask(c, s, 8);
    XorShiftMask(c, s', 8);
    Pow2Values();
    ShiftMaskIsDivMod(s, 8);
    ShiftMaskIsDivMod(s', 8);
    ShiftMaskIsDivMod(x, 8);
    ShiftMaskIsDivMod(y, 8);
    assert x / 256 == y / 256;
    if x == y {
      XorCancel(c, s, s');
    } else if x < y {
      CloseIsMultiple(x, y);
    } else {
      CloseIsMultiple(y, x);
    }
  }

  lemma CloseIsMultiple(x: Word, y: Word)
    requires x < y && y - x < 256
    ensures (x * 0x9ffaac085635bc91 % 0x1_0000_0000_0000_0000) / 256
            != (y * 0x9ffaac085635bc91 % 0x1_0000_0000_0000_0000) / 256
  {
    FarFromZero(y - x);
    var m := 0x1_0000_0000_0000_0000;
    var a, b := x * 0x9ffaac085635bc91, y * 0x9ffaac085635bc91;
    var d := (y - x) * 0x9ffaac085635bc91;
    assert b == a + d;
    ModOfSum(a, d);
  }

  lemma ModOfSum(a: nat, d: nat)
    ensures var m := 0x1_0000_0000_0000_0000;
            (a + d) % m == a % m + d % m || (a + d) % m == a % m + d % m - m
  {
  }

  lemma PositionsDistinct(page: nat, s: nat, i: nat, s': nat, i': nat)
    requires page < 0x100_0000 && i < 256 && i' < 256
    requires page * 256 <= s < page * 256 + 256 && page * 256 <= s' < page * 256 + 256
    requires PointOf(s, i).hash == PointOf(s', i').hash
    ensures s == s'
  {
    SamePositionSameKey(s, i, s', i');
    KeysDistinct(page, s - page * 256, s, i, s' - page * 256, s', i');
  }

  lemma SamePositionSameKey(s: int, i: nat, s': int, i': nat)
    requires i < 256 && i' < 256 && PointOf(s, i).hash == PointOf(s', i').hash
    ensures Key(PointKey(s, i)) == Key(PointKey(s', i'))
  {
    RingPosInjective(Key(PointKey(s, i)), Key(PointKey(s', i')));
  }

  lemma KeysDistinct(page: nat, low: nat, s: nat, i: nat, low': nat, s': nat, i': nat)
    requires page < 0x100_0000 && low < 256 && low' < 256 && i < 256 && i' < 256
    requires s == page * 256 + low && s' == page * 256 + low'
    requires Key(PointKey(s, i)) == Key(PointKey(s', i'))
    ensures low == low'
  {
    KeyOfPoint(page, low, i);
    KeyOfPoint(page, low', i');
    StatesDistinct(Fold(page, 3), low, i, low', i');
  }

  lemma StatesDistinct(c: Word, s: nat, i: nat, s': nat, i': nat)
    requires s < 256 && s' < 256 && i < 256 && i' < 256
    requires Mix(ShardState(c, s), i) == Mix(ShardState(c, s'), i')
    ensures s == s'
  {
    var x, y := XorWord(ShardState(c, s), i), XorWord(ShardState(c, s'), i');
    TimesPrimeInvertible(x);
    TimesPrimeInvertible(y);
    SameHighBits(ShardState(c, s), i);
    SameHighBits(ShardState(c, s'), i');
    if s < s' {
      ShardStatesApart(c, s, s');
    } else if s' < s {
      ShardStatesApart(c, s', s);
    }
  }

  /** Shard numbers that agree in all but their low byte; page 0 is shards 0 to 255. */
  ghost predicate OnePage(shards: set<int>, page: nat) {
    page < 0x100_0000 && forall s :: s in shards ==> page * 256 <= s < page * 256 + 256
  }

  lemma OnePageNeverCollides(shards: set<int>, page: nat, vnodes: nat)
    requires OnePage(shards, page) && vnodes <= 256
    ensures NoCrossCollision(PointsOf(shards, vnodes))
  {
    forall p, q | p in PointsOf(shards, vnodes) && q in PointsOf(shards, vnodes) && p.hash == q.hash
      ensures p.shard == q.shard
    {
      var s, i :| s in shards && 0 <= i < vnodes && p == PointOf(s, i);
      var s', i' :| s' in shards && 0 <= i' < vnodes && q == PointOf(s', i');
      PositionsDistinct(page, s, i, s', i');
    }
  }

  // Within a page and with at most 256 vnodes, growing a ring moves a tenant only onto an added
  // shard, with no assumption about hash values.
  lemma GrowingRing(before: set<int>, joining: set<int>, page: nat, vnodes: nat, h: Word, was: int, now: int)
    requires OnePage(before + joining, page) && 0 < vnodes <= 256 && before != {}
    ensures Owner(PointsOf(before, vnodes), h, was) && Owner(PointsOf(before + joining, vnodes), h, now) ==>
              now == was || now in joining - before
  {
    GrowthPoints(before, joining, page, vnodes);
    MovesOntoShards(PointsOf(before, vnodes), PointsOf(joining - before, vnodes), PointsOf(before + joining, vnodes),
                    joining - before, h, was, now);
  }

  lemma GrowthPoints(before: set<int>, joining: set<int>, page: nat, vnodes: nat)
    requires OnePage(before + joining, page) && 0 < vnodes <= 256 && before != {}
    ensures PointsOf(before, vnodes) != {} && NoCrossCollision(PointsOf(before, vnodes))
    ensures PointsOf(before + joining, vnodes) == PointsOf(before, vnodes) + PointsOf(joining - before, vnodes)
    ensures forall q :: q in PointsOf(joining - before, vnodes) ==> q.shard in joining - before
  {
    OnePageNeverCollides(before, page, vnodes);
    var some := Sums.Pick(before);
    HasPoint(before, some, vnodes);
    ShardsOfPoints(joining - before, vnodes);
    PointsOfUnion(before, joining, vnodes);
  }

  lemma MovesOntoShards(points: set<Point>, added: set<Point>, all: set<Point>, shards: set<int>, h: Word, was: int, now: int)
    requires points != {} && NoCrossCollision(points) && all == points + added
    requires forall q :: q in added ==> q.shard in shards
    ensures Owner(points, h, was) && Owner(all, h, now) ==> now == was || now in shards
  {
    if Owner(points, h, was) && Owner(all, h, now) {
      GrowingMovesOntoAdded(points, added, h, was, now);
    }
  }

  // The order in which shards were added, or added again, does not affect routing, wherever no two
  // shards share a position.
  lemma BuildOrderIrrelevant(a: seq<int>, b: seq<int>, vnodes: nat, h: Word, inA: int, inB: int)
    requires vnodes <= 0x1_0000_0000 && Elements(a) == Elements(b)
    requires NoCrossCollision(PointsOf(Elements(a), vnodes))
    ensures Owner(PointsOf(Elements(a), vnodes), h, inA) && Owner(PointsOf(Elements(b), vnodes), h, inB) ==> inA == inB
  {
    UniqueIn(PointsOf(Elements(a), vnodes), PointsOf(Elements(b), vnodes), h, inA, inB);
  }

  // Within a page and with at most 256 vnodes that needs no assumption about hash values.
  lemma PageBuildOrderIrrelevant(a: seq<int>, b: seq<int>, page: nat, vnodes: nat, h: Word, inA: int, inB: int)
    requires Elements(a) == Elements(b) && OnePage(Elements(a), page) && vnodes <= 256
    ensures Owner(PointsOf(Elements(a), vnodes), h, inA) && Owner(PointsOf(Elements(b), vnodes), h, inB) ==> inA == inB
  {
    OnePageNeverCollides(Elements(a), page, vnodes);
    BuildOrderIrrelevant(a, b, vnodes, h, inA, inB);
  }

  lemma UniqueIn(a: set<Point>, b: set<Point>, h: Word, inA: int, inB: int)
    requires NoCrossCollision(a) && a == b
    ensures Owner(a, h, inA) && Owner(b, h, inB) ==> inA == inB
  {
    if Owner(a, h, inA) && Owner(b, h, inB) {
      OwnerUnique(a, h, inA, inB);
    }
  }

  // A tenant whose id is the key of a virtual node goes through the same hash and the same finalizer as
  // that node, so it is owned by the node's shard.
  lemma VnodeKeyRoutesHome(shards: set<int>, vnodes: nat, t: Word, s: int, i: nat, owner: int)
    requires vnodes <= 0x1_0000_0000 && NoCrossCollision(PointsOf(shards, vnodes))
    requires s in shards && i < vnodes && t == s % 0x1_0000_0000 * 0x1_0000_0000 + i
    requires Owner(PointsOf(shards, vnodes), TenantPos(t), owner)
    ensures owner == s
  {
    VnodeAt(t, s, i);
    assert PointOf(s, i) in PointsOf(shards, vnodes);
    OwnerAtPoint(PointsOf(shards, vnodes), PointOf(s, i), TenantPos(t), owner);
  }

  lemma VnodeAt(t: Word, s: int, i: nat)
    requires i < 0x1_0000_0000 && t == s % 0x1_0000_0000 * 0x1_0000_0000 + i
    ensures PointOf(s, i).hash == TenantPos(t) && PointOf(s, i).shard == s
  {
  }

  lemma OwnerAtPoint(points: set<Point>, p: Point, h: Word, owner: int)
    requires NoCrossCollision(points) && p in points && p.hash == h && Owner(points, h, owner)
    ensures owner == p.shard
  {
    assert Successor(points, h, p);
    OwnerUnique(points, h, owner, p.shard);
  }

  // In a ring of one page that has a shard 0, the tenants with ids below the number of virtual nodes, the
  // oldest ones, all share it.
  lemma LowestTenantsShareShardZero(shards: set<int>, vnodes: nat, t: Word, owner: int)
    requires OnePage(shards, 0) && vnodes <= 256 && 0 in shards && t < vnodes
    requires Owner(PointsOf(shards, vnodes), TenantPos(t), owner)
    ensures owner == 0
  {
    OnePageNeverCollides(shards, 0, vnodes);
    VnodeKeyRoutesHome(shards, vnodes, t, 0, t, owner);
  }

  lemma ShardsOfPoints(shards: set<int>, vnodes: nat)
    requires vnodes <= 0x1_0000_0000
    ensures forall p :: p in PointsOf(shards, vnodes) ==> p.shard in shards
  {
  }

  lemma HasPoint(shards: set<int>, shard: int, vnodes: nat)
    requires 0 < vnodes <= 0x1_0000_0000 && shard in shards
    ensures PointsOf(shards, vnodes) != {}
  {
    assert PointOf(shard, 0) in PointsOf(shards, vnodes);
  }

  lemma PointsOfUnion(a: set<int>, b: set<int>, vnodes: nat)
    requires vnodes <= 0x1_0000_0000
    ensures PointsOf(a + b, vnodes) == PointsOf(a, vnodes) + PointsOf(b - a, vnodes)
  {
    forall p
      ensures p in PointsOf(a + b, vnodes) <==> p in PointsOf(a, vnodes) || p in PointsOf(b - a, vnodes)
    {
      if p in PointsOf(a + b, vnodes) {
        var s, i :| s in a + b && 0 <= i < vnodes && p == PointOf(s, i);
        assert s in a || s in b - a;
      }
    }
  }

  // ---- the ring itself ----

  function Insert(points: seq<Point>, p: Point): (r: seq<Point>)
    requires Sorted(points)
    ensures Sorted(r) && r != []
    ensures r[0] == p || (points != [] && r[0] == points[0])
  {
    if points == [] || p.hash < points[0].hash then [p] + points
    else [points[0]] + Insert(points[1..], p)
  }

  lemma {:induction false} InsertAdds(points: seq<Point>, p: Point)
    requires Sorted(points)
    ensures multiset(Insert(points, p)) == multiset(points) + multiset{p}
    decreases |points|
  {
    if points != [] {
      InsertAdds(points[1..], p);
      assert points == [points[0]] + points[1..];
    }
  }

  /** `sort.Slice` by hash: some sorted permutation, with nothing said about equal hashes. */
  method SortByHash(points: seq<Point>) returns (sorted: seq<Point>)
    ensures Sorted(sorted) && multiset(sorted) == multiset(points)
  {
    sorted := [];
    for n := 0 to |points|
      invariant Sorted(sorted) && multiset(sorted) == multiset(points[..n])
    {
      assert points[..n + 1] == points[..n] + [points[n]];
      InsertAdds(sorted, points[n]);
      sorted := Insert(sorted, points[n]);
    }
    assert points[..|points|] == points;
  }

  lemma SameElements(a: seq<Point>, b: seq<Point>)
    requires multiset(a) == multiset(b)
    ensures Elements(a) == Elements(b)
  {
    forall p
      ensures p in a <==> p in b
    {
      assert p in a <==> p in multiset(a);
      assert p in b <==> p in multiset(b);
    }
  }

  class Ring {
    var points: seq<Point>
    var shards: seq<int>
    const vnodes: nat

    ghost predicate Valid()
      reads this
    {
      && vnodes <= 0x1_0000_0000
      && Sorted(points)
      && Elements(points) == PointsOf(Elements(shards), vnodes)
    }

    constructor (shards: seq<int>, vnodesPerShard: nat)
      requires vnodesPerShard <= 0x1_0000_0000
      ensures Valid() && this.shards == shards && vnodes == vnodesPerShard
    {
      vnodes := vnodesPerShard;
      points := [];
      this.shards := [];
      new;
      for k := 0 to |shards|
        invariant Valid() && this.shards == shards[..k]
      {
        Add(shards[k]);
        assert shards[..k + 1] == shards[..k] + [shards[k]];
      }
      assert shards[..|shards|] == shards;
    }

    method Add(shard: int)
      requires Valid()
      modifies this
      ensures Valid() && shards == old(shards) + [shard]
      ensures multiset(points) == multiset(old(points)) + multiset(VnodePoints(shard, vnodes))
    {
      var added: seq<Point> := [];
      for i := 0 to vnodes
        invariant added == VnodePoints(shard, vnodes)[..i]
        invariant points == old(points) + added
        invariant shards == old(shards)
      {
        points := points + [PointOf(shard, i)];
        added := added + [PointOf(shard, i)];
      }
      shards := shards + [shard];
      ghost var unsorted := points;
      points := SortByHash(points);
      SameElements(points, unsorted);
      PointsAfterAdd(old(points), old(shards), vnodes, shard, unsorted);
    }

    /** First point at or after the tenant's position, wrapping around. */
    method RouteRead(t: Word) returns (shard: int)
      requires Valid()
      ensures Owner(PointsOf(Elements(shards), vnodes), TenantPos(t), shard)
    {
      ghost var all := PointsOf(Elements(shards), vnodes);
      if |points| == 0 {
        return 0;
      }
      assert points[0] in all;
      var h := TenantPos(t);
      var i, j := 0, |points|;
      while i < j
        invariant 0 <= i <= j <= |points|
        invariant forall k :: 0 <= k < i ==> points[k].hash < h
        invariant forall k :: j <= k < |points| ==> points[k].hash >= h
      {
        var mid := (i + j) / 2;
        if points[mid].hash < h {
          i := mid + 1;
        } else {
          j := mid;
        }
      }
      SearchFindsSuccessor(points, h, i);
      if i == |points| {
        i := 0;
      }
      return points[i].shard;
    }
  }

  lemma PointsAfterAdd(points: seq<Point>, shards: seq<int>, vnodes: nat, shard: int, unsorted: seq<Point>)
    requires vnodes <= 0x1_0000_0000
    requires Elements(points) == PointsOf(Elements(shards), vnodes)
    requires unsorted == points + VnodePoints(shard, vnodes)
    ensures Elements(unsorted) == PointsOf(Elements(shards + [shard]), vnodes)
  {
    var now := PointsOf(Elements(shards + [shard]), vnodes);
    forall p
      ensures p in unsorted <==> p in now
    {
      if p in unsorted {
        if p in points {
          assert p in PointsOf(Elements(shards), vnodes);
        } else {
          var i :| 0 <= i < vnodes && VnodePoints(shard, vnodes)[i] == p;
        }
      }
      if p in now {
        var s, i :| s in shards + [shard] && 0 <= i < vnodes && p == PointOf(s, i);
        if s == shard {
          assert VnodePoints(shard, vnodes)[i] == p;
          assert unsorted[|points| + i] == p;
        } else {
          assert p in Elements(points);
        }
      }
    }
  }

  // The index a binary search returns, taken modulo the length, is the circular successor.
  lemma SearchFindsSuccessor(points: seq<Point>, h: Word, i: nat)
    requires Sorted(points) && points != [] && i <= |points|
    requires forall k :: 0 <= k < i ==> points[k].hash < h
    requires forall k :: i <= k < |points| ==> points[k].hash >= h
    ensures Successor(Elements(points), h, points[if i == |points| then 0 else i])
  {
    var found := points[if i == |points| then 0 else i];
    forall q | q in points
      ensures Distance(h, found.hash) <= Distance(h, q.hash)
    {
      var k :| 0 <= k < |points| && points[k] == q;
      if i == |points| {
        assert k > 0 ==> points[0].hash <= q.hash;
      } else if k >= i {
        assert k > i ==> found.hash <= q.hash;
      }
    }
  }
}

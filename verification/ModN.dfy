/** `ModN`: the shard is the hash modulo the number of shards. */
module ModN {
  import opened Bits
  import opened Hash
  import opened HashGolden

  datatype ModN = ModN(n: int) {
    function RouteRead(t: Word): int
      requires n > 0
    {
      Key(t) % n
    }

    function RouteWrite(t: Word): seq<int>
      requires n > 0
    {
      [RouteRead(t)]
    }
  }

  predicate BlockFits(block: nat, k: nat) {
    (block + 1) * Pow2(k) <= 0x1_0000_0000_0000_0000
  }

  // Exact balance: with 2^k shards, k up to 8, every shard owns exactly one id of every aligned
  // block of 2^k ids.
  lemma OneIdPerShardInBlock(block: nat, k: nat, shard: nat)
    requires k <= 8 && shard < Pow2(k) && BlockFits(block, k)
    ensures exists t: Word :: InBlock(t, block, k) && ModN(Pow2(k)).RouteRead(t) == shard
    ensures forall t: Word, u: Word | InBlock(t, block, k) && InBlock(u, block, k) ::
              ModN(Pow2(k)).RouteRead(t) == ModN(Pow2(k)).RouteRead(u) == shard ==> t == u
  {
    var id: Word := IdWithResidue(block, k, shard);
    assert InBlock(id, block, k) && ModN(Pow2(k)).RouteRead(id) == shard;
    forall t: Word, u: Word | InBlock(t, block, k) && InBlock(u, block, k)
      ensures ModN(Pow2(k)).RouteRead(t) == ModN(Pow2(k)).RouteRead(u) == shard ==> t == u
    {
      if ModN(Pow2(k)).RouteRead(t) == ModN(Pow2(k)).RouteRead(u) {
        ResidueInjective(t, u, block, k);
      }
    }
  }

  // Doubling from 2^k shards: a tenant either stays or moves up by 2^k, and it moves exactly when its
  // new shard is one of the added ones.
  lemma DoublingMovesUp(t: Word, k: nat)
    ensures var was, now := ModN(Pow2(k)).RouteRead(t), ModN(Pow2(k + 1)).RouteRead(t);
            && (now != was <==> now >= Pow2(k))
            && (now != was ==> now == was + Pow2(k))
  {
    var h, p := Key(t), Pow2(k);
    var now := h % (2 * p);
    ModOfMod(h, p, 2);
    if now < p {
      DivUnique(now, p, 0, now);
    } else {
      DivUnique(now, p, 1, now - p);
    }
  }

  /** The ids of a block that a doubling moves. */
  ghost function Movers(block: nat, k: nat): set<Word>
    requires BlockFits(block, k + 1)
  {
    set t: Word | block * Pow2(k + 1) <= t < (block + 1) * Pow2(k + 1)
                  && ModN(Pow2(k)).RouteRead(t) != ModN(Pow2(k + 1)).RouteRead(t)
  }

  // Exactly half of every aligned block of 2^(k+1) ids moves when 2^k shards are doubled.
  lemma DoublingMovesHalf(block: nat, k: nat)
    requires k <= 7 && BlockFits(block, k + 1)
    ensures |Movers(block, k)| == Pow2(k)
  {
    var ids := IdsBetween(block, k + 1, Pow2(k), 2 * Pow2(k));
    forall t: Word
      ensures t in Movers(block, k) <==> t in ids
    {
      MoverHasUpperResidue(t, block, k);
    }
    assert Movers(block, k) == ids;
    IdsCount(block, k + 1, Pow2(k), 2 * Pow2(k));
  }

  lemma MoverHasUpperResidue(t: Word, block: nat, k: nat)
    requires k <= 7 && BlockFits(block, k + 1)
    ensures t in Movers(block, k) <==> t in IdsBetween(block, k + 1, Pow2(k), 2 * Pow2(k))
  {
    InBlockIsRange(t, block, k + 1);
    DoublingMovesUp(t, k);
    var r := Key(t) % Pow2(k + 1);
    if t in Movers(block, k) {
      ResidueInjective(t, IdWithResidue(block, k + 1, r), block, k + 1);
    }
    if t in IdsBetween(block, k + 1, Pow2(k), 2 * Pow2(k)) {
      var q :| Pow2(k) <= q < 2 * Pow2(k) && t == IdWithResidue(block, k + 1, q);
    }
  }

  lemma InBlockIsRange(t: Word, block: nat, k: nat)
    ensures InBlock(t, block, k) <==> block * Pow2(k) <= t < (block + 1) * Pow2(k)
  {
    var p := Pow2(k);
    DivMod(t, p);
    assert (block + 1) * p == block * p + p;
    if block * p <= t < (block + 1) * p {
      DivUnique(t, p, block, t - block * p);
    }
  }

  /** The ids of a block whose hashes have residues in lo..hi. */
  ghost function IdsBetween(block: nat, k: nat, lo: nat, hi: nat): set<Word>
    requires k <= 8 && BlockFits(block, k) && hi <= Pow2(k)
  {
    set r | lo <= r < hi :: IdWithResidue(block, k, r)
  }

  lemma {:induction false} IdsCount(block: nat, k: nat, lo: nat, hi: nat)
    requires k <= 8 && BlockFits(block, k) && lo <= hi <= Pow2(k)
    ensures |IdsBetween(block, k, lo, hi)| == hi - lo
    decreases hi
  {
    if hi == lo {
      assert IdsBetween(block, k, lo, hi) == {};
    } else {
      IdsCount(block, k, lo, hi - 1);
      var last := IdWithResidue(block, k, hi - 1);
      assert IdsBetween(block, k, lo, hi) == IdsBetween(block, k, lo, hi - 1) + {last};
    }
  }

  // ---- consecutive tenants ----

  /** Shard 5, then 5 further with every tenant. */
  function Wheel(t: nat): nat {
    [5, 2, 7, 4, 1, 6, 3, 0][t % 8]
  }

  lemma MixResidue(state: Word, t: Word, h: Word)
    requires state % 8 == 7 && h == Mix(state, t)
    ensures h % 8 == Wheel(t)
  {
    var x := XorWord(state, t);
    assert Pow2(3) == 8;
    LowBitsOfXor(state, t, 3);
    XorSeven(t % 8);
    ModOfProduct(x, 0x100000001b3, 8, 0x2000_0000_0000_0000, 0x1_0000_0000_0000_0000);
    TimesPrimeMod8(7 - t % 8);
  }

  lemma TimesPrimeMod8(y: nat)
    requires y < 8
    ensures y * 0x100000001b3 % 8 == [0, 3, 6, 1, 4, 7, 2, 5][y]
  {
    assert y * 0x100000001b3 == y * 0x2000000036 * 8 + 3 * y;
  }

  lemma XorSeven(x: nat)
    requires x < 8
    ensures Xor(7, x) == 7 - x
  {
    DigitXorIs(7, x);
  }

  // Over 8 shards the tenants below 256 go round the shards in steps of 5, so neighbours never share one.
  lemma LowTenantsRotate(t: Word)
    requires t < 256
    ensures ModN(8).RouteRead(t) == Wheel(t)
  {
    SevenZeros(t / 256);
    FoldBy(t, 7, 8614007388540201639, t, Mix(8614007388540201639, t));
    MixResidue(8614007388540201639, t, Key(t));
  }

  lemma WheelTurns(t: nat)
    ensures Wheel(t + 1) == (Wheel(t) + 5) % 8 && Wheel(t + 1) != Wheel(t)
  {
    assert (t + 1) % 8 == if t % 8 == 7 then 0 else t % 8 + 1;
  }
}

/** `Key`: FNV-1a over the eight big-endian bytes of a tenant id, and the ring's finalizer. */
module Hash {
  import opened Bits

  /** A uint64. */
  type Word = w: int | 0 <= w < 0x1_0000_0000_0000_0000

  const FNV_OFFSET: Word := 0xcbf29ce484222325

  function XorWord(a: Word, b: Word): Word {
    Pow2Values();
    XorBound(a, b, 64);
    Xor(a, b)
  }

  /** Folding in one byte: exclusive or, then times the FNV prime, modulo 2^64. */
  function Mix(h: Word, octet: Word): Word {
    XorWord(h, octet) * 0x100000001b3 % 0x1_0000_0000_0000_0000
  }

  /** Hash state after the n lowest bytes of v, the highest of them first. */
  function Fold(v: Word, n: nat): Word
    decreases n, v
  {
    if n == 0 then FNV_OFFSET else Mix(Fold(v / 256, n - 1), v % 256)
  }

  function Key(tenantID: Word): Word {
    Fold(tenantID, 8)
  }

  /** `v >> (8 * n)`. */
  function DropBytes(v: Word, n: nat): Word {
    if n == 0 then v else DropBytes(v, n - 1) / 256
  }

  /** The eight bytes go into a buffer, and the hash object folds the buffer in. */
  method Sum64(tenantID: Word) returns (h: Word)
    ensures h == Key(tenantID)
  {
    var b := new Word[8];
    for i := 0 to 8
      invariant forall j :: 0 <= j < i ==> b[j] == DropBytes(tenantID, 7 - j) % 256
    {
      b[i] := DropBytes(tenantID, 7 - i) % 256;
    }
    h := FNV_OFFSET;
    for i := 0 to 8
      invariant h == Fold(DropBytes(tenantID, 8 - i), i)
    {
      h := XorWord(h, b[i]);
      h := h * 0x100000001b3 % 0x1_0000_0000_0000_0000;
      assert DropBytes(tenantID, 8 - i) == DropBytes(tenantID, 7 - i) / 256;
    }
  }

  lemma TimesPrimeInvertible(x: Word)
    ensures (x * 0x100000001b3 % 0x1_0000_0000_0000_0000) * 0xce965057aff6957b % 0x1_0000_0000_0000_0000 == x
  {
    TimesInverse(x, 0x100000001b3, 0xce965057aff6957b, 0x1_0000_0000_0000_0000, 0xce9650590f);
  }

  // Ids that differ only in the last byte never collide.
  lemma KeyInjectiveInLastByte(t: Word, u: Word)
    requires t / 256 == u / 256 && Key(t) == Key(u)
    ensures t == u
  {
    var s := Fold(t / 256, 7);
    TimesPrimeInvertible(XorWord(s, t % 256));
    TimesPrimeInvertible(XorWord(s, u % 256));
    XorCancel(s, t % 256, u % 256);
  }

  // ---- the circle ----

  /** Clockwise distance on the circle of 2^64 points. */
  function Distance(start: Word, point: Word): Word {
    (point - start) % 0x1_0000_0000_0000_0000
  }

  /** The ids that share all but their k lowest bits. */
  predicate InBlock(t: Word, block: nat, k: nat) {
    t / Pow2(k) == block
  }

  lemma BlockSharesHighBytes(t: Word, u: Word, block: nat, k: nat)
    requires k <= 8 && InBlock(t, block, k) && InBlock(u, block, k)
    ensures t / 256 == u / 256
    ensures Shift(t % 256, k) == Shift(u % 256, k)
  {
    Pow2Values();
    Pow2Add(8 - k, k);
    DivOfDiv(t, Pow2(k), Pow2(8 - k));
    DivOfDiv(u, Pow2(k), Pow2(8 - k));
    LowByteShift(t, k);
    LowByteShift(u, k);
  }

  lemma {:induction false} LowByteShift(t: nat, k: nat)
    requires k <= 8
    ensures Shift(t, k) == Pow2(8 - k) * (t / 256) + Shift(t % 256, k)
    ensures Shift(t, k) == t / Pow2(k)
  {
    ShiftMaskIsDivMod(t, k);
    Pow2Values();
    ShiftMultiple(Pow2(8 - k) * (t / 256), t % 256, k);
    assert Pow2(8 - k) * (t / 256) * Pow2(k) == 256 * (t / 256) by {
      Pow2Add(8 - k, k);
      TimesSwap(Pow2(8 - k), t / 256, Pow2(k));
    }
  }

  lemma TimesSwap(a: int, b: int, c: int)
    ensures a * b * c == (a * c) * b
  {
  }

  lemma ShiftMultiple(c: nat, low: nat, k: nat)
    ensures Shift(c * Pow2(k) + low, k) == c + Shift(low, k)
  {
    var p := Pow2(k);
    ShiftMaskIsDivMod(c * p + low, k);
    ShiftMaskIsDivMod(low, k);
    DivMod(low, p);
    assert (c + low / p) * p == c * p + low / p * p;
    DivUnique(c * p + low, p, c + low / p, low % p);
  }

  lemma DivOfDiv(t: nat, a: nat, b: nat)
    requires a > 0 && b > 0
    ensures b * a > 0 && t / (b * a) == (t / a) / b
  {
    var q, r := t / a / b, t / a % b;
    assert t == (q * b + r) * a + t % a;
    assert (q * b + r) * a == q * (b * a) + r * a;
    assert 0 <= r * a <= (b - 1) * a;
    assert (b - 1) * a == b * a - a;
    DivUnique(t, b * a, q, r * a + t % a);
  }

  /** What the last multiplication of the hash is applied to. */
  function LastXor(t: Word): Word {
    XorWord(Fold(t / 256, 7), t % 256)
  }

  function ArcStart(t: Word, k: nat): Word
    requires k <= 8
  {
    Shift(LastXor(t), k) * Pow2(k) * 0x100000001b3 % 0x1_0000_0000_0000_0000
  }

  // The raw hashes of an aligned block of 2^k ids, k up to 8, lie in one arc of length at most
  // (2^k - 1) times the prime, a speck of the circle.
  lemma BlockInArc(t: Word, u: Word, block: nat, k: nat)
    requires k <= 8 && InBlock(t, block, k) && InBlock(u, block, k)
    ensures ArcStart(t, k) == ArcStart(u, k)
    ensures Distance(ArcStart(t, k), Key(u)) <= (Pow2(k) - 1) * 0x100000001b3
  {
    BlockSharesHighBytes(t, u, block, k);
    var s := Fold(t / 256, 7);
    XorShiftMask(s, t % 256, k);
    XorShiftMask(s, u % 256, k);
    KeyInArc(u, k);
  }

  lemma KeyInArc(u: Word, k: nat)
    requires k <= 8
    ensures Distance(ArcStart(u, k), Key(u)) <= (Pow2(k) - 1) * 0x100000001b3
  {
    var x: Word := LastXor(u);
    ArcOfProduct(x, k, Shift(x, k) * Pow2(k));
    KeyIsLastProduct(u, x);
  }

  lemma KeyIsLastProduct(u: Word, x: Word)
    requires x == LastXor(u)
    ensures Key(u) == x * 0x100000001b3 % 0x1_0000_0000_0000_0000
  {
  }

  lemma ArcOfProduct(x: Word, k: nat, high: nat)
    requires k <= 8 && high == Shift(x, k) * Pow2(k)
    ensures Distance(high * 0x100000001b3 % 0x1_0000_0000_0000_0000,
                     x * 0x100000001b3 % 0x1_0000_0000_0000_0000) <= (Pow2(k) - 1) * 0x100000001b3
  {
    Pow2Small(k);
    SplitAtBit(x, k, high);
    ArcWithin(x, high, x % Pow2(k), Pow2(k));
  }

  lemma SplitAtBit(x: nat, k: nat, high: nat)
    requires high == Shift(x, k) * Pow2(k)
    ensures x == high + x % Pow2(k) && 0 <= x % Pow2(k) < Pow2(k)
  {
    ShiftMaskIsDivMod(x, k);
    DivMod(x, Pow2(k));
  }

  lemma ArcWithin(x: nat, high: nat, low: nat, p: nat)
    requires x == high + low && low < p <= 256
    ensures Distance(high * 0x100000001b3 % 0x1_0000_0000_0000_0000,
                     x * 0x100000001b3 % 0x1_0000_0000_0000_0000) <= (p - 1) * 0x100000001b3
  {
    ArcOfSum(high, low, p);
  }

  lemma ArcOfSum(high: nat, low: nat, p: nat)
    requires low < p <= 256
    ensures Distance(high * 0x100000001b3 % 0x1_0000_0000_0000_0000,
                     (high + low) * 0x100000001b3 % 0x1_0000_0000_0000_0000) <= (p - 1) * 0x100000001b3
  {
    assert (high + low) * 0x100000001b3 == high * 0x100000001b3 + low * 0x100000001b3;
    DistanceOfSum(high * 0x100000001b3, low * 0x100000001b3);
  }

  lemma Pow2Small(k: nat)
    requires k <= 8
    ensures Pow2(k) <= 256
  {
    Pow2Monotone(k, 8);
    Pow2Values();
  }

  lemma DistanceOfSum(a: nat, d: nat)
    requires d < 0x1_0000_0000_0000_0000
    ensures Distance(a % 0x1_0000_0000_0000_0000, (a + d) % 0x1_0000_0000_0000_0000) == d
  {
  }

  // ---- residues modulo a power of two ----

  // The k lowest bits of the hash determine, and are determined by, the k lowest bits before the
  // last multiplication.
  lemma ResidueBeforePrime(t: Word, k: nat)
    requires k <= 8
    ensures Key(t) % Pow2(k) == Mask(LastXor(t), k) * 0x100000001b3 % Pow2(k)
    ensures Mask(LastXor(t), k) == (Key(t) % Pow2(k)) * 0xce965057aff6957b % Pow2(k)
  {
    var x := LastXor(t);
    Pow2Add(64 - k, k);
    Pow2Values();
    ShiftMaskIsDivMod(x, k);
    ModOfProduct(x, 0x100000001b3, Pow2(k), Pow2(64 - k), 0x1_0000_0000_0000_0000);
    TimesPrimeInvertible(x);
    ModOfProduct(Key(t), 0xce965057aff6957b, Pow2(k), Pow2(64 - k), 0x1_0000_0000_0000_0000);
  }

  // Within an aligned block of 2^k ids no two hashes agree modulo 2^k.
  lemma ResidueInjective(t: Word, u: Word, block: nat, k: nat)
    requires k <= 8 && InBlock(t, block, k) && InBlock(u, block, k)
    requires Key(t) % Pow2(k) == Key(u) % Pow2(k)
    ensures t == u
  {
    BlockSharesHighBytes(t, u, block, k);
    ResidueBeforePrime(t, k);
    ResidueBeforePrime(u, k);
    var s := Fold(t / 256, 7);
    XorShiftMask(s, t % 256, k);
    XorShiftMask(s, u % 256, k);
    XorCancel(Mask(s, k), Mask(t % 256, k), Mask(u % 256, k));
    LowBitsOfLowByte(t, k);
    LowBitsOfLowByte(u, k);
    SameDivMod(t, u, Pow2(k));
  }

  /** The offset in its block of the id whose hash is r modulo 2^k, s being the hash state before the last byte. */
  function OffsetWithResidue(s: Word, k: nat, r: nat): nat
    requires k <= 8
  {
    Xor(r * 0xce965057aff6957b % Pow2(k), Mask(s, k))
  }

  lemma BlockStart(block: nat, k: nat)
    requires (block + 1) * Pow2(k) <= 0x1_0000_0000_0000_0000
    ensures 0 <= block * Pow2(k) < 0x1_0000_0000_0000_0000
    ensures InBlock(block * Pow2(k), block, k)
  {
    assert (block + 1) * Pow2(k) == block * Pow2(k) + Pow2(k);
    DivUnique(block * Pow2(k), Pow2(k), block, 0);
  }

  // Every residue is hit: the hash maps each aligned block of 2^k ids onto all residues.
  lemma ResidueSurjective(block: nat, k: nat, r: nat)
    requires k <= 8 && r < Pow2(k) && (block + 1) * Pow2(k) <= 0x1_0000_0000_0000_0000
    ensures exists t: Word :: InBlock(t, block, k) && Key(t) % Pow2(k) == r
  {
    var p, base := Pow2(k), block * Pow2(k);
    BlockStart(block, k);
    var s := Fold(base / 256, 7);
    var low := OffsetWithResidue(s, k, r);
    OffsetSmall(s, k, r);
    assert (block + 1) * p == base + p;
    var t: Word := base + low;
    DivUnique(t, p, block, low);
    BlockSharesHighBytes(t, base, block, k);
    LowBitsOfLowByte(t, k);
    XorShiftMask(s, t % 256, k);
    XorSymmetric(Mask(s, k), low);
    XorSelf(r * 0xce965057aff6957b % p, Mask(s, k));
    assert Mask(LastXor(t), k) == r * 0xce965057aff6957b % p;
    ResidueBeforePrime(t, k);
    PrimeInverseModPow2(r, k);
    assert InBlock(t, block, k);
  }

  /** The id of a block whose hash is r modulo 2^k. */
  ghost function IdWithResidue(block: nat, k: nat, r: nat): (t: Word)
    requires k <= 8 && r < Pow2(k) && (block + 1) * Pow2(k) <= 0x1_0000_0000_0000_0000
    ensures InBlock(t, block, k) && Key(t) % Pow2(k) == r
  {
    ResidueSurjective(block, k, r);
    var t: Word :| InBlock(t, block, k) && Key(t) % Pow2(k) == r;
    t
  }

  lemma OffsetSmall(s: Word, k: nat, r: nat)
    requires k <= 8
    ensures OffsetWithResidue(s, k, r) < Pow2(k)
  {
    ShiftMaskIsDivMod(s, k);
    XorBound(r * 0xce965057aff6957b % Pow2(k), Mask(s, k), k);
  }

  lemma LowBitsOfLowByte(t: nat, k: nat)
    requires k <= 8
    ensures Mask(t % 256, k) == t % Pow2(k)
  {
    ShiftMaskIsDivMod(t % 256, k);
    Pow2Values();
    Pow2Add(8 - k, k);
    ModOfMod(t, Pow2(k), Pow2(8 - k));
  }

  lemma PrimeInverseModPow2(r: nat, k: nat)
    requires k <= 8 && r < Pow2(k)
    ensures (r * 0xce965057aff6957b % Pow2(k)) * 0x100000001b3 % Pow2(k) == r
  {
    Pow2Add(64 - k, k);
    Pow2Values();
    Pow2Small(k);
    PrimeTimesInverse(r);
    ModOfProduct(r, 0xce965057aff6957b, Pow2(k), Pow2(64 - k), 0x1_0000_0000_0000_0000);
    var y := r * 0xce965057aff6957b % 0x1_0000_0000_0000_0000;
    ModOfProduct(y, 0x100000001b3, Pow2(k), Pow2(64 - k), 0x1_0000_0000_0000_0000);
    DivUnique(r, Pow2(k), 0, r);
  }

  lemma PrimeTimesInverse(x: Word)
    ensures (x * 0xce965057aff6957b % 0x1_0000_0000_0000_0000) * 0x100000001b3 % 0x1_0000_0000_0000_0000 == x
  {
    TimesInverse(x, 0xce965057aff6957b, 0x100000001b3, 0x1_0000_0000_0000_0000, 0xce9650590f);
  }

  // ---- ringPos ----

  /** `x ^ (x >> 33)`. */
  function Fold33(x: Word): Word {
    XorWord(x, x / 0x2_0000_0000)
  }

  /** Rounds of folding and multiplying, with a last fold. */
  function Rounds(x: Word, multipliers: seq<Word>): Word
    decreases |multipliers|
  {
    if multipliers == [] then Fold33(x)
    else Rounds(Fold33(x) * multipliers[0] % 0x1_0000_0000_0000_0000, multipliers[1..])
  }

  /** MurmurHash3's fmix64 finalizer. */
  function RingPos(x: Word): Word {
    Rounds(x, [0xff51afd7ed558ccd, 0xc4ceb9fe1a85ec53])
  }

  function RingPosInverse(y: Word): Word {
    Rounds(y, [0x9cb4b2f8129337db, 0x4f74430c22a54005])
  }

  lemma OneRound(x: Word, n: Word)
    ensures Rounds(x, [n]) == Fold33(Fold33(x) * n % 0x1_0000_0000_0000_0000)
  {
    assert [n][1..] == [];
  }

  lemma TwoRounds(x: Word, m: Word, n: Word)
    ensures Rounds(x, [m, n]) ==
            Fold33(Fold33(Fold33(x) * m % 0x1_0000_0000_0000_0000) * n % 0x1_0000_0000_0000_0000)
  {
    assert [m, n][1..] == [n];
    OneRound(Fold33(x) * m % 0x1_0000_0000_0000_0000, n);
  }

  method RingPosition(v: Word) returns (x: Word)
    ensures x == RingPos(v)
  {
    x := v;
    x := XorWord(x, x / 0x2_0000_0000);
    x := x * 0xff51afd7ed558ccd % 0x1_0000_0000_0000_0000;
    x := XorWord(x, x / 0x2_0000_0000);
    x := x * 0xc4ceb9fe1a85ec53 % 0x1_0000_0000_0000_0000;
    x := XorWord(x, x / 0x2_0000_0000);
    TwoRounds(v, 0xff51afd7ed558ccd, 0xc4ceb9fe1a85ec53);
  }

  lemma Fold33Involution(x: Word)
    ensures Fold33(Fold33(x)) == x
  {
    var h := x / 0x2_0000_0000;
    Pow2Values();
    XorShiftMask(x, h, 33);
    ShiftMaskIsDivMod(x, 33);
    ShiftMaskIsDivMod(h, 33);
    ShiftMaskIsDivMod(Xor(x, h), 33);
    assert h / 0x2_0000_0000 == 0;
    XorZero(h);
    XorSelf(x, h);
  }

  // The finalizer is a bijection on 64-bit values.
  lemma RingPosBijective(x: Word)
    ensures RingPosInverse(RingPos(x)) == x
    ensures RingPos(RingPosInverse(x)) == x
  {
    RoundsInvert(x, 0xff51afd7ed558ccd, 0xc4ceb9fe1a85ec53, 0x9cb4b2f8129337db, 0x4f74430c22a54005,
                 0x4f3e2925cb7c5b4e, 0x7878e44812b2d581);
    RoundsInvert(x, 0x9cb4b2f8129337db, 0x4f74430c22a54005, 0xff51afd7ed558ccd, 0xc4ceb9fe1a85ec53,
                 0x7878e44812b2d581, 0x4f3e2925cb7c5b4e);
  }

  lemma RoundsInvert(x: Word, m: Word, n: Word, n': Word, m': Word, p: Word, q: Word)
    requires m * m' == p * 0x1_0000_0000_0000_0000 + 1 && n * n' == q * 0x1_0000_0000_0000_0000 + 1
    ensures Rounds(Rounds(x, [m, n]), [n', m']) == x
  {
    TwoRounds(x, m, n);
    TwoRounds(Rounds(x, [m, n]), n', m');
    var a: Word := Fold33(x) * m % 0x1_0000_0000_0000_0000;
    var b: Word := Fold33(a) * n % 0x1_0000_0000_0000_0000;
    Fold33Involution(b);
    TimesInverse(Fold33(a), n, n', 0x1_0000_0000_0000_0000, q);
    Fold33Involution(a);
    TimesInverse(Fold33(x), m, m', 0x1_0000_0000_0000_0000, p);
    Fold33Involution(x);
  }

  lemma RingPosInjective(x: Word, y: Word)
    ensures RingPos(x) == RingPos(y) ==> x == y
  {
    RingPosBijective(x);
    RingPosBijective(y);
  }

  lemma SameHighBits(h: Word, i: nat)
    requires i < 256
    ensures XorWord(h, i) / 256 == h / 256
  {
    XorShiftMask(h, i, 8);
    Pow2Values();
    ShiftMaskIsDivMod(h, 8);
    ShiftMaskIsDivMod(i, 8);
    ShiftMaskIsDivMod(Xor(h, i), 8);
    XorZero(h / 256);
  }
}

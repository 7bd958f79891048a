/** The published values of the routing hash: had any constant or step of it changed, they would differ. */
module HashGolden {
  import opened Bits
  import opened Hash

  lemma LowBitsOfXor(a: nat, b: nat, k: nat)
    ensures Xor(a, b) % Pow2(k) == Xor(a % Pow2(k), b % Pow2(k))
  {
    XorShiftMask(a, b, k);
    ShiftMaskIsDivMod(a, k);
    ShiftMaskIsDivMod(b, k);
    ShiftMaskIsDivMod(Xor(a, b), k);
  }

  lemma LowByteOfXor(h: Word, octet: nat, low: nat, k: nat)
    requires Pow2(k) == 256 && low == Xor(h % 256, octet % 256)
    ensures Xor(h, octet) % 256 == low
  {
    LowBitsOfXor(h, octet, k);
  }

  lemma Pow2Of8()
    ensures Pow2(8) == 256
  {
    Pow2Values();
  }

  lemma TimesPrime(x: Word, product: nat, q: nat, r: Word)
    requires product == x * 0x100000001b3 && product == q * 0x1_0000_0000_0000_0000 + r
    ensures x * 0x100000001b3 % 0x1_0000_0000_0000_0000 == r
  {
    DivUnique(product, 0x1_0000_0000_0000_0000, q, r);
  }

  // One octet folded in, as numbers: high is the state without its low byte, low the low byte's xor.
  lemma MixStep(h: Word, octet: nat, high: nat, low: nat, x: Word, product: nat, q: nat, r: Word)
    requires octet < 256 && high == h / 256 && low == Xor(h % 256, octet % 256) && x == high * 256 + low
    requires product == x * 0x100000001b3 && product == q * 0x1_0000_0000_0000_0000 + r
    ensures Mix(h, octet) == r
  {
    SameHighBits(h, octet);
    Pow2Of8();
    LowByteOfXor(h, octet, low, 8);
    assert XorWord(h, octet) == x;
    TimesPrime(x, product, q, r);
  }

  lemma FoldBy(v: Word, n: nat, h: Word, octet: nat, r: Word)
    requires v % 256 == octet && Fold(v / 256, n) == h && Mix(h, octet) == r
    ensures Fold(v, n + 1) == r
  {
  }

  lemma XorStep(a: nat, b: nat, half: nat)
    requires a + b > 0 && Xor(a / 2, b / 2) == half
    ensures Xor(a, b) == 2 * half + Bit(a % 2 != b % 2)
  {
  }

  lemma Xor167And1(a: nat, b: nat)
    requires a == 167 && b == 1
    ensures Xor(a, b) == 166
  {
    XorZero(a / 2);
    XorStep(a, b, 83);
  }

  lemma Xor167And2(a: nat, b: nat)
    requires a == 167 && b == 2
    ensures Xor(a, b) == 165
  {
    XorZero(a / 4);
    XorStep(a / 2, b / 2, 41);
    XorStep(a, b, 82);
  }

  lemma Xor167And42(a: nat, b: nat)
    requires a == 167 && b == 42
    ensures Xor(a, b) == 141
  {
    XorZero(a / 64);
    XorStep(a / 32, b / 32, 2);
    XorStep(a / 16, b / 16, 4);
    XorStep(a / 8, b / 8, 8);
    XorStep(a / 4, b / 4, 17);
    XorStep(a / 2, b / 2, 35);
    XorStep(a, b, 70);
  }

  lemma Xor79And15(a: nat, b: nat)
    requires a == 79 && b == 15
    ensures Xor(a, b) == 64
  {
    XorZero(a / 16);
    XorStep(a / 8, b / 8, 4);
    XorStep(a / 4, b / 4, 8);
    XorStep(a / 2, b / 2, 16);
    XorStep(a, b, 32);
  }

  lemma Xor192And66(a: nat, b: nat)
    requires a == 192 && b == 66
    ensures Xor(a, b) == 130
  {
    XorZero(a / 128);
    XorStep(a / 64, b / 64, 1);
    XorStep(a / 32, b / 32, 2);
    XorStep(a / 16, b / 16, 4);
    XorStep(a / 8, b / 8, 8);
    XorStep(a / 4, b / 4, 16);
    XorStep(a / 2, b / 2, 32);
    XorStep(a, b, 65);
  }

  lemma Xor230And64(a: nat, b: nat)
    requires a == 230 && b == 64
    ensures Xor(a, b) == 166
  {
    XorZero(a / 128);
    XorStep(a / 64, b / 64, 1);
    XorStep(a / 32, b / 32, 2);
    XorStep(a / 16, b / 16, 5);
    XorStep(a / 8, b / 8, 10);
    XorStep(a / 4, b / 4, 20);
    XorStep(a / 2, b / 2, 41);
    XorStep(a, b, 83);
  }

  lemma Zero1(h: Word, octet: nat)
    requires h == 14695981039346656037 && octet == 0
    ensures Mix(h, octet) == 12638153115695167455
  {
    XorZero(h % 256);
    MixStep(h, octet, h / 256, 37, 14695981039346656037, 16158402040730025834900042659807, 875948729822, 12638153115695167455);
  }

  lemma Zero2(h: Word, octet: nat)
    requires h == 12638153115695167455 && octet == 0
    ensures Mix(h, octet) == 590684067820433389
  {
    XorZero(h % 256);
    MixStep(h, octet, h / 256, 223, 12638153115695167455, 13895796309817916227591347073005, 753292627376, 590684067820433389);
  }

  lemma Zero3(h: Word, octet: nat)
    requires h == 590684067820433389 && octet == 0
    ensures Mix(h, octet) == 15658191375538532279
  {
    XorZero(h % 256);
    MixStep(h, octet, h / 256, 237, 590684067820433389, 649464001167541465515058737079, 35207514050, 15658191375538532279);
  }

  lemma Zero4(h: Word, octet: nat)
    requires h == 15658191375538532279 && octet == 0
    ensures Mix(h, octet) == 5558979605539197941
  {
    XorZero(h % 256);
    MixStep(h, octet, h / 256, 183, 15658191375538532279, 17216363494157809383052470522869, 933300935133, 5558979605539197941);
  }

  lemma Zero5(h: Word, octet: nat)
    requires h == 5558979605539197941 && octet == 0
    ensures Mix(h, octet) == 16482136530319305039
  {
    XorZero(h % 256);
    MixStep(h, octet, h / 256, 245, 5558979605539197941, 6112162717278146042691928713551, 331341004832, 16482136530319305039);
  }

  lemma Zero6(h: Word, octet: nat)
    requires h == 16482136530319305039 && octet == 0
    ensures Mix(h, octet) == 15556837164214743357
  {
    XorZero(h % 256);
    MixStep(h, octet, h / 256, 79, 16482136530319305039, 18122300772847381251156866855229, 982411893417, 15556837164214743357);
  }

  lemma Zero7(h: Word, octet: nat)
    requires h == 15556837164214743357 && octet == 0
    ensures Mix(h, octet) == 8614007388540201639
  {
    XorZero(h % 256);
    MixStep(h, octet, h / 256, 61, 15556837164214743357, 17104923360239148451706566044327, 927259753368, 8614007388540201639);
  }

  lemma LastOne(h: Word, octet: nat)
    requires h == 8614007388540201639 && octet == 1
    ensures Mix(h, octet) == 12161961113530546194
  {
    Xor167And1(h % 256, octet % 256);
    MixStep(h, octet, h / 256, 166, 8614007388540201638, 9471201289195421205427629209618, 513434850689, 12161961113530546194);
  }

  lemma LastTwo(h: Word, octet: nat)
    requires h == 8614007388540201639 && octet == 2
    ensures Mix(h, octet) == 12161960014018917983
  {
    Xor167And2(h % 256, octet % 256);
    MixStep(h, octet, h / 256, 165, 8614007388540201637, 9471201289195421204328117581407, 513434850689, 12161960014018917983);
  }

  lemma LastFortyTwo(h: Word, octet: nat)
    requires h == 8614007388540201639 && octet == 42
    ensures Mix(h, octet) == 12161933625739840919
  {
    Xor167And42(h % 256, octet % 256);
    MixStep(h, octet, h / 256, 141, 8614007388540201613, 9471201289195421177939838504343, 513434850689, 12161933625739840919);
  }

  lemma MillionHigh(h: Word, octet: nat)
    requires h == 16482136530319305039 && octet == 15
    ensures Mix(h, octet) == 15556820671540320192
  {
    Xor79And15(h % 256, octet % 256);
    MixStep(h, octet, h / 256, 64, 16482136530319305024, 18122300772847381234664192432064, 982411893417, 15556820671540320192);
  }

  lemma MillionMiddle(h: Word, octet: nat)
    requires h == 15556820671540320192 && octet == 66
    ensures Mix(h, octet) == 8599590592073937382
  {
    Xor192And66(h % 256, octet % 256);
    MixStep(h, octet, h / 256, 130, 15556820671540320130, 17104905226351839815472479187430, 927258770328, 8599590592073937382);
  }

  lemma MillionLow(h: Word, octet: nat)
    requires h == 8599590592073937382 && octet == 64
    ensures Mix(h, octet) == 2740105236383194386
  {
    Xor230And64(h % 256, octet % 256);
    MixStep(h, octet, h / 256, 166, 8599590592073937318, 9455349853839212331811734478098, 512575542657, 2740105236383194386);
  }

  lemma FiveZeros(v: Word)
    requires v == 0
    ensures Fold(v, 5) == 16482136530319305039
  {
    Zero1(14695981039346656037, 0);
    FoldBy(v, 0, 14695981039346656037, 0, 12638153115695167455);
    Zero2(12638153115695167455, 0);
    FoldBy(v, 1, 12638153115695167455, 0, 590684067820433389);
    Zero3(590684067820433389, 0);
    FoldBy(v, 2, 590684067820433389, 0, 15658191375538532279);
    Zero4(15658191375538532279, 0);
    FoldBy(v, 3, 15658191375538532279, 0, 5558979605539197941);
    Zero5(5558979605539197941, 0);
    FoldBy(v, 4, 5558979605539197941, 0, 16482136530319305039);
  }

  lemma SevenZeros(v: Word)
    requires v == 0
    ensures Fold(v, 7) == 8614007388540201639
  {
    FiveZeros(v);
    Zero6(16482136530319305039, 0);
    FoldBy(v, 5, 16482136530319305039, 0, 15556837164214743357);
    Zero7(15556837164214743357, 0);
    FoldBy(v, 6, 15556837164214743357, 0, 8614007388540201639);
  }

  lemma KeyMillion(t: Word)
    requires t == 1000000
    ensures Key(t) == 2740105236383194386
  {
    FiveZeros(t / 256 / 256 / 256);
    MillionHigh(16482136530319305039, 15);
    FoldBy(t / 256 / 256, 5, 16482136530319305039, 15, 15556820671540320192);
    MillionMiddle(15556820671540320192, 66);
    FoldBy(t / 256, 6, 15556820671540320192, 66, 8599590592073937382);
    MillionLow(8599590592073937382, 64);
    FoldBy(t, 7, 8599590592073937382, 64, 2740105236383194386);
  }

  // The four golden values.
  lemma GoldenValues(t: Word)
    ensures t == 1 ==> Key(t) == 12161961113530546194
    ensures t == 2 ==> Key(t) == 12161960014018917983
    ensures t == 42 ==> Key(t) == 12161933625739840919
    ensures t == 1000000 ==> Key(t) == 2740105236383194386
  {
    if t < 256 {
      SevenZeros(t / 256);
    }
    if t == 1 {
      LastOne(8614007388540201639, 1);
      FoldBy(t, 7, 8614007388540201639, 1, 12161961113530546194);
    } else if t == 2 {
      LastTwo(8614007388540201639, 2);
      FoldBy(t, 7, 8614007388540201639, 2, 12161960014018917983);
    } else if t == 42 {
      LastFortyTwo(8614007388540201639, 42);
      FoldBy(t, 7, 8614007388540201639, 42, 12161933625739840919);
    } else if t == 1000000 {
      KeyMillion(t);
    }
  }
}

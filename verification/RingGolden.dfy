/** The ring positions of the tenants whose hash values are published. */
module RingGolden {
  import opened Bits
  import opened Hash
  import opened HashGolden
  import opened Ring

  /** 32 bits as hexadecimal digits. */
  datatype Hex = Hex(a: nat, b: nat, c: nat, d: nat, e: nat, f: nat, g: nat, h: nat)

  predicate IsHex(x: Hex) {
    x.a < 16 && x.b < 16 && x.c < 16 && x.d < 16 && x.e < 16 && x.f < 16 && x.g < 16 && x.h < 16
  }

  function Append4(n: nat, a: nat, b: nat, c: nat, d: nat): nat {
    (((n * 16 + a) * 16 + b) * 16 + c) * 16 + d
  }

  function ValueOf(x: Hex): nat {
    Append4(Append4(0, x.a, x.b, x.c, x.d), x.e, x.f, x.g, x.h)
  }

  // One more digit at the end.
  lemma XorDigit(s: nat, t: nat, a: nat, b: nat, x: nat, y: nat, high: nat)
    requires x < 16 && y < 16 && s == a * 16 + x && t == b * 16 + y && Xor(a, b) == high
    ensures Xor(s, t) == high * 16 + DigitXor(x, y)
  {
    assert s / 16 == a && s % 16 == x && t / 16 == b && t % 16 == y;
    Pow2Of4();
    XorShiftMask(s, t, 4);
    ShiftMaskIsDivMod(s, 4);
    ShiftMaskIsDivMod(t, 4);
    ShiftMaskIsDivMod(Xor(s, t), 4);
    DigitXorIs(x, y);
  }

  lemma Pow2Of4()
    ensures Pow2(4) == 16
  {
    assert Pow2(2) == 4;
  }

  /** Digit by digit, r is the exclusive or of x and y. */
  predicate DigitsXorTo(x: Hex, y: Hex, r: Hex) {
    && DigitXor(x.a, y.a) == r.a && DigitXor(x.b, y.b) == r.b && DigitXor(x.c, y.c) == r.c && DigitXor(x.d, y.d) == r.d
    && DigitXor(x.e, y.e) == r.e && DigitXor(x.f, y.f) == r.f && DigitXor(x.g, y.g) == r.g && DigitXor(x.h, y.h) == r.h
  }

  lemma XorFour(a: nat, b: nat, high: nat, x0: nat, x1: nat, x2: nat, x3: nat, y0: nat, y1: nat, y2: nat, y3: nat)
    requires x0 < 16 && x1 < 16 && x2 < 16 && x3 < 16 && y0 < 16 && y1 < 16 && y2 < 16 && y3 < 16 && Xor(a, b) == high
    ensures Xor(Append4(a, x0, x1, x2, x3), Append4(b, y0, y1, y2, y3)) ==
            Append4(high, DigitXor(x0, y0), DigitXor(x1, y1), DigitXor(x2, y2), DigitXor(x3, y3))
  {
    XorDigit(a * 16 + x0, b * 16 + y0, a, b, x0, y0, high);
    XorDigit((a * 16 + x0) * 16 + x1, (b * 16 + y0) * 16 + y1, a * 16 + x0, b * 16 + y0, x1, y1, high * 16 + DigitXor(x0, y0));
    var s, t, r := (a * 16 + x0) * 16 + x1, (b * 16 + y0) * 16 + y1, (high * 16 + DigitXor(x0, y0)) * 16 + DigitXor(x1, y1);
    XorDigit(s * 16 + x2, t * 16 + y2, s, t, x2, y2, r);
    XorDigit((s * 16 + x2) * 16 + x3, (t * 16 + y2) * 16 + y3, s * 16 + x2, t * 16 + y2, x3, y3, r * 16 + DigitXor(x2, y2));
  }

  lemma XorHex(x: Hex, y: Hex, r: Hex)
    requires IsHex(x) && IsHex(y) && DigitsXorTo(x, y, r)
    ensures Xor(ValueOf(x), ValueOf(y)) == ValueOf(r)
  {
    XorFour(0, 0, 0, x.a, x.b, x.c, x.d, y.a, y.b, y.c, y.d);
    XorSecondHalf(Append4(0, x.a, x.b, x.c, x.d), Append4(0, y.a, y.b, y.c, y.d), Append4(0, r.a, r.b, r.c, r.d), x, y, r);
  }

  lemma XorSecondHalf(a: nat, b: nat, high: nat, x: Hex, y: Hex, r: Hex)
    requires IsHex(x) && IsHex(y) && DigitsXorTo(x, y, r) && Xor(a, b) == high
    ensures Xor(Append4(a, x.e, x.f, x.g, x.h), Append4(b, y.e, y.f, y.g, y.h)) == Append4(high, r.e, r.f, r.g, r.h)
  {
    XorFour(a, b, high, x.e, x.f, x.g, x.h, y.e, y.f, y.g, y.h);
  }

  // One fold: the upper half stays, the lower half is xored with the upper 31 bits.
  lemma FoldIs(x: Word, top: nat, low: Hex, high: Hex, result: Hex)
    requires IsHex(low) && IsHex(high) && DigitsXorTo(low, high, result)
    requires x == top * 0x1_0000_0000 + ValueOf(low) && top / 2 == ValueOf(high)
    ensures Fold33(x) == top * 0x1_0000_0000 + ValueOf(result)
  {
    var h := ValueOf(high);
    HexBelow(low);
    HexBelow(high);
    DivMod32(x, top, ValueOf(low));
    assert x / 0x2_0000_0000 == h;
    assert h / 0x1_0000_0000 == 0 && h % 0x1_0000_0000 == h;
    Pow2Values();
    XorShiftMask(x, h, 32);
    ShiftMaskIsDivMod(x, 32);
    ShiftMaskIsDivMod(h, 32);
    ShiftMaskIsDivMod(Xor(x, h), 32);
    XorZero(top);
    XorHex(low, high, result);
  }

  lemma HexBelow(x: Hex)
    requires IsHex(x)
    ensures ValueOf(x) < 0x1_0000_0000
  {
  }

  lemma DivMod32(x: Word, top: nat, low: nat)
    requires low < 0x1_0000_0000 && x == top * 0x1_0000_0000 + low
    ensures x / 0x1_0000_0000 == top && x % 0x1_0000_0000 == low && x / 0x2_0000_0000 == top / 2
  {
  }

  lemma Finalize(x: Word, a: Word, p: nat, b: Word, c: Word, q: nat, d: Word, e: Word)
    requires Fold33(x) == a && a * 0xff51afd7ed558ccd == p * 0x1_0000_0000_0000_0000 + b
    requires Fold33(b) == c && c * 0xc4ceb9fe1a85ec53 == q * 0x1_0000_0000_0000_0000 + d
    requires Fold33(d) == e
    ensures RingPos(x) == e
  {
    DivUnique(a * 0xff51afd7ed558ccd, 0x1_0000_0000_0000_0000, p, b);
    DivUnique(c * 0xc4ceb9fe1a85ec53, 0x1_0000_0000_0000_0000, q, d);
    TwoRounds(x, 0xff51afd7ed558ccd, 0xc4ceb9fe1a85ec53);
  }

  lemma FirstOne(x: Word)
    requires x == 12161961113530546194
    ensures Fold33(x) == 12161961114946093963
  {
    var low, high, result := Hex(2, 8, 1, 10, 3, 8, 1, 2), Hex(5, 4, 6, 3, 15, 11, 9, 9), Hex(7, 12, 7, 9, 12, 3, 8, 11);
    FoldIs(x, 2831677234, low, high, result);
  }

  lemma SecondOne(x: Word)
    requires x == 8014961147689605711
    ensures Fold33(x) == 8014961147528999958
  {
    var low, high, result := Hex(14, 0, 9, 8, 9, 10, 4, 15), Hex(3, 7, 9, 13, 6, 14, 5, 9), Hex(13, 7, 0, 5, 15, 4, 1, 6);
    FoldIs(x, 1866128562, low, high, result);
  }

  lemma ThirdOne(x: Word)
    requires x == 957807579568827170
    ensures Fold33(x) == 957807579474756439
  {
    var low, high, result := Hex(3, 15, 6, 0, 6, 11, 2, 2), Hex(0, 6, 10, 5, 6, 8, 7, 5), Hex(3, 9, 12, 5, 0, 3, 5, 7);
    FoldIs(x, 223006955, low, high, result);
  }

  lemma PositionOne(x: Word)
    requires x == 12161961113530546194
    ensures RingPos(x) == 957807579474756439
  {
    FirstOne(x);
    SecondOne(8014961147689605711);
    ThirdOne(957807579568827170);
    Finalize(x, 12161961114946093963, 12129612645655138783, 8014961147689605711, 8014961147528999958, 6161736994523445037, 957807579568827170, 957807579474756439);
  }

  lemma FirstTwo(x: Word)
    requires x == 12161960014018917983
    ensures Fold33(x) == 12161960015434468678
  {
    var low, high, result := Hex(2, 8, 1, 10, 3, 6, 5, 15), Hex(5, 4, 6, 3, 15, 11, 1, 9), Hex(7, 12, 7, 9, 12, 13, 4, 6);
    FoldIs(x, 2831676978, low, high, result);
  }

  lemma SecondTwo(x: Word)
    requires x == 8757277810395556110
    ensures Fold33(x) == 8757277811415033324
  {
    var low, high, result := Hex(4, 0, 0, 9, 10, 9, 0, 14), Hex(3, 12, 12, 4, 0, 12, 14, 2), Hex(7, 12, 12, 13, 10, 5, 14, 12);
    FoldIs(x, 2038962629, low, high, result);
  }

  lemma ThirdTwo(x: Word)
    requires x == 17727100442808048516
    ensures Fold33(x) == 17727100443160476787
  {
    var low, high, result := Hex(3, 7, 3, 14, 5, 11, 8, 4), Hex(7, 11, 0, 1, 10, 7, 15, 7), Hex(4, 12, 3, 15, 15, 12, 7, 3);
    FoldIs(x, 4127412206, low, high, result);
  }

  lemma PositionTwo(x: Word)
    requires x == 12161960014018917983
    ensures RingPos(x) == 17727100443160476787
  {
    FirstTwo(x);
    SecondTwo(8757277810395556110);
    ThirdTwo(17727100442808048516);
    Finalize(x, 12161960015434468678, 12129611549068002214, 8757277810395556110, 8757277811415033324, 6732414751449059370, 17727100442808048516, 17727100443160476787);
  }

  lemma FirstFortyTwo(x: Word)
    requires x == 12161933625739840919
    ensures Fold33(x) == 12161933627155407502
  {
    var low, high, result := Hex(2, 8, 1, 10, 0, 13, 9, 7), Hex(5, 4, 6, 3, 14, 15, 1, 9), Hex(7, 12, 7, 9, 14, 2, 8, 14);
    FoldIs(x, 2831670834, low, high, result);
  }

  lemma SecondFortyTwo(x: Word)
    requires x == 17778818213344580534
    ensures Fold33(x) == 17778818215413781962
  {
    var low, high, result := Hex(0, 4, 10, 6, 1, 3, 11, 6), Hex(7, 11, 5, 13, 8, 6, 7, 12), Hex(7, 15, 15, 11, 9, 5, 12, 10);
    FoldIs(x, 4139453688, low, high, result);
  }

  lemma ThirdFortyTwo(x: Word)
    requires x == 7214183744890587262
    ensures Fold33(x) == 7214183745662172812
  {
    var low, high, result := Hex(12, 2, 9, 9, 12, 8, 7, 14), Hex(3, 2, 0, 14, 15, 6, 15, 2), Hex(15, 0, 9, 7, 3, 14, 8, 12);
    FoldIs(x, 1679683044, low, high, result);
  }

  lemma PositionFortyTwo(x: Word)
    requires x == 12161933625739840919
    ensures RingPos(x) == 7214183745662172812
  {
    FirstFortyTwo(x);
    SecondFortyTwo(17778818213344580534);
    ThirdFortyTwo(7214183744890587262);
    Finalize(x, 12161933627155407502, 12129585230976670367, 17778818213344580534, 17778818215413781962, 13667989139360456816, 7214183744890587262, 7214183745662172812);
  }

  lemma FirstMillion(x: Word)
    requires x == 2740105236383194386
    ensures Fold33(x) == 2740105236131461770
  {
    var low, high, result := Hex(13, 13, 12, 14, 13, 13, 1, 2), Hex(1, 3, 0, 3, 6, 7, 9, 8), Hex(12, 14, 12, 13, 11, 10, 8, 10);
    FoldIs(x, 637980465, low, high, result);
  }

  lemma SecondMillion(x: Word)
    requires x == 16264547614430845058
    ensures Fold33(x) == 16264547614157470578
  {
    var low, high, result := Hex(12, 14, 9, 3, 13, 8, 8, 2), Hex(7, 0, 13, 11, 10, 3, 15, 0), Hex(11, 14, 4, 8, 7, 11, 7, 2);
    FoldIs(x, 3786885089, low, high, result);
  }

  lemma ThirdMillion(x: Word)
    requires x == 3830169548259532278
    ensures Fold33(x) == 3830169547882930818
  {
    var low, high, result := Hex(3, 9, 8, 7, 1, 13, 15, 6), Hex(1, 10, 9, 3, 11, 15, 7, 4), Hex(2, 3, 1, 4, 10, 2, 8, 2);
    FoldIs(x, 891780841, low, high, result);
  }

  lemma PositionMillion(x: Word)
    requires x == 2740105236383194386
    ensures RingPos(x) == 3830169547882930818
  {
    FirstMillion(x);
    SecondMillion(16264547614430845058);
    ThirdMillion(3830169548259532278);
    Finalize(x, 2740105236131461770, 2732817085047336472, 16264547614430845058, 16264547614157470578, 12503849100284052279, 3830169548259532278, 3830169547882930818);
  }

  // Where the four tenants of the published hash values sit on the circle.
  lemma GoldenPositions(t: Word)
    ensures t == 1 ==> TenantPos(t) == 957807579474756439
    ensures t == 2 ==> TenantPos(t) == 17727100443160476787
    ensures t == 42 ==> TenantPos(t) == 7214183745662172812
    ensures t == 1000000 ==> TenantPos(t) == 3830169547882930818
  {
    GoldenValues(t);
    if t == 1 {
      PositionOne(Key(t));
    } else if t == 2 {
      PositionTwo(Key(t));
    } else if t == 42 {
      PositionFortyTwo(Key(t));
    } else if t == 1000000 {
      PositionMillion(Key(t));
    }
  }
}

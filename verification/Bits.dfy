/** Exclusive and inclusive or on natural numbers, bit by bit, and modular arithmetic. */
module Bits {

  function Bit(b: bool): nat {
    if b then 1 else 0
  }

  function Xor(a: nat, b: nat): nat
    decreases a + b
  {
    if a == 0 && b == 0 then 0 else 2 * Xor(a / 2, b / 2) + Bit(a % 2 != b % 2)
  }

  function Or(a: nat, b: nat): nat
    decreases a + b
  {
    if a == 0 && b == 0 then 0 else 2 * Or(a / 2, b / 2) + Bit(a % 2 == 1 || b % 2 == 1)
  }

  function Pow2(k: nat): (p: nat)
    ensures p > 0
  {
    if k == 0 then 1 else 2 * Pow2(k - 1)
  }

  /** The bits of a above the k lowest, and the k lowest bits. */
  function Shift(a: nat, k: nat): nat {
    if k == 0 then a else Shift(a / 2, k - 1)
  }

  function Mask(a: nat, k: nat): nat {
    if k == 0 then 0 else 2 * Mask(a / 2, k - 1) + a % 2
  }

  lemma {:induction false} ShiftMaskIsDivMod(a: nat, k: nat)
    ensures Shift(a, k) == a / Pow2(k) && Mask(a, k) == a % Pow2(k)
    decreases k
  {
    if k > 0 {
      ShiftMaskIsDivMod(a / 2, k - 1);
      HalfStep(a, Pow2(k - 1));
    }
  }

  lemma {:induction false} Pow2Add(j: nat, k: nat)
    ensures Pow2(j + k) == Pow2(j) * Pow2(k)
    decreases k
  {
    if k > 0 {
      Pow2Add(j, k - 1);
      TimesTwice(Pow2(j), Pow2(k - 1));
    }
  }

  lemma TimesTwice(a: int, b: int)
    ensures a * (2 * b) == 2 * (a * b)
  {
  }

  lemma Pow2Values()
    ensures Pow2(8) == 256 && Pow2(10) == 1024 && Pow2(12) == 4096 && Pow2(22) == 0x40_0000
    ensures Pow2(32) == 0x1_0000_0000 && Pow2(33) == 0x2_0000_0000 && Pow2(64) == 0x1_0000_0000_0000_0000
  {
    assert Pow2(2) == 4;
    Pow2Add(2, 2);
    Pow2Add(4, 4);
    Pow2Add(8, 2);
    Pow2Add(8, 4);
    Pow2Add(12, 10);
    Pow2Add(8, 8);
    Pow2Add(16, 16);
    Pow2Add(32, 32);
  }

  lemma {:induction false} XorZero(a: nat)
    ensures Xor(a, 0) == a
    decreases a
  {
    if a != 0 {
      XorZero(a / 2);
    }
  }

  lemma {:induction false} XorSelf(a: nat, b: nat)
    ensures Xor(Xor(a, b), b) == a
    decreases a + b
  {
    if a != 0 || b != 0 {
      XorSelf(a / 2, b / 2);
      var x := Xor(a, b);
      assert x / 2 == Xor(a / 2, b / 2);
      assert x % 2 == Bit(a % 2 != b % 2);
    }
  }

  lemma {:induction false} XorSymmetric(a: nat, b: nat)
    ensures Xor(a, b) == Xor(b, a)
    decreases a + b
  {
    if a != 0 || b != 0 {
      XorSymmetric(a / 2, b / 2);
    }
  }

  lemma XorCancel(s: nat, a: nat, b: nat)
    requires Xor(s, a) == Xor(s, b)
    ensures a == b
  {
    XorSymmetric(s, a);
    XorSymmetric(s, b);
    XorSelf(a, s);
    XorSelf(b, s);
  }

  // The k lowest bits and the bits above them are combined separately.
  lemma {:induction false} XorShiftMask(a: nat, b: nat, k: nat)
    ensures Shift(Xor(a, b), k) == Xor(Shift(a, k), Shift(b, k))
    ensures Mask(Xor(a, b), k) == Xor(Mask(a, k), Mask(b, k))
    decreases k
  {
    if k > 0 {
      XorHalf(a, b);
      XorShiftMask(a / 2, b / 2, k - 1);
      XorDouble(Mask(a / 2, k - 1), Mask(b / 2, k - 1), a % 2, b % 2);
    }
  }

  lemma XorDouble(a: nat, b: nat, x: nat, y: nat)
    requires x < 2 && y < 2
    ensures Xor(2 * a + x, 2 * b + y) == 2 * Xor(a, b) + Bit(x != y)
  {
    XorHalf(2 * a + x, 2 * b + y);
  }

  lemma XorHalf(a: nat, b: nat)
    ensures Xor(a, b) / 2 == Xor(a / 2, b / 2)
    ensures Xor(a, b) % 2 == Bit(a % 2 != b % 2)
  {
  }

  lemma HalfStep(a: nat, p: nat)
    requires p > 0
    ensures a / (2 * p) == (a / 2) / p
    ensures a % (2 * p) == 2 * ((a / 2) % p) + a % 2
    ensures (a % (2 * p)) / 2 == (a / 2) % p && (a % (2 * p)) % 2 == a % 2
  {
    var q, r := (a / 2) / p, (a / 2) % p;
    assert a / 2 == q * p + r;
    assert q * (2 * p) == 2 * (q * p);
    DivUnique(a, 2 * p, q, 2 * r + a % 2);
  }

  lemma {:induction false} XorBound(a: nat, b: nat, k: nat)
    requires a < Pow2(k) && b < Pow2(k)
    ensures Xor(a, b) < Pow2(k)
    decreases k
  {
    if k > 0 {
      XorBound(a / 2, b / 2, k - 1);
    }
  }

  lemma {:induction false} OrBound(a: nat, b: nat, k: nat)
    requires a < Pow2(k) && b < Pow2(k)
    ensures Or(a, b) < Pow2(k)
    decreases k
  {
    if k > 0 {
      OrBound(a / 2, b / 2, k - 1);
    }
  }

  lemma {:induction false} OrZero(a: nat)
    ensures Or(a, 0) == a
    decreases a
  {
    if a != 0 {
      OrZero(a / 2);
    }
  }

  lemma {:induction false} OrSymmetric(a: nat, b: nat)
    ensures Or(a, b) == Or(b, a)
    decreases a + b
  {
    if a != 0 || b != 0 {
      OrSymmetric(a / 2, b / 2);
    }
  }

  // Or-ing a field in below another one adds it.
  lemma {:induction false} OrDisjoint(high: nat, low: nat, k: nat)
    requires low < Pow2(k)
    ensures Or(high * Pow2(k), low) == high * Pow2(k) + low
    decreases k
  {
    if k == 0 {
      OrZero(high);
    } else {
      var h := high * Pow2(k);
      assert h == 2 * (high * Pow2(k - 1));
      OrDisjoint(high, low / 2, k - 1);
    }
  }

  // The k lowest bits and the bits above them are combined separately.
  lemma {:induction false} OrShiftMask(a: nat, b: nat, k: nat)
    ensures Shift(Or(a, b), k) == Or(Shift(a, k), Shift(b, k))
    ensures Mask(Or(a, b), k) == Or(Mask(a, k), Mask(b, k))
    decreases k
  {
    if k > 0 {
      OrHalf(a, b);
      OrShiftMask(a / 2, b / 2, k - 1);
      OrHalf(Mask(a, k), Mask(b, k));
    }
  }

  lemma OrHalf(a: nat, b: nat)
    ensures Or(a, b) / 2 == Or(a / 2, b / 2)
    ensures Or(a, b) % 2 == Bit(a % 2 == 1 || b % 2 == 1)
  {
  }

  lemma OrScaled(a: nat, b: nat, k: nat, x: nat, y: nat)
    requires x == a * Pow2(k) && y == b * Pow2(k)
    ensures Or(x, y) == Or(a, b) * Pow2(k)
  {
    ShiftOfScaled(a, k, x);
    ShiftOfScaled(b, k, y);
    OrShiftMask(x, y, k);
    ShiftMaskIsDivMod(Or(x, y), k);
    DivMod(Or(x, y), Pow2(k));
  }

  lemma ShiftOfScaled(a: nat, k: nat, x: nat)
    requires x == a * Pow2(k)
    ensures Shift(x, k) == a && Mask(x, k) == 0
  {
    ShiftMaskIsDivMod(x, k);
    DivUnique(x, Pow2(k), a, 0);
  }

  lemma OrOne(a: nat)
    ensures Or(a, 1) == if a % 2 == 1 then a else a + 1
  {
    OrZero(a / 2);
  }

  // ---- modular arithmetic ----

  lemma DivMod(x: int, m: int)
    requires m > 0
    ensures x == (x / m) * m + x % m && 0 <= x % m < m
  {
  }

  lemma DivUnique(x: int, m: int, q: int, r: int)
    requires m > 0 && 0 <= r < m && x == q * m + r
    ensures x / m == q && x % m == r
  {
    var d := x / m - q;
    assert d * m == r - x % m by {
      assert x == (x / m) * m + x % m;
      assert d * m == (x / m) * m - q * m;
    }
    assert d == 0 by {
      if d != 0 {
        MultipleIsFar(d, m);
      }
    }
  }

  lemma MultipleIsFar(d: int, m: int)
    requires m > 0 && d != 0
    ensures d * m >= m || d * m <= -m
  {
    if d > 0 {
      TimesNonNegative(d - 1, m);
      assert (d - 1) * m == d * m - m;
    } else {
      TimesNonNegative(-1 - d, m);
      assert (-1 - d) * m == -m - d * m;
    }
  }

  lemma TimesNonNegative(a: nat, b: nat)
    ensures a * b >= 0
  {
  }

  // Congruent factors give congruent products.
  lemma ModTimes(x: int, c: int, m: int)
    requires m > 0
    ensures (x * c) % m == ((x % m) * c) % m
  {
    var q, r := x / m, x % m;
    var y := (r * c) / m;
    assert x * c == (q * c) * m + r * c by {
      assert x == q * m + r;
      assert (q * m) * c == (q * c) * m;
    }
    assert x * c == (q * c + y) * m + (r * c) % m by {
      assert r * c == y * m + (r * c) % m;
      assert (q * c + y) * m == (q * c) * m + y * m;
    }
    DivUnique(x * c, m, q * c + y, (r * c) % m);
  }

  // Reducing modulo a multiple of m first changes nothing.
  lemma ModOfMod(x: int, m: int, c: int)
    requires m > 0 && c > 0
    ensures (x % (c * m)) % m == x % m
  {
    assert c * m > 0;
    var q, r := x / (c * m), x % (c * m);
    assert x == (q * c + r / m) * m + r % m by {
      assert x == q * (c * m) + r;
      assert q * (c * m) == (q * c) * m;
      assert (q * c + r / m) * m == (q * c) * m + (r / m) * m;
    }
    DivUnique(x, m, q * c + r / m, r % m);
  }

  // Multiplying modulo c * m and reducing modulo m is multiplying modulo m.
  lemma ModOfProduct(x: int, f: int, m: int, c: int, cm: int)
    requires m > 0 && c > 0 && cm == c * m
    ensures cm > 0 && (x * f % cm) % m == (x % m) * f % m
  {
    ModOfMod(x * f, m, c);
    ModTimes(x, f, m);
  }

  lemma {:induction false} Pow2Monotone(j: nat, k: nat)
    requires j <= k
    ensures Pow2(j) <= Pow2(k)
    decreases k
  {
    if j < k {
      Pow2Monotone(j, k - 1);
    }
  }

  // Multiplication by f modulo m is undone by multiplication by its inverse g.
  lemma TimesInverse(x: int, f: int, g: int, m: int, q: int)
    requires 0 <= x < m && f * g == q * m + 1
    ensures (x * f % m) * g % m == x
  {
    var a, r := x * f / m, x * f % m;
    assert r * g == (x * q - a * g) * m + x by {
      assert x * f == a * m + r;
      assert r * g == (x * f) * g - (a * m) * g;
      assert (x * f) * g == x * (f * g);
      assert x * (q * m + 1) == (x * q) * m + x;
      assert (a * m) * g == (a * g) * m;
      assert (x * q - a * g) * m == (x * q) * m - (a * g) * m;
    }
    DivUnique(r * g, m, x * q - a * g, x);
  }

  lemma SameDivMod(t: int, u: int, p: int)
    requires p > 0 && t / p == u / p && t % p == u % p
    ensures t == u
  {
    assert t == t / p * p + t % p;
    assert u == u / p * p + u % p;
  }

  // ---- four bits at a time ----

  function Rest(x: nat, unit: nat): nat {
    if x >= unit then x - unit else x
  }

  function Differ(x: nat, y: nat, unit: nat): nat {
    if (x >= unit) != (y >= unit) then unit else 0
  }

  /** The exclusive or of two digits, bit by bit from the top. */
  function DigitXor(x: nat, y: nat): nat {
    var x4, y4 := Rest(x, 8), Rest(y, 8);
    var x2, y2 := Rest(x4, 4), Rest(y4, 4);
    Differ(x, y, 8) + Differ(x4, y4, 4) + Differ(x2, y2, 2) + Differ(Rest(x2, 2), Rest(y2, 2), 1)
  }

  lemma OneBit(a: nat, b: nat)
    requires a < 2 && b < 2
    ensures Xor(a, b) == if a != b then 1 else 0
  {
  }

  lemma TopBit(x: nat, y: nat, k: nat, unit: nat)
    requires unit == Pow2(k) && x < 2 * unit && y < 2 * unit
    ensures Xor(x, y) == Differ(x, y, unit) + Xor(Rest(x, unit), Rest(y, unit))
  {
    XorShiftMask(x, y, k);
    ShiftMaskIsDivMod(x, k);
    ShiftMaskIsDivMod(y, k);
    ShiftMaskIsDivMod(Xor(x, y), k);
    DivUnique(x, unit, if x >= unit then 1 else 0, Rest(x, unit));
    DivUnique(y, unit, if y >= unit then 1 else 0, Rest(y, unit));
    OneBit(x / unit, y / unit);
    DivMod(Xor(x, y), unit);
  }

  lemma TwoBits(x: nat, y: nat)
    requires x < 4 && y < 4
    ensures Xor(x, y) == Differ(x, y, 2) + Differ(Rest(x, 2), Rest(y, 2), 1)
  {
    assert Pow2(1) == 2;
    TopBit(x, y, 1, 2);
    OneBit(Rest(x, 2), Rest(y, 2));
  }

  lemma DigitXorIs(x: nat, y: nat)
    requires x < 16 && y < 16
    ensures Xor(x, y) == DigitXor(x, y)
  {
    assert Pow2(1) == 2 && Pow2(2) == 4 && Pow2(3) == 8;
    TopBit(x, y, 3, 8);
    TopBit(Rest(x, 8), Rest(y, 8), 2, 4);
    TwoBits(Rest(Rest(x, 8), 4), Rest(Rest(y, 8), 4));
  }
}

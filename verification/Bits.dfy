/** Shifts and bitwise operators of JavaScript on integers.

`BitAnd` and `BitOr` are the two's complement operators on unbounded integers, which
is what BigInt uses and what Number uses after reduction to 32 bits (`ToInt32`).
`Shr` shifts right, rounding down; `Low` keeps the low bits. The lemmas say what the
masks in public/js/blocks.js do. */
module Bits {

  function Pow2(n: nat): (p: int)
    ensures p > 0
  {
    if n == 0 then 1 else 2 * Pow2(n - 1)
  }

  function ShiftLeft(x: int, k: nat): int
    decreases k, x
  {
    if k == 0 then x else 2 * ShiftLeft(x, k - 1)
  }

  function Shr(x: int, k: nat): int
    decreases k, x
  {
    if k == 0 then x else Shr(x / 2, k - 1)
  }

  function Low(x: int, k: nat): (low: int)
    ensures 0 <= low < Pow2(k)
    decreases k, x
  {
    if k == 0 then 0 else 2 * Low(x / 2, k - 1) + x % 2
  }

  function Abs(x: int): nat { if x < 0 then -x else x }

  function BitAnd(x: int, y: int): int
    decreases Abs(x)
  {
    if x == 0 then 0
    else if x == -1 then y
    else 2 * BitAnd(x / 2, y / 2) + (if x % 2 == 1 && y % 2 == 1 then 1 else 0)
  }

  function BitOr(x: int, y: int): int
    decreases Abs(x)
  {
    if x == 0 then y
    else if x == -1 then -1
    else 2 * BitOr(x / 2, y / 2) + (if x % 2 == 1 || y % 2 == 1 then 1 else 0)
  }

  function BitNot(x: int): int { -x - 1 }

  // ----- 32-bit operators on Number

  const TWO32: int := 0x1_0000_0000
  const TWO31: int := 0x8000_0000

  function ToUint32(x: int): (u: int)
    ensures 0 <= u < TWO32
  {
    x % TWO32
  }

  function ToInt32(x: int): (i: int)
    ensures -TWO31 <= i < TWO31
  {
    var u := ToUint32(x);
    if u < TWO31 then u else u - TWO32
  }

  function Shl32(x: int, k: int): int { ToInt32(ShiftLeft(ToInt32(x), k % 32)) }
  function UShr32(x: int, k: int): int { Shr(ToUint32(x), k % 32) }
  function And32(x: int, y: int): int { ToInt32(BitAnd(ToInt32(x), ToInt32(y))) }
  function Or32(x: int, y: int): int { ToInt32(BitOr(ToInt32(x), ToInt32(y))) }
  function Not32(x: int): int { BitNot(ToInt32(x)) }

  // ----- Powers, shifts and remainders

  lemma {:induction false} Pow2Monotone(a: nat, b: nat)
    requires a <= b
    ensures Pow2(a) <= Pow2(b)
    ensures a < b ==> Pow2(a) < Pow2(b)
  {
    if a < b { Pow2Monotone(a, b - 1); }
  }

  lemma Pow2Injective(a: nat, b: nat)
    ensures Pow2(a) == Pow2(b) ==> a == b
  {
    if a < b { Pow2Monotone(a, b); } else { Pow2Monotone(b, a); }
  }

  lemma Pow2Values()
    ensures Pow2(8) == 256 && Pow2(16) == 0x1_0000 && Pow2(24) == 0x100_0000
    ensures Pow2(31) == TWO31 && Pow2(32) == TWO32
  {
    assert Pow2(8) == 256;
    assert Pow2(16) == 0x1_0000;
    assert Pow2(24) == 0x100_0000;
  }

  lemma {:induction false} ShrShr(x: int, a: nat, b: nat)
    ensures Shr(Shr(x, a), b) == Shr(x, a + b)
    decreases a
  {
    if a != 0 { ShrShr(x / 2, a - 1, b); }
  }

  /** `Shr` and `Low` are quotient and remainder by 2^k. */
  lemma {:induction false} QuotientRemainder(x: int, k: nat)
    ensures x == Pow2(k) * Shr(x, k) + Low(x, k)
    ensures Shr(x, k) == x / Pow2(k) && Low(x, k) == x % Pow2(k)
    decreases k
  {
    if k != 0 {
      var p, q, r := Pow2(k - 1), Shr(x, k), Low(x / 2, k - 1);
      QuotientRemainder(x / 2, k - 1);
      assert x == 2 * (p * q) + (2 * r + x % 2);
      assert 2 * (p * q) == Pow2(k) * q;
    }
    DivModUnique(x, Pow2(k), Shr(x, k), Low(x, k));
  }

  lemma DivModUnique(x: int, d: int, q: int, r: int)
    requires d > 0 && x == d * q + r && 0 <= r < d
    ensures x / d == q && x % d == r
  {
    var k := q - x / d;
    assert d * k == x % d - r;
    assert k >= 1 ==> d * k >= d;
    assert k <= -1 ==> d * k <= -d;
  }

  lemma {:induction false} ShrSmall(x: int, k: nat)
    requires 0 <= x < Pow2(k)
    ensures Shr(x, k) == 0 && Low(x, k) == x
    decreases k
  {
    if k != 0 { ShrSmall(x / 2, k - 1); }
  }

  lemma LowNone(x: int)
    ensures Low(x, 0) == 0
  {
  }

  lemma LowBit(x: int, h: nat)
    requires h > 0
    ensures Low(x, h) == 2 * Low(x / 2, h - 1) + x % 2
  {
  }

  lemma HalfOfSum(x: int, p: int)
    ensures (x + 2 * p) / 2 == x / 2 + p && (x + 2 * p) % 2 == x % 2
  {
  }

  /** Adding a multiple of a higher power keeps the low bits. */
  lemma {:induction false} LowPlusPow2(x: int, h: nat, w: nat)
    requires h <= w
    ensures Low(x + Pow2(w), h) == Low(x, h) == Low(x - Pow2(w), h)
    decreases h
  {
    hide Low;
    if h == 0 {
      LowNone(x + Pow2(w));
      LowNone(x);
      LowNone(x - Pow2(w));
    } else {
      HalfOfSum(x, Pow2(w - 1));
      HalfOfSum(x, -Pow2(w - 1));
      LowBit(x, h);
      LowBit(x + Pow2(w), h);
      LowBit(x - Pow2(w), h);
      LowPlusPow2(x / 2, h - 1, w - 1);
    }
  }

  /** No low w bits, no low h bits for any smaller h. */
  lemma {:induction false} LowOfLow(x: int, h: nat, w: nat)
    requires h <= w && Low(x, w) == 0
    ensures Low(x, h) == 0
    decreases h
  {
    if h != 0 { LowOfLow(x / 2, h - 1, w - 1); }
  }

  /** A sum of multiples is a multiple. */
  lemma {:induction false} LowSum(x: int, y: int, h: nat)
    requires Low(x, h) == 0 && Low(y, h) == 0
    ensures Low(x + y, h) == 0
    decreases h
  {
    if h != 0 {
      assert x % 2 == 0 && Low(x / 2, h - 1) == 0 && y % 2 == 0 && Low(y / 2, h - 1) == 0;
      assert (x + y) % 2 == 0 && (x + y) / 2 == x / 2 + y / 2;
      LowSum(x / 2, y / 2, h - 1);
    }
  }

  /** Rounding down clears the low bits and nothing else. */
  lemma {:induction false} RoundDown(x: int, h: nat)
    ensures Low(x - Low(x, h), h) == 0
    ensures Shr(x - Low(x, h), h) == Shr(x, h)
    decreases h
  {
    if h != 0 {
      RoundDown(x / 2, h - 1);
      assert (x - Low(x, h)) / 2 == x / 2 - Low(x / 2, h - 1);
    }
  }

  lemma {:induction false} LowAllOnes(k: nat)
    ensures Low(-1, k) == Pow2(k) - 1
  {
    if k != 0 { LowAllOnes(k - 1); }
  }

  lemma {:induction false} ShiftAllOnes(k: nat)
    ensures ShiftLeft(-1, k) == -Pow2(k)
  {
    if k != 0 { ShiftAllOnes(k - 1); }
  }

  /** A number shifted left by at least h has no low h bits. */
  lemma {:induction false} LowShifted(x: int, h: nat, k: nat)
    requires h <= k
    ensures Low(ShiftLeft(x, k), h) == 0
  {
    if h != 0 { LowShifted(x, h - 1, k - 1); }
  }

  // ----- What the masks do

  lemma {:induction false} AndZero(x: int)
    ensures BitAnd(x, 0) == 0
    decreases Abs(x)
  {
    if x != 0 && x != -1 { AndZero(x / 2); }
  }

  lemma {:induction false} AndAllOnes(x: int)
    ensures BitAnd(x, -1) == x
    decreases Abs(x)
  {
    if x != 0 && x != -1 { AndAllOnes(x / 2); }
  }

  /** Masking with the low k bits, of a negative x too. */
  lemma {:induction false} AndLowMask(x: int, k: nat)
    ensures BitAnd(x, Pow2(k) - 1) == Low(x, k)
    decreases k
  {
    if k == 0 {
      AndZero(x);
    } else {
      AndLowMask(x / 2, k - 1);
      LowAllOnes(k);
      assert (Pow2(k) - 1) / 2 == Pow2(k - 1) - 1;
    }
  }

  /** Masking off the low h bits. */
  lemma {:induction false} AndHighMask(x: int, h: nat)
    ensures BitAnd(x, -Pow2(h)) == x - Low(x, h)
    decreases h
  {
    if h == 0 {
      AndAllOnes(x);
    } else {
      AndHighMask(x / 2, h - 1);
      LowAllOnes(h);
      assert (-Pow2(h)) / 2 == -Pow2(h - 1);
    }
  }

  /** The same mask cut to w bits, on a number of at most w bits. */
  lemma {:induction false} AndHighMaskCut(x: int, h: nat, w: nat)
    requires h <= w && 0 <= x < Pow2(w)
    ensures BitAnd(x, Pow2(w) - Pow2(h)) == x - Low(x, h)
    decreases h
  {
    if h == 0 {
      AndLowMask(x, w);
      ShrSmall(x, w);
    } else {
      AndHighMaskCut(x / 2, h - 1, w - 1);
      assert (Pow2(w) - Pow2(h)) / 2 == Pow2(w - 1) - Pow2(h - 1);
    }
  }

  lemma OrFromZero(y: int)
    ensures BitOr(0, y) == y
  {
  }

  lemma {:induction false} OrZero(x: int)
    ensures BitOr(x, 0) == x
    decreases Abs(x)
  {
    if x != 0 && x != -1 { OrZero(x / 2); }
  }

  /** Or-ing a small number into a multiple of 2^k adds it. */
  lemma {:induction false} OrDisjoint(x: int, y: int, k: nat)
    requires Low(x, k) == 0 && 0 <= y < Pow2(k)
    ensures BitOr(x, y) == x + y
    decreases k
  {
    if k == 0 {
      OrZero(x);
    } else {
      OrDisjoint(x / 2, y / 2, k - 1);
    }
  }
}

/** CIDR ranges computed with bit masks: `_cidr4Range` and `_cidr6Range` in
public/js/blocks.js, at the level of numbers.

A CIDR block is the set of addresses that agree with a given one above the host bits
(section 3.1 of RFC 4632). Prefix lengths are arbitrary integers, since the page passes
whatever `parseInt` returned. */
module Cidr {
  import opened Wrappers
  import opened Bits

  // ----- Blocks

  /** `a` shares with `n` all bits above the low `h`. */
  predicate InBlock(a: int, n: int, h: nat) { Shr(a, h) == Shr(n, h) }

  function BlockStart(n: int, h: nat): int { n - Low(n, h) }
  function BlockEnd(n: int, h: nat): int { BlockStart(n, h) + Pow2(h) - 1 }

  /** A block is an aligned interval of 2^h addresses. */
  lemma {:induction false} BlockIsInterval(a: int, n: int, h: nat)
    ensures InBlock(a, n, h) <==> BlockStart(n, h) <= a <= BlockEnd(n, h)
    ensures InBlock(a, n, h) ==> BlockStart(a, h) == BlockStart(n, h)
    decreases h
  {
    if h != 0 { BlockIsInterval(a / 2, n / 2, h - 1); }
  }

  /** A block of w-bit addresses stays within w bits. */
  lemma {:induction false} BlockInRange(n: int, h: nat, w: nat)
    requires 0 <= n < Pow2(w) && h <= w
    ensures 0 <= BlockStart(n, h) <= n <= BlockEnd(n, h) < Pow2(w)
    decreases h
  {
    if h != 0 { BlockInRange(n / 2, h - 1, w - 1); }
  }

  lemma InLargerBlock(a: int, n: int, h: nat, h': nat)
    requires h <= h' && InBlock(a, n, h)
    ensures InBlock(a, n, h')
  {
    ShrShr(a, h, h' - h);
    ShrShr(n, h, h' - h);
  }

  /** Two blocks are nested or disjoint. */
  lemma NestedOrDisjoint(n: int, h: nat, n': int, h': nat)
    requires h <= h'
    ensures
      || (forall a :: InBlock(a, n, h) ==> InBlock(a, n', h'))
      || (forall a :: InBlock(a, n, h) ==> !InBlock(a, n', h'))
  {
    forall a | InBlock(a, n, h) ensures InBlock(a, n', h') == InBlock(n, n', h') {
      InLargerBlock(a, n, h, h');
    }
  }

  // ----- IPv4: 32-bit operators on Number

  /** The prefix length that the shift count `32 - prefix`, taken modulo 32, stands for.
      `None` is NaN, which shifts by 0. */
  function EffectivePrefix4(prefix: Option<int>): (p: nat)
    ensures p <= 32
    ensures prefix.Some? && 0 <= prefix.value <= 32 ==> p == prefix.value
  {
    match prefix
    case None => 32
    case Some(p) => if p == 0 then 0 else (p - 1) % 32 + 1
  }

  function Mask4(prefix: Option<int>): int {
    if prefix == Some(0) then 0
    else UShr32(Shl32(0xFFFF_FFFF, if prefix.None? then 0 else 32 - prefix.value), 0)
  }

  function Range4(n: int, prefix: Option<int>): (r: (int, int)) {
    var mask := Mask4(prefix);
    var start := UShr32(And32(n, mask), 0);
    (start, UShr32(Or32(start, UShr32(Not32(mask), 0)), 0))
  }

  /** `>>> 0` recovers the unsigned number from either representative. */
  lemma Unsigned(x: int, u: int)
    requires 0 <= u < TWO32 && (x == u || x == u - TWO32)
    ensures UShr32(ToInt32(x), 0) == u == UShr32(x, 0)
    ensures ToInt32(u) == u || ToInt32(u) == u - TWO32
    ensures x < TWO31 && -TWO31 <= x ==> ToInt32(x) == x
  {
  }

  /** Reduction to 32 bits keeps the low bits. */
  lemma Int32LowBits(n: int, h: nat)
    requires h <= 32 && 0 <= n < TWO32
    ensures Low(ToInt32(n), h) == Low(n, h)
  {
    assert Low(n - TWO32, h) == Low(n, h) by {
      Pow2Values();
      LowPlusPow2(n, h, 32);
    }
    Unsigned(n, n);
  }

  lemma Mask4Value(prefix: Option<int>)
    ensures Mask4(prefix) == TWO32 - Pow2(32 - EffectivePrefix4(prefix))
  {
    hide BitAnd, BitOr, Low, Shr, Pow2;
    var h := 32 - EffectivePrefix4(prefix);
    Pow2Values();
    if prefix != Some(0) {
      assert (if prefix.None? then 0 else 32 - prefix.value) % 32 == h;
      Pow2Monotone(h, 31);
      ShiftAllOnes(h);
      Unsigned(-Pow2(h), TWO32 - Pow2(h));
    }
  }

  lemma Pow2Within31(h: nat)
    requires h <= 31
    ensures Pow2(h) <= TWO31
  {
    Pow2Values();
    Pow2Monotone(h, 31);
  }

  lemma Block4InRange(n: int, h: nat)
    requires 0 <= n < TWO32 && h <= 32
    ensures 0 <= BlockStart(n, h) <= n <= BlockEnd(n, h) < TWO32
    ensures h == 32 ==> BlockStart(n, h) == 0
  {
    Pow2Values();
    BlockInRange(n, h, 32);
  }

  lemma AndHostMask(n: int, h: nat)
    requires 0 <= n < TWO32 && h <= 31
    ensures UShr32(And32(n, TWO32 - Pow2(h)), 0) == BlockStart(n, h)
  {
    hide BitAnd, BitOr, Low, Shr, Pow2;
    var i := ToInt32(n);
    Pow2Within31(h);
    Unsigned(n, n);
    assert ToInt32(TWO32 - Pow2(h)) == -Pow2(h);
    assert BitAnd(i, -Pow2(h)) == i - Low(n, h) by {
      AndHighMask(i, h);
      Int32LowBits(n, h);
    }
    Block4InRange(n, h);
    Unsigned(i - Low(n, h), BlockStart(n, h));
  }

  lemma Start4(n: int, prefix: Option<int>)
    requires 0 <= n < TWO32
    ensures Range4(n, prefix).0 == BlockStart(n, 32 - EffectivePrefix4(prefix))
  {
    hide BitAnd, BitOr, Low, Shr, Pow2;
    var h := 32 - EffectivePrefix4(prefix);
    Mask4Value(prefix);
    if h == 32 {
      assert Mask4(prefix) == 0 by { Pow2Values(); }
      AndZero(ToInt32(n));
      Unsigned(0, 0);
      Block4InRange(n, h);
    } else {
      AndHostMask(n, h);
    }
  }

  /** Or-ing the host bits into an aligned start. */
  lemma OrHostBits(start: int, h: nat)
    requires h <= 31 && Low(start, h) == 0
    requires 0 <= start && start + Pow2(h) <= TWO32
    ensures UShr32(Or32(start, Pow2(h) - 1), 0) == start + Pow2(h) - 1
  {
    hide BitAnd, BitOr, Low, Shr, Pow2;
    var i, ones := ToInt32(start), Pow2(h) - 1;
    Pow2Within31(h);
    Unsigned(start, start);
    assert ToInt32(ones) == ones;
    assert BitOr(i, ones) == i + ones by {
      Int32LowBits(start, h);
      OrDisjoint(i, ones, h);
    }
    Unsigned(i + ones, start + ones);
  }

  lemma NotMask(h: nat)
    requires h <= 31
    ensures UShr32(Not32(TWO32 - Pow2(h)), 0) == Pow2(h) - 1
  {
    hide Pow2, Shr;
    Pow2Within31(h);
    assert ToInt32(TWO32 - Pow2(h)) == -Pow2(h);
    Unsigned(Pow2(h) - 1, Pow2(h) - 1);
  }

  lemma WholeSpaceEnd()
    ensures UShr32(Or32(0, UShr32(Not32(0), 0)), 0) == TWO32 - 1
  {
    assert UShr32(Not32(0), 0) == TWO32 - 1 by { Unsigned(-1, TWO32 - 1); }
    Unsigned(-1, TWO32 - 1);
  }

  lemma End4(n: int, prefix: Option<int>)
    requires 0 <= n < TWO32
    ensures Range4(n, prefix).1 == BlockEnd(n, 32 - EffectivePrefix4(prefix))
  {
    hide Low, Shr, Pow2, Mask4, EffectivePrefix4, UShr32, Or32, Not32;
    var h := 32 - EffectivePrefix4(prefix);
    var mask, start := Mask4(prefix), BlockStart(n, h);
    Start4(n, prefix);
    Mask4Value(prefix);
    assert UShr32(Or32(start, UShr32(Not32(mask), 0)), 0) == start + Pow2(h) - 1 by {
      Block4InRange(n, h);
      if h == 32 {
        assert Pow2(h) == TWO32 by { Pow2Values(); }
        WholeSpaceEnd();
      } else {
        NotMask(h);
        RoundDown(n, h);
        OrHostBits(start, h);
      }
    }
  }

  /** For every address and every prefix the masks yield the block of the effective prefix. */
  lemma Range4IsBlock(n: int, prefix: Option<int>)
    requires 0 <= n < TWO32
    ensures
      var h := 32 - EffectivePrefix4(prefix);
      Range4(n, prefix) == (BlockStart(n, h), BlockEnd(n, h))
    ensures 0 <= Range4(n, prefix).0 <= n <= Range4(n, prefix).1 < TWO32
  {
    Start4(n, prefix);
    End4(n, prefix);
    Block4InRange(n, 32 - EffectivePrefix4(prefix));
  }

  /** The range of n/p is the set of addresses that share the top p bits with n, and has
      2^(32-p) members, if and only if p lies in 0..32: outside, the shift count wraps. */
  lemma Range4Exact(n: int, p: int, a: int)
    requires 0 <= n < TWO32
    ensures 0 <= p <= 32 ==>
      (Range4(n, Some(p)).0 <= a <= Range4(n, Some(p)).1 <==> InBlock(a, n, 32 - p))
    ensures
      var size := Range4(n, Some(p)).1 - Range4(n, Some(p)).0 + 1;
      (p <= 32 && size == Pow2(32 - p)) <==> 0 <= p <= 32
  {
    hide Low, Shr, Pow2, Range4, EffectivePrefix4;
    var q := EffectivePrefix4(Some(p));
    Range4IsBlock(n, Some(p));
    BlockIsInterval(a, n, 32 - q);
    if p <= 32 { Pow2Injective(32 - p, 32 - q); }
  }

  // ----- IPv6: BigInt. The address width w is 128 in the source.

  const V6_BITS: nat := 128

  /** `BigInt(1) << k`, which shifts right for negative k. */
  function BigOne(k: int): int { if k >= 0 then Pow2(k) else 0 }

  function EffectivePrefix6(prefix: int, w: nat): (p: nat)
    ensures p <= w
    ensures 0 <= prefix <= w ==> p == prefix
  {
    if 0 <= prefix <= w then prefix else 0
  }

  function Mask6(prefix: int, w: nat): int {
    if prefix == 0 then 0 else BitAnd(BitNot(BigOne(w - prefix) - 1), BigOne(w) - 1)
  }

  function Range6(bits: int, prefix: int, w: nat): (r: (int, int)) {
    var start := BitAnd(bits, Mask6(prefix, w));
    (start, BitOr(start, BigOne(w - prefix) - 1))
  }

  lemma {:induction false} LowNegPow2(h: nat, w: nat)
    ensures Low(-Pow2(h), w) == if h < w then Pow2(w) - Pow2(h) else 0
    decreases w
  {
    if h == 0 {
      LowAllOnes(w);
    } else if w != 0 {
      LowNegPow2(h - 1, w - 1);
      assert (-Pow2(h)) / 2 == -Pow2(h - 1);
    }
  }

  lemma Mask6Value(prefix: int, w: nat)
    ensures Mask6(prefix, w) == Pow2(w) - Pow2(w - EffectivePrefix6(prefix, w))
  {
    if prefix != 0 {
      var h := w - prefix;
      AndLowMask(BitNot(BigOne(h) - 1), w);
      if h >= 0 {
        LowNegPow2(h, w);
      } else {
        assert BitNot(BigOne(h) - 1) == 0;
      }
    }
  }

  /** All ones below k, cut to w <= k bits, are all ones. */
  lemma LowOnes(k: nat, w: nat)
    requires w <= k
    ensures Low(Pow2(k) - 1, w) == Pow2(w) - 1
  {
    hide Low, Pow2;
    LowPlusPow2(-1, w, k);
    LowAllOnes(w);
  }

  /** For every w-bit address and every prefix, the range is the block of the effective
      prefix: prefixes outside 0..w yield the whole address space. The end may then carry
      bits above the w that are printed, hence `Low`. */
  lemma Range6IsBlock(bits: int, prefix: int, w: nat)
    requires 0 <= bits < Pow2(w)
    ensures
      var h := w - EffectivePrefix6(prefix, w);
      && Range6(bits, prefix, w).0 == BlockStart(bits, h)
      && Low(Range6(bits, prefix, w).1, w) == BlockEnd(bits, h)
      && 0 <= BlockStart(bits, h) <= bits <= BlockEnd(bits, h) < Pow2(w)
      && (0 <= prefix <= w ==> Range6(bits, prefix, w).1 == BlockEnd(bits, h))
  {
    hide BitAnd, BitOr, Low, Shr, Pow2;
    var h := w - EffectivePrefix6(prefix, w);
    Mask6Value(prefix, w);
    AndHighMaskCut(bits, h, w);
    BlockInRange(bits, h, w);
    if 0 <= prefix <= w {
      OrHostBits6(bits, h, w);
    } else {
      assert Low(bits, w) == bits by { ShrSmall(bits, w); }
      OrFromZero(BigOne(w - prefix) - 1);
      if prefix > w { LowAllOnes(w); } else { LowOnes(w - prefix, w); }
    }
  }

  lemma OrHostBits6(bits: int, h: nat, w: nat)
    requires 0 <= bits < Pow2(w) && h <= w
    ensures BitOr(BlockStart(bits, h), Pow2(h) - 1) == BlockEnd(bits, h)
    ensures Low(BlockEnd(bits, h), w) == BlockEnd(bits, h)
  {
    hide BitAnd, BitOr, Low, Shr, Pow2;
    RoundDown(bits, h);
    OrDisjoint(BlockStart(bits, h), Pow2(h) - 1, h);
    BlockInRange(bits, h, w);
    ShrSmall(BlockEnd(bits, h), w);
  }

  /** The addresses between start and end are exactly those sharing the top p bits. */
  lemma Range6Exact(bits: int, p: int, w: nat, a: int)
    requires 0 <= bits < Pow2(w) && 0 <= p <= w
    ensures Range6(bits, p, w).0 <= a <= Range6(bits, p, w).1 <==> InBlock(a, bits, w - p)
    ensures Low(Range6(bits, p, w).0, w - p) == 0
    ensures Range6(bits, p, w).1 - Range6(bits, p, w).0 + 1 == Pow2(w - p)
  {
    hide BitAnd, BitOr, Low, Shr, Pow2;
    Range6IsBlock(bits, p, w);
    BlockIsInterval(a, bits, w - p);
    RoundDown(bits, w - p);
  }
}

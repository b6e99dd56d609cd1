/** Subnet allocation: `findNextAvailableSubnet`, `packTemplateEntries` and
`packIntoAnchor` in src/utils/cidr.ts.

A parsed CIDR is a `Block`: the Netmask library zeroes the host bits, and text that it
rejects takes part in no overlap. For prefixes 31 and 32 the library leaves `broadcast`
undefined, so a search in such a parent throws. */
module Allocator {
  import opened Wrappers
  import opened Bits
  import opened Cidr

  datatype Block = Block(base: int, prefix: nat)

  function HostBits(b: Block): nat requires b.prefix <= 32 { 32 - b.prefix }
  function Size(b: Block): int requires b.prefix <= 32 { Pow2(HostBits(b)) }
  function EndOf(b: Block): int requires b.prefix <= 32 { b.base + Size(b) - 1 }

  predicate Valid(b: Block) {
    b.prefix <= 32 && Low(b.base, HostBits(b)) == 0
  }

  predicate Contains(b: Block, a: int) requires b.prefix <= 32 { InBlock(a, b.base, HostBits(b)) }

  predicate Overlaps(a: Block, b: Block) requires a.prefix <= 32 && b.prefix <= 32 {
    Contains(a, b.base) || Contains(b, a.base)
  }

  predicate Inside(b: Block, parent: Block) requires b.prefix <= 32 && parent.prefix <= 32 {
    parent.base <= b.base && EndOf(b) <= EndOf(parent)
  }

  predicate AllValid(taken: seq<Option<Block>>) {
    forall i :: 0 <= i < |taken| && taken[i].Some? ==> Valid(taken[i].value)
  }

  /** No allocated block that could be parsed overlaps `b`. */
  predicate Free(b: Block, taken: seq<Option<Block>>)
    requires b.prefix <= 32 && AllValid(taken)
  {
    forall i :: 0 <= i < |taken| && taken[i].Some? ==> !Overlaps(b, taken[i].value)
  }

  // ----- What the overlap test decides

  lemma ContainsInterval(b: Block, a: int)
    requires Valid(b)
    ensures Contains(b, a) <==> b.base <= a <= EndOf(b)
  {
    hide Low, Shr, Pow2;
    BlockIsInterval(a, b.base, HostBits(b));
  }

  /** Testing the two base addresses decides whether the blocks share any address. */
  lemma OverlapsIffShare(a: Block, b: Block)
    requires Valid(a) && Valid(b)
    ensures Overlaps(a, b) <==> exists x :: Contains(a, x) && Contains(b, x)
    ensures Overlaps(a, b) <==> a.base <= EndOf(b) && b.base <= EndOf(a)
  {
    hide Low, Shr, Pow2, InBlock;
    ContainsInterval(a, b.base);
    ContainsInterval(b, a.base);
    ContainsInterval(a, a.base);
    ContainsInterval(b, b.base);
    if Contains(a, b.base) { assert Contains(b, b.base); }
    if Contains(b, a.base) { assert Contains(a, a.base); }
    if x :| Contains(a, x) && Contains(b, x) {
      ContainsInterval(a, x);
      ContainsInterval(b, x);
    }
    BasesComparable(a, b);
  }

  /** Blocks whose intervals meet hold one another's base. */
  lemma BasesComparable(a: Block, b: Block)
    requires Valid(a) && Valid(b)
    ensures a.base <= EndOf(b) && b.base <= EndOf(a) ==> Contains(a, b.base) || Contains(b, a.base)
  {
    hide Low, Shr, Pow2, InBlock;
    if a.base <= b.base { ContainsInterval(a, b.base); } else { ContainsInterval(b, a.base); }
  }

  /** Aligned addresses less than a block apart are equal. */
  lemma AlignedGap(x: int, y: int, h: nat)
    requires Low(x, h) == 0 && Low(y, h) == 0 && x <= y < x + Pow2(h)
    ensures x == y
  {
    hide Low, Shr, Pow2;
    BlockIsInterval(y, x, h);
  }

  // ----- First-fit search

  datatype Search = Throws | Full | Found(block: Block)

  /** `b` is a /prefix block inside the parent that touches nothing allocated. */
  predicate Fits(b: Block, parent: Block, taken: seq<Option<Block>>, prefix: nat)
    requires Valid(parent) && AllValid(taken)
  {
    Valid(b) && b.prefix == prefix && Inside(b, parent) && Free(b, taken)
  }

  /** The search result is the lowest block that fits; there is none if it reports `Full`. */
  ghost predicate Lowest(r: Search, parent: Block, taken: seq<Option<Block>>, prefix: nat)
    requires Valid(parent) && AllValid(taken)
  {
    match r
    case Throws => parent.prefix >= 31
    case Full => parent.prefix < 31 && forall b :: !Fits(b, parent, taken, prefix)
    case Found(b) =>
      && parent.prefix < 31
      && Fits(b, parent, taken, prefix)
      && forall b' :: Fits(b', parent, taken, prefix) ==> b.base <= b'.base
  }

  method HasOverlap(candidate: Block, taken: seq<Option<Block>>) returns (overlap: bool)
    requires candidate.prefix <= 32 && AllValid(taken)
    ensures overlap <==> !Free(candidate, taken)
  {
    hide Overlaps;
    for i := 0 to |taken|
      invariant forall j :: 0 <= j < i && taken[j].Some? ==> !Overlaps(candidate, taken[j].value)
    {
      if taken[i].Some? && Overlaps(candidate, taken[i].value) { return true; }
    }
    return false;
  }

  /** `findNextAvailableSubnet`, whose candidate loop `packIntoAnchor` repeats. */
  method FindNextAvailableSubnet(parent: Block, taken: seq<Option<Block>>, prefix: nat) returns (r: Search)
    requires Valid(parent) && AllValid(taken) && prefix <= 32
    ensures Lowest(r, parent, taken, prefix)
  {
    hide Low, Shr, Pow2, Free, Overlaps;
    if parent.prefix >= 31 { return Throws; }
    var h := 32 - prefix;
    var blockSize := Pow2(h);
    var endInt := EndOf(parent);
    var candidate := parent.base;
    if blockSize <= Size(parent) { AlignedSmaller(parent, h); }
    while candidate + blockSize - 1 <= endInt
      invariant parent.base <= candidate && (blockSize <= Size(parent) ==> Low(candidate, h) == 0)
      invariant forall b :: Fits(b, parent, taken, prefix) ==> candidate <= b.base
      decreases endInt - candidate
    {
      var block := Block(candidate, prefix);
      var overlap := HasOverlap(block, taken);
      if !overlap { return Found(block); }
      forall b | Fits(b, parent, taken, prefix) ensures candidate + blockSize <= b.base {
        if b.base < candidate + blockSize { AlignedGap(candidate, b.base, h); }
      }
      LowPlusPow2(candidate, h, h);
      candidate := candidate + blockSize;
    }
    return Full;
  }

  /** A base aligned to a larger block is aligned to a smaller one. */
  lemma AlignedSmaller(parent: Block, h: nat)
    requires Valid(parent) && Pow2(h) <= Size(parent)
    ensures Low(parent.base, h) == 0
  {
    hide Low, Pow2;
    if h > HostBits(parent) { Pow2Monotone(HostBits(parent), h); }
    LowOfLow(parent.base, h, HostBits(parent));
  }

  // ----- Rows of subnets

  function Wrap(bs: seq<Block>): (w: seq<Option<Block>>)
    ensures |w| == |bs| && forall i :: 0 <= i < |bs| ==> w[i] == Some(bs[i])
  {
    seq(|bs|, i requires 0 <= i < |bs| => Some(bs[i]))
  }

  predicate AllBlocksValid(bs: seq<Block>) { forall i :: 0 <= i < |bs| ==> Valid(bs[i]) }

  /** The rows of a block: subnets inside the parent that do not overlap. */
  predicate Healthy(parent: Block, bs: seq<Block>)
    requires Valid(parent)
  {
    && AllBlocksValid(bs)
    && (forall i :: 0 <= i < |bs| ==> Inside(bs[i], parent))
    && (forall i, j :: 0 <= i < j < |bs| ==> !Overlaps(bs[i], bs[j]))
  }

  lemma OverlapSymmetric(a: Block, b: Block)
    requires Valid(a) && Valid(b)
    ensures Overlaps(a, b) == Overlaps(b, a)
  {
  }

  ghost function Addresses(lo: int, n: nat): (s: set<int>)
    ensures |s| == n && forall x :: x in s <==> lo <= x < lo + n
  {
    if n == 0 then {} else Addresses(lo, n - 1) + {lo + n - 1}
  }

  function TotalSize(bs: seq<Block>): int
    requires AllBlocksValid(bs)
  {
    if bs == [] then 0 else TotalSize(bs[..|bs| - 1]) + Size(bs[|bs| - 1])
  }

  ghost predicate HandedOut(bs: seq<Block>, x: int)
    requires AllBlocksValid(bs)
  {
    exists i :: 0 <= i < |bs| && Contains(bs[i], x)
  }

  /** The addresses in use, as a set: as many as the sizes add up to. */
  lemma {:induction false} UsedAddresses(parent: Block, bs: seq<Block>) returns (used: set<int>)
    requires Valid(parent) && Healthy(parent, bs)
    ensures |used| == TotalSize(bs)
    ensures forall x :: x in used <==> HandedOut(bs, x)
    ensures forall x :: x in used ==> parent.base <= x <= EndOf(parent)
    decreases |bs|
  {
    hide Low, Shr, Pow2, InBlock, Overlaps;
    if bs == [] {
      used := {};
    } else {
      var n := |bs| - 1;
      var last := bs[n];
      var before := UsedAddresses(parent, bs[..n]);
      var mine := Addresses(last.base, Size(last));
      used := before + mine;
      assert before !! mine by {
        forall x | x in before ensures x !in mine { NotAgain(parent, bs, x); }
      }
      forall x ensures x in used <==> HandedOut(bs, x) {
        ContainsInterval(last, x);
        HandedOutSnoc(bs, x);
      }
    }
  }

  lemma HandedOutSnoc(bs: seq<Block>, x: int)
    requires AllBlocksValid(bs) && bs != []
    ensures HandedOut(bs, x) <==> HandedOut(bs[..|bs| - 1], x) || Contains(bs[|bs| - 1], x)
  {
    hide Contains;
    var n := |bs| - 1;
    if i :| 0 <= i < |bs| && Contains(bs[i], x) {
      if i < n { assert bs[..n][i] == bs[i]; }
    }
    if i :| 0 <= i < n && Contains(bs[..n][i], x) { assert Contains(bs[i], x); }
  }

  /** An address of an earlier row does not lie in the last one. */
  lemma NotAgain(parent: Block, bs: seq<Block>, x: int)
    requires Valid(parent) && Healthy(parent, bs) && bs != [] && HandedOut(bs[..|bs| - 1], x)
    ensures !(bs[|bs| - 1].base <= x <= EndOf(bs[|bs| - 1]))
  {
    hide Low, Shr, Pow2, InBlock, Overlaps;
    var n := |bs| - 1;
    var i :| 0 <= i < n && Contains(bs[..n][i], x);
    assert Contains(bs[i], x);
    OverlapsIffShare(bs[i], bs[n]);
    ContainsInterval(bs[n], x);
  }

  /** Conservation: disjoint rows inside the parent hold no more addresses than it has. */
  lemma HealthyFits(parent: Block, bs: seq<Block>)
    requires Valid(parent) && Healthy(parent, bs)
    ensures TotalSize(bs) <= Size(parent)
  {
    hide Low, Pow2, TotalSize;
    var used := UsedAddresses(parent, bs);
    var all := Addresses(parent.base, Size(parent));
    assert all == used + (all - used);
  }

  // ----- Template packing

  function AlignUp(c: int, h: nat): int
    requires c >= 0
  {
    if c % Pow2(h) == 0 then c else (c / Pow2(h) + 1) * Pow2(h)
  }

  /** Rounding up to the next multiple. */
  lemma AlignUpSpec(c: int, h: nat)
    requires c >= 0
    ensures Low(AlignUp(c, h), h) == 0 && c <= AlignUp(c, h) < c + Pow2(h)
  {
    hide Low, Shr, Pow2;
    var p, q := Pow2(h), c / Pow2(h);
    QuotientRemainder(c, h);
    if c % p != 0 {
      assert (q + 1) * p == p * q + p;
      DivModUnique((q + 1) * p, p, q + 1, 0);
      QuotientRemainder((q + 1) * p, h);
    }
  }

  predicate Prefixes(entries: seq<nat>) { forall i :: 0 <= i < |entries| ==> entries[i] <= 32 }

  function EntrySize(prefix: nat): int requires prefix <= 32 { Pow2(32 - prefix) }

  predicate PackedAt(entries: seq<nat>, offsets: seq<int>, i: nat)
    requires Prefixes(entries) && |offsets| == |entries| && i < |entries|
  {
    var from := if i == 0 then 0 else offsets[i - 1] + EntrySize(entries[i - 1]);
    Low(offsets[i], 32 - entries[i]) == 0 && from <= offsets[i] < from + EntrySize(entries[i])
  }

  /** Each entry starts at the first multiple of its own size after the entry before it. */
  predicate Packed(entries: seq<nat>, offsets: seq<int>, span: int)
    requires Prefixes(entries)
  {
    && |offsets| == |entries|
    && (forall i :: 0 <= i < |entries| ==> PackedAt(entries, offsets, i))
    && span == if entries == [] then 0 else offsets[|entries| - 1] + EntrySize(entries[|entries| - 1])
  }

  /** Entries are laid out in order, one after the other. */
  lemma {:induction false} PackedAscending(entries: seq<nat>, offsets: seq<int>, span: int, i: nat, j: nat)
    requires Prefixes(entries) && Packed(entries, offsets, span) && i < j < |entries|
    ensures offsets[i] + EntrySize(entries[i]) <= offsets[j]
    decreases j
  {
    hide Low, Pow2;
    assert PackedAt(entries, offsets, j);
    if i < j - 1 { PackedAscending(entries, offsets, span, i, j - 1); }
  }

  /** Every entry lies within the span. */
  lemma PackedWithin(entries: seq<nat>, offsets: seq<int>, span: int, i: nat)
    requires Prefixes(entries) && Packed(entries, offsets, span) && i < |entries|
    ensures 0 <= offsets[i] && offsets[i] + EntrySize(entries[i]) <= span
  {
    hide Low, Pow2;
    var last := |entries| - 1;
    assert PackedAt(entries, offsets, 0);
    if i > 0 { PackedAscending(entries, offsets, span, 0, i); }
    if i < last { PackedAscending(entries, offsets, span, i, last); }
  }

  /** The loop of `packTemplateEntries`. */
  method PackTemplateEntries(entries: seq<nat>) returns (offsets: seq<int>, span: int)
    requires Prefixes(entries)
    ensures Packed(entries, offsets, span)
    ensures span >= 0 && (entries != [] ==> span >= 1)
  {
    hide Low, Pow2, AlignUp;
    offsets, span := [], 0;
    for i := 0 to |entries|
      invariant |offsets| == i && span >= 0 && (i > 0 ==> span >= 1)
      invariant Packed(entries[..i], offsets, span)
    {
      var h := 32 - entries[i];
      AlignUpSpec(span, h);
      var offset := AlignUp(span, h);
      PackedSnoc(entries[..i], offsets, span, entries[i], offset);
      assert entries[..i] + [entries[i]] == entries[..i + 1];
      offsets, span := offsets + [offset], offset + Pow2(h);
    }
    assert entries[..|entries|] == entries;
  }

  lemma PackedSnoc(entries: seq<nat>, offsets: seq<int>, span: int, e: nat, offset: int)
    requires Prefixes(entries) && Packed(entries, offsets, span) && e <= 32
    requires Low(offset, 32 - e) == 0 && span <= offset < span + EntrySize(e)
    ensures Prefixes(entries + [e]) && Packed(entries + [e], offsets + [offset], offset + EntrySize(e))
  {
    hide Low, Pow2;
    var es, os := entries + [e], offsets + [offset];
    assert Prefixes(es);
    forall i | 0 <= i < |es| ensures PackedAt(es, os, i) {
      if i < |entries| {
        assert PackedAt(entries, offsets, i);
        if i > 0 { assert es[i - 1] == entries[i - 1] && os[i - 1] == offsets[i - 1]; }
      }
    }
  }

  /** The exponent of the smallest power of two that is at least n: ceil(log2(n)). */
  function CeilLog2(n: int, k: nat := 0): (c: nat)
    requires n >= 1 && (k > 0 ==> Pow2(k - 1) < n)
    ensures Pow2(c) >= n && (c > 0 ==> Pow2(c - 1) < n)
    decreases n - Pow2(k)
  {
    if Pow2(k) >= n then k else CeilLog2(n, k + 1)
  }

  // ----- Placing a template in an anchor region

  datatype Placement = NoRoom | ParentThrows | Placed(anchor: Block, blocks: seq<Block>)

  /** The larger of the requested anchor and the smallest block that holds the span, but
      no larger than the parent. */
  function EffectiveAnchor(span: int, requested: nat, parent: Block): (p: nat)
    requires span >= 1 && requested <= 32 && parent.prefix <= 32
    ensures p <= 32
  {
    var containing := 32 - CeilLog2(span) as int;
    var p := if requested < containing then requested else containing;
    if p < parent.prefix then parent.prefix else p
  }

  function PlaceAt(base: int, offsets: seq<int>, entries: seq<nat>): (bs: seq<Block>)
    requires |offsets| == |entries|
    ensures |bs| == |entries|
  {
    seq(|entries|, i requires 0 <= i < |entries| => Block(base + offsets[i], entries[i]))
  }

  /** The outcome is a search for the lowest free region of the effective anchor size, with
      the packed entries laid out from its base. */
  ghost predicate IsPlacement(parent: Block, taken: seq<Option<Block>>, entries: seq<nat>, requested: nat,
                              offsets: seq<int>, span: int, r: Placement)
    requires Valid(parent) && AllValid(taken) && Prefixes(entries) && requested <= 32
  {
    && Packed(entries, offsets, span) && span >= 1
    && var eff := EffectiveAnchor(span, requested, parent);
    match r
    case ParentThrows => Lowest(Throws, parent, taken, eff)
    case NoRoom => Lowest(Full, parent, taken, eff)
    case Placed(anchor, blocks) =>
      Lowest(Found(anchor), parent, taken, eff) && blocks == PlaceAt(anchor.base, offsets, entries)
  }

  /** `packIntoAnchor` */
  method PackIntoAnchor(parent: Block, taken: seq<Option<Block>>, entries: seq<nat>, requested: nat)
    returns (r: Placement)
    requires Valid(parent) && AllValid(taken) && Prefixes(entries) && requested <= 32
    ensures entries == [] ==> r == Placed(parent, [])
    ensures entries != [] ==> exists offsets, span :: IsPlacement(parent, taken, entries, requested, offsets, span, r)
  {
    hide Low, Shr, Pow2, PackedAt, Lowest, EffectiveAnchor;
    if entries == [] { return Placed(parent, []); }
    var offsets, span := PackTemplateEntries(entries);
    var found := FindNextAvailableSubnet(parent, taken, EffectiveAnchor(span, requested, parent));
    r := match found
      case Throws => ParentThrows
      case Full => NoRoom
      case Found(anchor) => Placed(anchor, PlaceAt(anchor.base, offsets, entries));
    assert IsPlacement(parent, taken, entries, requested, offsets, span, r);
  }

  /** The effective anchor holds the span exactly when the parent does. */
  lemma AnchorLargeEnough(span: int, requested: nat, parent: Block)
    requires parent.prefix <= 32 && requested <= 32 && span >= 1
    ensures span <= EntrySize(EffectiveAnchor(span, requested, parent)) <==> span <= Size(parent)
  {
    hide Pow2, CeilLog2;
    var hp, k := HostBits(parent), CeilLog2(span);
    var h := 32 - EffectiveAnchor(span, requested, parent);
    if span <= Pow2(hp) {
      assert k <= hp by { if k > hp { Pow2Monotone(hp, k - 1); } }
      Pow2Monotone(k, h);
    } else {
      assert k > hp by { if k <= hp { Pow2Monotone(k, hp); } }
    }
  }

  /** p is the least power of two that is at least a and at least b. */
  ghost predicate IsLeastPower(p: int, a: int, b: int) {
    && (exists k: nat :: p == Pow2(k)) && p >= a && p >= b
    && forall k: nat :: Pow2(k) >= a && Pow2(k) >= b ==> Pow2(k) >= p
  }

  /** The anchor is the least power of two that holds both the span and a block of the requested size,
      but no larger than the parent. */
  lemma AnchorSizeIs(parent: Block, taken: seq<Option<Block>>, entries: seq<nat>, requested: nat,
                     offsets: seq<int>, span: int, r: Placement)
    returns (p: int)
    requires Valid(parent) && AllValid(taken) && Prefixes(entries) && requested <= 32
    requires IsPlacement(parent, taken, entries, requested, offsets, span, r) && r.Placed?
    ensures r.anchor.prefix <= 32
    ensures IsLeastPower(p, Pow2(32 - requested), span)
    ensures Size(r.anchor) == if p < Size(parent) then p else Size(parent)
  {
    hide Low, Pow2, Free, Packed, CeilLog2, IsLeastPower;
    var k, hr, hp := CeilLog2(span), 32 - requested, HostBits(parent);
    var m := if hr < k then k else hr;
    LargerPower(span, hr, k, m);
    assert HostBits(r.anchor) == if m < hp then m else hp;
    if m < hp { Pow2Monotone(m, hp); } else { Pow2Monotone(hp, m); }
    p := Pow2(m);
  }

  lemma LargerPower(span: int, hr: nat, k: nat, m: nat)
    requires Pow2(k) >= span && (k > 0 ==> Pow2(k - 1) < span) && m == if hr < k then k else hr
    ensures IsLeastPower(Pow2(m), Pow2(hr), span)
  {
    hide Pow2;
    Pow2Monotone(hr, m);
    Pow2Monotone(k, m);
    forall j: nat | Pow2(j) >= Pow2(hr) && Pow2(j) >= span ensures Pow2(j) >= Pow2(m) {
      if j >= m { Pow2Monotone(m, j); } else if j < hr { Pow2Monotone(j, hr); } else { Pow2Monotone(j, k - 1); }
    }
    assert Pow2(m) >= span && Pow2(m) >= Pow2(hr);
  }

  /** Blocks around an address of a larger block lie inside it. */
  lemma AroundInside(anchor: Block, x: int, prefix: nat)
    requires Valid(anchor) && anchor.prefix <= prefix <= 32 && anchor.base <= x <= EndOf(anchor)
    ensures Valid(Normalize(Block(x, prefix))) && Inside(Normalize(Block(x, prefix)), anchor)
    ensures Contains(Normalize(Block(x, prefix)), x)
  {
    hide Low, Shr, Pow2;
    var h, n := 32 - prefix, Normalize(Block(x, prefix));
    NormalizeIs(Block(x, prefix));
    Pow2Monotone(h, HostBits(anchor));
    AlignedSmaller(anchor, h);
    var end := anchor.base + Size(anchor);
    LowPlusPow2(anchor.base, h, HostBits(anchor));
    ContainsInterval(n, x);
    if n.base < anchor.base { AlignedGap(n.base, anchor.base, h); }
    if end < n.base + Pow2(h) { AlignedGap(n.base, end, h); }
  }

  /** What the requested anchor is for: as long as the parent is no smaller, no row shares a block of the
      requested size with a subnet of the template, unless that starts past the end of the parent. */
  lemma RequestedBlocksAreFresh(parent: Block, taken: seq<Option<Block>>, entries: seq<nat>, requested: nat,
                                offsets: seq<int>, span: int, r: Placement, i: nat)
    requires Valid(parent) && AllValid(taken) && Prefixes(entries) && requested <= 32
    requires IsPlacement(parent, taken, entries, requested, offsets, span, r) && r.Placed?
    requires i < |entries| && parent.prefix <= requested && r.blocks[i].base <= EndOf(parent)
    ensures
      var around := Normalize(Block(r.blocks[i].base, requested));
      Valid(around) && Contains(around, r.blocks[i].base) && Free(around, taken)
  {
    hide Low, Shr, Pow2, Overlaps, Lowest, EffectiveAnchor, Packed;
    AnchorIs(parent, taken, entries, requested, offsets, span, r);
    var p := AnchorSizeIs(parent, taken, entries, requested, offsets, span, r);
    Pow2Monotone(32 - requested, HostBits(parent));
    PrefixBySize(r.anchor, requested);
    if span <= Size(parent) { PlacementSound(parent, taken, entries, requested, offsets, span, r, i); }
    assert EndOf(r.blocks[i]) >= r.blocks[i].base >= r.anchor.base by { EntryStarts(entries, offsets, span, i); }
    var around := Normalize(Block(r.blocks[i].base, requested));
    AroundInside(r.anchor, r.blocks[i].base, requested);
    forall m | 0 <= m < |taken| && taken[m].Some? ensures !Overlaps(around, taken[m].value) {
      OverlapsIffShare(around, taken[m].value);
      OverlapsIffShare(r.anchor, taken[m].value);
    }
  }

  lemma EntryStarts(entries: seq<nat>, offsets: seq<int>, span: int, i: nat)
    requires Prefixes(entries) && Packed(entries, offsets, span) && i < |entries|
    ensures offsets[i] >= 0
  {
    hide Low, Pow2;
    assert PackedAt(entries, offsets, 0);
    if i > 0 { PackedAscending(entries, offsets, span, 0, i); }
  }

  lemma PrefixBySize(b: Block, requested: nat)
    requires b.prefix <= 32 && requested <= 32 && Size(b) >= Pow2(32 - requested)
    ensures b.prefix <= requested
  {
    hide Pow2;
    if b.prefix > requested { Pow2Monotone(HostBits(b), 32 - requested); }
  }

  /** All entries of a placed template, those that only skip space included, lie inside the parent if
      and only if the span does not exceed it. A larger group is placed all the same, and runs past
      its end. */
  lemma PlacementInsideIff(parent: Block, taken: seq<Option<Block>>, entries: seq<nat>, requested: nat,
                           offsets: seq<int>, span: int, r: Placement)
    requires Valid(parent) && AllValid(taken) && Prefixes(entries) && requested <= 32 && entries != []
    requires IsPlacement(parent, taken, entries, requested, offsets, span, r) && r.Placed?
    ensures
      (forall i :: 0 <= i < |entries| ==> r.blocks[i].prefix <= 32 && Inside(r.blocks[i], parent))
      <==> span <= Size(parent)
  {
    hide Low, Shr, Pow2, PackedAt, EffectiveAnchor, Free;
    AnchorLargeEnough(span, requested, parent);
    var last := |entries| - 1;
    assert r.blocks[last] == Block(r.anchor.base + offsets[last], entries[last]);
    if span <= Size(parent) {
      forall i | 0 <= i < |entries| ensures r.blocks[i].prefix <= 32 && Inside(r.blocks[i], parent) {
        PackedWithin(entries, offsets, span, i);
      }
    }
  }

  /** A /23 template in an empty /24 is placed in the /24, and its one subnet runs past the end. */
  lemma TemplatePastParent(base: int, requested: nat, r: Placement)
    requires Valid(Block(base, 24)) && requested <= 32
    requires r == Placed(Block(base, 24), [Block(base, 23)])
    ensures
      var parent := Block(base, 24);
      && IsPlacement(parent, [], [23], requested, [0], 512, r)
      && !Inside(r.blocks[0], parent)
  {
    hide Low, Shr, Pow2, PackedAt, EffectiveAnchor;
    var parent := Block(base, 24);
    SmallPowers();
    WideAnchor(requested, parent);
    ZeroOffset();
    assert Lowest(Found(parent), parent, [], 24);
  }

  lemma SmallPowers()
    ensures Pow2(8) == 256 && Pow2(9) == 512
  {
  }

  lemma ZeroOffset()
    ensures PackedAt([23], [0], 0) && Packed([23], [0], 512)
  {
    assert Low(0, 9) == 0 by { LowOfZero(9); }
    SmallPowers();
  }

  lemma {:induction false} LowOfZero(h: nat)
    ensures Low(0, h) == 0
  {
    if h != 0 { LowOfZero(h - 1); }
  }

  lemma WideAnchor(requested: nat, parent: Block)
    requires parent.prefix == 24 && requested <= 32
    ensures EffectiveAnchor(512, requested, parent) == 24
  {
    SmallPowers();
    AnchorCapped(512, requested, parent);
  }

  /** A span wider than the parent has the parent for its anchor. */
  lemma AnchorCapped(span: int, requested: nat, parent: Block)
    requires parent.prefix <= 32 && requested <= 32 && span > Size(parent)
    ensures EffectiveAnchor(span, requested, parent) == parent.prefix
  {
    hide Pow2, CeilLog2;
    var hp, k := HostBits(parent), CeilLog2(span);
    assert k > hp by { if k <= hp { Pow2Monotone(k, hp); } }
  }

  /** A template that fits the parent is allocated well: every subnet is aligned, inside the
      anchor and clear of everything allocated. */
  lemma PlacementSound(parent: Block, taken: seq<Option<Block>>, entries: seq<nat>, requested: nat,
                       offsets: seq<int>, span: int, r: Placement, i: nat)
    requires Valid(parent) && AllValid(taken) && Prefixes(entries) && requested <= 32
    requires IsPlacement(parent, taken, entries, requested, offsets, span, r) && r.Placed?
    requires span <= Size(parent) && i < |entries|
    ensures Fits(r.blocks[i], parent, taken, entries[i])
    ensures r.anchor.prefix <= 32 && Inside(r.blocks[i], r.anchor)
  {
    hide Low, Shr, Pow2, PackedAt, Overlaps, EffectiveAnchor, Free;
    AnchorLargeEnough(span, requested, parent);
    EntrySound(parent, taken, r.anchor, entries, offsets, span, i);
  }

  /** `normalizeCidr`: the block that a base and a prefix name. */
  function Normalize(b: Block): Block requires b.prefix <= 32 { Block(b.base - Low(b.base, HostBits(b)), b.prefix) }

  lemma NormalizeIs(b: Block)
    requires b.prefix <= 32
    ensures Valid(Normalize(b)) && (Valid(b) ==> Normalize(b) == b)
  {
    hide Low, Pow2;
    RoundDown(b.base, HostBits(b));
  }

  /** Where a template is placed: in an anchor that holds it, or, if it is too wide, in the parent. */
  lemma AnchorIs(parent: Block, taken: seq<Option<Block>>, entries: seq<nat>, requested: nat,
                 offsets: seq<int>, span: int, r: Placement)
    requires Valid(parent) && AllValid(taken) && Prefixes(entries) && requested <= 32
    requires IsPlacement(parent, taken, entries, requested, offsets, span, r) && r.Placed?
    ensures Valid(r.anchor) && Inside(r.anchor, parent) && Free(r.anchor, taken)
    ensures if span <= Size(parent) then span <= Size(r.anchor) else r.anchor == parent
  {
    hide Low, Pow2, Free, EffectiveAnchor, Packed;
    AnchorLargeEnough(span, requested, parent);
    if span > Size(parent) { AnchorCapped(span, requested, parent); }
  }

  /** An entry no larger than the parent is placed on a boundary of its own size. */
  lemma EntryAligned(parent: Block, taken: seq<Option<Block>>, entries: seq<nat>, requested: nat,
                     offsets: seq<int>, span: int, r: Placement, i: nat)
    requires Valid(parent) && AllValid(taken) && Prefixes(entries) && requested <= 32
    requires IsPlacement(parent, taken, entries, requested, offsets, span, r) && r.Placed? && i < |entries|
    ensures r.blocks[i] == Block(r.anchor.base + offsets[i], entries[i])
    ensures EntrySize(entries[i]) <= Size(parent) ==> Valid(r.blocks[i])
  {
    hide Low, Pow2, Free, EffectiveAnchor, Lowest, Overlaps;
    AnchorIs(parent, taken, entries, requested, offsets, span, r);
    PackedWithin(entries, offsets, span, i);
    if EntrySize(entries[i]) <= Size(parent) {
      var h := 32 - entries[i];
      AlignedSmaller(r.anchor, h);
      assert PackedAt(entries, offsets, i);
      LowSum(r.anchor.base, offsets[i], h);
    }
  }

  /** Entries follow one another; those no larger than the parent never overlap, whatever the span.
      A larger one is pulled back to a boundary of its size and can meet the others. */
  lemma PlacementDisjoint(parent: Block, taken: seq<Option<Block>>, entries: seq<nat>, requested: nat,
                          offsets: seq<int>, span: int, r: Placement, i: nat, j: nat)
    requires Valid(parent) && AllValid(taken) && Prefixes(entries) && requested <= 32
    requires IsPlacement(parent, taken, entries, requested, offsets, span, r) && r.Placed?
    requires i < j < |entries|
    ensures r.blocks[i].base + EntrySize(entries[i]) <= r.blocks[j].base
    ensures EntrySize(entries[i]) <= Size(parent) && EntrySize(entries[j]) <= Size(parent) ==>
      !Overlaps(r.blocks[i], r.blocks[j])
  {
    hide Low, Shr, Pow2, PackedAt, Overlaps, EffectiveAnchor, Free, Lowest;
    PackedAscending(entries, offsets, span, i, j);
    EntryAligned(parent, taken, entries, requested, offsets, span, r, i);
    EntryAligned(parent, taken, entries, requested, offsets, span, r, j);
    if Valid(r.blocks[i]) && Valid(r.blocks[j]) { OverlapsIffShare(r.blocks[i], r.blocks[j]); }
  }

  /** The subnet created for an entry lies inside the parent if and only if the entry ends by the
      parent's size; and then it is where the entry was placed. */
  lemma EntryInsideIff(parent: Block, taken: seq<Option<Block>>, entries: seq<nat>, requested: nat,
                       offsets: seq<int>, span: int, r: Placement, i: nat)
    requires Valid(parent) && AllValid(taken) && Prefixes(entries) && requested <= 32
    requires IsPlacement(parent, taken, entries, requested, offsets, span, r) && r.Placed? && i < |entries|
    ensures r.blocks[i].prefix == entries[i]
    ensures Inside(Normalize(r.blocks[i]), parent) <==> offsets[i] + EntrySize(entries[i]) <= Size(parent)
    ensures offsets[i] + EntrySize(entries[i]) <= Size(parent) ==> Normalize(r.blocks[i]) == r.blocks[i]
  {
    hide Low, Pow2, Free, EffectiveAnchor, Lowest, PackedAt;
    EntryAligned(parent, taken, entries, requested, offsets, span, r, i);
    AnchorIs(parent, taken, entries, requested, offsets, span, r);
    PackedWithin(entries, offsets, span, i);
    NormalizeIs(r.blocks[i]);
    var b, n := r.blocks[i], Normalize(r.blocks[i]);
    assert EndOf(n) == n.base + EntrySize(entries[i]) - 1;
  }

  lemma EntrySound(parent: Block, taken: seq<Option<Block>>, anchor: Block,
                   entries: seq<nat>, offsets: seq<int>, span: int, i: nat)
    requires Valid(parent) && AllValid(taken) && Prefixes(entries) && Packed(entries, offsets, span)
    requires Fits(anchor, parent, taken, anchor.prefix) && span <= Size(anchor)
    requires i < |entries|
    ensures
      var b := Block(anchor.base + offsets[i], entries[i]);
      Fits(b, parent, taken, entries[i]) && Inside(b, anchor)
  {
    hide Low, Shr, Pow2, Overlaps;
    var b := Block(anchor.base + offsets[i], entries[i]);
    PackedWithin(entries, offsets, span, i);
    var h := HostBits(b);
    AlignedSmaller(anchor, h);
    assert PackedAt(entries, offsets, i);
    LowSum(anchor.base, offsets[i], h);
    forall m | 0 <= m < |taken| && taken[m].Some? ensures !Overlaps(b, taken[m].value) {
      var t := taken[m].value;
      OverlapsIffShare(b, t);
      OverlapsIffShare(anchor, t);
    }
  }
}

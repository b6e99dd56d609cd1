/** Bulk allocation from a template: `bulkAllocate` in src/services/subnetService.ts, on top of
`packIntoAnchor`.

The call checks what it is about to create against the rows it read, but neither against the block
nor against itself. */
module BulkPlans {
  import opened Wrappers
  import opened Bits
  import opened Allocator
  import opened SubnetRuns

  /** The subnets that a bulk call creates: the assignments that are not marked to be skipped, each
      normalised. */
  function Created(bs: seq<Block>, skip: seq<bool>): seq<Block>
    requires |skip| == |bs| && forall i :: 0 <= i < |bs| ==> bs[i].prefix <= 32
  {
    if bs == [] then []
    else
      var n := |bs| - 1;
      Created(bs[..n], skip[..n]) + (if skip[n] then [] else [Normalize(bs[n])])
  }

  lemma {:induction false} CreatedFrom(bs: seq<Block>, skip: seq<bool>, k: nat) returns (i: nat)
    requires |skip| == |bs| && (forall i :: 0 <= i < |bs| ==> bs[i].prefix <= 32) && k < |Created(bs, skip)|
    ensures i < |bs| && !skip[i] && Created(bs, skip)[k] == Normalize(bs[i])
  {
    hide Normalize;
    var n := |bs| - 1;
    if k < |Created(bs[..n], skip[..n])| {
      i := CreatedFrom(bs[..n], skip[..n], k);
    } else {
      i := n;
    }
  }

  /** The entry ends by the parent's size. */
  predicate EndsInside(parent: Block, entries: seq<nat>, offsets: seq<int>, i: nat)
    requires Valid(parent) && Prefixes(entries) && i < |entries| && |offsets| == |entries|
  {
    offsets[i] + EntrySize(entries[i]) <= Size(parent)
  }

  /** What is known of a placed template. */
  ghost predicate IsTemplate(parent: Block, rows: seq<Block>, entries: seq<nat>, requested: nat,
                             offsets: seq<int>, span: int, r: Placement, skip: seq<bool>) {
    && Valid(parent) && AllBlocksValid(rows) && Prefixes(entries) && requested <= 32 && |skip| == |entries|
    && IsPlacement(parent, Wrap(rows), entries, requested, offsets, span, r) && r.Placed?
  }

  lemma TemplateSizes(parent: Block, rows: seq<Block>, entries: seq<nat>, requested: nat,
                      offsets: seq<int>, span: int, r: Placement, skip: seq<bool>)
    requires IsTemplate(parent, rows, entries, requested, offsets, span, r, skip)
    ensures |r.blocks| == |entries| == |offsets|
    ensures forall i :: 0 <= i < |entries| ==> r.blocks[i].prefix == entries[i] <= 32 && 0 <= offsets[i]
  {
    hide Low, Pow2, Lowest, EffectiveAnchor, PackedAt;
    forall i | 0 <= i < |entries| ensures 0 <= offsets[i] { PackedWithin(entries, offsets, span, i); }
  }

  /** Two entries that end inside the parent do not clash. */
  lemma EntriesApart(parent: Block, rows: seq<Block>, entries: seq<nat>, requested: nat,
                     offsets: seq<int>, span: int, r: Placement, skip: seq<bool>, i: nat, j: nat)
    requires IsTemplate(parent, rows, entries, requested, offsets, span, r, skip) && |offsets| == |entries|
    requires i < j < |entries| && EndsInside(parent, entries, offsets, i) && EndsInside(parent, entries, offsets, j)
    ensures |r.blocks| == |entries| && r.blocks[i].prefix <= 32 && r.blocks[j].prefix <= 32
    ensures !Clash(Normalize(r.blocks[i]), Normalize(r.blocks[j]))
  {
    hide Low, Pow2, Overlaps, IsPlacement, Normalize;
    TemplateSizes(parent, rows, entries, requested, offsets, span, r, skip);
    EntryInsideIff(parent, Wrap(rows), entries, requested, offsets, span, r, i);
    EntryInsideIff(parent, Wrap(rows), entries, requested, offsets, span, r, j);
    PlacementDisjoint(parent, Wrap(rows), entries, requested, offsets, span, r, i, j);
  }

  lemma EntryWithinIff(parent: Block, rows: seq<Block>, entries: seq<nat>, requested: nat,
                       offsets: seq<int>, span: int, r: Placement, skip: seq<bool>, i: nat)
    requires IsTemplate(parent, rows, entries, requested, offsets, span, r, skip)
    requires i < |entries| == |offsets| == |r.blocks| && r.blocks[i].prefix <= 32
    ensures Within(parent, Normalize(r.blocks[i])) <==> EndsInside(parent, entries, offsets, i)
  {
    hide Low, Pow2, IsPlacement;
    EntryInsideIff(parent, Wrap(rows), entries, requested, offsets, span, r, i);
    NormalizeIs(r.blocks[i]);
  }

  lemma {:induction false} CreatedTidyUpTo(parent: Block, rows: seq<Block>, entries: seq<nat>, requested: nat,
                                           offsets: seq<int>, span: int, r: Placement, skip: seq<bool>, n: nat)
    requires IsTemplate(parent, rows, entries, requested, offsets, span, r, skip)
    requires n <= |entries| == |offsets| == |r.blocks|
    requires forall i :: 0 <= i < |entries| ==> r.blocks[i].prefix <= 32
    ensures Tidy(parent, Created(r.blocks[..n], skip[..n]))
      <==> forall i :: 0 <= i < n && !skip[i] ==> EndsInside(parent, entries, offsets, i)
    decreases n
  {
    hide IsPlacement, Clash, Within, Normalize, EndsInside, Tidy;
    var bs, sk := r.blocks[..n], skip[..n];
    if n == 0 {
      TidyNothing(parent);
    } else {
      var m := n - 1;
      CreatedTidyUpTo(parent, rows, entries, requested, offsets, span, r, skip, m);
      assert bs[..m] == r.blocks[..m] && sk[..m] == skip[..m];
      var front := Created(bs[..m], sk[..m]);
      if skip[m] {
        assert Created(bs, sk) == front;
      } else {
        var b := Normalize(r.blocks[m]);
        TidyAppendIff(parent, front, [b]);
        EntryWithinIff(parent, rows, entries, requested, offsets, span, r, skip, m);
        TidyOneIff(parent, b);
        if EndsInside(parent, entries, offsets, m)
           && forall i :: 0 <= i < m && !skip[i] ==> EndsInside(parent, entries, offsets, i) {
          forall k, j | 0 <= k < |front| && 0 <= j < 1 ensures !Clash(front[k], [b][j]) {
            var i := CreatedFrom(bs[..m], sk[..m], k);
            EntriesApart(parent, rows, entries, requested, offsets, span, r, skip, i, m);
          }
        }
      }
    }
  }

  /** What a caller can tell before a bulk call: it creates disjoint subnets of the parent if and only if
      every entry that is not skipped ends by the parent's size, as all do when the span fits. */
  lemma TemplateIsTidyIff(parent: Block, rows: seq<Block>, entries: seq<nat>, requested: nat,
                          offsets: seq<int>, span: int, r: Placement, skip: seq<bool>)
    requires IsTemplate(parent, rows, entries, requested, offsets, span, r, skip)
    ensures |r.blocks| == |entries| == |offsets| && forall i :: 0 <= i < |entries| ==> r.blocks[i].prefix <= 32
    ensures Tidy(parent, Created(r.blocks, skip))
      <==> forall i :: 0 <= i < |entries| && !skip[i] ==> EndsInside(parent, entries, offsets, i)
    ensures span <= Size(parent) ==> Tidy(parent, Created(r.blocks, skip))
    ensures entries != [] && !skip[|entries| - 1] ==> (Tidy(parent, Created(r.blocks, skip)) <==> span <= Size(parent))
  {
    hide Low, Pow2, Tidy, Normalize, Lowest, EffectiveAnchor, PackedAt, Size, EntrySize;
    TemplateSizes(parent, rows, entries, requested, offsets, span, r, skip);
    var n := |entries|;
    CreatedTidyUpTo(parent, rows, entries, requested, offsets, span, r, skip, n);
    assert r.blocks[..n] == r.blocks && skip[..n] == skip;
    forall i | 0 <= i < n ensures offsets[i] + EntrySize(entries[i]) <= span {
      PackedWithin(entries, offsets, span, i);
    }
  }

  /** A bulk call's own check never fails: in a block whose rows are disjoint subnets of it, whatever is
      placed is free of them, too wide a template because there are none. */
  lemma PlacedPassesCheck(parent: Block, rows: seq<Block>, entries: seq<nat>, requested: nat,
                          offsets: seq<int>, span: int, r: Placement, skip: seq<bool>)
    requires IsTemplate(parent, rows, entries, requested, offsets, span, r, skip) && Tidy(parent, rows)
    requires |r.blocks| == |entries| && forall i :: 0 <= i < |entries| ==> r.blocks[i].prefix <= 32
    ensures Apart(rows, Created(r.blocks, skip)) && (span > Size(parent) ==> rows == [])
  {
    hide Low, Pow2, IsPlacement, Normalize, Free, Clash, Created;
    AnchorIs(parent, Wrap(rows), entries, requested, offsets, span, r);
    if span > Size(parent) {
      if rows != [] { WholeBlockTaken(parent, rows); }
    } else {
      var created := Created(r.blocks, skip);
      forall i, k | 0 <= i < |rows| && 0 <= k < |created| ensures !Clash(rows[i], created[k]) {
        var j := CreatedFrom(r.blocks, skip, k);
        FittingEntryIsFree(parent, rows, entries, requested, offsets, span, r, skip, j, i);
      }
    }
  }

  /** A block with a row in it is not free as a whole. */
  lemma WholeBlockTaken(parent: Block, rows: seq<Block>)
    requires Valid(parent) && AllBlocksValid(rows) && Tidy(parent, rows) && rows != []
    ensures !Free(parent, Wrap(rows))
  {
    hide Low, Pow2, Overlaps;
    assert Within(parent, rows[0]) && Wrap(rows)[0] == Some(rows[0]);
    OverlapsIffShare(parent, rows[0]);
  }

  lemma FittingEntryIsFree(parent: Block, rows: seq<Block>, entries: seq<nat>, requested: nat,
                           offsets: seq<int>, span: int, r: Placement, skip: seq<bool>, j: nat, i: nat)
    requires IsTemplate(parent, rows, entries, requested, offsets, span, r, skip)
    requires span <= Size(parent) && j < |entries| == |r.blocks| && i < |rows| && r.blocks[j].prefix <= 32
    ensures !Clash(rows[i], Normalize(r.blocks[j]))
  {
    hide Low, Pow2, Overlaps, IsPlacement;
    PlacementSound(parent, Wrap(rows), entries, requested, offsets, span, r, j);
    NormalizeIs(r.blocks[j]);
    assert Wrap(rows)[i] == Some(rows[i]);
    OverlapSymmetric(rows[i], r.blocks[j]);
  }

  lemma TidyNothing(parent: Block)
    requires Valid(parent)
    ensures Tidy(parent, [])
  {
  }

  // ----- A template that is too wide

  lemma LowValues()
    ensures Pow2(8) == 256 && Pow2(9) == 512 && Low(0, 8) == 0 && Low(256, 8) == 0 && Low(512, 8) == 0
    ensures Low(512, 9) == 0 && Low(768, 9) == 256
  {
    hide Low, Shr, Pow2;
    SmallPowers();
    QuotientRemainder(0, 8);
    QuotientRemainder(256, 8);
    QuotientRemainder(512, 8);
    QuotientRemainder(512, 9);
    QuotientRemainder(768, 9);
  }

  /** The template /24, /24, /23 in the empty block 0.0.1.0/24: it is placed past the end of the block, and
      the last subnet is pulled back over the second. */
  lemma WideTemplate(requested: nat, r: Placement)
    requires requested <= 32 && r == Placed(Block(256, 24), [Block(256, 24), Block(512, 24), Block(768, 23)])
    ensures Valid(Block(256, 24))
    ensures IsTemplate(Block(256, 24), [], [24, 24, 23], requested, [0, 256, 512], 1024, r, [false, false, false])
    ensures Created(r.blocks, [false, false, false]) == [Block(256, 24), Block(512, 24), Block(512, 23)]
    ensures Clash(Block(512, 24), Block(512, 23))
  {
    hide Low, Shr, Pow2, EffectiveAnchor;
    LowValues();
    var parent := Block(256, 24);
    AnchorCapped(1024, requested, parent);
    WidePacked();
    assert Wrap([]) == [] && Lowest(Found(parent), parent, [], 24);
    assert r.blocks == PlaceAt(256, [0, 256, 512], [24, 24, 23]);
    WideCreated(r.blocks);
    ContainsInterval(Block(512, 23), 512);
  }

  lemma WidePacked()
    ensures Prefixes([24, 24, 23]) && Packed([24, 24, 23], [0, 256, 512], 1024)
  {
    hide Low, Shr, Pow2;
    LowValues();
    var es, os := [24, 24, 23], [0, 256, 512];
    assert PackedAt(es, os, 0) && PackedAt(es, os, 1) && PackedAt(es, os, 2);
  }

  lemma WideCreated(bs: seq<Block>)
    requires bs == [Block(256, 24), Block(512, 24), Block(768, 23)]
    ensures Created(bs, [false, false, false]) == [Block(256, 24), Block(512, 24), Block(512, 23)]
  {
    hide Low, Shr, Pow2, Created;
    LowValues();
    CreatedThree(bs[0], bs[1], bs[2]);
  }

  lemma CreatedThree(a: Block, b: Block, c: Block)
    requires a.prefix <= 32 && b.prefix <= 32 && c.prefix <= 32
    ensures Created([a, b, c], [false, false, false]) == [Normalize(a), Normalize(b), Normalize(c)]
  {
    hide Normalize, Created;
    assert [a] == [] + [a] && [a, b] == [a] + [b] && [a, b, c] == [a, b] + [c];
    assert [false] == [] + [false] && [false, false] == [false] + [false];
    assert [false, false, false] == [false, false] + [false];
    CreatedNone();
    CreatedSnoc([], [], a);
    CreatedSnoc([a], [false], b);
    CreatedSnoc([a, b], [false, false], c);
  }

  lemma CreatedNone()
    ensures Created([], []) == []
  {
  }

  lemma CreatedSnoc(bs: seq<Block>, skip: seq<bool>, b: Block)
    requires |skip| == |bs| && (forall i :: 0 <= i < |bs| ==> bs[i].prefix <= 32) && b.prefix <= 32
    ensures Created(bs + [b], skip + [false]) == Created(bs, skip) + [Normalize(b)]
  {
    hide Normalize;
    assert (bs + [b])[..|bs|] == bs && (skip + [false])[..|bs|] == skip;
  }

  /** One bulk call, with nothing else going on, creates overlapping subnets outside the block. */
  lemma WideBulkCall(requested: nat)
    requires requested <= 32
    ensures
      var bs := [Block(256, 24), Block(512, 24), Block(512, 23)];
      && Valid(Block(256, 24))
      && Blocks(Run(Block(256, 24), EMPTY, [Plan(0, bs), Create(0)]).rows) == bs
      && !Healthy(Block(256, 24), bs) && !Tidy(Block(256, 24), bs) && Clash(bs[1], bs[2])
  {
    hide Valid, Low, Pow2, Shr, Clash, Run, IsTemplate, Created, Healthy, Within;
    var parent, bs := Block(256, 24), [Block(256, 24), Block(512, 24), Block(512, 23)];
    WideTemplate(requested, Placed(parent, [Block(256, 24), Block(512, 24), Block(768, 23)]));
    PlanAndCreate(parent, bs);
    assert Clash(bs[1], bs[2]);
    TidyIsHealthy(parent, bs);
  }

  lemma PlanAndCreate(parent: Block, bs: seq<Block>)
    requires Valid(parent)
    ensures Blocks(Run(parent, EMPTY, [Plan(0, bs), Create(0)]).rows) == bs
  {
    hide Valid, Clash, Run;
    assert Blocks([]) == [] && Apart([], bs);
    var s1 := Step(parent, EMPTY, Plan(0, bs));
    assert s1 == State([], 0, map[0 := Checked(bs, 0)]);
    RunCons(parent, EMPTY, Plan(0, bs), [Create(0)]);
    RunCons(parent, s1, Create(0), []);
    assert [Plan(0, bs)] + [Create(0)] == [Plan(0, bs), Create(0)] && [Create(0)] + [] == [Create(0)];
    RunNone(parent, Step(parent, s1, Create(0)));
    assert [] + NewRows(0, bs) == NewRows(0, bs);
    NewBlocks(0, bs);
  }
}

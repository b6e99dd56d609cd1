/** Concurrent subnet allocation: `createSubnet`, `allocateNextSubnet` and `bulkAllocate` in
src/services/subnetService.ts.

A call reads the rows of the block, checks its subnets against them, and creates them in a later
SQL statement; no lock and no unique key connects the two. `allocateNextSubnet` searches in rows
read before and then goes through `createSubnet`, which reads again; a bulk call reads inside its
transaction and its rows become visible together. Calls overlap. */
module SubnetRuns {
  import opened Wrappers
  import opened Bits
  import opened Allocator

  datatype Row = Row(id: nat, block: Block)

  /** A call that has its block but has not checked it, or one that has: its subnets, and the first
      row id not yet given out when it read the rows for the last time. */
  datatype Call = Proposed(block: Block) | Checked(blocks: seq<Block>, since: nat)

  datatype State = State(rows: seq<Row>, nextRow: nat, calls: map<nat, Call>)

  datatype Event =
    | Propose(call: nat, block: Block)
    | Check(call: nat)
    | Plan(call: nat, blocks: seq<Block>)
    | Create(call: nat)
    | Abort(call: nat)
    | Release(k: nat)

  function Blocks(rows: seq<Row>): (bs: seq<Block>)
    ensures |bs| == |rows| && forall i :: 0 <= i < |rows| ==> bs[i] == rows[i].block
  {
    seq(|rows|, i requires 0 <= i < |rows| => rows[i].block)
  }

  function NewRows(first: nat, bs: seq<Block>): (rows: seq<Row>)
    ensures |rows| == |bs| && forall i :: 0 <= i < |bs| ==> rows[i] == Row(first + i, bs[i])
  {
    seq(|bs|, i requires 0 <= i < |bs| => Row(first + i, bs[i]))
  }

  predicate Clash(a: Block, b: Block) { a.prefix <= 32 && b.prefix <= 32 && Overlaps(a, b) }

  predicate Apart(xs: seq<Block>, bs: seq<Block>) {
    forall i, j :: 0 <= i < |xs| && 0 <= j < |bs| ==> !Clash(xs[i], bs[j])
  }

  predicate Within(parent: Block, b: Block) requires Valid(parent) { Valid(b) && Inside(b, parent) }

  /** Subnets inside the parent that do not clash. */
  predicate Tidy(parent: Block, bs: seq<Block>)
    requires Valid(parent)
  {
    && (forall i :: 0 <= i < |bs| ==> Within(parent, bs[i]))
    && (forall i, j :: 0 <= i < j < |bs| ==> !Clash(bs[i], bs[j]))
  }

  lemma TidyIsHealthy(parent: Block, bs: seq<Block>)
    requires Valid(parent)
    ensures Tidy(parent, bs) <==> Healthy(parent, bs)
  {
    if Healthy(parent, bs) {
      forall i, j | 0 <= i < j < |bs| ensures !Clash(bs[i], bs[j]) { assert Valid(bs[i]) && Valid(bs[j]); }
    }
    if Tidy(parent, bs) {
      assert forall i :: 0 <= i < |bs| ==> Within(parent, bs[i]);
      forall i, j | 0 <= i < j < |bs| ensures !Overlaps(bs[i], bs[j]) { assert !Clash(bs[i], bs[j]); }
    }
  }

  function Step(parent: Block, s: State, ev: Event): State
    requires Valid(parent)
  {
    match ev
    case Propose(c, b) =>
      if c !in s.calls && Within(parent, b) && b.prefix < 31 then s.(calls := s.calls[c := Proposed(b)]) else s
    case Check(c) =>
      if c !in s.calls || !s.calls[c].Proposed? then s
      else if Apart(Blocks(s.rows), [s.calls[c].block])
      then s.(calls := s.calls[c := Checked([s.calls[c].block], s.nextRow)])
      else s.(calls := s.calls - {c})
    case Plan(c, bs) =>
      if c !in s.calls && Apart(Blocks(s.rows), bs)
      then s.(calls := s.calls[c := Checked(bs, s.nextRow)]) else s
    case Create(c) =>
      if c !in s.calls || !s.calls[c].Checked? then s
      else
        var bs := s.calls[c].blocks;
        State(s.rows + NewRows(s.nextRow, bs), s.nextRow + |bs|, s.calls - {c})
    case Abort(c) => s.(calls := s.calls - {c})
    case Release(k) => if k < |s.rows| then s.(rows := s.rows[..k] + s.rows[k + 1..]) else s
  }

  function Run(parent: Block, s: State, evs: seq<Event>): State
    requires Valid(parent)
  {
    if evs == [] then s else Step(parent, Run(parent, s, evs[..|evs| - 1]), evs[|evs| - 1])
  }

  // ----- What the steps do

  /** A proposal is taken up exactly if it lies in the parent and is no /31 or /32; a check passes it exactly
      if no row clashes with it, and drops it otherwise. Neither changes a row. */
  lemma CheckMeans(parent: Block, s: State, c: nat, b: Block)
    requires Valid(parent) && c !in s.calls
    ensures
      var t := Step(parent, s, Propose(c, b));
      var u := Step(parent, t, Check(c));
      && t.rows == s.rows == u.rows && t.nextRow == s.nextRow == u.nextRow
      && (c in t.calls <==> Valid(b) && Inside(b, parent) && b.prefix <= 30)
      && (c in t.calls ==>
            && t.calls[c] == Proposed(b)
            && (c in u.calls <==> forall i :: 0 <= i < |s.rows| ==> !Clash(s.rows[i].block, b))
            && (c in u.calls ==> u.calls[c] == Checked([b], s.nextRow)))
  {
    hide Clash;
    var t := Step(parent, s, Propose(c, b));
    assert Apart(Blocks(s.rows), [b]) <==> forall i :: 0 <= i < |s.rows| ==> !Clash(s.rows[i].block, b) by {
      if Apart(Blocks(s.rows), [b]) {
        forall i | 0 <= i < |s.rows| ensures !Clash(s.rows[i].block, b) {
          assert !Clash(Blocks(s.rows)[i], [b][0]);
        }
      }
    }
  }

  /** A bulk call goes on exactly if no row clashes with any of its subnets, and then holds them all. */
  lemma PlanMeans(parent: Block, s: State, c: nat, bs: seq<Block>)
    requires Valid(parent) && c !in s.calls
    ensures
      var t := Step(parent, s, Plan(c, bs));
      && t.rows == s.rows && t.nextRow == s.nextRow && t.calls - {c} == s.calls
      && (c in t.calls <==>
            forall i, j :: 0 <= i < |s.rows| && 0 <= j < |bs| ==> !Clash(s.rows[i].block, bs[j]))
      && (c in t.calls ==> t.calls[c] == Checked(bs, s.nextRow))
  {
    hide Clash;
    assert s.calls - {c} == s.calls;
    assert forall i :: 0 <= i < |s.rows| ==> Blocks(s.rows)[i] == s.rows[i].block;
  }

  /** A create appends the subnets under new ids, an abort drops the call, a release takes out one row; the
      other rows and calls stay. */
  lemma RowsMean(parent: Block, s: State, c: nat, k: nat, i: nat)
    requires Valid(parent)
    ensures
      var t := Step(parent, s, Create(c));
      c in s.calls && s.calls[c].Checked? ==>
        && c !in t.calls && t.calls == s.calls - {c} && |t.rows| == |s.rows| + |s.calls[c].blocks|
        && (i < |s.rows| ==> t.rows[i] == s.rows[i])
        && (i < |s.calls[c].blocks| ==>
              t.rows[|s.rows| + i].block == s.calls[c].blocks[i] && s.nextRow <= t.rows[|s.rows| + i].id < t.nextRow)
    ensures
      var t := Step(parent, s, Abort(c));
      t.rows == s.rows && c !in t.calls && t.calls == s.calls - {c}
    ensures
      var t := Step(parent, s, Release(k));
      k < |s.rows| ==>
        && t.calls == s.calls && |t.rows| == |s.rows| - 1
        && (i < k ==> t.rows[i] == s.rows[i])
        && (k < i < |s.rows| ==> t.rows[i - 1] == s.rows[i])
  {
  }

  // ----- What one create does

  /** Rows older than the last read do not clash with what was checked against them. */
  predicate CallFits(parent: Block, s: State, call: Call)
    requires Valid(parent)
  {
    match call
    case Proposed(b) => Within(parent, b)
    case Checked(bs, since) =>
      && since <= s.nextRow
      && forall i, j :: 0 <= i < |s.rows| && 0 <= j < |bs| && s.rows[i].id < since ==> !Clash(s.rows[i].block, bs[j])
  }

  predicate Inv(parent: Block, s: State)
    requires Valid(parent)
  {
    && Tidy(parent, Blocks(s.rows))
    && (forall i :: 0 <= i < |s.rows| ==> s.rows[i].id < s.nextRow)
    && (forall c :: c in s.calls ==> CallFits(parent, s, s.calls[c]))
  }

  /** No row that was created since the call read, and is still there, clashes with what it creates. */
  predicate ClearOfNew(s: State, call: Call)
    requires call.Checked?
  {
    forall i, j :: 0 <= i < |s.rows| && 0 <= j < |call.blocks| && s.rows[i].id >= call.since ==>
      !Clash(s.rows[i].block, call.blocks[j])
  }

  /** What a call creates must be disjoint subnets of the parent, which a bulk call does not check, and
      clear of rows created since the call read, which no call checks. */
  predicate Allowed(parent: Block, s: State, ev: Event)
    requires Valid(parent)
  {
    ev.Create? && ev.call in s.calls && s.calls[ev.call].Checked? ==>
      Tidy(parent, s.calls[ev.call].blocks) && ClearOfNew(s, s.calls[ev.call])
  }

  lemma TidyAppendIff(parent: Block, xs: seq<Block>, bs: seq<Block>)
    requires Valid(parent)
    ensures Tidy(parent, xs + bs) <==> Tidy(parent, xs) && Tidy(parent, bs) && Apart(xs, bs)
  {
    hide Clash, Within;
    var all, n := xs + bs, |xs|;
    assert forall i :: 0 <= i < |all| ==> all[i] == if i < n then xs[i] else bs[i - n];
    if Tidy(parent, all) {
      assert forall i :: 0 <= i < |xs| ==> xs[i] == all[i];
      assert forall j :: 0 <= j < |bs| ==> bs[j] == all[n + j];
      forall i, j | 0 <= i < |xs| && 0 <= j < |bs| ensures !Clash(xs[i], bs[j]) {
        assert !Clash(all[i], all[n + j]);
      }
    }
  }

  lemma BlocksAppend(a: seq<Row>, b: seq<Row>)
    ensures Blocks(a + b) == Blocks(a) + Blocks(b)
  {
  }

  lemma NewBlocks(first: nat, bs: seq<Block>)
    ensures Blocks(NewRows(first, bs)) == bs
  {
  }

  /** Exactly the creates of disjoint subnets of the parent that clash with nothing created since the call
      read leave the rows disjoint. */
  lemma CreateKeepsTidyIff(parent: Block, s: State, c: nat)
    requires Valid(parent) && Inv(parent, s) && c in s.calls && s.calls[c].Checked?
    ensures Tidy(parent, Blocks(Step(parent, s, Create(c)).rows)) <==> Allowed(parent, s, Create(c))
  {
    hide Clash, Within, Tidy, Blocks, NewRows;
    var bs, since := s.calls[c].blocks, s.calls[c].since;
    assert CallFits(parent, s, s.calls[c]);
    BlocksAppend(s.rows, NewRows(s.nextRow, bs));
    NewBlocks(s.nextRow, bs);
    TidyAppendIff(parent, Blocks(s.rows), bs);
    var before := Blocks(s.rows);
    if Allowed(parent, s, Create(c)) {
      forall i, j | 0 <= i < |before| && 0 <= j < |bs| ensures !Clash(before[i], bs[j]) { }
    }
  }

  lemma CreateKeepsInv(parent: Block, s: State, c: nat)
    requires Valid(parent) && Inv(parent, s) && c in s.calls && s.calls[c].Checked?
    requires Tidy(parent, Blocks(Step(parent, s, Create(c)).rows))
    ensures Inv(parent, Step(parent, s, Create(c)))
  {
    hide Clash, Within, Tidy, Blocks;
    var t := Step(parent, s, Create(c));
    forall i | 0 <= i < |t.rows| ensures t.rows[i].id < t.nextRow && (i >= |s.rows| ==> t.rows[i].id >= s.nextRow) {
      if i < |s.rows| { assert t.rows[i] == s.rows[i]; }
    }
    forall c' | c' in t.calls ensures CallFits(parent, t, t.calls[c']) {
      assert CallFits(parent, s, s.calls[c']);
    }
  }

  lemma ReadKeepsInv(parent: Block, s: State, ev: Event)
    requires Valid(parent) && Inv(parent, s) && (ev.Propose? || ev.Check? || ev.Plan? || ev.Abort?)
    ensures Inv(parent, Step(parent, s, ev))
  {
    hide Clash, Within;
    var t := Step(parent, s, ev);
    forall c | c in t.calls ensures CallFits(parent, t, t.calls[c]) {
      if c in s.calls { assert CallFits(parent, s, s.calls[c]); }
    }
  }

  lemma ReleaseKeepsInv(parent: Block, s: State, k: nat)
    requires Valid(parent) && Inv(parent, s)
    ensures Inv(parent, Step(parent, s, Release(k)))
  {
    hide Clash, Within;
    if k < |s.rows| {
      var t := Step(parent, s, Release(k));
      assert forall i :: 0 <= i < |t.rows| ==> t.rows[i] == s.rows[if i < k then i else i + 1];
      forall c | c in t.calls ensures CallFits(parent, t, t.calls[c]) { assert CallFits(parent, s, s.calls[c]); }
    }
  }

  /** Exactly the allowed steps keep the rows disjoint and every call's check valid. */
  lemma StepKeepsInvIff(parent: Block, s: State, ev: Event)
    requires Valid(parent) && Inv(parent, s)
    ensures Inv(parent, Step(parent, s, ev)) <==> Allowed(parent, s, ev)
  {
    hide Step, Inv, Allowed, Valid;
    match ev
    case Create(c) => CreateKeepsInvIff(parent, s, c);
    case Release(k) => ReleaseKeepsInv(parent, s, k); OthersAllowed(parent, s, ev);
    case _ => ReadKeepsInv(parent, s, ev); OthersAllowed(parent, s, ev);
  }

  lemma CreateKeepsInvIff(parent: Block, s: State, c: nat)
    requires Valid(parent) && Inv(parent, s)
    ensures Inv(parent, Step(parent, s, Create(c))) <==> Allowed(parent, s, Create(c))
  {
    hide Valid, CallFits, Tidy;
    if c in s.calls && s.calls[c].Checked? {
      CreateKeepsTidyIff(parent, s, c);
      if Allowed(parent, s, Create(c)) { CreateKeepsInv(parent, s, c); }
    }
  }

  lemma OthersAllowed(parent: Block, s: State, ev: Event)
    requires Valid(parent) && !ev.Create?
    ensures Allowed(parent, s, ev)
  {
  }

  // ----- Every run

  ghost predicate AllAllowed(parent: Block, s: State, evs: seq<Event>)
    requires Valid(parent)
  {
    forall i :: 0 <= i < |evs| ==> Allowed(parent, Run(parent, s, evs[..i]), evs[i])
  }

  /** From any disjoint rows, every run of overlapping calls and releases keeps the rows inside the
      parent and disjoint, if every create is of disjoint subnets of the parent and clashes with no row
      created since its call read; the first that does otherwise breaks it. */
  lemma {:induction false} RunIsDisjoint(parent: Block, s: State, evs: seq<Event>)
    requires Valid(parent) && Inv(parent, s) && AllAllowed(parent, s, evs)
    ensures Inv(parent, Run(parent, s, evs))
    decreases |evs|
  {
    hide Step, Inv, Allowed, Valid;
    if evs != [] {
      var n := |evs| - 1;
      forall i | 0 <= i < n ensures Allowed(parent, Run(parent, s, evs[..n][..i]), evs[..n][i]) {
        assert evs[..n][..i] == evs[..i];
      }
      RunIsDisjoint(parent, s, evs[..n]);
      StepKeepsInvIff(parent, Run(parent, s, evs[..n]), evs[n]);
    }
  }

  lemma NeverOversubscribed(parent: Block, s: State, evs: seq<Event>)
    requires Valid(parent) && Inv(parent, s) && AllAllowed(parent, s, evs)
    ensures
      var bs := Blocks(Run(parent, s, evs).rows);
      Healthy(parent, bs) && TotalSize(bs) <= Size(parent)
  {
    hide Step, AllAllowed, Valid, TotalSize, Size, CallFits;
    RunIsDisjoint(parent, s, evs);
    var bs := Blocks(Run(parent, s, evs).rows);
    TidyIsHealthy(parent, bs);
    HealthyFits(parent, bs);
  }

  /** A call whose create follows its read with no other create in between is allowed exactly if it creates
      disjoint subnets of the parent. */
  lemma UndisturbedIsAllowedIff(parent: Block, s: State, c: nat)
    requires Valid(parent) && Inv(parent, s) && c in s.calls && s.calls[c].Checked? && s.calls[c].since == s.nextRow
    ensures Allowed(parent, s, Create(c)) <==> Tidy(parent, s.calls[c].blocks)
  {
  }

  // ----- Calls that are under way

  /** The calls under way go on: no new ones, no releases. */
  predicate GoesOn(ev: Event) { ev.Check? || ev.Create? || ev.Abort? }

  predicate AllGoOn(evs: seq<Event>) { forall i :: 0 <= i < |evs| ==> GoesOn(evs[i]) }

  function BlocksOf(call: Call): seq<Block> { if call.Proposed? then [call.block] else call.blocks }

  /** The call may still create: it has passed its check, or will if it checks now. */
  predicate Contends(s: State, c: nat) {
    c in s.calls && (s.calls[c].Checked? || Apart(Blocks(s.rows), BlocksOf(s.calls[c])))
  }

  /** What the calls under way claim are disjoint subnets of the parent, free of one another's and of rows
      created since they read. */
  ghost predicate Peaceful(parent: Block, s: State)
    requires Valid(parent)
  {
    && (forall c :: Allowed(parent, s, Create(c)))
    && (forall c, c' :: c != c' && Contends(s, c) && Contends(s, c') ==>
          Apart(BlocksOf(s.calls[c]), BlocksOf(s.calls[c'])))
  }

  lemma CheckKeepsPeaceful(parent: Block, s: State, ev: Event)
    requires Valid(parent) && Inv(parent, s) && Peaceful(parent, s) && (ev.Check? || ev.Abort?)
    ensures Peaceful(parent, Step(parent, s, ev))
  {
    hide Clash, Within, Tidy;
    var t := Step(parent, s, ev);
    forall c ensures Contends(t, c) ==> Contends(s, c) && BlocksOf(t.calls[c]) == BlocksOf(s.calls[c]) { }
    forall c ensures Allowed(parent, t, Create(c)) {
      assert Allowed(parent, s, Create(c));
      if c in s.calls && s.calls[c].Proposed? {
        assert CallFits(parent, s, s.calls[c]);
        TidyOneIff(parent, s.calls[c].block);
      }
    }
  }

  lemma TidyOneIff(parent: Block, b: Block)
    requires Valid(parent)
    ensures Tidy(parent, [b]) <==> Within(parent, b)
  {
    assert [b][0] == b;
  }

  lemma CreateKeepsPeaceful(parent: Block, s: State, c: nat)
    requires Valid(parent) && Inv(parent, s) && Peaceful(parent, s)
    ensures Peaceful(parent, Step(parent, s, Create(c)))
  {
    hide Clash, Within, Tidy;
    var t := Step(parent, s, Create(c));
    if t != s {
      forall c' ensures Contends(t, c') ==> Contends(s, c') && t.calls[c'] == s.calls[c'] {
        if Contends(t, c') && t.calls[c'].Proposed? { StillApart(s.rows, t.rows, t.calls[c'].block); }
      }
      forall c' ensures Allowed(parent, t, Create(c')) {
        assert Allowed(parent, s, Create(c'));
        if c' in t.calls && t.calls[c'].Checked? { RowsApart(parent, s, t, c, c'); }
      }
    }
  }

  lemma StillApart(rows: seq<Row>, rows': seq<Row>, b: Block)
    requires rows <= rows' && Apart(Blocks(rows'), [b])
    ensures Apart(Blocks(rows), [b])
  {
    hide Clash;
    forall i, j | 0 <= i < |rows| && 0 <= j < 1 ensures !Clash(Blocks(rows)[i], [b][j]) {
      assert Blocks(rows')[i] == Blocks(rows)[i] && !Clash(Blocks(rows')[i], [b][j]);
    }
  }

  /** The rows that one call creates do not clash with what another has checked. */
  lemma RowsApart(parent: Block, s: State, t: State, c: nat, c': nat)
    requires Valid(parent) && Peaceful(parent, s) && c != c'
    requires c in s.calls && s.calls[c].Checked? && c' in s.calls && s.calls[c'].Checked?
    requires t.rows == s.rows + NewRows(s.nextRow, s.calls[c].blocks) && c' in t.calls && t.calls[c'] == s.calls[c']
    ensures Allowed(parent, t, Create(c'))
  {
    hide Clash;
    var call, bs, n := s.calls[c'], s.calls[c].blocks, |s.rows|;
    assert Allowed(parent, s, Create(c')) && Contends(s, c) && Contends(s, c') && Apart(bs, call.blocks);
    forall i, j | 0 <= i < |t.rows| && 0 <= j < |call.blocks| && t.rows[i].id >= call.since
      ensures !Clash(t.rows[i].block, call.blocks[j])
    {
      if i < n { assert t.rows[i] == s.rows[i]; } else { assert t.rows[i].block == bs[i - n]; }
    }
  }

  lemma GoingOnKeepsPeaceful(parent: Block, s: State, ev: Event)
    requires Valid(parent) && Inv(parent, s) && Peaceful(parent, s) && GoesOn(ev)
    ensures Allowed(parent, s, ev) && Peaceful(parent, Step(parent, s, ev))
  {
    hide Step, Inv, Valid;
    if ev.Create? {
      CreateKeepsPeaceful(parent, s, ev.call);
      assert Allowed(parent, s, Create(ev.call));
    } else {
      CheckKeepsPeaceful(parent, s, ev);
    }
  }

  lemma {:induction false} PeacefulRuns(parent: Block, s: State, evs: seq<Event>)
    requires Valid(parent) && Inv(parent, s) && Peaceful(parent, s) && AllGoOn(evs)
    ensures Inv(parent, Run(parent, s, evs)) && Peaceful(parent, Run(parent, s, evs))
    decreases |evs|
  {
    hide Step, Inv, Valid, Peaceful, GoesOn, Allowed;
    if evs != [] {
      var n := |evs| - 1;
      PeacefulRuns(parent, s, evs[..n]);
      GoingOnKeepsPeaceful(parent, Run(parent, s, evs[..n]), evs[n]);
      StepKeepsInvIff(parent, Run(parent, s, evs[..n]), evs[n]);
    }
  }

  ghost predicate CanOverlap(parent: Block, s: State)
    requires Valid(parent)
  {
    exists evs :: AllGoOn(evs) && !Tidy(parent, Blocks(Run(parent, s, evs).rows))
  }

  lemma {:induction false} RunCons(parent: Block, s: State, ev: Event, evs: seq<Event>)
    requires Valid(parent)
    ensures Run(parent, s, [ev] + evs) == Run(parent, Step(parent, s, ev), evs)
    decreases |evs|
  {
    hide Step, Valid;
    var all := [ev] + evs;
    if evs == [] {
      assert all[..0] == [] && all[0] == ev;
      assert Run(parent, s, []) == s;
    } else {
      var n := |evs| - 1;
      assert all[..|all| - 1] == [ev] + evs[..n] && all[|all| - 1] == evs[n];
      RunCons(parent, s, ev, evs[..n]);
    }
  }

  lemma OverlapsLater(parent: Block, s: State, ev: Event)
    requires Valid(parent) && GoesOn(ev) && CanOverlap(parent, Step(parent, s, ev))
    ensures CanOverlap(parent, s)
  {
    hide Step, Valid, Tidy, Run, GoesOn;
    var evs :| AllGoOn(evs) && !Tidy(parent, Blocks(Run(parent, Step(parent, s, ev), evs).rows));
    RunCons(parent, s, ev, evs);
    assert AllGoOn([ev] + evs);
  }

  lemma ClashingCreate(parent: Block, s: State, c: nat)
    requires Valid(parent) && Inv(parent, s) && !Allowed(parent, s, Create(c))
    ensures CanOverlap(parent, s)
  {
    hide Valid, Tidy, CallFits, CanOverlap;
    CreateKeepsTidyIff(parent, s, c);
    var t := Step(parent, s, Create(c));
    OverlapNow(parent, t);
    OverlapsLater(parent, s, Create(c));
  }

  lemma OverlapNow(parent: Block, s: State)
    requires Valid(parent) && !Tidy(parent, Blocks(s.rows))
    ensures CanOverlap(parent, s)
  {
    hide Valid, Tidy;
    assert AllGoOn([]) && Run(parent, s, []) == s;
  }

  /** Of two calls that claim clashing blocks and have both passed their checks, both create. */
  lemma CheckedCallsClash(parent: Block, s: State, c: nat, c': nat)
    requires Valid(parent) && Inv(parent, s) && c != c' && c in s.calls && c' in s.calls
    requires s.calls[c].Checked? && s.calls[c'].Checked? && !Apart(s.calls[c].blocks, s.calls[c'].blocks)
    ensures CanOverlap(parent, s)
  {
    hide Valid, Tidy, Clash, CanOverlap;
    if !Allowed(parent, s, Create(c)) {
      ClashingCreate(parent, s, c);
    } else {
      var t := Step(parent, s, Create(c));
      CreateKeepsTidyIff(parent, s, c);
      CreateKeepsInv(parent, s, c);
      assert CallFits(parent, s, s.calls[c']);
      var bs, call, n := s.calls[c].blocks, t.calls[c'], |s.rows|;
      var i, j :| 0 <= i < |bs| && 0 <= j < |call.blocks| && Clash(bs[i], call.blocks[j]);
      assert t.rows[n + i] == Row(s.nextRow + i, bs[i]);
      ClashingCreate(parent, t, c');
      OverlapsLater(parent, s, Create(c));
    }
  }

  /** The call passes its check. */
  lemma Passes(parent: Block, s: State, c: nat) returns (t: State)
    requires Valid(parent) && Inv(parent, s) && Contends(s, c)
    ensures Inv(parent, t) && t.rows == s.rows && c in t.calls && t.calls[c].Checked?
    ensures BlocksOf(t.calls[c]) == BlocksOf(s.calls[c])
    ensures forall c' :: c' != c && c' in s.calls ==> c' in t.calls && t.calls[c'] == s.calls[c']
    ensures CanOverlap(parent, t) ==> CanOverlap(parent, s)
  {
    hide Valid, Tidy, Clash, CanOverlap, Apart;
    if s.calls[c].Checked? {
      t := s;
    } else {
      t := Step(parent, s, Check(c));
      ReadKeepsInv(parent, s, Check(c));
      if CanOverlap(parent, t) { OverlapsLater(parent, s, Check(c)); }
    }
  }

  lemma ContendersClash(parent: Block, s: State, c: nat, c': nat)
    requires Valid(parent) && Inv(parent, s) && c != c' && Contends(s, c) && Contends(s, c')
    requires !Apart(BlocksOf(s.calls[c]), BlocksOf(s.calls[c']))
    ensures CanOverlap(parent, s)
  {
    hide Valid, Inv, Apart, CanOverlap;
    var t := Passes(parent, s, c);
    assert Contends(t, c');
    var u := Passes(parent, t, c');
    CheckedCallsClash(parent, u, c, c');
  }

  /** However the calls under way go on, the rows stay disjoint if and only if what they claim does not
      clash, neither with one another nor with rows created since they read. */
  lemma CallsAreSafeIff(parent: Block, s: State)
    requires Valid(parent) && Inv(parent, s)
    ensures (forall evs :: AllGoOn(evs) ==> Healthy(parent, Blocks(Run(parent, s, evs).rows))) <==> Peaceful(parent, s)
  {
    hide Valid, Allowed, Apart, Run, Step, Healthy, Tidy, AllGoOn, CallFits;
    if Peaceful(parent, s) {
      forall evs | AllGoOn(evs) ensures Healthy(parent, Blocks(Run(parent, s, evs).rows)) {
        PeacefulRuns(parent, s, evs);
        TidyIsHealthy(parent, Blocks(Run(parent, s, evs).rows));
      }
    } else {
      if c :| !Allowed(parent, s, Create(c)) {
        ClashingCreate(parent, s, c);
      } else {
        var c, c' :| c != c' && Contends(s, c) && Contends(s, c')
                     && !Apart(BlocksOf(s.calls[c]), BlocksOf(s.calls[c']));
        ContendersClash(parent, s, c, c');
      }
      var evs :| AllGoOn(evs) && !Tidy(parent, Blocks(Run(parent, s, evs).rows));
      TidyIsHealthy(parent, Blocks(Run(parent, s, evs).rows));
    }
  }

  // ----- Automatic allocation

  /** The search is a function of the rows read: two calls for one size that read the same rows propose
      the same block. */
  lemma SameRowsSameBlock(parent: Block, bs: seq<Block>, b: Block, b': Block)
    requires Valid(parent) && AllBlocksValid(bs) && b.prefix == b'.prefix
    requires Lowest(Found(b), parent, Wrap(bs), b.prefix) && Lowest(Found(b'), parent, Wrap(bs), b.prefix)
    ensures b == b'
  {
  }

  const EMPTY := State([], 0, map[])

  /** Two calls that overlap, each for the whole of an empty block: both search, both check, both create,
      and the block is handed out twice. */
  lemma RacingAllocations(parent: Block)
    requires Valid(parent) && parent.prefix < 31
    ensures Lowest(Found(parent), parent, Wrap([]), parent.prefix)
    ensures
      var evs := [Propose(0, parent), Propose(1, parent), Check(0), Check(1), Create(0), Create(1)];
      var bs := Blocks(Run(parent, EMPTY, evs).rows);
      bs == [parent, parent] && AllBlocksValid(bs) && !Healthy(parent, bs) && TotalSize(bs) > Size(parent)
  {
    hide Valid, Low, Pow2, Shr, Step, Run, Lowest, Healthy;
    WholeBlock(parent);
    var evs := [Propose(0, parent), Propose(1, parent), Check(0), Check(1), Create(0), Create(1)];
    var s4 := BothChecked(parent);
    CreateBoth(parent, s4);
    RunOfSix(parent, evs);
    TwiceTheBlock(parent);
  }

  lemma BothChecked(parent: Block) returns (s4: State)
    requires Valid(parent) && parent.prefix < 31 && Within(parent, parent)
    ensures s4 == State([], 0, map[0 := Checked([parent], 0), 1 := Checked([parent], 0)])
    ensures
      var s2 := Step(parent, Step(parent, EMPTY, Propose(0, parent)), Propose(1, parent));
      s4 == Step(parent, Step(parent, s2, Check(0)), Check(1))
  {
    hide Valid, Clash, Within;
    var s2 := Step(parent, Step(parent, EMPTY, Propose(0, parent)), Propose(1, parent));
    assert s2 == State([], 0, map[0 := Proposed(parent), 1 := Proposed(parent)]);
    assert Blocks([]) == [] && Apart([], [parent]);
    s4 := Step(parent, Step(parent, s2, Check(0)), Check(1));
  }

  lemma WholeBlock(parent: Block)
    requires Valid(parent) && parent.prefix < 31
    ensures Within(parent, parent) && Lowest(Found(parent), parent, Wrap([]), parent.prefix)
  {
  }

  lemma CreateBoth(parent: Block, s: State)
    requires Valid(parent) && s == State([], 0, map[0 := Checked([parent], 0), 1 := Checked([parent], 0)])
    ensures Step(parent, Step(parent, s, Create(0)), Create(1)).rows == [Row(0, parent), Row(1, parent)]
  {
    hide Valid;
    var t := Step(parent, s, Create(0));
    assert NewRows(0, [parent]) == [Row(0, parent)] && NewRows(1, [parent]) == [Row(1, parent)];
    assert t == State([Row(0, parent)], 1, map[1 := Checked([parent], 0)]);
  }

  lemma RunOfSix(parent: Block, evs: seq<Event>)
    requires Valid(parent) && |evs| == 6
    ensures
      var s2 := Step(parent, Step(parent, EMPTY, evs[0]), evs[1]);
      var s4 := Step(parent, Step(parent, s2, evs[2]), evs[3]);
      Run(parent, EMPTY, evs) == Step(parent, Step(parent, s4, evs[4]), evs[5])
  {
    hide Step, Valid;
    assert Run(parent, EMPTY, []) == EMPTY;
    assert evs[..5][..4] == evs[..4] && evs[..4][..3] == evs[..3] && evs[..3][..2] == evs[..2];
    assert evs[..2][..1] == evs[..1] && evs[..1][..0] == [];
    assert Run(parent, EMPTY, evs[..1]) == Step(parent, EMPTY, evs[0]);
    assert Run(parent, EMPTY, evs[..2]) == Step(parent, Run(parent, EMPTY, evs[..1]), evs[1]);
    assert Run(parent, EMPTY, evs[..3]) == Step(parent, Run(parent, EMPTY, evs[..2]), evs[2]);
    assert Run(parent, EMPTY, evs[..4]) == Step(parent, Run(parent, EMPTY, evs[..3]), evs[3]);
    assert Run(parent, EMPTY, evs[..5]) == Step(parent, Run(parent, EMPTY, evs[..4]), evs[4]);
  }

  lemma TwiceTheBlock(parent: Block)
    requires Valid(parent)
    ensures
      var bs := [parent, parent];
      AllBlocksValid(bs) && !Healthy(parent, bs) && TotalSize(bs) > Size(parent)
  {
    hide Low, Pow2, Shr;
    var bs := [parent, parent];
    assert bs[..1] == [parent] && [parent][..0] == [];
    assert TotalSize([]) == 0 && TotalSize([parent]) == Size(parent);
    ContainsInterval(parent, parent.base);
    assert Overlaps(bs[0], bs[1]);
  }

  lemma RunNone(parent: Block, s: State)
    requires Valid(parent)
    ensures Run(parent, s, []) == s
  {
  }
}

/** When the single pass of `evaluateSuppression` is enough.

The source promises to re-evaluate until stable and makes one pass. Whether that pass is right
whatever the assets' health depends on the graph and the order alone: it is wrong for some
health exactly if an asset can be reached, along parents, by one decided before it, and its own
flag can come to matter. */
module SuppressionPass {
  import opened Suppression

  predicate Distinct(order: seq<string>) { forall i, j :: 0 <= i < j < |order| ==> order[i] != order[j] }

  ghost predicate KeysAre(states: States, order: seq<string>) { forall id :: id in states <==> id in order }

  predicate AllKnown(parents: Parents, order: seq<string>, id: string) {
    forall p :: p in ParentsOf(parents, id) ==> p in order
  }

  /** `path` leads along parents from the asset decided i-th to one decided later, j-th. No unknown
      asset, which counts as in service, is a parent on the way, and neither the way nor the asset
      itself is among the parents of the later one, so that its flag can be set and matter. */
  predicate Stale(parents: Parents, order: seq<string>, i: nat, j: nat, path: seq<string>) {
    && i < j < |order| && path != [] && path[|path| - 1] == order[j]
    && path[0] in ParentsOf(parents, order[i]) && AllKnown(parents, order, order[i])
    && (forall m :: 0 <= m < |path| - 1 ==>
          && path[m + 1] in ParentsOf(parents, path[m]) && AllKnown(parents, order, path[m])
          && path[m] !in ParentsOf(parents, order[j]))
    && ParentsOf(parents, order[j]) != [] && AllKnown(parents, order, order[j])
    && order[j] !in ParentsOf(parents, order[j])
  }

  // ----- The flags during the pass

  lemma PassStep(states: States, parents: Parents, order: seq<string>, i: nat)
    requires i < |order|
    ensures
      var f := Pass(states, parents, order[..i]);
      Pass(states, parents, order[..i + 1]) == f[order[i] := Decide(states, parents, f, order[i])]
  {
    assert order[..i + 1][..i] == order[..i];
  }

  /** An asset that has not had its turn is not flagged. */
  lemma {:induction false} NotYet(states: States, parents: Parents, order: seq<string>, i: nat, q: string)
    requires i <= |order| && q !in order[..i]
    ensures !Flag(Pass(states, parents, order[..i]), q)
    decreases i
  {
    hide Decide;
    if i > 0 {
      PassStep(states, parents, order, i - 1);
      assert order[..i][i - 1] == order[i - 1];
      assert q !in order[..i - 1] by {
        forall m | 0 <= m < i - 1 ensures order[m] != q { assert order[..i][m] == order[m]; }
      }
      NotYet(states, parents, order, i - 1, q);
    }
  }

  /** Once decided, a flag stays. */
  lemma {:induction false} Settled(states: States, parents: Parents, order: seq<string>, i: nat, k: nat)
    requires Distinct(order) && k < i <= |order|
    ensures Flag(Pass(states, parents, order[..i]), order[k])
      == Decide(states, parents, Pass(states, parents, order[..k]), order[k])
    decreases i
  {
    hide Decide, Pass;
    PassStep(states, parents, order, i - 1);
    if k < i - 1 { Settled(states, parents, order, i - 1, k); }
  }

  lemma NotIn(order: seq<string>, i: nat, k: nat)
    requires Distinct(order) && i <= k < |order|
    ensures order[k] !in order[..i]
  {
  }

  /** The flag of the i-th asset at the end, and that nothing is unset during the pass. */
  lemma PassFinal(states: States, parents: Parents, order: seq<string>, i: nat)
    requires Distinct(order) && i < |order|
    ensures
      var f, f' := Pass(states, parents, order[..i]), Pass(states, parents, order);
      && Flag(f', order[i]) == ShouldSuppress(states, parents, f, order[i])
      && !Flag(f, order[i])
      && forall q :: Flag(f, q) ==> Flag(f', q)
  {
    hide Pass, Decide, ShouldSuppress, Flag;
    var n := |order|;
    assert order[..n] == order;
    forall q ensures Flag(Pass(states, parents, order[..i]), q) ==> Flag(Pass(states, parents, order), q) {
      if k :| 0 <= k < i && order[..i][k] == q {
        Settled(states, parents, order, i, k);
        Settled(states, parents, order, n, k);
      } else {
        NotYet(states, parents, order, i, q);
      }
    }
    NotIn(order, i, i);
    NotYet(states, parents, order, i, order[i]);
    Settled(states, parents, order, n, i);
    DecideMeaning(states, parents, Pass(states, parents, order[..i]), order[i]);
  }

  /** An asset flagged at the end but not before the i-th turn has its turn later. */
  lemma TurnOf(states: States, parents: Parents, order: seq<string>, i: nat, q: string) returns (j: nat)
    requires Distinct(order) && i < |order| && q in order
    requires Flag(Pass(states, parents, order), q) && !Flag(Pass(states, parents, order[..i]), q)
    ensures i <= j < |order| && order[j] == q
  {
    hide Pass, Decide, Flag;
    j :| 0 <= j < |order| && order[j] == q;
    assert order[..|order|] == order;
    Settled(states, parents, order, |order|, j);
    if j < i { Settled(states, parents, order, i, j); }
  }

  // ----- Walks

  /** Fewer flags, more assets in service. */
  lemma {:induction false} OkMonotone(states: States, parents: Parents, f: Flags, f': Flags, p: string, k: nat)
    requires (forall q :: Flag(f, q) ==> Flag(f', q)) && OkWithin(states, parents, f', p, k)
    ensures OkWithin(states, parents, f, p, k)
    decreases k
  {
    if !InService(states, parents, f', p) {
      var g :| g in ParentsOf(parents, p) && OkWithin(states, parents, f', g, k - 1);
      OkMonotone(states, parents, f, f', g, k - 1);
    }
  }

  lemma SuppressMonotone(states: States, parents: Parents, f: Flags, f': Flags, id: string)
    requires (forall q :: Flag(f, q) ==> Flag(f', q)) && ShouldSuppress(states, parents, f, id)
    ensures ShouldSuppress(states, parents, f', id)
  {
    forall p | p in ParentsOf(parents, id) ensures !Ok(states, parents, f', p) {
      if k: nat :| OkWithin(states, parents, f', p, k) { OkMonotone(states, parents, f, f', p, k); }
    }
  }

  /** Each asset of the path but the last is transparent and has the next as a parent. */
  predicate Walk(states: States, parents: Parents, path: seq<string>) {
    forall m :: 0 <= m < |path| - 1 ==>
      Transparent(states, parents, path[m]) && path[m + 1] in ParentsOf(parents, path[m])
  }

  /** An asset that is ok with the flags f and not with f': the walk to one that f' puts out of
      service. */
  lemma {:induction false} OkPath(states: States, parents: Parents, f: Flags, f': Flags, p: string, k: nat)
    returns (path: seq<string>)
    requires OkWithin(states, parents, f, p, k) && !Ok(states, parents, f', p)
    ensures path != [] && path[0] == p && Walk(states, parents, path)
    ensures InService(states, parents, f, path[|path| - 1])
    ensures forall m :: 0 <= m < |path| ==> !Ok(states, parents, f', path[m])
    decreases k
  {
    if InService(states, parents, f, p) {
      path := [p];
    } else {
      var g :| g in ParentsOf(parents, p) && OkWithin(states, parents, f, g, k - 1);
      NoParentOk(states, parents, f', p);
      var rest := OkPath(states, parents, f, f', g, k - 1);
      path := [p] + rest;
      forall m | 0 <= m < |path| - 1
        ensures Transparent(states, parents, path[m]) && path[m + 1] in ParentsOf(parents, path[m])
      {
        if m > 0 { assert path[m] == rest[m - 1]; }
      }
    }
  }

  /** The parents of a transparent asset that is not ok are not ok either. */
  lemma NoParentOk(states: States, parents: Parents, f: Flags, p: string)
    requires Transparent(states, parents, p) && !Ok(states, parents, f, p)
    ensures forall g :: g in ParentsOf(parents, p) ==> !Ok(states, parents, f, g)
  {
    forall g | g in ParentsOf(parents, p) ensures !Ok(states, parents, f, g) {
      if k: nat :| OkWithin(states, parents, f, g, k) { assert OkWithin(states, parents, f, p, k + 1); }
    }
  }

  lemma NotOkIsKnown(states: States, parents: Parents, f: Flags, p: string)
    requires !Ok(states, parents, f, p)
    ensures p in states && !InService(states, parents, f, p)
  {
    assert !OkWithin(states, parents, f, p, 0);
  }

  /** Whoever walks to an asset in service is ok. */
  lemma {:induction false} WalkIsOk(states: States, parents: Parents, f: Flags, path: seq<string>, m: nat)
    requires m < |path| && Walk(states, parents, path) && InService(states, parents, f, path[|path| - 1])
    ensures Ok(states, parents, f, path[m])
    decreases |path| - m
  {
    if m < |path| - 1 {
      WalkIsOk(states, parents, f, path, m + 1);
      var k: nat :| OkWithin(states, parents, f, path[m + 1], k);
      assert OkWithin(states, parents, f, path[m], k + 1);
    } else {
      assert OkWithin(states, parents, f, path[m], 0);
    }
  }

  // ----- A wrong flag needs a stale path

  lemma WrongIsStale(states: States, parents: Parents, order: seq<string>, i: nat) returns (j: nat, path: seq<string>)
    requires Distinct(order) && KeysAre(states, order) && i < |order|
    requires
      var f' := Pass(states, parents, order);
      Flag(f', order[i]) != ShouldSuppress(states, parents, f', order[i])
    ensures Stale(parents, order, i, j, path)
  {
    hide Pass, Ok, OkWithin;
    var c, f, f' := order[i], Pass(states, parents, order[..i]), Pass(states, parents, order);
    PassFinal(states, parents, order, i);
    if ShouldSuppress(states, parents, f, c) { SuppressMonotone(states, parents, f, f', c); }
    var p :| p in ParentsOf(parents, c) && Ok(states, parents, f, p);
    path := OkPathOf(states, parents, f, f', p);
    var q := path[|path| - 1];
    forall g | g in ParentsOf(parents, c) ensures g in order { NotOkIsKnown(states, parents, f', g); }
    NotOkIsKnown(states, parents, f', q);
    j := TurnOf(states, parents, order, i, q);
    forall m | 0 <= m < |path| - 1 ensures AllKnown(parents, order, path[m]) {
      NoParentOk(states, parents, f', path[m]);
      forall g | g in ParentsOf(parents, path[m]) ensures g in order { NotOkIsKnown(states, parents, f', g); }
    }
    FlaggedLater(states, parents, order, j, path);
  }

  lemma OkPathOf(states: States, parents: Parents, f: Flags, f': Flags, p: string) returns (path: seq<string>)
    requires Ok(states, parents, f, p) && !Ok(states, parents, f', p)
    ensures path != [] && path[0] == p && Walk(states, parents, path)
    ensures InService(states, parents, f, path[|path| - 1])
    ensures forall m :: 0 <= m < |path| ==> !Ok(states, parents, f', path[m])
  {
    var k: nat :| OkWithin(states, parents, f, p, k);
    path := OkPath(states, parents, f, f', p, k);
  }

  /** An asset that is up and gets flagged has parents, all known, and neither itself nor anything
      that walks to it is among them. */
  lemma FlaggedLater(states: States, parents: Parents, order: seq<string>, j: nat, path: seq<string>)
    requires Distinct(order) && KeysAre(states, order) && j < |order|
    requires path != [] && path[|path| - 1] == order[j] && Walk(states, parents, path)
    requires Flag(Pass(states, parents, order), order[j])
    requires states[order[j]].monitored && !states[order[j]].down && !states[order[j]].testActive
    ensures ParentsOf(parents, order[j]) != [] && AllKnown(parents, order, order[j])
    ensures forall m :: 0 <= m < |path| ==> path[m] !in ParentsOf(parents, order[j])
  {
    hide Pass, Ok, OkWithin;
    var f := Pass(states, parents, order[..j]);
    PassFinal(states, parents, order, j);
    forall g | g in ParentsOf(parents, order[j]) ensures g in order { NotOkIsKnown(states, parents, f, g); }
    forall m | 0 <= m < |path| ensures path[m] !in ParentsOf(parents, order[j]) {
      WalkIsOk(states, parents, f, path, m);
    }
  }

  // ----- A stale path makes a wrong flag

  /** The asset at the end of the path is up, the way there is unmonitored, all else is down. */
  ghost predicate Arranged(states: States, path: seq<string>)
    requires path != []
  {
    forall id :: id in states ==>
      var a := states[id];
      if id == path[|path| - 1] then a.monitored && !a.down && !a.testActive
      else if id in path then !a.monitored && !a.testActive
      else a.monitored && a.down
  }

  /** From known assets the walk stays on the path, and ends nowhere in service. */
  lemma {:induction false} PathBlocked(
      states: States, parents: Parents, order: seq<string>, i: nat, j: nat, path: seq<string>,
      f: Flags, g: string, k: nat)
    requires Stale(parents, order, i, j, path) && KeysAre(states, order) && Arranged(states, path)
    requires Flag(f, order[j]) && g in order
    ensures !OkWithin(states, parents, f, g, k)
    decreases k
  {
    if g in path && g != order[j] {
      var m :| 0 <= m < |path| && path[m] == g;
      assert path[m + 1] in ParentsOf(parents, g) && AllKnown(parents, order, g);
      if k > 0 {
        forall h | h in ParentsOf(parents, g) ensures !OkWithin(states, parents, f, h, k - 1) {
          PathBlocked(states, parents, order, i, j, path, f, h, k - 1);
        }
      }
    }
  }

  lemma {:induction false} PathOpen(
      states: States, parents: Parents, order: seq<string>, i: nat, j: nat, path: seq<string>, f: Flags, m: nat)
    requires Stale(parents, order, i, j, path) && KeysAre(states, order) && Arranged(states, path)
    requires !Flag(f, order[j]) && m < |path|
    ensures Ok(states, parents, f, path[m])
    decreases |path| - m
  {
    assert path[m] in order by { OnPathIsKnown(parents, order, i, j, path, m); }
    if path[m] == order[j] {
      assert OkWithin(states, parents, f, path[m], 0);
    } else {
      PathOpen(states, parents, order, i, j, path, f, m + 1);
      var k: nat :| OkWithin(states, parents, f, path[m + 1], k);
      assert OkWithin(states, parents, f, path[m], k + 1);
    }
  }

  lemma OnPathIsKnown(parents: Parents, order: seq<string>, i: nat, j: nat, path: seq<string>, m: nat)
    requires Stale(parents, order, i, j, path) && m < |path|
    ensures path[m] in order
  {
    if m > 0 { assert AllKnown(parents, order, path[m - 1]) && path[m - 1 + 1] in ParentsOf(parents, path[m - 1]); }
  }

  /** The later asset ends up flagged: its parents are all down. */
  lemma TargetFlagged(states: States, parents: Parents, order: seq<string>, i: nat, j: nat, path: seq<string>)
    requires Stale(parents, order, i, j, path) && Distinct(order) && KeysAre(states, order) && Arranged(states, path)
    ensures Flag(Pass(states, parents, order), order[j])
  {
    hide Pass;
    var f := Pass(states, parents, order[..j]);
    PassFinal(states, parents, order, j);
    assert forall m :: 0 <= m < |path| ==> path[m] !in ParentsOf(parents, order[j]);
    forall g, k: nat | g in ParentsOf(parents, order[j]) ensures !OkWithin(states, parents, f, g, k) {
      assert g in order && g !in path;
    }
  }

  lemma StaleBreaks(states: States, parents: Parents, order: seq<string>, i: nat, j: nat, path: seq<string>)
    requires Stale(parents, order, i, j, path) && Distinct(order) && KeysAre(states, order) && Arranged(states, path)
    ensures
      var f' := Pass(states, parents, order);
      !Flag(f', order[i]) && ShouldSuppress(states, parents, f', order[i])
  {
    hide Pass, OkWithin, Arranged;
    var f, f' := Pass(states, parents, order[..i]), Pass(states, parents, order);
    PassFinal(states, parents, order, i);
    TargetFlagged(states, parents, order, i, j, path);
    NotIn(order, i, j);
    NotYet(states, parents, order, i, order[j]);
    PathOpen(states, parents, order, i, j, path, f, 0);
    forall g | g in ParentsOf(parents, order[i]) ensures !Ok(states, parents, f', g) {
      forall k: nat ensures !OkWithin(states, parents, f', g, k) {
        PathBlocked(states, parents, order, i, j, path, f', g, k);
      }
    }
  }

  // ----- All health values

  /** The same assets in the same layers, whatever their health. */
  predicate SameGraph(s: seq<Asset>, s': seq<Asset>) {
    |s| == |s'| && forall i :: 0 <= i < |s| ==> s[i].id == s'[i].id && s[i].layer == s'[i].layer
  }

  /** The single pass leaves every flag right. */
  ghost predicate Right(s: seq<Asset>, parents: Parents) {
    Solves(StatesOf(s), parents, Pass(StatesOf(s), parents, Ids(SortByLayer(s))), s)
  }

  lemma {:induction false} InsertSameGraph(a: Asset, a': Asset, s: seq<Asset>, s': seq<Asset>)
    requires a.id == a'.id && a.layer == a'.layer && SameGraph(s, s')
    ensures SameGraph(Insert(a, s), Insert(a', s'))
  {
    if s != [] { InsertSameGraph(a, a', s[..|s| - 1], s'[..|s| - 1]); }
  }

  lemma {:induction false} SortSameGraph(s: seq<Asset>, s': seq<Asset>)
    requires SameGraph(s, s')
    ensures SameGraph(SortByLayer(s), SortByLayer(s'))
  {
    if s != [] {
      var n := |s| - 1;
      SortSameGraph(s[..n], s'[..n]);
      InsertSameGraph(s[n], s'[n], SortByLayer(s[..n]), SortByLayer(s'[..n]));
    }
  }

  /** What the lemmas above need of the order. */
  lemma OrderIsGood(s: seq<Asset>)
    requires UniqueIds(s)
    ensures
      var order := Ids(SortByLayer(s));
      Distinct(order) && KeysAre(StatesOf(s), order) && Indexes(StatesOf(s), s)
  {
    hide SortByLayer, StatesOf;
    var sorted := SortByLayer(s);
    StatesIndexed(s);
    SortIsSorted(s);
    SortedIndexes(StatesOf(s), s, sorted);
    forall id ensures id in StatesOf(s) <==> id in Ids(sorted) {
      if id in Ids(sorted) { var i :| 0 <= i < |sorted| && Ids(sorted)[i] == id; }
      if id in StatesOf(s) { var i :| 0 <= i < |sorted| && sorted[i].id == id; assert Ids(sorted)[i] == id; }
    }
  }

  function Ailing(a: Asset, path: seq<string>): Asset
    requires path != []
  {
    var up := a.id == path[|path| - 1];
    a.(monitored := up || a.id !in path, down := !up, testActive := false)
  }

  /** The single pass is right whatever the health of the assets, if and only if no asset leads along
      parents to one decided later whose flag can matter. A caller can tell from the layers and the
      parents alone. */
  lemma OnePassSufficesIff(s: seq<Asset>, parents: Parents)
    requires UniqueIds(s)
    ensures
      (forall s' :: SameGraph(s, s') ==> Right(s', parents))
      <==> forall i: nat, j: nat, path :: !Stale(parents, Ids(SortByLayer(s)), i, j, path)
  {
    hide SortByLayer, StatesOf, Pass, Stale, Solves;
    var order := Ids(SortByLayer(s));
    if i: nat, j: nat, path :| Stale(parents, order, i, j, path) {
      var s' := StaleHealth(s, parents, i, j, path);
    } else {
      forall s' | SameGraph(s, s') ensures Right(s', parents) {
        NeverWrong(s, s', parents);
      }
    }
  }

  lemma StaleHealth(s: seq<Asset>, parents: Parents, i: nat, j: nat, path: seq<string>) returns (s': seq<Asset>)
    requires UniqueIds(s) && Stale(parents, Ids(SortByLayer(s)), i, j, path)
    ensures SameGraph(s, s') && !Right(s', parents)
  {
    hide SortByLayer, StatesOf, Pass, ShouldSuppress, Arranged, Indexes;
    var order := Ids(SortByLayer(s));
    assert path != [];
    s' := seq(|s|, m requires 0 <= m < |s| => Ailing(s[m], path));
    SortSameGraph(s, s');
    assert Ids(SortByLayer(s')) == order;
    OrderIsGood(s');
    var states := StatesOf(s');
    AilingIsArranged(states, s, s', path);
    StaleBreaks(states, parents, order, i, j, path);
    var m := IndexOf(states, s', order[i]);
  }

  lemma IndexOf(states: States, s: seq<Asset>, id: string) returns (m: nat)
    requires Indexes(states, s) && id in states
    ensures m < |s| && s[m].id == id
  {
    m :| 0 <= m < |s| && s[m].id == id;
  }

  lemma AilingIsArranged(states: States, s: seq<Asset>, s': seq<Asset>, path: seq<string>)
    requires path != [] && Indexes(states, s') && |s'| == |s|
    requires forall m :: 0 <= m < |s| ==> s'[m] == Ailing(s[m], path)
    ensures Arranged(states, path)
  {
    forall id | id in states ensures states[id].id == id && exists a :: states[id] == Ailing(a, path) {
      var m := IndexOf(states, s', id);
      assert states[id] == Ailing(s[m], path);
    }
  }

  lemma NeverWrong(s: seq<Asset>, s': seq<Asset>, parents: Parents)
    requires UniqueIds(s) && SameGraph(s, s')
    requires forall i: nat, j: nat, path :: !Stale(parents, Ids(SortByLayer(s)), i, j, path)
    ensures Right(s', parents)
  {
    hide SortByLayer, StatesOf, Pass, ShouldSuppress, Stale;
    var order, states := Ids(SortByLayer(s)), StatesOf(s');
    SortSameGraph(s, s');
    assert Ids(SortByLayer(s')) == order;
    OrderIsGood(s');
    var f := Pass(states, parents, order);
    forall m | 0 <= m < |s'| ensures Flag(f, s'[m].id) == ShouldSuppress(states, parents, f, s'[m].id) {
      assert s'[m].id in order;
      var i :| 0 <= i < |order| && order[i] == s'[m].id;
      if Flag(f, order[i]) != ShouldSuppress(states, parents, f, order[i]) {
        var j, path := WrongIsStale(states, parents, order, i);
      }
    }
  }

  // ----- Without self-edges

  predicate NoSelfEdges(parents: Parents, order: seq<string>) {
    forall i :: 0 <= i < |order| ==> order[i] !in ParentsOf(parents, order[i])
  }

  /** An edge to an asset decided later whose flag can matter. */
  predicate StaleEdge(parents: Parents, order: seq<string>, i: nat, j: nat) {
    && i < j < |order| && order[j] in ParentsOf(parents, order[i]) && AllKnown(parents, order, order[i])
    && ParentsOf(parents, order[j]) != [] && AllKnown(parents, order, order[j])
  }

  /** The first edge of a stale path that passes the turn of its start is a stale edge. */
  lemma StaleHasEdge(parents: Parents, order: seq<string>, i: nat, j: nat, path: seq<string>) returns (a: nat, b: nat)
    requires Distinct(order) && NoSelfEdges(parents, order) && Stale(parents, order, i, j, path)
    ensures StaleEdge(parents, order, a, b)
  {
    var m := 0;
    a := i;
    while true
      invariant m < |path| && a <= i && path[m] in ParentsOf(parents, order[a]) && AllKnown(parents, order, order[a])
      decreases |path| - m
    {
      assert path[m] in order;
      b :| 0 <= b < |order| && order[b] == path[m];
      if b > i {
        if m < |path| - 1 { assert path[m + 1] in ParentsOf(parents, path[m]) && AllKnown(parents, order, path[m]); }
        return;
      }
      assert m < |path| - 1;
      assert path[m + 1] in ParentsOf(parents, path[m]) && AllKnown(parents, order, path[m]);
      a, m := b, m + 1;
    }
  }

  /** In a graph without self-edges it comes down to single edges: the pass is right for every health
      if and only if each edge to an asset decided later starts at one with an unknown parent, or
      ends at one with no parent or an unknown one. */
  lemma OnePassSufficesIffNoStaleEdge(s: seq<Asset>, parents: Parents)
    requires UniqueIds(s) && NoSelfEdges(parents, Ids(SortByLayer(s)))
    ensures
      (forall s' :: SameGraph(s, s') ==> Right(s', parents))
      <==> forall i: nat, j: nat :: !StaleEdge(parents, Ids(SortByLayer(s)), i, j)
  {
    hide SortByLayer, Stale, StaleEdge, Right;
    var order := Ids(SortByLayer(s));
    OnePassSufficesIff(s, parents);
    OrderIsGood(s);
    if i: nat, j: nat, path :| Stale(parents, order, i, j, path) {
      var a, b := StaleHasEdge(parents, order, i, j, path);
    }
    if i: nat, j: nat :| StaleEdge(parents, order, i, j) { EdgeIsStale(parents, order, i, j); }
  }

  lemma EdgeIsStale(parents: Parents, order: seq<string>, i: nat, j: nat)
    requires NoSelfEdges(parents, order) && StaleEdge(parents, order, i, j)
    ensures Stale(parents, order, i, j, [order[j]])
  {
  }
}

/** Dependency-aware suppression: `evaluateSuppression` in
src/services/dependencyTreeService.ts.

An asset is suppressed when none of its effective parents is in service. Parents that are
not monitored are transparent: the walk goes on to their own parents. The source runs a
depth-first search with a visited set, once per asset, in layer order; `OkWithin` says
what that search is for, as reachability. */
module Suppression {
  import opened Wrappers

  /** `down` is `monitorStatus === "down"`; `testActive` is a Dependency Test overlay that
      has not expired at the time of evaluation. */
  datatype Asset = Asset(id: string, layer: Option<nat>, monitored: bool, down: bool, testActive: bool)

  type Parents = map<string, seq<string>>
  type States = map<string, Asset>
  type Flags = map<string, bool>

  const MAX_SAFE_INTEGER: nat := 9007199254740991

  function LayerKey(a: Asset): nat { if a.layer.Some? then a.layer.value else MAX_SAFE_INTEGER }

  function ParentsOf(parents: Parents, id: string): seq<string> {
    if id in parents then parents[id] else []
  }

  function Flag(flags: Flags, id: string): bool { id in flags && flags[id] }

  // ----- What the walk means

  /** The walk passes through: known, unmonitored, not under test, with parents of its own. */
  predicate Transparent(states: States, parents: Parents, p: string) {
    p in states && !states[p].testActive && !states[p].monitored && ParentsOf(parents, p) != []
  }

  /** The walk ends here with the verdict "in service". */
  predicate InService(states: States, parents: Parents, flags: Flags, p: string) {
    || p !in states
    || (!states[p].testActive
        && (if states[p].monitored then !states[p].down && !Flag(flags, p) else ParentsOf(parents, p) == []))
  }

  /** An asset in service is reached from `p` through at most k transparent ones. */
  ghost predicate OkWithin(states: States, parents: Parents, flags: Flags, p: string, k: nat)
    decreases k
  {
    || InService(states, parents, flags, p)
    || (k > 0 && Transparent(states, parents, p)
        && exists g :: g in ParentsOf(parents, p) && OkWithin(states, parents, flags, g, k - 1))
  }

  ghost predicate Ok(states: States, parents: Parents, flags: Flags, p: string) {
    exists k: nat :: OkWithin(states, parents, flags, p, k)
  }

  /** What the flag of `id` should be, given the flags of the others. */
  ghost predicate ShouldSuppress(states: States, parents: Parents, flags: Flags, id: string) {
    && ParentsOf(parents, id) != []
    && forall p :: p in ParentsOf(parents, id) ==> !Ok(states, parents, flags, p)
  }

  /** When a parent counts as in service: an unknown one always; one under a Dependency Test never; a
      monitored one if it is not down and not itself suppressed; an unmonitored one if it has no parents of
      its own or one of them counts. */
  lemma ParentCounts(states: States, parents: Parents, flags: Flags, p: string)
    ensures Ok(states, parents, flags, p) <==>
      if p !in states then true
      else if states[p].testActive then false
      else if states[p].monitored then !states[p].down && !(p in flags && flags[p])
      else p !in parents || parents[p] == [] || exists g :: g in parents[p] && Ok(states, parents, flags, g)
  {
    if k: nat :| OkWithin(states, parents, flags, p, k) {
      if !InService(states, parents, flags, p) {
        var g :| g in ParentsOf(parents, p) && OkWithin(states, parents, flags, g, k - 1);
        assert Ok(states, parents, flags, g);
      }
    }
    if InService(states, parents, flags, p) { assert OkWithin(states, parents, flags, p, 0); }
    if g :| g in ParentsOf(parents, p) && Ok(states, parents, flags, g) {
      var k: nat :| OkWithin(states, parents, flags, g, k);
      if Transparent(states, parents, p) { assert OkWithin(states, parents, flags, p, k + 1); }
    }
  }

  /** All-down semantics: an asset whose parents are all known and monitored is to be suppressed exactly if it
      has one and each is down, suppressed or under test. */
  lemma AllDown(states: States, parents: Parents, flags: Flags, id: string)
    requires id in parents && forall p :: p in parents[id] ==> p in states && states[p].monitored
    ensures ShouldSuppress(states, parents, flags, id) <==>
      && parents[id] != []
      && forall p :: p in parents[id] ==>
          states[p].down || (p in flags && flags[p]) || states[p].testActive
  {
    forall p | p in parents[id]
      ensures Ok(states, parents, flags, p) <==>
        !(states[p].down || (p in flags && flags[p]) || states[p].testActive)
    {
      ParentCounts(states, parents, flags, p);
    }
  }

  // ----- The search

  /** `isParentOk(parentId)`: the verdict and the visited set afterwards. */
  function IsParentOk(states: States, parents: Parents, flags: Flags, p: string, visited: set<string>)
    : (r: (bool, set<string>))
    ensures visited <= r.1 && p in r.1
    decreases states.Keys - visited, 0
  {
    if p in visited then (false, visited)
    else
      var seen := visited + {p};
      if p !in states then (true, seen)
      else if states[p].testActive then (false, seen)
      else if !states[p].monitored then
        if ParentsOf(parents, p) == [] then (true, seen)
        else AnyOk(states, parents, flags, ParentsOf(parents, p), seen)
      else (!states[p].down && !Flag(flags, p), seen)
  }

  /** `list.some(isParentOk)`, which stops at the first success. */
  function AnyOk(states: States, parents: Parents, flags: Flags, ps: seq<string>, visited: set<string>)
    : (r: (bool, set<string>))
    ensures visited <= r.1 && (!r.0 ==> forall p :: p in ps ==> p in r.1)
    decreases states.Keys - visited, |ps| + 1
  {
    if ps == [] then (false, visited)
    else
      var (ok, seen) := IsParentOk(states, parents, flags, ps[0], visited);
      if ok then (true, seen) else AnyOk(states, parents, flags, ps[1..], seen)
  }

  /** A visited set that the search has finished with: nothing new in it is in service, and
      the walk does not lead out of it. */
  ghost predicate Exhausted(states: States, parents: Parents, flags: Flags, before: set<string>, after: set<string>) {
    forall v :: v in after && v !in before ==>
      && !InService(states, parents, flags, v)
      && (Transparent(states, parents, v) ==> forall g :: g in ParentsOf(parents, v) ==> g in after)
  }

  lemma {:induction false} ParentOkSound(
      states: States, parents: Parents, flags: Flags, p: string, visited: set<string>)
    ensures
      var r := IsParentOk(states, parents, flags, p, visited);
      if r.0 then Ok(states, parents, flags, p) else Exhausted(states, parents, flags, visited, r.1)
    decreases states.Keys - visited, 0
  {
    var r := IsParentOk(states, parents, flags, p, visited);
    if p !in visited {
      if Transparent(states, parents, p) {
        AnyOkSound(states, parents, flags, ParentsOf(parents, p), visited + {p});
        if r.0 {
          var g, k: nat :| g in ParentsOf(parents, p) && OkWithin(states, parents, flags, g, k);
          assert OkWithin(states, parents, flags, p, k + 1);
        }
      } else if r.0 {
        assert OkWithin(states, parents, flags, p, 0);
      }
    }
  }

  lemma {:induction false} AnyOkSound(
      states: States, parents: Parents, flags: Flags, ps: seq<string>, visited: set<string>)
    ensures
      var r := AnyOk(states, parents, flags, ps, visited);
      if r.0 then exists p, k: nat :: p in ps && OkWithin(states, parents, flags, p, k)
      else Exhausted(states, parents, flags, visited, r.1)
    decreases states.Keys - visited, |ps| + 1
  {
    if ps != [] {
      ParentOkSound(states, parents, flags, ps[0], visited);
      var (ok, seen) := IsParentOk(states, parents, flags, ps[0], visited);
      if ok {
        var k: nat :| OkWithin(states, parents, flags, ps[0], k);
        assert ps[0] in ps;
      } else {
        AnyOkSound(states, parents, flags, ps[1..], seen);
        var r := AnyOk(states, parents, flags, ps[1..], seen);
        if r.0 {
          var p, k: nat :| p in ps[1..] && OkWithin(states, parents, flags, p, k);
          assert p in ps;
        }
      }
    }
  }

  /** Nothing in service is reachable from an exhausted set. */
  lemma {:induction false} ExhaustedBlocks(
      states: States, parents: Parents, flags: Flags, seen: set<string>, p: string, k: nat)
    requires Exhausted(states, parents, flags, {}, seen) && p in seen
    ensures !OkWithin(states, parents, flags, p, k)
    decreases k
  {
    if k > 0 && Transparent(states, parents, p) {
      forall g | g in ParentsOf(parents, p) ensures !OkWithin(states, parents, flags, g, k - 1) {
        ExhaustedBlocks(states, parents, flags, seen, g, k - 1);
      }
    }
  }

  /** On every graph, cyclic ones included, the search with its shared visited set and early
      exit decides reachability: some listed parent is found ok exactly when an asset in
      service can be reached from one through transparent assets. */
  lemma SearchDecidesReachability(states: States, parents: Parents, flags: Flags, ps: seq<string>)
    ensures AnyOk(states, parents, flags, ps, {}).0 <==> exists p :: p in ps && Ok(states, parents, flags, p)
  {
    AnyOkSound(states, parents, flags, ps, {});
    var r := AnyOk(states, parents, flags, ps, {});
    if r.0 {
      var p, k: nat :| p in ps && OkWithin(states, parents, flags, p, k);
      assert Ok(states, parents, flags, p);
    } else {
      forall p, k: nat | p in ps ensures !OkWithin(states, parents, flags, p, k) {
        ExhaustedBlocks(states, parents, flags, r.1, p, k);
      }
    }
  }

  // ----- Evaluation in layer order

  /** Insertion behind all assets of the same or a lower layer. */
  function Insert(a: Asset, sorted: seq<Asset>): seq<Asset> {
    if sorted == [] || LayerKey(sorted[|sorted| - 1]) <= LayerKey(a) then sorted + [a]
    else Insert(a, sorted[..|sorted| - 1]) + [sorted[|sorted| - 1]]
  }

  /** The stable sort by layer, assets without a layer last. */
  function SortByLayer(states: seq<Asset>): seq<Asset> {
    if states == [] then [] else Insert(states[|states| - 1], SortByLayer(states[..|states| - 1]))
  }

  lemma {:induction false} InsertPermutes(a: Asset, sorted: seq<Asset>)
    ensures multiset(Insert(a, sorted)) == multiset(sorted) + multiset{a}
  {
    if sorted != [] {
      var n := |sorted| - 1;
      InsertPermutes(a, sorted[..n]);
      assert sorted == sorted[..n] + [sorted[n]];
    }
  }

  lemma {:induction false} InsertBound(a: Asset, sorted: seq<Asset>, bound: nat)
    requires LayerKey(a) <= bound && forall i :: 0 <= i < |sorted| ==> LayerKey(sorted[i]) <= bound
    ensures forall i :: 0 <= i < |Insert(a, sorted)| ==> LayerKey(Insert(a, sorted)[i]) <= bound
  {
    if sorted != [] { InsertBound(a, sorted[..|sorted| - 1], bound); }
  }

  lemma {:induction false} InsertOrders(a: Asset, sorted: seq<Asset>)
    requires Ordered(sorted)
    ensures Ordered(Insert(a, sorted))
  {
    hide LayerKey;
    if sorted != [] && LayerKey(sorted[|sorted| - 1]) > LayerKey(a) {
      var n := |sorted| - 1;
      InsertOrders(a, sorted[..n]);
      InsertBound(a, sorted[..n], LayerKey(sorted[n]));
    }
  }

  lemma {:induction false} SortIsSorted(s: seq<Asset>)
    ensures Ordered(SortByLayer(s)) && multiset(SortByLayer(s)) == multiset(s)
  {
    if s != [] {
      hide Ordered, Insert;
      var n := |s| - 1;
      SortIsSorted(s[..n]);
      InsertOrders(s[n], SortByLayer(s[..n]));
      InsertPermutes(s[n], SortByLayer(s[..n]));
      assert s == s[..n] + [s[n]];
    }
  }

  /** The order is by layer, lowest first, and assets without a layer come last: the largest safe integer
      stands in for it. */
  lemma LayersAscend(s: seq<Asset>, i: nat, j: nat)
    requires i < j < |SortByLayer(s)|
    ensures
      var a, b := SortByLayer(s)[i], SortByLayer(s)[j];
      && (a.layer.Some? && b.layer.Some? ==> a.layer.value <= b.layer.value)
      && (a.layer.None? && b.layer.Some? ==> b.layer.value >= 9007199254740991)
  {
    SortIsSorted(s);
  }

  /** The assets of one layer, or those without one, in order. */
  function OfLayer(s: seq<Asset>, key: nat): seq<Asset> {
    if s == [] then []
    else OfLayer(s[..|s| - 1], key) + if LayerKey(s[|s| - 1]) == key then [s[|s| - 1]] else []
  }

  lemma OfLayerSnoc(s: seq<Asset>, a: Asset, key: nat)
    ensures OfLayer(s + [a], key) == OfLayer(s, key) + if LayerKey(a) == key then [a] else []
  {
    assert (s + [a])[..|s|] == s;
  }

  lemma {:induction false} InsertIsStable(a: Asset, s: seq<Asset>, key: nat)
    ensures OfLayer(Insert(a, s), key) == OfLayer(s, key) + if LayerKey(a) == key then [a] else []
  {
    hide LayerKey, OfLayer;
    if s == [] || LayerKey(s[|s| - 1]) <= LayerKey(a) {
      OfLayerSnoc(s, a, key);
    } else {
      var n := |s| - 1;
      InsertIsStable(a, s[..n], key);
      OfLayerSnoc(Insert(a, s[..n]), s[n], key);
      OfLayerSnoc(s[..n], s[n], key);
      assert s == s[..n] + [s[n]];
    }
  }

  /** The sort is stable: assets of one layer keep the order they were listed in. */
  lemma {:induction false} SortIsStable(s: seq<Asset>, key: nat)
    ensures OfLayer(SortByLayer(s), key) == OfLayer(s, key)
  {
    if s != [] {
      hide LayerKey, Insert;
      var n := |s| - 1;
      SortIsStable(s[..n], key);
      InsertIsStable(s[n], SortByLayer(s[..n]), key);
    }
  }

  predicate Ordered(s: seq<Asset>) {
    forall i, j :: 0 <= i < j < |s| ==> LayerKey(s[i]) <= LayerKey(s[j])
  }

  predicate UniqueIds(s: seq<Asset>) {
    forall i, j :: 0 <= i < j < |s| ==> s[i].id != s[j].id
  }

  /** `stateById` holds exactly the listed assets. */
  ghost predicate Indexes(states: States, s: seq<Asset>) {
    && (forall i :: 0 <= i < |s| ==> s[i].id in states && states[s[i].id] == s[i])
    && (forall id :: id in states ==> exists i :: 0 <= i < |s| && s[i].id == id)
  }

  /** Every known parent sits in a strictly lower layer than its child. */
  ghost predicate Layered(states: States, parents: Parents) {
    forall c, p :: c in states && p in states && p in ParentsOf(parents, c) ==>
      LayerKey(states[p]) < LayerKey(states[c])
  }

  /** One asset's turn. */
  function Decide(states: States, parents: Parents, flags: Flags, id: string): bool {
    ParentsOf(parents, id) != [] && !AnyOk(states, parents, flags, ParentsOf(parents, id), {}).0
  }

  lemma DecideMeaning(states: States, parents: Parents, flags: Flags, id: string)
    ensures Decide(states, parents, flags, id) == ShouldSuppress(states, parents, flags, id)
  {
    SearchDecidesReachability(states, parents, flags, ParentsOf(parents, id));
  }

  /** The verdict on `p` depends only on flags of layers up to its own. */
  lemma {:induction false} OkWithinLocal(
      states: States, parents: Parents, f: Flags, f': Flags, bound: nat, p: string, k: nat)
    requires Layered(states, parents)
    requires forall q :: q in states && LayerKey(states[q]) < bound ==> Flag(f, q) == Flag(f', q)
    requires p in states ==> LayerKey(states[p]) < bound
    ensures OkWithin(states, parents, f, p, k) == OkWithin(states, parents, f', p, k)
    decreases k
  {
    if k > 0 && Transparent(states, parents, p) {
      forall g | g in ParentsOf(parents, p)
        ensures OkWithin(states, parents, f, g, k - 1) == OkWithin(states, parents, f', g, k - 1)
      {
        OkWithinLocal(states, parents, f, f', bound, g, k - 1);
      }
    }
  }

  lemma ShouldSuppressLocal(states: States, parents: Parents, f: Flags, f': Flags, id: string)
    requires Layered(states, parents) && id in states
    requires forall q :: q in states && LayerKey(states[q]) < LayerKey(states[id]) ==> Flag(f, q) == Flag(f', q)
    ensures ShouldSuppress(states, parents, f, id) == ShouldSuppress(states, parents, f', id)
  {
    forall p | p in ParentsOf(parents, id) ensures Ok(states, parents, f, p) == Ok(states, parents, f', p) {
      forall k: nat ensures OkWithin(states, parents, f, p, k) == OkWithin(states, parents, f', p, k) {
        OkWithinLocal(states, parents, f, f', LayerKey(states[id]), p, k);
      }
    }
  }

  /** The flags that are right for every listed asset. */
  ghost predicate Solves(states: States, parents: Parents, flags: Flags, s: seq<Asset>) {
    forall i :: 0 <= i < |s| ==> Flag(flags, s[i].id) == ShouldSuppress(states, parents, flags, s[i].id)
  }

  /** Deciding the next asset in layer order leaves the earlier ones right. */
  lemma DecideNext(states: States, parents: Parents, flags: Flags, s: seq<Asset>, i: nat)
    requires Layered(states, parents) && Indexes(states, s) && Ordered(s) && UniqueIds(s) && i < |s|
    requires Solves(states, parents, flags, s[..i])
    ensures
      var id := s[i].id;
      Solves(states, parents, flags[id := Decide(states, parents, flags, id)], s[..i + 1])
  {
    var id := s[i].id;
    var flags' := flags[id := Decide(states, parents, flags, id)];
    DecideMeaning(states, parents, flags, id);
    forall j | 0 <= j < i + 1
      ensures Flag(flags', s[j].id) == ShouldSuppress(states, parents, flags', s[j].id)
    {
      assert states[s[j].id] == s[j] && LayerKey(s[j]) <= LayerKey(s[i]);
      ShouldSuppressLocal(states, parents, flags, flags', s[j].id);
      if j < i { assert s[..i][j] == s[j]; }
    }
  }

  /** The assets by id. */
  function StatesOf(s: seq<Asset>): States {
    if s == [] then map[] else StatesOf(s[..|s| - 1])[s[|s| - 1].id := s[|s| - 1]]
  }

  lemma {:induction false} StatesIndexed(s: seq<Asset>)
    requires UniqueIds(s)
    ensures Indexes(StatesOf(s), s)
  {
    if s != [] {
      var n := |s| - 1;
      var front, states := s[..n], StatesOf(s);
      StatesIndexed(front);
      forall i | 0 <= i < |s| ensures s[i].id in states && states[s[i].id] == s[i] {
        if i < n { assert front[i] == s[i]; }
      }
      forall id | id in states ensures exists i :: 0 <= i < |s| && s[i].id == id {
        if id == s[n].id {
          assert s[n].id == id;
        } else {
          var i :| 0 <= i < |front| && front[i].id == id;
          assert s[i].id == id;
        }
      }
    }
  }

  function Ids(s: seq<Asset>): (ids: seq<string>)
    ensures |ids| == |s| && forall i :: 0 <= i < |s| ==> ids[i] == s[i].id
  {
    seq(|s|, i requires 0 <= i < |s| => s[i].id)
  }

  /** One pass over the assets in the given order, starting with no flag set. */
  function Pass(states: States, parents: Parents, order: seq<string>): Flags
    decreases |order|
  {
    if order == [] then map id | id in states :: false
    else
      var n := |order| - 1;
      var flags := Pass(states, parents, order[..n]);
      flags[order[n] := Decide(states, parents, flags, order[n])]
  }

  method IndexById(s: seq<Asset>) returns (states: States)
    ensures states == StatesOf(s)
  {
    states := map[];
    for i := 0 to |s|
      invariant states == StatesOf(s[..i])
    {
      assert s[..i + 1][..i] == s[..i];
      states := states[s[i].id := s[i]];
    }
    assert s[..|s|] == s;
  }

  /** `evaluateSuppression`: one pass in layer order. With every known parent in a lower layer it
      yields flags that are right for all assets at once. */
  method EvaluateSuppression(s: seq<Asset>, parents: Parents) returns (result: Flags)
    requires UniqueIds(s)
    ensures result == Pass(StatesOf(s), parents, Ids(SortByLayer(s)))
    ensures result.Keys == StatesOf(s).Keys
    ensures Layered(StatesOf(s), parents) ==> Solves(StatesOf(s), parents, result, s)
  {
    hide Decide, Solves, SortByLayer, Layered, Indexes, UniqueIds, Ordered, StatesOf, Pass;
    var states := IndexById(s);
    StatesIndexed(s);
    var sorted := SortByLayer(s);
    SortIsSorted(s);
    SortedIndexes(states, s, sorted);
    result := map id | id in states :: false;
    SolvesNothing(states, parents, result);
    PassNone(states, parents, sorted);
    for i := 0 to |sorted|
      invariant result.Keys == states.Keys
      invariant result == Pass(states, parents, Ids(sorted[..i]))
      invariant Layered(states, parents) ==> Solves(states, parents, result, sorted[..i])
    {
      IndexedId(states, sorted, i);
      if Layered(states, parents) { DecideNext(states, parents, result, sorted, i); }
      PassSnoc(states, parents, sorted, i);
      result := result[sorted[i].id := Decide(states, parents, result, sorted[i].id)];
    }
    assert sorted[..|sorted|] == sorted;
    if Layered(states, parents) { SolvesPermuted(states, parents, result, sorted, s); }
  }

  lemma PassNone(states: States, parents: Parents, s: seq<Asset>)
    ensures Pass(states, parents, Ids(s[..0])) == map id | id in states :: false
  {
  }

  lemma PassSnoc(states: States, parents: Parents, s: seq<Asset>, i: nat)
    requires i < |s|
    ensures
      var flags := Pass(states, parents, Ids(s[..i]));
      Pass(states, parents, Ids(s[..i + 1])) == flags[s[i].id := Decide(states, parents, flags, s[i].id)]
  {
    assert Ids(s[..i + 1])[..i] == Ids(s[..i]);
  }

  lemma IndexedId(states: States, s: seq<Asset>, i: nat)
    requires Indexes(states, s) && i < |s|
    ensures s[i].id in states
  {
  }

  lemma SolvesNothing(states: States, parents: Parents, flags: Flags)
    ensures Solves(states, parents, flags, [])
  {
  }

  lemma SortedIndexes(states: States, s: seq<Asset>, sorted: seq<Asset>)
    requires Indexes(states, s) && UniqueIds(s) && multiset(s) == multiset(sorted)
    ensures Indexes(states, sorted) && UniqueIds(sorted)
  {
    forall i | 0 <= i < |sorted| ensures sorted[i].id in states && states[sorted[i].id] == sorted[i] {
      assert sorted[i] in multiset(s);
    }
    forall id | id in states ensures exists i :: 0 <= i < |sorted| && sorted[i].id == id {
      var i :| 0 <= i < |s| && s[i].id == id;
      assert s[i] in multiset(sorted);
    }
    UniqueBySize(states, s, sorted);
  }

  lemma {:induction false} NoRepeats(s: seq<Asset>)
    requires UniqueIds(s)
    ensures forall a :: multiset(s)[a] <= 1
  {
    if s != [] {
      var n := |s| - 1;
      assert s == s[..n] + [s[n]];
      NoRepeats(s[..n]);
      assert s[n] !in s[..n];
    }
  }

  lemma UniqueBySize(states: States, s: seq<Asset>, sorted: seq<Asset>)
    requires Indexes(states, s) && UniqueIds(s) && multiset(s) == multiset(sorted)
    ensures UniqueIds(sorted)
  {
    NoRepeats(s);
    forall i, j | 0 <= i < j < |sorted| ensures sorted[i].id != sorted[j].id {
      assert sorted[i] in multiset(s) && sorted[j] in multiset(s);
      if sorted[i].id == sorted[j].id {
        assert sorted[i] == sorted[j];
        Repeated(sorted, i, j);
      }
    }
  }

  lemma Repeated(s: seq<Asset>, i: nat, j: nat)
    requires i < j < |s| && s[i] == s[j]
    ensures multiset(s)[s[i]] >= 2
  {
    assert s == s[..i] + [s[i]] + s[i + 1..j] + [s[j]] + s[j + 1..];
  }

  lemma SolvesPermuted(states: States, parents: Parents, flags: Flags, sorted: seq<Asset>, s: seq<Asset>)
    requires multiset(s) == multiset(sorted) && Solves(states, parents, flags, sorted)
    ensures Solves(states, parents, flags, s)
  {
    forall i | 0 <= i < |s|
      ensures Flag(flags, s[i].id) == ShouldSuppress(states, parents, flags, s[i].id)
    {
      assert s[i] in multiset(sorted);
      var j :| 0 <= j < |sorted| && sorted[j] == s[i];
    }
  }

  /** On a layered graph the right flags are unique, so evaluation order does not matter. */
  lemma {:induction false} SolutionUnique(
      states: States, parents: Parents, f: Flags, f': Flags, s: seq<Asset>, id: string)
    requires Layered(states, parents) && Indexes(states, s) && id in states
    requires Solves(states, parents, f, s) && Solves(states, parents, f', s)
    ensures Flag(f, id) == Flag(f', id)
    decreases LayerKey(states[id])
  {
    forall q | q in states && LayerKey(states[q]) < LayerKey(states[id]) ensures Flag(f, q) == Flag(f', q) {
      SolutionUnique(states, parents, f, f', s, q);
    }
    ShouldSuppressLocal(states, parents, f, f', id);
    var i :| 0 <= i < |s| && s[i].id == id;
  }

  /** Without layering the single pass can leave a wrong flag: a child pinned below a parent
      of a higher layer is decided while that parent's flag is still false. */
  lemma UnlayeredPassIsStale()
    ensures
      var child := Asset("c", Some(1), true, false, false);
      var mid := Asset("m", Some(2), true, false, false);
      var top := Asset("t", Some(3), true, true, false);
      var states: States := map["c" := child, "m" := mid, "t" := top];
      var parents: Parents := map["c" := ["m"], "m" := ["t"]];
      var f0: Flags := map["c" := false, "m" := false, "t" := false];
      var f1 := f0["c" := Decide(states, parents, f0, "c")];
      var f2 := f1["m" := Decide(states, parents, f1, "m")];
      var f3 := f2["t" := Decide(states, parents, f2, "t")];
      && !Layered(states, parents)
      && !Flag(f3, "c") && Decide(states, parents, f3, "c")
      && ShouldSuppress(states, parents, f3, "c")
  {
    var child := Asset("c", Some(1), true, false, false);
    var mid := Asset("m", Some(2), true, false, false);
    var top := Asset("t", Some(3), true, true, false);
    var states: States := map["c" := child, "m" := mid, "t" := top];
    var parents: Parents := map["c" := ["m"], "m" := ["t"]];
    var f0: Flags := map["c" := false, "m" := false, "t" := false];
    DecideSingle(states, parents, f0, "c", "m");
    var f1 := f0["c" := Decide(states, parents, f0, "c")];
    DecideSingle(states, parents, f1, "m", "t");
    var f2 := f1["m" := Decide(states, parents, f1, "m")];
    var f3 := f2["t" := Decide(states, parents, f2, "t")];
    DecideSingle(states, parents, f3, "c", "m");
    DecideMeaning(states, parents, f3, "c");
    assert "m" in ParentsOf(parents, "c") && LayerKey(states["m"]) >= LayerKey(states["c"]);
  }

  lemma DecideSingle(states: States, parents: Parents, flags: Flags, id: string, p: string)
    requires ParentsOf(parents, id) == [p] && p in states && states[p].monitored && !states[p].testActive
    ensures Decide(states, parents, flags, id) == (states[p].down || Flag(flags, p))
  {
    var r := IsParentOk(states, parents, flags, p, {});
    assert r.0 == (!states[p].down && !Flag(flags, p));
    assert AnyOk(states, parents, flags, [p][1..], r.1).0 == false;
    assert AnyOk(states, parents, flags, [p], {}).0 == r.0;
  }
}

/** The connection-path overlay on the topology graph, and the persistence of node
positions: public/js/map.js.

Nodes and edges share one id space, as in Cytoscape, which also removes the edges of a
removed node and refuses to add an element whose id is taken. */
module TopologyOverlay {
  import opened Wrappers

  type Pos = (real, real)

  datatype Element =
    | Node(caption: string, pos: Pos, dimmed: bool, synthetic: bool)
    | Edge(caption: string, source: string, target: string, dimmed: bool, synthetic: bool)

  type Graph = map<string, Element>

  datatype Hop = Hop(id: string, endpoint: bool, caption: string)

  /** A search result: the asset, its hops from the endpoint up, and where Cytoscape puts a
      node that is added without a position. */
  datatype Path = Path(assetId: string, hops: seq<Hop>, added: Pos)

  datatype Overlay = Overlay(endpointId: string, edgeId: Option<string>, saved: map<string, Pos>)

  /** `timer` is the pending drag save, `stored` the positions in local storage. */
  datatype State = State(g: Graph, overlay: Option<Overlay>, timer: bool, stored: Option<map<string, Pos>>)

  // ----- Elementary graph edits

  function Undim(g: Graph): Graph { map id | id in g :: g[id].(dimmed := false) }

  function Place(g: Graph, id: string, pos: Pos): Graph {
    if id in g && g[id].Node? then g[id := g[id].(pos := pos)] else g
  }

  function Remove(g: Graph, id: string): Graph {
    map k | k in g && k != id && !(g[k].Edge? && (g[k].source == id || g[k].target == id)) :: g[k]
  }

  function Restore(g: Graph, saved: map<string, Pos>): Graph {
    map id | id in g :: if id in saved && g[id].Node? then g[id].(pos := saved[id]) else g[id]
  }

  function Positions(g: Graph): map<string, Pos> {
    map id | id in g && g[id].Node? :: g[id].pos
  }

  // ----- Applying an overlay

  function Ids(hops: seq<Hop>): (ids: seq<string>)
    ensures |ids| == |hops|
  {
    seq(|hops|, i requires 0 <= i < |hops| => hops[i].id)
  }

  function EdgeId(path: Path): string { "ep-edge-" + path.assetId }

  predicate AddsEndpoint(g: Graph, path: Path) {
    path.hops != [] && path.assetId !in g && path.hops[0].endpoint
  }

  function WithEndpoint(g: Graph, path: Path): Graph {
    if AddsEndpoint(g, path) then g[path.assetId := Node(path.hops[0].caption, path.added, false, true)] else g
  }

  predicate AddsEdge(g: Graph, path: Path) {
    AddsEndpoint(g, path) && |path.hops| > 1 && path.hops[1].id in WithEndpoint(g, path)
  }

  /** The graph with the synthetic endpoint and its edge to the first switch hop. */
  function Extended(g: Graph, path: Path): Graph {
    var g1 := WithEndpoint(g, path);
    if AddsEdge(g, path) && EdgeId(path) !in g1 then
      g1[EdgeId(path) := Edge(path.hops[1].caption, path.assetId, path.hops[1].id, false, true)]
    else g1
  }

  function Dim(g: Graph, ids: seq<string>, edgeId: Option<string>): Graph {
    map id | id in g ::
      var onPath := id in ids || edgeId == Some(id)
                    || (g[id].Edge? && g[id].source in ids && g[id].target in ids);
      if onPath then g[id] else g[id].(dimmed := true)
  }

  function Snapshot(g: Graph, ids: seq<string>): map<string, Pos> {
    map id | id in ids && id in g && g[id].Node? :: g[id].pos
  }

  /** The tight vertical chain: each listed node below the one before it. */
  function Chain(g: Graph, ids: seq<string>, x: real, k: nat): Graph
    decreases |ids|
  {
    if ids == [] then g else Chain(Place(g, ids[0], (x, k as real * 160.0)), ids[1..], x, k + 1)
  }

  function Reversed(ids: seq<string>): (r: seq<string>)
    ensures |r| == |ids| && forall i :: 0 <= i < |ids| ==> r[i] == ids[|ids| - 1 - i]
  {
    seq(|ids|, i requires 0 <= i < |ids| => ids[|ids| - 1 - i])
  }

  function AnchorX(g: Graph, top: seq<string>): real {
    if top != [] && top[0] in g && g[top[0]].Node? then g[top[0]].pos.0 else 0.0
  }

  /** `clearConnectionPathOverlay` on the graph. */
  function ClearedGraph(g: Graph, overlay: Option<Overlay>): Graph {
    var g1 := Undim(g);
    if overlay.None? then g1
    else
      var o := overlay.value;
      var g2 := Restore(g1, o.saved);
      var g3 := if o.edgeId.Some? && o.edgeId.value in g2 then Remove(g2, o.edgeId.value) else g2;
      if o.endpointId in g3 && g3[o.endpointId].synthetic then Remove(g3, o.endpointId) else g3
  }

  function Cleared(s: State): State { s.(g := ClearedGraph(s.g, s.overlay), overlay := None) }

  /** `applyConnectionPathOverlay`: an empty path is ignored, an old overlay is cleared first. */
  function Applied(s: State, path: Path): State {
    if path.hops == [] then s
    else
      var g := Cleared(s).g;
      var ids := Ids(path.hops);
      var top := Reversed(ids);
      var edgeId := if AddsEdge(g, path) then Some(EdgeId(path)) else None;
      var g1 := Dim(Extended(g, path), ids, edgeId);
      s.(g := Chain(g1, top, AnchorX(g1, top), 0),
         overlay := Some(Overlay(path.assetId, edgeId, Snapshot(g1, ids))))
  }

  // ----- The graph underneath

  /** The graph that "Show full site" would show. */
  function Base(s: State): Graph { ClearedGraph(s.g, s.overlay) }

  /** Edges join nodes, nothing is dimmed, nothing is marked synthetic. */
  predicate Plain(g: Graph) {
    forall id :: id in g ==>
      && !g[id].dimmed && !g[id].synthetic
      && (g[id].Edge? ==> g[id].source in g && g[id].target in g)
  }

  /** The id of the synthetic edge, if one is to be added, is not in use. */
  predicate NoClash(g: Graph, path: Path) {
    AddsEdge(g, path) ==> EdgeId(path) !in WithEndpoint(g, path)
  }

  lemma {:induction false} ChainElement(g: Graph, ids: seq<string>, x: real, k: nat, id: string)
    ensures id in Chain(g, ids, x, k) <==> id in g
    ensures id in g ==>
      var e := Chain(g, ids, x, k)[id];
      e == g[id] || (g[id].Node? && e.Node? && id in ids && e == g[id].(pos := e.pos))
    decreases |ids|
  {
    if ids != [] {
      var g' := Place(g, ids[0], (x, k as real * 160.0));
      assert id in g' <==> id in g;
      ChainElement(g', ids[1..], x, k + 1, id);
    }
  }

  /** The chain puts each listed node in its own row, 160 below the one before it. */
  lemma {:induction false} ChainPlaces(g: Graph, ids: seq<string>, x: real, k: nat, i: nat)
    requires i < |ids| && ids[i] in g && g[ids[i]].Node?
    requires forall j :: i < j < |ids| ==> ids[j] != ids[i]
    ensures
      var g' := Chain(g, ids, x, k);
      ids[i] in g' && g'[ids[i]] == g[ids[i]].(pos := (x, (k + i) as real * 160.0))
    decreases |ids|
  {
    var g1 := Place(g, ids[0], (x, k as real * 160.0));
    if i == 0 {
      ChainElement(g1, ids[1..], x, k + 1, ids[0]);
    } else {
      ChainPlaces(g1, ids[1..], x, k + 1, i - 1);
    }
  }

  /** Where the overlay puts the i-th hop: in the firewall's column, if the firewall is in the graph. */
  function Slot(g: Graph, path: Path, i: nat): Pos
    requires i < |path.hops|
  {
    (AnchorX(g, Reversed(Ids(path.hops))), (|path.hops| - 1 - i) as real * 160.0)
  }

  /** The hop is not listed before. */
  predicate FirstHop(path: Path, i: nat) {
    i < |path.hops| && forall j :: 0 <= j < i ==> path.hops[j].id != path.hops[i].id
  }

  lemma HopInSlot(s: State, path: Path, i: nat)
    requires FirstHop(path, i)
    requires
      var g0 := Extended(Base(s), path);
      path.hops[i].id in g0 && g0[path.hops[i].id].Node?
    ensures
      var g0 := Extended(Base(s), path);
      var id := path.hops[i].id;
      id in Applied(s, path).g && Applied(s, path).g[id] == g0[id].(pos := Slot(g0, path, i))
  {
    hide Chain, Extended, ClearedGraph;
    var g, ids := Base(s), Ids(path.hops);
    var top := Reversed(ids);
    var edgeId := if AddsEdge(g, path) then Some(EdgeId(path)) else None;
    var g1 := Dim(Extended(g, path), ids, edgeId);
    var n := |path.hops|;
    assert top[n - 1 - i] == ids[i] == path.hops[i].id;
    assert ids[i] in ids;
    forall j | n - 1 - i < j < n ensures top[j] != top[n - 1 - i] {
      assert top[j] == ids[n - 1 - j];
    }
    ChainPlaces(g1, top, AnchorX(g1, top), 0, n - 1 - i);
  }

  /** On screen an overlay shows the hops as a column, the last hop (the firewall) on top at its
      own x and the endpoint at the bottom, undimmed. */
  lemma OverlayShowsColumn(s: State, path: Path, i: nat)
    requires i < |path.hops| && (forall j :: 0 <= j < i ==> path.hops[j].id != path.hops[i].id)
    requires
      var g0 := Extended(Base(s), path);
      var top := path.hops[|path.hops| - 1].id;
      && path.hops[i].id in g0 && g0[path.hops[i].id].Node? && top in g0 && g0[top].Node?
    ensures
      var g0 := Extended(Base(s), path);
      var n := |path.hops|;
      var id := path.hops[i].id;
      && id in Applied(s, path).g
      && Applied(s, path).g[id] == g0[id].(pos := (g0[path.hops[n - 1].id].pos.0, (n - 1 - i) as real * 160.0))
  {
    hide Chain, Extended, ClearedGraph, Applied;
    HopInSlot(s, path, i);
    assert Reversed(Ids(path.hops))[0] == path.hops[|path.hops| - 1].id;
  }

  /** Without the firewall in the graph the column stands at the left edge. */
  lemma OverlayColumnWithoutTop(s: State, path: Path, i: nat)
    requires FirstHop(path, i)
    requires
      var g0 := Extended(Base(s), path);
      var top := path.hops[|path.hops| - 1].id;
      path.hops[i].id in g0 && g0[path.hops[i].id].Node? && top !in g0
    ensures
      var id := path.hops[i].id;
      && id in Applied(s, path).g && Applied(s, path).g[id].Node?
      && Applied(s, path).g[id].pos == (0.0, (|path.hops| - 1 - i) as real * 160.0)
  {
    hide Chain, Extended, ClearedGraph, Applied;
    HopInSlot(s, path, i);
    assert Reversed(Ids(path.hops))[0] == path.hops[|path.hops| - 1].id;
  }

  predicate IsHop(path: Path, id: string) { exists i :: 0 <= i < |path.hops| && path.hops[i].id == id }

  /** The endpoint of the search is not in the graph and is added to it. */
  predicate NewEndpoint(b: Graph, path: Path) requires path.hops != [] {
    path.assetId !in b && path.hops[0].endpoint
  }

  /** It is joined to the second hop, if that is in the graph. */
  predicate NewEdge(b: Graph, path: Path) requires path.hops != [] {
    NewEndpoint(b, path) && |path.hops| > 1 && (path.hops[1].id in b || path.hops[1].id == path.assetId)
  }

  function SyntheticEdge(path: Path): string { "ep-edge-" + path.assetId }

  lemma ExtendedShows(b: Graph, path: Path, id: string)
    requires path.hops != []
    ensures AddsEdge(b, path) <==> NewEdge(b, path)
    ensures
      var g := Extended(b, path);
      && (id in g <==> id in b || (NewEndpoint(b, path) && id == path.assetId)
                       || (NewEdge(b, path) && id == SyntheticEdge(path)))
      && (id in b ==> g[id] == b[id])
      && (NewEndpoint(b, path) && id == path.assetId ==>
            g[id] == Node(path.hops[0].caption, path.added, false, true))
      && (NewEdge(b, path) && id == SyntheticEdge(path) && id !in b ==>
            g[id] == Edge(path.hops[1].caption, path.assetId, path.hops[1].id, false, true))
  {
    assert |EdgeId(path)| != |path.assetId|;
  }

  /** The element is part of the path: a hop, the synthetic edge, or an edge between hops. */
  predicate OnPath(b: Graph, path: Path, id: string, e: Element) requires path.hops != [] {
    || IsHop(path, id)
    || (NewEdge(b, path) && id == SyntheticEdge(path))
    || (e.Edge? && IsHop(path, e.source) && IsHop(path, e.target))
  }

  lemma HopsAreIds(path: Path, x: string)
    ensures IsHop(path, x) <==> x in Ids(path.hops)
  {
    var ids := Ids(path.hops);
    if x in ids { var i :| 0 <= i < |ids| && ids[i] == x; assert path.hops[i].id == x; }
    if i :| 0 <= i < |path.hops| && path.hops[i].id == x { assert ids[i] == x; }
  }

  /** The same but for dimming and the position of a node. */
  predicate SameElement(e: Element, e': Element) {
    && (e.Node? <==> e'.Node?) && e'.caption == e.caption && e'.synthetic == e.synthetic
    && (e.Edge? ==> e'.source == e.source && e'.target == e.target)
  }

  /** Dimming and chaining change nothing but dimming and positions. */
  lemma AppliedShows(s: State, path: Path, id: string)
    requires Plain(Base(s)) && path.hops != []
    ensures
      var b, g0, g := Base(s), Extended(Base(s), path), Applied(s, path).g;
      && (id in g <==> id in g0)
      && (id in g ==>
            && SameElement(g0[id], g[id])
            && (g[id].dimmed <==> !OnPath(b, path, id, g0[id])))
  {
    hide Chain, ClearedGraph, Plain, Extended, IsHop, AddsEdge, NewEdge;
    var b, ids := Base(s), Ids(path.hops);
    var edgeId := if AddsEdge(b, path) then Some(EdgeId(path)) else None;
    var g0 := Extended(b, path);
    var g1 := Dim(g0, ids, edgeId);
    ExtendedShows(b, path, id);
    ExtendedUndimmed(b, path);
    HopsAreIds(path, id);
    if id in g0 && g0[id].Edge? {
      HopsAreIds(path, g0[id].source);
      HopsAreIds(path, g0[id].target);
    }
    ChainElement(g1, Reversed(ids), AnchorX(g1, Reversed(ids)), 0, id);
  }

  /** What an overlay shows of each element: besides the graph underneath there are the endpoint and its edge
      to the second hop, everything looks as it did but for positions of hops, and exactly what is neither a
      hop, nor that edge, nor an edge between hops, is dimmed. */
  lemma OverlayShows(s: State, path: Path, id: string)
    requires Plain(Base(s)) && path.hops != []
    ensures
      var b, g := Base(s), Applied(s, path).g;
      && (id in g <==> id in b || (NewEndpoint(b, path) && id == path.assetId)
                       || (NewEdge(b, path) && id == SyntheticEdge(path)))
      && (id in g ==> (g[id].dimmed <==> !OnPath(b, path, id, g[id])))
      && (id in b ==> SameElement(b[id], g[id]))
      && (NewEndpoint(b, path) && id == path.assetId ==>
            g[id].Node? && g[id].synthetic && g[id].caption == path.hops[0].caption)
      && (NewEdge(b, path) && id == SyntheticEdge(path) && id !in b ==>
            g[id] == Edge(path.hops[1].caption, path.assetId, path.hops[1].id, false, true))
  {
    hide Applied, Base, Plain, Extended, IsHop, NewEdge, NewEndpoint;
    AppliedShows(s, path, id);
    ExtendedShows(Base(s), path, id);
  }

  /** Undimming and restoring the snapshot undoes dimming and chaining. */
  lemma ChainUndone(g: Graph, ids: seq<string>, edgeId: Option<string>, x: real)
    requires forall id :: id in g ==> !g[id].dimmed
    ensures
      var g1 := Dim(g, ids, edgeId);
      Restore(Undim(Chain(g1, Reversed(ids), x, 0)), Snapshot(g1, ids)) == g
  {
    var g1 := Dim(g, ids, edgeId);
    var g2 := Chain(g1, Reversed(ids), x, 0);
    var g3 := Restore(Undim(g2), Snapshot(g1, ids));
    forall id ensures id in g2 <==> id in g1 { ChainElement(g1, Reversed(ids), x, 0, id); }
    assert g3.Keys == g.Keys;
    forall id | id in g ensures g3[id] == g[id] {
      ChainElement(g1, Reversed(ids), x, 0, id);
      assert g1[id] == g[id] || g1[id] == g[id].(dimmed := true);
      if id in Reversed(ids) { InReversed(ids, id); }
    }
  }

  lemma InReversed(ids: seq<string>, id: string)
    requires id in Reversed(ids)
    ensures id in ids
  {
  }

  /** Removing the synthetic edge and endpoint undoes adding them. */
  lemma ExtensionUndone(g: Graph, path: Path)
    requires Plain(g) && NoClash(g, path) && AddsEndpoint(g, path)
    ensures
      var g1 := Extended(g, path);
      var g2 := if AddsEdge(g, path) then Remove(g1, EdgeId(path)) else g1;
      path.assetId in g2 && g2[path.assetId].synthetic && Remove(g2, path.assetId) == g
  {
    var g1 := Extended(g, path);
    var g2 := if AddsEdge(g, path) then Remove(g1, EdgeId(path)) else g1;
    assert forall id :: id in g && g[id].Edge? ==> g[id].source != path.assetId && g[id].target != path.assetId;
    forall id ensures id in g2 <==> id in WithEndpoint(g, path) {
      if AddsEdge(g, path) && id in g1 && g1[id].Edge? && id != EdgeId(path) {
        assert g1[id] == g[id];
        assert g1[id].source in g && g1[id].target in g;
      }
    }
    assert g2 == WithEndpoint(g, path);
    assert Remove(g2, path.assetId) == g;
  }

  lemma ExtendedUndimmed(g: Graph, path: Path)
    requires Plain(g)
    ensures forall id :: id in Extended(g, path) ==> !Extended(g, path)[id].dimmed
  {
  }

  /** Clearing after an overlay gives back exactly the graph before it: nodes, edges, positions
      and undimmed state. */
  lemma OverlayKeepsBase(s: State, path: Path)
    requires Plain(Base(s)) && NoClash(Base(s), path)
    ensures Base(Applied(s, path)) == Base(s)
  {
    hide Chain, Dim, Snapshot, Plain, Undim, Restore;
    if path.hops != [] {
      var g := Base(s);
      var ids := Ids(path.hops);
      var edgeId := if AddsEdge(g, path) then Some(EdgeId(path)) else None;
      var g0 := Extended(g, path);
      var g1 := Dim(g0, ids, edgeId);
      var s' := Applied(s, path);
      ExtendedUndimmed(g, path);
      ChainUndone(g0, ids, edgeId, AnchorX(g1, Reversed(ids)));
      assert Restore(Undim(s'.g), s'.overlay.value.saved) == g0;
      if AddsEndpoint(g, path) {
        ExtensionUndone(g, path);
      } else {
        PlainNotSynthetic(g, path.assetId);
      }
    }
  }

  /** If the synthetic edge's id is taken, clearing removes the element that had it: an overlay
      is undone exactly when there is no such clash. */
  lemma OverlayUndoneIff(s: State, path: Path)
    requires Plain(Base(s))
    ensures Base(Applied(s, path)) == Base(s) <==> NoClash(Base(s), path)
  {
    hide Chain, Dim, Snapshot, Plain, Undim, Restore;
    if NoClash(Base(s), path) {
      OverlayKeepsBase(s, path);
    } else {
      var g, ids, s' := Base(s), Ids(path.hops), Applied(s, path);
      var g0 := Extended(g, path);
      var g1 := Dim(g0, ids, Some(EdgeId(path)));
      ExtendedUndimmed(g, path);
      ChainUndone(g0, ids, Some(EdgeId(path)), AnchorX(g1, Reversed(ids)));
      assert Restore(Undim(s'.g), s'.overlay.value.saved) == g0;
      assert |EdgeId(path)| != |path.assetId|;
      assert EdgeId(path) in g && EdgeId(path) in g0;
      assert EdgeId(path) !in Base(s');
    }
  }

  lemma PlainNotSynthetic(g: Graph, id: string)
    requires Plain(g)
    ensures id in g ==> !g[id].synthetic
  {
  }

  lemma ClearKeepsBase(s: State)
    requires Plain(Base(s))
    ensures Cleared(s).g == Base(s) && Base(Cleared(s)) == Base(s)
  {
  }

  // ----- Runs

  datatype Event =
    | Search(path: Path)
    | ShowFullSite
    | Drag(id: string, pos: Pos)
    | TimerFires

  /** A drag moves the node; it schedules a save unless an overlay is up. */
  function Dragged(s: State, id: string, pos: Pos): State {
    s.(g := Place(s.g, id, pos), timer := s.timer || (s.overlay.None? && id in s.g && s.g[id].Node?))
  }

  function Saved(s: State): State { s.(stored := Some(Positions(s.g))) }

  function Step(s: State, ev: Event): State {
    match ev
    case Search(path) => Applied(s, path)
    case ShowFullSite => Cleared(s)
    case Drag(id, pos) => Dragged(s, id, pos)
    case TimerFires => if s.timer then Saved(s.(timer := false)) else s
  }

  function Run(s: State, evs: seq<Event>): State
    decreases |evs|
  {
    if evs == [] then s else Run(Step(s, evs[0]), evs[1..])
  }

  /** No search among the events meets an id clash in the graph, which a caller can tell before the
      first of them: the clash depends only on which ids there are. */
  predicate Clashless(g: Graph, evs: seq<Event>) {
    forall i :: 0 <= i < |evs| && evs[i].Search? ==> NoClash(g, evs[i].path)
  }

  lemma ClashDependsOnIds(g: Graph, g': Graph, evs: seq<Event>)
    requires Clashless(g, evs) && g.Keys == g'.Keys
    ensures Clashless(g', evs)
  {
    forall i | 0 <= i < |evs| && evs[i].Search? ensures NoClash(g', evs[i].path) {
      assert NoClash(g, evs[i].path);
    }
  }

  /** A drag changes the graph underneath only for the dragged node, and not even for that one
      while it is part of the chain. */
  lemma DragOnBase(s: State, id: string, pos: Pos)
    ensures
      var chained := s.overlay.Some? && id in s.overlay.value.saved;
      Base(Dragged(s, id, pos)) == if chained then Base(s) else Place(Base(s), id, pos)
  {
    hide Remove, Undim, Restore;
    var s' := Dragged(s, id, pos);
    if !(id in s.g && s.g[id].Node?) {
      BaseSubset(s, id);
    } else {
      UndimPlace(s.g, id, pos);
      if s.overlay.Some? {
        var o, g1 := s.overlay.value, Undim(s.g);
        RestorePlace(g1, id, pos, o.saved);
        PlaceRemove(Restore(g1, o.saved), id, pos, o);
      }
    }
  }

  /** A search with a path puts up its overlay in place of any other, one without does nothing, and "Show full
      site" takes the overlay down, with everything dimmed or synthetic; neither saves. */
  lemma OverlayComesAndGoes(s: State, path: Path)
    ensures
      var up, down := Step(s, Search(path)), Step(s, ShowFullSite);
      && (if path.hops == [] then up == s else up.overlay.Some? && up.overlay.value.endpointId == path.assetId)
      && down.overlay.None?
      && up.timer == down.timer == s.timer && up.stored == down.stored == s.stored
      && (Plain(Base(s)) ==> forall id :: id in down.g ==> !down.g[id].dimmed && !down.g[id].synthetic)
  {
    hide Chain, Dim, Extended, ClearedGraph;
  }

  /** A drag without an overlay is what the next save stores; under an overlay it schedules nothing. */
  lemma DragIsSaved(s: State, id: string, pos: Pos)
    requires id in s.g && s.g[id].Node?
    ensures
      var d := Step(s, Drag(id, pos));
      var t := Step(d, TimerFires);
      && id in d.g && d.g[id].Node? && d.g[id].pos == pos && d.overlay == s.overlay && d.stored == s.stored
      && (d.timer <==> s.timer || s.overlay.None?)
      && (d.timer ==> !t.timer && t.g == d.g && t.stored == Some(Positions(s.g)[id := pos]))
      && (!d.timer ==> t == d)
  {
    assert Positions(Place(s.g, id, pos)) == Positions(s.g)[id := pos];
  }

  lemma UndimPlace(g: Graph, id: string, pos: Pos)
    ensures Undim(Place(g, id, pos)) == Place(Undim(g), id, pos)
  {
  }

  lemma RestorePlace(g: Graph, id: string, pos: Pos, saved: map<string, Pos>)
    ensures Restore(Place(g, id, pos), saved)
      == if id in saved then Restore(g, saved) else Place(Restore(g, saved), id, pos)
  {
  }

  function Trimmed(g: Graph, o: Overlay): Graph {
    var g3 := if o.edgeId.Some? && o.edgeId.value in g then Remove(g, o.edgeId.value) else g;
    if o.endpointId in g3 && g3[o.endpointId].synthetic then Remove(g3, o.endpointId) else g3
  }

  lemma PlaceRemoveOne(g: Graph, id: string, pos: Pos, k: string)
    ensures Remove(Place(g, id, pos), k) == Place(Remove(g, k), id, pos)
  {
  }

  lemma PlaceRemove(g: Graph, id: string, pos: Pos, o: Overlay)
    ensures Trimmed(Place(g, id, pos), o) == Place(Trimmed(g, o), id, pos)
  {
    hide Remove;
    var g3 := if o.edgeId.Some? && o.edgeId.value in g then Remove(g, o.edgeId.value) else g;
    if o.edgeId.Some? { PlaceRemoveOne(g, id, pos, o.edgeId.value); }
    PlaceRemoveOne(g3, id, pos, o.endpointId);
  }

  lemma BaseSubset(s: State, id: string)
    requires !(id in s.g && s.g[id].Node?)
    ensures !(id in Base(s) && Base(s)[id].Node?)
  {
  }

  lemma PlacePlain(g: Graph, id: string, pos: Pos)
    requires Plain(g)
    ensures Plain(Place(g, id, pos))
  {
  }

  /** One step keeps the graph underneath plain, keeps its elements, and changes no element
      other than a node it drags. */
  lemma StepOnBase(s: State, ev: Event, k: string)
    requires Plain(Base(s)) && (ev.Search? ==> NoClash(Base(s), ev.path))
    ensures
      var b, b' := Base(s), Base(Step(s, ev));
      && Plain(b')
      && (k in b' <==> k in b)
      && (k in b && !(ev.Drag? && ev.id == k) ==> b'[k] == b[k])
  {
    hide ClearedGraph, Plain, Applied, Cleared, NoClash;
    match ev
    case Search(path) => OverlayKeepsBase(s, path);
    case ShowFullSite => ClearKeepsBase(s);
    case Drag(id, pos) =>
      DragOnBase(s, id, pos);
      PlacePlain(Base(s), id, pos);
    case TimerFires =>
  }

  /** Whatever searches, clears, drags and timers come, one clear gives back the original graph:
      the same elements, each as it was unless it was itself dragged. */
  lemma {:induction false} RunKeepsBase(s: State, evs: seq<Event>, k: string)
    requires Plain(Base(s)) && Clashless(Base(s), evs)
    ensures
      var b, b' := Base(s), Base(Run(s, evs));
      && (k in b' <==> k in b)
      && (k in b && (forall i :: 0 <= i < |evs| ==> !(evs[i].Drag? && evs[i].id == k)) ==> b'[k] == b[k])
    decreases |evs|
  {
    hide Step, Base, Plain, NoClash;
    if evs != [] {
      var b' := Base(Step(s, evs[0]));
      forall id ensures Plain(b') && (id in b' <==> id in Base(s)) { StepOnBase(s, evs[0], id); }
      StepOnBase(s, evs[0], k);
      ClashDependsOnIds(Base(s), b', evs[1..]);
      RunKeepsBase(Step(s, evs[0]), evs[1..], k);
      if forall i :: 0 <= i < |evs| ==> !(evs[i].Drag? && evs[i].id == k) {
        assert forall i :: 0 <= i < |evs[1..]| ==> evs[1..][i] == evs[i + 1];
      }
    }
  }

  /** With no drags at all, clearing restores the very graph. */
  lemma OverlaysAreUndone(g: Graph, evs: seq<Event>)
    requires Plain(g) && Clashless(g, evs)
    requires forall i :: 0 <= i < |evs| ==> !evs[i].Drag?
    ensures Cleared(Run(State(g, None, false, None), evs)).g == g
  {
    hide Run, Clashless;
    var s := State(g, None, false, None);
    assert Base(s) == g;
    forall k ensures (k in Base(Run(s, evs)) <==> k in g) && (k in g ==> Base(Run(s, evs))[k] == g[k]) {
      RunKeepsBase(s, evs, k);
    }
  }

  // ----- What gets stored

  /** The stored positions are those of the graph underneath: no chain position among them. */
  predicate CleanStore(b: Graph, stored: map<string, Pos>) {
    forall id :: id in b && b[id].Node? ==> id in stored && stored[id] == b[id].pos
  }

  /** Every node underneath is on screen, at its own position unless it is chained. */
  lemma BaseNode(s: State, id: string)
    requires id in Base(s) && Base(s)[id].Node?
    ensures id in s.g && s.g[id].Node?
    ensures Base(s)[id].pos ==
      if s.overlay.Some? && id in s.overlay.value.saved then s.overlay.value.saved[id] else s.g[id].pos
  {
  }

  /** Saving what is on screen (the drag timer, or Refresh) stores a clean layout if and only if
      no chained node of the graph underneath has left its own position. */
  lemma SaveCleanIff(s: State)
    ensures CleanStore(Base(s), Positions(s.g)) <==>
      forall id :: id in Base(s) && Base(s)[id].Node? && s.overlay.Some? && id in s.overlay.value.saved ==>
        s.g[id].Node? && s.g[id].pos == s.overlay.value.saved[id]
  {
    hide Base;
    forall id | id in Base(s) && Base(s)[id].Node?
      ensures id in s.g && s.g[id].Node? && Base(s)[id].pos ==
        if s.overlay.Some? && id in s.overlay.value.saved then s.overlay.value.saved[id] else s.g[id].pos
    {
      BaseNode(s, id);
    }
  }

  lemma {:induction false} FirstIndex(path: Path, id: string, n: nat) returns (i: nat)
    requires n <= |path.hops| && exists j :: 0 <= j < n && path.hops[j].id == id
    ensures FirstHop(path, i) && path.hops[i].id == id
  {
    if j :| 0 <= j < n - 1 && path.hops[j].id == id { i := FirstIndex(path, id, n - 1); } else { i := n - 1; }
  }

  /** A node that is not a hop stays where it is. */
  lemma OthersStay(s: State, path: Path, id: string)
    requires id in Base(s) && Base(s)[id].Node? && id !in Ids(path.hops) && path.hops != []
    ensures id in Applied(s, path).g && Applied(s, path).g[id].Node? && Applied(s, path).g[id].pos == Base(s)[id].pos
  {
    hide Chain, ClearedGraph;
    var g, ids := Base(s), Ids(path.hops);
    var edgeId := if AddsEdge(g, path) then Some(EdgeId(path)) else None;
    var g1 := Dim(Extended(g, path), ids, edgeId);
    assert id in g1 && g1[id].Node? && g1[id].pos == g[id].pos;
    ChainElement(g1, Reversed(ids), AnchorX(g1, Reversed(ids)), 0, id);
    if id in Reversed(ids) { InReversed(ids, id); }
  }

  /** What a search can tell beforehand: a save under the overlay it puts up, by a pending timer or by
      Refresh, stores a clean layout if and only if every hop of the graph underneath already sits in
      its slot. */
  lemma FreshSaveCleanIff(s: State, path: Path)
    requires path.hops != []
    ensures
      var b := Base(s);
      CleanStore(b, Positions(Applied(s, path).g)) <==>
        forall i: nat :: FirstHop(path, i) && path.hops[i].id in b && b[path.hops[i].id].Node? ==>
          b[path.hops[i].id].pos == Slot(Extended(b, path), path, i)
  {
    hide Base, Applied, Slot, Extended;
    var b, t := Base(s), Applied(s, path);
    forall i: nat | FirstHop(path, i) && path.hops[i].id in b && b[path.hops[i].id].Node?
      ensures
        var id := path.hops[i].id;
        id in t.g && t.g[id].Node? && t.g[id].pos == Slot(Extended(b, path), path, i)
    {
      StaysInExtended(b, path, path.hops[i].id);
      HopInSlot(s, path, i);
    }
    forall id | id in b && b[id].Node? && id !in Ids(path.hops)
      ensures id in t.g && t.g[id].Node? && t.g[id].pos == b[id].pos
    {
      OthersStay(s, path, id);
    }
    forall id | id in b && b[id].Node? && id in Ids(path.hops)
      ensures exists i: nat :: FirstHop(path, i) && path.hops[i].id == id
    {
      var j :| 0 <= j < |path.hops| && Ids(path.hops)[j] == id;
      var i := FirstIndex(path, id, |path.hops|);
    }
  }

  lemma StaysInExtended(b: Graph, path: Path, id: string)
    requires id in b && b[id].Node?
    ensures id in Extended(b, path) && Extended(b, path)[id].Node?
  {
  }

  /** `closeTopology` puts the chained nodes back before it saves. */
  function StoredOnClose(s: State): map<string, Pos> {
    Positions(if s.overlay.Some? then Restore(s.g, s.overlay.value.saved) else s.g)
  }

  /** A node on screen that a clear would remove: the synthetic endpoint. (A node whose id clashes
      with the synthetic edge's is the other case.) */
  predicate Passing(s: State, id: string) {
    && s.overlay.Some? && id in s.g && s.g[id].Node?
    && (s.overlay.value.edgeId == Some(id) || (s.overlay.value.endpointId == id && s.g[id].synthetic))
  }

  lemma NodeStays(s: State, id: string)
    requires id in s.g && s.g[id].Node?
    ensures Passing(s, id) <==> !(id in Base(s) && Base(s)[id].Node?)
  {
  }

  /** Closing stores every node underneath at its own position, and besides them exactly the nodes
      that are only there for the overlay: the chain's positions go back, the endpoint's stays. */
  lemma CloseIsClean(s: State)
    ensures CleanStore(Base(s), StoredOnClose(s))
    ensures forall id :: id in StoredOnClose(s) <==> id in Positions(Base(s)) || Passing(s, id)
    ensures StoredOnClose(s) == Positions(Base(s)) <==> forall id :: !Passing(s, id)
  {
    hide Base;
    forall id | id in Base(s) && Base(s)[id].Node?
      ensures id in StoredOnClose(s) && StoredOnClose(s)[id] == Base(s)[id].pos
    {
      BaseNode(s, id);
    }
    forall id | id in s.g && s.g[id].Node?
      ensures Passing(s, id) <==> !(id in Base(s) && Base(s)[id].Node?)
    {
      NodeStays(s, id);
    }
  }

  /** A drag save is pending only while no overlay is up. */
  predicate TimerInv(s: State) { s.timer ==> s.overlay.None? }

  /** No overlay starts while a drag save is pending. */
  ghost predicate Patient(s: State, evs: seq<Event>)
    decreases |evs|
  {
    evs == [] || ((evs[0].Search? ==> !s.timer) && Patient(Step(s, evs[0]), evs[1..]))
  }

  /** The states in which the timer saves. */
  ghost function Saves(s: State, evs: seq<Event>): seq<State>
    decreases |evs|
  {
    if evs == [] then []
    else (if evs[0].TimerFires? && s.timer then [s] else []) + Saves(Step(s, evs[0]), evs[1..])
  }

  /** In runs where no overlay starts while a drag save is pending, every save stores exactly the
      positions underneath: no chain position, no synthetic endpoint. */
  lemma {:induction false} PatientRunsStoreCleanly(s: State, evs: seq<Event>, i: nat)
    requires TimerInv(s) && Patient(s, evs) && i < |Saves(s, evs)|
    ensures var t := Saves(s, evs)[i];
      Step(t, TimerFires).stored == Some(Positions(Base(t)))
    decreases |evs|
  {
    hide Base, Chain, Positions, ClearedGraph;
    assert TimerInv(Step(s, evs[0]));
    if evs[0].TimerFires? && s.timer {
      if i == 0 {
        ShownWithoutOverlay(s);
      } else {
        PatientRunsStoreCleanly(Step(s, evs[0]), evs[1..], i - 1);
      }
    } else {
      assert Saves(s, evs) == Saves(Step(s, evs[0]), evs[1..]);
      PatientRunsStoreCleanly(Step(s, evs[0]), evs[1..], i);
    }
  }

  lemma ShownWithoutOverlay(s: State)
    requires s.overlay.None?
    ensures Positions(s.g) == Positions(Base(s))
  {
  }

  /** Impatience costs: with a drag save pending, an overlay on a node that is not in the top
      row makes the timer store its chain position (Refresh does the same at any time). */
  lemma PendingSaveStoresChain(caption: string, x: real, y: real)
    requires y != 0.0
    ensures
      var g: Graph := map["a" := Node(caption, (x, y), false, false)];
      var s := State(g, None, true, None);
      var t := Applied(s, Path("a", [Hop("a", false, caption)], (0.0, 0.0)));
      t.timer && Base(t) == g && !CleanStore(Base(t), Positions(t.g))
  {
    var g: Graph := map["a" := Node(caption, (x, y), false, false)];
    var s := State(g, None, true, None);
    var path := Path("a", [Hop("a", false, caption)], (0.0, 0.0));
    var t := Applied(s, path);
    assert Base(s) == g;
    OverlayKeepsBase(s, path);
    SingleChain(g, caption, x, y);
    assert Ids(path.hops) == ["a"] && Reversed(["a"]) == ["a"];
    assert Dim(g, ["a"], None) == g;
    assert t.g["a"].pos == (x, 0.0);
  }

  lemma SingleChain(g: Graph, caption: string, x: real, y: real)
    requires g == map["a" := Node(caption, (x, y), false, false)]
    ensures Chain(g, ["a"], x, 0) == map["a" := Node(caption, (x, 0.0), false, false)]
  {
    assert ["a"][1..] == [];
    assert Place(g, "a", (x, 0.0)) == map["a" := Node(caption, (x, 0.0), false, false)];
  }

  // ----- The page

  class TopologyView {
    var graph: Graph
    var pathOverlay: Option<Overlay>
    var saveTimer: bool
    var localStorage: Option<map<string, Pos>>
    var siteOpen: bool

    function Model(): State reads this { State(graph, pathOverlay, saveTimer, localStorage) }

    constructor (elements: Graph, stored: Option<map<string, Pos>>)
      ensures Model() == State(elements, None, false, stored) && siteOpen
    {
      graph, pathOverlay, saveTimer, localStorage, siteOpen := elements, None, false, stored, true;
    }

    method ClearConnectionPathOverlay()
      modifies this`graph, this`pathOverlay
      ensures Model() == Cleared(old(Model()))
    {
      hide Undim, Restore, Remove;
      graph := Undim(graph);
      if pathOverlay.Some? {
        var o := pathOverlay.value;
        graph := Restore(graph, o.saved);
        if o.edgeId.Some? && o.edgeId.value in graph { graph := Remove(graph, o.edgeId.value); }
        if o.endpointId in graph && graph[o.endpointId].synthetic { graph := Remove(graph, o.endpointId); }
        pathOverlay := None;
      }
    }

    /** The loop that stacks the path nodes. */
    method StackNodes(top: seq<string>, x: real)
      modifies this`graph
      ensures graph == Chain(old(graph), top, x, 0)
    {
      for i := 0 to |top|
        invariant Chain(graph, top[i..], x, i) == Chain(old(graph), top, x, 0)
      {
        assert top[i..][1..] == top[i + 1..];
        graph := Place(graph, top[i], (x, i as real * 160.0));
      }
    }

    method ApplyConnectionPathOverlay(path: Path)
      modifies this`graph, this`pathOverlay
      ensures Model() == Applied(old(Model()), path)
    {
      hide Chain, Dim, Snapshot, Extended, ClearedGraph, AddsEdge;
      if path.hops == [] { return; }
      ClearConnectionPathOverlay();
      var edgeId := if AddsEdge(graph, path) then Some(EdgeId(path)) else None;
      var ids := Ids(path.hops);
      graph := Dim(Extended(graph, path), ids, edgeId);
      var saved := Snapshot(graph, ids);
      var top := Reversed(ids);
      StackNodes(top, AnchorX(graph, top));
      pathOverlay := Some(Overlay(path.assetId, edgeId, saved));
    }

    method OnDragFree(id: string, pos: Pos)
      modifies this`graph, this`saveTimer
      ensures Model() == Dragged(old(Model()), id, pos)
    {
      if id in graph && graph[id].Node? {
        graph := graph[id := graph[id].(pos := pos)];
        if pathOverlay.None? { saveTimer := true; }
      }
    }

    method OnSaveTimer()
      requires saveTimer
      modifies this`saveTimer, this`localStorage
      ensures Model() == if siteOpen then Step(old(Model()), TimerFires) else old(Model()).(timer := false)
    {
      saveTimer := false;
      if siteOpen { localStorage := Some(Positions(graph)); }
    }

    /** A timer that is still pending finds no site and stores nothing. */
    method CloseTopology()
      modifies this
      ensures !siteOpen && graph == map[] && pathOverlay.None? && saveTimer == old(saveTimer)
      ensures localStorage == if old(siteOpen) then Some(StoredOnClose(old(Model()))) else old(localStorage)
      ensures old(siteOpen) ==> CleanStore(Base(old(Model())), localStorage.value)
    {
      CloseIsClean(Model());
      if pathOverlay.Some? { graph := Restore(graph, pathOverlay.value.saved); }
      if siteOpen { localStorage := Some(Positions(graph)); }
      pathOverlay := None;
      siteOpen := false;
      graph := map[];
    }
  }
}

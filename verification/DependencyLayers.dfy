/** Layer assignment: the physical breadth-first pass and the pruning of `assignLayers` in
src/services/dependencyTreeService.ts. */
module DependencyLayers {
  import opened Wrappers
  import S = Suppression

  /** Neighbours by cable (interface or LLDP edges), in both directions. */
  type Adjacency = map<string, seq<string>>
  type Layers = map<string, nat>

  function Neighbors(adj: Adjacency, id: string): seq<string> { if id in adj then adj[id] else [] }

  // ----- What a layer means

  /** `id` is at most d cables away from a firewall. */
  ghost predicate Within(adj: Adjacency, roots: seq<string>, id: string, d: nat)
    decreases d
  {
    if d == 0 then id in roots
    else Within(adj, roots, id, d - 1)
         || exists m :: Within(adj, roots, m, d - 1) && id in Neighbors(adj, m)
  }

  /** The layers are the distances from the firewalls, counted from 1. */
  ghost predicate AreDistances(adj: Adjacency, roots: seq<string>, layers: Layers) {
    && (forall id :: id in layers ==> layers[id] >= 1 && Within(adj, roots, id, layers[id] - 1))
    && (forall id, d: nat :: Within(adj, roots, id, d) ==> id in layers && layers[id] <= d + 1)
  }

  // ----- The queue

  ghost function AllIds(adj: Adjacency, roots: seq<string>): set<string> {
    (set r | r in roots) + (set m, i | m in adj && 0 <= i < |adj[m]| :: adj[m][i])
  }

  /** Everything that has a layer has been queued; layers grow along the queue and no layer is
      more than one beyond `cur`. */
  ghost predicate Queued(adj: Adjacency, roots: seq<string>, layers: Layers, queue: seq<string>, cur: nat) {
    && (forall i :: 0 <= i < |queue| ==> queue[i] in layers)
    && (forall id :: id in layers ==> id in queue)
    && (forall i, j :: 0 <= i < j < |queue| ==>
          queue[i] in layers && queue[j] in layers && layers[queue[i]] <= layers[queue[j]])
    && (forall id :: id in layers ==> 1 <= layers[id] <= cur + 1 && Within(adj, roots, id, layers[id] - 1))
    && (forall i :: 0 <= i < |roots| ==> roots[i] in layers && layers[roots[i]] == 1)
    && layers.Keys <= AllIds(adj, roots)
  }

  /** All neighbours among `ns` have a layer at most one beyond `bound`. */
  ghost predicate Covered(layers: Layers, ns: seq<string>, bound: nat) {
    forall i :: 0 <= i < |ns| ==> ns[i] in layers && layers[ns[i]] <= bound + 1
  }

  ghost predicate Processed(adj: Adjacency, layers: Layers, queue: seq<string>, head: nat) {
    forall i :: 0 <= i < head && i < |queue| ==>
      queue[i] in layers && Covered(layers, Neighbors(adj, queue[i]), layers[queue[i]])
  }

  ghost predicate Extends(layers: Layers, layers': Layers) {
    forall id :: id in layers ==> id in layers' && layers'[id] == layers[id]
  }

  lemma ProcessedExtends(
      adj: Adjacency, layers: Layers, layers': Layers, queue: seq<string>, queue': seq<string>, head: nat)
    requires Processed(adj, layers, queue, head) && Extends(layers, layers') && queue <= queue' && head <= |queue|
    ensures Processed(adj, layers', queue', head)
  {
    forall i | 0 <= i < head
      ensures queue'[i] in layers' && Covered(layers', Neighbors(adj, queue'[i]), layers'[queue'[i]])
    {
      assert queue'[i] == queue[i];
      assert Covered(layers, Neighbors(adj, queue[i]), layers[queue[i]]);
    }
  }

  /** Giving an unseen neighbour of `cur` the next layer and queueing it. */
  lemma QueueOne(adj: Adjacency, roots: seq<string>, layers: Layers, queue: seq<string>, cur: string, n: string)
    requires cur in layers && Queued(adj, roots, layers, queue, layers[cur])
    requires n in Neighbors(adj, cur) && n !in layers
    ensures Queued(adj, roots, layers[n := layers[cur] + 1], queue + [n], layers[cur])
    ensures Extends(layers, layers[n := layers[cur] + 1])
    ensures n in AllIds(adj, roots)
  {
    hide Within, AllIds, Neighbors;
    var layers', queue' := layers[n := layers[cur] + 1], queue + [n];
    OneFurther(adj, roots, cur, n, layers[cur]);
    assert forall i :: 0 <= i < |queue| ==> queue'[i] == queue[i] && queue[i] != n;
    assert queue'[|queue|] == n;
  }

  lemma OneFurther(adj: Adjacency, roots: seq<string>, cur: string, n: string, d: nat)
    requires d >= 1 && Within(adj, roots, cur, d - 1) && n in Neighbors(adj, cur)
    ensures Within(adj, roots, n, d) && n in AllIds(adj, roots)
  {
    assert cur in adj;
    var i :| 0 <= i < |adj[cur]| && adj[cur][i] == n;
  }

  /** One dequeued asset: its unseen neighbours join the queue. */
  method Visit(adj: Adjacency, ghost roots: seq<string>, layers0: Layers, queue0: seq<string>, cur: string)
    returns (layers: Layers, queue: seq<string>)
    requires cur in layers0 && Queued(adj, roots, layers0, queue0, layers0[cur])
    ensures Extends(layers0, layers) && queue0 <= queue
    ensures Queued(adj, roots, layers, queue, layers0[cur])
    ensures Covered(layers, Neighbors(adj, cur), layers0[cur])
    ensures layers == layers0 ==> queue == queue0
    ensures layers.Keys <= AllIds(adj, roots)
  {
    hide Queued;
    layers, queue := layers0, queue0;
    var ns := Neighbors(adj, cur);
    for j := 0 to |ns|
      invariant Extends(layers0, layers) && queue0 <= queue
      invariant Queued(adj, roots, layers, queue, layers0[cur])
      invariant Covered(layers, ns[..j], layers0[cur])
      invariant layers == layers0 ==> queue == queue0
    {
      var n := ns[j];
      if n !in layers {
        QueueOne(adj, roots, layers, queue, cur, n);
        layers, queue := layers[n := layers0[cur] + 1], queue + [n];
      }
      QueuedBound(adj, roots, layers, queue, layers0[cur], n);
    }
    QueuedIds(adj, roots, layers, queue, layers0[cur]);
    assert ns[..|ns|] == ns;
  }

  lemma QueuedBound(adj: Adjacency, roots: seq<string>, layers: Layers, queue: seq<string>, cur: nat, n: string)
    requires Queued(adj, roots, layers, queue, cur) && n in layers
    ensures layers[n] <= cur + 1
  {
  }

  lemma QueuedIds(adj: Adjacency, roots: seq<string>, layers: Layers, queue: seq<string>, cur: nat)
    requires Queued(adj, roots, layers, queue, cur)
    ensures layers.Keys <= AllIds(adj, roots)
  {
  }

  /** The next asset in the queue is at least as far out. */
  lemma NextInQueue(adj: Adjacency, roots: seq<string>, layers: Layers, queue: seq<string>, cur: nat, head: nat)
    requires Queued(adj, roots, layers, queue, cur) && head < |queue| && queue[head] in layers
    requires cur <= layers[queue[head]]
    ensures Queued(adj, roots, layers, queue, layers[queue[head]])
  {
  }

  /** `physicalBfs` from the firewalls: every asset reachable by cable gets its distance, and no
      other asset gets a layer. */
  method PhysicalBfs(adj: Adjacency, roots: seq<string>) returns (layers: Layers)
    ensures AreDistances(adj, roots, layers)
  {
    hide Queued, Processed, AllIds;
    layers := map r | r in roots :: 1;
    var queue, head := roots, 0;
    InitialQueue(adj, roots, layers);
    ghost var cur := 1;
    while head < |queue|
      invariant head <= |queue| && Queued(adj, roots, layers, queue, cur)
      invariant Processed(adj, layers, queue, head)
      invariant head < |queue| ==> queue[head] in layers && cur <= layers[queue[head]]
      invariant layers.Keys <= AllIds(adj, roots)
      decreases AllIds(adj, roots) - layers.Keys, |queue| - head
    {
      var id := queue[head];
      NextInQueue(adj, roots, layers, queue, cur, head);
      cur := layers[id];
      ghost var layers0, queue0 := layers, queue;
      layers, queue := Visit(adj, roots, layers, queue, id);
      ProcessedExtends(adj, layers0, layers, queue0, queue, head);
      ProcessedNext(adj, layers, queue, head);
      head := head + 1;
      if head < |queue| { InOrder(adj, roots, layers, queue, cur, head - 1, head); }
      if layers != layers0 { Grown(layers0, layers); }
    }
    QueueExhausted(adj, roots, layers, queue, cur);
  }

  lemma Grown(layers: Layers, layers': Layers)
    requires Extends(layers, layers') && layers != layers'
    ensures layers.Keys < layers'.Keys
  {
    assert layers.Keys == layers'.Keys ==> layers == layers';
  }

  lemma InitialQueue(adj: Adjacency, roots: seq<string>, layers: Layers)
    requires layers == map r | r in roots :: 1
    ensures Queued(adj, roots, layers, roots, 1) && Processed(adj, layers, roots, 0)
    ensures layers.Keys <= AllIds(adj, roots)
    ensures |roots| > 0 ==> roots[0] in layers && layers[roots[0]] == 1
  {
  }

  lemma ProcessedNext(adj: Adjacency, layers: Layers, queue: seq<string>, head: nat)
    requires Processed(adj, layers, queue, head) && head < |queue| && queue[head] in layers
    requires Covered(layers, Neighbors(adj, queue[head]), layers[queue[head]])
    ensures Processed(adj, layers, queue, head + 1)
  {
  }

  lemma InOrder(adj: Adjacency, roots: seq<string>, layers: Layers, queue: seq<string>, cur: nat, i: nat, j: nat)
    requires Queued(adj, roots, layers, queue, cur) && i < j < |queue|
    ensures queue[i] in layers && queue[j] in layers && layers[queue[i]] <= layers[queue[j]]
  {
  }

  /** Once the queue is exhausted no distance is shorter than the layer says. */
  lemma {:induction false} ClosedBoundsDistance(adj: Adjacency, roots: seq<string>, layers: Layers, id: string, d: nat)
    requires forall i :: 0 <= i < |roots| ==> roots[i] in layers && layers[roots[i]] == 1
    requires forall m :: m in layers ==> Covered(layers, Neighbors(adj, m), layers[m])
    requires Within(adj, roots, id, d)
    ensures id in layers && layers[id] <= d + 1
    decreases d
  {
    if d > 0 {
      if Within(adj, roots, id, d - 1) {
        ClosedBoundsDistance(adj, roots, layers, id, d - 1);
      } else {
        var m :| Within(adj, roots, m, d - 1) && id in Neighbors(adj, m);
        ClosedBoundsDistance(adj, roots, layers, m, d - 1);
        assert Covered(layers, Neighbors(adj, m), layers[m]);
      }
    }
  }

  lemma QueueExhausted(adj: Adjacency, roots: seq<string>, layers: Layers, queue: seq<string>, cur: nat)
    requires Queued(adj, roots, layers, queue, cur) && Processed(adj, layers, queue, |queue|)
    ensures AreDistances(adj, roots, layers)
  {
    hide Covered, AllIds;
    forall m | m in layers ensures Covered(layers, Neighbors(adj, m), layers[m]) {
      var i :| 0 <= i < |queue| && queue[i] == m;
    }
    forall id, d: nat | Within(adj, roots, id, d) ensures id in layers && layers[id] <= d + 1 {
      ClosedBoundsDistance(adj, roots, layers, id, d);
    }
  }

  // ----- Pruning to parent edges

  datatype Via = Controller | Interface | Lldp
  datatype DepEdge = DepEdge(child: string, parent: string, via: Via)

  function PhysicalRank(v: Via): nat {
    match v case Interface => 3 case Lldp => 2 case Controller => 1
  }

  predicate PointsDown(layers: Layers, e: DepEdge) {
    e.child in layers && e.parent in layers && layers[e.parent] + 1 == layers[e.child]
  }

  type Pairs = map<(string, string), DepEdge>

  /** One edge per (child, parent) pair of adjacent layers, of the most physical kind seen. */
  ghost predicate BestPerPair(layers: Layers, edges: seq<DepEdge>, kept: Pairs) {
    && (forall k :: k in kept ==>
          kept[k] in edges && k == (kept[k].child, kept[k].parent) && PointsDown(layers, kept[k]))
    && (forall i :: 0 <= i < |edges| && PointsDown(layers, edges[i]) ==>
          && (edges[i].child, edges[i].parent) in kept
          && PhysicalRank(edges[i].via) <= PhysicalRank(kept[(edges[i].child, edges[i].parent)].via))
  }

  method Prune(layers: Layers, edges: seq<DepEdge>) returns (kept: Pairs)
    ensures BestPerPair(layers, edges, kept)
  {
    kept := map[];
    for i := 0 to |edges|
      invariant BestPerPair(layers, edges[..i], kept)
    {
      var e := edges[i];
      assert edges[..i + 1] == edges[..i] + [e];
      assert forall j :: 0 <= j < i ==> edges[..i + 1][j] == edges[..i][j];
      if PointsDown(layers, e) {
        var key := (e.child, e.parent);
        if key !in kept || PhysicalRank(e.via) > PhysicalRank(kept[key].via) {
          kept := kept[key := e];
        }
      }
    }
    assert edges[..|edges|] == edges;
  }

  predicate Joins(layers: Layers, e: DepEdge, child: string, parent: string, via: Via) {
    e == DepEdge(child, parent, via) && PointsDown(layers, e)
  }

  ghost predicate Seen(layers: Layers, edges: seq<DepEdge>, child: string, parent: string, via: Via) {
    exists i :: 0 <= i < |edges| && Joins(layers, edges[i], child, parent, via)
  }

  /** A pair is kept exactly if some edge joins it down one layer; a cabled edge beats an LLDP one, and that
      beats what the controller says. */
  lemma KeptKind(layers: Layers, edges: seq<DepEdge>, kept: Pairs, child: string, parent: string)
    requires BestPerPair(layers, edges, kept)
    ensures (child, parent) in kept <==> exists via :: Seen(layers, edges, child, parent, via)
    ensures (child, parent) in kept ==>
      kept[(child, parent)].via ==
        if Seen(layers, edges, child, parent, Interface) then Interface
        else if Seen(layers, edges, child, parent, Lldp) then Lldp
        else Controller
  {
    var key := (child, parent);
    if key in kept {
      var i :| 0 <= i < |edges| && edges[i] == kept[key];
      assert Joins(layers, edges[i], child, parent, kept[key].via);
      assert Seen(layers, edges, child, parent, kept[key].via);
    }
    forall via | Seen(layers, edges, child, parent, via)
      ensures key in kept && PhysicalRank(via) <= PhysicalRank(kept[key].via)
    {
      var i :| 0 <= i < |edges| && Joins(layers, edges[i], child, parent, via);
      assert (edges[i].child, edges[i].parent) == key;
    }
  }

  /** Parents taken from pruned edges always lie in a lower layer, so the one-pass evaluation of
      suppression is right on every computed dependency graph. */
  lemma ComputedGraphIsLayered(
      layers: Layers, edges: seq<DepEdge>, kept: Pairs, states: S.States, parents: S.Parents)
    requires BestPerPair(layers, edges, kept)
    requires forall id :: id in states ==> states[id].layer == if id in layers then Some(layers[id]) else None
    requires forall c, p :: p in S.ParentsOf(parents, c) ==> (c, p) in kept
    ensures S.Layered(states, parents)
  {
    forall c, p | c in states && p in states && p in S.ParentsOf(parents, c)
      ensures S.LayerKey(states[p]) < S.LayerKey(states[c])
    {
      assert (c, p) in kept;
      assert PointsDown(layers, kept[(c, p)]);
    }
  }
}

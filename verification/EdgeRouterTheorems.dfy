/** What respacing followed by routing guarantees. */
module EdgeRouterTheorems {
  import opened Common
  import opened StableSort
  import opened EdgeRouter

  /** Ids identify: two entries with one id are the same entry. */
  ghost predicate NodesKeyed(nodes: seq<Node>) {
    forall a, b :: a in nodes && b in nodes && a.id == b.id ==> a == b
  }

  ghost predicate EdgesKeyed(edges: seq<Edge>) {
    forall a, b :: a in edges && b in edges && a.id == b.id ==> a == b
  }

  // ---------------------------------------------------------------------------
  // Layer detection
  // ---------------------------------------------------------------------------

  ghost predicate Apart(layers: seq<Layer>) {
    forall i, j :: 0 <= i < j < |layers| ==> layers[i].position + LAYER_TOLERANCE < layers[j].position
  }

  /** Layer `i` lists `n` and starts at most the tolerance before it. */
  ghost predicate Holds(layers: seq<Layer>, i: nat, n: Node, d: Direction) {
    && i < |layers|
    && n.id in layers[i].nodeIds
    && layers[i].position <= Primary(n, d) <= layers[i].position + LAYER_TOLERANCE
  }

  ghost predicate Joins(layers: seq<Layer>, n: Node, d: Direction) {
    layers != [] && Primary(n, d) - layers[|layers| - 1].position <= LAYER_TOLERANCE
  }

  ghost predicate AtOrPast(layers: seq<Layer>, n: Node, d: Direction) {
    layers != [] ==> layers[|layers| - 1].position <= Primary(n, d)
  }

  /** In sorted order only the last layer can take a node in. */
  lemma OnlyLastLayerFits(layers: seq<Layer>, n: Node, d: Direction)
    requires Apart(layers) && AtOrPast(layers, n, d)
    ensures FindLayer(layers, Primary(n, d)) == if Joins(layers, n, d) then |layers| - 1 else |layers|
  {
    if layers != [] {
      var last := |layers| - 1;
      forall k | 0 <= k < last ensures Abs(layers[k].position - Primary(n, d)) > LAYER_TOLERANCE {
        assert layers[k].position + LAYER_TOLERANCE < layers[last].position;
      }
    }
  }

  ghost function Grown(layers: seq<Layer>, n: Node, d: Direction): seq<Layer> {
    if Joins(layers, n, d)
    then layers[|layers| - 1 := Layer(layers[|layers| - 1].position, layers[|layers| - 1].nodeIds + [n.id])]
    else layers + [Layer(Primary(n, d), [n.id])]
  }

  lemma AddNodeGrows(layers: seq<Layer>, n: Node, d: Direction)
    requires Apart(layers) && AtOrPast(layers, n, d)
    ensures AddNode(layers, n, d) == Grown(layers, n, d)
    ensures Apart(Grown(layers, n, d)) && AtOrPast(Grown(layers, n, d), n, d)
  {
    OnlyLastLayerFits(layers, n, d);
  }

  lemma {:induction false} CollectApart(sorted: seq<Node>, d: Direction)
    requires Sorted(NodeBefore(d), sorted)
    ensures Apart(Collect(sorted, d))
    ensures sorted != [] ==> AtOrPast(Collect(sorted, d), sorted[|sorted| - 1], d)
  {
    if sorted != [] {
      var init, n := sorted[..|sorted| - 1], sorted[|sorted| - 1];
      CollectApart(init, d);
      if init != [] {
        assert !NodeBefore(d)(n, sorted[|init| - 1]);
      }
      AddNodeGrows(Collect(init, d), n, d);
    }
  }

  /** One more node in sorted order joins the last layer or opens a new one. */
  lemma CollectStep(sorted: seq<Node>, k: nat, d: Direction)
    requires Sorted(NodeBefore(d), sorted) && k < |sorted|
    ensures var layers, n := Collect(sorted[..k], d), sorted[k];
            && Apart(layers) && AtOrPast(layers, n, d)
            && Collect(sorted[..k + 1], d) == Grown(layers, n, d)
  {
    CollectApart(sorted[..k], d);
    if k > 0 {
      assert !NodeBefore(d)(sorted[k], sorted[k - 1]);
    }
    assert sorted[..k + 1][..k] == sorted[..k];
    AddNodeGrows(Collect(sorted[..k], d), sorted[k], d);
  }

  /** The layer into which the `k`-th sorted node went. */
  ghost function Place(sorted: seq<Node>, k: nat, d: Direction): int
    requires k < |sorted|
  {
    |Collect(sorted[..k + 1], d)| - 1
  }

  lemma GrownHolds(layers: seq<Layer>, n: Node, d: Direction)
    requires Apart(layers) && AtOrPast(layers, n, d)
    ensures Holds(Grown(layers, n, d), |Grown(layers, n, d)| - 1, n, d)
  {
    var grown := Grown(layers, n, d);
    assert grown[|grown| - 1].nodeIds[|grown[|grown| - 1].nodeIds| - 1] == n.id;
  }

  lemma GrownKeeps(layers: seq<Layer>, n: Node, i: nat, m: Node, d: Direction)
    requires Holds(layers, i, m, d)
    ensures Holds(Grown(layers, n, d), i, m, d)
  {
  }

  lemma GrownSource(layers: seq<Layer>, n: Node, i: nat, id: string, d: Direction)
    requires i < |Grown(layers, n, d)| && id in Grown(layers, n, d)[i].nodeIds
    ensures (i < |layers| && id in layers[i].nodeIds) || (id == n.id && i == |Grown(layers, n, d)| - 1)
  {
  }

  lemma {:induction false} CollectHolds(sorted: seq<Node>, upTo: nat, k: nat, d: Direction)
    requires Sorted(NodeBefore(d), sorted) && k < upTo <= |sorted|
    ensures Place(sorted, k, d) >= 0
    ensures Holds(Collect(sorted[..upTo], d), Place(sorted, k, d), sorted[k], d)
  {
    CollectStep(sorted, upTo - 1, d);
    var before := Collect(sorted[..upTo - 1], d);
    if k < upTo - 1 {
      CollectHolds(sorted, upTo - 1, k, d);
      GrownKeeps(before, sorted[upTo - 1], Place(sorted, k, d), sorted[k], d);
    } else {
      GrownHolds(before, sorted[k], d);
    }
  }

  /** Nothing is in a layer but sorted nodes within its tolerance. */
  lemma {:induction false} CollectSource(
    sorted: seq<Node>, upTo: nat, i: nat, id: string, d: Direction) returns (n: Node)
    requires Sorted(NodeBefore(d), sorted) && upTo <= |sorted|
    requires i < |Collect(sorted[..upTo], d)| && id in Collect(sorted[..upTo], d)[i].nodeIds
    ensures n in sorted && n.id == id && Holds(Collect(sorted[..upTo], d), i, n, d)
  {
    assert upTo > 0;
    CollectStep(sorted, upTo - 1, d);
    var before := Collect(sorted[..upTo - 1], d);
    n := sorted[upTo - 1];
    GrownSource(before, n, i, id, d);
    if i < |before| && id in before[i].nodeIds {
      n := CollectSource(sorted, upTo - 1, i, id, d);
      GrownKeeps(before, sorted[upTo - 1], i, n, d);
    } else {
      GrownHolds(before, n, d);
    }
  }

  lemma LayersAreCollected(nodes: seq<Node>, d: Direction)
    ensures var sorted := Sort(NodeBefore(d), nodes);
            && Sorted(NodeBefore(d), sorted)
            && LayersOf(nodes, d) == Collect(sorted, d) && Apart(LayersOf(nodes, d))
            && sorted[..|sorted|] == sorted
  {
    var sorted := Sort(NodeBefore(d), nodes);
    SortSorted(NodeBefore(d), nodes);
    CollectApart(sorted, d);
    SortIdle(LayerBefore(), Collect(sorted, d));
  }

  /** The ids of all layers, in order. */
  ghost function Listed(layers: seq<Layer>): seq<string> {
    if layers == [] then [] else Listed(layers[..|layers| - 1]) + layers[|layers| - 1].nodeIds
  }

  function NodeId(): Node -> string {
    (n: Node) => n.id
  }

  function At(p: real, d: Direction): Node -> bool {
    (n: Node) => Primary(n, d) == p
  }

  lemma GrownListed(layers: seq<Layer>, n: Node, d: Direction)
    ensures Listed(Grown(layers, n, d)) == Listed(layers) + [n.id]
  {
    var last := |layers| - 1;
    if Joins(layers, n, d) {
      assert Grown(layers, n, d)[..last] == layers[..last];
      assert Listed(layers) == Listed(layers[..last]) + layers[last].nodeIds;
    } else {
      assert Grown(layers, n, d)[..|layers|] == layers;
    }
  }

  lemma NoneListed(d: Direction)
    ensures Listed(Collect([], d)) == MapSeq(NodeId(), [])
  {
  }

  lemma {:induction false} CollectListed(sorted: seq<Node>, upTo: nat, d: Direction)
    requires Sorted(NodeBefore(d), sorted) && upTo <= |sorted|
    ensures Listed(Collect(sorted[..upTo], d)) == MapSeq(NodeId(), sorted[..upTo])
  {
    hide Collect, Listed, MapSeq, Sorted, Grown, Apart, AtOrPast;
    if upTo == 0 {
      assert sorted[..0] == [];
      NoneListed(d);
    } else {
      CollectListed(sorted, upTo - 1, d);
      CollectStep(sorted, upTo - 1, d);
      GrownListed(Collect(sorted[..upTo - 1], d), sorted[upTo - 1], d);
      assert sorted[..upTo] == sorted[..upTo - 1] + [sorted[upTo - 1]];
      MapOneMore(NodeId(), sorted[..upTo - 1], sorted[upTo - 1]);
    }
  }

  /**
   * Read one after another the layers list every node once, by its primary coordinate, and nodes with one coordinate
   * `p` in the order of the input.
   */
  lemma LayersInStableOrder(nodes: seq<Node>, d: Direction, p: real) returns (sorted: seq<Node>)
    ensures Listed(LayersOf(nodes, d)) == MapSeq(NodeId(), sorted) && multiset(sorted) == multiset(nodes)
    ensures forall i, j :: 0 <= i < j < |sorted| ==> Primary(sorted[i], d) <= Primary(sorted[j], d)
    ensures Filter(At(p, d), sorted) == Filter(At(p, d), nodes)
  {
    sorted := Sort(NodeBefore(d), nodes);
    LayersAreCollected(nodes, d);
    CollectListed(sorted, |sorted|, d);
    SortStable(NodeBefore(d), nodes, At(p, d));
    forall i, j | 0 <= i < j < |sorted| ensures Primary(sorted[i], d) <= Primary(sorted[j], d) {
      assert !NodeBefore(d)(sorted[j], sorted[i]);
    }
  }

  /** The index names a layer that holds the id ... */
  lemma {:induction false} IndexNames(layers: seq<Layer>, id: string)
    requires id in LayerIndex(layers)
    ensures LayerIndex(layers)[id] < |layers| && id in layers[LayerIndex(layers)[id]].nodeIds
  {
    var last := |layers| - 1;
    if id !in layers[last].nodeIds {
      IndexNames(layers[..last], id);
    }
  }

  /** ... whenever there is one. */
  lemma {:induction false} IndexCovers(layers: seq<Layer>, i: nat, id: string)
    requires i < |layers| && id in layers[i].nodeIds
    ensures id in LayerIndex(layers)
  {
    if i < |layers| - 1 {
      IndexCovers(layers[..|layers| - 1], i, id);
    }
  }

  lemma HoldsOnce(layers: seq<Layer>, i: nat, j: nat, n: Node, d: Direction)
    requires Apart(layers) && Holds(layers, i, n, d) && Holds(layers, j, n, d)
    ensures i == j
  {
  }

  /** The index sends the `k`-th sorted node to the layer it went into. */
  lemma IndexOfSorted(nodes: seq<Node>, k: nat, d: Direction)
    requires NodesKeyed(nodes) && k < |nodes|
    ensures var sorted, layers := Sort(NodeBefore(d), nodes), LayersOf(nodes, d);
            InIndexedLayer(sorted[k], Place(sorted, k, d), layers, d)
  {
    var sorted, layers := Sort(NodeBefore(d), nodes), LayersOf(nodes, d);
    LayersAreCollected(nodes, d);
    SortMembers(NodeBefore(d), nodes);
    var n, i := sorted[k], Place(sorted, k, d);
    CollectHolds(sorted, |sorted|, k, d);
    IndexCovers(layers, i, n.id);
    IndexNames(layers, n.id);
    var j := LayerIndex(layers)[n.id];
    var m := CollectSource(sorted, |sorted|, j, n.id, d);
    assert m == n;
    HoldsOnce(layers, i, j, n, d);
  }

  /** `n` is in layer `i`, and the index says so. */
  ghost predicate InIndexedLayer(n: Node, i: int, layers: seq<Layer>, d: Direction) {
    && 0 <= i && n.id in LayerIndex(layers) && LayerIndex(layers)[n.id] == i
    && Holds(layers, i, n, d)
  }

  ghost function LayerNumber(n: Node, nodes: seq<Node>, d: Direction): int {
    var index := LayerIndex(LayersOf(nodes, d));
    if n.id in index then index[n.id] else -1
  }

  /** Detection puts every node in one layer, at most the tolerance past its position. */
  lemma EveryNodeInLayer(nodes: seq<Node>, n: Node, d: Direction)
    requires NodesKeyed(nodes) && n in nodes
    ensures InIndexedLayer(n, LayerNumber(n, nodes, d), LayersOf(nodes, d), d)
  {
    var sorted := Sort(NodeBefore(d), nodes);
    SortMembers(NodeBefore(d), nodes);
    var k :| 0 <= k < |sorted| && sorted[k] == n;
    IndexOfSorted(nodes, k, d);
  }

  /** Only ids of nodes are indexed. */
  lemma IndexedNode(nodes: seq<Node>, id: string, d: Direction) returns (n: Node)
    requires id in LayerIndex(LayersOf(nodes, d))
    ensures n in nodes && n.id == id
  {
    var sorted, layers := Sort(NodeBefore(d), nodes), LayersOf(nodes, d);
    LayersAreCollected(nodes, d);
    IndexNames(layers, id);
    n := CollectSource(sorted, |sorted|, LayerIndex(layers)[id], id, d);
    SortMembers(NodeBefore(d), nodes);
  }

  // ---------------------------------------------------------------------------
  // Respacing
  // ---------------------------------------------------------------------------

  ghost predicate Spread(ps: seq<real>) {
    forall i, j :: 0 <= i < j < |ps| ==> ps[i] + LAYER_TOLERANCE < ps[j]
  }

  ghost function Repositioned(layers: seq<Layer>, ps: seq<real>): seq<Layer>
    requires |layers| <= |ps|
  {
    seq(|layers|, i requires 0 <= i < |layers| => Layer(ps[i], layers[i].nodeIds))
  }

  /** A layer keeps its position once it is opened. */
  lemma {:induction false} PositionKept(sorted: seq<Node>, upTo: nat, i: nat, d: Direction)
    requires Sorted(NodeBefore(d), sorted) && upTo <= |sorted| && i < |Collect(sorted[..upTo], d)|
    ensures i < |Collect(sorted, d)| && Collect(sorted[..upTo], d)[i].position == Collect(sorted, d)[i].position
    decreases |sorted| - upTo
  {
    if upTo == |sorted| {
      assert sorted[..upTo] == sorted;
    } else {
      CollectStep(sorted, upTo, d);
      GrownKeepsPosition(Collect(sorted[..upTo], d), sorted[upTo], i, d);
      PositionKept(sorted, upTo + 1, i, d);
    }
  }

  lemma GrownKeepsPosition(layers: seq<Layer>, n: Node, i: nat, d: Direction)
    requires i < |layers|
    ensures i < |Grown(layers, n, d)| && Grown(layers, n, d)[i].position == layers[i].position
  {
  }

  /** `moved[k]` is `sorted[k]` carried along by its layer. */
  ghost predicate CarriedAlong(sorted: seq<Node>, moved: seq<Node>, ps: seq<real>, k: nat, d: Direction)
    requires k < |sorted| == |moved|
  {
    var i, layers := Place(sorted, k, d), Collect(sorted, d);
    && 0 <= i < |layers| == |ps|
    && moved[k].id == sorted[k].id
    && Primary(moved[k], d) == Primary(sorted[k], d) + ps[i] - layers[i].position
  }

  lemma {:induction false} CollectMoved(sorted: seq<Node>, moved: seq<Node>, ps: seq<real>, upTo: nat, d: Direction)
    requires Sorted(NodeBefore(d), sorted) && Spread(ps) && |moved| == |sorted| && |ps| == |Collect(sorted, d)|
    requires forall k :: 0 <= k < |sorted| ==> CarriedAlong(sorted, moved, ps, k, d)
    requires upTo <= |sorted|
    ensures |Collect(sorted[..upTo], d)| <= |ps|
    ensures Collect(moved[..upTo], d) == Repositioned(Collect(sorted[..upTo], d), ps)
  {
    hide AddNode, Grown, Joins, Apart, AtOrPast, Spread, Primary;
    if upTo > 0 {
      var k := upTo - 1;
      CollectMoved(sorted, moved, ps, k, d);
      CollectStep(sorted, k, d);
      assert CarriedAlong(sorted, moved, ps, k, d);
      PositionKept(sorted, upTo, Place(sorted, k, d), d);
      assert moved[..upTo][..k] == moved[..k];
      MovedJoins(Collect(sorted[..k], d), sorted[k], moved[k], ps, d);
    }
  }

  /** Moving a node along with its layer does not change the layer it lands in. */
  lemma MovedJoins(before: seq<Layer>, n: Node, moved: Node, ps: seq<real>, d: Direction)
    requires Apart(before) && AtOrPast(before, n, d) && Spread(ps)
    requires moved.id == n.id && |Grown(before, n, d)| <= |ps|
    requires var i := |Grown(before, n, d)| - 1;
             Primary(moved, d) == Primary(n, d) + ps[i] - Grown(before, n, d)[i].position
    ensures AddNode(Repositioned(before, ps), moved, d) == Repositioned(Grown(before, n, d), ps)
  {
    hide AddNode, Primary;
    AddNodeGrows(Repositioned(before, ps), moved, d);
  }

  lemma MoveKeepsOrder(nodes: seq<Node>, ps: seq<real>, a: Node, b: Node, d: Direction)
    requires NodesKeyed(nodes) && Spread(ps) && |ps| == |LayersOf(nodes, d)| && a in nodes && b in nodes
    ensures var f := MoveBy(LayersOf(nodes, d), LayerIndex(LayersOf(nodes, d)), ps, d);
            NodeBefore(d)(a, b) == NodeBefore(d)(f(a), f(b))
  {
    hide LayersOf, LayerIndex, Sort;
    EveryNodeInLayer(nodes, a, d);
    EveryNodeInLayer(nodes, b, d);
    LayersAreCollected(nodes, d);
    var layers := LayersOf(nodes, d);
    var i, j := LayerIndex(layers)[a.id], LayerIndex(layers)[b.id];
    assert i < j ==> ps[i] + LAYER_TOLERANCE < ps[j] && layers[i].position + LAYER_TOLERANCE < layers[j].position;
    assert j < i ==> ps[j] + LAYER_TOLERANCE < ps[i] && layers[j].position + LAYER_TOLERANCE < layers[i].position;
  }

  lemma LayersMoved(nodes: seq<Node>, ps: seq<real>, d: Direction)
    requires NodesKeyed(nodes) && Spread(ps) && |ps| == |LayersOf(nodes, d)|
    ensures var layers := LayersOf(nodes, d);
            LayersOf(MapSeq(MoveBy(layers, LayerIndex(layers), ps, d), nodes), d) == Repositioned(layers, ps)
  {
    hide Collect, LayerIndex, Sort;
    var layers, sorted := LayersOf(nodes, d), Sort(NodeBefore(d), nodes);
    var f := MoveBy(layers, LayerIndex(layers), ps, d);
    forall a, b | a in nodes && b in nodes ensures NodeBefore(d)(a, b) == NodeBefore(d)(f(a), f(b)) {
      MoveKeepsOrder(nodes, ps, a, b, d);
    }
    SortMap(NodeBefore(d), NodeBefore(d), f, nodes);
    LayersAreCollected(nodes, d);
    var moved := MapSeq(f, sorted);
    forall k | 0 <= k < |sorted| ensures CarriedAlong(sorted, moved, ps, k, d) {
      IndexOfSorted(nodes, k, d);
    }
    CollectMoved(sorted, moved, ps, |sorted|, d);
    assert moved[..|sorted|] == moved;
    SortIdle(LayerBefore(), Repositioned(layers, ps));
  }

  lemma {:induction false} NewPositionsSpread(origin: real, i: nat, j: nat, dim: real, gap: nat -> real)
    requires i < j && dim > 0.0 && forall g :: gap(g) >= MIN_LAYER_GAP
    ensures NewPosition(origin, i, dim, gap) + dim + gap(i) <= NewPosition(origin, j, dim, gap)
  {
    assert gap(i) >= MIN_LAYER_GAP && gap(j - 1) >= MIN_LAYER_GAP;
    if i < j - 1 {
      NewPositionsSpread(origin, i, j - 1, dim, gap);
    }
  }

  lemma PositionsAreSpread(layers: seq<Layer>, dim: real, gap: nat -> real)
    requires dim > 0.0 && forall g :: gap(g) >= MIN_LAYER_GAP
    ensures Spread(NewPositions(layers, dim, gap))
  {
    var ps := NewPositions(layers, dim, gap);
    forall i, j | 0 <= i < j < |ps| ensures ps[i] + LAYER_TOLERANCE < ps[j] {
      NewPositionsSpread(layers[0].position, i, j, dim, gap);
      assert gap(i) >= MIN_LAYER_GAP;
    }
  }

  /** Detection after respacing finds the same layers, in the same order, at the new positions. */
  lemma RespacedLayers(nodes: seq<Node>, edges: seq<Edge>, d: Direction, laneSpacing: real, padding: real)
    requires NodesKeyed(nodes) && |LayersOf(nodes, d)| > 1
    ensures var layers := LayersOf(nodes, d);
            var ps := NewPositions(layers, NodeDim(d), GapSizes(edges, LayerIndex(layers), laneSpacing, padding));
            && Spread(ps) && |ps| == |layers|
            && LayersOf(Respaced(nodes, edges, d, laneSpacing, padding), d) == Repositioned(layers, ps)
  {
    var layers := LayersOf(nodes, d);
    var gap := GapSizes(edges, LayerIndex(layers), laneSpacing, padding);
    PositionsAreSpread(layers, NodeDim(d), gap);
    LayersMoved(nodes, NewPositions(layers, NodeDim(d), gap), d);
  }

  lemma {:induction false} SameIdsSameIndex(a: seq<Layer>, b: seq<Layer>)
    requires |a| == |b| && forall i :: 0 <= i < |a| ==> a[i].nodeIds == b[i].nodeIds
    ensures LayerIndex(a) == LayerIndex(b)
  {
    if a != [] {
      SameIdsSameIndex(a[..|a| - 1], b[..|b| - 1]);
    }
  }

  /** Nodes keep their number, their ids and their cross-axis coordinates. */
  lemma RespacedNode(nodes: seq<Node>, edges: seq<Edge>, d: Direction, laneSpacing: real, padding: real, k: nat)
    requires k < |nodes|
    ensures var out := Respaced(nodes, edges, d, laneSpacing, padding);
            |out| == |nodes| && out[k].id == nodes[k].id && Cross(out[k], d) == Cross(nodes[k], d)
  {
    hide LayersOf, LayerIndex, GapSizes, NodeDim;
  }

  lemma RespacedKeyed(nodes: seq<Node>, edges: seq<Edge>, d: Direction, laneSpacing: real, padding: real)
    requires NodesKeyed(nodes)
    ensures NodesKeyed(Respaced(nodes, edges, d, laneSpacing, padding))
  {
    var layers := LayersOf(nodes, d);
    if |layers| > 1 {
      var ps := NewPositions(layers, NodeDim(d), GapSizes(edges, LayerIndex(layers), laneSpacing, padding));
      MapKeyed(nodes, MoveBy(layers, LayerIndex(layers), ps, d));
    }
  }

  lemma MapKeyed(nodes: seq<Node>, f: Node -> Node)
    requires NodesKeyed(nodes) && forall n :: n in nodes ==> f(n).id == n.id
    ensures NodesKeyed(MapSeq(f, nodes))
  {
    var out := MapSeq(f, nodes);
    forall a, b | a in out && b in out && a.id == b.id ensures a == b {
      var i :| 0 <= i < |out| && out[i] == a;
      var j :| 0 <= j < |out| && out[j] == b;
      assert nodes[i] in nodes && nodes[j] in nodes;
    }
  }

  lemma RepositionedSteps(layers: seq<Layer>, dim: real, gap: nat -> real, i: nat)
    requires i + 1 < |layers|
    ensures var after := Repositioned(layers, NewPositions(layers, dim, gap));
            after[i + 1].position == after[i].position + dim + gap(i)
  {
  }

  /**
   * Respacing keeps the layer partition: detection on its output finds the same layers in the same order, with
   * the same members.
   */
  lemma SpacingKeepsLayers(nodes: seq<Node>, edges: seq<Edge>, d: Direction, laneSpacing: real, padding: real)
    requires NodesKeyed(nodes)
    ensures var before := LayersOf(nodes, d);
            var after := LayersOf(Respaced(nodes, edges, d, laneSpacing, padding), d);
            && |after| == |before|
            && (forall i :: 0 <= i < |after| ==> after[i].nodeIds == before[i].nodeIds)
            && (after != [] ==> after[0].position == before[0].position)
            && LayerIndex(after) == LayerIndex(before)
  {
    hide LayersOf, LayerIndex, GapSizes, NodeDim;
    var before := LayersOf(nodes, d);
    if |before| > 1 {
      RespacedLayers(nodes, edges, d, laneSpacing, padding);
      SameIdsSameIndex(before, LayersOf(Respaced(nodes, edges, d, laneSpacing, padding), d));
    }
  }

  /** Consecutive layers end up exactly a node box and their gap apart, and no gap is below the minimum. */
  lemma SpacingOfLayers(nodes: seq<Node>, edges: seq<Edge>, d: Direction, laneSpacing: real, padding: real, i: nat)
    requires NodesKeyed(nodes) && i + 1 < |LayersOf(nodes, d)|
    ensures var gap := GapSizes(edges, LayerIndex(LayersOf(nodes, d)), laneSpacing, padding);
            var after := LayersOf(Respaced(nodes, edges, d, laneSpacing, padding), d);
            && i + 1 < |after| && after[i + 1].position == after[i].position + NodeDim(d) + gap(i)
            && gap(i) >= MIN_LAYER_GAP
  {
    RespacedLayers(nodes, edges, d, laneSpacing, padding);
    var layers := LayersOf(nodes, d);
    RepositionedSteps(layers, NodeDim(d), GapSizes(edges, LayerIndex(layers), laneSpacing, padding), i);
  }

  lemma MoveOffset(layers: seq<Layer>, ps: seq<real>, n: Node, d: Direction)
    requires |ps| == |layers| && n.id in LayerIndex(layers) && LayerIndex(layers)[n.id] < |layers|
    ensures var i := LayerIndex(layers)[n.id];
            Primary(MoveBy(layers, LayerIndex(layers), ps, d)(n), d) - ps[i] == Primary(n, d) - layers[i].position
  {
  }

  /** Every node keeps its offset inside its layer. */
  lemma SpacingKeepsOffsets(
    nodes: seq<Node>, edges: seq<Edge>, d: Direction, laneSpacing: real, padding: real, k: nat)
    requires NodesKeyed(nodes) && k < |nodes|
    ensures var out := Respaced(nodes, edges, d, laneSpacing, padding);
            var i := LayerNumber(nodes[k], nodes, d);
            && InIndexedLayer(nodes[k], i, LayersOf(nodes, d), d)
            && k < |out| && i < |LayersOf(out, d)|
            && Primary(out[k], d) - LayersOf(out, d)[i].position
              == Primary(nodes[k], d) - LayersOf(nodes, d)[i].position
  {
    var layers := LayersOf(nodes, d);
    EveryNodeInLayer(nodes, nodes[k], d);
    if |layers| > 1 {
      RespacedLayers(nodes, edges, d, laneSpacing, padding);
      var ps := NewPositions(layers, NodeDim(d), GapSizes(edges, LayerIndex(layers), laneSpacing, padding));
      MoveOffset(layers, ps, nodes[k], d);
    }
  }

  /** Nodes already at the new positions stay put. */
  lemma MoveNothing(layers: seq<Layer>, ps: seq<real>, d: Direction, nodes: seq<Node>)
    requires |ps| == |layers| && forall i :: 0 <= i < |layers| ==> layers[i].position == ps[i]
    ensures MapSeq(MoveBy(layers, LayerIndex(layers), ps, d), nodes) == nodes
  {
  }

  /** Respacing a second time changes nothing. */
  lemma SpacingIdempotent(nodes: seq<Node>, edges: seq<Edge>, d: Direction, laneSpacing: real, padding: real)
    requires NodesKeyed(nodes)
    ensures var once := Respaced(nodes, edges, d, laneSpacing, padding);
            Respaced(once, edges, d, laneSpacing, padding) == once
  {
    hide LayersOf, LayerIndex, GapSizes, NodeDim;
    var layers := LayersOf(nodes, d);
    if |layers| > 1 {
      var once := Respaced(nodes, edges, d, laneSpacing, padding);
      var again := LayersOf(once, d);
      var gap := GapSizes(edges, LayerIndex(layers), laneSpacing, padding);
      RespacedLayers(nodes, edges, d, laneSpacing, padding);
      SpacingKeepsLayers(nodes, edges, d, laneSpacing, padding);
      assert NewPositions(again, NodeDim(d), gap) == NewPositions(layers, NodeDim(d), gap);
      MoveNothing(again, NewPositions(layers, NodeDim(d), gap), d, once);
    }
  }

  // ---------------------------------------------------------------------------
  // Lanes
  // ---------------------------------------------------------------------------

  lemma {:induction false} PutLanesOther(m: map<string, real>, list: seq<Edge>, k: nat, lane: nat -> real, id: string)
    requires k <= |list| && forall i :: 0 <= i < k ==> list[i].id != id
    ensures var r := PutLanes(m, list, k, lane);
            (id in r <==> id in m) && (id in m ==> r[id] == m[id])
  {
    if k > 0 {
      PutLanesOther(m, list, k - 1, lane, id);
    }
  }

  lemma {:induction false} PutLanesOwn(
    m: map<string, real>, list: seq<Edge>, k: nat, lane: nat -> real, own: nat) returns (i: nat)
    requires own < k <= |list|
    ensures i < k && list[i].id == list[own].id
    ensures var r := PutLanes(m, list, k, lane); list[own].id in r && r[list[own].id] == lane(i)
  {
    if list[k - 1].id == list[own].id {
      i := k - 1;
    } else {
      i := PutLanesOwn(m, list, k - 1, lane, own);
    }
  }

  lemma GapListMembers(edges: seq<Edge>, index: map<string, nat>, g: nat, at: map<string, Node>, d: Direction)
    ensures forall e :: e in GapList(edges, index, g, at, d) <==> e in edges && GapOf(e, index) == Some(g)
  {
    FilterMembers(InGap(index, g), edges);
    SortMembers(EdgeBefore(at, d), GapEdges(edges, index, g));
  }

  /** Everything a run of the router depends on. */
  datatype Run = Run(edges: seq<Edge>, layers: seq<Layer>, at: map<string, Node>, d: Direction, laneSpacing: real) {
    ghost function Gap(e: Edge): Option<nat> { GapOf(e, LayerIndex(layers)) }

    ghost function List(g: nat): seq<Edge> { GapList(edges, LayerIndex(layers), g, at, d) }

    ghost function LaneFn(g: nat): nat -> real
      requires g + 1 < |layers|
    {
      Lanes(GapCenter(layers, g, d), |List(g)|, laneSpacing)
    }

    ghost function Result(gaps: seq<nat>): map<string, real> { PutGaps(gaps, edges, layers, at, d, laneSpacing) }
  }

  /** The `i`-th edge of gap `g` is `e`, and `m` gives it the `i`-th lane. */
  ghost predicate HasLane(run: Run, m: map<string, real>, e: Edge, g: nat, i: nat) {
    && g + 1 < |run.layers| && run.Gap(e) == Some(g)
    && i < |run.List(g)| && run.List(g)[i] == e
    && e.id in m && m[e.id] == run.LaneFn(g)(i)
  }

  lemma LaneWritten(run: Run, m: map<string, real>, e: Edge, g: nat) returns (i: nat)
    requires EdgesKeyed(run.edges) && e in run.edges && run.Gap(e) == Some(g) && g + 1 < |run.layers|
    ensures HasLane(run, PutGap(m, g, run.List(g), run.layers, run.d, run.laneSpacing), e, g, i)
  {
    var list := run.List(g);
    GapListMembers(run.edges, LayerIndex(run.layers), g, run.at, run.d);
    var own :| 0 <= own < |list| && list[own] == e;
    i := PutLanesOwn(m, list, |list|, run.LaneFn(g), own);
    assert list[i] in list && list[i] == e;
  }

  lemma LaneKept(run: Run, m: map<string, real>, e: Edge, g: nat, i: nat, h: nat)
    requires EdgesKeyed(run.edges) && e in run.edges && h != g && HasLane(run, m, e, g, i)
    ensures HasLane(run, PutGap(m, h, run.List(h), run.layers, run.d, run.laneSpacing), e, g, i)
  {
    if h + 1 < |run.layers| {
      var list := run.List(h);
      GapListMembers(run.edges, LayerIndex(run.layers), h, run.at, run.d);
      forall j | 0 <= j < |list| ensures list[j].id != e.id {
        assert list[j] in list;
      }
      PutLanesOther(m, list, |list|, run.LaneFn(h), e.id);
    }
  }

  lemma {:induction false} EdgeGetsLane(run: Run, gaps: seq<nat>, e: Edge, g: nat) returns (i: nat)
    requires EdgesKeyed(run.edges) && e in run.edges && run.Gap(e) == Some(g)
    requires g in gaps && g + 1 < |run.layers|
    ensures HasLane(run, run.Result(gaps), e, g, i)
  {
    var last := |gaps| - 1;
    var m := run.Result(gaps[..last]);
    if gaps[last] == g {
      i := LaneWritten(run, m, e, g);
    } else {
      i := EdgeGetsLane(run, gaps[..last], e, g);
      LaneKept(run, m, e, g, i, gaps[last]);
    }
  }

  /** Only inter-layer edges get lanes. */
  lemma {:induction false} LaneBelongsToEdge(run: Run, gaps: seq<nat>, id: string) returns (e: Edge)
    requires id in run.Result(gaps)
    ensures e in run.edges && e.id == id && run.Gap(e) != None
  {
    var last := |gaps| - 1;
    var h := gaps[last];
    var m, list := run.Result(gaps[..last]), run.List(h);
    GapListMembers(run.edges, LayerIndex(run.layers), h, run.at, run.d);
    if h + 1 < |run.layers| && exists j :: 0 <= j < |list| && list[j].id == id {
      var j :| 0 <= j < |list| && list[j].id == id;
      assert list[j] in list;
      e := list[j];
    } else {
      if h + 1 < |run.layers| {
        PutLanesOther(m, list, |list|, run.LaneFn(h), id);
      }
      e := LaneBelongsToEdge(run, gaps[..last], id);
    }
  }

  ghost function RunOn(nodes: seq<Node>, edges: seq<Edge>, d: Direction, laneSpacing: real): Run {
    Run(edges, LayersOf(nodes, d), Located(nodes), d, laneSpacing)
  }

  /** A routed edge joins two nodes in different layers and has its place in the gap after the earlier one. */
  lemma RoutedEdge(nodes: seq<Node>, edges: seq<Edge>, d: Direction, laneSpacing: real, e: Edge)
    returns (g: nat, i: nat)
    requires NodesKeyed(nodes) && EdgesKeyed(edges)
    requires e in edges && e.id in Routes(nodes, edges, d, laneSpacing)
    ensures HasLane(RunOn(nodes, edges, d, laneSpacing), Routes(nodes, edges, d, laneSpacing), e, g, i)
  {
    var run := RunOn(nodes, edges, d, laneSpacing);
    var index := LayerIndex(run.layers);
    var e' := LaneBelongsToEdge(run, GapOrder(edges, index), e.id);
    assert e' == e;
    g := run.Gap(e).value;
    IndexNames(run.layers, e.source);
    IndexNames(run.layers, e.target);
    GapOrderComplete(edges, index);
    i := EdgeGetsLane(run, GapOrder(edges, index), e, g);
  }

  ghost predicate JoinsLayers(nodes: seq<Node>, e: Edge, u: Node, v: Node, d: Direction) {
    && u in nodes && v in nodes && u.id == e.source && v.id == e.target
    && LayerNumber(u, nodes, d) != LayerNumber(v, nodes, d)
  }

  /** Exactly the edges between different layers get a lane. */
  lemma RoutedExactly(nodes: seq<Node>, edges: seq<Edge>, d: Direction, laneSpacing: real, e: Edge)
    requires NodesKeyed(nodes) && EdgesKeyed(edges) && e in edges
    ensures e.id in Routes(nodes, edges, d, laneSpacing) <==> exists u, v :: JoinsLayers(nodes, e, u, v, d)
  {
    var run := RunOn(nodes, edges, d, laneSpacing);
    var index := LayerIndex(run.layers);
    if e.id in Routes(nodes, edges, d, laneSpacing) {
      var g, i := RoutedEdge(nodes, edges, d, laneSpacing, e);
      var u := IndexedNode(nodes, e.source, d);
      var v := IndexedNode(nodes, e.target, d);
      assert JoinsLayers(nodes, e, u, v, d);
    }
    if u, v :| JoinsLayers(nodes, e, u, v, d) {
      EveryNodeInLayer(nodes, u, d);
      EveryNodeInLayer(nodes, v, d);
      GapOrderComplete(edges, index);
      var i := EdgeGetsLane(run, GapOrder(edges, index), e, run.Gap(e).value);
    }
  }

  lemma ProductNonNegative(a: real, b: real)
    requires a >= 0.0 && b >= 0.0
    ensures a * b >= 0.0
  {
  }

  lemma LaneInsideGap(center: real, half: real, i: nat, count: nat, laneSpacing: real, padding: real)
    requires i < count && laneSpacing >= 0.0 && 2.0 * half >= count as real * laneSpacing + 2.0 * padding
    ensures center - half + padding + laneSpacing / 2.0 <= Lane(center, i, count, laneSpacing)
            <= center + half - padding - laneSpacing / 2.0
  {
    var c, r := count as real, i as real;
    assert (count - 1 - i) as real == c - 1.0 - r;
    ProductNonNegative(r, laneSpacing);
    ProductNonNegative(c - 1.0 - r, laneSpacing);
  }

  lemma LanesStep(center: real, i: nat, j: nat, count: nat, laneSpacing: real)
    requires i < j && laneSpacing >= 0.0
    ensures Lane(center, i, count, laneSpacing) + laneSpacing <= Lane(center, j, count, laneSpacing)
  {
    assert (j - i) as real == j as real - i as real;
    ProductNonNegative(j as real - i as real - 1.0, laneSpacing);
  }

  /** Gap `g` of `run` is a node box and room for its lanes wide. */
  ghost predicate Roomy(run: Run, g: nat, padding: real)
    requires g + 1 < |run.layers|
  {
    run.layers[g + 1].position
    == run.layers[g].position + NodeDim(run.d)
      + GapSizes(run.edges, LayerIndex(run.layers), run.laneSpacing, padding)(g)
  }

  lemma LaneBounds(run: Run, g: nat, i: nat, padding: real)
    requires g + 1 < |run.layers| && i < |run.List(g)| && run.laneSpacing >= 0.0 && Roomy(run, g, padding)
    ensures run.layers[g].position + NodeDim(run.d) + padding + run.laneSpacing / 2.0 <= run.LaneFn(g)(i)
            <= run.layers[g + 1].position - padding - run.laneSpacing / 2.0
  {
    hide LayerIndex, GapEdges, Sort, Filter, Lane;
    var count := |GapEdges(run.edges, LayerIndex(run.layers), g)|;
    var size := RequiredGap(count, run.laneSpacing, padding);
    var center := GapCenter(run.layers, g, run.d);
    assert |run.List(g)| == count;
    assert run.layers[g + 1].position == run.layers[g].position + NodeDim(run.d) + size;
    assert center - size / 2.0 == run.layers[g].position + NodeDim(run.d);
    assert center + size / 2.0 == run.layers[g + 1].position;
    LaneInsideGap(center, size / 2.0, i, count, run.laneSpacing, padding);
  }

  ghost predicate AllRoomy(run: Run, padding: real) {
    forall g: nat :: g + 1 < |run.layers| ==> Roomy(run, g, padding)
  }

  ghost predicate FarApart(layers: seq<Layer>, d: Direction) {
    forall i, j :: 0 <= i < j < |layers| ==> layers[i].position + NodeDim(d) + MIN_LAYER_GAP <= layers[j].position
  }

  /** What the router may rely on after respacing. */
  ghost predicate WellSpaced(nodes: seq<Node>, edges: seq<Edge>, d: Direction, laneSpacing: real, padding: real) {
    && NodesKeyed(nodes)
    && FarApart(LayersOf(nodes, d), d)
    && AllRoomy(RunOn(nodes, edges, d, laneSpacing), padding)
  }

  lemma RespacedIsWellSpaced(nodes: seq<Node>, edges: seq<Edge>, d: Direction, laneSpacing: real, padding: real)
    requires NodesKeyed(nodes)
    ensures WellSpaced(Respaced(nodes, edges, d, laneSpacing, padding), edges, d, laneSpacing, padding)
  {
    var out := Respaced(nodes, edges, d, laneSpacing, padding);
    var run := RunOn(out, edges, d, laneSpacing);
    RespacedKeyed(nodes, edges, d, laneSpacing, padding);
    SpacingKeepsLayers(nodes, edges, d, laneSpacing, padding);
    forall g: nat | g + 1 < |run.layers| ensures Roomy(run, g, padding) {
      SpacingOfLayers(nodes, edges, d, laneSpacing, padding, g);
    }
    RespacedFarApart(nodes, edges, d, laneSpacing, padding);
  }

  lemma RespacedFarApart(nodes: seq<Node>, edges: seq<Edge>, d: Direction, laneSpacing: real, padding: real)
    requires NodesKeyed(nodes)
    ensures FarApart(LayersOf(Respaced(nodes, edges, d, laneSpacing, padding), d), d)
  {
    var layers := LayersOf(nodes, d);
    if |layers| > 1 {
      RespacedLayers(nodes, edges, d, laneSpacing, padding);
      PositionsFarApart(layers, d, GapSizes(edges, LayerIndex(layers), laneSpacing, padding));
    }
  }

  lemma PositionsFarApart(layers: seq<Layer>, d: Direction, gap: nat -> real)
    requires forall g :: gap(g) >= MIN_LAYER_GAP
    ensures FarApart(Repositioned(layers, NewPositions(layers, NodeDim(d), gap)), d)
  {
    var after := Repositioned(layers, NewPositions(layers, NodeDim(d), gap));
    forall i, j | 0 <= i < j < |after| ensures after[i].position + NodeDim(d) + MIN_LAYER_GAP <= after[j].position {
      NewPositionsSpread(layers[0].position, i, j, NodeDim(d), gap);
      assert gap(i) >= MIN_LAYER_GAP;
    }
  }

  /** Nodes of one layer are within the tolerance and nodes of two layers are not. */
  lemma LayersByDistance(nodes: seq<Node>, d: Direction, u: Node, v: Node)
    requires NodesKeyed(nodes) && FarApart(LayersOf(nodes, d), d) && u in nodes && v in nodes
    ensures LayerNumber(u, nodes, d) != LayerNumber(v, nodes, d) <==>
      Abs(Primary(u, d) - Primary(v, d)) > LAYER_TOLERANCE
  {
    EveryNodeInLayer(nodes, u, d);
    EveryNodeInLayer(nodes, v, d);
  }

  lemma BoxesClear(run: Run, padding: real, g: nat, i: nat, k: nat, pos: real)
    requires AllRoomy(run, padding) && FarApart(run.layers, run.d) && run.laneSpacing >= 0.0
    requires g + 1 < |run.layers| && i < |run.List(g)| && k < |run.layers|
    requires run.layers[k].position <= pos <= run.layers[k].position + LAYER_TOLERANCE
    ensures || pos + NodeDim(run.d) + padding + run.laneSpacing / 2.0 - LAYER_TOLERANCE <= run.LaneFn(g)(i)
            || run.LaneFn(g)(i) + padding + run.laneSpacing / 2.0 <= pos
  {
    LaneBounds(run, g, i, padding);
    assert k < g ==> run.layers[k].position <= run.layers[g].position;
    assert k > g + 1 ==> run.layers[g + 1].position <= run.layers[k].position;
  }

  lemma PlacesApart(run: Run, padding: real, g: nat, i: nat, h: nat, j: nat)
    requires AllRoomy(run, padding) && FarApart(run.layers, run.d) && run.laneSpacing >= 0.0 && padding >= 0.0
    requires g + 1 < |run.layers| && i < |run.List(g)| && h + 1 < |run.layers| && j < |run.List(h)|
    requires g < h || (g == h && i != j)
    ensures Abs(run.LaneFn(g)(i) - run.LaneFn(h)(j)) >= run.laneSpacing
  {
    if g == h {
      SameGapLanesApart(run, g, i, j);
    } else {
      LaneBounds(run, g, i, padding);
      LaneBounds(run, h, j, padding);
      assert g + 1 < h ==> run.layers[g + 1].position <= run.layers[h].position;
    }
  }

  lemma SameGapLanesApart(run: Run, g: nat, i: nat, j: nat)
    requires g + 1 < |run.layers| && i != j && run.laneSpacing >= 0.0
    ensures Abs(run.LaneFn(g)(i) - run.LaneFn(g)(j)) >= run.laneSpacing
  {
    var first, second := if i < j then i else j, if i < j then j else i;
    LanesStep(GapCenter(run.layers, g, run.d), first, second, |run.List(g)|, run.laneSpacing);
  }

  lemma WellSpacedLanesApart(
    nodes: seq<Node>, edges: seq<Edge>, d: Direction, laneSpacing: real, padding: real, e: Edge, f: Edge)
    requires WellSpaced(nodes, edges, d, laneSpacing, padding) && EdgesKeyed(edges) && laneSpacing >= 0.0
      && padding >= 0.0
    requires e in edges && f in edges && e.id != f.id
    requires e.id in Routes(nodes, edges, d, laneSpacing) && f.id in Routes(nodes, edges, d, laneSpacing)
    ensures Abs(Routes(nodes, edges, d, laneSpacing)[e.id] - Routes(nodes, edges, d, laneSpacing)[f.id]) >= laneSpacing
  {
    hide LayersOf, Located, Routes, Lanes, GapCenter, GapOf, Abs;
    var run := RunOn(nodes, edges, d, laneSpacing);
    var g, i := RoutedEdge(nodes, edges, d, laneSpacing, e);
    var h, j := RoutedEdge(nodes, edges, d, laneSpacing, f);
    if g <= h {
      PlacesApart(run, padding, g, i, h, j);
    } else {
      PlacesApart(run, padding, h, j, g, i);
    }
  }

  // ---------------------------------------------------------------------------
  // Main results: respace, then route
  // ---------------------------------------------------------------------------

  /** The two ends of `e` are nodes further apart along the primary axis than the tolerance. */
  ghost predicate SpansLayers(nodes: seq<Node>, e: Edge, u: Node, v: Node, d: Direction) {
    && u in nodes && v in nodes && u.id == e.source && v.id == e.target
    && Abs(Primary(u, d) - Primary(v, d)) > LAYER_TOLERANCE
  }

  lemma WellSpacedRoutes(nodes: seq<Node>, edges: seq<Edge>, d: Direction, laneSpacing: real, e: Edge)
    requires NodesKeyed(nodes) && FarApart(LayersOf(nodes, d), d) && EdgesKeyed(edges) && e in edges
    ensures e.id in Routes(nodes, edges, d, laneSpacing) <==> exists u, v :: SpansLayers(nodes, e, u, v, d)
  {
    RoutedExactly(nodes, edges, d, laneSpacing, e);
    if u, v :| JoinsLayers(nodes, e, u, v, d) {
      LayersByDistance(nodes, d, u, v);
      assert SpansLayers(nodes, e, u, v, d);
    }
    if u, v :| SpansLayers(nodes, e, u, v, d) {
      LayersByDistance(nodes, d, u, v);
      assert JoinsLayers(nodes, e, u, v, d);
    }
  }

  /** After respacing, exactly the edges whose ends are in different layers, told by distance alone, get a lane. */
  lemma InterLayerEdgesGetLanes(
    nodes: seq<Node>, edges: seq<Edge>, d: Direction, laneSpacing: real, padding: real, e: Edge)
    requires NodesKeyed(nodes) && EdgesKeyed(edges) && e in edges
    ensures var out := Respaced(nodes, edges, d, laneSpacing, padding);
            e.id in Routes(out, edges, d, laneSpacing) <==> exists u, v :: SpansLayers(out, e, u, v, d)
  {
    RespacedIsWellSpaced(nodes, edges, d, laneSpacing, padding);
    WellSpacedRoutes(Respaced(nodes, edges, d, laneSpacing, padding), edges, d, laneSpacing, e);
  }

  /**
   * No lane touches a node box: after respacing with the same spacing, every lane keeps the padding and half a lane
   * from every node box in the graph, less the tolerance where the box may sit past its layer position.
   */
  lemma LanesClearBoxes(
    nodes: seq<Node>, edges: seq<Edge>, d: Direction, laneSpacing: real, padding: real, e: Edge, n: Node)
    requires NodesKeyed(nodes) && EdgesKeyed(edges) && laneSpacing >= 0.0
    requires var out := Respaced(nodes, edges, d, laneSpacing, padding);
             e in edges && n in out && e.id in Routes(out, edges, d, laneSpacing)
    ensures var lane := Routes(Respaced(nodes, edges, d, laneSpacing, padding), edges, d, laneSpacing)[e.id];
            || Primary(n, d) + NodeDim(d) + padding + laneSpacing / 2.0 - LAYER_TOLERANCE <= lane
            || lane + padding + laneSpacing / 2.0 <= Primary(n, d)
  {
    var out := Respaced(nodes, edges, d, laneSpacing, padding);
    RespacedIsWellSpaced(nodes, edges, d, laneSpacing, padding);
    var g, i := RoutedEdge(out, edges, d, laneSpacing, e);
    EveryNodeInLayer(out, n, d);
    BoxesClear(RunOn(out, edges, d, laneSpacing), padding, g, i, LayerNumber(n, out, d), Primary(n, d));
  }

  /** With the default spacing every lane is at least the padding away from every node box. */
  lemma DefaultLanesClearBoxes(nodes: seq<Node>, edges: seq<Edge>, d: Direction, e: Edge, n: Node)
    requires NodesKeyed(nodes) && EdgesKeyed(edges)
    requires var out := Respaced(nodes, edges, d, DEFAULT_LANE_SPACING, DEFAULT_LANE_PADDING);
             e in edges && n in out && e.id in Routes(out, edges, d, DEFAULT_LANE_SPACING)
    ensures var out := Respaced(nodes, edges, d, DEFAULT_LANE_SPACING, DEFAULT_LANE_PADDING);
            var lane := Routes(out, edges, d, DEFAULT_LANE_SPACING)[e.id];
            || Primary(n, d) + NodeDim(d) + DEFAULT_LANE_PADDING <= lane
            || lane + DEFAULT_LANE_PADDING <= Primary(n, d)
  {
    LanesClearBoxes(nodes, edges, d, DEFAULT_LANE_SPACING, DEFAULT_LANE_PADDING, e, n);
  }

  /** Any two lanes, in one gap or in two, are at least the lane spacing apart. */
  lemma LanesApart(
    nodes: seq<Node>, edges: seq<Edge>, d: Direction, laneSpacing: real, padding: real, e: Edge, f: Edge)
    requires NodesKeyed(nodes) && EdgesKeyed(edges) && laneSpacing >= 0.0 && padding >= 0.0
    requires var m := Routes(Respaced(nodes, edges, d, laneSpacing, padding), edges, d, laneSpacing);
             e in edges && f in edges && e.id != f.id && e.id in m && f.id in m
    ensures var m := Routes(Respaced(nodes, edges, d, laneSpacing, padding), edges, d, laneSpacing);
            Abs(m[e.id] - m[f.id]) >= laneSpacing
  {
    RespacedIsWellSpaced(nodes, edges, d, laneSpacing, padding);
    WellSpacedLanesApart(Respaced(nodes, edges, d, laneSpacing, padding), edges, d, laneSpacing, padding, e, f);
  }

  lemma EdgeOrderIsWeak(at: map<string, Node>, d: Direction)
    ensures StrictWeakOrder(EdgeBefore(at, d))
  {
  }

  /**
   * Lanes of one gap follow the cross-axis order of the targets, then of the sources, so they do not cross needlessly.
   */
  lemma LanesFollowTargets(nodes: seq<Node>, edges: seq<Edge>, d: Direction, laneSpacing: real, e: Edge, f: Edge)
    requires NodesKeyed(nodes) && EdgesKeyed(edges) && laneSpacing >= 0.0
    requires e in edges && f in edges
      && RunOn(nodes, edges, d, laneSpacing).Gap(e) == RunOn(nodes, edges, d, laneSpacing).Gap(f)
    requires e.id in Routes(nodes, edges, d, laneSpacing) && f.id in Routes(nodes, edges, d, laneSpacing)
    requires EdgeBefore(Located(nodes), d)(e, f)
    ensures Routes(nodes, edges, d, laneSpacing)[e.id] + laneSpacing <= Routes(nodes, edges, d, laneSpacing)[f.id]
  {
    var run := RunOn(nodes, edges, d, laneSpacing);
    var g, i := RoutedEdge(nodes, edges, d, laneSpacing, e);
    var h, j := RoutedEdge(nodes, edges, d, laneSpacing, f);
    EdgeOrderIsWeak(run.at, d);
    SortSorted(EdgeBefore(run.at, d), GapEdges(edges, LayerIndex(run.layers), g));
    assert !(j < i) && i != j;
    LanesStep(GapCenter(run.layers, g, d), i, j, |run.List(g)|, laneSpacing);
  }
}

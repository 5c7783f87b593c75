/**
 * client/src/utils/edgeRouter.ts: layers of positioned nodes, layer respacing and lane assignment.
 * Coordinates are reals.
 */
module EdgeRouter {
  import opened Common
  import opened StableSort

  const DEFAULT_LANE_SPACING := 15.0
  const DEFAULT_LANE_PADDING := 30.0
  const MIN_LAYER_GAP := 100.0
  const NODE_WIDTH := 180.0
  const NODE_HEIGHT := 100.0
  const LAYER_TOLERANCE := 5.0

  datatype Direction = TB | LR
  datatype Node = Node(id: string, x: real, y: real)
  datatype Edge = Edge(id: string, source: string, target: string)
  datatype Layer = Layer(position: real, nodeIds: seq<string>)

  /** An insertion-ordered `Map<number, Edge[]>`. */
  datatype GapMap = GapMap(order: seq<nat>, lists: map<nat, seq<Edge>>)

  function Primary(n: Node, d: Direction): real {
    if d.TB? then n.y else n.x
  }

  function Cross(n: Node, d: Direction): real {
    if d.TB? then n.x else n.y
  }

  function NodeDim(d: Direction): real {
    if d.TB? then NODE_HEIGHT else NODE_WIDTH
  }

  function Max(a: real, b: real): (m: real)
    ensures m >= a && m >= b && (m == a || m == b)
  {
    if a < b then b else a
  }

  // ---------------------------------------------------------------------------
  // Layer detection
  // ---------------------------------------------------------------------------

  function NodeBefore(d: Direction): (Node, Node) -> bool {
    (a: Node, b: Node) => Primary(a, d) - Primary(b, d) < 0.0
  }

  function LayerBefore(): (Layer, Layer) -> bool {
    (a: Layer, b: Layer) => a.position - b.position < 0.0
  }

  /** `layers.find`: the first layer within the tolerance, or `|layers|`. */
  function FindLayer(layers: seq<Layer>, pos: real): (k: nat)
    ensures k <= |layers|
    ensures k < |layers| ==> Abs(layers[k].position - pos) <= LAYER_TOLERANCE
    ensures forall i :: 0 <= i < k ==> Abs(layers[i].position - pos) > LAYER_TOLERANCE
  {
    if layers == [] then 0
    else if Abs(layers[0].position - pos) <= LAYER_TOLERANCE then 0
    else 1 + FindLayer(layers[1..], pos)
  }

  function AddNode(layers: seq<Layer>, n: Node, d: Direction): seq<Layer> {
    var k := FindLayer(layers, Primary(n, d));
    if k < |layers| then layers[k := layers[k].(nodeIds := layers[k].nodeIds + [n.id])]
    else layers + [Layer(Primary(n, d), [n.id])]
  }

  function Collect(sorted: seq<Node>, d: Direction): seq<Layer> {
    if sorted == [] then []
    else AddNode(Collect(sorted[..|sorted| - 1], d), sorted[|sorted| - 1], d)
  }

  function LayersOf(nodes: seq<Node>, d: Direction): seq<Layer> {
    Sort(LayerBefore(), Collect(Sort(NodeBefore(d), nodes), d))
  }

  method DetectLayers(nodes: seq<Node>, d: Direction) returns (layers: seq<Layer>)
    ensures layers == LayersOf(nodes, d)
  {
    hide Sort, FindLayer, Primary;
    var sorted := Sort(NodeBefore(d), nodes);
    layers := [];
    for i := 0 to |sorted|
      invariant layers == Collect(sorted[..i], d)
    {
      var node := sorted[i];
      assert sorted[..i + 1][..i] == sorted[..i];
      assert Collect(sorted[..i + 1], d) == AddNode(layers, node, d);
      var k := FindLayer(layers, Primary(node, d));
      if k < |layers| {
        layers := layers[k := layers[k].(nodeIds := layers[k].nodeIds + [node.id])];
      } else {
        layers := layers + [Layer(Primary(node, d), [node.id])];
      }
    }
    assert sorted[..|sorted|] == sorted;
    layers := Sort(LayerBefore(), layers);
  }

  function LayerIndex(layers: seq<Layer>): map<string, nat> {
    if layers == [] then map[]
    else
      var last := |layers| - 1;
      LayerIndex(layers[..last]) + Labelled(layers[last].nodeIds, last)
  }

  function Labelled(ids: seq<string>, i: nat): map<string, nat> {
    map id | id in ids :: i
  }

  lemma LabelOneMore(m: map<string, nat>, ids: seq<string>, id: string, i: nat)
    ensures (m + Labelled(ids, i))[id := i] == m + Labelled(ids + [id], i)
  {
  }

  method BuildNodeLayerIndex(layers: seq<Layer>) returns (index: map<string, nat>)
    ensures index == LayerIndex(layers)
  {
    index := map[];
    for i := 0 to |layers|
      invariant index == LayerIndex(layers[..i])
    {
      ghost var before := index;
      var ids := layers[i].nodeIds;
      for j := 0 to |ids|
        invariant index == before + Labelled(ids[..j], i)
      {
        LabelOneMore(before, ids[..j], ids[j], i);
        assert ids[..j + 1] == ids[..j] + [ids[j]];
        index := index[ids[j] := i];
      }
      assert ids[..|ids|] == ids;
      assert layers[..i + 1][..i] == layers[..i];
    }
    assert layers[..|layers|] == layers;
  }

  // ---------------------------------------------------------------------------
  // Gaps
  // ---------------------------------------------------------------------------

  function GapOf(e: Edge, index: map<string, nat>): Option<nat> {
    if e.source !in index || e.target !in index then None
    else if index[e.source] == index[e.target] then None
    else Some(if index[e.source] < index[e.target] then index[e.source] else index[e.target])
  }

  function InGap(index: map<string, nat>, g: nat): Edge -> bool {
    (e: Edge) => GapOf(e, index) == Some(g)
  }

  function GapEdges(edges: seq<Edge>, index: map<string, nat>, g: nat): seq<Edge> {
    Filter(InGap(index, g), edges)
  }

  /** The gaps in use, in the order in which the edges first mention them. */
  function GapOrder(edges: seq<Edge>, index: map<string, nat>): seq<nat> {
    if edges == [] then []
    else
      var before := GapOrder(edges[..|edges| - 1], index);
      match GapOf(edges[|edges| - 1], index)
      case None => before
      case Some(g) => if g in before then before else before + [g]
  }

  lemma {:induction false} GapOrderComplete(edges: seq<Edge>, index: map<string, nat>)
    ensures forall g :: g in GapOrder(edges, index) <==> (exists e :: e in edges && GapOf(e, index) == Some(g))
  {
    if edges != [] {
      var last := |edges| - 1;
      GapOrderComplete(edges[..last], index);
      assert edges == edges[..last] + [edges[last]];
      forall g ensures g in GapOrder(edges, index) <==> (exists e :: e in edges && GapOf(e, index) == Some(g)) {
        if GapOf(edges[last], index) == Some(g) {
          assert edges[last] in edges;
        } else {
          if e :| e in edges && GapOf(e, index) == Some(g) {
            assert e in edges[..last];
          }
        }
      }
    }
  }

  ghost function GapsOf(edges: seq<Edge>, index: map<string, nat>): GapMap {
    GapMap(GapOrder(edges, index), map g | g in GapOrder(edges, index) :: GapEdges(edges, index, g))
  }

  lemma GapEdgesStep(edges: seq<Edge>, e: Edge, index: map<string, nat>, g: nat)
    ensures GapEdges(edges + [e], index, g) ==
            GapEdges(edges, index, g) + if GapOf(e, index) == Some(g) then [e] else []
  {
    FilterAppend(InGap(index, g), edges, [e]);
    assert [e][1..] == [];
  }

  ghost function PushEdge(gaps: GapMap, g: nat, e: Edge): GapMap
    requires g in gaps.order ==> g in gaps.lists
  {
    if g in gaps.order then gaps.(lists := gaps.lists[g := gaps.lists[g] + [e]])
    else GapMap(gaps.order + [g], gaps.lists[g := [e]])
  }

  lemma GapsStep(edges: seq<Edge>, e: Edge, index: map<string, nat>)
    ensures GapsOf(edges + [e], index) ==
            match GapOf(e, index)
            case None => GapsOf(edges, index)
            case Some(g) => PushEdge(GapsOf(edges, index), g, e)
  {
    assert (edges + [e])[..|edges|] == edges;
    var before, after := GapsOf(edges, index), GapsOf(edges + [e], index);
    match GapOf(e, index)
    case None =>
      forall g | g in after.lists ensures after.lists[g] == before.lists[g] {
        GapEdgesStep(edges, e, index, g);
      }
      assert after.lists == before.lists;
    case Some(g) =>
      UnusedGap(edges, index, g);
      forall h | h in after.lists ensures after.lists[h] == PushEdge(before, g, e).lists[h] {
        GapEdgesStep(edges, e, index, h);
      }
      assert after.lists == PushEdge(before, g, e).lists;
  }

  method AssignEdgesToGaps(edges: seq<Edge>, index: map<string, nat>) returns (gaps: GapMap)
    ensures gaps == GapsOf(edges, index)
  {
    gaps := GapMap([], map[]);
    for i := 0 to |edges|
      invariant gaps == GapsOf(edges[..i], index)
    {
      var e := edges[i];
      assert edges[..i + 1] == edges[..i] + [e];
      GapsStep(edges[..i], e, index);
      ghost var before := gaps;
      if e.source in index && e.target in index && index[e.source] != index[e.target] {
        var g := if index[e.source] < index[e.target] then index[e.source] else index[e.target];
        if g !in gaps.lists {
          gaps := GapMap(gaps.order + [g], gaps.lists[g := []]);
        }
        gaps := gaps.(lists := gaps.lists[g := gaps.lists[g] + [e]]);
        assert [] + [e] == [e];
        assert gaps.lists == PushEdge(before, g, e).lists;
      }
    }
    assert edges[..|edges|] == edges;
  }

  lemma UnusedGap(edges: seq<Edge>, index: map<string, nat>, g: nat)
    ensures g !in GapOrder(edges, index) ==> GapEdges(edges, index, g) == []
  {
    GapOrderComplete(edges, index);
    if g !in GapOrder(edges, index) {
      FilterNone(InGap(index, g), edges);
    }
  }

  /** `gapEdges.get(g)?.length ?? 0` */
  function CountIn(gaps: GapMap, g: nat): nat {
    if g in gaps.lists then |gaps.lists[g]| else 0
  }

  /** The largest number of edges in any gap. */
  method ComputeMaxLanesPerGap(nodes: seq<Node>, edges: seq<Edge>, d: Direction) returns (max: nat)
    ensures forall g :: |GapEdges(edges, LayerIndex(LayersOf(nodes, d)), g)| <= max
    ensures max == 0 || exists g :: |GapEdges(edges, LayerIndex(LayersOf(nodes, d)), g)| == max
  {
    hide LayersOf, LayerIndex, GapEdges;
    ghost var spec := LayerIndex(LayersOf(nodes, d));
    forall g ensures g !in GapOrder(edges, spec) ==> GapEdges(edges, spec, g) == [] {
      UnusedGap(edges, spec, g);
    }
    if |nodes| == 0 || |edges| == 0 {
      NothingIndexed(nodes, edges, d);
      return 0;
    }
    var layers := DetectLayers(nodes, d);
    var index := BuildNodeLayerIndex(layers);
    var gaps := AssignEdgesToGaps(edges, index);
    max := 0;
    for i := 0 to |gaps.order|
      invariant forall j :: 0 <= j < i ==> |GapEdges(edges, spec, gaps.order[j])| <= max
      invariant max == 0 || exists g :: |GapEdges(edges, spec, g)| == max
    {
      var g := gaps.order[i];
      if |gaps.lists[g]| > max {
        max := |gaps.lists[g]|;
      }
    }
  }

  lemma NothingIndexed(nodes: seq<Node>, edges: seq<Edge>, d: Direction)
    requires nodes == [] || edges == []
    ensures GapOrder(edges, LayerIndex(LayersOf(nodes, d))) == []
  {
    NoNodesNoLayers(d);
    NoIndexNoGaps(edges);
  }

  // ---------------------------------------------------------------------------
  // Layer respacing
  // ---------------------------------------------------------------------------

  /** Room for the lanes of a gap with `edgeCount` edges. */
  function RequiredGap(edgeCount: nat, laneSpacing: real, padding: real): real {
    Max(MIN_LAYER_GAP, edgeCount as real * laneSpacing + 2.0 * padding)
  }

  /** The size each gap gets. */
  function GapSizes(edges: seq<Edge>, index: map<string, nat>, laneSpacing: real, padding: real): nat -> real {
    (g: nat) => RequiredGap(|GapEdges(edges, index, g)|, laneSpacing, padding)
  }

  /** Where respacing puts layer `i`. */
  function NewPosition(origin: real, i: nat, dim: real, gap: nat -> real): real {
    if i == 0 then origin else NewPosition(origin, i - 1, dim, gap) + dim + gap(i - 1)
  }

  function NewPositions(layers: seq<Layer>, dim: real, gap: nat -> real): seq<real> {
    seq(|layers|, i requires 0 <= i < |layers| => NewPosition(layers[0].position, i, dim, gap))
  }

  function Shift(n: Node, offset: real, d: Direction): Node {
    if d.TB? then n.(y := n.y + offset) else n.(x := n.x + offset)
  }

  /** The node moved along with its layer. */
  function Moved(n: Node, layers: seq<Layer>, index: map<string, nat>, ps: seq<real>, d: Direction): Node
  {
    if n.id in index && index[n.id] < |layers| && index[n.id] < |ps|
      then Shift(n, ps[index[n.id]] - layers[index[n.id]].position, d)
    else n
  }

  function MoveBy(layers: seq<Layer>, index: map<string, nat>, ps: seq<real>, d: Direction): Node -> Node {
    (n: Node) => Moved(n, layers, index, ps, d)
  }

  function Respaced(nodes: seq<Node>, edges: seq<Edge>, d: Direction, laneSpacing: real, padding: real): seq<Node> {
    var layers := LayersOf(nodes, d);
    if |layers| <= 1 then nodes
    else
      var index := LayerIndex(layers);
      var ps := NewPositions(layers, NodeDim(d), GapSizes(edges, index, laneSpacing, padding));
      MapSeq(MoveBy(layers, index, ps, d), nodes)
  }

  /** The loop that fills `newPositions`. */
  method ComputePositions(
    layers: seq<Layer>, gaps: GapMap, dim: real, size: nat -> real, ghost gap: nat -> real
  ) returns (ps: seq<real>)
    requires layers != []
    requires forall g: nat :: gap(g) == size(CountIn(gaps, g))
    ensures ps == NewPositions(layers, dim, gap)
  {
    ps := [layers[0].position];
    for i := 1 to |layers|
      invariant |ps| == i
      invariant forall j :: 0 <= j < i ==> ps[j] == NewPosition(layers[0].position, j, dim, gap)
    {
      assert gap(i - 1) == size(CountIn(gaps, i - 1));
      ps := ps + [ps[i - 1] + dim + size(CountIn(gaps, i - 1))];
    }
  }

  method AdjustLayerSpacing(
    nodes: seq<Node>, edges: seq<Edge>, d: Direction,
    laneSpacing: real := DEFAULT_LANE_SPACING, padding: real := DEFAULT_LANE_PADDING
  ) returns (result: seq<Node>)
    ensures result == Respaced(nodes, edges, d, laneSpacing, padding)
  {
    if |nodes| == 0 {
      return nodes;
    }
    var layers := DetectLayers(nodes, d);
    if |layers| <= 1 {
      return nodes;
    }
    var index := BuildNodeLayerIndex(layers);
    var gaps := AssignEdgesToGaps(edges, index);
    ghost var gap := GapSizes(edges, index, laneSpacing, padding);
    var size := (edgeCount: nat) => RequiredGap(edgeCount, laneSpacing, padding);
    forall g: nat ensures gap(g) == size(CountIn(gaps, g)) {
      UnusedGap(edges, index, g);
    }
    var ps := ComputePositions(layers, gaps, NodeDim(d), size, gap);
    result := MapSeq(MoveBy(layers, index, ps, d), nodes);
  }

  // ---------------------------------------------------------------------------
  // Lane assignment
  // ---------------------------------------------------------------------------

  function Located(nodes: seq<Node>): map<string, Node> {
    if nodes == [] then map[]
    else Located(nodes[..|nodes| - 1])[nodes[|nodes| - 1].id := nodes[|nodes| - 1]]
  }

  function CrossOf(at: map<string, Node>, id: string, d: Direction): real {
    if id in at then Cross(at[id], d) else 0.0
  }

  /** By the cross-axis coordinate of the target, then of the source. */
  function EdgeBefore(at: map<string, Node>, d: Direction): (Edge, Edge) -> bool {
    (a: Edge, b: Edge) =>
      if CrossOf(at, a.target, d) != CrossOf(at, b.target, d)
      then CrossOf(at, a.target, d) - CrossOf(at, b.target, d) < 0.0
      else CrossOf(at, a.source, d) - CrossOf(at, b.source, d) < 0.0
  }

  function GapCenter(layers: seq<Layer>, g: nat, d: Direction): real
    requires g + 1 < |layers|
  {
    (layers[g].position + NodeDim(d) + layers[g + 1].position) / 2.0
  }

  function Lane(center: real, i: nat, count: nat, laneSpacing: real): real {
    center + (i as real - (count as real - 1.0) / 2.0) * laneSpacing
  }

  function Lanes(center: real, count: nat, laneSpacing: real): nat -> real {
    (i: nat) => Lane(center, i, count, laneSpacing)
  }

  /** Lanes of the first `k` edges of a gap, written over `m`. */
  function PutLanes(m: map<string, real>, list: seq<Edge>, k: nat, lane: nat -> real): map<string, real>
    requires k <= |list|
  {
    if k == 0 then m else PutLanes(m, list, k - 1, lane)[list[k - 1].id := lane(k - 1)]
  }

  /** The edges of gap `g` in lane order. */
  function GapList(edges: seq<Edge>, index: map<string, nat>, g: nat, at: map<string, Node>, d: Direction): seq<Edge> {
    Sort(EdgeBefore(at, d), GapEdges(edges, index, g))
  }

  function PutGap(
    m: map<string, real>, g: nat, list: seq<Edge>, layers: seq<Layer>, d: Direction, laneSpacing: real
  ): map<string, real> {
    if g + 1 >= |layers| then m
    else PutLanes(m, list, |list|, Lanes(GapCenter(layers, g, d), |list|, laneSpacing))
  }

  function PutGaps(
    gaps: seq<nat>, edges: seq<Edge>, layers: seq<Layer>, at: map<string, Node>, d: Direction, laneSpacing: real
  ): map<string, real> {
    if gaps == [] then map[]
    else
      var g := gaps[|gaps| - 1];
      var list := GapList(edges, LayerIndex(layers), g, at, d);
      PutGap(PutGaps(gaps[..|gaps| - 1], edges, layers, at, d, laneSpacing), g, list, layers, d, laneSpacing)
  }

  function Routes(nodes: seq<Node>, edges: seq<Edge>, d: Direction, laneSpacing: real): map<string, real> {
    var layers := LayersOf(nodes, d);
    PutGaps(GapOrder(edges, LayerIndex(layers)), edges, layers, Located(nodes), d, laneSpacing)
  }

  lemma NoNodesNoLayers(d: Direction)
    ensures LayersOf([], d) == []
  {
    assert Sort(NodeBefore(d), []) == [];
    assert Collect([], d) == [];
  }

  lemma {:induction false} NoIndexNoGaps(edges: seq<Edge>)
    ensures GapOrder(edges, map[]) == []
  {
    if edges != [] {
      NoIndexNoGaps(edges[..|edges| - 1]);
    }
  }

  method AssignLanes(
    m: map<string, real>, list: seq<Edge>, center: real, laneSpacing: real
  ) returns (result: map<string, real>)
    ensures result == PutLanes(m, list, |list|, Lanes(center, |list|, laneSpacing))
  {
    result := m;
    for k := 0 to |list|
      invariant result == PutLanes(m, list, k, Lanes(center, |list|, laneSpacing))
    {
      result := result[list[k].id := Lane(center, k, |list|, laneSpacing)];
    }
  }

  method LocateNodes(nodes: seq<Node>) returns (at: map<string, Node>)
    ensures at == Located(nodes)
  {
    at := map[];
    for i := 0 to |nodes|
      invariant at == Located(nodes[..i])
    {
      assert nodes[..i + 1][..i] == nodes[..i];
      at := at[nodes[i].id := nodes[i]];
    }
    assert nodes[..|nodes|] == nodes;
  }

  lemma PutGapsStep(
    gaps: seq<nat>, i: nat, edges: seq<Edge>, layers: seq<Layer>, at: map<string, Node>, d: Direction,
    laneSpacing: real)
    requires i < |gaps|
    ensures PutGaps(gaps[..i + 1], edges, layers, at, d, laneSpacing)
            == PutGap(PutGaps(gaps[..i], edges, layers, at, d, laneSpacing), gaps[i],
                      GapList(edges, LayerIndex(layers), gaps[i], at, d), layers, d, laneSpacing)
  {
    assert gaps[..i + 1][..i] == gaps[..i];
  }

  method RouteGaps(
    gaps: GapMap, layers: seq<Layer>, at: map<string, Node>, d: Direction, laneSpacing: real, ghost edges: seq<Edge>
  ) returns (result: map<string, real>)
    requires forall g :: g in gaps.order ==>
      g in gaps.lists && gaps.lists[g] == GapEdges(edges, LayerIndex(layers), g)
    ensures result == PutGaps(gaps.order, edges, layers, at, d, laneSpacing)
  {
    result := map[];
    for i := 0 to |gaps.order|
      invariant result == PutGaps(gaps.order[..i], edges, layers, at, d, laneSpacing)
    {
      var g := gaps.order[i];
      PutGapsStep(gaps.order, i, edges, layers, at, d, laneSpacing);
      if g + 1 < |layers| {
        var list := Sort(EdgeBefore(at, d), gaps.lists[g]);
        result := AssignLanes(result, list, GapCenter(layers, g, d), laneSpacing);
      }
    }
    assert gaps.order[..|gaps.order|] == gaps.order;
  }

  method ComputeEdgeRoutes(
    nodes: seq<Node>, edges: seq<Edge>, d: Direction, laneSpacing: real := DEFAULT_LANE_SPACING
  ) returns (result: map<string, real>)
    ensures result == Routes(nodes, edges, d, laneSpacing)
  {
    if |nodes| == 0 || |edges| == 0 {
      NoNodesNoLayers(d);
      NoIndexNoGaps(edges);
      return map[];
    }
    var at := LocateNodes(nodes);
    var layers := DetectLayers(nodes, d);
    var index := BuildNodeLayerIndex(layers);
    var gaps := AssignEdgesToGaps(edges, index);
    result := RouteGaps(gaps, layers, at, d, laneSpacing, edges);
  }
}

/** What layers, gaps and lanes are, told in the coordinates and numbers of the router alone. */
module EdgeRouterCoordinates {
  import opened Common
  import opened StableSort
  import opened EdgeRouter
  import opened EdgeRouterTheorems

  // ---------------------------------------------------------------------------
  // Layers
  // ---------------------------------------------------------------------------

  /** The layers of TB graphs are told by `y`, those of LR graphs by `x`. */
  function Along(n: Node, d: Direction): real {
    match d
    case TB => n.y
    case LR => n.x
  }

  function Across(n: Node, d: Direction): real {
    match d
    case TB => n.x
    case LR => n.y
  }

  lemma GrownFirst(layers: seq<Layer>, n: Node, i: nat, d: Direction)
    requires i < |Grown(layers, n, d)|
    ensures var grown := Grown(layers, n, d);
            if i < |layers| then
              grown[i].position == layers[i].position && forall id :: id in layers[i].nodeIds ==> id in grown[i].nodeIds
            else grown[i].position == Along(n, d) && n.id in grown[i].nodeIds
  {
  }

  lemma {:induction false} FirstOfLayer(sorted: seq<Node>, upTo: nat, i: nat, d: Direction) returns (n: Node)
    requires Sorted(NodeBefore(d), sorted) && upTo <= |sorted| && i < |Collect(sorted[..upTo], d)|
    ensures n in sorted && n.id in Collect(sorted[..upTo], d)[i].nodeIds
    ensures Along(n, d) == Collect(sorted[..upTo], d)[i].position
  {
    assert upTo > 0;
    hide Collect, Sorted, Grown, Apart, AtOrPast, Along;
    CollectStep(sorted, upTo - 1, d);
    var before := Collect(sorted[..upTo - 1], d);
    n := sorted[upTo - 1];
    GrownFirst(before, n, i, d);
    if i < |before| {
      n := FirstOfLayer(sorted, upTo - 1, i, d);
    }
  }

  /** A node of layer `i` has the coordinate `p`. */
  ghost predicate StartsAtNode(nodes: seq<Node>, d: Direction, i: int, p: real) {
    exists n :: n in nodes && LayerNumber(n, nodes, d) == i && Along(n, d) == p
  }

  lemma StartsThere(nodes: seq<Node>, d: Direction, i: int, n: Node)
    requires n in nodes && LayerNumber(n, nodes, d) == i
    ensures StartsAtNode(nodes, d, i, Along(n, d))
  {
    hide LayerNumber, Along;
  }

  /**
   * The layers: more than 5 apart, each at the coordinate of one of its own nodes, and every node in the one layer that
   * starts at most 5 before it.
   */
  lemma LayersByCoordinate(nodes: seq<Node>, d: Direction)
    requires NodesKeyed(nodes)
    ensures var layers := LayersOf(nodes, d);
            && (forall i, j :: 0 <= i < j < |layers| ==> layers[i].position + 5.0 < layers[j].position)
            && (forall n :: n in nodes ==>
                  var i := LayerNumber(n, nodes, d);
                  && 0 <= i < |layers| && n.id in layers[i].nodeIds
                  && layers[i].position <= Along(n, d) <= layers[i].position + 5.0)
            && (forall i :: 0 <= i < |layers| ==> StartsAtNode(nodes, d, i, layers[i].position))
  {
    hide *;
    LayersMoreThanFiveApart(nodes, d);
    forall n | n in nodes
      ensures var layers, i := LayersOf(nodes, d), LayerNumber(n, nodes, d);
              && 0 <= i < |layers| && n.id in layers[i].nodeIds
              && layers[i].position <= Along(n, d) <= layers[i].position + 5.0 {
      NodeInItsLayer(nodes, d, n);
    }
    forall i | 0 <= i < |LayersOf(nodes, d)| ensures StartsAtNode(nodes, d, i, LayersOf(nodes, d)[i].position) {
      var n := LayerHasFirst(nodes, d, i);
      StartsThere(nodes, d, i, n);
    }
  }

  lemma LayersMoreThanFiveApart(nodes: seq<Node>, d: Direction)
    ensures var layers := LayersOf(nodes, d);
            forall i, j :: 0 <= i < j < |layers| ==> layers[i].position + 5.0 < layers[j].position
  {
    LayersAreCollected(nodes, d);
    hide Sort, Collect, LayersOf, Sorted;
  }

  lemma NodeInItsLayer(nodes: seq<Node>, d: Direction, n: Node)
    requires NodesKeyed(nodes) && n in nodes
    ensures var layers, i := LayersOf(nodes, d), LayerNumber(n, nodes, d);
            && 0 <= i < |layers| && n.id in layers[i].nodeIds
            && layers[i].position <= Along(n, d) <= layers[i].position + 5.0
  {
    EveryNodeInLayer(nodes, n, d);
    hide LayersOf, LayerIndex, LayerNumber;
  }

  lemma LayerHasFirst(nodes: seq<Node>, d: Direction, i: nat) returns (n: Node)
    requires NodesKeyed(nodes) && i < |LayersOf(nodes, d)|
    ensures n in nodes && LayerNumber(n, nodes, d) == i && Along(n, d) == LayersOf(nodes, d)[i].position
  {
    var sorted := Sort(NodeBefore(d), nodes);
    LayersAreCollected(nodes, d);
    SortMembers(NodeBefore(d), nodes);
    hide Sort, Collect, LayersOf, Sorted, LayerIndex, LayerNumber, Apart;
    n := FirstOfLayer(sorted, |sorted|, i, d);
    EveryNodeInLayer(nodes, n, d);
    ApartOnce(LayersOf(nodes, d), i, LayerNumber(n, nodes, d), Along(n, d));
  }

  ghost predicate IsNodes(nodes: seq<Node>, d: Direction, p: real) {
    exists n :: n in nodes && Along(n, d) == p
  }

  ghost predicate StartsBefore(ps: seq<real>, p: real) {
    exists i :: 0 <= i < |ps| && ps[i] <= p <= ps[i] + 5.0
  }

  /** Positions more than 5 apart, each that of a node, with one at most 5 before every node. */
  ghost predicate IsLayering(nodes: seq<Node>, d: Direction, ps: seq<real>) {
    && (forall i, j :: 0 <= i < j < |ps| ==> ps[i] + 5.0 < ps[j])
    && (forall n :: n in nodes ==> StartsBefore(ps, Along(n, d)))
    && (forall i :: 0 <= i < |ps| ==> IsNodes(nodes, d, ps[i]))
  }

  lemma LaterStarts(nodes: seq<Node>, d: Direction, ps: seq<real>, qs: seq<real>, i: nat)
    requires IsLayering(nodes, d, ps) && IsLayering(nodes, d, qs) && i < |qs|
    requires i <= |ps| && ps[..i] == qs[..i]
    ensures i < |ps| && ps[i] <= qs[i]
  {
    hide Along, StartsBefore;
    assert IsNodes(nodes, d, qs[i]);
    var n :| n in nodes && Along(n, d) == qs[i];
    assert StartsBefore(ps, qs[i]);
    forall k | 0 <= k < i ensures ps[k] == qs[k] {
      assert ps[k] == ps[..i][k] && qs[k] == qs[..i][k];
    }
    var j := StartOf(ps, qs[i]);
    assert j >= i;
  }

  lemma StartOf(ps: seq<real>, p: real) returns (i: nat)
    requires StartsBefore(ps, p)
    ensures i < |ps| && ps[i] <= p <= ps[i] + 5.0
  {
    i :| i < |ps| && ps[i] <= p <= ps[i] + 5.0;
  }

  lemma {:induction false} SameStarts(nodes: seq<Node>, d: Direction, ps: seq<real>, qs: seq<real>, i: nat)
    requires IsLayering(nodes, d, ps) && IsLayering(nodes, d, qs) && i <= |ps| && i <= |qs|
    ensures ps[..i] == qs[..i]
  {
    hide IsLayering;
    if i > 0 {
      SameStarts(nodes, d, ps, qs, i - 1);
      LaterStarts(nodes, d, ps, qs, i - 1);
      LaterStarts(nodes, d, qs, ps, i - 1);
      assert ps[..i] == ps[..i - 1] + [ps[i - 1]] && qs[..i] == qs[..i - 1] + [qs[i - 1]];
    }
  }

  lemma OneLayering(nodes: seq<Node>, d: Direction, ps: seq<real>, qs: seq<real>)
    requires IsLayering(nodes, d, ps) && IsLayering(nodes, d, qs)
    ensures ps == qs
  {
    hide IsLayering;
    var least := if |ps| <= |qs| then |ps| else |qs|;
    SameStarts(nodes, d, ps, qs, least);
    if |ps| < |qs| {
      LaterStarts(nodes, d, ps, qs, least);
    } else if |qs| < |ps| {
      LaterStarts(nodes, d, qs, ps, least);
    }
    assert ps[..least] == ps && qs[..least] == qs;
  }

  function PositionOf(): Layer -> real {
    (layer: Layer) => layer.position
  }

  lemma PositionsLayer(nodes: seq<Node>, d: Direction)
    requires NodesKeyed(nodes)
    ensures IsLayering(nodes, d, MapSeq(PositionOf(), LayersOf(nodes, d)))
  {
    LayersByCoordinate(nodes, d);
    hide LayersOf, LayerNumber, Along, StartsBefore;
    var layers := LayersOf(nodes, d);
    var ps := MapSeq(PositionOf(), layers);
    forall n | n in nodes ensures StartsBefore(ps, Along(n, d)) {
      var i := LayerNumber(n, nodes, d);
      assert ps[i] == layers[i].position;
      StartsAt(ps, i, Along(n, d));
    }
  }

  lemma StartsAt(ps: seq<real>, i: nat, p: real)
    requires i < |ps| && ps[i] <= p <= ps[i] + 5.0
    ensures StartsBefore(ps, p)
  {
  }

  /** There is one such layering, and the positions of the layers are it. */
  lemma PositionsAreTheLayering(nodes: seq<Node>, d: Direction, ps: seq<real>)
    requires NodesKeyed(nodes)
    ensures IsLayering(nodes, d, ps) <==> ps == MapSeq(PositionOf(), LayersOf(nodes, d))
  {
    hide IsLayering, LayersOf;
    PositionsLayer(nodes, d);
    if IsLayering(nodes, d, ps) {
      OneLayering(nodes, d, ps, MapSeq(PositionOf(), LayersOf(nodes, d)));
    }
  }

  lemma ApartOnce(layers: seq<Layer>, i: nat, j: nat, p: real)
    requires Apart(layers) && i < |layers| && j < |layers|
    requires layers[i].position <= p <= layers[i].position + LAYER_TOLERANCE
    requires layers[j].position <= p <= layers[j].position + LAYER_TOLERANCE
    ensures i == j
  {
  }

  // ---------------------------------------------------------------------------
  // Gaps
  // ---------------------------------------------------------------------------

  /** The edge joins, one way or the other, a node of layer `g` and one of a later layer. */
  ghost predicate Leaves(e: Edge, nodes: seq<Node>, d: Direction, g: int) {
    exists u, v :: u in nodes && v in nodes
                   && ((e.source == u.id && e.target == v.id) || (e.source == v.id && e.target == u.id))
                   && LayerNumber(u, nodes, d) == g < LayerNumber(v, nodes, d)
  }

  ghost function Leaving(nodes: seq<Node>, d: Direction, g: int): Edge -> bool {
    (e: Edge) => Leaves(e, nodes, d, g)
  }

  /** How many edges cross the gap after layer `g`. */
  ghost function Crossing(nodes: seq<Node>, edges: seq<Edge>, d: Direction, g: int): nat {
    |Filter(Leaving(nodes, d, g), edges)|
  }

  lemma GapIsLeaving(nodes: seq<Node>, d: Direction, g: nat, e: Edge)
    requires NodesKeyed(nodes)
    ensures GapOf(e, LayerIndex(LayersOf(nodes, d))) == Some(g) <==> Leaves(e, nodes, d, g)
  {
    hide LayersOf, LayerIndex;
    var index := LayerIndex(LayersOf(nodes, d));
    if GapOf(e, index) == Some(g) {
      var u := IndexedNode(nodes, e.source, d);
      var v := IndexedNode(nodes, e.target, d);
      assert LayerNumber(u, nodes, d) == index[e.source] && LayerNumber(v, nodes, d) == index[e.target];
      assert Leaves(e, nodes, d, g);
    }
  }

  lemma GapEdgesAreLeaving(nodes: seq<Node>, edges: seq<Edge>, d: Direction, g: nat)
    requires NodesKeyed(nodes)
    ensures GapEdges(edges, LayerIndex(LayersOf(nodes, d)), g) == Filter(Leaving(nodes, d, g), edges)
  {
    hide LayersOf, LayerIndex, Filter, Leaves;
    var index := LayerIndex(LayersOf(nodes, d));
    forall e | e in edges ensures InGap(index, g)(e) == Leaving(nodes, d, g)(e) {
      GapIsLeaving(nodes, d, g, e);
    }
    FilterCongruent(InGap(index, g), Leaving(nodes, d, g), edges);
  }

  /**
   * After respacing the next layer starts a node box, 100 for TB and 180 for LR, and the gap after the one before.  The
   * gap is 100 wide, or as wide as its edges at `laneSpacing` each and the padding on both sides when that is more.
   */
  lemma GapsInNumbers(nodes: seq<Node>, edges: seq<Edge>, d: Direction, laneSpacing: real, padding: real, i: nat)
    requires NodesKeyed(nodes) && i + 1 < |LayersOf(nodes, d)|
    ensures var after := LayersOf(Respaced(nodes, edges, d, laneSpacing, padding), d);
            var needed := Crossing(nodes, edges, d, i) as real * laneSpacing + 2.0 * padding;
            && i + 1 < |after|
            && after[i + 1].position - after[i].position
               == (match d case TB => 100.0 case LR => 180.0) + if needed <= 100.0 then 100.0 else needed
  {
    SpacingOfLayers(nodes, edges, d, laneSpacing, padding, i);
    GapEdgesAreLeaving(nodes, edges, d, i);
    hide *;
    GapInNumbers(Crossing(nodes, edges, d, i), d, laneSpacing, padding);
    CrossingIs(nodes, edges, d, i, laneSpacing, padding);
  }

  lemma GapInNumbers(n: nat, d: Direction, laneSpacing: real, padding: real)
    ensures var needed := n as real * laneSpacing + 2.0 * padding;
            NodeDim(d) + RequiredGap(n, laneSpacing, padding)
            == (match d case TB => 100.0 case LR => 180.0) + if needed <= 100.0 then 100.0 else needed
  {
  }

  /** With the default spacing two lanes fit the least gap of 100, and more need 60 and 15 a lane. */
  lemma DefaultGapsInNumbers(nodes: seq<Node>, edges: seq<Edge>, d: Direction, i: nat)
    requires NodesKeyed(nodes) && i + 1 < |LayersOf(nodes, d)|
    ensures var after := LayersOf(Respaced(nodes, edges, d, DEFAULT_LANE_SPACING, DEFAULT_LANE_PADDING), d);
            var n := Crossing(nodes, edges, d, i);
            && i + 1 < |after|
            && after[i + 1].position - after[i].position
               == (match d case TB => 100.0 case LR => 180.0) + if n <= 2 then 100.0 else 60.0 + 15.0 * n as real
  {
    hide LayersOf, Respaced, Crossing, NodesKeyed;
    GapsInNumbers(nodes, edges, d, DEFAULT_LANE_SPACING, DEFAULT_LANE_PADDING, i);
  }

  lemma CrossingIs(nodes: seq<Node>, edges: seq<Edge>, d: Direction, i: nat, laneSpacing: real, padding: real)
    requires GapEdges(edges, LayerIndex(LayersOf(nodes, d)), i) == Filter(Leaving(nodes, d, i), edges)
    ensures GapSizes(edges, LayerIndex(LayersOf(nodes, d)), laneSpacing, padding)(i)
         == RequiredGap(Crossing(nodes, edges, d, i), laneSpacing, padding)
  {
    hide RequiredGap, LayersOf, LayerIndex, Filter, Leaving, GapEdges;
  }

  // ---------------------------------------------------------------------------
  // Lanes
  // ---------------------------------------------------------------------------

  lemma {:induction false} LocatedNode(nodes: seq<Node>, n: Node)
    requires NodesKeyed(nodes) && n in nodes
    ensures n.id in Located(nodes) && Located(nodes)[n.id] == n
  {
    var last := nodes[|nodes| - 1];
    if n.id != last.id {
      LocatedNode(nodes[..|nodes| - 1], n);
    }
  }

  lemma RunGap(nodes: seq<Node>, edges: seq<Edge>, d: Direction, laneSpacing: real, e: Edge, g: nat)
    requires NodesKeyed(nodes) && Leaves(e, nodes, d, g)
    ensures RunOn(nodes, edges, d, laneSpacing).Gap(e) == Some(g)
  {
    GapIsLeaving(nodes, d, g, e);
  }

  /** The edge joins the two nodes. */
  predicate From(e: Edge, s: Node, u: Node) {
    e.source == s.id && e.target == u.id
  }

  /**
   * Of two edges routed through one gap the one whose target comes first across the layers, or, for level targets,
   * whose source does, gets the earlier lane.
   */
  lemma LanesByCoordinate(
    nodes: seq<Node>, edges: seq<Edge>, d: Direction, laneSpacing: real, g: nat,
    e: Edge, s: Node, u: Node, f: Edge, t: Node, v: Node)
    requires NodesKeyed(nodes) && EdgesKeyed(edges) && laneSpacing >= 0.0
    requires e in edges && f in edges && Leaves(e, nodes, d, g) && Leaves(f, nodes, d, g)
    requires s in nodes && u in nodes && t in nodes && v in nodes && From(e, s, u) && From(f, t, v)
    requires Across(u, d) < Across(v, d) || (Across(u, d) == Across(v, d) && Across(s, d) < Across(t, d))
    requires e.id in Routes(nodes, edges, d, laneSpacing) && f.id in Routes(nodes, edges, d, laneSpacing)
    ensures Routes(nodes, edges, d, laneSpacing)[e.id] + laneSpacing <= Routes(nodes, edges, d, laneSpacing)[f.id]
  {
    RunGap(nodes, edges, d, laneSpacing, e, g);
    RunGap(nodes, edges, d, laneSpacing, f, g);
    LocatedNode(nodes, s);
    LocatedNode(nodes, t);
    LocatedNode(nodes, u);
    LocatedNode(nodes, v);
    hide Routes, Leaves, RunOn, Located, LayersOf;
    LanesFollowTargets(nodes, edges, d, laneSpacing, e, f);
  }

  lemma {:induction false} FilterKeepsOrder<T>(p: T -> bool, xs: seq<T>, i: nat, j: nat) returns (k: nat, l: nat)
    requires i < j < |xs| && p(xs[i]) && p(xs[j])
    ensures k < l < |Filter(p, xs)| && Filter(p, xs)[k] == xs[i] && Filter(p, xs)[l] == xs[j]
  {
    if i > 0 {
      k, l := FilterKeepsOrder(p, xs[1..], i - 1, j - 1);
      if p(xs[0]) {
        k, l := k + 1, l + 1;
      }
    } else {
      FilterMember(p, xs[1..], xs[j]);
      assert xs[1..][j - 1] == xs[j];
      var m :| 0 <= m < |Filter(p, xs[1..])| && Filter(p, xs[1..])[m] == xs[j];
      k, l := 0, m + 1;
    }
  }

  lemma {:induction false} FilterOfOrder<T>(p: T -> bool, xs: seq<T>, k: nat, l: nat) returns (i: nat, j: nat)
    requires k < l < |Filter(p, xs)|
    ensures i < j < |xs| && xs[i] == Filter(p, xs)[k] && xs[j] == Filter(p, xs)[l]
  {
    var rest := Filter(p, xs[1..]);
    if !p(xs[0]) {
      i, j := FilterOfOrder(p, xs[1..], k, l);
      i, j := i + 1, j + 1;
    } else if k > 0 {
      i, j := FilterOfOrder(p, xs[1..], k - 1, l - 1);
      i, j := i + 1, j + 1;
    } else {
      FilterMember(p, xs[1..], rest[l - 1]);
      assert rest[l - 1] in rest;
      var m :| 0 <= m < |xs[1..]| && xs[1..][m] == rest[l - 1];
      i, j := 0, m + 1;
    }
  }

  /** The comparator cannot tell the two edges apart. */
  ghost predicate Even(at: map<string, Node>, d: Direction, e: Edge, f: Edge) {
    CrossOf(at, e.target, d) == CrossOf(at, f.target, d) && CrossOf(at, e.source, d) == CrossOf(at, f.source, d)
  }

  ghost function EvenWith(at: map<string, Node>, d: Direction, e: Edge): Edge -> bool {
    (f: Edge) => Even(at, d, e, f)
  }

  /** Even edges of a gap are listed in their order in the graph. */
  lemma EvenInOrder(
    edges: seq<Edge>, index: map<string, nat>, g: nat, at: map<string, Node>, d: Direction, a: nat, b: nat)
    returns (i: nat, j: nat)
    requires a < b < |edges| && InGap(index, g)(edges[a]) && InGap(index, g)(edges[b])
    requires Even(at, d, edges[a], edges[b])
    ensures var list := GapList(edges, index, g, at, d);
            i < j < |list| && list[i] == edges[a] && list[j] == edges[b]
  {
    hide GapOf, Filter, Sort, EdgeBefore, CrossOf, InGap;
    var tied, own := EvenWith(at, d, edges[a]), GapEdges(edges, index, g);
    EvenIsTied(at, d, edges[a]);
    i, j := FilterKeepsOrder(InGap(index, g), edges, a, b);
    i, j := FilterKeepsOrder(tied, own, i, j);
    SortStable(EdgeBefore(at, d), own, tied);
    i, j := FilterOfOrder(tied, GapList(edges, index, g, at, d), i, j);
  }

  lemma EvenIsTied(at: map<string, Node>, d: Direction, e: Edge)
    ensures Tied(EdgeBefore(at, d), EvenWith(at, d, e)) && EvenWith(at, d, e)(e)
  {
  }

  /** Edges of a gap whose targets and sources are level get lanes in their order in the graph. */
  lemma LevelLanesInGraphOrder(
    nodes: seq<Node>, edges: seq<Edge>, d: Direction, laneSpacing: real, g: nat, a: nat, b: nat,
    s: Node, u: Node, t: Node, v: Node)
    requires NodesKeyed(nodes) && EdgesKeyed(edges) && Distinct(edges) && laneSpacing >= 0.0 && a < b < |edges|
    requires Leaves(edges[a], nodes, d, g) && Leaves(edges[b], nodes, d, g)
    requires s in nodes && u in nodes && t in nodes && v in nodes && From(edges[a], s, u) && From(edges[b], t, v)
    requires Across(u, d) == Across(v, d) && Across(s, d) == Across(t, d)
    requires edges[a].id in Routes(nodes, edges, d, laneSpacing) && edges[b].id in Routes(nodes, edges, d, laneSpacing)
    ensures Routes(nodes, edges, d, laneSpacing)[edges[a].id] + laneSpacing
         <= Routes(nodes, edges, d, laneSpacing)[edges[b].id]
  {
    RunGap(nodes, edges, d, laneSpacing, edges[a], g);
    RunGap(nodes, edges, d, laneSpacing, edges[b], g);
    LocatedNode(nodes, s);
    LocatedNode(nodes, t);
    LocatedNode(nodes, u);
    LocatedNode(nodes, v);
    hide Routes, Leaves, Located, LayersOf, LayerIndex, GapOf, Lanes, GapCenter, GapList;
    var run := RunOn(nodes, edges, d, laneSpacing);
    assert Even(run.at, d, edges[a], edges[b]);
    var i, j := EvenInOrder(edges, LayerIndex(run.layers), g, run.at, d, a, b);
    var h, k := RoutedEdge(nodes, edges, d, laneSpacing, edges[a]);
    var h', l := RoutedEdge(nodes, edges, d, laneSpacing, edges[b]);
    GapListDistinct(edges, LayerIndex(run.layers), g, run.at, d);
    assert k == i && l == j;
    LaneSteps(run, g, i, j);
  }

  lemma LaneSteps(run: Run, g: nat, i: nat, j: nat)
    requires g + 1 < |run.layers| && i < j && run.laneSpacing >= 0.0
    ensures run.LaneFn(g)(i) + run.laneSpacing <= run.LaneFn(g)(j)
  {
    LanesStep(GapCenter(run.layers, g, run.d), i, j, |run.List(g)|, run.laneSpacing);
  }

  lemma GapListDistinct(edges: seq<Edge>, index: map<string, nat>, g: nat, at: map<string, Node>, d: Direction)
    requires Distinct(edges)
    ensures Distinct(GapList(edges, index, g, at, d))
  {
    hide GapOf, EdgeBefore, Sort, Filter;
    var own, list := GapEdges(edges, index, g), GapList(edges, index, g, at, d);
    forall k, l | 0 <= k < l < |own| ensures own[k] != own[l] {
      var i, j := FilterOfOrder(InGap(index, g), edges, k, l);
    }
    SortKeepsDistinct(EdgeBefore(at, d), own);
  }

  lemma {:induction false} SortKeepsDistinct<T(!new)>(before: (T, T) -> bool, xs: seq<T>)
    requires Distinct(xs)
    ensures Distinct(Sort(before, xs))
  {
    hide Sort;
    DistinctOnce(xs);
    var ys := Sort(before, xs);
    forall i, j | 0 <= i < j < |ys| ensures ys[i] != ys[j] {
      if ys[i] == ys[j] {
        TwiceInMultiset(ys, i, j);
      }
    }
  }

  lemma {:induction false} DistinctOnce<T>(xs: seq<T>)
    requires Distinct(xs)
    ensures forall x :: multiset(xs)[x] <= 1
  {
    if xs != [] {
      DistinctOnce(xs[1..]);
      assert xs == [xs[0]] + xs[1..];
      assert xs[0] !in xs[1..];
    }
  }

  lemma TwiceInMultiset<T>(xs: seq<T>, i: nat, j: nat)
    requires i < j < |xs| && xs[i] == xs[j]
    ensures multiset(xs)[xs[i]] >= 2
  {
    assert xs == xs[..j] + [xs[j]] + xs[j + 1..];
    assert xs[i] == xs[..j][i] && xs[i] in multiset(xs[..j]);
  }

  /** Half way from the end of the boxes of a layer at `p` to the layer at `q`. */
  function MidGap(p: real, q: real, d: Direction): real {
    (p + (match d case TB => 100.0 case LR => 180.0) + q) / 2.0
  }

  /**
   * The lanes of a gap are centred between the end of its boxes and the next layer, `laneSpacing` apart: the edge has
   * one of the places of as many lanes as edges cross the gap.
   */
  lemma LanesInNumbers(nodes: seq<Node>, edges: seq<Edge>, d: Direction, laneSpacing: real, g: nat, e: Edge)
    returns (k: nat)
    requires NodesKeyed(nodes) && EdgesKeyed(edges) && e in edges && Leaves(e, nodes, d, g)
    ensures var layers, m := LayersOf(nodes, d), Routes(nodes, edges, d, laneSpacing);
            var n := Crossing(nodes, edges, d, g);
            && g + 1 < |layers| && k < n && e.id in m
            && m[e.id] == MidGap(layers[g].position, layers[g + 1].position, d)
                          + (k as real - (n as real - 1.0) / 2.0) * laneSpacing
  {
    RunGap(nodes, edges, d, laneSpacing, e, g);
    LeavingIsRouted(nodes, edges, d, laneSpacing, g, e);
    var h, i := RoutedEdge(nodes, edges, d, laneSpacing, e);
    k := i;
    var run := RunOn(nodes, edges, d, laneSpacing);
    ListIsCrossing(nodes, edges, d, laneSpacing, g);
    assert g == h;
    hide *;
    LaneInNumbers(run, g, k);
    RunIsOn(nodes, edges, d, laneSpacing);
  }

  lemma RunIsOn(nodes: seq<Node>, edges: seq<Edge>, d: Direction, laneSpacing: real)
    ensures var run := RunOn(nodes, edges, d, laneSpacing);
            run.layers == LayersOf(nodes, d) && run.d == d && run.laneSpacing == laneSpacing
  {
  }

  lemma ListIsCrossing(nodes: seq<Node>, edges: seq<Edge>, d: Direction, laneSpacing: real, g: nat)
    requires NodesKeyed(nodes)
    ensures |RunOn(nodes, edges, d, laneSpacing).List(g)| == Crossing(nodes, edges, d, g)
  {
    GapEdgesAreLeaving(nodes, edges, d, g);
    hide LayersOf, LayerIndex, Filter, Leaving, Sort;
  }

  lemma LaneInNumbers(run: Run, g: nat, k: nat)
    requires g + 1 < |run.layers|
    ensures var n := |run.List(g)|;
            run.LaneFn(g)(k)
            == MidGap(run.layers[g].position, run.layers[g + 1].position, run.d)
               + (k as real - (n as real - 1.0) / 2.0) * run.laneSpacing
  {
    hide Sort, GapEdges, LayerIndex;
  }

  lemma LeavingIsRouted(nodes: seq<Node>, edges: seq<Edge>, d: Direction, laneSpacing: real, g: nat, e: Edge)
    requires NodesKeyed(nodes) && EdgesKeyed(edges) && e in edges && Leaves(e, nodes, d, g)
    ensures e.id in Routes(nodes, edges, d, laneSpacing)
  {
    hide Routes, LayerNumber;
    RoutedExactly(nodes, edges, d, laneSpacing, e);
    var u, v :| u in nodes && v in nodes
                && ((e.source == u.id && e.target == v.id) || (e.source == v.id && e.target == u.id))
                && LayerNumber(u, nodes, d) == g < LayerNumber(v, nodes, d);
    if e.source == u.id && e.target == v.id {
      assert JoinsLayers(nodes, e, u, v, d);
    } else {
      assert JoinsLayers(nodes, e, v, u, d);
    }
  }
}

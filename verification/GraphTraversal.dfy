/** client/src/utils/graphTraversal.ts: upstream and downstream search, related edges and isolation. */
module GraphTraversal {
  import opened Common
  import opened Reachability

  datatype AppNode = AppNode(id: string)

  datatype AppEdge = AppEdge(id: string, source: string, target: string, dependencyId: Option<string>)

  datatype IsolationTarget = Service(id: string) | Dependency(id: string)

  datatype Graph = Graph(nodes: seq<AppNode>, edges: seq<AppEdge>)

  function ArcsOf(edges: seq<AppEdge>): Arcs {
    set e | e in edges :: (e.source, e.target)
  }

  function Sources(edges: seq<AppEdge>): set<string> {
    set e | e in edges :: e.source
  }

  function Targets(edges: seq<AppEdge>): set<string> {
    set e | e in edges :: e.target
  }

  /** What `n` reaches along the edges. */
  ghost function Upstream(n: string, edges: seq<AppEdge>): set<string> {
    set x | x in {n} + Targets(edges) && Reaches(ArcsOf(edges), n, x)
  }

  /** What reaches `n` along the edges. */
  ghost function Downstream(n: string, edges: seq<AppEdge>): set<string> {
    set x | x in {n} + Sources(edges) && Reaches(ArcsOf(edges), x, n)
  }

  lemma UpstreamExact(n: string, edges: seq<AppEdge>)
    ensures IsReachableSet(ArcsOf(edges), n, Upstream(n, edges))
  {
    var arcs := ArcsOf(edges);
    forall x | Reaches(arcs, n, x) ensures x in {n} + Targets(edges) {
      var p :| Connects(arcs, p, n, x);
      if |p| > 1 {
        assert (p[|p| - 2], p[|p| - 1]) in arcs;
      }
    }
  }

  lemma DownstreamExact(n: string, edges: seq<AppEdge>)
    ensures forall x :: x in Downstream(n, edges) <==> Reaches(ArcsOf(edges), x, n)
    ensures IsReachableSet(Reversed(ArcsOf(edges)), n, Downstream(n, edges))
  {
    var arcs := ArcsOf(edges);
    forall x | Reaches(arcs, x, n) ensures x in {n} + Sources(edges) {
      var p :| Connects(arcs, p, x, n);
      if |p| > 1 {
        assert (p[0], p[1]) in arcs;
      }
    }
    forall x ensures Reaches(Reversed(arcs), n, x) <==> Reaches(arcs, x, n) {
      ReachesReversed(arcs, n, x);
    }
  }

  lemma SameReachableSet(arcs: Arcs, n: string, a: set<string>, b: set<string>)
    requires IsReachableSet(arcs, n, a) && IsReachableSet(arcs, n, b)
    ensures a == b
  {
    forall x ensures x in a <==> x in b {
      assert x in a <==> Reaches(arcs, n, x);
    }
  }

  /** A visited node at the head of the queue is dropped. */
  lemma SearchSkips(arcs: Arcs, start: string, visited: set<string>, queue: seq<string>)
    requires Searching(arcs, start, visited, Elements(queue)) && queue != [] && queue[0] in visited
    ensures Searching(arcs, start, visited, Elements(queue[1..]))
  {
    assert queue == [queue[0]] + queue[1..];
    SearchAdvances(arcs, start, visited, Elements(queue), {}, Elements(queue[1..]));
    assert visited + {} == visited;
  }

  /** The head of the queue is visited and its unvisited successors are appended. */
  lemma SearchVisits(arcs: Arcs, start: string, visited: set<string>, queue: seq<string>, pushed: seq<string>)
    requires Searching(arcs, start, visited, Elements(queue)) && queue != []
    requires forall b :: b in pushed <==> (queue[0], b) in arcs && b !in visited + {queue[0]}
    ensures Searching(arcs, start, visited + {queue[0]}, Elements(queue[1..] + pushed))
  {
    assert queue == [queue[0]] + queue[1..];
    SearchAdvances(arcs, start, visited, Elements(queue), {queue[0]}, Elements(queue[1..] + pushed));
  }

  lemma SearchFinishes(arcs: Arcs, start: string, visited: set<string>)
    requires Searching(arcs, start, visited, Elements([]))
    ensures IsReachableSet(arcs, start, visited)
  {
    assert Elements([]) == {};
    SearchEnds(arcs, start, visited);
  }

  method GetUpstreamNodeIds(nodeId: string, edges: seq<AppEdge>) returns (upstream: set<string>)
    ensures upstream == Upstream(nodeId, edges)
  {
    ghost var arcs := ArcsOf(edges);
    ghost var universe := {nodeId} + Targets(edges);
    upstream := {};
    var visited: set<string> := {};
    var queue := [nodeId];
    assert Elements(queue) == {nodeId};
    SearchStarts(arcs, nodeId);
    while |queue| > 0
      invariant upstream == visited <= universe && Elements(queue) <= universe
      invariant Searching(arcs, nodeId, visited, Elements(queue))
      decreases universe - visited, |queue|
    {
      ghost var before := queue;
      var current := queue[0];
      assert current in Elements(queue);
      queue := queue[1..];
      if current in visited {
        SearchSkips(arcs, nodeId, visited, before);
        continue;
      }
      ghost var seen := visited;
      visited := visited + {current};
      upstream := upstream + {current};
      ghost var pushed := [];
      for i := 0 to |edges|
        invariant queue == before[1..] + pushed
        invariant forall b :: b in pushed <==>
          exists k :: 0 <= k < i && edges[k].source == current && edges[k].target == b && b !in visited
      {
        if edges[i].source == current && edges[i].target !in visited {
          queue := queue + [edges[i].target];
          pushed := pushed + [edges[i].target];
        }
      }
      PushedAreArcs(edges, current, visited, pushed);
      SearchVisits(arcs, nodeId, seen, before, pushed);
    }
    SearchFinishes(arcs, nodeId, visited);
    UpstreamExact(nodeId, edges);
    SameReachableSet(arcs, nodeId, upstream, Upstream(nodeId, edges));
  }

  lemma PushedAreArcs(edges: seq<AppEdge>, current: string, visited: set<string>, pushed: seq<string>)
    requires forall b :: b in pushed <==>
      exists k :: 0 <= k < |edges| && edges[k].source == current && edges[k].target == b && b !in visited
    ensures forall b :: b in pushed <==> (current, b) in ArcsOf(edges) && b !in visited
    ensures Elements(pushed) <= Targets(edges)
  {
    forall b ensures b in pushed <==> (current, b) in ArcsOf(edges) && b !in visited {
      if (current, b) in ArcsOf(edges) && b !in visited {
        var e :| e in edges && (e.source, e.target) == (current, b);
        var k :| 0 <= k < |edges| && edges[k] == e;
      }
    }
  }

  method GetDownstreamNodeIds(nodeId: string, edges: seq<AppEdge>) returns (downstream: set<string>)
    ensures downstream == Downstream(nodeId, edges)
  {
    ghost var arcs := Reversed(ArcsOf(edges));
    ghost var universe := {nodeId} + Sources(edges);
    downstream := {};
    var visited: set<string> := {};
    var queue := [nodeId];
    assert Elements(queue) == {nodeId};
    SearchStarts(arcs, nodeId);
    while |queue| > 0
      invariant downstream == visited <= universe && Elements(queue) <= universe
      invariant Searching(arcs, nodeId, visited, Elements(queue))
      decreases universe - visited, |queue|
    {
      ghost var before := queue;
      var current := queue[0];
      assert current in Elements(queue);
      queue := queue[1..];
      if current in visited {
        SearchSkips(arcs, nodeId, visited, before);
        continue;
      }
      ghost var seen := visited;
      visited := visited + {current};
      downstream := downstream + {current};
      ghost var pushed := [];
      for i := 0 to |edges|
        invariant queue == before[1..] + pushed
        invariant forall b :: b in pushed <==>
          exists k :: 0 <= k < i && edges[k].target == current && edges[k].source == b && b !in visited
      {
        if edges[i].target == current && edges[i].source !in visited {
          queue := queue + [edges[i].source];
          pushed := pushed + [edges[i].source];
        }
      }
      PushedAreReversedArcs(edges, current, visited, pushed);
      SearchVisits(arcs, nodeId, seen, before, pushed);
    }
    SearchFinishes(arcs, nodeId, visited);
    DownstreamExact(nodeId, edges);
    SameReachableSet(arcs, nodeId, downstream, Downstream(nodeId, edges));
  }

  lemma PushedAreReversedArcs(edges: seq<AppEdge>, current: string, visited: set<string>, pushed: seq<string>)
    requires forall b :: b in pushed <==>
      exists k :: 0 <= k < |edges| && edges[k].target == current && edges[k].source == b && b !in visited
    ensures forall b :: b in pushed <==> (current, b) in Reversed(ArcsOf(edges)) && b !in visited
    ensures Elements(pushed) <= Sources(edges)
  {
    forall b ensures b in pushed <==> (current, b) in Reversed(ArcsOf(edges)) && b !in visited {
      if (current, b) in Reversed(ArcsOf(edges)) && b !in visited {
        assert (b, current) in ArcsOf(edges);
        var e :| e in edges && (e.source, e.target) == (b, current);
        var k :| 0 <= k < |edges| && edges[k] == e;
      }
      if b in pushed {
        var k :| 0 <= k < |edges| && edges[k].target == current && edges[k].source == b && b !in visited;
        assert (b, current) in ArcsOf(edges);
      }
    }
  }

  // ---------------------------------------------------------------------------
  // Related nodes and edges
  // ---------------------------------------------------------------------------

  /** `edges.find(p)` */
  function FindEdge(p: AppEdge -> bool, edges: seq<AppEdge>): (r: Option<AppEdge>)
    ensures r.Some? ==> r.value in edges && p(r.value)
  {
    if edges == [] then None else if p(edges[0]) then Some(edges[0]) else FindEdge(p, edges[1..])
  }

  /** The first edge of the list that has the property is found. */
  lemma {:induction false} FindsFirst(p: AppEdge -> bool, edges: seq<AppEdge>, k: nat)
    requires k < |edges| && p(edges[k]) && forall j :: 0 <= j < k ==> !p(edges[j])
    ensures FindEdge(p, edges) == Some(edges[k])
  {
    if k > 0 {
      FindsFirst(p, edges[1..], k - 1);
    }
  }

  function HasId(id: string): AppEdge -> bool {
    (e: AppEdge) => e.id == id
  }

  function HasDependency(id: string): AppEdge -> bool {
    (e: AppEdge) => e.dependencyId == Some(id)
  }

  ghost function RelatedToNode(n: string, edges: seq<AppEdge>): set<string> {
    Upstream(n, edges) + Downstream(n, edges)
  }

  /** The chain an edge is part of: what reaches its source and what its target reaches. */
  ghost function RelatedToEdge(edgeId: string, edges: seq<AppEdge>): set<string> {
    match FindEdge(HasId(edgeId), edges)
    case None => {}
    case Some(e) => Downstream(e.source, edges) + Upstream(e.target, edges)
  }

  method GetRelatedNodeIds(nodeId: string, edges: seq<AppEdge>) returns (related: set<string>)
    ensures related == RelatedToNode(nodeId, edges)
  {
    var upstream := GetUpstreamNodeIds(nodeId, edges);
    var downstream := GetDownstreamNodeIds(nodeId, edges);
    related := upstream + downstream;
  }

  method GetRelatedNodeIdsFromEdge(edgeId: string, edges: seq<AppEdge>) returns (related: set<string>)
    ensures related == RelatedToEdge(edgeId, edges)
  {
    var edge := FindEdge(HasId(edgeId), edges);
    if edge.None? {
      return {};
    }
    var downstreamFromSource := GetDownstreamNodeIds(edge.value.source, edges);
    var upstreamFromTarget := GetUpstreamNodeIds(edge.value.target, edges);
    related := downstreamFromSource + upstreamFromTarget;
  }

  predicate Inside(ids: set<string>, e: AppEdge) {
    e.source in ids && e.target in ids
  }

  ghost function EdgeIdsInside(edges: seq<AppEdge>, one: set<string>, other: set<string>): set<string> {
    set e | e in edges && (Inside(one, e) || Inside(other, e)) :: e.id
  }

  ghost function RelatedEdgeIds(selectedNodeId: string, selectedEdgeId: string, edges: seq<AppEdge>): set<string> {
    if selectedNodeId != "" then
      EdgeIdsInside(edges, Upstream(selectedNodeId, edges), Downstream(selectedNodeId, edges))
    else if selectedEdgeId != "" && FindEdge(HasId(selectedEdgeId), edges).Some? then
      var e := FindEdge(HasId(selectedEdgeId), edges).value;
      {selectedEdgeId} + EdgeIdsInside(edges, Downstream(e.source, edges), Upstream(e.target, edges))
    else {}
  }

  /** Nothing selected is the empty text. */
  method GetRelatedEdgeIds(selectedNodeId: string, selectedEdgeId: string, edges: seq<AppEdge>)
    returns (related: set<string>)
    ensures related == RelatedEdgeIds(selectedNodeId, selectedEdgeId, edges)
  {
    related := {};
    if selectedNodeId != "" {
      var upstream := GetUpstreamNodeIds(selectedNodeId, edges);
      var downstream := GetDownstreamNodeIds(selectedNodeId, edges);
      related := CollectInside(related, edges, upstream, downstream);
    } else if selectedEdgeId != "" {
      var selected := FindEdge(HasId(selectedEdgeId), edges);
      if selected.Some? {
        var downstreamFromSource := GetDownstreamNodeIds(selected.value.source, edges);
        var upstreamFromTarget := GetUpstreamNodeIds(selected.value.target, edges);
        related := CollectInside({selectedEdgeId}, edges, downstreamFromSource, upstreamFromTarget);
      }
    }
  }

  /** The loop that adds the ids of the edges inside one of the two sets. */
  method CollectInside(start: set<string>, edges: seq<AppEdge>, one: set<string>, other: set<string>)
    returns (ids: set<string>)
    ensures ids == start + EdgeIdsInside(edges, one, other)
  {
    ids := start;
    for i := 0 to |edges|
      invariant ids == start + EdgeIdsInside(edges[..i], one, other)
    {
      assert edges[..i + 1] == edges[..i] + [edges[i]];
      if Inside(one, edges[i]) || Inside(other, edges[i]) {
        ids := ids + {edges[i].id};
      }
    }
    assert edges[..|edges|] == edges;
  }

  /** Walk `p` uses the edge `e`. */
  ghost predicate PassesThrough(p: seq<string>, e: AppEdge) {
    exists i :: 0 <= i < |p| - 1 && p[i] == e.source && p[i + 1] == e.target
  }

  /** Some walk that starts or ends at `n` uses the edge. */
  ghost predicate OnWalkOf(n: string, e: AppEdge, edges: seq<AppEdge>) {
    exists p :: Walk(ArcsOf(edges), p) && (p[0] == n || p[|p| - 1] == n) && PassesThrough(p, e)
  }

  lemma WalkPrefixReaches(n: string, e: AppEdge, arcs: Arcs, p: seq<string>)
    requires Walk(arcs, p) && (p[0] == n || p[|p| - 1] == n) && PassesThrough(p, e)
    ensures Reaches(arcs, n, e.source) || Reaches(arcs, e.target, n)
  {
    var i :| 0 <= i < |p| - 1 && p[i] == e.source && p[i + 1] == e.target;
    if p[0] == n {
      assert Connects(arcs, p[..i + 1], n, e.source);
    } else {
      assert Connects(arcs, p[i + 1..], e.target, n);
    }
  }

  lemma WalkOn(n: string, e: AppEdge, arcs: Arcs, p: seq<string>)
    requires (e.source, e.target) in arcs && Connects(arcs, p, n, e.source)
    ensures Walk(arcs, p + [e.target]) && (p + [e.target])[0] == n && PassesThrough(p + [e.target], e)
  {
    var q := p + [e.target];
    assert q[|p| - 1] == e.source && q[|p|] == e.target;
  }

  lemma WalkInto(n: string, e: AppEdge, arcs: Arcs, p: seq<string>)
    requires (e.source, e.target) in arcs && Connects(arcs, p, e.target, n)
    ensures var q := [e.source] + p; Walk(arcs, q) && q[|q| - 1] == n && PassesThrough(q, e)
  {
    var q := [e.source] + p;
    assert q[0] == e.source && q[1] == e.target;
    forall i | 0 <= i < |q| - 1 ensures (q[i], q[i + 1]) in arcs {
      assert i > 0 ==> q[i] == p[i - 1] && q[i + 1] == p[i];
    }
  }

  lemma OnWalkByReach(n: string, e: AppEdge, edges: seq<AppEdge>)
    requires e in edges
    ensures OnWalkOf(n, e, edges) <==> Reaches(ArcsOf(edges), n, e.source) || Reaches(ArcsOf(edges), e.target, n)
  {
    var arcs := ArcsOf(edges);
    assert (e.source, e.target) in arcs;
    if p :| Walk(arcs, p) && (p[0] == n || p[|p| - 1] == n) && PassesThrough(p, e) {
      WalkPrefixReaches(n, e, arcs, p);
    }
    if p :| Connects(arcs, p, n, e.source) {
      WalkOn(n, e, arcs, p);
    }
    if p :| Connects(arcs, p, e.target, n) {
      WalkInto(n, e, arcs, p);
    }
  }

  /** For a node, the related edges are exactly those on some directed walk that starts or ends there. */
  lemma RelatedEdgesLieOnWalks(n: string, selectedEdgeId: string, edges: seq<AppEdge>)
    requires n != ""
    ensures forall id :: id in RelatedEdgeIds(n, selectedEdgeId, edges) <==>
                         exists e :: e in edges && e.id == id && OnWalkOf(n, e, edges)
  {
    var arcs := ArcsOf(edges);
    UpstreamExact(n, edges);
    DownstreamExact(n, edges);
    forall e | e in edges
      ensures OnWalkOf(n, e, edges) <==> Inside(Upstream(n, edges), e) || Inside(Downstream(n, edges), e) {
      OnWalkByReach(n, e, edges);
      assert (e.source, e.target) in arcs;
      if Reaches(arcs, n, e.source) {
        ReachesStep(arcs, n, e.source, e.target);
      }
      if Reaches(arcs, e.target, n) {
        assert Connects(arcs, [e.source, e.target], e.source, e.target);
        ReachesTransitive(arcs, e.source, e.target, n);
      }
    }
  }

  // ---------------------------------------------------------------------------
  // Edges related to an edge
  // ---------------------------------------------------------------------------

  /** Ids identify edges, as the server's builder makes sure of. */
  ghost predicate EdgesKeyed(edges: seq<AppEdge>) {
    forall a, b :: a in edges && b in edges && a.id == b.id ==> a == b
  }

  lemma {:induction false} FindKeyed(edges: seq<AppEdge>, e: AppEdge)
    requires EdgesKeyed(edges) && e in edges
    ensures FindEdge(HasId(e.id), edges) == Some(e)
  {
    if edges[0].id != e.id {
      FindKeyed(edges[1..], e);
    } else {
      assert edges[0] in edges;
    }
  }

  /** Consecutive edges meet. */
  ghost predicate EdgeWalk(w: seq<AppEdge>, edges: seq<AppEdge>) {
    && (forall i :: 0 <= i < |w| ==> w[i] in edges)
    && (forall i, j :: 0 <= i && j == i + 1 < |w| ==> w[i].target == w[j].source)
  }

  /** Some directed walk uses both edges. */
  ghost predicate OnOneWalk(e: AppEdge, f: AppEdge, edges: seq<AppEdge>) {
    exists w :: EdgeWalk(w, edges) && e in w && f in w
  }

  lemma {:induction false} EdgeWalkReaches(w: seq<AppEdge>, edges: seq<AppEdge>, i: nat, j: nat)
    requires EdgeWalk(w, edges) && i < j < |w|
    ensures Reaches(ArcsOf(edges), w[i].target, w[j].source)
  {
    if j == i + 1 {
      ReachesSelf(ArcsOf(edges), w[i].target);
    } else {
      EdgeWalkReaches(w, edges, i, j - 1);
      assert w[j - 1] in edges && (w[j - 1].source, w[j - 1].target) in ArcsOf(edges);
      ReachesStep(ArcsOf(edges), w[i].target, w[j - 1].source, w[j].source);
    }
  }

  /** The edges of a walk from `a` to `b`, between an edge that ends in `a` and one that starts in `b`. */
  lemma {:induction false} JoinedByWalk(
    e: AppEdge, f: AppEdge, edges: seq<AppEdge>, p: seq<string>) returns (w: seq<AppEdge>)
    requires e in edges && f in edges && Connects(ArcsOf(edges), p, e.target, f.source)
    ensures EdgeWalk(w, edges) && |w| >= 2 && w[0] == e && w[|w| - 1] == f
    decreases |p|
  {
    if |p| == 1 {
      w := [e, f];
    } else {
      assert (p[0], p[1]) in ArcsOf(edges);
      var first :| first in edges && first.source == p[0] && first.target == p[1];
      assert Connects(ArcsOf(edges), p[1..], first.target, f.source);
      var rest := JoinedByWalk(first, f, edges, p[1..]);
      w := [e] + rest;
    }
  }

  lemma OnOneWalkByReach(e: AppEdge, f: AppEdge, edges: seq<AppEdge>)
    requires e in edges && f in edges
    ensures OnOneWalk(e, f, edges) <==>
            e == f || Reaches(ArcsOf(edges), e.target, f.source) || Reaches(ArcsOf(edges), f.target, e.source)
  {
    var arcs := ArcsOf(edges);
    if w :| EdgeWalk(w, edges) && e in w && f in w {
      var i :| 0 <= i < |w| && w[i] == e;
      var j :| 0 <= j < |w| && w[j] == f;
      if i < j {
        EdgeWalkReaches(w, edges, i, j);
      } else if j < i {
        EdgeWalkReaches(w, edges, j, i);
      }
    }
    if e == f {
      assert EdgeWalk([e], edges) && e in [e];
    }
    if p :| Connects(arcs, p, e.target, f.source) {
      var w := JoinedByWalk(e, f, edges, p);
      assert e in w && f in w;
    }
    if p :| Connects(arcs, p, f.target, e.source) {
      var w := JoinedByWalk(f, e, edges, p);
      assert e in w && f in w;
    }
  }

  lemma InsideChain(e: AppEdge, f: AppEdge, edges: seq<AppEdge>)
    requires e in edges && f in edges
    ensures Inside(Downstream(e.source, edges), f) <==> Reaches(ArcsOf(edges), f.target, e.source)
    ensures Inside(Upstream(e.target, edges), f) <==> Reaches(ArcsOf(edges), e.target, f.source)
  {
    var arcs := ArcsOf(edges);
    UpstreamExact(e.target, edges);
    DownstreamExact(e.source, edges);
    assert (f.source, f.target) in arcs;
    if Reaches(arcs, e.target, f.source) {
      ReachesStep(arcs, e.target, f.source, f.target);
    }
    if Reaches(arcs, f.target, e.source) {
      assert Connects(arcs, [f.source, f.target], f.source, f.target);
      ReachesTransitive(arcs, f.source, f.target, e.source);
    }
  }

  /** For an edge, the related edges are exactly those on some directed walk through it. */
  lemma EdgesRelatedToEdgeLieOnWalks(selectedEdgeId: string, edges: seq<AppEdge>, e: AppEdge)
    requires EdgesKeyed(edges) && e in edges && e.id == selectedEdgeId && selectedEdgeId != ""
    ensures forall id :: id in RelatedEdgeIds("", selectedEdgeId, edges) <==>
                         exists f :: f in edges && f.id == id && OnOneWalk(e, f, edges)
  {
    hide Upstream, Downstream, OnOneWalk, Inside, FindEdge;
    FindKeyed(edges, e);
    forall f | f in edges
      ensures OnOneWalk(e, f, edges) <==>
        f == e || Inside(Downstream(e.source, edges), f) || Inside(Upstream(e.target, edges), f) {
      OnOneWalkByReach(e, f, edges);
      InsideChain(e, f, edges);
    }
  }

  // ---------------------------------------------------------------------------
  // Isolation
  // ---------------------------------------------------------------------------

  function NodeIn(ids: set<string>): AppNode -> bool {
    (n: AppNode) => n.id in ids
  }

  function EdgeIn(ids: set<string>): AppEdge -> bool {
    (e: AppEdge) => Inside(ids, e)
  }

  function Induced(g: Graph, ids: set<string>): Graph {
    Graph(Filter(NodeIn(ids), g.nodes), Filter(EdgeIn(ids), g.edges))
  }

  /** The ids to keep; none when the target cannot be resolved. */
  ghost function RelevantIds(target: IsolationTarget, g: Graph): Option<set<string>> {
    match target
    case Service(id) =>
      if exists n :: n in g.nodes && n.id == id then Some(RelatedToNode(id, g.edges)) else None
    case Dependency(id) =>
      match FindEdge(HasDependency(id), g.edges)
      case None => None
      case Some(e) => Some(RelatedToEdge(e.id, g.edges))
  }

  ghost function Isolated(target: IsolationTarget, g: Graph): Option<Graph> {
    match RelevantIds(target, g)
    case None => None
    case Some(ids) => Some(Induced(g, ids))
  }

  method GetIsolatedTree(target: IsolationTarget, allNodes: seq<AppNode>, allEdges: seq<AppEdge>)
    returns (r: Option<Graph>)
    ensures r == Isolated(target, Graph(allNodes, allEdges))
  {
    var relevantNodeIds: set<string>;
    match target {
      case Service(id) =>
        if !exists n :: n in allNodes && n.id == id {
          return None;
        }
        relevantNodeIds := GetRelatedNodeIds(id, allEdges);
      case Dependency(id) =>
        var matchingEdge := FindEdge(HasDependency(id), allEdges);
        if matchingEdge.None? {
          return None;
        }
        relevantNodeIds := GetRelatedNodeIdsFromEdge(matchingEdge.value.id, allEdges);
    }
    r := Some(Induced(Graph(allNodes, allEdges), relevantNodeIds));
  }

  /** The node belongs to the tree of the target: an ancestor or descendant of it. */
  ghost predicate InTree(target: IsolationTarget, g: Graph, x: string) {
    match target
    case Service(id) => Reaches(ArcsOf(g.edges), id, x) || Reaches(ArcsOf(g.edges), x, id)
    case Dependency(id) =>
      var e := FindEdge(HasDependency(id), g.edges);
      e.Some? && (Reaches(ArcsOf(g.edges), x, e.value.source) || Reaches(ArcsOf(g.edges), e.value.target, x))
  }

  lemma RelevantIdsAreTree(target: IsolationTarget, g: Graph)
    requires (target.Dependency? ==> EdgesKeyed(g.edges)) && RelevantIds(target, g).Some?
    ensures forall x :: x in RelevantIds(target, g).value <==> InTree(target, g, x)
  {
    match target
    case Service(id) =>
      UpstreamExact(id, g.edges);
      DownstreamExact(id, g.edges);
    case Dependency(id) =>
      var e := FindEdge(HasDependency(id), g.edges).value;
      FindKeyed(g.edges, e);
      UpstreamExact(e.target, g.edges);
      DownstreamExact(e.source, g.edges);
  }

  /** Isolation returns the subgraph induced by the ancestors and descendants of the target. */
  lemma IsolationIsInducedSubgraph(target: IsolationTarget, g: Graph)
    requires target.Dependency? ==> EdgesKeyed(g.edges)
    ensures Isolated(target, g).None? <==>
              if target.Service? then forall n :: n in g.nodes ==> n.id != target.id
              else forall e :: e in g.edges ==> e.dependencyId != Some(target.id)
    ensures Isolated(target, g).Some? ==>
              var r := Isolated(target, g).value;
              && (forall n :: n in r.nodes <==> n in g.nodes && InTree(target, g, n.id))
              && (forall e :: e in r.edges <==>
                    e in g.edges && InTree(target, g, e.source) && InTree(target, g, e.target))
  {
    if target.Dependency? {
      FindsAny(HasDependency(target.id), g.edges);
    }
    if Isolated(target, g).Some? {
      var ids := RelevantIds(target, g).value;
      RelevantIdsAreTree(target, g);
      FilterMembers(NodeIn(ids), g.nodes);
      FilterMembers(EdgeIn(ids), g.edges);
    }
  }

  lemma {:induction false} FindsAny(p: AppEdge -> bool, edges: seq<AppEdge>)
    ensures FindEdge(p, edges).Some? <==> exists e :: e in edges && p(e)
  {
    if edges != [] {
      FindsAny(p, edges[1..]);
      assert edges == [edges[0]] + edges[1..];
    }
  }

  /** Keeping every node that `n` reaches keeps everything `n` reaches. */
  lemma UpstreamKept(n: string, edges: seq<AppEdge>, ids: set<string>)
    requires Upstream(n, edges) <= ids
    ensures Upstream(n, Filter(EdgeIn(ids), edges)) == Upstream(n, edges)
  {
    var kept := Filter(EdgeIn(ids), edges);
    FilterMembers(EdgeIn(ids), edges);
    UpstreamExact(n, edges);
    UpstreamExact(n, kept);
    forall x ensures Reaches(ArcsOf(kept), n, x) <==> Reaches(ArcsOf(edges), n, x) {
      if p :| Connects(ArcsOf(kept), p, n, x) {
        assert Connects(ArcsOf(edges), p, n, x);
      }
      if p :| Connects(ArcsOf(edges), p, n, x) {
        forall i | 0 <= i < |p| ensures p[i] in ids {
          assert Connects(ArcsOf(edges), p[..i + 1], n, p[i]);
        }
        WalkKept(p, edges, ids);
      }
    }
    SameReachableSet(ArcsOf(edges), n, Upstream(n, kept), Upstream(n, edges));
  }

  lemma DownstreamKept(n: string, edges: seq<AppEdge>, ids: set<string>)
    requires Downstream(n, edges) <= ids
    ensures Downstream(n, Filter(EdgeIn(ids), edges)) == Downstream(n, edges)
  {
    var kept := Filter(EdgeIn(ids), edges);
    FilterMembers(EdgeIn(ids), edges);
    DownstreamExact(n, edges);
    DownstreamExact(n, kept);
    forall x ensures x in Downstream(n, kept) <==> x in Downstream(n, edges) {
      if p :| Connects(ArcsOf(kept), p, x, n) {
        assert Connects(ArcsOf(edges), p, x, n);
      }
      if p :| Connects(ArcsOf(edges), p, x, n) {
        forall i | 0 <= i < |p| ensures p[i] in ids {
          assert Connects(ArcsOf(edges), p[i..], p[i], n);
        }
        WalkKept(p, edges, ids);
        assert Connects(ArcsOf(kept), p, x, n);
      }
    }
  }

  lemma WalkKept(p: seq<string>, edges: seq<AppEdge>, ids: set<string>)
    requires Walk(ArcsOf(edges), p) && forall i :: 0 <= i < |p| ==> p[i] in ids
    ensures Walk(ArcsOf(Filter(EdgeIn(ids), edges)), p)
    ensures Connects(ArcsOf(Filter(EdgeIn(ids), edges)), p, p[0], p[|p| - 1])
  {
    var kept := Filter(EdgeIn(ids), edges);
    FilterMembers(EdgeIn(ids), edges);
    forall i | 0 <= i < |p| - 1 ensures (p[i], p[i + 1]) in ArcsOf(kept) {
      assert (p[i], p[i + 1]) in ArcsOf(edges);
      var e :| e in edges && (e.source, e.target) == (p[i], p[i + 1]);
      assert e in kept;
    }
  }

  lemma {:induction false} FindInFiltered(p: AppEdge -> bool, keep: AppEdge -> bool, edges: seq<AppEdge>)
    requires FindEdge(p, edges).Some? && keep(FindEdge(p, edges).value)
    ensures FindEdge(p, Filter(keep, edges)) == FindEdge(p, edges)
  {
    if !p(edges[0]) {
      FindInFiltered(p, keep, edges[1..]);
    }
  }

  lemma SelfInUpAndDown(n: string, edges: seq<AppEdge>)
    ensures n in Upstream(n, edges) && n in Downstream(n, edges)
  {
    ReachesSelf(ArcsOf(edges), n);
  }

  lemma RelevantIdsKept(target: IsolationTarget, g: Graph)
    requires (target.Dependency? ==> EdgesKeyed(g.edges)) && RelevantIds(target, g).Some?
    ensures RelevantIds(target, Induced(g, RelevantIds(target, g).value)) == RelevantIds(target, g)
  {
    var ids := RelevantIds(target, g).value;
    var kept := Induced(g, ids);
    FilterMembers(NodeIn(ids), g.nodes);
    FilterMembers(EdgeIn(ids), g.edges);
    match target
    case Service(id) =>
      SelfInUpAndDown(id, g.edges);
      var n :| n in g.nodes && n.id == id;
      assert n in kept.nodes;
      UpstreamKept(id, g.edges, ids);
      DownstreamKept(id, g.edges, ids);
    case Dependency(id) =>
      var e := FindEdge(HasDependency(id), g.edges).value;
      FindKeyed(g.edges, e);
      SelfInUpAndDown(e.source, g.edges);
      SelfInUpAndDown(e.target, g.edges);
      FindInFiltered(HasDependency(id), EdgeIn(ids), g.edges);
      FindInFiltered(HasId(e.id), EdgeIn(ids), g.edges);
      UpstreamKept(e.target, g.edges, ids);
      DownstreamKept(e.source, g.edges, ids);
  }

  /** Isolating the result again with the same target returns it unchanged. */
  lemma IsolationIdempotent(target: IsolationTarget, g: Graph)
    requires (target.Dependency? ==> EdgesKeyed(g.edges)) && Isolated(target, g).Some?
    ensures Isolated(target, Isolated(target, g).value) == Isolated(target, g)
  {
    RelevantIdsKept(target, g);
    var ids := RelevantIds(target, g).value;
    FilterTwice(NodeIn(ids), NodeIn(ids), g.nodes);
    FilterTwice(EdgeIn(ids), EdgeIn(ids), g.edges);
  }
}

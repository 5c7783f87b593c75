/**
 * server/src/services/graph/DependencyGraphBuilder.ts and ExternalNodeBuilder.ts, with groupByKey of
 * server/src/utils/deduplication.ts.  Node statistics and edge payloads are not part of the model.
 */
module DependencyGraph {
  import opened Common

  datatype ServiceRow = ServiceRow(id: string, teamId: string, isActive: bool, isExternal: bool)

  /** A dependency row joined with its association. */
  datatype DependencyRow = DependencyRow(
    id: string, serviceId: string, name: string, canonicalName: Option<string>, depType: string,
    targetServiceId: Option<string>)

  datatype GraphNode = GraphNode(id: string)

  datatype GraphEdge = GraphEdge(id: string, source: string, target: string, depType: string, dependencyId: string)

  datatype GraphResponse = GraphResponse(nodes: seq<GraphNode>, edges: seq<GraphEdge>)

  /** Lower-casing and trimming a name, and the truncated hash of a normalised one. */
  datatype Naming = Naming(normalize: string -> string, hash: string -> string)

  datatype ExternalGroup = ExternalGroup(id: string, name: string, deps: seq<DependencyRow>)

  /** An insertion-ordered `Map<string, ExternalGroup>`. */
  datatype ExternalGroups = ExternalGroups(order: seq<string>, groups: map<string, ExternalGroup>)

  // ---------------------------------------------------------------------------
  // Grouping rows
  // ---------------------------------------------------------------------------

  function OwnedBy(serviceId: string): DependencyRow -> bool {
    (d: DependencyRow) => d.serviceId == serviceId
  }

  /** `groupByKey(items, 'service_id')`: the rows of each owner, in their order. */
  method GroupByServiceId(items: seq<DependencyRow>) returns (groups: map<string, seq<DependencyRow>>)
    ensures forall k :: k in groups <==> exists d :: d in items && d.serviceId == k
    ensures forall k :: k in groups ==> groups[k] == Filter(OwnedBy(k), items)
  {
    groups := map[];
    for i := 0 to |items|
      invariant forall k :: k in groups <==> exists d :: d in items[..i] && d.serviceId == k
      invariant forall k :: k in groups ==> groups[k] == Filter(OwnedBy(k), items[..i])
    {
      var item := items[i];
      var existing := if item.serviceId in groups then groups[item.serviceId] else [];
      if item.serviceId !in groups {
        FilterNone(OwnedBy(item.serviceId), items[..i]);
      }
      forall k ensures Filter(OwnedBy(k), items[..i + 1]) ==
                       Filter(OwnedBy(k), items[..i]) + if item.serviceId == k then [item] else [] {
        FilterOneMore(OwnedBy(k), items, i);
      }
      assert items[..i + 1] == items[..i] + [item];
      groups := groups[item.serviceId := existing + [item]];
    }
    assert items[..|items|] == items;
  }

  // ---------------------------------------------------------------------------
  // External nodes
  // ---------------------------------------------------------------------------

  function DisplayName(d: DependencyRow): string {
    if d.canonicalName.Some? then d.canonicalName.value else d.name
  }

  function NormalizedName(naming: Naming, d: DependencyRow): string {
    naming.normalize(DisplayName(d))
  }

  const EXTERNAL_PREFIX: string := "external-"

  function ExternalId(naming: Naming, normalized: string): (id: string)
    ensures id != ""
  {
    EXTERNAL_PREFIX + naming.hash(normalized)
  }

  /** Unassociated rows with one normalised name. */
  function Unassociated(naming: Naming, normalized: string): DependencyRow -> bool {
    (d: DependencyRow) => d.targetServiceId.None? && NormalizedName(naming, d) == normalized
  }

  /** The group of a normalised name: its rows in order, shown under the name of the first. */
  function GroupOf(naming: Naming, deps: seq<DependencyRow>, n: string): Option<ExternalGroup> {
    var rows := Filter(Unassociated(naming, n), deps);
    if rows == [] then None else Some(ExternalGroup(ExternalId(naming, n), DisplayName(rows[0]), rows))
  }

  function Lookup<V>(m: map<string, V>, k: string): Option<V> {
    if k in m then Some(m[k]) else None
  }

  ghost predicate GroupsExactly(naming: Naming, deps: seq<DependencyRow>, g: ExternalGroups) {
    && Distinct(g.order)
    && (forall n :: n in g.groups <==> n in g.order)
    && (forall n :: Lookup(g.groups, n) == GroupOf(naming, deps, n))
  }

  /** Every unassociated row has the group of its own normalised name. */
  lemma UnassociatedHasGroup(naming: Naming, deps: seq<DependencyRow>, g: ExternalGroups, d: DependencyRow)
    requires GroupsExactly(naming, deps, g) && d in deps && d.targetServiceId.None?
    ensures var n := NormalizedName(naming, d);
            n in g.groups && g.groups[n].id == ExternalId(naming, n) && d in g.groups[n].deps
  {
    var n := NormalizedName(naming, d);
    FilterMember(Unassociated(naming, n), deps, d);
    assert Lookup(g.groups, n) == GroupOf(naming, deps, n);
  }

  /** Every group comes from some unassociated row. */
  lemma GroupHasRow(naming: Naming, deps: seq<DependencyRow>, g: ExternalGroups, n: string) returns (d: DependencyRow)
    requires GroupsExactly(naming, deps, g) && n in g.groups
    ensures d in deps && d.targetServiceId.None? && NormalizedName(naming, d) == n
    ensures g.groups[n].id == ExternalId(naming, n)
  {
    assert Lookup(g.groups, n) == GroupOf(naming, deps, n);
    d := Filter(Unassociated(naming, n), deps)[0];
    FilterMember(Unassociated(naming, n), deps, d);
  }

  method GroupUnassociatedDeps(naming: Naming, deps: seq<DependencyRow>) returns (g: ExternalGroups)
    ensures GroupsExactly(naming, deps, g)
  {
    g := ExternalGroups([], map[]);
    for i := 0 to |deps|
      invariant GroupsExactly(naming, deps[..i], g)
    {
      var dep := deps[i];
      ghost var before := g;
      if dep.targetServiceId.None? {
        var displayName := DisplayName(dep);
        var normalized := naming.normalize(displayName);
        if normalized in g.groups {
          var existing := g.groups[normalized];
          g := g.(groups := g.groups[normalized := existing.(deps := existing.deps + [dep])]);
        } else {
          g := ExternalGroups(
            g.order + [normalized],
            g.groups[normalized := ExternalGroup(ExternalId(naming, normalized), displayName, [dep])]);
        }
      }
      GroupingStep(naming, deps, i, before, g);
    }
    assert deps[..|deps|] == deps;
  }

  /** One more row joins its group or opens it; associated rows change nothing. */
  lemma GroupingStep(naming: Naming, deps: seq<DependencyRow>, i: nat, before: ExternalGroups, after: ExternalGroups)
    requires i < |deps| && GroupsExactly(naming, deps[..i], before)
    requires var dep := deps[i];
             var n := NormalizedName(naming, dep);
             after ==
               if dep.targetServiceId.Some? then before
               else if n in before.groups then
                 before.(groups := before.groups[n := before.groups[n].(deps := before.groups[n].deps + [dep])])
               else ExternalGroups(before.order + [n],
                                   before.groups[n := ExternalGroup(ExternalId(naming, n), DisplayName(dep), [dep])])
    ensures GroupsExactly(naming, deps[..i + 1], after)
  {
    hide ExternalId, NormalizedName;
    var dep, own := deps[i], NormalizedName(naming, deps[i]);
    forall n ensures Lookup(after.groups, n) == GroupOf(naming, deps[..i + 1], n) {
      FilterOneMore(Unassociated(naming, n), deps, i);
      assert Lookup(before.groups, n) == GroupOf(naming, deps[..i], n);
      assert Unassociated(naming, n)(dep) <==> dep.targetServiceId.None? && n == own;
      var rows := Filter(Unassociated(naming, n), deps[..i]);
      assert rows + [] == rows && [] + [dep] == [dep];
    }
  }

  method BuildNameToIdMap(g: ExternalGroups) returns (ids: map<string, string>)
    requires forall n :: n in g.groups <==> n in g.order
    ensures ids == map n | n in g.groups :: g.groups[n].id
  {
    ids := map[];
    for i := 0 to |g.order|
      invariant ids == map n | n in g.order[..i] :: g.groups[n].id
    {
      assert g.order[..i + 1] == g.order[..i] + [g.order[i]];
      ids := ids[g.order[i] := g.groups[g.order[i]].id];
    }
    assert g.order[..|g.order|] == g.order;
  }

  // ---------------------------------------------------------------------------
  // Edges
  // ---------------------------------------------------------------------------

  /** The provider's end of the edge: the associated service, else the external node of the same name. */
  function ResolveSource(naming: Naming, externals: Option<map<string, string>>, d: DependencyRow): Option<string> {
    if Truthy(d.targetServiceId) then d.targetServiceId
    else if externals.Some? && NormalizedName(naming, d) in externals.value then
      Some(externals.value[NormalizedName(naming, d)])
    else None
  }

  function EdgeId(source: string, target: string, depType: string): string {
    source + "-" + target + "-" + depType
  }

  function EdgeFor(source: string, d: DependencyRow): GraphEdge {
    GraphEdge(EdgeId(source, d.serviceId, d.depType), source, d.serviceId, d.depType, d.id)
  }

  function NodeIdsOf(nodes: seq<GraphNode>): set<string> {
    set n | n in nodes :: n.id
  }

  function EdgeIdsOf(edges: seq<GraphEdge>): set<string> {
    set e | e in edges :: e.id
  }

  ghost predicate NodesDistinct(nodes: seq<GraphNode>) {
    forall i, j :: 0 <= i < j < |nodes| ==> nodes[i].id != nodes[j].id
  }

  ghost predicate EdgesDistinct(edges: seq<GraphEdge>) {
    forall i, j :: 0 <= i < j < |edges| ==> edges[i].id != edges[j].id
  }

  class DependencyGraphBuilder {
    const naming: Naming
    var nodes: seq<GraphNode>
    var edges: seq<GraphEdge>
    var nodeIds: set<string>
    var edgeIds: set<string>
    var externalNodeMap: Option<map<string, string>>

    /** The id sets mirror the lists, and no id is used twice. */
    ghost predicate Valid()
      reads this
    {
      && nodeIds == NodeIdsOf(nodes) && edgeIds == EdgeIdsOf(edges)
      && NodesDistinct(nodes) && EdgesDistinct(edges)
    }

    constructor (naming: Naming)
      ensures Valid() && nodes == [] && edges == [] && externalNodeMap == None && this.naming == naming
    {
      this.naming := naming;
      nodes, edges, nodeIds, edgeIds, externalNodeMap := [], [], {}, {}, None;
    }

    /** `addServiceNode` and `addExternalNode`: a node whose id is taken is ignored. */
    method AddNode(id: string)
      requires Valid()
      modifies this`nodes, this`nodeIds
      ensures Valid()
      ensures nodes == if id in NodeIdsOf(old(nodes)) then old(nodes) else old(nodes) + [GraphNode(id)]
      ensures NodeIdsOf(nodes) == NodeIdsOf(old(nodes)) + {id}
    {
      if id in nodeIds {
        return;
      }
      nodes := nodes + [GraphNode(id)];
      nodeIds := nodeIds + {id};
    }

    method SetExternalNodeMap(ids: map<string, string>)
      requires Valid()
      modifies this`externalNodeMap
      ensures Valid() && externalNodeMap == Some(ids)
    {
      externalNodeMap := Some(ids);
    }

    method AddEdge(d: DependencyRow)
      requires Valid()
      modifies this`edges, this`edgeIds
      ensures Valid()
      ensures edges == EdgesWith(old(edges), NodeIdsOf(nodes), ResolveSource(naming, externalNodeMap, d), d)
    {
      var sourceId := d.targetServiceId;
      if !Truthy(sourceId) && externalNodeMap.Some? {
        var normalized := naming.normalize(DisplayName(d));
        sourceId := if normalized in externalNodeMap.value then Some(externalNodeMap.value[normalized]) else None;
      }
      if !Truthy(sourceId) {
        return;
      }
      if sourceId.value !in nodeIds {
        return;
      }
      var edgeId := EdgeId(sourceId.value, d.serviceId, d.depType);
      if edgeId in edgeIds {
        return;
      }
      edgeIds := edgeIds + {edgeId};
      edges := edges + [EdgeFor(sourceId.value, d)];
    }

    method HasNode(id: string) returns (has: bool)
      requires Valid()
      ensures has == (id in NodeIdsOf(nodes))
    {
      has := id in nodeIds;
    }

    method Build() returns (g: GraphResponse)
      ensures g == GraphResponse(nodes, edges)
    {
      g := GraphResponse(nodes, edges);
    }
  }

  /** The edges after offering the row: unchanged without a source among the nodes, or when the edge id is taken. */
  function EdgesWith(
    edges: seq<GraphEdge>, nodeIds: set<string>, source: Option<string>, d: DependencyRow): seq<GraphEdge>
  {
    if !Truthy(source) || source.value !in nodeIds then edges
    else if EdgeId(source.value, d.serviceId, d.depType) in EdgeIdsOf(edges) then edges
    else edges + [EdgeFor(source.value, d)]
  }

  /** The row can be drawn: its source resolves to a node. */
  ghost predicate Drawable(
    naming: Naming, externals: Option<map<string, string>>, nodeIds: set<string>, d: DependencyRow)
  {
    Truthy(ResolveSource(naming, externals, d)) && ResolveSource(naming, externals, d).value in nodeIds
  }

  /** The row is drawn as the edge `e`. */
  ghost predicate DrawnAs(
    naming: Naming, externals: Option<map<string, string>>, nodeIds: set<string>, d: DependencyRow, e: GraphEdge)
  {
    && Drawable(naming, externals, nodeIds, d)
    && e == EdgeFor(ResolveSource(naming, externals, d).value, d)
  }

  /** `edges` is what offering the rows `deps` draws: an edge for each drawable row or an earlier one with its id. */
  ghost predicate Draws(
    naming: Naming, externals: Option<map<string, string>>, nodeIds: set<string>, deps: seq<DependencyRow>,
    edges: seq<GraphEdge>)
  {
    && EdgesDistinct(edges)
    && (forall e :: e in edges ==> exists d :: d in deps && DrawnAs(naming, externals, nodeIds, d, e))
    && (forall d :: d in deps && Drawable(naming, externals, nodeIds, d) ==>
          EdgeId(ResolveSource(naming, externals, d).value, d.serviceId, d.depType) in EdgeIdsOf(edges))
  }

  lemma DrawsOneMore(
    naming: Naming, externals: Option<map<string, string>>, nodeIds: set<string>, deps: seq<DependencyRow>,
    edges: seq<GraphEdge>, d: DependencyRow)
    requires Draws(naming, externals, nodeIds, deps, edges)
    ensures Draws(naming, externals, nodeIds, deps + [d],
      EdgesWith(edges, nodeIds, ResolveSource(naming, externals, d), d))
  {
    hide EdgeId, NormalizedName, ResolveSource;
    var source := ResolveSource(naming, externals, d);
    var after := EdgesWith(edges, nodeIds, source, d);
    assert forall x :: x in deps + [d] <==> x in deps || x == d;
    forall e | e in after
      ensures exists x :: x in deps + [d] && DrawnAs(naming, externals, nodeIds, x, e) {
      if e in edges {
        var x :| x in deps && DrawnAs(naming, externals, nodeIds, x, e);
        assert x in deps + [d];
      } else {
        assert d in deps + [d] && DrawnAs(naming, externals, nodeIds, d, e);
      }
    }
    assert EdgeIdsOf(edges) <= EdgeIdsOf(after);
    if Drawable(naming, externals, nodeIds, d) {
      assert EdgeId(source.value, d.serviceId, d.depType) in EdgeIdsOf(after) by {
        if after != edges {
          assert EdgeFor(source.value, d) in after;
        }
      }
    }
  }

  /** Offering more rows in order; `drawn` are the rows offered before. */
  method AddEdges(builder: DependencyGraphBuilder, ghost drawn: seq<DependencyRow>, deps: seq<DependencyRow>)
    requires builder.Valid()
    requires Draws(builder.naming, builder.externalNodeMap, NodeIdsOf(builder.nodes), drawn, builder.edges)
    modifies builder`edges, builder`edgeIds
    ensures builder.Valid()
    ensures Draws(builder.naming, builder.externalNodeMap, NodeIdsOf(builder.nodes), drawn + deps, builder.edges)
  {
    hide Draws;
    assert drawn + deps[..0] == drawn;
    for i := 0 to |deps|
      invariant builder.Valid()
      invariant Draws(builder.naming, builder.externalNodeMap, NodeIdsOf(builder.nodes), drawn + deps[..i],
        builder.edges)
    {
      DrawsOneMore(builder.naming, builder.externalNodeMap, NodeIdsOf(builder.nodes), drawn + deps[..i], builder.edges,
        deps[i]);
      assert drawn + deps[..i + 1] == drawn + deps[..i] + [deps[i]];
      builder.AddEdge(deps[i]);
    }
    assert deps[..|deps|] == deps;
  }

  // ---------------------------------------------------------------------------
  // Edge ids
  // ---------------------------------------------------------------------------

  lemma TextAfterPrefix(a: string, b: string, x: string, y: string)
    requires a + x == b + y && |a| == |b|
    ensures a == b && x == y
  {
    assert a == (a + x)[..|a|] && b == (b + y)[..|b|];
    assert x == (a + x)[|a|..] && y == (b + y)[|b|..];
  }

  /** Edge ids tell edges apart, whatever their types, when sources and owners have ids of one length, as UUIDs do. */
  lemma EdgeIdsTellApart(s: string, t: string, y: string, s': string, t': string, y': string)
    requires EdgeId(s, t, y) == EdgeId(s', t', y') && |s| == |s'| && |t| == |t'|
    ensures s == s' && t == t' && y == y'
  {
    TextAfterPrefix(s + "-" + t + "-", s' + "-" + t' + "-", y, y');
    TextAfterPrefix(s + "-" + t, s' + "-" + t', "-", "-");
    TextAfterPrefix(s + "-", s' + "-", t, t');
    TextAfterPrefix(s, s', "-", "-");
  }

  /** No types make the ids of edges with these ends equal, unless the edges are. */
  ghost predicate EndsToldApart(s: string, t: string, s': string, t': string) {
    forall y, y' :: EdgeId(s, t, y) == EdgeId(s', t', y') ==> s == s' && t == t' && y == y'
  }

  /** An edge id before its type. */
  function EdgeStem(source: string, target: string): string {
    source + "-" + target + "-"
  }

  lemma StemBeforeType(s: string, t: string, y: string)
    ensures EdgeId(s, t, y) == EdgeStem(s, t) + y
  {
  }

  predicate BeginsWith(s: string, start: string) {
    |start| <= |s| && s[..|start|] == start
  }

  /** A stem that begins another, with other ends, collides for some types. */
  lemma StemsCollide(s: string, t: string, s': string, t': string)
    requires BeginsWith(EdgeStem(s', t'), EdgeStem(s, t)) && (s, t) != (s', t')
    ensures !EndsToldApart(s, t, s', t') && !EndsToldApart(s', t', s, t)
  {
    var y := EdgeStem(s', t')[|EdgeStem(s, t)|..] + "rest";
    StemBeforeType(s, t, y);
    StemBeforeType(s', t', "rest");
    assert EdgeId(s, t, y) == EdgeId(s', t', "rest");
  }

  /**
   * Whatever the types, edge ids tell edges with these two pairs of ends apart exactly when the pairs are one, or
   * neither begins as the other does when source and target are joined with a dash after each.
   */
  lemma EdgeIdsTellApartExactly(s: string, t: string, s': string, t': string)
    ensures EndsToldApart(s, t, s', t') <==>
      || (s, t) == (s', t')
      || !(BeginsWith(EdgeStem(s', t'), EdgeStem(s, t)) || BeginsWith(EdgeStem(s, t), EdgeStem(s', t')))
  {
    hide EdgeId, EdgeStem;
    if (s, t) != (s', t') && BeginsWith(EdgeStem(s', t'), EdgeStem(s, t)) {
      StemsCollide(s, t, s', t');
    } else if (s, t) != (s', t') && BeginsWith(EdgeStem(s, t), EdgeStem(s', t')) {
      StemsCollide(s', t', s, t);
    } else {
      forall y, y' | EdgeId(s, t, y) == EdgeId(s', t', y') ensures s == s' && t == t' && y == y' {
        StemBeforeType(s, t, y);
        StemBeforeType(s', t', y');
        var id, stem, stem' := EdgeId(s, t, y), EdgeStem(s, t), EdgeStem(s', t');
        assert id[..|stem|] == stem && id[..|stem'|] == stem';
        assert |stem| <= |stem'| ==> stem'[..|stem|] == stem;
        assert |stem'| <= |stem| ==> stem[..|stem'|] == stem';
        EdgeIdsTellApart(s, t, y, s', t', y');
      }
    }
  }
}

/** server/src/services/graph/GraphService.ts: traversal and graph construction over the rows of the stores. */
module GraphService {
  import opened Common
  import opened Reachability
  import opened DependencyGraph

  /** The rows the stores hold.  Queries return the rows that belong to the ids asked for. */
  datatype Store = Store(services: seq<ServiceRow>, dependencies: seq<DependencyRow>, teams: set<string>)

  /** Primary keys, and a dependency row joins an existing service. */
  ghost predicate Consistent(store: Store) {
    && (forall i, j :: 0 <= i < j < |store.services| ==> store.services[i].id != store.services[j].id)
    && (forall d :: d in store.dependencies ==> d.serviceId in ServiceIds(store.services))
  }

  function ServiceIds(services: seq<ServiceRow>): set<string> {
    set s | s in services :: s.id
  }

  function HasIdIn(ids: set<string>): ServiceRow -> bool {
    (s: ServiceRow) => s.id in ids
  }

  function OwnerIn(ids: set<string>): DependencyRow -> bool {
    (d: DependencyRow) => d.serviceId in ids
  }

  function FindByIdsWithTeam(store: Store, ids: set<string>): seq<ServiceRow> {
    Filter(HasIdIn(ids), store.services)
  }

  function FindByServiceIds(store: Store, ids: set<string>): seq<DependencyRow> {
    Filter(OwnerIn(ids), store.dependencies)
  }

  // ---------------------------------------------------------------------------
  // Upstream traversal
  // ---------------------------------------------------------------------------

  datatype ServiceData = ServiceData(service: ServiceRow, deps: seq<DependencyRow>)

  /** A service depends on the services its rows are associated with. */
  function AssociationArcs(deps: seq<DependencyRow>): Arcs {
    set d | d in deps && Truthy(d.targetServiceId) :: (d.serviceId, d.targetServiceId.value)
  }

  function AssociatedIds(deps: seq<DependencyRow>): set<string> {
    set d | d in deps && Truthy(d.targetServiceId) :: d.targetServiceId.value
  }

  /** Every stored visited service is paired with exactly its own rows, and nothing else is listed. */
  ghost predicate PairsExactly(store: Store, visited: set<string>, data: seq<ServiceData>) {
    && (forall i, j :: 0 <= i < j < |data| ==> data[i].service.id != data[j].service.id)
    && (forall p :: p in data ==>
          p.service in store.services && p.service.id in visited
          && p.deps == Filter(OwnedBy(p.service.id), store.dependencies))
    && (forall s :: s in store.services && s.id in visited ==> exists p :: p in data && p.service == s)
  }

  lemma AssociatedOneMore(deps: seq<DependencyRow>, d: DependencyRow)
    ensures AssociatedIds(deps + [d])
            == AssociatedIds(deps) + if Truthy(d.targetServiceId) then {d.targetServiceId.value} else {}
  {
    assert d in deps + [d];
    forall x | x in AssociatedIds(deps) ensures x in AssociatedIds(deps + [d]) {
      var e :| e in deps && Truthy(e.targetServiceId) && e.targetServiceId.value == x;
      assert e in deps + [d];
    }
  }

  lemma ElementsOneMore(ids: seq<string>, x: string)
    ensures Elements(ids + [x]) == Elements(ids) + {x}
  {
  }

  /** The associated services not yet visited, each once. */
  method NextFrontier(dependencies: seq<DependencyRow>, visited: set<string>) returns (next: seq<string>)
    ensures Elements(next) == AssociatedIds(dependencies) - visited
    ensures Distinct(next)
  {
    hide AssociatedIds, Elements;
    var found := [];
    assert AssociatedIds(dependencies[..0]) == {} && Elements(found) == {} by {
      EmptyIds();
    }
    for i := 0 to |dependencies|
      invariant Elements(found) == AssociatedIds(dependencies[..i]) - visited
    {
      var dep := dependencies[i];
      assert dependencies[..i + 1] == dependencies[..i] + [dep];
      AssociatedOneMore(dependencies[..i], dep);
      if Truthy(dep.targetServiceId) && dep.targetServiceId.value !in visited {
        ElementsOneMore(found, dep.targetServiceId.value);
        found := found + [dep.targetServiceId.value];
      }
    }
    assert dependencies[..|dependencies|] == dependencies;
    next := WithoutRepeats(found);
  }

  lemma EmptyIds()
    ensures AssociatedIds([]) == {} && Elements([]) == {}
  {
  }

  /** `[...new Set(ids)]`. */
  method WithoutRepeats(ids: seq<string>) returns (once: seq<string>)
    ensures Elements(once) == Elements(ids)
    ensures Distinct(once)
  {
    once := [];
    for i := 0 to |ids|
      invariant Elements(once) == Elements(ids[..i])
      invariant Distinct(once)
    {
      assert ids[..i + 1] == ids[..i] + [ids[i]];
      ElementsOneMore(ids[..i], ids[i]);
      if ids[i] !in once {
        ElementsOneMore(once, ids[i]);
        once := once + [ids[i]];
      }
    }
    assert ids[..|ids|] == ids;
  }

  /** The rows fetched for one level, grouped, are all the rows of each owner of that level. */
  lemma RowsOfOwner(store: Store, ids: set<string>, id: string)
    requires id in ids
    ensures Filter(OwnedBy(id), FindByServiceIds(store, ids)) == Filter(OwnedBy(id), store.dependencies)
  {
    FilterTwice(OwnerIn(ids), OwnedBy(id), store.dependencies);
  }

  method PairUp(store: Store, ids: set<string>, services: seq<ServiceRow>, dependencies: seq<DependencyRow>)
    returns (level: seq<ServiceData>)
    requires services == FindByIdsWithTeam(store, ids) && dependencies == FindByServiceIds(store, ids)
    ensures |level| == |services|
    ensures forall i :: 0 <= i < |level| ==>
      level[i] == ServiceData(services[i], Filter(OwnedBy(services[i].id), store.dependencies))
  {
    var depsByService := GroupByServiceId(dependencies);
    level := [];
    FilterMembers(HasIdIn(ids), store.services);
    for i := 0 to |services|
      invariant |level| == i
      invariant forall j :: 0 <= j < i ==>
        level[j] == ServiceData(services[j], Filter(OwnedBy(services[j].id), store.dependencies))
    {
      var id := services[i].id;
      assert services[i] in services;
      RowsOfOwner(store, ids, id);
      if id !in depsByService {
        FilterNone(OwnedBy(id), dependencies);
      }
      level := level + [ServiceData(services[i], if id in depsByService then depsByService[id] else [])];
    }
  }

  lemma {:induction false} FilteredIdsDistinct(keep: ServiceRow -> bool, services: seq<ServiceRow>)
    requires forall i, j :: 0 <= i < j < |services| ==> services[i].id != services[j].id
    ensures forall i, j :: 0 <= i < j < |Filter(keep, services)| ==>
      Filter(keep, services)[i].id != Filter(keep, services)[j].id
  {
    if services != [] {
      FilteredIdsDistinct(keep, services[1..]);
      FilterMembers(keep, services[1..]);
      forall s | s in Filter(keep, services[1..]) ensures s.id != services[0].id {
        assert s in services[1..];
      }
    }
  }

  lemma PairsGrow(
    store: Store, visited: set<string>, data: seq<ServiceData>, now: set<string>, services: seq<ServiceRow>,
    level: seq<ServiceData>)
    requires Consistent(store) && PairsExactly(store, visited, data) && now !! visited
    requires services == FindByIdsWithTeam(store, now) && |level| == |services|
    requires forall i :: 0 <= i < |level| ==>
      level[i] == ServiceData(services[i], Filter(OwnedBy(services[i].id), store.dependencies))
    ensures PairsExactly(store, visited + now, data + level)
  {
    hide Consistent;
    assert Consistent(store);
    FilterMembers(HasIdIn(now), store.services);
    DistinctRows(store, now);
    var all := data + level;
    forall p | p in level ensures p.service in services && p.deps == Filter(OwnedBy(p.service.id), store.dependencies) {
      var i :| 0 <= i < |level| && level[i] == p;
      assert services[i] in services;
    }
    forall i, j | 0 <= i < j < |all| ensures all[i].service.id != all[j].service.id {
      if i < |data| && j >= |data| {
        assert all[i] in data && all[j] in level;
      }
    }
    forall s | s in store.services && s.id in visited + now ensures exists p :: p in all && p.service == s {
      if s.id in visited {
        var p :| p in data && p.service == s;
        assert p in all;
      } else {
        assert s in services;
        var i :| 0 <= i < |services| && services[i] == s;
        assert level[i] in all;
      }
    }
  }

  lemma DistinctRows(store: Store, ids: set<string>)
    requires Consistent(store)
    ensures var services := FindByIdsWithTeam(store, ids);
            forall i, j :: 0 <= i < j < |services| ==> services[i].id != services[j].id
  {
    FilteredIdsDistinct(HasIdIn(ids), store.services);
  }

  /** Rows of two disjoint sets of owners are the rows of their union, each once. */
  lemma {:induction false} RowsOfUnion(deps: seq<DependencyRow>, a: set<string>, b: set<string>)
    requires a !! b
    ensures multiset(Filter(OwnerIn(a + b), deps))
      == multiset(Filter(OwnerIn(a), deps)) + multiset(Filter(OwnerIn(b), deps))
  {
    if deps != [] {
      RowsOfUnion(deps[1..], a, b);
    }
  }

  lemma LevelAdvances(
    store: Store, start: string, visited: set<string>, frontier: set<string>, now: set<string>, next: set<string>)
    requires Searching(AssociationArcs(store.dependencies), start, visited, frontier)
    requires now == frontier - visited && next == AssociatedIds(FindByServiceIds(store, now)) - (visited + now)
    ensures Searching(AssociationArcs(store.dependencies), start, visited + now, next)
  {
    var arcs := AssociationArcs(store.dependencies);
    FilterMembers(OwnerIn(now), store.dependencies);
    SearchAdvances(arcs, start, visited, frontier, now, next);
  }

  /**
   * The level-by-level search.  Visited is exactly what the start reaches through associations, every stored service
   * among them is listed once with exactly its own rows, and the collected rows are theirs, each once.
   */
  method TraverseUpstream(store: Store, serviceId: string)
    returns (visited: set<string>, allDependencies: seq<DependencyRow>, serviceData: seq<ServiceData>)
    requires Consistent(store)
    ensures IsReachableSet(AssociationArcs(store.dependencies), serviceId, visited)
    ensures PairsExactly(store, visited, serviceData)
    ensures multiset(allDependencies) == multiset(FindByServiceIds(store, visited))
  {
    hide Consistent, PairsExactly, IsReachableSet, Searching;
    ghost var arcs := AssociationArcs(store.dependencies);
    ghost var universe := {serviceId} + AssociatedIds(store.dependencies);
    visited, allDependencies, serviceData := {}, [], [];
    var frontier := [serviceId];
    TraversalStarts(store, serviceId);
    while |frontier| > 0
      invariant visited <= universe && Elements(frontier) <= universe
      invariant Searching(arcs, serviceId, visited, Elements(frontier))
      invariant PairsExactly(store, visited, serviceData)
      invariant multiset(allDependencies) == multiset(FindByServiceIds(store, visited))
      decreases universe - visited, |frontier|
    {
      ghost var seen, waiting := visited, Elements(frontier);
      var unvisited := Filter(NotIn(visited), frontier);
      FilterMembers(NotIn(visited), frontier);
      var now := set id | id in unvisited;
      assert now == waiting - seen;
      if |unvisited| == 0 {
        SearchStops(arcs, serviceId, visited, waiting);
        return;
      }
      assert unvisited[0] in now;
      visited := visited + now;
      var services := FindByIdsWithTeam(store, now);
      var dependencies := FindByServiceIds(store, now);
      allDependencies := allDependencies + dependencies;
      RowsOfUnion(store.dependencies, seen, now);
      var level := PairUp(store, now, services, dependencies);
      PairsGrow(store, seen, serviceData, now, services, level);
      serviceData := serviceData + level;
      frontier := NextFrontier(dependencies, visited);
      LevelAdvances(store, serviceId, seen, waiting, now, Elements(frontier));
      FilterMembers(OwnerIn(now), store.dependencies);
      Shrinks(universe, seen, now, unvisited[0]);
    }
    assert Elements(frontier) == {};
    SearchStops(arcs, serviceId, visited, {});
  }

  function NotIn(ids: set<string>): string -> bool {
    (id: string) => id !in ids
  }

  lemma Shrinks(universe: set<string>, seen: set<string>, now: set<string>, x: string)
    requires x in now && x in universe && x !in seen
    ensures universe - (seen + now) < universe - seen
  {
    assert x in universe - seen;
  }

  lemma TraversalStarts(store: Store, serviceId: string)
    ensures Searching(AssociationArcs(store.dependencies), serviceId, {}, Elements([serviceId]))
    ensures PairsExactly(store, {}, []) && FindByServiceIds(store, {}) == []
  {
    SearchStarts(AssociationArcs(store.dependencies), serviceId);
    assert Elements([serviceId]) == {serviceId};
    FilterNone(OwnerIn({}), store.dependencies);
  }

  lemma SearchStops(arcs: Arcs, start: string, visited: set<string>, waiting: set<string>)
    requires Searching(arcs, start, visited, waiting) && waiting <= visited
    ensures IsReachableSet(arcs, start, visited)
  {
    SearchAdvances(arcs, start, visited, waiting, {}, {});
    assert visited + {} == visited;
    SearchEnds(arcs, start, visited);
  }

  // ---------------------------------------------------------------------------
  // Graph construction
  // ---------------------------------------------------------------------------

  function UnassociatedNames(naming: Naming, deps: seq<DependencyRow>): set<string> {
    set d | d in deps && d.targetServiceId.None? :: NormalizedName(naming, d)
  }

  function IdsOfNames(naming: Naming, names: set<string>): set<string> {
    set n | n in names :: ExternalId(naming, n)
  }

  function ExternalIds(naming: Naming, deps: seq<DependencyRow>): set<string> {
    IdsOfNames(naming, UnassociatedNames(naming, deps))
  }

  lemma IdsOneMore(naming: Naming, names: set<string>, n: string)
    ensures IdsOfNames(naming, names + {n}) == IdsOfNames(naming, names) + {ExternalId(naming, n)}
    ensures IdsOfNames(naming, {}) == {}
  {
    hide ExternalId;
    assert n in names + {n};
    forall x | x in IdsOfNames(naming, names) ensures x in IdsOfNames(naming, names + {n}) {
      var m :| m in names && ExternalId(naming, m) == x;
      assert m in names + {n};
    }
  }

  /** The name map is left out when nothing is unassociated. */
  function ExternalMap(naming: Naming, deps: seq<DependencyRow>): Option<map<string, string>> {
    var names := UnassociatedNames(naming, deps);
    if names == {} then None else Some(IdMap(naming, names))
  }

  function IdMap(naming: Naming, names: set<string>): map<string, string> {
    map n | n in names :: ExternalId(naming, n)
  }

  /** The groups are keyed by exactly the unassociated names. */
  lemma GroupKeys(naming: Naming, deps: seq<DependencyRow>, g: ExternalGroups)
    requires GroupsExactly(naming, deps, g)
    ensures forall n :: n in g.groups <==> n in g.order
    ensures g.groups.Keys == UnassociatedNames(naming, deps) == Elements(g.order)
    ensures forall n :: n in g.groups ==> g.groups[n].id == ExternalId(naming, n)
    ensures (map n | n in g.groups :: g.groups[n].id) == IdMap(naming, UnassociatedNames(naming, deps))
    ensures g.order == [] <==> UnassociatedNames(naming, deps) == {}
  {
    hide GroupOf, NormalizedName, ExternalId;
    forall n | n in g.groups ensures n in UnassociatedNames(naming, deps) && g.groups[n].id == ExternalId(naming, n) {
      var d := GroupHasRow(naming, deps, g, n);
    }
    forall d | d in deps && d.targetServiceId.None? ensures NormalizedName(naming, d) in g.groups {
      UnassociatedHasGroup(naming, deps, g, d);
    }
    assert g.order != [] ==> g.order[0] in UnassociatedNames(naming, deps);
  }

  method AddGroupNodes(builder: DependencyGraphBuilder, groups: ExternalGroups)
    requires builder.Valid()
    requires forall n :: n in groups.order ==>
      n in groups.groups && groups.groups[n].id == ExternalId(builder.naming, n)
    modifies builder`nodes, builder`nodeIds
    ensures builder.Valid()
    ensures NodeIdsOf(builder.nodes)
      == NodeIdsOf(old(builder.nodes)) + IdsOfNames(builder.naming, Elements(groups.order))
  {
    hide ExternalId, NodeIdsOf, IdsOfNames, Elements;
    IdsOneMore(builder.naming, {}, "");
    EmptyIds();
    for i := 0 to |groups.order|
      invariant builder.Valid()
      invariant NodeIdsOf(builder.nodes) ==
                NodeIdsOf(old(builder.nodes)) + IdsOfNames(builder.naming, Elements(groups.order[..i]))
    {
      assert groups.order[..i + 1] == groups.order[..i] + [groups.order[i]];
      ElementsOneMore(groups.order[..i], groups.order[i]);
      IdsOneMore(builder.naming, Elements(groups.order[..i]), groups.order[i]);
      builder.AddNode(groups.groups[groups.order[i]].id);
    }
    assert groups.order[..|groups.order|] == groups.order;
  }

  /** One external node for each unassociated name, and the map that resolves the name to it. */
  method AddExternalNodes(builder: DependencyGraphBuilder, dependencies: seq<DependencyRow>)
    requires builder.Valid() && builder.externalNodeMap == None
    modifies builder`nodes, builder`nodeIds, builder`externalNodeMap
    ensures builder.Valid()
    ensures NodeIdsOf(builder.nodes) == NodeIdsOf(old(builder.nodes)) + ExternalIds(builder.naming, dependencies)
    ensures builder.externalNodeMap == ExternalMap(builder.naming, dependencies)
  {
    hide UnassociatedNames, ExternalId, NodeIdsOf, IdsOfNames, IdMap, GroupOf, Elements, Distinct;
    hide DependencyGraphBuilder.Valid, GroupsExactly, Lookup, NormalizedName;
    var groups := GroupUnassociatedDeps(builder.naming, dependencies);
    GroupKeys(builder.naming, dependencies, groups);
    if groups.order == [] {
      IdsOneMore(builder.naming, {}, "");
      assert ExternalIds(builder.naming, dependencies) == {};
      assert NodeIdsOf(builder.nodes) + {} == NodeIdsOf(builder.nodes);
      return;
    }
    AddGroupNodes(builder, groups);
    var ids := BuildNameToIdMap(groups);
    builder.SetExternalNodeMap(ids);
  }

  method FindExternalServiceIds(
    dependencies: seq<DependencyRow>, builder: DependencyGraphBuilder) returns (ids: seq<string>)
    requires builder.Valid()
    ensures Elements(ids) == AssociatedIds(dependencies) - NodeIdsOf(builder.nodes)
    ensures Distinct(ids)
  {
    hide AssociatedIds, Elements, NodeIdsOf, DependencyGraphBuilder.Valid;
    ids := [];
    var seen := {};
    EmptyIds();
    for i := 0 to |dependencies|
      invariant seen == Elements(ids) == AssociatedIds(dependencies[..i]) - NodeIdsOf(builder.nodes)
      invariant Distinct(ids)
    {
      var target := dependencies[i].targetServiceId;
      assert dependencies[..i + 1] == dependencies[..i] + [dependencies[i]];
      AssociatedOneMore(dependencies[..i], dependencies[i]);
      if Truthy(target) {
        var has := builder.HasNode(target.value);
        if !has && target.value !in seen {
          ElementsOneMore(ids, target.value);
          NotAmong(ids, target.value);
          ids := ids + [target.value];
          seen := seen + {target.value};
        }
      }
    }
    assert dependencies[..|dependencies|] == dependencies;
  }

  lemma NotAmong(ids: seq<string>, x: string)
    ensures x in Elements(ids) <==> x in ids
  {
  }

  method AddServices(builder: DependencyGraphBuilder, services: seq<ServiceRow>)
    requires builder.Valid()
    modifies builder`nodes, builder`nodeIds
    ensures builder.Valid()
    ensures NodeIdsOf(builder.nodes) == NodeIdsOf(old(builder.nodes)) + ServiceIds(services)
  {
    hide NodeIdsOf;
    for i := 0 to |services|
      invariant builder.Valid()
      invariant NodeIdsOf(builder.nodes) == NodeIdsOf(old(builder.nodes)) + ServiceIds(services[..i])
    {
      assert services[..i + 1] == services[..i] + [services[i]];
      builder.AddNode(services[i].id);
    }
    assert services[..|services|] == services;
  }

  /** A graph over the given services and rows, external nodes included. */
  ghost predicate IsGraphOf(naming: Naming, services: set<string>, deps: seq<DependencyRow>, g: GraphResponse) {
    && NodesDistinct(g.nodes)
    && NodeIdsOf(g.nodes) == services + ExternalIds(naming, deps)
    && Draws(naming, ExternalMap(naming, deps), NodeIdsOf(g.nodes), deps, g.edges)
  }

  /** The services drawn: those asked for, and the stored ones their rows are associated with. */
  function DrawnServices(store: Store, services: seq<ServiceRow>, deps: seq<DependencyRow>): set<string> {
    ServiceIds(services) + AssociatedIds(deps) * ServiceIds(store.services)
  }

  lemma StoredAmong(store: Store, ids: set<string>)
    ensures ServiceIds(FindByIdsWithTeam(store, ids)) == ids * ServiceIds(store.services)
  {
    FilterMembers(HasIdIn(ids), store.services);
  }

  lemma WithoutPresent(present: set<string>, ids: set<string>, stored: set<string>)
    ensures present + (ids - present) * stored == present + ids * stored
  {
  }

  method BuildGraph(naming: Naming, store: Store, services: seq<ServiceRow>, dependencies: seq<DependencyRow>)
    returns (g: GraphResponse)
    ensures IsGraphOf(naming, DrawnServices(store, services, dependencies), dependencies, g)
  {
    hide ServiceIds, AssociatedIds, Elements, ExternalIds, ExternalMap, Draws, FindByIdsWithTeam, Distinct;
    var builder := new DependencyGraphBuilder(naming);
    assert NodeIdsOf([]) == {};
    AddServices(builder, services);
    var externalServiceIds := FindExternalServiceIds(dependencies, builder);
    if |externalServiceIds| > 0 {
      var found := FindByIdsWithTeam(store, Elements(externalServiceIds));
      StoredAmong(store, Elements(externalServiceIds));
      AddServices(builder, found);
    } else {
      EmptyIds();
    }
    WithoutPresent(ServiceIds(services), AssociatedIds(dependencies), ServiceIds(store.services));
    AddExternalNodes(builder, dependencies);
    DrawsNothing(naming, builder.externalNodeMap, NodeIdsOf(builder.nodes));
    AddEdges(builder, [], dependencies);
    assert [] + dependencies == dependencies;
    g := builder.Build();
  }

  lemma DrawsNothing(naming: Naming, externals: Option<map<string, string>>, nodeIds: set<string>)
    ensures Draws(naming, externals, nodeIds, [], [])
  {
  }

  // ---------------------------------------------------------------------------
  // What a graph promises
  // ---------------------------------------------------------------------------

  /** No id twice, both ends of every edge among the nodes, and no two edges with one source, target and type. */
  ghost predicate WellFormed(g: GraphResponse) {
    && NodesDistinct(g.nodes) && EdgesDistinct(g.edges)
    && (forall e :: e in g.edges ==> e.source in NodeIdsOf(g.nodes) && e.target in NodeIdsOf(g.nodes))
    && (forall i, j :: 0 <= i < j < |g.edges| ==>
          (g.edges[i].source, g.edges[i].target, g.edges[i].depType)
          != (g.edges[j].source, g.edges[j].target, g.edges[j].depType))
  }

  ghost predicate OwnersAmong(services: set<string>, deps: seq<DependencyRow>) {
    forall d :: d in deps ==> d.serviceId in services
  }

  /** The builder checks only an edge's source; its target is a node when callers fetch rows of drawn services. */
  lemma GraphWellFormed(naming: Naming, services: set<string>, deps: seq<DependencyRow>, g: GraphResponse)
    requires IsGraphOf(naming, services, deps, g) && OwnersAmong(services, deps)
    ensures WellFormed(g)
  {
    hide ExternalIds, ExternalMap, ResolveSource, EdgeId, NodeIdsOf, NodesDistinct, Draws;
    OwnersDrawn(naming, services, deps, g);
  }

  /** Whatever the rows, a graph is well formed when the owner of every row that can be drawn is a node. */
  lemma OwnersDrawn(naming: Naming, services: set<string>, deps: seq<DependencyRow>, g: GraphResponse)
    requires IsGraphOf(naming, services, deps, g)
    requires forall d :: d in deps && Drawable(naming, ExternalMap(naming, deps), NodeIdsOf(g.nodes), d) ==>
      d.serviceId in NodeIdsOf(g.nodes)
    ensures WellFormed(g)
  {
    hide ExternalIds, ExternalMap, ResolveSource, EdgeId, NodeIdsOf, NodesDistinct, EdgeIdsOf;
    var externals := ExternalMap(naming, deps);
    forall e | e in g.edges
      ensures e.source in NodeIdsOf(g.nodes) && e.target in NodeIdsOf(g.nodes)
      ensures e.id == EdgeId(e.source, e.target, e.depType) {
      var d :| d in deps && DrawnAs(naming, externals, NodeIdsOf(g.nodes), d, e);
    }
    forall i, j | 0 <= i < j < |g.edges|
      ensures (g.edges[i].source, g.edges[i].target, g.edges[i].depType)
           != (g.edges[j].source, g.edges[j].target, g.edges[j].depType) {
      assert g.edges[i] in g.edges && g.edges[j] in g.edges;
      assert g.edges[i].id != g.edges[j].id;
    }
  }

  /** An unassociated row resolves to the external node of its own normalised name. */
  lemma UnassociatedResolves(
    naming: Naming, services: set<string>, deps: seq<DependencyRow>, g: GraphResponse, d: DependencyRow)
    requires IsGraphOf(naming, services, deps, g) && d in deps && d.targetServiceId.None?
    ensures ResolveSource(naming, ExternalMap(naming, deps), d) == Some(ExternalId(naming, NormalizedName(naming, d)))
    ensures ExternalId(naming, NormalizedName(naming, d)) in NodeIdsOf(g.nodes)
  {
    hide NormalizedName, NodesDistinct, Draws, NodeIdsOf, ExternalId;
    assert NormalizedName(naming, d) in UnassociatedNames(naming, deps);
  }

  /** An id as services have it: not shorter than the external prefix and not beginning with it. */
  predicate IsServiceId(id: string) {
    |id| >= |EXTERNAL_PREFIX| && !(EXTERNAL_PREFIX <= id)
  }

  /** Hashes are cut to one length. */
  ghost predicate HashesCut(naming: Naming) {
    forall n, m :: |naming.hash(n)| == |naming.hash(m)|
  }

  /**
   * Ids as the code makes them: services have ids of one length, at least that of the external prefix, which no
   * service's id begins with, and hashes are cut to one length.  Types may be any text.
   */
  ghost predicate GeneratedIds(naming: Naming, deps: seq<DependencyRow>) {
    && (forall d, e :: d in deps && e in deps ==> |d.serviceId| == |e.serviceId|)
    && (forall d, e :: d in deps && e in deps && Truthy(d.targetServiceId) && Truthy(e.targetServiceId) ==>
          |d.targetServiceId.value| == |e.targetServiceId.value|)
    && (forall d :: d in deps && Truthy(d.targetServiceId) ==> IsServiceId(d.targetServiceId.value))
    && HashesCut(naming)
  }

  /** A row's source is its associated service, or else an external node. */
  lemma SourceKinds(naming: Naming, deps: seq<DependencyRow>, d: DependencyRow) returns (n: string)
    requires d in deps && Truthy(ResolveSource(naming, ExternalMap(naming, deps), d))
    ensures var source := ResolveSource(naming, ExternalMap(naming, deps), d).value;
            if Truthy(d.targetServiceId) then source == d.targetServiceId.value else source == ExternalId(naming, n)
  {
    n := NormalizedName(naming, d);
  }

  /** The ids of edges from a service and from an external node differ in the first nine characters. */
  lemma ServiceIsNotExternal(naming: Naming, s: string, n: string, t: string, y: string, t': string, y': string)
    requires IsServiceId(s)
    ensures EdgeId(s, t, y) != EdgeId(ExternalId(naming, n), t', y')
  {
    var k := |EXTERNAL_PREFIX|;
    assert EdgeId(s, t, y)[..k] == s[..k];
    assert EdgeId(ExternalId(naming, n), t', y')[..k] == EXTERNAL_PREFIX;
  }

  /** Rows of generated ids whose edges have one id have one source, owner and type. */
  lemma GeneratedIdsTellApart(
    naming: Naming, deps: seq<DependencyRow>, d: DependencyRow, e: DependencyRow, s: string, s': string)
    requires GeneratedIds(naming, deps) && d in deps && e in deps && s != "" && s' != ""
    requires ResolveSource(naming, ExternalMap(naming, deps), d) == Some(s)
    requires ResolveSource(naming, ExternalMap(naming, deps), e) == Some(s')
    requires EdgeId(s, d.serviceId, d.depType) == EdgeId(s', e.serviceId, e.depType)
    ensures s == s' && d.serviceId == e.serviceId && d.depType == e.depType
  {
    hide EdgeId, ResolveSource, ExternalMap;
    var n := SourceKinds(naming, deps, d);
    var m := SourceKinds(naming, deps, e);
    if Truthy(d.targetServiceId) && !Truthy(e.targetServiceId) {
      ServiceIsNotExternal(naming, s, m, d.serviceId, d.depType, e.serviceId, e.depType);
      assert false;
    } else if !Truthy(d.targetServiceId) && Truthy(e.targetServiceId) {
      ServiceIsNotExternal(naming, s', n, e.serviceId, e.depType, d.serviceId, d.depType);
      assert false;
    } else {
      assert |s| == |s'| by {
        if !Truthy(d.targetServiceId) {
          assert |naming.hash(n)| == |naming.hash(m)|;
        }
      }
      EdgeIdsTellApart(s, d.serviceId, d.depType, s', e.serviceId, e.depType);
    }
  }

  /** The provider's end of a row: its associated service, or the external node of its normalised name. */
  function Provider(naming: Naming, d: DependencyRow): string {
    if d.targetServiceId.Some? then d.targetServiceId.value else ExternalId(naming, NormalizedName(naming, d))
  }

  /** No row is lost: the graph has an edge with its provider, owner and type.  Only stored providers are drawn. */
  lemma EveryRowDrawn(
    naming: Naming, services: set<string>, deps: seq<DependencyRow>, g: GraphResponse, d: DependencyRow)
    requires IsGraphOf(naming, services, deps, g) && GeneratedIds(naming, deps) && d in deps
    requires d.targetServiceId.None? || (Truthy(d.targetServiceId) && d.targetServiceId.value in services)
    ensures exists e :: e in g.edges && e.source == Provider(naming, d) && e.target == d.serviceId &&
                        e.depType == d.depType
  {
    hide ExternalIds, ExternalMap, ExternalId, NormalizedName, EdgeId, NodesDistinct, NodeIdsOf;
    var externals := ExternalMap(naming, deps);
    if d.targetServiceId.None? {
      UnassociatedResolves(naming, services, deps, g, d);
    }
    assert ResolveSource(naming, externals, d) == Some(Provider(naming, d));
    assert Drawable(naming, externals, NodeIdsOf(g.nodes), d);
    hide ResolveSource, Provider;
    var e :| e in g.edges && e.id == EdgeId(Provider(naming, d), d.serviceId, d.depType);
    var x :| x in deps && DrawnAs(naming, externals, NodeIdsOf(g.nodes), x, e);
    GeneratedIdsTellApart(naming, deps, x, d, e.source, Provider(naming, d));
  }

  /** With generated ids a graph is well formed exactly when the owner of every row that can be drawn is a node. */
  lemma WellFormedExactlyWhenOwnersDrawn(
    naming: Naming, services: set<string>, deps: seq<DependencyRow>, g: GraphResponse)
    requires IsGraphOf(naming, services, deps, g) && GeneratedIds(naming, deps)
    ensures WellFormed(g) <==>
      forall d :: d in deps && Drawable(naming, ExternalMap(naming, deps), NodeIdsOf(g.nodes), d) ==>
        d.serviceId in NodeIdsOf(g.nodes)
  {
    hide ExternalIds, ExternalMap, ResolveSource, EdgeId, NodeIdsOf, NodesDistinct, GeneratedIds;
    var externals := ExternalMap(naming, deps);
    if forall d :: d in deps && Drawable(naming, externals, NodeIdsOf(g.nodes), d) ==>
      d.serviceId in NodeIdsOf(g.nodes) {
      OwnersDrawn(naming, services, deps, g);
    } else {
      var d :| d in deps && Drawable(naming, externals, NodeIdsOf(g.nodes), d) && d.serviceId !in NodeIdsOf(g.nodes);
      var source := ResolveSource(naming, externals, d).value;
      var e :| e in g.edges && e.id == EdgeId(source, d.serviceId, d.depType);
      var x :| x in deps && DrawnAs(naming, externals, NodeIdsOf(g.nodes), x, e);
      GeneratedIdsTellApart(naming, deps, x, d, e.source, source);
    }
  }

  // ---------------------------------------------------------------------------
  // The three scopes
  // ---------------------------------------------------------------------------

  /** `findActiveWithTeam`: without the services that stand for systems outside. */
  function ActiveServices(store: Store): seq<ServiceRow> {
    Filter((s: ServiceRow) => s.isActive && !s.isExternal, store.services)
  }

  /** The rows of every active service, of those that stand for systems outside, too. */
  function ActiveRows(store: Store): seq<DependencyRow> {
    FindByServiceIds(store, ServiceIds(Filter((s: ServiceRow) => s.isActive, store.services)))
  }

  function TeamServices(store: Store, teamId: string): seq<ServiceRow> {
    Filter((s: ServiceRow) => s.teamId == teamId && s.isActive, store.services)
  }

  function RowsOf(store: Store, services: seq<ServiceRow>): seq<DependencyRow> {
    FindByServiceIds(store, ServiceIds(services))
  }

  lemma OwnersOfRows(store: Store, services: seq<ServiceRow>)
    ensures OwnersAmong(DrawnServices(store, services, RowsOf(store, services)), RowsOf(store, services))
  {
    hide ServiceIds, AssociatedIds;
    FilterMembers(OwnerIn(ServiceIds(services)), store.dependencies);
  }

  ghost predicate IsFullGraph(naming: Naming, store: Store, g: GraphResponse) {
    IsGraphOf(naming, DrawnServices(store, ActiveServices(store), ActiveRows(store)), ActiveRows(store), g)
  }

  method GetFullGraph(naming: Naming, store: Store) returns (g: GraphResponse)
    ensures IsFullGraph(naming, store, g)
  {
    hide IsGraphOf, DrawnServices, ActiveRows;
    var services := ActiveServices(store);
    var dependencies := ActiveRows(store);
    g := BuildGraph(naming, store, services, dependencies);
  }

  /** Foreign keys, generated ids and hashes cut to one length. */
  ghost predicate GeneratedStore(naming: Naming, store: Store) {
    && Consistent(store)
    && (forall d :: d in store.dependencies && d.targetServiceId.Some? ==>
          d.targetServiceId.value in ServiceIds(store.services))
    && (forall s, t :: s in store.services && t in store.services ==> |s.id| == |t.id|)
    && (forall s :: s in store.services ==> IsServiceId(s.id))
    && HashesCut(naming)
  }

  lemma StoredIdsGenerated(naming: Naming, store: Store, deps: seq<DependencyRow>)
    requires GeneratedStore(naming, store) && forall d :: d in deps ==> d in store.dependencies
    ensures GeneratedIds(naming, deps)
  {
    forall d, e | d in deps && e in deps
      ensures |d.serviceId| == |e.serviceId|
      ensures d.targetServiceId.Some? && e.targetServiceId.Some? ==>
        |d.targetServiceId.value| == |e.targetServiceId.value| {
      StoredIds(naming, store, d);
      StoredIds(naming, store, e);
    }
    forall d | d in deps && d.targetServiceId.Some?
      ensures IsServiceId(d.targetServiceId.value) {
      StoredIds(naming, store, d);
    }
  }

  /** A stored row's owner and associated service are stored. */
  lemma StoredIds(naming: Naming, store: Store, d: DependencyRow)
    requires GeneratedStore(naming, store) && d in store.dependencies
    ensures exists s :: s in store.services && s.id == d.serviceId
    ensures d.targetServiceId.Some? ==> exists s :: s in store.services && s.id == d.targetServiceId.value
  {
  }

  /** Some row of an active service is associated with the service. */
  ghost predicate NamedByActive(store: Store, id: string) {
    exists d, s :: d in store.dependencies && s in store.services && s.isActive && d.serviceId == s.id
                   && d.targetServiceId == Some(id)
  }

  /** Every active external service that owns a row is named by a row of an active service. */
  ghost predicate ExternalOwnersNamed(store: Store) {
    forall s, d :: s in store.services && s.isActive && s.isExternal && d in store.dependencies && d.serviceId == s.id
      ==> NamedByActive(store, s.id)
  }

  lemma ActiveRowsAre(store: Store)
    ensures forall d :: d in ActiveRows(store) <==>
      d in store.dependencies && exists s :: s in store.services && s.isActive && s.id == d.serviceId
  {
    var active := Filter((s: ServiceRow) => s.isActive, store.services);
    FilterMembers((s: ServiceRow) => s.isActive, store.services);
    FilterMembers(OwnerIn(ServiceIds(active)), store.dependencies);
  }

  /** An active owner is a service of the full graph exactly when it is not external or some active row names it. */
  lemma OwnerIsDrawn(store: Store, s: ServiceRow)
    requires Consistent(store) && s in store.services && s.isActive && s.id != ""
    ensures s.id in DrawnServices(store, ActiveServices(store), ActiveRows(store)) <==>
      !s.isExternal || NamedByActive(store, s.id)
  {
    hide ActiveRows;
    ActiveRowsAre(store);
    FilterMembers((s: ServiceRow) => s.isActive && !s.isExternal, store.services);
    if s.id in AssociatedIds(ActiveRows(store)) {
      var d :| d in ActiveRows(store) && d.targetServiceId == Some(s.id);
    }
    if NamedByActive(store, s.id) {
      var d, t :| d in store.dependencies && t in store.services && t.isActive && d.serviceId == t.id
                  && d.targetServiceId == Some(s.id);
      assert d in ActiveRows(store);
    }
  }

  lemma StoredIsNotExternalNode(naming: Naming, store: Store, deps: seq<DependencyRow>, s: ServiceRow)
    requires GeneratedStore(naming, store) && s in store.services
    ensures s.id !in ExternalIds(naming, deps) && s.id != ""
  {
    forall n ensures s.id != ExternalId(naming, n) {
      assert EXTERNAL_PREFIX <= ExternalId(naming, n);
    }
  }

  /** A row of an active service can be drawn: its associated service is stored, or it has an external node. */
  lemma ActiveRowDrawable(naming: Naming, store: Store, g: GraphResponse, d: DependencyRow)
    requires GeneratedStore(naming, store) && IsFullGraph(naming, store, g) && d in ActiveRows(store)
    ensures Drawable(naming, ExternalMap(naming, ActiveRows(store)), NodeIdsOf(g.nodes), d)
  {
    hide Draws, ExternalMap, ExternalIds, NodesDistinct, NodeIdsOf, ActiveRows, Drawable;
    ActiveRowsAre(store);
    StoredIds(naming, store, d);
    if d.targetServiceId.None? {
      var rows := ActiveRows(store);
      UnassociatedResolves(naming, DrawnServices(store, ActiveServices(store), rows), rows, g, d);
    } else {
      var s :| s in store.services && s.id == d.targetServiceId.value;
      StoredIsNotExternalNode(naming, store, [], s);
      assert s.id in AssociatedIds(ActiveRows(store));
    }
    DrawableMeans(naming, ExternalMap(naming, ActiveRows(store)), NodeIdsOf(g.nodes), d);
  }

  lemma DrawableMeans(
    naming: Naming, externals: Option<map<string, string>>, nodeIds: set<string>, d: DependencyRow)
    ensures Drawable(naming, externals, nodeIds, d) <==>
      Truthy(ResolveSource(naming, externals, d)) && ResolveSource(naming, externals, d).value in nodeIds
  {
  }

  /**
   * Services are fetched without the external ones, rows with theirs.  So the full graph is well formed exactly when
   * every active external service that owns a row is named by a row of an active service.
   */
  lemma FullGraphWellFormedExactly(naming: Naming, store: Store, g: GraphResponse)
    requires GeneratedStore(naming, store) && IsFullGraph(naming, store, g)
    ensures WellFormed(g) <==> ExternalOwnersNamed(store)
  {
    hide GeneratedStore, WellFormed, Draws, ExternalMap, ExternalIds, NodesDistinct, NodeIdsOf, Drawable, GeneratedIds;
    hide ActiveRows, ActiveServices, DrawnServices, NamedByActive;
    var rows := ActiveRows(store);
    assert Consistent(store) by { StoreConsistent(naming, store); }
    ActiveRowsAre(store);
    StoredIdsGenerated(naming, store, rows);
    WellFormedExactlyWhenOwnersDrawn(naming, DrawnServices(store, ActiveServices(store), rows), rows, g);
    forall s, d | s in store.services && s.isActive && d in store.dependencies && d.serviceId == s.id
      ensures d in rows && Drawable(naming, ExternalMap(naming, rows), NodeIdsOf(g.nodes), d)
      ensures s.id in NodeIdsOf(g.nodes) <==> !s.isExternal || NamedByActive(store, s.id) {
      ActiveRowDrawable(naming, store, g, d);
      StoredIsNotExternalNode(naming, store, rows, s);
      OwnerIsDrawn(store, s);
    }
  }

  lemma StoreConsistent(naming: Naming, store: Store)
    requires GeneratedStore(naming, store)
    ensures Consistent(store)
  {
  }

  /** A store that reaches this: the one row an OTLP push left under the id of an active external service. */
  function PushedUnderExternal(id: string): Store {
    Store([ServiceRow(id, "t1", true, true)], [DependencyRow("d1", id, "redis", None, "cache", None)], {"t1"})
  }

  /** Its full graph has an edge to an id that is no node. */
  lemma FullGraphOfExternalOwner(naming: Naming, id: string, g: GraphResponse)
    requires IsServiceId(id) && HashesCut(naming)
    requires IsFullGraph(naming, PushedUnderExternal(id), g)
    ensures Consistent(PushedUnderExternal(id)) && !WellFormed(g)
  {
    hide IsFullGraph, WellFormed, GeneratedStore, ExternalOwnersNamed;
    PushedIsGenerated(naming, id);
    FullGraphWellFormedExactly(naming, PushedUnderExternal(id), g);
    StoreConsistent(naming, PushedUnderExternal(id));
  }

  lemma PushedIsGenerated(naming: Naming, id: string)
    requires IsServiceId(id) && HashesCut(naming)
    ensures GeneratedStore(naming, PushedUnderExternal(id)) && !ExternalOwnersNamed(PushedUnderExternal(id))
  {
    var store := PushedUnderExternal(id);
    assert store.services[0] in store.services && store.dependencies[0] in store.dependencies;
  }

  /** Past its two guards the team's graph is built as the full one is. */
  method GetTeamGraph(naming: Naming, store: Store, teamId: string) returns (g: GraphResponse)
    ensures var services, rows := TeamServices(store, teamId), RowsOf(store, TeamServices(store, teamId));
            if teamId !in store.teams || services == [] then g == GraphResponse([], [])
            else IsGraphOf(naming, DrawnServices(store, services, rows), rows, g)
    ensures WellFormed(g)
  {
    hide IsGraphOf, DrawnServices, RowsOf, TeamServices;
    if teamId !in store.teams {
      return GraphResponse([], []);
    }
    var services := TeamServices(store, teamId);
    if |services| == 0 {
      return GraphResponse([], []);
    }
    var dependencies := RowsOf(store, services);
    g := BuildGraph(naming, store, services, dependencies);
    OwnersOfRows(store, services);
    GraphWellFormed(naming, DrawnServices(store, services, dependencies), dependencies, g);
  }

  ghost predicate SameRows(a: seq<DependencyRow>, b: seq<DependencyRow>) {
    forall d :: d in a <==> d in b
  }

  /** Which rows were offered matters, not how often or in what order. */
  lemma GraphOfSameRows(
    naming: Naming, services: set<string>, drawn: seq<DependencyRow>, deps: seq<DependencyRow>, g: GraphResponse)
    requires SameRows(drawn, deps)
    ensures Draws(naming, ExternalMap(naming, deps), NodeIdsOf(g.nodes), drawn, g.edges)
        ==> Draws(naming, ExternalMap(naming, deps), NodeIdsOf(g.nodes), deps, g.edges)
    ensures UnassociatedNames(naming, drawn) == UnassociatedNames(naming, deps)
  {
    hide NormalizedName, ExternalMap, DrawnAs, Drawable, EdgeIdsOf, EdgeId, ResolveSource;
  }

  /** Every visited service's rows are in its pair, and rows have stored owners. */
  lemma PairedRows(store: Store, visited: set<string>, data: seq<ServiceData>, drawn: seq<DependencyRow>)
    requires Consistent(store) && PairsExactly(store, visited, data)
    requires forall d :: d in drawn <==> exists p :: p in data && d in p.deps
    ensures SameRows(drawn, FindByServiceIds(store, visited))
    ensures OwnersAmong(visited * ServiceIds(store.services), FindByServiceIds(store, visited))
  {
    FilterMembers(OwnerIn(visited), store.dependencies);
    forall p | p in data ensures forall d :: d in p.deps <==> d in store.dependencies && d.serviceId == p.service.id {
      FilterMembers(OwnedBy(p.service.id), store.dependencies);
    }
    forall d | d in FindByServiceIds(store, visited) ensures d in drawn {
      var s :| s in store.services && s.id == d.serviceId;
      var p :| p in data && p.service == s;
    }
  }

  function PairIds(data: seq<ServiceData>): set<string> {
    set p | p in data :: p.service.id
  }

  lemma PairedServices(store: Store, visited: set<string>, data: seq<ServiceData>)
    requires PairsExactly(store, visited, data)
    ensures PairIds(data) == visited * ServiceIds(store.services)
  {
    forall x | x in visited * ServiceIds(store.services) ensures x in PairIds(data) {
      var s :| s in store.services && s.id == x;
      var p :| p in data && p.service == s;
    }
  }

  lemma PairIdsOneMore(data: seq<ServiceData>, p: ServiceData)
    ensures PairIds(data + [p]) == PairIds(data) + {p.service.id}
  {
    assert forall q :: q in data + [p] <==> q in data || q == p;
    forall x | x in PairIds(data) ensures x in PairIds(data + [p]) {
      var q :| q in data && q.service.id == x;
      assert q in data + [p];
    }
  }

  lemma EmptyPairIds()
    ensures PairIds([]) == {}
  {
  }

  method AddPairedServices(builder: DependencyGraphBuilder, data: seq<ServiceData>)
    requires builder.Valid()
    modifies builder`nodes, builder`nodeIds
    ensures builder.Valid()
    ensures NodeIdsOf(builder.nodes) == NodeIdsOf(old(builder.nodes)) + PairIds(data)
  {
    hide NodeIdsOf, PairIds;
    EmptyPairIds();
    for i := 0 to |data|
      invariant builder.Valid()
      invariant NodeIdsOf(builder.nodes) == NodeIdsOf(old(builder.nodes)) + PairIds(data[..i])
    {
      assert data[..i + 1] == data[..i] + [data[i]];
      PairIdsOneMore(data[..i], data[i]);
      builder.AddNode(data[i].service.id);
    }
    assert data[..|data|] == data;
  }

  /** Offering the rows of every pair; `drawn` lists them. */
  method AddPairedEdges(
    builder: DependencyGraphBuilder, data: seq<ServiceData>) returns (ghost drawn: seq<DependencyRow>)
    requires builder.Valid() && builder.edges == []
    modifies builder`edges, builder`edgeIds
    ensures builder.Valid()
    ensures forall d :: d in drawn <==> exists p :: p in data && d in p.deps
    ensures Draws(builder.naming, builder.externalNodeMap, NodeIdsOf(builder.nodes), drawn, builder.edges)
  {
    hide Draws, NodeIdsOf, DependencyGraphBuilder.Valid;
    drawn := [];
    DrawsNothing(builder.naming, builder.externalNodeMap, NodeIdsOf(builder.nodes));
    for i := 0 to |data|
      invariant builder.Valid()
      invariant forall d :: d in drawn <==> exists p :: p in data[..i] && d in p.deps
      invariant Draws(builder.naming, builder.externalNodeMap, NodeIdsOf(builder.nodes), drawn, builder.edges)
    {
      assert data[..i + 1] == data[..i] + [data[i]];
      AddEdges(builder, drawn, data[i].deps);
      PairedOneMore(data[..i], data[i], drawn);
      drawn := drawn + data[i].deps;
    }
    assert data[..|data|] == data;
  }

  lemma PairedOneMore(data: seq<ServiceData>, p: ServiceData, drawn: seq<DependencyRow>)
    requires forall d :: d in drawn <==> exists q :: q in data && d in q.deps
    ensures forall d :: d in drawn + p.deps <==> exists q :: q in data + [p] && d in q.deps
  {
    assert p in data + [p];
    forall d | d in drawn ensures exists q :: q in data + [p] && d in q.deps {
      var q :| q in data && d in q.deps;
      assert q in data + [p];
    }
  }

  /** What the builder holds after a traversal is a well-formed graph over the visited services. */
  lemma SubgraphAssembled(
    naming: Naming, store: Store, visited: set<string>, data: seq<ServiceData>, collected: seq<DependencyRow>,
    drawn: seq<DependencyRow>, g: GraphResponse)
    requires Consistent(store) && PairsExactly(store, visited, data)
    requires multiset(collected) == multiset(FindByServiceIds(store, visited))
    requires forall d :: d in drawn <==> exists p :: p in data && d in p.deps
    requires NodesDistinct(g.nodes)
    requires NodeIdsOf(g.nodes) == PairIds(data) + ExternalIds(naming, collected)
    requires Draws(naming, ExternalMap(naming, collected), NodeIdsOf(g.nodes), drawn, g.edges)
    ensures IsGraphOf(naming, visited * ServiceIds(store.services), FindByServiceIds(store, visited), g)
    ensures WellFormed(g)
  {
    var services, rows := visited * ServiceIds(store.services), FindByServiceIds(store, visited);
    PairedServices(store, visited, data);
    PairedRows(store, visited, data, drawn);
    SameMembers(collected, rows);
    hide Consistent, PairsExactly, ServiceIds, FindByServiceIds, Draws, SameRows, NodeIdsOf, NodesDistinct, IdsOfNames;
    hide IdMap;
    hide UnassociatedNames, WellFormed, OwnersAmong;
    GraphOfSameRows(naming, services, collected, rows, g);
    GraphOfSameRows(naming, services, drawn, rows, g);
    GraphWellFormed(naming, services, rows, g);
  }

  /** The subgraph of a service: over exactly the stored services it depends on, directly or not, and their rows. */
  method GetServiceSubgraph(naming: Naming, store: Store, serviceId: string) returns (g: GraphResponse)
    requires Consistent(store)
    ensures forall reached :: IsReachableSet(AssociationArcs(store.dependencies), serviceId, reached) ==>
      IsGraphOf(naming, reached * ServiceIds(store.services), FindByServiceIds(store, reached), g)
    ensures WellFormed(g)
  {
    hide WellFormed, IsGraphOf, IsReachableSet, Consistent, PairsExactly, ServiceIds, AssociationArcs, Draws;
    hide ExternalIds;
    hide ExternalMap, EdgesDistinct, FindByServiceIds;
    var builder := new DependencyGraphBuilder(naming);
    var visited, allDependencies, serviceData := TraverseUpstream(store, serviceId);
    AddPairedServices(builder, serviceData);
    AddExternalNodes(builder, allDependencies);
    ghost var drawn := AddPairedEdges(builder, serviceData);
    g := builder.Build();
    assert NodeIdsOf([]) == {};
    SubgraphAssembled(naming, store, visited, serviceData, allDependencies, drawn, g);
    forall reached | IsReachableSet(AssociationArcs(store.dependencies), serviceId, reached)
      ensures reached == visited {
      OneReachableSet(AssociationArcs(store.dependencies), serviceId, reached, visited);
    }
  }

  /**
   * Every provider a subgraph's rows name is itself in the subgraph, so all its rows with stored providers are drawn.
   */
  lemma ProvidersReached(store: Store, start: string, reached: set<string>, d: DependencyRow)
    requires IsReachableSet(AssociationArcs(store.dependencies), start, reached)
    requires d in FindByServiceIds(store, reached) && Truthy(d.targetServiceId)
    ensures d.targetServiceId.value in reached
  {
    FilterMember(OwnerIn(reached), store.dependencies, d);
    ReachableIsLeastClosed(AssociationArcs(store.dependencies), start, reached);
    assert (d.serviceId, d.targetServiceId.value) in AssociationArcs(store.dependencies);
  }

  lemma SameMembers(a: seq<DependencyRow>, b: seq<DependencyRow>)
    requires multiset(a) == multiset(b)
    ensures SameRows(a, b)
  {
    forall d ensures d in a <==> d in b {
      assert d in multiset(a) <==> d in multiset(b);
    }
  }

  lemma OneReachableSet(arcs: Arcs, start: string, a: set<string>, b: set<string>)
    requires IsReachableSet(arcs, start, a) && IsReachableSet(arcs, start, b)
    ensures a == b
  {
  }
}

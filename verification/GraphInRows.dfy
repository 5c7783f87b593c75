/** What the graphs of the three scopes hold, told by the stored rows and their own names. */
module GraphInRows {
  import opened Common
  import opened DependencyGraph
  import opened GraphService

  // ---------------------------------------------------------------------------
  // External nodes
  // ---------------------------------------------------------------------------

  /** The canonical name when the row has one, else its own. */
  function ShownAs(d: DependencyRow): string {
    match d.canonicalName
    case Some(canonical) => canonical
    case None => d.name
  }

  /** The external node of a row: named by the hash of its normalised name. */
  function ExternalNodeOf(naming: Naming, d: DependencyRow): string {
    "external-" + naming.hash(naming.normalize(ShownAs(d)))
  }

  lemma SameNames(naming: Naming, d: DependencyRow)
    ensures NormalizedName(naming, d) == naming.normalize(ShownAs(d)) && DisplayName(d) == ShownAs(d)
    ensures ExternalId(naming, NormalizedName(naming, d)) == ExternalNodeOf(naming, d)
  {
  }

  function SharesName(naming: Naming, n: string): DependencyRow -> bool {
    (d: DependencyRow) => d.targetServiceId.None? && naming.normalize(ShownAs(d)) == n
  }

  /**
   * The group of a normalised name holds the unassociated rows of that name, in their order, under the name of the
   * first as it stands; a name without such a row has no group.
   */
  lemma GroupInNames(naming: Naming, deps: seq<DependencyRow>, g: ExternalGroups, n: string)
    requires GroupsExactly(naming, deps, g)
    ensures n in g.groups <==> exists d :: d in deps && d.targetServiceId.None? && naming.normalize(ShownAs(d)) == n
    ensures n in g.groups ==>
      var group := g.groups[n];
      && group.deps == Filter(SharesName(naming, n), deps) && |group.deps| > 0
      && group.name == ShownAs(group.deps[0]) && group.id == "external-" + naming.hash(n)
  {
    forall d: DependencyRow ensures Unassociated(naming, n)(d) == SharesName(naming, n)(d) {
      SameNames(naming, d);
    }
    FilterCongruent(Unassociated(naming, n), SharesName(naming, n), deps);
    FilterMembers(SharesName(naming, n), deps);
    assert Lookup(g.groups, n) == GroupOf(naming, deps, n);
    var rows := Filter(SharesName(naming, n), deps);
    if d :| d in deps && d.targetServiceId.None? && naming.normalize(ShownAs(d)) == n {
      assert d in rows;
    }
    if rows != [] {
      assert rows[0] in rows;
    }
  }

  /** Some unassociated row has the row's normalised name. */
  ghost predicate HasNamesake(naming: Naming, deps: seq<DependencyRow>, d: DependencyRow) {
    exists e :: e in deps && e.targetServiceId.None? && naming.normalize(ShownAs(e)) == naming.normalize(ShownAs(d))
  }

  /** Where the row's edge starts: at its associated service, else at the external node of its name, if there is one. */
  ghost function Source(naming: Naming, deps: seq<DependencyRow>, d: DependencyRow): Option<string> {
    if d.targetServiceId.Some? && |d.targetServiceId.value| > 0 then d.targetServiceId
    else if HasNamesake(naming, deps, d) then Some(ExternalNodeOf(naming, d))
    else None
  }

  lemma NamedUnassociated(naming: Naming, deps: seq<DependencyRow>, d: DependencyRow)
    ensures NormalizedName(naming, d) in UnassociatedNames(naming, deps) <==> HasNamesake(naming, deps, d)
  {
    hide NormalizedName;
    forall e: DependencyRow ensures NormalizedName(naming, e) == naming.normalize(ShownAs(e)) {
      SameNames(naming, e);
    }
    if e :| e in deps && e.targetServiceId.None? && naming.normalize(ShownAs(e)) == naming.normalize(ShownAs(d)) {
      assert NormalizedName(naming, e) in UnassociatedNames(naming, deps);
    }
  }

  lemma SourceInRows(naming: Naming, deps: seq<DependencyRow>, d: DependencyRow)
    ensures Truthy(ResolveSource(naming, ExternalMap(naming, deps), d)) <==> Source(naming, deps, d).Some?
    ensures Source(naming, deps, d).Some? ==>
      ResolveSource(naming, ExternalMap(naming, deps), d) == Source(naming, deps, d)
  {
    SameNames(naming, d);
    NamedUnassociated(naming, deps, d);
    hide NormalizedName, UnassociatedNames, HasNamesake, ExternalId, ExternalNodeOf;
  }

  /** Two unassociated rows whose canonical or own names normalise to one text have one source. */
  lemma NamesakesShareSource(naming: Naming, deps: seq<DependencyRow>, d: DependencyRow, e: DependencyRow)
    requires d in deps && d.targetServiceId.None? && e.targetServiceId.None?
    requires naming.normalize(ShownAs(d)) == naming.normalize(ShownAs(e))
    ensures ResolveSource(naming, ExternalMap(naming, deps), d) == ResolveSource(naming, ExternalMap(naming, deps), e)
            == Some("external-" + naming.hash(naming.normalize(ShownAs(d))))
  {
    hide ResolveSource, ExternalMap, Truthy;
    SourceInRows(naming, deps, d);
    SourceInRows(naming, deps, e);
  }

  // ---------------------------------------------------------------------------
  // Nodes and edges
  // ---------------------------------------------------------------------------

  /** Nodes are the services and the external nodes of unassociated rows. */
  lemma NodesInRows(naming: Naming, services: set<string>, deps: seq<DependencyRow>, g: GraphResponse, x: string)
    requires IsGraphOf(naming, services, deps, g)
    ensures (exists n :: n in g.nodes && n.id == x) <==>
      x in services || exists d :: d in deps && d.targetServiceId.None? && x == ExternalNodeOf(naming, d)
  {
    hide Draws, NodesDistinct, ExternalMap, ExternalNodeOf, ExternalId, NormalizedName;
    forall d: DependencyRow ensures ExternalId(naming, NormalizedName(naming, d)) == ExternalNodeOf(naming, d) {
      SameNames(naming, d);
    }
    assert x in NodeIdsOf(g.nodes) <==> exists n :: n in g.nodes && n.id == x;
    if x in ExternalIds(naming, deps) {
      var n :| n in UnassociatedNames(naming, deps) && ExternalId(naming, n) == x;
    }
    if d :| d in deps && d.targetServiceId.None? && x == ExternalNodeOf(naming, d) {
      assert NormalizedName(naming, d) in UnassociatedNames(naming, deps);
    }
  }

  /** The row has a source among the nodes. */
  ghost predicate CanBeDrawn(naming: Naming, deps: seq<DependencyRow>, g: GraphResponse, d: DependencyRow) {
    Source(naming, deps, d).Some? && exists n :: n in g.nodes && n.id == Source(naming, deps, d).value
  }

  /** The edge of a row, from its source to its owner. */
  ghost function EdgeOf(source: string, d: DependencyRow): GraphEdge {
    GraphEdge(source + "-" + d.serviceId + "-" + d.depType, source, d.serviceId, d.depType, d.id)
  }

  lemma CanBeDrawnIs(naming: Naming, deps: seq<DependencyRow>, g: GraphResponse, d: DependencyRow)
    ensures CanBeDrawn(naming, deps, g, d) <==> Drawable(naming, ExternalMap(naming, deps), NodeIdsOf(g.nodes), d)
    ensures CanBeDrawn(naming, deps, g, d) ==>
      ResolveSource(naming, ExternalMap(naming, deps), d) == Source(naming, deps, d) && Source(naming, deps, d).Some?
  {
    SourceInRows(naming, deps, d);
    hide ResolveSource, ExternalMap, Source, Truthy;
  }

  /**
   * Edges are those of rows that can be drawn; every row that can has its edge, or another of its id; and no id is
   * there twice.
   */
  lemma EdgesInRows(naming: Naming, services: set<string>, deps: seq<DependencyRow>, g: GraphResponse)
    requires IsGraphOf(naming, services, deps, g)
    ensures forall e :: e in g.edges ==>
      exists d :: d in deps && CanBeDrawn(naming, deps, g, d) && e == EdgeOf(Source(naming, deps, d).value, d)
    ensures forall d :: d in deps && CanBeDrawn(naming, deps, g, d) ==>
      exists e :: e in g.edges && e.id == EdgeOf(Source(naming, deps, d).value, d).id
    ensures forall i, j :: 0 <= i < j < |g.edges| ==> g.edges[i].id != g.edges[j].id
  {
    hide ResolveSource, ExternalMap, Source, Truthy, CanBeDrawn, Drawable, NodeIdsOf, ExternalIds, NodesDistinct;
    forall d: DependencyRow
      ensures CanBeDrawn(naming, deps, g, d) <==> Drawable(naming, ExternalMap(naming, deps), NodeIdsOf(g.nodes), d)
      ensures CanBeDrawn(naming, deps, g, d) ==> ResolveSource(naming, ExternalMap(naming, deps), d)
                                                 == Source(naming, deps, d) && Source(naming, deps, d).Some? {
      CanBeDrawnIs(naming, deps, g, d);
    }
    forall e | e in g.edges
      ensures exists d :: d in deps && CanBeDrawn(naming, deps, g, d) && e == EdgeOf(Source(naming, deps, d).value, d) {
      var d :| d in deps && DrawnAs(naming, ExternalMap(naming, deps), NodeIdsOf(g.nodes), d, e);
    }
  }

  /** With ids as the code makes them, every row that can be drawn has an edge with its own source, owner and type. */
  lemma EveryRowHasItsEdge(
    naming: Naming, services: set<string>, deps: seq<DependencyRow>, g: GraphResponse, d: DependencyRow)
    requires IsGraphOf(naming, services, deps, g) && GeneratedIds(naming, deps) && d in deps
    requires CanBeDrawn(naming, deps, g, d)
    ensures exists e ::
      e in g.edges && Some(e.source) == Source(naming, deps, d) && e.target == d.serviceId && e.depType == d.depType
  {
    hide ResolveSource, ExternalMap, Source, Truthy, CanBeDrawn, Drawable, NodeIdsOf, ExternalIds, NodesDistinct;
    hide GeneratedIds, EdgeId;
    var externals, nodeIds := ExternalMap(naming, deps), NodeIdsOf(g.nodes);
    CanBeDrawnIs(naming, deps, g, d);
    var source := Source(naming, deps, d).value;
    var e :| e in g.edges && e.id == EdgeId(source, d.serviceId, d.depType);
    var x :| x in deps && DrawnAs(naming, externals, nodeIds, x, e);
    CanBeDrawnIs(naming, deps, g, x);
    DrawnHasSource(naming, externals, nodeIds, x);
    DrawnHasSource(naming, externals, nodeIds, d);
    GeneratedIdsTellApart(naming, deps, x, d, e.source, source);
  }

  lemma DrawnHasSource(naming: Naming, externals: Option<map<string, string>>, nodeIds: set<string>, d: DependencyRow)
    requires Drawable(naming, externals, nodeIds, d)
    ensures ResolveSource(naming, externals, d).Some? && ResolveSource(naming, externals, d).value != ""
  {
  }

  // ---------------------------------------------------------------------------
  // The three scopes
  // ---------------------------------------------------------------------------

  /** Some of the rows is associated with the service. */
  ghost predicate Named(deps: seq<DependencyRow>, id: string) {
    |id| > 0 && exists d :: d in deps && d.targetServiceId == Some(id)
  }

  /** The node is one of the services asked for, a stored one that a row names, or the external node of a row. */
  lemma NodesOfServices(
    naming: Naming, store: Store, services: seq<ServiceRow>, deps: seq<DependencyRow>, g: GraphResponse, x: string)
    requires IsGraphOf(naming, DrawnServices(store, services, deps), deps, g)
    ensures (exists n :: n in g.nodes && n.id == x) <==>
      || (exists s :: s in services && s.id == x)
      || ((exists s :: s in store.services && s.id == x) && Named(deps, x))
      || exists d :: d in deps && d.targetServiceId.None? && x == ExternalNodeOf(naming, d)
  {
    NodesInRows(naming, DrawnServices(store, services, deps), deps, g, x);
    hide IsGraphOf, ExternalNodeOf;
    assert x in AssociatedIds(deps) <==> Named(deps, x) by {
      if d :| d in deps && d.targetServiceId == Some(x) && |x| > 0 {
        assert Truthy(d.targetServiceId);
      }
    }
  }

  /** The owner of the row is an active service. */
  ghost predicate OwnerActive(store: Store, d: DependencyRow) {
    d in store.dependencies && exists s :: s in store.services && s.id == d.serviceId && s.isActive
  }

  /** The full graph is drawn over the rows of active services and the active services that are not external. */
  lemma FullGraphInRows(naming: Naming, store: Store, g: GraphResponse, x: string)
    requires IsFullGraph(naming, store, g)
    ensures IsGraphOf(naming, DrawnServices(store, ActiveServices(store), ActiveRows(store)), ActiveRows(store), g)
    ensures forall d :: d in ActiveRows(store) <==> OwnerActive(store, d)
    ensures (exists n :: n in g.nodes && n.id == x) <==>
      || (exists s :: s in store.services && s.id == x && s.isActive && !s.isExternal)
      || ((exists s :: s in store.services && s.id == x) && Named(ActiveRows(store), x))
      || exists d :: OwnerActive(store, d) && d.targetServiceId.None? && x == ExternalNodeOf(naming, d)
  {
    ActiveRowsAre(store);
    FilterMembers((s: ServiceRow) => s.isActive && !s.isExternal, store.services);
    assert forall s :: s in ActiveServices(store) <==> s in store.services && s.isActive && !s.isExternal;
    hide IsGraphOf, ExternalNodeOf, ActiveServices, ActiveRows, DrawnServices, Named;
    NodesOfServices(naming, store, ActiveServices(store), ActiveRows(store), g, x);
  }

  /** The services of a team's graph are its active ones, external or not, and the rows are theirs. */
  lemma TeamGraphInRows(store: Store, teamId: string)
    ensures forall s :: s in TeamServices(store, teamId) <==>
      s in store.services && s.teamId == teamId && s.isActive
    ensures forall d :: d in RowsOf(store, TeamServices(store, teamId)) <==>
      d in store.dependencies &&
      exists s :: s in store.services && s.teamId == teamId && s.isActive && s.id == d.serviceId
  {
    FilterMembers((s: ServiceRow) => s.teamId == teamId && s.isActive, store.services);
    FilterMembers(OwnerIn(ServiceIds(TeamServices(store, teamId))), store.dependencies);
  }

  /** A service depends on another by a row of its own that is associated with the other. */
  lemma ArcsInRows(deps: seq<DependencyRow>, a: string, b: string)
    ensures (a, b) in AssociationArcs(deps) <==>
      |b| > 0 && exists d :: d in deps && d.serviceId == a && d.targetServiceId == Some(b)
  {
    if d :| d in deps && d.serviceId == a && d.targetServiceId == Some(b) && |b| > 0 {
      assert Truthy(d.targetServiceId);
    }
  }

  /** The subgraph's rows are those of the reached services, and its services the reached ones that are stored. */
  lemma SubgraphInRows(naming: Naming, store: Store, reached: set<string>, g: GraphResponse, x: string)
    requires IsGraphOf(naming, reached * ServiceIds(store.services), FindByServiceIds(store, reached), g)
    ensures forall d :: d in FindByServiceIds(store, reached) <==> d in store.dependencies && d.serviceId in reached
    ensures (exists n :: n in g.nodes && n.id == x) <==>
      || (x in reached && exists s :: s in store.services && s.id == x)
      || exists d :: d in store.dependencies && d.serviceId in reached && d.targetServiceId.None?
                     && x == ExternalNodeOf(naming, d)
  {
    FilterMembers(OwnerIn(reached), store.dependencies);
    NodesInRows(naming, reached * ServiceIds(store.services), FindByServiceIds(store, reached), g, x);
    hide IsGraphOf, ExternalNodeOf;
  }
}

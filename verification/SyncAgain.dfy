/** What a diff finds that is run again right after a whole sync: rows it updated, rows it created and the others. */
module SyncAgain {
  import opened Common
  import opened Fields
  import opened ManifestDiffer
  import opened ManifestSync
  import opened ManifestApply
  import opened DriftRoutes
  import opened DriftRuns
  import opened SyncRuns

  // ---------------------------------------------------------------------------
  // A created row
  // ---------------------------------------------------------------------------

  /** The row a sync creates for an entry. */
  function CreatedService(sync: Sync, e: ManifestEntry): Service {
    Service(sync.newService(e.key), sync.teamId, Some(e.key), true, CreatedColumns(e), Values(e.fields))
  }

  predicate IsOtlp(e: ManifestEntry) {
    e.fields.healthEndpointFormat == Str("otlp")
  }

  /**
   * Creating the row stores the manifest's own text: as for an update, and besides no endpoint or interval but 0 is
   * given for an OTLP service, and no null interval for a polled one.
   */
  predicate CreatedAsGiven(e: ManifestEntry, f: Field) {
    var v := e.fields.Get(f);
    || v == Undefined
    || (&& StoredAsGiven(e, f)
        && !(f == HealthEndpoint && IsOtlp(e) && v != Null && v != Str(""))
        && !(f == PollIntervalMs && if IsOtlp(e) then v != Num(0) else v == Null))
  }

  lemma OnlyZeroReadsZero(v: FieldValue)
    requires v.Num? || v == Null
    ensures NormalizeToString(v) == NormalizeToString(Num(0)) <==> v == Num(0)
  {
    hide Decimal, ParseInt;
    DecimalNotEmpty(0);
    if v.Num? {
      ParseIntUndoesDecimal(v.number);
      ParseIntUndoesDecimal(0);
    }
  }

  /** A created row has the manifest's text exactly in the fields created as given. */
  lemma CreatedText(e: ManifestEntry, f: Field)
    requires WellTyped(e) && e.fields.Get(f) != Undefined
    ensures NormalizeToString(CreatedColumns(e).Get(f)) == NormalizeToString(e.fields.Get(f)) <==> CreatedAsGiven(e, f)
  {
    hide Quote, Decimal;
    DecimalNotEmpty(30000);
    if f == SchemaConfig && IsText(e.fields.schemaConfig) {
      assert |Quote(e.fields.schemaConfig.text)| > |e.fields.schemaConfig.text|;
    }
    if f == PollIntervalMs {
      OnlyZeroReadsZero(e.fields.pollIntervalMs);
    }
  }

  /** A field created otherwise counts as a manual edit in the next diff. */
  lemma ClassifyCreated(sync: Sync, e: ManifestEntry, drift: FieldDriftPolicy, f: Field)
    requires WellTyped(e)
    ensures Classify(e, CreatedService(sync, e), drift, f) == if CreatedAsGiven(e, f) then Skip else Unsettled(drift)
  {
    hide WellTyped, CreatedColumns, NormalizeToString, Record.Get, StoredAsGiven;
    if e.fields.Get(f) != Undefined {
      CreatedText(e, f);
      hide CreatedAsGiven;
    }
  }

  // ---------------------------------------------------------------------------
  // What operations do to one row
  // ---------------------------------------------------------------------------

  lemma {:induction false} PerformAppend(st: State, a: seq<TableOp>, b: seq<TableOp>)
    ensures PerformAll(st, a + b) ==
            match PerformAll(st, a)
            case None => None
            case Some(next) => PerformAll(next, b)
  {
    hide Perform;
    if b == [] {
      assert a + b == a;
    } else {
      var shorter := b[..|b| - 1];
      PerformAppend(st, a, shorter);
      assert (a + b)[..|a + b| - 1] == a + shorter;
    }
  }

  predicate Touches(op: TableOp, id: string) {
    match op
    case CreateRow(_, _, row) => row == id
    case UpdateRow(u) => u.serviceId == id
    case DeactivateRow(row) => row == id
    case DeleteRow(row) => row == id
    case AddRow(row, _, _) => row == id
    case EditRow(row, _) => row == id
    case _ => false
  }

  ghost predicate SameRow(before: map<string, Service>, after: map<string, Service>, id: string) {
    (id in after <==> id in before) && (id in before ==> after[id] == before[id])
  }

  lemma UntouchedByOne(st: State, op: TableOp, id: string)
    requires !Touches(op, id) && Perform(st, op).Some?
    ensures SameRow(st.services, Perform(st, op).value.services, id)
  {
    hide ResolveAll, ResolveOpenRemovals, CreatedColumns, MissesRequired, RejectsNull, InputOf, Record.Patched;
    hide KeyTaken, KeyTakenByOther;
    DetectKeepsServices(st, op);
    hide Detect;
  }

  lemma {:induction false} Untouched(st: State, ops: seq<TableOp>, id: string)
    requires PerformAll(st, ops).Some? && forall op :: op in ops ==> !Touches(op, id)
    ensures SameRow(st.services, PerformAll(st, ops).value.services, id)
  {
    hide Perform, Touches;
    if ops != [] {
      Untouched(st, ops[..|ops| - 1], id);
      UntouchedByOne(PerformAll(st, ops[..|ops| - 1]).value, ops[|ops| - 1], id);
    }
  }

  predicate KeepsIdentity(op: TableOp) {
    !op.CreateRow? && !op.AddRow? && !op.EditRow?
  }

  lemma OneEvolves(st: State, op: TableOp)
    requires KeepsIdentity(op) && Perform(st, op).Some?
    ensures Evolves(st.services, Perform(st, op).value.services)
  {
    hide ResolveAll, ResolveOpenRemovals, RejectsNull, InputOf, Record.Patched, Detect;
    DetectKeepsServices(st, op);
  }

  lemma {:induction false} AllEvolve(st: State, ops: seq<TableOp>)
    requires PerformAll(st, ops).Some? && forall op :: op in ops ==> KeepsIdentity(op)
    ensures Evolves(st.services, PerformAll(st, ops).value.services)
  {
    hide Perform, KeepsIdentity, Evolves;
    if ops == [] {
      EvolvesSelf(st.services);
    } else {
      var before := PerformAll(st, ops[..|ops| - 1]).value;
      AllEvolve(st, ops[..|ops| - 1]);
      OneEvolves(before, ops[|ops| - 1]);
      EvolvesThrough(st.services, before.services, PerformAll(st, ops).value.services);
    }
  }

  // ---------------------------------------------------------------------------
  // Creations and updates
  // ---------------------------------------------------------------------------

  function NewId(sync: Sync): ManifestEntry -> string {
    (e: ManifestEntry) => sync.newService(e.key)
  }

  /** Exactly the rows of the entries are new, each under an id of its own. */
  ghost predicate RowsCreated(
    sync: Sync, before: map<string, Service>, after: map<string, Service>, entries: seq<ManifestEntry>)
  {
    && Distinct(MapSeq(NewId(sync), entries))
    && (forall id :: id in before ==> SameRow(before, after, id))
    && (forall id :: id in after && id !in before ==> id in MapSeq(NewId(sync), entries))
    && (forall e :: e in entries ==> var id := sync.newService(e.key);
          id !in before && id in after && after[id] == CreatedService(sync, e))
  }

  lemma DistinctOneMore<T>(xs: seq<T>, x: T)
    requires Distinct(xs) && x !in xs
    ensures Distinct(xs + [x]) && forall y :: y in xs + [x] <==> y in xs || y == x
  {
  }

  lemma CreatedOneMore(
    sync: Sync, before: map<string, Service>, after: map<string, Service>, entries: seq<ManifestEntry>,
    e: ManifestEntry)
    requires RowsCreated(sync, before, after, entries) && sync.newService(e.key) !in after
    ensures RowsCreated(sync, before, after[sync.newService(e.key) := CreatedService(sync, e)], entries + [e])
  {
    hide CreatedService, MapSeq, Distinct;
    var id, ids := sync.newService(e.key), MapSeq(NewId(sync), entries);
    MapOneMore(NewId(sync), entries, e);
    if id in ids {
      MappedMember(NewId(sync), entries, id);
      assert false;
    }
    DistinctOneMore(ids, id);
    assert forall x :: x in entries + [e] <==> x in entries || x == e;
  }

  lemma {:induction false} CreationsPerformed(st: State, sync: Sync, entries: seq<ManifestEntry>)
    requires PerformAll(st, MapSeq(Creation(sync), entries)).Some?
    ensures RowsCreated(sync, st.services, PerformAll(st, MapSeq(Creation(sync), entries)).value.services, entries)
  {
    hide Perform, MapSeq, RowsCreated;
    if entries == [] {
      NoneCreated(st.services, sync);
      assert MapSeq(Creation(sync), entries) == [];
    } else {
      var shorter, e := entries[..|entries| - 1], entries[|entries| - 1];
      assert entries == shorter + [e];
      MapOneMore(Creation(sync), shorter, e);
      var ops, op := MapSeq(Creation(sync), shorter), Creation(sync)(e);
      assert (ops + [op])[..|ops|] == ops;
      CreationsPerformed(st, sync, shorter);
      var before := PerformAll(st, ops).value;
      CreationPerformed(before, sync, e);
      CreatedOneMore(sync, st.services, before.services, shorter, e);
    }
  }

  lemma NoneCreated(services: map<string, Service>, sync: Sync)
    ensures RowsCreated(sync, services, services, [])
  {
  }

  lemma CreationPerformed(st: State, sync: Sync, e: ManifestEntry)
    requires Perform(st, Creation(sync)(e)).Some?
    ensures sync.newService(e.key) !in st.services
    ensures Perform(st, Creation(sync)(e)).value.services
      == st.services[sync.newService(e.key) := CreatedService(sync, e)]
  {
    hide CreatedColumns, MissesRequired, KeyTaken;
  }

  /** The rows named by updates are changed, each by its own update. */
  lemma {:induction false} UpdatesPerformed(
    st: State, updates: seq<UpdateEntry>, ops: seq<TableOp>, u: UpdateEntry)
    requires |ops| == |updates| && forall i :: 0 <= i < |ops| ==> ops[i] == UpdateRow(updates[i])
    requires DistinctTargets(updates) && PerformAll(st, ops).Some? && u in updates && u.serviceId in st.services
    ensures var after := PerformAll(st, ops).value.services;
            u.serviceId in after && after[u.serviceId] == Applied(st.services[u.serviceId], u)
  {
    hide Perform, Applied;
    var n := |updates| - 1;
    assert updates == updates[..n] + [updates[n]];
    var before := PerformAll(st, ops[..n]).value;
    if u in updates[..n] {
      UpdatesPerformed(st, updates[..n], ops[..n], u);
      UntouchedByOne(before, ops[n], u.serviceId);
    } else {
      forall op | op in ops[..n] ensures !Touches(op, u.serviceId) {
        var i :| 0 <= i < n && ops[i] == op;
      }
      Untouched(st, ops[..n], u.serviceId);
      UpdatePerformed(before, updates[n]);
    }
  }

  lemma UpdatePerformed(st: State, u: UpdateEntry)
    requires Perform(st, UpdateRow(u)).Some? && u.serviceId in st.services
    ensures Perform(st, UpdateRow(u)).value.services == st.services[u.serviceId := Applied(st.services[u.serviceId], u)]
  {
    hide RejectsNull, InputOf, Applied;
  }

  // ---------------------------------------------------------------------------
  // The rows a sync diffs
  // ---------------------------------------------------------------------------

  lemma {:induction false} FilterDistinct<T>(p: T -> bool, xs: seq<T>)
    requires Distinct(xs)
    ensures Distinct(Filter(p, xs))
  {
    if xs != [] {
      FilterDistinct(p, xs[1..]);
      FilterMember(p, xs[1..], xs[0]);
    }
  }

  lemma ManagedRowAt(services: map<string, Service>, sync: Sync, i: nat)
    requires TidyServices(services) && i < |ManagedRows(services, sync)|
    ensures var ids := Filter(InTeam(services, sync.teamId), sync.managed);
            var s := ManagedRows(services, sync)[i];
            && |ids| == |ManagedRows(services, sync)| && s.id == ids[i] && s.id in sync.managed
            && s.id in services && services[s.id] == s && s.teamId == sync.teamId
  {
    var ids := Filter(InTeam(services, sync.teamId), sync.managed);
    FilterMember(InTeam(services, sync.teamId), sync.managed, ids[i]);
    hide Filter;
    assert ids[i] in ids;
  }

  lemma ManagedRowIn(services: map<string, Service>, sync: Sync, s: Service)
    requires s.id in sync.managed && s.id in services && services[s.id] == s && s.teamId == sync.teamId
    ensures s in ManagedRows(services, sync)
  {
    FilterMember(InTeam(services, sync.teamId), sync.managed, s.id);
    hide Filter;
    MappedMember(RowOf(services), Filter(InTeam(services, sync.teamId), sync.managed), s);
  }

  /** The managed rows are the team's rows with managed ids. */
  lemma ManagedRowsAre(services: map<string, Service>, sync: Sync)
    requires TidyServices(services) && Distinct(sync.managed)
    ensures UniqueServices(ManagedRows(services, sync)) && ReadFrom(ManagedRows(services, sync), services)
    ensures forall s :: s in ManagedRows(services, sync) <==>
              s.id in sync.managed && s.id in services && services[s.id] == s && s.teamId == sync.teamId
  {
    hide TidyServices, ManagedRows, Filter, UniqueServices;
    var rows := ManagedRows(services, sync);
    FilterDistinct(InTeam(services, sync.teamId), sync.managed);
    forall s: Service
      ensures s in rows <==>
        s.id in sync.managed && s.id in services && services[s.id] == s && s.teamId == sync.teamId {
      if s in rows {
        var i :| 0 <= i < |rows| && rows[i] == s;
        ManagedRowAt(services, sync, i);
      } else if s.id in sync.managed && s.id in services && services[s.id] == s && s.teamId == sync.teamId {
        ManagedRowIn(services, sync, s);
      }
    }
    forall i, j | 0 <= i < j < |rows| ensures rows[i] != rows[j] {
      ManagedRowAt(services, sync, i);
      ManagedRowAt(services, sync, j);
    }
    TeamRowsUnique(services, rows, sync.teamId);
  }

  // ---------------------------------------------------------------------------
  // One whole sync
  // ---------------------------------------------------------------------------

  ghost function DiffNow(st: State, sync: Sync): Diff {
    DiffOf(sync.entries, ManagedRows(st.services, sync), sync.policy)
  }

  /** Entries of unmatched keys whose endpoints may be polled. */
  ghost function Creations(st: State, sync: Sync): seq<ManifestEntry> {
    Filter(IsSafe(sync), DiffNow(st, sync).toCreate)
  }

  /** A valid manifest over rows its configuration owns. */
  ghost predicate SyncInput(st: State, sync: Sync) {
    && TidyServices(st.services) && Distinct(sync.managed) && (forall id :: id in sync.managed ==> id in st.services)
    && UniqueKeys(sync.entries) && (forall e :: e in sync.entries ==> WellTyped(e) && e.key != "")
  }

  /** Synced without a rollback. */
  ghost predicate SyncScene(st: State, sync: Sync) {
    SyncInput(st, sync) && PerformAll(st, SyncOps(sync, DiffNow(st, sync))).Some?
  }

  /** The sync run again: it owns the rows it created, too. */
  ghost function SyncNext(st: State, sync: Sync): Sync {
    sync.(managed := sync.managed + MapSeq(NewId(sync), Creations(st, sync)))
  }

  ghost function UpdateOps(d: Diff): seq<TableOp> {
    MapSeq(u => UpdateRow(u), d.toUpdate)
  }

  /** Flags, removals and resolutions. */
  ghost function OtherOps(sync: Sync, d: Diff): seq<TableOp> {
    MapSeq(Raising(sync), d.toDrift) + (RemovalOps(sync, d) + ResolveOps(d))
  }

  lemma SyncOpsParts(sync: Sync, d: Diff)
    ensures SyncOps(sync, d)
      == MapSeq(Creation(sync), Filter(IsSafe(sync), d.toCreate)) + (UpdateOps(d) + OtherOps(sync, d))
  {
    hide MapSeq, Filter, RemovalOps, ResolveOps;
  }

  lemma OtherOpsTouch(sync: Sync, d: Diff, id: string)
    ensures forall op :: op in OtherOps(sync, d) ==> KeepsIdentity(op)
    ensures id !in d.toDeactivate && id !in d.toDelete ==> forall op :: op in OtherOps(sync, d) ==> !Touches(op, id)
  {
    var flags, removalFlags := MapSeq(Raising(sync), d.toDrift), MapSeq(RaisingRemoval(sync), d.removalDrift);
    var stops, deletions := MapSeq(x => DeactivateRow(x), d.toDeactivate), MapSeq(x => DeleteRow(x), d.toDelete);
    var resolves := ResolveOps(d);
    assert RemovalOps(sync, d) == stops + deletions + removalFlags;
    assert OtherOps(sync, d) == flags + ((stops + deletions + removalFlags) + resolves);
  }

  /** The tables after the creations, after the updates, and at the end. */
  lemma SyncPhases(st: State, sync: Sync) returns (created: State, updated: State)
    requires SyncScene(st, sync)
    ensures RowsCreated(sync, st.services, created.services, Creations(st, sync))
    ensures PerformAll(created, UpdateOps(DiffNow(st, sync))) == Some(updated)
    ensures PerformAll(updated, OtherOps(sync, DiffNow(st, sync))) == Some(SyncManifest(st, sync))
  {
    hide PerformAll, UpdateOps, OtherOps, DiffNow, SyncOps, TidyServices, UniqueKeys, RowsCreated;
    var d := DiffNow(st, sync);
    assert d == DiffOf(sync.entries, ManagedRows(st.services, sync), sync.policy) by { DiffNowIs(st, sync); }
    var first := MapSeq(Creation(sync), Creations(st, sync));
    SyncOpsParts(sync, d);
    PerformAppend(st, first, UpdateOps(d) + OtherOps(sync, d));
    created := PerformAll(st, first).value;
    PerformAppend(created, UpdateOps(d), OtherOps(sync, d));
    updated := PerformAll(created, UpdateOps(d)).value;
    CreationsPerformed(st, sync, Creations(st, sync));
  }

  lemma DiffNowIs(st: State, sync: Sync)
    ensures DiffNow(st, sync) == DiffOf(sync.entries, ManagedRows(st.services, sync), sync.policy)
  {
  }

  /** Rows a sync stops, deletes or flags for removal are managed and not matched. */
  lemma RemovedRows(st: State, sync: Sync, id: string)
    requires SyncInput(st, sync)
    requires var d := DiffNow(st, sync);
             id in d.toDeactivate || id in d.toDelete || id in d.removalDrift
    ensures id in st.services
    ensures forall e, s :: e in sync.entries && s in ManagedRows(st.services, sync) && MatchesKey(e, s) ==> s.id != id
  {
    hide ManagedRows, DiffOf, TidyServices, PerformAll, SyncOps;
    var rows := ManagedRows(st.services, sync);
    ManagedRowsAre(st.services, sync);
    RemovedOnceByPolicy(sync.entries, rows, sync.policy);
    MappedMember(IdOf(), Filter(RemovedBy(Keys(sync.entries)), rows), id);
    var s :| s in Filter(RemovedBy(Keys(sync.entries)), rows) && s.id == id;
    FilterMember(RemovedBy(Keys(sync.entries)), rows, s);
    hide Filter;
    var i :| 0 <= i < |rows| && rows[i] == s;
    forall e, t | e in sync.entries && t in rows && MatchesKey(e, t) ensures t.id != id {
      var j :| 0 <= j < |rows| && rows[j] == t;
      assert e.key in Keys(sync.entries);
    }
  }

  // ---------------------------------------------------------------------------
  // The row an entry finds after the sync
  // ---------------------------------------------------------------------------

  /** A matched row ends as its own update left it. */
  lemma MatchedRowAfter(st: State, sync: Sync, e: ManifestEntry, s: Service)
    requires SyncScene(st, sync) && e in sync.entries && s in ManagedRows(st.services, sync) && MatchesKey(e, s)
    ensures var after := SyncManifest(st, sync).services;
            s.id in after && after[s.id] == RowThen(e, s, sync.policy.onFieldDrift)
  {
    hide DiffOf, ManagedRows, PerformAll, SyncOps, SyncManifest, UpdateOps, OtherOps, TidyServices, MatchesKey;
    hide UniqueKeys, UniqueServices, FieldsWith, Applied, Touches;
    var d, rows := DiffNow(st, sync), ManagedRows(st.services, sync);
    var created, updated := SyncPhases(st, sync);
    ManagedRowsAre(st.services, sync);
    UpdatesOfMatched(sync.entries, rows, sync.policy, e, s);
    TargetsOfDiff(sync.entries, rows, sync.policy);
    assert s.id in created.services && created.services[s.id] == s;
    UpdateOpsAre(d);
    if FieldsWith(e, s, sync.policy.onFieldDrift, Update) != [] {
      var u := UpdateEntry(e, s.id, FieldsWith(e, s, sync.policy.onFieldDrift, Update));
      UpdatesPerformed(created, d.toUpdate, UpdateOps(d), u);
    } else {
      UpdatesTouch(d, s.id);
      Untouched(created, UpdateOps(d), s.id);
    }
    if s.id in d.toDeactivate || s.id in d.toDelete {
      RemovedRows(st, sync, s.id);
      assert false;
    }
    OtherOpsTouch(sync, d, s.id);
    Untouched(updated, OtherOps(sync, d), s.id);
  }

  lemma TargetsOfDiff(entries: seq<ManifestEntry>, rows: seq<Service>, policy: SyncPolicy)
    requires UniqueKeys(entries) && UniqueServices(rows)
    ensures DistinctTargets(DiffOf(entries, rows, policy).toUpdate)
  {
    hide DiffOf, EntriesDiff, Index;
    DiffParts(entries, rows, policy);
    TargetsDistinct(rows, entries, policy);
  }

  lemma UpdateOpsAre(d: Diff)
    ensures |UpdateOps(d)| == |d.toUpdate| && forall i :: 0 <= i < |d.toUpdate| ==>
      UpdateOps(d)[i] == UpdateRow(d.toUpdate[i])
  {
  }

  lemma UpdatesTouch(d: Diff, id: string)
    requires forall u :: u in d.toUpdate ==> u.serviceId != id
    ensures forall op :: op in UpdateOps(d) ==> !Touches(op, id)
  {
  }

  /** A created row ends as it was created. */
  lemma CreatedRowAfter(st: State, sync: Sync, e: ManifestEntry)
    requires SyncScene(st, sync) && e in Creations(st, sync)
    ensures var after, id := SyncManifest(st, sync).services, sync.newService(e.key);
            id !in st.services && id in after && after[id] == CreatedService(sync, e)
  {
    hide DiffOf, ManagedRows, PerformAll, SyncOps, SyncManifest, UpdateOps, OtherOps, TidyServices, Creations;
    hide UniqueKeys, UniqueServices, FieldsWith, Applied, Touches, CreatedService;
    var d, rows, id := DiffNow(st, sync), ManagedRows(st.services, sync), sync.newService(e.key);
    var created, updated := SyncPhases(st, sync);
    ManagedRowsAre(st.services, sync);
    forall u | u in d.toUpdate ensures u.serviceId != id {
      var e', s := UpdateOwner(sync.entries, rows, sync.policy, u);
    }
    UpdatesTouch(d, id);
    Untouched(created, UpdateOps(d), id);
    if id in d.toDeactivate || id in d.toDelete {
      RemovedRows(st, sync, id);
      assert false;
    }
    OtherOpsTouch(sync, d, id);
    Untouched(updated, OtherOps(sync, d), id);
  }

  /** Every row after the sync was there before under the same team and key, or was created. */
  lemma RowsAfterSync(st: State, sync: Sync, id: string)
    requires SyncScene(st, sync) && id in SyncManifest(st, sync).services
    ensures id in st.services ==>
      var before, after := st.services[id], SyncManifest(st, sync).services[id];
      after.id == before.id && after.teamId == before.teamId && after.manifestKey == before.manifestKey
    ensures id !in st.services ==> id in MapSeq(NewId(sync), Creations(st, sync))
  {
    hide DiffNow, PerformAll, SyncOps, SyncManifest, UpdateOps, OtherOps, TidyServices, Creations, CreatedService;
    hide UniqueKeys, MapSeq;
    var d := DiffNow(st, sync);
    var created, updated := SyncPhases(st, sync);
    UpdatesKeepIdentity(d);
    OtherOpsTouch(sync, d, id);
    AllEvolve(created, UpdateOps(d));
    AllEvolve(updated, OtherOps(sync, d));
    EvolvesThrough(created.services, updated.services, SyncManifest(st, sync).services);
    assert id in created.services;
    if id in st.services {
      assert SameRow(st.services, created.services, id);
    }
  }

  lemma UpdatesKeepIdentity(d: Diff)
    ensures forall op :: op in UpdateOps(d) ==> KeepsIdentity(op)
  {
  }

  /** Ids of managed and created rows do not repeat, and the tables stay tidy. */
  lemma NextIsTidy(st: State, sync: Sync)
    requires SyncScene(st, sync)
    ensures TidyServices(SyncManifest(st, sync).services) && Distinct(SyncNext(st, sync).managed)
  {
    hide DiffOf, ManagedRows, PerformAll, SyncOps, UpdateOps, OtherOps, TidyServices, Creations, CreatedService;
    hide UniqueKeys, Transact;
    OpsKeepTidy(st, SyncOps(sync, DiffNow(st, sync)));
    var created, updated := SyncPhases(st, sync);
    var ids := MapSeq(NewId(sync), Creations(st, sync));
    forall i | 0 <= i < |ids| ensures ids[i] !in sync.managed {
      assert Creations(st, sync)[i] in Creations(st, sync);
    }
  }

  /** The row an entry finds: the updated one, the created one, or none without a public endpoint. */
  lemma FoundAfterSync(st: State, sync: Sync, e: ManifestEntry)
    requires SyncScene(st, sync) && e in sync.entries
    ensures var before := Found(Index(ManagedRows(st.services, sync)), e.key);
            var later := ManagedRows(SyncManifest(st, sync).services, SyncNext(st, sync));
            Found(Index(later), e.key) ==
              if before.Some? then Some(RowThen(e, before.value, sync.policy.onFieldDrift))
              else if IsSafe(sync)(e) then Some(CreatedService(sync, e))
              else None
  {
    hide DiffOf, ManagedRows, PerformAll, SyncOps, SyncManifest, TidyServices, Index, FieldsWith;
    hide CreatedService, RowThen, UniqueServices;
    var rows := ManagedRows(st.services, sync);
    var later := ManagedRows(SyncManifest(st, sync).services, SyncNext(st, sync));
    NextIsTidy(st, sync);
    ManagedRowsAre(st.services, sync);
    ManagedRowsAre(SyncManifest(st, sync).services, SyncNext(st, sync));
    IndexHolds(rows, e.key);
    IndexHolds(later, e.key);
    if Found(Index(rows), e.key).Some? {
      var s := Found(Index(rows), e.key).value;
      MatchedRowAfter(st, sync, e, s);
      RowKeepsPlace(e, s, sync.policy.onFieldDrift);
      FoundMatch(later, e, RowThen(e, s, sync.policy.onFieldDrift));
    } else {
      CreationsAre(st, sync, e);
      if IsSafe(sync)(e) {
        CreatedRowAfter(st, sync, e);
        CreatedPlace(sync, e);
        InMapped(NewId(sync), Creations(st, sync), e);
        FoundMatch(later, e, CreatedService(sync, e));
      } else {
        NotFoundAfter(st, sync, e);
      }
    }
  }

  lemma InMapped<A, B>(f: A -> B, xs: seq<A>, x: A)
    requires x in xs
    ensures f(x) in MapSeq(f, xs)
  {
    MappedMember(f, xs, f(x));
  }

  lemma RowKeepsPlace(e: ManifestEntry, s: Service, drift: FieldDriftPolicy)
    ensures var t := RowThen(e, s, drift); t.id == s.id && t.manifestKey == s.manifestKey && t.teamId == s.teamId
  {
    hide FieldsWith;
  }

  lemma CreatedPlace(sync: Sync, e: ManifestEntry)
    ensures var t := CreatedService(sync, e);
            t.id == sync.newService(e.key) && t.manifestKey == Some(e.key) && t.teamId == sync.teamId
  {
  }

  /** Created are the entries without a row whose endpoint is public. */
  lemma CreationsAre(st: State, sync: Sync, e: ManifestEntry)
    requires e in sync.entries
    ensures e in Creations(st, sync) <==>
      Found(Index(ManagedRows(st.services, sync)), e.key).None? && IsSafe(sync)(e)
  {
    hide DiffOf, ManagedRows, Index;
    var rows := ManagedRows(st.services, sync);
    CreatedExactlyWhenUnmatched(sync.entries, rows, sync.policy, e);
    IndexHolds(rows, e.key);
    FilterMember(IsSafe(sync), DiffNow(st, sync).toCreate, e);
  }

  lemma NotFoundAfter(st: State, sync: Sync, e: ManifestEntry)
    requires SyncScene(st, sync) && e in sync.entries && e !in Creations(st, sync)
    requires Found(Index(ManagedRows(st.services, sync)), e.key).None?
    ensures Found(Index(ManagedRows(SyncManifest(st, sync).services, SyncNext(st, sync))), e.key).None?
  {
    hide DiffOf, ManagedRows, PerformAll, SyncOps, SyncManifest, TidyServices, Index, Creations, CreatedService;
    hide UniqueServices, WellTyped;
    var after := SyncManifest(st, sync).services;
    NextIsTidy(st, sync);
    ManagedRowsAre(st.services, sync);
    ManagedRowsAre(after, SyncNext(st, sync));
    IndexHolds(ManagedRows(st.services, sync), e.key);
    IndexHolds(ManagedRows(after, SyncNext(st, sync)), e.key);
    forall t | t in ManagedRows(after, SyncNext(st, sync)) ensures !MatchesKey(e, t) {
      RowsAfterSync(st, sync, t.id);
      if t.id in st.services {
        var s := st.services[t.id];
        if t.id in MapSeq(NewId(sync), Creations(st, sync)) {
          var x := CreatedUnder(st, sync, t.id);
          CreatedRowAfter(st, sync, x);
        }
        assert s.id == t.id && s in ManagedRows(st.services, sync) by { IdsHold(st.services, t.id); }
      } else {
        var x := CreatedUnder(st, sync, t.id);
        CreatedRowAfter(st, sync, x);
        CreatedPlace(sync, x);
        CreationIsEntry(st, sync, x);
      }
    }
  }

  lemma IdsHold(services: map<string, Service>, id: string)
    requires TidyServices(services) && id in services
    ensures services[id].id == id
  {
  }

  lemma CreatedUnder(st: State, sync: Sync, id: string) returns (x: ManifestEntry)
    requires id in MapSeq(NewId(sync), Creations(st, sync))
    ensures x in Creations(st, sync) && sync.newService(x.key) == id
  {
    hide Creations;
    MappedMember(NewId(sync), Creations(st, sync), id);
    x :| x in Creations(st, sync) && NewId(sync)(x) == id;
  }

  lemma CreationIsEntry(st: State, sync: Sync, x: ManifestEntry)
    requires x in Creations(st, sync)
    ensures x in sync.entries
  {
    hide DiffOf, ManagedRows;
    FilterMember(IsSafe(sync), DiffNow(st, sync).toCreate, x);
    CreatedExactlyWhenUnmatched(sync.entries, ManagedRows(st.services, sync), sync.policy, x);
  }

  // ---------------------------------------------------------------------------
  // The diff after the sync
  // ---------------------------------------------------------------------------

  ghost predicate AllCreatedAsGiven(entries: seq<ManifestEntry>) {
    forall e, f :: e in entries ==> CreatedAsGiven(e, f)
  }

  ghost function DiffAgain(st: State, sync: Sync): Diff {
    DiffNow(SyncManifest(st, sync), SyncNext(st, sync))
  }

  lemma CreatedEntryAgain(sync: Sync, e: ManifestEntry, policy: SyncPolicy)
    requires WellTyped(e) && (policy.onFieldDrift == LocalWins || forall f :: CreatedAsGiven(e, f))
    ensures var again := EntryDiff(Some(CreatedService(sync, e)), e, policy);
            again.toUpdate == [] && again.toDrift == []
  {
    hide WellTyped, CreatedAsGiven, Classify, CreatedService;
    var s, drift := CreatedService(sync, e), policy.onFieldDrift;
    forall f ensures Classify(e, s, drift, f) != Update && Classify(e, s, drift, f) != Drift {
      ClassifyCreated(sync, e, drift, f);
    }
    FilterNone(Classified(e, s, drift, Update), SYNCABLE_FIELDS);
    FilterNone(Classified(e, s, drift, Drift), SYNCABLE_FIELDS);
  }

  lemma SettledAfterSync(st: State, sync: Sync)
    requires SyncScene(st, sync)
    requires || sync.policy.onFieldDrift == LocalWins
             || (AllStoredAsGiven(DiffNow(st, sync).toUpdate) && AllCreatedAsGiven(Creations(st, sync)))
    ensures DiffAgain(st, sync).toUpdate == [] && DiffAgain(st, sync).toDrift == DiffNow(st, sync).toDrift
  {
    hide ManagedRows, PerformAll, SyncOps, SyncManifest, TidyServices, Index, Creations, EntryDiff, EntriesDiff;
    hide WellTyped, StoredAsGiven, CreatedAsGiven, RowThen, CreatedService, DiffOf, UniqueKeys, SyncNext;
    var rows, policy := ManagedRows(st.services, sync), sync.policy;
    var later := ManagedRows(SyncManifest(st, sync).services, SyncNext(st, sync));
    assert SyncNext(st, sync).entries == sync.entries && SyncNext(st, sync).policy == policy by { NextSame(st, sync); }
    DiffParts(sync.entries, rows, policy);
    DiffParts(sync.entries, later, policy);
    forall e | e in sync.entries
      ensures EntryDiff(Found(Index(later), e.key), e, policy).toUpdate == []
      ensures EntryDiff(Found(Index(later), e.key), e, policy).toDrift
           == EntryDiff(Found(Index(rows), e.key), e, policy).toDrift {
      var found := Found(Index(rows), e.key);
      FoundAfterSync(st, sync, e);
      NewEntryDiff(e, policy);
      if found.Some? {
        forall u | u in EntryDiff(found, e, policy).toUpdate ensures u in DiffNow(st, sync).toUpdate {
          EntriesDiffHolds(Index(rows), sync.entries, policy, Updated(u));
          assert Holds(EntryDiff(Found(Index(rows), e.key), e, policy), Updated(u));
        }
        EntryAgain(e, found.value, policy);
      } else if IsSafe(sync)(e) {
        CreationsAre(st, sync, e);
        CreatedEntryAgain(sync, e, policy);
      }
    }
    EntriesAgain(Index(rows), Index(later), sync.entries, policy);
  }

  lemma NextSame(st: State, sync: Sync)
    ensures SyncNext(st, sync).entries == sync.entries && SyncNext(st, sync).policy == sync.policy
    ensures SyncNext(st, sync).teamId == sync.teamId
  {
  }

  /** The row an entry finds after the sync is among the managed ones then. */
  lemma RowAmongLater(st: State, sync: Sync, e: ManifestEntry, t: Service)
    requires SyncScene(st, sync) && e in sync.entries
    requires Found(Index(ManagedRows(SyncManifest(st, sync).services, SyncNext(st, sync))), e.key) == Some(t)
    ensures var later := ManagedRows(SyncManifest(st, sync).services, SyncNext(st, sync));
            UniqueServices(later) && t in later && MatchesKey(e, t)
  {
    hide ManagedRows, PerformAll, SyncOps, SyncManifest, TidyServices, Index, Creations, SyncNext, UniqueServices;
    NextIsTidy(st, sync);
    ManagedRowsAre(SyncManifest(st, sync).services, SyncNext(st, sync));
    IndexHolds(ManagedRows(SyncManifest(st, sync).services, SyncNext(st, sync)), e.key);
  }

  /** What the next diff says of a field of a created row. */
  lemma CreatedFieldAgain(st: State, sync: Sync, e: ManifestEntry, f: Field)
    requires SyncScene(st, sync) && e in Creations(st, sync)
    ensures var d, id, drift := DiffAgain(st, sync), sync.newService(e.key), sync.policy.onFieldDrift;
            var outcome := if CreatedAsGiven(e, f) then Skip else Unsettled(drift);
            && (UpdatesField(d, id, f) <==> outcome == Update)
            && (DriftsField(d, id, f) <==> outcome == Drift)
            && (KeepsField(d, id, f) <==> outcome == KeepLocal)
  {
    hide ManagedRows, PerformAll, SyncOps, SyncManifest, TidyServices, Index, Creations, SyncNext, UniqueServices;
    hide DiffOf, UniqueKeys, MatchesKey, Classify, CreatedService, CreatedAsGiven, UpdatesField, DriftsField;
    hide KeepsField, WellTyped;
    CreationIsEntry(st, sync, e);
    CreationsAre(st, sync, e);
    FoundAfterSync(st, sync, e);
    NextSame(st, sync);
    CreatedPlace(sync, e);
    RowAmongLater(st, sync, e, CreatedService(sync, e));
    ClassifyCreated(sync, e, sync.policy.onFieldDrift, f);
    FieldLandsOnce(sync.entries, ManagedRows(SyncManifest(st, sync).services, SyncNext(st, sync)), sync.policy, e,
      CreatedService(sync, e), f);
  }

  /** What the next diff says of a field the sync updated and did not store as given. */
  lemma UpdatedFieldAgain(st: State, sync: Sync, u: UpdateEntry, f: Field)
    requires SyncScene(st, sync) && u in DiffNow(st, sync).toUpdate && f in u.fieldsChanged
    requires !StoredAsGiven(u.entry, f)
    ensures var d, drift := DiffAgain(st, sync), sync.policy.onFieldDrift;
            && (drift == Flag ==> DriftsField(d, u.serviceId, f) && !DriftsField(DiffNow(st, sync), u.serviceId, f))
            && (drift == ManifestWins ==> UpdatesField(d, u.serviceId, f))
  {
    hide ManagedRows, PerformAll, SyncOps, SyncManifest, TidyServices, Index, Creations, SyncNext, UniqueServices;
    hide DiffOf, UniqueKeys, Classify, StoredAsGiven, UpdatesField, DriftsField, KeepsField, WellTyped, FieldsWith;
    hide RowThen, MatchesKey;
    var rows, drift := ManagedRows(st.services, sync), sync.policy.onFieldDrift;
    var later := ManagedRows(SyncManifest(st, sync).services, SyncNext(st, sync));
    ManagedRowsAre(st.services, sync);
    var e, s := UpdateOwner(sync.entries, rows, sync.policy, u);
    LandsOnlyThere(sync.entries, rows, sync.policy, e, s, f);
    FieldsWithMember(e, s, drift, Update, f);
    ClassifyAgain(e, s, drift, f);
    FoundMatch(rows, e, s);
    FoundAfterSync(st, sync, e);
    NextSame(st, sync);
    var t := RowThen(e, s, drift);
    RowKeepsPlace(e, s, drift);
    RowAmongLater(st, sync, e, t);
    FieldLandsOnce(sync.entries, rows, sync.policy, e, s, f);
    FieldLandsOnce(sync.entries, later, sync.policy, e, t, f);
  }

  /** The first diff flags managed rows only. */
  lemma DriftsManaged(st: State, sync: Sync, id: string, f: Field)
    requires SyncInput(st, sync) && DriftsField(DiffNow(st, sync), id, f)
    ensures id in st.services
  {
    hide ManagedRows, PerformAll, SyncOps, TidyServices, Index, DiffOf, EntriesDiff, EntryDiff, UniqueKeys;
    var rows := ManagedRows(st.services, sync);
    ManagedRowsAre(st.services, sync);
    var x :| x in DiffNow(st, sync).toDrift && x.serviceId == id;
    DiffParts(sync.entries, rows, sync.policy);
    assert Holds(DiffNow(st, sync), Drifted(x));
    EntriesDiffHolds(Index(rows), sync.entries, sync.policy, Drifted(x));
    var e :| e in sync.entries && Holds(EntryDiff(Found(Index(rows), e.key), e, sync.policy), Drifted(x));
    EntryNames(Found(Index(rows), e.key), e, sync.policy, Drifted(x), id);
    IndexHolds(rows, e.key);
  }

  lemma UnsettledAfterSync(st: State, sync: Sync)
    requires SyncScene(st, sync) && sync.policy.onFieldDrift != LocalWins
    requires !AllStoredAsGiven(DiffNow(st, sync).toUpdate) || !AllCreatedAsGiven(Creations(st, sync))
    ensures DiffAgain(st, sync).toUpdate != [] || DiffAgain(st, sync).toDrift != DiffNow(st, sync).toDrift
  {
    hide DiffNow, DiffAgain, PerformAll, SyncOps, TidyServices, Creations, StoredAsGiven, CreatedAsGiven, UniqueKeys;
    hide WellTyped;
    if !AllStoredAsGiven(DiffNow(st, sync).toUpdate) {
      var u, f :| u in DiffNow(st, sync).toUpdate && f in u.fieldsChanged && !StoredAsGiven(u.entry, f);
      UpdatedFieldAgain(st, sync, u, f);
    } else {
      var e, f :| e in Creations(st, sync) && !CreatedAsGiven(e, f);
      var id := sync.newService(e.key);
      CreatedFieldAgain(st, sync, e, f);
      CreatedRowAfter(st, sync, e);
      if DriftsField(DiffNow(st, sync), id, f) {
        DriftsManaged(st, sync, id, f);
        assert false;
      }
    }
  }

  /**
   * Diffing the manifest again right after a whole sync that went through finds nothing to update and the same drift,
   * exactly when edited fields are kept local, or everything updated and everything created is stored as given.
   */
  lemma DiffAgainAfterSync(st: State, sync: Sync)
    requires SyncScene(st, sync)
    ensures var d, again := DiffNow(st, sync), DiffAgain(st, sync);
            again.toUpdate == [] && again.toDrift == d.toDrift <==>
            || sync.policy.onFieldDrift == LocalWins
            || (AllStoredAsGiven(d.toUpdate) && AllCreatedAsGiven(Creations(st, sync)))
  {
    hide *;
    if sync.policy.onFieldDrift == LocalWins
      || (AllStoredAsGiven(DiffNow(st, sync).toUpdate) && AllCreatedAsGiven(Creations(st, sync))) {
      SettledAfterSync(st, sync);
    } else {
      UnsettledAfterSync(st, sync);
    }
  }
}

/**
 * What a whole sync that went through leaves of the rows and their flags, told by the manifest, the rows before and the
 * policies.
 */
module SyncOutcomes {
  import opened Common
  import opened Fields
  import opened ManifestDiffer
  import opened ManifestSync
  import opened ManifestApply
  import opened DriftRoutes
  import opened DriftDecisions
  import opened SyncRuns
  import opened SyncAgain
  import opened SyncKeeps

  // ---------------------------------------------------------------------------
  // One row
  // ---------------------------------------------------------------------------

  /** The JSON text of a value, null for nothing, zero and the empty text. */
  ghost function Printed(v: FieldValue): FieldValue {
    match v
    case Undefined => Null
    case Null => Null
    case Str(s) => if |s| > 0 then Str(Quote(s)) else Null
    case Num(n) => if n != 0 then Str(Decimal(n)) else Null
    case Obj(json) => Str(json)
  }

  /** What an update stores for a changed field; a name, an endpoint or an interval that is not given stays. */
  ghost function Stored(f: Field, given: FieldValue, before: FieldValue): FieldValue {
    match f
    case SchemaConfig => Printed(given)
    case HealthEndpointFormat => if given == Undefined || given == Null then Str("default") else given
    case Description => if given == Undefined then Null else given
    case MetricsEndpoint => if given == Undefined then Null else given
    case _ => if given == Undefined then before else given
  }

  /** What a new row stores: no endpoint and the interval 0 for an OTLP service, half a minute without an interval. */
  ghost function StoredNew(f: Field, given: FieldValue, isOtlp: bool): FieldValue {
    match f
    case HealthEndpoint => if isOtlp then Str("") else given
    case PollIntervalMs =>
      if isOtlp then Num(0) else if given == Undefined || given == Null then Num(30000) else given
    case _ => Stored(f, given, given)
  }

  lemma UpdatedField(s: Service, u: UpdateEntry, f: Field)
    ensures Applied(s, u).columns.Get(f) ==
            if f in u.fieldsChanged then Stored(f, u.entry.fields.Get(f), s.columns.Get(f)) else s.columns.Get(f)
  {
    hide Quote, Decimal, Record.Get, Record.Patched;
    GetPatched(s.columns, InputOf(u), f);
  }

  lemma CreatedField(e: ManifestEntry, f: Field)
    ensures CreatedColumns(e).Get(f) ==
            StoredNew(f, e.fields.Get(f), e.fields.healthEndpointFormat == Str("otlp"))
  {
    hide Quote, Decimal;
  }

  /** The manifest gives the field, with another text than the stored one. */
  predicate GivenOtherwise(e: ManifestEntry, s: Service, f: Field) {
    && e.fields.Get(f) != Undefined
    && NormalizeToString(e.fields.Get(f)) != NormalizeToString(s.columns.Get(f))
  }

  /** The stored text is not the one last synced. */
  predicate EditedByHand(s: Service, f: Field) {
    match s.lastSynced
    case Values(synced) => NormalizeToString(s.columns.Get(f)) != NormalizeToString(synced.Get(f))
    case NoSnapshot => false
    case Corrupt => false
  }

  /** The manifest's value goes in: always over a value that was not edited, and over an edited one if it wins. */
  predicate Taken(e: ManifestEntry, s: Service, policy: SyncPolicy, f: Field) {
    GivenOtherwise(e, s, f) && (EditedByHand(s, f) ==> policy.onFieldDrift == ManifestWins)
  }

  lemma TakenIsUpdate(e: ManifestEntry, s: Service, policy: SyncPolicy, f: Field)
    ensures Taken(e, s, policy, f) <==> Classify(e, s, policy.onFieldDrift, f) == Update
    ensures GivenOtherwise(e, s, f) && EditedByHand(s, f) && policy.onFieldDrift == Flag <==>
            Classify(e, s, policy.onFieldDrift, f) == Drift
    ensures GivenOtherwise(e, s, f) <==> Classify(e, s, policy.onFieldDrift, f) != Skip
  {
    hide NormalizeToString;
  }

  lemma RowThenInFields(e: ManifestEntry, s: Service, policy: SyncPolicy, f: Field)
    ensures var after := RowThen(e, s, policy.onFieldDrift);
            && after == s.(columns := after.columns, lastSynced := after.lastSynced)
            && after.columns.Get(f) ==
                 (if Taken(e, s, policy, f) then Stored(f, e.fields.Get(f), s.columns.Get(f)) else s.columns.Get(f))
            && after.lastSynced == if exists g :: Taken(e, s, policy, g) then Values(e.fields) else s.lastSynced
  {
    hide Taken, Stored, Record.Get, Record.Patched, InputOf, Classify, FieldsWith;
    var drift := policy.onFieldDrift;
    var updates := FieldsWith(e, s, drift, Update);
    forall g ensures g in updates <==> Taken(e, s, policy, g) {
      FieldsWithMember(e, s, drift, Update, g);
      TakenIsUpdate(e, s, policy, g);
    }
    if updates != [] {
      assert updates[0] in updates;
      UpdatedField(s, UpdateEntry(e, s.id, updates), f);
    }
  }

  // ---------------------------------------------------------------------------
  // Rows after the sync
  // ---------------------------------------------------------------------------

  /** The sync owns the row: its configuration manages it and the team has it. */
  ghost predicate Owns(st: State, sync: Sync, s: Service) {
    s.id in sync.managed && s.id in st.services && st.services[s.id] == s && s.teamId == sync.teamId
  }

  predicate HasKeyOf(s: Service, e: ManifestEntry) {
    s.manifestKey == Some(e.key)
  }

  lemma OwnedRows(st: State, sync: Sync)
    requires SyncInput(st, sync)
    ensures forall s :: s in ManagedRows(st.services, sync) <==> Owns(st, sync, s)
    ensures forall e, s :: e in sync.entries ==> (HasKeyOf(s, e) <==> MatchesKey(e, s))
    ensures UniqueServices(ManagedRows(st.services, sync))
  {
    ManagedRowsAre(st.services, sync);
    hide ManagedRows, TidyServices, UniqueKeys, WellTyped, UniqueServices;
  }

  /**
   * A row whose key the manifest names ends with the manifest's values in exactly the fields that are taken, and with
   * the manifest's values as its snapshot when any is.
   */
  lemma MatchedAfterSync(st: State, sync: Sync, e: ManifestEntry, s: Service, f: Field)
    requires SyncScene(st, sync) && e in sync.entries && Owns(st, sync, s) && HasKeyOf(s, e)
    ensures s.id in SyncManifest(st, sync).services
    ensures var after := SyncManifest(st, sync).services[s.id];
            && after == s.(columns := after.columns, lastSynced := after.lastSynced)
            && after.columns.Get(f) ==
                 (if Taken(e, s, sync.policy, f) then Stored(f, e.fields.Get(f), s.columns.Get(f))
                  else s.columns.Get(f))
            && after.lastSynced ==
                 if exists g :: Taken(e, s, sync.policy, g) then Values(e.fields) else s.lastSynced
  {
    assert SyncInput(st, sync);
    hide *;
    OwnedRowMatches(st, sync, e, s);
    MatchedRowAfter(st, sync, e, s);
    RowThenInFields(e, s, sync.policy, f);
  }

  lemma OwnedRowMatches(st: State, sync: Sync, e: ManifestEntry, s: Service)
    requires SyncInput(st, sync) && e in sync.entries && Owns(st, sync, s) && HasKeyOf(s, e)
    ensures s in ManagedRows(st.services, sync) && MatchesKey(e, s) && UniqueServices(ManagedRows(st.services, sync))
  {
    OwnedRows(st, sync);
    hide ManagedRows, TidyServices, UniqueKeys, WellTyped, UniqueServices;
  }

  /** An entry whose key no owned row has, and whose endpoint is a text that may be polled, gets this row. */
  lemma CreatedAfterSync(st: State, sync: Sync, e: ManifestEntry, f: Field)
    requires SyncScene(st, sync) && e in sync.entries && forall s :: Owns(st, sync, s) ==> !HasKeyOf(s, e)
    requires e.fields.healthEndpoint.Str? && |e.fields.healthEndpoint.text| > 0
    requires sync.isPublic(e.fields.healthEndpoint.text)
    ensures var id := sync.newService(e.key);
            && id !in st.services && id in SyncManifest(st, sync).services
            && var row := SyncManifest(st, sync).services[id];
               && row == Service(id, sync.teamId, Some(e.key), true, row.columns, Values(e.fields))
               && row.columns.Get(f) == StoredNew(f, e.fields.Get(f), e.fields.healthEndpointFormat == Str("otlp"))
  {
    IsCreation(st, sync, e);
    hide Creations, SyncManifest, SyncScene, CreatedColumns, Owns, StoredNew;
    CreatedRowAfter(st, sync, e);
    CreatedField(e, f);
  }

  lemma IsCreation(st: State, sync: Sync, e: ManifestEntry)
    requires SyncInput(st, sync) && e in sync.entries && forall s :: Owns(st, sync, s) ==> !HasKeyOf(s, e)
    requires e.fields.healthEndpoint.Str? && |e.fields.healthEndpoint.text| > 0
    requires sync.isPublic(e.fields.healthEndpoint.text)
    ensures e in Creations(st, sync)
  {
    OwnedRows(st, sync);
    CreationsAre(st, sync, e);
    IndexHolds(ManagedRows(st.services, sync), e.key);
    hide Creations, ManagedRows, Index, TidyServices, WellTyped, UniqueServices;
  }

  // ---------------------------------------------------------------------------
  // The operations of a sync
  // ---------------------------------------------------------------------------

  /** What a sync does for a diff: each list of the diff, and nothing else. */
  ghost predicate IsEntryOp(sync: Sync, d: Diff, op: TableOp) {
    match op
    case CreateRow(teamId, e, id) =>
      e in d.toCreate && IsSafe(sync)(e) && teamId == sync.teamId && id == sync.newService(e.key)
    case UpdateRow(u) => u in d.toUpdate
    case RaiseField(x, flagId) => x in d.toDrift && flagId == sync.newFlag(x.serviceId, Some(x.field))
    case _ => false
  }

  ghost predicate IsRemovalOp(sync: Sync, d: Diff, op: TableOp) {
    match op
    case DeactivateRow(id) => id in d.toDeactivate
    case DeleteRow(id) => id in d.toDelete
    case RaiseRemoval(id, flagId) => id in d.removalDrift && flagId == sync.newFlag(id, None)
    case _ => false
  }

  ghost predicate IsResolveOp(d: Diff, op: TableOp) {
    match op
    case ResolveRemovals(id) => id in d.unchangedIds || exists u :: u in d.toUpdate && u.serviceId == id
    case _ => false
  }

  lemma EntryOpsAre(sync: Sync, d: Diff, op: TableOp)
    ensures op in EntryOps(sync, d) <==> IsEntryOp(sync, d, op)
  {
    var safe := Filter(IsSafe(sync), d.toCreate);
    var toRow := u => UpdateRow(u);
    MappedMember(Creation(sync), safe, op);
    MappedMember(toRow, d.toUpdate, op);
    MappedMember(Raising(sync), d.toDrift, op);
    if op.CreateRow? {
      FilterMember(IsSafe(sync), d.toCreate, op.entry);
      assert Creation(sync)(op.entry) == op <==>
             op.teamId == sync.teamId && op.id == sync.newService(op.entry.key);
    } else if op.UpdateRow? {
      assert toRow(op.update) == op;
    } else if op.RaiseField? {
      assert Raising(sync)(op.drift) == op <==> op.flagId == sync.newFlag(op.drift.serviceId, Some(op.drift.field));
    }
    assert EntryOps(sync, d) == MapSeq(Creation(sync), safe) + MapSeq(toRow, d.toUpdate)
                                + MapSeq(Raising(sync), d.toDrift);
  }

  lemma RemovalOpsAre(sync: Sync, d: Diff, op: TableOp)
    ensures op in RemovalOps(sync, d) <==> IsRemovalOp(sync, d, op)
  {
    var toStop, toDeletion := id => DeactivateRow(id), id => DeleteRow(id);
    MappedMember(toStop, d.toDeactivate, op);
    MappedMember(toDeletion, d.toDelete, op);
    MappedMember(RaisingRemoval(sync), d.removalDrift, op);
    if op.DeactivateRow? {
      assert toStop(op.id) == op;
    } else if op.DeleteRow? {
      assert toDeletion(op.id) == op;
    } else if op.RaiseRemoval? {
      assert RaisingRemoval(sync)(op.id) == op <==> op.flagId == sync.newFlag(op.id, None);
    }
    assert RemovalOps(sync, d) == MapSeq(toStop, d.toDeactivate) + MapSeq(toDeletion, d.toDelete)
                                  + MapSeq(RaisingRemoval(sync), d.removalDrift);
  }

  lemma ResolveOpsAre(d: Diff, op: TableOp)
    ensures op in ResolveOps(d) <==> IsResolveOp(d, op)
  {
    var targets, toResolution := MapSeq(TargetOf(), d.toUpdate), id => ResolveRemovals(id);
    MappedMember(toResolution, targets + d.unchangedIds, op);
    assert ResolveOps(d) == MapSeq(toResolution, targets + d.unchangedIds);
    if op.ResolveRemovals? {
      assert toResolution(op.id) == op;
      MappedMember(TargetOf(), d.toUpdate, op.id);
    }
  }

  // ---------------------------------------------------------------------------
  // Whom the operations name
  // ---------------------------------------------------------------------------

  /** The id is that of an owned row whose key some entry has. */
  ghost predicate IsMatched(st: State, sync: Sync, id: string) {
    exists e, s :: e in sync.entries && Owns(st, sync, s) && HasKeyOf(s, e) && s.id == id
  }

  lemma ItemNamesMatched(st: State, sync: Sync, item: Item, id: string)
    requires SyncInput(st, sync) && Holds(DiffNow(st, sync), item) && Names(item, id)
    ensures IsMatched(st, sync, id)
  {
    hide DiffOf, EntriesDiff, EntryDiff, Names, ManagedRows, Index, TidyServices, WellTyped, Owns, HasKeyOf;
    var rows := ManagedRows(st.services, sync);
    OwnedRows(st, sync);
    DiffParts(sync.entries, rows, sync.policy);
    EntriesDiffHolds(Index(rows), sync.entries, sync.policy, item);
    var e :| e in sync.entries && Holds(EntryDiff(Found(Index(rows), e.key), e, sync.policy), item);
    EntryNames(Found(Index(rows), e.key), e, sync.policy, item, id);
    IndexHolds(rows, e.key);
    var s := Found(Index(rows), e.key).value;
    assert Owns(st, sync, s) && HasKeyOf(s, e);
  }

  /** Updates, drift flags and resolutions name matched rows. */
  lemma NamedAreMatched(st: State, sync: Sync, id: string)
    requires SyncInput(st, sync) && !IsMatched(st, sync, id)
    ensures var d := DiffNow(st, sync);
            && (forall u :: u in d.toUpdate ==> u.serviceId != id)
            && (forall x :: x in d.toDrift ==> x.serviceId != id)
            && id !in d.unchangedIds
  {
    hide DiffNow, IsMatched, SyncInput;
    var d := DiffNow(st, sync);
    forall u | u in d.toUpdate ensures u.serviceId != id {
      if u.serviceId == id {
        assert Holds(d, Updated(u)) && Names(Updated(u), id);
        ItemNamesMatched(st, sync, Updated(u), id);
      }
    }
    forall x | x in d.toDrift ensures x.serviceId != id {
      if x.serviceId == id {
        assert Holds(d, Drifted(x)) && Names(Drifted(x), id);
        ItemNamesMatched(st, sync, Drifted(x), id);
      }
    }
    if id in d.unchangedIds {
      assert Holds(d, Same(id)) && Names(Same(id), id);
      ItemNamesMatched(st, sync, Same(id), id);
    }
  }

  /** The row is owned and keyed, and no entry has its key. */
  ghost predicate IsRemoved(st: State, sync: Sync, s: Service) {
    && Owns(st, sync, s) && s.manifestKey.Some? && |s.manifestKey.value| > 0
    && forall e :: e in sync.entries ==> !HasKeyOf(s, e)
  }

  lemma RemovedAre(st: State, sync: Sync, id: string)
    requires SyncInput(st, sync)
    ensures id in RemovedIds(ManagedRows(st.services, sync), Keys(sync.entries)) <==>
      exists s :: IsRemoved(st, sync, s) && s.id == id
  {
    var rows, keys := ManagedRows(st.services, sync), Keys(sync.entries);
    OwnedRows(st, sync);
    MappedMember(IdOf(), Filter(RemovedBy(keys), rows), id);
    FilterMembers(RemovedBy(keys), rows);
    hide ManagedRows, Filter, TidyServices, WellTyped, Owns, UniqueServices, UniqueKeys;
    forall s ensures s in Filter(RemovedBy(keys), rows) <==> IsRemoved(st, sync, s) {
      if Owns(st, sync, s) {
        assert RemovedBy(keys)(s) <==> IsRemoved(st, sync, s);
      }
    }
    if s :| IsRemoved(st, sync, s) && s.id == id {
      assert IdOf()(s) == id;
    }
  }

  /** Removals name the removed rows, in the one list of the policy. */
  lemma RemovalsName(st: State, sync: Sync, id: string)
    requires SyncInput(st, sync)
    ensures var d, removed, onRemoval := DiffNow(st, sync), exists s :: IsRemoved(st, sync, s) && s.id == id,
                                         sync.policy.onRemoval;
            && (id in d.toDeactivate <==> removed && onRemoval == Deactivate)
            && (id in d.toDelete <==> removed && onRemoval == Delete)
            && (id in d.removalDrift <==> removed && onRemoval == FlagRemoval)
  {
    hide DiffOf, ManagedRows, RemovedIds, IsRemoved, TidyServices, WellTyped;
    RemovedAre(st, sync, id);
    RemovedOnceByPolicy(sync.entries, ManagedRows(st.services, sync), sync.policy);
  }

  lemma SyncOpsAre(sync: Sync, d: Diff, op: TableOp)
    ensures op in SyncOps(sync, d) <==> IsEntryOp(sync, d, op) || IsRemovalOp(sync, d, op) || IsResolveOp(d, op)
  {
    EntryOpsAre(sync, d, op);
    RemovalOpsAre(sync, d, op);
    ResolveOpsAre(d, op);
    hide EntryOps, RemovalOps, ResolveOps, IsEntryOp, IsRemovalOp, IsResolveOp;
  }

  lemma SyncEnds(st: State, sync: Sync)
    requires SyncScene(st, sync)
    ensures SyncInput(st, sync) && PerformAll(st, SyncOps(sync, DiffNow(st, sync))) == Some(SyncManifest(st, sync))
  {
    hide SyncOps, PerformAll, DiffOf;
  }

  lemma OwnedIsStored(st: State, sync: Sync, s: Service)
    requires Owns(st, sync, s)
    ensures RowThere(s)(st) && RowSame(s)(st)
  {
  }

  // ---------------------------------------------------------------------------
  // Rows the manifest does not name
  // ---------------------------------------------------------------------------

  /** No operation names a row that is neither matched nor removed. */
  lemma OthersNotNamed(st: State, sync: Sync, id: string, op: TableOp)
    requires SyncInput(st, sync) && !IsMatched(st, sync, id)
    requires forall s :: IsRemoved(st, sync, s) ==> s.id != id
    requires op in SyncOps(sync, DiffNow(st, sync))
    ensures NamesNot(op, id)
  {
    hide SyncOps, DiffNow, IsMatched, IsRemoved, SyncInput;
    SyncOpsAre(sync, DiffNow(st, sync), op);
    NamedAreMatched(st, sync, id);
    RemovalsName(st, sync, id);
  }

  /** A row that is not the sync's, or has no key, is left alone with all its flags. */
  lemma OthersAfterSync(st: State, sync: Sync, id: string)
    requires SyncScene(st, sync) && id in st.services && !IsMatched(st, sync, id)
    requires forall s :: IsRemoved(st, sync, s) ==> s.id != id
    ensures var after := SyncManifest(st, sync);
            && id in after.services && after.services[id] == st.services[id]
            && forall g: string ::
                 if g in st.flags && st.flags[g].serviceId == id then g in after.flags && after.flags[g] == st.flags[g]
                 else g in after.flags ==> after.flags[g].serviceId != id
  {
    SyncEnds(st, sync);
    IdsHold(st.services, id);
    hide SyncOps, DiffNow, IsMatched, IsRemoved, SyncInput, PerformAll, Perform, SyncManifest, NamesNot, Keeps;
    var row, ops := st.services[id], SyncOps(sync, DiffNow(st, sync));
    forall op | op in ops ensures Keeps(op, RowSame(row)) && Keeps(op, FlagsSame(id, st.flags)) {
      OthersNotNamed(st, sync, id, op);
      NamesNotSpares(op, id);
      KeepsRowSame(op, row);
      KeepsFlagsSame(op, id, st.flags);
    }
    HoldsThroughout(st, ops, RowSame(row));
    HoldsThroughout(st, ops, FlagsSame(id, st.flags));
  }

  lemma NamesNotSpares(op: TableOp, id: string)
    requires NamesNot(op, id)
    ensures SparesAll(op, id) && RaisesNothing(op, id)
  {
  }

  lemma RemovedNotMatched(st: State, sync: Sync, s: Service)
    requires SyncInput(st, sync) && IsRemoved(st, sync, s)
    ensures !IsMatched(st, sync, s.id)
  {
    hide TidyServices, WellTyped;
  }

  /** No update, drift flag or resolution names a removed row; removals name it by the policy alone. */
  lemma RemovedIsNamed(st: State, sync: Sync, s: Service, op: TableOp)
    requires SyncInput(st, sync) && IsRemoved(st, sync, s) && op in SyncOps(sync, DiffNow(st, sync))
    ensures SparesRow(op, s.id) || op == DeleteRow(s.id)
    ensures sync.policy.onRemoval != Delete ==> op != DeleteRow(s.id)
    ensures sync.policy.onRemoval != Deactivate ==> op != DeactivateRow(s.id)
    ensures sync.policy.onRemoval != FlagRemoval ==> RaisesNothing(op, s.id)
    ensures op != ResolveRemovals(s.id)
  {
    hide SyncOps, DiffNow, IsMatched, IsRemoved, SyncInput;
    SyncOpsAre(sync, DiffNow(st, sync), op);
    RemovedNotMatched(st, sync, s);
    NamedAreMatched(st, sync, s.id);
    RemovalsName(st, sync, s.id);
  }

  /** The policy's operation on a removed row is among those of the sync. */
  lemma RemovalIsPerformed(st: State, sync: Sync, s: Service)
    requires SyncInput(st, sync) && IsRemoved(st, sync, s)
    ensures var ops, onRemoval := SyncOps(sync, DiffNow(st, sync)), sync.policy.onRemoval;
            && (onRemoval == Deactivate ==> DeactivateRow(s.id) in ops)
            && (onRemoval == Delete ==> DeleteRow(s.id) in RemovalOps(sync, DiffNow(st, sync)))
            && (onRemoval == FlagRemoval ==> RaiseRemoval(s.id, sync.newFlag(s.id, None)) in ops)
  {
    hide SyncOps, RemovalOps, DiffNow, IsRemoved, SyncInput;
    var d := DiffNow(st, sync);
    RemovalsName(st, sync, s.id);
    SyncOpsAre(sync, d, DeactivateRow(s.id));
    RemovalOpsAre(sync, d, DeleteRow(s.id));
    SyncOpsAre(sync, d, RaiseRemoval(s.id, sync.newFlag(s.id, None)));
  }

  /** A row that the manifest no longer names is stopped and its flags are closed, when the policy is to deactivate. */
  lemma DeactivatedAfterSync(st: State, sync: Sync, s: Service)
    requires SyncScene(st, sync) && IsRemoved(st, sync, s) && sync.policy.onRemoval == Deactivate
    ensures var after := SyncManifest(st, sync);
            && s.id in after.services && after.services[s.id] == s.(isActive := false)
            && forall g: string ::
                 if g in st.flags && st.flags[g].serviceId == s.id then
                   && g in after.flags
                   && after.flags[g] == if WasOpen(st.flags[g]) then st.flags[g].(status := Resolved) else st.flags[g]
                 else g in after.flags ==> after.flags[g].serviceId != s.id
  {
    SyncEnds(st, sync);
    OwnedIsStored(st, sync, s);
    hide SyncOps, DiffNow, IsRemoved, SyncInput, PerformAll, Perform, SyncManifest, Keeps, RowThere, SparesRow;
    hide RaisesNothing;
    var ops, op := SyncOps(sync, DiffNow(st, sync)), DeactivateRow(s.id);
    RemovalIsPerformed(st, sync, s);
    forall o | o in ops
      ensures Keeps(o, RowThere(s)) && Keeps(o, Stopped(s)) && Keeps(o, FlagsSettled(s.id, st.flags)) {
      RemovedIsNamed(st, sync, s, o);
      KeepsFlagsSettled(o, s.id, st.flags);
      KeepsRow(o, s);
      KeepsStopped(o, s);
    }
    forall x | RowThere(s)(x) && Perform(x, op).Some? ensures Stopped(s)(Perform(x, op).value) {
      DeactivationStops(x, s);
    }
    HoldsFrom(st, ops, op, RowThere(s), Stopped(s));
    HoldsThroughout(st, ops, FlagsSettled(s.id, st.flags));
  }

  /** It is gone with its flags, when the policy is to delete. */
  lemma DeletedAfterSync(st: State, sync: Sync, s: Service)
    requires SyncScene(st, sync) && IsRemoved(st, sync, s) && sync.policy.onRemoval == Delete
    ensures var after := SyncManifest(st, sync);
            && s.id !in after.services
            && forall g :: g in after.flags ==> after.flags[g].serviceId != s.id
  {
    SyncEnds(st, sync);
    OwnedIsStored(st, sync, s);
    var d := DiffNow(st, sync);
    var first, rest, op := EntryOps(sync, d), RemovalOps(sync, d) + ResolveOps(d), DeleteRow(s.id);
    assert SyncOps(sync, d) == first + rest;
    hide EntryOps, RemovalOps, ResolveOps, DiffNow, IsRemoved, SyncInput, PerformAll, Perform, SyncManifest, Keeps;
    hide RaisesNothing, RowThere, ThereOrGone, IsEntryOp;
    PerformAppend(st, first, rest);
    var mid := PerformAll(st, first).value;
    RemovalIsPerformed(st, sync, s);
    forall o | o in first ensures Keeps(o, RowIn(s.id)) {
      EntryOpsAre(sync, d, o);
      EntryOpDeletesNothing(sync, d, o, s.id);
      KeepsRowIn(o, s.id);
    }
    StoredIsIn(st, s);
    HoldsThroughout(st, first, RowIn(s.id));
    assert op in rest;
    forall o | o in rest ensures Keeps(o, ThereOrGone(s.id)) && Keeps(o, Gone(s.id)) {
      assert o in SyncOps(sync, d);
      RemovedIsNamed(st, sync, s, o);
      LaterOpCreatesNothing(sync, d, o);
      KeepsGone(o, s.id);
    }
    forall x | ThereOrGone(s.id)(x) && Perform(x, op).Some? ensures Gone(s.id)(Perform(x, op).value) {
      DeletionLeavesNothing(x, s.id);
    }
    assert ThereOrGone(s.id)(mid) by { InIsThere(mid, s.id); }
    HoldsFrom(mid, rest, op, ThereOrGone(s.id), Gone(s.id));
  }

  ghost function RowIn(id: string): State -> bool {
    (s: State) => id in s.services
  }

  lemma KeepsRowIn(op: TableOp, id: string)
    requires op != DeleteRow(id)
    ensures Keeps(op, RowIn(id))
  {
    hide Perform;
    forall s: State | id in s.services && Perform(s, op).Some? ensures id in Perform(s, op).value.services {
      KeysStay(s, op, id);
    }
  }

  lemma StoredIsIn(st: State, row: Service)
    requires RowThere(row)(st)
    ensures RowIn(row.id)(st)
  {
  }

  lemma InIsThere(st: State, id: string)
    requires RowIn(id)(st)
    ensures ThereOrGone(id)(st)
  {
  }

  lemma EntryOpDeletesNothing(sync: Sync, d: Diff, op: TableOp, id: string)
    requires IsEntryOp(sync, d, op)
    ensures op != DeleteRow(id)
  {
  }

  lemma LaterOpCreatesNothing(sync: Sync, d: Diff, op: TableOp)
    requires op in RemovalOps(sync, d) + ResolveOps(d)
    ensures !op.CreateRow? && !op.AddRow?
  {
    hide RemovalOps, ResolveOps;
    RemovalOpsAre(sync, d, op);
    ResolveOpsAre(d, op);
  }

  /** It stays as it is under an open removal flag, when the policy is to flag it. */
  lemma FlaggedAfterSync(st: State, sync: Sync, s: Service)
    requires SyncScene(st, sync) && IsRemoved(st, sync, s) && sync.policy.onRemoval == FlagRemoval
    ensures var after := SyncManifest(st, sync);
            && s.id in after.services && after.services[s.id] == s
            && (exists g :: OpenRemoval(after.flags, g, s.id))
            && ((forall g :: !OpenRemoval(st.flags, g, s.id)) ==>
                  exists g :: OpenRemoval(after.flags, g, s.id) && after.flags[g].status == Pending)
  {
    SyncEnds(st, sync);
    OwnedIsStored(st, sync, s);
    hide SyncOps, DiffNow, IsRemoved, SyncInput, PerformAll, Perform, SyncManifest, Keeps, OpenRemoval;
    var ops, op := SyncOps(sync, DiffNow(st, sync)), RaiseRemoval(s.id, sync.newFlag(s.id, None));
    RemovalIsPerformed(st, sync, s);
    forall o | o in ops
      ensures Keeps(o, RowSame(s)) && Keeps(o, RemovalFlagged(s.id)) && Keeps(o, Anything())
      ensures Keeps(o, NoneOrPending(s.id)) {
      RemovedIsNamed(st, sync, s, o);
      KeepsNoneOrPending(o, s.id);
      KeepsRowSame(o, s);
      KeepsRemoval(o, s.id);
      KeepsAnything(o);
    }
    forall x | Perform(x, op).Some? ensures RemovalFlagged(s.id)(Perform(x, op).value) {
      RemovalRaised(x, s.id, op.flagId);
    }
    HoldsThroughout(st, ops, RowSame(s));
    HoldsFrom(st, ops, op, Anything(), RemovalFlagged(s.id));
    if forall g :: !OpenRemoval(st.flags, g, s.id) {
      HoldsThroughout(st, ops, NoneOrPending(s.id));
    }
  }

  // ---------------------------------------------------------------------------
  // Flags of rows the manifest names
  // ---------------------------------------------------------------------------

  /** The drift entries that name a matched row tell the manifest's text and the stored one. */
  lemma DriftTexts(st: State, sync: Sync, e: ManifestEntry, s: Service, f: Field)
    requires SyncInput(st, sync) && e in sync.entries && Owns(st, sync, s) && HasKeyOf(s, e)
    ensures var d, x := DiffNow(st, sync),
                        DriftEntry(e, s.id, f, NormalizeToString(e.fields.Get(f)), NormalizeToString(s.columns.Get(f)));
            && (x in d.toDrift <==>
                  GivenOtherwise(e, s, f) && EditedByHand(s, f) && sync.policy.onFieldDrift == Flag)
            && (forall y :: y in d.toDrift && y.serviceId == s.id && y.field == f ==> y == x)
            && (forall y :: y in d.toKeepLocal && y.serviceId == s.id && y.field == f ==> y == x)
  {
    hide DiffOf, ManagedRows, TidyServices, WellTyped, Classify, UniqueKeys, UniqueServices, GivenOtherwise;
    hide EditedByHand, NormalizeToString, MatchesKey, Owns;
    var rows := ManagedRows(st.services, sync);
    OwnedRowMatches(st, sync, e, s);
    FieldLandsOnce(sync.entries, rows, sync.policy, e, s, f);
    LandsOnlyThere(sync.entries, rows, sync.policy, e, s, f);
    TakenIsUpdate(e, s, sync.policy, f);
  }

  /** No removal names a matched row, and another flag on its field tells the same. */
  lemma MatchedIsNamed(st: State, sync: Sync, e: ManifestEntry, s: Service, f: Field, op: TableOp)
    requires SyncInput(st, sync) && e in sync.entries && Owns(st, sync, s) && HasKeyOf(s, e)
    requires op in SyncOps(sync, DiffNow(st, sync))
    ensures SparesField(op, s.id, f, NormalizeToString(e.fields.Get(f)), NormalizeToString(s.columns.Get(f)))
    ensures op.DeactivateRow? || op.DeleteRow? || op.RaiseRemoval? ==> op.id != s.id
  {
    hide SyncOps, DiffNow, SyncInput, NormalizeToString, Owns;
    SyncOpsAre(sync, DiffNow(st, sync), op);
    DriftTexts(st, sync, e, s, f);
    RemovalsName(st, sync, s.id);
    MatchedNotRemoved(st, sync, e, s);
  }

  lemma MatchedNotRemoved(st: State, sync: Sync, e: ManifestEntry, s: Service)
    requires SyncInput(st, sync) && e in sync.entries && Owns(st, sync, s) && HasKeyOf(s, e)
    ensures forall r :: IsRemoved(st, sync, r) ==> r.id != s.id
  {
    hide TidyServices, WellTyped;
  }

  /**
   * A field edited by hand that the manifest gives otherwise is flagged, when the policy is to flag drift: an open flag
   * tells the manifest's text and the stored one, unless one dismissed over the same manifest text stays dismissed.
   */
  lemma DriftFlaggedAfterSync(st: State, sync: Sync, e: ManifestEntry, s: Service, f: Field)
    requires SyncScene(st, sync) && e in sync.entries && Owns(st, sync, s) && HasKeyOf(s, e)
    requires GivenOtherwise(e, s, f) && EditedByHand(s, f) && sync.policy.onFieldDrift == Flag
    ensures exists g :: OpenOn(SyncManifest(st, sync).flags, g, s.id, f)
                        && Tells(SyncManifest(st, sync).flags[g], NormalizeToString(e.fields.Get(f)),
                                 NormalizeToString(s.columns.Get(f)))
  {
    SyncEnds(st, sync);
    hide SyncOps, DiffNow, SyncInput, PerformAll, Perform, SyncManifest, Keeps, GivenOtherwise, EditedByHand, Owns;
    hide NormalizeToString, OpenOn, Tells, SparesField;
    var given, stored := NormalizeToString(e.fields.Get(f)), NormalizeToString(s.columns.Get(f));
    var d, x := DiffNow(st, sync), DriftEntry(e, s.id, f, given, stored);
    var ops, op := SyncOps(sync, d), RaiseField(x, sync.newFlag(s.id, Some(f)));
    DriftTexts(st, sync, e, s, f);
    SyncOpsAre(sync, d, op);
    forall o | o in ops ensures Keeps(o, FlagRaised(s.id, f, given, stored)) && Keeps(o, Anything()) {
      MatchedIsNamed(st, sync, e, s, f, o);
      KeepsRaised(o, s.id, f, given, stored);
      KeepsAnything(o);
    }
    RaisingTells(x, op.flagId);
    HoldsFrom(st, ops, op, Anything(), FlagRaised(s.id, f, given, stored));
  }

  /** Resolutions name the matched rows with a field taken, and those with none given otherwise. */
  lemma ResolutionsName(st: State, sync: Sync, e: ManifestEntry, s: Service)
    requires SyncInput(st, sync) && e in sync.entries && Owns(st, sync, s) && HasKeyOf(s, e)
    ensures IsResolveOp(DiffNow(st, sync), ResolveRemovals(s.id)) <==>
      (exists f :: Taken(e, s, sync.policy, f)) || forall f :: !GivenOtherwise(e, s, f)
  {
    hide DiffOf, ManagedRows, TidyServices, WellTyped, Classify, UniqueKeys, UniqueServices, Owns, HasKeyOf;
    hide MatchesKey, Taken, GivenOtherwise, FieldsWith, Differs;
    var rows, d, drift := ManagedRows(st.services, sync), DiffNow(st, sync), sync.policy.onFieldDrift;
    OwnedRowMatches(st, sync, e, s);
    UnchangedExactlyWhenAllSkipped(sync.entries, rows, sync.policy, e, s);
    forall f ensures Differs(e, s, f) <==> GivenOtherwise(e, s, f) {
      SameDifference(e, s, f);
    }
    var fields := FieldsWith(e, s, drift, Update);
    forall f ensures f in fields <==> Taken(e, s, sync.policy, f) {
      FieldsWithMember(e, s, drift, Update, f);
      TakenIsUpdate(e, s, sync.policy, f);
    }
    UpdatesOfMatched(sync.entries, rows, sync.policy, e, s);
    if fields != [] {
      assert fields[0] in fields;
      assert UpdateEntry(e, s.id, fields) in d.toUpdate;
    }
  }

  lemma SameDifference(e: ManifestEntry, s: Service, f: Field)
    ensures Differs(e, s, f) <==> GivenOtherwise(e, s, f)
  {
  }

  /**
   * A row back in the manifest has no open removal flag left when a field of it was taken or none is given otherwise;
   * when all that is given otherwise is left as edited, its removal flag stays open.
   */
  lemma RemovalFlagsAfterSync(st: State, sync: Sync, e: ManifestEntry, s: Service)
    requires SyncScene(st, sync) && e in sync.entries && Owns(st, sync, s) && HasKeyOf(s, e)
    ensures var after := SyncManifest(st, sync);
            if (exists f :: Taken(e, s, sync.policy, f)) || forall f :: !GivenOtherwise(e, s, f) then
              && (forall g :: !OpenRemoval(after.flags, g, s.id))
              && (forall g :: OpenRemoval(st.flags, g, s.id) ==>
                    g in after.flags && after.flags[g] == st.flags[g].(status := Resolved))
            else (exists g :: OpenRemoval(st.flags, g, s.id)) ==> exists g :: OpenRemoval(after.flags, g, s.id)
  {
    SyncEnds(st, sync);
    ResolutionsName(st, sync, e, s);
    var d, op := DiffNow(st, sync), ResolveRemovals(s.id);
    var first, last := EntryOps(sync, d) + RemovalOps(sync, d), ResolveOps(d);
    ResolveOpsAre(d, op);
    assert SyncOps(sync, d) == first + last;
    hide EntryOps, RemovalOps, ResolveOps, DiffNow, SyncInput, PerformAll, Perform, SyncManifest, Keeps, Owns, Taken;
    hide GivenOtherwise, OpenRemoval, IsResolveOp;
    if op in last {
      PerformAppend(st, first, last);
      var mid := PerformAll(st, first).value;
      forall o | o in last ensures Keeps(o, NoRemovalFlagged(s.id)) && Keeps(o, Anything()) {
        ResolveOpsAre(d, o);
        assert o.ResolveRemovals? by { ResolvesOnly(d, o); }
        KeepsResolved(o.id, s.id);
        KeepsAnything(o);
      }
      forall x | Perform(x, op).Some? ensures NoRemovalFlagged(s.id)(Perform(x, op).value) {
        RemovalsResolved(x, s.id);
      }
      HoldsFrom(mid, last, op, Anything(), NoRemovalFlagged(s.id));
      RemovalsSettle(st, sync, e, s);
      forall g | OpenRemoval(st.flags, g, s.id)
        ensures g in SyncManifest(st, sync).flags
             && SyncManifest(st, sync).flags[g] == st.flags[g].(status := Resolved) {
        OpenIsResolved(st.flags, SyncManifest(st, sync).flags, g, s.id);
      }
    } else if exists g :: OpenRemoval(st.flags, g, s.id) {
      forall o | o in first + last ensures Keeps(o, RemovalFlagged(s.id)) {
        assert o in SyncOps(sync, d);
        MatchedIsNamed(st, sync, e, s, Name, o);
        if o in first {
          EntriesResolveNothing(sync, d, o);
        }
        KeepsRemoval(o, s.id);
      }
      HoldsThroughout(st, first + last, RemovalFlagged(s.id));
    }
  }

  lemma RemovalsSettle(st: State, sync: Sync, e: ManifestEntry, s: Service)
    requires SyncScene(st, sync) && e in sync.entries && Owns(st, sync, s) && HasKeyOf(s, e)
    ensures RemovalsSettled(s.id, st.flags)(SyncManifest(st, sync))
  {
    SyncEnds(st, sync);
    hide SyncOps, DiffNow, SyncInput, PerformAll, Perform, SyncManifest, Keeps, Owns;
    var ops := SyncOps(sync, DiffNow(st, sync));
    forall o | o in ops ensures Keeps(o, RemovalsSettled(s.id, st.flags)) {
      MatchedIsNamed(st, sync, e, s, Name, o);
      KeepsRemovalsSettled(o, s.id, st.flags);
    }
    HoldsThroughout(st, ops, RemovalsSettled(s.id, st.flags));
  }

  lemma OpenIsResolved(before: map<string, DriftFlag>, after: map<string, DriftFlag>, g: string, id: string)
    requires OpenRemoval(before, g, id) && !OpenRemoval(after, g, id)
    requires g in after && Settled(before[g], after[g])
    ensures after[g] == before[g].(status := Resolved)
  {
  }

  lemma ResolvesOnly(d: Diff, op: TableOp)
    requires IsResolveOp(d, op)
    ensures op.ResolveRemovals?
  {
  }

  lemma EntriesResolveNothing(sync: Sync, d: Diff, op: TableOp)
    requires op in EntryOps(sync, d) + RemovalOps(sync, d)
    ensures !op.ResolveRemovals?
  {
    EntryOpsAre(sync, d, op);
    RemovalOpsAre(sync, d, op);
    hide EntryOps, RemovalOps;
  }

  // ---------------------------------------------------------------------------
  // Edits and the cleanup
  // ---------------------------------------------------------------------------

  /** The edit sets a required column to null. */
  predicate NullsColumn(edit: Edit) {
    || (Name in edit.input && edit.input[Name] == Null)
    || (HealthEndpoint in edit.input && edit.input[HealthEndpoint] == Null)
    || (PollIntervalMs in edit.input && edit.input[PollIntervalMs] == Null)
    || (HealthEndpointFormat in edit.input && edit.input[HealthEndpointFormat] == Null)
  }

  lemma NullsColumnIs(edit: Edit)
    ensures NullsColumn(edit) <==> RejectsNull(edit.input)
  {
    if RejectsNull(edit.input) {
      var f :| f in edit.input && Required(f) && edit.input[f] == Null;
    }
    assert forall f :: f in edit.input && Required(f) && edit.input[f] == Null ==> RejectsNull(edit.input);
    if NullsColumn(edit) {
      var f := if Name in edit.input && edit.input[Name] == Null then Name
               else if HealthEndpoint in edit.input && edit.input[HealthEndpoint] == Null then HealthEndpoint
               else if PollIntervalMs in edit.input && edit.input[PollIntervalMs] == Null then PollIntervalMs
               else HealthEndpointFormat;
      assert f in edit.input && Required(f) && edit.input[f] == Null;
    }
  }

  lemma SameKeysTaken(services: map<string, Service>, updated: map<string, Service>, team: string, id: string)
    requires id in services && id in updated && updated == services[id := updated[id]]
    requires updated[id].manifestKey == services[id].manifestKey
    ensures KeyTakenByOther(updated, team, id) <==>
            exists other :: other in services && other != id && services[other].teamId == team
                            && services[id].manifestKey.Some? && services[other].manifestKey == services[id].manifestKey
  {
    forall other | other in updated && other != id ensures other in services && updated[other] == services[other] {
    }
    forall other | other in services && other != id ensures other in updated && updated[other] == services[other] {
    }
  }

  /**
   * An edit fails exactly when it sets a required column to null, or another row of the team the row ends in has its
   * key.  One that goes through sets what it gives of columns, team and activity, and touches no other row.
   */
  lemma EditInWords(services: map<string, Service>, id: string, edit: Edit, f: Field)
    requires id in services
    ensures var before := services[id];
            var team := match edit.teamId { case Some(other) => other case None => before.teamId };
            if EditService(services, id, edit).None? then
              || NullsColumn(edit)
              || exists other :: other in services && other != id && services[other].teamId == team
                                 && before.manifestKey.Some? && services[other].manifestKey == before.manifestKey
            else
              var next := EditService(services, id, edit).value;
              && !NullsColumn(edit) && id in next && next == services[id := next[id]]
              && (forall other :: other in services && other != id && services[other].teamId == team
                                  && before.manifestKey.Some? ==>
                    services[other].manifestKey != before.manifestKey)
              && next[id] == before.(columns := next[id].columns, teamId := team,
                                     isActive := match edit.isActive { case Some(active) => active
                                                                       case None => before.isActive })
              && next[id].columns.Get(f) == if f in edit.input then edit.input[f] else before.columns.Get(f)
  {
    NullsColumnIs(edit);
    GetPatched(services[id].columns, edit.input, f);
    hide RejectsNull, NullsColumn, Record.Get, Record.Patched;
    if !NullsColumn(edit) {
      var updated := UpdateService(services, id, edit.input).value;
      var team := match edit.teamId { case Some(other) => other case None => services[id].teamId };
      SameKeysTaken(services, updated, team, id);
      hide KeyTakenByOther;
    }
  }

  /**
   * A new row of a manifest is refused exactly when its id is in use, its team has its key, or a required column would
   * be empty; one added by hand exactly when its id is in use, and it has no key and no snapshot.
   */
  lemma NewRowsInWords(st: State, teamId: string, e: ManifestEntry, id: string, columns: Record)
    ensures var c := CreatedColumns(e);
            Perform(st, CreateRow(teamId, e, id)).None? <==>
              || id in st.services
              || (exists other :: other in st.services && st.services[other].teamId == teamId
                                  && st.services[other].manifestKey == Some(e.key))
              || c.name in [Null, Undefined] || c.healthEndpoint in [Null, Undefined]
              || c.pollIntervalMs in [Null, Undefined] || c.healthEndpointFormat in [Null, Undefined]
    ensures Perform(st, AddRow(id, teamId, columns)) ==
            if id in st.services then None
            else Some(State(st.services[id := Service(id, teamId, None, true, columns, NoSnapshot)], st.flags))
  {
    MissedColumns(CreatedColumns(e));
    hide CreatedColumns, MissesRequired;
  }

  lemma MissedColumns(c: Record)
    ensures MissesRequired(c) <==>
      || c.name in [Null, Undefined] || c.healthEndpoint in [Null, Undefined]
      || c.pollIntervalMs in [Null, Undefined] || c.healthEndpointFormat in [Null, Undefined]
  {
    FieldsByName(c);
    assert forall f :: Required(f) && Absent(c.Get(f)) ==> MissesRequired(c);
    assert Required(Name) && Required(HealthEndpoint) && Required(PollIntervalMs) && Required(HealthEndpointFormat);
    hide Record.Get;
  }

  /** The cleanup drops exactly the expired flags that are accepted or resolved, and changes none. */
  lemma CleanupInWords(flags: map<string, DriftFlag>, expired: set<string>, g: string)
    ensures g in Retained(flags, expired) <==>
      g in flags && (g !in expired || flags[g].status == Pending || flags[g].status == Dismissed)
    ensures g in Retained(flags, expired) ==> Retained(flags, expired)[g] == flags[g]
  {
  }
}

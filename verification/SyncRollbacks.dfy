/**
 * Whole syncs that change nothing: exactly when one rolls back, which entries are never created, and manifests that
 * reach these cases.
 */
module SyncRollbacks {
  import opened Common
  import opened Fields
  import opened ManifestDiffer
  import opened ManifestSync
  import opened ManifestApply
  import opened DriftRoutes
  import opened SyncRuns
  import opened SyncAgain

  // ---------------------------------------------------------------------------
  // Whole syncs that roll back
  // ---------------------------------------------------------------------------

  lemma {:induction false} RejectedUpdateStops(
    st: State, updates: seq<UpdateEntry>, ops: seq<TableOp>, u: UpdateEntry)
    requires |ops| == |updates| && forall i :: 0 <= i < |ops| ==> ops[i] == UpdateRow(updates[i])
    requires DistinctTargets(updates) && u in updates && u.serviceId in st.services && RejectsNull(InputOf(u))
    ensures PerformAll(st, ops).None?
  {
    hide Perform, InputOf, RejectsNull;
    var n := |updates| - 1;
    assert updates == updates[..n] + [updates[n]];
    if u in updates[..n] {
      RejectedUpdateStops(st, updates[..n], ops[..n], u);
    } else if PerformAll(st, ops[..n]).Some? {
      forall op | op in ops[..n] ensures !Touches(op, u.serviceId) {
        var i :| 0 <= i < n && ops[i] == op;
      }
      Untouched(st, ops[..n], u.serviceId);
      RejectedUpdate(PerformAll(st, ops[..n]).value, u);
    }
  }

  lemma RejectedUpdate(st: State, u: UpdateEntry)
    requires u.serviceId in st.services && RejectsNull(InputOf(u))
    ensures Perform(st, UpdateRow(u)).None?
  {
    hide InputOf, RejectsNull;
  }

  /** The manifest nulls a required column of a matched row, and the differ lets it through. */
  ghost predicate GivesNull(st: State, sync: Sync) {
    exists e, s, f :: e in sync.entries && s in ManagedRows(st.services, sync) && MatchesKey(e, s)
                      && NullsRequired(e, s, sync.policy.onFieldDrift, f)
  }

  /** An entry without a managed row, whose endpoint is public, has the key of another row of the team. */
  ghost predicate TakesKey(st: State, sync: Sync) {
    exists e :: e in sync.entries && IsSafe(sync)(e) && KeyTaken(st.services, sync.teamId, e.key)
                && forall s :: s in ManagedRows(st.services, sync) ==> !MatchesKey(e, s)
  }

  lemma NullGivenRollsBack(st: State, sync: Sync)
    requires SyncInput(st, sync) && GivesNull(st, sync)
    ensures PerformAll(st, SyncOps(sync, DiffNow(st, sync))).None?
  {
    hide DiffOf, ManagedRows, PerformAll, SyncOps, UpdateOps, OtherOps, TidyServices, Creations, WellTyped, MatchesKey;
    hide UniqueKeys, UniqueServices, FieldsWith, InputOf, RejectsNull, NullsRequired, RowsCreated;
    var rows, drift := ManagedRows(st.services, sync), sync.policy.onFieldDrift;
    var e, s, f :| e in sync.entries && s in rows && MatchesKey(e, s) && NullsRequired(e, s, drift, f);
    if PerformAll(st, SyncOps(sync, DiffNow(st, sync))).Some? {
      var d := DiffNow(st, sync);
      var created, updated := SyncPhases(st, sync);
      ManagedRowsAre(st.services, sync);
      RejectedExactlyWhenNulled(e, s, drift);
      UpdatesOfMatched(sync.entries, rows, sync.policy, e, s);
      NullIsUpdated(e, s, drift, f);
      FieldsWithMember(e, s, drift, Update, f);
      TargetsOfDiff(sync.entries, rows, sync.policy);
      UpdateOpsAre(d);
      CreationsKeep(sync, st.services, created.services, Creations(st, sync), s.id);
      RejectedUpdateStops(created, d.toUpdate, UpdateOps(d), UpdateEntry(e, s.id, FieldsWith(e, s, drift, Update)));
      assert false;
    }
  }

  lemma CreationsKeep(
    sync: Sync, before: map<string, Service>, after: map<string, Service>, entries: seq<ManifestEntry>, id: string)
    requires RowsCreated(sync, before, after, entries) && id in before
    ensures id in after && after[id] == before[id]
  {
    assert SameRow(before, after, id);
  }

  /** A sync whose manifest nulls a required column of a row, and whose policy lets it through, changes nothing. */
  lemma NullGivenUndoesSync(st: State, sync: Sync, e: ManifestEntry, s: Service, f: Field)
    requires SyncInput(st, sync) && e in sync.entries && s in ManagedRows(st.services, sync) && MatchesKey(e, s)
    requires NullsRequired(e, s, sync.policy.onFieldDrift, f)
    ensures SyncManifest(st, sync) == st
  {
    hide DiffOf, ManagedRows, PerformAll, SyncOps, SyncInput, NullsRequired, MatchesKey;
    assert GivesNull(st, sync);
    NullGivenRollsBack(st, sync);
  }

  lemma {:induction false} TakenKeyStops(st: State, sync: Sync, entries: seq<ManifestEntry>, e: ManifestEntry)
    requires e in entries && KeyTaken(st.services, sync.teamId, e.key)
    ensures PerformAll(st, MapSeq(Creation(sync), entries)).None?
  {
    hide MapSeq, RowsCreated, Perform;
    var shorter, last := entries[..|entries| - 1], entries[|entries| - 1];
    assert entries == shorter + [last];
    MapOneMore(Creation(sync), shorter, last);
    var ops, op := MapSeq(Creation(sync), shorter), Creation(sync)(last);
    assert (ops + [op])[..|ops|] == ops;
    if e in shorter {
      TakenKeyStops(st, sync, shorter, e);
    } else if PerformAll(st, ops).Some? {
      CreationsPerformed(st, sync, shorter);
      var before := PerformAll(st, ops).value;
      var id :| id in st.services && st.services[id].teamId == sync.teamId
                && st.services[id].manifestKey == Some(e.key);
      CreationsKeep(sync, st.services, before.services, shorter, id);
      CreationRefused(before, sync, e);
    }
  }

  lemma CreationRefused(st: State, sync: Sync, e: ManifestEntry)
    requires KeyTaken(st.services, sync.teamId, e.key)
    ensures Perform(st, Creation(sync)(e)).None?
  {
    hide CreatedColumns, MissesRequired;
  }

  lemma KeyTakenRollsBack(st: State, sync: Sync)
    requires SyncInput(st, sync) && TakesKey(st, sync)
    ensures PerformAll(st, SyncOps(sync, DiffNow(st, sync))).None?
  {
    hide DiffOf, ManagedRows, PerformAll, SyncOps, UpdateOps, OtherOps, TidyServices, Creations, WellTyped, KeyTaken;
    var e :| e in sync.entries && IsSafe(sync)(e) && KeyTaken(st.services, sync.teamId, e.key)
             && forall s :: s in ManagedRows(st.services, sync) ==> !MatchesKey(e, s);
    hide MatchesKey, Index;
    IndexHolds(ManagedRows(st.services, sync), e.key);
    UnmatchedIsCreated(st, sync, e);
    TakenKeyStops(st, sync, Creations(st, sync), e);
    SyncStartsWithCreations(st, sync);
  }

  lemma UnmatchedIsCreated(st: State, sync: Sync, e: ManifestEntry)
    requires e in sync.entries
    ensures e in Creations(st, sync) <==>
      IsSafe(sync)(e) && forall s :: s in ManagedRows(st.services, sync) ==> !MatchesKey(e, s)
  {
    hide DiffOf, ManagedRows;
    CreatedExactlyWhenUnmatched(sync.entries, ManagedRows(st.services, sync), sync.policy, e);
    FilterMember(IsSafe(sync), DiffNow(st, sync).toCreate, e);
  }

  /** A sync is its creations, its updates and the rest. */
  lemma SyncStartsWithCreations(st: State, sync: Sync)
    ensures var first, d := MapSeq(Creation(sync), Creations(st, sync)), DiffNow(st, sync);
            PerformAll(st, SyncOps(sync, d)) ==
              match PerformAll(st, first)
              case None => None
              case Some(created) =>
                match PerformAll(created, UpdateOps(d))
                case None => None
                case Some(updated) => PerformAll(updated, OtherOps(sync, d))
  {
    hide PerformAll, UpdateOps, OtherOps, SyncOps, MapSeq, DiffOf, ManagedRows, Filter;
    var first, d := MapSeq(Creation(sync), Creations(st, sync)), DiffNow(st, sync);
    SyncOpsParts(sync, d);
    PerformAppend(st, first, UpdateOps(d) + OtherOps(sync, d));
    if PerformAll(st, first).Some? {
      PerformAppend(PerformAll(st, first).value, UpdateOps(d), OtherOps(sync, d));
    }
  }

  // ---------------------------------------------------------------------------
  // Syncs that go through
  // ---------------------------------------------------------------------------

  /** The random ids of new rows and flags are new and do not repeat. */
  ghost predicate FreshIds(st: State, sync: Sync) {
    && (forall k :: sync.newService(k) !in st.services)
    && (forall k, l :: sync.newService(k) == sync.newService(l) ==> k == l)
    && (forall s, f :: sync.newFlag(s, f) !in st.flags)
    && (forall s, f, t, g :: sync.newFlag(s, f) == sync.newFlag(t, g) ==> s == t && f == g)
  }

  lemma ValidEntryHasColumns(e: ManifestEntry)
    requires WellTyped(e)
    ensures !MissesRequired(CreatedColumns(e))
  {
  }

  lemma {:induction false} CreationsGoThrough(st: State, sync: Sync, entries: seq<ManifestEntry>)
    requires FreshIds(st, sync) && UniqueKeys(entries)
    requires forall e :: e in entries ==> WellTyped(e) && !KeyTaken(st.services, sync.teamId, e.key)
    ensures PerformAll(st, MapSeq(Creation(sync), entries)).Some?
    ensures PerformAll(st, MapSeq(Creation(sync), entries)).value.flags == st.flags
  {
    hide MapSeq, RowsCreated, Perform, FreshIds, WellTyped, KeyTaken;
    if entries == [] {
      assert MapSeq(Creation(sync), entries) == [];
    } else {
      var shorter, e := entries[..|entries| - 1], entries[|entries| - 1];
      assert entries == shorter + [e];
      MapOneMore(Creation(sync), shorter, e);
      var ops, op := MapSeq(Creation(sync), shorter), Creation(sync)(e);
      assert (ops + [op])[..|ops|] == ops;
      CreationsGoThrough(st, sync, shorter);
      CreationsPerformed(st, sync, shorter);
      var before := PerformAll(st, ops).value;
      NextCreation(st, sync, before, shorter, e);
      ValidEntryHasColumns(e);
      CreationAccepted(before, sync, e);
    }
  }

  /** Earlier creations take neither the id nor the key of the next. */
  lemma NextCreation(st: State, sync: Sync, before: State, entries: seq<ManifestEntry>, e: ManifestEntry)
    requires FreshIds(st, sync) && RowsCreated(sync, st.services, before.services, entries)
    requires !KeyTaken(st.services, sync.teamId, e.key) && forall x :: x in entries ==> x.key != e.key
    ensures sync.newService(e.key) !in before.services && !KeyTaken(before.services, sync.teamId, e.key)
  {
    hide CreatedColumns, MapSeq;
    forall id | id in before.services && id !in st.services
      ensures exists x :: x in entries && id == sync.newService(x.key) {
      MappedMember(NewId(sync), entries, id);
      var x :| x in entries && NewId(sync)(x) == id;
    }
    forall id | id in before.services && id in st.services ensures before.services[id] == st.services[id] {
      assert SameRow(st.services, before.services, id);
    }
  }

  lemma CreationAccepted(st: State, sync: Sync, e: ManifestEntry)
    requires sync.newService(e.key) !in st.services && !KeyTaken(st.services, sync.teamId, e.key)
    requires !MissesRequired(CreatedColumns(e))
    ensures Perform(st, Creation(sync)(e)).Some? && Perform(st, Creation(sync)(e)).value.flags == st.flags
  {
    hide CreatedColumns, MissesRequired, KeyTaken;
  }

  lemma {:induction false} UpdatesGoThrough(st: State, updates: seq<UpdateEntry>, ops: seq<TableOp>)
    requires |ops| == |updates| && forall i :: 0 <= i < |ops| ==> ops[i] == UpdateRow(updates[i])
    requires forall u :: u in updates ==> !RejectsNull(InputOf(u))
    ensures PerformAll(st, ops).Some?
    ensures PerformAll(st, ops).value.flags == st.flags
    ensures PerformAll(st, ops).value.services.Keys == st.services.Keys
  {
    hide RejectsNull, InputOf;
    if ops != [] {
      var n := |ops| - 1;
      UpdatesGoThrough(st, updates[..n], ops[..n]);
      assert ops[n] == UpdateRow(updates[n]) && updates[n] in updates;
    }
  }

  /** New flags so far are open flags of the fields they were made for. */
  ghost predicate FlagsRaised(sync: Sync, flags: map<string, DriftFlag>) {
    && (forall s, f :: sync.newFlag(s, Some(f)) in flags ==> exists a :: IsActiveFor(flags, a, s, f))
    && (forall s :: sync.newFlag(s, None) !in flags)
  }

  lemma RaisingAccepted(st: State, sync: Sync, x: DriftEntry)
    requires FlagsRaised(sync, st.flags) && x.serviceId in st.services
    requires forall s, f, t, g :: sync.newFlag(s, f) == sync.newFlag(t, g) ==> s == t && f == g
    ensures Perform(st, Raising(sync)(x)).Some?
    ensures Perform(st, Raising(sync)(x)).value.services == st.services
    ensures FlagsRaised(sync, Perform(st, Raising(sync)(x)).value.flags)
  {
    var next := Perform(st, Raising(sync)(x)).value;
    forall s, f | sync.newFlag(s, Some(f)) in next.flags ensures exists a :: IsActiveFor(next.flags, a, s, f) {
      if s == x.serviceId && f == x.field {
        RaisedIsActive(st, x, sync.newFlag(x.serviceId, Some(x.field)));
      } else {
        assert sync.newFlag(s, Some(f)) in st.flags;
        var a :| IsActiveFor(st.flags, a, s, f);
        assert IsActiveFor(next.flags, a, s, f);
      }
    }
  }

  lemma RaisedIsActive(st: State, x: DriftEntry, flagId: string)
    requires Perform(st, RaiseField(x, flagId)).Some?
    ensures exists a :: IsActiveFor(Perform(st, RaiseField(x, flagId)).value.flags, a, x.serviceId, x.field)
  {
    var next := Perform(st, RaiseField(x, flagId)).value.flags;
    if exists a :: IsActiveFor(st.flags, a, x.serviceId, x.field) {
      var a :| IsActiveFor(st.flags, a, x.serviceId, x.field)
               && next == st.flags[a := Redetected(st.flags[a], x.manifestValue, x.currentValue)];
      assert IsActiveFor(next, a, x.serviceId, x.field);
    } else {
      assert IsActiveFor(next, flagId, x.serviceId, x.field);
    }
  }

  lemma {:induction false} RaisingsGoThrough(st: State, sync: Sync, drifts: seq<DriftEntry>)
    requires FlagsRaised(sync, st.flags) && forall x :: x in drifts ==> x.serviceId in st.services
    requires forall s, f, t, g :: sync.newFlag(s, f) == sync.newFlag(t, g) ==> s == t && f == g
    ensures var after := PerformAll(st, MapSeq(Raising(sync), drifts));
            after.Some? && after.value.services == st.services && FlagsRaised(sync, after.value.flags)
  {
    hide MapSeq, Perform, FlagsRaised;
    if drifts == [] {
      assert MapSeq(Raising(sync), drifts) == [];
    } else {
      var shorter, x := drifts[..|drifts| - 1], drifts[|drifts| - 1];
      assert drifts == shorter + [x];
      MapOneMore(Raising(sync), shorter, x);
      var ops, op := MapSeq(Raising(sync), shorter), Raising(sync)(x);
      assert (ops + [op])[..|ops|] == ops;
      RaisingsGoThrough(st, sync, shorter);
      RaisingAccepted(PerformAll(st, ops).value, sync, x);
    }
  }

  /** New removal flags so far are open ones of their services. */
  ghost predicate RemovalsRaised(sync: Sync, flags: map<string, DriftFlag>) {
    forall s :: sync.newFlag(s, None) in flags ==> IsOpenRemoval(flags, sync.newFlag(s, None), s)
  }

  lemma {:induction false} RemovalFlagsGoThrough(st: State, sync: Sync, ids: seq<string>)
    requires RemovalsRaised(sync, st.flags) && forall id :: id in ids ==> id in st.services
    requires forall s, f, t, g :: sync.newFlag(s, f) == sync.newFlag(t, g) ==> s == t && f == g
    ensures var after := PerformAll(st, MapSeq(RaisingRemoval(sync), ids));
            after.Some? && after.value.services == st.services && RemovalsRaised(sync, after.value.flags)
  {
    hide MapSeq;
    if ids == [] {
      assert MapSeq(RaisingRemoval(sync), ids) == [];
    } else {
      var shorter, id := ids[..|ids| - 1], ids[|ids| - 1];
      assert ids == shorter + [id];
      MapOneMore(RaisingRemoval(sync), shorter, id);
      var ops, op := MapSeq(RaisingRemoval(sync), shorter), RaisingRemoval(sync)(id);
      assert (ops + [op])[..|ops|] == ops;
      RemovalFlagsGoThrough(st, sync, shorter);
      RemovalFlagAccepted(PerformAll(st, ops).value, sync, id);
    }
  }

  lemma RemovalFlagAccepted(st: State, sync: Sync, id: string)
    requires RemovalsRaised(sync, st.flags) && id in st.services
    requires forall s, f, t, g :: sync.newFlag(s, f) == sync.newFlag(t, g) ==> s == t && f == g
    ensures var after := Perform(st, RaisingRemoval(sync)(id));
            after.Some? && after.value.services == st.services && RemovalsRaised(sync, after.value.flags)
  {
  }

  predicate NeverThrows(op: TableOp) {
    op.DeactivateRow? || op.DeleteRow? || op.ResolveRemovals?
  }

  lemma {:induction false} OthersGoThrough(st: State, ops: seq<TableOp>)
    requires forall op :: op in ops ==> NeverThrows(op)
    ensures PerformAll(st, ops).Some?
  {
    hide ResolveAll, ResolveOpenRemovals, WithoutService;
    if ops != [] {
      OthersGoThrough(st, ops[..|ops| - 1]);
      assert NeverThrows(ops[|ops| - 1]);
    }
  }

  /** Removals go through: only flags could fail, and then there is nothing to stop or delete before them. */
  lemma RemovalsGoThrough(st: State, sync: Sync, d: Diff)
    requires RemovalsRaised(sync, st.flags) && forall id :: id in d.removalDrift ==> id in st.services
    requires d.removalDrift == [] || (d.toDeactivate == [] && d.toDelete == [])
    requires forall s, f, t, g :: sync.newFlag(s, f) == sync.newFlag(t, g) ==> s == t && f == g
    ensures PerformAll(st, RemovalOps(sync, d) + ResolveOps(d)).Some?
  {
    hide PerformAll, RemovalsRaised;
    var flags := MapSeq(RaisingRemoval(sync), d.removalDrift);
    var stops, deletions := MapSeq(x => DeactivateRow(x), d.toDeactivate), MapSeq(x => DeleteRow(x), d.toDelete);
    assert RemovalOps(sync, d) == stops + deletions + flags;
    var others := if d.removalDrift == [] then RemovalOps(sync, d) + ResolveOps(d) else ResolveOps(d);
    if d.removalDrift == [] {
      assert flags == [];
      OthersGoThrough(st, others);
    } else {
      assert stops == [] && deletions == [];
      assert RemovalOps(sync, d) == flags;
      RemovalFlagsGoThrough(st, sync, d.removalDrift);
      PerformAppend(st, flags, others);
      OthersGoThrough(PerformAll(st, flags).value, others);
    }
  }

  lemma KeysOneMore(entries: seq<ManifestEntry>, e: ManifestEntry)
    requires UniqueKeys(entries) && forall x :: x in entries ==> x.key != e.key
    ensures UniqueKeys(entries + [e]) && UniqueKeys([e] + entries)
  {
  }

  lemma {:induction false} CreatedKeysUnique(
    index: map<string, Service>, entries: seq<ManifestEntry>, policy: SyncPolicy)
    requires UniqueKeys(entries)
    ensures UniqueKeys(EntriesDiff(index, entries, policy).toCreate)
    ensures forall e :: e in EntriesDiff(index, entries, policy).toCreate ==> e in entries
  {
    hide FieldsWith, DriftOf, MapSeq, Found;
    if entries != [] {
      var n := |entries| - 1;
      CreatedKeysUnique(index, entries[..n], policy);
      assert entries == entries[..n] + [entries[n]];
      var before := EntriesDiff(index, entries[..n], policy).toCreate;
      forall x | x in before ensures x.key != entries[n].key {
        var i :| 0 <= i < n && entries[i] == x;
      }
      KeysOneMore(before, entries[n]);
      hide UniqueKeys;
      assert before + [] == before;
    }
  }

  lemma {:induction false} FilterKeysUnique(p: ManifestEntry -> bool, entries: seq<ManifestEntry>)
    requires UniqueKeys(entries)
    ensures UniqueKeys(Filter(p, entries))
  {
    if entries != [] {
      var rest := Filter(p, entries[1..]);
      FilterKeysUnique(p, entries[1..]);
      forall x | x in rest ensures x.key != entries[0].key {
        FilterMember(p, entries[1..], x);
        var i :| 0 <= i < |entries[1..]| && entries[1..][i] == x;
        assert x == entries[i + 1];
      }
      KeysOneMore(rest, entries[0]);
    }
  }

  lemma CreationKeysUnique(st: State, sync: Sync)
    requires UniqueKeys(sync.entries)
    ensures UniqueKeys(Creations(st, sync))
  {
    hide DiffOf, ManagedRows, UniqueKeys, EntriesDiff;
    DiffParts(sync.entries, ManagedRows(st.services, sync), sync.policy);
    CreatedKeysUnique(Index(ManagedRows(st.services, sync)), sync.entries, sync.policy);
    FilterKeysUnique(IsSafe(sync), DiffNow(st, sync).toCreate);
  }

  /** Without nulls every update is accepted. */
  lemma UpdatesAccepted(st: State, sync: Sync)
    requires SyncInput(st, sync) && !GivesNull(st, sync)
    ensures forall u :: u in DiffNow(st, sync).toUpdate ==> !RejectsNull(InputOf(u))
  {
    hide DiffOf, ManagedRows, UniqueKeys, UniqueServices, TidyServices, MatchesKey, FieldsWith, NullsRequired, InputOf;
    hide RejectsNull, WellTyped;
    var rows := ManagedRows(st.services, sync);
    ManagedRowsAre(st.services, sync);
    forall u | u in DiffNow(st, sync).toUpdate ensures !RejectsNull(InputOf(u)) {
      var e, s := UpdateOwner(sync.entries, rows, sync.policy, u);
      LandsOnlyThere(sync.entries, rows, sync.policy, e, s, Name);
      RejectedExactlyWhenNulled(e, s, sync.policy.onFieldDrift);
    }
  }

  /** Flags name managed rows. */
  lemma FlaggedRowsStored(st: State, sync: Sync)
    requires SyncInput(st, sync)
    ensures forall x :: x in DiffNow(st, sync).toDrift ==> x.serviceId in st.services
    ensures forall id :: id in DiffNow(st, sync).removalDrift ==> id in st.services
    ensures var d := DiffNow(st, sync); d.removalDrift == [] || (d.toDeactivate == [] && d.toDelete == [])
  {
    hide DiffOf, ManagedRows, TidyServices, UniqueKeys;
    forall x | x in DiffNow(st, sync).toDrift ensures x.serviceId in st.services {
      assert DriftsField(DiffNow(st, sync), x.serviceId, x.field);
      DriftsManaged(st, sync, x.serviceId, x.field);
    }
    forall id | id in DiffNow(st, sync).removalDrift ensures id in st.services {
      RemovedRows(st, sync, id);
    }
    RemovedOnceByPolicy(sync.entries, ManagedRows(st.services, sync), sync.policy);
  }

  lemma RestGoesThrough(st: State, sync: Sync, updated: State)
    requires SyncInput(st, sync) && FreshIds(st, sync)
    requires updated.flags == st.flags && st.services.Keys <= updated.services.Keys
    ensures PerformAll(updated, OtherOps(sync, DiffNow(st, sync))).Some?
  {
    hide PerformAll, SyncInput, DiffNow, RemovalOps, ResolveOps;
    var d := DiffNow(st, sync);
    FlaggedRowsStored(st, sync);
    RaisingsGoThrough(updated, sync, d.toDrift);
    PerformAppend(updated, MapSeq(Raising(sync), d.toDrift), RemovalOps(sync, d) + ResolveOps(d));
    RemovalsGoThrough(PerformAll(updated, MapSeq(Raising(sync), d.toDrift)).value, sync, d);
  }

  lemma SyncGoesThrough(st: State, sync: Sync)
    requires SyncInput(st, sync) && FreshIds(st, sync) && !GivesNull(st, sync) && !TakesKey(st, sync)
    ensures PerformAll(st, SyncOps(sync, DiffNow(st, sync))).Some?
  {
    hide PerformAll, DiffNow, SyncOps, OtherOps, UpdateOps, Creations, RowsCreated, KeyTaken, FreshIds, GivesNull;
    hide UniqueKeys, MatchesKey, TidyServices, WellTyped, ManagedRows, MapSeq;
    var d, first := DiffNow(st, sync), MapSeq(Creation(sync), Creations(st, sync));
    forall e | e in Creations(st, sync) ensures WellTyped(e) && !KeyTaken(st.services, sync.teamId, e.key) {
      CreationIsEntry(st, sync, e);
      UnmatchedIsCreated(st, sync, e);
    }
    CreationKeysUnique(st, sync);
    CreationsGoThrough(st, sync, Creations(st, sync));
    CreationsPerformed(st, sync, Creations(st, sync));
    var created := PerformAll(st, first).value;
    UpdatesAccepted(st, sync);
    UpdateOpsAre(d);
    UpdatesGoThrough(created, d.toUpdate, UpdateOps(d));
    forall id | id in st.services ensures id in created.services {
      CreationsKeep(sync, st.services, created.services, Creations(st, sync), id);
    }
    RestGoesThrough(st, sync, PerformAll(created, UpdateOps(d)).value);
    SyncStartsWithCreations(st, sync);
  }

  /**
   * With random ids that do not repeat, a whole sync rolls back exactly when the manifest nulls a required column of a
   * row it may update, or an entry it would create has the key of a row that another configuration owns.
   */
  lemma SyncRollsBackExactly(st: State, sync: Sync)
    requires SyncInput(st, sync) && FreshIds(st, sync)
    ensures PerformAll(st, SyncOps(sync, DiffNow(st, sync))).None? <==> GivesNull(st, sync) || TakesKey(st, sync)
    ensures GivesNull(st, sync) || TakesKey(st, sync) ==> SyncManifest(st, sync) == st
  {
    hide PerformAll, SyncOps, SyncInput, FreshIds, GivesNull, TakesKey, DiffOf, ManagedRows;
    if GivesNull(st, sync) {
      NullGivenRollsBack(st, sync);
    } else if TakesKey(st, sync) {
      KeyTakenRollsBack(st, sync);
    } else {
      SyncGoesThrough(st, sync);
    }
  }

  // ---------------------------------------------------------------------------
  // Entries that are not created
  // ---------------------------------------------------------------------------

  ghost predicate HasRow(rows: seq<Service>, e: ManifestEntry) {
    exists s :: s in rows && MatchesKey(e, s)
  }

  lemma RowIsFound(rows: seq<Service>, e: ManifestEntry)
    ensures HasRow(rows, e) <==> Found(Index(rows), e.key).Some?
  {
    hide Index;
    IndexHolds(rows, e.key);
  }

  /** An entry without a row has one after a sync that goes through exactly when it names a public URL. */
  lemma CreatedExactlyWhenPublic(st: State, sync: Sync, e: ManifestEntry)
    requires SyncScene(st, sync) && e in sync.entries && !HasRow(ManagedRows(st.services, sync), e)
    ensures HasRow(ManagedRows(SyncManifest(st, sync).services, SyncNext(st, sync)), e) <==>
      HasEndpoint(e) && sync.isPublic(e.fields.healthEndpoint.text)
  {
    hide ManagedRows, SyncManifest, SyncNext, SyncScene, Index, HasRow, CreatedService, HasEndpoint;
    FoundAfterSync(st, sync, e);
    RowIsFound(ManagedRows(st.services, sync), e);
    RowIsFound(ManagedRows(SyncManifest(st, sync).services, SyncNext(st, sync)), e);
  }

  /**
   * The validator lets an OTLP entry do without an endpoint, but it is then not created; and one with an endpoint is
   * created without it.  So no OTLP entry gets a row the next diff would find in order.
   */
  lemma OtlpNeverCreatedInOrder(st: State, sync: Sync, e: ManifestEntry)
    requires SyncScene(st, sync) && e in sync.entries && !HasRow(ManagedRows(st.services, sync), e) && IsOtlp(e)
    ensures var d, id := DiffAgain(st, sync), sync.newService(e.key);
            || !HasRow(ManagedRows(SyncManifest(st, sync).services, SyncNext(st, sync)), e)
            || match sync.policy.onFieldDrift
               case Flag => DriftsField(d, id, HealthEndpoint)
               case ManifestWins => UpdatesField(d, id, HealthEndpoint)
               case LocalWins => KeepsField(d, id, HealthEndpoint)
  {
    hide ManagedRows, SyncManifest, SyncNext, SyncScene, Index, HasRow, DiffAgain, UpdatesField, DriftsField;
    hide KeepsField, Creations;
    CreatedExactlyWhenPublic(st, sync, e);
    if HasEndpoint(e) && sync.isPublic(e.fields.healthEndpoint.text) {
      RowIsFound(ManagedRows(st.services, sync), e);
      CreationsAre(st, sync, e);
      CreatedFieldAgain(st, sync, e, HealthEndpoint);
    }
  }

  ghost predicate NoRowWithKey(services: map<string, Service>, key: string) {
    forall id :: id in services ==> services[id].manifestKey != Some(key)
  }

  /** Whatever manifest gives the key gives it no endpoint. */
  ghost predicate GivesNoEndpoint(a: Action, key: string) {
    a.SyncOnce? ==> forall e :: e in a.sync.entries && e.key == key ==> !HasEndpoint(e)
  }

  predicate MakesKey(op: TableOp, key: string) {
    op.CreateRow? && op.entry.key == key
  }

  lemma OpMakesNoKey(st: State, op: TableOp, key: string)
    requires NoRowWithKey(st.services, key) && !MakesKey(op, key) && Perform(st, op).Some?
    ensures NoRowWithKey(Perform(st, op).value.services, key)
  {
    hide Detect, ResolveAll, ResolveOpenRemovals, CreatedColumns, MissesRequired, RejectsNull, InputOf, KeyTaken;
    hide KeyTakenByOther, Record.Patched;
    DetectKeepsServices(st, op);
  }

  lemma {:induction false} OpsMakeNoKey(st: State, ops: seq<TableOp>, key: string)
    requires NoRowWithKey(st.services, key) && forall op :: op in ops ==> !MakesKey(op, key)
    ensures NoRowWithKey(Transact(st, ops).services, key)
  {
    hide Perform, NoRowWithKey, MakesKey;
    if ops != [] && PerformAll(st, ops).Some? {
      OpsMakeNoKey(st, ops[..|ops| - 1], key);
      OpMakesNoKey(PerformAll(st, ops[..|ops| - 1]).value, ops[|ops| - 1], key);
    }
  }

  lemma SyncMakesNoKey(st: State, sync: Sync, key: string)
    requires GivesNoEndpoint(SyncOnce(sync), key)
    ensures forall op :: op in SyncOps(sync, DiffNow(st, sync)) ==> !MakesKey(op, key)
  {
    hide DiffOf, ManagedRows, MapSeq, Filter;
    var d := DiffNow(st, sync);
    var first := MapSeq(Creation(sync), Creations(st, sync));
    SyncOpsParts(sync, d);
    forall op | op in first ensures !MakesKey(op, key) {
      MappedMember(Creation(sync), Creations(st, sync), op);
      var e :| e in Creations(st, sync) && Creation(sync)(e) == op;
      UnmatchedIsCreatedFrom(st, sync, e);
    }
    UpdatesKeepIdentity(d);
    OtherOpsTouch(sync, d, "");
    hide UpdateOps, OtherOps, SyncOps;
    assert forall op :: KeepsIdentity(op) ==> !MakesKey(op, key);
    assert SyncOps(sync, d) == first + (UpdateOps(d) + OtherOps(sync, d));
  }

  lemma UnmatchedIsCreatedFrom(st: State, sync: Sync, e: ManifestEntry)
    requires e in Creations(st, sync)
    ensures e in sync.entries && IsSafe(sync)(e)
  {
    hide DiffOf, ManagedRows;
    CreationIsEntry(st, sync, e);
    UnmatchedIsCreated(st, sync, e);
  }

  lemma StepMakesNoKey(platform: Platform, st: State, a: Action, key: string)
    requires NoRowWithKey(st.services, key) && GivesNoEndpoint(a, key)
    ensures NoRowWithKey(Step(platform, st, a).services, key)
  {
    hide Accept, AcceptEach, DismissEach, Transact, SyncOps, DiffOf, ManagedRows, Resolve, GivesNoEndpoint;
    match a
    case AcceptOne(t, id) =>
      AcceptEvolves(platform, st, t, id);
    case AcceptMany(t, ids) =>
      EachEvolves(platform, st, t, ids);
    case DismissMany(t, ids) =>
      EachEvolves(platform, st, t, ids);
    case SyncOnce(sync) =>
      SyncMakesNoKey(st, sync, key);
      OpsMakeNoKey(st, SyncOps(sync, DiffNow(st, sync)), key);
    case AddService(id, t, columns) =>
      OpsMakeNoKey(st, [AddRow(id, t, columns)], key);
    case EditOne(id, edit) =>
      OpsMakeNoKey(st, [EditRow(id, edit)], key);
    case _ =>
  }

  /** Over every run: a key whose manifests give no endpoint, such as an OTLP service's, never gets a row. */
  lemma {:induction false} NeverCreatedWithoutEndpoint(platform: Platform, st: State, actions: seq<Action>, key: string)
    requires NoRowWithKey(st.services, key) && forall a :: a in actions ==> GivesNoEndpoint(a, key)
    ensures NoRowWithKey(Run(platform, st, actions).services, key)
  {
    hide Step, NoRowWithKey, GivesNoEndpoint;
    if actions != [] {
      var shorter := actions[..|actions| - 1];
      NeverCreatedWithoutEndpoint(platform, st, shorter, key);
      StepMakesNoKey(platform, Run(platform, st, shorter), actions[|actions| - 1], key);
    }
  }

  // ---------------------------------------------------------------------------
  // Manifests that reach this
  // ---------------------------------------------------------------------------

  const EMPTY := State(map[], map[])

  function ServiceId(): string -> string {
    (key: string) => "s1"
  }

  function FlagId(): (string, Option<Field>) -> string {
    (id: string, f: Option<Field>) => "f1"
  }

  function AnyUrl(): string -> bool {
    (url: string) => true
  }

  /** The first sync of a manifest with one entry. */
  function FirstSync(e: ManifestEntry, policy: SyncPolicy): Sync {
    Sync("t1", [e], [], AnyUrl(), policy, ServiceId(), FlagId())
  }

  lemma DiffOfOneNew(e: ManifestEntry, policy: SyncPolicy)
    ensures DiffOf([e], [], policy) == NOTHING.(toCreate := [e])
  {
    hide EntryDiff, Join;
    assert [e][..0] == [];
    JoinCreated(NOTHING, e, policy);
    JoinNothing(NOTHING.(toCreate := [e]));
    assert Found(Index([]), e.key) == None;
    assert EntriesDiff(Index([]), [e], policy) == Join(NOTHING, EntryDiff(None, e, policy));
    assert NOTHING.toCreate + [e] == [e];
    assert RemovalsDiff([], Keys([e]) * Index([]).Keys, policy) == NOTHING;
  }

  lemma FirstSyncOps(e: ManifestEntry, policy: SyncPolicy)
    requires HasEndpoint(e)
    ensures ManagedRows(EMPTY.services, FirstSync(e, policy)) == []
    ensures DiffNow(EMPTY, FirstSync(e, policy)) == NOTHING.(toCreate := [e])
    ensures Creations(EMPTY, FirstSync(e, policy)) == [e]
    ensures SyncOps(FirstSync(e, policy), DiffNow(EMPTY, FirstSync(e, policy))) == [CreateRow("t1", e, "s1")]
  {
    hide DiffOf;
    var sync := FirstSync(e, policy);
    assert ManagedRows(EMPTY.services, sync) == [];
    DiffOfOneNew(e, policy);
    assert [e][1..] == [];
    assert Filter(IsSafe(sync), [e]) == [e];
  }

  lemma EmptyIsTidy()
    ensures TidyServices(EMPTY.services)
  {
  }

  lemma OneEntryUnique(e: ManifestEntry, policy: SyncPolicy)
    ensures UniqueKeys([e]) && forall x :: x in FirstSync(e, policy).entries ==> x == e
    ensures Distinct(FirstSync(e, policy).managed) && FirstSync(e, policy).managed == []
  {
  }

  lemma FirstSyncGoesThrough(e: ManifestEntry, policy: SyncPolicy)
    requires WellTyped(e) && HasEndpoint(e) && e.key != ""
    ensures var sync := FirstSync(e, policy);
            SyncScene(EMPTY, sync) && SyncManifest(EMPTY, sync).services == map["s1" := CreatedService(sync, e)]
  {
    hide WellTyped, DiffOf, SyncOps, Creations, CreatedService, CreatedColumns, MissesRequired, TidyServices;
    hide PerformAll, UniqueKeys, Distinct, ManagedRows, FirstSync;
    var sync := FirstSync(e, policy);
    ValidEntryHasColumns(e);
    EmptyIsTidy();
    OneEntryUnique(e, policy);
    FirstSyncOps(e, policy);
    FirstSyncIs(e, policy);
    FirstSyncPerforms(sync, e);
  }

  lemma FirstSyncIs(e: ManifestEntry, policy: SyncPolicy)
    ensures var sync := FirstSync(e, policy);
            sync.newService == ServiceId() && sync.teamId == "t1" && sync.entries == [e] && sync.policy == policy
  {
  }

  /** The first sync creates the row, and the next diff reports its fields exactly when not created as given. */
  lemma FirstSyncReports(e: ManifestEntry, policy: SyncPolicy, f: Field)
    requires WellTyped(e) && HasEndpoint(e) && e.key != ""
    ensures var d := DiffAgain(EMPTY, FirstSync(e, policy));
            var outcome := if CreatedAsGiven(e, f) then Skip else Unsettled(policy.onFieldDrift);
            && (UpdatesField(d, "s1", f) <==> outcome == Update)
            && (DriftsField(d, "s1", f) <==> outcome == Drift)
            && (KeepsField(d, "s1", f) <==> outcome == KeepLocal)
  {
    var sync := FirstSync(e, policy);
    assert ServiceId()(e.key) == "s1";
    FirstSyncGoesThrough(e, policy);
    FirstSyncOps(e, policy);
    FirstSyncIs(e, policy);
    hide *;
    assert e in Creations(EMPTY, sync);
    CreatedFieldAgain(EMPTY, sync, e, f);
  }

  lemma FirstSyncPerforms(sync: Sync, e: ManifestEntry)
    requires !MissesRequired(CreatedColumns(e)) && sync.newService == ServiceId() && sync.teamId == "t1"
    ensures PerformAll(EMPTY, [CreateRow("t1", e, "s1")])
      == Some(EMPTY.(services := map["s1" := CreatedService(sync, e)]))
  {
    hide MissesRequired, CreatedColumns;
    var op := CreateRow("t1", e, "s1");
    assert [op][..0] == [];
    assert PerformAll(EMPTY, [op]) == Perform(EMPTY, op);
    assert EMPTY.services["s1" := CreatedService(sync, e)] == map["s1" := CreatedService(sync, e)];
  }

  /** An OTLP entry with an endpoint: the row is created without it, and the next diff takes that for a manual edit. */
  lemma OtlpEndpointIsReported(policy: SyncPolicy)
    ensures var e := Api(URL, Undefined, Undefined, Str("otlp"));
            var before, again := DiffNow(EMPTY, FirstSync(e, policy)), DiffAgain(EMPTY, FirstSync(e, policy));
            && WellTyped(e) && (forall f :: StoredAsGiven(e, f)) && before.toUpdate == [] && before.toDrift == []
            && match policy.onFieldDrift
               case Flag => DriftsField(again, "s1", HealthEndpoint)
               case ManifestWins => UpdatesField(again, "s1", HealthEndpoint)
               case LocalWins => KeepsField(again, "s1", HealthEndpoint)
  {
    hide DiffAgain, UpdatesField, DriftsField, KeepsField, SyncScene, SyncManifest, DiffNow, SyncOps, Creations;
    var e := Api(URL, Undefined, Undefined, Str("otlp"));
    FirstSyncReports(e, policy, HealthEndpoint);
    FirstSyncOps(e, policy);
  }

  /**
   * A polled entry with a null interval is created with the default one.  When the manifest wins, the next sync would
   * null the required column, so it changes nothing, and so does every later one.
   */
  lemma CreatedNullIntervalUndoesSyncs(policy: SyncPolicy)
    requires policy.onFieldDrift == ManifestWins
    ensures var sync := FirstSync(Api(URL, Null, Undefined, Undefined), policy);
            var st := SyncManifest(EMPTY, sync);
            && UpdatesField(DiffAgain(EMPTY, sync), "s1", PollIntervalMs)
            && SyncManifest(st, SyncNext(EMPTY, sync)) == st
  {
    var e := Api(URL, Null, Undefined, Undefined);
    var sync := FirstSync(e, policy);
    FirstSyncReports(e, policy, PollIntervalMs);
    NullsCreated(sync, e, CreatedService(sync, e));
    assert WellTyped(e) && e.key != "";
    assert MatchesKey(e, CreatedService(sync, e));
    FirstSyncManages(e, policy);
    hide *;
    NullGivenUndoesSync(SyncManifest(EMPTY, sync), SyncNext(EMPTY, sync), e, CreatedService(sync, e), PollIntervalMs);
  }

  lemma NullsCreated(sync: Sync, e: ManifestEntry, s: Service)
    requires e == Api(URL, Null, Undefined, Undefined) && s == CreatedService(sync, e)
    ensures NullsRequired(e, s, ManifestWins, PollIntervalMs)
  {
    DecimalNotEmpty(30000);
  }

  /** What the sync after the first one diffs. */
  lemma FirstSyncManages(e: ManifestEntry, policy: SyncPolicy)
    requires WellTyped(e) && HasEndpoint(e) && e.key != ""
    ensures var sync := FirstSync(e, policy);
            var st, next := SyncManifest(EMPTY, sync), SyncNext(EMPTY, sync);
            && TidyServices(st.services) && Distinct(next.managed)
            && (forall id :: id in next.managed ==> id in st.services)
            && next.entries == [e] && UniqueKeys(next.entries) && next.policy == policy
            && (forall x :: x in next.entries ==> x == e)
            && CreatedService(sync, e) in ManagedRows(st.services, next)
  {
    hide SyncManifest, DiffNow, SyncOps, Creations, CreatedColumns, WellTyped, DiffAgain, SyncScene, TidyServices;
    hide UniqueKeys, ManagedRows;
    var sync := FirstSync(e, policy);
    FirstSyncGoesThrough(e, policy);
    FirstSyncOps(e, policy);
    NextIsTidy(EMPTY, sync);
    OneEntryUnique(e, policy);
    assert SyncNext(EMPTY, sync).managed == ["s1"];
    ManagedRowIn(SyncManifest(EMPTY, sync).services, SyncNext(EMPTY, sync), CreatedService(sync, e));
  }
}

/**
 * server/src/services/manifest/ManifestDiffer.ts: the three-way comparison of a manifest, the stored services and the
 * values last synced.
 */
module ManifestDiffer {
  import opened Common
  import opened Fields

  datatype ManifestEntry = ManifestEntry(key: string, fields: Record)

  /** `manifest_last_synced_values` after parsing. */
  datatype Snapshot = NoSnapshot | Corrupt | Values(values: Record)

  datatype Service = Service(
    id: string, teamId: string, manifestKey: Option<string>, isActive: bool, columns: Record, lastSynced: Snapshot)

  datatype FieldDriftPolicy = Flag | ManifestWins | LocalWins

  datatype RemovalPolicy = FlagRemoval | Deactivate | Delete

  datatype SyncPolicy = SyncPolicy(onFieldDrift: FieldDriftPolicy, onRemoval: RemovalPolicy)

  datatype UpdateEntry = UpdateEntry(entry: ManifestEntry, serviceId: string, fieldsChanged: seq<Field>)

  datatype DriftEntry = DriftEntry(
    entry: ManifestEntry, serviceId: string, field: Field, manifestValue: string, currentValue: string)

  datatype Diff = Diff(
    toCreate: seq<ManifestEntry>, toUpdate: seq<UpdateEntry>, toDrift: seq<DriftEntry>, toKeepLocal: seq<DriftEntry>,
    unchangedIds: seq<string>, toDeactivate: seq<string>, toDelete: seq<string>, removalDrift: seq<string>)

  const NOTHING := Diff([], [], [], [], [], [], [], [])

  function Join(a: Diff, b: Diff): Diff {
    Diff(a.toCreate + b.toCreate, a.toUpdate + b.toUpdate, a.toDrift + b.toDrift, a.toKeepLocal + b.toKeepLocal,
         a.unchangedIds + b.unchangedIds, a.toDeactivate + b.toDeactivate, a.toDelete + b.toDelete,
         a.removalDrift + b.removalDrift)
  }

  // ---------------------------------------------------------------------------
  // One field
  // ---------------------------------------------------------------------------

  datatype Outcome = Skip | Update | Drift | KeepLocal

  /** The manifest names the field and its text is not the stored one. */
  predicate Differs(entry: ManifestEntry, service: Service, f: Field) {
    && entry.fields.Get(f) != Undefined
    && NormalizeToString(entry.fields.Get(f)) != NormalizeToString(service.columns.Get(f))
  }

  predicate IsFirstSync(service: Service) {
    !service.lastSynced.Values?
  }

  /** The stored value is the one last synced. */
  predicate Unedited(service: Service, f: Field) {
    service.lastSynced.Values?
    && NormalizeToString(service.columns.Get(f)) == NormalizeToString(service.lastSynced.values.Get(f))
  }

  function Classify(entry: ManifestEntry, service: Service, policy: FieldDriftPolicy, f: Field): Outcome {
    if !Differs(entry, service, f) then Skip
    else if IsFirstSync(service) || Unedited(service, f) then Update
    else match policy
      case Flag => Drift
      case ManifestWins => Update
      case LocalWins => KeepLocal
  }

  /** A three-way merge: an unedited field follows the manifest, an edited one follows the policy. */
  lemma ClassifyIsThreeWayMerge(entry: ManifestEntry, service: Service, policy: FieldDriftPolicy, f: Field)
    ensures Classify(entry, service, policy, f) == Update <==>
      Differs(entry, service, f) && (IsFirstSync(service) || Unedited(service, f) || policy == ManifestWins)
    ensures Classify(entry, service, policy, f) == Drift <==>
      Differs(entry, service, f) && !IsFirstSync(service) && !Unedited(service, f) && policy == Flag
    ensures Classify(entry, service, policy, f) == KeepLocal <==>
      Differs(entry, service, f) && !IsFirstSync(service) && !Unedited(service, f) && policy == LocalWins
  {
    hide Differs, Unedited;
  }

  function Classified(entry: ManifestEntry, service: Service, policy: FieldDriftPolicy, o: Outcome): Field -> bool {
    (f: Field) => Classify(entry, service, policy, f) == o
  }

  function FieldsWith(entry: ManifestEntry, service: Service, policy: FieldDriftPolicy, o: Outcome): seq<Field> {
    Filter(Classified(entry, service, policy, o), SYNCABLE_FIELDS)
  }

  lemma FieldsWithMember(entry: ManifestEntry, service: Service, policy: FieldDriftPolicy, o: Outcome, f: Field)
    ensures f in FieldsWith(entry, service, policy, o) <==> Classify(entry, service, policy, f) == o
  {
    hide Classify;
    FilterMember(Classified(entry, service, policy, o), SYNCABLE_FIELDS, f);
    EveryFieldListed(f);
  }

  function DriftOf(entry: ManifestEntry, service: Service): Field -> DriftEntry {
    (f: Field) =>
      DriftEntry(entry, service.id, f, NormalizeToString(entry.fields.Get(f)),
        NormalizeToString(service.columns.Get(f)))
  }

  // ---------------------------------------------------------------------------
  // One entry, one removed service, and whole lists
  // ---------------------------------------------------------------------------

  /** What a matched service contributes, from the fields and entries of each outcome. */
  function Categories(
    entry: ManifestEntry, serviceId: string, updates: seq<Field>, drifts: seq<DriftEntry>, kept: seq<DriftEntry>): Diff
  {
    Diff([], if updates == [] then [] else [UpdateEntry(entry, serviceId, updates)], drifts, kept,
         if updates == [] && drifts == [] && kept == [] then [serviceId] else [], [], [], [])
  }

  function EntryDiff(found: Option<Service>, entry: ManifestEntry, policy: SyncPolicy): Diff {
    if found.None? then NOTHING.(toCreate := [entry])
    else
      var service, drift := found.value, policy.onFieldDrift;
      Categories(entry, service.id, FieldsWith(entry, service, drift, Update),
                 MapSeq(DriftOf(entry, service), FieldsWith(entry, service, drift, Drift)),
                 MapSeq(DriftOf(entry, service), FieldsWith(entry, service, drift, KeepLocal)))
  }

  function RemovalDiff(serviceId: string, policy: SyncPolicy): Diff {
    match policy.onRemoval
    case FlagRemoval => NOTHING.(removalDrift := [serviceId])
    case Deactivate => NOTHING.(toDeactivate := [serviceId])
    case Delete => NOTHING.(toDelete := [serviceId])
  }

  predicate Keyed(s: Service) {
    s.manifestKey.Some? && s.manifestKey.value != ""
  }

  /** `existingByKey`; a later row replaces an earlier one. */
  function Index(services: seq<Service>): map<string, Service> {
    if services == [] then map[]
    else
      var s := services[|services| - 1];
      var before := Index(services[..|services| - 1]);
      if Keyed(s) then before[s.manifestKey.value := s] else before
  }

  function Found(index: map<string, Service>, key: string): Option<Service> {
    if key in index then Some(index[key]) else None
  }

  function EntriesDiff(index: map<string, Service>, entries: seq<ManifestEntry>, policy: SyncPolicy): Diff {
    if entries == [] then NOTHING
    else
      var e := entries[|entries| - 1];
      Join(EntriesDiff(index, entries[..|entries| - 1], policy), EntryDiff(Found(index, e.key), e, policy))
  }

  function Keys(entries: seq<ManifestEntry>): set<string> {
    set e | e in entries :: e.key
  }

  predicate Removed(matched: set<string>, s: Service) {
    Keyed(s) && s.manifestKey.value !in matched
  }

  function RemovalsDiff(services: seq<Service>, matched: set<string>, policy: SyncPolicy): Diff {
    if services == [] then NOTHING
    else
      var s := services[|services| - 1];
      var before := RemovalsDiff(services[..|services| - 1], matched, policy);
      if Removed(matched, s) then Join(before, RemovalDiff(s.id, policy)) else before
  }

  function DiffOf(entries: seq<ManifestEntry>, services: seq<Service>, policy: SyncPolicy): Diff {
    Join(EntriesDiff(Index(services), entries, policy),
         RemovalsDiff(services, Keys(entries) * Index(services).Keys, policy))
  }

  lemma JoinNothing(d: Diff)
    ensures Join(d, NOTHING) == d
  {
  }

  // ---------------------------------------------------------------------------
  // The differ
  // ---------------------------------------------------------------------------

  /** The result object the differ fills. */
  class DiffResult {
    var toCreate: seq<ManifestEntry>
    var toUpdate: seq<UpdateEntry>
    var toDrift: seq<DriftEntry>
    var toKeepLocal: seq<DriftEntry>
    var unchangedIds: seq<string>
    var toDeactivate: seq<string>
    var toDelete: seq<string>
    var removalDrift: seq<string>

    function Contents(): Diff
      reads this
    {
      Diff(toCreate, toUpdate, toDrift, toKeepLocal, unchangedIds, toDeactivate, toDelete, removalDrift)
    }

    constructor ()
      ensures Contents() == NOTHING
    {
      toCreate, toUpdate, toDrift, toKeepLocal := [], [], [], [];
      unchangedIds, toDeactivate, toDelete, removalDrift := [], [], [], [];
    }

    method DiffExistingService(entry: ManifestEntry, existing: Service, policy: SyncPolicy)
      modifies this
      ensures Contents() == Join(old(Contents()), EntryDiff(Some(existing), entry, policy))
    {
      var safeFields, driftEntries,
        keepLocalEntries := ClassifyFields(entry, existing, policy.onFieldDrift, SYNCABLE_FIELDS);
      EntryDiffParts(entry, existing, policy, safeFields, driftEntries, keepLocalEntries);
      hide *;
      Categorize(entry, existing.id, safeFields, driftEntries, keepLocalEntries);
    }

    /** The service goes to every list its fields call for, or to the unchanged ones. */
    method Categorize(
      entry: ManifestEntry, serviceId: string, safeFields: seq<Field>, driftEntries: seq<DriftEntry>,
      keepLocalEntries: seq<DriftEntry>)
      modifies this
      ensures Contents() == Join(old(Contents()),
        Categories(entry, serviceId, safeFields, driftEntries, keepLocalEntries))
    {
      if |safeFields| > 0 {
        toUpdate := toUpdate + [UpdateEntry(entry, serviceId, safeFields)];
      }
      if |driftEntries| > 0 {
        toDrift := toDrift + driftEntries;
      }
      if |keepLocalEntries| > 0 {
        toKeepLocal := toKeepLocal + keepLocalEntries;
      }
      if |safeFields| == 0 && |driftEntries| == 0 && |keepLocalEntries| == 0 {
        unchangedIds := unchangedIds + [serviceId];
      }
    }

    method ApplyRemovalPolicy(serviceId: string, policy: SyncPolicy)
      modifies this
      ensures Contents() == Join(old(Contents()), RemovalDiff(serviceId, policy))
    {
      match policy.onRemoval
      case FlagRemoval => removalDrift := removalDrift + [serviceId];
      case Deactivate => toDeactivate := toDeactivate + [serviceId];
      case Delete => toDelete := toDelete + [serviceId];
    }
  }

  lemma EntryDiffParts(
    entry: ManifestEntry, service: Service, policy: SyncPolicy, safeFields: seq<Field>, driftEntries: seq<DriftEntry>,
    keepLocalEntries: seq<DriftEntry>)
    requires safeFields == FieldsWith(entry, service, policy.onFieldDrift, Update)
    requires driftEntries == MapSeq(DriftOf(entry, service), FieldsWith(entry, service, policy.onFieldDrift, Drift))
    requires keepLocalEntries
      == MapSeq(DriftOf(entry, service), FieldsWith(entry, service, policy.onFieldDrift, KeepLocal))
    ensures EntryDiff(Some(service), entry, policy)
      == Categories(entry, service.id, safeFields, driftEntries, keepLocalEntries)
  {
    hide FieldsWith, DriftOf;
  }

  /** The loop over the fields of one matched entry. */
  method ClassifyFields(entry: ManifestEntry, existing: Service, policy: FieldDriftPolicy, fields: seq<Field>)
    returns (safeFields: seq<Field>, driftEntries: seq<DriftEntry>, keepLocalEntries: seq<DriftEntry>)
    ensures safeFields == Filter(Classified(entry, existing, policy, Update), fields)
    ensures driftEntries == MapSeq(DriftOf(entry, existing), Filter(Classified(entry, existing, policy, Drift), fields))
    ensures keepLocalEntries
      == MapSeq(DriftOf(entry, existing), Filter(Classified(entry, existing, policy, KeepLocal), fields))
  {
    hide Filter, MapSeq, NormalizeToString;
    var isFirstSync := !existing.lastSynced.Values?;
    safeFields, driftEntries, keepLocalEntries := [], [], [];
    ghost var drifted: seq<Field>, kept: seq<Field> := [], [];
    FilterNone(Classified(entry, existing, policy, Update), []);
    FilterNone(Classified(entry, existing, policy, Drift), []);
    FilterNone(Classified(entry, existing, policy, KeepLocal), []);
    for i := 0 to |fields|
      invariant safeFields == Filter(Classified(entry, existing, policy, Update), fields[..i])
      invariant drifted == Filter(Classified(entry, existing, policy, Drift), fields[..i])
      invariant kept == Filter(Classified(entry, existing, policy, KeepLocal), fields[..i])
      invariant driftEntries == MapSeq(DriftOf(entry, existing), drifted)
      invariant keepLocalEntries == MapSeq(DriftOf(entry, existing), kept)
    {
      var f := fields[i];
      FilterOneMore(Classified(entry, existing, policy, Update), fields, i);
      FilterOneMore(Classified(entry, existing, policy, Drift), fields, i);
      FilterOneMore(Classified(entry, existing, policy, KeepLocal), fields, i);
      MapOneMore(DriftOf(entry, existing), drifted, f);
      MapOneMore(DriftOf(entry, existing), kept, f);
      ghost var outcome := Classify(entry, existing, policy, f);
      if outcome == Drift { drifted := drifted + [f]; }
      if outcome == KeepLocal { kept := kept + [f]; }
      var manifestValue := entry.fields.Get(f);
      if manifestValue == Undefined {
        continue;
      }
      var manifestStr := NormalizeToString(manifestValue);
      var dbStr := NormalizeToString(existing.columns.Get(f));
      if manifestStr == dbStr {
        continue;
      }
      if isFirstSync {
        safeFields := safeFields + [f];
        continue;
      }
      var lastSyncedStr := NormalizeToString(existing.lastSynced.values.Get(f));
      if dbStr == lastSyncedStr {
        safeFields := safeFields + [f];
      } else {
        var driftEntry := DriftEntry(entry, existing.id, f, manifestStr, dbStr);
        match policy
        case Flag =>
          driftEntries := driftEntries + [driftEntry];
        case ManifestWins =>
          safeFields := safeFields + [f];
        case LocalWins =>
          keepLocalEntries := keepLocalEntries + [driftEntry];
      }
    }
    assert fields[..|fields|] == fields;
  }

  method DiffManifest(
    entries: seq<ManifestEntry>, services: seq<Service>, policy: SyncPolicy) returns (result: DiffResult)
    ensures fresh(result) && result.Contents() == DiffOf(entries, services, policy)
  {
    hide EntryDiff, RemovalDiff, Join;
    result := new DiffResult();
    var existingByKey: map<string, Service> := map[];
    for i := 0 to |services|
      invariant existingByKey == Index(services[..i])
      invariant result.Contents() == NOTHING
    {
      var svc := services[i];
      assert services[..i + 1][..i] == services[..i];
      if svc.manifestKey.Some? && svc.manifestKey.value != "" {
        existingByKey := existingByKey[svc.manifestKey.value := svc];
      }
    }
    assert services[..|services|] == services;
    var matchedKeys := {};
    for i := 0 to |entries|
      invariant matchedKeys == Keys(entries[..i]) * existingByKey.Keys
      invariant result.Contents() == EntriesDiff(existingByKey, entries[..i], policy)
    {
      var entry := entries[i];
      assert entries[..i + 1][..i] == entries[..i] && entries[..i + 1] == entries[..i] + [entry];
      if entry.key !in existingByKey {
        JoinCreated(result.Contents(), entry, policy);
        result.toCreate := result.toCreate + [entry];
        continue;
      }
      matchedKeys := matchedKeys + {entry.key};
      result.DiffExistingService(entry, existingByKey[entry.key], policy);
    }
    assert entries[..|entries|] == entries;
    ghost var before := result.Contents();
    JoinNothing(before);
    for i := 0 to |services|
      invariant result.Contents() == Join(before, RemovalsDiff(services[..i], matchedKeys, policy))
    {
      var svc := services[i];
      assert services[..i + 1][..i] == services[..i];
      if svc.manifestKey.Some? && svc.manifestKey.value != "" && svc.manifestKey.value !in matchedKeys {
        JoinAssociative(before, RemovalsDiff(services[..i], matchedKeys, policy), RemovalDiff(svc.id, policy));
        result.ApplyRemovalPolicy(svc.id, policy);
      }
    }
    assert services[..|services|] == services;
  }

  lemma JoinCreated(d: Diff, entry: ManifestEntry, policy: SyncPolicy)
    ensures Join(d, EntryDiff(None, entry, policy)) == d.(toCreate := d.toCreate + [entry])
  {
  }

  lemma JoinAssociative(a: Diff, b: Diff, c: Diff)
    ensures Join(Join(a, b), c) == Join(a, Join(b, c))
  {
  }
}

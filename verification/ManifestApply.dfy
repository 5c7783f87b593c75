/**
 * The update step of server/src/services/manifest/ManifestSyncService.ts, and what a diff run again finds after it.
 */
module ManifestApply {
  import opened Common
  import opened Fields
  import opened ManifestDiffer
  import opened ManifestSync

  // ---------------------------------------------------------------------------
  // Applying updates
  // ---------------------------------------------------------------------------

  /** `JSON.stringify` of a value. */
  function JsonText(v: FieldValue): string {
    match v
    case Obj(json) => json
    case Str(s) => Quote(s)
    case Num(n) => Decimal(n)
    case Null => "null"
    case Undefined => "undefined"
  }

  function OrNull(v: FieldValue): FieldValue {
    if v == Undefined then Null else v
  }

  /** `getManifestFieldForUpdate`. */
  function UpdateValue(entry: ManifestEntry, f: Field): FieldValue {
    var v := entry.fields.Get(f);
    match f
    case Description => OrNull(v)
    case MetricsEndpoint => OrNull(v)
    case SchemaConfig => if IsTruthy(v) then Str(JsonText(v)) else Null
    case HealthEndpointFormat => if v == Undefined || v == Null then Str("default") else v
    case _ => v
  }

  /** Columns declared NOT NULL. */
  predicate Required(f: Field) {
    f == Name || f == HealthEndpoint || f == PollIntervalMs || f == HealthEndpointFormat
  }

  predicate RejectsNull(input: map<Field, FieldValue>) {
    exists f :: f in input && Required(f) && input[f] == Null
  }

  /** The columns an update sets. */
  function InputOf(u: UpdateEntry): map<Field, FieldValue> {
    map f | f in u.fieldsChanged && UpdateValue(u.entry, f) != Undefined :: UpdateValue(u.entry, f)
  }

  /** The changed fields are set, and the whole snapshot becomes the entry's values. */
  function Applied(s: Service, u: UpdateEntry): Service {
    s.(columns := s.columns.Patched(InputOf(u)), lastSynced := Values(u.entry.fields))
  }

  /** Applying to the row with the update's id. */
  function AppliedTo(u: UpdateEntry): Service -> Service {
    (s: Service) => if s.id == u.serviceId then Applied(s, u) else s
  }

  ghost predicate RowExists(services: seq<Service>, id: string) {
    exists s :: s in services && s.id == id
  }

  /** All updates in order; `None` when a column rejects a null and the transaction rolls back. */
  ghost function ApplyAll(services: seq<Service>, updates: seq<UpdateEntry>): Option<seq<Service>> {
    if updates == [] then Some(services)
    else
      var u := updates[|updates| - 1];
      match ApplyAll(services, updates[..|updates| - 1])
      case None => None
      case Some(rows) =>
        if RowExists(rows, u.serviceId) && RejectsNull(InputOf(u)) then None
        else Some(MapSeq(AppliedTo(u), rows))
  }

  method BuildUpdateInput(u: UpdateEntry) returns (input: map<Field, FieldValue>)
    ensures input == InputOf(u)
  {
    input := map[];
    for i := 0 to |u.fieldsChanged|
      invariant input == map f | f in u.fieldsChanged[..i]
        && UpdateValue(u.entry, f) != Undefined :: UpdateValue(u.entry, f)
    {
      var f := u.fieldsChanged[i];
      assert u.fieldsChanged[..i + 1] == u.fieldsChanged[..i] + [f];
      var value := UpdateValue(u.entry, f);
      if value != Undefined {
        input := input[f := value];
      }
    }
    assert u.fieldsChanged[..|u.fieldsChanged|] == u.fieldsChanged;
  }

  /** `UPDATE services SET ... WHERE id = ?` for the columns and then the snapshot; `false` when a null is rejected. */
  method UpdateRows(rows: seq<Service>, u: UpdateEntry, input: map<Field, FieldValue>)
    returns (ok: bool, after: seq<Service>)
    requires input == InputOf(u)
    ensures ok == !(RowExists(rows, u.serviceId) && RejectsNull(input))
    ensures ok ==> after == MapSeq(AppliedTo(u), rows)
  {
    hide RejectsNull, InputOf, UpdateValue;
    after := [];
    for i := 0 to |rows|
      invariant after == MapSeq(AppliedTo(u), rows[..i])
      invariant RowExists(rows[..i], u.serviceId) ==> !RejectsNull(input)
    {
      assert rows[..i + 1] == rows[..i] + [rows[i]];
      MapOneMore(AppliedTo(u), rows[..i], rows[i]);
      if rows[i].id == u.serviceId {
        var nulls := RejectsNull(input);
        if nulls {
          assert rows[i] in rows;
          return false, [];
        }
        after := after + [rows[i].(columns := rows[i].columns.Patched(input), lastSynced := Values(u.entry.fields))];
      } else {
        after := after + [rows[i]];
      }
    }
    assert rows[..|rows|] == rows;
    ok := true;
  }

  method ApplyUpdates(services: seq<Service>, updates: seq<UpdateEntry>) returns (r: Option<seq<Service>>)
    ensures r == ApplyAll(services, updates)
  {
    hide InputOf, RejectsNull, RowExists, AppliedTo, MapSeq;
    var rows := services;
    for i := 0 to |updates|
      invariant ApplyAll(services, updates[..i]) == Some(rows)
    {
      assert updates[..i + 1][..i] == updates[..i];
      var input := BuildUpdateInput(updates[i]);
      var ok, after := UpdateRows(rows, updates[i], input);
      if !ok {
        FailureStays(services, updates, i + 1);
        return None;
      }
      rows := after;
    }
    assert updates[..|updates|] == updates;
    r := Some(rows);
  }

  lemma {:induction false} FailureStays(services: seq<Service>, updates: seq<UpdateEntry>, i: nat)
    requires i <= |updates| && ApplyAll(services, updates[..i]) == None
    ensures ApplyAll(services, updates) == None
  {
    hide InputOf, RejectsNull, RowExists, AppliedTo, MapSeq;
    if i == |updates| {
      assert updates[..i] == updates;
    } else {
      var shorter := updates[..|updates| - 1];
      assert shorter[..i] == updates[..i];
      FailureStays(services, shorter, i);
    }
  }

  // ---------------------------------------------------------------------------
  // The rows afterwards
  // ---------------------------------------------------------------------------

  ghost predicate DistinctTargets(updates: seq<UpdateEntry>) {
    forall i, j :: 0 <= i < j < |updates| ==> updates[i].serviceId != updates[j].serviceId
  }

  /** Each row is changed by the one update that names it, if any. */
  lemma {:induction false} RowAfter(services: seq<Service>, updates: seq<UpdateEntry>, after: seq<Service>, i: nat)
    requires ApplyAll(services, updates) == Some(after) && DistinctTargets(updates) && i < |services|
    ensures |after| == |services|
    ensures after[i].id == services[i].id && after[i].manifestKey == services[i].manifestKey
    ensures (forall u :: u in updates ==> u.serviceId != services[i].id) ==> after[i] == services[i]
    ensures forall u :: u in updates && u.serviceId == services[i].id ==> after[i] == Applied(services[i], u)
  {
    hide InputOf, RejectsNull, RowExists;
    if updates != [] {
      var n := |updates| - 1;
      var before := ApplyAll(services, updates[..n]).value;
      RowAfter(services, updates[..n], before, i);
      assert updates == updates[..n] + [updates[n]];
      assert after[i] == AppliedTo(updates[n])(before[i]);
      if updates[n].serviceId == services[i].id {
        assert forall u :: u in updates[..n] ==> u.serviceId != services[i].id;
      }
    }
  }

  /** A sync rolls back exactly when some update sets a required column of its row to null. */
  lemma {:induction false} RollsBackExactlyWhenNullRequired(services: seq<Service>, updates: seq<UpdateEntry>)
    requires forall u :: u in updates ==> RowExists(services, u.serviceId)
    ensures ApplyAll(services, updates) == None <==> exists u :: u in updates && RejectsNull(InputOf(u))
    ensures ApplyAll(services, updates).Some? ==>
      forall id :: RowExists(services, id) ==> RowExists(ApplyAll(services, updates).value, id)
  {
    hide InputOf, RejectsNull;
    if updates != [] {
      var n := |updates| - 1;
      assert updates == updates[..n] + [updates[n]];
      RollsBackExactlyWhenNullRequired(services, updates[..n]);
      if ApplyAll(services, updates[..n]).Some? {
        var rows := ApplyAll(services, updates[..n]).value;
        forall id | RowExists(rows, id) ensures RowExists(MapSeq(AppliedTo(updates[n]), rows), id) {
          var s :| s in rows && s.id == id;
          var k :| 0 <= k < |rows| && rows[k] == s;
          assert MapSeq(AppliedTo(updates[n]), rows)[k] in MapSeq(AppliedTo(updates[n]), rows);
        }
      }
    }
  }

  lemma {:induction false} TargetsDistinct(services: seq<Service>, entries: seq<ManifestEntry>, policy: SyncPolicy)
    requires UniqueKeys(entries) && UniqueServices(services)
    ensures DistinctTargets(EntriesDiff(Index(services), entries, policy).toUpdate)
  {
    hide Index, FieldsWith, DriftOf, MapSeq;
    if entries != [] {
      var n := |entries| - 1;
      TargetsDistinct(services, entries[..n], policy);
      var e, index := entries[n], Index(services);
      var before := EntriesDiff(index, entries[..n], policy);
      IndexHolds(services, e.key);
      forall u | u in before.toUpdate && Found(index, e.key).Some? ensures u.serviceId != Found(index, e.key).value.id {
        UpdateSource(services, entries[..n], policy, u);
        var e' :| e' in entries[..n] && Found(index, e'.key).Some? && Found(index, e'.key).value.id == u.serviceId;
        IndexHolds(services, e'.key);
      }
    }
  }

  /** An update names the service its entry matched. */
  lemma UpdateSource(services: seq<Service>, entries: seq<ManifestEntry>, policy: SyncPolicy, u: UpdateEntry)
    requires u in EntriesDiff(Index(services), entries, policy).toUpdate
    ensures exists e :: e in entries && Found(Index(services), e.key).Some? &&
                        Found(Index(services), e.key).value.id == u.serviceId
  {
    hide Index, EntriesDiff, Found, EntryDiff;
    EntriesDiffHolds(Index(services), entries, policy, Updated(u));
    var e :| e in entries && Holds(EntryDiff(Found(Index(services), e.key), e, policy), Updated(u));
    EntryNames(Found(Index(services), e.key), e, policy, Updated(u), u.serviceId);
  }

  // ---------------------------------------------------------------------------
  // Diffing again
  // ---------------------------------------------------------------------------

  predicate IsText(v: FieldValue) {
    v.Str?
  }

  predicate Absent(v: FieldValue) {
    v == Undefined || v == Null
  }

  /** The value kinds server/src/services/manifest/ManifestValidator.ts admits before a diff is made. */
  predicate WellTyped(e: ManifestEntry) {
    var r := e.fields;
    && IsText(r.name) && r.name.text != ""
    && (IsText(r.healthEndpoint) || (r.healthEndpointFormat == Str("otlp") && Absent(r.healthEndpoint)))
    && (IsText(r.description) || Absent(r.description))
    && (IsText(r.metricsEndpoint) || Absent(r.metricsEndpoint))
    && (r.pollIntervalMs.Num? || Absent(r.pollIntervalMs))
    && (r.schemaConfig.Obj? || (IsText(r.schemaConfig) && r.schemaConfig.text != "") || Absent(r.schemaConfig))
    && (IsText(r.healthEndpointFormat) || Absent(r.healthEndpointFormat))
  }

  /** The update stores the manifest's own text: not a format given as null, nor a schema given as a JSON text. */
  predicate StoredAsGiven(e: ManifestEntry, f: Field) {
    && !(f == HealthEndpointFormat && e.fields.healthEndpointFormat == Null)
    && !(f == SchemaConfig && IsText(e.fields.schemaConfig))
  }

  lemma StoredAsGivenMeaning(e: ManifestEntry, f: Field)
    requires WellTyped(e) && e.fields.Get(f) != Undefined
    ensures UpdateValue(e, f) != Undefined
    ensures NormalizeToString(UpdateValue(e, f)) == NormalizeToString(e.fields.Get(f)) <==> StoredAsGiven(e, f)
  {
    hide Quote, Decimal;
    if f == SchemaConfig && IsText(e.fields.schemaConfig) {
      assert |Quote(e.fields.schemaConfig.text)| > |e.fields.schemaConfig.text|;
    }
  }

  /** The row a matched service becomes. */
  function RowThen(e: ManifestEntry, s: Service, drift: FieldDriftPolicy): Service {
    var updates := FieldsWith(e, s, drift, Update);
    if updates == [] then s else Applied(s, UpdateEntry(e, s.id, updates))
  }

  /** What a second classification finds for each outcome of the first. */
  lemma ClassifyAgain(e: ManifestEntry, s: Service, drift: FieldDriftPolicy, f: Field)
    requires WellTyped(e)
    ensures var first, again := Classify(e, s, drift, f), Classify(e, RowThen(e, s, drift), drift, f);
            again == if first != Update then first
                     else if StoredAsGiven(e, f) then Skip
                     else match drift case Flag => Drift case ManifestWins => Update case LocalWins => KeepLocal
    ensures Classify(e, s, drift, f) != Update ==> RowThen(e, s, drift).columns.Get(f) == s.columns.Get(f)
  {
    hide WellTyped, StoredAsGiven, UpdateValue, NormalizeToString, Record.Get, Record.Patched, FieldsWith;
    var updates := FieldsWith(e, s, drift, Update);
    FieldsWithMember(e, s, drift, Update, f);
    if updates != [] {
      var u := UpdateEntry(e, s.id, updates);
      GetPatched(s.columns, InputOf(u), f);
      if e.fields.Get(f) != Undefined {
        StoredAsGivenMeaning(e, f);
      }
    }
  }

  ghost predicate AllStoredAsGiven(updates: seq<UpdateEntry>) {
    forall u, f :: u in updates && f in u.fieldsChanged ==> StoredAsGiven(u.entry, f)
  }

  /** One entry, diffed again after its own update. */
  lemma EntryAgain(e: ManifestEntry, s: Service, policy: SyncPolicy)
    requires WellTyped(e)
    requires policy.onFieldDrift == LocalWins || AllStoredAsGiven(EntryDiff(Some(s), e, policy).toUpdate)
    ensures var d, again := EntryDiff(Some(s), e, policy),
      EntryDiff(Some(RowThen(e, s, policy.onFieldDrift)), e, policy);
            again.toUpdate == [] && again.toDrift == d.toDrift
  {
    hide WellTyped, StoredAsGiven, Classify, Applied;
    var drift := policy.onFieldDrift;
    var later := RowThen(e, s, drift);
    var updates := FieldsWith(e, s, drift, Update);
    forall f | f in SYNCABLE_FIELDS
      ensures Classify(e, later, drift, f) != Update
      ensures Classify(e, later, drift, f) == Drift <==> Classify(e, s, drift, f) == Drift
      ensures Classify(e, s, drift, f) == Drift ==> DriftOf(e, later)(f) == DriftOf(e, s)(f) {
      ClassifyAgain(e, s, drift, f);
      FieldsWithMember(e, s, drift, Update, f);
      RowKeepsId(e, s, drift);
      if f in updates && drift != LocalWins {
        assert UpdateEntry(e, s.id, updates) in EntryDiff(Some(s), e, policy).toUpdate;
      }
    }
    hide RowThen, DriftOf;
    FilterNone(Classified(e, later, drift, Update), SYNCABLE_FIELDS);
    FilterCongruent(Classified(e, later, drift, Drift), Classified(e, s, drift, Drift), SYNCABLE_FIELDS);
    SameDrifts(e, s, later, drift);
  }

  lemma RowKeepsId(e: ManifestEntry, s: Service, drift: FieldDriftPolicy)
    ensures RowThen(e, s, drift).id == s.id && RowThen(e, s, drift).manifestKey == s.manifestKey
  {
    hide FieldsWith;
  }

  lemma SameDrifts(e: ManifestEntry, s: Service, t: Service, drift: FieldDriftPolicy)
    requires FieldsWith(e, t, drift, Drift) == FieldsWith(e, s, drift, Drift)
    requires forall f | f in SYNCABLE_FIELDS :: Classify(e, s, drift, f) == Drift ==>
      DriftOf(e, t)(f) == DriftOf(e, s)(f)
    ensures MapSeq(DriftOf(e, t), FieldsWith(e, t, drift, Drift))
      == MapSeq(DriftOf(e, s), FieldsWith(e, s, drift, Drift))
  {
    hide Classify, DriftOf;
    var fields := FieldsWith(e, s, drift, Drift);
    forall i | 0 <= i < |fields| ensures DriftOf(e, t)(fields[i]) == DriftOf(e, s)(fields[i]) {
      FieldsWithMember(e, s, drift, Drift, fields[i]);
      EveryFieldListed(fields[i]);
    }
  }

  lemma UpdatesOfMatched(
    entries: seq<ManifestEntry>, services: seq<Service>, policy: SyncPolicy, e: ManifestEntry, s: Service)
    requires UniqueKeys(entries) && UniqueServices(services) && e in entries && s in services && MatchesKey(e, s)
    ensures var d, fields := DiffOf(entries, services, policy), FieldsWith(e, s, policy.onFieldDrift, Update);
            && (fields != [] ==> UpdateEntry(e, s.id, fields) in d.toUpdate)
            && (fields == [] ==> forall u :: u in d.toUpdate ==> u.serviceId != s.id)
  {
    hide DiffOf, FieldsWith, Classify, UniqueKeys, UniqueServices, MatchesKey, EntryDiff;
    var d, fields := DiffOf(entries, services, policy), FieldsWith(e, s, policy.onFieldDrift, Update);
    LandsOnlyThere(entries, services, policy, e, s, Name);
    if fields != [] {
      FieldLandsOnce(entries, services, policy, e, s, fields[0]);
      FieldsWithMember(e, s, policy.onFieldDrift, Update, fields[0]);
    } else {
      forall u | u in d.toUpdate ensures u.serviceId != s.id {
        if u.serviceId == s.id {
          var c := Source(entries, services, policy, e, s, Updated(u), s.id);
          EntryDiffFields(e, s, policy);
          assert false;
        }
      }
    }
  }

  lemma RowsStayUnique(services: seq<Service>, updates: seq<UpdateEntry>, after: seq<Service>)
    requires UniqueServices(services) && ApplyAll(services, updates) == Some(after) && DistinctTargets(updates)
    ensures UniqueServices(after)
  {
    hide ApplyAll;
    forall i, j | 0 <= i < j < |after|
      ensures after[i].id != after[j].id
           && (Keyed(after[i]) && Keyed(after[j]) ==> after[i].manifestKey != after[j].manifestKey) {
      SameLength(services, updates, after);
      RowAfter(services, updates, after, i);
      RowAfter(services, updates, after, j);
    }
  }

  lemma {:induction false} SameLength(services: seq<Service>, updates: seq<UpdateEntry>, after: seq<Service>)
    requires ApplyAll(services, updates) == Some(after)
    ensures |after| == |services|
  {
    if updates != [] {
      SameLength(services, updates[..|updates| - 1], ApplyAll(services, updates[..|updates| - 1]).value);
    }
  }

  /** After the updates an entry finds the row it found before, as its own update left it. */
  lemma FoundAfter(
    entries: seq<ManifestEntry>, services: seq<Service>, policy: SyncPolicy, after: seq<Service>, e: ManifestEntry)
    requires UniqueKeys(entries) && UniqueServices(services) && e in entries
    requires ApplyAll(services, DiffOf(entries, services, policy).toUpdate) == Some(after)
    ensures var before := Found(Index(services), e.key);
            Found(Index(after), e.key) == if before.None? then None
              else Some(RowThen(e, before.value, policy.onFieldDrift))
  {
    hide DiffOf, EntriesDiff, Index, FieldsWith, Applied, UniqueKeys, ApplyAll;
    var updates := DiffOf(entries, services, policy).toUpdate;
    DiffParts(entries, services, policy);
    TargetsDistinct(services, entries, policy);
    RowsStayUnique(services, updates, after);
    SameLength(services, updates, after);
    IndexHolds(services, e.key);
    IndexHolds(after, e.key);
    hide UniqueServices, DistinctTargets;
    if Found(Index(services), e.key).Some? {
      var s := Found(Index(services), e.key).value;
      var i :| 0 <= i < |services| && services[i] == s;
      RowAfter(services, updates, after, i);
      UpdatesOfMatched(entries, services, policy, e, s);
      IndexFinds(after, i);
    } else {
      forall i | 0 <= i < |after| ensures !MatchesKey(e, after[i]) {
        RowAfter(services, updates, after, i);
        assert services[i] in services;
      }
    }
  }

  lemma {:induction false} EntriesAgain(
    index: map<string, Service>, later: map<string, Service>, entries: seq<ManifestEntry>, policy: SyncPolicy)
    requires forall e :: e in entries ==>
      var d, again := EntryDiff(Found(index, e.key), e, policy), EntryDiff(Found(later, e.key), e, policy);
      again.toUpdate == [] && again.toDrift == d.toDrift
    ensures EntriesDiff(later, entries, policy).toUpdate == []
    ensures EntriesDiff(later, entries, policy).toDrift == EntriesDiff(index, entries, policy).toDrift
  {
    hide EntryDiff, Found;
    if entries != [] {
      EntriesAgain(index, later, entries[..|entries| - 1], policy);
    }
  }

  /**
   * Diffing again after applying every update finds nothing to update and the same drift, exactly when edited fields
   * are kept local or every updated field is stored as the manifest gives it.
   */
  lemma DiffAgainAfterApply(
    entries: seq<ManifestEntry>, services: seq<Service>, policy: SyncPolicy, after: seq<Service>)
    requires UniqueKeys(entries) && UniqueServices(services) && forall e :: e in entries ==> WellTyped(e)
    requires ApplyAll(services, DiffOf(entries, services, policy).toUpdate) == Some(after)
    ensures var d, again := DiffOf(entries, services, policy), DiffOf(entries, after, policy);
            again.toUpdate == [] && again.toDrift == d.toDrift <==>
            policy.onFieldDrift == LocalWins || AllStoredAsGiven(d.toUpdate)
  {
    hide DiffOf, EntriesDiff, EntryDiff, Index, WellTyped, UniqueKeys, UniqueServices, ApplyAll, StoredAsGiven;
    if policy.onFieldDrift == LocalWins || AllStoredAsGiven(DiffOf(entries, services, policy).toUpdate) {
      SettledDiffAgain(entries, services, policy, after);
    } else {
      UnsettledDiffAgain(entries, services, policy, after);
    }
  }

  lemma SettledDiffAgain(entries: seq<ManifestEntry>, services: seq<Service>, policy: SyncPolicy, after: seq<Service>)
    requires UniqueKeys(entries) && UniqueServices(services) && forall e :: e in entries ==> WellTyped(e)
    requires ApplyAll(services, DiffOf(entries, services, policy).toUpdate) == Some(after)
    requires policy.onFieldDrift == LocalWins || AllStoredAsGiven(DiffOf(entries, services, policy).toUpdate)
    ensures DiffOf(entries, after, policy).toUpdate == []
    ensures DiffOf(entries, after, policy).toDrift == DiffOf(entries, services, policy).toDrift
  {
    hide DiffOf, EntriesDiff, EntryDiff, Index, WellTyped, UniqueKeys, UniqueServices, ApplyAll, RowThen, StoredAsGiven;
    DiffParts(entries, services, policy);
    DiffParts(entries, after, policy);
    forall e | e in entries
      ensures EntryDiff(Found(Index(after), e.key), e, policy).toUpdate == []
      ensures EntryDiff(Found(Index(after), e.key), e, policy).toDrift
           == EntryDiff(Found(Index(services), e.key), e, policy).toDrift {
      var found := Found(Index(services), e.key);
      FoundAfter(entries, services, policy, after, e);
      if found.Some? {
        forall u | u in EntryDiff(found, e, policy).toUpdate ensures u in DiffOf(entries, services, policy).toUpdate {
          EntriesDiffHolds(Index(services), entries, policy, Updated(u));
          assert Holds(EntryDiff(Found(Index(services), e.key), e, policy), Updated(u));
        }
        EntryAgain(e, found.value, policy);
      } else {
        NewEntryDiff(e, policy);
      }
    }
    EntriesAgain(Index(services), Index(after), entries, policy);
  }

  lemma NewEntryDiff(e: ManifestEntry, policy: SyncPolicy)
    ensures EntryDiff(None, e, policy).toUpdate == [] && EntryDiff(None, e, policy).toDrift == []
  {
  }

  lemma UnsettledDiffAgain(entries: seq<ManifestEntry>, services: seq<Service>, policy: SyncPolicy, after: seq<Service>)
    requires UniqueKeys(entries) && UniqueServices(services) && forall e :: e in entries ==> WellTyped(e)
    requires ApplyAll(services, DiffOf(entries, services, policy).toUpdate) == Some(after)
    requires policy.onFieldDrift != LocalWins && !AllStoredAsGiven(DiffOf(entries, services, policy).toUpdate)
    ensures DiffOf(entries, after, policy).toUpdate != []
         || DiffOf(entries, after, policy).toDrift != DiffOf(entries, services, policy).toDrift
  {
    hide DiffOf, EntriesDiff, EntryDiff, Index, WellTyped, UniqueKeys, UniqueServices, ApplyAll, FieldsWith;
    hide StoredAsGiven;
    hide MatchesKey, Classify, Applied;
    var d, again, drift := DiffOf(entries, services, policy), DiffOf(entries, after, policy), policy.onFieldDrift;
    var u, f :| u in d.toUpdate && f in u.fieldsChanged && !StoredAsGiven(u.entry, f);
    DiffParts(entries, services, policy);
    var e, s := UpdateOwner(entries, services, policy, u);
    LandsOnlyThere(entries, services, policy, e, s, f);
    FieldsWithMember(e, s, drift, Update, f);
    ClassifyAgain(e, s, drift, f);
    var t := RowThen(e, s, drift);
    RowKeepsId(e, s, drift);
    TargetsDistinct(services, entries, policy);
    RowsStayUnique(services, d.toUpdate, after);
    MatchAfter(entries, services, policy, after, e, s);
    FieldLandsOnce(entries, services, policy, e, s, f);
    FieldLandsOnce(entries, after, policy, e, t, f);
  }

  /** The entry and the service an update came from. */
  lemma UpdateOwner(entries: seq<ManifestEntry>, services: seq<Service>, policy: SyncPolicy, u: UpdateEntry)
    returns (e: ManifestEntry, s: Service)
    requires u in DiffOf(entries, services, policy).toUpdate
    ensures e in entries && s in services && MatchesKey(e, s) && s.id == u.serviceId
  {
    hide DiffOf, EntriesDiff, Index, EntryDiff;
    DiffParts(entries, services, policy);
    UpdateSource(services, entries, policy, u);
    e :| e in entries && Found(Index(services), e.key).Some? && Found(Index(services), e.key).value.id == u.serviceId;
    s := Found(Index(services), e.key).value;
    IndexHolds(services, e.key);
  }

  lemma MatchAfter(
    entries: seq<ManifestEntry>, services: seq<Service>, policy: SyncPolicy, after: seq<Service>, e: ManifestEntry,
    s: Service)
    requires UniqueKeys(entries) && UniqueServices(services) && e in entries && s in services && MatchesKey(e, s)
    requires ApplyAll(services, DiffOf(entries, services, policy).toUpdate) == Some(after)
    ensures RowThen(e, s, policy.onFieldDrift) in after && MatchesKey(e, RowThen(e, s, policy.onFieldDrift))
  {
    hide DiffOf, Index, UniqueKeys, UniqueServices, ApplyAll, RowThen;
    FoundMatch(services, e, s);
    FoundAfter(entries, services, policy, after, e);
    IndexHolds(after, e.key);
  }

  // ---------------------------------------------------------------------------
  // Round after round
  // ---------------------------------------------------------------------------

  /** The rows after `n` syncs of the same manifest; `None` once a sync has rolled back. */
  ghost function Rounds(
    entries: seq<ManifestEntry>, services: seq<Service>, policy: SyncPolicy, n: nat): Option<seq<Service>>
  {
    if n == 0 then Some(services)
    else
      match Rounds(entries, services, policy, n - 1)
      case None => None
      case Some(rows) => ApplyAll(rows, DiffOf(entries, rows, policy).toUpdate)
  }

  /** What becomes of a field the update does not store as given. */
  function Unsettled(drift: FieldDriftPolicy): Outcome {
    match drift
    case Flag => Drift
    case ManifestWins => Update
    case LocalWins => KeepLocal
  }

  /** The row of an entry after `n` rounds. */
  ghost function RowAfterRounds(e: ManifestEntry, s: Service, drift: FieldDriftPolicy, n: nat): Service {
    if n == 0 then s else RowThen(e, RowAfterRounds(e, s, drift, n - 1), drift)
  }

  lemma {:induction false} RoundsKeepMatch(
    entries: seq<ManifestEntry>, services: seq<Service>, policy: SyncPolicy, e: ManifestEntry, s: Service, n: nat)
    requires UniqueKeys(entries) && UniqueServices(services) && e in entries && s in services && MatchesKey(e, s)
    requires Rounds(entries, services, policy, n).Some?
    ensures var rows, row := Rounds(entries, services, policy, n).value, RowAfterRounds(e, s, policy.onFieldDrift, n);
            UniqueServices(rows) && row in rows && MatchesKey(e, row) && row.id == s.id
  {
    hide ApplyAll, DiffOf, UniqueKeys, UniqueServices, MatchesKey, RowThen, EntriesDiff, Index;
    if n > 0 {
      RoundsKeepMatch(entries, services, policy, e, s, n - 1);
      var rows, row := Rounds(entries, services, policy, n - 1).value, RowAfterRounds(e, s, policy.onFieldDrift, n - 1);
      var after := Rounds(entries, services, policy, n).value;
      DiffParts(entries, rows, policy);
      TargetsDistinct(rows, entries, policy);
      RowsStayUnique(rows, DiffOf(entries, rows, policy).toUpdate, after);
      MatchAfter(entries, rows, policy, after, e, row);
      RowKeepsId(e, row, policy.onFieldDrift);
    }
  }

  lemma {:induction false} UnsettledAfterRounds(e: ManifestEntry, s: Service, drift: FieldDriftPolicy, f: Field, n: nat)
    requires WellTyped(e) && !StoredAsGiven(e, f) && Classify(e, s, drift, f) == Update && n >= 1
    ensures Classify(e, RowAfterRounds(e, s, drift, n), drift, f) == Unsettled(drift)
  {
    hide WellTyped, StoredAsGiven, Classify, RowThen;
    ClassifyAgain(e, RowAfterRounds(e, s, drift, n - 1), drift, f);
    if n > 1 {
      UnsettledAfterRounds(e, s, drift, f, n - 1);
    }
  }

  /**
   * A field given as a null format or a JSON text never settles: once a sync has updated it, every later diff of the
   * same manifest reports it again, as the policy treats manual edits.
   */
  lemma NeverSettles(
    entries: seq<ManifestEntry>, services: seq<Service>, policy: SyncPolicy, e: ManifestEntry, s: Service, f: Field,
    n: nat)
    requires UniqueKeys(entries) && UniqueServices(services) && e in entries && s in services && MatchesKey(e, s)
    requires WellTyped(e) && !StoredAsGiven(e, f) && UpdatesField(DiffOf(entries, services, policy), s.id, f)
    requires n >= 1 && Rounds(entries, services, policy, n).Some?
    ensures var d := DiffOf(entries, Rounds(entries, services, policy, n).value, policy);
            match policy.onFieldDrift
            case Flag => DriftsField(d, s.id, f)
            case ManifestWins => UpdatesField(d, s.id, f)
            case LocalWins => KeepsField(d, s.id, f)
  {
    hide DiffOf, UniqueKeys, UniqueServices, MatchesKey, WellTyped, StoredAsGiven, Classify, RowAfterRounds, Rounds;
    hide UpdatesField, DriftsField, KeepsField;
    var drift := policy.onFieldDrift;
    FieldLandsOnce(entries, services, policy, e, s, f);
    UnsettledAfterRounds(e, s, drift, f, n);
    RoundsKeepMatch(entries, services, policy, e, s, n);
    FieldLandsOnce(entries, Rounds(entries, services, policy, n).value, policy, e, RowAfterRounds(e, s, drift, n), f);
  }

  // ---------------------------------------------------------------------------
  // Rollbacks
  // ---------------------------------------------------------------------------

  /** The manifest nulls a required column that holds something, and the differ lets it through. */
  predicate NullsRequired(e: ManifestEntry, s: Service, drift: FieldDriftPolicy, f: Field) {
    && (f == PollIntervalMs || f == HealthEndpoint) && e.fields.Get(f) == Null
    && NormalizeToString(s.columns.Get(f)) != "" && (IsFirstSync(s) || Unedited(s, f) || drift == ManifestWins)
  }

  lemma NullIsUpdated(e: ManifestEntry, s: Service, drift: FieldDriftPolicy, f: Field)
    requires WellTyped(e)
    ensures NullsRequired(e, s, drift, f) <==>
      Classify(e, s, drift, f) == Update && Required(f) && UpdateValue(e, f) == Null
  {
    hide Unedited, Decimal, Quote;
    ClassifyIsThreeWayMerge(e, s, drift, f);
    hide Classify;
  }

  /** The updates of a matched row are rejected exactly when they null a required column. */
  lemma RejectedExactlyWhenNulled(e: ManifestEntry, s: Service, drift: FieldDriftPolicy)
    requires WellTyped(e)
    ensures RejectsNull(InputOf(UpdateEntry(e, s.id, FieldsWith(e, s, drift, Update)))) <==>
      exists f :: NullsRequired(e, s, drift, f)
  {
    hide Classify, FieldsWith, NullsRequired, WellTyped, UpdateValue, Required;
    forall f ensures f in FieldsWith(e, s, drift, Update) && Required(f) && UpdateValue(e, f) == Null <==>
                     NullsRequired(e, s, drift, f) {
      FieldsWithMember(e, s, drift, Update, f);
      NullIsUpdated(e, s, drift, f);
    }
  }

  /**
   * A sync rolls back exactly when, for some matched service, the manifest gives a null interval or endpoint where the
   * row has one, and it is a first sync, or the row was not edited, or the manifest wins.
   */
  lemma RollsBackExactlyWhenNullGiven(entries: seq<ManifestEntry>, services: seq<Service>, policy: SyncPolicy)
    requires UniqueKeys(entries) && UniqueServices(services) && forall e :: e in entries ==> WellTyped(e)
    ensures ApplyAll(services, DiffOf(entries, services, policy).toUpdate) == None <==>
      exists e, s, f :: e in entries && s in services && MatchesKey(e, s) && NullsRequired(e, s, policy.onFieldDrift, f)
  {
    hide DiffOf, UniqueKeys, UniqueServices, WellTyped, MatchesKey, ApplyAll, FieldsWith, NullsRequired, InputOf;
    hide RejectsNull, Classify;
    var updates, drift := DiffOf(entries, services, policy).toUpdate, policy.onFieldDrift;
    forall u | u in updates
      ensures RowExists(services, u.serviceId)
      ensures RejectsNull(InputOf(u)) ==>
        exists e, s, f :: e in entries && s in services && MatchesKey(e, s) && NullsRequired(e, s, drift, f) {
      var e, s := UpdateOwner(entries, services, policy, u);
      LandsOnlyThere(entries, services, policy, e, s, Name);
      RejectedExactlyWhenNulled(e, s, drift);
    }
    RollsBackExactlyWhenNullRequired(services, updates);
    forall e, s, f | e in entries && s in services && MatchesKey(e, s) && NullsRequired(e, s, drift, f)
      ensures exists u :: u in updates && RejectsNull(InputOf(u)) {
      RejectedExactlyWhenNulled(e, s, drift);
      UpdatesOfMatched(entries, services, policy, e, s);
      NullIsUpdated(e, s, drift, f);
      FieldsWithMember(e, s, drift, Update, f);
      var u := UpdateEntry(e, s.id, FieldsWith(e, s, drift, Update));
      assert u in updates && RejectsNull(InputOf(u));
    }
  }

  /** The entry gives no null where a column is required. */
  predicate NullFree(e: ManifestEntry) {
    e.fields.pollIntervalMs != Null && e.fields.healthEndpoint != Null
  }

  /** Without such nulls every round goes through. */
  lemma {:induction false} RoundsGoThrough(
    entries: seq<ManifestEntry>, services: seq<Service>, policy: SyncPolicy, n: nat)
    requires UniqueKeys(entries) && UniqueServices(services)
    requires forall e :: e in entries ==> WellTyped(e) && NullFree(e)
    ensures Rounds(entries, services, policy, n).Some? && UniqueServices(Rounds(entries, services, policy, n).value)
  {
    hide DiffOf, UniqueKeys, UniqueServices, WellTyped, MatchesKey, ApplyAll, EntriesDiff, Index;
    if n > 0 {
      RoundsGoThrough(entries, services, policy, n - 1);
      var rows := Rounds(entries, services, policy, n - 1).value;
      RollsBackExactlyWhenNullGiven(entries, rows, policy);
      DiffParts(entries, rows, policy);
      TargetsDistinct(rows, entries, policy);
      var after := ApplyAll(rows, DiffOf(entries, rows, policy).toUpdate);
      if after.Some? {
        RowsStayUnique(rows, DiffOf(entries, rows, policy).toUpdate, after.value);
      }
    }
  }

  // ---------------------------------------------------------------------------
  // Manifests that reach this
  // ---------------------------------------------------------------------------

  function Api(endpoint: FieldValue, poll: FieldValue, schema: FieldValue, format: FieldValue): ManifestEntry {
    ManifestEntry("api", Record(Str("api"), endpoint, Undefined, Undefined, poll, schema, format))
  }

  const URL: FieldValue := Str("https://api.test/health")

  /** The service as a sync of an earlier manifest left it. */
  function SyncedApi(earlier: ManifestEntry, format: FieldValue): Service {
    Service(
      "s1", "t1", Some("api"), true,
      earlier.fields.(description := Null, metricsEndpoint := Null, pollIntervalMs := Num(30000), schemaConfig := Null,
                      healthEndpointFormat := format),
      Values(earlier.fields))
  }

  lemma OneEntryOneRow(e: ManifestEntry, s: Service)
    ensures UniqueKeys([e]) && UniqueServices([s]) && e in [e] && s in [s]
    ensures forall x :: x in [e] ==> x == e
    ensures forall x :: x in [s] ==> x == s
  {
  }

  /** The field of the service is updated once, and then reported after every later round, none of which rolls back. */
  ghost predicate ReportedForever(
    entries: seq<ManifestEntry>, services: seq<Service>, policy: SyncPolicy, id: string, f: Field, n: nat)
  {
    && UpdatesField(DiffOf(entries, services, policy), id, f)
    && Rounds(entries, services, policy, n).Some?
    && (n >= 1 ==>
          var d := DiffOf(entries, Rounds(entries, services, policy, n).value, policy);
          match policy.onFieldDrift
          case Flag => DriftsField(d, id, f)
          case ManifestWins => UpdatesField(d, id, f)
          case LocalWins => KeepsField(d, id, f))
  }

  lemma UnsettledForever(e: ManifestEntry, s: Service, policy: SyncPolicy, f: Field, n: nat)
    requires WellTyped(e) && NullFree(e) && MatchesKey(e, s) && !StoredAsGiven(e, f)
    requires Classify(e, s, policy.onFieldDrift, f) == Update
    ensures ReportedForever([e], [s], policy, s.id, f, n)
  {
    hide DiffOf, UniqueKeys, UniqueServices, MatchesKey, WellTyped, NullFree, StoredAsGiven, Classify, Rounds;
    hide UpdatesField, DriftsField, KeepsField;
    OneEntryOneRow(e, s);
    RoundsGoThrough([e], [s], policy, n);
    FieldLandsOnce([e], [s], policy, e, s, f);
    if n >= 1 {
      NeverSettles([e], [s], policy, e, s, f, n);
    }
  }

  /** The format was "schema" and is now an explicit null: it never settles, whatever the policy and however often. */
  lemma NullFormatNeverSettles(policy: SyncPolicy, n: nat)
    ensures var e, s := Api(URL, Undefined, Undefined, Null),
              SyncedApi(Api(URL, Undefined, Undefined, Str("schema")), Str("schema"));
            ReportedForever([e], [s], policy, s.id, HealthEndpointFormat, n)
  {
    var e, s := Api(URL, Undefined, Undefined, Null),
      SyncedApi(Api(URL, Undefined, Undefined, Str("schema")), Str("schema"));
    assert Classify(e, s, policy.onFieldDrift, HealthEndpointFormat) == Update;
    hide Classify, ReportedForever;
    UnsettledForever(e, s, policy, HealthEndpointFormat, n);
  }

  /** A schema given as a JSON text, whatever the text, where there was none, never settles either. */
  lemma TextSchemaNeverSettles(policy: SyncPolicy, text: string, n: nat)
    requires text != ""
    ensures var e, s := Api(URL, Undefined, Str(text), Undefined),
              SyncedApi(Api(URL, Undefined, Undefined, Undefined), Str("default"));
            ReportedForever([e], [s], policy, s.id, SchemaConfig, n)
  {
    var e, s := Api(URL, Undefined, Str(text), Undefined),
      SyncedApi(Api(URL, Undefined, Undefined, Undefined), Str("default"));
    assert Classify(e, s, policy.onFieldDrift, SchemaConfig) == Update;
    hide Classify, ReportedForever;
    UnsettledForever(e, s, policy, SchemaConfig, n);
  }

  lemma OneNullRollsBack(e: ManifestEntry, s: Service, policy: SyncPolicy, f: Field)
    requires WellTyped(e) && MatchesKey(e, s) && NullsRequired(e, s, policy.onFieldDrift, f)
    ensures ApplyAll([s], DiffOf([e], [s], policy).toUpdate) == None
  {
    hide DiffOf, UniqueKeys, UniqueServices, MatchesKey, WellTyped, NullsRequired, ApplyAll;
    OneEntryOneRow(e, s);
    RollsBackExactlyWhenNullGiven([e], [s], policy);
  }

  /** The interval of a polled service turns into an explicit null: no sync of that manifest goes through. */
  lemma NullIntervalRollsBack(policy: SyncPolicy)
    ensures var e, s := Api(URL, Null, Undefined, Undefined),
              SyncedApi(Api(URL, Num(30000), Undefined, Undefined), Str("default"));
            ApplyAll([s], DiffOf([e], [s], policy).toUpdate) == None
  {
    var e, s := Api(URL, Null, Undefined, Undefined),
      SyncedApi(Api(URL, Num(30000), Undefined, Undefined), Str("default"));
    DecimalNotEmpty(30000);
    assert NullsRequired(e, s, policy.onFieldDrift, PollIntervalMs);
    hide DiffOf, NullsRequired, ApplyAll;
    OneNullRollsBack(e, s, policy, PollIntervalMs);
  }

  lemma DecimalNotEmpty(n: int)
    ensures Decimal(n) != ""
  {
  }

  /** A polled service is switched to OTLP with an explicit null endpoint: no sync of that manifest goes through. */
  lemma NullEndpointRollsBack(policy: SyncPolicy)
    ensures var e, s := Api(Null, Undefined, Undefined, Str("otlp")),
              SyncedApi(Api(URL, Undefined, Undefined, Undefined), Str("default"));
            ApplyAll([s], DiffOf([e], [s], policy).toUpdate) == None
  {
    var e, s := Api(Null, Undefined, Undefined, Str("otlp")),
      SyncedApi(Api(URL, Undefined, Undefined, Undefined), Str("default"));
    assert NullsRequired(e, s, policy.onFieldDrift, HealthEndpoint);
    hide DiffOf, NullsRequired, ApplyAll;
    OneNullRollsBack(e, s, policy, HealthEndpoint);
  }
}

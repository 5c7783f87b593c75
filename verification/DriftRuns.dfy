/** What the next diff finds after a flag is accepted, and what bulk actions add up to. */
module DriftRuns {
  import opened Common
  import opened Fields
  import opened ManifestDiffer
  import opened ManifestSync
  import opened ManifestApply
  import opened DriftRoutes

  // ---------------------------------------------------------------------------
  // Accepting a field and diffing again
  // ---------------------------------------------------------------------------

  /** The service after an accepted field. */
  function RowAccepted(platform: Platform, s: Service, f: Field, value: Option<string>): Service {
    s.(columns := s.columns.Patched(map[f := CoerceFieldValue(f, value)]),
       lastSynced := Values(SnapshotBase(s).Patched(map[f := SnapshotValue(platform, f, value)])))
  }

  /** An accepted field change writes its own row and no other, and closes its own flag and no other. */
  lemma AcceptWrites(platform: Platform, st: State, teamId: string, id: string, f: Field)
    requires Accept(platform, st, teamId, id).Done? && st.flags[id].driftType == FieldChange
    requires st.flags[id].fieldName == Some(f) && RouteSyncable(f) && st.flags[id].serviceId in st.services
    ensures var flag, next := st.flags[id], Accept(platform, st, teamId, id).state;
            && next.services == st.services[flag.serviceId :=
                 RowAccepted(platform, st.services[flag.serviceId], f, flag.manifestValue)]
            && next.flags == st.flags[id := flag.(status := Accepted)]
            && ValidFieldValue(platform, f, flag.manifestValue)
  {
    hide ValidFieldValue, CoerceFieldValue, SnapshotValue, Record.Patched, RejectsNull;
    var flag := st.flags[id];
    var s, row := st.services[flag.serviceId],
      RowAccepted(platform, st.services[flag.serviceId], f, flag.manifestValue);
    var columns := s.(columns := row.columns);
    assert SnapshotBase(columns) == SnapshotBase(s);
    assert st.services[flag.serviceId := columns][flag.serviceId := row] == st.services[flag.serviceId := row];
  }

  /** A flag on the format is closed without a write. */
  lemma FormatFlagWritesNothing(platform: Platform, st: State, teamId: string, id: string)
    requires Refusal(st.flags, teamId, id).None? && st.flags[id].driftType == FieldChange
    requires st.flags[id].fieldName == Some(HealthEndpointFormat)
    ensures Accept(platform, st, teamId, id) ==
            Done(State(st.services, st.flags[id := st.flags[id].(status := Accepted)]), NoPolling)
  {
  }

  /** The manifest's text of a field, which a drift flag carries. */
  function ManifestText(e: ManifestEntry, f: Field): string {
    NormalizeToString(e.fields.Get(f))
  }

  /** The accepted value is stored as the text the manifest gives. */
  lemma AcceptedText(platform: Platform, e: ManifestEntry, f: Field)
    requires WellTyped(e) && e.fields.Get(f) != Undefined && ValidFieldValue(platform, f, Some(ManifestText(e, f)))
    ensures NormalizeToString(CoerceFieldValue(f, Some(ManifestText(e, f)))) == ManifestText(e, f)
  {
    hide Decimal, ParseInt;
    if f == PollIntervalMs {
      if e.fields.pollIntervalMs.Num? {
        ParseIntUndoesDecimal(e.fields.pollIntervalMs.number);
      } else {
        ParseNothing();
      }
    }
  }

  lemma ParseNothing()
    ensures ParseInt("") == None
  {
    assert DigitPrefix([]) == [];
  }

  /** What a diff after accepting finds for a field. */
  lemma ClassifyAfterAccept(
    platform: Platform, e: ManifestEntry, s: Service, policy: FieldDriftPolicy, f: Field, g: Field)
    requires WellTyped(e) && e.fields.Get(f) != Undefined && ValidFieldValue(platform, f, Some(ManifestText(e, f)))
    ensures var t := RowAccepted(platform, s, f, Some(ManifestText(e, f)));
            && (g == f ==> Classify(e, t, policy, g) == Skip)
            && (g != f ==>
                  (Classify(e, t, policy, g) == Classify(e, s, policy, g) <==>
                   s.lastSynced.Values? || !Differs(e, s, g) || NormalizeToString(s.columns.Get(g)) == ""
                   || policy == ManifestWins))
  {
    hide WellTyped, ValidFieldValue, CoerceFieldValue, SnapshotValue, NormalizeToString, Record.Get, Record.Patched;
    AcceptedText(platform, e, f);
    var value := Some(ManifestText(e, f));
    GetPatched(s.columns, map[f := CoerceFieldValue(f, value)], g);
    GetPatched(SnapshotBase(s), map[f := SnapshotValue(platform, f, value)], g);
    NothingSynced(g);
  }

  lemma NothingSynced(g: Field)
    ensures NO_FIELDS.Get(g) == Undefined && NormalizeToString(Undefined) == ""
  {
  }

  /** The diff does not mention the field of the service. */
  ghost predicate Unreported(d: Diff, id: string, f: Field) {
    !UpdatesField(d, id, f) && !DriftsField(d, id, f) && !KeepsField(d, id, f)
  }

  /** Both diffs mention the field in the same way. */
  ghost predicate SameReport(before: Diff, after: Diff, id: string, f: Field) {
    && (UpdatesField(after, id, f) <==> UpdatesField(before, id, f))
    && (DriftsField(after, id, f) <==> DriftsField(before, id, f))
    && (KeepsField(after, id, f) <==> KeepsField(before, id, f))
  }

  lemma RowsStayUniqueAfterAccept(services: seq<Service>, i: nat, t: Service)
    requires UniqueServices(services) && i < |services| && t.id == services[i].id
      && t.manifestKey == services[i].manifestKey
    ensures UniqueServices(services[i := t])
  {
  }

  /**
   * An accepted row diffed against the same manifest: the field is no longer reported, and another field of the row is
   * reported as before exactly when the row had a snapshot, or the field does not differ or is stored empty, or the
   * manifest wins.
   */
  lemma AcceptedRowDiff(
    platform: Platform, entries: seq<ManifestEntry>, services: seq<Service>, policy: SyncPolicy, e: ManifestEntry,
    i: nat,
    f: Field, g: Field)
    requires UniqueKeys(entries) && UniqueServices(services) && e in entries
    requires i < |services| && MatchesKey(e, services[i]) && WellTyped(e)
    requires e.fields.Get(f) != Undefined && ValidFieldValue(platform, f, Some(ManifestText(e, f)))
    ensures var s := services[i];
            var t := RowAccepted(platform, s, f, Some(ManifestText(e, f)));
            var before, after := DiffOf(entries, services, policy), DiffOf(entries, services[i := t], policy);
            && Unreported(after, s.id, f)
            && (g != f ==>
                  (SameReport(before, after, s.id, g) <==>
                   s.lastSynced.Values? || !Differs(e, s, g) || NormalizeToString(s.columns.Get(g)) == ""
                   || policy.onFieldDrift == ManifestWins))
  {
    hide DiffOf, UniqueKeys, UniqueServices, WellTyped, ValidFieldValue, Classify, Differs, NormalizeToString;
    hide UpdatesField, DriftsField, KeepsField, CoerceFieldValue, SnapshotValue, Record.Get, Record.Patched;
    var s, drift := services[i], policy.onFieldDrift;
    var t := RowAccepted(platform, s, f, Some(ManifestText(e, f)));
    RowsStayUniqueAfterAccept(services, i, t);
    assert services[i := t][i] == t && t in services[i := t];
    ClassifyAfterAccept(platform, e, s, drift, f, f);
    ClassifyAfterAccept(platform, e, s, drift, f, g);
    FieldLandsOnce(entries, services[i := t], policy, e, t, f);
    FieldLandsOnce(entries, services, policy, e, s, g);
    FieldLandsOnce(entries, services[i := t], policy, e, t, g);
  }

  /** The fields of every other row are reported as before. */
  lemma OtherRowsDiffAsBefore(
    entries: seq<ManifestEntry>, services: seq<Service>, policy: SyncPolicy, i: nat, t: Service, e: ManifestEntry,
    s: Service, f: Field)
    requires UniqueKeys(entries) && UniqueServices(services) && i < |services|
    requires t.id == services[i].id && t.manifestKey == services[i].manifestKey
    requires e in entries && s in services && s != services[i] && MatchesKey(e, s)
    ensures SameReport(DiffOf(entries, services, policy), DiffOf(entries, services[i := t], policy), s.id, f)
  {
    hide DiffOf, UniqueKeys, UniqueServices, Classify, UpdatesField, DriftsField, KeepsField;
    RowsStayUniqueAfterAccept(services, i, t);
    var k :| 0 <= k < |services| && services[k] == s;
    assert services[i := t][k] == s;
    FieldLandsOnce(entries, services, policy, e, s, f);
    FieldLandsOnce(entries, services[i := t], policy, e, s, f);
  }

  // ---------------------------------------------------------------------------
  // The accept route against the next diff
  // ---------------------------------------------------------------------------

  /** Rows read from the service table. */
  ghost predicate ReadFrom(rows: seq<Service>, services: map<string, Service>) {
    forall s :: s in rows ==> s.id in services && services[s.id] == s
  }

  function CurrentRow(services: map<string, Service>): Service -> Service {
    (s: Service) => if s.id in services then services[s.id] else s
  }

  /** The same rows read again. */
  function Reread(rows: seq<Service>, services: map<string, Service>): seq<Service> {
    MapSeq(CurrentRow(services), rows)
  }

  lemma RereadAfterWrite(rows: seq<Service>, services: map<string, Service>, i: nat, t: Service)
    requires ReadFrom(rows, services) && UniqueServices(rows) && i < |rows| && t.id == rows[i].id
    ensures Reread(rows, services) == rows
    ensures Reread(rows, services[t.id := t]) == rows[i := t]
  {
    forall k | 0 <= k < |rows| ensures Reread(rows, services)[k] == rows[k] {
      assert rows[k] in rows;
    }
    var again, replaced := Reread(rows, services[t.id := t]), rows[i := t];
    forall k | 0 <= k < |rows| ensures again[k] == replaced[k] {
      assert rows[k] in rows;
      assert k < i ==> rows[k].id != rows[i].id;
      assert i < k ==> rows[i].id != rows[k].id;
    }
  }

  /** The flag is a drift of `f` that the entry raised for the row. */
  ghost predicate RaisedFor(flag: DriftFlag, e: ManifestEntry, s: Service, f: Field) {
    && flag.driftType == FieldChange && flag.fieldName == Some(f) && flag.serviceId == s.id
    && flag.manifestValue == Some(ManifestText(e, f))
  }

  /** Rows read from the table, one of which the flag was raised for, and the manifest that raised it. */
  ghost predicate AcceptScene(
    st: State, id: string, entries: seq<ManifestEntry>, rows: seq<Service>, e: ManifestEntry, s: Service, f: Field)
  {
    && UniqueKeys(entries) && UniqueServices(rows) && ReadFrom(rows, st.services)
    && e in entries && s in rows && MatchesKey(e, s) && WellTyped(e) && Differs(e, s, f)
    && id in st.flags && RaisedFor(st.flags[id], e, s, f)
  }

  /** What the next diff sees after an accept: the accepted row, or, for the format, the same rows. */
  lemma RowsAfterAccept(
    platform: Platform, st: State, teamId: string, id: string, entries: seq<ManifestEntry>, rows: seq<Service>,
    e: ManifestEntry, s: Service, f: Field) returns (i: nat)
    requires Accept(platform, st, teamId, id).Done? && AcceptScene(st, id, entries, rows, e, s, f)
    ensures i < |rows| && rows[i] == s && (RouteSyncable(f) ==> ValidFieldValue(platform, f, Some(ManifestText(e, f))))
    ensures Reread(rows, Accept(platform, st, teamId, id).state.services) ==
            if RouteSyncable(f) then rows[i := RowAccepted(platform, s, f, Some(ManifestText(e, f)))] else rows
  {
    hide ValidFieldValue, CoerceFieldValue, SnapshotValue, SnapshotBase, Record.Patched, Record.Get, WellTyped, Differs;
    hide NormalizeToString, UniqueKeys, MatchesKey, Reread;
    i :| 0 <= i < |rows| && rows[i] == s;
    var t := RowAccepted(platform, s, f, Some(ManifestText(e, f)));
    RereadAfterWrite(rows, st.services, i, t);
    if RouteSyncable(f) {
      AcceptWrites(platform, st, teamId, id, f);
    } else {
      FormatFlagWritesNothing(platform, st, teamId, id);
    }
  }

  /**
   * Accepting the flag a manifest raised and diffing the same manifest again: the field is no longer reported exactly
   * when the route knows it, which it does unless it is the format.  Any other field of any service is reported as
   * before exactly when it is a field of another service, or the route wrote nothing, or its own service had a
   * snapshot, or it does not differ or is stored empty, or the manifest wins.
   */
  lemma AcceptSettlesField(
    platform: Platform, st: State, teamId: string, id: string, entries: seq<ManifestEntry>, rows: seq<Service>,
    policy: SyncPolicy, e: ManifestEntry, s: Service, f: Field, e': ManifestEntry, s': Service, g: Field)
    requires Accept(platform, st, teamId, id).Done? && AcceptScene(st, id, entries, rows, e, s, f)
    requires e' in entries && s' in rows && MatchesKey(e', s') && (s' == s ==> g != f)
    ensures var next := Accept(platform, st, teamId, id).state;
            var before, after := DiffOf(entries, rows, policy), DiffOf(entries, Reread(rows, next.services), policy);
            && (Unreported(after, s.id, f) <==> RouteSyncable(f))
            && (SameReport(before, after, s'.id, g) <==>
                s' != s || !RouteSyncable(f) || s.lastSynced.Values? || !Differs(e, s, g)
                || NormalizeToString(s.columns.Get(g)) == "" || policy.onFieldDrift == ManifestWins)
  {
    hide Accept, DiffOf, UniqueKeys, UniqueServices, WellTyped, ValidFieldValue, Classify, NormalizeToString;
    hide MatchesKey;
    hide UpdatesField, DriftsField, KeepsField, RowAccepted, Record.Get, ReadFrom, RaisedFor, Reread, Unedited;
    var i := RowsAfterAccept(platform, st, teamId, id, entries, rows, e, s, f);
    var t := RowAccepted(platform, s, f, Some(ManifestText(e, f)));
    if RouteSyncable(f) {
      SameIdentity(platform, s, f, Some(ManifestText(e, f)));
      AcceptedRowDiff(platform, entries, rows, policy, e, i, f, g);
      if s' == s {
        OneEntryForRow(entries, e, e', s);
      } else {
        OtherRowsDiffAsBefore(entries, rows, policy, i, t, e', s', g);
      }
    } else {
      FieldLandsOnce(entries, rows, policy, e, s, f);
      DifferingIsClassified(e, s, policy.onFieldDrift, f);
    }
  }

  lemma SameIdentity(platform: Platform, s: Service, f: Field, value: Option<string>)
    ensures RowAccepted(platform, s, f, value).id == s.id
      && RowAccepted(platform, s, f, value).manifestKey == s.manifestKey
  {
  }

  lemma OneEntryForRow(entries: seq<ManifestEntry>, e: ManifestEntry, e': ManifestEntry, s: Service)
    requires UniqueKeys(entries) && e in entries && e' in entries && MatchesKey(e, s) && MatchesKey(e', s)
    ensures e' == e
  {
  }

  lemma DifferingIsClassified(e: ManifestEntry, s: Service, drift: FieldDriftPolicy, f: Field)
    requires Differs(e, s, f)
    ensures Classify(e, s, drift, f) != Skip
  {
  }

  /**
   * An accepted value becomes the merge base: the field counts as unedited, so later manifest changes update it,
   * exactly when it is not a schema or its JSON text survives parsing and printing.
   */
  lemma AcceptedValueIsMergeBase(platform: Platform, s: Service, f: Field, value: Option<string>)
    ensures Unedited(RowAccepted(platform, s, f, value), f) <==>
      f != SchemaConfig || value.None? || NormalizeToString(platform.parseJson(value.value)) == value.value
  {
    hide Decimal, ParseInt, Record.Get, Record.Patched;
    GetPatched(s.columns, map[f := CoerceFieldValue(f, value)], f);
    GetPatched(SnapshotBase(s), map[f := SnapshotValue(platform, f, value)], f);
  }

  // ---------------------------------------------------------------------------
  // Bulk actions
  // ---------------------------------------------------------------------------

  /** Every id is counted once, and every failure is listed. */
  lemma {:induction false} AcceptEachCounts(platform: Platform, st: State, teamId: string, ids: seq<string>)
    ensures var r := AcceptEach(platform, st, teamId, ids).result;
            r.succeeded + r.failed == |ids| && |r.errors| == r.failed
  {
    hide Accept;
    if ids != [] {
      AcceptEachCounts(platform, st, teamId, ids[..|ids| - 1]);
    }
  }

  lemma {:induction false} DismissEachCounts(st: State, teamId: string, ids: seq<string>)
    ensures var r := DismissEach(st, teamId, ids).result;
            r.succeeded + r.failed == |ids| && |r.errors| == r.failed
  {
    hide Dismiss;
    if ids != [] {
      DismissEachCounts(st, teamId, ids[..|ids| - 1]);
    }
  }

  /** A second accept of the same flag is refused, so a repeated id fails and changes nothing. */
  lemma AcceptedOnce(platform: Platform, st: State, teamId: string, id: string)
    requires Accept(platform, st, teamId, id).Done?
    ensures Accept(platform, Accept(platform, st, teamId, id).state, teamId, id) == Refused(AlreadyClosed)
  {
    hide ValidFieldValue, AcceptField, SetInactive;
  }

  ghost predicate InactiveOrGone(services: map<string, Service>, id: string) {
    id in services ==> !services[id].isActive
  }

  /** No accept activates a service. */
  lemma AcceptActivatesNothing(platform: Platform, st: State, teamId: string, id: string, serviceId: string)
    ensures InactiveOrGone(st.services, serviceId) ==>
      InactiveOrGone(After(st, Accept(platform, st, teamId, id)).services, serviceId)
    ensures Accept(platform, st, teamId, id).Done? && Accept(platform, st, teamId, id).polling == Stop(serviceId) ==>
      InactiveOrGone(Accept(platform, st, teamId, id).state.services, serviceId)
  {
    hide ValidFieldValue, CoerceFieldValue, SnapshotValue, SnapshotBase, Record.Patched, RejectsNull, Resolve;
  }

  /** Every service a batch stops is left inactive. */
  lemma {:induction false} StoppedServicesInactive(
    platform: Platform, st: State, teamId: string, ids: seq<string>, serviceId: string)
    requires serviceId in AcceptEach(platform, st, teamId, ids).stops
    ensures InactiveOrGone(AcceptEach(platform, st, teamId, ids).state.services, serviceId)
  {
    hide Accept, InactiveOrGone;
    if ids != [] {
      var shorter := ids[..|ids| - 1];
      var b := AcceptEach(platform, st, teamId, shorter);
      AcceptActivatesNothing(platform, b.state, teamId, ids[|ids| - 1], serviceId);
      if serviceId in b.stops {
        StoppedServicesInactive(platform, st, teamId, shorter, serviceId);
      }
    }
  }
}

/** What the differ of server/src/services/manifest/ManifestDiffer.ts promises over whole manifests. */
module ManifestSync {
  import opened Common
  import opened Fields
  import opened ManifestDiffer

  // ---------------------------------------------------------------------------
  // Unique keys
  // ---------------------------------------------------------------------------

  ghost predicate UniqueKeys(entries: seq<ManifestEntry>) {
    forall i, j :: 0 <= i < j < |entries| ==> entries[i].key != entries[j].key
  }

  /** Ids are primary keys, and a manifest key belongs to one row. */
  ghost predicate UniqueServices(services: seq<Service>) {
    forall i, j :: 0 <= i < j < |services| ==>
      services[i].id != services[j].id
      && (Keyed(services[i]) && Keyed(services[j]) ==> services[i].manifestKey != services[j].manifestKey)
  }

  /** The index holds rows under their own keys, and every keyed row's key. */
  lemma {:induction false} IndexHolds(services: seq<Service>, k: string)
    ensures k in Index(services) <==> exists s :: s in services && Keyed(s) && s.manifestKey.value == k
    ensures k in Index(services) ==>
      var s := Index(services)[k]; s in services && Keyed(s) && s.manifestKey.value == k
  {
    if services != [] {
      var n := |services| - 1;
      IndexHolds(services[..n], k);
      assert services == services[..n] + [services[n]];
    }
  }

  /** Of rows with one key the last is the one that is found. */
  lemma {:induction false} LastOfKeyFound(services: seq<Service>, i: nat)
    requires i < |services| && Keyed(services[i])
    requires forall j :: i < j < |services| ==> services[j].manifestKey != services[i].manifestKey
    ensures Found(Index(services), services[i].manifestKey.value) == Some(services[i])
  {
    if i < |services| - 1 {
      LastOfKeyFound(services[..|services| - 1], i);
    }
  }

  lemma IndexFinds(services: seq<Service>, i: nat)
    requires UniqueServices(services) && i < |services| && Keyed(services[i])
    ensures Found(Index(services), services[i].manifestKey.value) == Some(services[i])
  {
    hide Index;
    IndexHolds(services, services[i].manifestKey.value);
  }

  // ---------------------------------------------------------------------------
  // Where things land
  // ---------------------------------------------------------------------------

  /** One item of a diff. */
  datatype Item =
    | Created(entry: ManifestEntry) | Updated(update: UpdateEntry) | Drifted(drift: DriftEntry)
    | Kept(drift: DriftEntry) | Same(id: string)

  predicate Holds(d: Diff, item: Item) {
    match item
    case Created(e) => e in d.toCreate
    case Updated(u) => u in d.toUpdate
    case Drifted(x) => x in d.toDrift
    case Kept(x) => x in d.toKeepLocal
    case Same(id) => id in d.unchangedIds
  }

  lemma JoinHolds(a: Diff, b: Diff, item: Item)
    ensures Holds(Join(a, b), item) <==> Holds(a, item) || Holds(b, item)
    ensures !Holds(NOTHING, item)
  {
  }

  lemma {:induction false} EntriesDiffHolds(
    index: map<string, Service>, entries: seq<ManifestEntry>, policy: SyncPolicy, item: Item)
    ensures Holds(EntriesDiff(index, entries, policy), item) <==>
      exists e :: e in entries && Holds(EntryDiff(Found(index, e.key), e, policy), item)
  {
    hide Holds, Join, EntryDiff, Found;
    JoinHolds(NOTHING, NOTHING, item);
    if entries != [] {
      var n := |entries| - 1;
      EntriesDiffHolds(index, entries[..n], policy, item);
      assert entries == entries[..n] + [entries[n]];
      JoinHolds(EntriesDiff(index, entries[..n], policy), EntryDiff(Found(index, entries[n].key), entries[n], policy),
        item);
    }
  }

  function IdOf(): Service -> string {
    (s: Service) => s.id
  }

  function RemovedBy(matched: set<string>): Service -> bool {
    (s: Service) => Removed(matched, s)
  }

  function RemovedIds(services: seq<Service>, matched: set<string>): seq<string> {
    MapSeq(IdOf(), Filter(RemovedBy(matched), services))
  }

  /** The removed services go to the one list the policy names. */
  function RemovalsUnder(policy: RemovalPolicy, ids: seq<string>): Diff {
    match policy
    case FlagRemoval => NOTHING.(removalDrift := ids)
    case Deactivate => NOTHING.(toDeactivate := ids)
    case Delete => NOTHING.(toDelete := ids)
  }

  lemma {:induction false} RemovalsDiffIs(services: seq<Service>, matched: set<string>, policy: SyncPolicy)
    ensures RemovalsDiff(services, matched, policy) == RemovalsUnder(policy.onRemoval, RemovedIds(services, matched))
  {
    hide MapSeq, Filter, Removed;
    if services == [] {
      FilterNone(RemovedBy(matched), services);
    } else {
      var n := |services| - 1;
      RemovalsDiffIs(services[..n], matched, policy);
      FilterOneMore(RemovedBy(matched), services, n);
      assert services[..n + 1] == services;
      MapOneMore(IdOf(), Filter(RemovedBy(matched), services[..n]), services[n]);
    }
  }

  lemma {:induction false} EntriesRemoveNothing(
    index: map<string, Service>, entries: seq<ManifestEntry>, policy: SyncPolicy)
    ensures var d := EntriesDiff(index, entries, policy);
            d.toDeactivate == [] && d.toDelete == [] && d.removalDrift == []
  {
    hide FieldsWith, DriftOf, MapSeq, Found;
    if entries != [] {
      EntriesRemoveNothing(index, entries[..|entries| - 1], policy);
    }
  }

  /** Everything but removals comes from the entries; removals come from the services. */
  lemma DiffParts(entries: seq<ManifestEntry>, services: seq<Service>, policy: SyncPolicy)
    ensures var d, e := DiffOf(entries, services, policy), EntriesDiff(Index(services), entries, policy);
            && d.toCreate == e.toCreate && d.toUpdate == e.toUpdate && d.toDrift == e.toDrift
            && d.toKeepLocal == e.toKeepLocal && d.unchangedIds == e.unchangedIds
            && forall item :: Holds(d, item) == Holds(e, item)
  {
    hide EntriesDiff, RemovalsDiff, Index, Keys, RemovedIds;
    RemovalsDiffIs(services, Keys(entries) * Index(services).Keys, policy);
  }

  /** A keyed service the manifest no longer names lands in exactly one removal list, the policy's. */
  lemma RemovedOnceByPolicy(entries: seq<ManifestEntry>, services: seq<Service>, policy: SyncPolicy)
    ensures var d, gone := DiffOf(entries, services, policy), RemovedIds(services, Keys(entries));
            && d.removalDrift == (if policy.onRemoval == FlagRemoval then gone else [])
            && d.toDeactivate == (if policy.onRemoval == Deactivate then gone else [])
            && d.toDelete == (if policy.onRemoval == Delete then gone else [])
  {
    hide EntriesDiff, RemovalsDiff, Index, Keys, MapSeq, Filter;
    var matched := Keys(entries) * Index(services).Keys;
    RemovalsDiffIs(services, matched, policy);
    EntriesRemoveNothing(Index(services), entries, policy);
    forall s | s in services ensures RemovedBy(matched)(s) == RemovedBy(Keys(entries))(s) {
      if Keyed(s) {
        IndexHolds(services, s.manifestKey.value);
      }
    }
    FilterCongruent(RemovedBy(matched), RemovedBy(Keys(entries)), services);
  }

  predicate MatchesKey(e: ManifestEntry, s: Service) {
    Keyed(s) && s.manifestKey.value == e.key
  }

  /** An entry is created exactly when no service has its key. */
  lemma CreatedExactlyWhenUnmatched(
    entries: seq<ManifestEntry>, services: seq<Service>, policy: SyncPolicy, e: ManifestEntry)
    ensures e in DiffOf(entries, services, policy).toCreate <==>
      e in entries && forall s :: s in services ==> !MatchesKey(e, s)
  {
    hide EntriesDiff, DiffOf, Index, FieldsWith, DriftOf;
    DiffParts(entries, services, policy);
    assert Holds(DiffOf(entries, services, policy), Created(e))
        == Holds(EntriesDiff(Index(services), entries, policy), Created(e));
    EntriesDiffHolds(Index(services), entries, policy, Created(e));
    IndexHolds(services, e.key);
  }

  ghost predicate UpdatesField(d: Diff, id: string, f: Field) {
    exists u :: u in d.toUpdate && u.serviceId == id && f in u.fieldsChanged
  }

  ghost predicate DriftsField(d: Diff, id: string, f: Field) {
    exists x :: x in d.toDrift && x.serviceId == id && x.field == f
  }

  ghost predicate KeepsField(d: Diff, id: string, f: Field) {
    exists x :: x in d.toKeepLocal && x.serviceId == id && x.field == f
  }

  lemma MappedMember<A, B>(f: A -> B, xs: seq<A>, y: B)
    ensures y in MapSeq(f, xs) <==> exists x :: x in xs && f(x) == y
  {
    if y in MapSeq(f, xs) {
      var i :| 0 <= i < |xs| && MapSeq(f, xs)[i] == y;
      assert xs[i] in xs;
    }
    forall x | x in xs && f(x) == y ensures y in MapSeq(f, xs) {
      var i :| 0 <= i < |xs| && xs[i] == x;
      assert MapSeq(f, xs)[i] == y;
    }
  }

  /** What one matched entry contributes, field by field. */
  lemma EntryDiffFields(e: ManifestEntry, s: Service, policy: SyncPolicy)
    ensures var d, drift := EntryDiff(Some(s), e, policy), policy.onFieldDrift;
            && d.toCreate == []
            && (forall u :: u in d.toUpdate <==>
                  u == UpdateEntry(e, s.id, FieldsWith(e, s, drift, Update)) && u.fieldsChanged != [])
            && (forall x :: x in d.toDrift <==> Classify(e, s, drift, x.field) == Drift && x == DriftOf(e, s)(x.field))
            && (forall x :: x in d.toKeepLocal <==>
                  Classify(e, s, drift, x.field) == KeepLocal && x == DriftOf(e, s)(x.field))
  {
    hide FieldsWith, Classify;
    var d, drift := EntryDiff(Some(s), e, policy), policy.onFieldDrift;
    forall x: DriftEntry
      ensures x in d.toDrift <==> Classify(e, s, drift, x.field) == Drift && x == DriftOf(e, s)(x.field)
      ensures x in d.toKeepLocal <==> Classify(e, s, drift, x.field) == KeepLocal && x == DriftOf(e, s)(x.field) {
      MappedMember(DriftOf(e, s), FieldsWith(e, s, drift, Drift), x);
      MappedMember(DriftOf(e, s), FieldsWith(e, s, drift, KeepLocal), x);
      FieldsWithMember(e, s, drift, Drift, x.field);
      FieldsWithMember(e, s, drift, KeepLocal, x.field);
    }
  }

  lemma OneMatch(
    entries: seq<ManifestEntry>, services: seq<Service>, e: ManifestEntry, s: Service, e': ManifestEntry, s': Service)
    requires UniqueKeys(entries) && UniqueServices(services)
    requires e in entries && e' in entries && s in services && MatchesKey(e, s)
    requires Found(Index(services), e'.key) == Some(s') && s'.id == s.id
    ensures s' == s && e' == e
  {
    hide Index;
    IndexHolds(services, e'.key);
  }

  lemma FoundMatch(services: seq<Service>, e: ManifestEntry, s: Service)
    requires UniqueServices(services) && s in services && MatchesKey(e, s)
    ensures Found(Index(services), e.key) == Some(s)
  {
    var i :| 0 <= i < |services| && services[i] == s;
    IndexFinds(services, i);
  }

  /** A matched service's field is updated, flagged or kept exactly as classified, never two of them. */
  lemma FieldLandsOnce(
    entries: seq<ManifestEntry>, services: seq<Service>, policy: SyncPolicy, e: ManifestEntry, s: Service, f: Field)
    requires UniqueKeys(entries) && UniqueServices(services) && e in entries && s in services && MatchesKey(e, s)
    ensures var d, outcome := DiffOf(entries, services, policy), Classify(e, s, policy.onFieldDrift, f);
            && (UpdatesField(d, s.id, f) <==> outcome == Update)
            && (DriftsField(d, s.id, f) <==> outcome == Drift)
            && (KeepsField(d, s.id, f) <==> outcome == KeepLocal)
  {
    hide DiffOf, EntriesDiff, Index, Found, FieldsWith, Classify, EntryDiff, UniqueKeys, UniqueServices, MatchesKey;
    var d, index, drift := DiffOf(entries, services, policy), Index(services), policy.onFieldDrift;
    DiffParts(entries, services, policy);
    FoundMatch(services, e, s);
    EntryDiffFields(e, s, policy);
    FieldsWithMember(e, s, drift, Update, f);
    LandsOnlyThere(entries, services, policy, e, s, f);
    if Classify(e, s, drift, f) == Update {
      var u := UpdateEntry(e, s.id, FieldsWith(e, s, drift, Update));
      EntriesDiffHolds(index, entries, policy, Updated(u));
      assert Holds(EntryDiff(Found(index, e.key), e, policy), Updated(u));
      assert Holds(d, Updated(u));
    }
    var x := DriftOf(e, s)(f);
    EntriesDiffHolds(index, entries, policy, Drifted(x));
    EntriesDiffHolds(index, entries, policy, Kept(x));
    if Classify(e, s, drift, f) == Drift {
      assert Holds(EntryDiff(Found(index, e.key), e, policy), Drifted(x));
      assert Holds(d, Drifted(x));
    }
    if Classify(e, s, drift, f) == KeepLocal {
      assert Holds(EntryDiff(Found(index, e.key), e, policy), Kept(x));
      assert Holds(d, Kept(x));
    }
  }

  /**
   * The whole diff is a three-way merge: a field of a matched service that differs is updated exactly when it is
   * unedited or the manifest wins, and an edited one is flagged or kept by the policy.
   */
  lemma DiffIsThreeWayMerge(
    entries: seq<ManifestEntry>, services: seq<Service>, policy: SyncPolicy, e: ManifestEntry, s: Service, f: Field)
    requires UniqueKeys(entries) && UniqueServices(services) && e in entries && s in services && MatchesKey(e, s)
    ensures var d := DiffOf(entries, services, policy);
            var edited := !IsFirstSync(s) && !Unedited(s, f);
            && (UpdatesField(d, s.id, f) <==> Differs(e, s, f) && (!edited || policy.onFieldDrift == ManifestWins))
            && (DriftsField(d, s.id, f) <==> Differs(e, s, f) && edited && policy.onFieldDrift == Flag)
            && (KeepsField(d, s.id, f) <==> Differs(e, s, f) && edited && policy.onFieldDrift == LocalWins)
  {
    hide DiffOf, Classify, UpdatesField, DriftsField, KeepsField, UniqueKeys, UniqueServices, MatchesKey, Differs;
    hide Unedited;
    FieldLandsOnce(entries, services, policy, e, s, f);
    ClassifyIsThreeWayMerge(e, s, policy.onFieldDrift, f);
  }

  /** Whatever names the service in a list came from its own entry. */
  lemma LandsOnlyThere(
    entries: seq<ManifestEntry>, services: seq<Service>, policy: SyncPolicy, e: ManifestEntry, s: Service, f: Field)
    requires UniqueKeys(entries) && UniqueServices(services) && e in entries && s in services && MatchesKey(e, s)
    ensures var d, drift := DiffOf(entries, services, policy), policy.onFieldDrift;
            && (forall u :: u in d.toUpdate && u.serviceId == s.id ==>
                  u == UpdateEntry(e, s.id, FieldsWith(e, s, drift, Update)))
            && (forall x :: x in d.toDrift && x.serviceId == s.id ==>
                  x == DriftOf(e, s)(x.field) && Classify(e, s, drift, x.field) == Drift)
            && (forall x :: x in d.toKeepLocal && x.serviceId == s.id ==>
                  x == DriftOf(e, s)(x.field) && Classify(e, s, drift, x.field) == KeepLocal)
  {
    hide DiffOf, EntriesDiff, Index, FieldsWith, Classify, UniqueKeys, UniqueServices, MatchesKey;
    var d, index, drift := DiffOf(entries, services, policy), Index(services), policy.onFieldDrift;
    DiffParts(entries, services, policy);
    forall u | u in d.toUpdate && u.serviceId == s.id
      ensures u == UpdateEntry(e, s.id, FieldsWith(e, s, drift, Update)) {
      var s' := Source(entries, services, policy, e, s, Updated(u), s.id);
    }
    forall x | x in d.toDrift && x.serviceId == s.id
      ensures x == DriftOf(e, s)(x.field) && Classify(e, s, drift, x.field) == Drift {
      var s' := Source(entries, services, policy, e, s, Drifted(x), s.id);
    }
    forall x | x in d.toKeepLocal && x.serviceId == s.id
      ensures x == DriftOf(e, s)(x.field) && Classify(e, s, drift, x.field) == KeepLocal {
      var s' := Source(entries, services, policy, e, s, Kept(x), s.id);
    }
  }

  /** The service an item names. */
  predicate Names(item: Item, id: string) {
    match item
    case Created(_) => false
    case Updated(u) => u.serviceId == id
    case Drifted(x) => x.serviceId == id
    case Kept(x) => x.serviceId == id
    case Same(i) => i == id
  }

  /** An entry's items name the service it found. */
  lemma EntryNames(found: Option<Service>, e: ManifestEntry, policy: SyncPolicy, item: Item, id: string)
    requires Holds(EntryDiff(found, e, policy), item) && Names(item, id)
    ensures found.Some? && found.value.id == id
  {
    hide FieldsWith, Classify;
    if found.Some? {
      EntryDiffFields(e, found.value, policy);
    }
  }

  /** An item that names a matched service is in what its entry contributes. */
  lemma Source(
    entries: seq<ManifestEntry>, services: seq<Service>, policy: SyncPolicy, e: ManifestEntry, s: Service, item: Item,
    id: string)
    returns (d: Diff)
    requires UniqueKeys(entries) && UniqueServices(services) && e in entries && s in services && MatchesKey(e, s)
    requires Holds(DiffOf(entries, services, policy), item) && Names(item, id) && id == s.id
    ensures d == EntryDiff(Some(s), e, policy) && Holds(d, item)
    ensures var u := FieldsWith(e, s, policy.onFieldDrift, Update);
            item.Updated? ==> item.update == UpdateEntry(e, s.id, u)
    ensures item.Drifted? ==>
      Classify(e, s, policy.onFieldDrift, item.drift.field) == Drift && item.drift == DriftOf(e, s)(item.drift.field)
    ensures item.Kept? ==>
      Classify(e, s, policy.onFieldDrift, item.drift.field) == KeepLocal
        && item.drift == DriftOf(e, s)(item.drift.field)
  {
    hide DiffOf, EntriesDiff, Index, FieldsWith, Classify, UniqueKeys, UniqueServices, MatchesKey, EntryDiff, Names;
    hide Found;
    DiffParts(entries, services, policy);
    EntriesDiffHolds(Index(services), entries, policy, item);
    var e' :| e' in entries && Holds(EntryDiff(Found(Index(services), e'.key), e', policy), item);
    EntryNames(Found(Index(services), e'.key), e', policy, item, id);
    OneMatch(entries, services, e, s, e', Found(Index(services), e'.key).value);
    d := EntryDiff(Some(s), e, policy);
    EntryDiffFields(e, s, policy);
  }

  /** A matched service is unchanged exactly when every field is skipped. */
  lemma UnchangedExactlyWhenAllSkipped(
    entries: seq<ManifestEntry>, services: seq<Service>, policy: SyncPolicy, e: ManifestEntry, s: Service)
    requires UniqueKeys(entries) && UniqueServices(services) && e in entries && s in services && MatchesKey(e, s)
    ensures s.id in DiffOf(entries, services, policy).unchangedIds <==>
      forall f: Field :: !Differs(e, s, f)
  {
    hide DiffOf, EntriesDiff, Index, FieldsWith, Differs, UniqueKeys, UniqueServices, MatchesKey, EntryDiff, Unedited;
    hide Found;
    var drift := policy.onFieldDrift;
    DiffParts(entries, services, policy);
    FoundMatch(services, e, s);
    EntriesDiffHolds(Index(services), entries, policy, Same(s.id));
    assert Holds(DiffOf(entries, services, policy), Same(s.id)) ==
           Holds(EntriesDiff(Index(services), entries, policy), Same(s.id));
    UnchangedEntry(e, s, policy);
    if Holds(DiffOf(entries, services, policy), Same(s.id)) {
      var d := Source(entries, services, policy, e, s, Same(s.id), s.id);
    }
  }

  lemma UnchangedEntry(e: ManifestEntry, s: Service, policy: SyncPolicy)
    ensures Holds(EntryDiff(Some(s), e, policy), Same(s.id)) <==> forall f: Field :: !Differs(e, s, f)
  {
    hide FieldsWith, Differs, Unedited;
    var drift := policy.onFieldDrift;
    forall f: Field
      ensures Differs(e, s, f) <==>
        f in FieldsWith(e, s, drift, Update) || f in FieldsWith(e, s, drift, Drift)
          || f in FieldsWith(e, s, drift, KeepLocal) {
      FieldsWithMember(e, s, drift, Update, f);
      FieldsWithMember(e, s, drift, Drift, f);
      FieldsWithMember(e, s, drift, KeepLocal, f);
    }
    if !Holds(EntryDiff(Some(s), e, policy), Same(s.id)) {
      var u, d, k := FieldsWith(e, s, drift, Update), FieldsWith(e, s, drift, Drift),
        FieldsWith(e, s, drift, KeepLocal);
      assert u != [] || d != [] || k != [];
      var f := if u != [] then u[0] else if d != [] then d[0] else k[0];
      assert f in u || f in d || f in k;
      assert Differs(e, s, f);
    }
  }
}

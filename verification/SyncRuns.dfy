/**
 * Runs of manifest syncs (server/src/services/manifest/ManifestSyncService.ts, `applyChanges`), drift actions and edits
 * of services: what every one of them keeps of the service and flag tables.
 */
module SyncRuns {
  import opened Common
  import opened Fields
  import opened ManifestDiffer
  import opened ManifestSync
  import opened ManifestApply
  import opened DriftRoutes
  import opened DriftRuns

  // ---------------------------------------------------------------------------
  // Operations on the tables
  // ---------------------------------------------------------------------------

  /** What the update route of server/src/routes/services/update.ts sets; absent parts stay. */
  datatype Edit = Edit(input: map<Field, FieldValue>, teamId: Option<string>, isActive: Option<bool>)

  datatype TableOp =
    | CreateRow(teamId: string, entry: ManifestEntry, id: string)
    | UpdateRow(update: UpdateEntry)
    | RaiseField(drift: DriftEntry, flagId: string)
    | DeactivateRow(id: string)
    | DeleteRow(id: string)
    | RaiseRemoval(id: string, flagId: string)
    | ResolveRemovals(id: string)
    | AddRow(id: string, teamId: string, columns: Record)
    | EditRow(id: string, edit: Edit)

  /** The columns of a service created from an entry. */
  function CreatedColumns(e: ManifestEntry): Record {
    var r := e.fields;
    var isOtlp := r.healthEndpointFormat == Str("otlp");
    Record(
      r.name, if isOtlp then Str("") else r.healthEndpoint, OrNull(r.description), OrNull(r.metricsEndpoint),
      if isOtlp then Num(0) else if Absent(r.pollIntervalMs) then Num(30000) else r.pollIntervalMs,
      if IsTruthy(r.schemaConfig) then Str(JsonText(r.schemaConfig)) else Null,
      if Absent(r.healthEndpointFormat) then Str("default") else r.healthEndpointFormat)
  }

  predicate MissesRequired(columns: Record) {
    exists f :: Required(f) && Absent(columns.Get(f))
  }

  /** A row of the team has the manifest key; the table's unique index forbids a second one. */
  predicate KeyTaken(services: map<string, Service>, teamId: string, key: string) {
    exists id :: id in services && services[id].teamId == teamId && services[id].manifestKey == Some(key)
  }

  /** Another row of the team has the row's manifest key. */
  predicate KeyTakenByOther(services: map<string, Service>, teamId: string, id: string)
    requires id in services
  {
    exists other :: other in services && other != id && services[other].teamId == teamId
                    && services[id].manifestKey.Some? && services[other].manifestKey == services[id].manifestKey
  }

  /** An edited row, perhaps in another team; `None` when a required column or the unique index rejects it. */
  function EditService(services: map<string, Service>, id: string, edit: Edit): Option<map<string, Service>> {
    match UpdateService(services, id, edit.input)
    case None => None
    case Some(updated) =>
      if id !in updated then Some(updated)
      else
        var s := updated[id];
        var teamId := if edit.teamId.Some? then edit.teamId.value else s.teamId;
        if KeyTakenByOther(updated, teamId, id) then None
        else Some(updated[
          id := s.(teamId := teamId, isActive := if edit.isActive.Some? then edit.isActive.value else s.isActive)])
  }

  /** `resolveAllForService`. */
  function ResolveAll(flags: map<string, DriftFlag>, serviceId: string): map<string, DriftFlag> {
    map id | id in flags ::
      if flags[id].serviceId == serviceId && IsOpen(flags[id].status) then flags[id].(status := Resolved) else flags[id]
  }

  predicate IsOpenRemoval(flags: map<string, DriftFlag>, id: string, serviceId: string) {
    id in flags && flags[id].serviceId == serviceId && flags[id].driftType == ServiceRemoval && IsOpen(flags[id].status)
  }

  /** A service back in the manifest resolves its removal flags. */
  function ResolveOpenRemovals(flags: map<string, DriftFlag>, serviceId: string): map<string, DriftFlag> {
    map id | id in flags ::
      if IsOpenRemoval(flags, id, serviceId) then flags[id].(status := Resolved) else flags[id]
  }

  /** Deleting a row deletes its flags with it. */
  function WithoutService(st: State, id: string): State {
    if id !in st.services then st
    else State(st.services - {id}, map f | f in st.flags && st.flags[f].serviceId != id :: st.flags[f])
  }

  /** One operation; `None` when the store throws. */
  ghost function Perform(st: State, op: TableOp): Option<State> {
    match op
    case CreateRow(teamId, e, id) =>
      if id in st.services || KeyTaken(st.services, teamId, e.key) || MissesRequired(CreatedColumns(e)) then None
      else
        Some(st.(services := st.services[
          id := Service(id, teamId, Some(e.key), true, CreatedColumns(e), Values(e.fields))]))
    case UpdateRow(u) =>
      if u.serviceId !in st.services then Some(st)
      else if RejectsNull(InputOf(u)) then None
      else Some(st.(services := st.services[u.serviceId := Applied(st.services[u.serviceId], u)]))
    case RaiseField(x, flagId) =>
      if (x.serviceId !in st.services || flagId in st.flags)
        && !exists f :: IsActiveFor(st.flags, f, x.serviceId, x.field)
      then None
      else Some(Detect(st, x.serviceId, x.field, x.manifestValue, x.currentValue, flagId))
    case DeactivateRow(id) => Some(State(SetInactive(st.services, id), ResolveAll(st.flags, id)))
    case DeleteRow(id) => Some(WithoutService(st.(flags := ResolveAll(st.flags, id)), id))
    case RaiseRemoval(id, flagId) =>
      if exists f :: IsOpenRemoval(st.flags, f, id) then Some(st)
      else if id !in st.services || flagId in st.flags then None
      else
        Some(st.(flags := st.flags[
          flagId := DriftFlag(st.services[id].teamId, id, ServiceRemoval, None, None, None, Pending)]))
    case ResolveRemovals(id) => Some(st.(flags := ResolveOpenRemovals(st.flags, id)))
    case AddRow(id, teamId, columns) =>
      if id in st.services then None
      else Some(st.(services := st.services[id := Service(id, teamId, None, true, columns, NoSnapshot)]))
    case EditRow(id, edit) =>
      match EditService(st.services, id, edit)
      case None => None
      case Some(services) => Some(st.(services := services))
  }

  /** Operations of one transaction: all of them, or none when one throws. */
  ghost function PerformAll(st: State, ops: seq<TableOp>): Option<State> {
    if ops == [] then Some(st)
    else
      match PerformAll(st, ops[..|ops| - 1])
      case None => None
      case Some(next) => Perform(next, ops[|ops| - 1])
  }

  ghost function Transact(st: State, ops: seq<TableOp>): State {
    match PerformAll(st, ops)
    case None => st
    case Some(next) => next
  }

  // ---------------------------------------------------------------------------
  // A sync
  // ---------------------------------------------------------------------------

  /**
   * A sync of one manifest: `managed` are the ids of the rows the manifest owns, `isPublic` tells the URLs that may be
   * polled, and the two functions are the random ids of new rows.
   */
  datatype Sync = Sync(
    teamId: string, entries: seq<ManifestEntry>, managed: seq<string>, isPublic: string -> bool, policy: SyncPolicy,
    newService: string -> string, newFlag: (string, Option<Field>) -> string)

  function InTeam(services: map<string, Service>, teamId: string): string -> bool {
    (id: string) => id in services && services[id].teamId == teamId
  }

  function RowOf(services: map<string, Service>): string -> Service {
    (id: string) => if id in services then services[id] else Service(id, "", None, false, NO_FIELDS, NoSnapshot)
  }

  function ManagedRows(services: map<string, Service>, sync: Sync): seq<Service> {
    MapSeq(RowOf(services), Filter(InTeam(services, sync.teamId), sync.managed))
  }

  /** The endpoint is a text that can be a URL: an absent, null or empty one is not, so its check throws. */
  predicate HasEndpoint(e: ManifestEntry) {
    e.fields.healthEndpoint.Str? && e.fields.healthEndpoint.text != ""
  }

  function IsSafe(sync: Sync): ManifestEntry -> bool {
    (e: ManifestEntry) => HasEndpoint(e) && sync.isPublic(e.fields.healthEndpoint.text)
  }

  function Creation(sync: Sync): ManifestEntry -> TableOp {
    (e: ManifestEntry) => CreateRow(sync.teamId, e, sync.newService(e.key))
  }

  function Raising(sync: Sync): DriftEntry -> TableOp {
    (x: DriftEntry) => RaiseField(x, sync.newFlag(x.serviceId, Some(x.field)))
  }

  function RaisingRemoval(sync: Sync): string -> TableOp {
    (id: string) => RaiseRemoval(id, sync.newFlag(id, None))
  }

  function TargetOf(): UpdateEntry -> string {
    (u: UpdateEntry) => u.serviceId
  }

  /** Creations, updates and flags on fields. */
  function EntryOps(sync: Sync, d: Diff): seq<TableOp> {
    MapSeq(Creation(sync), Filter(IsSafe(sync), d.toCreate)) + MapSeq(u => UpdateRow(u), d.toUpdate)
    + MapSeq(Raising(sync), d.toDrift)
  }

  /** Removals by policy. */
  function RemovalOps(sync: Sync, d: Diff): seq<TableOp> {
    MapSeq(id => DeactivateRow(id), d.toDeactivate) + MapSeq(id => DeleteRow(id), d.toDelete)
    + MapSeq(RaisingRemoval(sync), d.removalDrift)
  }

  /** Services found in the manifest again. */
  function ResolveOps(d: Diff): seq<TableOp> {
    MapSeq(id => ResolveRemovals(id), MapSeq(TargetOf(), d.toUpdate) + d.unchangedIds)
  }

  /** What `applyChanges` does for a diff, in its order. */
  function SyncOps(sync: Sync, d: Diff): seq<TableOp> {
    EntryOps(sync, d) + RemovalOps(sync, d) + ResolveOps(d)
  }

  ghost function SyncManifest(st: State, sync: Sync): State {
    Transact(st, SyncOps(sync, DiffOf(sync.entries, ManagedRows(st.services, sync), sync.policy)))
  }

  // ---------------------------------------------------------------------------
  // Runs
  // ---------------------------------------------------------------------------

  /** The daily cleanup: accepted and resolved flags that are old enough go. */
  function Retained(flags: map<string, DriftFlag>, expired: set<string>): map<string, DriftFlag> {
    map id | id in flags && !(id in expired && !IsOpen(flags[id].status)) :: flags[id]
  }

  datatype Action =
    | AcceptOne(teamId: string, id: string) | DismissOne(teamId: string, id: string)
    | ReopenOne(teamId: string, id: string)
    | AcceptMany(teamId: string, ids: seq<string>) | DismissMany(teamId: string, ids: seq<string>)
    | SyncOnce(sync: Sync)
    | AddService(id: string, teamId: string, columns: Record)
    | EditOne(id: string, edit: Edit)
    | DeleteService(id: string)
    | Retain(expired: set<string>)

  ghost function Step(platform: Platform, st: State, a: Action): State {
    match a
    case AcceptOne(t, id) => After(st, Accept(platform, st, t, id))
    case DismissOne(t, id) => After(st, Dismiss(st, t, id))
    case ReopenOne(t, id) => After(st, Reopen(st, t, id))
    case AcceptMany(t, ids) => if ValidFlagIds(ids) then AcceptEach(platform, st, t, ids).state else st
    case DismissMany(t, ids) => if ValidFlagIds(ids) then DismissEach(st, t, ids).state else st
    case SyncOnce(sync) => SyncManifest(st, sync)
    case AddService(id, t, columns) => Transact(st, [AddRow(id, t, columns)])
    case EditOne(id, edit) => Transact(st, [EditRow(id, edit)])
    case DeleteService(id) => WithoutService(st, id)
    case Retain(expired) => st.(flags := Retained(st.flags, expired))
  }

  ghost function Run(platform: Platform, st: State, actions: seq<Action>): State {
    if actions == [] then st
    else Step(platform, Run(platform, st, actions[..|actions| - 1]), actions[|actions| - 1])
  }

  // ---------------------------------------------------------------------------
  // What every step keeps of the services
  // ---------------------------------------------------------------------------

  predicate SameKey(a: Service, b: Service) {
    Keyed(a) && a.manifestKey == b.manifestKey && a.teamId == b.teamId
  }

  /** Rows know their ids, keyed rows have a snapshot, and a key belongs to one row of its team. */
  ghost predicate TidyServices(services: map<string, Service>) {
    && (forall id :: id in services ==>
          services[id].id == id && (Keyed(services[id]) ==> services[id].lastSynced.Values?))
    && (forall a, b :: a in services && b in services && SameKey(services[a], services[b]) ==> a == b)
  }

  /** Rows keep their identity, and a snapshot once written is not lost. */
  ghost predicate Evolves(before: map<string, Service>, after: map<string, Service>) {
    && after.Keys <= before.Keys
    && forall id :: id in after ==>
         && after[id].id == before[id].id && after[id].teamId == before[id].teamId
         && after[id].manifestKey == before[id].manifestKey
         && (after[id].lastSynced == before[id].lastSynced || after[id].lastSynced.Values?)
  }

  lemma EvolvesTidy(before: map<string, Service>, after: map<string, Service>)
    requires TidyServices(before) && Evolves(before, after)
    ensures TidyServices(after)
  {
  }

  lemma EvolvesThrough(a: map<string, Service>, b: map<string, Service>, c: map<string, Service>)
    requires Evolves(a, b) && Evolves(b, c)
    ensures Evolves(a, c)
  {
  }

  lemma AcceptEvolves(platform: Platform, st: State, teamId: string, id: string)
    ensures Evolves(st.services, After(st, Accept(platform, st, teamId, id)).services)
  {
    hide ValidFieldValue, CoerceFieldValue, SnapshotValue, SnapshotBase, Record.Patched, RejectsNull, Resolve;
  }

  lemma {:induction false} EachEvolves(platform: Platform, st: State, teamId: string, ids: seq<string>)
    ensures Evolves(st.services, AcceptEach(platform, st, teamId, ids).state.services)
    ensures DismissEach(st, teamId, ids).state.services == st.services
  {
    hide Accept, Refusal, Resolve, Evolves;
    if ids == [] {
      EvolvesSelf(st.services);
    } else {
      var shorter, id := ids[..|ids| - 1], ids[|ids| - 1];
      EachEvolves(platform, st, teamId, shorter);
      var b := AcceptEach(platform, st, teamId, shorter);
      AcceptEvolves(platform, b.state, teamId, id);
      EvolvesThrough(st.services, b.state.services, After(b.state, Accept(platform, b.state, teamId, id)).services);
    }
  }

  lemma EvolvesSelf(services: map<string, Service>)
    ensures Evolves(services, services)
  {
  }

  /** Every operation keeps the services tidy: a row gets its key and its snapshot together. */
  lemma OpKeepsTidy(st: State, op: TableOp)
    requires TidyServices(st.services) && Perform(st, op).Some?
    ensures TidyServices(Perform(st, op).value.services)
  {
    hide Detect, ResolveAll, CreatedColumns, MissesRequired, RejectsNull, InputOf, Record.Patched, ResolveOpenRemovals;
    hide EditService;
    if op.CreateRow? {
      NewRowTidy(st.services, op.id, Perform(st, op).value.services[op.id]);
    } else if op.AddRow? {
      NewRowTidy(st.services, op.id, Perform(st, op).value.services[op.id]);
    } else if op.EditRow? {
      EditKeepsTidy(st.services, op.id, op.edit);
    } else {
      DetectKeepsServices(st, op);
      EvolvesTidy(st.services, Perform(st, op).value.services);
    }
  }

  /** An edited row stays under its key, and a move to another team does not meet the key there. */
  lemma EditKeepsTidy(services: map<string, Service>, id: string, edit: Edit)
    requires TidyServices(services) && EditService(services, id, edit).Some?
    ensures TidyServices(EditService(services, id, edit).value)
  {
    hide RejectsNull, Record.Patched, TidyServices, KeyTakenByOther;
    var updated := UpdateService(services, id, edit.input).value;
    assert Evolves(services, updated);
    EvolvesTidy(services, updated);
    if id in updated {
      MovedTidy(updated, id, EditService(services, id, edit).value[id]);
    }
  }

  lemma MovedTidy(services: map<string, Service>, id: string, row: Service)
    requires TidyServices(services) && id in services && !KeyTakenByOther(services, row.teamId, id)
    requires row == services[id].(teamId := row.teamId, isActive := row.isActive)
    ensures TidyServices(services[id := row])
  {
  }

  lemma DetectKeepsServices(st: State, op: TableOp)
    ensures op.RaiseField? && Perform(st, op).Some? ==> Perform(st, op).value.services == st.services
  {
  }

  lemma NewRowTidy(services: map<string, Service>, id: string, row: Service)
    requires TidyServices(services) && id !in services && row.id == id
    requires Keyed(row) ==> row.lastSynced.Values? && !KeyTaken(services, row.teamId, row.manifestKey.value)
    ensures TidyServices(services[id := row])
  {
  }

  lemma {:induction false} OpsKeepTidy(st: State, ops: seq<TableOp>)
    requires TidyServices(st.services)
    ensures TidyServices(Transact(st, ops).services)
  {
    hide Perform, TidyServices;
    if ops != [] && PerformAll(st, ops).Some? {
      var shorter := ops[..|ops| - 1];
      OpsKeepTidy(st, shorter);
      OpKeepsTidy(PerformAll(st, shorter).value, ops[|ops| - 1]);
    }
  }

  lemma StepKeepsTidy(platform: Platform, st: State, a: Action)
    requires TidyServices(st.services)
    ensures TidyServices(Step(platform, st, a).services)
  {
    hide Accept, AcceptEach, DismissEach, TidyServices, Transact, SyncOps, DiffOf, Resolve;
    match a
    case AcceptOne(t, id) =>
      AcceptEvolves(platform, st, t, id);
      EvolvesTidy(st.services, Step(platform, st, a).services);
    case AcceptMany(t, ids) =>
      EachEvolves(platform, st, t, ids);
      EvolvesSelf(st.services);
      EvolvesTidy(st.services, Step(platform, st, a).services);
    case DismissMany(t, ids) =>
      EachEvolves(platform, st, t, ids);
    case SyncOnce(sync) =>
      OpsKeepTidy(st, SyncOps(sync, DiffOf(sync.entries, ManagedRows(st.services, sync), sync.policy)));
    case AddService(id, t, columns) =>
      OpsKeepTidy(st, [AddRow(id, t, columns)]);
    case EditOne(id, edit) =>
      OpsKeepTidy(st, [EditRow(id, edit)]);
    case DeleteService(id) =>
      EvolvesTidy(st.services, Step(platform, st, a).services);
    case _ =>
  }

  /** Over every run of syncs, drift actions and edits, managed rows keep a snapshot and their keys. */
  lemma {:induction false} ManagedRowsStaySynced(platform: Platform, st: State, actions: seq<Action>)
    requires TidyServices(st.services)
    ensures TidyServices(Run(platform, st, actions).services)
  {
    hide Step, TidyServices;
    if actions != [] {
      ManagedRowsStaySynced(platform, st, actions[..|actions| - 1]);
      StepKeepsTidy(platform, Run(platform, st, actions[..|actions| - 1]), actions[|actions| - 1]);
    }
  }

  /** No manifest has been synced yet. */
  ghost predicate Unmanaged(st: State) {
    st.flags == map[] && forall id :: id in st.services ==> st.services[id].id == id && !Keyed(st.services[id])
  }

  /**
   * In every state that syncs, drift actions and edits can reach: accepting a flag and diffing the manifest that raised
   * it no longer reports the field exactly when the route knows it, and every other field of every service as before.
   */
  lemma AcceptSettlesReachableField(
    platform: Platform, start: State, actions: seq<Action>, teamId: string, id: string, entries: seq<ManifestEntry>,
    rows: seq<Service>, policy: SyncPolicy, e: ManifestEntry, s: Service, f: Field, e': ManifestEntry, s': Service,
    g: Field)
    requires Unmanaged(start)
    requires var st := Run(platform, start, actions);
             Accept(platform, st, teamId, id).Done? && AcceptScene(st, id, entries, rows, e, s, f)
    requires e' in entries && s' in rows && MatchesKey(e', s') && (s' == s ==> g != f)
    ensures var next := Accept(platform, Run(platform, start, actions), teamId, id).state;
            var before, after := DiffOf(entries, rows, policy), DiffOf(entries, Reread(rows, next.services), policy);
            (Unreported(after, s.id, f) <==> RouteSyncable(f)) && SameReport(before, after, s'.id, g)
  {
    var st := Run(platform, start, actions);
    ManagedRowsStaySynced(platform, start, actions);
    assert s.lastSynced.Values?;
    hide *;
    AcceptSettlesField(platform, st, teamId, id, entries, rows, policy, e, s, f, e', s', g);
  }

  /** The rows of one team that a sync diffs have unique ids and keys. */
  lemma TeamRowsUnique(services: map<string, Service>, rows: seq<Service>, teamId: string)
    requires TidyServices(services) && ReadFrom(rows, services) && Distinct(rows)
    requires forall s :: s in rows ==> s.teamId == teamId
    ensures UniqueServices(rows)
  {
    forall i, j | 0 <= i < j < |rows|
      ensures rows[i].id != rows[j].id
      ensures Keyed(rows[i]) && Keyed(rows[j]) ==> rows[i].manifestKey != rows[j].manifestKey {
      assert rows[i] in rows && rows[j] in rows;
    }
  }

  // ---------------------------------------------------------------------------
  // What every step keeps of the flags
  // ---------------------------------------------------------------------------

  /** Statuses may change and flags may go, but nothing closed changes and nothing opens that was not open. */
  ghost predicate Narrows(before: map<string, DriftFlag>, after: map<string, DriftFlag>) {
    && after.Keys <= before.Keys
    && forall id :: id in after ==>
         && after[id] == before[id].(status := after[id].status)
         && (IsOpen(before[id].status) || after[id] == before[id])
  }

  lemma NarrowsThrough(a: map<string, DriftFlag>, b: map<string, DriftFlag>, c: map<string, DriftFlag>)
    requires Narrows(a, b) && Narrows(b, c)
    ensures Narrows(a, c)
  {
  }

  lemma NarrowsOneActive(before: map<string, DriftFlag>, after: map<string, DriftFlag>)
    requires Narrows(before, after) && OneActive(before)
    ensures OneActive(after)
  {
    forall a, b, s, f | IsActiveFor(after, a, s, f) && IsActiveFor(after, b, s, f) ensures a == b {
      assert IsActiveFor(before, a, s, f) && IsActiveFor(before, b, s, f);
    }
  }

  lemma ResolveNarrows(flags: map<string, DriftFlag>, id: string, status: FlagStatus)
    ensures Narrows(flags, Resolve(flags, id, status)) && Narrows(flags, flags)
    ensures Resolve(flags, id, status).Keys == flags.Keys
  {
  }

  lemma ReopenNarrows(st: State, teamId: string, id: string)
    ensures var after := After(st, Reopen(st, teamId, id)).flags;
            Narrows(st.flags, after) && after.Keys == st.flags.Keys
  {
  }

  lemma RouteNarrows(platform: Platform, st: State, teamId: string, id: string)
    ensures var after := After(st, Accept(platform, st, teamId, id)).flags;
            Narrows(st.flags, after) && after.Keys == st.flags.Keys
    ensures var after := After(st, Dismiss(st, teamId, id)).flags;
            Narrows(st.flags, after) && after.Keys == st.flags.Keys
  {
    ResolveNarrows(st.flags, id, Accepted);
    ResolveNarrows(st.flags, id, Dismissed);
    hide ValidFieldValue, AcceptField, SetInactive, Narrows, Resolve;
  }

  lemma {:induction false} AcceptEachNarrows(platform: Platform, st: State, teamId: string, ids: seq<string>)
    ensures var after := AcceptEach(platform, st, teamId, ids).state.flags;
            Narrows(st.flags, after) && after.Keys == st.flags.Keys
  {
    hide Accept, Narrows;
    if ids == [] {
      ResolveNarrows(st.flags, "", Accepted);
    } else {
      var shorter, id := ids[..|ids| - 1], ids[|ids| - 1];
      AcceptEachNarrows(platform, st, teamId, shorter);
      var b := AcceptEach(platform, st, teamId, shorter).state;
      RouteNarrows(platform, b, teamId, id);
      NarrowsThrough(st.flags, b.flags, After(b, Accept(platform, b, teamId, id)).flags);
    }
  }

  lemma {:induction false} DismissEachNarrows(platform: Platform, st: State, teamId: string, ids: seq<string>)
    ensures var after := DismissEach(st, teamId, ids).state.flags;
            Narrows(st.flags, after) && after.Keys == st.flags.Keys
  {
    hide Dismiss, Narrows;
    if ids == [] {
      ResolveNarrows(st.flags, "", Dismissed);
    } else {
      var shorter, id := ids[..|ids| - 1], ids[|ids| - 1];
      DismissEachNarrows(platform, st, teamId, shorter);
      var b := DismissEach(st, teamId, shorter).state;
      RouteNarrows(platform, b, teamId, id);
      NarrowsThrough(st.flags, b.flags, After(b, Dismiss(b, teamId, id)).flags);
    }
  }

  /**
   * What became of a flag that was closed as `flag`, and of the tables: it is as it was, or, when `gone`, it was
   * cleaned up, or its service is gone with it; and a field of a service has at most one open flag.
   */
  ghost predicate Kept(st: State, id: string, flag: DriftFlag, gone: bool) {
    && OneActive(st.flags)
    && !IsOpen(flag.status)
    && (if id in st.flags then st.flags[id] == flag else gone || flag.serviceId !in st.services)
  }

  /** Steps that neither lose flags nor gain services. */
  lemma NarrowingKeeps(st: State, next: State, id: string, flag: DriftFlag, gone: bool)
    requires Kept(st, id, flag, gone) && Narrows(st.flags, next.flags) && next.flags.Keys == st.flags.Keys
    requires next.services.Keys <= st.services.Keys
    ensures Kept(next, id, flag, gone)
  {
    NarrowsOneActive(st.flags, next.flags);
  }

  /** Raising a drift touches one open flag or adds the only one for its field. */
  lemma DetectKeeps(st: State, x: DriftEntry, flagId: string, id: string, flag: DriftFlag, gone: bool)
    requires Kept(st, id, flag, gone) && flagId != id
    ensures Kept(Detect(st, x.serviceId, x.field, x.manifestValue, x.currentValue, flagId), id, flag, gone)
  {
    var after := Detect(st, x.serviceId, x.field, x.manifestValue, x.currentValue, flagId).flags;
    forall a, b, t, g | IsActiveFor(after, a, t, g) && IsActiveFor(after, b, t, g) ensures a == b {
      if a in st.flags && b in st.flags {
        assert IsActiveFor(st.flags, a, t, g) && IsActiveFor(st.flags, b, t, g);
      } else {
        assert a in st.flags ==> IsActiveFor(st.flags, a, t, g);
        assert b in st.flags ==> IsActiveFor(st.flags, b, t, g);
      }
    }
  }

  lemma RemovalKeeps(st: State, service: string, flagId: string, id: string, flag: DriftFlag, gone: bool)
    requires Kept(st, id, flag, gone) && flagId != id && Perform(st, RaiseRemoval(service, flagId)).Some?
    ensures Kept(Perform(st, RaiseRemoval(service, flagId)).value, id, flag, gone)
  {
    var after := Perform(st, RaiseRemoval(service, flagId)).value.flags;
    forall a, b, t, g | IsActiveFor(after, a, t, g) && IsActiveFor(after, b, t, g) ensures a == b {
      assert IsActiveFor(st.flags, a, t, g) && IsActiveFor(st.flags, b, t, g);
    }
  }

  lemma DeletionKeeps(st: State, service: string, id: string, flag: DriftFlag, gone: bool)
    requires Kept(st, id, flag, gone)
    ensures Kept(WithoutService(st, service), id, flag, gone)
  {
    NarrowsOneActive(st.flags, WithoutService(st, service).flags);
  }

  lemma ResolvingNarrows(flags: map<string, DriftFlag>, service: string)
    ensures Narrows(flags, ResolveAll(flags, service)) && ResolveAll(flags, service).Keys == flags.Keys
    ensures Narrows(flags, ResolveOpenRemovals(flags, service))
      && ResolveOpenRemovals(flags, service).Keys == flags.Keys
  {
  }

  /** Random ids do not repeat: the operation makes neither this flag nor this service anew. */
  predicate Spares(op: TableOp, id: string, serviceId: string) {
    match op
    case CreateRow(_, _, row) => row != serviceId
    case AddRow(row, _, _) => row != serviceId
    case RaiseField(_, flagId) => flagId != id
    case RaiseRemoval(_, flagId) => flagId != id
    case _ => true
  }

  lemma OpKeeps(st: State, op: TableOp, id: string, flag: DriftFlag, gone: bool)
    requires Kept(st, id, flag, gone) && Spares(op, id, flag.serviceId) && Perform(st, op).Some?
    ensures Kept(Perform(st, op).value, id, flag, gone)
  {
    hide Narrows, Detect, ResolveAll, ResolveOpenRemovals, WithoutService, Applied, RejectsNull, MissesRequired;
    hide OneActive;
    var next := Perform(st, op).value;
    ResolveNarrows(st.flags, "", Accepted);
    match op
    case RaiseField(x, flagId) =>
      DetectKeeps(st, x, flagId, id, flag, gone);
    case RaiseRemoval(service, flagId) =>
      RemovalKeeps(st, service, flagId, id, flag, gone);
    case DeactivateRow(service) =>
      ResolvingNarrows(st.flags, service);
      NarrowingKeeps(st, next, id, flag, gone);
    case DeleteRow(service) =>
      ResolvingNarrows(st.flags, service);
      NarrowingKeeps(st, st.(flags := ResolveAll(st.flags, service)), id, flag, gone);
      DeletionKeeps(st.(flags := ResolveAll(st.flags, service)), service, id, flag, gone);
    case ResolveRemovals(service) =>
      ResolvingNarrows(st.flags, service);
      NarrowingKeeps(st, next, id, flag, gone);
    case _ =>
  }

  lemma {:induction false} OpsKeep(st: State, ops: seq<TableOp>, id: string, flag: DriftFlag, gone: bool)
    requires Kept(st, id, flag, gone) && forall op :: op in ops ==> Spares(op, id, flag.serviceId)
    ensures Kept(Transact(st, ops), id, flag, gone)
  {
    hide Perform, Kept, Spares;
    if ops != [] && PerformAll(st, ops).Some? {
      var shorter := ops[..|ops| - 1];
      OpsKeep(st, shorter, id, flag, gone);
      OpKeeps(PerformAll(st, shorter).value, ops[|ops| - 1], id, flag, gone);
    }
  }

  /** The action's random ids are not these. */
  ghost predicate SparedBy(a: Action, id: string, serviceId: string) {
    match a
    case SyncOnce(sync) =>
      (forall k :: sync.newService(k) != serviceId) && (forall s, f :: sync.newFlag(s, f) != id)
    case AddService(row, _, _) => row != serviceId
    case _ => true
  }

  lemma EntriesSpare(sync: Sync, d: Diff, id: string, serviceId: string)
    requires SparedBy(SyncOnce(sync), id, serviceId)
    ensures forall op :: op in EntryOps(sync, d) ==> Spares(op, id, serviceId)
  {
    hide Filter;
    var creations, updates := MapSeq(Creation(sync), Filter(IsSafe(sync), d.toCreate)),
      MapSeq(u => UpdateRow(u), d.toUpdate);
    var flags := MapSeq(Raising(sync), d.toDrift);
    forall op | op in creations ensures Spares(op, id, serviceId) {
      MappedMember(Creation(sync), Filter(IsSafe(sync), d.toCreate), op);
      var e :| e in Filter(IsSafe(sync), d.toCreate) && Creation(sync)(e) == op;
      assert sync.newService(e.key) != serviceId;
    }
    forall op | op in flags ensures Spares(op, id, serviceId) {
      var i :| 0 <= i < |flags| && flags[i] == op;
      var x := d.toDrift[i];
      var named: Option<Field> := Some(x.field);
      assert op == RaiseField(x, sync.newFlag(x.serviceId, named));
      assert sync.newFlag(x.serviceId, named) != id;
    }
    assert EntryOps(sync, d) == creations + updates + flags;
  }

  lemma RemovalsSpare(sync: Sync, d: Diff, id: string, serviceId: string)
    requires SparedBy(SyncOnce(sync), id, serviceId)
    ensures forall op :: op in RemovalOps(sync, d) ==> Spares(op, id, serviceId)
  {
    var stops, deletions := MapSeq(id => DeactivateRow(id), d.toDeactivate), MapSeq(id => DeleteRow(id), d.toDelete);
    var flags := MapSeq(RaisingRemoval(sync), d.removalDrift);
    forall op | op in flags ensures Spares(op, id, serviceId) {
    }
    assert RemovalOps(sync, d) == stops + deletions + flags;
  }

  lemma SyncSpares(sync: Sync, d: Diff, id: string, serviceId: string)
    requires SparedBy(SyncOnce(sync), id, serviceId)
    ensures forall op :: op in SyncOps(sync, d) ==> Spares(op, id, serviceId)
  {
    EntriesSpare(sync, d, id, serviceId);
    RemovalsSpare(sync, d, id, serviceId);
    hide EntryOps, RemovalOps;
  }

  /** The cleanup takes the flag in. */
  predicate CleansUp(a: Action, id: string) {
    a.Retain? && id in a.expired
  }

  /** The cleanup drops closed flags only. */
  lemma RetentionKeeps(st: State, expired: set<string>, id: string, flag: DriftFlag, gone: bool)
    requires Kept(st, id, flag, gone)
    ensures Kept(st.(flags := Retained(st.flags, expired)), id, flag, gone || id in expired)
  {
    NarrowsOneActive(st.flags, Retained(st.flags, expired));
  }

  lemma StepKeeps(platform: Platform, st: State, a: Action, id: string, flag: DriftFlag, gone: bool)
    requires Kept(st, id, flag, gone) && SparedBy(a, id, flag.serviceId)
    ensures Kept(Step(platform, st, a), id, flag, gone || CleansUp(a, id))
  {
    hide Accept, AcceptEach, Dismiss, DismissEach, Reopen, Kept, Transact, SyncOps, DiffOf, Resolve, Narrows, Spares;
    hide Evolves;
    ResolveNarrows(st.flags, "", Accepted);
    match a
    case AcceptOne(t, f) =>
      RouteNarrows(platform, st, t, f);
      AcceptKeepsKeys(platform, st, t, f);
      NarrowingKeeps(st, Step(platform, st, a), id, flag, gone);
    case DismissOne(t, f) =>
      RouteNarrows(platform, st, t, f);
      RoutesKeepServices(st, t, f);
      NarrowingKeeps(st, Step(platform, st, a), id, flag, gone);
    case ReopenOne(t, f) =>
      ReopenNarrows(st, t, f);
      RoutesKeepServices(st, t, f);
      NarrowingKeeps(st, Step(platform, st, a), id, flag, gone);
    case AcceptMany(t, ids) =>
      AcceptEachNarrows(platform, st, t, ids);
      EachKeepsKeys(platform, st, t, ids);
      NarrowingKeeps(st, Step(platform, st, a), id, flag, gone);
    case DismissMany(t, ids) =>
      DismissEachNarrows(platform, st, t, ids);
      EachKeepsKeys(platform, st, t, ids);
      NarrowingKeeps(st, Step(platform, st, a), id, flag, gone);
    case SyncOnce(sync) =>
      var d := DiffOf(sync.entries, ManagedRows(st.services, sync), sync.policy);
      SyncSpares(sync, d, id, flag.serviceId);
      OpsKeep(st, SyncOps(sync, d), id, flag, gone);
    case AddService(row, t, columns) =>
      assert Spares(AddRow(row, t, columns), id, flag.serviceId) by {
        AddSpares(row, t, columns, id, flag.serviceId);
      }
      OpsKeep(st, [AddRow(row, t, columns)], id, flag, gone);
    case EditOne(row, edit) =>
      EditSpares(row, edit, id, flag.serviceId);
      OpsKeep(st, [EditRow(row, edit)], id, flag, gone);
    case DeleteService(row) =>
      DeletionKeeps(st, row, id, flag, gone);
    case Retain(expired) =>
      RetentionKeeps(st, expired, id, flag, gone);
  }

  lemma AddSpares(row: string, teamId: string, columns: Record, id: string, serviceId: string)
    ensures Spares(AddRow(row, teamId, columns), id, serviceId) <==> row != serviceId
  {
  }

  lemma EditSpares(row: string, edit: Edit, id: string, serviceId: string)
    ensures Spares(EditRow(row, edit), id, serviceId)
  {
  }

  lemma AcceptKeepsKeys(platform: Platform, st: State, teamId: string, id: string)
    ensures After(st, Accept(platform, st, teamId, id)).services.Keys <= st.services.Keys
  {
    AcceptEvolves(platform, st, teamId, id);
  }

  lemma RoutesKeepServices(st: State, teamId: string, id: string)
    ensures After(st, Dismiss(st, teamId, id)).services == st.services
    ensures After(st, Reopen(st, teamId, id)).services == st.services
  {
  }

  lemma EachKeepsKeys(platform: Platform, st: State, teamId: string, ids: seq<string>)
    ensures AcceptEach(platform, st, teamId, ids).state.services.Keys <= st.services.Keys
    ensures DismissEach(st, teamId, ids).state.services == st.services
  {
    EachEvolves(platform, st, teamId, ids);
  }

  ghost predicate CleanedUp(actions: seq<Action>, id: string) {
    exists a :: a in actions && CleansUp(a, id)
  }

  /**
   * Over every run of single and bulk actions, syncs, edits and cleanups a field of a service has at most one open
   * flag, and a closed flag never changes again; it goes only with its service or by a cleanup that takes it in.
   */
  lemma {:induction false} ClosedFlagsStayClosed(platform: Platform, st: State, actions: seq<Action>, id: string)
    requires OneActive(st.flags) && id in st.flags && !IsOpen(st.flags[id].status)
    requires forall a :: a in actions ==> SparedBy(a, id, st.flags[id].serviceId)
    ensures var after := Run(platform, st, actions);
            && OneActive(after.flags)
            && (if id in after.flags then after.flags[id] == st.flags[id]
                  else CleanedUp(actions, id) || st.flags[id].serviceId !in after.services)
  {
    RunKeeps(platform, st, actions, id, st.flags[id]);
  }

  lemma {:induction false} RunKeeps(platform: Platform, st: State, actions: seq<Action>, id: string, flag: DriftFlag)
    requires Kept(st, id, flag, false) && forall a :: a in actions ==> SparedBy(a, id, flag.serviceId)
    ensures Kept(Run(platform, st, actions), id, flag, CleanedUp(actions, id))
  {
    hide Step, Kept, SparedBy, CleansUp;
    if actions != [] {
      var shorter, a := actions[..|actions| - 1], actions[|actions| - 1];
      assert actions == shorter + [a];
      RunKeeps(platform, st, shorter, id, flag);
      StepKeeps(platform, Run(platform, st, shorter), a, id, flag, CleanedUp(shorter, id));
      assert CleanedUp(actions, id) <==> CleanedUp(shorter, id) || CleansUp(a, id);
    }
  }
}

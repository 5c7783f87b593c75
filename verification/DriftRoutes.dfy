/**
 * server/src/routes/drifts/index.ts with the flag store of server/src/stores/impl/DriftFlagStore.ts: accepting,
 * dismissing and reopening drift flags, one by one and in bulk.
 */
module DriftRoutes {
  import opened Common
  import opened Fields
  import opened ManifestDiffer
  import opened ManifestApply

  datatype DriftType = FieldChange | ServiceRemoval

  datatype FlagStatus = Pending | Dismissed | Accepted | Resolved

  datatype DriftFlag = DriftFlag(
    teamId: string, serviceId: string, driftType: DriftType, fieldName: Option<Field>, manifestValue: Option<string>,
    currentValue: Option<string>, status: FlagStatus)

  /** The service and flag tables, by id. */
  datatype State = State(services: map<string, Service>, flags: map<string, DriftFlag>)

  datatype RouteError =
    | FlagNotFound | AlreadyClosed | InvalidValue(field: Field) | StoreRejected | OnlyDismissedReopen | InvalidFlagIds

  datatype Polling = NoPolling | Restart(serviceId: string) | Stop(serviceId: string)

  datatype Outcome = Done(state: State, polling: Polling) | Refused(error: RouteError)

  /** JSON and URL handling of the platform. */
  datatype Platform = Platform(isJson: string -> bool, parseJson: string -> FieldValue, isAllowedUrl: string -> bool)

  // ---------------------------------------------------------------------------
  // Field helpers
  // ---------------------------------------------------------------------------

  /** The routes' own list of fields: the differ's without the format. */
  predicate RouteSyncable(f: Field) {
    f != HealthEndpointFormat
  }

  predicate RestartsPolling(f: Field) {
    f == HealthEndpoint || f == PollIntervalMs
  }

  predicate ValidFieldValue(platform: Platform, f: Field, value: Option<string>) {
    && (f == PollIntervalMs && value.Some? ==>
          ParseInt(value.value).Some? && 5000 <= ParseInt(value.value).value <= 3600000)
    && (f == SchemaConfig && value.Some? ==> platform.isJson(value.value))
    && ((f == HealthEndpoint || f == MetricsEndpoint) && Truthy(value) ==> platform.isAllowedUrl(value.value))
  }

  /** `parseInt`, whose `NaN` is stored as null. */
  function Parsed(text: string): FieldValue {
    if ParseInt(text).Some? then Num(ParseInt(text).value) else Null
  }

  function CoerceFieldValue(f: Field, value: Option<string>): FieldValue {
    if value.None? then Null
    else if f == PollIntervalMs then Parsed(value.value)
    else Str(value.value)
  }

  function SnapshotValue(platform: Platform, f: Field, value: Option<string>): FieldValue {
    if value.None? then Null
    else if f == PollIntervalMs then Parsed(value.value)
    else if f == SchemaConfig then platform.parseJson(value.value)
    else Str(value.value)
  }

  /** `services.update`; `None` when a required column rejects a null. */
  function UpdateService(services: map<string, Service>, id: string, input: map<Field, FieldValue>)
    : Option<map<string, Service>>
  {
    if id !in services then Some(services)
    else if RejectsNull(input) then None
    else Some(services[id := services[id].(columns := services[id].columns.Patched(input))])
  }

  /** A missing or corrupt snapshot starts fresh. */
  function SnapshotBase(s: Service): Record {
    if s.lastSynced.Values? then s.lastSynced.values else NO_FIELDS
  }

  function UpdateSyncedSnapshot(
    platform: Platform, services: map<string, Service>, id: string, f: Field, value: Option<string>)
    : map<string, Service>
  {
    if id !in services then services
    else
      var s := services[id];
      services[id := s.(lastSynced := Values(SnapshotBase(s).Patched(map[f := SnapshotValue(platform, f, value)])))]
  }

  function SetInactive(services: map<string, Service>, id: string): map<string, Service> {
    if id in services then services[id := services[id].(isActive := false)] else services
  }

  predicate IsOpen(status: FlagStatus) {
    status == Pending || status == Dismissed
  }

  /** `driftFlags.resolve`: only open flags change. */
  function Resolve(flags: map<string, DriftFlag>, id: string, status: FlagStatus): map<string, DriftFlag> {
    if id in flags && IsOpen(flags[id].status) then flags[id := flags[id].(status := status)] else flags
  }

  // ---------------------------------------------------------------------------
  // One flag
  // ---------------------------------------------------------------------------

  /** Why a flag cannot be acted on, if it cannot. */
  function Refusal(flags: map<string, DriftFlag>, teamId: string, id: string): Option<RouteError> {
    if id !in flags || flags[id].teamId != teamId then Some(FlagNotFound)
    else if !IsOpen(flags[id].status) then Some(AlreadyClosed)
    else None
  }

  /** Writing an accepted field to the row and the snapshot. */
  function AcceptField(
    platform: Platform, services: map<string, Service>, id: string, f: Field, value: Option<string>)
    : Option<map<string, Service>>
  {
    match UpdateService(services, id, map[f := CoerceFieldValue(f, value)])
    case None => None
    case Some(updated) => Some(UpdateSyncedSnapshot(platform, updated, id, f, value))
  }

  function Accept(platform: Platform, st: State, teamId: string, id: string): Outcome {
    if Refusal(st.flags, teamId, id).Some? then Refused(Refusal(st.flags, teamId, id).value)
    else
      var flag, closed := st.flags[id], Resolve(st.flags, id, Accepted);
      match flag.driftType
      case ServiceRemoval => Done(State(SetInactive(st.services, flag.serviceId), closed), Stop(flag.serviceId))
      case FieldChange =>
        if flag.fieldName.None? || !RouteSyncable(flag.fieldName.value) then Done(State(st.services, closed), NoPolling)
        else
          var f := flag.fieldName.value;
          if !ValidFieldValue(platform, f, flag.manifestValue) then Refused(InvalidValue(f))
          else match AcceptField(platform, st.services, flag.serviceId, f, flag.manifestValue)
            case None => Refused(StoreRejected)
            case Some(services) =>
              Done(State(services, closed), if RestartsPolling(f) then Restart(flag.serviceId) else NoPolling)
  }

  function Dismiss(st: State, teamId: string, id: string): Outcome {
    if Refusal(st.flags, teamId, id).Some? then Refused(Refusal(st.flags, teamId, id).value)
    else Done(st.(flags := Resolve(st.flags, id, Dismissed)), NoPolling)
  }

  function Reopen(st: State, teamId: string, id: string): Outcome {
    if id !in st.flags || st.flags[id].teamId != teamId then Refused(FlagNotFound)
    else if st.flags[id].status != Dismissed then Refused(OnlyDismissedReopen)
    else Done(st.(flags := st.flags[id := st.flags[id].(status := Pending)]), NoPolling)
  }

  /** A refused action leaves the tables as they were. */
  function After(st: State, o: Outcome): State {
    match o
    case Done(next, _) => next
    case Refused(_) => st
  }

  // ---------------------------------------------------------------------------
  // Many flags
  // ---------------------------------------------------------------------------

  datatype BatchResult = BatchResult(succeeded: nat, failed: nat, errors: seq<(string, RouteError)>)

  datatype Batch = Batch(state: State, result: BatchResult, stops: set<string>, restarts: set<string>)

  function Tally(b: Batch, id: string, o: Outcome): Batch {
    match o
    case Refused(error) =>
      b.(result := BatchResult(b.result.succeeded, b.result.failed + 1, b.result.errors + [(id, error)]))
    case Done(next, polling) =>
      Batch(next, b.result.(succeeded := b.result.succeeded + 1),
            if polling.Stop? then b.stops + {polling.serviceId} else b.stops,
            if polling.Restart? then b.restarts + {polling.serviceId} else b.restarts)
  }

  function Empty(st: State): Batch {
    Batch(st, BatchResult(0, 0, []), {}, {})
  }

  /** Accepting one by one, left to right, skipping failures. */
  function AcceptEach(platform: Platform, st: State, teamId: string, ids: seq<string>): Batch {
    if ids == [] then Empty(st)
    else
      var b, id := AcceptEach(platform, st, teamId, ids[..|ids| - 1]), ids[|ids| - 1];
      Tally(b, id, Accept(platform, b.state, teamId, id))
  }

  function DismissEach(st: State, teamId: string, ids: seq<string>): Batch {
    if ids == [] then Empty(st)
    else
      var b, id := DismissEach(st, teamId, ids[..|ids| - 1]), ids[|ids| - 1];
      Tally(b, id, Dismiss(b.state, teamId, id))
  }

  /** One to a hundred non-empty ids. */
  predicate ValidFlagIds(ids: seq<string>) {
    0 < |ids| <= 100 && forall id :: id in ids ==> id != ""
  }

  // ---------------------------------------------------------------------------
  // Flags raised by a sync
  // ---------------------------------------------------------------------------

  predicate IsActiveFor(flags: map<string, DriftFlag>, id: string, serviceId: string, f: Field) {
    && id in flags && flags[id].serviceId == serviceId && flags[id].fieldName == Some(f)
    && flags[id].driftType == FieldChange && IsOpen(flags[id].status)
  }

  /** A service's field has at most one open flag. */
  ghost predicate OneActive(flags: map<string, DriftFlag>) {
    forall a, b, s, f :: IsActiveFor(flags, a, s, f) && IsActiveFor(flags, b, s, f) ==> a == b
  }

  /** What detecting a drift makes of the open flag: a dismissed one reopens only for another manifest value. */
  function Redetected(flag: DriftFlag, manifestValue: string, currentValue: string): DriftFlag {
    if flag.status == Dismissed && flag.manifestValue == Some(manifestValue) then flag
    else flag.(status := Pending, manifestValue := Some(manifestValue), currentValue := Some(currentValue))
  }

  /** `upsertFieldDrift`; without the service, or with an id already taken, the store throws and nothing changes. */
  ghost function Detect(
    st: State, serviceId: string, f: Field, manifestValue: string, currentValue: string, newId: string): State
  {
    if exists id :: IsActiveFor(st.flags, id, serviceId, f) then
      var id :| IsActiveFor(st.flags, id, serviceId, f);
      st.(flags := st.flags[id := Redetected(st.flags[id], manifestValue, currentValue)])
    else if serviceId !in st.services || newId in st.flags then st
    else
      st.(flags := st.flags[newId := DriftFlag(
        st.services[serviceId].teamId, serviceId, FieldChange, Some(f), Some(manifestValue), Some(currentValue),
        Pending)])
  }

  // ---------------------------------------------------------------------------
  // The routes
  // ---------------------------------------------------------------------------

  /** The two tables and the actions on them. */
  class DriftStore {
    const platform: Platform
    var services: map<string, Service>
    var flags: map<string, DriftFlag>

    function Contents(): State
      reads this
    {
      State(services, flags)
    }

    constructor (platform: Platform, services: map<string, Service>, flags: map<string, DriftFlag>)
      ensures this.platform == platform && Contents() == State(services, flags)
    {
      this.platform, this.services, this.flags := platform, services, flags;
    }

    /** `acceptDrift`: refused, or the tables and the polling call that follow. */
    method AcceptDrift(teamId: string, driftId: string) returns (error: Option<RouteError>, polling: Polling)
      modifies this
      ensures var o := Accept(platform, old(Contents()), teamId, driftId);
              Contents() == After(old(Contents()), o)
              && (match o
                  case Done(_, p) => error == None && polling == p
                  case Refused(e) => error == Some(e) && polling == NoPolling)
    {
      error, polling := None, NoPolling;
      if driftId !in flags || flags[driftId].teamId != teamId {
        return Some(FlagNotFound), NoPolling;
      }
      var flag := flags[driftId];
      if flag.status == Accepted || flag.status == Resolved {
        return Some(AlreadyClosed), NoPolling;
      }
      match flag.driftType
      case FieldChange =>
        if flag.fieldName.Some? && RouteSyncable(flag.fieldName.value) {
          var f := flag.fieldName.value;
          if !ValidFieldValue(platform, f, flag.manifestValue) {
            return Some(InvalidValue(f)), NoPolling;
          }
          var updated := UpdateService(services, flag.serviceId, map[f := CoerceFieldValue(f, flag.manifestValue)]);
          if updated.None? {
            return Some(StoreRejected), NoPolling;
          }
          services := UpdateSyncedSnapshot(platform, updated.value, flag.serviceId, f, flag.manifestValue);
          if RestartsPolling(f) {
            polling := Restart(flag.serviceId);
          }
        }
        flags := Resolve(flags, driftId, Accepted);
      case ServiceRemoval =>
        services := SetInactive(services, flag.serviceId);
        flags := Resolve(flags, driftId, Accepted);
        polling := Stop(flag.serviceId);
    }

    method DismissDrift(teamId: string, driftId: string) returns (error: Option<RouteError>)
      modifies this`flags
      ensures var o := Dismiss(old(Contents()), teamId, driftId);
              Contents() == After(old(Contents()), o) && error == if o.Refused? then Some(o.error) else None
    {
      if driftId !in flags || flags[driftId].teamId != teamId {
        return Some(FlagNotFound);
      }
      if flags[driftId].status == Accepted || flags[driftId].status == Resolved {
        return Some(AlreadyClosed);
      }
      flags := Resolve(flags, driftId, Dismissed);
      error := None;
    }

    method ReopenDrift(teamId: string, driftId: string) returns (error: Option<RouteError>)
      modifies this`flags
      ensures var o := Reopen(old(Contents()), teamId, driftId);
              Contents() == After(old(Contents()), o) && error == if o.Refused? then Some(o.error) else None
    {
      if driftId !in flags || flags[driftId].teamId != teamId {
        return Some(FlagNotFound);
      }
      if flags[driftId].status != Dismissed {
        return Some(OnlyDismissedReopen);
      }
      flags := flags[driftId := flags[driftId].(status := Pending)];
      error := None;
    }

    /** `bulkAccept`: as accepting one by one, with the polling calls deferred and stops taking precedence. */
    method BulkAccept(teamId: string, flagIds: seq<string>)
      returns (error: Option<RouteError>, result: BatchResult, stopped: set<string>, restarted: set<string>)
      modifies this
      ensures if !ValidFlagIds(flagIds)
              then error == Some(InvalidFlagIds) && Contents() == old(Contents()) && stopped == restarted == {}
              else var b := AcceptEach(platform, old(Contents()), teamId, flagIds);
                   error == None && Contents() == b.state && result == b.result
                   && stopped == b.stops && restarted == b.restarts - b.stops
    {
      error, result, stopped, restarted := None, BatchResult(0, 0, []), {}, {};
      if !ValidFlagIds(flagIds) {
        return Some(InvalidFlagIds), result, {}, {};
      }
      var pollingRestarts: set<string>, pollingStops: set<string> := {}, {};
      for i := 0 to |flagIds|
        invariant Batch(Contents(), result, pollingStops, pollingRestarts)
               == AcceptEach(platform, old(Contents()), teamId, flagIds[..i])
      {
        hide ValidFieldValue, CoerceFieldValue, UpdateService, UpdateSyncedSnapshot, SetInactive, Resolve;
        hide RouteSyncable;
        hide RestartsPolling;
        var flagId := flagIds[i];
        assert flagIds[..i + 1][..i] == flagIds[..i];
        ghost var before := Contents();
        if flagId !in flags || flags[flagId].teamId != teamId {
          result := BatchResult(result.succeeded, result.failed + 1, result.errors + [(flagId, FlagNotFound)]);
          continue;
        }
        var flag := flags[flagId];
        if flag.status == Accepted || flag.status == Resolved {
          result := BatchResult(result.succeeded, result.failed + 1, result.errors + [(flagId, AlreadyClosed)]);
          continue;
        }
        match flag.driftType {
          case FieldChange =>
            if flag.fieldName.Some? && RouteSyncable(flag.fieldName.value) {
              var f := flag.fieldName.value;
              if !ValidFieldValue(platform, f, flag.manifestValue) {
                result := BatchResult(result.succeeded, result.failed + 1, result.errors + [(flagId, InvalidValue(f))]);
                continue;
              }
              var updated := UpdateService(services, flag.serviceId, map[f := CoerceFieldValue(f, flag.manifestValue)]);
              if updated.None? {
                result := BatchResult(result.succeeded, result.failed + 1, result.errors + [(flagId, StoreRejected)]);
                continue;
              }
              services := UpdateSyncedSnapshot(platform, updated.value, flag.serviceId, f, flag.manifestValue);
              if RestartsPolling(f) {
                pollingRestarts := pollingRestarts + {flag.serviceId};
              }
            }
            flags := Resolve(flags, flagId, Accepted);
            result := result.(succeeded := result.succeeded + 1);
          case ServiceRemoval =>
            services := SetInactive(services, flag.serviceId);
            flags := Resolve(flags, flagId, Accepted);
            pollingStops := pollingStops + {flag.serviceId};
            result := result.(succeeded := result.succeeded + 1);
        }
      }
      assert flagIds[..|flagIds|] == flagIds;
      stopped := pollingStops;
      restarted := set id | id in pollingRestarts && id !in pollingStops;
    }

    method BulkDismiss(teamId: string, flagIds: seq<string>) returns (error: Option<RouteError>, result: BatchResult)
      modifies this`flags
      ensures if !ValidFlagIds(flagIds) then error == Some(InvalidFlagIds) && Contents() == old(Contents())
              else var b := DismissEach(old(Contents()), teamId, flagIds);
                   error == None && Contents() == b.state && result == b.result
    {
      error, result := None, BatchResult(0, 0, []);
      if !ValidFlagIds(flagIds) {
        return Some(InvalidFlagIds), result;
      }
      for i := 0 to |flagIds|
        invariant Batch(Contents(), result, {}, {}) == DismissEach(old(Contents()), teamId, flagIds[..i])
      {
        hide Resolve;
        var flagId := flagIds[i];
        assert flagIds[..i + 1][..i] == flagIds[..i];
        if flagId !in flags || flags[flagId].teamId != teamId {
          result := BatchResult(result.succeeded, result.failed + 1, result.errors + [(flagId, FlagNotFound)]);
          continue;
        }
        if flags[flagId].status == Accepted || flags[flagId].status == Resolved {
          result := BatchResult(result.succeeded, result.failed + 1, result.errors + [(flagId, AlreadyClosed)]);
          continue;
        }
        flags := Resolve(flags, flagId, Dismissed);
        result := result.(succeeded := result.succeeded + 1);
      }
      assert flagIds[..|flagIds|] == flagIds;
    }

    /** The sync engine's upsert, on tables with one open flag for each field. */
    method UpsertFieldDrift(serviceId: string, f: Field, manifestValue: string, currentValue: string, newId: string)
      requires OneActive(flags)
      modifies this`flags
      ensures Contents() == Detect(old(Contents()), serviceId, f, manifestValue, currentValue, newId)
    {
      var active := set id | id in flags && IsActiveFor(flags, id, serviceId, f);
      if active == {} {
        assert forall id :: id in active <==> IsActiveFor(flags, id, serviceId, f);
        if serviceId in services && newId !in flags {
          flags := flags[newId := DriftFlag(
            services[serviceId].teamId, serviceId, FieldChange, Some(f), Some(manifestValue), Some(currentValue),
            Pending)];
        }
        return;
      }
      var id :| id in active;
      var existing := flags[id];
      if existing.status == Pending {
        flags := flags[id := existing.(manifestValue := Some(manifestValue), currentValue := Some(currentValue))];
      } else if existing.manifestValue != Some(manifestValue) {
        flags := flags[id := existing.(
          status := Pending, manifestValue := Some(manifestValue), currentValue := Some(currentValue))];
      } else {
        assert flags[id := existing] == flags;
      }
    }
  }
}

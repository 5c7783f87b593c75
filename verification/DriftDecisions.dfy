/** What the drift routes decide and write, told by the flag, its texts and the fields. */
module DriftDecisions {
  import opened Common
  import opened Fields
  import opened ManifestDiffer
  import opened ManifestApply
  import opened DriftRoutes

  // ---------------------------------------------------------------------------
  // Accepting one flag
  // ---------------------------------------------------------------------------

  /** The flag is there, belongs to the team and is neither accepted nor resolved. */
  predicate Actionable(st: State, teamId: string, id: string) {
    && id in st.flags && st.flags[id].teamId == teamId
    && (st.flags[id].status == Pending || st.flags[id].status == Dismissed)
  }

  /** The flag is on one of the six fields the routes know. */
  predicate OnField(flag: DriftFlag, f: Field) {
    && flag.driftType == FieldChange && flag.fieldName == Some(f)
    && f in [Name, HealthEndpoint, Description, MetricsEndpoint, PollIntervalMs, SchemaConfig]
  }

  /** An interval from 5 seconds to an hour, a JSON schema, an endpoint that may be polled; nothing is always fine. */
  predicate Acceptable(platform: Platform, f: Field, value: Option<string>) {
    match value
    case None => true
    case Some(text) =>
      match f
      case PollIntervalMs => (match ParseInt(text) case None => false case Some(ms) => 5000 <= ms <= 3600000)
      case SchemaConfig => platform.isJson(text)
      case HealthEndpoint => |text| == 0 || platform.isAllowedUrl(text)
      case MetricsEndpoint => |text| == 0 || platform.isAllowedUrl(text)
      case _ => true
  }

  /** When an accept is refused, and with which error. */
  lemma AcceptRefusedExactly(platform: Platform, st: State, teamId: string, id: string, f: Field)
    ensures var o := Accept(platform, st, teamId, id);
            && (o == Refused(FlagNotFound) <==> id !in st.flags || st.flags[id].teamId != teamId)
            && (o == Refused(AlreadyClosed) <==>
                  && id in st.flags && st.flags[id].teamId == teamId
                  && (st.flags[id].status == Accepted || st.flags[id].status == Resolved))
            && (o == Refused(InvalidValue(f)) <==>
                  && Actionable(st, teamId, id) && OnField(st.flags[id], f)
                  && !Acceptable(platform, f, st.flags[id].manifestValue))
            && (Actionable(st, teamId, id) && OnField(st.flags[id], f) ==>
                  (o == Refused(StoreRejected) <==>
                     && st.flags[id].serviceId in st.services && st.flags[id].manifestValue == None
                     && (f == Name || f == HealthEndpoint || f == PollIntervalMs)))
            && (Actionable(st, teamId, id) && (forall g :: !OnField(st.flags[id], g)) ==> o.Done?)
  {
    hide ParseInt, Record.Patched;
    if Actionable(st, teamId, id) && st.flags[id].driftType == FieldChange && st.flags[id].fieldName.Some? {
      var g := st.flags[id].fieldName.value;
      AcceptableIsValid(platform, g, st.flags[id].manifestValue);
      RejectsOneNull(g, CoerceFieldValue(g, st.flags[id].manifestValue));
      assert RouteSyncable(g) <==> OnField(st.flags[id], g);
      hide ValidFieldValue, Acceptable, CoerceFieldValue, RejectsNull, RouteSyncable;
    }
  }

  lemma AcceptableIsValid(platform: Platform, f: Field, value: Option<string>)
    ensures ValidFieldValue(platform, f, value) == Acceptable(platform, f, value)
    ensures Acceptable(platform, f, value) ==> (CoerceFieldValue(f, value) == Null <==> value == None)
  {
    hide ParseInt;
  }

  lemma RejectsOneNull(f: Field, v: FieldValue)
    ensures RejectsNull(map[f := v]) <==>
      v == Null && (f == Name || f == HealthEndpoint || f == PollIntervalMs || f == HealthEndpointFormat)
  {
    var input := map[f := v];
    if v == Null && Required(f) {
      assert f in input && Required(f) && input[f] == Null;
    }
  }

  /** What an accepted text writes to a column: null without a text, the interval as a number, else the text. */
  ghost predicate WritesColumn(f: Field, value: Option<string>, written: FieldValue) {
    match value
    case None => written == Null
    case Some(text) =>
      if f == PollIntervalMs then written.Num? && ParseInt(text) == Some(written.number) else written == Str(text)
  }

  /** The snapshot gets the same, but a schema is parsed. */
  ghost predicate WritesSnapshot(platform: Platform, f: Field, value: Option<string>, written: FieldValue) {
    if f == SchemaConfig && value.Some? then written == platform.parseJson(value.value)
    else WritesColumn(f, value, written)
  }

  /** The row after an accept: the field in column and snapshot, everything else as it was. */
  ghost predicate FieldWritten(platform: Platform, before: Service, after: Service, f: Field, value: Option<string>) {
    && after == before.(columns := after.columns, lastSynced := after.lastSynced)
    && WritesColumn(f, value, after.columns.Get(f))
    && (forall g :: g != f ==> after.columns.Get(g) == before.columns.Get(g))
    && after.lastSynced.Values? && WritesSnapshot(platform, f, value, after.lastSynced.values.Get(f))
    && (forall g :: g != f ==>
          after.lastSynced.values.Get(g) ==
            if before.lastSynced.Values? then before.lastSynced.values.Get(g) else Undefined)
  }

  lemma PatchedOne(r: Record, f: Field, v: FieldValue, g: Field)
    ensures r.Patched(map[f := v]).Get(g) == if g == f then v else r.Get(g)
  {
    GetPatched(r, map[f := v], g);
  }

  lemma CoercedIsWritten(platform: Platform, f: Field, value: Option<string>)
    requires Acceptable(platform, f, value)
    ensures WritesColumn(f, value, CoerceFieldValue(f, value))
    ensures WritesSnapshot(platform, f, value, SnapshotValue(platform, f, value))
  {
    hide ParseInt;
  }

  lemma AcceptWritesField(
    platform: Platform, services: map<string, Service>, id: string, f: Field, value: Option<string>)
    requires id in services && Acceptable(platform, f, value)
    requires AcceptField(platform, services, id, f, value).Some?
    ensures var after := AcceptField(platform, services, id, f, value).value;
            && after.Keys == services.Keys && FieldWritten(platform, services[id], after[id], f, value)
            && forall other :: other in services && other != id ==> after[other] == services[other]
  {
    CoercedIsWritten(platform, f, value);
    hide CoerceFieldValue, SnapshotValue, WritesColumn, WritesSnapshot, RejectsNull, Record.Patched, Record.Get;
    var s := services[id];
    forall g
      ensures s.columns.Patched(map[f := CoerceFieldValue(f, value)]).Get(g) ==
              if g == f then CoerceFieldValue(f, value) else s.columns.Get(g)
      ensures SnapshotBase(s).Patched(map[f := SnapshotValue(platform, f, value)]).Get(g) ==
              if g == f then SnapshotValue(platform, f, value) else SnapshotBase(s).Get(g) {
      PatchedOne(s.columns, f, CoerceFieldValue(f, value), g);
      PatchedOne(SnapshotBase(s), f, SnapshotValue(platform, f, value), g);
    }
    forall g ensures NO_FIELDS.Get(g) == Undefined {
      NothingGiven(g);
    }
  }

  lemma NothingGiven(g: Field)
    ensures NO_FIELDS.Get(g) == Undefined
  {
  }

  /**
   * An accept that goes through closes its flag as accepted.  A removal stops the service: it becomes inactive and its
   * polling stops.  A field the routes know is written to the row, if it is there, and polling restarts for a health
   * endpoint or an interval.  Any other flag writes nothing.
   */
  lemma AcceptInWords(platform: Platform, st: State, teamId: string, id: string, f: Field)
    requires Accept(platform, st, teamId, id).Done?
    ensures id in st.flags
    ensures var o, flag := Accept(platform, st, teamId, id), st.flags[id];
            var next, row := o.state, flag.serviceId;
            && next.flags == st.flags[id := flag.(status := Accepted)]
            && (flag.driftType == ServiceRemoval ==>
                  && o.polling == Stop(row)
                  && next.services ==
                       if row in st.services then st.services[row := st.services[row].(isActive := false)]
                       else st.services)
            && (OnField(flag, f) ==>
                  && o.polling == (if f == HealthEndpoint || f == PollIntervalMs then Restart(row) else NoPolling)
                  && next.services.Keys == st.services.Keys
                  && (forall other :: other in st.services && other != row ==>
                        next.services[other] == st.services[other])
                  && (row in st.services ==>
                        FieldWritten(platform, st.services[row], next.services[row], f, flag.manifestValue)))
            && (flag.driftType == FieldChange && (forall g :: !OnField(flag, g)) ==>
                  o.polling == NoPolling && next.services == st.services)
  {
    hide ParseInt, Record.Patched, FieldWritten, CoerceFieldValue, SnapshotValue;
    var flag := st.flags[id];
    if flag.driftType == FieldChange && flag.fieldName.Some? {
      var g := flag.fieldName.value;
      assert RouteSyncable(g) <==> OnField(flag, g);
      AcceptableIsValid(platform, g, flag.manifestValue);
      hide ValidFieldValue, Acceptable, RouteSyncable;
      if OnField(flag, g) && flag.serviceId in st.services {
        AcceptWritesField(platform, st.services, flag.serviceId, g, flag.manifestValue);
      }
    }
  }

  // ---------------------------------------------------------------------------
  // Dismissing, reopening and raising again
  // ---------------------------------------------------------------------------

  /** An open flag is dismissed, a dismissed one reopened as pending; nothing else changes. */
  lemma DismissAndReopenInWords(st: State, teamId: string, id: string)
    ensures Dismiss(st, teamId, id) ==
            if id !in st.flags || st.flags[id].teamId != teamId then Refused(FlagNotFound)
            else if !Actionable(st, teamId, id) then Refused(AlreadyClosed)
            else Done(State(st.services, st.flags[id := st.flags[id].(status := Dismissed)]), NoPolling)
    ensures Reopen(st, teamId, id) ==
            if id !in st.flags || st.flags[id].teamId != teamId then Refused(FlagNotFound)
            else if st.flags[id].status != Dismissed then Refused(OnlyDismissedReopen)
            else Done(State(st.services, st.flags[id := st.flags[id].(status := Pending)]), NoPolling)
  {
  }

  /** The flag is pending or dismissed, on this field of this service. */
  predicate OpenOn(flags: map<string, DriftFlag>, id: string, serviceId: string, f: Field) {
    && id in flags && flags[id].driftType == FieldChange && flags[id].serviceId == serviceId
    && flags[id].fieldName == Some(f) && (flags[id].status == Pending || flags[id].status == Dismissed)
  }

  /**
   * A drift found again refreshes its open flag, but leaves a dismissed one with the same manifest text alone; found
   * for the first time it raises a pending flag.
   */
  lemma DetectInWords(st: State, serviceId: string, f: Field, given: string, stored: string, newId: string, id: string)
    requires OneActive(st.flags)
    ensures var next := Detect(st, serviceId, f, given, stored, newId);
            && next.services == st.services
            && (OpenOn(st.flags, id, serviceId, f) ==>
                  next.flags ==
                    if st.flags[id].status == Dismissed && st.flags[id].manifestValue == Some(given) then st.flags
                    else st.flags[id := st.flags[id].(status := Pending, manifestValue := Some(given),
                                                      currentValue := Some(stored))])
            && ((forall i :: !OpenOn(st.flags, i, serviceId, f)) ==>
                  next.flags ==
                    if serviceId !in st.services || newId in st.flags then st.flags
                    else st.flags[newId := DriftFlag(st.services[serviceId].teamId, serviceId, FieldChange, Some(f),
                                                     Some(given), Some(stored), Pending)])
  {
    forall i ensures OpenOn(st.flags, i, serviceId, f) == IsActiveFor(st.flags, i, serviceId, f) {
    }
    if OpenOn(st.flags, id, serviceId, f) {
      assert IsActiveFor(st.flags, id, serviceId, f);
      assert st.flags[id := st.flags[id]] == st.flags;
    }
  }

  // ---------------------------------------------------------------------------
  // Many flags
  // ---------------------------------------------------------------------------

  /** What step `i` of a bulk accept comes to, on the tables the steps before it left. */
  function StepOf(platform: Platform, st: State, teamId: string, ids: seq<string>, i: nat): DriftRoutes.Outcome
    requires i < |ids|
  {
    Accept(platform, AcceptEach(platform, st, teamId, ids[..i]).state, teamId, ids[i])
  }

  /**
   * A bulk accept stops the services of exactly the steps that call for it, restarts those of the steps that call for
   * that, and its last step leaves the tables that are reported.
   */
  lemma {:induction false} BatchInSteps(platform: Platform, st: State, teamId: string, ids: seq<string>, row: string)
    ensures var b := AcceptEach(platform, st, teamId, ids);
            && (row in b.stops <==>
                  exists i: nat :: i < |ids| && StepOf(platform, st, teamId, ids, i).Done?
                                   && StepOf(platform, st, teamId, ids, i).polling == Stop(row))
            && (row in b.restarts <==>
                  exists i: nat :: i < |ids| && StepOf(platform, st, teamId, ids, i).Done?
                                   && StepOf(platform, st, teamId, ids, i).polling == Restart(row))
            && b.state == if ids == [] then st
                          else match StepOf(platform, st, teamId, ids, |ids| - 1)
                               case Done(next, _) => next
                               case Refused(_) => AcceptEach(platform, st, teamId, ids[..|ids| - 1]).state
  {
    hide Accept;
    if ids != [] {
      var last := |ids| - 1;
      BatchInSteps(platform, st, teamId, ids[..last], row);
      forall i: nat | i < last
        ensures StepOf(platform, st, teamId, ids[..last], i) == StepOf(platform, st, teamId, ids, i) {
        assert ids[..last][..i] == ids[..i];
      }
      var o := StepOf(platform, st, teamId, ids, last);
      hide StepOf;
    }
  }

  /** Between one and a hundred ids, none of them empty. */
  lemma FlagIdsInWords(ids: seq<string>)
    ensures ValidFlagIds(ids) <==> 1 <= |ids| <= 100 && "" !in ids
  {
  }
}

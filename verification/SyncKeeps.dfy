/** What single operations on the tables lead to and keep, and with them whole transactions. */
module SyncKeeps {
  import opened Common
  import opened Fields
  import opened ManifestDiffer
  import opened ManifestApply
  import opened DriftRoutes
  import opened DriftDecisions
  import opened SyncRuns

  // ---------------------------------------------------------------------------
  // What operations lead to and keep
  // ---------------------------------------------------------------------------

  /** Wherever the operation goes through, it keeps what holds. */
  ghost predicate Keeps(op: TableOp, p: State -> bool) {
    forall s :: p(s) && Perform(s, op).Some? ==> p(Perform(s, op).value)
  }

  ghost predicate AllKeep(ops: seq<TableOp>, p: State -> bool) {
    forall op :: op in ops ==> Keeps(op, p)
  }

  /** From any state where `before` holds the operation leads to one where `p` does. */
  ghost predicate LeadsTo(op: TableOp, before: State -> bool, p: State -> bool) {
    forall s :: before(s) && Perform(s, op).Some? ==> p(Perform(s, op).value)
  }

  lemma {:induction false} HoldsThroughout(st: State, ops: seq<TableOp>, p: State -> bool)
    requires p(st) && PerformAll(st, ops).Some? && AllKeep(ops, p)
    ensures p(PerformAll(st, ops).value)
  {
    hide Perform;
    if ops != [] {
      var last := |ops| - 1;
      HoldsThroughout(st, ops[..last], p);
      assert Keeps(ops[last], p);
    }
  }

  /** What one of the operations leads to and the others keep holds in the end. */
  lemma {:induction false} HoldsFrom(
    st: State, ops: seq<TableOp>, op: TableOp, before: State -> bool, p: State -> bool)
    requires before(st) && PerformAll(st, ops).Some? && op in ops
    requires AllKeep(ops, before) && AllKeep(ops, p) && LeadsTo(op, before, p)
    ensures p(PerformAll(st, ops).value)
  {
    hide Perform;
    var last := |ops| - 1;
    assert ops == ops[..last] + [ops[last]];
    if op in ops[..last] {
      HoldsFrom(st, ops[..last], op, before, p);
      assert Keeps(ops[last], p);
    } else {
      HoldsThroughout(st, ops[..last], before);
    }
  }

  function Anything(): State -> bool {
    (s: State) => true
  }

  lemma KeepsAnything(op: TableOp)
    ensures Keeps(op, Anything())
  {
  }

  // ---------------------------------------------------------------------------
  // Flags on fields
  // ---------------------------------------------------------------------------

  /** The flag tells the manifest's text, and the stored one unless it stays dismissed. */
  predicate Tells(flag: DriftFlag, given: string, stored: string) {
    && flag.manifestValue == Some(given)
    && (flag.status == Dismissed || (flag.status == Pending && flag.currentValue == Some(stored)))
  }

  ghost function FlagRaised(id: string, f: Field, given: string, stored: string): State -> bool {
    (s: State) => exists g :: OpenOn(s.flags, g, id, f) && Tells(s.flags[g], given, stored)
  }

  lemma RaisingTells(x: DriftEntry, flagId: string)
    ensures var p := FlagRaised(x.serviceId, x.field, x.manifestValue, x.currentValue);
            LeadsTo(RaiseField(x, flagId), Anything(), p)
  {
    var p := FlagRaised(x.serviceId, x.field, x.manifestValue, x.currentValue);
    forall s | Perform(s, RaiseField(x, flagId)).Some? ensures p(Perform(s, RaiseField(x, flagId)).value) {
      DetectionTells(s, x, flagId);
    }
  }

  lemma RedetectedTells(flag: DriftFlag, given: string, stored: string)
    requires IsOpen(flag.status)
    ensures Tells(Redetected(flag, given, stored), given, stored)
  {
  }

  lemma DetectionTells(s: State, x: DriftEntry, flagId: string)
    requires Perform(s, RaiseField(x, flagId)).Some?
    ensures FlagRaised(x.serviceId, x.field, x.manifestValue, x.currentValue)(Perform(s, RaiseField(x, flagId)).value)
  {
    var next := Perform(s, RaiseField(x, flagId)).value;
    if exists g :: IsActiveFor(s.flags, g, x.serviceId, x.field) {
      var g :| IsActiveFor(s.flags, g, x.serviceId, x.field) && next ==
        s.(flags := s.flags[g := Redetected(s.flags[g], x.manifestValue, x.currentValue)]);
      assert OpenOn(next.flags, g, x.serviceId, x.field);
      RedetectedTells(s.flags[g], x.manifestValue, x.currentValue);
    } else {
      assert OpenOn(next.flags, flagId, x.serviceId, x.field)
        && Tells(next.flags[flagId], x.manifestValue, x.currentValue);
    }
  }

  /** The operation leaves a told flag on the field alone, or tells the same again. */
  predicate SparesField(op: TableOp, id: string, f: Field, given: string, stored: string) {
    match op
    case RaiseField(x, _) => (x.serviceId, x.field) == (id, f) ==> (x.manifestValue, x.currentValue) == (given, stored)
    case DeactivateRow(row) => row != id
    case DeleteRow(row) => row != id
    case _ => true
  }

  lemma RaisedOnce(s: State, op: TableOp, id: string, f: Field, given: string, stored: string)
    requires SparesField(op, id, f, given, stored) && FlagRaised(id, f, given, stored)(s) && Perform(s, op).Some?
    ensures FlagRaised(id, f, given, stored)(Perform(s, op).value)
  {
    hide CreatedColumns, MissesRequired, RejectsNull, InputOf, EditService, KeyTaken, Applied, SetInactive;
    var g :| OpenOn(s.flags, g, id, f) && Tells(s.flags[g], given, stored);
    if op.RaiseField? && (op.drift.serviceId, op.drift.field) == (id, f) {
      DetectionTells(s, op.drift, op.flagId);
    } else {
      var next := Perform(s, op).value;
      assert g in next.flags && next.flags[g] == s.flags[g];
      assert OpenOn(next.flags, g, id, f);
    }
  }

  lemma KeepsRaised(op: TableOp, id: string, f: Field, given: string, stored: string)
    requires SparesField(op, id, f, given, stored)
    ensures Keeps(op, FlagRaised(id, f, given, stored))
  {
    var p := FlagRaised(id, f, given, stored);
    hide FlagRaised, Perform;
    forall s | p(s) && Perform(s, op).Some? ensures p(Perform(s, op).value) {
      RaisedOnce(s, op, id, f, given, stored);
    }
  }

  // ---------------------------------------------------------------------------
  // Flags on removals
  // ---------------------------------------------------------------------------

  /** A flag on the removal of the service that is pending or dismissed. */
  predicate OpenRemoval(flags: map<string, DriftFlag>, g: string, id: string) {
    && g in flags && flags[g].driftType == ServiceRemoval && flags[g].serviceId == id
    && (flags[g].status == Pending || flags[g].status == Dismissed)
  }

  ghost function RemovalFlagged(id: string): State -> bool {
    (s: State) => exists g :: OpenRemoval(s.flags, g, id)
  }

  ghost function NoRemovalFlagged(id: string): State -> bool {
    (s: State) => forall g :: !OpenRemoval(s.flags, g, id)
  }

  lemma RemovalRaised(s: State, id: string, flagId: string)
    requires Perform(s, RaiseRemoval(id, flagId)).Some?
    ensures RemovalFlagged(id)(Perform(s, RaiseRemoval(id, flagId)).value)
  {
    var next := Perform(s, RaiseRemoval(id, flagId)).value;
    if g :| IsOpenRemoval(s.flags, g, id) {
      assert OpenRemoval(next.flags, g, id);
    } else {
      assert OpenRemoval(next.flags, flagId, id);
    }
  }

  predicate SparesRemoval(op: TableOp, id: string) {
    match op
    case DeactivateRow(row) => row != id
    case DeleteRow(row) => row != id
    case ResolveRemovals(row) => row != id
    case _ => true
  }

  lemma RemovalKept(s: State, op: TableOp, id: string)
    requires SparesRemoval(op, id) && RemovalFlagged(id)(s) && Perform(s, op).Some?
    ensures RemovalFlagged(id)(Perform(s, op).value)
  {
    hide CreatedColumns, MissesRequired, RejectsNull, InputOf, EditService, KeyTaken, Applied, SetInactive;
    var g :| OpenRemoval(s.flags, g, id);
    var next := Perform(s, op).value;
    assert g in next.flags && next.flags[g] == s.flags[g];
    assert OpenRemoval(next.flags, g, id);
  }

  lemma KeepsRemoval(op: TableOp, id: string)
    requires SparesRemoval(op, id)
    ensures Keeps(op, RemovalFlagged(id))
  {
    var p := RemovalFlagged(id);
    hide RemovalFlagged, Perform;
    forall s | p(s) && Perform(s, op).Some? ensures p(Perform(s, op).value) {
      RemovalKept(s, op, id);
    }
  }

  /** No removal of the service is flagged, or one is pending. */
  ghost function NoneOrPending(id: string): State -> bool {
    (s: State) =>
      || (forall g :: !OpenRemoval(s.flags, g, id))
      || exists g :: OpenRemoval(s.flags, g, id) && s.flags[g].status == Pending
  }

  lemma NoneOrPendingOnce(s: State, op: TableOp, id: string)
    requires SparesRemoval(op, id) && NoneOrPending(id)(s) && Perform(s, op).Some?
    ensures NoneOrPending(id)(Perform(s, op).value)
  {
    hide CreatedColumns, MissesRequired, RejectsNull, InputOf, EditService, KeyTaken, Applied, SetInactive;
    var next := Perform(s, op).value;
    if g :| OpenRemoval(s.flags, g, id) && s.flags[g].status == Pending {
      assert OpenRemoval(next.flags, g, id) && next.flags[g] == s.flags[g];
    } else if op.RaiseRemoval? && op.id == id {
      assert forall g :: IsOpenRemoval(s.flags, g, id) <==> OpenRemoval(s.flags, g, id);
      assert OpenRemoval(next.flags, op.flagId, id) && next.flags[op.flagId].status == Pending;
    } else {
      forall g ensures !OpenRemoval(next.flags, g, id) {
        assert !OpenRemoval(s.flags, g, id);
      }
    }
  }

  lemma KeepsNoneOrPending(op: TableOp, id: string)
    requires SparesRemoval(op, id)
    ensures Keeps(op, NoneOrPending(id))
  {
    var p := NoneOrPending(id);
    hide NoneOrPending, Perform;
    forall s | p(s) && Perform(s, op).Some? ensures p(Perform(s, op).value) {
      NoneOrPendingOnce(s, op, id);
    }
  }

  lemma RemovalsResolved(s: State, id: string)
    ensures NoRemovalFlagged(id)(Perform(s, ResolveRemovals(id)).value)
  {
  }

  lemma ResolvedOnce(s: State, row: string, id: string)
    requires NoRemovalFlagged(id)(s)
    ensures NoRemovalFlagged(id)(Perform(s, ResolveRemovals(row)).value)
  {
    var next := Perform(s, ResolveRemovals(row)).value;
    forall g ensures !OpenRemoval(next.flags, g, id) {
      assert !OpenRemoval(s.flags, g, id);
    }
  }

  lemma KeepsResolved(row: string, id: string)
    ensures Keeps(ResolveRemovals(row), NoRemovalFlagged(id))
  {
    var p := NoRemovalFlagged(id);
    hide NoRemovalFlagged, Perform;
    forall s | p(s) && Perform(s, ResolveRemovals(row)).Some? ensures p(Perform(s, ResolveRemovals(row)).value) {
      ResolvedOnce(s, row, id);
    }
  }

  // ---------------------------------------------------------------------------
  // Rows that are stopped or deleted
  // ---------------------------------------------------------------------------

  predicate IsClosed(flag: DriftFlag) {
    flag.status == Accepted || flag.status == Resolved
  }

  /** The row is there, active or not. */
  ghost function RowThere(row: Service): State -> bool {
    (s: State) => row.id in s.services && (s.services[row.id] == row || s.services[row.id] == row.(isActive := false))
  }

  /** The row is inactive and otherwise as it was, and all its flags are closed. */
  ghost function Stopped(row: Service): State -> bool {
    (s: State) =>
      && row.id in s.services && s.services[row.id] == row.(isActive := false)
      && forall g :: g in s.flags && s.flags[g].serviceId == row.id ==> IsClosed(s.flags[g])
  }

  predicate SparesRow(op: TableOp, id: string) {
    match op
    case UpdateRow(u) => u.serviceId != id
    case DeleteRow(row) => row != id
    case EditRow(row, _) => row != id
    case _ => true
  }

  predicate RaisesNothing(op: TableOp, id: string) {
    match op
    case RaiseField(x, _) => x.serviceId != id
    case RaiseRemoval(row, _) => row != id
    case _ => true
  }

  lemma RowKeptOnce(s: State, op: TableOp, row: Service)
    requires SparesRow(op, row.id) && RowThere(row)(s) && Perform(s, op).Some?
    ensures RowThere(row)(Perform(s, op).value)
  {
    hide CreatedColumns, MissesRequired, RejectsNull, InputOf, KeyTaken, Applied, Record.Patched;
    DetectKeepsServices(s, op);
    hide Detect, ResolveAll, ResolveOpenRemovals;
  }

  lemma KeepsRow(op: TableOp, row: Service)
    requires SparesRow(op, row.id)
    ensures Keeps(op, RowThere(row))
  {
    var p := RowThere(row);
    hide RowThere, Perform;
    forall s | p(s) && Perform(s, op).Some? ensures p(Perform(s, op).value) {
      RowKeptOnce(s, op, row);
    }
  }

  lemma DeactivationStops(s: State, row: Service)
    requires RowThere(row)(s)
    ensures Stopped(row)(Perform(s, DeactivateRow(row.id)).value)
  {
  }

  lemma StoppedOnce(s: State, op: TableOp, row: Service)
    requires SparesRow(op, row.id) && RaisesNothing(op, row.id) && Stopped(row)(s) && Perform(s, op).Some?
    ensures Stopped(row)(Perform(s, op).value)
  {
    hide CreatedColumns, MissesRequired, RejectsNull, InputOf, KeyTaken, Applied, Record.Patched;
    DetectKeepsServices(s, op);
  }

  lemma KeepsStopped(op: TableOp, row: Service)
    requires SparesRow(op, row.id) && RaisesNothing(op, row.id)
    ensures Keeps(op, Stopped(row))
  {
    var p := Stopped(row);
    hide Stopped, Perform;
    forall s | p(s) && Perform(s, op).Some? ensures p(Perform(s, op).value) {
      StoppedOnce(s, op, row);
    }
  }

  ghost function RowSame(row: Service): State -> bool {
    (s: State) => row.id in s.services && s.services[row.id] == row
  }

  predicate SparesAll(op: TableOp, id: string) {
    SparesRow(op, id) && op != DeactivateRow(id)
  }

  lemma RowSameOnce(s: State, op: TableOp, row: Service)
    requires SparesAll(op, row.id) && RowSame(row)(s) && Perform(s, op).Some?
    ensures RowSame(row)(Perform(s, op).value)
  {
    hide CreatedColumns, MissesRequired, RejectsNull, InputOf, KeyTaken, Applied, Record.Patched;
    DetectKeepsServices(s, op);
    hide Detect, ResolveAll, ResolveOpenRemovals;
  }

  lemma KeepsRowSame(op: TableOp, row: Service)
    requires SparesAll(op, row.id)
    ensures Keeps(op, RowSame(row))
  {
    var p := RowSame(row);
    hide RowSame, Perform;
    forall s | p(s) && Perform(s, op).Some? ensures p(Perform(s, op).value) {
      RowSameOnce(s, op, row);
    }
  }

  /** The flags of the service are these. */
  ghost function FlagsSame(id: string, flags: map<string, DriftFlag>): State -> bool {
    (s: State) => forall g: string ::
      if g in flags && flags[g].serviceId == id then g in s.flags && s.flags[g] == flags[g]
      else g in s.flags ==> s.flags[g].serviceId != id
  }

  predicate NamesNot(op: TableOp, id: string) {
    SparesAll(op, id) && RaisesNothing(op, id) && op != ResolveRemovals(id)
  }

  lemma FlagsSameOnce(s: State, op: TableOp, id: string, flags: map<string, DriftFlag>)
    requires NamesNot(op, id) && FlagsSame(id, flags)(s) && Perform(s, op).Some?
    ensures FlagsSame(id, flags)(Perform(s, op).value)
  {
    hide CreatedColumns, MissesRequired, RejectsNull, InputOf, KeyTaken, EditService, Applied, SetInactive;
    var next := Perform(s, op).value;
    forall g: string
      ensures g in s.flags && s.flags[g].serviceId == id ==> g in next.flags && next.flags[g] == s.flags[g]
      ensures g in next.flags && next.flags[g].serviceId == id ==> g in s.flags && s.flags[g].serviceId == id {
    }
  }

  lemma KeepsFlagsSame(op: TableOp, id: string, flags: map<string, DriftFlag>)
    requires NamesNot(op, id)
    ensures Keeps(op, FlagsSame(id, flags))
  {
    var p := FlagsSame(id, flags);
    hide FlagsSame, Perform;
    forall s | p(s) && Perform(s, op).Some? ensures p(Perform(s, op).value) {
      FlagsSameOnce(s, op, id, flags);
    }
  }

  predicate WasOpen(flag: DriftFlag) {
    flag.status == Pending || flag.status == Dismissed
  }

  /** The flag is as it was, or was open and is resolved. */
  predicate Settled(before: DriftFlag, after: DriftFlag) {
    after == before || (WasOpen(before) && after == before.(status := Resolved))
  }

  /** The flags of the service are these, each as it was or resolved. */
  ghost function FlagsSettled(id: string, flags: map<string, DriftFlag>): State -> bool {
    (s: State) => forall g: string ::
      if g in flags && flags[g].serviceId == id then g in s.flags && Settled(flags[g], s.flags[g])
      else g in s.flags ==> s.flags[g].serviceId != id
  }

  lemma FlagSettles(s: State, op: TableOp, id: string, g: string)
    requires RaisesNothing(op, id) && op != DeleteRow(id) && Perform(s, op).Some?
    requires g in s.flags && s.flags[g].serviceId == id
    ensures var next := Perform(s, op).value; g in next.flags && Settled(s.flags[g], next.flags[g])
  {
    hide CreatedColumns, MissesRequired, RejectsNull, InputOf, KeyTaken, EditService, Applied, SetInactive;
  }

  lemma NoFlagRaised(s: State, op: TableOp, id: string, g: string)
    requires RaisesNothing(op, id) && Perform(s, op).Some?
    requires g in Perform(s, op).value.flags && Perform(s, op).value.flags[g].serviceId == id
    ensures g in s.flags && s.flags[g].serviceId == id
  {
    hide CreatedColumns, MissesRequired, RejectsNull, InputOf, KeyTaken, EditService, Applied, SetInactive;
  }

  lemma FlagsSettledOnce(s: State, op: TableOp, id: string, flags: map<string, DriftFlag>)
    requires RaisesNothing(op, id) && op != DeleteRow(id) && FlagsSettled(id, flags)(s) && Perform(s, op).Some?
    ensures FlagsSettled(id, flags)(Perform(s, op).value)
  {
    hide Perform, RaisesNothing;
    var next := Perform(s, op).value;
    forall g: string | g in s.flags && s.flags[g].serviceId == id
      ensures g in next.flags && Settled(s.flags[g], next.flags[g]) {
      FlagSettles(s, op, id, g);
    }
    forall g: string | g in next.flags && next.flags[g].serviceId == id
      ensures g in s.flags && s.flags[g].serviceId == id {
      NoFlagRaised(s, op, id, g);
    }
  }

  lemma KeepsFlagsSettled(op: TableOp, id: string, flags: map<string, DriftFlag>)
    requires RaisesNothing(op, id) && op != DeleteRow(id)
    ensures Keeps(op, FlagsSettled(id, flags))
  {
    var p := FlagsSettled(id, flags);
    hide FlagsSettled, Perform;
    forall s | p(s) && Perform(s, op).Some? ensures p(Perform(s, op).value) {
      FlagsSettledOnce(s, op, id, flags);
    }
  }

  /** The removal flags of the service that were there are as they were or resolved. */
  ghost function RemovalsSettled(id: string, flags: map<string, DriftFlag>): State -> bool {
    (s: State) => forall g: string ::
      g in flags && flags[g].driftType == ServiceRemoval && flags[g].serviceId == id ==>
        g in s.flags && Settled(flags[g], s.flags[g])
  }

  lemma RemovalsSettledOnce(s: State, op: TableOp, id: string, flags: map<string, DriftFlag>)
    requires op != DeleteRow(id) && RemovalsSettled(id, flags)(s) && Perform(s, op).Some?
    ensures RemovalsSettled(id, flags)(Perform(s, op).value)
  {
    hide CreatedColumns, MissesRequired, RejectsNull, InputOf, KeyTaken, EditService, Applied, SetInactive;
    var next := Perform(s, op).value;
    forall g: string | g in s.flags && s.flags[g].driftType == ServiceRemoval && s.flags[g].serviceId == id
      ensures g in next.flags && Settled(s.flags[g], next.flags[g]) {
    }
  }

  lemma KeepsRemovalsSettled(op: TableOp, id: string, flags: map<string, DriftFlag>)
    requires op != DeleteRow(id)
    ensures Keeps(op, RemovalsSettled(id, flags))
  {
    var p := RemovalsSettled(id, flags);
    hide RemovalsSettled, Perform;
    forall s | p(s) && Perform(s, op).Some? ensures p(Perform(s, op).value) {
      RemovalsSettledOnce(s, op, id, flags);
    }
  }

  /** Neither the row nor a flag of it is left. */
  ghost function Gone(id: string): State -> bool {
    (s: State) => id !in s.services && forall g :: g in s.flags ==> s.flags[g].serviceId != id
  }

  ghost function ThereOrGone(id: string): State -> bool {
    (s: State) => id in s.services || Gone(id)(s)
  }

  lemma DeletionLeavesNothing(s: State, id: string)
    requires ThereOrGone(id)(s)
    ensures Gone(id)(Perform(s, DeleteRow(id)).value)
  {
  }

  lemma GoneOnce(s: State, op: TableOp, id: string)
    requires !op.CreateRow? && !op.AddRow? && RaisesNothing(op, id) && Gone(id)(s) && Perform(s, op).Some?
    ensures Gone(id)(Perform(s, op).value)
  {
    hide RejectsNull, InputOf, Applied, Record.Patched;
    DetectKeepsServices(s, op);
  }

  lemma KeepsGone(op: TableOp, id: string)
    requires !op.CreateRow? && !op.AddRow? && RaisesNothing(op, id)
    ensures Keeps(op, Gone(id)) && Keeps(op, ThereOrGone(id))
  {
    var p, q := Gone(id), ThereOrGone(id);
    forall s | Perform(s, op).Some? && s.services.Keys >= {id} && op != DeleteRow(id)
      ensures id in Perform(s, op).value.services {
      KeysStay(s, op, id);
    }
    forall s | ThereOrGone(id)(s) ensures Perform(s, DeleteRow(id)).Some? ==> q(Perform(s, DeleteRow(id)).value) {
      DeletionLeavesNothing(s, id);
    }
    hide Gone, Perform;
    forall s | p(s) && Perform(s, op).Some? ensures p(Perform(s, op).value) {
      GoneOnce(s, op, id);
    }
  }

  lemma KeysStay(s: State, op: TableOp, id: string)
    requires id in s.services && op != DeleteRow(id) && Perform(s, op).Some?
    ensures id in Perform(s, op).value.services
  {
    hide CreatedColumns, MissesRequired, RejectsNull, InputOf, KeyTaken, Applied, Record.Patched;
    DetectKeepsServices(s, op);
    hide Detect, ResolveAll, ResolveOpenRemovals;
  }
}

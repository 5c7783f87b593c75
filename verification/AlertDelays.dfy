/** What a delay means for a team with one rule: which runs honour it, and which recoveries are announced. */
module AlertDelays {
  import opened Common
  import opened AlertService
  import opened AlertRuns
  import opened AlertBursts

  // ---------------------------------------------------------------------------
  // Runs under one rule
  // ---------------------------------------------------------------------------

  /** All along the run the team has just this rule and a channel. */
  ghost predicate RuledBy(run: seq<Occurrence>, rule: AlertRule) {
    && ClockOrdered(run)
    && forall i :: 0 <= i < |run| ==> run[i].w.teamId.Some? && run[i].w.rules == [rule] && run[i].w.channels != []
  }

  ghost predicate Unmuted(run: seq<Occurrence>) {
    forall i :: 0 <= i < |run| ==> !run[i].w.serviceMuted && !run[i].w.dependencyMuted
  }

  ghost predicate Under(run: seq<Occurrence>, rule: AlertRule) {
    RuledBy(run, rule) && Unmuted(run)
  }

  /** Step `m` is a status event for `key`. */
  ghost predicate StatusOf(o: Occurrence, key: string) {
    o.e.kind.StatusChange? && Key(o.e) == key
  }

  /**
   * Status events are emitted when a dependency's stored health flips
   * (server/src/stores/impl/DependencyStore.ts:218-220), so those of one key alternate.
   */
  ghost predicate Alternates(run: seq<Occurrence>) {
    forall i, j :: 0 <= i < j < |run| && StatusOf(run[i], Key(run[j].e)) && StatusOf(run[j], Key(run[j].e))
                   && (forall m :: i < m < j ==> !StatusOf(run[m], Key(run[j].e))) ==>
      run[i].e.kind != run[j].e.kind
  }

  /** Status events name a dependency, poll errors a service. */
  ghost predicate Receivable(run: seq<Occurrence>) {
    && Alternates(run)
    && (forall i :: 0 <= i < |run| ==> (run[i].e.kind.StatusChange? <==> run[i].e.dependencyId.Some?))
    && (forall i :: 0 <= i < |run| && run[i].e.dependencyId.Some? ==> run[i].e.dependencyId.value != "")
  }

  lemma UnmutedReaches(o: Occurrence, rule: AlertRule)
    requires o.w.teamId.Some? && o.w.rules == [rule] && o.w.channels != [] && !IsMuted(o.e, o.w)
    ensures if MatchesSeverity(rule.severityFilter, DetermineSeverity(o.e.kind))
            then Reaches(o) && RuleOf(o) == rule else Gate(o.e, o.w) == Some(NoMatchingRule)
  {
    var p := (r: AlertRule) => MatchesSeverity(r.severityFilter, DetermineSeverity(o.e.kind));
    assert [rule][1..] == [];
    assert Filter(p, []) == [];
  }

  lemma ReachesItsRule(o: Occurrence, rule: AlertRule)
    requires o.w.rules == [rule] && Reaches(o)
    ensures RuleOf(o) == rule && MatchesSeverity(rule.severityFilter, DetermineSeverity(o.e.kind))
  {
    var p := (r: AlertRule) => MatchesSeverity(r.severityFilter, DetermineSeverity(o.e.kind));
    FilterMember(p, [rule], RuleOf(o));
  }

  // ---------------------------------------------------------------------------
  // Which rules honour the delay
  // ---------------------------------------------------------------------------

  /** At step `j` the key has been unhealthy, without any recovery event, for at least `ms` since step `i`. */
  ghost predicate UnhealthySince(run: seq<Occurrence>, i: nat, j: nat, ms: int)
    requires j < |run|
  {
    && i < j && IsOutage(run[i].e) && Key(run[i].e) == Key(run[j].e) && run[j].now - run[i].now >= ms
    && forall m :: i < m < j ==> !(IsRecovery(run[m].e) && Key(run[m].e) == Key(run[j].e))
  }

  /** Outage alerts go out only for keys continuously unhealthy for the delay. */
  ghost predicate DelayMeansContinuous(run: seq<Occurrence>, delayMinutes: int) {
    forall j :: 0 <= j < |run| && IsOutage(run[j].e) && OutcomeAt(run, j) == Dispatched ==>
      exists i :: UnhealthySince(run, i, j, delayMinutes * 60000)
  }

  lemma AdmittingWarningsHonoursDelay(run: seq<Occurrence>, rule: AlertRule)
    requires Under(run, rule) && rule.alertDelayMinutes.Some? && rule.severityFilter != CriticalOnly
    ensures DelayMeansContinuous(run, rule.alertDelayMinutes.value)
  {
    hide Step, After;
    AllReach(run, rule);
    forall j | 0 <= j < |run| && IsOutage(run[j].e) && OutcomeAt(run, j) == Dispatched
      ensures exists i :: UnhealthySince(run, i, j, rule.alertDelayMinutes.value * 60000) {
      assert Crossed(run, j);
      var i := DelayHonoured(run, j);
      assert forall m :: i < m < j ==> !Recovers(run[m], Key(run[j].e));
      assert UnhealthySince(run, i, j, rule.alertDelayMinutes.value * 60000);
    }
  }

  const DEPENDENCY := "dep"

  function StatusAt(rule: AlertRule, healthy: bool, muted: bool, now: int): Occurrence {
    Occurrence(
      AlertEvent(StatusChange(healthy), "svc", Some(DEPENDENCY)), OneRule(rule).(dependencyMuted := muted), now)
  }

  /** When the delay of `minutes` that began at 0 is over. */
  function OverAt(minutes: int): int {
    if minutes < 0 then 0 else minutes * 60000
  }

  /** Outage, recovery, and a new outage once the delay has passed. */
  function Relapse(rule: AlertRule, delayMinutes: int): seq<Occurrence> {
    [StatusAt(rule, false, false, 0), StatusAt(rule, true, false, 0),
      StatusAt(rule, false, false, OverAt(delayMinutes))]
  }

  lemma RelapseIsDispatched(rule: AlertRule)
    requires rule.alertDelayMinutes.Some? && rule.severityFilter == CriticalOnly
    requires MaxPerHour(rule, OneRule(rule)) >= 1
    ensures OutcomeAt(Relapse(rule, rule.alertDelayMinutes.value), 2) == Dispatched
  {
    var run := Relapse(rule, rule.alertDelayMinutes.value);
    var s1 := INITIAL.(delayTracker := map[DEPENDENCY := 0]);
    assert After(run[..1]) == s1 by {
      AfterStep(run, 0);
      assert run[..0] == [];
      StepOfOneRule(INITIAL, run[0], rule);
    }
    assert After(run[..2]) == s1 by {
      AfterStep(run, 1);
      UnmutedReaches(run[1], rule);
    }
    StepOfOneRule(s1, run[2], rule);
  }

  lemma RelapseNotContinuous(rule: AlertRule, delayMinutes: int)
    requires OutcomeAt(Relapse(rule, delayMinutes), 2) == Dispatched
    ensures !DelayMeansContinuous(Relapse(rule, delayMinutes), delayMinutes)
  {
    hide OutcomeAt;
    var run := Relapse(rule, delayMinutes);
    assert IsRecovery(run[1].e) && !IsOutage(run[1].e) && Key(run[1].e) == Key(run[2].e);
    forall i: nat ensures !UnhealthySince(run, i, 2, delayMinutes * 60000) {
      assert i == 0 || i == 1 || i >= 2;
    }
    assert IsOutage(run[2].e);
  }

  /**
   * A delay means continuously unhealthy, over every run of a rule that can alert at all, exactly when the rule admits
   * warnings: recoveries are warnings, and a critical-only rule drops them before the delay is reset.
   */
  lemma DelayHonouredExactlyWhenWarningsAdmitted(rule: AlertRule)
    requires rule.alertDelayMinutes.Some? && MaxPerHour(rule, OneRule(rule)) >= 1
    ensures (forall run :: Under(run, rule) ==> DelayMeansContinuous(run, rule.alertDelayMinutes.value))
            <==> rule.severityFilter != CriticalOnly
  {
    if rule.severityFilter != CriticalOnly {
      forall run | Under(run, rule) ensures DelayMeansContinuous(run, rule.alertDelayMinutes.value) {
        AdmittingWarningsHonoursDelay(run, rule);
      }
    } else {
      var run := Relapse(rule, rule.alertDelayMinutes.value);
      RelapseIsDispatched(rule);
      assert Under(run, rule);
      RelapseNotContinuous(rule, rule.alertDelayMinutes.value);
    }
  }

  // ---------------------------------------------------------------------------
  // A delay on alternating events
  // ---------------------------------------------------------------------------

  /** Between two outages of a key there is a recovery of it. */
  lemma RecoveryBetween(run: seq<Occurrence>, i: nat, j: nat) returns (m: nat)
    requires Alternates(run) && i < j < |run| && IsOutage(run[i].e) && IsOutage(run[j].e)
    requires Key(run[i].e) == Key(run[j].e)
    ensures i < m < j && IsRecovery(run[m].e) && Key(run[m].e) == Key(run[j].e)
    decreases j - i
  {
    assert StatusOf(run[i], Key(run[j].e)) && StatusOf(run[j], Key(run[j].e));
    m :| i < m < j && StatusOf(run[m], Key(run[j].e));
    if IsOutage(run[m].e) {
      m := RecoveryBetween(run, i, m);
    }
  }

  /** Step `i` holds the status event of the key of step `j` that came right before it. */
  ghost predicate PreviousStatus(run: seq<Occurrence>, i: nat, j: nat)
    requires j < |run|
  {
    i < j && StatusOf(run[i], Key(run[j].e)) && forall m :: i < m < j ==> !StatusOf(run[m], Key(run[j].e))
  }

  /**
   * Where status events alternate, a rule that admits warnings and has a delay, however short, never announces an
   * outage of an unmuted dependency: each only starts the delay ...
   */
  lemma DelaySilencesOutages(run: seq<Occurrence>, rule: AlertRule, j: nat)
    requires Under(run, rule) && Alternates(run) && rule.alertDelayMinutes.Some? && rule.severityFilter != CriticalOnly
    requires j < |run| && IsOutage(run[j].e)
    ensures OutcomeAt(run, j) == DelayStarted
  {
    hide Step, After;
    AllReach(run, rule);
    NothingCrosses(run, rule);
    DelayedOutcomes(After(run[..j]), run[j]);
    PendingIsTracked(After(run[..j]), run[j]);
    assert !Crossed(run, j);
    if OutcomeAt(run, j) == DelayPending {
      var i := TrackedSince(run, Key(run[j].e), j);
      OutagesAreSeparated(run, i, j);
      assert false;
    }
  }

  /** ... and the recovery after it is silent. */
  lemma DelaySilencesRecoveries(run: seq<Occurrence>, rule: AlertRule, i: nat, j: nat)
    requires Under(run, rule) && Alternates(run) && rule.alertDelayMinutes.Some? && rule.severityFilter != CriticalOnly
    requires j < |run| && IsRecovery(run[j].e) && PreviousStatus(run, i, j)
    ensures OutcomeAt(run, j) == SilentRecovery
  {
    hide Step, After, OutcomeAt;
    AllReach(run, rule);
    NothingCrosses(run, rule);
    var key := Key(run[j].e);
    assert StatusOf(run[j], key);
    assert IsOutage(run[i].e);
    assert OutageSince(run, key, i, j);
    SilentExactlyBelowThreshold(run, j);
  }

  lemma AllReach(run: seq<Occurrence>, rule: AlertRule)
    requires Under(run, rule) && rule.severityFilter != CriticalOnly
    ensures forall m :: 0 <= m < |run| ==> Reaches(run[m]) && RuleOf(run[m]) == rule
  {
    forall m | 0 <= m < |run| ensures Reaches(run[m]) && RuleOf(run[m]) == rule {
      UnmutedReaches(run[m], rule);
    }
  }

  lemma NothingCrosses(run: seq<Occurrence>, rule: AlertRule)
    requires Alternates(run) && forall m :: 0 <= m < |run| ==> Reaches(run[m]) && RuleOf(run[m]) == rule
    ensures forall j :: 0 <= j < |run| ==> !Crossed(run, j)
  {
    hide Step, After, OutcomeAt;
    forall j | 0 <= j < |run| ensures !Crossed(run, j) {
      if Crossed(run, j) {
        var i := DelayHonoured(run, j);
        OutagesAreSeparated(run, i, j);
        assert false;
      }
    }
  }

  lemma OutagesAreSeparated(run: seq<Occurrence>, i: nat, j: nat)
    requires Alternates(run) && i < j < |run| && IsOutage(run[i].e) && IsOutage(run[j].e)
    requires Key(run[i].e) == Key(run[j].e) && forall m :: i < m < j ==> Reaches(run[m])
    ensures !NoRecovery(run, Key(run[j].e), i, j)
  {
    var m := RecoveryBetween(run, i, j);
    assert Recovers(run[m], Key(run[j].e));
  }

  lemma DelayedOutcomes(s: EngineState, o: Occurrence)
    requires Delayed(o)
    ensures var outcome := Step(s, o.e, o.w, o.now).1;
            outcome == DelayStarted || outcome == DelayPending || outcome == FlapSuppressed || outcome == RateSuppressed
            || outcome == Dispatched
  {
  }

  lemma PendingIsTracked(s: EngineState, o: Occurrence)
    requires Delayed(o)
    ensures Step(s, o.e, o.w, o.now).1 == DelayPending ==> Key(o.e) in s.delayTracker
  {
  }

  // ---------------------------------------------------------------------------
  // Announced recoveries of outages that were not announced
  // ---------------------------------------------------------------------------

  /** Since the last recovery that reached the delay check an outage of the key was dispatched. */
  ghost predicate AnnouncedSince(run: seq<Occurrence>, key: string, j: nat)
    requires j <= |run|
  {
    exists i :: 0 <= i < j && IsOutage(run[i].e) && Key(run[i].e) == key && OutcomeAt(run, i) == Dispatched
                && NoRecovery(run, key, i, j)
  }

  /** Every outage of the key met the delay check with a delay, if it met it at all. */
  ghost predicate AlwaysDelayed(run: seq<Occurrence>, key: string, j: nat)
    requires j <= |run|
  {
    forall i :: 0 <= i < j && Reaches(run[i]) && IsOutage(run[i].e) && Key(run[i].e) == key ==> Delayed(run[i])
  }

  ghost predicate Suppresses(outcome: Outcome) {
    outcome == FlapSuppressed || outcome == RateSuppressed
  }

  /**
   * With a delay configured and an outage tracked, the recovery is announced although the outage was not, exactly when
   * some event of the outage crossed the threshold and every one that did was suppressed by flap protection or rate
   * limit.
   */
  lemma UnannouncedOutageExactly(run: seq<Occurrence>, j: nat)
    requires j < |run| && Reaches(run[j]) && IsRecovery(run[j].e) && RuleOf(run[j]).alertDelayMinutes.Some?
    requires AlwaysDelayed(run, Key(run[j].e), j) && exists i :: OutageSince(run, Key(run[j].e), i, j)
    ensures OutcomeAt(run, j) == Dispatched && !AnnouncedSince(run, Key(run[j].e), j) <==>
            && (exists i :: OutageSince(run, Key(run[j].e), i, j) && Crossed(run, i))
            && (forall i :: OutageSince(run, Key(run[j].e), i, j) && Crossed(run, i) ==> Suppresses(OutcomeAt(run, i)))
  {
    hide After, OutcomeAt, Step;
    var key := Key(run[j].e);
    RecoveriesPass(run, j);
    SilentExactlyBelowThreshold(run, j);
    forall i | OutageSince(run, key, i, j) && Crossed(run, i)
      ensures Suppresses(OutcomeAt(run, i)) || OutcomeAt(run, i) == Dispatched {
      CrossedOutcomes(run, i);
    }
    if i :| 0 <= i < j && IsOutage(run[i].e) && Key(run[i].e) == key && OutcomeAt(run, i) == Dispatched
            && NoRecovery(run, key, i, j) {
      DispatchReaches(run, i);
      assert Crossed(run, i) && OutageSince(run, key, i, j);
    }
  }

  lemma CrossedOutcomes(run: seq<Occurrence>, i: nat)
    requires i < |run| && Crossed(run, i)
    ensures Suppresses(OutcomeAt(run, i)) || OutcomeAt(run, i) == Dispatched
  {
    DelayedOutcomes(After(run[..i]), run[i]);
  }

  lemma DispatchReaches(run: seq<Occurrence>, i: nat)
    requires i < |run| && OutcomeAt(run, i) == Dispatched
    ensures Reaches(run[i])
  {
  }

  /** Every announced recovery of a tracked outage follows an announcement of that outage. */
  ghost predicate RecoveriesFollowOutages(run: seq<Occurrence>) {
    forall j :: 0 <= j < |run| && IsRecovery(run[j].e) && OutcomeAt(run, j) == Dispatched
                && (exists i :: OutageSince(run, Key(run[j].e), i, j)) ==>
      AnnouncedSince(run, Key(run[j].e), j)
  }

  /** As many alerts as the rule's limit allows. */
  function Allowance(rule: AlertRule): nat {
    var limit := MaxPerHour(rule, OneRule(rule));
    if limit < 0 then 0 else limit
  }

  /**
   * An outage, a muted recovery, alerts of other services that use up the limit, the outage again once its delay is
   * over, and the recovery.
   */
  function Crowded(rule: AlertRule, now: int): seq<Occurrence> {
    [StatusAt(rule, false, false, 0), StatusAt(rule, true, true, 0)] + Burst(rule, 0, Allowance(rule), now)
    + [StatusAt(rule, false, false, now), StatusAt(rule, true, false, now)]
  }

  lemma CrowdedEvents(rule: AlertRule, now: int)
    requires now >= 0
    ensures var run, n := Crowded(rule, now), Allowance(rule);
            && |run| == n + 4 && IsBurst(run, 2, n, rule, 0, now)
            && run[0] == StatusAt(rule, false, false, 0) && run[1] == StatusAt(rule, true, true, 0)
            && run[n + 2] == StatusAt(rule, false, false, now) && run[n + 3] == StatusAt(rule, true, false, now)
            && (forall i :: 2 <= i < n + 2 ==> run[i] == PollErrorOf(rule, i - 2, now))
  {
    hide MaxPerHour;
  }

  lemma CrowdedOutages(rule: AlertRule, now: int, i: nat)
    requires now >= 0 && i < |Crowded(rule, now)|
    ensures IsOutage(Crowded(rule, now)[i].e) <==> i == 0 || i == Allowance(rule) + 2
  {
    hide Crowded, Allowance, Burst;
    CrowdedEvents(rule, now);
    if 2 <= i < Allowance(rule) + 2 {
      assert Crowded(rule, now)[i] == PollErrorOf(rule, i - 2, now);
    }
  }

  lemma CrowdedReceivable(rule: AlertRule, now: int)
    requires now >= 0
    ensures RuledBy(Crowded(rule, now), rule) && Receivable(Crowded(rule, now))
  {
    hide Burst, Allowance, Crowded;
    var run, n := Crowded(rule, now), Allowance(rule);
    CrowdedEvents(rule, now);
    forall i | 0 <= i < |run|
      ensures (run[i].e.kind.StatusChange? <==> run[i].e.dependencyId.Some?)
      ensures run[i].e.kind.StatusChange? <==> i == 0 || i == 1 || i == n + 2 || i == n + 3
      ensures run[i].w.teamId.Some? && run[i].w.rules == [rule] && run[i].w.channels != []
      ensures run[i].now == if i < 2 then 0 else now
      ensures run[i].e.dependencyId.Some? ==> run[i].e.dependencyId.value == DEPENDENCY {
      assert i < 2 || i == n + 2 || i == n + 3 || run[i] == PollErrorOf(rule, i - 2, now);
    }
    assert StatusOf(run[1], DEPENDENCY) && StatusOf(run[n + 2], DEPENDENCY);
  }

  /** The state before the second outage: the first is tracked, the limit is used up, the dependency is not alerted. */
  lemma CrowdedBeforeOutage(rule: AlertRule, now: int)
    requires now >= 0 && rule.alertDelayMinutes.Some? && rule.severityFilter != CriticalOnly
    ensures var run, n := Crowded(rule, now), Allowance(rule);
            var s := After(run[..n + 2]);
            && s.delayTracker == map[DEPENDENCY := 0] && s.delayAlertSent == {} && DEPENDENCY !in s.lastAlertTimes
            && InForce(EntryOf(s, "team"), now).count >= MaxPerHour(rule, OneRule(rule))
            && OutcomeAt(run, 0) == DelayStarted && OutcomeAt(run, 1) == Muted
            && forall i :: 2 <= i < n + 2 ==> OutcomeAt(run, i) == Dispatched
  {
    var run, n := Crowded(rule, now), Allowance(rule);
    CrowdedEvents(rule, now);
    hide Crowded, Allowance, Burst;
    var s1 := INITIAL.(delayTracker := map[DEPENDENCY := 0]);
    assert After(run[..1]) == s1 && OutcomeAt(run, 0) == DelayStarted by {
      AfterStep(run, 0);
      assert run[..0] == [];
      StepOfOneRule(INITIAL, run[0], rule);
    }
    assert After(run[..2]) == s1 && OutcomeAt(run, 1) == Muted by {
      AfterStep(run, 1);
      MutedStep(s1, run[1], rule);
    }
    hide After, OutcomeAt, MaxPerHour;
    AllowanceIsLimit(rule);
    if n > 0 {
      BurstDispatched(run, 2, n, rule, 0, now);
    }
    forall i | 0 <= i < n ensures ServiceName(i) != DEPENDENCY {
      assert ServiceName(i)[0] == 's';
    }
  }

  lemma AllowanceIsLimit(rule: AlertRule)
    ensures MaxPerHour(rule, OneRule(rule)) <= Allowance(rule)
    ensures Allowance(rule) > 0 ==> Allowance(rule) == MaxPerHour(rule, OneRule(rule))
  {
  }

  lemma MutedStep(s: EngineState, o: Occurrence, rule: AlertRule)
    requires o == StatusAt(rule, true, true, o.now) && rule.severityFilter != CriticalOnly
    ensures Step(s, o.e, o.w, o.now) == (s, Muted)
  {
    var p := (r: AlertRule) => MatchesSeverity(r.severityFilter, DetermineSeverity(o.e.kind));
    assert Filter(p, [rule]) == [rule] + Filter(p, [rule][1..]);
  }

  /**
   * A key counts as alerted once its delay is over, before flap protection and rate limit decide.  For every rule that
   * admits warnings and has a delay, some receivable run announces the recovery of an outage that was rate-limited.
   */
  lemma RecoveryOfUnannouncedOutage(rule: AlertRule)
    requires rule.alertDelayMinutes.Some? && rule.severityFilter != CriticalOnly
    ensures var run, n := Crowded(rule, OverAt(rule.alertDelayMinutes.value)), Allowance(rule);
            && RuledBy(run, rule) && Receivable(run) && |run| == n + 4
            && OutcomeAt(run, 0) == DelayStarted && OutcomeAt(run, 1) == Muted
            && OutcomeAt(run, n + 2) == RateSuppressed && OutcomeAt(run, n + 3) == Dispatched
  {
    var now := OverAt(rule.alertDelayMinutes.value);
    CrowdedReceivable(rule, now);
    CrowdedEvents(rule, now);
    CrowdedBeforeOutage(rule, now);
    hide *;
    SuppressedThenAnnounced(Crowded(rule, now), Allowance(rule) + 2, rule, now);
  }

  /** A tracked outage, the limit used up, the delay over: the outage is rate-limited, its recovery announced. */
  lemma SuppressedThenAnnounced(run: seq<Occurrence>, m: nat, rule: AlertRule, now: int)
    requires rule.alertDelayMinutes.Some? && rule.severityFilter != CriticalOnly
    requires m + 2 <= |run| && now == OverAt(rule.alertDelayMinutes.value)
    requires run[m] == StatusAt(rule, false, false, now) && run[m + 1] == StatusAt(rule, true, false, now)
    requires var s := After(run[..m]);
             && s.delayTracker == map[DEPENDENCY := 0] && DEPENDENCY !in s.lastAlertTimes
             && InForce(EntryOf(s, "team"), now).count >= MaxPerHour(rule, OneRule(rule))
    ensures OutcomeAt(run, m) == RateSuppressed && OutcomeAt(run, m + 1) == Dispatched
  {
    hide After, MaxPerHour, Step, StatusAt, EntryOf, OverAt, InForce;
    OutageRateLimited(After(run[..m]), rule, now);
    AfterStep(run, m);
    RecoveryAnnounced(After(run[..m + 1]), rule, now);
  }

  lemma OutageRateLimited(s: EngineState, rule: AlertRule, now: int)
    requires rule.alertDelayMinutes.Some? && now == OverAt(rule.alertDelayMinutes.value)
    requires s.delayTracker == map[DEPENDENCY := 0] && DEPENDENCY !in s.lastAlertTimes
    requires InForce(EntryOf(s, "team"), now).count >= MaxPerHour(rule, OneRule(rule))
    ensures var o := StatusAt(rule, false, false, now);
            var (s', outcome) := Step(s, o.e, o.w, o.now);
            outcome == RateSuppressed && DEPENDENCY in s'.delayAlertSent
  {
    StepOfOneRule(s, StatusAt(rule, false, false, now), rule);
  }

  lemma RecoveryAnnounced(s: EngineState, rule: AlertRule, now: int)
    requires rule.severityFilter != CriticalOnly && DEPENDENCY in s.delayAlertSent
    ensures var o := StatusAt(rule, true, false, now); Step(s, o.e, o.w, o.now).1 == Dispatched
  {
    StepOfOneRule(s, StatusAt(rule, true, false, now), rule);
  }

  lemma OutageIsDelayed(rule: AlertRule, now: int)
    requires rule.alertDelayMinutes.Some?
    ensures Delayed(StatusAt(rule, false, false, now)) && Key(StatusAt(rule, false, false, now).e) == DEPENDENCY
    ensures Key(StatusAt(rule, true, false, now).e) == DEPENDENCY && IsRecovery(StatusAt(rule, true, false, now).e)
  {
    UnmutedReaches(StatusAt(rule, false, false, now), rule);
  }

  lemma NeverAnnounced(run: seq<Occurrence>, key: string, j: nat)
    requires j <= |run| && forall i :: 0 <= i < j && IsOutage(run[i].e) ==> OutcomeAt(run, i) != Dispatched
    ensures !AnnouncedSince(run, key, j)
  {
    hide OutcomeAt;
  }

  lemma CrowdedNeverDispatches(rule: AlertRule, now: int, i: nat)
    requires now >= 0 && i < Allowance(rule) + 3 && IsOutage(Crowded(rule, now)[i].e)
    requires OutcomeAt(Crowded(rule, now), 0) == DelayStarted
    requires OutcomeAt(Crowded(rule, now), Allowance(rule) + 2) == RateSuppressed
    ensures OutcomeAt(Crowded(rule, now), i) != Dispatched
  {
    hide OutcomeAt, Crowded, Allowance, Burst, StatusAt;
    CrowdedEvents(rule, now);
    CrowdedOutages(rule, now, i);
  }

  /** A dispatched recovery right after a tracked outage, with no outage dispatched. */
  lemma BreaksPromise(run: seq<Occurrence>, m: nat)
    requires m + 1 < |run| && Delayed(run[m]) && IsRecovery(run[m + 1].e) && Key(run[m].e) == Key(run[m + 1].e)
    requires OutcomeAt(run, m + 1) == Dispatched && !AnnouncedSince(run, Key(run[m + 1].e), m + 1)
    ensures !RecoveriesFollowOutages(run)
  {
    hide OutcomeAt, AnnouncedSince, Delayed;
    assert Delayed(run[m]);
    var key := Key(run[m + 1].e);
    assert OutageSince(run, key, m, m + 1) by { OutageJustBefore(run, m); }
  }

  lemma OutageJustBefore(run: seq<Occurrence>, m: nat)
    requires m + 1 <= |run| && Delayed(run[m])
    ensures OutageSince(run, Key(run[m].e), m, m + 1)
  {
  }

  /** In that run the outage is tracked and never dispatched. */
  lemma CrowdedBreaksPromise(rule: AlertRule)
    requires rule.alertDelayMinutes.Some? && rule.severityFilter != CriticalOnly
    ensures !RecoveriesFollowOutages(Crowded(rule, OverAt(rule.alertDelayMinutes.value)))
  {
    var now := OverAt(rule.alertDelayMinutes.value);
    var run, n := Crowded(rule, now), Allowance(rule);
    RecoveryOfUnannouncedOutage(rule);
    CrowdedEvents(rule, now);
    OutageIsDelayed(rule, now);
    hide *;
    forall i | 0 <= i < n + 3 && IsOutage(run[i].e) ensures OutcomeAt(run, i) != Dispatched {
      CrowdedNeverDispatches(rule, now, i);
    }
    NeverAnnounced(run, DEPENDENCY, n + 3);
    BreaksPromise(run, n + 2);
  }

  /**
   * Over the receivable runs of a rule with a delay, announced recoveries follow announced outages exactly when the
   * rule is critical-only, which announces no recovery at all.
   */
  lemma RecoveriesFollowOutagesExactlyWhenCriticalOnly(rule: AlertRule)
    requires rule.alertDelayMinutes.Some?
    ensures (forall run :: RuledBy(run, rule) && Receivable(run) ==> RecoveriesFollowOutages(run))
            <==> rule.severityFilter == CriticalOnly
  {
    hide OutcomeAt, Receivable, Crowded;
    if rule.severityFilter == CriticalOnly {
      forall run: seq<Occurrence> | RuledBy(run, rule) ensures RecoveriesFollowOutages(run) {
        forall j | 0 <= j < |run| && IsRecovery(run[j].e) ensures OutcomeAt(run, j) != Dispatched {
          if OutcomeAt(run, j) == Dispatched {
            DispatchReaches(run, j);
            ReachesItsRule(run[j], rule);
          }
        }
      }
    } else {
      CrowdedReceivable(rule, OverAt(rule.alertDelayMinutes.value));
      CrowdedBreaksPromise(rule);
    }
  }
}

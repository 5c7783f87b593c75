/** How every event of a run ends, told by the events before it, the rules' own minutes and limits, and the clock. */
module AlertDecisions {
  import opened Common
  import opened AlertLimits
  import opened AlertService
  import opened AlertRuns

  // ---------------------------------------------------------------------------
  // Events, rules and settings
  // ---------------------------------------------------------------------------

  /** What alerts are tracked by: the dependency, when the event names one, else the service. */
  function Subject(e: AlertEvent): string {
    match e.dependencyId
    case None => e.serviceId
    case Some(id) => if |id| > 0 then id else e.serviceId
  }

  predicate TurnsHealthy(e: AlertEvent) {
    match e.kind
    case StatusChange(healthy) => healthy
    case PollError => false
  }

  predicate TurnsUnhealthy(e: AlertEvent) {
    match e.kind
    case StatusChange(healthy) => !healthy
    case PollError => false
  }

  /** Only news of recovery is a warning, and only rules for critical events pass it over. */
  predicate Admits(r: AlertRule, e: AlertEvent) {
    match r.severityFilter
    case CriticalOnly => !TurnsHealthy(e)
    case AllSeverities => true
    case WarningAndAbove => true
  }

  /** The event is under a mute: of its service, for a poll error, or of the dependency it names. */
  predicate UnderMute(o: Occurrence) {
    || (o.e.kind == PollError && o.w.serviceMuted)
    || (o.w.dependencyMuted && match o.e.dependencyId case None => false case Some(id) => |id| > 0)
  }

  /** The rule that decides: the first that admits the event. */
  ghost predicate Decides(o: Occurrence, r: AlertRule) {
    exists k :: 0 <= k < |o.w.rules| && o.w.rules[k] == r && Admits(r, o.e)
                && forall l :: 0 <= l < k ==> !Admits(o.w.rules[l], o.e)
  }

  function CooldownMinutes(r: AlertRule, w: World): int {
    match r.cooldownMinutes
    case Some(own) => if r.useCustomThresholds then own else w.defaultCooldownMinutes
    case None => w.defaultCooldownMinutes
  }

  function HourlyLimit(r: AlertRule, w: World): int {
    match r.rateLimitPerHour
    case Some(own) => if r.useCustomThresholds then own else w.defaultRatePerHour
    case None => w.defaultRatePerHour
  }

  lemma SameWords(o: Occurrence, r: AlertRule)
    ensures Subject(o.e) == Key(o.e) && TurnsHealthy(o.e) == IsRecovery(o.e) && TurnsUnhealthy(o.e) == IsOutage(o.e)
    ensures UnderMute(o) == IsMuted(o.e, o.w)
    ensures Admits(r, o.e) == MatchesSeverity(r.severityFilter, DetermineSeverity(o.e.kind))
    ensures CooldownMinutes(r, o.w) * 60000 == CooldownMs(r, o.w) && HourlyLimit(r, o.w) == MaxPerHour(r, o.w)
  {
  }

  lemma {:induction false} FirstKept<T>(p: T -> bool, xs: seq<T>)
    ensures Filter(p, xs) == [] <==> forall x :: x in xs ==> !p(x)
    ensures Filter(p, xs) != [] ==>
      exists k :: 0 <= k < |xs| && xs[k] == Filter(p, xs)[0] && p(xs[k]) && forall l :: 0 <= l < k ==> !p(xs[l])
  {
    if xs != [] {
      FirstKept(p, xs[1..]);
      assert xs == [xs[0]] + xs[1..];
      if p(xs[0]) {
        assert xs[0] in xs;
      } else if Filter(p, xs[1..]) != [] {
        var k :| 0 <= k < |xs[1..]| && xs[1..][k] == Filter(p, xs[1..])[0] && p(xs[1..][k])
                 && forall l :: 0 <= l < k ==> !p(xs[1..][l]);
        assert xs[k + 1] == xs[1..][k];
        forall l | 0 <= l < k + 1 ensures !p(xs[l]) {
          assert l > 0 ==> xs[l] == xs[1..][l - 1];
        }
      }
    }
  }

  /** Some rule decides exactly when one admits the event, and there is only one such. */
  lemma MatchingRuleDecides(o: Occurrence)
    ensures MatchingRules(o.e, o.w) == [] <==> forall r :: r in o.w.rules ==> !Admits(r, o.e)
    ensures MatchingRules(o.e, o.w) != [] ==> Decides(o, MatchingRules(o.e, o.w)[0])
    ensures forall r :: Decides(o, r) ==> MatchingRules(o.e, o.w) != [] && MatchingRules(o.e, o.w)[0] == r
  {
    var p := (r: AlertRule) => MatchesSeverity(r.severityFilter, DetermineSeverity(o.e.kind));
    assert MatchingRules(o.e, o.w) == Filter(p, o.w.rules);
    FirstKept(p, o.w.rules);
    forall r ensures Admits(r, o.e) == p(r) {
      SameWords(o, r);
    }
    hide Admits, MatchesSeverity, DetermineSeverity, Filter, MatchingRules;
  }

  /** Nothing stops the event before the delay check, and the rule decides about it. */
  ghost predicate Considered(o: Occurrence, r: AlertRule) {
    o.w.teamId.Some? && Decides(o, r) && o.w.channels != [] && !UnderMute(o)
  }

  /** Where an event stops that is not considered, and that every other is. */
  lemma GatesInOrder(run: seq<Occurrence>, i: nat)
    requires i < |run|
    ensures var o, outcome := run[i], OutcomeAt(run, i);
            && (outcome == ServiceNotFound <==> o.w.teamId.None?)
            && (outcome == NoRules <==> o.w.teamId.Some? && o.w.rules == [])
            && (outcome == NoMatchingRule <==>
                  o.w.teamId.Some? && o.w.rules != [] && forall r :: r in o.w.rules ==> !Admits(r, o.e))
            && (outcome == NoChannels <==>
                  o.w.teamId.Some? && (exists r :: Decides(o, r)) && o.w.channels == [])
            && (outcome == Muted <==>
                  o.w.teamId.Some? && (exists r :: Decides(o, r)) && o.w.channels != [] && UnderMute(o))
            && (Reaches(o) <==> exists r :: Considered(o, r))
            && (forall r :: Considered(o, r) ==> Reaches(o) && RuleOf(o) == r)
  {
    var o := run[i];
    SameWords(o, OwnRule());
    MatchingRuleDecides(o);
    hide Decides, Admits, MatchingRules, After, UnderMute, IsMuted;
    if MatchingRules(o.e, o.w) != [] {
      var r := MatchingRules(o.e, o.w)[0];
      assert Decides(o, r);
      assert Considered(o, r) <==> Reaches(o) by { assert o.w.rules != [] by { DecidingIsRule(o, r); } }
    }
    forall r | Decides(o, r) ensures o.w.rules != [] {
      DecidingIsRule(o, r);
    }
  }

  function OwnRule(): AlertRule {
    AlertRule(AllSeverities, false, None, None, None)
  }

  lemma DecidingIsRule(o: Occurrence, r: AlertRule)
    requires Decides(o, r)
    ensures r in o.w.rules && Admits(r, o.e)
  {
    hide Admits;
  }

  // ---------------------------------------------------------------------------
  // Delay
  // ---------------------------------------------------------------------------

  /** The event got past the gates and the delay check. */
  predicate PastDelay(outcome: Outcome) {
    outcome == FlapSuppressed || outcome == RateSuppressed || outcome == Dispatched
  }

  /** A change to unhealthy that is considered under a delay. */
  ghost predicate Waits(o: Occurrence) {
    TurnsUnhealthy(o.e) && exists r :: Considered(o, r) && r.alertDelayMinutes.Some?
  }

  /** Step `i` began or continued an outage of the subject that no considered recovery has ended before step `n`. */
  ghost predicate OutageLasts(run: seq<Occurrence>, subject: string, i: nat, n: nat)
    requires n <= |run|
  {
    && i < n && Waits(run[i]) && Subject(run[i].e) == subject
    && forall m :: i <= m < n ==>
         !(TurnsHealthy(run[m].e) && Subject(run[m].e) == subject && exists r :: Considered(run[m], r))
  }

  lemma WaitsIsDelayed(run: seq<Occurrence>, i: nat)
    requires i < |run|
    ensures Waits(run[i]) <==> Delayed(run[i])
    ensures (exists r :: Considered(run[i], r)) <==> Reaches(run[i])
    ensures Subject(run[i].e) == Key(run[i].e) && TurnsHealthy(run[i].e) == IsRecovery(run[i].e)
  {
    SameWords(run[i], OwnRule());
    GatesInOrder(run, i);
    hide Considered, RuleOf, Reaches;
    if Reaches(run[i]) {
      var r :| Considered(run[i], r);
      assert RuleOf(run[i]) == r;
    }
  }

  lemma OutageLastsIs(run: seq<Occurrence>, subject: string, i: nat, n: nat)
    requires n <= |run|
    ensures OutageLasts(run, subject, i, n) <==> OutageSince(run, subject, i, n)
    ensures OutageLasts(run, subject, i, n) ==> i < n
  {
    hide Considered, Waits, Delayed, Reaches, Subject, TurnsHealthy;
    forall m | 0 <= m < n
      ensures Waits(run[m]) <==> Delayed(run[m])
      ensures (exists r :: Considered(run[m], r)) <==> Reaches(run[m])
      ensures Subject(run[m].e) == Key(run[m].e) && TurnsHealthy(run[m].e) == IsRecovery(run[m].e) {
      WaitsIsDelayed(run, m);
    }
  }

  /** The tracker holds a time no later than that of any event of the outage that lasts. */
  lemma {:induction false} TrackedEarliest(run: seq<Occurrence>, key: string, i: nat, n: nat)
    requires ClockOrdered(run) && i < n <= |run| && OutageSince(run, key, i, n)
    ensures var tracker := After(run[..n]).delayTracker; key in tracker && tracker[key] <= run[i].now
  {
    hide Step, After, Delayed, Recovers, ClockOrdered;
    var s, o := After(run[..n - 1]), run[n - 1];
    AfterStep(run, n - 1);
    DelayKnowledgeStep(s, o, key);
    if i < n - 1 {
      TrackedEarliest(run, key, i, n - 1);
      assert !Recovers(o, key);
    } else if key in s.delayTracker {
      TrackedInPast(run, key, n - 1);
    }
  }

  lemma TrackedInPast(run: seq<Occurrence>, key: string, n: nat)
    requires ClockOrdered(run) && n < |run| && key in After(run[..n]).delayTracker
    ensures After(run[..n]).delayTracker[key] <= run[n].now
  {
    hide After, Delayed, NoRecovery;
    var l := TrackedSince(run, key, n);
  }

  /**
   * A change to unhealthy under a delay of N minutes: it starts the wait when no outage lasts, waits while every event
   * of the one that lasts is younger than N minutes, and gets past the delay otherwise.
   */
  lemma DelayInMinutes(run: seq<Occurrence>, j: nat, r: AlertRule)
    requires ClockOrdered(run) && j < |run| && Considered(run[j], r) && TurnsUnhealthy(run[j].e)
    requires r.alertDelayMinutes.Some?
    ensures var subject, outcome := Subject(run[j].e), OutcomeAt(run, j);
            && (outcome == DelayStarted <==> !exists i: nat :: OutageLasts(run, subject, i, j))
            && (outcome == DelayPending <==>
                  && (exists i: nat :: OutageLasts(run, subject, i, j))
                  && forall i: nat :: i < j && OutageLasts(run, subject, i, j) ==>
                       run[j].now - run[i].now < r.alertDelayMinutes.value * 60000)
            && (outcome == DelayStarted || outcome == DelayPending || PastDelay(outcome))
  {
    hide Considered, OutageLasts, OutageSince, After, Step, Delayed, Decides;
    GatesInOrder(run, j);
    WaitsIsDelayed(run, j);
    assert Waits(run[j]);
    var key, s := Key(run[j].e), After(run[..j]);
    forall i: nat
      ensures OutageLasts(run, key, i, j) <==> OutageSince(run, key, i, j)
      ensures OutageLasts(run, key, i, j) ==> i < j {
      OutageLastsIs(run, key, i, j);
    }
    DelayByState(s, run[j]);
    forall i: nat | i < j && OutageSince(run, key, i, j)
      ensures key in s.delayTracker && s.delayTracker[key] <= run[i].now {
      TrackedEarliest(run, key, i, j);
    }
    if key in s.delayTracker {
      var i := TrackedSince(run, key, j);
      TrackedIsOutage(run, key, i, j);
      assert OutageLasts(run, key, i, j);
    }
  }

  lemma TrackedIsOutage(run: seq<Occurrence>, key: string, i: nat, n: nat)
    requires i < n <= |run| && Delayed(run[i]) && Key(run[i].e) == key && NoRecovery(run, key, i, n)
    ensures OutageSince(run, key, i, n)
  {
  }

  lemma DelayByState(s: EngineState, o: Occurrence)
    requires Delayed(o)
    ensures var outcome, tracker := Step(s, o.e, o.w, o.now).1, s.delayTracker;
            && (outcome == DelayStarted <==> Key(o.e) !in tracker)
            && (outcome == DelayPending <==>
                  Key(o.e) in tracker && o.now - tracker[Key(o.e)] < RuleOf(o).alertDelayMinutes.value * 60000)
            && (outcome == DelayStarted || outcome == DelayPending || PastDelay(outcome))
  {
  }

  /** A poll error, and an event under a rule without a delay, is not held back by it. */
  lemma OthersDoNotWait(run: seq<Occurrence>, j: nat, r: AlertRule)
    requires j < |run| && Considered(run[j], r) && !TurnsHealthy(run[j].e)
    requires !(TurnsUnhealthy(run[j].e) && r.alertDelayMinutes.Some?)
    ensures PastDelay(OutcomeAt(run, j))
  {
    GatesInOrder(run, j);
    SameWords(run[j], r);
    hide Considered, After;
  }

  /** Of the outage that lasts, some event got past the delay check. */
  ghost predicate OutageCrossed(run: seq<Occurrence>, subject: string, n: nat)
    requires n <= |run|
  {
    exists i: nat :: i < n && OutageLasts(run, subject, i, n) && PastDelay(OutcomeAt(run, i))
  }

  lemma CrossedIsPast(run: seq<Occurrence>, i: nat)
    requires i < |run| && Delayed(run[i])
    ensures Crossed(run, i) <==> PastDelay(OutcomeAt(run, i))
  {
    hide After, Delayed;
    DelayByState(After(run[..i]), run[i]);
  }

  /**
   * A recovery is silent exactly when, under a rule with a delay, an outage lasts of which no event got past the delay
   * check.  Every other considered recovery is dispatched.
   */
  lemma RecoveriesInWords(run: seq<Occurrence>, j: nat, r: AlertRule)
    requires j < |run| && Considered(run[j], r) && TurnsHealthy(run[j].e)
    ensures var subject, outcome := Subject(run[j].e), OutcomeAt(run, j);
            && (outcome == SilentRecovery <==>
                  && r.alertDelayMinutes.Some? && (exists i: nat :: OutageLasts(run, subject, i, j))
                  && !OutageCrossed(run, subject, j))
            && (outcome == SilentRecovery || outcome == Dispatched)
  {
    hide Considered, OutageLasts, After, Step, Delayed, Decides, Reaches, Crossed;
    GatesInOrder(run, j);
    WaitsIsDelayed(run, j);
    var key := Key(run[j].e);
    forall i: nat
      ensures OutageLasts(run, key, i, j) <==> OutageSince(run, key, i, j)
      ensures OutageLasts(run, key, i, j) ==> i < j {
      OutageLastsIs(run, key, i, j);
    }
    forall i: nat | i < j && OutageSince(run, key, i, j) ensures Crossed(run, i) <==> PastDelay(OutcomeAt(run, i)) {
      CrossedIsPast(run, i);
    }
    RecoveriesPass(run, j);
    SilentExactlyBelowThreshold(run, j);
  }

  // ---------------------------------------------------------------------------
  // Flap protection
  // ---------------------------------------------------------------------------

  /** The key's last alert time is that of a dispatch for it, and no other is later. */
  lemma {:induction false} LastAlertIsDispatch(run: seq<Occurrence>, key: string, n: nat) returns (i: nat)
    requires n <= |run| && key in After(run[..n]).lastAlertTimes
    ensures i < n && OutcomeAt(run, i) == Dispatched && Key(run[i].e) == key
    ensures After(run[..n]).lastAlertTimes[key] == run[i].now
  {
    hide Step, After;
    if n == 0 {
      assert run[..0] == [];
      NothingAlerted(key);
      assert false;
    }
    AfterStep(run, n - 1);
    AlertTimesStep(After(run[..n - 1]), run[n - 1]);
    if OutcomeAt(run, n - 1) == Dispatched && Key(run[n - 1].e) == key {
      i := n - 1;
    } else {
      i := LastAlertIsDispatch(run, key, n - 1);
    }
  }

  lemma NothingAlerted(key: string)
    ensures key !in After([]).lastAlertTimes
  {
  }

  lemma SuppressedByState(s: EngineState, o: Occurrence)
    requires Reaches(o) && !IsRecovery(o.e) && PastDelay(Step(s, o.e, o.w, o.now).1)
    ensures Step(s, o.e, o.w, o.now).1 == FlapSuppressed <==>
      Suppressed(s.lastAlertTimes, Key(o.e), CooldownMs(RuleOf(o), o.w), o.now)
  {
  }

  /** Some step before `j` was dispatched for the same subject less than `ms` before. */
  ghost predicate AlertedWithin(run: seq<Occurrence>, j: nat, ms: int)
    requires j < |run|
  {
    exists i :: 0 <= i < j && OutcomeAt(run, i) == Dispatched && Subject(run[i].e) == Subject(run[j].e)
                && run[j].now - run[i].now < ms
  }

  /**
   * An event past the delay check that is no recovery is suppressed by flap protection exactly when some earlier event
   * of its subject, recoveries included, was dispatched less than the cooldown's minutes before.
   */
  lemma CooldownInMinutes(run: seq<Occurrence>, j: nat, r: AlertRule)
    requires ClockOrdered(run) && j < |run| && Considered(run[j], r) && !TurnsHealthy(run[j].e)
    requires PastDelay(OutcomeAt(run, j))
    ensures OutcomeAt(run, j) == FlapSuppressed <==>
      AlertedWithin(run, j, CooldownMinutes(r, run[j].w) * 60000)
  {
    GatesInOrder(run, j);
    SameWords(run[j], r);
    forall i | 0 <= i < j ensures Subject(run[i].e) == Key(run[i].e) {
      SameWords(run[i], r);
    }
    hide Considered, After, Step, CooldownMinutes, CooldownMs, Subject, Key, Reaches;
    var s, key := After(run[..j]), Key(run[j].e);
    SuppressedByState(s, run[j]);
    if key in s.lastAlertTimes {
      var i := LastAlertIsDispatch(run, key, j);
    }
    forall i | 0 <= i < j && OutcomeAt(run, i) == Dispatched && Key(run[i].e) == key
      ensures key in s.lastAlertTimes && run[i].now <= s.lastAlertTimes[key] <= run[j].now {
      DispatchRemembered(run, i, j);
    }
  }

  // ---------------------------------------------------------------------------
  // Hourly windows
  // ---------------------------------------------------------------------------

  /** Step `i` asked the limiter or was counted by it for the team. */
  ghost predicate Consults(run: seq<Occurrence>, i: nat, team: string)
    requires i < |run|
  {
    run[i].w.teamId == Some(team) && (OutcomeAt(run, i) == RateSuppressed || OutcomeAt(run, i) == Dispatched)
  }

  /** Step `i` opened a window: no earlier window was opened less than 3600000 ms before. */
  ghost predicate Opens(run: seq<Occurrence>, i: nat, team: string)
    requires i < |run|
  {
    Consults(run, i, team) && forall k :: 0 <= k < i && Opens(run, k, team) ==> run[i].now - run[k].now >= 3600000
  }

  /** Dispatches for the team, recoveries included, among `run[k..n]`. */
  ghost function CountedSince(run: seq<Occurrence>, k: nat, n: nat, team: string): nat
    requires k <= n <= |run|
  {
    if k == n then 0
    else
      CountedSince(run, k, n - 1, team)
      + if run[n - 1].w.teamId == Some(team) && OutcomeAt(run, n - 1) == Dispatched then 1 else 0
  }

  /** The last window opened before step `n` started at step `k`. */
  ghost predicate LastWindow(run: seq<Occurrence>, k: nat, n: nat, team: string)
    requires n <= |run|
  {
    k < n && Opens(run, k, team) && forall l :: k < l < n ==> !Opens(run, l, team)
  }

  ghost predicate WindowKnown(run: seq<Occurrence>, n: nat, team: string)
    requires n <= |run|
  {
    var counts := After(run[..n]).teamCounts;
    if team !in counts then forall l :: 0 <= l < n ==> !Opens(run, l, team)
    else exists k: nat ::
      LastWindow(run, k, n, team) && counts[team] == RateLimitEntry(CountedSince(run, k, n, team), run[k].now)
  }

  lemma LaterOpens(run: seq<Occurrence>, k: nat, i: nat, team: string)
    requires ClockOrdered(run) && i < |run| && LastWindow(run, k, i, team)
    ensures Opens(run, i, team) <==> Consults(run, i, team) && run[i].now - run[k].now >= 3600000
  {
    hide Consults;
    if Consults(run, i, team) && run[i].now - run[k].now >= 3600000 {
      forall l | 0 <= l < i && Opens(run, l, team) ensures run[i].now - run[l].now >= 3600000 {
        assert l <= k;
        assert run[l].now <= run[k].now;
      }
    }
  }

  lemma {:induction false} WindowsFollowed(run: seq<Occurrence>, n: nat, team: string)
    requires ClockOrdered(run) && n <= |run|
    ensures WindowKnown(run, n, team)
  {
    hide Step, After, Opens;
    if n == 0 {
      assert run[..0] == [];
      NoWindows(team);
    } else {
      var m := n - 1;
      var s, o := After(run[..m]), run[m];
      WindowsFollowed(run, m, team);
      AfterStep(run, m);
      WindowStepSound(s, o, team);
      if team in s.teamCounts {
        var k: nat :| LastWindow(run, k, m, team)
                 && s.teamCounts[team] == RateLimitEntry(CountedSince(run, k, m, team), run[k].now);
        LaterOpens(run, k, m, team);
        if Opens(run, m, team) {
          assert LastWindow(run, m, n, team);
          assert CountedSince(run, m, m, team) == 0;
        } else {
          assert LastWindow(run, k, n, team);
        }
      } else {
        FirstOpens(run, m, team);
        if Opens(run, m, team) {
          assert LastWindow(run, m, n, team);
          assert CountedSince(run, m, m, team) == 0;
        }
      }
    }
  }

  lemma NoWindows(team: string)
    ensures team !in After([]).teamCounts
  {
  }

  lemma FirstOpens(run: seq<Occurrence>, i: nat, team: string)
    requires i < |run| && forall l :: 0 <= l < i ==> !Opens(run, l, team)
    ensures Opens(run, i, team) <==> Consults(run, i, team)
  {
    hide Consults;
  }

  lemma LimitedByState(s: EngineState, o: Occurrence)
    requires Reaches(o) && !IsRecovery(o.e) && PastDelay(Step(s, o.e, o.w, o.now).1)
    requires Step(s, o.e, o.w, o.now).1 != FlapSuppressed
    ensures Step(s, o.e, o.w, o.now).1 == RateSuppressed <==>
      CurrentEntry(s.teamCounts, o.w.teamId.value, o.now).count >= MaxPerHour(RuleOf(o), o.w)
  {
  }

  /** The team's last window before step `j` started at step `k`, less than an hour ago. */
  ghost predicate InWindow(run: seq<Occurrence>, k: nat, j: nat, team: string)
    requires j < |run|
  {
    LastWindow(run, k, j, team) && run[j].now - run[k].now < 3600000
  }

  /** Dispatches of the window in force at step `j`: none when the last one is an hour old. */
  ghost function WindowCount(run: seq<Occurrence>, j: nat, team: string): nat
    requires j < |run|
  {
    if exists k: nat :: InWindow(run, k, j, team) then
      var k: nat :| InWindow(run, k, j, team); CountedSince(run, k, j, team)
    else 0
  }

  lemma OneLastWindow(run: seq<Occurrence>, k: nat, l: nat, n: nat, team: string)
    requires n <= |run| && LastWindow(run, k, n, team) && LastWindow(run, l, n, team)
    ensures k == l
  {
    hide Opens;
  }

  lemma CountOfWindow(run: seq<Occurrence>, k: nat, j: nat, team: string)
    requires k < j < |run| && LastWindow(run, k, j, team)
    ensures WindowCount(run, j, team) == if run[j].now - run[k].now < 3600000 then CountedSince(run, k, j, team) else 0
  {
    hide LastWindow;
    forall l: nat | LastWindow(run, l, j, team) ensures l == k {
      OneLastWindow(run, k, l, j, team);
    }
    assert run[j].now - run[k].now < 3600000 ==> InWindow(run, k, j, team);
  }

  lemma CountWithoutWindow(run: seq<Occurrence>, j: nat, team: string)
    requires j < |run| && forall l :: 0 <= l < j ==> !Opens(run, l, team)
    ensures WindowCount(run, j, team) == 0
  {
    hide Opens;
  }

  /**
   * An event past flap protection that is no recovery is suppressed by the rate limit exactly when the window of its
   * team has seen as many dispatches as the limit.
   */
  lemma LimitInDispatches(run: seq<Occurrence>, j: nat, r: AlertRule)
    requires ClockOrdered(run) && j < |run| && Considered(run[j], r) && !TurnsHealthy(run[j].e)
    requires PastDelay(OutcomeAt(run, j)) && OutcomeAt(run, j) != FlapSuppressed
    ensures OutcomeAt(run, j) == RateSuppressed <==>
      WindowCount(run, j, run[j].w.teamId.value) >= HourlyLimit(r, run[j].w)
  {
    var team, s := run[j].w.teamId.value, After(run[..j]);
    GatesInOrder(run, j);
    SameWords(run[j], r);
    WindowsFollowed(run, j, team);
    hide Considered, After, Step, HourlyLimit, MaxPerHour, Reaches, LastWindow, Opens, WindowCount;
    LimitedByState(s, run[j]);
    if team in s.teamCounts {
      var k: nat :| k < j && LastWindow(run, k, j, team)
                    && s.teamCounts[team] == RateLimitEntry(CountedSince(run, k, j, team), run[k].now);
      CountOfWindow(run, k, j, team);
    } else {
      CountWithoutWindow(run, j, team);
    }
  }

  // ---------------------------------------------------------------------------
  // History
  // ---------------------------------------------------------------------------

  /** A muted or suppressed event leaves one record saying so for each channel, in order; nothing else leaves any. */
  lemma HistoryShows(outcome: Outcome, channels: seq<Channel>, i: nat)
    requires i < |channels|
    ensures var history := HistoryOf(outcome, channels);
            if outcome == Muted then
              |history| == |channels| && history[i] == HistoryRecord(channels[i].id, HMuted)
            else if outcome == FlapSuppressed || outcome == RateSuppressed then
              |history| == |channels| && history[i] == HistoryRecord(channels[i].id, HSuppressed)
            else history == []
  {
  }

  function ChannelId(): Channel -> string {
    (c: Channel) => c.id
  }

  /** A sender is registered for the channel, and its sending failed or threw. */
  function NeedsRetry(senders: set<string>, send: Channel -> SendOutcome): Channel -> bool {
    (c: Channel) => c.channelType in senders && (send(c) == Failed || send(c) == Threw)
  }

  /** Retries are for the channels that need one, in their order. */
  lemma {:induction false} RetriesInWords(channels: seq<Channel>, senders: set<string>, send: Channel -> SendOutcome)
    ensures FailedSends(channels, senders, send) == MapSeq(ChannelId(), Filter(NeedsRetry(senders, send), channels))
  {
    if channels != [] {
      var last := |channels| - 1;
      RetriesInWords(channels[..last], senders, send);
      assert channels[..last + 1] == channels;
      FilterOneMore(NeedsRetry(senders, send), channels, last);
    }
  }
}

/** What the alert engine guarantees over every run of events, from a fresh start, with a clock that never goes back. */
module AlertRuns {
  import opened Common
  import opened AlertLimits
  import opened AlertService

  datatype Occurrence = Occurrence(e: AlertEvent, w: World, now: int)

  const INITIAL := EngineState(map[], map[], map[], {})

  ghost function After(run: seq<Occurrence>): EngineState {
    if run == [] then INITIAL
    else
      var last := run[|run| - 1];
      Step(After(run[..|run| - 1]), last.e, last.w, last.now).0
  }

  ghost function OutcomeAt(run: seq<Occurrence>, i: nat): Outcome
    requires i < |run|
  {
    Step(After(run[..i]), run[i].e, run[i].w, run[i].now).1
  }

  ghost predicate ClockOrdered(run: seq<Occurrence>) {
    forall i, j :: 0 <= i <= j < |run| ==> run[i].now <= run[j].now
  }

  lemma AfterStep(run: seq<Occurrence>, i: nat)
    requires i < |run|
    ensures After(run[..i + 1]) == Step(After(run[..i]), run[i].e, run[i].w, run[i].now).0
  {
    assert run[..i + 1][..i] == run[..i];
  }

  /** The event gets past the gates to the delay check. */
  ghost predicate Reaches(o: Occurrence) {
    Gate(o.e, o.w) == None
  }

  ghost function RuleOf(o: Occurrence): AlertRule
    requires Reaches(o)
  {
    MatchingRules(o.e, o.w)[0]
  }

  // ---------------------------------------------------------------------------
  // Cooldown
  // ---------------------------------------------------------------------------

  /** One step changes the last alert time of a key only by dispatching for it. */
  lemma AlertTimesStep(s: EngineState, o: Occurrence)
    ensures var (s', outcome) := Step(s, o.e, o.w, o.now);
            s'.lastAlertTimes == if outcome == Dispatched then s.lastAlertTimes[Key(o.e) := o.now] else s.lastAlertTimes
  {
  }

  /** After a dispatch the key's last alert time is at least the time of that dispatch. */
  lemma {:induction false} DispatchRemembered(run: seq<Occurrence>, i: nat, n: nat)
    requires ClockOrdered(run) && i < n <= |run| && OutcomeAt(run, i) == Dispatched
    ensures var times := After(run[..n]).lastAlertTimes;
            Key(run[i].e) in times && run[i].now <= times[Key(run[i].e)] <= run[n - 1].now
  {
    hide Step, After;
    AfterStep(run, n - 1);
    AlertTimesStep(After(run[..n - 1]), run[n - 1]);
    if i < n - 1 {
      DispatchRemembered(run, i, n - 1);
    }
  }

  lemma DispatchNotSuppressed(s: EngineState, o: Occurrence)
    requires Step(s, o.e, o.w, o.now).1 == Dispatched && !IsRecovery(o.e)
    ensures Reaches(o) && !Suppressed(s.lastAlertTimes, Key(o.e), CooldownMs(RuleOf(o), o.w), o.now)
  {
  }

  /** A dispatch that is no recovery comes at least its cooldown after every earlier dispatch for its key. */
  lemma CooldownKept(run: seq<Occurrence>, i: nat, j: nat)
    requires ClockOrdered(run) && i < j < |run|
    requires OutcomeAt(run, i) == Dispatched && OutcomeAt(run, j) == Dispatched
    requires Key(run[i].e) == Key(run[j].e) && !IsRecovery(run[j].e)
    ensures Reaches(run[j]) && run[j].now - run[i].now >= CooldownMs(RuleOf(run[j]), run[j].w)
  {
    hide Step, After, CooldownMs;
    DispatchRemembered(run, i, j);
    DispatchNotSuppressed(After(run[..j]), run[j]);
  }

  /** Recoveries are never suppressed by flap protection or rate limit: silent by the delay check, or dispatched. */
  lemma RecoveriesPass(run: seq<Occurrence>, i: nat)
    requires i < |run| && IsRecovery(run[i].e) && Reaches(run[i])
    ensures OutcomeAt(run, i) == Dispatched || OutcomeAt(run, i) == SilentRecovery
    ensures RuleOf(run[i]).alertDelayMinutes.None? ==> OutcomeAt(run, i) == Dispatched
  {
  }

  // ---------------------------------------------------------------------------
  // Hourly limit
  // ---------------------------------------------------------------------------

  /** Step `i` dispatched something other than a recovery for `team`, at a time in the half-open interval. */
  ghost predicate CountsIn(run: seq<Occurrence>, i: nat, team: string, lo: int, hi: int)
    requires i < |run|
  {
    && OutcomeAt(run, i) == Dispatched && !IsRecovery(run[i].e) && run[i].w.teamId == Some(team)
    && lo <= run[i].now < hi
  }

  /** Dispatches other than recoveries for `team` with `lo <= time < hi` among the first `n` steps. */
  ghost function DispatchesIn(run: seq<Occurrence>, n: nat, team: string, lo: int, hi: int): nat
    requires n <= |run|
  {
    if n == 0 then 0
    else DispatchesIn(run, n - 1, team, lo, hi) + if CountsIn(run, n - 1, team, lo, hi) then 1 else 0
  }

  /** Every limit the team meets lies between `least` and `most`. */
  ghost predicate LimitsBetween(run: seq<Occurrence>, team: string, least: int, most: int) {
    forall i :: 0 <= i < |run| && Reaches(run[i]) && run[i].w.teamId == Some(team) ==>
      least <= MaxPerHour(RuleOf(run[i]), run[i].w) <= most
  }

  /** The window entry a step leaves behind. */
  datatype WindowStep = Untouched | Asked | Recorded

  ghost function WindowStepOf(outcome: Outcome): WindowStep {
    match outcome
    case RateSuppressed => Asked
    case Dispatched => Recorded
    case _ => Untouched
  }

  ghost predicate WindowAdvances(
    before: map<string, RateLimitEntry>, after: map<string, RateLimitEntry>, team: string, now: int, step: WindowStep)
  {
    var entry := CurrentEntry(before, team, now);
    match step
    case Untouched => (team in after <==> team in before) && (team in before ==> after[team] == before[team])
    case Asked => team in after && after[team] == entry
    case Recorded => team in after && after[team] == entry.(count := entry.count + 1)
  }

  lemma WindowStepSound(s: EngineState, o: Occurrence, team: string)
    ensures var (s', outcome) := Step(s, o.e, o.w, o.now);
            WindowAdvances(s.teamCounts, s'.teamCounts, team, o.now,
                           if o.w.teamId == Some(team) then WindowStepOf(outcome) else Untouched)
  {
  }

  lemma LimitObeyed(s: EngineState, o: Occurrence, team: string)
    requires o.w.teamId == Some(team) && !IsRecovery(o.e)
    ensures var outcome := Step(s, o.e, o.w, o.now).1;
            && (outcome == Dispatched ==>
                  Reaches(o) && CurrentEntry(s.teamCounts, team, o.now).count < MaxPerHour(RuleOf(o), o.w))
            && (outcome == RateSuppressed ==>
                  Reaches(o) && CurrentEntry(s.teamCounts, team, o.now).count >= MaxPerHour(RuleOf(o), o.w))
  {
  }

  /** A recovery never meets the limit, so it only ever records. */
  lemma RecoveryNeverAsks(s: EngineState, o: Occurrence)
    requires IsRecovery(o.e)
    ensures Step(s, o.e, o.w, o.now).1 != RateSuppressed
  {
  }

  function MinInt(a: int, b: int): int { if b < a then b else a }

  /**
   * The accounting behind the hourly bound: `n` dispatches in the hour from `t`, seen up to `now`.  `slack` is 1 when
   * no limit is below 1, because then every window opens with a dispatch.
   */
  ghost predicate Accounted(entry: Option<RateLimitEntry>, t: int, n: nat, most: nat, slack: nat, now: int) {
    match entry
    case None => n == 0
    case Some(w) =>
      && w.windowStart <= now && w.count >= slack
      && (n > 0 ==> t <= now)
      && (w.windowStart < t ==> n + slack <= MinInt(w.count, most) && (n > 0 ==> t < w.windowStart + ONE_HOUR_MS))
      && (w.windowStart == t ==> n <= MinInt(w.count, most))
      && (t < w.windowStart < t + ONE_HOUR_MS ==> n + slack <= most + MinInt(w.count, most))
      && (t + ONE_HOUR_MS <= w.windowStart ==> n + slack <= 2 * most)
  }

  ghost function EntryOf(s: EngineState, team: string): Option<RateLimitEntry> {
    if team in s.teamCounts then Some(s.teamCounts[team]) else None
  }

  /** The window in force at `now`, given the entry stored so far. */
  ghost function InForce(entry: Option<RateLimitEntry>, now: int): RateLimitEntry {
    if entry.None? || now - entry.value.windowStart >= ONE_HOUR_MS then RateLimitEntry(0, now) else entry.value
  }

  lemma AskedAccounted(entry: Option<RateLimitEntry>, t: int, n: nat, most: nat, slack: nat, before: int, now: int)
    requires Accounted(entry, t, n, most, slack, before) && before <= now && slack <= most
    requires InForce(entry, now).count >= slack
    ensures Accounted(Some(InForce(entry, now)), t, n, most, slack, now)
  {
  }

  lemma RecordedAccounted(
    entry: Option<RateLimitEntry>, t: int, n: nat, most: nat, slack: nat, before: int, now: int, counted: bool)
    requires Accounted(entry, t, n, most, slack, before) && before <= now && slack <= most && slack <= 1
    requires counted ==> t <= now < t + ONE_HOUR_MS && InForce(entry, now).count < most
    ensures var w := InForce(entry, now);
            Accounted(Some(w.(count := w.count + 1)), t, if counted then n + 1 else n, most, slack, now)
  {
  }

  /** The accounting holds along every run whose limits for the team lie between `slack` and `most`. */
  lemma {:induction false} HourAccounted(
    run: seq<Occurrence>, n: nat, team: string, t: int, most: nat, slack: nat, now: int)
    requires ClockOrdered(run) && n <= |run| && (n > 0 ==> now == run[n - 1].now)
    requires LimitsBetween(run, team, slack, most) && slack <= most && slack <= 1
    ensures Accounted(
              EntryOf(After(run[..n]), team), t, DispatchesIn(run, n, team, t, t + ONE_HOUR_MS), most, slack, now)
  {
    hide Step, After, Accounted, MaxPerHour;
    if n == 0 {
      assert run[..0] == [];
      NothingYet(team, t, most, slack, now);
    } else {
      var m := n - 1;
      var s, o := After(run[..m]), run[m];
      var before := if m > 0 then run[m - 1].now else now;
      HourAccounted(run, m, team, t, most, slack, before);
      AfterStep(run, m);
      WindowStepSound(s, o, team);
      var entry, tally := EntryOf(s, team), DispatchesIn(run, m, team, t, t + ONE_HOUR_MS);
      if o.w.teamId == Some(team) && OutcomeAt(run, m) == Dispatched {
        if !IsRecovery(o.e) { LimitObeyed(s, o, team); }
        RecordedAccounted(entry, t, tally, most, slack, before, now, CountsIn(run, m, team, t, t + ONE_HOUR_MS));
      } else if o.w.teamId == Some(team) && OutcomeAt(run, m) == RateSuppressed {
        if IsRecovery(o.e) { RecoveryNeverAsks(s, o); } else { LimitObeyed(s, o, team); }
        AskedAccounted(entry, t, tally, most, slack, before, now);
      } else {
        AccountedLater(entry, t, tally, most, slack, before, now);
      }
    }
  }

  lemma NothingYet(team: string, t: int, most: nat, slack: nat, now: int)
    ensures Accounted(EntryOf(After([]), team), t, 0, most, slack, now)
  {
  }

  lemma AccountedLater(entry: Option<RateLimitEntry>, t: int, n: nat, most: nat, slack: nat, before: int, now: int)
    requires Accounted(entry, t, n, most, slack, before) && before <= now
    ensures Accounted(entry, t, n, most, slack, now)
  {
  }

  lemma AccountedBound(entry: Option<RateLimitEntry>, t: int, n: nat, most: nat, slack: nat, now: int)
    requires Accounted(entry, t, n, most, slack, now) && slack <= most
    ensures n + slack <= 2 * most
    ensures entry.Some? && entry.value.windowStart == t ==> n <= MinInt(entry.value.count, most)
  {
  }

  /** In any half-open hour a team gets at most twice the limit of dispatches that are no recoveries. */
  lemma HourlyBound(run: seq<Occurrence>, team: string, t: int, most: nat)
    requires ClockOrdered(run) && LimitsBetween(run, team, 0, most)
    ensures DispatchesIn(run, |run|, team, t, t + ONE_HOUR_MS) <= 2 * most
  {
    hide After, Accounted;
    var now := if |run| > 0 then run[|run| - 1].now else 0;
    HourAccounted(run, |run|, team, t, most, 0, now);
    AccountedBound(
      EntryOf(After(run[..|run|]), team), t, DispatchesIn(run, |run|, team, t, t + ONE_HOUR_MS), most, 0, now);
  }

  /** With limits of at least 1, as the settings allow, it is at most twice the limit less one. */
  lemma HourlyBoundTight(run: seq<Occurrence>, team: string, t: int, most: nat)
    requires ClockOrdered(run) && most >= 1 && LimitsBetween(run, team, 1, most)
    ensures DispatchesIn(run, |run|, team, t, t + ONE_HOUR_MS) <= 2 * most - 1
  {
    hide After, Accounted;
    var now := if |run| > 0 then run[|run| - 1].now else 0;
    HourAccounted(run, |run|, team, t, most, 1, now);
    AccountedBound(
      EntryOf(After(run[..|run|]), team), t, DispatchesIn(run, |run|, team, t, t + ONE_HOUR_MS), most, 1, now);
  }

  /** Within the limiter's own window, which starts when the window in force did, it is at most the limit. */
  lemma WindowBound(run: seq<Occurrence>, team: string, most: nat)
    requires ClockOrdered(run) && LimitsBetween(run, team, 0, most)
    requires team in After(run).teamCounts
    ensures var w := After(run).teamCounts[team];
            DispatchesIn(run, |run|, team, w.windowStart, w.windowStart + ONE_HOUR_MS) <= MinInt(w.count, most)
  {
    hide After, Accounted, DispatchesIn;
    var w := After(run).teamCounts[team];
    assert run[..|run|] == run;
    var now := if |run| > 0 then run[|run| - 1].now else 0;
    HourAccounted(run, |run|, team, w.windowStart, most, 0, now);
    var n := DispatchesIn(run, |run|, team, w.windowStart, w.windowStart + ONE_HOUR_MS);
    AccountedBound(Some(w), w.windowStart, n, most, 0, now);
  }

  // ---------------------------------------------------------------------------
  // Delay
  // ---------------------------------------------------------------------------

  /** An outage event that meets the delay check with a delay configured. */
  ghost predicate Delayed(o: Occurrence) {
    Reaches(o) && IsOutage(o.e) && RuleOf(o).alertDelayMinutes.Some?
  }

  /** A delayed outage event at step `i` that got past the delay check. */
  ghost predicate Crossed(run: seq<Occurrence>, i: nat)
    requires i < |run|
  {
    Delayed(run[i]) && OutcomeAt(run, i) != DelayStarted && OutcomeAt(run, i) != DelayPending
  }

  /** A recovery for `key` that gets to the delay check. */
  ghost predicate Recovers(o: Occurrence, key: string) {
    Reaches(o) && IsRecovery(o.e) && Key(o.e) == key
  }

  /** No recovery for `key` gets to the delay check in `run[i..n]`. */
  ghost predicate NoRecovery(run: seq<Occurrence>, key: string, i: nat, n: nat)
    requires n <= |run|
  {
    forall m :: i <= m < n ==> !Recovers(run[m], key)
  }

  /** How one step changes what the delay check knows about `key`. */
  lemma DelayKnowledgeStep(s: EngineState, o: Occurrence, key: string)
    ensures var (s', outcome) := Step(s, o.e, o.w, o.now);
            if Recovers(o, key) then key !in s'.delayTracker && key !in s'.delayAlertSent
            else if Delayed(o) && Key(o.e) == key then
              && key in s'.delayTracker
              && s'.delayTracker[key] == (if key in s.delayTracker then s.delayTracker[key] else o.now)
              && (key in s'.delayAlertSent <==>
                    key in s.delayAlertSent || (outcome != DelayStarted && outcome != DelayPending))
              && (key !in s.delayTracker <==> outcome == DelayStarted)
            else
              && (key in s'.delayTracker <==> key in s.delayTracker)
              && (key in s.delayTracker ==> s'.delayTracker[key] == s.delayTracker[key])
              && (key in s'.delayAlertSent <==> key in s.delayAlertSent)
  {
  }

  /** Keys whose alert went past the delay are always tracked. */
  lemma {:induction false} SentIsTracked(run: seq<Occurrence>)
    ensures After(run).delayAlertSent <= After(run).delayTracker.Keys
  {
    if run != [] {
      var n, s := |run| - 1, After(run[..|run| - 1]);
      SentIsTracked(run[..n]);
      hide Step;
      forall key | key in After(run).delayAlertSent ensures key in After(run).delayTracker {
        DelayKnowledgeStep(s, run[n], key);
      }
    }
  }

  /** The tracker holds the time of the first delayed outage event since the last recovery. */
  lemma {:induction false} TrackedSince(run: seq<Occurrence>, key: string, n: nat) returns (i: nat)
    requires n <= |run| && key in After(run[..n]).delayTracker
    ensures i < n && Delayed(run[i]) && Key(run[i].e) == key
    ensures After(run[..n]).delayTracker[key] == run[i].now && NoRecovery(run, key, i, n)
  {
    hide Step, After;
    if n == 0 {
      assert run[..0] == [];
      NothingTracked(key);
      assert false;
    }
    var s := After(run[..n - 1]);
    AfterStep(run, n - 1);
    DelayKnowledgeStep(s, run[n - 1], key);
    if key in s.delayTracker {
      i := TrackedSince(run, key, n - 1);
    } else {
      i := n - 1;
    }
  }

  lemma NothingTracked(key: string)
    ensures key !in After([]).delayTracker && key !in After([]).delayAlertSent
  {
  }

  /** A tracked key stays tracked until a recovery gets to the delay check. */
  lemma {:induction false} StaysTracked(run: seq<Occurrence>, key: string, i: nat, n: nat)
    requires i < n <= |run| && Delayed(run[i]) && Key(run[i].e) == key && NoRecovery(run, key, i, n)
    ensures key in After(run[..n]).delayTracker
    ensures Crossed(run, i) ==> key in After(run[..n]).delayAlertSent
  {
    hide Step, After;
    AfterStep(run, n - 1);
    DelayKnowledgeStep(After(run[..n - 1]), run[n - 1], key);
    if i < n - 1 {
      StaysTracked(run, key, i, n - 1);
    }
  }

  lemma {:induction false} SentSince(run: seq<Occurrence>, key: string, n: nat) returns (i: nat)
    requires n <= |run| && key in After(run[..n]).delayAlertSent
    ensures i < n && Crossed(run, i) && Key(run[i].e) == key && NoRecovery(run, key, i, n)
  {
    hide Step, After;
    if n == 0 {
      assert run[..0] == [];
      NothingTracked(key);
      assert false;
    }
    var s := After(run[..n - 1]);
    AfterStep(run, n - 1);
    DelayKnowledgeStep(s, run[n - 1], key);
    if key in s.delayAlertSent {
      i := SentSince(run, key, n - 1);
    } else {
      i := n - 1;
    }
  }

  lemma CrossingNeedsDelay(s: EngineState, o: Occurrence)
    requires Delayed(o)
    ensures var outcome := Step(s, o.e, o.w, o.now).1;
            outcome != DelayStarted && outcome != DelayPending ==>
              Key(o.e) in s.delayTracker
                && o.now - s.delayTracker[Key(o.e)] >= RuleOf(o).alertDelayMinutes.value * 60000
  {
  }

  /**
   * An outage event gets past a delay of N minutes only when an earlier one for its key is at least N minutes old and
   * no recovery got to the delay check in between.
   */
  lemma DelayHonoured(run: seq<Occurrence>, j: nat) returns (i: nat)
    requires j < |run| && Crossed(run, j)
    ensures i < j && Delayed(run[i]) && Key(run[i].e) == Key(run[j].e)
    ensures run[j].now - run[i].now >= RuleOf(run[j]).alertDelayMinutes.value * 60000
    ensures NoRecovery(run, Key(run[j].e), i, j)
  {
    CrossingNeedsDelay(After(run[..j]), run[j]);
    i := TrackedSince(run, Key(run[j].e), j);
  }

  /** An outage of `key` is tracked at step `n` since step `i`. */
  ghost predicate OutageSince(run: seq<Occurrence>, key: string, i: nat, n: nat)
    requires n <= |run|
  {
    i < n && Delayed(run[i]) && Key(run[i].e) == key && NoRecovery(run, key, i, n)
  }

  lemma SilentByState(s: EngineState, o: Occurrence)
    requires Reaches(o) && IsRecovery(o.e)
    ensures Step(s, o.e, o.w, o.now).1 == SilentRecovery <==>
              RuleOf(o).alertDelayMinutes.Some? && Key(o.e) in s.delayTracker && Key(o.e) !in s.delayAlertSent
  {
  }

  /**
   * A recovery is silent exactly when, with a delay configured, an outage was tracked since the last recovery and no
   * event of it crossed the threshold.
   */
  lemma SilentExactlyBelowThreshold(run: seq<Occurrence>, j: nat)
    requires j < |run| && Reaches(run[j]) && IsRecovery(run[j].e)
    ensures OutcomeAt(run, j) == SilentRecovery <==>
              && RuleOf(run[j]).alertDelayMinutes.Some?
              && (exists i :: OutageSince(run, Key(run[j].e), i, j))
              && (forall i :: OutageSince(run, Key(run[j].e), i, j) ==> !Crossed(run, i))
  {
    hide Step, After;
    var key, s := Key(run[j].e), After(run[..j]);
    SilentByState(s, run[j]);
    if key in s.delayTracker {
      var i := TrackedSince(run, key, j);
      assert OutageSince(run, key, i, j);
    }
    if i :| OutageSince(run, key, i, j) {
      StaysTracked(run, key, i, j);
    }
    if key in s.delayAlertSent {
      var i := SentSince(run, key, j);
      assert OutageSince(run, key, i, j);
    }
    forall i | OutageSince(run, key, i, j) && Crossed(run, i) ensures key in s.delayAlertSent {
      StaysTracked(run, key, i, j);
    }
  }
}

/** Bursts of poll errors, and the hourly bound they attain for every limit. */
module AlertBursts {
  import opened Common
  import opened AlertLimits
  import opened AlertService
  import opened AlertRuns

  // ---------------------------------------------------------------------------
  // A team with one rule
  // ---------------------------------------------------------------------------

  /** A world with one rule, one channel and nothing muted. */
  function OneRule(rule: AlertRule): World {
    World(Some("team"), [rule], [Channel("c", "slack")], false, false, 5, 30)
  }

  /** Different services have names of different lengths. */
  function ServiceName(i: nat): (name: string)
    ensures |name| == i + 1
  {
    seq(i + 1, _ => 's')
  }

  function PollErrorOf(rule: AlertRule, i: nat, now: int): Occurrence {
    Occurrence(AlertEvent(PollError, ServiceName(i), None), OneRule(rule), now)
  }

  lemma OneRuleReaches(o: Occurrence, rule: AlertRule)
    requires o.w == OneRule(rule) && MatchesSeverity(rule.severityFilter, DetermineSeverity(o.e.kind))
    ensures Reaches(o) && RuleOf(o) == rule
  {
    var p := (r: AlertRule) => MatchesSeverity(r.severityFilter, DetermineSeverity(o.e.kind));
    assert Filter(p, [rule]) == [rule] + Filter(p, [rule][1..]);
  }

  lemma StepOfOneRule(s: EngineState, o: Occurrence, rule: AlertRule)
    requires o.w == OneRule(rule) && MatchesSeverity(rule.severityFilter, DetermineSeverity(o.e.kind))
    ensures Step(s, o.e, o.w, o.now) ==
            var (delayed, stopped) := DelayStep(s, o.e, rule.alertDelayMinutes, o.now);
            if stopped.Some? then (delayed, stopped.value)
            else LimitStep(delayed, o.e, "team", CooldownMs(rule, o.w), MaxPerHour(rule, o.w), o.now)
  {
    OneRuleReaches(o, rule);
  }

  // ---------------------------------------------------------------------------
  // Bursts
  // ---------------------------------------------------------------------------

  /** `run[m..m + n]` are poll errors of the services numbered from `from` on, all at `now`. */
  ghost predicate IsBurst(run: seq<Occurrence>, m: nat, n: nat, rule: AlertRule, from: nat, now: int) {
    m + n <= |run| && run[m..m + n] == Burst(rule, from, n, now)
  }

  function Burst(rule: AlertRule, from: nat, n: nat, now: int): seq<Occurrence> {
    seq(n, i requires 0 <= i < n => PollErrorOf(rule, from + i, now))
  }

  function Services(from: nat, n: nat): set<string> {
    set i | from <= i < from + n :: ServiceName(i)
  }

  /** No service numbered from `from` on has been alerted. */
  ghost predicate NotAlerted(s: EngineState, from: nat) {
    forall i: nat :: i >= from ==> ServiceName(i) !in s.lastAlertTimes
  }

  lemma ErrorDispatched(s: EngineState, rule: AlertRule, i: nat, now: int)
    requires NotAlerted(s, i) && InForce(EntryOf(s, "team"), now).count < MaxPerHour(rule, OneRule(rule))
    ensures var o := PollErrorOf(rule, i, now);
            var (s', outcome) := Step(s, o.e, o.w, o.now);
            var w := InForce(EntryOf(s, "team"), now);
            && outcome == Dispatched && NotAlerted(s', i + 1)
            && EntryOf(s', "team") == Some(w.(count := w.count + 1))
            && s'.lastAlertTimes.Keys == s.lastAlertTimes.Keys + {ServiceName(i)}
            && s'.delayTracker == s.delayTracker && s'.delayAlertSent == s.delayAlertSent
  {
    var o := PollErrorOf(rule, i, now);
    StepOfOneRule(s, o, rule);
    hide MaxPerHour, CooldownMs, Gate, Step;
    assert Key(o.e) == ServiceName(i);
  }

  /** A burst that fits the window is dispatched and counted in full, and changes nothing about delays. */
  lemma {:induction false} BurstDispatched(run: seq<Occurrence>, m: nat, n: nat, rule: AlertRule, from: nat, now: int)
    requires IsBurst(run, m, n, rule, from, now) && NotAlerted(After(run[..m]), from)
    requires InForce(EntryOf(After(run[..m]), "team"), now).count + n <= MaxPerHour(rule, OneRule(rule))
    ensures forall i :: m <= i < m + n ==> OutcomeAt(run, i) == Dispatched
    ensures var before, after := After(run[..m]), After(run[..m + n]);
            var w := InForce(EntryOf(before, "team"), now);
            && NotAlerted(after, from + n)
            && EntryOf(after, "team") == (if n == 0 then EntryOf(before, "team") else Some(w.(count := w.count + n)))
            && after.lastAlertTimes.Keys <= before.lastAlertTimes.Keys + Services(from, n)
            && after.delayTracker == before.delayTracker && after.delayAlertSent == before.delayAlertSent
    decreases n
  {
    hide Step, After, MaxPerHour, Key;
    if n > 0 {
      var last := m + n - 1;
      assert run[m..last] == run[m..m + n][..n - 1] == Burst(rule, from, n - 1, now);
      assert run[last] == run[m..m + n][n - 1] == PollErrorOf(rule, from + n - 1, now);
      BurstDispatched(run, m, n - 1, rule, from, now);
      AfterStep(run, last);
      ErrorDispatched(After(run[..last]), rule, from + n - 1, now);
    }
  }

  // ---------------------------------------------------------------------------
  // The hourly bound is attained
  // ---------------------------------------------------------------------------

  function LimitedTo(limit: int): AlertRule {
    AlertRule(AllSeverities, true, None, Some(limit), None)
  }

  const PEAK_START := ONE_HOUR_MS - 1

  /** One alert opens a window; the rest of its limit just before its end, and a full limit at its end. */
  function Peak(limit: nat): seq<Occurrence>
    requires limit >= 1
  {
    Burst(LimitedTo(limit), 0, 1, 0) + Burst(LimitedTo(limit), 1, limit - 1, PEAK_START)
    + Burst(LimitedTo(limit), limit, limit, ONE_HOUR_MS)
  }

  lemma PeakIsBursts(limit: nat)
    requires limit >= 1
    ensures var run, rule := Peak(limit), LimitedTo(limit);
            && |run| == 2 * limit
            && IsBurst(run, 0, 1, rule, 0, 0)
            && IsBurst(run, 1, limit - 1, rule, 1, PEAK_START)
            && IsBurst(run, limit, limit, rule, limit, ONE_HOUR_MS)
  {
  }

  lemma PeakEvents(limit: nat, i: nat)
    requires limit >= 1 && i < 2 * limit
    ensures var now := if i == 0 then 0 else if i < limit then PEAK_START else ONE_HOUR_MS;
            Peak(limit)[i] == PollErrorOf(LimitedTo(limit), i, now)
  {
  }

  lemma PeakAllowed(limit: nat)
    requires limit >= 1
    ensures ClockOrdered(Peak(limit)) && LimitsBetween(Peak(limit), "team", limit, limit)
  {
    var run, rule := Peak(limit), LimitedTo(limit);
    forall i, j | 0 <= i <= j < |run| ensures run[i].now <= run[j].now {
      PeakEvents(limit, i);
      PeakEvents(limit, j);
    }
    forall i | 0 <= i < |run| && Reaches(run[i]) ensures MaxPerHour(RuleOf(run[i]), run[i].w) == limit {
      PeakEvents(limit, i);
      OneRuleReaches(run[i], rule);
    }
  }

  lemma PeakDispatched(limit: nat)
    requires limit >= 1
    ensures forall i :: 0 <= i < 2 * limit ==> OutcomeAt(Peak(limit), i) == Dispatched
  {
    hide After, OutcomeAt, Peak;
    var run, rule := Peak(limit), LimitedTo(limit);
    PeakIsBursts(limit);
    assert run[..0] == [];
    FreshStart();
    BurstDispatched(run, 0, 1, rule, 0, 0);
    BurstDispatched(run, 1, limit - 1, rule, 1, PEAK_START);
    BurstDispatched(run, limit, limit, rule, limit, ONE_HOUR_MS);
  }

  lemma FreshStart()
    ensures After([]) == INITIAL && NotAlerted(INITIAL, 0) && EntryOf(INITIAL, "team") == None
  {
  }

  /** All but the first of `n` events count. */
  lemma {:induction false} CountAllButFirst(run: seq<Occurrence>, n: nat, team: string, lo: int, hi: int)
    requires 1 <= n <= |run| && !CountsIn(run, 0, team, lo, hi)
    requires forall i :: 1 <= i < n ==> CountsIn(run, i, team, lo, hi)
    ensures DispatchesIn(run, n, team, lo, hi) == n - 1
  {
    hide CountsIn;
    if n > 1 {
      CountAllButFirst(run, n - 1, team, lo, hi);
    } else {
      assert DispatchesIn(run, 0, team, lo, hi) == 0;
    }
  }

  /** For every limit, twice the limit less one alerts can fall into an hour. */
  lemma HourlyBoundAttained(limit: nat)
    requires limit >= 1
    ensures ClockOrdered(Peak(limit)) && LimitsBetween(Peak(limit), "team", limit, limit)
    ensures InHour(Peak(limit), "team", PEAK_START) == 2 * limit - 1
  {
    PeakAllowed(limit);
    PeakDispatched(limit);
    PeakIsBursts(limit);
    hide OutcomeAt, Peak, CountsIn;
    var run, end := Peak(limit), PEAK_START + ONE_HOUR_MS;
    forall i | 0 <= i < |run| ensures CountsIn(run, i, "team", PEAK_START, end) <==> i >= 1 {
      PeakCounts(limit, i);
    }
    CountAllButFirst(run, |run|, "team", PEAK_START, end);
  }

  lemma PeakCounts(limit: nat, i: nat)
    requires limit >= 1 && i < 2 * limit && OutcomeAt(Peak(limit), i) == Dispatched
    ensures CountsIn(Peak(limit), i, "team", PEAK_START, PEAK_START + ONE_HOUR_MS) <==> i >= 1
  {
    hide OutcomeAt, Peak;
    PeakEvents(limit, i);
  }

  /** Dispatches that are no recoveries in the half-open hour from `t`. */
  ghost function InHour(run: seq<Occurrence>, team: string, t: int): nat {
    DispatchesIn(run, |run|, team, t, t + ONE_HOUR_MS)
  }

  ghost predicate HourlyAtMost(run: seq<Occurrence>, team: string, limit: int) {
    forall t :: InHour(run, team, t) <= limit
  }

  /** The limit holds in every half-open hour of every run exactly when it is at most one. */
  lemma HourlyLimitKeptExactlyUpToOne(limit: nat)
    ensures (forall run, team :: ClockOrdered(run) && LimitsBetween(run, team, limit, limit) ==>
      HourlyAtMost(run, team, limit))
            <==> limit <= 1
  {
    hide DispatchesIn, ClockOrdered, LimitsBetween, Peak;
    if limit <= 1 {
      forall run, team | ClockOrdered(run) && LimitsBetween(run, team, limit, limit)
        ensures HourlyAtMost(run, team, limit) {
        forall t ensures InHour(run, team, t) <= limit {
          LimitWithin(run, team, limit);
          if limit == 1 {
            HourlyBoundTight(run, team, t, 1);
          } else {
            HourlyBound(run, team, t, 0);
          }
        }
      }
    } else {
      HourlyBoundAttained(limit);
      assert InHour(Peak(limit), "team", PEAK_START) > limit;
    }
  }

  lemma LimitWithin(run: seq<Occurrence>, team: string, limit: nat)
    requires LimitsBetween(run, team, limit, limit)
    ensures LimitsBetween(run, team, 0, limit) && (limit >= 1 ==> LimitsBetween(run, team, 1, limit))
  {
  }
}

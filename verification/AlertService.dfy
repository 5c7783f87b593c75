/**
 * server/src/services/alerts/AlertService.ts.  Handling an event up to its first `await` is one step: the answers of
 * the stores and the clock are inputs.
 */
module AlertService {
  import opened Common
  import opened AlertLimits

  datatype Severity = Critical | Warning

  datatype SeverityFilter = AllSeverities | CriticalOnly | WarningAndAbove

  datatype EventKind = StatusChange(currentHealthy: bool) | PollError

  datatype AlertEvent = AlertEvent(kind: EventKind, serviceId: string, dependencyId: Option<string>)

  datatype AlertRule = AlertRule(
    severityFilter: SeverityFilter, useCustomThresholds: bool,
    cooldownMinutes: Option<int>, rateLimitPerHour: Option<int>, alertDelayMinutes: Option<int>)

  datatype Channel = Channel(id: string, channelType: string)

  /** What the stores and settings answer for the event at hand. */
  datatype World = World(
    teamId: Option<string>, rules: seq<AlertRule>, channels: seq<Channel>,
    serviceMuted: bool, dependencyMuted: bool, defaultCooldownMinutes: int, defaultRatePerHour: int)

  /** The in-memory state the engine keeps between events. */
  datatype EngineState = EngineState(
    lastAlertTimes: map<string, int>, teamCounts: map<string, RateLimitEntry>,
    delayTracker: map<string, int>, delayAlertSent: set<string>)

  datatype Outcome =
    | ServiceNotFound | NoRules | NoMatchingRule | NoChannels | Muted
    | SilentRecovery | DelayStarted | DelayPending | FlapSuppressed | RateSuppressed | Dispatched

  // ---------------------------------------------------------------------------
  // Classification
  // ---------------------------------------------------------------------------

  function DetermineSeverity(kind: EventKind): Severity {
    match kind
    case StatusChange(healthy) => if healthy then Warning else Critical
    case PollError => Critical
  }

  predicate MatchesSeverity(filter: SeverityFilter, severity: Severity) {
    match filter
    case AllSeverities => true
    case CriticalOnly => severity == Critical
    case WarningAndAbove => true
  }

  predicate IsRecovery(e: AlertEvent) {
    e.kind == StatusChange(true)
  }

  predicate IsOutage(e: AlertEvent) {
    e.kind == StatusChange(false)
  }

  /** `event.dependencyId || event.serviceId`, the key of delay tracking and of flap protection. */
  function Key(e: AlertEvent): string {
    if e.dependencyId.Some? && e.dependencyId.value != "" then e.dependencyId.value else e.serviceId
  }

  function MatchingRules(e: AlertEvent, w: World): seq<AlertRule> {
    Filter((r: AlertRule) => MatchesSeverity(r.severityFilter, DetermineSeverity(e.kind)), w.rules)
  }

  predicate IsMuted(e: AlertEvent, w: World) {
    (e.kind.PollError? && w.serviceMuted) || (e.dependencyId.Some? && e.dependencyId.value != "" && w.dependencyMuted)
  }

  /** Why an event stops before the delay check; none when it gets there. */
  function Gate(e: AlertEvent, w: World): Option<Outcome> {
    if w.teamId.None? then Some(ServiceNotFound)
    else if w.rules == [] then Some(NoRules)
    else if MatchingRules(e, w) == [] then Some(NoMatchingRule)
    else if w.channels == [] then Some(NoChannels)
    else if IsMuted(e, w) then Some(Muted)
    else None
  }

  // ---------------------------------------------------------------------------
  // The step
  // ---------------------------------------------------------------------------

  function CooldownMs(rule: AlertRule, w: World): int {
    60000 * if rule.useCustomThresholds && rule.cooldownMinutes.Some? then rule.cooldownMinutes.value
            else w.defaultCooldownMinutes
  }

  function MaxPerHour(rule: AlertRule, w: World): int {
    if rule.useCustomThresholds && rule.rateLimitPerHour.Some? then rule.rateLimitPerHour.value
      else w.defaultRatePerHour
  }

  /** The delay check: the new state, and why the event stops here, if it does. */
  function DelayStep(
    s: EngineState, e: AlertEvent, delayMinutes: Option<int>, now: int): (EngineState, Option<Outcome>)
  {
    var key := Key(e);
    if IsRecovery(e) then
      (s.(delayTracker := s.delayTracker - {key}, delayAlertSent := s.delayAlertSent - {key}),
       if key in s.delayTracker && key !in s.delayAlertSent && delayMinutes.Some? then Some(SilentRecovery) else None)
    else if delayMinutes.Some? && e.kind.StatusChange? then
      if key !in s.delayTracker then (s.(delayTracker := s.delayTracker[key := now]), Some(DelayStarted))
      else if now - s.delayTracker[key] < delayMinutes.value * 60000 then (s, Some(DelayPending))
      else (s.(delayAlertSent := s.delayAlertSent + {key}), None)
    else (s, None)
  }

  /** Flap protection, rate limit and dispatch. */
  function LimitStep(s: EngineState, e: AlertEvent, teamId: string, cooldownMs: int, maxPerHour: int, now: int)
    : (EngineState, Outcome)
  {
    var entry := CurrentEntry(s.teamCounts, teamId, now);
    if !IsRecovery(e) && Suppressed(s.lastAlertTimes, Key(e), cooldownMs, now) then (s, FlapSuppressed)
    else if !IsRecovery(e) && entry.count >= maxPerHour then
      (s.(teamCounts := s.teamCounts[teamId := entry]), RateSuppressed)
    else
      (s.(lastAlertTimes := s.lastAlertTimes[Key(e) := now],
          teamCounts := s.teamCounts[teamId := entry.(count := entry.count + 1)]),
       Dispatched)
  }

  function Step(s: EngineState, e: AlertEvent, w: World, now: int): (EngineState, Outcome) {
    match Gate(e, w)
    case Some(outcome) => (s, outcome)
    case None =>
      var rule := MatchingRules(e, w)[0];
      var (delayed, stopped) := DelayStep(s, e, rule.alertDelayMinutes, now);
      match stopped
      case Some(outcome) => (delayed, outcome)
      case None => LimitStep(delayed, e, w.teamId.value, CooldownMs(rule, w), MaxPerHour(rule, w), now)
  }

  // ---------------------------------------------------------------------------
  // Sending
  // ---------------------------------------------------------------------------

  datatype SendOutcome = Succeeded | Failed | Threw

  datatype HistoryStatus = HSent | HFailed | HSuppressed | HMuted

  datatype HistoryRecord = HistoryRecord(channelId: string, status: HistoryStatus)

  /** One record for each channel. */
  function RecordAll(channels: seq<Channel>, status: HistoryStatus): seq<HistoryRecord> {
    MapSeq((c: Channel) => HistoryRecord(c.id, status), channels)
  }

  /** What the history shows for an event that was not dispatched. */
  function HistoryOf(outcome: Outcome, channels: seq<Channel>): seq<HistoryRecord> {
    match outcome
    case Muted => RecordAll(channels, HMuted)
    case FlapSuppressed => RecordAll(channels, HSuppressed)
    case RateSuppressed => RecordAll(channels, HSuppressed)
    case _ => []
  }

  datatype PendingRetry = PendingRetry(timer: nat, channelId: string)

  class AlertEngine {
    const flapProtector: FlapProtector
    const rateLimiter: AlertRateLimiter
    var delayTracker: map<string, int>
    var delayAlertSent: set<string>
    var senders: set<string>
    var pendingRetries: seq<PendingRetry>
    var nextTimer: nat

    ghost function State(): EngineState
      reads this, flapProtector, rateLimiter
    {
      EngineState(flapProtector.lastAlertTimes, rateLimiter.teamCounts, delayTracker, delayAlertSent)
    }

    /** Timers are numbered in the order in which they were started. */
    ghost predicate Valid()
      reads this
    {
      && (forall i :: 0 <= i < |pendingRetries| ==> pendingRetries[i].timer < nextTimer)
      && (forall i, j :: 0 <= i < j < |pendingRetries| ==> pendingRetries[i].timer < pendingRetries[j].timer)
    }

    constructor (senders: set<string>)
      ensures State() == EngineState(map[], map[], map[], {}) && Valid() && pendingRetries == []
      ensures this.senders == senders
      ensures fresh(flapProtector) && fresh(rateLimiter)
    {
      flapProtector := new FlapProtector();
      rateLimiter := new AlertRateLimiter();
      delayTracker := map[];
      delayAlertSent := {};
      this.senders := senders;
      pendingRetries := [];
      nextTimer := 0;
    }

    method Shutdown()
      modifies this, flapProtector, rateLimiter
      ensures State() == EngineState(map[], map[], map[], {}) && Valid() && pendingRetries == []
    {
      pendingRetries := [];
      flapProtector.Clear();
      rateLimiter.Clear();
      delayTracker := map[];
      delayAlertSent := {};
    }

    /** The synchronous part of `processEvent`. */
    method ProcessEvent(e: AlertEvent, w: World, now: int) returns (outcome: Outcome, history: seq<HistoryRecord>)
      modifies this, flapProtector, rateLimiter
      ensures (State(), outcome) == Step(old(State()), e, w, now)
      ensures history == HistoryOf(outcome, w.channels)
      ensures senders == old(senders) && pendingRetries == old(pendingRetries) && nextTimer == old(nextTimer)
    {
      if w.teamId.None? {
        return ServiceNotFound, [];
      }
      var teamId := w.teamId.value;
      if |w.rules| == 0 {
        return NoRules, [];
      }
      var matchingRules := MatchingRules(e, w);
      if |matchingRules| == 0 {
        return NoMatchingRule, [];
      }
      if |w.channels| == 0 {
        return NoChannels, [];
      }
      var isRecovery := e.kind.StatusChange? && e.kind.currentHealthy;
      if e.kind.PollError? && w.serviceMuted {
        return Muted, RecordAll(w.channels, HMuted);
      }
      if e.dependencyId.Some? && e.dependencyId.value != "" && w.dependencyMuted {
        return Muted, RecordAll(w.channels, HMuted);
      }
      var rule := matchingRules[0];
      var delayMinutes := rule.alertDelayMinutes;
      var key := Key(e);
      if isRecovery {
        var wasTracking := key in delayTracker;
        var alertWasSent := key in delayAlertSent;
        delayTracker := delayTracker - {key};
        delayAlertSent := delayAlertSent - {key};
        if wasTracking && !alertWasSent && delayMinutes.Some? {
          return SilentRecovery, [];
        }
      } else if delayMinutes.Some? && e.kind.StatusChange? {
        if key !in delayTracker {
          delayTracker := delayTracker[key := now];
          return DelayStarted, [];
        }
        var elapsedMs := now - delayTracker[key];
        if elapsedMs < delayMinutes.value * 60000 {
          return DelayPending, [];
        }
        delayAlertSent := delayAlertSent + {key};
      }
      assert (State(), None) == DelayStep(old(State()), e, delayMinutes, now);
      if !isRecovery {
        var flapping := flapProtector.IsSuppressed(key, CooldownMs(rule, w), now);
        if flapping {
          return FlapSuppressed, RecordAll(w.channels, HSuppressed);
        }
        var limited := rateLimiter.IsLimited(teamId, MaxPerHour(rule, w), now);
        if limited {
          return RateSuppressed, RecordAll(w.channels, HSuppressed);
        }
      }
      flapProtector.RecordAlert(key, now);
      rateLimiter.RecordAlert(teamId, now);
      ghost var entry := CurrentEntry(old(State()).teamCounts, teamId, now);
      assert rateLimiter.teamCounts == old(State()).teamCounts[teamId := entry.(count := entry.count + 1)];
      return Dispatched, [];
    }

    /** `scheduleRetry`: one timer for a registered sender. */
    method ScheduleRetry(channel: Channel)
      requires Valid()
      modifies this`pendingRetries, this`nextTimer
      ensures Valid()
      ensures if channel.channelType in senders
              then pendingRetries == old(pendingRetries) + [PendingRetry(old(nextTimer), channel.id)]
              else pendingRetries == old(pendingRetries)
    {
      if channel.channelType !in senders {
        return;
      }
      pendingRetries := pendingRetries + [PendingRetry(nextTimer, channel.id)];
      nextTimer := nextTimer + 1;
    }

    /**
     * The channel loop after a dispatch.  Every channel leaves exactly one history record, and a retry is scheduled for
     * exactly the channels whose registered sender did not succeed, in channel order.
     */
    method SendToChannels(channels: seq<Channel>, send: Channel -> SendOutcome) returns (history: seq<HistoryRecord>)
      requires Valid()
      modifies this`pendingRetries, this`nextTimer
      ensures Valid() && |history| == |channels|
      ensures forall i :: 0 <= i < |channels| ==>
        history[i] == HistoryRecord(channels[i].id,
                                    if channels[i].channelType in senders && send(channels[i]) == Succeeded
                                    then HSent else HFailed)
      ensures RetryChannels(pendingRetries) == RetryChannels(old(pendingRetries)) + FailedSends(channels, senders, send)
    {
      history := [];
      for i := 0 to |channels|
        invariant Valid() && |history| == i
        invariant forall j :: 0 <= j < i ==>
          history[j] == HistoryRecord(channels[j].id,
                                      if channels[j].channelType in senders && send(channels[j]) == Succeeded
                                      then HSent else HFailed)
        invariant RetryChannels(pendingRetries)
          == RetryChannels(old(pendingRetries)) + FailedSends(channels[..i], senders, send)
      {
        var channel := channels[i];
        assert channels[..i + 1][..i] == channels[..i];
        ghost var before := pendingRetries;
        if channel.channelType !in senders {
          history := history + [HistoryRecord(channel.id, HFailed)];
        } else if send(channel) == Succeeded {
          history := history + [HistoryRecord(channel.id, HSent)];
        } else {
          history := history + [HistoryRecord(channel.id, HFailed)];
          ScheduleRetry(channel);
          assert RetryChannels(pendingRetries) == RetryChannels(before) + [channel.id];
        }
      }
      assert channels[..|channels|] == channels;
    }

    /** A retry timer fires: it leaves the pending list, is sent once more and is never scheduled again. */
    method FireRetry(i: nat, result: SendOutcome) returns (history: seq<HistoryRecord>)
      requires Valid() && i < |pendingRetries|
      modifies this`pendingRetries
      ensures Valid() && pendingRetries == old(pendingRetries)[..i] + old(pendingRetries)[i + 1..]
      ensures history == if result == Succeeded then [HistoryRecord(old(pendingRetries)[i].channelId, HSent)] else []
    {
      var retry := pendingRetries[i];
      OthersStay(pendingRetries, i);
      pendingRetries := Filter(OtherTimer(retry.timer), pendingRetries);
      history := if result == Succeeded then [HistoryRecord(retry.channelId, HSent)] else [];
    }
  }

  function RetryChannels(retries: seq<PendingRetry>): seq<string> {
    MapSeq((r: PendingRetry) => r.channelId, retries)
  }

  /** The channels that need a retry: a registered sender that did not succeed. */
  function FailedSends(channels: seq<Channel>, senders: set<string>, send: Channel -> SendOutcome): seq<string> {
    if channels == [] then []
    else
      var last := channels[|channels| - 1];
      FailedSends(channels[..|channels| - 1], senders, send) +
      if last.channelType in senders && send(last) != Succeeded then [last.id] else []
  }

  /** `r => r.timer !== timer` */
  function OtherTimer(timer: nat): PendingRetry -> bool {
    (r: PendingRetry) => r.timer != timer
  }

  lemma {:induction false} KeepAll(retries: seq<PendingRetry>, timer: nat)
    requires forall i :: 0 <= i < |retries| ==> retries[i].timer != timer
    ensures Filter(OtherTimer(timer), retries) == retries
  {
    if retries != [] {
      KeepAll(retries[1..], timer);
    }
  }

  /** Dropping one timer from an increasing list drops one entry. */
  lemma {:induction false} OthersStay(retries: seq<PendingRetry>, i: nat)
    requires i < |retries| && forall k, l :: 0 <= k < l < |retries| ==> retries[k].timer < retries[l].timer
    ensures Filter(OtherTimer(retries[i].timer), retries) == retries[..i] + retries[i + 1..]
  {
    if i == 0 {
      KeepAll(retries[1..], retries[0].timer);
    } else {
      OthersStay(retries[1..], i - 1);
      assert retries[..i] + retries[i + 1..] == [retries[0]] + (retries[1..][..i - 1] + retries[1..][i..]);
    }
  }
}

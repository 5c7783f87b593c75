/**
 * server/src/services/alerts/FlapProtector.ts and AlertRateLimiter.ts.  `now` stands for `Date.now()`, in milliseconds.
 */
module AlertLimits {
  const ONE_HOUR_MS := 60 * 60 * 1000

  // ---------------------------------------------------------------------------
  // Cooldown per key
  // ---------------------------------------------------------------------------

  predicate Suppressed(lastAlertTimes: map<string, int>, key: string, cooldownMs: int, now: int) {
    cooldownMs > 0 && key in lastAlertTimes && now - lastAlertTimes[key] < cooldownMs
  }

  class FlapProtector {
    var lastAlertTimes: map<string, int>

    constructor ()
      ensures lastAlertTimes == map[]
    {
      lastAlertTimes := map[];
    }

    method IsSuppressed(key: string, cooldownMs: int, now: int) returns (suppressed: bool)
      ensures suppressed == Suppressed(lastAlertTimes, key, cooldownMs, now)
    {
      if cooldownMs <= 0 {
        return false;
      }
      if key !in lastAlertTimes {
        return false;
      }
      suppressed := now - lastAlertTimes[key] < cooldownMs;
    }

    method RecordAlert(key: string, now: int)
      modifies this
      ensures lastAlertTimes == old(lastAlertTimes)[key := now]
    {
      lastAlertTimes := lastAlertTimes[key := now];
    }

    method Clear()
      modifies this
      ensures lastAlertTimes == map[]
    {
      lastAlertTimes := map[];
    }
  }

  // ---------------------------------------------------------------------------
  // Hourly window per team
  // ---------------------------------------------------------------------------

  datatype RateLimitEntry = RateLimitEntry(count: nat, windowStart: int)

  /** The entry of the window in force at `now`, a new one when there is none or the hour is over. */
  function CurrentEntry(teamCounts: map<string, RateLimitEntry>, teamId: string, now: int): RateLimitEntry {
    if teamId !in teamCounts || now - teamCounts[teamId].windowStart >= ONE_HOUR_MS then RateLimitEntry(0, now)
    else teamCounts[teamId]
  }

  class AlertRateLimiter {
    var teamCounts: map<string, RateLimitEntry>

    constructor ()
      ensures teamCounts == map[]
    {
      teamCounts := map[];
    }

    method GetOrCreateEntry(teamId: string, now: int) returns (entry: RateLimitEntry)
      modifies this
      ensures entry == CurrentEntry(old(teamCounts), teamId, now)
      ensures teamCounts == old(teamCounts)[teamId := entry]
    {
      if teamId !in teamCounts || now - teamCounts[teamId].windowStart >= ONE_HOUR_MS {
        entry := RateLimitEntry(0, now);
        teamCounts := teamCounts[teamId := entry];
        return;
      }
      entry := teamCounts[teamId];
      assert teamCounts == old(teamCounts)[teamId := entry];
    }

    /** Asking also opens the window. */
    method IsLimited(teamId: string, maxPerHour: int, now: int) returns (limited: bool)
      modifies this
      ensures var entry := CurrentEntry(old(teamCounts), teamId, now);
              limited == (entry.count >= maxPerHour) && teamCounts == old(teamCounts)[teamId := entry]
    {
      var entry := GetOrCreateEntry(teamId, now);
      limited := entry.count >= maxPerHour;
    }

    method RecordAlert(teamId: string, now: int)
      modifies this
      ensures var entry := CurrentEntry(old(teamCounts), teamId, now);
              teamCounts == old(teamCounts)[teamId := entry.(count := entry.count + 1)]
    {
      var entry := GetOrCreateEntry(teamId, now);
      teamCounts := teamCounts[teamId := entry.(count := entry.count + 1)];
    }

    method Clear()
      modifies this
      ensures teamCounts == map[]
    {
      teamCounts := map[];
    }
  }
}

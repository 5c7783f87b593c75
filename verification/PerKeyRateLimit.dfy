/** server/src/middleware/perKeyRateLimit.ts: one token bucket per API key.  Times are milliseconds. */
module PerKeyRateLimit {
  import opened Common

  type NonZero = r: real | r != 0.0 witness 1.0

  /** OTLP_PER_KEY_RATE_LIMIT_RPM, OTLP_RATE_LIMIT_BURST_SECONDS and OTLP_RATE_LIMIT_WARNING_THRESHOLD. */
  datatype Config = Config(defaultRpm: int, burstSeconds: int, warningThreshold: real)

  datatype KeyRecord = KeyRecord(rateLimitRpm: Option<int>)

  datatype Bucket = Bucket(tokens: real, capacity: int, refillRatePerMs: NonZero, lastRefillAt: int, effectiveRpm: int)

  /**
   * A request as the middleware sees it, with the mode, the key id, its stored record and the clock, or the eviction of
   * a key's bucket.
   */
  datatype Event =
    | Request(development: bool, apiKeyId: Option<string>, key: Option<KeyRecord>, now: int)
    | Eviction(evictedId: string, now: int)

  datatype Outcome = Bypassed | Allowed | Rejected(retryAfterSec: int)

  /** RateLimit-Limit, RateLimit-Remaining, RateLimit-Reset, Retry-After and X-RateLimit-Warning. */
  datatype Headers = Headers(limit: int, remaining: int, reset: int, retryAfter: Option<int>, warning: bool)

  /** The decision, the headers set, and whether a warning is logged. */
  datatype Reply = Reply(outcome: Outcome, headers: Option<Headers>, logged: bool)

  const ALERT_DEBOUNCE_MS := 15 * 60 * 1000

  // ---------------------------------------------------------------------------
  // One request
  // ---------------------------------------------------------------------------

  function Ceil(r: real): int {
    -(-r).Floor
  }

  function Min(a: real, b: real): real {
    if b < a then b else a
  }

  function EffectiveRpm(config: Config, key: KeyRecord): int {
    if key.rateLimitRpm.Some? then key.rateLimitRpm.value else config.defaultRpm
  }

  function RefillRate(rpm: int): (r: real)
    ensures r != 0.0 <==> rpm != 0
    ensures r > 0.0 <==> rpm > 0
  {
    rpm as real / 60.0 / 1000.0
  }

  function Capacity(config: Config, rpm: int): int {
    Ceil(rpm as real / 60.0 * config.burstSeconds as real)
  }

  function NewBucket(config: Config, rpm: int, now: int): Bucket
    requires rpm != 0
  {
    Bucket(Capacity(config, rpm) as real, Capacity(config, rpm), RefillRate(rpm), now, rpm)
  }

  /** Tokens a rate earns in `ms` milliseconds. */
  function Earning(ratePerMs: real, ms: int): real {
    ms as real * ratePerMs
  }

  /** Tokens earned since the last refill. */
  function Earned(b: Bucket, now: int): real {
    Earning(b.refillRatePerMs, now - b.lastRefillAt)
  }

  function Refilled(b: Bucket, now: int): Bucket {
    b.(tokens := Min(b.capacity as real, b.tokens + Earned(b, now)), lastRefillAt := now)
  }

  function RetryAfterSec(b: Bucket): int {
    Ceil((1.0 - b.tokens) / b.refillRatePerMs / 1000.0)
  }

  function Take(b: Bucket): (Bucket, Outcome) {
    if b.tokens < 1.0 then (b, Rejected(RetryAfterSec(b))) else (b.(tokens := b.tokens - 1.0), Allowed)
  }

  /** The request is charged to `id`: not in development, with a known key that is not unlimited. */
  predicate Charged(r: Event, id: string) {
    && r.Request? && !r.development && r.apiKeyId == Some(id) && id != ""
    && r.key.Some? && r.key.value.rateLimitRpm != Some(0)
  }

  predicate Evicts(r: Event, id: string) {
    r.Eviction? && r.evictedId == id
  }

  /** The bucket the request is charged to, existing or new; none when the key's default is unlimited. */
  function BucketFor(
    config: Config, buckets: map<string, Bucket>, id: string, key: KeyRecord, now: int): Option<Bucket>
  {
    if id in buckets then Some(buckets[id])
    else if EffectiveRpm(config, key) == 0 then None
    else Some(NewBucket(config, EffectiveRpm(config, key), now))
  }

  function Step(config: Config, buckets: map<string, Bucket>, r: Event): (map<string, Bucket>, Outcome) {
    if r.Eviction? then (buckets - {r.evictedId}, Bypassed)
    else if r.apiKeyId.None? || !Charged(r, r.apiKeyId.value) then (buckets, Bypassed)
    else
      var id := r.apiKeyId.value;
      match BucketFor(config, buckets, id, r.key.value, r.now)
      case None => (buckets, Bypassed)
      case Some(b) =>
        var (b', outcome) := Take(Refilled(b, r.now));
        (buckets[id := b'], outcome)
  }

  /** The share of the bucket in use has reached the threshold. */
  predicate NearLimit(config: Config, b: Bucket) {
    b.capacity != 0 && (b.capacity as real - b.tokens) / b.capacity as real >= config.warningThreshold
  }

  function HeadersFor(b: Bucket, now: int, outcome: Outcome, warning: bool): Headers {
    Headers(
      b.effectiveRpm, if b.tokens.Floor < 0 then 0 else b.tokens.Floor,
      Ceil(now as real / 1000.0 + (b.capacity as real - b.tokens) / b.refillRatePerMs / 1000.0),
      if outcome.Rejected? then Some(outcome.retryAfterSec) else None, warning)
  }

  /** The reply once the buckets are charged, and when each key was last warned about. */
  function Answer(
    config: Config, charged: map<string, Bucket>, lastAlertAt: map<string, int>, r: Event, outcome: Outcome)
    : (map<string, int>, Reply)
  {
    if outcome == Bypassed || r.Eviction? || r.apiKeyId.None? || r.apiKeyId.value !in charged then
      (lastAlertAt, Reply(outcome, None, false))
    else
      var id := r.apiKeyId.value;
      var b := charged[id];
      var warning := outcome == Allowed && NearLimit(config, b);
      var due := warning && r.now - (if id in lastAlertAt then lastAlertAt[id] else 0) > ALERT_DEBOUNCE_MS;
      (if due then lastAlertAt[id := r.now] else lastAlertAt,
       Reply(outcome, Some(HeadersFor(b, r.now, outcome, warning)), due))
  }

  lemma ChargedHasBucket(config: Config, buckets: map<string, Bucket>, r: Event)
    ensures var (charged, outcome) := Step(config, buckets, r);
            outcome != Bypassed ==> r.Request? && r.apiKeyId.Some? && r.apiKeyId.value in charged
  {
  }

  // ---------------------------------------------------------------------------
  // The middleware and its module state
  // ---------------------------------------------------------------------------

  class TokenBucket {
    var tokens: real
    const capacity: int
    const refillRatePerMs: NonZero
    var lastRefillAt: int
    const effectiveRpm: int

    constructor (b: Bucket)
      ensures State() == b
    {
      tokens := b.tokens;
      capacity := b.capacity;
      refillRatePerMs := b.refillRatePerMs;
      lastRefillAt := b.lastRefillAt;
      effectiveRpm := b.effectiveRpm;
    }

    ghost function State(): Bucket
      reads this
    {
      Bucket(tokens, capacity, refillRatePerMs, lastRefillAt, effectiveRpm)
    }

    method Refill(now: int)
      modifies this
      ensures State() == Refilled(old(State()), now)
    {
      var elapsed := now - lastRefillAt;
      tokens := Min(capacity as real, tokens + elapsed as real * refillRatePerMs);
      lastRefillAt := now;
    }
  }

  class RateLimiter {
    const config: Config
    var buckets: map<string, TokenBucket>
    var lastAlertAt: map<string, int>

    /** No bucket serves two keys. */
    ghost predicate Valid()
      reads this
    {
      forall k, l :: k in buckets && l in buckets && k != l ==> buckets[k] != buckets[l]
    }

    ghost function View(): map<string, Bucket>
      reads this, buckets.Values
    {
      map k | k in buckets :: buckets[k].State()
    }

    constructor (config: Config)
      ensures Valid() && View() == map[] && lastAlertAt == map[] && this.config == config
    {
      this.config := config;
      buckets, lastAlertAt := map[], map[];
    }

    method EvictBucket(apiKeyId: string)
      requires Valid()
      modifies this`buckets
      ensures Valid() && View() == old(View()) - {apiKeyId} == Step(config, old(View()), Eviction(apiKeyId, 0)).0
    {
      buckets := buckets - {apiKeyId};
    }

    method GetOrCreateBucket(apiKeyId: string, key: KeyRecord, now: int) returns (bucket: TokenBucket?)
      requires Valid()
      modifies this`buckets
      ensures Valid()
      ensures var b := BucketFor(config, old(View()), apiKeyId, key, now);
              if b.None? then bucket == null && View() == old(View())
              else bucket != null && apiKeyId in buckets && buckets[apiKeyId] == bucket
                   && View() == old(View())[apiKeyId := b.value]
      ensures forall k :: k in buckets ==> fresh(buckets[k]) || buckets[k] in old(buckets.Values)
    {
      if apiKeyId in buckets {
        return buckets[apiKeyId];
      }
      var effectiveRpm := EffectiveRpm(config, key);
      if effectiveRpm == 0 {
        return null;
      }
      var created := new TokenBucket(NewBucket(config, effectiveRpm, now));
      buckets := buckets[apiKeyId := created];
      bucket := created;
    }

    /** The bucket's part of the handler. */
    method Charge(r: Event) returns (outcome: Outcome)
      requires Valid() && r.Request?
      modifies this`buckets, buckets.Values
      ensures Valid()
      ensures (View(), outcome) == Step(config, old(View()), r)
    {
      hide Earned, Capacity, RefillRate;
      if r.development || r.apiKeyId.None? || r.apiKeyId.value == "" {
        return Bypassed;
      }
      var apiKeyId := r.apiKeyId.value;
      if r.key.None? || r.key.value.rateLimitRpm == Some(0) {
        return Bypassed;
      }
      var bucket := GetOrCreateBucket(apiKeyId, r.key.value, r.now);
      if bucket == null {
        return Bypassed;
      }
      label Found:
      ghost var found := BucketFor(config, old(View()), apiKeyId, r.key.value, r.now).value;
      assert View() == old(View())[apiKeyId := found];
      assert bucket.State() == View()[apiKeyId] == found;
      bucket.Refill(r.now);
      if bucket.tokens < 1.0 {
        outcome := Rejected(Ceil((1.0 - bucket.tokens) / bucket.refillRatePerMs / 1000.0));
      } else {
        bucket.tokens := bucket.tokens - 1.0;
        outcome := Allowed;
      }
      ghost var charged := Take(Refilled(found, r.now));
      assert bucket.State() == charged.0 && outcome == charged.1;
      assert View() == old(View())[apiKeyId := charged.0];
    }

    /** The handler: the bucket is charged, the headers are set and a due warning is logged. */
    method Handle(r: Event) returns (reply: Reply)
      requires Valid() && r.Request?
      modifies this, buckets.Values
      ensures Valid()
      ensures var (charged, outcome) := Step(config, old(View()), r);
              View() == charged && (lastAlertAt, reply) == Answer(config, charged, old(lastAlertAt), r, outcome)
    {
      ChargedHasBucket(config, View(), r);
      hide Step, Ceil, NearLimit, HeadersFor;
      var outcome := Charge(r);
      if outcome == Bypassed {
        return Reply(Bypassed, None, false);
      }
      var apiKeyId := r.apiKeyId.value;
      assert apiKeyId in View();
      var b := buckets[apiKeyId];
      var state := Bucket(b.tokens, b.capacity, b.refillRatePerMs, b.lastRefillAt, b.effectiveRpm);
      var warning, logged := false, false;
      if outcome == Allowed && NearLimit(config, state) {
        warning := true;
        var last := if apiKeyId in lastAlertAt then lastAlertAt[apiKeyId] else 0;
        if r.now - last > ALERT_DEBOUNCE_MS {
          lastAlertAt := lastAlertAt[apiKeyId := r.now];
          logged := true;
        }
      }
      reply := Reply(outcome, Some(HeadersFor(state, r.now, outcome, warning)), logged);
    }
  }

  // ---------------------------------------------------------------------------
  // Runs
  // ---------------------------------------------------------------------------

  /** The buckets after handling `rs` in order, starting with none. */
  ghost function After(config: Config, rs: seq<Event>): map<string, Bucket> {
    if rs == [] then map[] else Step(config, After(config, rs[..|rs| - 1]), rs[|rs| - 1]).0
  }

  ghost function OutcomeAt(config: Config, rs: seq<Event>, i: nat): Outcome
    requires i < |rs|
  {
    Step(config, After(config, rs[..i]), rs[i]).1
  }

  ghost predicate ClockOrdered(rs: seq<Event>) {
    forall i, j :: 0 <= i <= j < |rs| ==> rs[i].now <= rs[j].now
  }

  /** Every request charged to `id` finds the same positive rate, and bursts last at least a second. */
  ghost predicate SteadyKey(config: Config, rs: seq<Event>, id: string, rpm: int) {
    && rpm > 0 && config.burstSeconds > 0
    && forall i :: 0 <= i < |rs| && Charged(rs[i], id) ==> EffectiveRpm(config, rs[i].key.value) == rpm
  }

  /** Every request charged to `id` finds a positive rate, perhaps another one each time. */
  ghost predicate PositiveRates(config: Config, rs: seq<Event>, id: string) {
    && config.burstSeconds > 0
    && forall i :: 0 <= i < |rs| && Charged(rs[i], id) ==> EffectiveRpm(config, rs[i].key.value) > 0
  }

  /** A bucket for `rpm`, not overfull, not overdrawn and not refilled in the future. */
  ghost predicate InRange(config: Config, b: Bucket, rpm: int, now: int) {
    && rpm > 0
    && b.capacity == Capacity(config, rpm) && b.refillRatePerMs == RefillRate(rpm) && b.effectiveRpm == rpm
    && 0.0 <= b.tokens <= b.capacity as real
    && b.lastRefillAt <= now
  }

  lemma AfterStep(config: Config, rs: seq<Event>, i: nat)
    requires i < |rs|
    ensures After(config, rs[..i + 1]) == Step(config, After(config, rs[..i]), rs[i]).0
  {
    assert rs[..i + 1][..i] == rs[..i];
  }

  /** Requests charged to other keys leave this key's bucket alone. */
  lemma OtherKeysDoNotMatter(config: Config, buckets: map<string, Bucket>, r: Event, id: string)
    requires !Charged(r, id) && !Evicts(r, id)
    ensures var after := Step(config, buckets, r).0;
            (id in after <==> id in buckets) && (id in buckets ==> after[id] == buckets[id])
  {
  }

  lemma CapacityPositive(config: Config, rpm: int)
    requires rpm > 0 && config.burstSeconds > 0
    ensures Capacity(config, rpm) >= 1
  {
    var x := rpm as real / 60.0 * config.burstSeconds as real;
    assert x > 0.0;
    assert (-x).Floor < 0;
  }

  lemma EarnedNonNegative(b: Bucket, now: int)
    requires b.lastRefillAt <= now && b.refillRatePerMs > 0.0
    ensures Earned(b, now) >= 0.0
  {
  }

  /** A charged request keeps the bucket in range, whatever is decided. */
  lemma ChargeInRange(config: Config, b: Bucket, rpm: int, before: int, now: int)
    requires InRange(config, b, rpm, before) && before <= now && config.burstSeconds > 0
    ensures InRange(config, Take(Refilled(b, now)).0, rpm, now)
  {
    hide Earned, Capacity, RefillRate, RetryAfterSec;
    EarnedNonNegative(b, now);
  }

  /** `0 <= tokens <= capacity` on every run, whatever positive rates the key gets. */
  lemma {:induction false} TokensInRange(config: Config, rs: seq<Event>, id: string, n: nat)
    requires ClockOrdered(rs) && PositiveRates(config, rs, id) && n <= |rs|
    requires id in After(config, rs[..n])
    ensures n > 0
    ensures var b := After(config, rs[..n])[id]; InRange(config, b, b.effectiveRpm, rs[n - 1].now)
  {
    hide Capacity, RefillRate, Take, Refilled;
    if n > 0 {
      var i := n - 1;
      AfterStep(config, rs, i);
      assert !Evicts(rs[i], id);
      if id in After(config, rs[..i]) {
        TokensInRange(config, rs, id, i);
        if Charged(rs[i], id) {
          var b := After(config, rs[..i])[id];
          ChargeInRange(config, b, b.effectiveRpm, rs[i - 1].now, rs[i].now);
        } else {
          OtherKeysDoNotMatter(config, After(config, rs[..i]), rs[i], id);
        }
      } else {
        if !Charged(rs[i], id) {
          OtherKeysDoNotMatter(config, After(config, rs[..i]), rs[i], id);
        }
        var rpm := EffectiveRpm(config, rs[i].key.value);
        CapacityPositive(config, rpm);
        var created := NewBucket(config, rpm, rs[i].now);
        ChargeInRange(config, created, rpm, rs[i].now, rs[i].now);
      }
    }
  }

  /** A key of one rate has buckets of that rate. */
  lemma {:induction false} SteadyBucket(config: Config, rs: seq<Event>, id: string, rpm: int, n: nat)
    requires ClockOrdered(rs) && SteadyKey(config, rs, id, rpm) && n <= |rs|
    requires id in After(config, rs[..n])
    ensures n > 0 && InRange(config, After(config, rs[..n])[id], rpm, rs[n - 1].now)
  {
    hide Capacity, RefillRate, InRange;
    TokensInRange(config, rs, id, n);
    SteadyRate(config, rs, id, rpm, n);
  }

  lemma {:induction false} SteadyRate(config: Config, rs: seq<Event>, id: string, rpm: int, n: nat)
    requires SteadyKey(config, rs, id, rpm) && n <= |rs| && id in After(config, rs[..n])
    ensures After(config, rs[..n])[id].effectiveRpm == rpm
  {
    hide Capacity, RefillRate, Earned, RetryAfterSec;
    if n > 0 {
      AfterStep(config, rs, n - 1);
      if id in After(config, rs[..n - 1]) {
        SteadyRate(config, rs, id, rpm, n - 1);
      }
      if !Charged(rs[n - 1], id) && !Evicts(rs[n - 1], id) {
        OtherKeysDoNotMatter(config, After(config, rs[..n - 1]), rs[n - 1], id);
      }
    }
  }

  /** How many requests charged to `id` were accepted among `rs[i..j]`. */
  ghost function Accepted(config: Config, rs: seq<Event>, id: string, i: nat, j: nat): nat
    requires i <= j <= |rs|
  {
    if i == j then 0
    else Accepted(config, rs, id, i, j - 1) +
         if Charged(rs[j - 1], id) && OutcomeAt(config, rs, j - 1) == Allowed then 1 else 0
  }

  /** How many of the events `rs[i..j]` evict the bucket of `id`. */
  ghost function Evictions(rs: seq<Event>, id: string, i: nat, j: nat): nat
    requires i <= j <= |rs|
  {
    if i == j then 0 else Evictions(rs, id, i, j - 1) + if Evicts(rs[j - 1], id) then 1 else 0
  }

  /** The tokens of `k` full buckets. */
  ghost function Full(capacity: int, k: nat): real {
    if k == 0 then 0.0 else Full(capacity, k - 1) + capacity as real
  }

  lemma {:induction false} FullIsProduct(capacity: int, k: nat)
    ensures Full(capacity, k) == k as real * capacity as real
    ensures capacity >= 0 ==> Full(capacity, k) >= 0.0
  {
    if k > 0 {
      FullIsProduct(capacity, k - 1);
      var n, c := (k - 1) as real, capacity as real;
      assert k as real == n + 1.0;
      assert (n + 1.0) * c == n * c + c;
    }
  }

  lemma EarningAdds(rate: real, a: int, b: int)
    ensures Earning(rate, a) + Earning(rate, b) == Earning(rate, a + b)
  {
    assert (a + b) as real == a as real + b as real;
  }

  lemma EarningMonotone(rate: real, a: int, b: int)
    requires rate > 0.0 && a <= b
    ensures Earning(rate, a) <= Earning(rate, b)
  {
    assert (b - a) as real == b as real - a as real;
    assert (b - a) as real * rate >= 0.0;
  }

  lemma NothingEarned(rate: real)
    ensures Earning(rate, 0) == 0.0
  {
  }

  lemma ClockAt(rs: seq<Event>, i: nat, j: nat)
    requires ClockOrdered(rs) && i <= j < |rs|
    ensures rs[i].now <= rs[j].now
  {
  }

  lemma EvictedBuckets(config: Config, buckets: map<string, Bucket>, r: Event, id: string)
    requires Evicts(r, id)
    ensures Step(config, buckets, r).0 == buckets - {id}
  {
  }

  lemma FullGrows(capacity: int, k: nat)
    requires capacity >= 0
    ensures Full(capacity, k + 1) == Full(capacity, k) + capacity as real && Full(capacity, k) >= 0.0
  {
    FullIsProduct(capacity, k);
  }

  /** The key's bucket in force after `rs[i..j]` was charged among them. */
  ghost predicate Used(rs: seq<Event>, id: string, i: nat, j: nat)
    requires i <= j <= |rs|
  {
    i < j && (Charged(rs[j - 1], id) || (Used(rs, id, i, j - 1) && !Evicts(rs[j - 1], id)))
  }

  /**
   * What the buckets charged among `rs[i..j]` can give: the capacity of each at its first charge there, and what it
   * earned, at its own rate, from then to its last.
   */
  ghost function Allowance(config: Config, rs: seq<Event>, id: string, i: nat, j: nat): real
    requires i <= j <= |rs| && PositiveRates(config, rs, id)
  {
    if i == j then 0.0
    else
      var before, r := After(config, rs[..j - 1]), rs[j - 1];
      Allowance(config, rs, id, i, j - 1) +
      if !Charged(r, id) then 0.0
      else if Used(rs, id, i, j - 1) && id in before then Earned(before[id], r.now)
      else BucketFor(config, before, id, r.key.value, r.now).value.capacity as real
  }

  lemma {:induction false} UsedHasBucket(config: Config, rs: seq<Event>, id: string, i: nat, j: nat)
    requires i <= j <= |rs| && PositiveRates(config, rs, id) && Used(rs, id, i, j)
    ensures id in After(config, rs[..j])
  {
    hide Capacity, RefillRate, Earned, RetryAfterSec;
    AfterStep(config, rs, j - 1);
    if !Charged(rs[j - 1], id) {
      UsedHasBucket(config, rs, id, i, j - 1);
      OtherKeysDoNotMatter(config, After(config, rs[..j - 1]), rs[j - 1], id);
    }
  }

  /** A charge takes its token from what the bucket has and earns, or from a full one. */
  lemma ChargeTakesToken(config: Config, buckets: map<string, Bucket>, r: Event, id: string)
    requires Charged(r, id) && EffectiveRpm(config, r.key.value) > 0
    ensures var b := BucketFor(config, buckets, id, r.key.value, r.now).value;
            var (after, outcome) := Step(config, buckets, r);
            var taken := if outcome == Allowed then 1.0 else 0.0;
            && id in after && after[id].tokens + taken <= b.capacity as real
            && after[id].tokens + taken <= b.tokens + Earned(b, r.now)
  {
    hide Capacity, RefillRate, Earned, RetryAfterSec;
  }

  /** Tokens left in a bucket in use. */
  ghost function Left(config: Config, rs: seq<Event>, id: string, i: nat, j: nat): real
    requires i <= j <= |rs|
  {
    if Used(rs, id, i, j) && id in After(config, rs[..j]) then After(config, rs[..j])[id].tokens else 0.0
  }

  lemma {:induction false} AcceptedAndLeft(config: Config, rs: seq<Event>, id: string, i: nat, j: nat)
    requires ClockOrdered(rs) && PositiveRates(config, rs, id) && i <= j <= |rs|
    ensures Accepted(config, rs, id, i, j) as real + Left(config, rs, id, i, j) <= Allowance(config, rs, id, i, j)
  {
    hide Step, After, InRange, ClockOrdered, BucketFor, Earned;
    if i < j {
      var m := j - 1;
      var before, r := After(config, rs[..m]), rs[m];
      AcceptedAndLeft(config, rs, id, i, m);
      AfterStep(config, rs, m);
      if Charged(r, id) {
        ChargeTakesToken(config, before, r, id);
        if id in before {
          FoundBucket(config, before, r, id);
        }
        if Used(rs, id, i, m) {
          UsedHasBucket(config, rs, id, i, m);
        }
      } else {
        if !Evicts(r, id) {
          OtherKeysDoNotMatter(config, before, r, id);
        }
        LeftNotNegative(config, rs, id, i, m);
      }
    }
  }

  lemma FoundBucket(config: Config, buckets: map<string, Bucket>, r: Event, id: string)
    requires Charged(r, id) && id in buckets
    ensures BucketFor(config, buckets, id, r.key.value, r.now) == Some(buckets[id])
  {
  }

  lemma LeftNotNegative(config: Config, rs: seq<Event>, id: string, i: nat, j: nat)
    requires ClockOrdered(rs) && PositiveRates(config, rs, id) && i <= j <= |rs|
    ensures Left(config, rs, id, i, j) >= 0.0
  {
    hide After, ClockOrdered, Used, Capacity, RefillRate;
    if id in After(config, rs[..j]) {
      TokensInRange(config, rs, id, j);
    }
  }

  /**
   * Over any interval of any run, whatever rates the key gets, accepted requests are at most the capacities of the
   * buckets charged there and what each earned.
   */
  lemma AcceptedWithinAllowance(config: Config, rs: seq<Event>, id: string, i: nat, j: nat)
    requires ClockOrdered(rs) && PositiveRates(config, rs, id) && i <= j <= |rs|
    ensures Accepted(config, rs, id, i, j) as real <= Allowance(config, rs, id, i, j)
  {
    hide Left, Accepted, Allowance, ClockOrdered;
    AcceptedAndLeft(config, rs, id, i, j);
    LeftNotNegative(config, rs, id, i, j);
  }

  /** What a key of one rate is allowed: a capacity for each eviction and one more, and the earnings since `rs[i]`. */
  ghost predicate AllowanceBounded(config: Config, rs: seq<Event>, id: string, rpm: int, i: nat, j: nat)
    requires i < j <= |rs| && SteadyKey(config, rs, id, rpm)
  {
    var after, k, allowed := After(config, rs[..j]), Evictions(rs, id, i, j), Allowance(config, rs, id, i, j);
    if Used(rs, id, i, j) && id in after then
      && rs[i].now <= after[id].lastRefillAt <= rs[j - 1].now
      && allowed <= Full(Capacity(config, rpm), k + 1) + Earning(RefillRate(rpm), after[id].lastRefillAt - rs[i].now)
    else allowed <= Full(Capacity(config, rpm), k) + Earning(RefillRate(rpm), rs[j - 1].now - rs[i].now)
  }

  lemma ChargeRefills(config: Config, buckets: map<string, Bucket>, r: Event, id: string, rpm: int)
    requires Charged(r, id) && EffectiveRpm(config, r.key.value) == rpm > 0
    ensures var b := BucketFor(config, buckets, id, r.key.value, r.now);
            && id in Step(config, buckets, r).0 && Step(config, buckets, r).0[id].lastRefillAt == r.now
            && (id !in buckets ==>
                  b == Some(NewBucket(config, rpm, r.now)) && b.value.capacity == Capacity(config, rpm))
  {
    hide Capacity, RefillRate, Earned, RetryAfterSec;
  }

  lemma {:induction false} SteadyAllowance(config: Config, rs: seq<Event>, id: string, rpm: int, i: nat, j: nat)
    requires ClockOrdered(rs) && SteadyKey(config, rs, id, rpm) && i < j <= |rs|
    ensures AllowanceBounded(config, rs, id, rpm, i, j)
  {
    hide Step, After, InRange, ClockOrdered, BucketFor, Capacity, RefillRate, Full, Earning, SteadyKey, Charged, Evicts;
    var m := j - 1;
    var before, r, k := After(config, rs[..m]), rs[m], Evictions(rs, id, i, m);
    var capacity, rate := Capacity(config, rpm), RefillRate(rpm);
    ClockAt(rs, i, m);
    SteadyMeans(config, rs, id, rpm, m);
    FullGrows(capacity, k);
    FullGrows(capacity, k + 1);
    EarningMonotone(rate, 0, r.now - rs[i].now);
    NothingEarned(rate);
    AfterStep(config, rs, m);
    if i < m {
      SteadyAllowance(config, rs, id, rpm, i, m);
      ClockAt(rs, m - 1, m);
      ClockAt(rs, i, m - 1);
      EarningMonotone(rate, rs[m - 1].now - rs[i].now, r.now - rs[i].now);
    } else {
      assert Allowance(config, rs, id, i, m) == 0.0 && k == 0 && Full(capacity, 0) == 0.0 by { NothingFull(capacity); }
    }
    if Used(rs, id, i, m) {
      UsedHasBucket(config, rs, id, i, m);
      EarningMonotone(rate, before[id].lastRefillAt - rs[i].now, r.now - rs[i].now);
    }
    if id in before {
      SteadyBucket(config, rs, id, rpm, m);
      RangeMeans(config, before[id], rpm, rs[m - 1].now);
    }
    if Charged(r, id) {
      ChargeRefills(config, before, r, id, rpm);
      if id in before {
        FoundBucket(config, before, r, id);
        EarnedIsEarning(before[id], r.now);
        EarningAdds(rate, before[id].lastRefillAt - rs[i].now, r.now - before[id].lastRefillAt);
      }
    } else if Evicts(r, id) {
      EvictedBuckets(config, before, r, id);
    } else {
      OtherKeysDoNotMatter(config, before, r, id);
    }
  }

  lemma NothingFull(capacity: int)
    ensures Full(capacity, 0) == 0.0
  {
  }

  lemma EarnedIsEarning(b: Bucket, now: int)
    ensures Earned(b, now) == Earning(b.refillRatePerMs, now - b.lastRefillAt)
  {
  }

  lemma RangeMeans(config: Config, b: Bucket, rpm: int, now: int)
    requires InRange(config, b, rpm, now)
    ensures b.capacity == Capacity(config, rpm) && b.refillRatePerMs == RefillRate(rpm) && b.lastRefillAt <= now
  {
  }

  lemma SteadyMeans(config: Config, rs: seq<Event>, id: string, rpm: int, m: nat)
    requires SteadyKey(config, rs, id, rpm) && m < |rs|
    ensures rpm > 0 && Capacity(config, rpm) >= 1 && RefillRate(rpm) > 0.0 && PositiveRates(config, rs, id)
    ensures Charged(rs[m], id) ==> EffectiveRpm(config, rs[m].key.value) == rpm
    ensures Charged(rs[m], id) ==> !Evicts(rs[m], id)
  {
    CapacityPositive(config, rpm);
  }

  /**
   * Over any interval of any run of a key with one rate, accepted requests are at most the capacity, once more for
   * every eviction of the key's bucket, plus rate times length.
   */
  lemma AcceptedBound(config: Config, rs: seq<Event>, id: string, rpm: int, i: nat, j: nat)
    requires ClockOrdered(rs) && SteadyKey(config, rs, id, rpm) && i < j <= |rs|
    ensures Accepted(config, rs, id, i, j) as real
            <= (Evictions(rs, id, i, j) + 1) as real * Capacity(config, rpm) as real
               + Earning(RefillRate(rpm), rs[j - 1].now - rs[i].now)
  {
    hide Accepted, Allowance, ClockOrdered, SteadyKey, After, Full, Earning, Capacity, RefillRate, Evictions, Used;
    var k, rate := Evictions(rs, id, i, j), RefillRate(rpm);
    SteadyMeans(config, rs, id, rpm, j - 1);
    AcceptedWithinAllowance(config, rs, id, i, j);
    SteadyAllowance(config, rs, id, rpm, i, j);
    FullGrows(Capacity(config, rpm), k);
    FullIsProduct(Capacity(config, rpm), k + 1);
    if Used(rs, id, i, j) && id in After(config, rs[..j]) {
      EarningMonotone(rate, After(config, rs[..j])[id].lastRefillAt - rs[i].now, rs[j - 1].now - rs[i].now);
    }
  }

  // ---------------------------------------------------------------------------
  // Runs that use up what evictions lend
  // ---------------------------------------------------------------------------

  function RequestAt(id: string, rpm: int, at: int): Event {
    Request(false, Some(id), Some(KeyRecord(Some(rpm))), at)
  }

  function Burst(id: string, rpm: int, at: int, n: nat): seq<Event> {
    if n == 0 then [] else Burst(id, rpm, at, n - 1) + [RequestAt(id, rpm, at)]
  }

  /** Bursts of `size` requests at one instant, with an eviction before each but the first. */
  function Bursts(id: string, rpm: int, at: int, size: nat, k: nat): seq<Event> {
    if k == 0 then Burst(id, rpm, at, size)
    else Bursts(id, rpm, at, size, k - 1) + [Eviction(id, at)] + Burst(id, rpm, at, size)
  }

  /** One more event, at the end. */
  lemma OneMoreEvent(config: Config, rs: seq<Event>, r: Event, id: string)
    ensures var all := rs + [r];
            && After(config, all) == Step(config, After(config, rs), r).0
            && Accepted(config, all, id, 0, |all|) == Accepted(config, rs, id, 0, |rs|) +
                 (if Charged(r, id) && Step(config, After(config, rs), r).1 == Allowed then 1 else 0)
            && Evictions(all, id, 0, |all|) == Evictions(rs, id, 0, |rs|) + if Evicts(r, id) then 1 else 0
  {
    hide Step, Charged;
    var all := rs + [r];
    assert all[..|all| - 1] == all[..|rs|] == rs;
    EarlierEvents(config, rs, r, id, |rs|);
  }

  lemma {:induction false} EarlierEvents(config: Config, rs: seq<Event>, r: Event, id: string, j: nat)
    requires j <= |rs|
    ensures Accepted(config, rs + [r], id, 0, j) == Accepted(config, rs, id, 0, j)
    ensures Evictions(rs + [r], id, 0, j) == Evictions(rs, id, 0, j)
  {
    hide Step, Charged, After;
    if j > 0 {
      EarlierEvents(config, rs, r, id, j - 1);
      assert (rs + [r])[..j - 1] == rs[..j - 1];
    }
  }

  /** A charge to a bucket last refilled at this very instant takes a token when there is one. */
  lemma ChargeAtOnce(config: Config, buckets: map<string, Bucket>, id: string, rpm: int, at: int)
    requires rpm > 0 && id != ""
    requires id in buckets ==> buckets[id].lastRefillAt == at && buckets[id].tokens <= buckets[id].capacity as real
    ensures var b := if id in buckets then buckets[id] else NewBucket(config, rpm, at);
            var (after, outcome) := Step(config, buckets, RequestAt(id, rpm, at));
            && Charged(RequestAt(id, rpm, at), id)
            && (b.tokens >= 1.0 ==>
                  outcome == Allowed && after == buckets[id := b.(tokens := b.tokens - 1.0, lastRefillAt := at)])
  {
    hide Capacity, RetryAfterSec;
    var b := if id in buckets then buckets[id] else NewBucket(config, rpm, at);
    assert b.lastRefillAt == at;
    assert Earned(b, at) == 0.0;
  }

  /** A burst of at most the capacity at one instant, to a key without a bucket, is accepted in full. */
  lemma {:induction false} BurstAccepted(config: Config, rs: seq<Event>, id: string, rpm: int, at: int, n: nat)
    requires rpm > 0 && id != "" && n <= Capacity(config, rpm) && id !in After(config, rs)
    ensures var all := rs + Burst(id, rpm, at, n);
            var buckets := After(config, all);
            && (id in buckets <==> n > 0)
            && (id in buckets ==>
                  buckets[id] == NewBucket(config, rpm, at).(tokens := (Capacity(config, rpm) - n) as real))
            && Accepted(config, all, id, 0, |all|) == Accepted(config, rs, id, 0, |rs|) + n
            && Evictions(all, id, 0, |all|) == Evictions(rs, id, 0, |rs|)
  {
    hide After, Accepted, Evictions, Capacity, RefillRate, Step, Charged;
    if n == 0 {
      assert rs + [] == rs;
    } else {
      var before, r := rs + Burst(id, rpm, at, n - 1), RequestAt(id, rpm, at);
      BurstAccepted(config, rs, id, rpm, at, n - 1);
      assert rs + Burst(id, rpm, at, n) == before + [r];
      OneMoreEvent(config, before, r, id);
      ChargeAtOnce(config, After(config, before), id, rpm, at);
    }
  }

  lemma {:induction false} BurstEvents(id: string, rpm: int, at: int, n: nat)
    ensures |Burst(id, rpm, at, n)| == n && forall r :: r in Burst(id, rpm, at, n) ==> r == RequestAt(id, rpm, at)
  {
    if n > 0 {
      BurstEvents(id, rpm, at, n - 1);
    }
  }

  lemma {:induction false} BurstsEvents(id: string, rpm: int, at: int, size: nat, k: nat)
    ensures |Bursts(id, rpm, at, size, k)| >= size
    ensures forall r :: r in Bursts(id, rpm, at, size, k) ==> r == RequestAt(id, rpm, at) || r == Eviction(id, at)
  {
    hide Burst;
    BurstEvents(id, rpm, at, size);
    if k > 0 {
      BurstsEvents(id, rpm, at, size, k - 1);
    }
  }

  /** `n` times `m`, by repeated addition. */
  function Times(n: nat, m: nat): nat {
    if n == 0 then 0 else Times(n - 1, m) + m
  }

  /** Every eviction lets the client take a whole capacity at once, and so does the start. */
  lemma {:induction false} BurstsAccepted(config: Config, id: string, rpm: int, at: int, k: nat)
    requires rpm > 0 && id != "" && Capacity(config, rpm) >= 0
    ensures var rs := Bursts(id, rpm, at, Capacity(config, rpm), k);
            && Accepted(config, rs, id, 0, |rs|) == Times(k + 1, Capacity(config, rpm))
            && Evictions(rs, id, 0, |rs|) == k
  {
    hide After, Accepted, Evictions, Capacity, Step, Burst;
    var size := Capacity(config, rpm);
    if k == 0 {
      NoEvents(config, id);
      BurstAccepted(config, [], id, rpm, at, size);
      assert [] + Burst(id, rpm, at, size) == Burst(id, rpm, at, size);
    } else {
      var before, r := Bursts(id, rpm, at, size, k - 1), Eviction(id, at);
      BurstsAccepted(config, id, rpm, at, k - 1);
      OneMoreEvent(config, before, r, id);
      EvictedBuckets(config, After(config, before), r, id);
      BurstAccepted(config, before + [r], id, rpm, at, size);
    }
  }

  lemma NoEvents(config: Config, id: string)
    ensures id !in After(config, []) && Accepted(config, [], id, 0, 0) == 0 && Evictions([], id, 0, 0) == 0
  {
  }

  lemma {:induction false} TimesIsProduct(n: nat, m: nat)
    ensures Times(n, m) == n * m
  {
    if n > 0 {
      TimesIsProduct(n - 1, m);
      assert n * m == (n - 1) * m + m;
    }
  }

  /**
   * For every rate and every number of evictions some run at a single instant evicts that often and has one capacity
   * accepted for each eviction and one more, as many as `AcceptedBound` allows.
   */
  lemma EvictionsLendFully(config: Config, id: string, rpm: int, at: int, k: nat) returns (rs: seq<Event>)
    requires rpm > 0 && config.burstSeconds > 0 && id != ""
    ensures rs != [] && ClockOrdered(rs) && SteadyKey(config, rs, id, rpm)
    ensures rs[0].now == rs[|rs| - 1].now == at && Evictions(rs, id, 0, |rs|) == k
    ensures Accepted(config, rs, id, 0, |rs|) == (k + 1) * Capacity(config, rpm)
  {
    hide After, Accepted, Evictions, Capacity, Step, Bursts;
    CapacityPositive(config, rpm);
    rs := Bursts(id, rpm, at, Capacity(config, rpm), k);
    BurstsAccepted(config, id, rpm, at, k);
    BurstsEvents(id, rpm, at, Capacity(config, rpm), k);
    TimesIsProduct(k + 1, Capacity(config, rpm));
    assert forall i :: 0 <= i < |rs| ==> rs[i] in rs;
  }

  /** Capacity plus rate times length bounds what any interval with at most `k` evictions accepts. */
  ghost predicate CapacityAndRateBound(config: Config, id: string, rpm: int, k: nat) {
    forall rs: seq<Event>, i: nat, j: nat ::
      ClockOrdered(rs) && SteadyKey(config, rs, id, rpm) && i < j <= |rs| && Evictions(rs, id, i, j) <= k ==>
        Accepted(config, rs, id, i, j) as real
        <= Capacity(config, rpm) as real + Earning(RefillRate(rpm), rs[j - 1].now - rs[i].now)
  }

  /** That bound holds over all runs exactly when no eviction is allowed. */
  lemma CapacityAndRateBoundExactlyWithoutEvictions(config: Config, id: string, rpm: int, k: nat)
    requires rpm > 0 && config.burstSeconds > 0 && id != ""
    ensures CapacityAndRateBound(config, id, rpm, k) <==> k == 0
  {
    hide Capacity, RefillRate, Earning, Accepted, Evictions, ClockOrdered, SteadyKey;
    if k == 0 {
      forall rs: seq<Event>, i: nat, j: nat |
        ClockOrdered(rs) && SteadyKey(config, rs, id, rpm) && i < j <= |rs| && Evictions(rs, id, i, j) <= k
        ensures Accepted(config, rs, id, i, j) as real
                <= Capacity(config, rpm) as real + Earning(RefillRate(rpm), rs[j - 1].now - rs[i].now) {
        AcceptedBound(config, rs, id, rpm, i, j);
      }
    } else {
      var rs := EvictionsLendFully(config, id, rpm, 0, k);
      CapacityPositive(config, rpm);
      NothingEarned(RefillRate(rpm));
      MoreThanOnce(k, Capacity(config, rpm));
      assert !(Accepted(config, rs, id, 0, |rs|) as real
               <= Capacity(config, rpm) as real + Earning(RefillRate(rpm), rs[|rs| - 1].now - rs[0].now));
    }
  }

  lemma MoreThanOnce(k: nat, m: int)
    requires k > 0 && m > 0
    ensures (k + 1) * m > m
  {
    assert (k + 1) * m == k * m + m;
  }

  // ---------------------------------------------------------------------------
  // Clients that behave
  // ---------------------------------------------------------------------------

  /** Consecutive requests charged to `id` are at least `1 / rate` apart. */
  ghost predicate Spaced(rs: seq<Event>, id: string, rpm: int) {
    forall i, j :: 0 <= i < j < |rs| && Charged(rs[i], id) && Charged(rs[j], id) ==>
      Earning(RefillRate(rpm), rs[j].now - rs[i].now) >= 1.0
  }

  /** The bucket was last refilled by the latest request charged to the key. */
  lemma {:induction false} LastCharge(config: Config, rs: seq<Event>, id: string, n: nat) returns (i: nat)
    requires n <= |rs| && id in After(config, rs[..n])
    ensures i < n && Charged(rs[i], id) && After(config, rs[..n])[id].lastRefillAt == rs[i].now
  {
    AfterStep(config, rs, n - 1);
    assert !Evicts(rs[n - 1], id);
    if Charged(rs[n - 1], id) {
      i := n - 1;
    } else {
      OtherKeysDoNotMatter(config, After(config, rs[..n - 1]), rs[n - 1], id);
      i := LastCharge(config, rs, id, n - 1);
    }
  }

  /** A client that spaces its requests at least `1 / rate` apart is never rejected. */
  lemma SpacedClientNeverRejected(config: Config, rs: seq<Event>, id: string, rpm: int, n: nat)
    requires ClockOrdered(rs) && SteadyKey(config, rs, id, rpm) && Spaced(rs, id, rpm)
    requires n < |rs| && Charged(rs[n], id)
    ensures OutcomeAt(config, rs, n) == Allowed
  {
    hide Capacity, RefillRate, Earning, After, RetryAfterSec;
    CapacityPositive(config, rpm);
    var before := After(config, rs[..n]);
    if id in before {
      SteadyBucket(config, rs, id, rpm, n);
      var i := LastCharge(config, rs, id, n);
    } else {
      NothingEarned(RefillRate(rpm));
    }
  }

  lemma WaitIsEnough(b: Bucket, now: int)
    requires b.refillRatePerMs > 0.0 && b.tokens < 1.0 && now >= b.lastRefillAt + 1000 * RetryAfterSec(b)
    ensures b.tokens + Earned(b, now) >= 1.0
  {
    var rate, missing := b.refillRatePerMs, 1.0 - b.tokens;
    var seconds := missing / rate / 1000.0;
    assert RetryAfterSec(b) as real >= seconds;
    var ms := (now - b.lastRefillAt) as real;
    assert ms >= 1000.0 * seconds == missing / rate;
    assert (ms - missing / rate) * rate >= 0.0;
    assert missing / rate * rate == missing;
  }

  /** Without charges a bucket stays as it is or is evicted. */
  lemma {:induction false} IdleBucketKept(config: Config, rs: seq<Event>, id: string, i: nat, j: nat)
    requires i <= j <= |rs| && forall k :: i <= k < j ==> !Charged(rs[k], id)
    ensures id in After(config, rs[..j]) ==>
      id in After(config, rs[..i]) && After(config, rs[..j])[id] == After(config, rs[..i])[id]
  {
    if i < j {
      IdleBucketKept(config, rs, id, i, j - 1);
      AfterStep(config, rs, j - 1);
      if !Evicts(rs[j - 1], id) {
        OtherKeysDoNotMatter(config, After(config, rs[..j - 1]), rs[j - 1], id);
      }
    }
  }

  /** An otherwise idle client that waits the advertised Retry-After is accepted. */
  lemma RetryAfterSuffices(config: Config, rs: seq<Event>, id: string, rpm: int, i: nat, j: nat)
    requires ClockOrdered(rs) && SteadyKey(config, rs, id, rpm) && i < j < |rs|
    requires Charged(rs[i], id) && Charged(rs[j], id) && forall k :: i < k < j ==> !Charged(rs[k], id)
    requires OutcomeAt(config, rs, i).Rejected?
    requires rs[j].now >= rs[i].now + 1000 * OutcomeAt(config, rs, i).retryAfterSec
    ensures OutcomeAt(config, rs, j) == Allowed
  {
    hide Capacity, RefillRate, Earned, After, RetryAfterSec;
    CapacityPositive(config, rpm);
    AfterStep(config, rs, i);
    SteadyBucket(config, rs, id, rpm, i + 1);
    var b := After(config, rs[..i + 1])[id];
    IdleBucketKept(config, rs, id, i + 1, j);
    if id in After(config, rs[..j]) {
      WaitIsEnough(b, rs[j].now);
    } else {
      NothingEarned(RefillRate(rpm));
      assert Earned(NewBucket(config, rpm, rs[j].now), rs[j].now)
        == 0.0 by { NothingEarnedAtOnce(config, rpm, rs[j].now); }
    }
  }

  lemma NothingEarnedAtOnce(config: Config, rpm: int, now: int)
    requires rpm != 0
    ensures Earned(NewBucket(config, rpm, now), now) == 0.0
  {
  }

  // ---------------------------------------------------------------------------
  // Warnings
  // ---------------------------------------------------------------------------

  /** When each key was last warned about, after the events. */
  ghost function LastAlerts(config: Config, rs: seq<Event>): map<string, int> {
    if rs == [] then map[]
    else
      var before, r := rs[..|rs| - 1], rs[|rs| - 1];
      var (charged, outcome) := Step(config, After(config, before), r);
      Answer(config, charged, LastAlerts(config, before), r, outcome).0
  }

  ghost function ReplyAt(config: Config, rs: seq<Event>, i: nat): Reply
    requires i < |rs|
  {
    var (charged, outcome) := Step(config, After(config, rs[..i]), rs[i]);
    Answer(config, charged, LastAlerts(config, rs[..i]), rs[i], outcome).1
  }

  ghost predicate LoggedFor(config: Config, rs: seq<Event>, i: nat, id: string)
    requires i < |rs|
  {
    ReplyAt(config, rs, i).logged && rs[i].Request? && rs[i].apiKeyId == Some(id)
  }

  lemma LastAlertStep(config: Config, rs: seq<Event>, i: nat, id: string)
    requires i < |rs|
    ensures var before, after := LastAlerts(config, rs[..i]), LastAlerts(config, rs[..i + 1]);
            if LoggedFor(config, rs, i, id) then
              && id in after && after[id] == rs[i].now
              && (id in before ==> rs[i].now - before[id] > ALERT_DEBOUNCE_MS)
            else (id in after <==> id in before) && (id in before ==> after[id] == before[id])
  {
    hide Step, NearLimit, HeadersFor, After;
    assert rs[..i + 1][..i] == rs[..i];
  }

  lemma {:induction false} LastAlertKept(config: Config, rs: seq<Event>, i: nat, j: nat, id: string)
    requires ClockOrdered(rs) && i < j <= |rs| && LoggedFor(config, rs, i, id)
    ensures id in LastAlerts(config, rs[..j]) && rs[i].now <= LastAlerts(config, rs[..j])[id]
  {
    hide LastAlerts, LoggedFor;
    LastAlertStep(config, rs, j - 1, id);
    if i < j - 1 {
      LastAlertKept(config, rs, i, j - 1, id);
    }
  }

  /** Over every run two warnings logged for one key are more than fifteen minutes apart. */
  lemma WarningsDebounced(config: Config, rs: seq<Event>, i: nat, j: nat, id: string)
    requires ClockOrdered(rs) && i < j < |rs| && LoggedFor(config, rs, i, id) && LoggedFor(config, rs, j, id)
    ensures rs[j].now - rs[i].now > ALERT_DEBOUNCE_MS
  {
    hide LastAlerts, LoggedFor;
    LastAlertKept(config, rs, i, j, id);
    LastAlertStep(config, rs, j, id);
  }
}

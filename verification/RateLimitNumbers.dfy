/**
 * What the limiter grants, in requests, milliseconds and requests per minute.  A token is counted as 60000 units, so
 * that a rate of `rpm` earns `rpm` units a millisecond.
 */
module RateLimitNumbers {
  import opened Common
  import opened PerKeyRateLimit

  /** The key's own rate, else the default. */
  function GrantedRpm(config: Config, r: Event): int
    requires r.Request? && r.key.Some?
  {
    match r.key.value.rateLimitRpm
    case Some(own) => own
    case None => config.defaultRpm
  }

  /** The least whole number of requests that covers `burstSeconds` seconds of `rpm` requests a minute. */
  predicate IsCapacity(config: Config, rpm: int, c: int) {
    60 * (c - 1) < rpm * config.burstSeconds <= 60 * c
  }

  /** Requests outside development are charged to a known key, unless its own rate is 0. */
  lemma ChargedInWords(config: Config, r: Event, id: string)
    ensures Charged(r, id) <==>
      && r.Request? && !r.development && r.apiKeyId == Some(id) && |id| > 0 && r.key.Some?
      && match r.key.value.rateLimitRpm { case Some(own) => own != 0 case None => true }
    ensures Charged(r, id) ==> EffectiveRpm(config, r.key.value) == GrantedRpm(config, r)
  {
  }

  lemma CapacityInNumbers(config: Config, rpm: int, c: int)
    ensures IsCapacity(config, rpm, c) <==> c == Capacity(config, rpm)
  {
    var x := rpm as real / 60.0 * config.burstSeconds as real;
    assert x * 60.0 == (rpm * config.burstSeconds) as real;
    assert (-x).Floor as real <= -x < (-x).Floor as real + 1.0;
  }

  lemma EarningInUnits(rpm: int, ms: int)
    ensures Earning(RefillRate(rpm), ms) * 60000.0 == (rpm * ms) as real
  {
  }

  // ---------------------------------------------------------------------------
  // Bounds
  // ---------------------------------------------------------------------------

  /** Every request charged to `id` is granted the same positive rate, and bursts last at least a second. */
  ghost predicate Steady(config: Config, rs: seq<Event>, id: string, rpm: int) {
    && rpm > 0 && config.burstSeconds > 0
    && forall i :: 0 <= i < |rs| && Charged(rs[i], id) ==> GrantedRpm(config, rs[i]) == rpm
  }

  lemma SteadyIsSteadyKey(config: Config, rs: seq<Event>, id: string, rpm: int)
    ensures Steady(config, rs, id, rpm) <==> SteadyKey(config, rs, id, rpm)
  {
    forall i | 0 <= i < |rs| && Charged(rs[i], id)
      ensures GrantedRpm(config, rs[i]) == EffectiveRpm(config, rs[i].key.value) {
      ChargedInWords(config, rs[i], id);
    }
  }

  /**
   * Over an interval of L milliseconds with `k` evictions of the key at most `(k + 1) * c + rpm * L / 60000` requests
   * are accepted, with `c` the capacity; `c + rpm * L / 60000` when there are none.
   */
  lemma AcceptedInNumbers(config: Config, rs: seq<Event>, id: string, rpm: int, c: int, i: nat, j: nat)
    requires ClockOrdered(rs) && Steady(config, rs, id, rpm) && i < j <= |rs| && IsCapacity(config, rpm, c)
    ensures Accepted(config, rs, id, i, j) * 60000
            <= (Evictions(rs, id, i, j) + 1) * c * 60000 + rpm * (rs[j - 1].now - rs[i].now)
  {
    hide Accepted, Evictions, Steady, SteadyKey, ClockOrdered, IsCapacity, Capacity, RefillRate, Earning;
    SteadyIsSteadyKey(config, rs, id, rpm);
    CapacityInNumbers(config, rpm, c);
    AcceptedBound(config, rs, id, rpm, i, j);
    var ms := rs[j - 1].now - rs[i].now;
    EarningInUnits(rpm, ms);
    BoundInUnits(Accepted(config, rs, id, i, j), Evictions(rs, id, i, j) + 1, c, Earning(RefillRate(rpm), ms),
                 rpm * ms);
  }

  lemma BoundInUnits(accepted: int, k: int, c: int, earned: real, units: int)
    requires accepted as real <= k as real * c as real + earned && earned * 60000.0 == units as real
    ensures accepted * 60000 <= k * c * 60000 + units
  {
    assert k as real * c as real == (k * c) as real;
    assert (accepted * 60000) as real <= (k * c * 60000 + units) as real;
  }

  /** A client that leaves at least `60000 / rpm` milliseconds between its requests is never rejected. */
  lemma SpacedInNumbers(config: Config, rs: seq<Event>, id: string, rpm: int, n: nat)
    requires ClockOrdered(rs) && Steady(config, rs, id, rpm) && n < |rs| && Charged(rs[n], id)
    requires forall i, j :: 0 <= i < j < |rs| && Charged(rs[i], id) && Charged(rs[j], id) ==>
               rpm * (rs[j].now - rs[i].now) >= 60000
    ensures OutcomeAt(config, rs, n) == Allowed
  {
    hide Charged, Steady, SteadyKey, ClockOrdered, RefillRate, Earning, After, OutcomeAt;
    SteadyIsSteadyKey(config, rs, id, rpm);
    forall i, j | 0 <= i < j < |rs| && Charged(rs[i], id) && Charged(rs[j], id)
      ensures Earning(RefillRate(rpm), rs[j].now - rs[i].now) >= 1.0 {
      EarningInUnits(rpm, rs[j].now - rs[i].now);
    }
    assert Spaced(rs, id, rpm);
    SpacedClientNeverRejected(config, rs, id, rpm, n);
  }

  // ---------------------------------------------------------------------------
  // The exact decision
  // ---------------------------------------------------------------------------

  /** The request at `f` opens a bucket: any earlier one of the key was evicted. */
  ghost predicate OpensBucket(config: Config, rs: seq<Event>, id: string, f: nat)
    requires f < |rs|
  {
    && Charged(rs[f], id) && GrantedRpm(config, rs[f]) != 0
    && forall i :: 0 <= i < f && Charged(rs[i], id) && GrantedRpm(config, rs[i]) != 0 ==> EvictedIn(rs, id, i, f)
  }

  ghost predicate EvictedIn(rs: seq<Event>, id: string, i: nat, n: nat)
    requires n <= |rs|
  {
    exists m :: i < m < n && Evicts(rs[m], id)
  }

  /** The bucket opened at `f` serves until step `n`. */
  ghost predicate Serves(config: Config, rs: seq<Event>, id: string, f: nat, n: nat)
    requires n <= |rs|
  {
    f < n && OpensBucket(config, rs, id, f) && !EvictedIn(rs, id, f, n)
  }

  /** Units at step `j` in a bucket that was full at step `i` and has only given and earned since. */
  ghost function Balance(config: Config, rs: seq<Event>, id: string, rpm: int, c: int, i: nat, j: nat): int
    requires i <= j < |rs|
  {
    60000 * c + rpm * (rs[j].now - rs[i].now) - 60000 * Accepted(config, rs, id, i, j)
  }

  /** Step `i` is a charge to the bucket opened at `f`, no later than `j`. */
  ghost predicate Charge(rs: seq<Event>, id: string, f: nat, i: nat, j: nat)
    requires j < |rs|
  {
    f <= i <= j && Charged(rs[i], id)
  }

  /** The request at `j` finds `u` units: the least balance since any charge to the bucket opened at `f`. */
  ghost predicate Finds(config: Config, rs: seq<Event>, id: string, f: nat, rpm: int, c: int, j: nat, u: int)
    requires j < |rs|
  {
    && (forall i: nat :: Charge(rs, id, f, i, j) ==> u <= Balance(config, rs, id, rpm, c, i, j))
    && exists i: nat :: Charge(rs, id, f, i, j) && u == Balance(config, rs, id, rpm, c, i, j)
  }

  /** What a request that finds `u` units leaves. */
  function Leaves(u: int): int {
    if u >= 60000 then u - 60000 else u
  }

  function Least(a: int, b: int): int {
    if b < a then b else a
  }

  lemma FindsFirst(config: Config, rs: seq<Event>, id: string, f: nat, rpm: int, c: int)
    requires f < |rs| && Charged(rs[f], id)
    ensures Finds(config, rs, id, f, rpm, c, f, 60000 * c)
  {
    assert Charge(rs, id, f, f, f) && Balance(config, rs, id, rpm, c, f, f) == 60000 * c;
  }

  lemma {:induction false} AcceptedSkips(config: Config, rs: seq<Event>, id: string, i: nat, p: nat, m: nat)
    requires i <= p < m <= |rs| && Charged(rs[p], id) && forall k :: p < k < m ==> !Charged(rs[k], id)
    ensures Accepted(config, rs, id, i, m)
            == Accepted(config, rs, id, i, p) + if OutcomeAt(config, rs, p) == Allowed then 1 else 0
  {
    hide OutcomeAt, Charged;
    if p < m - 1 {
      AcceptedSkips(config, rs, id, i, p, m - 1);
    }
  }

  lemma BalanceLater(config: Config, rs: seq<Event>, id: string, rpm: int, c: int, i: nat, p: nat, m: nat)
    requires i <= p < m < |rs| && Charged(rs[p], id) && forall k :: p < k < m ==> !Charged(rs[k], id)
    ensures Balance(config, rs, id, rpm, c, i, m)
            == Balance(config, rs, id, rpm, c, i, p) + rpm * (rs[m].now - rs[p].now)
               - if OutcomeAt(config, rs, p) == Allowed then 60000 else 0
  {
    hide Accepted, OutcomeAt, Charged;
    AcceptedSkips(config, rs, id, i, p, m);
    var (x, y, z) := (rs[i].now, rs[p].now, rs[m].now);
    assert rpm * (z - x) == rpm * (z - y) + rpm * (y - x);
  }

  lemma FindsNext(config: Config, rs: seq<Event>, id: string, f: nat, rpm: int, c: int, p: nat, m: nat, u: int)
    requires f <= p < m < |rs| && Charged(rs[p], id) && Charged(rs[m], id)
    requires forall k :: p < k < m ==> !Charged(rs[k], id)
    requires Finds(config, rs, id, f, rpm, c, p, u) && (OutcomeAt(config, rs, p) == Allowed <==> u >= 60000)
    ensures Finds(config, rs, id, f, rpm, c, m, Least(60000 * c, Leaves(u) + rpm * (rs[m].now - rs[p].now)))
  {
    hide OutcomeAt, Charged, Balance;
    var earned := rpm * (rs[m].now - rs[p].now);
    forall i: nat | f <= i <= p
      ensures Balance(config, rs, id, rpm, c, i, m)
              == Balance(config, rs, id, rpm, c, i, p) + earned - (u - Leaves(u)) {
      BalanceLater(config, rs, id, rpm, c, i, p, m);
    }
    forall i: nat ensures Charge(rs, id, f, i, m) <==> Charge(rs, id, f, i, p) || i == m {
    }
    assert Balance(config, rs, id, rpm, c, m, m) == 60000 * c by { FullNow(config, rs, id, rpm, c, m); }
    var i: nat :| Charge(rs, id, f, i, p) && u == Balance(config, rs, id, rpm, c, i, p);
    assert Charge(rs, id, f, i, m) && Charge(rs, id, f, m, m);
  }

  lemma FullNow(config: Config, rs: seq<Event>, id: string, rpm: int, c: int, m: nat)
    requires m < |rs|
    ensures Balance(config, rs, id, rpm, c, m, m) == 60000 * c
  {
  }

  // ---------------------------------------------------------------------------
  // The bucket in units
  // ---------------------------------------------------------------------------

  ghost predicate HasUnits(b: Bucket, rpm: int, c: int, at: int, v: int) {
    && b.capacity == c && b.refillRatePerMs == RefillRate(rpm) && b.effectiveRpm == rpm && b.lastRefillAt == at
    && b.tokens * 60000.0 == v as real
  }

  lemma NewInUnits(config: Config, rpm: int, c: int, now: int)
    requires rpm != 0 && IsCapacity(config, rpm, c)
    ensures HasUnits(NewBucket(config, rpm, now), rpm, c, now, 60000 * c)
  {
    CapacityInNumbers(config, rpm, c);
  }

  lemma RefilledInUnits(b: Bucket, rpm: int, c: int, at: int, v: int, now: int)
    requires HasUnits(b, rpm, c, at, v)
    ensures HasUnits(Refilled(b, now), rpm, c, now, Least(60000 * c, v + rpm * (now - at)))
  {
    EarningInUnits(rpm, now - at);
    hide RefillRate, Earning;
    assert Earned(b, now) == Earning(RefillRate(rpm), now - at);
  }

  lemma TakenInUnits(b: Bucket, rpm: int, c: int, now: int, u: int)
    requires HasUnits(b, rpm, c, now, u)
    ensures HasUnits(Take(b).0, rpm, c, now, Leaves(u))
    ensures Take(b).1 == if u >= 60000 then Allowed else Rejected(RetryAfterSec(b))
  {
    hide RefillRate, RetryAfterSec;
  }

  lemma ChargedStep(config: Config, buckets: map<string, Bucket>, r: Event, id: string)
    requires Charged(r, id) && (id in buckets || GrantedRpm(config, r) != 0)
    ensures var b := if id in buckets then buckets[id] else NewBucket(config, GrantedRpm(config, r), r.now);
            var (after, outcome) := Step(config, buckets, r);
            id in after && (after[id], outcome) == Take(Refilled(b, r.now))
  {
    hide Refilled, Take, NewBucket;
    ChargedInWords(config, r, id);
  }

  /** The bucket after `n` steps was last charged at `p`, which found `u` units. */
  ghost predicate Holding(
    config: Config, rs: seq<Event>, id: string, f: nat, rpm: int, c: int, n: nat, p: nat, u: int)
    requires n <= |rs|
  {
    && f <= p < n && Charged(rs[p], id) && (forall k :: p < k < n ==> !Charged(rs[k], id))
    && Finds(config, rs, id, f, rpm, c, p, u) && (OutcomeAt(config, rs, p) == Allowed <==> u >= 60000)
    && id in After(config, rs[..n]) && HasUnits(After(config, rs[..n])[id], rpm, c, rs[p].now, Leaves(u))
  }

  /** The charge at `j` and the bucket it leaves, when the bucket it finds holds `u` units once refilled. */
  ghost predicate ChargedAt(config: Config, rs: seq<Event>, id: string, rpm: int, c: int, j: nat, u: int)
    requires j < |rs|
  {
    && id in After(config, rs[..j + 1])
    && HasUnits(After(config, rs[..j + 1])[id], rpm, c, rs[j].now, Leaves(u))
    && (u >= 60000 ==> OutcomeAt(config, rs, j) == Allowed)
    && (u < 60000 ==> OutcomeAt(config, rs, j) == Rejected(RetryAfterSec(After(config, rs[..j + 1])[id])))
  }

  lemma ChargeInUnits(config: Config, rs: seq<Event>, id: string, rpm: int, c: int, j: nat, at: int, v: int)
    requires j < |rs| && Charged(rs[j], id) && IsCapacity(config, rpm, c)
    requires var before := After(config, rs[..j]);
             if id in before then HasUnits(before[id], rpm, c, at, v)
             else GrantedRpm(config, rs[j]) == rpm != 0 && at == rs[j].now && v == 60000 * c
    ensures ChargedAt(config, rs, id, rpm, c, j, Least(60000 * c, v + rpm * (rs[j].now - at)))
  {
    hide After, Step, Charged, IsCapacity, HasUnits, NewBucket, Refilled, RetryAfterSec, RefillRate;
    var before, now := After(config, rs[..j]), rs[j].now;
    var u := Least(60000 * c, v + rpm * (now - at));
    AfterStep(config, rs, j);
    ChargedStep(config, before, rs[j], id);
    var b := if id in before then before[id] else NewBucket(config, rpm, now);
    if id !in before {
      NewInUnits(config, rpm, c, now);
    }
    RefilledInUnits(b, rpm, c, at, v, now);
    TakenInUnits(Refilled(b, now), rpm, c, now, u);
    RejectedStays(Refilled(b, now));
  }

  lemma RejectedStays(b: Bucket)
    ensures Take(b).1 != Allowed ==> Take(b).0 == b
  {
  }

  /** A bucket opened and not evicted is there. */
  lemma {:induction false} KeptSince(config: Config, rs: seq<Event>, id: string, i: nat, n: nat)
    requires i < n <= |rs| && Charged(rs[i], id) && GrantedRpm(config, rs[i]) != 0 && !EvictedIn(rs, id, i, n)
    ensures id in After(config, rs[..n])
  {
    hide NewBucket, Refilled, Take;
    AfterStep(config, rs, n - 1);
    if i < n - 1 {
      KeptSince(config, rs, id, i, n - 1);
      assert !Evicts(rs[n - 1], id);
    }
  }

  /** A bucket that is there was opened by a request and has served since. */
  lemma {:induction false} OpenedBefore(config: Config, rs: seq<Event>, id: string, n: nat) returns (f: nat)
    requires n <= |rs| && id in After(config, rs[..n])
    ensures Serves(config, rs, id, f, n)
  {
    hide NewBucket, Refilled, Take;
    var m := n - 1;
    AfterStep(config, rs, m);
    assert !Evicts(rs[m], id);
    if id in After(config, rs[..m]) {
      f := OpenedBefore(config, rs, id, m);
    } else {
      f := m;
      OpensWithout(config, rs, id, m);
    }
  }

  lemma OpensWithout(config: Config, rs: seq<Event>, id: string, f: nat)
    requires f < |rs| && Charged(rs[f], id) && GrantedRpm(config, rs[f]) != 0 && id !in After(config, rs[..f])
    ensures OpensBucket(config, rs, id, f)
  {
    hide After;
    forall i: nat | i < f && Charged(rs[i], id) && GrantedRpm(config, rs[i]) != 0 ensures EvictedIn(rs, id, i, f) {
      if !EvictedIn(rs, id, i, f) {
        KeptSince(config, rs, id, i, f);
      }
    }
  }

  lemma OpensFresh(config: Config, rs: seq<Event>, id: string, f: nat)
    requires f < |rs| && OpensBucket(config, rs, id, f)
    ensures id !in After(config, rs[..f])
  {
    hide After, EvictedIn;
    if id in After(config, rs[..f]) {
      var g := OpenedBefore(config, rs, id, f);
    }
  }

  lemma OpeningCharge(config: Config, rs: seq<Event>, id: string, f: nat, c: int)
    requires f < |rs| && OpensBucket(config, rs, id, f) && IsCapacity(config, GrantedRpm(config, rs[f]), c)
    ensures var rpm := GrantedRpm(config, rs[f]);
            ChargedAt(config, rs, id, rpm, c, f, 60000 * c) && Finds(config, rs, id, f, rpm, c, f, 60000 * c)
  {
    hide After, IsCapacity, ChargedAt, Finds;
    OpensFresh(config, rs, id, f);
    var rpm := GrantedRpm(config, rs[f]);
    FindsFirst(config, rs, id, f, rpm, c);
    assert rpm * (rs[f].now - rs[f].now) == 0;
    ChargeInUnits(config, rs, id, rpm, c, f, rs[f].now, 60000 * c);
  }

  lemma {:induction false} HoldingAt(config: Config, rs: seq<Event>, id: string, f: nat, c: int, n: nat)
    returns (p: nat, u: int)
    requires n <= |rs| && Serves(config, rs, id, f, n) && IsCapacity(config, GrantedRpm(config, rs[f]), c)
    ensures Holding(config, rs, id, f, GrantedRpm(config, rs[f]), c, n, p, u)
  {
    hide After, Step, IsCapacity, Finds, HasUnits, Evicts, ChargedAt;
    var rpm, m := GrantedRpm(config, rs[f]), n - 1;
    if m == f {
      p, u := f, 60000 * c;
      OpeningCharge(config, rs, id, f, c);
      ChargedHolds(config, rs, id, f, rpm, c, f, u);
    } else {
      p, u := HoldingAt(config, rs, id, f, c, m);
      if Charged(rs[m], id) {
        u := LaterCharge(config, rs, id, f, rpm, c, m, p, u);
        p := m;
        ChargedHolds(config, rs, id, f, rpm, c, m, u);
      } else {
        AfterStep(config, rs, m);
        OtherKeysDoNotMatter(config, After(config, rs[..m]), rs[m], id);
      }
    }
  }

  lemma LaterCharge(
    config: Config, rs: seq<Event>, id: string, f: nat, rpm: int, c: int, j: nat, p: nat, u: int) returns (v: int)
    requires j < |rs| && Holding(config, rs, id, f, rpm, c, j, p, u) && Charged(rs[j], id) && IsCapacity(config, rpm, c)
    ensures ChargedAt(config, rs, id, rpm, c, j, v) && Finds(config, rs, id, f, rpm, c, j, v)
  {
    hide After, IsCapacity, ChargedAt, Finds, HasUnits;
    v := Least(60000 * c, Leaves(u) + rpm * (rs[j].now - rs[p].now));
    ChargeInUnits(config, rs, id, rpm, c, j, rs[p].now, Leaves(u));
    FindsNext(config, rs, id, f, rpm, c, p, j, u);
  }

  lemma ChargedHolds(config: Config, rs: seq<Event>, id: string, f: nat, rpm: int, c: int, j: nat, u: int)
    requires f <= j < |rs| && Charged(rs[j], id)
    requires ChargedAt(config, rs, id, rpm, c, j, u) && Finds(config, rs, id, f, rpm, c, j, u)
    ensures Holding(config, rs, id, f, rpm, c, j + 1, j, u)
  {
    hide After, Finds, HasUnits, Charged, OutcomeAt;
  }

  /** The request at `j` is charged to the bucket opened at `f`. */
  ghost predicate ChargedTo(config: Config, rs: seq<Event>, id: string, f: nat, j: nat)
    requires j < |rs|
  {
    && f <= j && Charged(rs[j], id) && OpensBucket(config, rs, id, f)
    && (f < j ==> !EvictedIn(rs, id, f, j))
  }

  lemma FindsOne(config: Config, rs: seq<Event>, id: string, f: nat, rpm: int, c: int, j: nat, u: int, v: int)
    requires j < |rs| && Finds(config, rs, id, f, rpm, c, j, u) && Finds(config, rs, id, f, rpm, c, j, v)
    ensures u == v
  {
    hide Balance, Charge;
  }

  lemma FindsAtMost(config: Config, rs: seq<Event>, id: string, f: nat, rpm: int, c: int, j: nat, u: int)
    requires f <= j < |rs| && Charged(rs[j], id) && Finds(config, rs, id, f, rpm, c, j, u)
    ensures u <= 60000 * c
  {
    hide Charged;
    FullNow(config, rs, id, rpm, c, j);
    assert Charge(rs, id, f, j, j);
  }

  /** There is always a number of units found, and the bucket in force is charged with it. */
  lemma FindsSome(config: Config, rs: seq<Event>, id: string, f: nat, c: int, j: nat) returns (u: int)
    requires j < |rs| && ChargedTo(config, rs, id, f, j) && IsCapacity(config, GrantedRpm(config, rs[f]), c)
    ensures Finds(config, rs, id, f, GrantedRpm(config, rs[f]), c, j, u)
    ensures ChargedAt(config, rs, id, GrantedRpm(config, rs[f]), c, j, u)
  {
    hide After, IsCapacity, ChargedAt, Finds, Holding, EvictedIn;
    if f == j {
      OpeningCharge(config, rs, id, f, c);
      u := 60000 * c;
    } else {
      var p, v := HoldingAt(config, rs, id, f, c, j);
      u := LaterCharge(config, rs, id, f, GrantedRpm(config, rs[f]), c, j, p, v);
    }
  }

  /** A charged request is let through for free exactly when its key is granted 0 and has no bucket left. */
  lemma ChargedToSome(config: Config, rs: seq<Event>, id: string, j: nat)
    requires j < |rs| && Charged(rs[j], id)
    ensures OutcomeAt(config, rs, j) == Bypassed <==> !exists f: nat :: ChargedTo(config, rs, id, f, j)
    ensures OutcomeAt(config, rs, j) == Bypassed ==> GrantedRpm(config, rs[j]) == 0
  {
    hide After, NewBucket, Refilled, RetryAfterSec, EvictedIn;
    ChargedInWords(config, rs[j], id);
    var before := After(config, rs[..j]);
    if id in before {
      var f := OpenedBefore(config, rs, id, j);
      assert ChargedTo(config, rs, id, f, j);
    } else if GrantedRpm(config, rs[j]) != 0 {
      OpensWithout(config, rs, id, j);
      assert ChargedTo(config, rs, id, j, j);
    } else {
      forall f: nat ensures !ChargedTo(config, rs, id, f, j) {
        if ChargedTo(config, rs, id, f, j) {
          KeptSince(config, rs, id, f, j);
        }
      }
    }
  }

  // ---------------------------------------------------------------------------
  // What the client sees
  // ---------------------------------------------------------------------------

  lemma CeilBounds(x: real)
    ensures x <= Ceil(x) as real < x + 1.0
  {
    var n := (-x).Floor;
    assert n as real <= -x < n as real + 1.0;
    assert Ceil(x) as real == -(n as real);
  }

  lemma Product(a: real, r: real, product: real)
    requires r > 0.0 && product == a * r
    ensures a > 0.0 ==> product > 0.0
    ensures a >= 0.0 ==> product >= 0.0
  {
  }

  lemma ScaledBounds(x: real, n: real, r: real, y: real, z: real)
    requires r > 0.0 && x <= n < x + 1.0 && y == x * r && z == n * r
    ensures z - r < y <= z
  {
    Product(n - x, r, z - y);
    Product(x + 1.0 - n, r, y + r - z);
  }

  lemma CeilTimes(x: real, k: int, y: int)
    requires k > 0 && x * k as real == y as real
    ensures k * (Ceil(x) - 1) < y <= k * Ceil(x)
  {
    CeilBounds(x);
    hide Ceil;
    ScaledBounds(x, Ceil(x) as real, k as real, y as real, (k * Ceil(x)) as real);
    assert k * (Ceil(x) - 1) == k * Ceil(x) - k;
  }

  lemma RetryInUnits(b: Bucket, rpm: int, c: int, now: int, u: int)
    requires HasUnits(b, rpm, c, now, u) && rpm > 0
    ensures 1000 * rpm * (RetryAfterSec(b) - 1) < 60000 - u <= 1000 * rpm * RetryAfterSec(b)
  {
    var rate := b.refillRatePerMs;
    var x := (1.0 - b.tokens) / rate / 1000.0;
    assert rate * 60000.0 == rpm as real;
    SecondsInUnits(1.0 - b.tokens, rate, rpm);
    assert x * (1000 * rpm) as real == (60000 - u) as real;
    CeilTimes(x, 1000 * rpm, 60000 - u);
  }

  lemma SecondsInUnits(tokens: real, rate: real, rpm: int)
    requires rate != 0.0 && rate * 60000.0 == rpm as real
    ensures tokens / rate / 1000.0 * (1000 * rpm) as real == tokens * 60000.0
  {
    var ms := tokens / rate;
    assert ms * rate == tokens;
    assert (1000 * rpm) as real == 1000.0 * (rate * 60000.0);
    assert ms / 1000.0 * (1000.0 * (rate * 60000.0)) == ms * rate * 60000.0;
  }

  /**
   * How a request that finds `u` units is decided, in which order the bucket's rate counts and not the one the key is
   * granted by now: accepted when they make a token, else rejected with the least number of seconds that earn the rest.
   */
  lemma DecidedInUnits(config: Config, rs: seq<Event>, id: string, f: nat, c: int, j: nat, u: int)
    requires j < |rs| && ChargedTo(config, rs, id, f, j)
    requires var rpm := GrantedRpm(config, rs[f]);
             rpm > 0 && IsCapacity(config, rpm, c) && Finds(config, rs, id, f, rpm, c, j, u)
    ensures var rpm, outcome := GrantedRpm(config, rs[f]), OutcomeAt(config, rs, j);
            if u >= 60000 then outcome == Allowed
            else
              && outcome.Rejected?
              && u + 1000 * rpm * (outcome.retryAfterSec - 1) < 60000 <= u + 1000 * rpm * outcome.retryAfterSec
  {
    var rpm := GrantedRpm(config, rs[f]);
    hide After, OutcomeAt, Finds, IsCapacity, HasUnits, RetryAfterSec, EvictedIn, GrantedRpm;
    var v := FindsSome(config, rs, id, f, c, j);
    FindsOne(config, rs, id, f, rpm, c, j, u, v);
    RetryInUnits(After(config, rs[..j + 1])[id], rpm, c, rs[j].now, Leaves(u));
  }

  lemma HeadersInUnits(b: Bucket, rpm: int, c: int, now: int, v: int, outcome: Outcome, warning: bool)
    requires HasUnits(b, rpm, c, now, v) && rpm > 0
    ensures var h := HeadersFor(b, now, outcome, warning);
            && h.limit == rpm && h.warning == warning
            && (v >= 0 ==> 60000 * h.remaining <= v < 60000 * (h.remaining + 1))
            && (v < 0 ==> h.remaining == 0)
            && v + rpm * (1000 * (h.reset - 1) - now) < 60000 * c <= v + rpm * (1000 * h.reset - now)
  {
    var rate := b.refillRatePerMs;
    assert rate * 60000.0 == rpm as real;
    var missing := b.capacity as real - b.tokens;
    var x := now as real / 1000.0 + missing / rate / 1000.0;
    SecondsInUnits(missing, rate, rpm);
    assert missing * 60000.0 == (60000 * c - v) as real;
    assert now as real / 1000.0 * (1000 * rpm) as real == (now * rpm) as real;
    assert x * (1000 * rpm) as real == (now * rpm + 60000 * c - v) as real;
    CeilTimes(x, 1000 * rpm, now * rpm + 60000 * c - v);
    var reset := Ceil(x);
    assert rpm * (1000 * reset - now) == 1000 * rpm * reset - now * rpm;
    assert rpm * (1000 * (reset - 1) - now) == 1000 * rpm * (reset - 1) - now * rpm;
  }

  lemma NearLimitInUnits(config: Config, b: Bucket, rpm: int, c: int, now: int, v: int)
    requires HasUnits(b, rpm, c, now, v) && c > 0
    ensures NearLimit(config, b) <==> (60000 * c - v) as real >= config.warningThreshold * (60000 * c) as real
  {
    var used, share := c as real - b.tokens, (c as real - b.tokens) / c as real;
    assert share * c as real == used;
    assert used * 60000.0 == (60000 * c - v) as real;
    assert (60000 * c) as real == 60000.0 * c as real;
    var t, k := config.warningThreshold, c as real;
    if share >= t {
      assert (share - t) * k >= 0.0;
      assert t * (60000.0 * k) == 60000.0 * (t * k);
    } else {
      assert (t - share) * k > 0.0;
      assert t * (60000.0 * k) == 60000.0 * (t * k);
    }
  }

  lemma ReplyHeaders(config: Config, rs: seq<Event>, id: string, j: nat)
    requires j < |rs| && Charged(rs[j], id) && OutcomeAt(config, rs, j) != Bypassed
    requires id in After(config, rs[..j + 1])
    ensures var b, outcome := After(config, rs[..j + 1])[id], OutcomeAt(config, rs, j);
            var warning := outcome == Allowed && NearLimit(config, b);
            && ReplyAt(config, rs, j).outcome == outcome
            && ReplyAt(config, rs, j).headers == Some(HeadersFor(b, rs[j].now, outcome, warning))
  {
    hide Step, NearLimit, HeadersFor, After, LastAlerts;
    AfterStep(config, rs, j);
  }

  /**
   * The headers of a request that finds `u` units, with `v` of them left: the bucket's rate, the whole tokens left, the
   * first full second by which the bucket is full again, the Retry-After of a rejection, and the warning of an accepted
   * request once the used share has reached the threshold.
   */
  lemma HeadersInNumbers(config: Config, rs: seq<Event>, id: string, f: nat, c: int, j: nat, u: int)
    requires j < |rs| && ChargedTo(config, rs, id, f, j)
    requires var rpm := GrantedRpm(config, rs[f]);
             rpm > 0 && IsCapacity(config, rpm, c) && Finds(config, rs, id, f, rpm, c, j, u)
    ensures ReplyAt(config, rs, j).headers.Some? && ReplyAt(config, rs, j).outcome == OutcomeAt(config, rs, j)
    ensures var rpm, reply := GrantedRpm(config, rs[f]), ReplyAt(config, rs, j);
            var h, outcome := reply.headers.value, reply.outcome;
            var v := if u >= 60000 then u - 60000 else u;
            && h.limit == rpm
            && (v >= 0 ==> 60000 * h.remaining <= v < 60000 * (h.remaining + 1))
            && (v < 0 ==> h.remaining == 0)
            && v + rpm * (1000 * (h.reset - 1) - rs[j].now) < 60000 * c <= v + rpm * (1000 * h.reset - rs[j].now)
            && h.retryAfter == (if outcome.Rejected? then Some(outcome.retryAfterSec) else None)
            && (h.warning <==>
                  outcome == Allowed && (60000 * c - v) as real >= config.warningThreshold * (60000 * c) as real)
  {
    var rpm := GrantedRpm(config, rs[f]);
    hide After, OutcomeAt, Finds, IsCapacity, HasUnits, RetryAfterSec, EvictedIn, GrantedRpm, ReplyAt, NearLimit;
    var w := FindsSome(config, rs, id, f, c, j);
    FindsOne(config, rs, id, f, rpm, c, j, u, w);
    ReplyHeaders(config, rs, id, j);
    var b, outcome := After(config, rs[..j + 1])[id], OutcomeAt(config, rs, j);
    FindsAtMost(config, rs, id, f, rpm, c, j, u);
    if c > 0 {
      NearLimitInUnits(config, b, rpm, c, rs[j].now, Leaves(u));
    }
    HeadersInUnits(b, rpm, c, rs[j].now, Leaves(u), outcome, outcome == Allowed && NearLimit(config, b));
  }

  // ---------------------------------------------------------------------------
  // Warnings logged
  // ---------------------------------------------------------------------------

  lemma {:induction false} LastAlertIsLogged(config: Config, rs: seq<Event>, n: nat, id: string) returns (i: nat)
    requires n <= |rs| && id in LastAlerts(config, rs[..n])
    ensures i < n && LoggedFor(config, rs, i, id) && LastAlerts(config, rs[..n])[id] == rs[i].now
  {
    hide LastAlerts, LoggedFor;
    if n == 0 {
      assert rs[..0] == [];
      NoAlerts(config, id);
      assert false;
    }
    LastAlertStep(config, rs, n - 1, id);
    if LoggedFor(config, rs, n - 1, id) {
      i := n - 1;
    } else {
      i := LastAlertIsLogged(config, rs, n - 1, id);
    }
  }

  lemma NoAlerts(config: Config, id: string)
    ensures id !in LastAlerts(config, [])
  {
  }

  lemma LoggedByState(config: Config, rs: seq<Event>, j: nat, id: string)
    requires j < |rs| && Charged(rs[j], id)
    ensures var alerts, reply := LastAlerts(config, rs[..j]), ReplyAt(config, rs, j);
            LoggedFor(config, rs, j, id) <==>
              && reply.headers.Some? && reply.headers.value.warning
              && rs[j].now - (if id in alerts then alerts[id] else 0) > ALERT_DEBOUNCE_MS
  {
    hide Step, NearLimit, After, LastAlerts;
  }

  /**
   * A request with the warning header is logged exactly when every earlier one logged for its key is more than 900000
   * ms old; without any, when the clock is past 900000.
   */
  lemma WarningLoggedExactly(config: Config, rs: seq<Event>, j: nat, id: string)
    requires ClockOrdered(rs) && j < |rs| && Charged(rs[j], id)
    ensures var reply := ReplyAt(config, rs, j);
            LoggedFor(config, rs, j, id) <==>
              && reply.headers.Some? && reply.headers.value.warning
              && (forall i: nat :: i < j && LoggedFor(config, rs, i, id) ==> rs[j].now - rs[i].now > 900000)
              && ((forall i: nat :: i < j ==> !LoggedFor(config, rs, i, id)) ==> rs[j].now > 900000)
  {
    hide ReplyAt, LastAlerts, LoggedFor, Charged;
    LoggedByState(config, rs, j, id);
    if id in LastAlerts(config, rs[..j]) {
      var i := LastAlertIsLogged(config, rs, j, id);
    }
    forall i: nat | i < j && LoggedFor(config, rs, i, id)
      ensures id in LastAlerts(config, rs[..j]) && rs[i].now <= LastAlerts(config, rs[..j])[id] {
      LastAlertKept(config, rs, i, j, id);
    }
  }
}

/** server/src/utils/histogramPercentiles.ts: percentiles of an explicit-boundary histogram, over the reals. */
module HistogramPercentiles {
  import opened Common

  datatype HistogramBuckets = HistogramBuckets(
    explicitBounds: seq<real>, bucketCounts: seq<nat>,
    sum: Option<real>, count: Option<nat>, min: Option<real>, max: Option<real>)

  /** A JavaScript number; `None` is NaN, which is what arithmetic makes of an array element out of range. */
  type Number = Option<real>

  datatype PercentileResult = PercentileResult(
    p50: Number, p95: Number, p99: Number, min: Number, max: Number, count: nat, avgMs: Number)

  // ---------------------------------------------------------------------------
  // Computation
  // ---------------------------------------------------------------------------

  function Total(counts: seq<nat>): nat {
    if counts == [] then 0 else Total(counts[..|counts| - 1]) + counts[|counts| - 1]
  }

  function Cumulative(counts: seq<nat>): seq<nat> {
    seq(|counts|, i requires 0 <= i < |counts| => Total(counts[..i + 1]))
  }

  /** The first bucket whose cumulative count reaches the rank, or the number of buckets. */
  function Covering(cumulative: seq<nat>, rank: real, from: nat := 0): (k: nat)
    requires from <= |cumulative|
    ensures from <= k <= |cumulative|
    ensures k < |cumulative| ==> cumulative[k] as real >= rank
    ensures forall i :: from <= i < k ==> (cumulative[i] as real) < rank
    decreases |cumulative| - from
  {
    if from == |cumulative| || cumulative[from] as real >= rank then from
    else Covering(cumulative, rank, from + 1)
  }

  function Lower(bounds: seq<real>, i: nat): real
    requires i <= |bounds|
  {
    if i == 0 then 0.0 else bounds[i - 1]
  }

  /** The overflow bucket is capped at the last explicit bound. */
  function Upper(bounds: seq<real>, i: nat): real
    requires bounds != []
  {
    if i < |bounds| then bounds[i] else bounds[|bounds| - 1]
  }

  function Before(cumulative: seq<nat>, i: nat): nat
    requires i <= |cumulative|
  {
    if i == 0 then 0 else cumulative[i - 1]
  }

  /** The point of bucket `k` at which the cumulative count reaches the rank. */
  function Within(rank: real, bounds: seq<real>, cumulative: seq<nat>, k: nat): real
    requires bounds != [] && k < |cumulative| <= |bounds| + 1
  {
    var inBucket := cumulative[k] - Before(cumulative, k);
    if inBucket == 0 then Lower(bounds, k)
    else
      Between(Lower(bounds, k), Upper(bounds, k), (rank - Before(cumulative, k) as real) / inBucket as real)
  }

  function Between(lo: real, hi: real, fraction: real): real {
    lo + fraction * (hi - lo)
  }

  function Rank(p: real, totalCount: nat): real {
    totalCount as real * p
  }

  /** The point at which the cumulative count reaches the rank. */
  function AtRank(rank: real, bounds: seq<real>, cumulative: seq<nat>): real
    requires bounds != [] && |cumulative| <= |bounds| + 1
  {
    var k := Covering(cumulative, rank);
    if k < |cumulative| then Within(rank, bounds, cumulative, k) else bounds[|bounds| - 1]
  }

  function Percentile(p: real, bounds: seq<real>, cumulative: seq<nat>, totalCount: nat): real
    requires bounds != [] && |cumulative| <= |bounds| + 1
  {
    AtRank(Rank(p, totalCount), bounds, cumulative)
  }

  /** To milliseconds. */
  function Scale(x: real, unitMultiplier: real): real {
    x * unitMultiplier
  }

  function Element(xs: seq<real>, i: int): Number {
    if 0 <= i < |xs| then Some(xs[i]) else None
  }

  function LowerBound(bounds: seq<real>, i: nat): Number {
    if i == 0 then Some(0.0) else Element(bounds, i - 1)
  }

  function UpperBound(bounds: seq<real>, i: nat): Number {
    if i < |bounds| then Some(bounds[i]) else Element(bounds, |bounds| - 1)
  }

  function InBucket(cumulative: seq<nat>, k: nat): int
    requires k < |cumulative|
  {
    cumulative[k] - Before(cumulative, k)
  }

  /** The point at which the cumulative count reaches the rank, for any numbers of bounds and buckets. */
  function Interpolated(rank: real, bounds: seq<real>, cumulative: seq<nat>): Number {
    var k := Covering(cumulative, rank);
    if k == |cumulative| then Some(if bounds == [] then 0.0 else bounds[|bounds| - 1])
    else if InBucket(cumulative, k) == 0 then LowerBound(bounds, k)
    else if LowerBound(bounds, k).None? || UpperBound(bounds, k).None? then None
    else
      Some(Between(LowerBound(bounds, k).value, UpperBound(bounds, k).value,
                   (rank - Before(cumulative, k) as real) / InBucket(cumulative, k) as real))
  }

  function ScaleNumber(x: Number, unitMultiplier: real): Number {
    if x.None? then None else Some(Scale(x.value, unitMultiplier))
  }

  /** With a bound and at most one bucket more than bounds every percentile is a number. */
  lemma InterpolatedIsNumber(rank: real, bounds: seq<real>, cumulative: seq<nat>)
    requires bounds != [] && |cumulative| <= |bounds| + 1
    ensures Interpolated(rank, bounds, cumulative) == Some(AtRank(rank, bounds, cumulative))
  {
  }

  lemma NaNByBucket(rank: real, bounds: seq<real>, counts: seq<nat>)
    requires counts != [] && rank > 0.0
    ensures Interpolated(rank, bounds, Cumulative(counts)) == None <==>
      rank <= Total(counts) as real && (bounds == [] || Covering(Cumulative(counts), rank) > |bounds|)
  {
    hide Between;
    FallbackCondition(counts, rank);
    if rank <= Total(counts) as real {
      var k := Covering(Cumulative(counts), rank);
      CoveringBucket(counts, rank);
      CumulativeStep(counts, k);
    }
  }

  /**
   * A percentile is NaN exactly when there is no bound at all, or its rank exceeds what the buckets up to the overflow
   * one hold, while all buckets hold it.
   */
  lemma NaNExactlyWithoutBounds(rank: real, bounds: seq<real>, counts: seq<nat>)
    requires counts != [] && rank > 0.0
    ensures Interpolated(rank, bounds, Cumulative(counts)) == None <==>
      && rank <= Total(counts) as real
      && (bounds == [] || (|counts| > |bounds| + 1 && rank > Total(counts[..|bounds| + 1]) as real))
  {
    hide Interpolated, Cumulative, Total;
    NaNByBucket(rank, bounds, counts);
    FallbackCondition(counts, rank);
    if |counts| > |bounds| + 1 {
      CoveringBeyond(counts, rank, |bounds|);
    } else if rank <= Total(counts) as real {
      CoveringBucket(counts, rank);
    }
  }

  /** The covering bucket lies beyond bucket `n` exactly when the buckets up to it do not hold the rank. */
  lemma CoveringBeyond(counts: seq<nat>, rank: real, n: nat)
    requires n < |counts|
    ensures Covering(Cumulative(counts), rank) > n <==> rank > Total(counts[..n + 1]) as real
  {
    var k := Covering(Cumulative(counts), rank);
    assert Cumulative(counts)[n] == Total(counts[..n + 1]);
    if k <= n {
      TotalGrows(counts, k + 1, n + 1);
    }
  }

  method InterpolatePercentile(
    p: real, bounds: seq<real>, cumulative: seq<nat>, totalCount: nat, unitMultiplier: real) returns (r: Number)
    ensures r == ScaleNumber(Interpolated(Rank(p, totalCount), bounds, cumulative), unitMultiplier)
  {
    hide Scale, Between;
    var rank := Rank(p, totalCount);
    hide Rank;
    for i := 0 to |cumulative|
      invariant Covering(cumulative, rank) == Covering(cumulative, rank, i)
    {
      if cumulative[i] as real >= rank {
        var lowerBound := if i == 0 then Some(0.0) else Element(bounds, i - 1);
        var upperBound := if i < |bounds| then Some(bounds[i]) else Element(bounds, |bounds| - 1);
        var bucketCount: int := if i == 0 then cumulative[0] else cumulative[i] - cumulative[i - 1];
        if bucketCount == 0 {
          return ScaleNumber(lowerBound, unitMultiplier);
        }
        var prevCumulative := if i == 0 then 0 else cumulative[i - 1];
        var fraction := (rank - prevCumulative as real) / bucketCount as real;
        if lowerBound.None? || upperBound.None? {
          return None;
        }
        var value := Between(lowerBound.value, upperBound.value, fraction);
        return Some(Scale(value, unitMultiplier));
      }
    }
    r := Some(Scale(if |bounds| > 0 then bounds[|bounds| - 1] else 0.0, unitMultiplier));
  }

  /** `Math.round(x * 100) / 100` */
  function Round2(x: real): real {
    (x * 100.0 + 0.5).Floor as real / 100.0
  }

  method Accumulate(counts: seq<nat>) returns (cumulative: seq<nat>)
    ensures cumulative == Cumulative(counts)
  {
    cumulative := [];
    var running: nat := 0;
    for i := 0 to |counts|
      invariant running == Total(counts[..i]) && |cumulative| == i
      invariant forall j :: 0 <= j < i ==> cumulative[j] == Total(counts[..j + 1])
    {
      assert counts[..i + 1][..i] == counts[..i];
      running := running + counts[i];
      cumulative := cumulative + [running];
    }
  }

  function Average(sum: real, count: nat): real
    requires count > 0
  {
    sum / count as real
  }

  function TotalCount(buckets: HistogramBuckets): nat {
    if buckets.count.Some? then buckets.count.value else Total(buckets.bucketCounts)
  }

  function RoundNumber(x: Number): Number {
    if x.None? then None else Some(Round2(x.value))
  }

  /** The unrounded percentile in milliseconds. */
  function At(p: real, buckets: HistogramBuckets, unitMultiplier: real): Number {
    ScaleNumber(
      Interpolated(Rank(p, TotalCount(buckets)), buckets.explicitBounds, Cumulative(buckets.bucketCounts)),
        unitMultiplier)
  }

  ghost predicate InOrder(x: Number, y: Number) {
    x.Some? && y.Some? && x.value <= y.value
  }

  method ComputePercentiles(buckets: HistogramBuckets, unitMultiplier: real := 1000.0) returns (r: PercentileResult)
    ensures r.count == TotalCount(buckets)
    ensures r.count == 0 ==>
      r == PercentileResult(Some(0.0), Some(0.0), Some(0.0), Some(0.0), Some(0.0), 0, Some(0.0))
    ensures r.count > 0 ==>
      && r.p50 == RoundNumber(At(0.50, buckets, unitMultiplier))
      && r.p95 == RoundNumber(At(0.95, buckets, unitMultiplier))
      && r.p99 == RoundNumber(At(0.99, buckets, unitMultiplier))
      && r.min == (if buckets.min.Some? then Some(Round2(Scale(buckets.min.value, unitMultiplier))) else r.p50)
      && r.max == (if buckets.max.Some? then Some(Round2(Scale(buckets.max.value, unitMultiplier))) else r.p99)
      && r.avgMs == (if buckets.sum.None? then r.p50
                     else Some(Round2(Scale(Average(buckets.sum.value, r.count), unitMultiplier))))
    ensures WellFormed(buckets.explicitBounds, buckets.bucketCounts) && unitMultiplier >= 0.0 ==>
      InOrder(r.p50, r.p95) && InOrder(r.p95, r.p99)
  {
    var bounds := buckets.explicitBounds;
    var totalCount := TotalCount(buckets);
    if totalCount == 0 {
      return PercentileResult(Some(0.0), Some(0.0), Some(0.0), Some(0.0), Some(0.0), 0, Some(0.0));
    }
    var cumulative := Accumulate(buckets.bucketCounts);
    hide Interpolated, Round2, Scale, Average, WellFormed;
    var p50 := InterpolatePercentile(0.50, bounds, cumulative, totalCount, unitMultiplier);
    var p95 := InterpolatePercentile(0.95, bounds, cumulative, totalCount, unitMultiplier);
    var p99 := InterpolatePercentile(0.99, bounds, cumulative, totalCount, unitMultiplier);
    var resolvedMin := if buckets.min.Some? then Some(Scale(buckets.min.value, unitMultiplier)) else p50;
    var resolvedMax := if buckets.max.Some? then Some(Scale(buckets.max.value, unitMultiplier)) else p99;
    var avgMs := if buckets.sum.Some? then Some(Scale(Average(buckets.sum.value, totalCount), unitMultiplier)) else p50;
    r := PercentileResult(
      RoundNumber(p50), RoundNumber(p95), RoundNumber(p99), RoundNumber(resolvedMin), RoundNumber(resolvedMax),
        totalCount,
      RoundNumber(avgMs));
    if WellFormed(buckets.explicitBounds, buckets.bucketCounts) && unitMultiplier >= 0.0 {
      PercentilesInOrder(0.50, 0.95, buckets, unitMultiplier);
      PercentilesInOrder(0.95, 0.99, buckets, unitMultiplier);
    }
  }

  // ---------------------------------------------------------------------------
  // Well-formed histograms
  // ---------------------------------------------------------------------------

  ghost predicate SortedBounds(bounds: seq<real>) {
    && (forall i :: 0 <= i < |bounds| ==> bounds[i] >= 0.0)
    && (forall i, j :: 0 <= i < j < |bounds| ==> bounds[i] <= bounds[j])
  }

  /** Non-empty sorted non-negative bounds and one more bucket than bounds. */
  ghost predicate WellFormed(bounds: seq<real>, counts: seq<nat>) {
    bounds != [] && SortedBounds(bounds) && |counts| == |bounds| + 1
  }

  lemma {:induction false} TotalGrows(counts: seq<nat>, i: nat, j: nat)
    requires i <= j <= |counts|
    ensures Total(counts[..i]) <= Total(counts[..j])
    decreases j
  {
    if i < j {
      assert counts[..j][..j - 1] == counts[..j - 1];
      TotalGrows(counts, i, j - 1);
    }
  }

  lemma CumulativeStep(counts: seq<nat>, k: nat)
    requires k < |counts|
    ensures Cumulative(counts)[k] == Before(Cumulative(counts), k) + counts[k]
    ensures Before(Cumulative(counts), k) == Total(counts[..k])
  {
    assert counts[..k + 1][..k] == counts[..k];
    assert Total(counts[..k + 1]) == Total(counts[..k]) + counts[k];
    assert counts[..0] == [];
  }

  /** The fallback after the loop is taken exactly when the rank exceeds what the buckets hold. */
  lemma FallbackCondition(counts: seq<nat>, rank: real)
    requires counts != []
    ensures Covering(Cumulative(counts), rank) == |counts| <==> rank > Total(counts) as real
  {
    var cumulative, k := Cumulative(counts), Covering(Cumulative(counts), rank);
    assert counts[..|counts|] == counts;
    assert cumulative[|counts| - 1] == Total(counts);
    if k < |counts| {
      TotalGrows(counts, k + 1, |counts|);
    }
  }

  /** The covering bucket exists, is not empty, and its counts enclose the rank. */
  lemma CoveringBucket(counts: seq<nat>, rank: real)
    requires counts != [] && 0.0 < rank <= Total(counts) as real
    ensures var k := Covering(Cumulative(counts), rank);
            && k < |counts| && counts[k] > 0
            && (Total(counts[..k]) as real) < rank <= Total(counts[..k]) as real + counts[k] as real
  {
    var k := Covering(Cumulative(counts), rank);
    FallbackCondition(counts, rank);
    CumulativeStep(counts, k);
    if k > 0 {
      assert (Cumulative(counts)[k - 1] as real) < rank;
    }
  }

  lemma RankInRange(p: real, total: nat)
    requires 0.0 < p <= 1.0 && total > 0
    ensures 0.0 < Rank(p, total) <= total as real
  {
  }

  lemma RankMonotoneInP(p: real, q: real, total: nat)
    requires p <= q
    ensures Rank(p, total) <= Rank(q, total)
  {
    ScaledInOrder(p, q, total as real);
  }

  lemma BoundsEnclose(bounds: seq<real>, k: nat)
    requires bounds != [] && SortedBounds(bounds) && k <= |bounds|
    ensures 0.0 <= Lower(bounds, k) <= Upper(bounds, k)
  {
  }

  lemma FractionInUnit(rank: real, before: real, n: real)
    requires n > 0.0 && before < rank <= before + n
    ensures 0.0 < (rank - before) / n <= 1.0
  {
  }

  lemma BetweenBounds(lo: real, hi: real, f: real)
    requires 0.0 <= f <= 1.0 && lo <= hi
    ensures lo <= Between(lo, hi, f) <= hi
  {
    ScaledInOrder(0.0, f, hi - lo);
    ScaledInOrder(f, 1.0, hi - lo);
  }

  lemma BetweenMonotone(lo: real, hi: real, f: real, g: real)
    requires f <= g && lo <= hi
    ensures Between(lo, hi, f) <= Between(lo, hi, g)
  {
    ScaledInOrder(f, g, hi - lo);
  }

  /** How far into its bucket a rank lies. */
  ghost function Fraction(counts: seq<nat>, rank: real, k: nat): real
    requires k < |counts| && counts[k] > 0
  {
    (rank - Total(counts[..k]) as real) / counts[k] as real
  }

  lemma WithinBucket(bounds: seq<real>, counts: seq<nat>, rank: real)
    requires WellFormed(bounds, counts) && 0.0 < rank <= Total(counts) as real
    ensures var k := Covering(Cumulative(counts), rank);
            && k < |counts| && counts[k] > 0
            && AtRank(rank, bounds, Cumulative(counts))
               == Between(Lower(bounds, k), Upper(bounds, k), Fraction(counts, rank, k))
  {
    hide Between;
    CoveringBucket(counts, rank);
    CumulativeStep(counts, Covering(Cumulative(counts), rank));
  }

  lemma FractionOfBucket(counts: seq<nat>, rank: real)
    requires counts != [] && 0.0 < rank <= Total(counts) as real
    ensures var k := Covering(Cumulative(counts), rank);
            k < |counts| && counts[k] > 0 && 0.0 < Fraction(counts, rank, k) <= 1.0
  {
    CoveringBucket(counts, rank);
    var k := Covering(Cumulative(counts), rank);
    FractionInUnit(rank, Total(counts[..k]) as real, counts[k] as real);
  }

  lemma RankInsideBucket(rank: real, bounds: seq<real>, counts: seq<nat>)
    requires WellFormed(bounds, counts) && 0.0 < rank <= Total(counts) as real
    ensures var k := Covering(Cumulative(counts), rank);
            && k < |counts| && counts[k] > 0
            && Lower(bounds, k) <= AtRank(rank, bounds, Cumulative(counts)) <= Upper(bounds, k)
  {
    hide Fraction, AtRank, Between;
    WithinBucket(bounds, counts, rank);
    FractionOfBucket(counts, rank);
    var k := Covering(Cumulative(counts), rank);
    BoundsEnclose(bounds, k);
    BetweenBounds(Lower(bounds, k), Upper(bounds, k), Fraction(counts, rank, k));
  }

  /**
   * Every percentile lies inside the bucket that covers its rank; that bucket is not empty, so neither the
   * empty-bucket branch nor the fallback is reached.
   */
  lemma PercentileInsideBucket(p: real, bounds: seq<real>, counts: seq<nat>)
    requires WellFormed(bounds, counts) && Total(counts) > 0 && 0.0 < p <= 1.0
    ensures var rank := Rank(p, Total(counts));
            var k := Covering(Cumulative(counts), rank);
            && k < |counts| && counts[k] > 0
            && (Total(counts[..k]) as real) < rank <= Total(counts[..k]) as real + counts[k] as real
            && Lower(bounds, k) <= Percentile(p, bounds, Cumulative(counts), Total(counts)) <= Upper(bounds, k)
  {
    hide AtRank, Rank;
    var rank := Rank(p, Total(counts));
    RankInRange(p, Total(counts));
    CoveringBucket(counts, rank);
    RankInsideBucket(rank, bounds, counts);
  }

  // ---------------------------------------------------------------------------
  // The cumulative distribution the percentiles invert
  // ---------------------------------------------------------------------------

  /** The part of a bucket from `lo` to `hi` that lies below `x`, its observations spread evenly. */
  ghost function Share(lo: real, hi: real, x: real): real {
    if x <= lo then 0.0 else if x >= hi then 1.0 else (x - lo) / (hi - lo)
  }

  ghost function Weighted(n: nat, share: real): real {
    n as real * share
  }

  /** Piecewise-linear number of observations below `x` in the first `n` buckets. */
  ghost function Below(bounds: seq<real>, counts: seq<nat>, x: real, n: nat): real
    requires n <= |bounds| && n <= |counts|
  {
    if n == 0 then 0.0
    else Below(bounds, counts, x, n - 1) + Weighted(counts[n - 1], Share(Lower(bounds, n - 1), bounds[n - 1], x))
  }

  lemma {:induction false} FullBuckets(bounds: seq<real>, counts: seq<nat>, x: real, n: nat)
    requires SortedBounds(bounds) && n <= |bounds| && n <= |counts| && x > Lower(bounds, n)
    ensures Below(bounds, counts, x, n) == Total(counts[..n]) as real
  {
    if n > 0 {
      assert counts[..n][..n - 1] == counts[..n - 1];
      FullBuckets(bounds, counts, x, n - 1);
    }
  }

  lemma {:induction false} EmptyBuckets(bounds: seq<real>, counts: seq<nat>, x: real, k: nat, n: nat)
    requires SortedBounds(bounds) && k < n <= |bounds| && n <= |counts| && x <= bounds[k]
    ensures Below(bounds, counts, x, n) == Below(bounds, counts, x, k + 1)
  {
    if k + 1 < n {
      EmptyBuckets(bounds, counts, x, k, n - 1);
      assert Share(Lower(bounds, n - 1), bounds[n - 1], x) == 0.0;
    }
  }

  lemma ShareOfBetween(lo: real, hi: real, f: real)
    requires 0.0 < f <= 1.0 && lo < hi
    ensures lo < Between(lo, hi, f) <= hi
    ensures Share(lo, hi, Between(lo, hi, f)) == f
  {
    var width := hi - lo;
    assert f * width > 0.0;
    if f < 1.0 {
      assert (1.0 - f) * width > 0.0;
    }
    var x := Between(lo, hi, f);
    assert x - lo == f * width;
    assert f * width / width == f;
    assert (x - lo) / (hi - lo) == f;
    if f == 1.0 {
      assert x == hi;
    }
  }

  lemma CountOfFraction(counts: seq<nat>, rank: real, k: nat)
    requires k < |counts| && counts[k] > 0
    ensures Total(counts[..k]) as real + Weighted(counts[k], Fraction(counts, rank, k)) == rank
  {
    var n, d := counts[k] as real, rank - Total(counts[..k]) as real;
    assert n * (d / n) == d;
  }

  lemma BelowStep(bounds: seq<real>, counts: seq<nat>, x: real, k: nat)
    requires k < |bounds| && k < |counts|
    ensures Below(bounds, counts, x, k + 1)
            == Below(bounds, counts, x, k) + Weighted(counts[k], Share(Lower(bounds, k), bounds[k], x))
  {
  }

  lemma ShareInUnit(lo: real, hi: real, x: real)
    ensures 0.0 <= Share(lo, hi, x) <= 1.0
  {
    if lo < x < hi {
      FractionInUnit(x, lo, hi - lo);
    }
  }

  lemma WeightedAtMost(n: nat, share: real)
    requires 0.0 <= share <= 1.0
    ensures Weighted(n, share) <= n as real
  {
    ScaledInOrder(share, 1.0, n as real);
  }

  lemma {:induction false} BelowAtMost(bounds: seq<real>, counts: seq<nat>, x: real, n: nat)
    requires n <= |bounds| && n <= |counts|
    ensures Below(bounds, counts, x, n) <= Total(counts[..n]) as real
  {
    hide Share, Weighted;
    if n > 0 {
      BelowAtMost(bounds, counts, x, n - 1);
      assert counts[..n][..n - 1] == counts[..n - 1];
      ShareInUnit(Lower(bounds, n - 1), bounds[n - 1], x);
      WeightedAtMost(counts[n - 1], Share(Lower(bounds, n - 1), bounds[n - 1], x));
    }
  }

  lemma RankInverts(rank: real, bounds: seq<real>, counts: seq<nat>)
    requires WellFormed(bounds, counts) && 0.0 < rank <= Total(counts) as real
    ensures var k := Covering(Cumulative(counts), rank);
            Below(bounds, counts, AtRank(rank, bounds, Cumulative(counts)), |bounds|) == rank <==>
              k < |bounds| && Lower(bounds, k) < bounds[k]
  {
    hide Fraction, AtRank, Between, Share, Below, Weighted;
    WithinBucket(bounds, counts, rank);
    FractionOfBucket(counts, rank);
    var k := Covering(Cumulative(counts), rank);
    var x, f := AtRank(rank, bounds, Cumulative(counts)), Fraction(counts, rank, k);
    if k < |bounds| && Lower(bounds, k) < bounds[k] {
      ShareOfBetween(Lower(bounds, k), bounds[k], f);
      FullBuckets(bounds, counts, x, k);
      EmptyBuckets(bounds, counts, x, k, |bounds|);
      BelowStep(bounds, counts, x, k);
      CountOfFraction(counts, rank, k);
    } else {
      BelowAtMost(bounds, counts, x, k);
      CoveringBucket(counts, rank);
      if k < |bounds| {
        FlatBucket(bounds, counts, rank, k);
      }
    }
  }

  /** In a bucket without width the percentile is its bound, and nothing of the bucket lies below. */
  lemma FlatBucket(bounds: seq<real>, counts: seq<nat>, rank: real, k: nat)
    requires WellFormed(bounds, counts) && 0.0 < rank <= Total(counts) as real
    requires k == Covering(Cumulative(counts), rank) && k < |bounds| && Lower(bounds, k) >= bounds[k]
    ensures var x := AtRank(rank, bounds, Cumulative(counts));
            Below(bounds, counts, x, |bounds|) == Below(bounds, counts, x, k)
  {
    hide Fraction, AtRank, Between, Below;
    RankInsideBucket(rank, bounds, counts);
    BoundsEnclose(bounds, k);
    var x := AtRank(rank, bounds, Cumulative(counts));
    EmptyBuckets(bounds, counts, x, k, |bounds|);
    BelowStep(bounds, counts, x, k);
  }

  /** The percentile inverts the cumulative distribution exactly in the buckets with two ends and a width. */
  lemma PercentileInvertsDistribution(p: real, bounds: seq<real>, counts: seq<nat>)
    requires WellFormed(bounds, counts) && Total(counts) > 0 && 0.0 < p <= 1.0
    ensures var rank := Rank(p, Total(counts));
            var k := Covering(Cumulative(counts), rank);
            Below(bounds, counts, Percentile(p, bounds, Cumulative(counts), Total(counts)), |bounds|) == rank <==>
              k < |bounds| && Lower(bounds, k) < bounds[k]
  {
    hide AtRank, Rank, Below;
    RankInRange(p, Total(counts));
    RankInverts(Rank(p, Total(counts)), bounds, counts);
  }

  /** A first bound of zero: the median of one observation is 0, below which nothing lies. */
  lemma FlatBucketDoesNotInvert()
    ensures var bounds, counts := [0.0, 5.0], [1, 0, 0];
            && WellFormed(bounds, counts) && Total(counts) == 1
            && Percentile(0.5, bounds, Cumulative(counts), 1) == 0.0 && Rank(0.5, 1) == 0.5
            && Below(bounds, counts, 0.0, 2) == 0.0
  {
    var counts: seq<nat> := [1, 0, 0];
    assert counts[..2] == [1, 0] && counts[..1] == [1] && counts[..0] == [];
    assert [1, 0][..1] == [1];
    assert Total([1]) == 1 && Total([1, 0]) == 1;
  }

  // ---------------------------------------------------------------------------
  // Order of the percentiles
  // ---------------------------------------------------------------------------

  lemma CoveringMonotone(cumulative: seq<nat>, r: real, s: real)
    requires r <= s
    ensures Covering(cumulative, r) <= Covering(cumulative, s)
  {
  }

  lemma FractionMonotone(counts: seq<nat>, r: real, s: real, k: nat)
    requires r <= s && k < |counts| && counts[k] > 0
    ensures Fraction(counts, r, k) <= Fraction(counts, s, k)
  {
  }

  lemma RankMonotone(r: real, s: real, bounds: seq<real>, counts: seq<nat>)
    requires WellFormed(bounds, counts) && 0.0 < r <= s
    ensures AtRank(r, bounds, Cumulative(counts)) <= AtRank(s, bounds, Cumulative(counts))
  {
    if s > Total(counts) as real {
      BeyondAllBuckets(s, bounds, counts);
      if r <= Total(counts) as real {
        hide AtRank;
        RankInsideBucket(r, bounds, counts);
      } else {
        BeyondAllBuckets(r, bounds, counts);
      }
    } else {
      RankMonotoneInside(r, s, bounds, counts);
    }
  }

  lemma BeyondAllBuckets(rank: real, bounds: seq<real>, counts: seq<nat>)
    requires WellFormed(bounds, counts) && rank > Total(counts) as real
    ensures AtRank(rank, bounds, Cumulative(counts)) == bounds[|bounds| - 1]
  {
    FallbackCondition(counts, rank);
  }

  lemma RankMonotoneInside(r: real, s: real, bounds: seq<real>, counts: seq<nat>)
    requires WellFormed(bounds, counts) && 0.0 < r <= s <= Total(counts) as real
    ensures AtRank(r, bounds, Cumulative(counts)) <= AtRank(s, bounds, Cumulative(counts))
  {
    hide AtRank, Fraction, Between;
    var i, j := Covering(Cumulative(counts), r), Covering(Cumulative(counts), s);
    CoveringMonotone(Cumulative(counts), r, s);
    RankInsideBucket(r, bounds, counts);
    RankInsideBucket(s, bounds, counts);
    if i < j {
      assert Upper(bounds, i) <= Lower(bounds, j);
    } else {
      WithinBucket(bounds, counts, r);
      WithinBucket(bounds, counts, s);
      FractionMonotone(counts, r, s, i);
      BetweenMonotone(Lower(bounds, i), Upper(bounds, i), Fraction(counts, r, i), Fraction(counts, s, i));
    }
  }

  /** A higher percentile is never smaller, whatever count is reported beside the buckets. */
  lemma PercentileMonotone(p: real, q: real, bounds: seq<real>, counts: seq<nat>, totalCount: nat)
    requires WellFormed(bounds, counts) && totalCount > 0 && 0.0 < p <= q
    ensures Percentile(p, bounds, Cumulative(counts), totalCount)
      <= Percentile(q, bounds, Cumulative(counts), totalCount)
  {
    hide AtRank;
    RankMonotoneInP(p, q, totalCount);
    hide Rank;
    RankPositive(p, totalCount);
    RankMonotone(Rank(p, totalCount), Rank(q, totalCount), bounds, counts);
  }

  lemma RankPositive(p: real, totalCount: nat)
    requires p > 0.0 && totalCount > 0
    ensures Rank(p, totalCount) > 0.0
  {
  }

  lemma RoundMonotone(x: real, y: real)
    requires x <= y
    ensures Round2(x) <= Round2(y)
  {
    assert (x * 100.0 + 0.5).Floor <= (y * 100.0 + 0.5).Floor;
  }

  /** Rounding to two decimals moves a value by at most half a hundredth. */
  lemma RoundIsClose(x: real)
    ensures x - 0.005 <= Round2(x) <= x + 0.005
  {
    var k := (x * 100.0 + 0.5).Floor as real;
    assert k <= x * 100.0 + 0.5 < k + 1.0;
  }

  /** Scaling and rounding keep the percentiles in order. */
  lemma PercentilesInOrder(p: real, q: real, buckets: HistogramBuckets, unitMultiplier: real)
    requires WellFormed(buckets.explicitBounds, buckets.bucketCounts) && TotalCount(buckets) > 0
    requires 0.0 < p <= q && unitMultiplier >= 0.0
    ensures InOrder(RoundNumber(At(p, buckets, unitMultiplier)), RoundNumber(At(q, buckets, unitMultiplier)))
  {
    hide Interpolated, AtRank, Round2, Rank;
    var bounds, counts, n := buckets.explicitBounds, buckets.bucketCounts, TotalCount(buckets);
    PercentileMonotone(p, q, bounds, counts, n);
    InterpolatedIsNumber(Rank(p, n), bounds, Cumulative(counts));
    InterpolatedIsNumber(Rank(q, n), bounds, Cumulative(counts));
    var x, y := Percentile(p, bounds, Cumulative(counts), n), Percentile(q, bounds, Cumulative(counts), n);
    ScaledInOrder(x, y, unitMultiplier);
    RoundMonotone(Scale(x, unitMultiplier), Scale(y, unitMultiplier));
  }

  lemma ScaledInOrder(x: real, y: real, u: real)
    requires x <= y && u >= 0.0
    ensures x * u <= y * u && u * x <= u * y
  {
    assert (y - x) * u >= 0.0;
  }
}

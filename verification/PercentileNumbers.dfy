/** The percentiles and the summary told by the reported counts, bounds and sums. */
module PercentileNumbers {
  import opened Common
  import opened HistogramPercentiles

  /** Observations in the first `n` buckets. */
  ghost function Held(counts: seq<nat>, n: nat): nat
    requires n <= |counts|
  {
    if n == 0 then 0 else Held(counts, n - 1) + counts[n - 1]
  }

  lemma {:induction false} HeldIsTotal(counts: seq<nat>, n: nat)
    requires n <= |counts|
    ensures Held(counts, n) == Total(counts[..n])
  {
    if n > 0 {
      HeldIsTotal(counts, n - 1);
      assert counts[..n][..n - 1] == counts[..n - 1];
    }
  }

  /** The reported count, or else the sum of the buckets. */
  ghost function Reported(buckets: HistogramBuckets): nat {
    match buckets.count
    case Some(n) => n
    case None => Held(buckets.bucketCounts, |buckets.bucketCounts|)
  }

  lemma CountInNumbers(buckets: HistogramBuckets)
    ensures TotalCount(buckets) == Reported(buckets)
  {
    HeldIsTotal(buckets.bucketCounts, |buckets.bucketCounts|);
    assert buckets.bucketCounts[..|buckets.bucketCounts|] == buckets.bucketCounts;
  }

  /** Bucket `k` is the first that, with those before, holds `wanted` observations. */
  ghost predicate FirstToHold(counts: seq<nat>, wanted: real, k: nat)
    requires k < |counts|
  {
    && Held(counts, k + 1) as real >= wanted
    && forall i: nat :: 0 < i <= k ==> (Held(counts, i) as real) < wanted
  }

  lemma CumulativeIsHeld(counts: seq<nat>)
    ensures |Cumulative(counts)| == |counts|
    ensures forall i: nat :: i < |counts| ==> Cumulative(counts)[i] == Held(counts, i + 1)
  {
    forall i: nat | i < |counts| ensures Cumulative(counts)[i] == Held(counts, i + 1) {
      HeldIsTotal(counts, i + 1);
    }
  }

  lemma FirstIsCovering(counts: seq<nat>, wanted: real, k: nat)
    requires k < |counts|
    ensures FirstToHold(counts, wanted, k) <==> Covering(Cumulative(counts), wanted) == k
  {
    CumulativeIsHeld(counts);
    var cumulative := Cumulative(counts);
    var c := Covering(cumulative, wanted);
    hide Covering, Cumulative, Held;
    assert forall i: nat :: i < c ==> (cumulative[i] as real) < wanted;
    if c == k {
      forall i: nat | 0 < i <= k ensures (Held(counts, i) as real) < wanted {
        assert cumulative[i - 1] == Held(counts, i);
      }
    }
    if FirstToHold(counts, wanted, k) {
      assert cumulative[k] as real >= wanted;
      forall i: nat | i < k ensures (cumulative[i] as real) < wanted {
        assert cumulative[i] == Held(counts, i + 1);
      }
    }
  }

  lemma RankInNumbers(p: real, n: nat)
    ensures Rank(p, n) == p * n as real
  {
  }

  lemma InBucketInNumbers(counts: seq<nat>, k: nat)
    requires k < |counts|
    ensures InBucket(Cumulative(counts), k) == counts[k] && Before(Cumulative(counts), k) == Held(counts, k)
  {
    CumulativeStep(counts, k);
    HeldIsTotal(counts, k);
  }

  /** The lower end of a bucket: 0 for the first, else the bound before it, if there is one. */
  ghost function LowerEnd(bounds: seq<real>, k: nat): Number {
    if k == 0 then Some(0.0) else if k <= |bounds| then Some(bounds[k - 1]) else None
  }

  /** The upper end of a bucket: its bound, or else the last one. */
  ghost function UpperEnd(bounds: seq<real>, k: nat): Number {
    if bounds == [] then None else Some(if k < |bounds| then bounds[k] else bounds[|bounds| - 1])
  }

  /**
   * In bucket `k` the point at which `wanted` observations are reached: the lower end when the bucket is empty,
   * otherwise as far between its ends as the missing observations are of the bucket's; NaN when an end is not there.
   */
  ghost predicate IsPoint(y: Number, wanted: real, bounds: seq<real>, counts: seq<nat>, k: nat)
    requires k < |counts|
  {
    var lower, upper := LowerEnd(bounds, k), UpperEnd(bounds, k);
    if counts[k] == 0 then y == lower
    else if lower.None? || upper.None? then y == None
    else
      && y.Some?
      && (y.value - lower.value) * counts[k] as real
         == (wanted - Held(counts, k) as real) * (upper.value - lower.value)
  }

  lemma EndsAreBounds(bounds: seq<real>, k: nat)
    ensures LowerEnd(bounds, k) == LowerBound(bounds, k) && UpperEnd(bounds, k) == UpperBound(bounds, k)
  {
  }

  lemma BetweenInProportion(lo: real, hi: real, missing: real, n: real)
    requires n > 0.0
    ensures (Between(lo, hi, missing / n) - lo) * n == missing * (hi - lo)
  {
    var fraction, width := missing / n, hi - lo;
    assert fraction * n == missing;
    assert fraction * width * n == fraction * n * width;
  }

  lemma InterpolatedIsPoint(wanted: real, bounds: seq<real>, counts: seq<nat>)
    ensures var k, y := Covering(Cumulative(counts), wanted), Interpolated(wanted, bounds, Cumulative(counts));
            if k < |counts| then IsPoint(y, wanted, bounds, counts, k)
            else y == Some(if bounds == [] then 0.0 else bounds[|bounds| - 1])
  {
    var cumulative := Cumulative(counts);
    var k := Covering(cumulative, wanted);
    CumulativeIsHeld(counts);
    hide Covering, Cumulative, Held, InBucket, Before, LowerBound, UpperBound, Between, IsPoint;
    if k < |counts| {
      InBucketInNumbers(counts, k);
      var y := Interpolated(wanted, bounds, cumulative);
      PointInBucket(y, wanted, bounds, counts, k, wanted - Before(cumulative, k) as real, InBucket(cumulative, k));
    }
  }

  lemma PointInBucket(
    y: Number, wanted: real, bounds: seq<real>, counts: seq<nat>, k: nat, missing: real, inBucket: int)
    requires k < |counts| && inBucket == counts[k] && missing == wanted - Held(counts, k) as real
    requires var lower, upper := LowerBound(bounds, k), UpperBound(bounds, k);
             y == if inBucket == 0 then lower
                  else if lower.None? || upper.None? then None
                  else Some(Between(lower.value, upper.value, missing / inBucket as real))
    ensures IsPoint(y, wanted, bounds, counts, k)
  {
    EndsAreBounds(bounds, k);
    hide LowerEnd, LowerBound, UpperEnd, UpperBound, Between, Held;
    var lower, upper := LowerBound(bounds, k), UpperBound(bounds, k);
    if inBucket != 0 && lower.Some? && upper.Some? {
      BetweenInProportion(lower.value, upper.value, missing, inBucket as real);
    }
  }

  lemma ReachedPoint(wanted: real, bounds: seq<real>, counts: seq<nat>)
    ensures var y := Interpolated(wanted, bounds, Cumulative(counts));
            && (forall k: nat :: k < |counts| && FirstToHold(counts, wanted, k) ==>
                  IsPoint(y, wanted, bounds, counts, k))
            && ((forall k: nat :: k < |counts| ==> !FirstToHold(counts, wanted, k)) ==>
                  y == Some(if bounds == [] then 0.0 else bounds[|bounds| - 1]))
  {
    InterpolatedIsPoint(wanted, bounds, counts);
    hide FirstToHold, Covering, Cumulative, Held, IsPoint, Interpolated;
    var covering := Covering(Cumulative(counts), wanted);
    forall k: nat | k < |counts|
      ensures FirstToHold(counts, wanted, k) <==> covering == k {
      FirstIsCovering(counts, wanted, k);
    }
    if covering < |counts| {
      assert FirstToHold(counts, wanted, covering);
    }
  }

  lemma ScaledInNumbers(x: Number, unit: real)
    ensures ScaleNumber(x, unit) == match x { case None => None case Some(y) => Some(y * unit) }
  {
  }

  /**
   * A percentile in milliseconds, before rounding, is `y` of the bounds' units, `y` being the point at which its share
   * of the observations is reached; or the last bound, 0 without one, when the buckets do not hold that many.
   */
  lemma PercentileInNumbers(p: real, buckets: HistogramBuckets, unit: real) returns (y: Number)
    ensures At(p, buckets, unit) == match y { case None => None case Some(x) => Some(x * unit) }
    ensures var bounds, counts, wanted := buckets.explicitBounds, buckets.bucketCounts, p * Reported(buckets) as real;
            && (forall k: nat :: k < |counts| && FirstToHold(counts, wanted, k) ==>
                  IsPoint(y, wanted, bounds, counts, k))
            && ((forall k: nat :: k < |counts| ==> !FirstToHold(counts, wanted, k)) ==>
                  y == Some(if bounds == [] then 0.0 else bounds[|bounds| - 1]))
  {
    CountInNumbers(buckets);
    RankInNumbers(p, Reported(buckets));
    var bounds, counts := buckets.explicitBounds, buckets.bucketCounts;
    var wanted := Rank(p, TotalCount(buckets));
    assert wanted == p * Reported(buckets) as real;
    y := Interpolated(wanted, bounds, Cumulative(counts));
    assert At(p, buckets, unit) == ScaleNumber(y, unit);
    ScaledInNumbers(y, unit);
    hide *;
    ReachedPoint(wanted, bounds, counts);
  }

  /** `r` is `x` rounded to whole hundredths, halves upwards. */
  ghost predicate IsRounded(r: real, x: real) {
    (r * 100.0).Floor as real == r * 100.0 && r * 100.0 - 0.5 <= x * 100.0 < r * 100.0 + 0.5
  }

  lemma RoundedInNumbers(x: real)
    ensures IsRounded(Round2(x), x)
  {
    var k := (x * 100.0 + 0.5).Floor;
    assert k as real <= x * 100.0 + 0.5 < k as real + 1.0;
    assert Round2(x) * 100.0 == k as real;
    assert (k as real).Floor == k;
  }

  /** A reported extreme is scaled to milliseconds, the average is sum over count, and all are rounded to hundredths. */
  lemma SummaryInNumbers(x: real, sum: real, count: nat, unit: real)
    requires count > 0
    ensures IsRounded(Round2(Scale(x, unit)), x * unit)
    ensures IsRounded(Round2(Scale(Average(sum, count), unit)), sum * unit / count as real)
  {
    RoundedInNumbers(Scale(x, unit));
    RoundedInNumbers(Scale(Average(sum, count), unit));
    var n := count as real;
    hide IsRounded, Round2;
    assert sum / n * unit * n == sum * unit by { assert sum / n * n == sum; }
    assert sum * unit / n == sum / n * unit;
  }
}

/** What the statistics and the two outlier methods report, stated on the values themselves. */
module Outliers {
  import opened Options
  import opened OutlierBounds
  import opened RealSums
  import opened Selections
  import opened Sorting
  import opened Statistics

  // ---------------------------------------------------------------------------------------------
  // Percentiles
  // ---------------------------------------------------------------------------------------------

  lemma BetweenPositions(s: seq<real>, num: nat, k: nat)
    requires k < |s| && num <= 100 * (|s| - 1)
    ensures num == 100 * k ==> Interpolated(s, num) == s[k]
    ensures k + 1 < |s| && 100 * k <= num <= 100 * (k + 1) ==>
              Product(100.0, Interpolated(s, num) - s[k]) == Product((num - 100 * k) as real, s[k + 1] - s[k])
  {
    if num == 100 * k {
      assert Product(100.0, 0.0) == 0.0 == Product(0.0, if k + 1 < |s| then s[k + 1] - s[k] else 0.0);
    } else if k + 1 < |s| && num == 100 * (k + 1) {
      assert Interpolated(s, num) == s[k + 1];
    } else if k + 1 < |s| && 100 * k < num < 100 * (k + 1) {
      var r := num - 100 * k;
      assert num == 100 * k + r && num / 100 == k && num % 100 == r;
      PartOf(s[k], s[k + 1] - s[k], r as real);
    }
  }

  lemma PartOf(x: real, gap: real, r: real)
    ensures Product(100.0, x + Product(gap, r / 100.0) - x) == Product(r, gap)
  {
    assert Product(gap, r / 100.0) == Product(r, gap) / 100.0;
  }

  /** The percentile of a list of `n` values lies at `(n - 1) * p` hundredths of an index: it is the value there if that
      is a whole index, and else as far between the two neighbours as the position is. */
  lemma PercentileExact(s: seq<real>, p: nat, k: nat)
    requires p <= 100 && k < |s|
    ensures (|s| - 1) * p == 100 * k ==> Percentile(s, p) == s[k]
    ensures k + 1 < |s| && 100 * k <= (|s| - 1) * p <= 100 * (k + 1) ==>
              Product(100.0, Percentile(s, p) - s[k])
              == Product(((|s| - 1) * p - 100 * k) as real, s[k + 1] - s[k])
  {
    PercentileIsInterpolated(s, p);
    BetweenPositions(s, Position(|s|, p), k);
  }

  // ---------------------------------------------------------------------------------------------
  // Outliers
  // ---------------------------------------------------------------------------------------------

  /** More than one and a half times the distance of the quartiles below the first or above the third. */
  ghost predicate FarOut(xs: seq<real>, x: real) {
    var p25, p75 := Percentile(Sorted(xs), 25), Percentile(Sorted(xs), 75);
    2.0 * (p25 - x) > 3.0 * (p75 - p25) || 2.0 * (x - p75) > 3.0 * (p75 - p25)
  }

  ghost function FarOutAt(xs: seq<real>): nat -> bool {
    (i: nat) => i < |xs| && FarOut(xs, xs[i])
  }

  lemma FlaggedPositions(xs: seq<real>, flag: real -> bool, wanted: nat -> bool)
    requires forall i: nat | i < |xs| :: wanted(i) == flag(xs[i])
    ensures PositionsBelow(|xs|, wanted, Flagged(xs, flag, |xs|))
  {
    FlaggedExact(xs, flag, |xs|);
  }

  /** The interquartile method returns exactly the positions of the values that are far out, in ascending order. */
  lemma IqrExact(xs: seq<real>, sqrt: RootFunction)
    requires |xs| >= 4
    ensures PositionsBelow(|xs|, FarOutAt(xs), DetectOutliersRobust(xs, "iqr", sqrt))
  {
    var stats := CalculateStatistics(xs, sqrt).value;
    FlaggedPositions(xs, IqrFlag(stats.lowerFence, stats.upperFence), FarOutAt(xs));
  }

  /** More than two and a half standard deviations from the mean: squared, and times the number of values. */
  ghost predicate FarFromMean(xs: seq<real>, x: real)
    requires xs != []
  {
    Product(|xs| as real, Square(x - Mean(xs))) > 6.25 * SquaredDeviations(xs, Mean(xs))
  }

  ghost function FarFromMeanAt(xs: seq<real>): nat -> bool {
    (i: nat) => i < |xs| && FarFromMean(xs, xs[i])
  }

  lemma ScaledVariance(n: real, d: real, x: real)
    requires n > 0.0
    ensures x > 6.25 * (d / n) <==> Product(n, x) > 6.25 * d
  {
    var v := d / n;
    assert Product(n, 6.25 * v) == 6.25 * d;
    if x > 6.25 * v {
      ProductPositive(n, x - 6.25 * v);
    } else {
      ProductMonotone(n, x, 6.25 * v);
    }
    assert Product(n, x - 6.25 * v) == Product(n, x) - Product(n, 6.25 * v);
  }

  lemma ZFlagExact(xs: seq<real>, i: nat, std: real)
    requires i < |xs| && IsRoot(std, Variance(xs))
    ensures ZOutlier(xs[i], Mean(xs), std) <==> FarFromMean(xs, xs[i])
  {
    var x, mean := xs[i], Mean(xs);
    ScaledVariance(|xs| as real, SquaredDeviations(xs, mean), Square(x - mean));
    SquareNonNegative(std);
    if std > 0.0 {
      ZOutlierIsFar(x, mean, std);
    } else {
      NoVariance(xs, i);
    }
  }

  /** Without variance all values are the mean. */
  lemma NoVariance(xs: seq<real>, i: nat)
    requires i < |xs| && Variance(xs) == 0.0
    ensures !FarFromMean(xs, xs[i])
  {
    var d, n := SquaredDeviations(xs, Mean(xs)), |xs| as real;
    assert Product(n, d / n) == d && Product(n, 0.0) == 0.0;
    DeviationsNonNegative(xs, Mean(xs));
    assert xs[i] - Mean(xs) == 0.0;
    assert Product(n, Square(0.0)) == 0.0;
  }

  /** The z-score method returns exactly the positions of the values that are far from the mean, in ascending order. */
  lemma ZScoreExact(xs: seq<real>, sqrt: RootFunction)
    requires |xs| >= 4 && IsRoot(sqrt(Variance(xs)), Variance(xs))
    ensures PositionsBelow(|xs|, FarFromMeanAt(xs), DetectOutliersRobust(xs, "zscore", sqrt))
  {
    var std := sqrt(Variance(xs));
    forall i: nat | i < |xs|
      ensures FarFromMeanAt(xs)(i) == ZFlag(Mean(xs), std)(xs[i])
    {
      ZFlagExact(xs, i, std);
    }
    FlaggedPositions(xs, ZFlag(Mean(xs), std), FarFromMeanAt(xs));
  }

  /** Fewer than four values, or another method, give nothing. */
  lemma OtherwiseNothing(xs: seq<real>, method_: string, sqrt: RootFunction)
    requires |xs| < 4 || (method_ != "iqr" && method_ != "zscore")
    ensures DetectOutliersRobust(xs, method_, sqrt) == []
  {
  }

  // ---------------------------------------------------------------------------------------------
  // The statistics
  // ---------------------------------------------------------------------------------------------

  ghost predicate IsLeast(xs: seq<real>, m: real) {
    m in xs && forall x | x in xs :: m <= x
  }

  ghost predicate IsGreatest(xs: seq<real>, m: real) {
    m in xs && forall x | x in xs :: x <= m
  }

  lemma EndsOfSorted(xs: seq<real>)
    requires xs != []
    ensures |Sorted(xs)| == |xs| && IsLeast(xs, Sorted(xs)[0]) && IsGreatest(xs, Sorted(xs)[|xs| - 1])
  {
    var s := Sorted(xs);
    SortedAscending(xs);
    SortByCorrect(xs, Identity);
    forall x
      ensures x in xs <==> x in s
    {
      assert x in xs <==> x in multiset(xs);
      assert x in s <==> x in multiset(s);
    }
    assert s[0] in s && s[|s| - 1] in s;
  }

  lemma {:induction false} CountIsPositions(xs: seq<real>, lower: real, upper: real, wanted: nat -> bool, n: nat)
    requires n <= |xs| && forall i: nat | i < |xs| :: wanted(i) == Outside(xs[i], lower, upper)
    ensures CountOutside(xs[..n], lower, upper) == |Positions(n, wanted)|
  {
    if n > 0 {
      CountIsPositions(xs, lower, upper, wanted, n - 1);
      assert xs[..n][..n - 1] == xs[..n - 1];
    }
  }

  /** The spread that is reported is the root of the mean squared deviation. */
  lemma SpreadIsRoot(xs: seq<real>, std: real)
    requires xs != [] && IsRoot(std, Variance(xs))
    ensures std >= 0.0 && Product(|xs| as real, Square(std)) == SquaredDeviations(xs, Mean(xs))
  {
    var d, n := SquaredDeviations(xs, Mean(xs)), |xs| as real;
    assert Product(n, d / n) == d;
  }

  /** There are statistics exactly if there are values. Their number, their mean, and their spread: the root of the mean
      squared deviation. */
  lemma MomentsExact(xs: seq<real>, sqrt: RootFunction)
    ensures CalculateStatistics(xs, sqrt).None? <==> xs == []
    ensures xs != [] ==>
              var stats := CalculateStatistics(xs, sqrt).value;
              && stats.count == |xs| && Product(|xs| as real, stats.mean) == Sum(xs)
              && (IsRoot(sqrt(Variance(xs)), Variance(xs)) ==>
                    stats.std >= 0.0 && Product(|xs| as real, Square(stats.std)) == SquaredDeviations(xs, Mean(xs)))
  {
    if xs != [] {
      MeanTimesCount(xs);
      if IsRoot(sqrt(Variance(xs)), Variance(xs)) {
        SpreadIsRoot(xs, sqrt(Variance(xs)));
      }
    }
  }

  /** The least and the greatest value, the quartiles and their distance, the fences one and a half times as far out,
      and the median. */
  lemma OrderStatisticsExact(xs: seq<real>, sqrt: RootFunction)
    requires xs != []
    ensures var stats := CalculateStatistics(xs, sqrt).value;
            && IsLeast(xs, stats.min) && IsGreatest(xs, stats.max)
            && stats.q1 == Percentile(Sorted(xs), 25) && stats.q3 == Percentile(Sorted(xs), 75)
            && stats.median == Percentile(Sorted(xs), 50)
            && stats.q3 - stats.q1 == stats.iqr
            && 2.0 * (stats.q1 - stats.lowerFence) == 3.0 * stats.iqr == 2.0 * (stats.upperFence - stats.q3)
  {
    EndsOfSorted(xs);
    PercentileOfHalf(Sorted(xs));
  }

  /** The number of values that are far out, as many as the interquartile method returns. */
  lemma OutlierCountExact(xs: seq<real>, sqrt: RootFunction)
    requires xs != []
    ensures CalculateStatistics(xs, sqrt).value.outlierCount == |Positions(|xs|, FarOutAt(xs))|
  {
    var stats := CalculateStatistics(xs, sqrt).value;
    CountIsPositions(xs, stats.lowerFence, stats.upperFence, FarOutAt(xs), |xs|);
    assert xs[..|xs|] == xs;
  }
}

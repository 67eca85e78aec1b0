/** Descriptive statistics and the two outlier methods, over exact reals.

    The square root is a parameter; where its value matters it is required to be a root of the variance.
  */
module Statistics {
  import opened Options
  import opened RealSums
  import opened Sorting

  datatype Stats = Stats(
    count: nat, mean: real, median: real, std: real,
    q1: real, q3: real, iqr: real, lowerFence: real, upperFence: real, outlierCount: nat,
    min: real, max: real)

  type RootFunction = real -> real

  ghost predicate IsRoot(root: real, x: real) {
    root >= 0.0 && Square(root) == x
  }

  const Identity: real -> real := x => x

  function Sorted(xs: seq<real>): seq<real> {
    SortBy(xs, Identity)
  }

  ghost predicate Ascending(s: seq<real>) {
    forall i, j | 0 <= i < j < |s| :: s[i] <= s[j]
  }

  // ---------------------------------------------------------------------------------------------
  // Percentiles
  // ---------------------------------------------------------------------------------------------

  /** The value at position `num / 100` of `s`, interpolating linearly between neighbours. */
  function Interpolated(s: seq<real>, num: nat): real
    requires s != [] && num <= 100 * (|s| - 1)
  {
    if num % 100 == 0 then s[num / 100]
    else s[num / 100] + Product(s[num / 100 + 1] - s[num / 100], (num % 100) as real / 100.0)
  }

  lemma {:induction false} TimesMonotone(k: nat, p: nat, q: nat)
    requires p <= q
    ensures k * p <= k * q
  {
    if k > 0 {
      TimesMonotone(k - 1, p, q);
      assert k * p == (k - 1) * p + p && k * q == (k - 1) * q + q;
    }
  }

  /** A percentile's position, in hundredths of an index. */
  function Position(n: nat, p: nat): (num: nat)
    requires n > 0 && p <= 100
    ensures num <= 100 * (n - 1)
  {
    TimesMonotone(n - 1, p, 100);
    (n - 1) * p
  }

  lemma PositionMonotone(n: nat, p: nat, q: nat)
    requires n > 0 && p <= q <= 100
    ensures Position(n, 0) == 0 && Position(n, 100) == 100 * (n - 1)
    ensures Position(n, p) <= Position(n, q)
  {
    TimesMonotone(n - 1, p, q);
  }

  function Percentile(s: seq<real>, p: nat): real
    requires p <= 100
  {
    if s == [] then 0.0
    else if p == 0 then s[0]
    else if p == 100 then s[|s| - 1]
    else Interpolated(s, Position(|s|, p))
  }

  /** Interpolation stays between the two neighbours. */
  lemma InterpolatedBetween(s: seq<real>, num: nat)
    requires Ascending(s) && s != [] && num <= 100 * (|s| - 1)
    ensures s[num / 100] <= Interpolated(s, num)
    ensures num % 100 != 0 ==> Interpolated(s, num) <= s[num / 100 + 1]
  {
    if num % 100 != 0 {
      var gap, f := s[num / 100 + 1] - s[num / 100], (num % 100) as real / 100.0;
      ProductMonotone(gap, 0.0, f);
      ProductMonotone(gap, f, 1.0);
      assert Product(gap, 0.0) == 0.0 && Product(gap, 1.0) == gap;
    }
  }

  lemma InterpolatedMonotone(s: seq<real>, a: nat, b: nat)
    requires Ascending(s) && s != [] && a <= b <= 100 * (|s| - 1)
    ensures Interpolated(s, a) <= Interpolated(s, b)
  {
    InterpolatedBetween(s, a);
    InterpolatedBetween(s, b);
    if a / 100 == b / 100 {
      if a % 100 != 0 {
        ProductMonotone(s[a / 100 + 1] - s[a / 100], (a % 100) as real / 100.0, (b % 100) as real / 100.0);
      }
    } else {
      assert a / 100 + 1 <= b / 100;
    }
  }

  /** The two special cases agree with the general formula. */
  lemma PercentileIsInterpolated(s: seq<real>, p: nat)
    requires s != [] && p <= 100
    ensures Percentile(s, p) == Interpolated(s, Position(|s|, p))
  {
    PositionMonotone(|s|, p, p);
  }

  /** On a sorted list the percentile never decreases in `p`, and lies between the minimum and the maximum. */
  lemma PercentileMonotone(s: seq<real>, p: nat, q: nat)
    requires Ascending(s) && p <= q <= 100
    ensures Percentile(s, p) <= Percentile(s, q)
    ensures s != [] ==> s[0] <= Percentile(s, p) && Percentile(s, q) <= s[|s| - 1]
  {
    if s != [] {
      PercentileIsInterpolated(s, p);
      PercentileIsInterpolated(s, q);
      PositionMonotone(|s|, p, q);
      InterpolatedMonotone(s, Position(|s|, p), Position(|s|, q));
      InterpolatedMonotone(s, 0, Position(|s|, p));
      InterpolatedMonotone(s, Position(|s|, q), 100 * (|s| - 1));
    }
  }

  function Median(s: seq<real>): real
    requires s != []
  {
    var n := |s|;
    if n % 2 != 0 then s[n / 2] else (s[n / 2 - 1] + s[n / 2]) / 2.0
  }

  /** The 50th percentile is the median, for odd and even lengths. */
  lemma PercentileOfHalf(s: seq<real>)
    requires s != []
    ensures Percentile(s, 50) == Median(s)
  {
    var n := |s|;
    PercentileIsInterpolated(s, 50);
    var num := Position(n, 50);
    if n % 2 == 0 {
      assert num == 100 * (n / 2 - 1) + 50;
      assert num / 100 == n / 2 - 1 && num % 100 == 50;
      var gap := s[n / 2] - s[n / 2 - 1];
      assert Product(gap, 50.0 / 100.0) == gap / 2.0;
    } else {
      assert num == 100 * (n / 2);
    }
  }

  // ---------------------------------------------------------------------------------------------
  // The statistics
  // ---------------------------------------------------------------------------------------------

  function Variance(xs: seq<real>): real
    requires xs != []
  {
    SquaredDeviations(xs, Mean(xs)) / |xs| as real
  }

  predicate Outside(x: real, lower: real, upper: real) {
    x < lower || x > upper
  }

  function CountOutside(xs: seq<real>, lower: real, upper: real): nat {
    if xs == [] then 0
    else CountOutside(xs[..|xs| - 1], lower, upper) + if Outside(xs[|xs| - 1], lower, upper) then 1 else 0
  }

  function CalculateStatistics(xs: seq<real>, sqrt: RootFunction): Option<Stats> {
    if xs == [] then None
    else
      SortByCorrect(xs, Identity);
      var s := Sorted(xs);
      var q1, q3 := Percentile(s, 25), Percentile(s, 75);
      var iqr := q3 - q1;
      var lower, upper := q1 - 1.5 * iqr, q3 + 1.5 * iqr;
      Some(Stats(|xs|, Mean(xs), Median(s), sqrt(Variance(xs)), q1, q3, iqr, lower, upper,
                 CountOutside(xs, lower, upper), s[0], s[|s| - 1]))
  }

  function ZScore(x: real, mean: real, std: real): real {
    if std == 0.0 then 0.0 else (x - mean) / std
  }

  predicate ZOutlier(x: real, mean: real, std: real) {
    ZScore(x, mean, std) > 2.5 || ZScore(x, mean, std) < -2.5
  }

  /** The indices below `n` whose value satisfies the flag. */
  function Flagged(xs: seq<real>, flag: real -> bool, n: nat): seq<nat>
    requires n <= |xs|
  {
    if n == 0 then []
    else
      var earlier := Flagged(xs, flag, n - 1);
      if flag(xs[n - 1]) then earlier + [n - 1] else earlier
  }

  function IqrFlag(lower: real, upper: real): real -> bool {
    x => Outside(x, lower, upper)
  }

  function ZFlag(mean: real, std: real): real -> bool {
    x => ZOutlier(x, mean, std)
  }

  function DetectOutliersRobust(xs: seq<real>, method_: string, sqrt: RootFunction): seq<nat> {
    if |xs| < 4 then []
    else
      var stats := CalculateStatistics(xs, sqrt).value;
      if method_ == "iqr" then Flagged(xs, IqrFlag(stats.lowerFence, stats.upperFence), |xs|)
      else if method_ == "zscore" then Flagged(xs, ZFlag(stats.mean, stats.std), |xs|)
      else []
  }

  /** The reported indices are exactly the flagged positions, in ascending order. */
  lemma {:induction false} FlaggedExact(xs: seq<real>, flag: real -> bool, n: nat)
    requires n <= |xs|
    ensures forall i :: i in Flagged(xs, flag, n) <==> 0 <= i < n && flag(xs[i])
    ensures forall i, j | 0 <= i < j < |Flagged(xs, flag, n)| :: Flagged(xs, flag, n)[i] < Flagged(xs, flag, n)[j]
  {
    if n > 0 {
      FlaggedExact(xs, flag, n - 1);
      var earlier := Flagged(xs, flag, n - 1);
      assert forall i | 0 <= i < |earlier| :: earlier[i] in earlier;
    }
  }

  lemma {:induction false} NoneFlagged(xs: seq<real>, flag: real -> bool, n: nat)
    requires n <= |xs| && forall x :: !flag(x)
    ensures Flagged(xs, flag, n) == []
  {
    if n > 0 {
      NoneFlagged(xs, flag, n - 1);
    }
  }

  // ---------------------------------------------------------------------------------------------
  // Z-scores: Chebyshev
  // ---------------------------------------------------------------------------------------------

  /** A z-score beyond 2.5 is a squared deviation beyond 6.25 variances. */
  lemma ZOutlierIsFar(x: real, mean: real, std: real)
    requires std > 0.0
    ensures ZOutlier(x, mean, std) <==> Square(x - mean) > 6.25 * Square(std)
  {
    var z := (x - mean) / std;
    assert Product(z, std) == x - mean;
    assert Square(x - mean) == Product(Square(z), Square(std));
    SquareNonNegative(std);
    BeyondFiveHalves(z);
    if Square(z) > 6.25 {
      ProductPositive(Square(z) - 6.25, Square(std));
    } else {
      ProductMonotone(Square(std), Square(z), 6.25);
      assert Product(Square(std), Square(z)) == Product(Square(z), Square(std));
    }
    assert Product(Square(z) - 6.25, Square(std)) == Product(Square(z), Square(std)) - 6.25 * Square(std);
    assert Product(Square(std), 6.25) == 6.25 * Square(std);
  }

  lemma BeyondFiveHalves(z: real)
    ensures Square(z) > 6.25 <==> z > 2.5 || z < -2.5
  {
    assert Square(z) - 6.25 == Product(z - 2.5, z + 2.5);
    if z > 2.5 {
      ProductPositive(z - 2.5, z + 2.5);
    } else if z < -2.5 {
      ProductPositive(2.5 - z, -2.5 - z);
      assert Product(2.5 - z, -2.5 - z) == Product(z - 2.5, z + 2.5);
    } else {
      ProductMonotone(z + 2.5, z - 2.5, 0.0);
      assert Product(z + 2.5, z - 2.5) == Product(z - 2.5, z + 2.5);
      assert Product(z + 2.5, 0.0) == 0.0;
    }
  }

  /** `k` values whose squared deviation exceeds `t` contribute more than `k * t`. */
  lemma {:induction false} FarValuesAddUp(xs: seq<real>, m: real, t: real, flag: real -> bool, n: nat)
    requires n <= |xs| && t >= 0.0
    requires forall x :: flag(x) ==> Square(x - m) > t
    ensures var k := |Flagged(xs, flag, n)|;
            && SquaredDeviations(xs[..n], m) >= k as real * t
            && (k > 0 ==> SquaredDeviations(xs[..n], m) > k as real * t)
  {
    if n > 0 {
      FarValuesAddUp(xs, m, t, flag, n - 1);
      assert xs[..n][..n - 1] == xs[..n - 1];
      SquareNonNegative(xs[n - 1] - m);
    }
  }

  /** Chebyshev for the z-score method: of `n` values fewer than 4n/25 are flagged, or none at all. */
  lemma ZScoreFlagsFew(xs: seq<real>, sqrt: RootFunction)
    requires |xs| >= 4 && IsRoot(sqrt(Variance(xs)), Variance(xs))
    ensures var k := |DetectOutliersRobust(xs, "zscore", sqrt)|; k == 0 || 25 * k < 4 * |xs|
  {
    var mean, std := Mean(xs), sqrt(Variance(xs));
    var flag := ZFlag(mean, std);
    var k := |Flagged(xs, flag, |xs|)|;
    if std == 0.0 {
      NoneFlagged(xs, flag, |xs|);
    } else {
      forall x | flag(x)
        ensures Square(x - mean) > 6.25 * Variance(xs)
      {
        ZOutlierIsFar(x, mean, std);
      }
      SquareNonNegative(std);
      FarValuesAddUp(xs, mean, 6.25 * Variance(xs), flag, |xs|);
      assert xs[..|xs|] == xs;
      FewByVariance(k, |xs|, Variance(xs), SquaredDeviations(xs, mean));
    }
  }

  lemma CancelPositive(v: real, a: real, b: real)
    requires v > 0.0 && Product(a, v) < Product(b, v)
    ensures a < b
  {
    assert Product(a, v) == Product(v, a) && Product(b, v) == Product(v, b);
    if b <= a {
      ProductMonotone(v, b, a);
    }
  }

  lemma FewByVariance(k: nat, n: nat, v: real, d: real)
    requires n > 0 && v > 0.0 && v == d / n as real
    requires k > 0 ==> d > k as real * (6.25 * v)
    ensures k == 0 || 25 * k < 4 * n
  {
    if k > 0 {
      assert d == Product(n as real, v);
      assert k as real * (6.25 * v) == Product(6.25 * k as real, v);
      CancelPositive(v, 6.25 * k as real, n as real);
    }
  }
}

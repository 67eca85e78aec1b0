/** How many outliers the two methods can report at all. */
module OutlierBounds {
  import opened RealSums
  import opened Sorting
  import opened Statistics

  // ---------------------------------------------------------------------------------------------
  // Z-scores: no value of a small sample can be an outlier
  // ---------------------------------------------------------------------------------------------

  function Deviations(xs: seq<real>, m: real): seq<real> {
    seq(|xs|, i requires 0 <= i < |xs| => xs[i] - m)
  }

  lemma {:induction false} DeviationSums(xs: seq<real>, m: real)
    ensures Sum(Deviations(xs, m)) == Sum(xs) - Product(|xs| as real, m)
    ensures SumOfSquares(Deviations(xs, m)) == SquaredDeviations(xs, m)
  {
    var ds := Deviations(xs, m);
    if xs != [] {
      var n := |xs| - 1;
      DeviationSums(xs[..n], m);
      assert ds[..n] == Deviations(xs[..n], m);
      assert Product(n as real + 1.0, m) == Product(n as real, m) + m;
    }
  }

  /** In a list that sums to zero the other values balance each one, so their squares cannot all be small. */
  lemma OthersBalance(ds: seq<real>, i: nat)
    requires i < |ds| && |ds| > 1 && Sum(ds) == 0.0
    ensures Product(|ds| as real - 1.0, SumOfSquares(Without(ds, i))) >= Square(ds[i])
  {
    var others := Without(ds, i);
    SplitOff(ds, i);
    SpreadHolds(others);
    BalanceArithmetic(|others| as real, Sum(others), SumOfSquares(others),
                      SquaredDeviations(others, Mean(others)), ds[i]);
    assert |others| as real == |ds| as real - 1.0;
  }

  lemma BalanceArithmetic(n: real, s: real, q: real, d: real, x: real)
    requires SpreadLaw(n, s, q, d) && s == -x
    ensures Product(n, q) >= Square(x)
  {
    assert Square(-x) == Square(x);
  }

  /** Samuelson: a squared deviation is at most `n - 1` variances; both sides are scaled by `n` here. */
  lemma OneDeviation(xs: seq<real>, i: nat)
    requires i < |xs| && |xs| > 1
    ensures Product(|xs| as real, Square(xs[i] - Mean(xs)))
            <= Product(|xs| as real - 1.0, SquaredDeviations(xs, Mean(xs)))
  {
    var ds := Deviations(xs, Mean(xs));
    MeanTimesCount(xs);
    DeviationSums(xs, Mean(xs));
    SplitOff(ds, i);
    OthersBalance(ds, i);
    SamuelsonArithmetic(|xs| as real, Square(ds[i]), SumOfSquares(Without(ds, i)));
  }

  lemma SamuelsonArithmetic(n: real, dd: real, rest: real)
    requires Product(n - 1.0, rest) >= dd
    ensures Product(n, dd) <= Product(n - 1.0, rest + dd)
  {
    assert Product(n - 1.0, rest + dd) == Product(n - 1.0, rest) + Product(n - 1.0, dd);
    assert Product(n, dd) == Product(n - 1.0, dd) + dd;
  }

  /** With seven values or fewer the z-score method reports nothing. */
  lemma ZScoreNeedsEight(xs: seq<real>, sqrt: RootFunction)
    requires 4 <= |xs| <= 7 && IsRoot(sqrt(Variance(xs)), Variance(xs))
    ensures DetectOutliersRobust(xs, "zscore", sqrt) == []
  {
    var mean, std := Mean(xs), sqrt(Variance(xs));
    var flag := ZFlag(mean, std);
    var flagged := Flagged(xs, flag, |xs|);
    FlaggedExact(xs, flag, |xs|);
    if flagged != [] {
      assert flagged[0] in flagged;
      NotFar(xs, flagged[0], std);
    }
  }

  lemma NotFar(xs: seq<real>, i: nat, std: real)
    requires i < |xs| && 4 <= |xs| <= 7 && IsRoot(std, Variance(xs))
    ensures !ZOutlier(xs[i], Mean(xs), std)
  {
    if std > 0.0 {
      OneDeviation(xs, i);
      ZOutlierIsFar(xs[i], Mean(xs), std);
      SquareNonNegative(std);
      SixVariances(|xs| as real, Variance(xs), SquaredDeviations(xs, Mean(xs)), Square(xs[i] - Mean(xs)));
    }
  }

  lemma SixVariances(n: real, v: real, d: real, dd: real)
    requires 1.0 < n <= 7.0 && v == d / n && v > 0.0
    requires Product(n, dd) <= Product(n - 1.0, d)
    ensures dd <= 6.0 * v
  {
    assert d == Product(n, v);
    assert Product(n - 1.0, Product(n, v)) == Product(Product(n - 1.0, v), n);
    assert Product(n, dd) == Product(dd, n);
    assert Product(v, n - 1.0) == Product(n - 1.0, v) && Product(v, 6.0) == 6.0 * v;
    ProductMonotone(v, n - 1.0, 6.0);
    if dd > 6.0 * v {
      StrictProduct(n, Product(n - 1.0, v), dd);
    }
  }

  lemma StrictProduct(n: real, x: real, y: real)
    requires n > 0.0 && x < y
    ensures Product(x, n) < Product(y, n)
  {
    ProductPositive(y - x, n);
    assert Product(y, n) == Product(x, n) + Product(y - x, n);
  }

  /** Seven is the limit: eight values, seven equal and one apart, do contain an outlier. */
  lemma EightCanHaveOne(sqrt: RootFunction)
    requires IsRoot(sqrt(7.0 / 64.0), 7.0 / 64.0)
    ensures var xs := [0.0, 0.0, 0.0, 0.0, 0.0, 0.0, 0.0, 1.0];
            Variance(xs) == 7.0 / 64.0 && 7 in DetectOutliersRobust(xs, "zscore", sqrt)
  {
    var zeros := [0.0, 0.0, 0.0, 0.0, 0.0, 0.0, 0.0];
    var xs := [0.0, 0.0, 0.0, 0.0, 0.0, 0.0, 0.0, 1.0];
    assert xs[..7] == zeros;
    AllZero(zeros, 1.0 / 8.0);
    assert Sum(xs) == 1.0;
    assert Mean(xs) == 1.0 / 8.0;
    assert Square(1.0 - 1.0 / 8.0) == 49.0 / 64.0;
    assert SquaredDeviations(xs, 1.0 / 8.0) == 7.0 / 64.0 + 49.0 / 64.0;
    assert Variance(xs) == 7.0 / 64.0;
    var std := sqrt(7.0 / 64.0);
    SquareNonNegative(std);
    ZOutlierIsFar(1.0, 1.0 / 8.0, std);
    FlaggedExact(xs, ZFlag(1.0 / 8.0, std), 8);
  }

  lemma {:induction false} AllZero(zeros: seq<real>, m: real)
    requires forall i | 0 <= i < |zeros| :: zeros[i] == 0.0
    ensures Sum(zeros) == 0.0 && SquaredDeviations(zeros, m) == |zeros| as real * Square(m)
  {
    if zeros != [] {
      AllZero(zeros[..|zeros| - 1], m);
      assert Square(0.0 - m) == Square(m);
    }
  }

  // ---------------------------------------------------------------------------------------------
  // The interquartile method reports fewer than half of the values
  // ---------------------------------------------------------------------------------------------

  lemma {:induction false} CountIsFlagged(xs: seq<real>, lower: real, upper: real, n: nat)
    requires n <= |xs|
    ensures |Flagged(xs, IqrFlag(lower, upper), n)| == CountOutside(xs[..n], lower, upper)
  {
    if n > 0 {
      CountIsFlagged(xs, lower, upper, n - 1);
      assert xs[..n][..n - 1] == xs[..n - 1];
    }
  }

  lemma {:induction false} CountAfterInsert(s: seq<real>, x: real, lower: real, upper: real)
    ensures CountOutside(Insert(s, x, Identity), lower, upper)
            == CountOutside(s, lower, upper) + if Outside(x, lower, upper) then 1 else 0
  {
    if s == [] || s[|s| - 1] <= x {
      assert (s + [x])[..|s|] == s;
    } else {
      var inserted := Insert(s[..|s| - 1], x, Identity);
      CountAfterInsert(s[..|s| - 1], x, lower, upper);
      assert (inserted + [s[|s| - 1]])[..|inserted|] == inserted;
    }
  }

  lemma {:induction false} CountAfterSort(xs: seq<real>, lower: real, upper: real)
    ensures CountOutside(Sorted(xs), lower, upper) == CountOutside(xs, lower, upper)
  {
    if xs != [] {
      CountAfterSort(xs[..|xs| - 1], lower, upper);
      CountAfterInsert(Sorted(xs[..|xs| - 1]), xs[|xs| - 1], lower, upper);
    }
  }

  /** If positions `a..c` are inside the fences, at most the `a` first and those after `c` are outside. */
  lemma {:induction false} CountAround(s: seq<real>, lower: real, upper: real, a: nat, c: nat, n: nat)
    requires n <= |s|
    requires forall i | a <= i <= c && i < |s| :: !Outside(s[i], lower, upper)
    ensures CountOutside(s[..n], lower, upper) <= (if n <= a then n else a) + (if n <= c + 1 then 0 else n - c - 1)
  {
    if n > 0 {
      CountAround(s, lower, upper, a, c, n - 1);
      assert s[..n][..n - 1] == s[..n - 1];
    }
  }

  function Quartile1(s: seq<real>): real { Percentile(s, 25) }
  function Quartile3(s: seq<real>): real { Percentile(s, 75) }
  function LowerFence(s: seq<real>): real { Quartile1(s) - 1.5 * (Quartile3(s) - Quartile1(s)) }
  function UpperFence(s: seq<real>): real { Quartile3(s) + 1.5 * (Quartile3(s) - Quartile1(s)) }

  /** The range `a..c` of sorted positions lies within the fences. */
  ghost predicate InsideFences(s: seq<real>, a: int, c: int) {
    && 0 <= a <= c < |s|
    && LowerFence(s) <= s[a]
    && s[c] <= UpperFence(s)
  }

  lemma InterpolatedAt(s: seq<real>, i: nat, r: nat)
    requires s != [] && r < 100 && i < |s| && (r == 0 || i + 1 < |s|)
    ensures 100 * i + r <= 100 * (|s| - 1)
    ensures Interpolated(s, 100 * i + r) == if r == 0 then s[i] else s[i] + (s[i + 1] - s[i]) * (r as real / 100.0)
  {
    assert (100 * i + r) / 100 == i && (100 * i + r) % 100 == r;
  }

  lemma QuartilesFor0(s: seq<real>, m: nat)
    requires m >= 1 && |s| == 4 * m
    ensures Quartile1(s) == s[m - 1] + 0.75 * (s[m] - s[m - 1])
    ensures Quartile3(s) == s[3 * m - 1] + 0.25 * (s[3 * m] - s[3 * m - 1])
  {
    assert Position(|s|, 25) == 100 * (m - 1) + 75;
    assert Position(|s|, 75) == 100 * (3 * m - 1) + 25;
    InterpolatedAt(s, m - 1, 75);
    InterpolatedAt(s, 3 * m - 1, 25);
  }

  lemma QuartilesFor1(s: seq<real>, m: nat)
    requires |s| == 4 * m + 1
    ensures Quartile1(s) == s[m] && Quartile3(s) == s[3 * m]
  {
    assert Position(|s|, 25) == 100 * m + 0;
    assert Position(|s|, 75) == 100 * (3 * m) + 0;
    InterpolatedAt(s, m, 0);
    InterpolatedAt(s, 3 * m, 0);
  }

  lemma QuartilesFor2(s: seq<real>, m: nat)
    requires m >= 1 && |s| == 4 * m + 2
    ensures Quartile1(s) == s[m] + 0.25 * (s[m + 1] - s[m])
    ensures Quartile3(s) == s[3 * m] + 0.75 * (s[3 * m + 1] - s[3 * m])
  {
    assert Position(|s|, 25) == 100 * m + 25;
    assert Position(|s|, 75) == 100 * (3 * m) + 75;
    InterpolatedAt(s, m, 25);
    InterpolatedAt(s, 3 * m, 75);
  }

  lemma QuartilesFor3(s: seq<real>, m: nat)
    requires m >= 1 && |s| == 4 * m + 3
    ensures Quartile1(s) == s[m] + 0.5 * (s[m + 1] - s[m])
    ensures Quartile3(s) == s[3 * m + 1] + 0.5 * (s[3 * m + 2] - s[3 * m + 1])
  {
    assert Position(|s|, 25) == 100 * m + 50;
    assert Position(|s|, 75) == 100 * (3 * m + 1) + 50;
    InterpolatedAt(s, m, 50);
    InterpolatedAt(s, 3 * m + 1, 50);
  }

  /** Fewer than half of the sorted positions lie outside such a range. */
  lemma FenceRange(s: seq<real>) returns (a: int, c: int)
    requires Ascending(s) && |s| >= 4
    ensures InsideFences(s, a, c) && 2 * (a + (|s| - 1 - c)) < |s|
  {
    var m := |s| / 4;
    if |s| % 4 == 0 {
      QuartilesFor0(s, m);
      assert s[m - 1] <= s[m] <= s[3 * m - 1] <= s[3 * m];
      if LowerFence(s) <= s[m - 1] {
        a, c := m - 1, 3 * m - 1;
      } else {
        a, c := m, 3 * m;
      }
    } else if |s| % 4 == 1 {
      QuartilesFor1(s, m);
      assert s[m] <= s[3 * m];
      a, c := m, 3 * m;
    } else if |s| % 4 == 2 {
      QuartilesFor2(s, m);
      assert s[m] <= s[m + 1] <= s[3 * m] <= s[3 * m + 1];
      a, c := m, 3 * m + 1;
    } else {
      QuartilesFor3(s, m);
      assert s[m] <= s[m + 1] <= s[3 * m + 1] <= s[3 * m + 2];
      a, c := m, 3 * m + 2;
    }
  }

  lemma SortedAscending(xs: seq<real>)
    ensures Ascending(Sorted(xs)) && |Sorted(xs)| == |xs|
  {
    SortByCorrect(xs, Identity);
    assert forall i | 0 <= i < |xs| :: Identity(Sorted(xs)[i]) == Sorted(xs)[i];
  }

  lemma SortedCountSmall(s: seq<real>)
    requires Ascending(s) && |s| >= 4
    ensures 2 * CountOutside(s, LowerFence(s), UpperFence(s)) < |s|
  {
    var a, c := FenceRange(s);
    var lower, upper := LowerFence(s), UpperFence(s);
    forall i | a <= i <= c
      ensures !Outside(s[i], lower, upper)
    {
      assert s[a] <= s[i] <= s[c];
    }
    CountAround(s, lower, upper, a, c, |s|);
    assert s[..|s|] == s;
  }

  /** The interquartile method reports fewer than half of the values, whatever they are; the reported count
      in the statistics is the number of reported indices. */
  lemma IqrFlagsFewerThanHalf(xs: seq<real>, sqrt: RootFunction)
    requires |xs| >= 4
    ensures var k := |DetectOutliersRobust(xs, "iqr", sqrt)|;
            && k == CalculateStatistics(xs, sqrt).value.outlierCount
            && 2 * k < |xs|
  {
    var s := Sorted(xs);
    SortedAscending(xs);
    SortedCountSmall(s);
    CountAfterSort(xs, LowerFence(s), UpperFence(s));
    CountIsFlagged(xs, LowerFence(s), UpperFence(s), |xs|);
    assert xs[..|xs|] == xs;
  }
}

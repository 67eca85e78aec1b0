/** What the metrics of a group say about its orders. */
module GroupMetrics {
  import opened Options
  import opened RealSums
  import opened Sorting
  import opened SplittingGroup

  // ---------------------------------------------------------------------------------------------
  // Amounts
  // ---------------------------------------------------------------------------------------------

  /** `lo` and `hi` are the least and the greatest value. */
  ghost predicate AreExtremes(xs: seq<real>, lo: real, hi: real) {
    && lo in xs && hi in xs
    && forall i | 0 <= i < |xs| :: lo <= xs[i] <= hi
  }

  lemma ExtremesSnoc(xs: seq<real>, x: real, lo: real, hi: real)
    requires AreExtremes(xs, lo, hi)
    ensures AreExtremes(xs + [x], if x < lo then x else lo, if x > hi then x else hi)
  {
    assert x in xs + [x] && lo in xs + [x] && hi in xs + [x];
  }

  lemma {:induction false} ExtremesExact(xs: seq<real>)
    requires xs != []
    ensures AreExtremes(xs, MinOf(xs), MaxOf(xs))
  {
    if |xs| > 1 {
      var init, x := xs[..|xs| - 1], xs[|xs| - 1];
      ExtremesExact(init);
      ExtremesSnoc(init, x, MinOf(init), MaxOf(init));
      assert xs == init + [x];
    }
  }

  /** The square root is right for the variance of these values. */
  ghost predicate RootOf(sqrt: RootFunction, xs: seq<real>)
    requires xs != []
  {
    var v := SquaredDeviations(xs, Mean(xs)) / |xs| as real;
    sqrt(v) >= 0.0 && Square(sqrt(v)) == v
  }

  /** The spread: its square is the mean squared deviation. */
  ghost predicate IsSpread(xs: seq<real>, std: real)
    requires xs != []
  {
    std >= 0.0 && Product(|xs| as real, Square(std)) == SquaredDeviations(xs, Mean(xs))
  }

  lemma NoSpread(xs: seq<real>)
    requires |xs| == 1
    ensures Mean(xs) == xs[0] && IsSpread(xs, 0.0)
  {
    assert xs[..0] == [];
    assert Sum(xs) == xs[0];
    assert xs[0] / 1.0 == xs[0];
    assert Square(0.0) == 0.0 && Product(1.0, 0.0) == 0.0;
  }

  lemma SpreadExact(xs: seq<real>, sqrt: RootFunction)
    requires xs != [] && RootOf(sqrt, xs)
    ensures IsSpread(xs, StdOf(xs, sqrt))
  {
    var d, n := SquaredDeviations(xs, Mean(xs)), |xs| as real;
    assert Product(n, d / n) == d;
    if |xs| == 1 {
      NoSpread(xs);
    }
  }

  /** Number, sum, mean, least and greatest amount, and spread. */
  ghost predicate AmountsFit(m: Metrics, orders: seq<PurchaseOrder>, sqrt: RootFunction) {
    && orders != [] && m.poCount == |orders|
    && m.total == Sum(Amounts(orders)) && Product(|orders| as real, m.average) == m.total
    && AreExtremes(Amounts(orders), m.min, m.max)
    && (RootOf(sqrt, Amounts(orders)) ==> IsSpread(Amounts(orders), m.std))
  }

  // ---------------------------------------------------------------------------------------------
  // Days
  // ---------------------------------------------------------------------------------------------

  ghost predicate AreExtremeGaps(gaps: seq<int>, lo: int, hi: int) {
    && lo in gaps && hi in gaps
    && forall i | 0 <= i < |gaps| :: lo <= gaps[i] <= hi
  }

  lemma ExtremeGapsSnoc(gaps: seq<int>, x: int, lo: int, hi: int)
    requires AreExtremeGaps(gaps, lo, hi)
    ensures AreExtremeGaps(gaps + [x], if x < lo then x else lo, if x > hi then x else hi)
  {
    assert x in gaps + [x] && lo in gaps + [x] && hi in gaps + [x];
  }

  lemma {:induction false} ExtremeGapsExact(gaps: seq<int>)
    requires gaps != []
    ensures AreExtremeGaps(gaps, MinInt(gaps), MaxInt(gaps))
  {
    if |gaps| > 1 {
      var init, x := gaps[..|gaps| - 1], gaps[|gaps| - 1];
      ExtremeGapsExact(init);
      ExtremeGapsSnoc(init, x, MinInt(init), MaxInt(init));
      assert gaps == init + [x];
    }
  }

  /** In date order: the mean, the least and the greatest gap between neighbours, and whether no gap is above a day. */
  ghost predicate DaysFit(days: Days, orders: seq<PurchaseOrder>) {
    var sorted := ByDate(orders);
    && |sorted| == |orders| >= 2
    && Product(|orders| as real - 1.0, days.average) == (sorted[|orders| - 1].date - sorted[0].date) as real
    && AreExtremeGaps(Gaps(sorted), days.min, days.max)
    && (days.isSequential <==> forall i: nat | i < |orders| - 1 :: sorted[i + 1].date - sorted[i].date <= 1)
  }

  lemma DivideBack(x: int, n: nat)
    requires n > 0
    ensures Product(n as real, x as real / n as real) == x as real
  {
  }

  lemma SequentialExact(sorted: seq<PurchaseOrder>)
    requires |sorted| >= 2
    ensures DaysOf(Gaps(sorted)).isSequential <==>
            forall i: nat | i < |sorted| - 1 :: sorted[i + 1].date - sorted[i].date <= 1
  {
    var gaps := Gaps(sorted);
    forall i: nat | i < |sorted| - 1
      ensures gaps[i] <= 1 <==> sorted[i + 1].date - sorted[i].date <= 1
    {
    }
    if DaysOf(gaps).isSequential {
      forall i: nat | i < |sorted| - 1
        ensures sorted[i + 1].date - sorted[i].date <= 1
      {
        assert gaps[i] <= 1;
      }
    }
  }

  lemma AverageExact(orders: seq<PurchaseOrder>)
    requires |orders| >= 2 && |ByDate(orders)| == |orders|
    ensures var sorted := ByDate(orders);
            Product(|orders| as real - 1.0, AverageOf(Gaps(sorted)))
            == (sorted[|orders| - 1].date - sorted[0].date) as real
  {
    var sorted := ByDate(orders);
    AverageGap(orders);
    DivideBack(sorted[|orders| - 1].date - sorted[0].date, |orders| - 1);
    assert (|orders| - 1) as real == |orders| as real - 1.0;
  }

  lemma DaysExact(orders: seq<PurchaseOrder>)
    requires |orders| >= 2 && |ByDate(orders)| == |orders|
    ensures DaysFit(DaysOf(Gaps(ByDate(orders))), orders)
  {
    AverageExact(orders);
    ExtremeGapsExact(Gaps(ByDate(orders)));
    SequentialExact(ByDate(orders));
  }

  // ---------------------------------------------------------------------------------------------
  // The metrics
  // ---------------------------------------------------------------------------------------------

  /** Whether and by how much the sum exceeds a positive threshold. */
  ghost predicate ThresholdFits(m: Metrics, orders: seq<PurchaseOrder>, threshold: real) {
    && (m.thresholdExceeded <==> threshold > 0.0 && Sum(Amounts(orders)) > threshold)
    && (m.thresholdExceeded ==> m.exceededBy == Sum(Amounts(orders)) - threshold)
  }

  /** The metrics say about two or more orders what is true of them. */
  ghost predicate MetricsFit(m: Metrics, orders: seq<PurchaseOrder>, threshold: real, sqrt: RootFunction) {
    && AmountsFit(m, orders, sqrt)
    && ThresholdFits(m, orders, threshold)
    && m.days.Some? && DaysFit(m.days.value, orders)
  }

  lemma AmountsExact(orders: seq<PurchaseOrder>, threshold: real, sqrt: RootFunction, previous: Metrics)
    requires orders != []
    ensures AmountsFit(MetricsOf(orders, threshold, sqrt, previous), orders, sqrt)
  {
    var xs := Amounts(orders);
    ExtremesExact(xs);
    MeanTimesCount(xs);
    if RootOf(sqrt, xs) {
      SpreadExact(xs, sqrt);
    }
  }

  /** Calculated metrics are true of two or more orders, whatever they were before, exactly unless the threshold is not
      positive and was already marked as exceeded. */
  lemma MetricsExact(orders: seq<PurchaseOrder>, threshold: real, sqrt: RootFunction, previous: Metrics)
    requires |orders| >= 2
    ensures MetricsFit(MetricsOf(orders, threshold, sqrt, previous), orders, threshold, sqrt)
            <==> (previous.thresholdExceeded ==> threshold > 0.0)
  {
    AmountsExact(orders, threshold, sqrt, previous);
    SortByCorrect(orders, DateKey);
    DaysExact(orders);
  }

  /** A single order has no days between and no spread; without orders nothing is calculated. */
  lemma MetricsOfFew(orders: seq<PurchaseOrder>, threshold: real, sqrt: RootFunction, previous: Metrics)
    requires |orders| <= 1
    ensures var m := MetricsOf(orders, threshold, sqrt, previous);
            if orders == [] then m == previous
            else && m.poCount == 1 && m.days == previous.days && m.std == 0.0
                 && m.total == m.average == m.min == m.max == orders[0].amount
  {
    if orders != [] {
      NoSpread(Amounts(orders));
      assert Amounts(orders)[..0] == [];
    }
  }
}

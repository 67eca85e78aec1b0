/** The two risk scores, stated on the orders of a group: which factors they have and how much each one weighs. */
module RiskScores {
  import opened GroupMetrics
  import opened GroupPatterns
  import opened Options
  import opened RealSums
  import opened Sorting
  import opened SplittingGroup
  import opened WindowAnalyzer
  import opened WindowReturns
  import opened WindowTotals
  import PatternDetector

  // ---------------------------------------------------------------------------------------------
  // The factors, each between 0 and 1
  // ---------------------------------------------------------------------------------------------

  /** How far the sum is above a positive threshold, from 0 at the threshold to 1 at twice the threshold. */
  ghost predicate IsExcess(f: real, total: real, threshold: real) {
    if threshold <= 0.0 || total <= threshold then f == 0.0
    else if total >= 2.0 * threshold then f == 1.0
    else Product(threshold, f) == total - threshold
  }

  /** The number of orders, from 0 for three to 1 for eight. */
  ghost predicate IsSize(f: real, n: nat) {
    if n >= 8 then f == 1.0 else 5.0 * f == n as real - 3.0
  }

  /** The number of patterns, from 0 for none to 1 for three. */
  ghost predicate IsVariety(f: real, n: nat) {
    if n >= 3 then f == 1.0 else 3.0 * f == n as real
  }

  /** How close the orders are in time, from 1 on one day to 0 at an average gap of `days`. */
  ghost predicate IsCloseness(f: real, span: int, n: nat, days: int) {
    if span >= days * (n - 1) then f == 0.0 else Product((days * (n - 1)) as real, 1.0 - f) == span as real
  }

  /** How even the amounts are, from 1 without spread to 0 at a spread of the mean; amounts without any spread count as
      not even at all. */
  ghost predicate IsEvenness(f: real, mean: real, std: real) {
    if std <= 0.0 || std >= mean then f == 0.0 else Product(mean, 1.0 - f) == std
  }

  lemma QuotientTimes(x: real, y: real)
    requires y != 0.0
    ensures Product(y, x / y) == x
  {
  }

  /** A quotient compared with one. */
  lemma QuotientExact(x: real, y: real)
    requires y > 0.0
    ensures Product(y, x / y) == x
    ensures (x / y <= 1.0 <==> x <= y) && (x / y >= 1.0 <==> x >= y)
    ensures x / y >= 0.0 <==> x >= 0.0
  {
    QuotientTimes(x, y);
    BoundExact(y, x / y, 1.0);
    BoundExact(y, x / y, 0.0);
    assert Product(y, 1.0) == y && Product(y, 0.0) == 0.0;
  }

  function ExcessOf(m: Metrics, threshold: real): real {
    if m.thresholdExceeded && threshold > 0.0 then Min(1.0, m.exceededBy / threshold) else 0.0
  }

  lemma ExcessExact(m: Metrics, orders: seq<PurchaseOrder>, threshold: real)
    requires ThresholdFits(m, orders, threshold)
    ensures IsExcess(ExcessOf(m, threshold), Sum(Amounts(orders)), threshold)
    ensures 0.0 <= ExcessOf(m, threshold) <= 1.0
  {
    if m.thresholdExceeded {
      QuotientExact(m.exceededBy, threshold);
    }
  }

  /** How close gaps of `average` days are, measured against `limit` days. */
  function ClosenessOf(average: real, limit: real): real
    requires limit > 0.0
  {
    Max(0.0, 1.0 - average / limit)
  }

  lemma ClosenessArithmetic(n: real, average: real, limit: real, span: real)
    requires n > 0.0 && limit > 0.0 && Product(n, average) == span >= 0.0
    ensures var f := ClosenessOf(average, limit);
            && 0.0 <= f <= 1.0
            && if span >= Product(n, limit) then f == 0.0 else Product(Product(n, limit), 1.0 - f) == span
  {
    var q := average / limit;
    QuotientExact(average, limit);
    BoundExact(n, average, limit);
    BoundExact(n, average, 0.0);
    assert Product(n, 0.0) == 0.0;
    Associate(n, limit, q);
  }

  lemma Associate(x: real, y: real, z: real)
    ensures Product(Product(x, y), z) == Product(x, Product(y, z))
  {
  }

  lemma SpanNotNegative(orders: seq<PurchaseOrder>)
    requires |orders| >= 2 && |ByDate(orders)| == |orders|
    ensures Span(orders) >= 0
  {
    SortByCorrect(orders, DateKey);
    assert DateKey(ByDate(orders)[0]) <= DateKey(ByDate(orders)[|orders| - 1]);
  }

  lemma ClosenessExact(days: Days, orders: seq<PurchaseOrder>, limit: int)
    requires |orders| >= 3 && DaysFit(days, orders) && limit > 0
    ensures IsCloseness(ClosenessOf(days.average, limit as real), Span(orders), |orders|, limit)
    ensures 0.0 <= ClosenessOf(days.average, limit as real) <= 1.0
  {
    SpanNotNegative(orders);
    ClosenessArithmetic(|orders| as real - 1.0, days.average, limit as real, Span(orders) as real);
    CastProduct(|orders| - 1, limit);
  }

  function EvennessOf(mean: real, std: real): real {
    if mean > 0.0 && std > 0.0 then Max(0.0, 1.0 - std / mean) else 0.0
  }

  lemma EvennessExact(mean: real, std: real)
    requires mean > 0.0
    ensures IsEvenness(EvennessOf(mean, std), mean, std)
    ensures 0.0 <= EvennessOf(mean, std) <= 1.0
  {
    QuotientExact(std, mean);
  }

  // ---------------------------------------------------------------------------------------------
  // The score of the window analysis
  // ---------------------------------------------------------------------------------------------

  /** Tenths of the score: four for the excess, two each for size and variety, one each for closeness and evenness. */
  ghost predicate IsWindowRisk(score: real, orders: seq<PurchaseOrder>, threshold: real, patterns: nat, std: real)
    requires |orders| >= 3 && |ByDate(orders)| == |orders|
  {
    exists excess, size, variety, closeness, evenness ::
      && IsExcess(excess, Sum(Amounts(orders)), threshold) && IsSize(size, |orders|) && IsVariety(variety, patterns)
      && IsCloseness(closeness, Span(orders), |orders|, 14) && IsEvenness(evenness, Mean(Amounts(orders)), std)
      && 10.0 * score == 4.0 * excess + 2.0 * size + 2.0 * variety + closeness + evenness
  }

  function SizeOf(n: int): real { Min(1.0, (n - 3) as real / 5.0) }
  function VarietyOf(n: nat): real { Min(1.0, n as real / 3.0) }

  lemma ScoreIsWeighted(g: GroupData)
    requires |g.orders| >= 3 && g.metrics.days.Some?
    ensures var m := g.metrics;
            CalculateRiskScore(g)
            == Min(1.0, ExcessOf(m, g.reviewThreshold) * 0.40 + SizeOf(m.poCount) * 0.20
                        + VarietyOf(|g.patterns|) * 0.20 + ClosenessOf(m.days.value.average, 14.0) * 0.10
                        + EvennessOf(m.average, m.std) * 0.10)
  {
  }

  lemma InTenths(excess: real, size: real, variety: real, closeness: real, evenness: real)
    requires excess <= 1.0 && size <= 1.0 && variety <= 1.0 && closeness <= 1.0 && evenness <= 1.0
    ensures 10.0 * Min(1.0, excess * 0.40 + size * 0.20 + variety * 0.20 + closeness * 0.10 + evenness * 0.10)
            == 4.0 * excess + 2.0 * size + 2.0 * variety + closeness + evenness
  {
  }

  lemma MeanIsAverage(m: Metrics, orders: seq<PurchaseOrder>, sqrt: RootFunction)
    requires AmountsFit(m, orders, sqrt)
    ensures m.average == Mean(Amounts(orders)) > 0.0
  {
    AmountsPositive(orders);
    MeanTimesCount(Amounts(orders));
    SameMean(|orders| as real, m.average, Mean(Amounts(orders)));
    MeanPositive(|orders| as real, m.average, m.total);
  }

  lemma WindowRiskExact(c: Context, g: GroupData)
    requires IsMeasured(c, g) && |ByDate(g.orders)| == |g.orders|
    ensures IsWindowRisk(CalculateRiskScore(g), g.orders, c.threshold, |g.patterns|, g.metrics.std)
  {
    var m := g.metrics;
    var excess, size, variety := ExcessOf(m, c.threshold), SizeOf(m.poCount), VarietyOf(|g.patterns|);
    var closeness, evenness := ClosenessOf(m.days.value.average, 14.0), EvennessOf(m.average, m.std);
    MeanIsAverage(m, g.orders, c.sqrt);
    ExcessExact(m, g.orders, c.threshold);
    ClosenessExact(m.days.value, g.orders, 14);
    EvennessExact(m.average, m.std);
    ScoreIsWeighted(g);
    InTenths(excess, size, variety, closeness, evenness);
    assert IsSize(size, |g.orders|) && IsVariety(variety, |g.patterns|);
  }

  /** The risk of a returned group, from its orders, its patterns and its spread, and when it is marked as high. */
  lemma ReturnedRisk(c: Context, orders: seq<PurchaseOrder>, g: GroupData)
    requires g in Analyzed(c, orders)
    ensures |g.orders| >= 3 && |ByDate(g.orders)| == |g.orders|
    ensures IsWindowRisk(g.riskScore, g.orders, c.threshold, |g.patterns|, g.metrics.std)
    ensures RootOf(c.sqrt, Amounts(g.orders)) ==> IsSpread(Amounts(g.orders), g.metrics.std)
    ensures g.isHighRisk <==> g.riskScore > 0.7
  {
    ReturnedWasWalked(c, orders, g);
    WalkedAreMeasured(c, ByDate(orders), g);
    WindowRiskExact(c, g);
  }

  // ---------------------------------------------------------------------------------------------
  // The score of sequential splitting
  // ---------------------------------------------------------------------------------------------

  /** Tenths of the score: four for the excess, three each for size and closeness. */
  ghost predicate IsSequentialRisk(score: real, orders: seq<PurchaseOrder>, threshold: real)
    requires |orders| >= 3 && |ByDate(orders)| == |orders|
  {
    exists excess, size, closeness ::
      && IsExcess(excess, Sum(Amounts(orders)), threshold) && IsSize(size, |orders|)
      && IsCloseness(closeness, Span(orders), |orders|, 7)
      && 10.0 * score == 4.0 * excess + 3.0 * size + 3.0 * closeness
  }

  lemma SequentialIsWeighted(g: GroupData)
    requires |g.orders| >= 3 && g.metrics.days.Some?
    ensures var m := g.metrics;
            PatternDetector.SequentialRisk(g)
            == Min(1.0, SizeOf(m.poCount) * 0.30 + ClosenessOf(m.days.value.average, 7.0) * 0.30
                        + ExcessOf(m, g.reviewThreshold) * 0.40)
  {
  }

  lemma SequentialInTenths(excess: real, size: real, closeness: real)
    requires excess <= 1.0 && size <= 1.0 && closeness <= 1.0
    ensures 10.0 * Min(1.0, size * 0.30 + closeness * 0.30 + excess * 0.40)
            == 4.0 * excess + 3.0 * size + 3.0 * closeness
  {
  }

  lemma SequentialRiskExact(g: GroupData, sqrt: RootFunction)
    requires |g.orders| >= 3 && MetricsFit(g.metrics, g.orders, g.reviewThreshold, sqrt)
    ensures |ByDate(g.orders)| == |g.orders|
    ensures IsSequentialRisk(PatternDetector.SequentialRisk(g), g.orders, g.reviewThreshold)
  {
    var m := g.metrics;
    var excess, size := ExcessOf(m, g.reviewThreshold), SizeOf(m.poCount);
    var closeness := ClosenessOf(m.days.value.average, 7.0);
    ExcessExact(m, g.orders, g.reviewThreshold);
    ClosenessExact(m.days.value, g.orders, 7);
    SequentialIsWeighted(g);
    SequentialInTenths(excess, size, closeness);
    assert IsSize(size, |g.orders|);
  }

  /** The dates from the first to the last order of a list. */
  ghost predicate AreDates(orders: seq<PurchaseOrder>, first: int, last: int) {
    && (exists i :: 0 <= i < |orders| && orders[i].date == first)
    && (exists i :: 0 <= i < |orders| && orders[i].date == last)
    && forall i | 0 <= i < |orders| :: first <= orders[i].date <= last
  }

  lemma {:induction false} DatesExact(orders: seq<PurchaseOrder>)
    requires orders != []
    ensures AreDates(orders, PatternDetector.MinDate(orders), PatternDetector.MaxDate(orders))
  {
    if |orders| > 1 {
      var init := orders[..|orders| - 1];
      DatesExact(init);
      var i :| 0 <= i < |init| && init[i].date == PatternDetector.MinDate(init);
      var j :| 0 <= j < |init| && init[j].date == PatternDetector.MaxDate(init);
      assert orders[i] == init[i] && orders[j] == init[j];
      assert forall k | 0 <= k < |init| :: orders[k] == init[k];
    }
  }

  /** Everything that a group made from a segment of three or more orders says: whose it is, its days, its orders, its
      metrics, its pattern and its risk. */
  lemma SegmentGroupExact(c: PatternDetector.Context, segment: seq<PurchaseOrder>)
    requires |segment| >= 3
    ensures var g := PatternDetector.SegmentGroup(c, segment);
            && g.vendorId == c.vendorId && g.departmentId == c.departmentId && g.reviewThreshold == c.threshold
            && g.orders == segment && AreDates(segment, g.windowStart, g.windowEnd)
            && MetricsFit(g.metrics, segment, c.threshold, c.sqrt)
            && g.patterns == {SequentialSplitting}
            && |ByDate(segment)| == |segment| && IsSequentialRisk(g.riskScore, segment, c.threshold)
            && (g.isHighRisk <==> g.riskScore > 0.7)
  {
    var previous := NO_METRICS.(poCount := |segment|);
    var g := PatternDetector.SegmentGroup(c, segment);
    MetricsExact(segment, c.threshold, c.sqrt, previous);
    DatesExact(segment);
    var unscored := g.(riskScore := 0.0, isHighRisk := false);
    SequentialRiskExact(unscored, c.sqrt);
  }
}

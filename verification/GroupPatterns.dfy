/** When a group shows a pattern, stated on the dates and amounts of its orders. */
module GroupPatterns {
  import opened GroupMetrics
  import opened Options
  import opened RealSums
  import opened SplittingGroup
  import opened WindowAnalyzer
  import opened WindowCoverage
  import opened WindowProperties
  import opened WindowReturns
  import opened WindowWalk

  // ---------------------------------------------------------------------------------------------
  // The conditions
  // ---------------------------------------------------------------------------------------------

  /** Days from the first to the last order. */
  function Span(orders: seq<PurchaseOrder>): int
    requires orders != [] && |ByDate(orders)| == |orders|
  {
    ByDate(orders)[|orders| - 1].date - ByDate(orders)[0].date
  }

  /** In date order no order is more than a day after the one before. */
  ghost predicate DayByDay(orders: seq<PurchaseOrder>) {
    var sorted := ByDate(orders);
    forall i: nat | i < |sorted| - 1 :: sorted[i + 1].date - sorted[i].date <= 1
  }

  /** The amounts differ, but by less than a fifth of their mean: both squared, and times the number of orders. */
  ghost predicate NearlyEqual(xs: seq<real>)
    requires xs != []
  {
    0.0 < 25.0 * SquaredDeviations(xs, Mean(xs)) < Product(|xs| as real, Square(Mean(xs)))
  }

  /** Less than a tenth below the threshold. */
  predicate JustBelow(p: PurchaseOrder, threshold: real) {
    90.0 * threshold < 100.0 * p.amount < 100.0 * threshold
  }

  ghost predicate TwoJustBelow(orders: seq<PurchaseOrder>, threshold: real) {
    exists i: nat, j: nat :: i < j < |orders| && JustBelow(orders[i], threshold) && JustBelow(orders[j], threshold)
  }

  /** What three or more orders have to be like for a pattern. */
  ghost predicate HasPattern(orders: seq<PurchaseOrder>, threshold: real, x: Pattern)
    requires |orders| >= 3 && |ByDate(orders)| == |orders|
  {
    match x
    case TemporalClustering => Span(orders) <= 2 * (|orders| - 1)
    case AmountAlignment => NearlyEqual(Amounts(orders))
    case SequentialSplitting => DayByDay(orders)
    case FrequencySpike => |orders| >= 5 && Span(orders) <= |orders| - 1
    case RoundingPattern => TwoJustBelow(orders, threshold)
  }

  // ---------------------------------------------------------------------------------------------
  // Each pattern
  // ---------------------------------------------------------------------------------------------

  lemma AverageAtMost(n: real, average: real, span: int, limit: int)
    requires n > 0.0 && Product(n, average) == span as real
    ensures average <= limit as real <==> span as real <= Product(n, limit as real)
  {
    BoundExact(n, average, limit as real);
  }

  lemma ClusteredExact(m: Metrics, orders: seq<PurchaseOrder>, limit: int)
    requires |orders| >= 3 && m.days.Some? && DaysFit(m.days.value, orders)
    ensures Clustered(m, limit as real) <==> Span(orders) <= limit * (|orders| - 1)
  {
    AverageAtMost(|orders| as real - 1.0, m.days.value.average, Span(orders), limit);
    CastProduct(|orders| - 1, limit);
  }

  lemma CastProduct(n: nat, limit: int)
    ensures Product((n + 1) as real - 1.0, limit as real) == (limit * n) as real
  {
  }

  lemma {:induction false} AmountsPositive(orders: seq<PurchaseOrder>)
    ensures orders != [] ==> Sum(Amounts(orders)) > 0.0
  {
    if orders != [] {
      var init := orders[..|orders| - 1];
      AmountsPositive(init);
      assert Amounts(orders)[..|orders| - 1] == Amounts(init);
    }
  }

  lemma MeanPositive(n: real, mean: real, total: real)
    requires n > 0.0 && Product(n, mean) == total > 0.0
    ensures mean > 0.0
  {
    assert Product(n, -mean) == -Product(n, mean);
    if mean <= 0.0 {
      ProductNonNegative(n, -mean);
    }
  }

  lemma SquaresOrder(x: real, y: real)
    requires x >= 0.0 && y >= 0.0
    ensures x < y <==> Square(x) < Square(y)
  {
    assert Square(y) - Square(x) == Product(y - x, y + x);
    if x < y {
      ProductPositive(y - x, y + x);
    } else {
      ProductNonNegative(x - y, y + x);
      assert Product(x - y, y + x) == -Product(y - x, y + x);
    }
  }

  lemma SpreadBelowFifth(n: real, std: real, mean: real, d: real)
    requires n > 0.0 && std >= 0.0 && mean > 0.0 && Product(n, Square(std)) == d
    ensures std > 0.0 && std / mean < 0.20 <==> 0.0 < 25.0 * d < Product(n, Square(mean))
  {
    var q := std / mean;
    assert Product(mean, q) == std;
    BoundExact(mean, q, 0.20);
    assert q < 0.20 <==> 5.0 * std < mean;
    SquaresOrder(5.0 * std, mean);
    assert Square(5.0 * std) == 25.0 * Square(std);
    SquareNonNegative(std);
    Scaled(n, Square(std), Square(mean), d);
  }

  lemma Scaled(n: real, a: real, b: real, d: real)
    requires n > 0.0 && Product(n, a) == d && a >= 0.0
    ensures a > 0.0 <==> d > 0.0
    ensures 25.0 * a < b <==> 25.0 * d < Product(n, b)
  {
    assert Product(n, 25.0 * a) == 25.0 * d;
    BoundExact(n, b, 25.0 * a);
    BoundExact(n, a, 0.0);
    assert Product(n, 0.0) == 0.0;
  }

  lemma AlignedExact(m: Metrics, orders: seq<PurchaseOrder>, sqrt: RootFunction)
    requires orders != [] && AmountsFit(m, orders, sqrt) && RootOf(sqrt, Amounts(orders))
    ensures Aligned(m) <==> NearlyEqual(Amounts(orders))
  {
    var xs := Amounts(orders);
    AmountsPositive(orders);
    MeanTimesCount(xs);
    SameMean(|xs| as real, m.average, Mean(xs));
    MeanPositive(|xs| as real, m.average, m.total);
    SpreadBelowFifth(|xs| as real, m.std, m.average, SquaredDeviations(xs, Mean(xs)));
  }

  lemma SameMean(n: real, a: real, b: real)
    requires n > 0.0 && Product(n, a) == Product(n, b)
    ensures a == b
  {
    BoundExact(n, a, b);
  }

  lemma NearExact(p: PurchaseOrder, threshold: real)
    ensures NearThreshold(p, threshold) <==> JustBelow(p, threshold)
  {
    if p.amount < threshold {
      var q := (threshold - p.amount) / threshold;
      assert Product(threshold, q) == threshold - p.amount;
      BoundExact(threshold, q, 0.10);
    }
  }

  ghost predicate OneJustBelow(orders: seq<PurchaseOrder>, threshold: real) {
    exists i: nat :: i < |orders| && JustBelow(orders[i], threshold)
  }

  lemma OneMoreOrder(orders: seq<PurchaseOrder>, p: PurchaseOrder, threshold: real)
    ensures OneJustBelow(orders + [p], threshold) <==> OneJustBelow(orders, threshold) || JustBelow(p, threshold)
    ensures TwoJustBelow(orders + [p], threshold) <==>
            TwoJustBelow(orders, threshold) || (OneJustBelow(orders, threshold) && JustBelow(p, threshold))
  {
    var longer, n: nat := orders + [p], |orders|;
    assert longer[n] == p;
    if i: nat :| i < |orders| && JustBelow(orders[i], threshold) {
      assert longer[i] == orders[i];
    }
    if i: nat, j: nat :| i < j < |orders| && JustBelow(orders[i], threshold) && JustBelow(orders[j], threshold) {
      assert longer[i] == orders[i] && longer[j] == orders[j];
    }
    if i: nat, j: nat :| i < j < |longer| && JustBelow(longer[i], threshold) && JustBelow(longer[j], threshold) {
      assert longer[i] == orders[i];
    }
  }

  lemma {:induction false} CountNearExact(orders: seq<PurchaseOrder>, threshold: real)
    ensures CountNear(orders, threshold) >= 1 <==> OneJustBelow(orders, threshold)
    ensures CountNear(orders, threshold) >= 2 <==> TwoJustBelow(orders, threshold)
  {
    if orders != [] {
      var init, p := orders[..|orders| - 1], orders[|orders| - 1];
      CountNearExact(init, threshold);
      OneMoreOrder(init, p, threshold);
      NearExact(p, threshold);
      assert orders == init + [p];
    }
  }

  /** What each pattern asks of the metrics. */
  predicate MetricsHave(g: GroupData, x: Pattern) {
    match x
    case TemporalClustering => Clustered(g.metrics, 2.0)
    case AmountAlignment => Aligned(g.metrics)
    case SequentialSplitting => g.metrics.days.Some? && g.metrics.days.value.isSequential
    case FrequencySpike => g.metrics.poCount >= 5 && Clustered(g.metrics, 1.0)
    case RoundingPattern => CountNear(g.orders, g.reviewThreshold) >= 2
  }

  lemma DetectedByMetrics(g: GroupData, x: Pattern)
    requires |g.orders| >= 3
    ensures x in DetectPatterns(g) <==> MetricsHave(g, x)
  {
  }

  /** The patterns found in a group whose metrics are true are exactly those that its orders have. */
  lemma PatternsExact(c: Context, g: GroupData, x: Pattern)
    requires IsMeasured(c, g) && RootOf(c.sqrt, Amounts(g.orders))
    ensures |ByDate(g.orders)| == |g.orders|
    ensures x in DetectPatterns(g) <==> HasPattern(g.orders, c.threshold, x)
  {
    DetectedByMetrics(g, x);
    match x
    case TemporalClustering => ClusteredExact(g.metrics, g.orders, 2);
    case AmountAlignment => AlignedExact(g.metrics, g.orders, c.sqrt);
    case SequentialSplitting =>
    case FrequencySpike => ClusteredExact(g.metrics, g.orders, 1);
    case RoundingPattern => CountNearExact(g.orders, c.threshold);
  }

  // ---------------------------------------------------------------------------------------------
  // The patterns of returned groups
  // ---------------------------------------------------------------------------------------------

  ghost predicate RootsAreRight(sqrt: RootFunction) {
    forall xs: seq<real> | xs != [] :: RootOf(sqrt, xs)
  }

  /** Three or more orders that have the pattern. */
  ghost predicate EnoughHave(orders: seq<PurchaseOrder>, threshold: real, x: Pattern) {
    |orders| >= 3 && |ByDate(orders)| == |orders| && HasPattern(orders, threshold, x)
  }

  /** A window that starts in the window of `g` and whose own orders are enough and have the pattern. */
  ghost predicate WindowHas(c: Context, sorted: seq<PurchaseOrder>, i: nat, g: GroupData, x: Pattern) {
    i < |sorted| && Hosts(g, sorted[i].date) && EnoughHave(WindowOrders(c, sorted, i), c.threshold, x)
  }

  lemma CreatedHas(c: Context, orders: seq<PurchaseOrder>, start: int, end: int, x: Pattern)
    requires RootsAreRight(c.sqrt) && |orders| >= MIN_ORDERS
    ensures x in Created(c, orders, start, end).patterns <==> EnoughHave(orders, c.threshold, x)
  {
    var created := Created(c, orders, start, end);
    CreatedShape(c, orders, start, end);
    CreatedMeasured(c, orders, start, end);
    CreatedPatterns(c, orders, start, end);
    PatternsExact(c, created, x);
  }

  /** Groups are made for enough orders only, and then show the pattern exactly if the orders have it. */
  ghost predicate CreatesShowing(create: Create, threshold: real, x: Pattern) {
    forall orders, start ::
      create(orders, start).Some? && x in create(orders, start).value.patterns <==> EnoughHave(orders, threshold, x)
  }

  lemma CreateRuleShows(c: Context, x: Pattern)
    requires RootsAreRight(c.sqrt)
    ensures CreatesShowing(CreateRule(c), c.threshold, x)
  {
    var create := CreateRule(c);
    forall orders, start
      ensures create(orders, start).Some? && x in create(orders, start).value.patterns
              <==> EnoughHave(orders, c.threshold, x)
    {
      CreateRuleCreates(c, orders, start);
      if |orders| >= MIN_ORDERS {
        CreatedHas(c, orders, start, start + c.windowDays, x);
      }
    }
  }

  lemma CandidateHas(c: Context, create: Create, sorted: seq<PurchaseOrder>, i: nat, g: GroupData, x: Pattern)
    requires CreatesShape(create) && CreatesShowing(create, c.threshold, x)
    ensures Contributes(Candidates(c, create, sorted), i, g, Showing(x)) <==> WindowHas(c, sorted, i, g, x)
  {
    if i < |sorted| {
      assert Candidates(c, create, sorted)[i] == create(WindowOrders(c, sorted, i), sorted[i].date);
    }
  }

  /** A returned group shows a pattern if and only if some window that starts in it has three or more orders that
      have the pattern. */
  lemma ShownExactly(c: Context, orders: seq<PurchaseOrder>, g: GroupData, x: Pattern)
    requires g in Analyzed(c, orders) && RootsAreRight(c.sqrt)
    ensures x in g.patterns <==> exists i: nat :: WindowHas(c, ByDate(orders), i, g, x)
  {
    var sorted := ByDate(orders);
    var candidates := Candidates(c, CreateRule(c), sorted);
    PatternsPileUp(c, orders, g, x);
    CreateRuleShape(c);
    CreateRuleShows(c, x);
    if i: nat :| Contributes(candidates, i, g, Showing(x)) {
      CandidateHas(c, CreateRule(c), sorted, i, g, x);
    }
    if i: nat :| WindowHas(c, sorted, i, g, x) {
      CandidateHas(c, CreateRule(c), sorted, i, g, x);
    }
  }
}

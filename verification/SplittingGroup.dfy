/** Purchase orders and groups of them that may represent contract splitting. */
module SplittingGroup {
  import opened Options
  import opened RealSums
  import opened Sorting

  /** Amounts are validated to be positive. */
  type Amount = x: real | x > 0.0 witness 1.0

  /** Dates are day numbers. */
  datatype PurchaseOrder = PurchaseOrder(poId: string, amount: Amount, date: int, reviewThreshold: Option<real>)

  datatype Pattern = TemporalClustering | AmountAlignment | SequentialSplitting | FrequencySpike | RoundingPattern

  /** Gaps between consecutive orders, in days. */
  datatype Days = Days(average: real, min: int, max: int, isSequential: bool)

  datatype Metrics = Metrics(
    poCount: int, total: real, average: real, min: real, max: real, std: real,
    thresholdExceeded: bool, exceededBy: real, days: Option<Days>)

  const NO_METRICS := Metrics(0, 0.0, 0.0, 0.0, 0.0, 0.0, false, 0.0, None)

  datatype GroupData = GroupData(
    vendorId: string, departmentId: string, windowStart: int, windowEnd: int,
    orders: seq<PurchaseOrder>, reviewThreshold: real,
    metrics: Metrics, patterns: set<Pattern>, riskScore: real, isHighRisk: bool)

  type RootFunction = real -> real

  // ---------------------------------------------------------------------------------------------
  // Metrics
  // ---------------------------------------------------------------------------------------------

  const DateKey: PurchaseOrder -> real := (p: PurchaseOrder) => p.date as real

  function ByDate(orders: seq<PurchaseOrder>): seq<PurchaseOrder> {
    SortBy(orders, DateKey)
  }

  function Amounts(orders: seq<PurchaseOrder>): seq<real> {
    seq(|orders|, i requires 0 <= i < |orders| => orders[i].amount)
  }

  function MinOf(xs: seq<real>): real
    requires xs != []
  {
    if |xs| == 1 then xs[0]
    else var m := MinOf(xs[..|xs| - 1]); if xs[|xs| - 1] < m then xs[|xs| - 1] else m
  }

  function MaxOf(xs: seq<real>): real
    requires xs != []
  {
    if |xs| == 1 then xs[0]
    else var m := MaxOf(xs[..|xs| - 1]); if xs[|xs| - 1] > m then xs[|xs| - 1] else m
  }

  function Gaps(sorted: seq<PurchaseOrder>): seq<int>
    requires sorted != []
  {
    seq(|sorted| - 1, i requires 0 <= i < |sorted| - 1 => sorted[i + 1].date - sorted[i].date)
  }

  function SumInts(xs: seq<int>): int {
    if xs == [] then 0 else SumInts(xs[..|xs| - 1]) + xs[|xs| - 1]
  }

  function MinInt(xs: seq<int>): int
    requires xs != []
  {
    if |xs| == 1 then xs[0]
    else var m := MinInt(xs[..|xs| - 1]); if xs[|xs| - 1] < m then xs[|xs| - 1] else m
  }

  function MaxInt(xs: seq<int>): int
    requires xs != []
  {
    if |xs| == 1 then xs[0]
    else var m := MaxInt(xs[..|xs| - 1]); if xs[|xs| - 1] > m then xs[|xs| - 1] else m
  }

  function AverageOf(gaps: seq<int>): real
    requires gaps != []
  {
    SumInts(gaps) as real / |gaps| as real
  }

  function DaysOf(gaps: seq<int>): Days
    requires gaps != []
  {
    Days(AverageOf(gaps), MinInt(gaps), MaxInt(gaps), forall i | 0 <= i < |gaps| :: gaps[i] <= 1)
  }

  function StdOf(xs: seq<real>, sqrt: RootFunction): real
    requires xs != []
  {
    if |xs| > 1 then sqrt(SquaredDeviations(xs, Mean(xs)) / |xs| as real) else 0.0
  }

  /** The recomputed metrics; what the computation skips keeps its previous value. */
  function MetricsOf(orders: seq<PurchaseOrder>, threshold: real, sqrt: RootFunction, previous: Metrics): Metrics {
    if orders == [] then previous
    else
      var xs := Amounts(orders);
      SortByCorrect(orders, DateKey);
      var total := Sum(xs);
      Metrics(
        |orders|, total, Mean(xs), MinOf(xs), MaxOf(xs), StdOf(xs, sqrt),
        if threshold > 0.0 then total > threshold else previous.thresholdExceeded,
        if threshold > 0.0 && total > threshold then total - threshold else previous.exceededBy,
        if |orders| > 1 then Some(DaysOf(Gaps(ByDate(orders)))) else previous.days)
  }

  class ContractSplittingGroup {
    const vendorId: string
    const departmentId: string
    const reviewThreshold: real
    const sqrt: RootFunction
    var windowStart: int
    var windowEnd: int
    var orders: seq<PurchaseOrder>
    var metrics: Metrics
    var patterns: set<Pattern>
    var riskScore: real
    var isHighRisk: bool

    constructor (vendorId: string, departmentId: string, windowStart: int, windowEnd: int,
                 orders: seq<PurchaseOrder>, reviewThreshold: real, sqrt: RootFunction)
      ensures View() == GroupData(vendorId, departmentId, windowStart, windowEnd, orders, reviewThreshold,
                                  NO_METRICS.(poCount := |orders|), {}, 0.0, false)
      ensures this.sqrt == sqrt
    {
      this.vendorId, this.departmentId := vendorId, departmentId;
      this.windowStart, this.windowEnd := windowStart, windowEnd;
      this.orders, this.reviewThreshold, this.sqrt := orders, reviewThreshold, sqrt;
      metrics := NO_METRICS.(poCount := |orders|);
      patterns, riskScore, isHighRisk := {}, 0.0, false;
    }

    function View(): GroupData
      reads this
    {
      GroupData(vendorId, departmentId, windowStart, windowEnd, orders, reviewThreshold,
                metrics, patterns, riskScore, isHighRisk)
    }

    method CalculateMetrics()
      modifies this`metrics
      ensures metrics == MetricsOf(orders, reviewThreshold, sqrt, old(metrics))
    {
      if orders == [] {
        return;
      }
      var amounts := Amounts(orders);
      var total := Sum(amounts);
      var sorted := ByDate(orders);
      SortByCorrect(orders, DateKey);
      var days := metrics.days;
      if |sorted| > 1 {
        var daysBetween := DaysBetween(sorted);
        days := Some(DaysOf(daysBetween));
      }
      var thresholdExceeded, exceededBy := metrics.thresholdExceeded, metrics.exceededBy;
      if reviewThreshold > 0.0 {
        thresholdExceeded := total > reviewThreshold;
        if thresholdExceeded {
          exceededBy := total - reviewThreshold;
        }
      }
      metrics := Metrics(|amounts|, total, total / |amounts| as real, MinOf(amounts), MaxOf(amounts),
                         StdOf(amounts, sqrt), thresholdExceeded, exceededBy, days);
    }
  }

  method DaysBetween(sorted: seq<PurchaseOrder>) returns (daysBetween: seq<int>)
    requires sorted != []
    ensures daysBetween == Gaps(sorted)
  {
    daysBetween := [];
    for i := 0 to |sorted| - 1
      invariant daysBetween == Gaps(sorted)[..i]
    {
      daysBetween := daysBetween + [sorted[i + 1].date - sorted[i].date];
    }
  }

  // ---------------------------------------------------------------------------------------------
  // The average gap telescopes
  // ---------------------------------------------------------------------------------------------

  lemma {:induction false} GapsTelescope(sorted: seq<PurchaseOrder>)
    requires sorted != []
    ensures SumInts(Gaps(sorted)) == sorted[|sorted| - 1].date - sorted[0].date
  {
    if |sorted| > 1 {
      var init := sorted[..|sorted| - 1];
      GapsTelescope(init);
      assert Gaps(sorted)[..|sorted| - 2] == Gaps(init);
    }
  }

  lemma {:induction false} BoundedSum(gaps: seq<int>)
    requires forall i | 0 <= i < |gaps| :: gaps[i] <= 1
    ensures SumInts(gaps) <= |gaps|
  {
    if gaps != [] {
      BoundedSum(gaps[..|gaps| - 1]);
    }
  }

  lemma RatioBounds(a: int, b: int)
    requires a >= 0 && b > 0
    ensures a as real / b as real >= 0.0
    ensures a <= b ==> a as real / b as real <= 1.0
  {
  }

  /** The average gap is the distance between the first and the last date over the number of gaps; it is
      never negative, and at most 1 in a sequential group. */
  lemma AverageGap(orders: seq<PurchaseOrder>)
    requires |orders| > 1
    ensures |ByDate(orders)| == |orders|
    ensures var sorted := ByDate(orders); var gaps := Gaps(sorted);
            && AverageOf(gaps) == (sorted[|sorted| - 1].date - sorted[0].date) as real / (|orders| - 1) as real
            && AverageOf(gaps) >= 0.0
            && (DaysOf(gaps).isSequential ==> AverageOf(gaps) <= 1.0)
  {
    var sorted := ByDate(orders);
    SortByCorrect(orders, DateKey);
    GapsTelescope(sorted);
    assert DateKey(sorted[0]) <= DateKey(sorted[|sorted| - 1]);
    var gaps := Gaps(sorted);
    RatioBounds(SumInts(gaps), |gaps|);
    if forall i | 0 <= i < |gaps| :: gaps[i] <= 1 {
      BoundedSum(gaps);
    }
  }
}

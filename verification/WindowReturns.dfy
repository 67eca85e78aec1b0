/** Which groups the window analysis returns and what it says about them, stated on their orders. */
module WindowReturns {
  import opened GroupMetrics
  import opened Options
  import opened RealSums
  import opened Sorting
  import opened SplittingGroup
  import opened WindowAnalyzer
  import opened WindowProperties
  import opened WindowTotals
  import opened WindowWalk

  // ---------------------------------------------------------------------------------------------
  // Every group's metrics are true of its orders
  // ---------------------------------------------------------------------------------------------

  ghost predicate IsMeasured(c: Context, g: GroupData) {
    && |g.orders| >= 3 && g.reviewThreshold == c.threshold
    && MetricsFit(g.metrics, g.orders, c.threshold, c.sqrt)
  }

  ghost function Measured(c: Context): GroupData -> bool {
    (g: GroupData) => IsMeasured(c, g)
  }

  lemma CreatedMeasured(c: Context, orders: seq<PurchaseOrder>, start: int, end: int)
    requires |orders| >= MIN_ORDERS
    ensures IsMeasured(c, Created(c, orders, start, end))
  {
    MetricsExact(orders, c.threshold, c.sqrt, NO_METRICS.(poCount := |orders|));
  }

  lemma {:induction false} ExtendedGrows(base: seq<PurchaseOrder>, more: seq<PurchaseOrder>, n: nat)
    requires n <= |more|
    ensures |Extended(base, more, n)| >= |base|
  {
    if n > 0 {
      ExtendedGrows(base, more, n - 1);
    }
  }

  lemma MergedMeasured(c: Context, g: GroupData, s: GroupData)
    requires IsMeasured(c, g)
    ensures IsMeasured(c, Merged(g, s, c.sqrt))
  {
    ExtendedGrows(g.orders, s.orders, |s.orders|);
    MetricsExact(Extended(g.orders, s.orders, |s.orders|), c.threshold, c.sqrt, g.metrics);
  }

  lemma MergeRuleKeepsMeasured(c: Context)
    ensures MergeKeeps(MergeRule(c.sqrt), Measured(c))
  {
    var merge, ok := MergeRule(c.sqrt), Measured(c);
    forall g, s | ok(g) && ok(s)
      ensures ok(merge(g, s))
    {
      MergeRuleMerges(c.sqrt, g, s);
      MergedMeasured(c, g, s);
    }
  }

  lemma CandidatesMeasured(c: Context, sorted: seq<PurchaseOrder>)
    ensures AllCandidates(Candidates(c, CreateRule(c), sorted), Measured(c))
  {
    forall orders, start, end | |orders| >= MIN_ORDERS && Within(orders, sorted, start, end)
      ensures Measured(c)(Created(c, orders, start, end))
    {
      CreatedMeasured(c, orders, start, end);
    }
    AnalyzerCandidates(c, sorted, Measured(c));
  }

  /** After the walk the metrics of every group, merged or not, are true of its orders. */
  lemma WalkedAreMeasured(c: Context, sorted: seq<PurchaseOrder>, g: GroupData)
    requires g in Windows(c, sorted)
    ensures IsMeasured(c, g)
  {
    CandidatesMeasured(c, sorted);
    MergeRuleKeepsMeasured(c);
    WalkKeeps(Candidates(c, CreateRule(c), sorted), MergeRule(c.sqrt), Measured(c));
    var k :| 0 <= k < |Windows(c, sorted)| && Windows(c, sorted)[k] == g;
    assert Measured(c)(Windows(c, sorted)[k]);
  }

  // ---------------------------------------------------------------------------------------------
  // Which groups are returned
  // ---------------------------------------------------------------------------------------------

  /** From 90 to 99 percent of the order's own threshold. */
  predicate JustBelowOwn(p: PurchaseOrder) {
    && p.reviewThreshold.Some? && p.reviewThreshold.value > 0.0
    && 90.0 * p.reviewThreshold.value <= 100.0 * p.amount <= 99.0 * p.reviewThreshold.value
  }

  ghost predicate TwoPatterns(g: GroupData) {
    exists x, y :: x in g.patterns && y in g.patterns && x != y
  }

  ghost predicate SomeJustBelow(orders: seq<PurchaseOrder>) {
    exists i :: 0 <= i < |orders| && JustBelowOwn(orders[i])
  }

  lemma TwoIsMany<T>(s: set<T>)
    ensures |s| >= 2 <==> exists x, y :: x in s && y in s && x != y
  {
    if |s| >= 2 {
      var x :| x in s;
      var rest := s - {x};
      assert |rest| == |s| - 1;
      var y :| y in rest;
      assert x in s && y in s && x != y;
    }
    if x, y :| x in s && y in s && x != y {
      assert {x, y} <= s && |{x, y}| == 2;
      SubsetSize({x, y}, s);
    }
  }

  lemma SubsetSize<T>(s: set<T>, t: set<T>)
    requires s <= t
    ensures |s| <= |t|
  {
    assert t == s + (t - s);
  }

  lemma SuspiciousExact(p: PurchaseOrder)
    ensures p.reviewThreshold.Some? && IsSuspiciousAmount(p.amount, p.reviewThreshold.value) <==> JustBelowOwn(p)
  {
    if p.reviewThreshold.Some? && p.reviewThreshold.value != 0.0 {
      RatioExact(p.amount, p.reviewThreshold.value);
    }
  }

  lemma RatioExact(x: real, t: real)
    requires x > 0.0 && t != 0.0
    ensures 0.90 <= x / t <= 0.99 <==> t > 0.0 && 90.0 * t <= 100.0 * x <= 99.0 * t
  {
    var q := x / t;
    assert Product(t, q) == x;
    if t > 0.0 {
      BoundExact(t, q, 0.90);
      BoundExact(t, q, 0.99);
    } else if q > 0.0 {
      ProductPositive(-t, q);
      assert Product(-t, q) == -Product(t, q);
    }
  }

  lemma BoundExact(t: real, q: real, b: real)
    requires t > 0.0
    ensures q <= b <==> Product(t, q) <= Product(t, b)
    ensures q >= b <==> Product(t, q) >= Product(t, b)
  {
    assert Product(t, b) - Product(t, q) == Product(t, b - q);
    assert Product(t, q - b) == -Product(t, b - q);
    if b > q {
      ProductPositive(t, b - q);
    } else if b < q {
      ProductPositive(t, q - b);
    }
  }

  /** Why a group counts as valid. */
  ghost predicate Notable(c: Context, g: GroupData) {
    || (c.threshold > 0.0 && Sum(Amounts(g.orders)) > c.threshold)
    || TwoPatterns(g)
    || SomeJustBelow(g.orders)
  }

  lemma ValidExact(c: Context, g: GroupData)
    requires IsMeasured(c, g)
    ensures IsValidSplittingGroup(g) <==> Notable(c, g)
  {
    TwoIsMany(g.patterns);
    forall i | 0 <= i < |g.orders|
      ensures g.orders[i].reviewThreshold.Some?
              && IsSuspiciousAmount(g.orders[i].amount, g.orders[i].reviewThreshold.value)
              <==> JustBelowOwn(g.orders[i])
    {
      SuspiciousExact(g.orders[i]);
    }
  }

  lemma AnalyzedMember(c: Context, orders: seq<PurchaseOrder>, g: GroupData)
    requires |orders| >= MIN_ORDERS
    ensures g in Analyzed(c, orders) <==> g in Windows(c, ByDate(orders)) && IsValidSplittingGroup(g)
  {
    var groups := Windows(c, ByDate(orders));
    ValidGroupsMember(groups, g);
    SortByCorrect(ValidGroups(groups), NegatedRisk);
    assert g in multiset(Analyzed(c, orders)) <==> g in multiset(ValidGroups(groups));
  }

  lemma FewOrdersNoGroups(c: Context, orders: seq<PurchaseOrder>, g: GroupData)
    requires |orders| < MIN_ORDERS
    ensures g !in Windows(c, ByDate(orders))
  {
    var sorted := ByDate(orders);
    SortByCorrect(orders, DateKey);
    if g in Windows(c, sorted) {
      WalkedAreMeasured(c, sorted, g);
      WindowsTaken(c, sorted);
      var k :| 0 <= k < |Windows(c, sorted)| && Windows(c, sorted)[k] == g;
      assert OrdersTaken(sorted)(Windows(c, sorted)[k]);
      TakenSize(g.orders, sorted);
    }
  }

  lemma TakenSize(part: seq<PurchaseOrder>, source: seq<PurchaseOrder>)
    requires TakenFrom(part, source)
    ensures |part| <= |source|
  {
    var a, b := multiset(part), multiset(source);
    assert b == a + (b - a);
    assert |a| == |part| && |b| == |source|;
  }

  /** A group of the walk is returned if and only if its orders add up to more than a positive threshold, or it shows
      two different patterns, or one of its orders is from 90 to 99 percent of its own threshold. */
  lemma ReturnedIff(c: Context, orders: seq<PurchaseOrder>, g: GroupData)
    ensures g in Analyzed(c, orders) <==> g in Windows(c, ByDate(orders)) && Notable(c, g)
  {
    if |orders| < MIN_ORDERS {
      FewOrdersNoGroups(c, orders, g);
    } else {
      AnalyzedMember(c, orders, g);
      if g in Windows(c, ByDate(orders)) {
        WalkedAreMeasured(c, ByDate(orders), g);
        ValidExact(c, g);
      }
    }
  }
}

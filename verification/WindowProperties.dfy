/** What the window analysis guarantees about its groups: no order is counted twice, the totals are covered
    by the orders, the patterns are consistent, and the risk is a score between 0 and 1. */
module WindowProperties {
  import opened Options
  import opened RealSums
  import opened Selections
  import opened Sorting
  import opened SplittingGroup
  import opened WindowAnalyzer
  import opened WindowWalk

  ghost predicate DistinctIds(orders: seq<PurchaseOrder>) {
    forall i, j | 0 <= i < j < |orders| :: orders[i].poId != orders[j].poId
  }

  /** All of `orders` come from `source` and lie within the window. */
  ghost predicate Within(orders: seq<PurchaseOrder>, source: seq<PurchaseOrder>, start: int, end: int) {
    forall i | 0 <= i < |orders| :: orders[i] in source && start <= orders[i].date <= end
  }

  /** The metrics describe the orders. */
  ghost predicate MetricsCurrent(g: GroupData) {
    && |g.orders| >= MIN_ORDERS
    && |ByDate(g.orders)| == |g.orders|
    && g.metrics.poCount == |g.orders|
    && g.metrics.total == Sum(Amounts(g.orders))
    && g.metrics.days == Some(DaysOf(Gaps(ByDate(g.orders))))
    && (g.metrics.thresholdExceeded && g.reviewThreshold > 0.0 ==>
          g.metrics.exceededBy == g.metrics.total - g.reviewThreshold > 0.0)
  }

  predicate PatternRule(patterns: set<Pattern>) {
    SequentialSplitting in patterns || FrequencySpike in patterns ==> TemporalClustering in patterns
  }

  /** What every group keeps, its score aside. */
  ghost predicate ContentsOk(c: Context, source: seq<PurchaseOrder>, g: GroupData) {
    && g.vendorId == c.vendorId && g.departmentId == c.departmentId && g.reviewThreshold == c.threshold
    && Within(g.orders, source, g.windowStart, g.windowEnd)
    && MetricsCurrent(g)
    && PatternRule(g.patterns)
  }

  ghost predicate GroupOk(c: Context, source: seq<PurchaseOrder>, g: GroupData) {
    && ContentsOk(c, source, g)
    && g.riskScore == CalculateRiskScore(g) && g.isHighRisk == (g.riskScore > 0.7)
  }

  lemma ScoredOk(c: Context, source: seq<PurchaseOrder>, g: GroupData)
    requires ContentsOk(c, source, g)
    ensures GroupOk(c, source, Scored(g))
  {
    RiskIgnoresScore(g, CalculateRiskScore(g), CalculateRiskScore(g) > 0.7);
  }

  lemma RiskIgnoresScore(g: GroupData, score: real, high: bool)
    ensures CalculateRiskScore(g.(riskScore := score, isHighRisk := high)) == CalculateRiskScore(g)
  {
  }

  // ---------------------------------------------------------------------------------------------
  // Metrics, patterns and risk of one group
  // ---------------------------------------------------------------------------------------------

  lemma MetricsAreCurrent(g: GroupData, sqrt: RootFunction, previous: Metrics)
    requires |g.orders| >= MIN_ORDERS && g.metrics == MetricsOf(g.orders, g.reviewThreshold, sqrt, previous)
    ensures MetricsCurrent(g)
  {
    SortByCorrect(g.orders, DateKey);
  }

  /** A sequential group, or one with a frequency spike, is also clustered in time. */
  lemma DetectedPatternsObeyRule(g: GroupData)
    requires MetricsCurrent(g)
    ensures PatternRule(DetectPatterns(g))
  {
    AverageGap(g.orders);
  }

  lemma RatioPositive(x: real, y: real)
    requires x >= 0.0 && y > 0.0
    ensures x / y >= 0.0
  {
  }

  /** The five weights add up to 1 and every factor is between 0 and 1. */
  lemma RiskIsAScore(g: GroupData)
    requires MetricsCurrent(g)
    ensures 0.0 <= CalculateRiskScore(g) <= 1.0
  {
    var m := g.metrics;
    if m.thresholdExceeded && g.reviewThreshold > 0.0 {
      RatioPositive(m.exceededBy, g.reviewThreshold);
    }
    if m.average > 0.0 && m.std > 0.0 {
      RatioPositive(m.std, m.average);
    }
    AverageGap(g.orders);
  }

  /** Everything but the threshold weighs at most 0.6, so only a group whose total exceeds a positive threshold
      can score above 0.7. */
  lemma HighRiskExceeds(g: GroupData)
    requires MetricsCurrent(g) && CalculateRiskScore(g) > 0.7
    ensures g.metrics.total > g.reviewThreshold > 0.0
  {
    var m := g.metrics;
    AverageGap(g.orders);
    if m.average > 0.0 && m.std > 0.0 {
      RatioPositive(m.std, m.average);
    }
    assert m.thresholdExceeded && g.reviewThreshold > 0.0;
  }

  // ---------------------------------------------------------------------------------------------
  // Creating and merging groups
  // ---------------------------------------------------------------------------------------------

  lemma {:induction false} InWindowMembers(orders: seq<PurchaseOrder>, start: int, end: int)
    ensures forall p :: p in InWindow(orders, start, end) <==> p in orders && start < p.date <= end
    ensures DistinctIds(orders) ==> DistinctIds(InWindow(orders, start, end))
  {
    if orders != [] {
      var init, last := orders[..|orders| - 1], orders[|orders| - 1];
      InWindowMembers(init, start, end);
      assert orders == init + [last];
      if DistinctIds(orders) {
        NewIdDistinct(InWindow(init, start, end), init, last);
      }
    }
  }

  ghost predicate DateOrdered(orders: seq<PurchaseOrder>) {
    forall i, j | 0 <= i < j < |orders| :: orders[i].date <= orders[j].date
  }

  /** In date order, the window anchored at `i` holds exactly the orders dated after the anchor's day and within
      the window's days, and the anchor itself if it is below the threshold; other orders of the anchor's own
      day are left out. */
  lemma WindowOrdersExact(c: Context, sorted: seq<PurchaseOrder>, i: nat, p: PurchaseOrder)
    requires i < |sorted| && DateOrdered(sorted)
    ensures p in WindowOrders(c, sorted, i) <==>
              || (p in sorted && sorted[i].date < p.date <= sorted[i].date + c.windowDays)
              || (p == sorted[i] && p.amount < c.threshold)
  {
    var rest, anchor := sorted[i + 1..], sorted[i];
    InWindowMembers(rest, anchor.date, anchor.date + c.windowDays);
    if p in sorted && anchor.date < p.date {
      var j :| 0 <= j < |sorted| && sorted[j] == p;
      assert j > i;
      assert rest[j - (i + 1)] == p;
    }
  }

  lemma InWindowSnoc(orders: seq<PurchaseOrder>, p: PurchaseOrder, start: int, end: int)
    ensures InWindow(orders + [p], start, end)
            == if start < p.date <= end then InWindow(orders, start, end) + [p] else InWindow(orders, start, end)
  {
    assert (orders + [p])[..|orders|] == orders;
  }

  /** Dated after `start` and not after `end`. */
  ghost function DatedIn(start: int, end: int): PurchaseOrder -> bool {
    (p: PurchaseOrder) => start < p.date <= end
  }

  lemma InWindowFilters(orders: seq<PurchaseOrder>, start: int, end: int)
    ensures Filters(orders, DatedIn(start, end), InWindow(orders, start, end))
  {
    var f := (s: seq<PurchaseOrder>) => InWindow(s, start, end);
    forall s: seq<PurchaseOrder>, p: PurchaseOrder
      ensures f(s + [p]) == if DatedIn(start, end)(p) then f(s) + [p] else f(s)
    {
      InWindowSnoc(s, p, start, end);
    }
    KeepsOrDropsFilters(orders, DatedIn(start, end), f);
  }

  /** `later` are the later orders of the window, in order and each as often as it occurs; the anchor follows them if it
      is below the threshold. */
  ghost predicate IsWindow(c: Context, sorted: seq<PurchaseOrder>, i: nat, window: seq<PurchaseOrder>,
                           later: seq<PurchaseOrder>)
    requires i < |sorted|
  {
    && Filters(sorted[i + 1..], DatedIn(sorted[i].date, sorted[i].date + c.windowDays), later)
    && window == later + if sorted[i].amount < c.threshold then [sorted[i]] else []
  }

  lemma WindowOrdersSplit(c: Context, sorted: seq<PurchaseOrder>, i: nat, later: seq<PurchaseOrder>)
    requires i < |sorted| && later == InWindow(sorted[i + 1..], sorted[i].date, sorted[i].date + c.windowDays)
    ensures WindowOrders(c, sorted, i) == later + if sorted[i].amount < c.threshold then [sorted[i]] else []
  {
    assert later + [] == later;
  }

  /** The window's orders as a list. */
  lemma WindowOrdersInOrder(c: Context, sorted: seq<PurchaseOrder>, i: nat)
    requires i < |sorted|
    ensures exists later :: IsWindow(c, sorted, i, WindowOrders(c, sorted, i), later)
  {
    var start, end := sorted[i].date, sorted[i].date + c.windowDays;
    var later := InWindow(sorted[i + 1..], start, end);
    InWindowFilters(sorted[i + 1..], start, end);
    WindowOrdersSplit(c, sorted, i, later);
    assert IsWindow(c, sorted, i, WindowOrders(c, sorted, i), later);
  }

  lemma NewIdDistinct(part: seq<PurchaseOrder>, whole: seq<PurchaseOrder>, p: PurchaseOrder)
    requires DistinctIds(whole + [p]) && forall q :: q in part ==> q in whole
    ensures DistinctIds(part) ==> DistinctIds(part + [p])
  {
    forall i | 0 <= i < |part|
      ensures part[i].poId != p.poId
    {
      assert part[i] in whole;
      var j :| 0 <= j < |whole| && whole[j] == part[i];
      assert (whole + [p])[j].poId != (whole + [p])[|whole|].poId;
    }
  }

  lemma WindowOrdersOk(c: Context, sorted: seq<PurchaseOrder>, i: nat)
    requires i < |sorted| && |WindowOrders(c, sorted, i)| >= MIN_ORDERS
    ensures Within(WindowOrders(c, sorted, i), sorted, sorted[i].date, sorted[i].date + c.windowDays)
  {
    var rest, anchor := sorted[i + 1..], sorted[i];
    var later := InWindow(rest, anchor.date, anchor.date + c.windowDays);
    InWindowMembers(rest, anchor.date, anchor.date + c.windowDays);
    assert later[0] in later;
    assert forall p | p in later :: p in rest && p in sorted;
  }

  lemma WindowIdsDistinct(c: Context, sorted: seq<PurchaseOrder>, i: nat)
    requires i < |sorted| && DistinctIds(sorted)
    ensures DistinctIds(WindowOrders(c, sorted, i))
  {
    var rest, anchor := sorted[i + 1..], sorted[i];
    InWindowMembers(rest, anchor.date, anchor.date + c.windowDays);
    assert DistinctIds(rest + [anchor]) by {
      forall k, l | 0 <= k < l < |rest + [anchor]|
        ensures (rest + [anchor])[k].poId != (rest + [anchor])[l].poId
      {
        assert rest[k] == sorted[i + 1 + k];
      }
    }
    NewIdDistinct(InWindow(rest, anchor.date, anchor.date + c.windowDays), rest, anchor);
  }

  lemma CreatedOk(c: Context, source: seq<PurchaseOrder>, orders: seq<PurchaseOrder>, start: int, end: int)
    requires |orders| >= MIN_ORDERS && Within(orders, source, start, end)
    ensures GroupOk(c, source, Created(c, orders, start, end))
  {
    var metrics := MetricsOf(orders, c.threshold, c.sqrt, NO_METRICS.(poCount := |orders|));
    var g := GroupData(c.vendorId, c.departmentId, start, end, orders, c.threshold, metrics, {}, 0.0, false);
    MetricsAreCurrent(g, c.sqrt, NO_METRICS.(poCount := |orders|));
    DetectedPatternsObeyRule(g);
    ScoredOk(c, source, g.(patterns := DetectPatterns(g)));
  }

  lemma {:induction false} ExtendedOk(
    base: seq<PurchaseOrder>, more: seq<PurchaseOrder>, n: nat, source: seq<PurchaseOrder>, start: int, end: int)
    requires n <= |more|
    requires Within(base, source, start, end) && Within(more, source, start, end)
    ensures Within(Extended(base, more, n), source, start, end)
    ensures |Extended(base, more, n)| >= |base|
  {
    if n > 0 {
      ExtendedOk(base, more, n - 1, source, start, end);
    }
  }

  lemma MergedOk(c: Context, source: seq<PurchaseOrder>, g: GroupData, newGroup: GroupData)
    requires GroupOk(c, source, g) && GroupOk(c, source, newGroup)
    ensures GroupOk(c, source, Merged(g, newGroup, c.sqrt))
  {
    var merged := Unscored(g, newGroup, c.sqrt);
    ExtendedOk(g.orders, newGroup.orders, |newGroup.orders|, source, merged.windowStart, merged.windowEnd);
    MetricsAreCurrent(merged, c.sqrt, g.metrics);
    ScoredOk(c, source, merged);
  }

  // ---------------------------------------------------------------------------------------------
  // The analyzer's walk
  // ---------------------------------------------------------------------------------------------

  ghost function Sound(c: Context, source: seq<PurchaseOrder>): GroupData -> bool {
    (g: GroupData) => GroupOk(c, source, g)
  }

  lemma WindowIsNotEmpty(c: Context, source: seq<PurchaseOrder>, g: GroupData)
    requires GroupOk(c, source, g)
    ensures g.windowStart <= g.windowEnd
  {
    assert g.windowStart <= g.orders[0].date <= g.windowEnd;
  }

  lemma MergeRuleShape(sqrt: RootFunction, g: GroupData, s: GroupData)
    ensures var m := MergeRule(sqrt)(g, s);
            && m.windowStart == (if s.windowStart < g.windowStart then s.windowStart else g.windowStart)
            && m.windowEnd == (if s.windowEnd > g.windowEnd then s.windowEnd else g.windowEnd)
            && m.orders == Extended(g.orders, s.orders, |s.orders|)
            && m.patterns == g.patterns + s.patterns
            && m.vendorId == g.vendorId && m.departmentId == g.departmentId
  {
    MergeRuleMerges(sqrt, g, s);
  }

  lemma MergeRuleKeepsSound(c: Context, source: seq<PurchaseOrder>)
    ensures MergeKeeps(MergeRule(c.sqrt), Sound(c, source))
  {
    var merge, ok := MergeRule(c.sqrt), Sound(c, source);
    forall g, s | ok(g) && ok(s)
      ensures ok(merge(g, s))
    {
      MergedOk(c, source, g, s);
      MergeRuleMerges(c.sqrt, g, s);
    }
  }

  lemma SoundIsOneParty(c: Context, source: seq<PurchaseOrder>)
    ensures OneParty(Sound(c, source), c.vendorId, c.departmentId)
  {
    var ok := Sound(c, source);
    forall g | ok(g)
      ensures g.vendorId == c.vendorId && g.departmentId == c.departmentId && g.windowStart <= g.windowEnd
    {
      WindowIsNotEmpty(c, source, g);
    }
  }

  lemma MergeRuleMergesWindows(sqrt: RootFunction)
    ensures MergesWindows(MergeRule(sqrt))
  {
    var merge := MergeRule(sqrt);
    forall g, s
      ensures merge(g, s).windowStart == (if s.windowStart < g.windowStart then s.windowStart else g.windowStart)
      ensures merge(g, s).windowEnd == (if s.windowEnd > g.windowEnd then s.windowEnd else g.windowEnd)
    {
      MergeRuleShape(sqrt, g, s);
    }
  }

  lemma AnalyzerRules(c: Context, source: seq<PurchaseOrder>)
    ensures Rules(MergeRule(c.sqrt), Sound(c, source), c.vendorId, c.departmentId)
  {
    SoundIsOneParty(c, source);
    MergeRuleKeepsSound(c, source);
    MergeRuleMergesWindows(c.sqrt);
  }

  lemma CreatedShape(c: Context, orders: seq<PurchaseOrder>, start: int, end: int)
    ensures Created(c, orders, start, end).windowStart == start && Created(c, orders, start, end).orders == orders
  {
  }

  /** Every group that is made from orders within a window satisfies `ok`. */
  ghost predicate CreatesOnly(c: Context, create: Create, source: seq<PurchaseOrder>, ok: GroupData -> bool) {
    forall orders, start | create(orders, start).Some? ::
      && |orders| >= MIN_ORDERS
      && (Within(orders, source, start, start + c.windowDays) ==> ok(create(orders, start).value))
  }

  lemma CandidatesSatisfy(c: Context, create: Create, sorted: seq<PurchaseOrder>, ok: GroupData -> bool)
    requires CreatesOnly(c, create, sorted, ok)
    ensures AllCandidates(Candidates(c, create, sorted), ok)
  {
    var candidates := Candidates(c, create, sorted);
    forall i | 0 <= i < |candidates| && candidates[i].Some?
      ensures ok(candidates[i].value)
    {
      assert candidates[i] == create(WindowOrders(c, sorted, i), sorted[i].date);
      WindowOrdersOk(c, sorted, i);
    }
  }

  lemma CreateRuleSatisfies(c: Context, orders: seq<PurchaseOrder>, start: int, inside: bool, ok: GroupData -> bool)
    requires |orders| >= MIN_ORDERS && inside ==> ok(Created(c, orders, start, start + c.windowDays))
    ensures CreateRule(c)(orders, start).Some? ==>
              |orders| >= MIN_ORDERS && (inside ==> ok(CreateRule(c)(orders, start).value))
  {
  }

  /** What every group made from enough orders within a window satisfies, every candidate satisfies. */
  lemma AnalyzerCandidates(c: Context, sorted: seq<PurchaseOrder>, ok: GroupData -> bool)
    requires forall orders, start, end | |orders| >= MIN_ORDERS && Within(orders, sorted, start, end) ::
               ok(Created(c, orders, start, end))
    ensures AllCandidates(Candidates(c, CreateRule(c), sorted), ok)
  {
    var create := CreateRule(c);
    forall orders, start | create(orders, start).Some?
      ensures |orders| >= MIN_ORDERS
      ensures Within(orders, sorted, start, start + c.windowDays) ==> ok(create(orders, start).value)
    {
      CreateRuleSatisfies(c, orders, start, Within(orders, sorted, start, start + c.windowDays), ok);
    }
    CandidatesSatisfy(c, create, sorted, ok);
  }

  lemma CreatedSatisfies(c: Context, source: seq<PurchaseOrder>, orders: seq<PurchaseOrder>, start: int, end: int)
    requires |orders| >= MIN_ORDERS && Within(orders, source, start, end)
    ensures Sound(c, source)(Created(c, orders, start, end))
  {
    CreatedOk(c, source, orders, start, end);
  }

  lemma CandidatesSound(c: Context, sorted: seq<PurchaseOrder>)
    ensures AllCandidates(Candidates(c, CreateRule(c), sorted), Sound(c, sorted))
  {
    forall orders, start, end | |orders| >= MIN_ORDERS && Within(orders, sorted, start, end)
      ensures Sound(c, sorted)(Created(c, orders, start, end))
    {
      CreatedSatisfies(c, sorted, orders, start, end);
    }
    AnalyzerCandidates(c, sorted, Sound(c, sorted));
  }

  /** A group is created for large enough windows; it starts where its window does and holds its orders. */
  ghost predicate CreatesShape(create: Create) {
    forall orders, start ::
      && (create(orders, start).Some? <==> |orders| >= MIN_ORDERS)
      && (create(orders, start).Some? ==>
            create(orders, start).value.windowStart == start && create(orders, start).value.orders == orders)
  }

  lemma CreateRuleShape(c: Context)
    ensures CreatesShape(CreateRule(c))
  {
    var create := CreateRule(c);
    forall orders, start
      ensures create(orders, start).Some? <==> |orders| >= MIN_ORDERS
      ensures create(orders, start).Some? ==>
                create(orders, start).value.windowStart == start && create(orders, start).value.orders == orders
    {
      CreateRuleCreates(c, orders, start);
      CreatedShape(c, orders, start, start + c.windowDays);
    }
  }

  lemma CandidatesAscend(c: Context, create: Create, sorted: seq<PurchaseOrder>)
    requires sorted != [] && DateOrdered(sorted) && CreatesShape(create)
    ensures StartsAscend(Candidates(c, create, sorted), sorted[|sorted| - 1].date)
  {
    var candidates := Candidates(c, create, sorted);
    forall i | 0 <= i < |candidates| && candidates[i].Some?
      ensures candidates[i].value.windowStart == sorted[i].date
    {
      assert candidates[i] == create(WindowOrders(c, sorted, i), sorted[i].date);
    }
  }

  /** After the walk every group is sound, and the windows never touch. */
  lemma WindowsOk(c: Context, sorted: seq<PurchaseOrder>)
    requires sorted != [] && DateOrdered(sorted)
    ensures All(Windows(c, sorted), Sound(c, sorted)) && Apart(Windows(c, sorted), sorted[|sorted| - 1].date)
  {
    var create, merge := CreateRule(c), MergeRule(c.sqrt);
    AnalyzerRules(c, sorted);
    CandidatesSound(c, sorted);
    CreateRuleShape(c);
    CandidatesAscend(c, create, sorted);
    WalkKeeps(Candidates(c, create, sorted), merge, Sound(c, sorted));
    WalkApart(Candidates(c, create, sorted), merge, Sound(c, sorted), c.vendorId, c.departmentId,
              sorted[|sorted| - 1].date);
  }

  // ---------------------------------------------------------------------------------------------
  // Distinct ids
  // ---------------------------------------------------------------------------------------------

  ghost function IdsDistinct(): GroupData -> bool {
    (g: GroupData) => DistinctIds(g.orders)
  }

  lemma {:induction false} ExtendedIds(base: seq<PurchaseOrder>, more: seq<PurchaseOrder>, n: nat)
    requires n <= |more| && DistinctIds(base)
    ensures DistinctIds(Extended(base, more, n))
  {
    if n > 0 {
      ExtendedIds(base, more, n - 1);
    }
  }

  lemma MergeRuleKeepsIds(sqrt: RootFunction)
    ensures MergeKeeps(MergeRule(sqrt), IdsDistinct())
  {
    var merge, ok := MergeRule(sqrt), IdsDistinct();
    forall g, s | ok(g) && ok(s)
      ensures ok(merge(g, s))
    {
      MergeRuleShape(sqrt, g, s);
      ExtendedIds(g.orders, s.orders, |s.orders|);
    }
  }

  lemma CandidatesIds(c: Context, create: Create, sorted: seq<PurchaseOrder>)
    requires DistinctIds(sorted) && CreatesShape(create)
    ensures AllCandidates(Candidates(c, create, sorted), IdsDistinct())
  {
    var candidates, ok := Candidates(c, create, sorted), IdsDistinct();
    forall i | 0 <= i < |candidates| && candidates[i].Some?
      ensures ok(candidates[i].value)
    {
      WindowIdsDistinct(c, sorted, i);
      assert candidates[i] == create(WindowOrders(c, sorted, i), sorted[i].date);
    }
  }

  /** If no id repeats among the orders, none repeats within a group. */
  lemma WindowsIds(c: Context, sorted: seq<PurchaseOrder>)
    requires DistinctIds(sorted)
    ensures All(Windows(c, sorted), IdsDistinct())
  {
    CreateRuleShape(c);
    CandidatesIds(c, CreateRule(c), sorted);
    MergeRuleKeepsIds(c.sqrt);
    WalkKeeps(Candidates(c, CreateRule(c), sorted), MergeRule(c.sqrt), IdsDistinct());
  }

  // ---------------------------------------------------------------------------------------------
  // No order is held more often than it occurs
  // ---------------------------------------------------------------------------------------------

  ghost predicate TakenFrom(part: seq<PurchaseOrder>, source: seq<PurchaseOrder>) {
    multiset(part) <= multiset(source)
  }

  ghost function OrdersTaken(source: seq<PurchaseOrder>): GroupData -> bool {
    (g: GroupData) => TakenFrom(g.orders, source)
  }

  lemma TakenIsMember(part: seq<PurchaseOrder>, source: seq<PurchaseOrder>, p: PurchaseOrder)
    requires TakenFrom(part, source) && p in part
    ensures p in source
  {
    assert p in multiset(part);
    assert p in multiset(source);
  }

  lemma NewOrderTaken(part: seq<PurchaseOrder>, source: seq<PurchaseOrder>, p: PurchaseOrder)
    requires TakenFrom(part, source) && p in source && !HasId(part, p.poId)
    ensures TakenFrom(part + [p], source)
  {
    assert p !in part;
    assert multiset(part)[p] == 0;
    assert multiset(part + [p]) == multiset(part) + multiset{p};
    assert p in multiset(source);
  }

  /** Merging adds an order only if its id is new, so it never adds a second copy. */
  lemma {:induction false} ExtendedTaken(base: seq<PurchaseOrder>, more: seq<PurchaseOrder>, n: nat,
                                         source: seq<PurchaseOrder>)
    requires n <= |more| && TakenFrom(base, source) && TakenFrom(more, source)
    ensures TakenFrom(Extended(base, more, n), source)
  {
    if n > 0 {
      ExtendedTaken(base, more, n - 1, source);
      TakenIsMember(more, source, more[n - 1]);
      if !HasId(Extended(base, more, n - 1), more[n - 1].poId) {
        NewOrderTaken(Extended(base, more, n - 1), source, more[n - 1]);
      }
    }
  }

  lemma {:induction false} InWindowTaken(orders: seq<PurchaseOrder>, start: int, end: int)
    ensures TakenFrom(InWindow(orders, start, end), orders)
  {
    if orders != [] {
      var init, last := orders[..|orders| - 1], orders[|orders| - 1];
      InWindowTaken(init, start, end);
      assert orders == init + [last];
      assert multiset(orders) == multiset(init) + multiset{last};
      assert multiset(InWindow(init, start, end) + [last]) == multiset(InWindow(init, start, end)) + multiset{last};
    }
  }

  lemma TailTaken(sorted: seq<PurchaseOrder>, i: nat)
    requires i < |sorted|
    ensures TakenFrom([sorted[i]] + sorted[i + 1..], sorted)
  {
    var tail := [sorted[i]] + sorted[i + 1..];
    assert sorted == sorted[..i] + tail;
    assert multiset(sorted[..i] + tail) == multiset(sorted[..i]) + multiset(tail);
  }

  lemma AnchorTaken(later: seq<PurchaseOrder>, anchor: PurchaseOrder, rest: seq<PurchaseOrder>)
    requires TakenFrom(later, rest)
    ensures TakenFrom(later, [anchor] + rest) && TakenFrom(later + [anchor], [anchor] + rest)
  {
    assert multiset([anchor] + rest) == multiset{anchor} + multiset(rest);
    assert multiset(later + [anchor]) == multiset(later) + multiset{anchor};
  }

  lemma TakenTransitive(part: seq<PurchaseOrder>, middle: seq<PurchaseOrder>, source: seq<PurchaseOrder>)
    requires TakenFrom(part, middle) && TakenFrom(middle, source)
    ensures TakenFrom(part, source)
  {
  }

  lemma TakenWithAnchor(later: seq<PurchaseOrder>, sorted: seq<PurchaseOrder>, i: nat)
    requires i < |sorted| && TakenFrom(later, sorted[i + 1..])
    ensures TakenFrom(later, sorted) && TakenFrom(later + [sorted[i]], sorted)
  {
    var rest, anchor := sorted[i + 1..], sorted[i];
    AnchorTaken(later, anchor, rest);
    TailTaken(sorted, i);
    TakenTransitive(later, [anchor] + rest, sorted);
    TakenTransitive(later + [anchor], [anchor] + rest, sorted);
  }

  lemma WindowTaken(c: Context, sorted: seq<PurchaseOrder>, i: nat)
    requires i < |sorted|
    ensures TakenFrom(WindowOrders(c, sorted, i), sorted)
  {
    var start, end := sorted[i].date, sorted[i].date + c.windowDays;
    var later := InWindow(sorted[i + 1..], start, end);
    InWindowTaken(sorted[i + 1..], start, end);
    TakenWithAnchor(later, sorted, i);
    WindowOrdersSplit(c, sorted, i, later);
    assert later + [] == later;
  }

  lemma MergeRuleKeepsTaken(sqrt: RootFunction, source: seq<PurchaseOrder>)
    ensures MergeKeeps(MergeRule(sqrt), OrdersTaken(source))
  {
    var merge, ok := MergeRule(sqrt), OrdersTaken(source);
    forall g, s | ok(g) && ok(s)
      ensures ok(merge(g, s))
    {
      MergeRuleShape(sqrt, g, s);
      ExtendedTaken(g.orders, s.orders, |s.orders|, source);
    }
  }

  lemma CandidatesTaken(c: Context, create: Create, sorted: seq<PurchaseOrder>)
    requires CreatesShape(create)
    ensures AllCandidates(Candidates(c, create, sorted), OrdersTaken(sorted))
  {
    var candidates, ok := Candidates(c, create, sorted), OrdersTaken(sorted);
    forall i | 0 <= i < |candidates| && candidates[i].Some?
      ensures ok(candidates[i].value)
    {
      WindowTaken(c, sorted, i);
      assert candidates[i] == create(WindowOrders(c, sorted, i), sorted[i].date);
    }
  }

  /** After the walk no group holds an order more often than it occurs in the list. */
  lemma WindowsTaken(c: Context, sorted: seq<PurchaseOrder>)
    ensures All(Windows(c, sorted), OrdersTaken(sorted))
  {
    CreateRuleShape(c);
    CandidatesTaken(c, CreateRule(c), sorted);
    MergeRuleKeepsTaken(c.sqrt, sorted);
    WalkKeeps(Candidates(c, CreateRule(c), sorted), MergeRule(c.sqrt), OrdersTaken(sorted));
  }
}

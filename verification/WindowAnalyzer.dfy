/** Sliding-window analysis: groups of orders within a window, merged when their windows overlap. */
module WindowAnalyzer {
  import opened Options
  import opened Sorting
  import opened SplittingGroup
  import opened WindowWalk

  const MIN_ORDERS := 3

  // ---------------------------------------------------------------------------------------------
  // Patterns and risk
  // ---------------------------------------------------------------------------------------------

  predicate NearThreshold(p: PurchaseOrder, threshold: real) {
    p.amount < threshold && (threshold - p.amount) / threshold < 0.10
  }

  function CountNear(orders: seq<PurchaseOrder>, threshold: real): nat {
    if orders == [] then 0
    else CountNear(orders[..|orders| - 1], threshold) + if NearThreshold(orders[|orders| - 1], threshold) then 1 else 0
  }

  predicate Clustered(m: Metrics, limit: real) {
    m.days.Some? && m.days.value.average <= limit
  }

  predicate Aligned(m: Metrics) {
    m.average > 0.0 && m.std > 0.0 && m.std / m.average < 0.20
  }

  function DetectPatterns(g: GroupData): set<Pattern> {
    if |g.orders| < MIN_ORDERS then {}
    else
      (if Clustered(g.metrics, 2.0) then {TemporalClustering} else {})
      + (if Aligned(g.metrics) then {AmountAlignment} else {})
      + (if g.metrics.days.Some? && g.metrics.days.value.isSequential then {SequentialSplitting} else {})
      + (if g.metrics.poCount >= 5 && Clustered(g.metrics, 1.0) then {FrequencySpike} else {})
      + (if CountNear(g.orders, g.reviewThreshold) >= 2 then {RoundingPattern} else {})
  }

  function Min(x: real, y: real): real { if x <= y then x else y }
  function Max(x: real, y: real): real { if x >= y then x else y }

  function CalculateRiskScore(g: GroupData): real {
    if g.orders == [] then 0.0
    else
      var m := g.metrics;
      var exceedance :=
        if m.thresholdExceeded && g.reviewThreshold > 0.0 then Min(1.0, m.exceededBy / g.reviewThreshold) else 0.0;
      var count := Min(1.0, (m.poCount - MIN_ORDERS) as real / 5.0);
      var pattern := Min(1.0, |g.patterns| as real / 3.0);
      var temporal := if m.days.Some? then Max(0.0, 1.0 - m.days.value.average / 14.0) else 0.0;
      var consistency := if m.average > 0.0 && m.std > 0.0 then Max(0.0, 1.0 - m.std / m.average) else 0.0;
      Min(1.0, exceedance * 0.40 + count * 0.20 + pattern * 0.20 + temporal * 0.10 + consistency * 0.10)
  }

  function Scored(g: GroupData): GroupData {
    g.(riskScore := CalculateRiskScore(g), isHighRisk := CalculateRiskScore(g) > 0.7)
  }

  // ---------------------------------------------------------------------------------------------
  // Groups and merging
  // ---------------------------------------------------------------------------------------------

  datatype Context = Context(
    vendorId: string, departmentId: string, threshold: real, windowDays: int, sqrt: RootFunction)

  function Created(c: Context, orders: seq<PurchaseOrder>, start: int, end: int): GroupData {
    var metrics := MetricsOf(orders, c.threshold, c.sqrt, NO_METRICS.(poCount := |orders|));
    var g := GroupData(c.vendorId, c.departmentId, start, end, orders, c.threshold, metrics, {}, 0.0, false);
    Scored(g.(patterns := DetectPatterns(g)))
  }

  predicate HasId(orders: seq<PurchaseOrder>, id: string) {
    exists i | 0 <= i < |orders| :: orders[i].poId == id
  }

  /** `base` extended by the first `n` orders of `more` whose ids are not yet there. */
  function Extended(base: seq<PurchaseOrder>, more: seq<PurchaseOrder>, n: nat): seq<PurchaseOrder>
    requires n <= |more|
  {
    if n == 0 then base
    else
      var earlier := Extended(base, more, n - 1);
      if HasId(earlier, more[n - 1].poId) then earlier else earlier + [more[n - 1]]
  }

  /** Both groups' orders and windows. */
  function Widened(g: GroupData, source: GroupData): GroupData {
    g.(orders := Extended(g.orders, source.orders, |source.orders|),
       windowStart := if source.windowStart < g.windowStart then source.windowStart else g.windowStart,
       windowEnd := if source.windowEnd > g.windowEnd then source.windowEnd else g.windowEnd)
  }

  /** And both groups' patterns; the metrics are recomputed, the patterns are not. */
  function Unscored(g: GroupData, source: GroupData, sqrt: RootFunction): GroupData {
    var wide := Widened(g, source);
    wide.(metrics := MetricsOf(wide.orders, g.reviewThreshold, sqrt, g.metrics),
          patterns := g.patterns + source.patterns)
  }

  function Merged(g: GroupData, source: GroupData, sqrt: RootFunction): GroupData {
    Scored(Unscored(g, source, sqrt))
  }

  /** How the analyzer merges two groups. */
  function MergeRule(sqrt: RootFunction): Merge {
    (g: GroupData, source: GroupData) => Merged(g, source, sqrt)
  }

  // ---------------------------------------------------------------------------------------------
  // The window walk
  // ---------------------------------------------------------------------------------------------

  /** The orders of `orders[..n]` dated after `start` and not after `end`. */
  function InWindow(orders: seq<PurchaseOrder>, start: int, end: int): seq<PurchaseOrder> {
    if orders == [] then []
    else
      var earlier, last := InWindow(orders[..|orders| - 1], start, end), orders[|orders| - 1];
      if start < last.date <= end then earlier + [last] else earlier
  }

  /** The orders of the window anchored at `i`: later orders within the window, then the anchor if it is
      below the threshold. */
  function WindowOrders(c: Context, sorted: seq<PurchaseOrder>, i: nat): seq<PurchaseOrder>
    requires i < |sorted|
  {
    var later := InWindow(sorted[i + 1..], sorted[i].date, sorted[i].date + c.windowDays);
    if sorted[i].amount < c.threshold then later + [sorted[i]] else later
  }

  /** The group of a window, if the window holds enough orders. */
  function CandidateOf(c: Context, orders: seq<PurchaseOrder>, start: int): Option<GroupData> {
    if |orders| < MIN_ORDERS then None else Some(Created(c, orders, start, start + c.windowDays))
  }

  type Create = (seq<PurchaseOrder>, int) -> Option<GroupData>

  /** How the analyzer makes a window's group. */
  function CreateRule(c: Context): Create {
    (orders: seq<PurchaseOrder>, start: int) => CandidateOf(c, orders, start)
  }

  /** The candidates of all anchors, in date order. */
  function Candidates(c: Context, create: Create, sorted: seq<PurchaseOrder>): seq<Option<GroupData>> {
    seq(|sorted|, i requires 0 <= i < |sorted| => create(WindowOrders(c, sorted, i), sorted[i].date))
  }

  /** The groups after the walk over all anchors. */
  function Windows(c: Context, sorted: seq<PurchaseOrder>): seq<GroupData> {
    Walk(Candidates(c, CreateRule(c), sorted), MergeRule(c.sqrt))
  }

  predicate IsSuspiciousAmount(amount: real, threshold: real) {
    threshold != 0.0 && 0.90 <= amount / threshold <= 0.99
  }

  predicate IsValidSplittingGroup(g: GroupData) {
    && |g.orders| >= MIN_ORDERS
    && (g.metrics.thresholdExceeded
        || |g.patterns| >= 2
        || exists i | 0 <= i < |g.orders| ::
             && g.orders[i].reviewThreshold.Some?
             && IsSuspiciousAmount(g.orders[i].amount, g.orders[i].reviewThreshold.value))
  }

  function ValidGroups(groups: seq<GroupData>): seq<GroupData> {
    if groups == [] then []
    else
      var earlier, last := ValidGroups(groups[..|groups| - 1]), groups[|groups| - 1];
      if IsValidSplittingGroup(last) then earlier + [last] else earlier
  }

  const NegatedRisk: GroupData -> real := (g: GroupData) => -g.riskScore

  function Analyzed(c: Context, orders: seq<PurchaseOrder>): seq<GroupData> {
    if |orders| < MIN_ORDERS then []
    else
      var sorted := ByDate(orders);
      SortBy(ValidGroups(Windows(c, sorted)), NegatedRisk)
  }

  // ---------------------------------------------------------------------------------------------
  // The analyzer
  // ---------------------------------------------------------------------------------------------

  class Analyzer {

    constructor ()
    {
    }

    /** Returns the final groups as values, highest risk first. */
    method AnalyzeWindows(c: Context, orders: seq<PurchaseOrder>) returns (valid: seq<GroupData>)
      ensures valid == Analyzed(c, orders)
    {
      if |orders| < MIN_ORDERS {
        return [];
      }
      var sorted := ByDate(orders);
      var windows: seq<ContractSplittingGroup> := [];
      ghost var views: seq<GroupData> := [];
      ghost var create, merge := CreateRule(c), MergeRule(c.sqrt);
      ghost var candidates := Candidates(c, create, sorted);
      for i := 0 to |sorted|
        invariant views == Walk(candidates[..i], merge)
        invariant Tracks(windows, views, c.sqrt)
        invariant forall k | 0 <= k < |windows| :: fresh(windows[k])
      {
        WalkStep(candidates, i, merge);
        windows := ProcessAnchor(c, sorted, i, windows, views, create, merge);
        views := Stepped(views, candidates[i], merge);
      }
      assert candidates[..|sorted|] == candidates;
      var finals := Snapshot(windows, views, c.sqrt);
      valid := SortBy(ValidGroups(finals), NegatedRisk);
    }

    /** One turn of the window walk. */
    method ProcessAnchor(c: Context, sorted: seq<PurchaseOrder>, i: nat, windows: seq<ContractSplittingGroup>,
                         ghost views: seq<GroupData>, ghost create: Create, ghost merge: Merge)
      returns (windows': seq<ContractSplittingGroup>)
      requires i < |sorted| && Tracks(windows, views, c.sqrt)
      requires create == CreateRule(c) && merge == MergeRule(c.sqrt)
      modifies windows
      ensures Tracks(windows', Stepped(views, create(WindowOrders(c, sorted, i), sorted[i].date), merge), c.sqrt)
      ensures forall k | 0 <= k < |windows'| :: fresh(windows'[k]) || windows'[k] in windows
    {
      var windowOrders := CollectWindow(c, sorted, i);
      windows' := AddWindow(c, windowOrders, sorted[i].date, windows, views, create, merge);
    }

    method AddWindow(c: Context, orders: seq<PurchaseOrder>, start: int, windows: seq<ContractSplittingGroup>,
                     ghost views: seq<GroupData>, ghost create: Create, ghost merge: Merge)
      returns (windows': seq<ContractSplittingGroup>)
      requires Tracks(windows, views, c.sqrt) && create == CreateRule(c) && merge == MergeRule(c.sqrt)
      modifies windows
      ensures Tracks(windows', Stepped(views, create(orders, start), merge), c.sqrt)
      ensures forall k | 0 <= k < |windows'| :: fresh(windows'[k]) || windows'[k] in windows
    {
      CreateRuleCreates(c, orders, start);
      if |orders| < MIN_ORDERS {
        return windows;
      }
      var group := CreateGroup(c, orders, start, start + c.windowDays);
      windows' := AddGroup(windows, group, views, create(orders, start).value, merge);
    }

    /** Merges the group into an overlapping one, or appends it. */
    method AddGroup(windows: seq<ContractSplittingGroup>, group: ContractSplittingGroup,
                    ghost views: seq<GroupData>, ghost created: GroupData, ghost merge: Merge)
      returns (windows': seq<ContractSplittingGroup>)
      requires Tracks(windows, views, group.sqrt) && group !in windows
      requires group.View() == created && merge == MergeRule(group.sqrt)
      modifies windows
      ensures Tracks(windows', Absorbed(views, created, merge), group.sqrt)
      ensures forall k | 0 <= k < |windows'| :: windows'[k] == group || windows'[k] in windows
    {
      var merged := MergeWithExisting(windows, group, views, created, merge);
      if merged {
        return windows;
      }
      TracksAppend(windows, views, group, group.sqrt);
      return windows + [group];
    }

    method CollectWindow(c: Context, sorted: seq<PurchaseOrder>, i: nat) returns (windowOrders: seq<PurchaseOrder>)
      requires i < |sorted|
      ensures windowOrders == WindowOrders(c, sorted, i)
    {
      var start := sorted[i].date;
      var end := start + c.windowDays;
      windowOrders := InWindow(sorted[i + 1..], start, end);
      if sorted[i].amount < c.threshold {
        windowOrders := windowOrders + [sorted[i]];
      }
    }

    method CreateGroup(c: Context, orders: seq<PurchaseOrder>, start: int, end: int)
      returns (group: ContractSplittingGroup)
      ensures fresh(group) && group.sqrt == c.sqrt && group.View() == Created(c, orders, start, end)
    {
      group := new ContractSplittingGroup(c.vendorId, c.departmentId, start, end, orders, c.threshold, c.sqrt);
      group.CalculateMetrics();
      group.patterns := DetectPatterns(group.View());
      Rescore(group);
    }

    method Rescore(group: ContractSplittingGroup)
      modifies group`riskScore, group`isHighRisk
      ensures group.View() == Scored(old(group.View()))
    {
      group.riskScore := CalculateRiskScore(group.View());
      group.isHighRisk := group.riskScore > 0.7;
    }

    /** Merges the new group into the first existing one whose window overlaps. */
    method MergeWithExisting(existing: seq<ContractSplittingGroup>, newGroup: ContractSplittingGroup,
                             ghost views: seq<GroupData>, ghost created: GroupData, ghost merge: Merge)
      returns (merged: bool)
      requires Tracks(existing, views, newGroup.sqrt) && newGroup !in existing
      requires newGroup.View() == created && merge == MergeRule(newGroup.sqrt)
      modifies existing
      ensures newGroup.View() == created
      ensures merged ==> Tracks(existing, Absorbed(views, created, merge), newGroup.sqrt)
      ensures !merged ==> Tracks(existing, views, newGroup.sqrt)
      ensures merged <==> FirstMergeable(views, created) < |views|
    {
      for k := 0 to |existing|
        invariant Tracks(existing, views, newGroup.sqrt)
        invariant newGroup.View() == created
        invariant forall j | 0 <= j < k :: !Mergeable(views[j], created)
      {
        var g := existing[k];
        assert g.View() == views[k];
        if Mergeable(g.View(), newGroup.View()) {
          assert FirstMergeable(views, created) == k;
          MergeRuleMerges(newGroup.sqrt, views[k], created);
          MergeGroups(g, newGroup);
          assert g.View() == merge(views[k], created);
          return true;
        }
      }
      return false;
    }

    method MergeGroups(target: ContractSplittingGroup, source: ContractSplittingGroup)
      requires target != source
      modifies target
      ensures target.View() == Merged(old(target.View()), source.View(), target.sqrt)
    {
      Widen(target, source);
      target.CalculateMetrics();
      target.patterns := target.patterns + source.patterns;
      assert target.View() == Unscored(old(target.View()), source.View(), target.sqrt);
      Rescore(target);
    }

    method Widen(target: ContractSplittingGroup, source: ContractSplittingGroup)
      requires target != source
      modifies target
      ensures target.View() == Widened(old(target.View()), source.View())
    {
      target.orders := UnionOrders(target.orders, source.orders);
      if source.windowStart < target.windowStart {
        target.windowStart := source.windowStart;
      }
      if source.windowEnd > target.windowEnd {
        target.windowEnd := source.windowEnd;
      }
    }
  }

  method UnionOrders(base: seq<PurchaseOrder>, more: seq<PurchaseOrder>) returns (orders: seq<PurchaseOrder>)
    ensures orders == Extended(base, more, |more|)
  {
    orders := base;
    for n := 0 to |more|
      invariant orders == Extended(base, more, n)
    {
      if !HasId(orders, more[n].poId) {
        orders := orders + [more[n]];
      }
    }
  }

  /** The group objects are distinct, share the root function, and have the given values. */
  ghost predicate Tracks(groups: seq<ContractSplittingGroup>, views: seq<GroupData>, sqrt: RootFunction)
    reads groups
  {
    && |groups| == |views|
    && (forall i, j | 0 <= i < j < |groups| :: groups[i] != groups[j])
    && (forall k | 0 <= k < |groups| :: groups[k].View() == views[k] && groups[k].sqrt == sqrt)
  }

  lemma CreateRuleCreates(c: Context, orders: seq<PurchaseOrder>, start: int)
    ensures CreateRule(c)(orders, start)
            == if |orders| < MIN_ORDERS then None else Some(Created(c, orders, start, start + c.windowDays))
  {
  }

  lemma MergeRuleMerges(sqrt: RootFunction, g: GroupData, source: GroupData)
    ensures MergeRule(sqrt)(g, source) == Merged(g, source, sqrt)
  {
  }

  lemma TracksAppend(groups: seq<ContractSplittingGroup>, views: seq<GroupData>, g: ContractSplittingGroup,
                     sqrt: RootFunction)
    requires Tracks(groups, views, sqrt) && g !in groups && g.sqrt == sqrt
    ensures Tracks(groups + [g], views + [g.View()], sqrt)
  {
    var longer := groups + [g];
    forall i, j | 0 <= i < j < |longer|
      ensures longer[i] != longer[j]
    {
      assert longer[i] == groups[i];
    }
  }

  method Snapshot(groups: seq<ContractSplittingGroup>, ghost views: seq<GroupData>, ghost sqrt: RootFunction)
    returns (finals: seq<GroupData>)
    requires Tracks(groups, views, sqrt)
    ensures finals == views
  {
    finals := [];
    for k := 0 to |groups|
      invariant finals == views[..k]
    {
      finals := finals + [groups[k].View()];
    }
  }
}

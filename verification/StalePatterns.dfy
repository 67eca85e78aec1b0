/** When returned groups show the patterns of their own orders: in every call exactly if windows are shorter than a
    day, and then there are no groups. For longer windows one list makes a group that shows a pattern its orders
    do not have, or lacks one that they have. */
module StalePatterns {
  import opened Options
  import opened Sorting
  import opened SplittingGroup
  import opened WindowAnalyzer
  import opened WindowCoverage
  import opened WindowProperties
  import opened WindowWalk

  // ---------------------------------------------------------------------------------------------
  // Orders of single days
  // ---------------------------------------------------------------------------------------------

  ghost predicate OnDay(orders: seq<PurchaseOrder>, day: int) {
    forall i | 0 <= i < |orders| :: orders[i].date == day
  }

  lemma {:induction false} InWindowOfDay(orders: seq<PurchaseOrder>, day: int, start: int, end: int)
    requires OnDay(orders, day)
    ensures InWindow(orders, start, end) == if start < day <= end then orders else []
  {
    if orders != [] {
      var init := orders[..|orders| - 1];
      InWindowOfDay(init, day, start, end);
      assert orders == init + [orders[|orders| - 1]];
    }
  }

  lemma {:induction false} InWindowConcat(orders: seq<PurchaseOrder>, more: seq<PurchaseOrder>, start: int, end: int)
    ensures InWindow(orders + more, start, end) == InWindow(orders, start, end) + InWindow(more, start, end)
  {
    if more == [] {
      assert orders + more == orders;
    } else {
      var init, last := more[..|more| - 1], more[|more| - 1];
      InWindowConcat(orders, init, start, end);
      assert (orders + more)[..|orders + more| - 1] == orders + init;
    }
  }

  lemma InWindowOfTwoDays(orders: seq<PurchaseOrder>, day: int, more: seq<PurchaseOrder>, day': int, start: int,
                          end: int)
    requires OnDay(orders, day) && OnDay(more, day')
    ensures InWindow(orders + more, start, end)
            == (if start < day <= end then orders else []) + (if start < day' <= end then more else [])
  {
    InWindowConcat(orders, more, start, end);
    InWindowOfDay(orders, day, start, end);
    InWindowOfDay(more, day', start, end);
  }

  // ---------------------------------------------------------------------------------------------
  // One order on day 0, three a window later, and three another window later
  // ---------------------------------------------------------------------------------------------

  /** An amount that keeps an anchor out of its own window. */
  function LargeAmount(c: Context): (amount: Amount)
    ensures amount >= c.threshold
  {
    if c.threshold > 1.0 then c.threshold else 1.0
  }

  function Id(k: nat): (id: string)
    ensures |id| == k
  {
    seq(k, _ => 'x')
  }

  function OrderOn(c: Context, k: nat, day: int): PurchaseOrder {
    PurchaseOrder(Id(k), LargeAmount(c), day, None)
  }

  function ThreeOn(c: Context, k: nat, day: int): seq<PurchaseOrder> {
    [OrderOn(c, k, day), OrderOn(c, k + 1, day), OrderOn(c, k + 2, day)]
  }

  function Middle(c: Context): seq<PurchaseOrder> { ThreeOn(c, 1, c.windowDays) }
  function Late(c: Context): seq<PurchaseOrder> { ThreeOn(c, 4, 2 * c.windowDays) }
  function Both(c: Context): seq<PurchaseOrder> { Middle(c) + Late(c) }
  function Staggered(c: Context): seq<PurchaseOrder> { [OrderOn(c, 0, 0)] + Both(c) }

  lemma WindowOf(c: Context, sorted: seq<PurchaseOrder>, i: nat, rest: seq<PurchaseOrder>)
    requires i < |sorted| && sorted[i + 1..] == rest && sorted[i].amount >= c.threshold
    ensures WindowOrders(c, sorted, i) == InWindow(rest, sorted[i].date, sorted[i].date + c.windowDays)
  {
  }

  lemma FirstWindow(c: Context)
    requires c.windowDays >= 1
    ensures WindowOrders(c, Staggered(c), 0) == Middle(c)
  {
    WindowOf(c, Staggered(c), 0, Both(c));
    InWindowOfTwoDays(Middle(c), c.windowDays, Late(c), 2 * c.windowDays, 0, c.windowDays);
  }

  lemma MiddleWindow(c: Context, i: nat)
    requires c.windowDays >= 1 && 1 <= i <= 3
    ensures Staggered(c)[i].date == c.windowDays && WindowOrders(c, Staggered(c), i) == Late(c)
  {
    WindowOf(c, Staggered(c), i, Middle(c)[i..] + Late(c));
    InWindowOfTwoDays(Middle(c)[i..], c.windowDays, Late(c), 2 * c.windowDays, c.windowDays, 2 * c.windowDays);
  }

  lemma LateWindow(c: Context, i: nat)
    requires c.windowDays >= 1 && 4 <= i <= 6
    ensures WindowOrders(c, Staggered(c), i) == []
  {
    WindowOf(c, Staggered(c), i, Late(c)[i - 3..]);
    InWindowOfDay(Late(c)[i - 3..], 2 * c.windowDays, 2 * c.windowDays, 3 * c.windowDays);
  }

  lemma SevenCandidates(c: Context, create: Create)
    requires c.windowDays >= 1 && CreatesShape(create)
    ensures var late := create(Late(c), c.windowDays);
            Candidates(c, create, Staggered(c)) == [create(Middle(c), 0), late, late, late, None, None, None]
  {
    var sorted := Staggered(c);
    var candidates := Candidates(c, create, sorted);
    FirstWindow(c);
    assert candidates[0] == create(WindowOrders(c, sorted, 0), sorted[0].date);
    forall i: nat | 1 <= i <= 3
      ensures candidates[i] == create(Late(c), c.windowDays)
    {
      MiddleWindow(c, i);
      assert candidates[i] == create(WindowOrders(c, sorted, i), sorted[i].date);
    }
    forall i: nat | 4 <= i <= 6
      ensures candidates[i] == None
    {
      LateWindow(c, i);
      assert candidates[i] == create(WindowOrders(c, sorted, i), sorted[i].date);
    }
  }

  // ---------------------------------------------------------------------------------------------
  // The walk makes one group
  // ---------------------------------------------------------------------------------------------

  lemma WalkSnoc(candidates: seq<Option<GroupData>>, last: Option<GroupData>, merge: Merge)
    ensures Walk(candidates + [last], merge) == Stepped(Walk(candidates, merge), last, merge)
  {
    assert (candidates + [last])[..|candidates|] == candidates;
  }

  lemma WalkMerges(candidates: seq<Option<GroupData>>, g: GroupData, s: GroupData, merge: Merge)
    requires Walk(candidates, merge) == [g] && Mergeable(g, s)
    ensures Walk(candidates + [Some(s)], merge) == [merge(g, s)]
  {
    WalkSnoc(candidates, Some(s), merge);
    assert FirstMergeable([g], s) == 0;
  }

  lemma WalkIdles(candidates: seq<Option<GroupData>>, merge: Merge)
    ensures Walk(candidates + [None, None, None], merge) == Walk(candidates, merge)
  {
    WalkSnoc(candidates, None, merge);
    WalkSnoc(candidates + [None], None, merge);
    WalkSnoc(candidates + [None, None], None, merge);
    assert candidates + [None] + [None] == candidates + [None, None];
    assert candidates + [None, None] + [None] == candidates + [None, None, None];
  }

  lemma WalkOfSeven(g: GroupData, s: GroupData, merge: Merge)
    requires var g1 := merge(g, s); Mergeable(g, s) && Mergeable(g1, s) && Mergeable(merge(g1, s), s)
    ensures Walk([Some(g), Some(s), Some(s), Some(s), None, None, None], merge) == [merge(merge(merge(g, s), s), s)]
  {
    var g1 := merge(g, s);
    var g2 := merge(g1, s);
    WalkSnoc([], Some(g), merge);
    WalkMerges([Some(g)], g, s, merge);
    WalkMerges([Some(g)] + [Some(s)], g1, s, merge);
    WalkMerges([Some(g)] + [Some(s)] + [Some(s)], g2, s, merge);
    WalkIdles([Some(g)] + [Some(s)] + [Some(s)] + [Some(s)], merge);
    assert [Some(g)] + [Some(s)] + [Some(s)] + [Some(s)] + [None, None, None]
        == [Some(g), Some(s), Some(s), Some(s), None, None, None];
  }

  /** The group's contents, its metrics and score aside. */
  ghost predicate Holds(c: Context, g: GroupData, orders: seq<PurchaseOrder>, start: int, end: int,
                        patterns: set<Pattern>) {
    && g.vendorId == c.vendorId && g.departmentId == c.departmentId
    && g.windowStart == start && g.windowEnd == end && g.orders == orders && g.patterns == patterns
  }

  lemma MergeHolds(c: Context, g: GroupData, orders: seq<PurchaseOrder>, start: int, end: int, patterns: set<Pattern>,
                   s: GroupData, more: seq<PurchaseOrder>, start': int, end': int, patterns': set<Pattern>)
    requires Holds(c, g, orders, start, end, patterns) && Holds(c, s, more, start', end', patterns')
    requires start <= start' <= end <= end'
    ensures Mergeable(g, s)
    ensures Holds(c, MergeRule(c.sqrt)(g, s), Extended(orders, more, |more|), start, end', patterns + patterns')
  {
    MergeRuleShape(c.sqrt, g, s);
  }

  /** Orders with new ids are all added. */
  lemma {:induction false} NewIdsAdded(base: seq<PurchaseOrder>, more: seq<PurchaseOrder>, n: nat)
    requires n <= |more| && DistinctIds(base + more)
    ensures Extended(base, more, n) == base + more[..n]
  {
    if n > 0 {
      NewIdsAdded(base, more, n - 1);
      var p := more[n - 1];
      assert more[..n] == more[..n - 1] + [p];
      var earlier := base + more[..n - 1];
      forall i | 0 <= i < |earlier|
        ensures earlier[i].poId != p.poId
      {
        assert (base + more)[i] == earlier[i] && (base + more)[|base| + n - 1] == p;
      }
    }
  }

  /** Orders with known ids are not added again. */
  lemma {:induction false} KnownIdsSkipped(base: seq<PurchaseOrder>, more: seq<PurchaseOrder>, n: nat)
    requires n <= |more| && forall k | 0 <= k < n :: HasId(base, more[k].poId)
    ensures Extended(base, more, n) == base
  {
    if n > 0 {
      KnownIdsSkipped(base, more, n - 1);
    }
  }

  lemma UnionOfDays(c: Context)
    ensures Extended(Middle(c), Late(c), 3) == Both(c)
    ensures Extended(Both(c), Late(c), 3) == Both(c)
  {
    NewIdsAdded(Middle(c), Late(c), 3);
    assert Late(c)[..3] == Late(c);
    forall k | 0 <= k < 3
      ensures HasId(Both(c), Late(c)[k].poId)
    {
      assert Both(c)[3 + k] == Late(c)[k];
    }
    KnownIdsSkipped(Both(c), Late(c), 3);
  }

  lemma CreatedHolds(c: Context, orders: seq<PurchaseOrder>, start: int, end: int)
    requires |orders| >= MIN_ORDERS && end == start + c.windowDays
    ensures CreateRule(c)(orders, start) == Some(Created(c, orders, start, end))
    ensures Holds(c, Created(c, orders, start, end), orders, start, end, Created(c, orders, start, end).patterns)
  {
    CreateRuleCreates(c, orders, start);
  }

  /** The group of the middle orders, that of the late ones, and both merged as often as they are. */
  function First(c: Context): GroupData { Created(c, Middle(c), 0, c.windowDays) }
  function Second(c: Context): GroupData { Created(c, Late(c), c.windowDays, 2 * c.windowDays) }

  function MergedThrice(g: GroupData, s: GroupData, merge: Merge): GroupData {
    merge(merge(merge(g, s), s), s)
  }

  function Together(c: Context): GroupData {
    MergedThrice(First(c), Second(c), MergeRule(c.sqrt))
  }

  lemma ThreeMerges(c: Context, g: GroupData, s: GroupData)
    requires c.windowDays >= 1
    requires Holds(c, g, Middle(c), 0, c.windowDays, g.patterns)
    requires Holds(c, s, Late(c), c.windowDays, 2 * c.windowDays, s.patterns)
    ensures var merge := MergeRule(c.sqrt); var g1 := merge(g, s);
            && Mergeable(g, s) && Mergeable(g1, s) && Mergeable(merge(g1, s), s)
            && Holds(c, MergedThrice(g, s, merge), Both(c), 0, 2 * c.windowDays, g.patterns + s.patterns)
  {
    var merge, w := MergeRule(c.sqrt), c.windowDays;
    var patterns := g.patterns + s.patterns;
    var g1 := merge(g, s);
    var g2 := merge(g1, s);
    UnionOfDays(c);
    MergeHolds(c, g, Middle(c), 0, w, g.patterns, s, Late(c), w, 2 * w, s.patterns);
    assert patterns + s.patterns == patterns;
    MergeHolds(c, g1, Both(c), 0, 2 * w, patterns, s, Late(c), w, 2 * w, s.patterns);
    MergeHolds(c, g2, Both(c), 0, 2 * w, patterns, s, Late(c), w, 2 * w, s.patterns);
  }

  lemma WalkOfStaggered(c: Context, create: Create, merge: Merge, g: GroupData, s: GroupData)
    requires c.windowDays >= 1 && CreatesShape(create)
    requires create(Middle(c), 0) == Some(g) && create(Late(c), c.windowDays) == Some(s)
    requires var g1 := merge(g, s); Mergeable(g, s) && Mergeable(g1, s) && Mergeable(merge(g1, s), s)
    ensures Walk(Candidates(c, create, Staggered(c)), merge) == [MergedThrice(g, s, merge)]
  {
    SevenCandidates(c, create);
    WalkOfSeven(g, s, merge);
  }

  lemma OneGroup(c: Context)
    requires c.windowDays >= 1
    ensures Windows(c, Staggered(c)) == [Together(c)]
    ensures Holds(c, Together(c), Both(c), 0, 2 * c.windowDays, First(c).patterns + Second(c).patterns)
  {
    CreateRuleShape(c);
    CreatedHolds(c, Middle(c), 0, c.windowDays);
    CreatedHolds(c, Late(c), c.windowDays, 2 * c.windowDays);
    ThreeMerges(c, First(c), Second(c));
    WalkOfStaggered(c, CreateRule(c), MergeRule(c.sqrt), First(c), Second(c));
  }

  // ---------------------------------------------------------------------------------------------
  // Patterns of the windows and of the group
  // ---------------------------------------------------------------------------------------------

  lemma OrderedStays(orders: seq<PurchaseOrder>)
    requires DateOrdered(orders)
    ensures ByDate(orders) == orders
  {
    SortedStays(orders, DateKey);
  }

  /** Three orders of one day. */
  lemma PatternsOfDay(g: GroupData, day: int)
    requires MetricsCurrent(g) && |g.orders| == 3 && OnDay(g.orders, day)
    ensures TemporalClustering in DetectPatterns(g) && SequentialSplitting in DetectPatterns(g)
    ensures FrequencySpike !in DetectPatterns(g)
  {
    OrderedStays(g.orders);
    AverageGap(g.orders);
  }

  lemma PatternsOfWindow(c: Context, source: seq<PurchaseOrder>, orders: seq<PurchaseOrder>, start: int, end: int,
                         day: int)
    requires |orders| == 3 && OnDay(orders, day) && Within(orders, source, start, end)
    ensures var patterns := Created(c, orders, start, end).patterns;
            && TemporalClustering in patterns && SequentialSplitting in patterns && FrequencySpike !in patterns
  {
    CreatedOk(c, source, orders, start, end);
    CreatedShape(c, orders, start, end);
    CreatedPatterns(c, orders, start, end);
    PatternsOfDay(Created(c, orders, start, end), day);
  }

  lemma PatternsOfBoth(c: Context)
    requires c.windowDays >= 1
    ensures var patterns := First(c).patterns + Second(c).patterns;
            && TemporalClustering in patterns && SequentialSplitting in patterns && FrequencySpike !in patterns
  {
    PatternsOfWindow(c, Middle(c), Middle(c), 0, c.windowDays, c.windowDays);
    PatternsOfWindow(c, Late(c), Late(c), c.windowDays, 2 * c.windowDays, 2 * c.windowDays);
  }

  /** All six orders: two days of three, `windowDays` apart. */
  lemma BothStays(c: Context)
    requires c.windowDays >= 1
    ensures ByDate(Both(c)) == Both(c)
    ensures |Both(c)| == 6 && Both(c)[5].date - Both(c)[0].date == Gaps(Both(c))[2] == c.windowDays
  {
    OrderedStays(Both(c));
  }

  lemma GapsOfBoth(c: Context)
    requires c.windowDays >= 1
    ensures ByDate(Both(c)) == Both(c)
    ensures var days := DaysOf(Gaps(Both(c)));
            days.average == c.windowDays as real / 5.0 && (days.isSequential ==> c.windowDays == 1)
  {
    BothStays(c);
    AverageGap(Both(c));
  }

  lemma OwnPatterns(c: Context, g: GroupData)
    requires c.windowDays >= 1 && MetricsCurrent(g) && g.orders == Both(c)
    ensures c.windowDays >= 2 ==> SequentialSplitting !in DetectPatterns(g)
    ensures c.windowDays == 1 ==> FrequencySpike in DetectPatterns(g)
  {
    GapsOfBoth(c);
  }

  lemma ReturnedIfValid(c: Context, orders: seq<PurchaseOrder>, g: GroupData)
    requires |orders| >= MIN_ORDERS && ByDate(orders) == orders && Windows(c, orders) == [g] && IsValidSplittingGroup(g)
    ensures g in Analyzed(c, orders)
  {
    assert [g][..0] == [];
    assert ValidGroups([g]) == [g];
    assert SortBy([g], NegatedRisk) == [g];
  }

  lemma ValidWithTwo(g: GroupData, x: Pattern, y: Pattern)
    requires |g.orders| >= MIN_ORDERS && x != y && x in g.patterns && y in g.patterns
    ensures IsValidSplittingGroup(g)
  {
    assert g.patterns == {x, y} + (g.patterns - {x, y});
    assert |{x, y}| == 2;
  }

  lemma StaggeredIsOrdered(c: Context)
    requires c.windowDays >= 1
    ensures DateOrdered(Staggered(c)) && ByDate(Staggered(c)) == Staggered(c)
  {
    OrderedStays(Staggered(c));
  }

  lemma OnlyGroupIsSound(c: Context, orders: seq<PurchaseOrder>, g: GroupData)
    requires orders != [] && DateOrdered(orders) && Windows(c, orders) == [g]
    ensures MetricsCurrent(g)
  {
    WindowsOk(c, orders);
    assert Sound(c, orders)(Windows(c, orders)[0]);
  }

  lemma GoneWrong(c: Context, g: GroupData)
    requires c.windowDays >= 1 && Windows(c, Staggered(c)) == [g]
    requires Holds(c, g, Both(c), 0, 2 * c.windowDays, First(c).patterns + Second(c).patterns)
    ensures g in Analyzed(c, Staggered(c))
    ensures c.windowDays >= 2 ==> SequentialSplitting in g.patterns && SequentialSplitting !in DetectPatterns(g)
    ensures c.windowDays == 1 ==> FrequencySpike !in g.patterns && FrequencySpike in DetectPatterns(g)
  {
    StaggeredIsOrdered(c);
    OnlyGroupIsSound(c, Staggered(c), g);
    PatternsOfBoth(c);
    OwnPatterns(c, g);
    ValidWithTwo(g, TemporalClustering, SequentialSplitting);
    ReturnedIfValid(c, Staggered(c), g);
  }

  /** For every threshold and every window of at least a day: with windows of two days or more the group shows
      sequential splitting, which a gap of its own orders contradicts; with windows of one day it lacks the
      frequency spike that its own six orders have. */
  lemma PatternsGoWrong(c: Context)
    requires c.windowDays >= 1
    ensures var g := Together(c);
            && g in Analyzed(c, Staggered(c)) && g.orders == Both(c)
            && (c.windowDays >= 2 ==> SequentialSplitting in g.patterns && SequentialSplitting !in DetectPatterns(g))
            && (c.windowDays == 1 ==> FrequencySpike !in g.patterns && FrequencySpike in DetectPatterns(g))
  {
    OneGroup(c);
    GoneWrong(c, Together(c));
  }

  // ---------------------------------------------------------------------------------------------
  // Windows of less than a day
  // ---------------------------------------------------------------------------------------------

  lemma {:induction false} InShortWindow(orders: seq<PurchaseOrder>, start: int, end: int)
    requires end <= start
    ensures InWindow(orders, start, end) == []
  {
    if orders != [] {
      InShortWindow(orders[..|orders| - 1], start, end);
    }
  }

  lemma ShortWindow(c: Context, sorted: seq<PurchaseOrder>, i: nat)
    requires c.windowDays < 1 && i < |sorted|
    ensures |WindowOrders(c, sorted, i)| < MIN_ORDERS
  {
    InShortWindow(sorted[i + 1..], sorted[i].date, sorted[i].date + c.windowDays);
  }

  lemma {:induction false} NothingToWalk(candidates: seq<Option<GroupData>>, merge: Merge)
    requires forall i | 0 <= i < |candidates| :: candidates[i].None?
    ensures Walk(candidates, merge) == []
  {
    if candidates != [] {
      NothingToWalk(candidates[..|candidates| - 1], merge);
    }
  }

  lemma ShortCandidates(c: Context, create: Create, sorted: seq<PurchaseOrder>)
    requires c.windowDays < 1 && CreatesShape(create)
    ensures forall i | 0 <= i < |sorted| :: Candidates(c, create, sorted)[i].None?
  {
    forall i | 0 <= i < |sorted|
      ensures Candidates(c, create, sorted)[i].None?
    {
      ShortWindow(c, sorted, i);
      assert Candidates(c, create, sorted)[i] == create(WindowOrders(c, sorted, i), sorted[i].date);
    }
  }

  /** Windows of less than a day find nothing. */
  lemma ShortWindowsFindNothing(c: Context, orders: seq<PurchaseOrder>)
    requires c.windowDays < 1
    ensures Analyzed(c, orders) == []
  {
    var create, sorted := CreateRule(c), ByDate(orders);
    CreateRuleShape(c);
    ShortCandidates(c, create, sorted);
    NothingToWalk(Candidates(c, create, sorted), MergeRule(c.sqrt));
  }

  ghost predicate AllShowOwn(groups: seq<GroupData>) {
    forall g | g in groups :: ShowsOwnPatterns(g)
  }

  /** Every call returns groups with exactly the patterns of their own orders if and only if windows are shorter
      than a day. */
  lemma OwnPatternsIff(c: Context)
    ensures (forall orders :: AllShowOwn(Analyzed(c, orders))) <==> c.windowDays < 1
  {
    if c.windowDays < 1 {
      forall orders
        ensures AllShowOwn(Analyzed(c, orders))
      {
        ShortWindowsFindNothing(c, orders);
      }
    } else {
      PatternsGoWrong(c);
      assert !ShowsOwnPatterns(Together(c));
      assert !AllShowOwn(Analyzed(c, Staggered(c)));
    }
  }
}

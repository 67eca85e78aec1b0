/** What merging does to contents: each group is the union of the windows that start in its window. So no order
    of a large enough window gets lost, and patterns pile up without being checked again. */
module WindowCoverage {
  import opened Options
  import opened SplittingGroup
  import opened WindowAnalyzer
  import opened WindowProperties
  import opened WindowTotals
  import opened WindowWalk

  // ---------------------------------------------------------------------------------------------
  // Groups and candidates
  // ---------------------------------------------------------------------------------------------

  lemma WindowsAccount(c: Context, sorted: seq<PurchaseOrder>, has: GroupData -> bool)
    requires DateOrdered(sorted) && MergesContent(MergeRule(c.sqrt), Sound(c, sorted), has)
    ensures Accounted(Windows(c, sorted), Candidates(c, CreateRule(c), sorted), has)
  {
    var create, merge := CreateRule(c), MergeRule(c.sqrt);
    var candidates := Candidates(c, create, sorted);
    if sorted != [] {
      AnalyzerRules(c, sorted);
      CandidatesSound(c, sorted);
      CreateRuleShape(c);
      CandidatesAscend(c, create, sorted);
      WalkAccounts(candidates, merge, Sound(c, sorted), has, c.vendorId, c.departmentId, sorted[|sorted| - 1].date);
    } else {
      assert candidates == [];
    }
  }

  ghost predicate SomeGroup(groups: seq<GroupData>, has: GroupData -> bool) {
    exists k :: 0 <= k < |groups| && has(groups[k])
  }

  ghost predicate SomeCandidate(candidates: seq<Option<GroupData>>, has: GroupData -> bool) {
    exists i :: 0 <= i < |candidates| && candidates[i].Some? && has(candidates[i].value)
  }

  lemma AccountedCovers(groups: seq<GroupData>, candidates: seq<Option<GroupData>>, has: GroupData -> bool)
    requires Accounted(groups, candidates, has)
    ensures SomeGroup(groups, has) <==> SomeCandidate(candidates, has)
  {
    if k :| 0 <= k < |groups| && has(groups[k]) {
      assert UnionOf(groups[k], candidates, has);
      var i: nat :| Contributes(candidates, i, groups[k], has);
      assert has(candidates[i].value);
    }
    if i :| 0 <= i < |candidates| && candidates[i].Some? && has(candidates[i].value) {
      assert Hosted(groups, candidates[i].value.windowStart);
      var k :| 0 <= k < |groups| && Hosts(groups[k], candidates[i].value.windowStart);
      assert Contributes(candidates, i, groups[k], has);
      assert UnionOf(groups[k], candidates, has);
    }
  }

  // ---------------------------------------------------------------------------------------------
  // No order is lost
  // ---------------------------------------------------------------------------------------------

  ghost function Holding(id: string): GroupData -> bool {
    (g: GroupData) => HasId(g.orders, id)
  }

  lemma {:induction false} ExtendedHasId(base: seq<PurchaseOrder>, more: seq<PurchaseOrder>, n: nat, id: string)
    requires n <= |more|
    ensures HasId(Extended(base, more, n), id) <==> HasId(base, id) || HasId(more[..n], id)
  {
    if n > 0 {
      ExtendedHasId(base, more, n - 1, id);
      HasIdSnoc(more[..n - 1], more[n - 1], id);
      assert more[..n] == more[..n - 1] + [more[n - 1]];
      HasIdSnoc(Extended(base, more, n - 1), more[n - 1], id);
    }
  }

  lemma HasIdSnoc(orders: seq<PurchaseOrder>, p: PurchaseOrder, id: string)
    ensures HasId(orders + [p], id) <==> HasId(orders, id) || p.poId == id
  {
    var longer := orders + [p];
    if i :| 0 <= i < |orders| && orders[i].poId == id {
      assert longer[i].poId == id;
    }
    if p.poId == id {
      assert longer[|orders|].poId == id;
    }
  }

  lemma MergeHoldsBoth(c: Context, source: seq<PurchaseOrder>, id: string)
    ensures MergesContent(MergeRule(c.sqrt), Sound(c, source), Holding(id))
  {
    var merge, ok, has := MergeRule(c.sqrt), Sound(c, source), Holding(id);
    forall g, s | ok(g) && ok(s)
      ensures has(merge(g, s)) <==> has(g) || has(s)
    {
      MergeRuleShape(c.sqrt, g, s);
      ExtendedHasId(g.orders, s.orders, |s.orders|, id);
      assert s.orders[..|s.orders|] == s.orders;
    }
  }

  /** Some large enough window holds the id. */
  ghost predicate InLargeWindow(c: Context, sorted: seq<PurchaseOrder>, id: string) {
    exists i :: 0 <= i < |sorted| && LargeWindowHolds(c, sorted, i, id)
  }

  ghost predicate LargeWindowHolds(c: Context, sorted: seq<PurchaseOrder>, i: nat, id: string)
    requires i < |sorted|
  {
    |WindowOrders(c, sorted, i)| >= 3 && HasId(WindowOrders(c, sorted, i), id)
  }

  lemma CandidatesAreWindows(c: Context, create: Create, sorted: seq<PurchaseOrder>, id: string)
    requires CreatesShape(create)
    ensures SomeCandidate(Candidates(c, create, sorted), Holding(id)) <==> InLargeWindow(c, sorted, id)
  {
    var candidates, has := Candidates(c, create, sorted), Holding(id);
    forall i | 0 <= i < |sorted|
      ensures candidates[i].Some? && has(candidates[i].value) <==> LargeWindowHolds(c, sorted, i, id)
    {
      assert candidates[i] == create(WindowOrders(c, sorted, i), sorted[i].date);
    }
    if i :| 0 <= i < |sorted| && LargeWindowHolds(c, sorted, i, id) {
      assert has(candidates[i].value);
    }
  }

  /** For every list of orders, repeated ids included: after the walk an id is in some group exactly when some
      large enough window holds it. */
  lemma AnalysisCovers(c: Context, orders: seq<PurchaseOrder>, id: string)
    ensures var sorted := ByDate(orders);
            SomeGroup(Windows(c, sorted), Holding(id)) <==> InLargeWindow(c, sorted, id)
  {
    var sorted := ByDate(orders);
    ByDateOrders(orders);
    MergeHoldsBoth(c, sorted, id);
    WindowsAccount(c, sorted, Holding(id));
    AccountedCovers(Windows(c, sorted), Candidates(c, CreateRule(c), sorted), Holding(id));
    CreateRuleShape(c);
    CandidatesAreWindows(c, CreateRule(c), sorted, id);
  }

  // ---------------------------------------------------------------------------------------------
  // Patterns pile up
  // ---------------------------------------------------------------------------------------------

  ghost function Showing(x: Pattern): GroupData -> bool {
    (g: GroupData) => x in g.patterns
  }

  lemma MergeShowsBoth(c: Context, source: seq<PurchaseOrder>, x: Pattern)
    ensures MergesContent(MergeRule(c.sqrt), Sound(c, source), Showing(x))
  {
    var merge, ok, has := MergeRule(c.sqrt), Sound(c, source), Showing(x);
    forall g, s | ok(g) && ok(s)
      ensures has(merge(g, s)) <==> has(g) || has(s)
    {
      MergeRuleShape(c.sqrt, g, s);
    }
  }

  /** A group's patterns are exactly those found in the windows that start in its window, each for the window's
      own orders; they are not looked for again among the merged orders. */
  lemma PatternsPileUp(c: Context, orders: seq<PurchaseOrder>, g: GroupData, x: Pattern)
    requires g in Analyzed(c, orders)
    ensures x in g.patterns <==>
            exists i: nat :: Contributes(Candidates(c, CreateRule(c), ByDate(orders)), i, g, Showing(x))
  {
    var sorted := ByDate(orders);
    var groups, candidates := Windows(c, sorted), Candidates(c, CreateRule(c), sorted);
    ReturnedWasWalked(c, orders, g);
    ByDateOrders(orders);
    MergeShowsBoth(c, sorted, x);
    WindowsAccount(c, sorted, Showing(x));
    var k :| 0 <= k < |groups| && groups[k] == g;
    assert UnionOf(groups[k], candidates, Showing(x));
  }

  /** What a window's group shows is what its own orders show. */
  lemma CreatedPatterns(c: Context, orders: seq<PurchaseOrder>, start: int, end: int)
    ensures Created(c, orders, start, end).patterns == DetectPatterns(Created(c, orders, start, end))
  {
    var metrics := MetricsOf(orders, c.threshold, c.sqrt, NO_METRICS.(poCount := |orders|));
    var g := GroupData(c.vendorId, c.departmentId, start, end, orders, c.threshold, metrics, {}, 0.0, false);
    PatternsIgnoreScore(g, DetectPatterns(g));
  }

  lemma PatternsIgnoreScore(g: GroupData, patterns: set<Pattern>)
    ensures DetectPatterns(Scored(g.(patterns := patterns))) == DetectPatterns(g)
  {
  }

  // ---------------------------------------------------------------------------------------------
  // A group that was never merged
  // ---------------------------------------------------------------------------------------------

  /** The window anchored at `i` is large enough and starts in the window of `g`. */
  ghost predicate LargeStartsIn(c: Context, sorted: seq<PurchaseOrder>, i: nat, g: GroupData) {
    i < |sorted| && |WindowOrders(c, sorted, i)| >= 3 && Hosts(g, sorted[i].date)
  }

  ghost predicate TwoLargeStartIn(c: Context, sorted: seq<PurchaseOrder>, g: GroupData) {
    exists i: nat, j: nat :: i < j && LargeStartsIn(c, sorted, i, g) && LargeStartsIn(c, sorted, j, g)
  }

  lemma StartIsAnchor(c: Context, create: Create, sorted: seq<PurchaseOrder>, i: nat, g: GroupData)
    requires CreatesShape(create) && StartsIn(Candidates(c, create, sorted), i, g)
    ensures LargeStartsIn(c, sorted, i, g)
  {
    assert Candidates(c, create, sorted)[i] == create(WindowOrders(c, sorted, i), sorted[i].date);
  }

  lemma TwoStartsAreLarge(c: Context, create: Create, sorted: seq<PurchaseOrder>, g: GroupData)
    requires CreatesShape(create) && TwoStartIn(Candidates(c, create, sorted), g)
    ensures TwoLargeStartIn(c, sorted, g)
  {
    var candidates := Candidates(c, create, sorted);
    var i: nat, j: nat :| i < j && StartsIn(candidates, i, g) && StartsIn(candidates, j, g);
    StartIsAnchor(c, create, sorted, i, g);
    StartIsAnchor(c, create, sorted, j, g);
  }

  ghost predicate ShowsOwnPatterns(g: GroupData) {
    g.patterns == DetectPatterns(g)
  }

  lemma CandidateShowsOwn(c: Context, sorted: seq<PurchaseOrder>, i: nat, g: GroupData)
    requires IsCandidate(Candidates(c, CreateRule(c), sorted), i, g)
    ensures ShowsOwnPatterns(g)
  {
    CreateRuleCreates(c, WindowOrders(c, sorted, i), sorted[i].date);
    CreatedPatterns(c, WindowOrders(c, sorted, i), sorted[i].date, sorted[i].date + c.windowDays);
  }

  /** A returned group in whose window only one large enough window starts shows exactly the patterns of its own
      orders. */
  lemma OneWindowShowsOwn(c: Context, orders: seq<PurchaseOrder>, g: GroupData)
    requires g in Analyzed(c, orders) && !TwoLargeStartIn(c, ByDate(orders), g)
    ensures ShowsOwnPatterns(g)
  {
    var sorted, create := ByDate(orders), CreateRule(c);
    var groups, candidates := Windows(c, sorted), Candidates(c, create, sorted);
    ReturnedWasWalked(c, orders, g);
    AnalyzerRules(c, sorted);
    CandidatesSound(c, sorted);
    WalkPlainOrMerged(candidates, MergeRule(c.sqrt), Sound(c, sorted), c.vendorId, c.departmentId);
    var k :| 0 <= k < |groups| && groups[k] == g;
    assert PlainOrMerged(candidates, groups[k]);
    CreateRuleShape(c);
    if TwoStartIn(candidates, g) {
      TwoStartsAreLarge(c, create, sorted, g);
    } else {
      var i: nat :| IsCandidate(candidates, i, g);
      CandidateShowsOwn(c, sorted, i, g);
    }
  }
}

/** The main results about the window analysis, stated for the groups it returns. */
module WindowTotals {
  import opened RealSums
  import opened Sequences
  import opened Sorting
  import opened SplittingGroup
  import opened WindowAnalyzer
  import opened WindowProperties
  import opened WindowWalk

  // ---------------------------------------------------------------------------------------------
  // From the window walk to the returned groups: filtering and sorting
  // ---------------------------------------------------------------------------------------------

  ghost predicate DisjointWindows(g: GroupData, g': GroupData) {
    g.windowEnd < g'.windowStart || g'.windowEnd < g.windowStart
  }

  ghost predicate PairwiseDisjoint(groups: seq<GroupData>) {
    forall i, j | 0 <= i < j < |groups| :: DisjointWindows(groups[i], groups[j])
  }

  function TotalOf(groups: seq<GroupData>): real {
    if groups == [] then 0.0 else TotalOf(groups[..|groups| - 1]) + groups[|groups| - 1].metrics.total
  }

  ghost predicate NonNegativeTotals(groups: seq<GroupData>) {
    forall i | 0 <= i < |groups| :: groups[i].metrics.total >= 0.0
  }

  lemma {:induction false} ValidGroupsMember(groups: seq<GroupData>, g: GroupData)
    ensures g in ValidGroups(groups) <==> g in groups && IsValidSplittingGroup(g)
  {
    if groups != [] {
      ValidGroupsMember(groups[..|groups| - 1], g);
      assert groups == groups[..|groups| - 1] + [groups[|groups| - 1]];
    }
  }

  lemma DisjointSnoc(groups: seq<GroupData>, g: GroupData)
    requires PairwiseDisjoint(groups) && forall h | h in groups :: DisjointWindows(h, g)
    ensures PairwiseDisjoint(groups + [g])
  {
  }

  lemma DisjointFromLast(groups: seq<GroupData>, h: GroupData)
    requires groups != [] && PairwiseDisjoint(groups) && h in groups[..|groups| - 1]
    ensures DisjointWindows(h, groups[|groups| - 1])
  {
    var j :| 0 <= j < |groups| - 1 && groups[j] == h;
  }

  lemma {:induction false} ValidGroupsDisjoint(groups: seq<GroupData>)
    requires PairwiseDisjoint(groups)
    ensures PairwiseDisjoint(ValidGroups(groups))
  {
    if groups != [] {
      var init, last := groups[..|groups| - 1], groups[|groups| - 1];
      ValidGroupsDisjoint(init);
      forall h | h in ValidGroups(init)
        ensures DisjointWindows(h, last)
      {
        ValidGroupsMember(init, h);
        DisjointFromLast(groups, h);
      }
      DisjointSnoc(ValidGroups(init), last);
    }
  }

  lemma TotalSnoc(groups: seq<GroupData>, g: GroupData)
    ensures TotalOf(groups + [g]) == TotalOf(groups) + g.metrics.total
  {
    assert (groups + [g])[..|groups|] == groups;
  }

  lemma {:induction false} ValidGroupsTotal(groups: seq<GroupData>)
    requires NonNegativeTotals(groups)
    ensures TotalOf(ValidGroups(groups)) <= TotalOf(groups)
  {
    if groups != [] {
      ValidGroupsTotal(groups[..|groups| - 1]);
      TotalSnoc(ValidGroups(groups[..|groups| - 1]), groups[|groups| - 1]);
    }
  }

  lemma {:induction false} InsertKeepsDisjoint(groups: seq<GroupData>, g: GroupData)
    requires PairwiseDisjoint(groups) && forall i | 0 <= i < |groups| :: DisjointWindows(groups[i], g)
    ensures PairwiseDisjoint(Insert(groups, g, NegatedRisk))
    ensures TotalOf(Insert(groups, g, NegatedRisk)) == TotalOf(groups) + g.metrics.total
  {
    if groups == [] || NegatedRisk(groups[|groups| - 1]) <= NegatedRisk(g) {
      assert (groups + [g])[..|groups|] == groups;
    } else {
      var init, last := groups[..|groups| - 1], groups[|groups| - 1];
      var inserted := Insert(init, g, NegatedRisk);
      InsertKeepsDisjoint(init, g);
      InsertContents(init, g, NegatedRisk);
      assert (inserted + [last])[..|inserted|] == inserted;
      forall i | 0 <= i < |inserted|
        ensures DisjointWindows(inserted[i], last)
      {
        assert inserted[i] in multiset(inserted);
        if inserted[i] != g {
          assert inserted[i] in multiset(init);
          var j :| 0 <= j < |init| && init[j] == inserted[i];
          assert DisjointWindows(groups[j], last);
        }
      }
    }
  }

  lemma {:induction false} SortKeepsDisjoint(groups: seq<GroupData>)
    requires PairwiseDisjoint(groups)
    ensures PairwiseDisjoint(SortBy(groups, NegatedRisk))
    ensures TotalOf(SortBy(groups, NegatedRisk)) == TotalOf(groups)
  {
    if groups != [] {
      var init, last := groups[..|groups| - 1], groups[|groups| - 1];
      SortKeepsDisjoint(init);
      SortByCorrect(init, NegatedRisk);
      var sorted := SortBy(init, NegatedRisk);
      forall i | 0 <= i < |sorted|
        ensures DisjointWindows(sorted[i], last)
      {
        assert sorted[i] in multiset(sorted);
        assert sorted[i] in multiset(init);
        var j :| 0 <= j < |init| && init[j] == sorted[i];
        assert DisjointWindows(groups[j], last);
      }
      InsertKeepsDisjoint(sorted, last);
    }
  }

  // ---------------------------------------------------------------------------------------------
  // Sorting the orders by date
  // ---------------------------------------------------------------------------------------------

  lemma AmountsSnoc(orders: seq<PurchaseOrder>, p: PurchaseOrder)
    ensures Sum(Amounts(orders + [p])) == Sum(Amounts(orders)) + p.amount
  {
    assert Amounts(orders + [p]) == Amounts(orders) + [p.amount];
    SumSnoc(Amounts(orders), p.amount);
  }

  lemma {:induction false} InsertKeepsSum(orders: seq<PurchaseOrder>, p: PurchaseOrder)
    ensures Sum(Amounts(Insert(orders, p, DateKey))) == Sum(Amounts(orders)) + p.amount
  {
    if orders == [] || DateKey(orders[|orders| - 1]) <= DateKey(p) {
      AmountsSnoc(orders, p);
    } else {
      var init, last := orders[..|orders| - 1], orders[|orders| - 1];
      InsertKeepsSum(init, p);
      AmountsSnoc(Insert(init, p, DateKey), last);
      AmountsSnoc(init, last);
      assert orders == init + [last];
    }
  }

  lemma IdsOfPermutation(s: seq<PurchaseOrder>, t: seq<PurchaseOrder>, p: PurchaseOrder)
    requires multiset(s) == multiset(t) && DistinctIds(s) && DistinctIds(t + [p])
    ensures DistinctIds(s + [p])
  {
    forall i | 0 <= i < |s|
      ensures s[i].poId != p.poId
    {
      assert s[i] in multiset(s);
      assert s[i] in multiset(t);
      var j :| 0 <= j < |t| && t[j] == s[i];
      assert (t + [p])[j].poId != (t + [p])[|t|].poId;
    }
  }

  lemma SwapLast(init: seq<PurchaseOrder>, p: PurchaseOrder, q: PurchaseOrder)
    requires DistinctIds(init + [p] + [q])
    ensures DistinctIds(init + [q] + [p]) && DistinctIds(init + [q])
  {
    var s, t := init + [p] + [q], init + [q] + [p];
    var n := |init|;
    assert forall i | 0 <= i < n :: s[i] == init[i] == t[i];
    assert s[n] == p && s[n + 1] == q && t[n] == q && t[n + 1] == p;
    assert t[..n + 1] == init + [q];
  }

  lemma {:induction false} InsertKeepsIds(orders: seq<PurchaseOrder>, p: PurchaseOrder)
    requires DistinctIds(orders + [p])
    ensures DistinctIds(Insert(orders, p, DateKey))
  {
    if orders != [] && DateKey(orders[|orders| - 1]) > DateKey(p) {
      var init, last := orders[..|orders| - 1], orders[|orders| - 1];
      assert orders == init + [last];
      SwapLast(init, last, p);
      InsertKeepsIds(init, p);
      InsertContents(init, p, DateKey);
      assert multiset(init + [p]) == multiset(init) + multiset{p};
      IdsOfPermutation(Insert(init, p, DateKey), init + [p], last);
    }
  }

  lemma {:induction false} ByDateKeepsSum(orders: seq<PurchaseOrder>)
    ensures Sum(Amounts(ByDate(orders))) == Sum(Amounts(orders))
  {
    if orders != [] {
      var init, last := orders[..|orders| - 1], orders[|orders| - 1];
      assert orders == init + [last];
      ByDateKeepsSum(init);
      InsertKeepsSum(ByDate(init), last);
      AmountsSnoc(init, last);
    }
  }

  lemma {:induction false} ByDateKeepsIds(orders: seq<PurchaseOrder>)
    requires DistinctIds(orders)
    ensures DistinctIds(ByDate(orders))
  {
    if orders != [] {
      var init, last := orders[..|orders| - 1], orders[|orders| - 1];
      assert orders == init + [last];
      ByDateKeepsIds(init);
      SortByCorrect(init, DateKey);
      IdsOfPermutation(ByDate(init), init, last);
      InsertKeepsIds(ByDate(init), last);
    }
  }

  lemma ByDateOrders(orders: seq<PurchaseOrder>)
    ensures DateOrdered(ByDate(orders)) && |ByDate(orders)| == |orders|
    ensures multiset(ByDate(orders)) == multiset(orders)
  {
    SortByCorrect(orders, DateKey);
    var s := ByDate(orders);
    assert forall i, j | 0 <= i < j < |s| :: DateKey(s[i]) <= DateKey(s[j]);
  }

  // ---------------------------------------------------------------------------------------------
  // The totals are covered by the orders
  // ---------------------------------------------------------------------------------------------

  /** The amounts of the orders dated within `lo..hi`. */
  function SumIn(orders: seq<PurchaseOrder>, lo: int, hi: int): real {
    if orders == [] then 0.0
    else
      var last := orders[|orders| - 1];
      SumIn(orders[..|orders| - 1], lo, hi) + if lo <= last.date <= hi then last.amount else 0.0
  }

  /** The amounts of the orders dated up to `hi`. */
  function SumUpTo(orders: seq<PurchaseOrder>, hi: int): real {
    if orders == [] then 0.0
    else
      var last := orders[|orders| - 1];
      SumUpTo(orders[..|orders| - 1], hi) + if last.date <= hi then last.amount else 0.0
  }

  lemma {:induction false} SumUpToGrows(orders: seq<PurchaseOrder>, before: int, lo: int, hi: int)
    requires before < lo
    ensures SumUpTo(orders, before) + SumIn(orders, lo, hi) <= SumUpTo(orders, if before < hi then hi else before)
    ensures 0.0 <= SumIn(orders, lo, hi) <= SumUpTo(orders, hi) <= Sum(Amounts(orders))
  {
    if orders != [] {
      var init, last := orders[..|orders| - 1], orders[|orders| - 1];
      SumUpToGrows(init, before, lo, hi);
      assert orders == init + [last];
      AmountsSnoc(init, last);
    }
  }

  lemma SumInSnoc(orders: seq<PurchaseOrder>, p: PurchaseOrder, lo: int, hi: int)
    ensures SumIn(orders + [p], lo, hi)
            == if lo <= p.date <= hi then SumIn(orders, lo, hi) + p.amount else SumIn(orders, lo, hi)
  {
    assert (orders + [p])[..|orders|] == orders;
  }

  /** Orders taken from `source`, none more often than it occurs there, that lie within a window total at most the
      window's orders. */
  lemma {:induction false} TotalWithinWindow(part: seq<PurchaseOrder>, source: seq<PurchaseOrder>, lo: int, hi: int)
    requires TakenFrom(part, source) && Within(part, source, lo, hi)
    ensures Sum(Amounts(part)) <= SumIn(source, lo, hi)
    decreases |source|
  {
    if source == [] {
      NothingTaken(part);
    } else {
      var init, last := source[..|source| - 1], source[|source| - 1];
      assert source == init + [last];
      SumInSnoc(init, last, lo, hi);
      if j :| 0 <= j < |part| && part[j] == last {
        AmountWithout(part, j);
        WithoutTaken(part, j, init, last, lo, hi);
        TotalWithinWindow(Without(part, j), init, lo, hi);
      } else {
        NotLastTaken(part, init, last, lo, hi);
        TotalWithinWindow(part, init, lo, hi);
      }
    }
  }

  lemma NothingTaken(part: seq<PurchaseOrder>)
    requires TakenFrom(part, [])
    ensures part == []
  {
    if part != [] {
      TakenIsMember(part, [], part[0]);
    }
  }

  lemma AmountWithout(part: seq<PurchaseOrder>, j: nat)
    requires j < |part|
    ensures Sum(Amounts(part)) == Sum(Amounts(Without(part, j))) + part[j].amount
  {
    assert Without(Amounts(part), j) == Amounts(Without(part, j));
    SplitOff(Amounts(part), j);
  }

  lemma AllTakenWithin(part: seq<PurchaseOrder>, source: seq<PurchaseOrder>, lo: int, hi: int)
    requires TakenFrom(part, source) && forall i | 0 <= i < |part| :: lo <= part[i].date <= hi
    ensures Within(part, source, lo, hi)
  {
    forall i | 0 <= i < |part|
      ensures part[i] in source
    {
      TakenIsMember(part, source, part[i]);
    }
  }

  lemma MultisetWithout<T>(s: seq<T>, j: nat)
    requires j < |s|
    ensures multiset(s) == multiset(Without(s, j)) + multiset{s[j]}
  {
    assert s == s[..j] + ([s[j]] + s[j + 1..]);
    assert multiset(s[..j] + ([s[j]] + s[j + 1..])) == multiset(s[..j]) + (multiset{s[j]} + multiset(s[j + 1..]));
  }

  lemma CancelOne<T>(a: multiset<T>, b: multiset<T>, x: multiset<T>)
    requires a + x <= b + x
    ensures a <= b
  {
    forall y | y in a
      ensures a[y] <= b[y]
    {
      assert (a + x)[y] <= (b + x)[y];
    }
  }

  lemma WithoutTaken(part: seq<PurchaseOrder>, j: nat, init: seq<PurchaseOrder>, last: PurchaseOrder, lo: int, hi: int)
    requires j < |part| && part[j] == last
    requires TakenFrom(part, init + [last]) && Within(part, init + [last], lo, hi)
    ensures TakenFrom(Without(part, j), init) && Within(Without(part, j), init, lo, hi)
  {
    MultisetWithout(part, j);
    MultisetSnoc(init, last);
    CancelOne(multiset(Without(part, j)), multiset(init), multiset{last});
    OthersWithin(part, j, init + [last], lo, hi);
    AllTakenWithin(Without(part, j), init, lo, hi);
  }

  lemma OthersWithin(part: seq<PurchaseOrder>, j: nat, source: seq<PurchaseOrder>, lo: int, hi: int)
    requires j < |part| && Within(part, source, lo, hi)
    ensures forall i | 0 <= i < |Without(part, j)| :: lo <= Without(part, j)[i].date <= hi
  {
    var others := Without(part, j);
    assert forall i | 0 <= i < |others| :: others[i] == if i < j then part[i] else part[i + 1];
  }

  lemma NotLastTaken(part: seq<PurchaseOrder>, init: seq<PurchaseOrder>, last: PurchaseOrder, lo: int, hi: int)
    requires TakenFrom(part, init + [last]) && Within(part, init + [last], lo, hi)
    requires forall i | 0 <= i < |part| :: part[i] != last
    ensures TakenFrom(part, init) && Within(part, init, lo, hi)
  {
    assert multiset(init + [last]) == multiset(init) + multiset{last};
    assert last !in part;
    assert multiset(part)[last] == 0;
    AllTakenWithin(part, init, lo, hi);
  }

  /** Windows that follow one another without touching cover at most the orders up to the last window's end. */
  lemma {:induction false} ApartTotals(c: Context, source: seq<PurchaseOrder>, groups: seq<GroupData>, latest: int)
    requires All(groups, Sound(c, source)) && All(groups, OrdersTaken(source)) && Apart(groups, latest) && groups != []
    ensures TotalOf(groups) <= SumUpTo(source, groups[|groups| - 1].windowEnd)
  {
    var n := |groups| - 1;
    var init, last := groups[..n], groups[n];
    assert OrdersTaken(source)(last) && Sound(c, source)(last);
    TotalWithinWindow(last.orders, source, last.windowStart, last.windowEnd);
    if n > 0 {
      ApartTotals(c, source, init, latest);
      SumUpToGrows(source, init[n - 1].windowEnd, last.windowStart, last.windowEnd);
      WindowIsNotEmpty(c, source, last);
    } else {
      assert TotalOf(init) == 0.0;
      SumUpToGrows(source, last.windowStart - 1, last.windowStart, last.windowEnd);
    }
  }

  // ---------------------------------------------------------------------------------------------
  // Main results
  // ---------------------------------------------------------------------------------------------

  lemma WalkResults(c: Context, orders: seq<PurchaseOrder>)
    requires orders != []
    ensures |ByDate(orders)| == |orders|
    ensures var groups := Windows(c, ByDate(orders));
            && All(groups, Sound(c, ByDate(orders)))
            && Apart(groups, ByDate(orders)[|orders| - 1].date)
            && PairwiseDisjoint(groups) && NonNegativeTotals(groups)
  {
    var sorted := ByDate(orders);
    ByDateOrders(orders);
    var groups := Windows(c, sorted);
    WindowsOk(c, sorted);
    forall i | 0 <= i < |groups|
      ensures groups[i].metrics.total >= 0.0
    {
      assert Sound(c, sorted)(groups[i]);
      AmountsNonNegative(groups[i].orders);
    }
  }

  lemma WalkTotal(c: Context, orders: seq<PurchaseOrder>)
    requires orders != []
    ensures TotalOf(Windows(c, ByDate(orders))) <= Sum(Amounts(orders))
  {
    var sorted := ByDate(orders);
    WalkResults(c, orders);
    ByDateKeepsSum(orders);
    WindowsTaken(c, sorted);
    var groups := Windows(c, sorted);
    if groups != [] {
      ApartTotals(c, sorted, groups, sorted[|sorted| - 1].date);
      SumUpToGrows(sorted, 0, 1, groups[|groups| - 1].windowEnd);
    } else {
      AmountsNonNegative(orders);
    }
  }

  lemma {:induction false} AmountsNonNegative(orders: seq<PurchaseOrder>)
    ensures Sum(Amounts(orders)) >= 0.0
  {
    if orders != [] {
      AmountsNonNegative(orders[..|orders| - 1]);
      AmountsSnoc(orders[..|orders| - 1], orders[|orders| - 1]);
      assert orders == orders[..|orders| - 1] + [orders[|orders| - 1]];
    }
  }

  /** For every list of orders, repeated ids included: the returned groups have pairwise disjoint windows, and
      every order lies in its group's window. */
  lemma WindowsAreDisjoint(c: Context, orders: seq<PurchaseOrder>)
    ensures var groups := Analyzed(c, orders);
            && PairwiseDisjoint(groups)
            && forall g | g in groups :: Within(g.orders, orders, g.windowStart, g.windowEnd)
  {
    if |orders| >= MIN_ORDERS {
      var sorted := ByDate(orders);
      WalkResults(c, orders);
      var walked := Windows(c, sorted);
      ValidGroupsDisjoint(walked);
      SortKeepsDisjoint(ValidGroups(walked));
      forall g | g in Analyzed(c, orders)
        ensures Within(g.orders, orders, g.windowStart, g.windowEnd)
      {
        ReturnedWasWalked(c, orders, g);
        WithinSorted(g.orders, orders, g.windowStart, g.windowEnd);
      }
    }
  }

  lemma ReturnedTotal(c: Context, orders: seq<PurchaseOrder>)
    ensures TotalOf(Analyzed(c, orders)) <= Sum(Amounts(orders))
  {
    if |orders| < MIN_ORDERS {
      AmountsNonNegative(orders);
    } else {
      WalkResults(c, orders);
      WalkTotal(c, orders);
      var walked := Windows(c, ByDate(orders));
      ValidGroupsDisjoint(walked);
      ValidGroupsTotal(walked);
      SortKeepsDisjoint(ValidGroups(walked));
    }
  }

  lemma ReturnedIds(c: Context, orders: seq<PurchaseOrder>, g: GroupData)
    requires DistinctIds(orders) && g in Analyzed(c, orders)
    ensures DistinctIds(g.orders)
  {
    ReturnedWasWalked(c, orders, g);
    ByDateKeepsIds(orders);
    WindowsIds(c, ByDate(orders));
    var walked := Windows(c, ByDate(orders));
    var k :| 0 <= k < |walked| && walked[k] == g;
    assert IdsDistinct()(walked[k]);
  }

  lemma ReturnedTaken(c: Context, orders: seq<PurchaseOrder>, g: GroupData)
    requires g in Analyzed(c, orders)
    ensures TakenFrom(g.orders, orders)
  {
    ReturnedWasWalked(c, orders, g);
    ByDateOrders(orders);
    WindowsTaken(c, ByDate(orders));
    var walked := Windows(c, ByDate(orders));
    var k :| 0 <= k < |walked| && walked[k] == g;
    assert OrdersTaken(ByDate(orders))(walked[k]);
  }

  /** No order is counted twice, whatever the list: the returned groups have pairwise disjoint windows, every order
      lies in its group's window, no group holds an order more often than it occurs in the list, and the groups'
      totals add up to at most the total of all orders. If no id repeats in the list, none does within a group. */
  lemma NoDoubleCounting(c: Context, orders: seq<PurchaseOrder>)
    ensures var groups := Analyzed(c, orders);
            && PairwiseDisjoint(groups)
            && (forall g | g in groups :: Within(g.orders, orders, g.windowStart, g.windowEnd))
            && (forall g | g in groups :: TakenFrom(g.orders, orders))
            && TotalOf(groups) <= Sum(Amounts(orders))
            && (DistinctIds(orders) ==> forall g | g in groups :: DistinctIds(g.orders))
  {
    WindowsAreDisjoint(c, orders);
    ReturnedTotal(c, orders);
    forall g | g in Analyzed(c, orders)
      ensures TakenFrom(g.orders, orders)
    {
      ReturnedTaken(c, orders, g);
    }
    if DistinctIds(orders) {
      forall g | g in Analyzed(c, orders)
        ensures DistinctIds(g.orders)
      {
        ReturnedIds(c, orders, g);
      }
    }
  }

  lemma WithinSorted(part: seq<PurchaseOrder>, orders: seq<PurchaseOrder>, lo: int, hi: int)
    requires Within(part, ByDate(orders), lo, hi)
    ensures Within(part, orders, lo, hi)
  {
    SortByCorrect(orders, DateKey);
    forall i | 0 <= i < |part|
      ensures part[i] in orders
    {
      assert part[i] in multiset(ByDate(orders));
      assert part[i] in multiset(orders);
    }
  }

  lemma SoundMember(c: Context, source: seq<PurchaseOrder>, groups: seq<GroupData>, g: GroupData)
    requires All(groups, Sound(c, source)) && g in groups
    ensures GroupOk(c, source, g)
  {
    var k :| 0 <= k < |groups| && groups[k] == g;
    assert Sound(c, source)(groups[k]);
  }

  lemma ReturnedWasWalked(c: Context, orders: seq<PurchaseOrder>, g: GroupData)
    requires g in Analyzed(c, orders)
    ensures |ByDate(orders)| == |orders| && g in Windows(c, ByDate(orders))
    ensures GroupOk(c, ByDate(orders), g) && IsValidSplittingGroup(g)
  {
    var sorted := ByDate(orders);
    WalkResults(c, orders);
    var walked := Windows(c, sorted);
    ValidGroupsMember(walked, g);
    SortByMember(ValidGroups(walked), NegatedRisk, g);
    SoundMember(c, sorted, walked, g);
  }

  lemma NoSharedDay(groups: seq<GroupData>, i: nat, j: nat, day: int)
    requires PairwiseDisjoint(groups) && i < j < |groups|
    ensures !(groups[i].windowStart <= day <= groups[i].windowEnd
              && groups[j].windowStart <= day <= groups[j].windowEnd)
  {
    assert DisjointWindows(groups[i], groups[j]);
  }

  /** An order belongs to at most one returned group. */
  lemma OrderInOneGroup(c: Context, orders: seq<PurchaseOrder>, i: nat, j: nat, p: PurchaseOrder)
    requires i < |Analyzed(c, orders)| && j < |Analyzed(c, orders)|
    requires p in Analyzed(c, orders)[i].orders && p in Analyzed(c, orders)[j].orders
    ensures i == j
  {
    var groups := Analyzed(c, orders);
    WindowsAreDisjoint(c, orders);
    assert groups[i] in groups && groups[j] in groups;
    if i < j {
      NoSharedDay(groups, i, j, p.date);
    } else if j < i {
      NoSharedDay(groups, j, i, p.date);
    }
  }

  ghost predicate Consistent(g: GroupData) {
    && MetricsCurrent(g) && PatternRule(g.patterns)
    && (var sorted := ByDate(g.orders);
        g.metrics.days.value.average == (sorted[|sorted| - 1].date - sorted[0].date) as real / (|g.orders| - 1) as real)
    && g.riskScore == CalculateRiskScore(g) && 0.0 <= g.riskScore <= 1.0
    && g.isHighRisk == (g.riskScore > 0.7)
    && (g.isHighRisk ==> g.metrics.total > g.reviewThreshold > 0.0)
  }

  lemma OkIsConsistent(c: Context, source: seq<PurchaseOrder>, g: GroupData)
    requires GroupOk(c, source, g)
    ensures Consistent(g)
  {
    AverageGap(g.orders);
    RiskIsAScore(g);
    if g.isHighRisk {
      HighRiskExceeds(g);
    }
  }

  /** Every returned group, merges included: at least three orders; sequential splitting or a frequency spike
      implies temporal clustering; the average gap is (last date - first date) / (n - 1); and the risk is the
      score of the final group, between 0 and 1; a group marked as high risk exceeds its positive threshold. */
  lemma ReturnedGroupsConsistent(c: Context, orders: seq<PurchaseOrder>, g: GroupData)
    requires g in Analyzed(c, orders)
    ensures Consistent(g)
  {
    ReturnedWasWalked(c, orders, g);
    OkIsConsistent(c, ByDate(orders), g);
  }

  /** The groups come in descending order of risk. */
  lemma ReturnedByRisk(c: Context, orders: seq<PurchaseOrder>, i: nat, j: nat)
    requires i < j < |Analyzed(c, orders)|
    ensures Analyzed(c, orders)[i].riskScore >= Analyzed(c, orders)[j].riskScore
  {
    var sorted := ByDate(orders);
    var valid := ValidGroups(Windows(c, sorted));
    SortByCorrect(valid, NegatedRisk);
    assert NegatedRisk(SortBy(valid, NegatedRisk)[i]) <= NegatedRisk(SortBy(valid, NegatedRisk)[j]);
  }
}

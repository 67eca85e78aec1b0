/** Sequential splitting: the greedy segmentation of below-threshold orders, and the groups made from it. */
module PatternDetector {
  import opened Options
  import opened RealSums
  import opened Selections
  import opened Sequences
  import opened Sorting
  import opened SplittingGroup

  const MIN_SAMPLES := 3
  const CLUSTERING_DAYS := 3

  type Orders = seq<PurchaseOrder>

  // ---------------------------------------------------------------------------------------------
  // The segmentation
  // ---------------------------------------------------------------------------------------------

  /** The segments closed from here on, with `current` still open. */
  function Segments(current: Orders, rest: Orders, threshold: real): seq<Orders>
    decreases |rest|
  {
    if rest == [] then if current == [] then [] else [current]
    else
      var p := rest[0];
      if p.amount >= threshold then
        var later := Segments([], rest[1..], threshold);
        if current == [] then later else [current] + later
      else if current == [] then Segments([p], rest[1..], threshold)
      else if p.date - current[0].date <= CLUSTERING_DAYS then Segments(current + [p], rest[1..], threshold)
      else [current] + Segments([p], rest[1..], threshold)
  }

  function MinDate(orders: Orders): int
    requires orders != []
  {
    if |orders| == 1 then orders[0].date
    else
      var m := MinDate(orders[..|orders| - 1]);
      if orders[|orders| - 1].date < m then orders[|orders| - 1].date else m
  }

  function MaxDate(orders: Orders): int
    requires orders != []
  {
    if |orders| == 1 then orders[0].date
    else
      var m := MaxDate(orders[..|orders| - 1]);
      if orders[|orders| - 1].date > m then orders[|orders| - 1].date else m
  }

  function AtMostOne(x: real): real { if x <= 1.0 then x else 1.0 }
  function AtLeastZero(x: real): real { if x >= 0.0 then x else 0.0 }

  function SequentialRisk(g: GroupData): real {
    if g.orders == [] then 0.0
    else
      var m := g.metrics;
      var count := AtMostOne((m.poCount - MIN_SAMPLES) as real / 5.0);
      var density := if m.days.Some? then AtLeastZero(1.0 - m.days.value.average / 7.0) else 0.0;
      var exceed :=
        if m.thresholdExceeded && g.reviewThreshold > 0.0 then AtMostOne(m.exceededBy / g.reviewThreshold) else 0.0;
      AtMostOne(count * 0.30 + density * 0.30 + exceed * 0.40)
  }

  datatype Context = Context(vendorId: string, departmentId: string, threshold: real, sqrt: RootFunction)

  /** The group made from a segment, whether or not it is returned. */
  function SegmentGroup(c: Context, segment: Orders): GroupData
    requires segment != []
  {
    var metrics := MetricsOf(segment, c.threshold, c.sqrt, NO_METRICS.(poCount := |segment|));
    var g := GroupData(c.vendorId, c.departmentId, MinDate(segment), MaxDate(segment), segment, c.threshold,
                       metrics, {SequentialSplitting}, 0.0, false);
    g.(riskScore := SequentialRisk(g), isHighRisk := SequentialRisk(g) > 0.7)
  }

  predicate Reported(c: Context, segment: Orders) {
    |segment| >= MIN_SAMPLES && SegmentGroup(c, segment).metrics.thresholdExceeded
  }

  function Finalized(c: Context, segments: seq<Orders>): seq<GroupData> {
    if segments == [] then []
    else
      var earlier, last := Finalized(c, segments[..|segments| - 1]), segments[|segments| - 1];
      if Reported(c, last) then earlier + [SegmentGroup(c, last)] else earlier
  }

  function Detected(c: Context, orders: Orders): seq<GroupData> {
    if |orders| < MIN_SAMPLES then [] else Finalized(c, Segments([], ByDate(orders), c.threshold))
  }

  // ---------------------------------------------------------------------------------------------
  // The detector
  // ---------------------------------------------------------------------------------------------

  class Detector {

    constructor ()
    {
    }

    method DetectSequentialSplitting(c: Context, orders: Orders) returns (results: seq<GroupData>)
      ensures results == Detected(c, orders)
    {
      if |orders| < MIN_SAMPLES {
        return [];
      }
      var sorted := ByDate(orders);
      results := [];
      var current: Orders := [];
      var currentStart := 0;
      ghost var segments: seq<Orders> := [];
      ghost var whole := Segments([], sorted, c.threshold);
      assert sorted[0..] == sorted && [] + whole == whole;
      for i := 0 to |sorted|
        invariant segments + Segments(current, sorted[i..], c.threshold) == whole
        invariant results == Finalized(c, segments)
        invariant current != [] ==> currentStart == current[0].date
      {
        var po := sorted[i];
        DropOne(sorted, i);
        ghost var rest := sorted[i + 1..];
        if po.amount >= c.threshold {
          if current != [] {
            results := FinalizeGroup(c, current, results, segments);
            Reassociate(segments, [current], Segments([], rest, c.threshold));
            segments := segments + [current];
            current := [];
          }
        } else if current == [] {
          current, currentStart := [po], po.date;
        } else if po.date - currentStart <= CLUSTERING_DAYS {
          current := current + [po];
        } else {
          results := FinalizeGroup(c, current, results, segments);
          Reassociate(segments, [current], Segments([po], rest, c.threshold));
          segments := segments + [current];
          current, currentStart := [po], po.date;
        }
      }
      if current != [] {
        results := FinalizeGroup(c, current, results, segments);
      } else {
        assert segments + [] == segments;
      }
    }

    method FinalizeGroup(c: Context, segment: Orders, results: seq<GroupData>, ghost segments: seq<Orders>)
      returns (results': seq<GroupData>)
      requires segment != [] && results == Finalized(c, segments)
      ensures results' == Finalized(c, segments + [segment])
    {
      assert (segments + [segment])[..|segments|] == segments;
      if |segment| < MIN_SAMPLES {
        return results;
      }
      var group := new ContractSplittingGroup(
        c.vendorId, c.departmentId, MinDate(segment), MaxDate(segment), segment, c.threshold, c.sqrt);
      group.CalculateMetrics();
      group.patterns := {SequentialSplitting};
      var risk := SequentialRisk(group.View());
      group.riskScore := risk;
      group.isHighRisk := risk > 0.7;
      assert group.View() == SegmentGroup(c, segment);
      if group.metrics.thresholdExceeded || |group.patterns| > 1 {
        return results + [group.View()];
      }
      return results;
    }
  }

  // ---------------------------------------------------------------------------------------------
  // The segments are exactly the below-threshold orders, in date order
  // ---------------------------------------------------------------------------------------------

  function Flatten(segments: seq<Orders>): Orders {
    if segments == [] then [] else segments[0] + Flatten(segments[1..])
  }

  function Below(orders: Orders, threshold: real): Orders {
    if orders == [] then []
    else if orders[0].amount < threshold then [orders[0]] + Below(orders[1..], threshold)
    else Below(orders[1..], threshold)
  }

  lemma FlattenCons(s: Orders, segments: seq<Orders>)
    ensures Flatten([s] + segments) == s + Flatten(segments)
  {
    assert ([s] + segments)[1..] == segments;
  }

  /** Joined together, the segments are the open one followed by every later order below the threshold. */
  lemma {:induction false} SegmentsJoin(current: Orders, rest: Orders, threshold: real)
    ensures Flatten(Segments(current, rest, threshold)) == current + Below(rest, threshold)
    decreases |rest|
  {
    if rest == [] {
      if current != [] {
        FlattenCons(current, []);
      }
      assert current + [] == current;
    } else {
      var p, later := rest[0], rest[1..];
      if p.amount >= threshold {
        SegmentsJoin([], later, threshold);
        EmptyHead(Below(later, threshold));
        if current == [] {
          EmptyHead(Below(rest, threshold));
        } else {
          FlattenCons(current, Segments([], later, threshold));
        }
      } else if current == [] {
        SegmentsJoin([p], later, threshold);
        EmptyHead(Below(rest, threshold));
      } else if p.date - current[0].date <= CLUSTERING_DAYS {
        SegmentsJoin(current + [p], later, threshold);
        Reassociate(current, [p], Below(later, threshold));
      } else {
        SegmentsJoin([p], later, threshold);
        FlattenCons(current, Segments([p], later, threshold));
      }
    }
  }

  ghost predicate DatesAscend(orders: Orders) {
    forall i, j | 0 <= i < j < |orders| :: orders[i].date <= orders[j].date
  }

  /** A possible segment: not empty, below the threshold, spanning at most three days from its first order. */
  ghost predicate IsSegment(s: Orders, threshold: real) {
    && s != []
    && forall i | 0 <= i < |s| :: s[i].amount < threshold && s[i].date - s[0].date <= 3
  }

  lemma {:induction false} SegmentsSpan(current: Orders, rest: Orders, threshold: real)
    requires current == [] || IsSegment(current, threshold)
    ensures forall s | s in Segments(current, rest, threshold) :: IsSegment(s, threshold)
    decreases |rest|
  {
    if rest != [] {
      var p, later := rest[0], rest[1..];
      if p.amount >= threshold {
        SegmentsSpan([], later, threshold);
      } else if current == [] {
        SegmentsSpan([p], later, threshold);
      } else if p.date - current[0].date <= CLUSTERING_DAYS {
        SegmentsSpan(current + [p], later, threshold);
      } else {
        SegmentsSpan([p], later, threshold);
      }
    }
  }

  // ---------------------------------------------------------------------------------------------
  // The greedy cut uses the fewest segments
  // ---------------------------------------------------------------------------------------------

  /** `segments` is some way to cut the below-threshold orders of `orders` into consecutive segments, none of
      which crosses an order at or above the threshold. */
  ghost predicate IsCut(orders: Orders, segments: seq<Orders>, threshold: real)
    decreases |orders|
  {
    if orders == [] then segments == []
    else if orders[0].amount >= threshold then IsCut(orders[1..], segments, threshold)
    else
      && segments != [] && IsSegment(segments[0], threshold) && segments[0] <= orders
      && IsCut(orders[|segments[0]|..], segments[1..], threshold)
  }

  /** How many new segments the greedy rule opens, with a segment open since `start`, or none. */
  function Opened(start: Option<int>, rest: Orders, threshold: real): nat
    decreases |rest|
  {
    if rest == [] then 0
    else
      var p := rest[0];
      if p.amount >= threshold then Opened(None, rest[1..], threshold)
      else if start.Some? && p.date - start.value <= CLUSTERING_DAYS then Opened(start, rest[1..], threshold)
      else 1 + Opened(Some(p.date), rest[1..], threshold)
  }

  function StartOf(current: Orders): Option<int> {
    if current == [] then None else Some(current[0].date)
  }

  lemma {:induction false} SegmentsAreOpened(current: Orders, rest: Orders, threshold: real)
    ensures |Segments(current, rest, threshold)|
            == (if current == [] then 0 else 1) + Opened(StartOf(current), rest, threshold)
    decreases |rest|
  {
    if rest != [] {
      var p, later := rest[0], rest[1..];
      if p.amount >= threshold {
        SegmentsAreOpened([], later, threshold);
      } else if current != [] && p.date - current[0].date <= CLUSTERING_DAYS {
        SegmentsAreOpened(current + [p], later, threshold);
        assert StartOf(current + [p]) == StartOf(current);
      } else {
        SegmentsAreOpened([p], later, threshold);
      }
    }
  }

  ghost predicate StartsBefore(t: int, rest: Orders) {
    forall i | 0 <= i < |rest| :: t <= rest[i].date
  }

  /** A segment opened later reaches further: it never needs more new segments, and saves at most one. */
  lemma {:induction false} LaterStartHelps(t: int, t': int, rest: Orders, threshold: real)
    requires t <= t' && DatesAscend(rest) && StartsBefore(t', rest)
    ensures Opened(Some(t'), rest, threshold) <= Opened(Some(t), rest, threshold)
            <= 1 + Opened(Some(t'), rest, threshold)
    decreases |rest|
  {
    if rest != [] && rest[0].amount < threshold {
      var p, later := rest[0], rest[1..];
      if p.date - t <= CLUSTERING_DAYS {
        LaterStartHelps(t, t', later, threshold);
      } else {
        LaterStartHelps(t', p.date, later, threshold);
      }
    }
  }

  /** An open segment never costs more than having none. */
  lemma {:induction false} OpenSegmentHelps(t: int, rest: Orders, threshold: real)
    requires DatesAscend(rest) && StartsBefore(t, rest)
    ensures Opened(Some(t), rest, threshold) <= Opened(None, rest, threshold)
  {
    if rest != [] && rest[0].amount < threshold && rest[0].date - t <= CLUSTERING_DAYS {
      LaterStartHelps(t, rest[0].date, rest[1..], threshold);
    }
  }

  /** Orders that fit into the open segment open nothing. */
  lemma {:induction false} FittingOrdersOpenNothing(t: int, rest: Orders, k: nat, threshold: real)
    requires k <= |rest|
    requires forall i | 0 <= i < k :: rest[i].amount < threshold && rest[i].date - t <= CLUSTERING_DAYS
    ensures Opened(Some(t), rest, threshold) == Opened(Some(t), rest[k..], threshold)
    decreases k
  {
    if k > 0 {
      FittingOrdersOpenNothing(t, rest[1..], k - 1, threshold);
      assert rest[1..][k - 1..] == rest[k..];
    } else {
      assert rest[0..] == rest;
    }
  }

  /** Every cut of date-ordered orders has at least as many segments as the greedy rule opens. */
  lemma {:induction false} GreedyIsMinimal(orders: Orders, segments: seq<Orders>, threshold: real)
    requires DatesAscend(orders) && IsCut(orders, segments, threshold)
    ensures Opened(None, orders, threshold) <= |segments|
    decreases |orders|
  {
    if orders != [] {
      if orders[0].amount >= threshold {
        GreedyIsMinimal(orders[1..], segments, threshold);
      } else {
        var first := segments[0];
        var k := |first|;
        var t, after := orders[0].date, orders[k..];
        assert forall i | 0 <= i < k :: orders[i] == first[i];
        FittingOrdersOpenNothing(t, orders, k, threshold);
        OpenSegmentHelps(t, after, threshold);
        GreedyIsMinimal(after, segments[1..], threshold);
        assert Opened(None, orders, threshold) == 1 + Opened(Some(t), orders[1..], threshold);
        assert Opened(Some(t), orders, threshold) == Opened(Some(t), orders[1..], threshold);
      }
    }
  }

  lemma SortedDates(orders: Orders)
    ensures DatesAscend(ByDate(orders))
  {
    SortByCorrect(orders, DateKey);
    var s := ByDate(orders);
    assert forall i, j | 0 <= i < j < |s| :: DateKey(s[i]) <= DateKey(s[j]);
  }

  lemma CutStartsWith(s: Orders, rest: Orders, segments: seq<Orders>, threshold: real)
    requires IsSegment(s, threshold) && IsCut(rest, segments, threshold)
    ensures IsCut(s + rest, [s] + segments, threshold)
  {
    assert (s + rest)[|s|..] == rest;
    assert ([s] + segments)[1..] == segments;
  }

  /** The greedy segments are themselves such a cut, so the minimum is attained. */
  lemma {:induction false} SegmentsAreACut(current: Orders, rest: Orders, threshold: real)
    requires current == [] || IsSegment(current, threshold)
    ensures IsCut(current + rest, Segments(current, rest, threshold), threshold)
    decreases |rest|
  {
    if rest == [] {
      if current != [] {
        CutStartsWith(current, [], [], threshold);
      }
    } else {
      var p, later := rest[0], rest[1..];
      assert rest == [p] + later;
      Reassociate(current, [p], later);
      if p.amount >= threshold {
        SegmentsAreACut([], later, threshold);
        EmptyHead(later);
        EmptyHead(rest);
        if current != [] {
          CutStartsWith(current, rest, Segments([], later, threshold), threshold);
        }
      } else if current == [] {
        EmptyHead(rest);
        SegmentsAreACut([p], later, threshold);
      } else if p.date - current[0].date <= CLUSTERING_DAYS {
        SegmentsAreACut(current + [p], later, threshold);
      } else {
        SegmentsAreACut([p], later, threshold);
        CutStartsWith(current, rest, Segments([p], later, threshold), threshold);
      }
    }
  }

  /** Main result on the segmentation: joined, the segments are the below-threshold orders in date order;
      each spans at most three days; they are a cut that respects the orders at or above the threshold; and no
      other such cut has fewer. */
  lemma SegmentationExact(orders: Orders, threshold: real)
    ensures var sorted := ByDate(orders); var segments := Segments([], sorted, threshold);
            && Flatten(segments) == Below(sorted, threshold)
            && (forall s | s in segments :: IsSegment(s, threshold))
            && IsCut(sorted, segments, threshold)
            && forall other | IsCut(sorted, other, threshold) :: |segments| <= |other|
  {
    var sorted := ByDate(orders);
    SegmentsJoin([], sorted, threshold);
    EmptyHead(Below(sorted, threshold));
    SegmentsSpan([], sorted, threshold);
    SegmentsAreOpened([], sorted, threshold);
    SegmentsAreACut([], sorted, threshold);
    EmptyHead(sorted);
    SortedDates(orders);
    forall other | IsCut(sorted, other, threshold)
      ensures Opened(None, sorted, threshold) <= |other|
    {
      GreedyIsMinimal(sorted, other, threshold);
    }
  }

  // ---------------------------------------------------------------------------------------------
  // The returned groups
  // ---------------------------------------------------------------------------------------------

  lemma {:induction false} FinalizedMembers(c: Context, segments: seq<Orders>, g: GroupData)
    ensures g in Finalized(c, segments) <==> exists s :: s in segments && Reported(c, s) && g == SegmentGroup(c, s)
  {
    if segments != [] {
      var n := |segments| - 1;
      FinalizedMembers(c, segments[..n], g);
      assert segments == segments[..n] + [segments[n]];
    }
  }

  lemma SegmentRisk(c: Context, segment: Orders)
    requires |segment| >= MIN_SAMPLES
    ensures 0.0 <= SegmentGroup(c, segment).riskScore <= 1.0
  {
    SortByCorrect(segment, DateKey);
    AverageGap(segment);
    var g := SegmentGroup(c, segment);
    if g.metrics.thresholdExceeded && g.reviewThreshold > 0.0 {
      ExcessRatio(g.metrics.exceededBy, g.reviewThreshold);
    }
  }

  lemma ExcessRatio(x: real, y: real)
    requires x >= 0.0 && y > 0.0
    ensures x / y >= 0.0
  {
  }

  /** A returned group is one segment: at least three orders, each below the threshold, within three days of
      the first, together above the threshold; its risk is between 0 and 1. And every segment like that is
      returned. */
  lemma DetectedExact(c: Context, orders: Orders, g: GroupData)
    requires |orders| >= 3
    ensures g in Detected(c, orders) ==>
              && IsSegment(g.orders, c.threshold) && |g.orders| >= 3
              && Sum(Amounts(g.orders)) > c.threshold > 0.0
              && g.metrics.total == Sum(Amounts(g.orders))
              && 0.0 <= g.riskScore <= 1.0
    ensures g in Detected(c, orders) <==>
            exists s :: && s in Segments([], ByDate(orders), c.threshold)
                        && |s| >= 3 && Sum(Amounts(s)) > c.threshold
                        && g == SegmentGroup(c, s)
  {
    var segments := Segments([], ByDate(orders), c.threshold);
    FinalizedMembers(c, segments, g);
    SegmentsSpan([], ByDate(orders), c.threshold);
    forall s: Orders | s in segments
      ensures Reported(c, s) <==> |s| >= 3 && Sum(Amounts(s)) > c.threshold
      ensures c.threshold > 0.0
    {
      assert s[0].amount < c.threshold;
    }
    if g in Detected(c, orders) {
      var s :| s in segments && Reported(c, s) && g == SegmentGroup(c, s);
      SegmentRisk(c, s);
    }
  }

  /** The segments that are returned. */
  ghost function Qualifies(segments: seq<Orders>, threshold: real): nat -> bool {
    (i: nat) => i < |segments| && |segments[i]| >= 3 && Sum(Amounts(segments[i])) > threshold
  }

  ghost function GroupOf(c: Context, segments: seq<Orders>): (nat, GroupData) -> bool {
    (i: nat, g: GroupData) => i < |segments| && segments[i] != [] && g == SegmentGroup(c, segments[i])
  }

  lemma ReportedExact(c: Context, segment: Orders)
    requires segment != [] && c.threshold > 0.0
    ensures Reported(c, segment) <==> |segment| >= 3 && Sum(Amounts(segment)) > c.threshold
  {
  }

  lemma {:induction false} FinalizedList(c: Context, segments: seq<Orders>, n: nat)
    requires n <= |segments|
    requires forall i | 0 <= i < |segments| :: segments[i] != [] && segments[i][0].amount < c.threshold
    ensures Lists(n, Qualifies(segments, c.threshold), Finalized(c, segments[..n]), GroupOf(c, segments))
  {
    if n == 0 {
      ListsNone(Qualifies(segments, c.threshold), GroupOf(c, segments));
    } else {
      FinalizedList(c, segments, n - 1);
      assert segments[..n][..n - 1] == segments[..n - 1];
      ReportedExact(c, segments[n - 1]);
      ListsNext(n - 1, Qualifies(segments, c.threshold), Finalized(c, segments[..n - 1]), GroupOf(c, segments),
                SegmentGroup(c, segments[n - 1]));
    }
  }

  /** The result as a list: one group for exactly each segment of three or more orders that add up to more than the
      threshold, in the order of the segments. */
  lemma DetectedInOrder(c: Context, orders: Orders)
    requires |orders| >= 3
    ensures var segments := Segments([], ByDate(orders), c.threshold);
            Lists(|segments|, Qualifies(segments, c.threshold), Detected(c, orders), GroupOf(c, segments))
  {
    var segments: seq<Orders> := Segments([], ByDate(orders), c.threshold);
    SegmentsSpan([], ByDate(orders), c.threshold);
    forall i | 0 <= i < |segments|
      ensures segments[i] != [] && segments[i][0].amount < c.threshold
    {
      assert segments[i] in segments;
    }
    FinalizedList(c, segments, |segments|);
    assert segments[..|segments|] == segments;
  }

  /** Fewer than three orders give nothing. */
  lemma FewOrdersNothing(c: Context, orders: Orders)
    requires |orders| < 3
    ensures Detected(c, orders) == []
  {
  }
}

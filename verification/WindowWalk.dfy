/** The walk over windows in date order: each candidate group is merged into the first group whose window
    overlaps, or appended. How two groups merge is a parameter here. */
module WindowWalk {
  import opened Options
  import opened SplittingGroup

  type Merge = (GroupData, GroupData) -> GroupData

  predicate WindowsOverlap(s1: int, e1: int, s2: int, e2: int) {
    (if s1 >= s2 then s1 else s2) <= (if e1 <= e2 then e1 else e2)
  }

  predicate Mergeable(g: GroupData, newGroup: GroupData) {
    && g.vendorId == newGroup.vendorId && g.departmentId == newGroup.departmentId
    && WindowsOverlap(g.windowStart, g.windowEnd, newGroup.windowStart, newGroup.windowEnd)
  }

  /** The first group that the new one can be merged into, or the number of groups. */
  function FirstMergeable(groups: seq<GroupData>, newGroup: GroupData): (k: nat)
    ensures k <= |groups|
    ensures k < |groups| ==> Mergeable(groups[k], newGroup)
    ensures forall j | 0 <= j < k :: !Mergeable(groups[j], newGroup)
  {
    if groups == [] then 0
    else
      var k := FirstMergeable(groups[..|groups| - 1], newGroup);
      if k < |groups| - 1 then k
      else if Mergeable(groups[|groups| - 1], newGroup) then |groups| - 1 else |groups|
  }

  function Absorbed(groups: seq<GroupData>, newGroup: GroupData, merge: Merge): seq<GroupData> {
    var k := FirstMergeable(groups, newGroup);
    if k < |groups| then groups[k := merge(groups[k], newGroup)] else groups + [newGroup]
  }

  function Stepped(groups: seq<GroupData>, candidate: Option<GroupData>, merge: Merge): seq<GroupData> {
    if candidate.None? then groups else Absorbed(groups, candidate.value, merge)
  }

  function Walk(candidates: seq<Option<GroupData>>, merge: Merge): seq<GroupData> {
    if candidates == [] then []
    else Stepped(Walk(candidates[..|candidates| - 1], merge), candidates[|candidates| - 1], merge)
  }

  lemma WalkStep(candidates: seq<Option<GroupData>>, i: nat, merge: Merge)
    requires i < |candidates|
    ensures Walk(candidates[..i + 1], merge) == Stepped(Walk(candidates[..i], merge), candidates[i], merge)
  {
    assert candidates[..i + 1][..i] == candidates[..i];
  }

  // ---------------------------------------------------------------------------------------------
  // What every group keeps
  // ---------------------------------------------------------------------------------------------

  ghost predicate All(groups: seq<GroupData>, ok: GroupData -> bool) {
    forall k | 0 <= k < |groups| :: ok(groups[k])
  }

  ghost predicate AllCandidates(candidates: seq<Option<GroupData>>, ok: GroupData -> bool) {
    forall i | 0 <= i < |candidates| :: candidates[i].Some? ==> ok(candidates[i].value)
  }

  ghost predicate MergeKeeps(merge: Merge, ok: GroupData -> bool) {
    forall g, s | ok(g) && ok(s) :: ok(merge(g, s))
  }

  lemma AbsorbedKeeps(groups: seq<GroupData>, g: GroupData, merge: Merge, ok: GroupData -> bool)
    requires All(groups, ok) && ok(g) && MergeKeeps(merge, ok)
    ensures All(Absorbed(groups, g, merge), ok)
  {
  }

  /** A property of the candidates that merging keeps holds of all groups. */
  lemma {:induction false} WalkKeeps(candidates: seq<Option<GroupData>>, merge: Merge, ok: GroupData -> bool)
    requires AllCandidates(candidates, ok) && MergeKeeps(merge, ok)
    ensures All(Walk(candidates, merge), ok)
  {
    if candidates != [] {
      var init, last := candidates[..|candidates| - 1], candidates[|candidates| - 1];
      WalkKeeps(init, merge, ok);
      if last.Some? {
        AbsorbedKeeps(Walk(init, merge), last.value, merge, ok);
      }
    }
  }

  // ---------------------------------------------------------------------------------------------
  // The windows stay apart
  // ---------------------------------------------------------------------------------------------

  /** Merging gives the smallest window around both. */
  ghost predicate MergesWindows(merge: Merge) {
    forall g, s ::
      && merge(g, s).windowStart == (if s.windowStart < g.windowStart then s.windowStart else g.windowStart)
      && merge(g, s).windowEnd == (if s.windowEnd > g.windowEnd then s.windowEnd else g.windowEnd)
  }

  /** All candidates are of one vendor and department, and no window is empty. */
  ghost predicate OneParty(ok: GroupData -> bool, vendorId: string, departmentId: string) {
    forall g | ok(g) :: g.vendorId == vendorId && g.departmentId == departmentId && g.windowStart <= g.windowEnd
  }

  /** What the lemmas below assume of the property `ok` and of merging. */
  ghost predicate Rules(merge: Merge, ok: GroupData -> bool, vendorId: string, departmentId: string) {
    OneParty(ok, vendorId, departmentId) && MergeKeeps(merge, ok) && MergesWindows(merge)
  }

  /** The groups' windows follow one another without touching, and none starts after `latest`. */
  ghost predicate Apart(groups: seq<GroupData>, latest: int) {
    && (forall k, l | 0 <= k < l < |groups| :: groups[k].windowEnd < groups[l].windowStart)
    && (forall k | 0 <= k < |groups| :: groups[k].windowStart <= latest)
  }

  /** Anchors come in date order, so a new group can only ever be merged into the last one. */
  lemma OnlyLastMerges(groups: seq<GroupData>, g: GroupData,
                       ok: GroupData -> bool, vendorId: string, departmentId: string)
    requires OneParty(ok, vendorId, departmentId) && All(groups, ok) && ok(g) && Apart(groups, g.windowStart)
    ensures FirstMergeable(groups, g) >= |groups| - 1
    ensures groups != [] ==>
              (FirstMergeable(groups, g) == |groups| <==> groups[|groups| - 1].windowEnd < g.windowStart)
  {
    forall j | 0 <= j < |groups| - 1
      ensures !Mergeable(groups[j], g)
    {
      assert groups[j].windowEnd < groups[|groups| - 1].windowStart <= g.windowStart;
    }
    if groups != [] {
      assert ok(groups[|groups| - 1]);
    }
  }

  lemma ReplaceApart(groups: seq<GroupData>, g: GroupData, latest: int)
    requires groups != [] && Apart(groups, latest) && g.windowStart == groups[|groups| - 1].windowStart
    ensures Apart(groups[|groups| - 1 := g], latest)
  {
    var after := groups[|groups| - 1 := g];
    assert forall j | 0 <= j < |groups| - 1 :: after[j] == groups[j];
  }

  lemma AppendApart(groups: seq<GroupData>, g: GroupData)
    requires Apart(groups, g.windowStart) && (groups != [] ==> groups[|groups| - 1].windowEnd < g.windowStart)
    ensures Apart(groups + [g], g.windowStart)
  {
    var after := groups + [g];
    assert forall j | 0 <= j < |groups| :: after[j] == groups[j];
    forall j | 0 <= j < |groups|
      ensures groups[j].windowEnd < g.windowStart
    {
      if j < |groups| - 1 {
        assert groups[j].windowEnd < groups[|groups| - 1].windowStart <= g.windowStart;
      }
    }
  }

  lemma AbsorbedApart(groups: seq<GroupData>, g: GroupData, merge: Merge, ok: GroupData -> bool,
                      vendorId: string, departmentId: string)
    requires Rules(merge, ok, vendorId, departmentId) && All(groups, ok) && ok(g) && Apart(groups, g.windowStart)
    ensures Apart(Absorbed(groups, g, merge), g.windowStart)
  {
    OnlyLastMerges(groups, g, ok, vendorId, departmentId);
    var k := FirstMergeable(groups, g);
    if k < |groups| {
      ReplaceApart(groups, merge(groups[k], g), g.windowStart);
    } else {
      AppendApart(groups, g);
    }
  }

  /** The candidates' windows start in ascending order, the last at `latest` at the latest. */
  ghost predicate StartsAscend(candidates: seq<Option<GroupData>>, latest: int) {
    && (forall i, j | 0 <= i < j < |candidates| ::
          candidates[i].Some? && candidates[j].Some? ==>
            candidates[i].value.windowStart <= candidates[j].value.windowStart)
    && (forall i | 0 <= i < |candidates| :: candidates[i].Some? ==> candidates[i].value.windowStart <= latest)
  }

  lemma StartsBeforeLast(candidates: seq<Option<GroupData>>, latest: int)
    requires candidates != [] && StartsAscend(candidates, latest)
    ensures var last := candidates[|candidates| - 1];
            StartsAscend(candidates[..|candidates| - 1], if last.Some? then last.value.windowStart else latest)
  {
  }

  /** The windows of the groups never touch. */
  lemma {:induction false} WalkApart(candidates: seq<Option<GroupData>>, merge: Merge, ok: GroupData -> bool,
                                     vendorId: string, departmentId: string, latest: int)
    requires Rules(merge, ok, vendorId, departmentId)
    requires AllCandidates(candidates, ok) && StartsAscend(candidates, latest)
    ensures Apart(Walk(candidates, merge), latest)
  {
    if candidates != [] {
      var init, last := candidates[..|candidates| - 1], candidates[|candidates| - 1];
      StartsBeforeLast(candidates, latest);
      WalkKeeps(init, merge, ok);
      if last.Some? {
        WalkApart(init, merge, ok, vendorId, departmentId, last.value.windowStart);
        AbsorbedApart(Walk(init, merge), last.value, merge, ok, vendorId, departmentId);
      } else {
        WalkApart(init, merge, ok, vendorId, departmentId, latest);
      }
    }
  }

  // ---------------------------------------------------------------------------------------------
  // A group is the union of the candidates whose windows start in it
  // ---------------------------------------------------------------------------------------------

  ghost predicate Hosts(g: GroupData, start: int) {
    g.windowStart <= start <= g.windowEnd
  }

  ghost predicate Contributes(candidates: seq<Option<GroupData>>, i: nat, g: GroupData, has: GroupData -> bool) {
    i < |candidates| && candidates[i].Some? && Hosts(g, candidates[i].value.windowStart) && has(candidates[i].value)
  }

  ghost predicate UnionOf(g: GroupData, candidates: seq<Option<GroupData>>, has: GroupData -> bool) {
    has(g) <==> exists i :: Contributes(candidates, i, g, has)
  }

  ghost predicate AllUnions(groups: seq<GroupData>, candidates: seq<Option<GroupData>>, has: GroupData -> bool) {
    forall k | 0 <= k < |groups| :: UnionOf(groups[k], candidates, has)
  }

  /** Some group's window holds the start. */
  ghost predicate Hosted(groups: seq<GroupData>, start: int) {
    exists k :: 0 <= k < |groups| && Hosts(groups[k], start)
  }

  ghost predicate AllHosted(groups: seq<GroupData>, candidates: seq<Option<GroupData>>) {
    forall i | 0 <= i < |candidates| :: candidates[i].Some? ==> Hosted(groups, candidates[i].value.windowStart)
  }

  /** Merging has what either group has. */
  ghost predicate MergesContent(merge: Merge, ok: GroupData -> bool, has: GroupData -> bool) {
    forall g, s | ok(g) && ok(s) :: has(merge(g, s)) <==> has(g) || has(s)
  }

  /** A group that does not host the new start keeps its contributors. */
  lemma OthersKeep(g: GroupData, candidates: seq<Option<GroupData>>, newGroup: GroupData, has: GroupData -> bool)
    requires UnionOf(g, candidates, has) && !Hosts(g, newGroup.windowStart)
    ensures UnionOf(g, candidates + [Some(newGroup)], has)
  {
    var longer := candidates + [Some(newGroup)];
    if i: nat :| Contributes(candidates, i, g, has) {
      assert Contributes(longer, i, g, has);
    }
    if i: nat :| Contributes(longer, i, g, has) {
      assert Contributes(candidates, i, g, has);
    }
  }

  /** The group that the new candidate is merged into. */
  lemma MergedUnion(g: GroupData, g': GroupData, candidates: seq<Option<GroupData>>, newGroup: GroupData,
                    has: GroupData -> bool)
    requires UnionOf(g, candidates, has) && StartsAscend(candidates, newGroup.windowStart)
    requires g.windowStart <= newGroup.windowStart <= g.windowEnd <= g'.windowEnd && g'.windowStart == g.windowStart
    requires has(g') <==> has(g) || has(newGroup)
    ensures UnionOf(g', candidates + [Some(newGroup)], has)
  {
    var longer := candidates + [Some(newGroup)];
    if i: nat :| Contributes(candidates, i, g, has) {
      assert Contributes(longer, i, g', has);
    }
    if has(newGroup) {
      assert Contributes(longer, |candidates|, g', has);
    }
    if i: nat :| Contributes(longer, i, g', has) {
      assert i < |candidates| ==> Contributes(candidates, i, g, has);
    }
  }

  /** A candidate that becomes a group of its own: no earlier one starts in its window. */
  lemma NewUnion(groups: seq<GroupData>, candidates: seq<Option<GroupData>>, newGroup: GroupData,
                 has: GroupData -> bool)
    requires AllHosted(groups, candidates) && newGroup.windowStart <= newGroup.windowEnd
    requires forall k | 0 <= k < |groups| :: groups[k].windowEnd < newGroup.windowStart
    ensures UnionOf(newGroup, candidates + [Some(newGroup)], has)
  {
    var longer := candidates + [Some(newGroup)];
    if has(newGroup) {
      assert Contributes(longer, |candidates|, newGroup, has);
    }
    if i: nat :| Contributes(longer, i, newGroup, has) {
      if i < |candidates| {
        assert Hosted(groups, candidates[i].value.windowStart);
      }
    }
  }

  lemma HostedStays(groups: seq<GroupData>, after: seq<GroupData>, start: int)
    requires Hosted(groups, start) && |groups| <= |after|
    requires forall k | 0 <= k < |groups| ::
               after[k].windowStart <= groups[k].windowStart && groups[k].windowEnd <= after[k].windowEnd
    ensures Hosted(after, start)
  {
    var k :| 0 <= k < |groups| && Hosts(groups[k], start);
    assert Hosts(after[k], start);
  }

  lemma AllHostedSnoc(groups: seq<GroupData>, after: seq<GroupData>, candidates: seq<Option<GroupData>>,
                      newGroup: GroupData)
    requires AllHosted(groups, candidates) && |groups| <= |after| && Hosted(after, newGroup.windowStart)
    requires forall k | 0 <= k < |groups| ::
               after[k].windowStart <= groups[k].windowStart && groups[k].windowEnd <= after[k].windowEnd
    ensures AllHosted(after, candidates + [Some(newGroup)])
  {
    forall i | 0 <= i < |candidates| && candidates[i].Some?
      ensures Hosted(after, candidates[i].value.windowStart)
    {
      HostedStays(groups, after, candidates[i].value.windowStart);
    }
  }

  /** The invariant of the walk about contents. */
  ghost predicate Accounted(groups: seq<GroupData>, candidates: seq<Option<GroupData>>, has: GroupData -> bool) {
    AllHosted(groups, candidates) && AllUnions(groups, candidates, has)
  }

  lemma MergeAccounts(groups: seq<GroupData>, candidates: seq<Option<GroupData>>, newGroup: GroupData, g': GroupData,
                      has: GroupData -> bool)
    requires groups != [] && Accounted(groups, candidates, has) && Apart(groups, newGroup.windowStart)
    requires StartsAscend(candidates, newGroup.windowStart)
    requires var g := groups[|groups| - 1];
             && newGroup.windowStart <= g.windowEnd <= g'.windowEnd && g'.windowStart == g.windowStart
             && (has(g') <==> has(g) || has(newGroup))
    ensures Accounted(groups[|groups| - 1 := g'], candidates + [Some(newGroup)], has)
  {
    var n := |groups| - 1;
    var after := groups[n := g'];
    assert UnionOf(groups[n], candidates, has);
    MergedUnion(groups[n], g', candidates, newGroup, has);
    forall k | 0 <= k < n
      ensures UnionOf(after[k], candidates + [Some(newGroup)], has)
    {
      assert groups[k].windowEnd < groups[n].windowStart <= newGroup.windowStart;
      OthersKeep(groups[k], candidates, newGroup, has);
    }
    assert Hosts(after[n], newGroup.windowStart);
    AllHostedSnoc(groups, after, candidates, newGroup);
  }

  lemma AppendAccounts(groups: seq<GroupData>, candidates: seq<Option<GroupData>>, newGroup: GroupData,
                       has: GroupData -> bool)
    requires Accounted(groups, candidates, has) && newGroup.windowStart <= newGroup.windowEnd
    requires forall k | 0 <= k < |groups| :: groups[k].windowEnd < newGroup.windowStart
    ensures Accounted(groups + [newGroup], candidates + [Some(newGroup)], has)
  {
    var after := groups + [newGroup];
    NewUnion(groups, candidates, newGroup, has);
    forall k | 0 <= k < |groups|
      ensures UnionOf(after[k], candidates + [Some(newGroup)], has)
    {
      assert UnionOf(groups[k], candidates, has);
      OthersKeep(groups[k], candidates, newGroup, has);
    }
    assert Hosts(after[|groups|], newGroup.windowStart);
    AllHostedSnoc(groups, after, candidates, newGroup);
  }

  lemma EndsBefore(groups: seq<GroupData>, start: int)
    requires Apart(groups, start) && (groups != [] ==> groups[|groups| - 1].windowEnd < start)
    ensures forall k | 0 <= k < |groups| :: groups[k].windowEnd < start
  {
    forall k | 0 <= k < |groups|
      ensures groups[k].windowEnd < start
    {
      if k < |groups| - 1 {
        assert groups[k].windowEnd < groups[|groups| - 1].windowStart <= start;
      }
    }
  }

  lemma AbsorbedAccounts(groups: seq<GroupData>, candidates: seq<Option<GroupData>>, g: GroupData, merge: Merge,
                         ok: GroupData -> bool, has: GroupData -> bool, vendorId: string, departmentId: string)
    requires Rules(merge, ok, vendorId, departmentId) && MergesContent(merge, ok, has)
    requires All(groups, ok) && ok(g) && Apart(groups, g.windowStart) && StartsAscend(candidates, g.windowStart)
    requires Accounted(groups, candidates, has)
    ensures Accounted(Absorbed(groups, g, merge), candidates + [Some(g)], has)
  {
    OnlyLastMerges(groups, g, ok, vendorId, departmentId);
    var k := FirstMergeable(groups, g);
    if k < |groups| {
      MergeAccounts(groups, candidates, g, merge(groups[k], g), has);
    } else {
      EndsBefore(groups, g.windowStart);
      AppendAccounts(groups, candidates, g, has);
    }
  }

  lemma NoneAccounts(groups: seq<GroupData>, candidates: seq<Option<GroupData>>, has: GroupData -> bool)
    requires Accounted(groups, candidates, has)
    ensures Accounted(groups, candidates + [None], has)
  {
    var longer := candidates + [None];
    forall k | 0 <= k < |groups|
      ensures UnionOf(groups[k], longer, has)
    {
      assert UnionOf(groups[k], candidates, has);
      if i: nat :| Contributes(candidates, i, groups[k], has) {
        assert Contributes(longer, i, groups[k], has);
      }
      if i: nat :| Contributes(longer, i, groups[k], has) {
        assert Contributes(candidates, i, groups[k], has);
      }
    }
  }

  /** After the walk every candidate's window starts in the window of some group, and each group has exactly
      what the candidates whose windows start in its window have. */
  lemma {:induction false} WalkAccounts(candidates: seq<Option<GroupData>>, merge: Merge, ok: GroupData -> bool,
                                        has: GroupData -> bool, vendorId: string, departmentId: string, latest: int)
    requires Rules(merge, ok, vendorId, departmentId) && MergesContent(merge, ok, has)
    requires AllCandidates(candidates, ok) && StartsAscend(candidates, latest)
    ensures Accounted(Walk(candidates, merge), candidates, has)
  {
    if candidates != [] {
      var init, last := candidates[..|candidates| - 1], candidates[|candidates| - 1];
      var start := if last.Some? then last.value.windowStart else latest;
      assert candidates == init + [last];
      StartsBeforeLast(candidates, latest);
      WalkAccounts(init, merge, ok, has, vendorId, departmentId, start);
      if last.Some? {
        WalkKeeps(init, merge, ok);
        WalkApart(init, merge, ok, vendorId, departmentId, start);
        AbsorbedAccounts(Walk(init, merge), init, last.value, merge, ok, has, vendorId, departmentId);
      } else {
        NoneAccounts(Walk(init, merge), init, has);
      }
    }
  }

  // ---------------------------------------------------------------------------------------------
  // A group that was never merged
  // ---------------------------------------------------------------------------------------------

  ghost predicate IsCandidate(candidates: seq<Option<GroupData>>, i: nat, g: GroupData) {
    i < |candidates| && candidates[i] == Some(g)
  }

  /** The window of candidate `i` starts in the window of `g`. */
  ghost predicate StartsIn(candidates: seq<Option<GroupData>>, i: nat, g: GroupData) {
    i < |candidates| && candidates[i].Some? && Hosts(g, candidates[i].value.windowStart)
  }

  ghost predicate TwoStartIn(candidates: seq<Option<GroupData>>, g: GroupData) {
    exists i: nat, j: nat :: i < j && StartsIn(candidates, i, g) && StartsIn(candidates, j, g)
  }

  /** The group is a candidate as it was made, or windows of two candidates start in it. */
  ghost predicate PlainOrMerged(candidates: seq<Option<GroupData>>, g: GroupData) {
    (exists i: nat :: IsCandidate(candidates, i, g)) || TwoStartIn(candidates, g)
  }

  ghost predicate AllPlainOrMerged(groups: seq<GroupData>, candidates: seq<Option<GroupData>>) {
    forall k | 0 <= k < |groups| :: PlainOrMerged(candidates, groups[k])
  }

  lemma PlainStays(candidates: seq<Option<GroupData>>, last: Option<GroupData>, g: GroupData)
    requires PlainOrMerged(candidates, g)
    ensures PlainOrMerged(candidates + [last], g)
  {
    var longer := candidates + [last];
    if i: nat :| IsCandidate(candidates, i, g) {
      assert IsCandidate(longer, i, g);
    } else {
      var i: nat, j: nat :| i < j && StartsIn(candidates, i, g) && StartsIn(candidates, j, g);
      assert StartsIn(longer, i, g) && StartsIn(longer, j, g);
    }
  }

  /** Merging a candidate into a group that it reaches. */
  lemma MergeIsMerged(candidates: seq<Option<GroupData>>, g: GroupData, g': GroupData, newGroup: GroupData)
    requires PlainOrMerged(candidates, g) && g.windowStart <= g.windowEnd
    requires g'.windowStart <= g.windowStart && g.windowEnd <= g'.windowEnd && Hosts(g', newGroup.windowStart)
    ensures PlainOrMerged(candidates + [Some(newGroup)], g')
  {
    var longer, n: nat := candidates + [Some(newGroup)], |candidates|;
    assert exists i: nat :: StartsIn(candidates, i, g) by {
      if i: nat :| IsCandidate(candidates, i, g) {
        assert StartsIn(candidates, i, g);
      }
    }
    var i: nat :| StartsIn(candidates, i, g);
    assert i < n && StartsIn(longer, i, g') && StartsIn(longer, n, g');
  }

  lemma AbsorbedPlainOrMerged(groups: seq<GroupData>, candidates: seq<Option<GroupData>>, g: GroupData, merge: Merge,
                              ok: GroupData -> bool, vendorId: string, departmentId: string)
    requires Rules(merge, ok, vendorId, departmentId) && All(groups, ok) && ok(g)
    requires AllPlainOrMerged(groups, candidates)
    ensures AllPlainOrMerged(Absorbed(groups, g, merge), candidates + [Some(g)])
  {
    var k, after := FirstMergeable(groups, g), Absorbed(groups, g, merge);
    var longer := candidates + [Some(g)];
    forall j | 0 <= j < |groups| && j != k
      ensures PlainOrMerged(longer, after[j])
    {
      assert after[j] == groups[j];
      PlainStays(candidates, Some(g), groups[j]);
    }
    if k < |groups| {
      assert PlainOrMerged(candidates, groups[k]) && ok(groups[k]);
      MergeIsMerged(candidates, groups[k], merge(groups[k], g), g);
    } else {
      assert IsCandidate(longer, |candidates|, g);
    }
  }

  /** After the walk every group is a candidate as it was made, unless two windows start in it. */
  lemma {:induction false} WalkPlainOrMerged(candidates: seq<Option<GroupData>>, merge: Merge, ok: GroupData -> bool,
                                             vendorId: string, departmentId: string)
    requires Rules(merge, ok, vendorId, departmentId) && AllCandidates(candidates, ok)
    ensures AllPlainOrMerged(Walk(candidates, merge), candidates)
  {
    if candidates != [] {
      var init, last := candidates[..|candidates| - 1], candidates[|candidates| - 1];
      assert candidates == init + [last];
      WalkPlainOrMerged(init, merge, ok, vendorId, departmentId);
      if last.Some? {
        WalkKeeps(init, merge, ok);
        AbsorbedPlainOrMerged(Walk(init, merge), init, last.value, merge, ok, vendorId, departmentId);
      } else {
        forall k | 0 <= k < |Walk(init, merge)|
          ensures PlainOrMerged(candidates, Walk(init, merge)[k])
        {
          PlainStays(init, last, Walk(init, merge)[k]);
        }
      }
    }
  }
}

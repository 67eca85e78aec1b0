/** Risk analysis of a built vendor graph. */
module GraphAnalyzer {
  import opened Concentration
  import opened Dicts
  import opened GraphBuilder
  import opened Options
  import opened RealSums
  import opened Sequences
  import opened Sorting

  const DOMINANT_SHARE := 0.20
  const HIGH := 0.7

  datatype Dominant = Dominant(vendorId: string, spend: real, share: real)

  datatype HhiResult = HhiResult(
    departmentId: string, hhi: real, vendorCount: nat, totalSpend: real, level: Level, dominant: seq<Dominant>)

  datatype Indicator = HighVendorConcentration | HighApprovalVolume | FewVendorsHighApprovals

  /** The counts are keyed by the vendors' names. */
  datatype RepeatResult = RepeatResult(
    officialId: string, officialName: string, vendorRepeats: map<string, nat>, score: real, connections: nat,
    indicators: seq<Indicator>)

  datatype RiskPattern =
    | ConcentrationRisk(hhi: real, dominant: seq<Dominant>)
    | RepeatOfficialRisk(result: RepeatResult)
    | OfficialSharingRisk(officialId: string, vendorCount: nat)
    | VendorDominance(vendorId: string, departmentCount: nat)

  datatype RiskReport = RiskReport(patterns: seq<RiskPattern>, highSeverityCount: nat)

  // ---------------------------------------------------------------------------------------------
  // Concentration of a department's spend
  // ---------------------------------------------------------------------------------------------

  function IsSupplyTo(department: string): Edge -> bool {
    (e: Edge) => e.Supplies? && e.target == department
  }

  /** The key under which an edge counts for a department: its vendor. */
  function SupplierTo(department: string): Edge -> Option<string> {
    (e: Edge) => if e.Supplies? && e.target == department then Some(e.source) else None
  }

  const SourceKey: Edge -> Option<string> := (e: Edge) => Some(e.source)
  const TargetKey: Edge -> Option<string> := (e: Edge) => Some(e.target)
  const LatestSpend: (real, Edge) -> real := (x: real, e: Edge) => SpendOn(e)

  function SpendOn(e: Edge): real {
    if e.Supplies? then e.totalSpend else 0.0
  }

  /** Spend by vendor, as the loop over the edges leaves it. */
  function VendorSpend(edges: seq<Edge>, department: string): Dict<string, real> {
    Tally(edges, SupplierTo(department), 0.0, LatestSpend)
  }

  function ShareOf(x: real, total: real): real {
    if total > 0.0 then x / total else 0.0
  }

  function Dominants(spend: Dict<string, real>, total: real, vendors: seq<string>): seq<Dominant> {
    if vendors == [] then []
    else
      var earlier, v := Dominants(spend, total, vendors[..|vendors| - 1]), vendors[|vendors| - 1];
      var x := Get(spend, v, 0.0);
      if ShareOf(x, total) >= DOMINANT_SHARE then earlier + [Dominant(v, x, ShareOf(x, total))] else earlier
  }

  const ShareDescending: Dominant -> real := (x: Dominant) => -x.share

  function HhiOf(edges: seq<Edge>, department: string): HhiResult {
    var spend := VendorSpend(edges, department);
    var values := ValuesAt(spend, spend.keys, 0.0);
    var hhi := CalculateHhi(Shares(values, Sum(values)));
    HhiResult(department, hhi, |spend.keys|, Sum(values), ClassifyHhi(hhi),
              SortBy(Dominants(spend, Sum(values), spend.keys), ShareDescending))
  }

  function HasDepartment(graph: VendorGraph, department: string): bool {
    exists i | 0 <= i < |graph.departments| :: graph.departments[i].id == department
  }

  method AnalyzeHhi(graph: VendorGraph, department: string) returns (r: Result<HhiResult>)
    ensures r == if HasDepartment(graph, department) then Success(HhiOf(graph.edges, department))
                 else Failure(UnknownDepartment)
  {
    if !HasDepartment(graph, department) {
      return Failure(UnknownDepartment);
    }
    var vendorEdges := Filter(graph.edges, IsSupplyTo(department));
    var spend: Dict<string, real> := Dict([], map[]);
    for i := 0 to |vendorEdges|
      invariant spend == Tally(vendorEdges[..i], SourceKey, 0.0, LatestSpend)
    {
      PrefixSnoc(vendorEdges, i);
      var e := vendorEdges[i];
      spend := Put(spend, e.source, SpendOn(e));
    }
    assert vendorEdges[..|vendorEdges|] == vendorEdges;
    TallyFiltered(graph.edges, IsSupplyTo(department), SourceKey, SupplierTo(department), 0.0, LatestSpend);
    var values := ValuesAt(spend, spend.keys, 0.0);
    var total := Sum(values);
    var hhi := CalculateHhi(Shares(values, total));
    var dominant := [];
    for i := 0 to |spend.keys|
      invariant dominant == Dominants(spend, total, spend.keys[..i])
    {
      PrefixSnoc(spend.keys, i);
      var x := Get(spend, spend.keys[i], 0.0);
      if ShareOf(x, total) >= DOMINANT_SHARE {
        dominant := dominant + [Dominant(spend.keys[i], x, ShareOf(x, total))];
      }
    }
    assert spend.keys[..|spend.keys|] == spend.keys;
    return Success(HhiResult(department, hhi, |spend.keys|, total, ClassifyHhi(hhi),
                             SortBy(dominant, ShareDescending)));
  }

  // ---------------------------------------------------------------------------------------------
  // Repeated approvals by one official
  // ---------------------------------------------------------------------------------------------

  function IsApprovalBy(official: string): Edge -> bool {
    (e: Edge) => e.Approves? && e.source == official
  }

  function ApprovedVendor(official: string): Edge -> Option<string> {
    (e: Edge) => if e.Approves? && e.source == official then Some(e.target) else None
  }

  const AddApprovals: (nat, Edge) -> nat := (n: nat, e: Edge) => n + CountOn(e)

  function CountOn(e: Edge): nat {
    if e.Approves? then e.approvalCount else 1
  }

  function VendorRepeats(edges: seq<Edge>, official: string): Dict<string, nat> {
    Tally(edges, ApprovedVendor(official), 0, AddApprovals)
  }

  function Total(counts: seq<nat>): nat {
    if counts == [] then 0 else Total(counts[..|counts| - 1]) + counts[|counts| - 1]
  }

  function Reals(counts: seq<nat>): seq<real> {
    if counts == [] then [] else Reals(counts[..|counts| - 1]) + [counts[|counts| - 1] as real]
  }

  function IndicatorsOf(score: real, approvals: nat, vendors: nat): seq<Indicator> {
    (if score > HIGH then [HighVendorConcentration] else [])
    + (if approvals > 100 then [HighApprovalVolume] else [])
    + (if vendors < 3 && approvals > 10 then [FewVendorsHighApprovals] else [])
  }

  /** Vendor names by id; of nodes with the same id the last one counts. */
  function VendorNames(vendors: seq<VendorNode>): map<string, string> {
    if vendors == [] then map[]
    else VendorNames(vendors[..|vendors| - 1])[vendors[|vendors| - 1].id := vendors[|vendors| - 1].name]
  }

  /** The name of a vendor, its id if there is no node for it. */
  function NameOf(names: map<string, string>, v: string): string {
    if v in names then names[v] else v
  }

  /** Counts keyed by name: of vendors with the same name the last one counts. */
  function ByName(repeats: Dict<string, nat>, names: map<string, string>, vendors: seq<string>): map<string, nat> {
    if vendors == [] then map[]
    else
      var v := vendors[|vendors| - 1];
      ByName(repeats, names, vendors[..|vendors| - 1])[NameOf(names, v) := Get(repeats, v, 0)]
  }

  /** The result for an official who has approval edges. */
  function RepeatOf(o: OfficialNode, names: map<string, string>, repeats: Dict<string, nat>): Result<RepeatResult> {
    var counts := ValuesAt(repeats, repeats.keys, 0);
    var total := Total(counts);
    if total == 0 then Failure(DivisionByZero)
    else
      var score := RepeatScore(Shares(Reals(counts), total as real));
      Success(RepeatResult(o.id, o.name, ByName(repeats, names, repeats.keys), score, |repeats.keys|,
                           IndicatorsOf(score, total, |repeats.keys|)))
  }

  /** The analysis of one official; an official without approval edges has none. */
  function OfficialResult(edges: seq<Edge>, names: map<string, string>, o: OfficialNode): Option<Result<RepeatResult>> {
    if Filter(edges, IsApprovalBy(o.id)) == [] then None else Some(RepeatOf(o, names, VendorRepeats(edges, o.id)))
  }

  function AddResult(earlier: Result<seq<RepeatResult>>, mine: Option<Result<RepeatResult>>)
    : Result<seq<RepeatResult>>
  {
    if earlier.Failure? || mine.None? then earlier
    else if mine.value.Failure? then Failure(mine.value.error)
    else Success(earlier.value + [mine.value.value])
  }

  function RepeatsOf(edges: seq<Edge>, names: map<string, string>, officials: seq<OfficialNode>)
    : Result<seq<RepeatResult>>
  {
    if officials == [] then Success([])
    else AddResult(RepeatsOf(edges, names, officials[..|officials| - 1]),
                   OfficialResult(edges, names, officials[|officials| - 1]))
  }

  method CountRepeats(approvalEdges: seq<Edge>) returns (repeats: Dict<string, nat>)
    ensures repeats == Tally(approvalEdges, TargetKey, 0, AddApprovals)
  {
    repeats := Dict([], map[]);
    for i := 0 to |approvalEdges|
      invariant repeats == Tally(approvalEdges[..i], TargetKey, 0, AddApprovals)
    {
      PrefixSnoc(approvalEdges, i);
      var e := approvalEdges[i];
      repeats := Put(repeats, e.target, Get(repeats, e.target, 0) + CountOn(e));
    }
    assert approvalEdges[..|approvalEdges|] == approvalEdges;
  }

  lemma {:induction false} FailureStays(edges: seq<Edge>, names: map<string, string>, officials: seq<OfficialNode>,
                                        n: nat)
    requires n <= |officials| && RepeatsOf(edges, names, officials[..n]).Failure?
    ensures RepeatsOf(edges, names, officials) == RepeatsOf(edges, names, officials[..n])
    decreases |officials|
  {
    if n == |officials| {
      assert officials[..n] == officials;
    } else {
      SliceOfPrefix(officials, |officials| - 1, 0, n);
      assert officials[..|officials| - 1][..n] == officials[..n];
      FailureStays(edges, names, officials[..|officials| - 1], n);
    }
  }

  lemma RepeatsStep(edges: seq<Edge>, names: map<string, string>, officials: seq<OfficialNode>, i: nat)
    requires i < |officials|
    ensures RepeatsOf(edges, names, officials[..i + 1])
            == AddResult(RepeatsOf(edges, names, officials[..i]), OfficialResult(edges, names, officials[i]))
  {
    PrefixSnoc(officials, i);
  }

  method AnalyzeOfficial(edges: seq<Edge>, names: map<string, string>, o: OfficialNode)
    returns (r: Option<Result<RepeatResult>>)
    ensures r == OfficialResult(edges, names, o)
  {
    var approvalEdges := Filter(edges, IsApprovalBy(o.id));
    if approvalEdges == [] {
      return None;
    }
    var repeats := CountRepeats(approvalEdges);
    TallyFiltered(edges, IsApprovalBy(o.id), TargetKey, ApprovedVendor(o.id), 0, AddApprovals);
    return Some(RepeatOf(o, names, repeats));
  }

  method CollectNames(vendors: seq<VendorNode>) returns (names: map<string, string>)
    ensures names == VendorNames(vendors)
  {
    names := map[];
    for i := 0 to |vendors|
      invariant names == VendorNames(vendors[..i])
    {
      PrefixSnoc(vendors, i);
      names := names[vendors[i].id := vendors[i].name];
    }
    assert vendors[..|vendors|] == vendors;
  }

  /** Fails as soon as it names the undeclared kind of edge, that is when there is an official and any edge. */
  method AnalyzeRepeatOfficials(graph: VendorGraph, approvesDeclared: bool) returns (r: Result<seq<RepeatResult>>)
    ensures r == if !approvesDeclared && graph.officials != [] && graph.edges != [] then Failure(UndeclaredEdgeKind)
                 else RepeatsOf(graph.edges, VendorNames(graph.vendors), graph.officials)
  {
    var edges, officials := graph.edges, graph.officials;
    var names := CollectNames(graph.vendors);
    var results := [];
    for i := 0 to |officials|
      invariant RepeatsOf(edges, names, officials[..i]) == Success(results)
      invariant i == 0 || approvesDeclared || edges == []
    {
      if !approvesDeclared && edges != [] {
        return Failure(UndeclaredEdgeKind);
      }
      RepeatsStep(edges, names, officials, i);
      var mine := AnalyzeOfficial(edges, names, officials[i]);
      if mine.Some? && mine.value.Failure? {
        FailureStays(edges, names, officials, i + 1);
        return Failure(mine.value.error);
      }
      if mine.Some? {
        results := results + [mine.value.value];
      }
    }
    assert officials[..|officials|] == officials;
    return Success(results);
  }

  // ---------------------------------------------------------------------------------------------
  // Risk patterns
  // ---------------------------------------------------------------------------------------------

  const SharedOfficial: Edge -> Option<string> := (e: Edge) => if e.SharesOfficial? then Some(e.officialId) else None
  const AddEnds: (set<string>, Edge) -> set<string> := (s: set<string>, e: Edge) => s + {e.source} + {e.target}
  const Supplier: Edge -> Option<string> := (e: Edge) => if e.Supplies? then Some(e.source) else None
  const AddOne: (nat, Edge) -> nat := (n: nat, e: Edge) => n + 1

  function OfficialSharing(edges: seq<Edge>): Dict<string, set<string>> {
    Tally(edges, SharedOfficial, {}, AddEnds)
  }

  function DepartmentCounts(edges: seq<Edge>): Dict<string, nat> {
    Tally(edges, Supplier, 0, AddOne)
  }

  function RepeatPatterns(results: seq<RepeatResult>): seq<RiskPattern> {
    if results == [] then []
    else
      var earlier, last := RepeatPatterns(results[..|results| - 1]), results[|results| - 1];
      if last.score > HIGH then earlier + [RepeatOfficialRisk(last)] else earlier
  }

  function SharingPatterns(d: Dict<string, set<string>>, officials: seq<string>): seq<RiskPattern> {
    if officials == [] then []
    else
      var earlier, o := SharingPatterns(d, officials[..|officials| - 1]), officials[|officials| - 1];
      if |Get(d, o, {})| > 3 then earlier + [OfficialSharingRisk(o, |Get(d, o, {})|)] else earlier
  }

  function DominancePatterns(d: Dict<string, nat>, vendors: seq<string>): seq<RiskPattern> {
    if vendors == [] then []
    else
      var earlier, v := DominancePatterns(d, vendors[..|vendors| - 1]), vendors[|vendors| - 1];
      if Get(d, v, 0) > 5 then earlier + [VendorDominance(v, Get(d, v, 0))] else earlier
  }

  function ConcentrationPatterns(hhi: HhiResult): seq<RiskPattern> {
    if hhi.hhi > HIGH then [ConcentrationRisk(hhi.hhi, hhi.dominant)] else []
  }

  function PatternsOf(hhi: HhiResult, repeats: seq<RepeatResult>, edges: seq<Edge>): seq<RiskPattern> {
    ConcentrationPatterns(hhi) + RepeatPatterns(repeats)
    + SharingPatterns(OfficialSharing(edges), OfficialSharing(edges).keys)
    + DominancePatterns(DepartmentCounts(edges), DepartmentCounts(edges).keys)
  }

  function HighSeverity(patterns: seq<RiskPattern>): nat {
    if patterns == [] then 0
    else
      var earlier, last := HighSeverity(patterns[..|patterns| - 1]), patterns[|patterns| - 1];
      if last.ConcentrationRisk? || last.RepeatOfficialRisk? then earlier + 1 else earlier
  }

  method FindRepeatPatterns(results: seq<RepeatResult>) returns (patterns: seq<RiskPattern>)
    ensures patterns == RepeatPatterns(results)
  {
    patterns := [];
    for i := 0 to |results|
      invariant patterns == RepeatPatterns(results[..i])
    {
      PrefixSnoc(results, i);
      if results[i].score > HIGH {
        patterns := patterns + [RepeatOfficialRisk(results[i])];
      }
    }
    assert results[..|results|] == results;
  }

  method FindSharingPatterns(edges: seq<Edge>) returns (patterns: seq<RiskPattern>)
    ensures patterns == SharingPatterns(OfficialSharing(edges), OfficialSharing(edges).keys)
  {
    var sharing: Dict<string, set<string>> := Dict([], map[]);
    for i := 0 to |edges|
      invariant sharing == OfficialSharing(edges[..i])
    {
      PrefixSnoc(edges, i);
      var e := edges[i];
      if e.SharesOfficial? {
        sharing := Put(sharing, e.officialId, Get(sharing, e.officialId, {}) + {e.source} + {e.target});
      }
    }
    assert edges[..|edges|] == edges;
    patterns := [];
    var officials := sharing.keys;
    for i := 0 to |officials|
      invariant patterns == SharingPatterns(sharing, officials[..i])
    {
      PrefixSnoc(officials, i);
      var vendors := Get(sharing, officials[i], {});
      if |vendors| > 3 {
        patterns := patterns + [OfficialSharingRisk(officials[i], |vendors|)];
      }
    }
    assert officials[..|officials|] == officials;
  }

  method FindDominancePatterns(edges: seq<Edge>) returns (patterns: seq<RiskPattern>)
    ensures patterns == DominancePatterns(DepartmentCounts(edges), DepartmentCounts(edges).keys)
  {
    var counts: Dict<string, nat> := Dict([], map[]);
    for i := 0 to |edges|
      invariant counts == DepartmentCounts(edges[..i])
    {
      PrefixSnoc(edges, i);
      if edges[i].Supplies? {
        counts := Put(counts, edges[i].source, Get(counts, edges[i].source, 0) + 1);
      }
    }
    assert edges[..|edges|] == edges;
    patterns := [];
    var vendors := counts.keys;
    for i := 0 to |vendors|
      invariant patterns == DominancePatterns(counts, vendors[..i])
    {
      PrefixSnoc(vendors, i);
      var n := Get(counts, vendors[i], 0);
      if n > 5 {
        patterns := patterns + [VendorDominance(vendors[i], n)];
      }
    }
    assert vendors[..|vendors|] == vendors;
  }

  function ReportOf(graph: VendorGraph, department: string, approvesDeclared: bool): Result<RiskReport> {
    if !HasDepartment(graph, department) then Failure(UnknownDepartment)
    else if !approvesDeclared && graph.officials != [] && graph.edges != [] then Failure(UndeclaredEdgeKind)
    else
      var repeats := RepeatsOf(graph.edges, VendorNames(graph.vendors), graph.officials);
      if repeats.Failure? then Failure(repeats.error)
      else
        var patterns := PatternsOf(HhiOf(graph.edges, department), repeats.value, graph.edges);
        Success(RiskReport(patterns, HighSeverity(patterns)))
  }

  method DetectRiskPatterns(graph: VendorGraph, department: string, approvesDeclared: bool)
    returns (r: Result<RiskReport>)
    ensures r == ReportOf(graph, department, approvesDeclared)
  {
    var hhi := AnalyzeHhi(graph, department);
    if hhi.Failure? {
      return Failure(hhi.error);
    }
    var repeats := AnalyzeRepeatOfficials(graph, approvesDeclared);
    if repeats.Failure? {
      return Failure(repeats.error);
    }
    var repeated := FindRepeatPatterns(repeats.value);
    var sharing := FindSharingPatterns(graph.edges);
    var dominance := FindDominancePatterns(graph.edges);
    var patterns := ConcentrationPatterns(hhi.value) + repeated + sharing + dominance;
    return Success(RiskReport(patterns, HighSeverity(patterns)));
  }
}

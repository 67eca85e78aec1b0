/** The risk report of a built graph, from the raw transactions to the patterns. */
module GraphReports {
  import opened Dicts
  import opened GraphAnalyzer
  import opened GraphBuilder
  import opened OfficialFindings
  import opened Options
  import opened Selections

  lemma {:induction false} RepeatPatternsMember(results: seq<RepeatResult>, x: RiskPattern)
    ensures x in RepeatPatterns(results) <==> x.RepeatOfficialRisk? && x.result in results && x.result.score > HIGH
  {
    if results != [] {
      RepeatPatternsMember(results[..|results| - 1], x);
      assert results == results[..|results| - 1] + [results[|results| - 1]];
    }
  }

  lemma {:induction false} SharingPatternsMember(d: Dict<string, set<string>>, officials: seq<string>, x: RiskPattern)
    ensures x in SharingPatterns(d, officials)
            <==> && x.OfficialSharingRisk? && x.officialId in officials
                 && x.vendorCount == |Get(d, x.officialId, {})| > 3
  {
    if officials != [] {
      SharingPatternsMember(d, officials[..|officials| - 1], x);
      assert officials == officials[..|officials| - 1] + [officials[|officials| - 1]];
    }
  }

  lemma {:induction false} DominancePatternsMember(d: Dict<string, nat>, vendors: seq<string>, x: RiskPattern)
    ensures x in DominancePatterns(d, vendors)
            <==> && x.VendorDominance? && x.vendorId in vendors
                 && x.departmentCount == Get(d, x.vendorId, 0) > 5
  {
    if vendors != [] {
      DominancePatternsMember(d, vendors[..|vendors| - 1], x);
      assert vendors == vendors[..|vendors| - 1] + [vendors[|vendors| - 1]];
    }
  }

  /** The inputs of a graph: the transactions, the database's rows, and the order in which sets are listed. */
  datatype Source = Source(txs: seq<Transaction>, vendors: seq<Row>, officials: seq<Row>, list: Listing)

  function GraphFrom(src: Source): VendorGraph {
    GraphOf(src.txs, src.vendors, src.officials, src.list)
  }

  function NamesFrom(src: Source): map<string, string> {
    VendorNames(VendorNodes(src.txs, src.vendors))
  }

  /** When a pattern is due, in terms of the transactions. */
  ghost predicate Due(src: Source, department: string, x: RiskPattern) {
    match x
    case ConcentrationRisk(hhi, dominant) =>
      var r := HhiOf(EdgesOf(src.txs, src.list), department);
      hhi == r.hhi && dominant == r.dominant && hhi > 0.7
    case RepeatOfficialRisk(r) =>
      IsResult(src.txs, src.list, NamesFrom(src), OfficialNodes(src.txs, src.officials), r) && r.score > 0.7
    case OfficialSharingRisk(o, n) => n == |VendorsOf(src.txs, o)| > 3
    case VendorDominance(v, n) => n == |DepartmentsOf(src.txs, v)| > 5
  }

  lemma SharingIsDue(txs: seq<Transaction>, list: Listing, x: RiskPattern)
    requires ListsVendors(list, txs)
    ensures x in SharingPatterns(OfficialSharing(EdgesOf(txs, list)), OfficialSharing(EdgesOf(txs, list)).keys)
            <==> x.OfficialSharingRisk? && x.vendorCount == |VendorsOf(txs, x.officialId)| > 3
  {
    var sharing := OfficialSharing(EdgesOf(txs, list));
    SharingPatternsMember(sharing, sharing.keys, x);
    if x.OfficialSharingRisk? {
      SharingIsRebuilt(txs, list, x.officialId);
    }
  }

  lemma DominanceIsDue(txs: seq<Transaction>, list: Listing, x: RiskPattern)
    ensures x in DominancePatterns(DepartmentCounts(EdgesOf(txs, list)), DepartmentCounts(EdgesOf(txs, list)).keys)
            <==> x.VendorDominance? && x.departmentCount == |DepartmentsOf(txs, x.vendorId)| > 5
  {
    var counts := DepartmentCounts(EdgesOf(txs, list));
    DominancePatternsMember(counts, counts.keys, x);
    if x.VendorDominance? {
      DepartmentsAreCounted(txs, list, x.vendorId);
    }
  }

  lemma PatternsAreDue(src: Source, department: string, x: RiskPattern)
    requires ListsVendors(src.list, src.txs)
    ensures var edges := EdgesOf(src.txs, src.list);
            var repeats := RepeatsOf(edges, NamesFrom(src), OfficialNodes(src.txs, src.officials));
            && repeats.Success?
            && (x in PatternsOf(HhiOf(edges, department), repeats.value, edges) <==> Due(src, department, x))
  {
    var edges := EdgesOf(src.txs, src.list);
    var names, officials := NamesFrom(src), OfficialNodes(src.txs, src.officials);
    RepeatsExact(src.txs, src.list, names, officials,
                 if x.RepeatOfficialRisk? then x.result else RepeatResult("", "", map[], 0.0, 0, []));
    RepeatPatternsMember(RepeatsOf(edges, names, officials).value, x);
    SharingIsDue(src.txs, src.list, x);
    DominanceIsDue(src.txs, src.list, x);
  }

  lemma {:induction false} NodesFollow(txs: seq<Transaction>, ds: seq<string>)
    ensures |DepartmentNodes(txs, ds)| == |ds| && forall i | 0 <= i < |ds| :: DepartmentNodes(txs, ds)[i].id == ds[i]
  {
    if ds != [] {
      NodesFollow(txs, ds[..|ds| - 1]);
    }
  }

  lemma {:induction false} OfficialsFollow(txs: seq<Transaction>, rows: seq<Row>)
    ensures |OfficialNodes(txs, rows)| == |rows|
  {
    if rows != [] {
      OfficialsFollow(txs, rows[..|rows| - 1]);
    }
  }

  /** A graph has a node for exactly the departments of its transactions. */
  lemma DepartmentsAreNodes(src: Source, d: string)
    ensures HasDepartment(GraphFrom(src), d) <==> d in Keys(src.txs, DepartmentKey)
  {
    var ds := Distinct(Keys(src.txs, DepartmentKey));
    NodesFollow(src.txs, ds);
    DistinctExact(Keys(src.txs, DepartmentKey));
    if d in ds {
      var i :| 0 <= i < |ds| && ds[i] == d;
      assert GraphFrom(src).departments[i].id == d;
    }
  }

  lemma NoApprovalsNoVendors(txs: seq<Transaction>, o: string)
    requires Keys(txs, ApproveKey) == []
    ensures VendorsOf(txs, o) == {}
  {
    if v :| v in VendorsOf(txs, o) {
      OfficialIsNamed(txs, o);
      VendorsOfExact(txs, o, v);
      KeysMember(txs, VendorApprovedBy(o), v);
      var t :| t in txs && VendorApprovedBy(o)(t) == Some(v);
      KeysMember(txs, ApproveKey, Pair(o, v));
      assert false;
    }
  }

  /** A repeat risk is only ever due for an official with two or more vendors. */
  lemma RepeatRiskHasVendors(src: Source, department: string, x: RiskPattern)
    ensures x.RepeatOfficialRisk? && Due(src, department, x) ==> |VendorsOf(src.txs, x.result.officialId)| >= 2
  {
    if x.RepeatOfficialRisk? && Due(src, department, x) {
      var o :| o in OfficialNodes(src.txs, src.officials) && ResultFor(src.txs, src.list, NamesFrom(src), o, x.result);
      RepeatScoreExact(src.txs, src.list, o, NamesFrom(src));
      assert |VendorsOf(src.txs, o.id)| != 0;
    }
  }

  /** Main result, for every graph that can be built, whether or not the kind of edge from officials to vendors is
      declared: an unknown department is an error; for a known one the report fails exactly if the kind is not
      declared and there are an official and an edge; and otherwise it holds exactly the patterns that the
      transactions warrant. */
  lemma ReportIsExact(src: Source, department: string, approvesDeclared: bool, x: RiskPattern)
    requires ListsVendors(src.list, src.txs)
    requires approvesDeclared || Keys(src.txs, ApproveKey) == []
    ensures var report := ReportOf(GraphFrom(src), department, approvesDeclared);
            var known := department in Keys(src.txs, DepartmentKey);
            && (report == Failure(UnknownDepartment) <==> !known)
            && (report.Success? <==>
                  known && (approvesDeclared || src.officials == [] || EdgesOf(src.txs, src.list) == []))
            && (report.Success? ==> (x in report.value.patterns <==> Due(src, department, x)))
  {
    DepartmentsAreNodes(src, department);
    OfficialsFollow(src.txs, src.officials);
    PatternsAreDue(src, department, x);
  }

  /** As the kinds of edges are declared in the source, a report never contains a pattern about officials, on any
      graph that can be built. */
  lemma OfficialsGoUnreported(src: Source, department: string, x: RiskPattern)
    requires ListsVendors(src.list, src.txs) && Keys(src.txs, ApproveKey) == []
    ensures var report := ReportOf(GraphFrom(src), department, APPROVES_DECLARED);
            report.Success? && x in report.value.patterns ==> x.ConcentrationRisk? || x.VendorDominance?
  {
    ReportIsExact(src, department, APPROVES_DECLARED, x);
    if x.RepeatOfficialRisk? && Due(src, department, x) {
      RepeatRiskHasVendors(src, department, x);
      NoApprovalsNoVendors(src.txs, x.result.officialId);
    }
    if x.OfficialSharingRisk? {
      NoApprovalsNoVendors(src.txs, x.officialId);
    }
  }

  // ---------------------------------------------------------------------------------------------
  // The report as a list
  // ---------------------------------------------------------------------------------------------

  ghost function HighScore(results: seq<RepeatResult>): nat -> bool {
    (i: nat) => i < |results| && results[i].score > 0.7
  }

  ghost function RepeatRiskOf(results: seq<RepeatResult>): (nat, RiskPattern) -> bool {
    (i: nat, x: RiskPattern) => i < |results| && x == RepeatOfficialRisk(results[i])
  }

  /** The results above 0.7, in order, each as a pattern. */
  lemma {:induction false} RepeatPatternsList(results: seq<RepeatResult>, n: nat)
    requires n <= |results|
    ensures Lists(n, HighScore(results), RepeatPatterns(results[..n]), RepeatRiskOf(results))
  {
    if n == 0 {
      ListsNone(HighScore(results), RepeatRiskOf(results));
    } else {
      RepeatPatternsList(results, n - 1);
      assert results[..n][..n - 1] == results[..n - 1];
      ListsNext(n - 1, HighScore(results), RepeatPatterns(results[..n - 1]), RepeatRiskOf(results),
                RepeatOfficialRisk(results[n - 1]));
    }
  }

  /** The positions with a count above a limit. */
  ghost function CountAbove(ks: seq<string>, count: string -> nat, limit: nat): nat -> bool {
    (i: nat) => i < |ks| && count(ks[i]) > limit
  }

  ghost function RiskAt(ks: seq<string>, count: string -> nat, make: (string, nat) -> RiskPattern)
    : (nat, RiskPattern) -> bool
  {
    (i: nat, x: RiskPattern) => i < |ks| && x == make(ks[i], count(ks[i]))
  }

  const SharingRisk: (string, nat) -> RiskPattern := (o: string, n: nat) => OfficialSharingRisk(o, n)
  const DominanceRisk: (string, nat) -> RiskPattern := (v: string, n: nat) => VendorDominance(v, n)

  function SizeAt(d: Dict<string, set<string>>): string -> nat {
    (o: string) => |Get(d, o, {})|
  }

  function NumberAt(d: Dict<string, nat>): string -> nat {
    (v: string) => Get(d, v, 0)
  }

  lemma {:induction false} SharingPatternsList(d: Dict<string, set<string>>, ks: seq<string>, n: nat)
    requires n <= |ks|
    ensures Lists(n, CountAbove(ks, SizeAt(d), 3), SharingPatterns(d, ks[..n]), RiskAt(ks, SizeAt(d), SharingRisk))
  {
    var wanted, fits := CountAbove(ks, SizeAt(d), 3), RiskAt(ks, SizeAt(d), SharingRisk);
    if n == 0 {
      ListsNone(wanted, fits);
    } else {
      SharingPatternsList(d, ks, n - 1);
      assert ks[..n][..n - 1] == ks[..n - 1];
      ListsNext(n - 1, wanted, SharingPatterns(d, ks[..n - 1]), fits,
                OfficialSharingRisk(ks[n - 1], |Get(d, ks[n - 1], {})|));
    }
  }

  lemma {:induction false} DominancePatternsList(d: Dict<string, nat>, ks: seq<string>, n: nat)
    requires n <= |ks|
    ensures Lists(n, CountAbove(ks, NumberAt(d), 5), DominancePatterns(d, ks[..n]),
                  RiskAt(ks, NumberAt(d), DominanceRisk))
  {
    var wanted, fits := CountAbove(ks, NumberAt(d), 5), RiskAt(ks, NumberAt(d), DominanceRisk);
    if n == 0 {
      ListsNone(wanted, fits);
    } else {
      DominancePatternsList(d, ks, n - 1);
      assert ks[..n][..n - 1] == ks[..n - 1];
      ListsNext(n - 1, wanted, DominancePatterns(d, ks[..n - 1]), fits,
                VendorDominance(ks[n - 1], Get(d, ks[n - 1], 0)));
    }
  }

  /** How many vendors an official has, and how many departments a vendor, in the transactions. */
  ghost function VendorCount(txs: seq<Transaction>): string -> nat {
    (o: string) => |VendorsOf(txs, o)|
  }

  ghost function DepartmentCount(txs: seq<Transaction>): string -> nat {
    (v: string) => |DepartmentsOf(txs, v)|
  }

  /** Some keys, each once and all that count above the limit among them, give one pattern for exactly each that
      does. */
  ghost predicate RisksAbove(count: string -> nat, limit: nat, make: (string, nat) -> RiskPattern,
                             patterns: seq<RiskPattern>) {
    exists ks :: RisksOf(ks, count, limit, make, patterns)
  }

  ghost predicate RisksOf(ks: seq<string>, count: string -> nat, limit: nat, make: (string, nat) -> RiskPattern,
                          patterns: seq<RiskPattern>) {
    && NoDuplicates(ks) && (forall k | count(k) > limit :: k in ks)
    && Lists(|ks|, CountAbove(ks, count, limit), patterns, RiskAt(ks, count, make))
  }

  lemma SharingInOrder(txs: seq<Transaction>, list: Listing)
    requires ListsVendors(list, txs)
    ensures var d := OfficialSharing(EdgesOf(txs, list));
            RisksAbove(VendorCount(txs), 3, SharingRisk, SharingPatterns(d, d.keys))
  {
    var d, count := OfficialSharing(EdgesOf(txs, list)), VendorCount(txs);
    var ks := d.keys;
    SharingPatternsList(d, ks, |ks|);
    assert ks[..|ks|] == ks;
    forall o
      ensures count(o) > 3 ==> o in ks
      ensures o in ks ==> SizeAt(d)(o) == count(o)
    {
      SharingIsRebuilt(txs, list, o);
    }
    TallyExact(EdgesOf(txs, list), SharedOfficial, {}, AddEnds);
    DistinctExact(Keys(EdgesOf(txs, list), SharedOfficial));
    RecountLists(ks, SizeAt(d), count, 3, SharingRisk, SharingPatterns(d, ks));
    assert RisksOf(ks, count, 3, SharingRisk, SharingPatterns(d, ks));
  }

  lemma DominanceInOrder(txs: seq<Transaction>, list: Listing)
    ensures var d := DepartmentCounts(EdgesOf(txs, list));
            RisksAbove(DepartmentCount(txs), 5, DominanceRisk, DominancePatterns(d, d.keys))
  {
    var d, count := DepartmentCounts(EdgesOf(txs, list)), DepartmentCount(txs);
    var ks := d.keys;
    DominancePatternsList(d, ks, |ks|);
    assert ks[..|ks|] == ks;
    forall v
      ensures count(v) > 5 ==> v in ks
      ensures v in ks ==> NumberAt(d)(v) == count(v)
    {
      DepartmentsAreCounted(txs, list, v);
    }
    TallyExact(EdgesOf(txs, list), Supplier, 0, AddOne);
    DistinctExact(Keys(EdgesOf(txs, list), Supplier));
    RecountLists(ks, NumberAt(d), count, 5, DominanceRisk, DominancePatterns(d, ks));
    assert RisksOf(ks, count, 5, DominanceRisk, DominancePatterns(d, ks));
  }

  lemma RecountLists(ks: seq<string>, count: string -> nat, count': string -> nat, limit: nat,
                     make: (string, nat) -> RiskPattern, patterns: seq<RiskPattern>)
    requires Lists(|ks|, CountAbove(ks, count, limit), patterns, RiskAt(ks, count, make))
    requires forall k | k in ks :: count(k) == count'(k)
    ensures Lists(|ks|, CountAbove(ks, count', limit), patterns, RiskAt(ks, count', make))
  {
    ListsRefit(|ks|, CountAbove(ks, count, limit), patterns, RiskAt(ks, count, make),
               CountAbove(ks, count', limit), RiskAt(ks, count', make));
  }

  /** The repeat patterns: a result for exactly each listed official that approved for some vendor, in their order,
      and of these the ones above 0.7. */
  ghost predicate RepeatRisks(src: Source, patterns: seq<RiskPattern>) {
    exists results :: RepeatRisksOf(src, results, patterns)
  }

  ghost predicate RepeatRisksOf(src: Source, results: seq<RepeatResult>, patterns: seq<RiskPattern>) {
    var officials := OfficialNodes(src.txs, src.officials);
    && Lists(|officials|, ApprovesSome(src.txs, officials), results,
             ResultAt(src.txs, src.list, NamesFrom(src), officials))
    && Lists(|results|, HighScore(results), patterns, RepeatRiskOf(results))
  }

  lemma RepeatsListed(src: Source)
    ensures var results := RepeatsOf(EdgesOf(src.txs, src.list), NamesFrom(src), OfficialNodes(src.txs, src.officials));
            results.Success? && RepeatRisks(src, RepeatPatterns(results.value))
  {
    var officials := OfficialNodes(src.txs, src.officials);
    RepeatsInOrder(src.txs, src.list, NamesFrom(src), officials, |officials|);
    assert officials[..|officials|] == officials;
    var results := RepeatsOf(EdgesOf(src.txs, src.list), NamesFrom(src), officials).value;
    RepeatPatternsList(results, |results|);
    assert results[..|results|] == results;
    assert RepeatRisksOf(src, results, RepeatPatterns(results));
  }

  const IsHigh: RiskPattern -> bool := (x: RiskPattern) => x.ConcentrationRisk? || x.RepeatOfficialRisk?

  lemma {:induction false} HighSeverityExact(patterns: seq<RiskPattern>)
    ensures exists high :: Filters(patterns, IsHigh, high) && |high| == HighSeverity(patterns)
  {
    if patterns == [] {
      FiltersNone(IsHigh);
    } else {
      var init, last := patterns[..|patterns| - 1], patterns[|patterns| - 1];
      HighSeverityExact(init);
      var high :| Filters(init, IsHigh, high) && |high| == HighSeverity(init);
      FiltersSnoc(init, last, IsHigh, high);
      assert patterns == init + [last];
    }
  }

  /** The four parts of a report's patterns. */
  ghost predicate ReportParts(src: Source, department: string, patterns: seq<RiskPattern>, repeats: seq<RiskPattern>,
                              sharing: seq<RiskPattern>, dominance: seq<RiskPattern>) {
    var r := HhiOf(EdgesOf(src.txs, src.list), department);
    && RepeatRisks(src, repeats)
    && RisksAbove(VendorCount(src.txs), 3, SharingRisk, sharing)
    && RisksAbove(DepartmentCount(src.txs), 5, DominanceRisk, dominance)
    && patterns == (if r.hhi > 0.7 then [ConcentrationRisk(r.hhi, r.dominant)] else [])
                   + repeats + sharing + dominance
  }

  ghost predicate HasParts(src: Source, department: string, patterns: seq<RiskPattern>) {
    exists repeats, sharing, dominance :: ReportParts(src, department, patterns, repeats, sharing, dominance)
  }

  lemma PatternsInOrder(src: Source, department: string)
    requires ListsVendors(src.list, src.txs)
    ensures var edges := EdgesOf(src.txs, src.list);
            var results := RepeatsOf(edges, NamesFrom(src), OfficialNodes(src.txs, src.officials));
            results.Success? && HasParts(src, department, PatternsOf(HhiOf(edges, department), results.value, edges))
  {
    var edges := EdgesOf(src.txs, src.list);
    var results := RepeatsOf(edges, NamesFrom(src), OfficialNodes(src.txs, src.officials));
    RepeatsListed(src);
    SharingInOrder(src.txs, src.list);
    DominanceInOrder(src.txs, src.list);
    assert ReportParts(src, department, PatternsOf(HhiOf(edges, department), results.value, edges),
                       RepeatPatterns(results.value),
                       SharingPatterns(OfficialSharing(edges), OfficialSharing(edges).keys),
                       DominancePatterns(DepartmentCounts(edges), DepartmentCounts(edges).keys));
  }

  /** A report that does not fail, as a list: the concentration of the department if it is above 0.7, then the
      officials with a score above 0.7 in their order, then one pattern for each official with more than three
      vendors, then one for each vendor with more than five departments, each once; the patterns of the first two
      kinds are counted as severe. */
  lemma ReportInOrder(src: Source, department: string, approvesDeclared: bool)
    requires ListsVendors(src.list, src.txs)
    ensures var report := ReportOf(GraphFrom(src), department, approvesDeclared);
            report.Success? ==>
              && HasParts(src, department, report.value.patterns)
              && exists high :: Filters(report.value.patterns, IsHigh, high)
                                && |high| == report.value.highSeverityCount
  {
    PatternsInOrder(src, department);
    var edges := EdgesOf(src.txs, src.list);
    var results := RepeatsOf(edges, NamesFrom(src), OfficialNodes(src.txs, src.officials)).value;
    HighSeverityExact(PatternsOf(HhiOf(edges, department), results, edges));
  }
}

/** What the analysis reports about officials and vendors, stated on the raw transactions. */
module OfficialFindings {
  import opened Concentration
  import opened Dicts
  import opened GraphAggregates
  import opened GraphAnalyzer
  import opened GraphBuilder
  import opened GraphFindings
  import opened Options
  import opened RealSums
  import opened Selections
  import opened Sequences

  // ---------------------------------------------------------------------------------------------
  // Approvals in the transactions
  // ---------------------------------------------------------------------------------------------

  /** The vendor of a transaction that the official approved. */
  function VendorApprovedBy(o: string): Transaction -> Option<string> {
    (t: Transaction) => if t.vendorId != "" && o != "" && t.approvedBy == o then Some(t.vendorId) else None
  }

  function Approvals(txs: seq<Transaction>, o: string, v: string): nat {
    |Group(txs, VendorApprovedBy(o), v)|
  }

  /** How many of the official's approvals name a vendor. */
  function ApprovalCount(txs: seq<Transaction>, o: string): nat {
    |Group(txs, ApproverKey, o)|
  }

  lemma {:induction false} VendorsOfExact(txs: seq<Transaction>, o: string, v: string)
    ensures v in VendorsOf(txs, o) <==> Approvals(txs, o, v) > 0
  {
    if txs != [] {
      VendorsOfExact(txs[..|txs| - 1], o, v);
      var g := Group(txs[..|txs| - 1], ApproverKey, o);
      assert (g + [txs[|txs| - 1]])[..|g|] == g;
    }
  }

  // ---------------------------------------------------------------------------------------------
  // Repeat scores
  // ---------------------------------------------------------------------------------------------

  lemma RepeatAt(txs: seq<Transaction>, list: Listing, o: string, v: string)
    ensures Get(VendorRepeats(EdgesOf(txs, list), o), v, 0) == Approvals(txs, o, v)
    ensures v in VendorRepeats(EdgesOf(txs, list), o).keys <==> v in VendorsOf(txs, o)
  {
    var edges := EdgesOf(txs, list);
    TallyExact(edges, ApprovedVendor(o), 0, AddApprovals);
    DistinctExact(Keys(edges, ApprovedVendor(o)));
    KeysMember(edges, ApprovedVendor(o), v);
    EdgesAreExact(txs, list, o, v);
    GroupSame(txs, ApproveKey, Pair(o, v), VendorApprovedBy(o), v);
    FoldOfOne(ApproveEdge(txs, Pair(o, v)), 0, AddApprovals);
    VendorsOfExact(txs, o, v);
  }

  lemma RepeatKeys(txs: seq<Transaction>, list: Listing, o: string)
    ensures var ks := VendorRepeats(EdgesOf(txs, list), o).keys;
            NoDuplicates(ks) && forall v :: v in ks <==> v in VendorsOf(txs, o)
  {
    TallyExact(EdgesOf(txs, list), ApprovedVendor(o), 0, AddApprovals);
    DistinctExact(Keys(EdgesOf(txs, list), ApprovedVendor(o)));
    forall v ensures v in VendorRepeats(EdgesOf(txs, list), o).keys <==> v in VendorsOf(txs, o) {
      RepeatAt(txs, list, o, v);
    }
  }

  const One: Transaction -> real := (t: Transaction) => 1.0

  lemma {:induction false} SizeIsSum(g: seq<Transaction>)
    ensures SumBy(g, One) == |g| as real
  {
    if g != [] {
      SizeIsSum(g[..|g| - 1]);
    }
  }

  lemma {:induction false} KeyedSizeIsSum(txs: seq<Transaction>, o: string)
    ensures o != "" ==> KeyedSum(txs, VendorApprovedBy(o), One) == ApprovalCount(txs, o) as real
    ensures o == "" ==> KeyedSum(txs, VendorApprovedBy(o), One) == 0.0
  {
    if txs != [] {
      KeyedSizeIsSum(txs[..|txs| - 1], o);
    }
  }

  lemma {:induction false} RealsExact(counts: seq<nat>)
    ensures |Reals(counts)| == |counts| && forall i | 0 <= i < |counts| :: Reals(counts)[i] == counts[i] as real
    ensures Sum(Reals(counts)) == Total(counts) as real
  {
    if counts != [] {
      var init := counts[..|counts| - 1];
      RealsExact(init);
      SumSnoc(Reals(init), counts[|counts| - 1] as real);
    }
  }

  ghost predicate CountsOf(counts: seq<nat>, vendors: seq<string>, txs: seq<Transaction>, o: string) {
    |counts| == |vendors| && forall i | 0 <= i < |vendors| :: counts[i] == Approvals(txs, o, vendors[i])
  }

  lemma CountsSnoc(counts: seq<nat>, vendors: seq<string>, txs: seq<Transaction>, o: string, n: nat, v: string)
    requires CountsOf(counts, vendors, txs, o) && n == Approvals(txs, o, v)
    ensures CountsOf(counts + [n], vendors + [v], txs, o)
  {
  }

  lemma {:induction false} RepeatValues(txs: seq<Transaction>, list: Listing, o: string, vendors: seq<string>)
    ensures CountsOf(ValuesAt(VendorRepeats(EdgesOf(txs, list), o), vendors, 0), vendors, txs, o)
  {
    if vendors != [] {
      var init, v := vendors[..|vendors| - 1], vendors[|vendors| - 1];
      var repeats := VendorRepeats(EdgesOf(txs, list), o);
      RepeatValues(txs, list, o, init);
      RepeatAt(txs, list, o, v);
      CountsSnoc(ValuesAt(repeats, init, 0), init, txs, o, Get(repeats, v, 0), v);
      assert vendors == init + [v];
    }
  }

  lemma {:induction false} CountsAreSums(counts: seq<nat>, vendors: seq<string>, txs: seq<Transaction>, o: string)
    requires CountsOf(counts, vendors, txs, o)
    ensures Reals(counts) == GroupSums(txs, VendorApprovedBy(o), One, vendors)
  {
    if vendors != [] {
      CountsAreSums(counts[..|counts| - 1], vendors[..|vendors| - 1], txs, o);
      SizeIsSum(Group(txs, VendorApprovedBy(o), vendors[|vendors| - 1]));
    }
  }

  /** The approvals that the analysis counts for an official add up to those in the transactions. */
  lemma ApprovalsAreConserved(txs: seq<Transaction>, list: Listing, o: string)
    requires o != ""
    ensures var repeats := VendorRepeats(EdgesOf(txs, list), o);
            Total(ValuesAt(repeats, repeats.keys, 0)) == ApprovalCount(txs, o)
  {
    var repeats := VendorRepeats(EdgesOf(txs, list), o);
    RepeatKeys(txs, list, o);
    RepeatValues(txs, list, o, repeats.keys);
    CountsAreSums(ValuesAt(repeats, repeats.keys, 0), repeats.keys, txs, o);
    RealsExact(ValuesAt(repeats, repeats.keys, 0));
    forall v | v in Keys(txs, VendorApprovedBy(o)) ensures v in repeats.keys {
      KeysMember(txs, VendorApprovedBy(o), v);
      VendorsOfExact(txs, o, v);
    }
    GroupsPartition(txs, VendorApprovedBy(o), One, repeats.keys);
    KeyedSizeIsSum(txs, o);
  }

  ghost predicate ApprovesEqually(txs: seq<Transaction>, o: string) {
    forall v, w | v in VendorsOf(txs, o) && w in VendorsOf(txs, o) :: Approvals(txs, o, v) == Approvals(txs, o, w)
  }

  lemma EqualApprovals(xs: seq<real>, vendors: seq<string>, txs: seq<Transaction>, o: string)
    requires |xs| == |vendors| && forall i | 0 <= i < |xs| :: xs[i] == Approvals(txs, o, vendors[i]) as real
    requires forall v :: v in vendors <==> v in VendorsOf(txs, o)
    ensures AllEqual(xs) <==> ApprovesEqually(txs, o)
  {
    if AllEqual(xs) {
      forall v, w | v in VendorsOf(txs, o) && w in VendorsOf(txs, o)
        ensures Approvals(txs, o, v) == Approvals(txs, o, w)
      {
        assert v in vendors && w in vendors;
      }
    }
    if ApprovesEqually(txs, o) {
      forall i, j | 0 <= i < |xs| && 0 <= j < |xs| ensures xs[i] == xs[j] {
        assert vendors[i] in vendors && vendors[j] in vendors;
      }
    }
  }

  lemma RepeatShares(txs: seq<Transaction>, list: Listing, o: string)
    requires VendorsOf(txs, o) != {}
    ensures var repeats := VendorRepeats(EdgesOf(txs, list), o);
            var counts := ValuesAt(repeats, repeats.keys, 0);
            var s := Shares(Reals(counts), Total(counts) as real);
            && Total(counts) == ApprovalCount(txs, o) > 0
            && |repeats.keys| == |VendorsOf(txs, o)|
            && AreShares(s) && |s| == |repeats.keys|
            && (AllEqual(s) <==> ApprovesEqually(txs, o))
  {
    var repeats := VendorRepeats(EdgesOf(txs, list), o);
    var counts := ValuesAt(repeats, repeats.keys, 0);
    var xs := Reals(counts);
    OfficialIsNamed(txs, o);
    RepeatKeys(txs, list, o);
    RepeatValues(txs, list, o, repeats.keys);
    RealsExact(counts);
    forall i | 0 <= i < |xs| ensures xs[i] > 0.0 {
      assert repeats.keys[i] in VendorsOf(txs, o);
      VendorsOfExact(txs, o, repeats.keys[i]);
    }
    SizeOfDistinct(repeats.keys, VendorsOf(txs, o));
    ApprovalsAreConserved(txs, list, o);
    PositivesGiveShares(xs);
    AllEqualScaled(xs, Shares(xs, Sum(xs)), Sum(xs));
    EqualApprovals(xs, repeats.keys, txs, o);
  }

  lemma OfficialIsNamed(txs: seq<Transaction>, o: string)
    requires VendorsOf(txs, o) != {}
    ensures o != ""
  {
    var v :| v in VendorsOf(txs, o);
    VendorsOfExact(txs, o, v);
    if o == "" {
      GroupNone(txs, VendorApprovedBy(o), v);
    }
  }

  /** For an official with approvals the analysis succeeds. The score is at least 0 and below 1, and it is 0
      exactly when every vendor of the official has equally many approvals, so in particular when there is a
      single vendor, however many approvals it has. */
  lemma RepeatScoreExact(txs: seq<Transaction>, list: Listing, o: OfficialNode, names: map<string, string>)
    requires VendorsOf(txs, o.id) != {}
    ensures var r := RepeatOf(o, names, VendorRepeats(EdgesOf(txs, list), o.id));
            && r.Success?
            && r.value.officialId == o.id && r.value.officialName == o.name
            && r.value.connections == |VendorsOf(txs, o.id)|
            && 0.0 <= r.value.score < 1.0
            && (r.value.score == 0.0 <==> ApprovesEqually(txs, o.id))
            && (|VendorsOf(txs, o.id)| == 1 ==> r.value.score == 0.0)
            && r.value.indicators == IndicatorsOf(r.value.score, ApprovalCount(txs, o.id), |VendorsOf(txs, o.id)|)
  {
    var repeats := VendorRepeats(EdgesOf(txs, list), o.id);
    var counts := ValuesAt(repeats, repeats.keys, 0);
    RepeatShares(txs, list, o.id);
    ScoresAgreeUnlessSingle(Shares(Reals(counts), Total(counts) as real));
  }

  /** A vendor's share of the official's approvals. */
  function ApprovalShare(txs: seq<Transaction>, o: string): string -> real {
    (v: string) =>
      if ApprovalCount(txs, o) > 0 then Approvals(txs, o, v) as real / ApprovalCount(txs, o) as real else 0.0
  }

  lemma CountsAreShares(counts: seq<nat>, vendors: seq<string>, txs: seq<Transaction>, o: string)
    requires CountsOf(counts, vendors, txs, o) && ApprovalCount(txs, o) > 0
    ensures Shares(Reals(counts), ApprovalCount(txs, o) as real) == Values(vendors, ApprovalShare(txs, o))
  {
    RealsExact(counts);
    SharesAre(Reals(counts), ApprovalCount(txs, o) as real, vendors, ApprovalShare(txs, o));
  }

  lemma SharesOfApprovals(txs: seq<Transaction>, list: Listing, o: OfficialNode, names: map<string, string>)
    requires VendorsOf(txs, o.id) != {}
    ensures var repeats := VendorRepeats(EdgesOf(txs, list), o.id);
            var shares := Values(repeats.keys, ApprovalShare(txs, o.id));
            && AreShares(shares)
            && RepeatOf(o, names, repeats).Success? && RepeatOf(o, names, repeats).value.score == RepeatScore(shares)
  {
    var repeats := VendorRepeats(EdgesOf(txs, list), o.id);
    RepeatShares(txs, list, o.id);
    RepeatValues(txs, list, o.id, repeats.keys);
    CountsAreShares(ValuesAt(repeats, repeats.keys, 0), repeats.keys, txs, o.id);
  }

  lemma VendorsListed(txs: seq<Transaction>, list: Listing, o: string, vendors: seq<string>)
    requires IsListing(vendors, VendorsOf(txs, o))
    ensures SameElements(VendorRepeats(EdgesOf(txs, list), o).keys, vendors)
  {
    RepeatKeys(txs, list, o);
    ListingsAgree(VendorRepeats(EdgesOf(txs, list), o).keys, vendors, VendorsOf(txs, o));
  }

  /** The score from the transactions alone: with two or more vendors, in whatever order they are listed, it is the sum
      of the squared differences of all pairs of their shares of the approvals, over one less than their number; with a
      single one it is 0. */
  lemma ScoreIsPairs(txs: seq<Transaction>, list: Listing, o: OfficialNode, names: map<string, string>,
                     vendors: seq<string>)
    requires IsListing(vendors, VendorsOf(txs, o.id)) && VendorsOf(txs, o.id) != {}
    ensures var r := RepeatOf(o, names, VendorRepeats(EdgesOf(txs, list), o.id));
            r.Success? && IsPairIndex(vendors, ApprovalShare(txs, o.id), r.value.score, 0.0)
  {
    VendorsListed(txs, list, o.id, vendors);
    SharesOfApprovals(txs, list, o, names);
    PairIndexOfListing(VendorRepeats(EdgesOf(txs, list), o.id).keys, vendors, ApprovalShare(txs, o.id));
  }

  /** The indicators that a score, a number of approvals and a number of vendors warrant, each once. */
  ghost predicate Warranted(indicators: seq<Indicator>, score: real, approvals: nat, vendors: nat) {
    && (HighVendorConcentration in indicators <==> score > 0.7)
    && (HighApprovalVolume in indicators <==> approvals > 100)
    && (FewVendorsHighApprovals in indicators <==> vendors < 3 && approvals > 10)
    && NoDuplicates(indicators)
  }

  lemma IndicatorsWarranted(score: real, approvals: nat, vendors: nat)
    ensures Warranted(IndicatorsOf(score, approvals, vendors), score, approvals, vendors)
  {
  }

  /** The reported indicators are those that the score and the transactions warrant. */
  lemma IndicatorsExact(txs: seq<Transaction>, list: Listing, o: OfficialNode, names: map<string, string>)
    requires VendorsOf(txs, o.id) != {}
    ensures var r := RepeatOf(o, names, VendorRepeats(EdgesOf(txs, list), o.id));
            && r.Success?
            && Warranted(r.value.indicators, r.value.score, ApprovalCount(txs, o.id), |VendorsOf(txs, o.id)|)
  {
    RepeatScoreExact(txs, list, o, names);
    var r := RepeatOf(o, names, VendorRepeats(EdgesOf(txs, list), o.id));
    IndicatorsWarranted(r.value.score, ApprovalCount(txs, o.id), |VendorsOf(txs, o.id)|);
  }

  // ---------------------------------------------------------------------------------------------
  // Counts by name
  // ---------------------------------------------------------------------------------------------

  /** The vendors have pairwise different names. */
  ghost predicate NamesDiffer(names: map<string, string>, vendors: set<string>) {
    forall v, w | v in vendors && w in vendors && NameOf(names, v) == NameOf(names, w) :: v == w
  }

  function NamesOf(names: map<string, string>, vendors: set<string>): set<string> {
    set v | v in vendors :: NameOf(names, v)
  }

  lemma {:induction false} ByNameKeys(repeats: Dict<string, nat>, names: map<string, string>, ks: seq<string>,
                                      vendors: set<string>)
    requires forall v :: v in ks <==> v in vendors
    ensures ByName(repeats, names, ks).Keys == NamesOf(names, vendors)
  {
    if ks == [] {
      assert vendors == {};
    } else {
      var init, last := ks[..|ks| - 1], ks[|ks| - 1];
      var fewer := set v | v in init;
      ByNameKeys(repeats, names, init, fewer);
      assert ks == init + [last];
      assert vendors == fewer + {last};
    }
  }

  lemma {:induction false} ByNameCounts(repeats: Dict<string, nat>, names: map<string, string>, ks: seq<string>,
                                       vendors: set<string>, v: string)
    requires NamesDiffer(names, vendors) && (forall w | w in ks :: w in vendors) && v in ks
    ensures NameOf(names, v) in ByName(repeats, names, ks)
    ensures ByName(repeats, names, ks)[NameOf(names, v)] == Get(repeats, v, 0)
  {
    var init, last := ks[..|ks| - 1], ks[|ks| - 1];
    assert ks == init + [last];
    if v != last {
      ByNameCounts(repeats, names, init, vendors, v);
    }
  }

  /** The last position whose name this is. */
  ghost predicate IsLastNamed(names: map<string, string>, ks: seq<string>, name: string, j: nat) {
    && j < |ks| && NameOf(names, ks[j]) == name
    && forall l: nat | j < l < |ks| :: NameOf(names, ks[l]) != name
  }

  /** Of vendors with one name the last one counts. */
  lemma {:induction false} ByNameLast(repeats: Dict<string, nat>, names: map<string, string>, ks: seq<string>,
                                      name: string)
    requires name in ByName(repeats, names, ks)
    ensures exists j: nat ::
              IsLastNamed(names, ks, name, j) && ByName(repeats, names, ks)[name] == Get(repeats, ks[j], 0)
  {
    var n: nat := |ks| - 1;
    if NameOf(names, ks[n]) == name {
      assert IsLastNamed(names, ks, name, n);
    } else {
      ByNameLast(repeats, names, ks[..n], name);
      var j: nat :| IsLastNamed(names, ks[..n], name, j)
                    && ByName(repeats, names, ks[..n])[name] == Get(repeats, ks[..n][j], 0);
      assert ks[..n][j] == ks[j];
      assert forall l: nat | j < l < n :: ks[..n][l] == ks[l];
      assert IsLastNamed(names, ks, name, j);
    }
  }

  /** The last node with this id. */
  ghost predicate IsLastNode(nodes: seq<VendorNode>, id: string, j: nat) {
    && j < |nodes| && nodes[j].id == id
    && forall l: nat | j < l < |nodes| :: nodes[l].id != id
  }

  /** A vendor is named as in the last node with its id, and by its id if there is none. */
  lemma {:induction false} NameExact(nodes: seq<VendorNode>, v: string)
    ensures (forall i | 0 <= i < |nodes| :: nodes[i].id != v) ==> NameOf(VendorNames(nodes), v) == v
    ensures (exists i :: 0 <= i < |nodes| && nodes[i].id == v) ==>
              exists j: nat :: IsLastNode(nodes, v, j) && NameOf(VendorNames(nodes), v) == nodes[j].name
  {
    if nodes != [] {
      var n: nat := |nodes| - 1;
      var init := nodes[..n];
      NameExact(init, v);
      assert forall i | 0 <= i < n :: init[i] == nodes[i];
      if nodes[n].id == v {
        assert IsLastNode(nodes, v, n);
      } else if j: nat :| IsLastNode(init, v, j) && NameOf(VendorNames(init), v) == init[j].name {
        assert IsLastNode(nodes, v, j) && nodes[j] == init[j];
      }
    }
  }

  lemma {:induction false} FewerNames(names: map<string, string>, vendors: set<string>)
    ensures |NamesOf(names, vendors)| <= |vendors|
    ensures |NamesOf(names, vendors)| == |vendors| <==> NamesDiffer(names, vendors)
    decreases vendors
  {
    if vendors == {} {
      assert NamesOf(names, vendors) == {};
    } else {
      var v :| v in vendors;
      var rest := vendors - {v};
      FewerNames(names, rest);
      assert vendors == rest + {v};
      NamesSnoc(names, rest, v);
      OneMoreName(names, rest, v);
    }
  }

  lemma NamesSnoc(names: map<string, string>, rest: set<string>, v: string)
    ensures NamesOf(names, rest + {v}) == NamesOf(names, rest) + {NameOf(names, v)}
  {
  }

  lemma OneMoreName(names: map<string, string>, rest: set<string>, v: string)
    requires v !in rest
    ensures NamesDiffer(names, rest + {v}) <==> NamesDiffer(names, rest) && NameOf(names, v) !in NamesOf(names, rest)
  {
    if NameOf(names, v) in NamesOf(names, rest) {
      var w :| w in rest && NameOf(names, w) == NameOf(names, v);
      assert w in rest + {v} && v in rest + {v};
    }
  }

  /** The reported counts are keyed by name, so vendors of one name overwrite each other: as many counts are left
      as there are vendors if and only if the official's vendors have different names, and then each is the number
      of approvals for its vendor in the transactions. */
  lemma CountsByNameExact(txs: seq<Transaction>, list: Listing, o: OfficialNode, names: map<string, string>)
    requires VendorsOf(txs, o.id) != {}
    ensures var r := RepeatOf(o, names, VendorRepeats(EdgesOf(txs, list), o.id));
            && r.Success?
            && r.value.vendorRepeats.Keys == NamesOf(names, VendorsOf(txs, o.id))
            && |r.value.vendorRepeats| <= r.value.connections
            && (|r.value.vendorRepeats| == r.value.connections <==> NamesDiffer(names, VendorsOf(txs, o.id)))
            && (NamesDiffer(names, VendorsOf(txs, o.id)) ==>
                  forall v | v in VendorsOf(txs, o.id) ::
                    r.value.vendorRepeats[NameOf(names, v)] == Approvals(txs, o.id, v))
  {
    var repeats, vendors := VendorRepeats(EdgesOf(txs, list), o.id), VendorsOf(txs, o.id);
    RepeatScoreExact(txs, list, o, names);
    RepeatKeys(txs, list, o.id);
    ByNameKeys(repeats, names, repeats.keys, vendors);
    var byName := ByName(repeats, names, repeats.keys);
    assert |byName| == |byName.Keys|;
    FewerNames(names, vendors);
    if NamesDiffer(names, vendors) {
      forall v | v in vendors
        ensures byName[NameOf(names, v)] == Approvals(txs, o.id, v)
      {
        ByNameCounts(repeats, names, repeats.keys, vendors, v);
        RepeatAt(txs, list, o.id, v);
      }
    }
  }

  lemma {:induction false} FilterEmpty<T, K>(items: seq<T>, keep: T -> bool, key: T -> Option<K>)
    requires forall x :: keep(x) <==> key(x).Some?
    ensures Filter(items, keep) == [] <==> Keys(items, key) == []
  {
    if items != [] {
      FilterEmpty(items[..|items| - 1], keep, key);
    }
  }

  lemma OfficialResultExact(txs: seq<Transaction>, list: Listing, names: map<string, string>, o: OfficialNode)
    ensures OfficialResult(EdgesOf(txs, list), names, o)
            == if VendorsOf(txs, o.id) == {} then None
               else Some(RepeatOf(o, names, VendorRepeats(EdgesOf(txs, list), o.id)))
  {
    var edges := EdgesOf(txs, list);
    FilterEmpty(edges, IsApprovalBy(o.id), ApprovedVendor(o.id));
    TallyExact(edges, ApprovedVendor(o.id), 0, AddApprovals);
    DistinctEmpty(Keys(edges, ApprovedVendor(o.id)));
    RepeatKeys(txs, list, o.id);
    FirstIsMember(VendorRepeats(edges, o.id).keys);
  }

  /** Some listed official who approved for a vendor has this result. */
  ghost predicate IsResult(txs: seq<Transaction>, list: Listing, names: map<string, string>,
                           officials: seq<OfficialNode>, r: RepeatResult)
  {
    exists o :: o in officials && ResultFor(txs, list, names, o, r)
  }

  ghost predicate ResultFor(txs: seq<Transaction>, list: Listing, names: map<string, string>, o: OfficialNode,
                            r: RepeatResult)
  {
    VendorsOf(txs, o.id) != {} && RepeatOf(o, names, VendorRepeats(EdgesOf(txs, list), o.id)) == Success(r)
  }

  lemma OfficialSucceeds(txs: seq<Transaction>, list: Listing, names: map<string, string>, o: OfficialNode)
    ensures VendorsOf(txs, o.id) != {} ==> RepeatOf(o, names, VendorRepeats(EdgesOf(txs, list), o.id)).Success?
  {
    if VendorsOf(txs, o.id) != {} {
      RepeatScoreExact(txs, list, o, names);
    }
  }

  lemma IsResultSnoc(txs: seq<Transaction>, list: Listing, names: map<string, string>, officials: seq<OfficialNode>,
                     o: OfficialNode, r: RepeatResult)
    ensures IsResult(txs, list, names, officials + [o], r)
            <==> IsResult(txs, list, names, officials, r) || ResultFor(txs, list, names, o, r)
  {
    assert o in officials + [o];
    assert forall p | p in officials :: p in officials + [o];
  }

  /** Over built edges the repeat analysis never divides by zero; it reports exactly the listed officials that
      approved for some vendor. */
  lemma {:induction false} RepeatsExact(txs: seq<Transaction>, list: Listing, names: map<string, string>,
                                        officials: seq<OfficialNode>, r: RepeatResult)
    ensures RepeatsOf(EdgesOf(txs, list), names, officials).Success?
    ensures r in RepeatsOf(EdgesOf(txs, list), names, officials).value <==> IsResult(txs, list, names, officials, r)
  {
    if officials != [] {
      var init, o := officials[..|officials| - 1], officials[|officials| - 1];
      assert officials == init + [o];
      RepeatsExact(txs, list, names, init, r);
      OfficialResultExact(txs, list, names, o);
      IsResultSnoc(txs, list, names, init, o, r);
      OfficialSucceeds(txs, list, names, o);
    }
  }

  ghost function ApprovesSome(txs: seq<Transaction>, officials: seq<OfficialNode>): nat -> bool {
    (i: nat) => i < |officials| && VendorsOf(txs, officials[i].id) != {}
  }

  ghost function ResultAt(txs: seq<Transaction>, list: Listing, names: map<string, string>,
                          officials: seq<OfficialNode>): (nat, RepeatResult) -> bool {
    (i: nat, r: RepeatResult) => i < |officials| && ResultFor(txs, list, names, officials[i], r)
  }

  lemma RepeatsNext(txs: seq<Transaction>, list: Listing, names: map<string, string>, officials: seq<OfficialNode>,
                    n: nat, earlier: seq<RepeatResult>)
    requires n < |officials| && RepeatsOf(EdgesOf(txs, list), names, officials[..n]) == Success(earlier)
    ensures var mine := RepeatOf(officials[n], names, VendorRepeats(EdgesOf(txs, list), officials[n].id));
            if VendorsOf(txs, officials[n].id) == {}
            then RepeatsOf(EdgesOf(txs, list), names, officials[..n + 1]) == Success(earlier)
            else mine.Success?
                 && RepeatsOf(EdgesOf(txs, list), names, officials[..n + 1]) == Success(earlier + [mine.value])
  {
    RepeatsStep(EdgesOf(txs, list), names, officials, n);
    OfficialResultExact(txs, list, names, officials[n]);
    OfficialSucceeds(txs, list, names, officials[n]);
  }

  /** The results of the first `n` officials. */
  ghost predicate ResultsListed(txs: seq<Transaction>, list: Listing, names: map<string, string>,
                                officials: seq<OfficialNode>, n: nat)
    requires n <= |officials|
  {
    var results := RepeatsOf(EdgesOf(txs, list), names, officials[..n]);
    && results.Success?
    && Lists(n, ApprovesSome(txs, officials), results.value, ResultAt(txs, list, names, officials))
  }

  lemma ResultsListedNext(txs: seq<Transaction>, list: Listing, names: map<string, string>,
                          officials: seq<OfficialNode>, n: nat)
    requires n < |officials| && ResultsListed(txs, list, names, officials, n)
    ensures ResultsListed(txs, list, names, officials, n + 1)
  {
    var wanted, fits := ApprovesSome(txs, officials), ResultAt(txs, list, names, officials);
    var earlier := RepeatsOf(EdgesOf(txs, list), names, officials[..n]).value;
    var mine := RepeatOf(officials[n], names, VendorRepeats(EdgesOf(txs, list), officials[n].id));
    RepeatsNext(txs, list, names, officials, n, earlier);
    if VendorsOf(txs, officials[n].id) == {} {
      ListsSkip(n, wanted, earlier, fits);
    } else {
      ListsNext(n, wanted, earlier, fits, mine.value);
    }
  }

  /** The results as a list: one for exactly each listed official that approved for some vendor, in the order of the
      officials. */
  lemma {:induction false} RepeatsInOrder(txs: seq<Transaction>, list: Listing, names: map<string, string>,
                                          officials: seq<OfficialNode>, n: nat)
    requires n <= |officials|
    ensures ResultsListed(txs, list, names, officials, n)
  {
    if n == 0 {
      ListsNone(ApprovesSome(txs, officials), ResultAt(txs, list, names, officials));
    } else {
      RepeatsInOrder(txs, list, names, officials, n - 1);
      ResultsListedNext(txs, list, names, officials, n - 1);
    }
  }

  // ---------------------------------------------------------------------------------------------
  // Vendors that share an official
  // ---------------------------------------------------------------------------------------------

  /** The vendors at the ends of the edges. */
  function Ends(edges: seq<Edge>): set<string> {
    Folded(edges, {}, AddEnds)
  }

  lemma {:induction false} EndsConcat(a: seq<Edge>, b: seq<Edge>)
    ensures Ends(a + b) == Ends(a) + Ends(b)
  {
    if b == [] {
      assert a + b == a;
    } else {
      EndsConcat(a, b[..|b| - 1]);
      assert (a + b)[..|a + b| - 1] == a + b[..|b| - 1];
    }
  }

  ghost function Between(vendors: seq<string>, i: nat, n: nat): set<string>
    requires n <= |vendors|
  {
    set j | i <= j < n :: vendors[j]
  }

  lemma BetweenSnoc(vendors: seq<string>, i: nat, n: nat)
    requires i < n <= |vendors|
    ensures Between(vendors, i, n) == Between(vendors, i, n - 1) + {vendors[n - 1]}
    ensures vendors[i] in Between(vendors, i, n)
  {
  }

  lemma {:induction false} RowEnds(o: string, vendors: seq<string>, i: nat, n: nat)
    requires i < n <= |vendors|
    ensures Ends(RowEdges(o, vendors, i, n)) == if n == i + 1 then {} else Between(vendors, i, n)
    ensures |RowEdges(o, vendors, i, n)| == n - 1 - i
  {
    if n > i + 1 {
      var row, e := RowEdges(o, vendors, i, n - 1), SharesOfficial(vendors[i], vendors[n - 1], o);
      RowEnds(o, vendors, i, n - 1);
      EndsConcat(row, [e]);
      FoldOfOne(e, {}, AddEnds);
      BetweenSnoc(vendors, i, n);
      BetweenSnoc(vendors, i, n - 1);
      if n == i + 2 {
        BetweenNone(vendors, i);
      }
    }
  }

  lemma BetweenNone(vendors: seq<string>, i: nat)
    requires i < |vendors|
    ensures Between(vendors, i, i) == {} && Between(vendors, i, i + 1) == {vendors[i]}
  {
  }

  lemma BetweenIncluded(vendors: seq<string>, i: nat)
    requires i <= |vendors|
    ensures Between(vendors, i, |vendors|) <= Between(vendors, 0, |vendors|)
  {
  }

  lemma PairEndsNext(o: string, vendors: seq<string>, m: nat)
    requires 0 < m <= |vendors|
    requires Ends(PairEdges(o, vendors, m - 1))
             == if m == 1 || |vendors| == 1 then {} else Between(vendors, 0, |vendors|)
    ensures Ends(PairEdges(o, vendors, m)) == if |vendors| == 1 then {} else Between(vendors, 0, |vendors|)
  {
    RowEnds(o, vendors, m - 1, |vendors|);
    EndsConcat(PairEdges(o, vendors, m - 1), RowEdges(o, vendors, m - 1, |vendors|));
    BetweenIncluded(vendors, m - 1);
    UnionStep(Ends(PairEdges(o, vendors, m - 1)), Ends(RowEdges(o, vendors, m - 1, |vendors|)),
              Between(vendors, 0, |vendors|), Between(vendors, m - 1, |vendors|), m, |vendors|);
  }

  lemma {:induction false} PairEnds(o: string, vendors: seq<string>, m: nat)
    requires m <= |vendors|
    ensures Ends(PairEdges(o, vendors, m)) == if m == 0 || |vendors| == 1 then {} else Between(vendors, 0, |vendors|)
  {
    if m > 0 {
      PairEnds(o, vendors, m - 1);
      PairEndsNext(o, vendors, m);
    }
  }

  lemma UnionStep<T>(earlier: set<T>, row: set<T>, all: set<T>, part: set<T>, m: nat, n: nat)
    requires 0 < m <= n && part <= all && (m == 1 ==> part == all)
    requires earlier == if m == 1 || n == 1 then {} else all
    requires row == if m == n then {} else part
    ensures earlier + row == if n == 1 then {} else all
  {
  }

  lemma {:induction false} PairCount(o: string, vendors: seq<string>, m: nat)
    requires m <= |vendors|
    ensures 2 * |PairEdges(o, vendors, m)| == m * (2 * |vendors| - m - 1)
  {
    if m > 0 {
      PairCount(o, vendors, m - 1);
      RowEnds(o, vendors, m - 1, |vendors|);
      PairCountStep(m, |vendors|);
    }
  }

  lemma PairCountStep(m: int, n: int)
    ensures (m - 1) * (2 * n - (m - 1) - 1) + 2 * (n - m) == m * (2 * n - m - 1)
  {
  }

  lemma {:induction false} RowHas(o: string, vendors: seq<string>, i: nat, j: nat, n: nat)
    requires i < j < n <= |vendors|
    ensures SharesOfficial(vendors[i], vendors[j], o) in RowEdges(o, vendors, i, n)
  {
    if j < n - 1 {
      RowHas(o, vendors, i, j, n - 1);
    }
  }

  lemma {:induction false} PairHas(o: string, vendors: seq<string>, i: nat, j: nat, m: nat)
    requires i < j < |vendors| && i < m <= |vendors|
    ensures SharesOfficial(vendors[i], vendors[j], o) in PairEdges(o, vendors, m)
  {
    if i == m - 1 {
      RowHas(o, vendors, i, j, |vendors|);
    } else {
      PairHas(o, vendors, i, j, m - 1);
    }
  }

  /** Every two different vendors of an official are joined by an edge, and there are only as many edges as
      such pairs, so each pair is joined once. */
  lemma EveryPairOnce(txs: seq<Transaction>, list: Listing, o: string, v: string, w: string)
    requires ListsVendors(list, txs)
    ensures var edges, n := SharingEdgesOf(txs, list, o), |VendorsOf(txs, o)|;
            && 2 * |edges| == n * (n - 1)
            && (v in VendorsOf(txs, o) && w in VendorsOf(txs, o) && v != w ==>
                  SharesOfficial(v, w, o) in edges || SharesOfficial(w, v, o) in edges)
  {
    var vendors := list(o, VendorsOf(txs, o));
    assert IsListing(list(o, VendorsOf(txs, o)), VendorsOf(txs, o));
    SizeOfDistinct(vendors, VendorsOf(txs, o));
    PairCount(o, vendors, |vendors|);
    if v in VendorsOf(txs, o) && w in VendorsOf(txs, o) && v != w {
      var i :| 0 <= i < |vendors| && vendors[i] == v;
      var j :| 0 <= j < |vendors| && vendors[j] == w;
      if i < j {
        PairHas(o, vendors, i, j, |vendors|);
      } else {
        PairHas(o, vendors, j, i, |vendors|);
      }
    }
  }

  lemma {:induction false} GroupAll<T, K>(items: seq<T>, key: T -> Option<K>, k: K)
    requires forall i | 0 <= i < |items| :: key(items[i]) == Some(k)
    ensures Group(items, key, k) == items
  {
    if items != [] {
      GroupAll(items[..|items| - 1], key, k);
    }
  }

  lemma OneOfficialGroup(txs: seq<Transaction>, list: Listing, o: string, o': string)
    ensures Group(SharingEdgesOf(txs, list, o'), SharedOfficial, o)
            == if o == o' then SharingEdgesOf(txs, list, o) else []
  {
    var edges := SharingEdgesOf(txs, list, o');
    PairKinds(o', list(o', VendorsOf(txs, o')), |list(o', VendorsOf(txs, o'))|);
    assert SharedBy(edges, o');
    if o == o' {
      GroupAll(edges, SharedOfficial, o);
    } else {
      GroupNone(edges, SharedOfficial, o);
    }
  }

  lemma {:induction false} SharingGroup(txs: seq<Transaction>, list: Listing, officials: seq<string>, o: string)
    requires NoDuplicates(officials)
    ensures Group(SharingEdges(txs, list, officials), SharedOfficial, o)
            == if o in officials then SharingEdgesOf(txs, list, o) else []
  {
    if officials != [] {
      var init, last := officials[..|officials| - 1], officials[|officials| - 1];
      assert officials == init + [last];
      assert last !in init;
      SharingGroup(txs, list, init, o);
      GroupConcat(SharingEdges(txs, list, init), SharingEdgesOf(txs, list, last), SharedOfficial, o);
      OneOfficialGroup(txs, list, o, last);
      if o == last {
        EmptyHead(SharingEdgesOf(txs, list, o));
      }
    }
  }

  lemma OfficialsAreKeys(txs: seq<Transaction>, o: string)
    ensures o in Keys(txs, ApproverKey) <==> VendorsOf(txs, o) != {}
  {
    KeysMember(txs, ApproverKey, o);
    if o in Keys(txs, ApproverKey) {
      var t :| t in txs && ApproverKey(t) == Some(o);
      KeysMember(txs, VendorApprovedBy(o), t.vendorId);
      VendorsOfExact(txs, o, t.vendorId);
    }
  }

  lemma EndsOfNone(edges: seq<Edge>)
    ensures Ends(edges) == {} <==> edges == []
  {
  }

  lemma SharedVendors(txs: seq<Transaction>, list: Listing, o: string)
    requires ListsVendors(list, txs)
    ensures Ends(SharingEdgesOf(txs, list, o)) == if |VendorsOf(txs, o)| >= 2 then VendorsOf(txs, o) else {}
    ensures SharingEdgesOf(txs, list, o) != [] <==> |VendorsOf(txs, o)| >= 2
  {
    var s := VendorsOf(txs, o);
    var vendors := list(o, s);
    assert IsListing(list(o, s), s);
    SizeOfDistinct(vendors, s);
    PairEnds(o, vendors, |vendors|);
    assert Between(vendors, 0, |vendors|) == s;
    EndsOfNone(SharingEdgesOf(txs, list, o));
  }

  /** The analysis rebuilds exactly the vendors of each official that has two or more. */
  lemma SharingIsRebuilt(txs: seq<Transaction>, list: Listing, o: string)
    requires ListsVendors(list, txs)
    ensures var sharing := OfficialSharing(EdgesOf(txs, list));
            && (o in sharing.keys <==> |VendorsOf(txs, o)| >= 2)
            && Get(sharing, o, {}) == if |VendorsOf(txs, o)| >= 2 then VendorsOf(txs, o) else {}
  {
    var edges := EdgesOf(txs, list);
    TallyExact(edges, SharedOfficial, {}, AddEnds);
    DistinctExact(Keys(edges, SharedOfficial));
    KeysMember(edges, SharedOfficial, o);
    SharingPart(txs, list, SharedOfficial, o);
    DistinctExact(Keys(txs, ApproverKey));
    SharingGroup(txs, list, Distinct(Keys(txs, ApproverKey)), o);
    OfficialsAreKeys(txs, o);
    SharedVendors(txs, list, o);
  }

  // ---------------------------------------------------------------------------------------------
  // Vendors in many departments
  // ---------------------------------------------------------------------------------------------

  function DepartmentsAmong(ks: seq<Pair>, v: string): set<string> {
    set k | k in ks && k.source == v :: k.target
  }

  /** The departments that the vendor has transactions with. */
  function DepartmentsOf(txs: seq<Transaction>, v: string): set<string> {
    set t | t in txs && SupplyKey(t).Some? && t.vendorId == v :: t.departmentId
  }

  lemma {:induction false} CountIsSize(edges: seq<Edge>)
    ensures Folded(edges, 0, AddOne) == |edges|
  {
    if edges != [] {
      CountIsSize(edges[..|edges| - 1]);
    }
  }

  lemma DepartmentsAmongStep(init: seq<Pair>, k: Pair, v: string)
    requires k !in init
    ensures |DepartmentsAmong(init + [k], v)|
            == if k.source == v then |DepartmentsAmong(init, v)| + 1 else |DepartmentsAmong(init, v)|
  {
    var ks := init + [k];
    assert forall x :: x in ks <==> x in init || x == k;
    if k.source == v {
      assert k.target !in DepartmentsAmong(init, v);
      assert DepartmentsAmong(ks, v) == DepartmentsAmong(init, v) + {k.target};
    } else {
      assert DepartmentsAmong(ks, v) == DepartmentsAmong(init, v);
    }
  }

  lemma {:induction false} SupplierGroup(txs: seq<Transaction>, ks: seq<Pair>, v: string)
    requires NoDuplicates(ks)
    ensures |Group(SupplyEdges(txs, ks), Supplier, v)| == |DepartmentsAmong(ks, v)|
  {
    if ks == [] {
      assert DepartmentsAmong(ks, v) == {};
    } else {
      var init, k := ks[..|ks| - 1], ks[|ks| - 1];
      SupplierGroup(txs, init, v);
      GroupConcat(SupplyEdges(txs, init), [SupplyEdge(txs, k)], Supplier, v);
      GroupOfOne(SupplyEdge(txs, k), Supplier, v);
      assert ks == init + [k];
      assert k !in init;
      DepartmentsAmongStep(init, k, v);
    }
  }

  lemma DepartmentsAreKeys(txs: seq<Transaction>, v: string)
    ensures DepartmentsAmong(Distinct(Keys(txs, SupplyKey)), v) == DepartmentsOf(txs, v)
  {
    DistinctExact(Keys(txs, SupplyKey));
    forall d ensures Pair(v, d) in Keys(txs, SupplyKey) <==> d in DepartmentsOf(txs, v) {
      KeysMember(txs, SupplyKey, Pair(v, d));
    }
  }

  /** The analysis counts for each vendor the different departments it has transactions with. */
  lemma DepartmentsAreCounted(txs: seq<Transaction>, list: Listing, v: string)
    ensures var counts := DepartmentCounts(EdgesOf(txs, list));
            && Get(counts, v, 0) == |DepartmentsOf(txs, v)|
            && (v in counts.keys <==> DepartmentsOf(txs, v) != {})
  {
    var edges := EdgesOf(txs, list);
    TallyExact(edges, Supplier, 0, AddOne);
    DistinctExact(Keys(edges, Supplier));
    KeysMember(edges, Supplier, v);
    SupplyPart(txs, list, Supplier, v);
    DistinctExact(Keys(txs, SupplyKey));
    SupplierGroup(txs, Distinct(Keys(txs, SupplyKey)), v);
    CountIsSize(Group(edges, Supplier, v));
    DepartmentsAreKeys(txs, v);
  }
}

/** The analysis of a built graph, traced back to the raw transactions. */
module GraphAggregates {
  import opened Concentration
  import opened Dicts
  import opened GraphAnalyzer
  import opened GraphBuilder
  import opened Options
  import opened RealSums
  import opened Sequences

  // ---------------------------------------------------------------------------------------------
  // Groups of the built edges
  // ---------------------------------------------------------------------------------------------

  lemma {:induction false} GroupNone<T, K>(items: seq<T>, key: T -> Option<K>, k: K)
    requires forall i | 0 <= i < |items| :: key(items[i]) != Some(k)
    ensures Group(items, key, k) == []
  {
    if items != [] {
      GroupNone(items[..|items| - 1], key, k);
    }
  }

  lemma {:induction false} GroupSame<T, K, L>(items: seq<T>, key: T -> Option<K>, k: K, key': T -> Option<L>, k': L)
    requires forall x :: key(x) == Some(k) <==> key'(x) == Some(k')
    ensures Group(items, key, k) == Group(items, key', k')
  {
    if items != [] {
      GroupSame(items[..|items| - 1], key, k, key', k');
    }
  }

  lemma {:induction false} SupplyKinds(txs: seq<Transaction>, ks: seq<Pair>)
    ensures forall i | 0 <= i < |SupplyEdges(txs, ks)| :: SupplyEdges(txs, ks)[i].Supplies?
  {
    if ks != [] {
      SupplyKinds(txs, ks[..|ks| - 1]);
    }
  }

  lemma {:induction false} ManageKinds(txs: seq<Transaction>, ks: seq<Pair>)
    ensures forall i | 0 <= i < |ManageEdges(txs, ks)| :: ManageEdges(txs, ks)[i].Manages?
  {
    if ks != [] {
      ManageKinds(txs, ks[..|ks| - 1]);
    }
  }

  lemma {:induction false} ApproveKinds(txs: seq<Transaction>, ks: seq<Pair>)
    ensures forall i | 0 <= i < |ApproveEdges(txs, ks)| :: ApproveEdges(txs, ks)[i].Approves?
  {
    if ks != [] {
      ApproveKinds(txs, ks[..|ks| - 1]);
    }
  }

  ghost predicate SharedBy(edges: seq<Edge>, o: string) {
    forall i | 0 <= i < |edges| :: edges[i].SharesOfficial? && edges[i].officialId == o
  }

  lemma {:induction false} RowKinds(o: string, vendors: seq<string>, i: nat, n: nat)
    requires i < n <= |vendors|
    ensures SharedBy(RowEdges(o, vendors, i, n), o)
  {
    if n > i + 1 {
      RowKinds(o, vendors, i, n - 1);
    }
  }

  lemma {:induction false} PairKinds(o: string, vendors: seq<string>, m: nat)
    requires m <= |vendors|
    ensures SharedBy(PairEdges(o, vendors, m), o)
  {
    if m > 0 {
      PairKinds(o, vendors, m - 1);
      RowKinds(o, vendors, m - 1, |vendors|);
    }
  }

  ghost predicate AllShares(edges: seq<Edge>) {
    forall i | 0 <= i < |edges| :: edges[i].SharesOfficial?
  }

  lemma AllSharesConcat(a: seq<Edge>, b: seq<Edge>)
    requires AllShares(a) && AllShares(b)
    ensures AllShares(a + b)
  {
  }

  lemma {:induction false} SharingKinds(txs: seq<Transaction>, list: Listing, officials: seq<string>)
    ensures AllShares(SharingEdges(txs, list, officials))
  {
    if officials != [] {
      var init, o := officials[..|officials| - 1], officials[|officials| - 1];
      SharingKinds(txs, list, init);
      PairKinds(o, list(o, VendorsOf(txs, o)), |list(o, VendorsOf(txs, o))|);
      AllSharesConcat(SharingEdges(txs, list, init), SharingEdgesOf(txs, list, o));
    }
  }

  /** A key that only one kind of edge carries sees only that part of the built edges. */
  lemma GroupOfBuilt<K>(txs: seq<Transaction>, list: Listing, key: Edge -> Option<K>, k: K)
    ensures Group(EdgesOf(txs, list), key, k)
            == Group(SupplyEdges(txs, Distinct(Keys(txs, SupplyKey))), key, k)
               + Group(ManageEdges(txs, Distinct(Keys(txs, ManageKey))), key, k)
               + Group(ApproveEdges(txs, Distinct(Keys(txs, ApproveKey))), key, k)
               + Group(SharingEdges(txs, list, Distinct(Keys(txs, ApproverKey))), key, k)
  {
    var s, m := SupplyEdges(txs, Distinct(Keys(txs, SupplyKey))), ManageEdges(txs, Distinct(Keys(txs, ManageKey)));
    var a := ApproveEdges(txs, Distinct(Keys(txs, ApproveKey)));
    var h := SharingEdges(txs, list, Distinct(Keys(txs, ApproverKey)));
    GroupConcat(s, m, key, k);
    GroupConcat(s + m, a, key, k);
    GroupConcat(s + m + a, h, key, k);
  }

  lemma NoneOfKind<K>(edges: seq<Edge>, key: Edge -> Option<K>, k: K, kind: Edge -> bool)
    requires forall i | 0 <= i < |edges| :: kind(edges[i])
    requires forall e: Edge :: key(e) == Some(k) ==> !kind(e)
    ensures Group(edges, key, k) == []
  {
    GroupNone(edges, key, k);
  }

  const IsSupplies: Edge -> bool := (e: Edge) => e.Supplies?
  const IsManages: Edge -> bool := (e: Edge) => e.Manages?
  const IsApproves: Edge -> bool := (e: Edge) => e.Approves?
  const IsShares: Edge -> bool := (e: Edge) => e.SharesOfficial?

  lemma SupplyPart<K>(txs: seq<Transaction>, list: Listing, key: Edge -> Option<K>, k: K)
    requires forall e: Edge :: key(e) == Some(k) ==> e.Supplies?
    ensures Group(EdgesOf(txs, list), key, k) == Group(SupplyEdges(txs, Distinct(Keys(txs, SupplyKey))), key, k)
  {
    GroupOfBuilt(txs, list, key, k);
    ManageKinds(txs, Distinct(Keys(txs, ManageKey)));
    NoneOfKind(ManageEdges(txs, Distinct(Keys(txs, ManageKey))), key, k, IsManages);
    ApproveKinds(txs, Distinct(Keys(txs, ApproveKey)));
    NoneOfKind(ApproveEdges(txs, Distinct(Keys(txs, ApproveKey))), key, k, IsApproves);
    SharingKinds(txs, list, Distinct(Keys(txs, ApproverKey)));
    NoneOfKind(SharingEdges(txs, list, Distinct(Keys(txs, ApproverKey))), key, k, IsShares);
    EmptyHead(Group(SupplyEdges(txs, Distinct(Keys(txs, SupplyKey))), key, k));
  }

  lemma ApprovePart<K>(txs: seq<Transaction>, list: Listing, key: Edge -> Option<K>, k: K)
    requires forall e: Edge :: key(e) == Some(k) ==> e.Approves?
    ensures Group(EdgesOf(txs, list), key, k) == Group(ApproveEdges(txs, Distinct(Keys(txs, ApproveKey))), key, k)
  {
    GroupOfBuilt(txs, list, key, k);
    SupplyKinds(txs, Distinct(Keys(txs, SupplyKey)));
    NoneOfKind(SupplyEdges(txs, Distinct(Keys(txs, SupplyKey))), key, k, IsSupplies);
    ManageKinds(txs, Distinct(Keys(txs, ManageKey)));
    NoneOfKind(ManageEdges(txs, Distinct(Keys(txs, ManageKey))), key, k, IsManages);
    SharingKinds(txs, list, Distinct(Keys(txs, ApproverKey)));
    NoneOfKind(SharingEdges(txs, list, Distinct(Keys(txs, ApproverKey))), key, k, IsShares);
    EmptyHead(Group(ApproveEdges(txs, Distinct(Keys(txs, ApproveKey))), key, k));
  }

  lemma SharingPart<K>(txs: seq<Transaction>, list: Listing, key: Edge -> Option<K>, k: K)
    requires forall e: Edge :: key(e) == Some(k) ==> e.SharesOfficial?
    ensures Group(EdgesOf(txs, list), key, k)
            == Group(SharingEdges(txs, list, Distinct(Keys(txs, ApproverKey))), key, k)
  {
    GroupOfBuilt(txs, list, key, k);
    SupplyKinds(txs, Distinct(Keys(txs, SupplyKey)));
    NoneOfKind(SupplyEdges(txs, Distinct(Keys(txs, SupplyKey))), key, k, IsSupplies);
    ManageKinds(txs, Distinct(Keys(txs, ManageKey)));
    NoneOfKind(ManageEdges(txs, Distinct(Keys(txs, ManageKey))), key, k, IsManages);
    ApproveKinds(txs, Distinct(Keys(txs, ApproveKey)));
    NoneOfKind(ApproveEdges(txs, Distinct(Keys(txs, ApproveKey))), key, k, IsApproves);
    EmptyHead(Group(SharingEdges(txs, list, Distinct(Keys(txs, ApproverKey))), key, k));
  }

  lemma {:induction false} SupplyGroup(txs: seq<Transaction>, ks: seq<Pair>, d: string, v: string)
    requires NoDuplicates(ks)
    ensures Group(SupplyEdges(txs, ks), SupplierTo(d), v)
            == if Pair(v, d) in ks then [SupplyEdge(txs, Pair(v, d))] else []
  {
    if ks != [] {
      var init, k := ks[..|ks| - 1], ks[|ks| - 1];
      SupplyGroup(txs, init, d, v);
      assert ks == init + [k];
      assert k !in init;
      GroupConcat(SupplyEdges(txs, init), [SupplyEdge(txs, k)], SupplierTo(d), v);
      GroupOfOne(SupplyEdge(txs, k), SupplierTo(d), v);
    }
  }

  lemma GroupOfOne<T, K>(x: T, key: T -> Option<K>, k: K)
    ensures Group([x], key, k) == if key(x) == Some(k) then [x] else []
  {
    assert [x][..0] == [];
  }

  lemma {:induction false} ApproveGroup(txs: seq<Transaction>, ks: seq<Pair>, o: string, v: string)
    requires NoDuplicates(ks)
    ensures Group(ApproveEdges(txs, ks), ApprovedVendor(o), v)
            == if Pair(o, v) in ks then [ApproveEdge(txs, Pair(o, v))] else []
  {
    if ks != [] {
      var init, k := ks[..|ks| - 1], ks[|ks| - 1];
      ApproveGroup(txs, init, o, v);
      assert ks == init + [k];
      assert k !in init;
      GroupConcat(ApproveEdges(txs, init), [ApproveEdge(txs, k)], ApprovedVendor(o), v);
      GroupOfOne(ApproveEdge(txs, k), ApprovedVendor(o), v);
    }
  }

  /** There is one edge from a vendor to a department that it has transactions with, carrying exactly their
      number and their sum, and none otherwise; likewise from an official to a vendor. */
  lemma EdgesAreExact(txs: seq<Transaction>, list: Listing, a: string, b: string)
    ensures Group(EdgesOf(txs, list), SupplierTo(b), a)
            == if Group(txs, SupplyKey, Pair(a, b)) == [] then [] else [SupplyEdge(txs, Pair(a, b))]
    ensures Group(EdgesOf(txs, list), ApprovedVendor(a), b)
            == if Group(txs, ApproveKey, Pair(a, b)) == [] then [] else [ApproveEdge(txs, Pair(a, b))]
  {
    SupplyPart(txs, list, SupplierTo(b), a);
    ApprovePart(txs, list, ApprovedVendor(a), b);
    DistinctExact(Keys(txs, SupplyKey));
    DistinctExact(Keys(txs, ApproveKey));
    SupplyGroup(txs, Distinct(Keys(txs, SupplyKey)), b, a);
    ApproveGroup(txs, Distinct(Keys(txs, ApproveKey)), a, b);
    KeysMember(txs, SupplyKey, Pair(a, b));
    KeysMember(txs, ApproveKey, Pair(a, b));
  }

  // ---------------------------------------------------------------------------------------------
  // A department's spend
  // ---------------------------------------------------------------------------------------------

  /** The vendor of a transaction of the department. */
  function VendorIn(d: string): Transaction -> Option<string> {
    (t: Transaction) => if t.vendorId != "" && d != "" && t.departmentId == d then Some(t.vendorId) else None
  }

  /** What the department spent, straight from the transactions. */
  function DepartmentSpend(txs: seq<Transaction>, d: string): real {
    KeyedSum(txs, VendorIn(d), AmountOf)
  }

  function Suppliers(txs: seq<Transaction>, d: string): set<string> {
    set t | t in txs && VendorIn(d)(t).Some? :: t.vendorId
  }

  lemma FoldOfOne<T, V>(x: T, zero: V, add: (V, T) -> V)
    ensures Folded([x], zero, add) == add(zero, x)
  {
    assert [x][..0] == [];
  }

  lemma LatestOfEdges(edges: seq<Edge>, e: Edge)
    requires edges == [] || edges == [e]
    ensures Folded(edges, 0.0, LatestSpend) == if edges == [] then 0.0 else SpendOn(e)
  {
    FoldOfOne(e, 0.0, LatestSpend);
  }

  lemma SpendTallied(edges: seq<Edge>, d: string, v: string)
    ensures Get(VendorSpend(edges, d), v, 0.0) == Folded(Group(edges, SupplierTo(d), v), 0.0, LatestSpend)
    ensures v in VendorSpend(edges, d).keys <==> Group(edges, SupplierTo(d), v) != []
  {
    TallyExact(edges, SupplierTo(d), 0.0, LatestSpend);
    DistinctExact(Keys(edges, SupplierTo(d)));
    KeysMember(edges, SupplierTo(d), v);
  }

  lemma SpendAt(txs: seq<Transaction>, list: Listing, d: string, v: string)
    ensures Get(VendorSpend(EdgesOf(txs, list), d), v, 0.0) == SumBy(Group(txs, VendorIn(d), v), AmountOf)
    ensures v in VendorSpend(EdgesOf(txs, list), d).keys <==> Group(txs, VendorIn(d), v) != []
  {
    SpendTallied(EdgesOf(txs, list), d, v);
    EdgesAreExact(txs, list, v, d);
    GroupSame(txs, SupplyKey, Pair(v, d), VendorIn(d), v);
    LatestOfEdges(Group(EdgesOf(txs, list), SupplierTo(d), v), SupplyEdge(txs, Pair(v, d)));
  }

  lemma {:induction false} SpendValues(txs: seq<Transaction>, list: Listing, d: string, vendors: seq<string>)
    ensures ValuesAt(VendorSpend(EdgesOf(txs, list), d), vendors, 0.0) == GroupSums(txs, VendorIn(d), AmountOf, vendors)
  {
    if vendors != [] {
      SpendValues(txs, list, d, vendors[..|vendors| - 1]);
      SpendAt(txs, list, d, vendors[|vendors| - 1]);
    }
  }

  lemma SpendKeys(txs: seq<Transaction>, list: Listing, d: string)
    ensures var ks := VendorSpend(EdgesOf(txs, list), d).keys;
            NoDuplicates(ks) && forall v :: v in ks <==> v in Suppliers(txs, d)
  {
    var edges := EdgesOf(txs, list);
    TallyExact(edges, SupplierTo(d), 0.0, LatestSpend);
    DistinctExact(Keys(edges, SupplierTo(d)));
    forall v ensures v in VendorSpend(edges, d).keys <==> v in Suppliers(txs, d) {
      SpendAt(txs, list, d, v);
      KeysMember(txs, VendorIn(d), v);
    }
  }

  lemma {:induction false} SizeOfDistinct<T>(s: seq<T>, elements: set<T>)
    requires NoDuplicates(s) && forall x :: x in s <==> x in elements
    ensures |s| == |elements|
  {
    if s == [] {
      assert elements == {};
    } else {
      var init, last := s[..|s| - 1], s[|s| - 1];
      assert s == init + [last];
      SizeOfDistinct(init, elements - {last});
    }
  }

  /** The total that the analysis reports is the department's spend in the transactions, over as many vendors
      as supply it. */
  lemma SpendIsConserved(txs: seq<Transaction>, list: Listing, d: string)
    ensures var r := HhiOf(EdgesOf(txs, list), d);
            r.totalSpend == DepartmentSpend(txs, d) && r.vendorCount == |Suppliers(txs, d)|
  {
    var ks := VendorSpend(EdgesOf(txs, list), d).keys;
    SpendKeys(txs, list, d);
    SpendValues(txs, list, d, ks);
    forall v | v in Keys(txs, VendorIn(d)) ensures v in ks {
      KeysMember(txs, VendorIn(d), v);
    }
    GroupsPartition(txs, VendorIn(d), AmountOf, ks);
    SizeOfDistinct(ks, Suppliers(txs, d));
  }

  lemma {:induction false} AmountsArePositive(g: seq<Transaction>)
    ensures g != [] ==> SumBy(g, AmountOf) > 0.0
  {
    if g != [] {
      AmountsArePositive(g[..|g| - 1]);
    }
  }

  lemma {:induction false} SpendIsPositive(txs: seq<Transaction>, d: string, vendors: seq<string>)
    requires forall i | 0 <= i < |vendors| :: Group(txs, VendorIn(d), vendors[i]) != []
    ensures AllPositive(GroupSums(txs, VendorIn(d), AmountOf, vendors))
    ensures |GroupSums(txs, VendorIn(d), AmountOf, vendors)| == |vendors|
    ensures forall i | 0 <= i < |vendors| ::
              GroupSums(txs, VendorIn(d), AmountOf, vendors)[i] == SumBy(Group(txs, VendorIn(d), vendors[i]), AmountOf)
  {
    if vendors != [] {
      SpendIsPositive(txs, d, vendors[..|vendors| - 1]);
      AmountsArePositive(Group(txs, VendorIn(d), vendors[|vendors| - 1]));
    }
  }

  /** The spend of one supplier of the department. */
  function SpendWith(txs: seq<Transaction>, d: string, v: string): real {
    SumBy(Group(txs, VendorIn(d), v), AmountOf)
  }

  ghost predicate SpendsEqually(txs: seq<Transaction>, d: string) {
    forall v, w | v in Suppliers(txs, d) && w in Suppliers(txs, d) :: SpendWith(txs, d, v) == SpendWith(txs, d, w)
  }

  // ---------------------------------------------------------------------------------------------
  // Vendor nodes
  // ---------------------------------------------------------------------------------------------

  function Ids(rows: seq<Row>): seq<string> {
    if rows == [] then [] else Ids(rows[..|rows| - 1]) + [rows[|rows| - 1].id]
  }

  function NodeSpends(nodes: seq<VendorNode>): seq<real> {
    if nodes == [] then [] else NodeSpends(nodes[..|nodes| - 1]) + [nodes[|nodes| - 1].totalSpend]
  }

  lemma {:induction false} NodeSpendsAreSums(txs: seq<Transaction>, rows: seq<Row>)
    ensures NodeSpends(VendorNodes(txs, rows)) == GroupSums(txs, VendorKey, AmountOf, Ids(rows))
  {
    if rows != [] {
      var init := rows[..|rows| - 1];
      NodeSpendsAreSums(txs, init);
      var nodes, ids := VendorNodes(txs, init), Ids(init);
      assert (nodes + [VendorNodeOf(txs, rows[|rows| - 1])])[..|nodes|] == nodes;
      assert (ids + [rows[|rows| - 1].id])[..|ids|] == ids;
    }
  }

  /** If the database returns every vendor of the transactions once, the spends on the vendor nodes add up to all
      that the transactions spent with a vendor. */
  lemma NodeSpendsAddUp(txs: seq<Transaction>, rows: seq<Row>)
    requires NoDuplicates(Ids(rows)) && forall v | v in Keys(txs, VendorKey) :: v in Ids(rows)
    ensures Sum(NodeSpends(VendorNodes(txs, rows))) == KeyedSum(txs, VendorKey, AmountOf)
  {
    NodeSpendsAreSums(txs, rows);
    GroupsPartition(txs, VendorKey, AmountOf, Ids(rows));
  }
}

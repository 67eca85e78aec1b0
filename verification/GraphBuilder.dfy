/** The vendor graph's edges, built from the raw transactions. */
module GraphBuilder {
  import opened Dicts
  import opened Options
  import opened Sequences

  /** A fetched row; an absent id is the empty string, which the source treats the same way. The query
      returns positive amounts only. */
  datatype Transaction = Transaction(
    vendorId: string, departmentId: string, departmentName: string, approvedBy: string, amount: Amount)
  type Amount = x: real | x > 0.0 witness 1.0

  datatype Pair = Pair(source: string, target: string)

  datatype Edge =
    | Supplies(source: string, target: string, weight: real, transactionCount: nat, totalSpend: real)
    | Manages(source: string, target: string, approvalCount: nat)
    | Approves(source: string, target: string, weight: real, approvalCount: nat, totalValue: real)
    | SharesOfficial(source: string, target: string, officialId: string)

  datatype VendorNode = VendorNode(id: string, name: string, totalSpend: real, transactionCount: nat)
  datatype DepartmentNode = DepartmentNode(id: string, name: string, transactionCount: nat)
  datatype OfficialNode = OfficialNode(id: string, name: string, approvalCount: nat)

  /** The node list, kind by kind in its order, and the edges. */
  datatype VendorGraph = VendorGraph(
    vendors: seq<VendorNode>, departments: seq<DepartmentNode>, officials: seq<OfficialNode>, edges: seq<Edge>)

  /** A row of the vendors or of the officials. */
  datatype Row = Row(id: string, name: string)

  datatype GraphError = UndeclaredEdgeKind | UnknownDepartment | DivisionByZero
  datatype Result<T> = Success(value: T) | Failure(error: GraphError)

  /** The enumeration of edge kinds has no member for the edges from officials to vendors, so naming that
      member fails. The model takes its presence as a parameter; this is the value in the source. */
  const APPROVES_DECLARED := false

  // ---------------------------------------------------------------------------------------------
  // Keys and aggregates of the raw transactions
  // ---------------------------------------------------------------------------------------------

  function PairKey(source: string, target: string): Option<Pair> {
    if source != "" && target != "" then Some(Pair(source, target)) else None
  }

  const SupplyKey: Transaction -> Option<Pair> := (t: Transaction) => PairKey(t.vendorId, t.departmentId)
  const ManageKey: Transaction -> Option<Pair> := (t: Transaction) => PairKey(t.approvedBy, t.departmentId)
  const ApproveKey: Transaction -> Option<Pair> := (t: Transaction) => PairKey(t.approvedBy, t.vendorId)
  const ApproverKey: Transaction -> Option<string> :=
    (t: Transaction) => if t.approvedBy != "" && t.vendorId != "" then Some(t.approvedBy) else None
  const DepartmentKey: Transaction -> Option<string> :=
    (t: Transaction) => if t.departmentId != "" then Some(t.departmentId) else None
  const VendorKey: Transaction -> Option<string> :=
    (t: Transaction) => if t.vendorId != "" then Some(t.vendorId) else None
  const ApprovedBy: Transaction -> Option<string> := (t: Transaction) => Some(t.approvedBy)
  const AmountOf: Transaction -> real := (t: Transaction) => t.amount

  datatype Approval = Approval(count: nat, total: real)

  const NO_APPROVAL := Approval(0, 0.0)
  const AddApproval: (Approval, Transaction) -> Approval :=
    (a: Approval, t: Transaction) => Approval(a.count + 1, a.total + t.amount)
  const AddVendor: (set<string>, Transaction) -> set<string> := (s: set<string>, t: Transaction) => s + {t.vendorId}

  function AtMostOne(x: real): real { if x <= 1.0 then x else 1.0 }

  // ---------------------------------------------------------------------------------------------
  // The edges
  // ---------------------------------------------------------------------------------------------

  function SupplyEdge(txs: seq<Transaction>, k: Pair): Edge {
    var mine := Group(txs, SupplyKey, k);
    Supplies(k.source, k.target, AtMostOne(SumBy(mine, AmountOf) / 1000000.0), |mine|, SumBy(mine, AmountOf))
  }

  function ManageEdge(txs: seq<Transaction>, k: Pair): Edge {
    Manages(k.source, k.target, |Group(txs, ManageKey, k)|)
  }

  function ApproveEdge(txs: seq<Transaction>, k: Pair): Edge {
    var mine := Group(txs, ApproveKey, k);
    Approves(k.source, k.target, AtMostOne(|mine| as real / 10.0), |mine|, SumBy(mine, AmountOf))
  }

  function SupplyEdges(txs: seq<Transaction>, ks: seq<Pair>): seq<Edge> {
    if ks == [] then [] else SupplyEdges(txs, ks[..|ks| - 1]) + [SupplyEdge(txs, ks[|ks| - 1])]
  }

  function ManageEdges(txs: seq<Transaction>, ks: seq<Pair>): seq<Edge> {
    if ks == [] then [] else ManageEdges(txs, ks[..|ks| - 1]) + [ManageEdge(txs, ks[|ks| - 1])]
  }

  function ApproveEdges(txs: seq<Transaction>, ks: seq<Pair>): seq<Edge> {
    if ks == [] then [] else ApproveEdges(txs, ks[..|ks| - 1]) + [ApproveEdge(txs, ks[|ks| - 1])]
  }

  /** The order in which the set of an official's vendors is listed; it may differ from official to official. */
  type Listing = (string, set<string>) -> seq<string>

  ghost predicate IsListing(l: seq<string>, s: set<string>) {
    NoDuplicates(l) && forall x :: x in l <==> x in s
  }

  /** Edges from `vendors[i]` to the vendors after it, up to position `n`. */
  function RowEdges(o: string, vendors: seq<string>, i: nat, n: nat): seq<Edge>
    requires i < n <= |vendors|
  {
    if n == i + 1 then [] else RowEdges(o, vendors, i, n - 1) + [SharesOfficial(vendors[i], vendors[n - 1], o)]
  }

  /** The first `m` rows. */
  function PairEdges(o: string, vendors: seq<string>, m: nat): seq<Edge>
    requires m <= |vendors|
  {
    if m == 0 then [] else PairEdges(o, vendors, m - 1) + RowEdges(o, vendors, m - 1, |vendors|)
  }

  function VendorsOf(txs: seq<Transaction>, o: string): set<string> {
    Folded(Group(txs, ApproverKey, o), {}, AddVendor)
  }

  ghost predicate ListsVendors(list: Listing, txs: seq<Transaction>) {
    forall o: string :: IsListing(list(o, VendorsOf(txs, o)), VendorsOf(txs, o))
  }

  function SharingEdgesOf(txs: seq<Transaction>, list: Listing, o: string): seq<Edge> {
    var vendors := list(o, VendorsOf(txs, o));
    PairEdges(o, vendors, |vendors|)
  }

  function SharingEdges(txs: seq<Transaction>, list: Listing, officials: seq<string>): seq<Edge> {
    if officials == [] then []
    else SharingEdges(txs, list, officials[..|officials| - 1]) + SharingEdgesOf(txs, list, officials[|officials| - 1])
  }

  function EdgesOf(txs: seq<Transaction>, list: Listing): seq<Edge> {
    SupplyEdges(txs, Distinct(Keys(txs, SupplyKey)))
    + ManageEdges(txs, Distinct(Keys(txs, ManageKey)))
    + ApproveEdges(txs, Distinct(Keys(txs, ApproveKey)))
    + SharingEdges(txs, list, Distinct(Keys(txs, ApproverKey)))
  }

  // ---------------------------------------------------------------------------------------------
  // The nodes
  // ---------------------------------------------------------------------------------------------

  function VendorNodeOf(txs: seq<Transaction>, r: Row): VendorNode {
    var mine := Group(txs, VendorKey, r.id);
    VendorNode(r.id, r.name, SumBy(mine, AmountOf), |mine|)
  }

  function VendorNodes(txs: seq<Transaction>, rows: seq<Row>): seq<VendorNode> {
    if rows == [] then [] else VendorNodes(txs, rows[..|rows| - 1]) + [VendorNodeOf(txs, rows[|rows| - 1])]
  }

  /** A department is named as in its first transaction. */
  function DepartmentNodeOf(txs: seq<Transaction>, d: string): DepartmentNode {
    var mine := Group(txs, DepartmentKey, d);
    DepartmentNode(d, if mine == [] then "" else mine[0].departmentName, |mine|)
  }

  function DepartmentNodes(txs: seq<Transaction>, ds: seq<string>): seq<DepartmentNode> {
    if ds == [] then [] else DepartmentNodes(txs, ds[..|ds| - 1]) + [DepartmentNodeOf(txs, ds[|ds| - 1])]
  }

  function OfficialNodes(txs: seq<Transaction>, rows: seq<Row>): seq<OfficialNode> {
    if rows == [] then []
    else
      var r := rows[|rows| - 1];
      OfficialNodes(txs, rows[..|rows| - 1]) + [OfficialNode(r.id, r.name, |Group(txs, ApprovedBy, r.id)|)]
  }

  /** The graph of the transactions, with the vendors and officials that the database returned. */
  function GraphOf(txs: seq<Transaction>, vendors: seq<Row>, officials: seq<Row>, list: Listing): VendorGraph {
    VendorGraph(VendorNodes(txs, vendors), DepartmentNodes(txs, Distinct(Keys(txs, DepartmentKey))),
                OfficialNodes(txs, officials), EdgesOf(txs, list))
  }

  // ---------------------------------------------------------------------------------------------
  // The builder
  // ---------------------------------------------------------------------------------------------

  lemma EdgesSnoc(txs: seq<Transaction>, ks: seq<Pair>, k: Pair)
    ensures SupplyEdges(txs, ks + [k]) == SupplyEdges(txs, ks) + [SupplyEdge(txs, k)]
    ensures ManageEdges(txs, ks + [k]) == ManageEdges(txs, ks) + [ManageEdge(txs, k)]
    ensures ApproveEdges(txs, ks + [k]) == ApproveEdges(txs, ks) + [ApproveEdge(txs, k)]
  {
    assert (ks + [k])[..|ks|] == ks;
  }

  lemma DistinctSnoc<T>(s: seq<T>, x: T)
    ensures Distinct(s + [x]) == if x in Distinct(s) then Distinct(s) else Distinct(s) + [x]
  {
    assert (s + [x])[..|s|] == s;
  }

  method BuildSupplyEdges(txs: seq<Transaction>) returns (edges: seq<Edge>)
    ensures edges == SupplyEdges(txs, Distinct(Keys(txs, SupplyKey)))
  {
    edges := [];
    var relationships: set<Pair> := {};
    for i := 0 to |txs|
      invariant forall k :: k in relationships <==> k in Distinct(Keys(txs[..i], SupplyKey))
      invariant edges == SupplyEdges(txs, Distinct(Keys(txs[..i], SupplyKey)))
    {
      PrefixSnoc(txs, i);
      var t := txs[i];
      ghost var before := Keys(txs[..i], SupplyKey);
      if t.vendorId != "" && t.departmentId != "" {
        var k := Pair(t.vendorId, t.departmentId);
        DistinctSnoc(before, k);
        if k !in relationships {
          EdgesSnoc(txs, Distinct(before), k);
          relationships := relationships + {k};
          edges := edges + [SupplyEdge(txs, k)];
        }
      }
    }
    assert txs[..|txs|] == txs;
  }

  method BuildManageEdges(txs: seq<Transaction>) returns (edges: seq<Edge>)
    ensures edges == ManageEdges(txs, Distinct(Keys(txs, ManageKey)))
  {
    edges := [];
    var relationships: set<Pair> := {};
    for i := 0 to |txs|
      invariant forall k :: k in relationships <==> k in Distinct(Keys(txs[..i], ManageKey))
      invariant edges == ManageEdges(txs, Distinct(Keys(txs[..i], ManageKey)))
    {
      PrefixSnoc(txs, i);
      var t := txs[i];
      ghost var before := Keys(txs[..i], ManageKey);
      if t.approvedBy != "" && t.departmentId != "" {
        var k := Pair(t.approvedBy, t.departmentId);
        DistinctSnoc(before, k);
        if k !in relationships {
          EdgesSnoc(txs, Distinct(before), k);
          relationships := relationships + {k};
          edges := edges + [ManageEdge(txs, k)];
        }
      }
    }
    assert txs[..|txs|] == txs;
  }

  lemma {:induction false} ApprovalOfGroup(g: seq<Transaction>)
    ensures Folded(g, NO_APPROVAL, AddApproval) == Approval(|g|, SumBy(g, AmountOf))
  {
    if g != [] {
      ApprovalOfGroup(g[..|g| - 1]);
    }
  }

  ghost predicate TalliesApprovals(d: Dict<Pair, Approval>, txs: seq<Transaction>) {
    && d.keys == Distinct(Keys(txs, ApproveKey))
    && forall k :: Get(d, k, NO_APPROVAL)
                   == Approval(|Group(txs, ApproveKey, k)|, SumBy(Group(txs, ApproveKey, k), AmountOf))
  }

  lemma ApprovalTally(txs: seq<Transaction>)
    ensures TalliesApprovals(Tally(txs, ApproveKey, NO_APPROVAL, AddApproval), txs)
  {
    var d := Tally(txs, ApproveKey, NO_APPROVAL, AddApproval);
    TallyExact(txs, ApproveKey, NO_APPROVAL, AddApproval);
    forall k
      ensures Get(d, k, NO_APPROVAL)
              == Approval(|Group(txs, ApproveKey, k)|, SumBy(Group(txs, ApproveKey, k), AmountOf))
    {
      ApprovalOfGroup(Group(txs, ApproveKey, k));
    }
  }

  method TallyApprovals(txs: seq<Transaction>) returns (relationships: Dict<Pair, Approval>)
    ensures TalliesApprovals(relationships, txs)
  {
    relationships := Dict([], map[]);
    for i := 0 to |txs|
      invariant relationships == Tally(txs[..i], ApproveKey, NO_APPROVAL, AddApproval)
    {
      PrefixSnoc(txs, i);
      var t := txs[i];
      if t.approvedBy != "" && t.vendorId != "" {
        var k := Pair(t.approvedBy, t.vendorId);
        var a := Get(relationships, k, NO_APPROVAL);
        relationships := Put(relationships, k, Approval(a.count + 1, a.total + t.amount));
      }
    }
    assert txs[..|txs|] == txs;
    ApprovalTally(txs);
  }

  lemma DistinctEmpty<T>(s: seq<T>)
    ensures Distinct(s) == [] <==> s == []
  {
    DistinctExact(s);
    FirstIsMember(s);
  }

  method BuildApproveEdges(txs: seq<Transaction>, approvesDeclared: bool) returns (r: Result<seq<Edge>>)
    ensures r == if !approvesDeclared && Keys(txs, ApproveKey) != [] then Failure(UndeclaredEdgeKind)
                 else Success(ApproveEdges(txs, Distinct(Keys(txs, ApproveKey))))
  {
    var relationships := TallyApprovals(txs);
    var ks := relationships.keys;
    DistinctEmpty(Keys(txs, ApproveKey));
    if !approvesDeclared && ks != [] {
      return Failure(UndeclaredEdgeKind);
    }
    var edges := [];
    for i := 0 to |ks|
      invariant edges == ApproveEdges(txs, ks[..i])
    {
      PrefixSnoc(ks, i);
      EdgesSnoc(txs, ks[..i], ks[i]);
      edges := edges + [TalliedEdge(txs, relationships, ks[i])];
    }
    assert ks[..|ks|] == ks;
    return Success(edges);
  }

  function TalliedEdge(ghost txs: seq<Transaction>, relationships: Dict<Pair, Approval>, k: Pair): (e: Edge)
    requires TalliesApprovals(relationships, txs)
    ensures e == ApproveEdge(txs, k)
  {
    var a := Get(relationships, k, NO_APPROVAL);
    Approves(k.source, k.target, AtMostOne(a.count as real / 10.0), a.count, a.total)
  }

  method BuildSharingEdges(txs: seq<Transaction>, list: Listing) returns (edges: seq<Edge>)
    ensures edges == SharingEdges(txs, list, Distinct(Keys(txs, ApproverKey)))
  {
    var officialVendors: Dict<string, set<string>> := Dict([], map[]);
    for i := 0 to |txs|
      invariant officialVendors == Tally(txs[..i], ApproverKey, {}, AddVendor)
    {
      PrefixSnoc(txs, i);
      var t := txs[i];
      if t.approvedBy != "" && t.vendorId != "" {
        officialVendors := Put(officialVendors, t.approvedBy, Get(officialVendors, t.approvedBy, {}) + {t.vendorId});
      }
    }
    assert txs[..|txs|] == txs;
    TallyExact(txs, ApproverKey, {}, AddVendor);
    edges := [];
    var officials := officialVendors.keys;
    for i := 0 to |officials|
      invariant edges == SharingEdges(txs, list, officials[..i])
    {
      PrefixSnoc(officials, i);
      var o := officials[i];
      edges := AddPairs(o, list(o, Get(officialVendors, o, {})), edges);
    }
    assert officials[..|officials|] == officials;
  }

  method AddPairs(o: string, vendors: seq<string>, before: seq<Edge>) returns (edges: seq<Edge>)
    ensures edges == before + PairEdges(o, vendors, |vendors|)
  {
    edges := before;
    assert before + [] == before;
    for i := 0 to |vendors|
      invariant edges == before + PairEdges(o, vendors, i)
    {
      edges := AddRow(o, vendors, i, edges);
      Reassociate(before, PairEdges(o, vendors, i), RowEdges(o, vendors, i, |vendors|));
    }
  }

  method AddRow(o: string, vendors: seq<string>, i: nat, before: seq<Edge>) returns (edges: seq<Edge>)
    requires i < |vendors|
    ensures edges == before + RowEdges(o, vendors, i, |vendors|)
  {
    edges := before;
    assert before + [] == before;
    for j := i + 1 to |vendors|
      invariant edges == before + RowEdges(o, vendors, i, j)
    {
      Reassociate(before, RowEdges(o, vendors, i, j), [SharesOfficial(vendors[i], vendors[j], o)]);
      edges := edges + [SharesOfficial(vendors[i], vendors[j], o)];
    }
  }

  /** All edges; fails exactly when some transaction has both an approver and a vendor and the kind of edge
      that this needs is not declared. */
  method BuildEdges(txs: seq<Transaction>, list: Listing, approvesDeclared: bool) returns (r: Result<seq<Edge>>)
    ensures r == if !approvesDeclared && Keys(txs, ApproveKey) != [] then Failure(UndeclaredEdgeKind)
                 else Success(EdgesOf(txs, list))
  {
    var supplies := BuildSupplyEdges(txs);
    var manages := BuildManageEdges(txs);
    var approves := BuildApproveEdges(txs, approvesDeclared);
    if approves.Failure? {
      return approves;
    }
    var sharing := BuildSharingEdges(txs, list);
    return Success(supplies + manages + approves.value + sharing);
  }

  const AddAmount: (real, Transaction) -> real := (x: real, t: Transaction) => x + t.amount
  const AddCount: (nat, Transaction) -> nat := (n: nat, t: Transaction) => n + 1
  const KeepFirst: (Option<string>, Transaction) -> Option<string> :=
    (name: Option<string>, t: Transaction) => if name.Some? then name else Some(t.departmentName)

  lemma {:induction false} FoldedGroup(g: seq<Transaction>)
    ensures Folded(g, 0.0, AddAmount) == SumBy(g, AmountOf) && Folded(g, 0, AddCount) == |g|
    ensures Folded(g, None, KeepFirst) == if g == [] then None else Some(g[0].departmentName)
  {
    if g != [] {
      FoldedGroup(g[..|g| - 1]);
    }
  }

  method BuildVendorNodes(txs: seq<Transaction>, rows: seq<Row>) returns (nodes: seq<VendorNode>)
    ensures nodes == VendorNodes(txs, rows)
  {
    var spend: Dict<string, real>, transactions: Dict<string, nat> := Dict([], map[]), Dict([], map[]);
    for i := 0 to |txs|
      invariant spend == Tally(txs[..i], VendorKey, 0.0, AddAmount)
      invariant transactions == Tally(txs[..i], VendorKey, 0, AddCount)
    {
      PrefixSnoc(txs, i);
      var t := txs[i];
      if t.vendorId != "" {
        transactions := Put(transactions, t.vendorId, Get(transactions, t.vendorId, 0) + 1);
        spend := Put(spend, t.vendorId, Get(spend, t.vendorId, 0.0) + t.amount);
      }
    }
    assert txs[..|txs|] == txs;
    TallyExact(txs, VendorKey, 0.0, AddAmount);
    TallyExact(txs, VendorKey, 0, AddCount);
    nodes := [];
    for i := 0 to |rows|
      invariant nodes == VendorNodes(txs, rows[..i])
    {
      PrefixSnoc(rows, i);
      var id := rows[i].id;
      FoldedGroup(Group(txs, VendorKey, id));
      nodes := nodes + [VendorNode(id, rows[i].name, Get(spend, id, 0.0), Get(transactions, id, 0))];
    }
    assert rows[..|rows|] == rows;
  }

  method CollectDepartments(txs: seq<Transaction>) returns (departments: Dict<string, Option<string>>)
    ensures departments == Tally(txs, DepartmentKey, None, KeepFirst)
  {
    departments := Dict([], map[]);
    for i := 0 to |txs|
      invariant departments == Tally(txs[..i], DepartmentKey, None, KeepFirst)
    {
      PrefixSnoc(txs, i);
      var d := txs[i].departmentId;
      if d != "" {
        KnownDepartment(txs[..i], d);
        if d !in departments.at {
          departments := Put(departments, d, Some(txs[i].departmentName));
        }
      }
    }
    assert txs[..|txs|] == txs;
  }

  /** Putting a department's name again changes nothing. */
  lemma KnownDepartment(txs: seq<Transaction>, d: string)
    ensures var departments := Tally(txs, DepartmentKey, None, KeepFirst);
            d in departments.at ==> departments.at[d].Some? && Put(departments, d, departments.at[d]) == departments
  {
    var departments := Tally(txs, DepartmentKey, None, KeepFirst);
    TallyExact(txs, DepartmentKey, None, KeepFirst);
    DistinctExact(Keys(txs, DepartmentKey));
    KeysMember(txs, DepartmentKey, d);
    FoldedGroup(Group(txs, DepartmentKey, d));
    if d in departments.at {
      assert Get(departments, d, None) == departments.at[d];
      assert departments.at[d := departments.at[d]] == departments.at;
    }
  }

  method BuildDepartmentNodes(txs: seq<Transaction>) returns (nodes: seq<DepartmentNode>)
    ensures nodes == DepartmentNodes(txs, Distinct(Keys(txs, DepartmentKey)))
  {
    var departments := CollectDepartments(txs);
    TallyExact(txs, DepartmentKey, None, KeepFirst);
    var ds := departments.keys;
    nodes := [];
    for i := 0 to |ds|
      invariant nodes == DepartmentNodes(txs, ds[..i])
    {
      PrefixSnoc(ds, i);
      var name := Get(departments, ds[i], None);
      FoldedGroup(Group(txs, DepartmentKey, ds[i]));
      nodes := nodes + [DepartmentNode(ds[i], if name.Some? then name.value else "",
                                       |Group(txs, DepartmentKey, ds[i])|)];
    }
    assert ds[..|ds|] == ds;
  }

  method BuildOfficialNodes(txs: seq<Transaction>, rows: seq<Row>) returns (nodes: seq<OfficialNode>)
    ensures nodes == OfficialNodes(txs, rows)
  {
    nodes := [];
    for i := 0 to |rows|
      invariant nodes == OfficialNodes(txs, rows[..i])
    {
      PrefixSnoc(rows, i);
      nodes := nodes + [OfficialNode(rows[i].id, rows[i].name, |Group(txs, ApprovedBy, rows[i].id)|)];
    }
    assert rows[..|rows|] == rows;
  }

  method BuildGraph(txs: seq<Transaction>, vendors: seq<Row>, officials: seq<Row>, list: Listing,
                    approvesDeclared: bool)
    returns (r: Result<VendorGraph>)
    ensures r == if !approvesDeclared && Keys(txs, ApproveKey) != [] then Failure(UndeclaredEdgeKind)
                 else Success(GraphOf(txs, vendors, officials, list))
  {
    var vendorNodes := BuildVendorNodes(txs, vendors);
    var departmentNodes := BuildDepartmentNodes(txs);
    var officialNodes := BuildOfficialNodes(txs, officials);
    var edges := BuildEdges(txs, list, approvesDeclared);
    if edges.Failure? {
      return Failure(edges.error);
    }
    return Success(VendorGraph(vendorNodes, departmentNodes, officialNodes, edges.value));
  }
}

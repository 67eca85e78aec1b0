/** What the nodes and edges of a built graph say, counted and summed on the raw transactions. */
module GraphContents {
  import opened Dicts
  import opened GraphBuilder
  import opened Options
  import opened RealSums
  import opened Selections

  /** The transactions to keep, in order: their number and the sum of their amounts. */
  ghost predicate Tallies(txs: seq<Transaction>, keep: Transaction -> bool, count: nat, total: real) {
    exists mine :: Filters(txs, keep, mine) && count == |mine| && total == Sum(Values(mine, AmountOf))
  }

  lemma GroupTallies<K>(txs: seq<Transaction>, key: Transaction -> Option<K>, k: K, keep: Transaction -> bool)
    requires forall t :: key(t) == Some(k) <==> keep(t)
    ensures var mine := Group(txs, key, k);
            && Filters(txs, keep, mine) && Tallies(txs, keep, |mine|, SumBy(mine, AmountOf))
  {
    var mine := Group(txs, key, k);
    GroupFilters(txs, key, k);
    FiltersSame(txs, HasKey(key, k), mine, keep);
    SumByIsSum(mine, AmountOf);
  }

  ghost predicate Counts(txs: seq<Transaction>, keep: Transaction -> bool, count: nat) {
    exists mine :: Filters(txs, keep, mine) && count == |mine|
  }

  ghost predicate IsCapped(weight: real, x: real, full: real) {
    if x >= full then weight == 1.0 else Product(full, weight) == x
  }

  lemma CappedExact(x: real, full: real)
    requires full > 0.0
    ensures IsCapped(AtMostOne(x / full), x, full)
  {
    var q := x / full;
    assert Product(full, q) == x;
    if q > 1.0 {
      ProductPositive(full, q - 1.0);
      assert Product(full, q - 1.0) == x - full;
    } else {
      ProductMonotone(full, q, 1.0);
      assert Product(full, 1.0) == full;
    }
  }

  // ---------------------------------------------------------------------------------------------
  // Edges
  // ---------------------------------------------------------------------------------------------

  ghost function FromVendorTo(v: string, d: string): Transaction -> bool {
    (t: Transaction) => t.vendorId == v && t.departmentId == d
  }

  ghost function ApprovedIn(o: string, d: string): Transaction -> bool {
    (t: Transaction) => t.approvedBy == o && t.departmentId == d
  }

  ghost function ApprovedFor(o: string, v: string): Transaction -> bool {
    (t: Transaction) => t.approvedBy == o && t.vendorId == v
  }

  /** A vendor supplies a department: the number and the sum of their transactions, and the sum in millions as
      weight. */
  ghost predicate IsSupplyEdge(txs: seq<Transaction>, k: Pair, e: Edge) {
    && e.Supplies? && e.source == k.source && e.target == k.target
    && Tallies(txs, FromVendorTo(k.source, k.target), e.transactionCount, e.totalSpend)
    && IsCapped(e.weight, e.totalSpend, 1000000.0)
  }

  /** An official manages a department: the number of approvals there. */
  ghost predicate IsManageEdge(txs: seq<Transaction>, k: Pair, e: Edge) {
    && e.Manages? && e.source == k.source && e.target == k.target
    && Counts(txs, ApprovedIn(k.source, k.target), e.approvalCount)
  }

  /** An official approves a vendor: the number and the sum of the approved transactions, and the number in tens as
      weight. */
  ghost predicate IsApproveEdge(txs: seq<Transaction>, k: Pair, e: Edge) {
    && e.Approves? && e.source == k.source && e.target == k.target
    && Tallies(txs, ApprovedFor(k.source, k.target), e.approvalCount, e.totalValue)
    && IsCapped(e.weight, e.approvalCount as real, 10.0)
  }

  predicate Named(k: Pair) {
    k.source != "" && k.target != ""
  }

  lemma PairEdgesExact(txs: seq<Transaction>, k: Pair)
    requires Named(k)
    ensures IsSupplyEdge(txs, k, SupplyEdge(txs, k))
    ensures IsManageEdge(txs, k, ManageEdge(txs, k))
    ensures IsApproveEdge(txs, k, ApproveEdge(txs, k))
  {
    GroupTallies(txs, SupplyKey, k, FromVendorTo(k.source, k.target));
    CappedExact(SumBy(Group(txs, SupplyKey, k), AmountOf), 1000000.0);
    GroupTallies(txs, ManageKey, k, ApprovedIn(k.source, k.target));
    GroupTallies(txs, ApproveKey, k, ApprovedFor(k.source, k.target));
    CappedExact(|Group(txs, ApproveKey, k)| as real, 10.0);
  }

  /** One element for each key, in their order. */
  ghost predicate OneEach<K, E>(ks: seq<K>, es: seq<E>, fits: (K, E) -> bool) {
    |es| == |ks| && forall i | 0 <= i < |ks| :: fits(ks[i], es[i])
  }

  ghost predicate AllNamed(ks: seq<Pair>) {
    forall i | 0 <= i < |ks| :: Named(ks[i])
  }

  ghost function SuppliesFor(txs: seq<Transaction>): (Pair, Edge) -> bool {
    (k: Pair, e: Edge) => IsSupplyEdge(txs, k, e)
  }

  ghost function ManagesFor(txs: seq<Transaction>): (Pair, Edge) -> bool {
    (k: Pair, e: Edge) => IsManageEdge(txs, k, e)
  }

  ghost function ApprovesFor(txs: seq<Transaction>): (Pair, Edge) -> bool {
    (k: Pair, e: Edge) => IsApproveEdge(txs, k, e)
  }

  lemma PairEdgeFits(txs: seq<Transaction>, k: Pair)
    requires Named(k)
    ensures SuppliesFor(txs)(k, SupplyEdge(txs, k))
    ensures ManagesFor(txs)(k, ManageEdge(txs, k))
    ensures ApprovesFor(txs)(k, ApproveEdge(txs, k))
  {
    PairEdgesExact(txs, k);
  }

  lemma EdgeAt(txs: seq<Transaction>, ks: seq<Pair>)
    ensures |SupplyEdges(txs, ks)| == |ManageEdges(txs, ks)| == |ApproveEdges(txs, ks)| == |ks|
    ensures forall i | 0 <= i < |ks| ::
              && SupplyEdges(txs, ks)[i] == SupplyEdge(txs, ks[i])
              && ManageEdges(txs, ks)[i] == ManageEdge(txs, ks[i])
              && ApproveEdges(txs, ks)[i] == ApproveEdge(txs, ks[i])
  {
    var supplies, manages := (s: seq<Pair>) => SupplyEdges(txs, s), (s: seq<Pair>) => ManageEdges(txs, s);
    var approves := (s: seq<Pair>) => ApproveEdges(txs, s);
    forall s: seq<Pair>, k: Pair
      ensures supplies(s + [k]) == supplies(s) + [SupplyEdge(txs, k)]
      ensures manages(s + [k]) == manages(s) + [ManageEdge(txs, k)]
      ensures approves(s + [k]) == approves(s) + [ApproveEdge(txs, k)]
    {
      EdgesSnoc(txs, s, k);
    }
    MakesEach(ks, supplies, (k: Pair) => SupplyEdge(txs, k));
    MakesEach(ks, manages, (k: Pair) => ManageEdge(txs, k));
    MakesEach(ks, approves, (k: Pair) => ApproveEdge(txs, k));
  }

  lemma EdgesForPairs(txs: seq<Transaction>, ks: seq<Pair>)
    requires AllNamed(ks)
    ensures OneEach(ks, SupplyEdges(txs, ks), SuppliesFor(txs))
    ensures OneEach(ks, ManageEdges(txs, ks), ManagesFor(txs))
    ensures OneEach(ks, ApproveEdges(txs, ks), ApprovesFor(txs))
  {
    EdgeAt(txs, ks);
    var supplies, manages, approves := SuppliesFor(txs), ManagesFor(txs), ApprovesFor(txs);
    forall i | 0 <= i < |ks|
      ensures supplies(ks[i], SupplyEdges(txs, ks)[i])
      ensures manages(ks[i], ManageEdges(txs, ks)[i])
      ensures approves(ks[i], ApproveEdges(txs, ks)[i])
    {
      PairEdgeFits(txs, ks[i]);
    }
  }

  lemma KeysAreNamed(txs: seq<Transaction>, key: Transaction -> Option<Pair>)
    requires forall t :: key(t).Some? ==> Named(key(t).value)
    ensures AllNamed(Distinct(Keys(txs, key)))
  {
    var ks := Distinct(Keys(txs, key));
    DistinctExact(Keys(txs, key));
    forall i | 0 <= i < |ks|
      ensures Named(ks[i])
    {
      assert ks[i] in ks;
      KeysMember(txs, key, ks[i]);
    }
  }

  /** One edge for each pair that occurs, in the order of first occurrence. */
  ghost predicate EdgesByPair(txs: seq<Transaction>, key: Transaction -> Option<Pair>, edges: seq<Edge>,
                              fits: (Pair, Edge) -> bool) {
    exists ks :: FirstKeys(txs, key, ks) && OneEach(ks, edges, fits)
  }

  lemma ByPair(txs: seq<Transaction>, key: Transaction -> Option<Pair>, edges: seq<Edge>, fits: (Pair, Edge) -> bool)
    requires OneEach(Distinct(Keys(txs, key)), edges, fits)
    ensures EdgesByPair(txs, key, edges, fits)
  {
    FirstKeysExact(txs, key);
  }

  lemma SuppliesInOrder(txs: seq<Transaction>)
    ensures EdgesByPair(txs, SupplyKey, SupplyEdges(txs, Distinct(Keys(txs, SupplyKey))), SuppliesFor(txs))
  {
    KeysAreNamed(txs, SupplyKey);
    EdgesForPairs(txs, Distinct(Keys(txs, SupplyKey)));
    ByPair(txs, SupplyKey, SupplyEdges(txs, Distinct(Keys(txs, SupplyKey))), SuppliesFor(txs));
  }

  lemma ManagesInOrder(txs: seq<Transaction>)
    ensures EdgesByPair(txs, ManageKey, ManageEdges(txs, Distinct(Keys(txs, ManageKey))), ManagesFor(txs))
  {
    KeysAreNamed(txs, ManageKey);
    EdgesForPairs(txs, Distinct(Keys(txs, ManageKey)));
    ByPair(txs, ManageKey, ManageEdges(txs, Distinct(Keys(txs, ManageKey))), ManagesFor(txs));
  }

  lemma ApprovesInOrder(txs: seq<Transaction>)
    ensures EdgesByPair(txs, ApproveKey, ApproveEdges(txs, Distinct(Keys(txs, ApproveKey))), ApprovesFor(txs))
  {
    KeysAreNamed(txs, ApproveKey);
    EdgesForPairs(txs, Distinct(Keys(txs, ApproveKey)));
    ByPair(txs, ApproveKey, ApproveEdges(txs, Distinct(Keys(txs, ApproveKey))), ApprovesFor(txs));
  }

  /** The four parts of the edges. */
  ghost predicate EdgeParts(txs: seq<Transaction>, list: Listing, supplies: seq<Edge>, manages: seq<Edge>,
                            approves: seq<Edge>) {
    && EdgesByPair(txs, SupplyKey, supplies, SuppliesFor(txs))
    && EdgesByPair(txs, ManageKey, manages, ManagesFor(txs))
    && EdgesByPair(txs, ApproveKey, approves, ApprovesFor(txs))
    && EdgesOf(txs, list)
       == supplies + manages + approves + SharingEdges(txs, list, Distinct(Keys(txs, ApproverKey)))
  }

  /** The edges as lists: of the supply, the management and the approval edges there is one for each pair of ids that
      occurs together in a transaction, in the order of first occurrence, with the exact numbers and sums; then the
      edges between vendors that share an official. */
  lemma EdgesInOrder(txs: seq<Transaction>, list: Listing)
    ensures exists supplies, manages, approves :: EdgeParts(txs, list, supplies, manages, approves)
  {
    SuppliesInOrder(txs);
    ManagesInOrder(txs);
    ApprovesInOrder(txs);
    assert EdgeParts(txs, list, SupplyEdges(txs, Distinct(Keys(txs, SupplyKey))),
                     ManageEdges(txs, Distinct(Keys(txs, ManageKey))),
                     ApproveEdges(txs, Distinct(Keys(txs, ApproveKey))));
  }

  // ---------------------------------------------------------------------------------------------
  // Nodes
  // ---------------------------------------------------------------------------------------------

  ghost function WithVendor(v: string): Transaction -> bool {
    (t: Transaction) => v != "" && t.vendorId == v
  }

  ghost function InDepartment(d: string): Transaction -> bool {
    (t: Transaction) => d != "" && t.departmentId == d
  }

  ghost function ApprovedBySome(o: string): Transaction -> bool {
    (t: Transaction) => t.approvedBy == o
  }

  ghost predicate IsVendorNode(txs: seq<Transaction>, r: Row, n: VendorNode) {
    n.id == r.id && n.name == r.name && Tallies(txs, WithVendor(r.id), n.transactionCount, n.totalSpend)
  }

  ghost predicate IsOfficialNode(txs: seq<Transaction>, r: Row, n: OfficialNode) {
    n.id == r.id && n.name == r.name && Counts(txs, ApprovedBySome(r.id), n.approvalCount)
  }

  /** The number of the department's transactions, and the name in the first of them. */
  ghost predicate IsDepartmentNode(txs: seq<Transaction>, d: string, n: DepartmentNode) {
    n.id == d && exists mine: seq<Transaction> ::
      && Filters(txs, InDepartment(d), mine)
      && n.transactionCount == |mine| && mine != [] && n.name == mine[0].departmentName
  }

  ghost function VendorNodeFor(txs: seq<Transaction>): (Row, VendorNode) -> bool {
    (r: Row, n: VendorNode) => IsVendorNode(txs, r, n)
  }

  ghost function OfficialNodeFor(txs: seq<Transaction>): (Row, OfficialNode) -> bool {
    (r: Row, n: OfficialNode) => IsOfficialNode(txs, r, n)
  }

  ghost function DepartmentNodeFor(txs: seq<Transaction>): (string, DepartmentNode) -> bool {
    (d: string, n: DepartmentNode) => IsDepartmentNode(txs, d, n)
  }

  function OfficialNodeOf(txs: seq<Transaction>, r: Row): OfficialNode {
    OfficialNode(r.id, r.name, |Group(txs, ApprovedBy, r.id)|)
  }

  lemma NodeAt(txs: seq<Transaction>, rows: seq<Row>)
    ensures |VendorNodes(txs, rows)| == |OfficialNodes(txs, rows)| == |rows|
    ensures forall i | 0 <= i < |rows| ::
              && VendorNodes(txs, rows)[i] == VendorNodeOf(txs, rows[i])
              && OfficialNodes(txs, rows)[i] == OfficialNodeOf(txs, rows[i])
  {
    var vendors, officials := (s: seq<Row>) => VendorNodes(txs, s), (s: seq<Row>) => OfficialNodes(txs, s);
    forall s: seq<Row>, r: Row
      ensures vendors(s + [r]) == vendors(s) + [VendorNodeOf(txs, r)]
      ensures officials(s + [r]) == officials(s) + [OfficialNodeOf(txs, r)]
    {
      assert (s + [r])[..|s|] == s;
    }
    MakesEach(rows, vendors, (r: Row) => VendorNodeOf(txs, r));
    MakesEach(rows, officials, (r: Row) => OfficialNodeOf(txs, r));
  }

  lemma NodesFit(txs: seq<Transaction>, r: Row)
    ensures VendorNodeFor(txs)(r, VendorNodeOf(txs, r)) && OfficialNodeFor(txs)(r, OfficialNodeOf(txs, r))
  {
    GroupTallies(txs, VendorKey, r.id, WithVendor(r.id));
    GroupTallies(txs, ApprovedBy, r.id, ApprovedBySome(r.id));
  }

  /** One vendor node for each vendor row, and one official node for each official row, in the order of the rows. */
  lemma RowNodesExact(txs: seq<Transaction>, rows: seq<Row>)
    ensures OneEach(rows, VendorNodes(txs, rows), VendorNodeFor(txs))
    ensures OneEach(rows, OfficialNodes(txs, rows), OfficialNodeFor(txs))
  {
    NodeAt(txs, rows);
    var vendor, official := VendorNodeFor(txs), OfficialNodeFor(txs);
    forall i | 0 <= i < |rows|
      ensures vendor(rows[i], VendorNodes(txs, rows)[i]) && official(rows[i], OfficialNodes(txs, rows)[i])
    {
      NodesFit(txs, rows[i]);
    }
  }

  lemma {:induction false} DepartmentNodeAt(txs: seq<Transaction>, ds: seq<string>)
    ensures |DepartmentNodes(txs, ds)| == |ds|
    ensures forall i | 0 <= i < |ds| :: DepartmentNodes(txs, ds)[i] == DepartmentNodeOf(txs, ds[i])
  {
    if ds != [] {
      DepartmentNodeAt(txs, ds[..|ds| - 1]);
    }
  }

  lemma DepartmentFits(txs: seq<Transaction>, d: string)
    requires Group(txs, DepartmentKey, d) != []
    ensures DepartmentNodeFor(txs)(d, DepartmentNodeOf(txs, d))
  {
    GroupTallies(txs, DepartmentKey, d, InDepartment(d));
  }

  /** One department node for each department of a transaction, in the order of first occurrence. */
  lemma DepartmentNodesExact(txs: seq<Transaction>)
    ensures var ds := Distinct(Keys(txs, DepartmentKey));
            FirstKeys(txs, DepartmentKey, ds) && OneEach(ds, DepartmentNodes(txs, ds), DepartmentNodeFor(txs))
  {
    var ds, fits := Distinct(Keys(txs, DepartmentKey)), DepartmentNodeFor(txs);
    FirstKeysExact(txs, DepartmentKey);
    DistinctExact(Keys(txs, DepartmentKey));
    DepartmentNodeAt(txs, ds);
    forall i | 0 <= i < |ds|
      ensures fits(ds[i], DepartmentNodes(txs, ds)[i])
    {
      assert ds[i] in ds;
      KeysMember(txs, DepartmentKey, ds[i]);
      DepartmentFits(txs, ds[i]);
    }
  }
}

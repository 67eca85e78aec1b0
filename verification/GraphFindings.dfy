/** What the analysis reports about a built graph, stated on the raw transactions. */
module GraphFindings {
  import opened Concentration
  import opened Dicts
  import opened GraphAggregates
  import opened GraphAnalyzer
  import opened GraphBuilder
  import opened RealSums
  import opened Sequences
  import opened Sorting

  // ---------------------------------------------------------------------------------------------
  // Concentration
  // ---------------------------------------------------------------------------------------------

  ghost predicate SpendsOf(values: seq<real>, vendors: seq<string>, txs: seq<Transaction>, d: string) {
    |values| == |vendors| && forall i | 0 <= i < |vendors| :: values[i] == SpendWith(txs, d, vendors[i])
  }

  lemma EqualSpends(values: seq<real>, vendors: seq<string>, txs: seq<Transaction>, d: string)
    requires SpendsOf(values, vendors, txs, d) && forall v :: v in vendors <==> v in Suppliers(txs, d)
    ensures AllEqual(values) <==> SpendsEqually(txs, d)
  {
    if AllEqual(values) {
      forall v, w | v in Suppliers(txs, d) && w in Suppliers(txs, d)
        ensures SpendWith(txs, d, v) == SpendWith(txs, d, w)
      {
        assert v in vendors && w in vendors;
      }
    }
    if SpendsEqually(txs, d) {
      forall i, j | 0 <= i < |values| && 0 <= j < |values| ensures values[i] == values[j] {
        assert vendors[i] in vendors && vendors[j] in vendors;
      }
    }
  }

  /** The vendors of the tally, what was spent with each, and the shares. */
  lemma SpendShares(txs: seq<Transaction>, list: Listing, d: string)
    requires Suppliers(txs, d) != {}
    ensures var spend := VendorSpend(EdgesOf(txs, list), d);
            var values := ValuesAt(spend, spend.keys, 0.0);
            && SpendsOf(values, spend.keys, txs, d)
            && Sum(values) == DepartmentSpend(txs, d) > 0.0
            && |values| == |Suppliers(txs, d)|
            && AreShares(Shares(values, Sum(values)))
            && |Shares(values, Sum(values))| == |values|
            && (AllEqual(Shares(values, Sum(values))) <==> SpendsEqually(txs, d))
  {
    var spend := VendorSpend(EdgesOf(txs, list), d);
    var values := ValuesAt(spend, spend.keys, 0.0);
    SpendKeys(txs, list, d);
    SpendValues(txs, list, d, spend.keys);
    forall i | 0 <= i < |spend.keys| ensures Group(txs, VendorIn(d), spend.keys[i]) != [] {
      SpendAt(txs, list, d, spend.keys[i]);
    }
    SpendIsPositive(txs, d, spend.keys);
    SpendIsConserved(txs, list, d);
    PositivesGiveShares(values);
    AllEqualScaled(values, Shares(values, Sum(values)), Sum(values));
    EqualSpends(values, spend.keys, txs, d);
  }

  /** The index lies in [0, 1]; it is 1 exactly for a single supplier, and 0 exactly when two or more suppliers
      got the same. */
  lemma ConcentrationExact(txs: seq<Transaction>, list: Listing, d: string)
    requires Suppliers(txs, d) != {}
    ensures var hhi := HhiOf(EdgesOf(txs, list), d).hhi;
            && 0.0 <= hhi <= 1.0
            && (hhi == 1.0 <==> |Suppliers(txs, d)| == 1)
            && (hhi == 0.0 <==> |Suppliers(txs, d)| >= 2 && SpendsEqually(txs, d))
  {
    SpendShares(txs, list, d);
    var spend := VendorSpend(EdgesOf(txs, list), d);
    var values := ValuesAt(spend, spend.keys, 0.0);
    ScoresAgreeUnlessSingle(Shares(values, Sum(values)));
  }

  /** A supplier's share of the department's spend. */
  function ShareWith(txs: seq<Transaction>, d: string): string -> real {
    (v: string) => if DepartmentSpend(txs, d) > 0.0 then SpendWith(txs, d, v) / DepartmentSpend(txs, d) else 0.0
  }

  lemma ListingsAgree<T(!new)>(l: seq<T>, l': seq<T>, s: set<T>)
    requires NoDuplicates(l) && NoDuplicates(l')
    requires (forall x :: x in l <==> x in s) && forall x :: x in l' <==> x in s
    ensures SameElements(l, l')
  {
  }

  lemma SpendsAreShares(values: seq<real>, vendors: seq<string>, txs: seq<Transaction>, d: string)
    requires SpendsOf(values, vendors, txs, d) && DepartmentSpend(txs, d) > 0.0
    ensures Shares(values, DepartmentSpend(txs, d)) == Values(vendors, ShareWith(txs, d))
  {
    SharesAre(values, DepartmentSpend(txs, d), vendors, ShareWith(txs, d));
  }

  lemma SharesAreValues(txs: seq<Transaction>, list: Listing, d: string)
    requires Suppliers(txs, d) != {}
    ensures var ks := VendorSpend(EdgesOf(txs, list), d).keys;
            var shares := Values(ks, ShareWith(txs, d));
            AreShares(shares) && HhiOf(EdgesOf(txs, list), d).hhi == CalculateHhi(shares)
  {
    SpendShares(txs, list, d);
    var spend := VendorSpend(EdgesOf(txs, list), d);
    SpendsAreShares(ValuesAt(spend, spend.keys, 0.0), spend.keys, txs, d);
  }

  lemma SuppliersListed(txs: seq<Transaction>, list: Listing, d: string, vendors: seq<string>)
    requires IsListing(vendors, Suppliers(txs, d))
    ensures SameElements(VendorSpend(EdgesOf(txs, list), d).keys, vendors)
  {
    SpendKeys(txs, list, d);
    ListingsAgree(VendorSpend(EdgesOf(txs, list), d).keys, vendors, Suppliers(txs, d));
  }

  /** The index from the transactions alone: with two or more suppliers, in whatever order they are listed, it is the
      sum of the squared differences of all pairs of their shares, over one less than their number; with a single one
      it is 1. */
  lemma ConcentrationIsPairs(txs: seq<Transaction>, list: Listing, d: string, vendors: seq<string>)
    requires IsListing(vendors, Suppliers(txs, d)) && Suppliers(txs, d) != {}
    ensures IsPairIndex(vendors, ShareWith(txs, d), HhiOf(EdgesOf(txs, list), d).hhi, 1.0)
  {
    SuppliersListed(txs, list, d, vendors);
    SharesAreValues(txs, list, d);
    PairIndexOfListing(VendorSpend(EdgesOf(txs, list), d).keys, vendors, ShareWith(txs, d));
  }

  /** The level that is reported for an index. */
  lemma LevelExact(edges: seq<Edge>, d: string)
    ensures var r := HhiOf(edges, d);
            && (r.level == HighConcentration <==> r.hhi >= 0.75)
            && (r.level == ModerateConcentration <==> 0.50 <= r.hhi < 0.75)
            && (r.level == LowConcentration <==> 0.25 <= r.hhi < 0.50)
            && (r.level == Competitive <==> r.hhi < 0.25)
            && r.departmentId == d
  {
  }

  lemma NoSuppliersNoConcentration(txs: seq<Transaction>, list: Listing, d: string)
    requires Suppliers(txs, d) == {}
    ensures HhiOf(EdgesOf(txs, list), d) == HhiResult(d, 0.0, 0, 0.0, Competitive, [])
  {
    SpendKeys(txs, list, d);
    FirstIsMember(VendorSpend(EdgesOf(txs, list), d).keys);
  }

  lemma {:induction false} DominantsMember(spend: Dict<string, real>, total: real, vendors: seq<string>, x: Dominant)
    ensures x in Dominants(spend, total, vendors)
            <==> && x.vendorId in vendors && x.spend == Get(spend, x.vendorId, 0.0)
                 && x.share == ShareOf(x.spend, total) >= DOMINANT_SHARE
  {
    if vendors != [] {
      DominantsMember(spend, total, vendors[..|vendors| - 1], x);
      assert vendors == vendors[..|vendors| - 1] + [vendors[|vendors| - 1]];
    }
  }

  lemma {:induction false} DominantsCount(spend: Dict<string, real>, total: real, vendors: seq<string>)
    ensures |ValuesAt(spend, vendors, 0.0)| == |vendors|
    ensures |Dominants(spend, total, vendors)| == AtLeast(Shares(ValuesAt(spend, vendors, 0.0), total), DOMINANT_SHARE)
  {
    if vendors != [] {
      var init, v := vendors[..|vendors| - 1], vendors[|vendors| - 1];
      DominantsCount(spend, total, init);
      var values, x := ValuesAt(spend, init, 0.0), Get(spend, v, 0.0);
      assert (values + [x])[..|values|] == values;
      var shares := Shares(values, total);
      assert (shares + [ShareOf(x, total)])[..|shares|] == shares;
    }
  }

  lemma {:induction false} DominantsOnce(spend: Dict<string, real>, total: real, vendors: seq<string>, x: Dominant)
    requires NoDuplicates(vendors)
    ensures multiset(Dominants(spend, total, vendors))[x] <= 1
  {
    if vendors != [] {
      var init, v := vendors[..|vendors| - 1], vendors[|vendors| - 1];
      DominantsOnce(spend, total, init, x);
      DominantsMember(spend, total, init, x);
      assert v !in init;
      assert x in multiset(Dominants(spend, total, init)) ==> x in Dominants(spend, total, init);
    }
  }

  ghost predicate DescendingShares(s: seq<Dominant>) {
    forall i, j | 0 <= i < j < |s| :: s[i].share >= s[j].share
  }

  lemma DominantsSorted(found: seq<Dominant>, x: Dominant)
    ensures DescendingShares(SortBy(found, ShareDescending))
    ensures |SortBy(found, ShareDescending)| == |found|
    ensures x in SortBy(found, ShareDescending) <==> x in found
  {
    var dominant := SortBy(found, ShareDescending);
    SortByCorrect(found, ShareDescending);
    forall i, j | 0 <= i < j < |dominant| ensures dominant[i].share >= dominant[j].share {
      assert ShareDescending(dominant[i]) <= ShareDescending(dominant[j]);
    }
    assert x in dominant <==> x in multiset(dominant);
    assert x in found <==> x in multiset(found);
  }

  /** At most five vendors are dominant. */
  lemma DominantsAreFew(txs: seq<Transaction>, list: Listing, d: string)
    ensures |HhiOf(EdgesOf(txs, list), d).dominant| <= 5
  {
    if Suppliers(txs, d) == {} {
      NoSuppliersNoConcentration(txs, list, d);
    } else {
      SpendShares(txs, list, d);
      var spend := VendorSpend(EdgesOf(txs, list), d);
      var values := ValuesAt(spend, spend.keys, 0.0);
      var found := Dominants(spend, Sum(values), spend.keys);
      SortByCorrect(found, ShareDescending);
      DominantsCount(spend, Sum(values), spend.keys);
      FewLargeShares(Shares(values, Sum(values)), DOMINANT_SHARE);
      assert Product(|found| as real, DOMINANT_SHARE) == |found| as real * 0.2;
    }
  }

  /** The dominant vendors are exactly the suppliers with a fifth or more of the department's spend, largest
      share first. */
  lemma DominantsExact(txs: seq<Transaction>, list: Listing, d: string, x: Dominant)
    ensures var dominant := HhiOf(EdgesOf(txs, list), d).dominant;
            && DescendingShares(dominant) && multiset(dominant)[x] <= 1
            && (x in dominant
                <==> && x.vendorId in Suppliers(txs, d) && x.spend == SpendWith(txs, d, x.vendorId)
                     && x.share == ShareOf(x.spend, DepartmentSpend(txs, d)) >= 0.20)
  {
    var spend := VendorSpend(EdgesOf(txs, list), d);
    var total := Sum(ValuesAt(spend, spend.keys, 0.0));
    SpendIsConserved(txs, list, d);
    DominantsSorted(Dominants(spend, total, spend.keys), x);
    DominantsMember(spend, total, spend.keys, x);
    SpendKeys(txs, list, d);
    DominantsOnce(spend, total, spend.keys, x);
    SortByCorrect(Dominants(spend, total, spend.keys), ShareDescending);
    SpendAt(txs, list, d, x.vendorId);
  }
}

/** The normalised Herfindahl-Hirschman index, and what its two versions have in common. */
module Concentration {
  import opened RealSums

  datatype Level = HighConcentration | ModerateConcentration | LowConcentration | Competitive

  /** (q - 1/n) / (1 - 1/n) for `n` shares with sum of squares `q`. */
  function Normalised(n: real, q: real): real
    requires n > 1.0
  {
    (q - 1.0 / n) / (1.0 - 1.0 / n)
  }

  function CalculateHhi(shares: seq<real>): real {
    if shares == [] then 0.0
    else if |shares| == 1 then 1.0
    else
      var x := Normalised(|shares| as real, SumOfSquares(shares));
      var low := if 1.0 <= x then 1.0 else x;
      if 0.0 >= low then 0.0 else low
  }

  function ClassifyHhi(x: real): Level {
    if x >= 0.75 then HighConcentration
    else if x >= 0.50 then ModerateConcentration
    else if x >= 0.25 then LowConcentration
    else Competitive
  }

  /** The score of an official's approval counts, written out where it is used: no clamp, and 0 for one vendor. */
  function RepeatScore(shares: seq<real>): real {
    if |shares| <= 1 then 0.0 else Normalised(|shares| as real, SumOfSquares(shares))
  }

  function Shares(xs: seq<real>, total: real): seq<real> {
    if xs == [] then []
    else Shares(xs[..|xs| - 1], total) + [if total > 0.0 then xs[|xs| - 1] / total else 0.0]
  }

  // ---------------------------------------------------------------------------------------------
  // Shares
  // ---------------------------------------------------------------------------------------------

  ghost predicate AllPositive(xs: seq<real>) {
    forall i | 0 <= i < |xs| :: xs[i] > 0.0
  }

  lemma {:induction false} SharesShape(xs: seq<real>, total: real)
    requires total > 0.0
    ensures |Shares(xs, total)| == |xs|
    ensures forall i | 0 <= i < |xs| :: Shares(xs, total)[i] == xs[i] / total
    ensures Sum(Shares(xs, total)) == Sum(xs) / total
  {
    if xs != [] {
      var init, x := xs[..|xs| - 1], xs[|xs| - 1];
      SharesShape(init, total);
      SumSnoc(Shares(init, total), x / total);
      DivideSum(Sum(init), x, total);
    }
  }

  lemma DivideSum(a: real, b: real, t: real)
    requires t > 0.0
    ensures a / t + b / t == (a + b) / t
  {
  }

  lemma DividePositive(a: real, t: real)
    requires a > 0.0 && t > 0.0
    ensures a / t > 0.0
  {
  }

  lemma DivideBySelf(t: real)
    requires t > 0.0
    ensures t / t == 1.0
  {
  }

  lemma {:induction false} SumPositive(xs: seq<real>)
    requires AllPositive(xs)
    ensures Sum(xs) >= 0.0
    ensures xs != [] ==> Sum(xs) > 0.0
  {
    if xs != [] {
      SumPositive(xs[..|xs| - 1]);
    }
  }

  /** A list of shares of one whole. */
  ghost predicate AreShares(s: seq<real>) {
    s != [] && AllPositive(s) && Sum(s) == 1.0
  }

  lemma PositivesGiveShares(xs: seq<real>)
    requires xs != [] && AllPositive(xs)
    ensures Sum(xs) > 0.0
    ensures AreShares(Shares(xs, Sum(xs))) && |Shares(xs, Sum(xs))| == |xs|
    ensures forall i | 0 <= i < |xs| :: Shares(xs, Sum(xs))[i] == xs[i] / Sum(xs)
  {
    SumPositive(xs);
    var total := Sum(xs);
    SharesShape(xs, total);
    var s := Shares(xs, total);
    forall i | 0 <= i < |s| ensures s[i] > 0.0 {
      DividePositive(xs[i], total);
    }
    DivideBySelf(total);
  }

  // ---------------------------------------------------------------------------------------------
  // The range of the normalised index
  // ---------------------------------------------------------------------------------------------

  lemma {:induction false} SquaresBelowSquareOfSum(xs: seq<real>)
    requires AllPositive(xs)
    ensures SumOfSquares(xs) <= Square(Sum(xs))
    ensures |xs| >= 2 ==> SumOfSquares(xs) < Square(Sum(xs))
  {
    if xs != [] {
      var init, x := xs[..|xs| - 1], xs[|xs| - 1];
      SquaresBelowSquareOfSum(init);
      SumPositive(init);
      SquareOfSum(Sum(init), x);
      if init != [] {
        ProductPositive(Sum(init), x);
      } else {
        assert Product(0.0, x) == 0.0;
      }
    }
  }

  lemma SquareOfSum(a: real, b: real)
    ensures Square(a + b) == Square(a) + 2.0 * Product(a, b) + Square(b)
  {
  }

  lemma NormalisedRange(n: real, q: real)
    requires n > 1.0 && Product(n, q) >= 1.0 && q < 1.0
    ensures 0.0 <= Normalised(n, q) < 1.0
    ensures Normalised(n, q) == 0.0 <==> Product(n, q) == 1.0
  {
    var low := 1.0 / n;
    assert Product(n, low) == 1.0;
    assert 0.0 < low < 1.0;
    ProductOrder(n, low, q);
    Ratio(q - low, 1.0 - low);
  }

  lemma ProductOrder(n: real, x: real, y: real)
    requires n > 0.0
    ensures Product(n, x) <= Product(n, y) <==> x <= y
    ensures Product(n, x) == Product(n, y) <==> x == y
  {
    assert Product(n, y) - Product(n, x) == Product(n, y - x);
    if y > x {
      ProductPositive(n, y - x);
    } else if y < x {
      ProductPositive(n, x - y);
    }
  }

  lemma Ratio(a: real, b: real)
    requires 0.0 <= a < b
    ensures 0.0 <= a / b < 1.0
    ensures a / b == 0.0 <==> a == 0.0
  {
    assert Product(a / b, b) == a;
    ProductOrder(b, 0.0, a / b);
    ProductOrder(b, a / b, 1.0);
  }

  ghost predicate AllEqual(s: seq<real>) {
    forall i, j | 0 <= i < |s| && 0 <= j < |s| :: s[i] == s[j]
  }

  lemma {:induction false} SumOfEqual(s: seq<real>, x: real)
    requires forall i | 0 <= i < |s| :: s[i] == x
    ensures Sum(s) == Product(|s| as real, x)
  {
    if s != [] {
      SumOfEqual(s[..|s| - 1], x);
      assert Product(|s| as real, x) == Product(|s| as real - 1.0, x) + x;
    }
  }

  lemma MeanOfEqual(s: seq<real>)
    requires s != []
    ensures AllEqual(s) <==> forall i | 0 <= i < |s| :: s[i] == Mean(s)
  {
    if AllEqual(s) {
      SumOfEqual(s, s[0]);
      MeanTimesCount(s);
      ProductOrder(|s| as real, s[0], Mean(s));
    }
  }

  /** For two or more positive shares of one whole the normalised index is at least 0, below 1, and 0 exactly
      when all shares are equal. */
  lemma NormalisedOfShares(s: seq<real>)
    requires AreShares(s) && |s| >= 2
    ensures 0.0 <= Normalised(|s| as real, SumOfSquares(s)) < 1.0
    ensures Normalised(|s| as real, SumOfSquares(s)) == 0.0 <==> AllEqual(s)
  {
    SpreadHolds(s);
    SquaresBelowSquareOfSum(s);
    assert Square(1.0) == 1.0;
    NormalisedRange(|s| as real, SumOfSquares(s));
    MeanOfEqual(s);
  }

  /** The clamp in the one version never acts on shares, so the two versions differ only for a single share. */
  lemma ScoresAgreeUnlessSingle(s: seq<real>)
    requires AreShares(s)
    ensures CalculateHhi(s) == RepeatScore(s) <==> |s| >= 2
    ensures 0.0 <= RepeatScore(s) < 1.0
    ensures RepeatScore(s) == 0.0 <==> AllEqual(s)
    ensures CalculateHhi(s) == 1.0 <==> |s| == 1
  {
    if |s| >= 2 {
      NormalisedOfShares(s);
    }
  }

  lemma NormalisedTimes(n: real, q: real)
    requires n > 1.0
    ensures Product(n - 1.0, Normalised(n, q)) == Product(n, q) - 1.0
  {
    var a, b := q - 1.0 / n, 1.0 - 1.0 / n;
    assert Product(n, b) == n - 1.0;
    assert Product(a / b, b) == a;
    assert Product(n - 1.0, a / b) == Product(n, Product(a / b, b));
    assert Product(n, a) == Product(n, q) - 1.0;
  }

  /** For two or more shares of one whole both versions measure how far the shares are apart: `n - 1` times the index
      is the sum of the squared differences of all pairs of shares. A single share has index 1 in the one version and
      score 0 in the other. */
  lemma IndexIsPairs(s: seq<real>)
    requires AreShares(s)
    ensures |s| >= 2 ==> Product(|s| as real - 1.0, CalculateHhi(s)) == PairSquares(s)
    ensures |s| >= 2 ==> Product(|s| as real - 1.0, RepeatScore(s)) == PairSquares(s)
    ensures |s| == 1 ==> CalculateHhi(s) == 1.0 && RepeatScore(s) == 0.0
  {
    if |s| >= 2 {
      NormalisedOfShares(s);
      NormalisedTimes(|s| as real, SumOfSquares(s));
      PairLaw(s);
      assert Square(1.0) == 1.0;
    }
  }

  /** `x` is the sum of the squared differences of all pairs of the elements' shares, over one less than their number;
      for one element it is `single`. */
  ghost predicate IsPairIndex<T>(elements: seq<T>, share: T -> real, x: real, single: real) {
    if |elements| == 1 then x == single
    else Product(|elements| as real - 1.0, x) == PairSquares(Values(elements, share))
  }

  lemma SharesAre<T>(xs: seq<real>, total: real, elements: seq<T>, share: T -> real)
    requires total > 0.0 && |xs| == |elements| && forall i | 0 <= i < |xs| :: share(elements[i]) == xs[i] / total
    ensures Shares(xs, total) == Values(elements, share)
  {
    SharesShape(xs, total);
  }

  lemma PairIndexOfListing<T(!new)>(elements: seq<T>, listing: seq<T>, share: T -> real)
    requires SameElements(elements, listing) && AreShares(Values(elements, share))
    ensures IsPairIndex(listing, share, CalculateHhi(Values(elements, share)), 1.0)
    ensures IsPairIndex(listing, share, RepeatScore(Values(elements, share)), 0.0)
  {
    PairsInAnyOrder(elements, listing, share);
    IndexIsPairs(Values(elements, share));
  }

  lemma DivideOrder(x: real, y: real, t: real)
    requires t > 0.0
    ensures x / t == y / t <==> x == y
  {
    assert Product(t, x / t) == x && Product(t, y / t) == y;
  }

  lemma AllEqualScaled(xs: seq<real>, s: seq<real>, t: real)
    requires t > 0.0 && |s| == |xs| && forall i | 0 <= i < |xs| :: s[i] == xs[i] / t
    ensures AllEqual(s) <==> AllEqual(xs)
  {
    forall i, j | 0 <= i < |xs| && 0 <= j < |xs| ensures s[i] == s[j] <==> xs[i] == xs[j] {
      DivideOrder(xs[i], xs[j], t);
    }
  }

  // ---------------------------------------------------------------------------------------------
  // Large shares are few
  // ---------------------------------------------------------------------------------------------

  function AtLeast(s: seq<real>, bound: real): nat {
    if s == [] then 0
    else if s[|s| - 1] >= bound then AtLeast(s[..|s| - 1], bound) + 1
    else AtLeast(s[..|s| - 1], bound)
  }

  lemma {:induction false} FewLargeShares(s: seq<real>, bound: real)
    requires AllPositive(s)
    ensures Product(AtLeast(s, bound) as real, bound) <= Sum(s)
  {
    if s != [] {
      var k := AtLeast(s[..|s| - 1], bound) as real;
      FewLargeShares(s[..|s| - 1], bound);
      assert Product(k + 1.0, bound) == Product(k, bound) + bound;
    } else {
      assert Product(0.0, bound) == 0.0;
    }
  }
}

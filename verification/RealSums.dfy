/** Sums over sequences of reals, and the inequality behind every spread and concentration measure. */
module RealSums {
  import opened Sequences

  function Product(x: real, y: real): real {
    x * y
  }

  function Square(x: real): real {
    Product(x, x)
  }

  function Sum(xs: seq<real>): real {
    if xs == [] then 0.0 else Sum(xs[..|xs| - 1]) + xs[|xs| - 1]
  }

  /** The sum of squared distances from `m`. */
  function SquaredDeviations(xs: seq<real>, m: real): real {
    if xs == [] then 0.0 else SquaredDeviations(xs[..|xs| - 1], m) + Square(xs[|xs| - 1] - m)
  }

  function SumOfSquares(xs: seq<real>): real {
    if xs == [] then 0.0 else SumOfSquares(xs[..|xs| - 1]) + Square(xs[|xs| - 1])
  }

  function Mean(xs: seq<real>): real
    requires xs != []
  {
    Sum(xs) / |xs| as real
  }

  lemma MeanTimesCount(xs: seq<real>)
    requires xs != []
    ensures Product(|xs| as real, Mean(xs)) == Sum(xs)
  {
  }

  lemma SumSnoc(xs: seq<real>, x: real)
    ensures Sum(xs + [x]) == Sum(xs) + x
    ensures SumOfSquares(xs + [x]) == SumOfSquares(xs) + Square(x)
  {
    assert (xs + [x])[..|xs|] == xs;
  }

  function Without<T>(xs: seq<T>, i: nat): seq<T>
    requires i < |xs|
  {
    xs[..i] + xs[i + 1..]
  }

  /** Splits one value off both sums. */
  lemma {:induction false} SplitOff(xs: seq<real>, i: nat)
    requires i < |xs|
    ensures Sum(xs) == Sum(Without(xs, i)) + xs[i]
    ensures SumOfSquares(xs) == SumOfSquares(Without(xs, i)) + Square(xs[i])
  {
    var n := |xs| - 1;
    var init, last := xs[..n], xs[n];
    if i == n {
      assert Without(xs, i) == init;
    } else {
      SplitOff(init, i);
      assert Without(xs, i) == Without(init, i) + [last];
      SumSnoc(Without(init, i), last);
    }
  }

  lemma ProductPositive(x: real, y: real)
    requires x > 0.0 && y > 0.0
    ensures Product(x, y) > 0.0
  {
  }

  lemma ProductNonNegative(x: real, y: real)
    requires x >= 0.0 && y >= 0.0
    ensures Product(x, y) >= 0.0
  {
    if x > 0.0 && y > 0.0 {
      ProductPositive(x, y);
    }
  }

  lemma ProductOfSum(x: real, y: real, z: real)
    ensures Product(x, y + z) == Product(x, y) + Product(x, z)
  {
  }

  lemma ProductMonotone(x: real, y: real, y': real)
    requires x >= 0.0 && y <= y'
    ensures Product(x, y) <= Product(x, y')
  {
    ProductNonNegative(x, y' - y);
    ProductOfSum(x, y, y' - y);
  }

  lemma SquareNonNegative(x: real)
    ensures Square(x) >= 0.0
    ensures x != 0.0 <==> Square(x) > 0.0
  {
    if x > 0.0 {
      ProductPositive(x, x);
    } else if x < 0.0 {
      ProductPositive(-x, -x);
      assert Product(-x, -x) == Product(x, x);
    }
  }

  lemma SquareOfDifference(x: real, m: real)
    ensures Square(x - m) == Square(x) - 2.0 * Product(m, x) + Square(m)
  {
  }

  lemma {:induction false} DeviationsNonNegative(xs: seq<real>, m: real)
    ensures SquaredDeviations(xs, m) >= 0.0
    ensures SquaredDeviations(xs, m) == 0.0 <==> forall i | 0 <= i < |xs| :: xs[i] == m
  {
    if xs != [] {
      var init, x := xs[..|xs| - 1], xs[|xs| - 1];
      DeviationsNonNegative(init, m);
      SquareNonNegative(x - m);
      assert SquaredDeviations(xs, m) == 0.0 <==> SquaredDeviations(init, m) == 0.0 && x == m;
      assert forall i | 0 <= i < |init| :: xs[i] == init[i];
    }
  }

  lemma {:induction false} DeviationsExpand(xs: seq<real>, m: real)
    ensures SquaredDeviations(xs, m) == SumOfSquares(xs) - 2.0 * Product(m, Sum(xs)) + Product(|xs| as real, Square(m))
  {
    if xs != [] {
      var init, x := xs[..|xs| - 1], xs[|xs| - 1];
      DeviationsExpand(init, m);
      SquareOfDifference(x, m);
      assert Product(m, Sum(init) + x) == Product(m, Sum(init)) + Product(m, x);
      assert Product(|init| as real + 1.0, Square(m)) == Product(|init| as real, Square(m)) + Square(m);
    }
  }

  /** The law relating a count `n`, a sum `s`, a sum of squares `q` and the squared deviations `d` from the
      mean: Cauchy-Schwarz against the constant sequence, with its equality case. */
  predicate SpreadLaw(n: real, s: real, q: real, d: real) {
    && d >= 0.0
    && Product(n, q) == Square(s) + Product(n, d)
    && Product(n, q) >= Square(s)
    && (Product(n, q) == Square(s) <==> d == 0.0)
  }

  lemma SpreadArithmetic(n: real, s: real, m: real, q: real, d: real)
    requires n > 0.0 && Product(n, m) == s && d >= 0.0
    requires d == q - 2.0 * Product(m, s) + Product(n, Square(m))
    ensures SpreadLaw(n, s, q, d)
  {
    assert Product(n, Square(m)) == Product(Product(n, m), m) == Product(s, m);
    assert Product(m, s) == Product(s, m);
    assert d == q - Product(s, m);
    assert Product(n, Product(s, m)) == Product(s, Product(n, m)) == Square(s);
    assert Product(n, d) == Product(n, q) - Product(n, Product(s, m));
    if d > 0.0 {
      ProductPositive(n, d);
    }
  }

  lemma SpreadHolds(xs: seq<real>)
    requires xs != []
    ensures SpreadLaw(|xs| as real, Sum(xs), SumOfSquares(xs), SquaredDeviations(xs, Mean(xs)))
    ensures SquaredDeviations(xs, Mean(xs)) == 0.0 <==> forall i | 0 <= i < |xs| :: xs[i] == Mean(xs)
  {
    MeanTimesCount(xs);
    DeviationsExpand(xs, Mean(xs));
    DeviationsNonNegative(xs, Mean(xs));
    SpreadArithmetic(|xs| as real, Sum(xs), Mean(xs), SumOfSquares(xs), SquaredDeviations(xs, Mean(xs)));
  }

  // ---------------------------------------------------------------------------------------------
  // Differences between all pairs
  // ---------------------------------------------------------------------------------------------

  /** The sum of `Square(xs[i] - xs[j])` over all `i < j`. */
  function PairSquares(xs: seq<real>): real {
    if xs == [] then 0.0 else PairSquares(xs[..|xs| - 1]) + SquaredDeviations(xs[..|xs| - 1], xs[|xs| - 1])
  }

  lemma PairStep(n: real, s: real, q: real, p: real, x: real, d: real)
    requires p == Product(n, q) - Square(s)
    requires d == q - 2.0 * Product(x, s) + Product(n, Square(x))
    ensures p + d == Product(n + 1.0, q + Square(x)) - Square(s + x)
  {
    var y := q + Square(x);
    assert Product(n + 1.0, y) == Product(n, y) + y;
    ProductOfSum(n, q, Square(x));
    assert Square(s + x) == Square(s) + 2.0 * Product(x, s) + Square(x);
  }

  /** Lagrange: `n` times the sum of squares exceeds the square of the sum by the squared differences of all pairs. */
  lemma {:induction false} PairLaw(xs: seq<real>)
    ensures PairSquares(xs) == Product(|xs| as real, SumOfSquares(xs)) - Square(Sum(xs))
  {
    if xs != [] {
      var init, x := xs[..|xs| - 1], xs[|xs| - 1];
      PairLaw(init);
      DeviationsExpand(init, x);
      PairStep(|init| as real, Sum(init), SumOfSquares(init), PairSquares(init), x, SquaredDeviations(init, x));
    }
  }

  // ---------------------------------------------------------------------------------------------
  // Sums over the elements of a set, in any order
  // ---------------------------------------------------------------------------------------------

  function Values<T>(s: seq<T>, f: T -> real): seq<real> {
    seq(|s|, i requires 0 <= i < |s| => f(s[i]))
  }

  /** Two lists of the same elements, none twice. */
  ghost predicate SameElements<T(!new)>(s: seq<T>, t: seq<T>) {
    && (forall i, j | 0 <= i < j < |s| :: s[i] != s[j])
    && (forall i, j | 0 <= i < j < |t| :: t[i] != t[j])
    && forall x :: x in s <==> x in t
  }

  lemma WithoutElement<T>(s: seq<T>, j: nat, x: T)
    requires j < |s| && forall i, k | 0 <= i < k < |s| :: s[i] != s[k]
    ensures x in Without(s, j) <==> x in s && x != s[j]
  {
    assert s == s[..j] + [s[j]] + s[j + 1..];
  }

  lemma WithoutSame<T(!new)>(s: seq<T>, t: seq<T>, j: nat)
    requires s != [] && SameElements(s, t) && j < |t| && t[j] == s[|s| - 1]
    ensures SameElements(s[..|s| - 1], Without(t, j))
  {
    var init, rest := s[..|s| - 1], Without(t, j);
    assert s == init + [s[|s| - 1]];
    forall x
      ensures x in init <==> x in rest
    {
      WithoutElement(t, j, x);
    }
    forall i, k | 0 <= i < k < |rest|
      ensures rest[i] != rest[k]
    {
      var i', k' := if i < j then i else i + 1, if k < j then k else k + 1;
      assert rest[i] == t[i'] && rest[k] == t[k'];
    }
  }

  lemma SplitOffElement<T>(t: seq<T>, j: nat, f: T -> real)
    requires j < |t|
    ensures Sum(Values(t, f)) == Sum(Values(Without(t, j), f)) + f(t[j])
    ensures SumOfSquares(Values(t, f)) == SumOfSquares(Values(Without(t, j), f)) + Square(f(t[j]))
  {
    SplitOff(Values(t, f), j);
    assert Values(Without(t, j), f) == Without(Values(t, f), j);
  }

  /** The sums do not depend on the order in which the elements are listed. */
  lemma {:induction false} OrderIsIrrelevant<T(!new)>(s: seq<T>, t: seq<T>, f: T -> real)
    requires SameElements(s, t)
    ensures |s| == |t|
    ensures Sum(Values(s, f)) == Sum(Values(t, f)) && SumOfSquares(Values(s, f)) == SumOfSquares(Values(t, f))
  {
    if s == [] {
      FirstIsMember(t);
    } else {
      var n := |s| - 1;
      assert s[n] in t;
      var j :| 0 <= j < |t| && t[j] == s[n];
      WithoutSame(s, t, j);
      OrderIsIrrelevant(s[..n], Without(t, j), f);
      SplitOffElement(s, n, f);
      SplitOffElement(t, j, f);
      assert Without(s, n) == s[..n];
    }
  }

  /** Nor do the differences of all pairs. */
  lemma PairsInAnyOrder<T(!new)>(s: seq<T>, t: seq<T>, f: T -> real)
    requires SameElements(s, t)
    ensures |s| == |t| && PairSquares(Values(s, f)) == PairSquares(Values(t, f))
  {
    OrderIsIrrelevant(s, t, f);
    PairLaw(Values(s, f));
    PairLaw(Values(t, f));
  }
}

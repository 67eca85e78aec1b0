/** Selections: a list that holds one element for each of some positions, in their order. The positions determine the
    list, so a lemma that a function selects pins its result down, multiplicity and order included. */
module Selections {
  import opened Sequences

  ghost predicate Increasing(ps: seq<nat>) {
    forall i, j | 0 <= i < j < |ps| :: ps[i] < ps[j]
  }

  /** The wanted positions below `n`, in ascending order. */
  ghost function Positions(n: nat, wanted: nat -> bool): seq<nat> {
    if n == 0 then [] else if wanted(n - 1) then Positions(n - 1, wanted) + [n - 1] else Positions(n - 1, wanted)
  }

  ghost predicate PositionsBelow(n: nat, wanted: nat -> bool, ps: seq<nat>) {
    Increasing(ps) && forall i: nat :: i in ps <==> i < n && wanted(i)
  }

  lemma {:induction false} PositionsExact(n: nat, wanted: nat -> bool)
    ensures PositionsBelow(n, wanted, Positions(n, wanted))
  {
    if n > 0 {
      PositionsExact(n - 1, wanted);
      PositionsNext(n - 1, wanted, Positions(n - 1, wanted));
    }
  }

  lemma PositionsNext(n: nat, wanted: nat -> bool, ps: seq<nat>)
    requires PositionsBelow(n, wanted, ps)
    ensures PositionsBelow(n + 1, wanted, if wanted(n) then ps + [n] else ps)
  {
    var longer := ps + [n];
    assert forall k | 0 <= k < |ps| :: ps[k] in ps;
    assert forall i: nat :: i in longer <==> i in ps || i == n;
  }

  /** One element for each of the positions, in order; `fits` says which element belongs to a position. */
  ghost predicate FitsAt<R>(ps: seq<nat>, picked: seq<R>, fits: (nat, R) -> bool) {
    |ps| == |picked| && forall k | 0 <= k < |ps| :: fits(ps[k], picked[k])
  }

  /** One element for exactly the wanted positions below `n`, in order. */
  ghost predicate Lists<R>(n: nat, wanted: nat -> bool, picked: seq<R>, fits: (nat, R) -> bool) {
    FitsAt(Positions(n, wanted), picked, fits)
  }

  /** The element of `s` at a position. */
  ghost function ElementOf<T>(s: seq<T>): (nat, T) -> bool {
    (i: nat, x: T) => i < |s| && x == s[i]
  }

  /** The elements of `s` at exactly the wanted positions, in order. */
  ghost predicate Selects<T>(s: seq<T>, wanted: nat -> bool, picked: seq<T>) {
    Lists(|s|, wanted, picked, ElementOf(s))
  }

  lemma ListsNone<R>(wanted: nat -> bool, fits: (nat, R) -> bool)
    ensures Lists(0, wanted, [], fits)
  {
  }

  lemma FitsSnoc<R>(ps: seq<nat>, picked: seq<R>, fits: (nat, R) -> bool, n: nat, x: R)
    requires FitsAt(ps, picked, fits) && fits(n, x)
    ensures FitsAt(ps + [n], picked + [x], fits)
  {
  }

  lemma ListsNext<R>(n: nat, wanted: nat -> bool, picked: seq<R>, fits: (nat, R) -> bool, x: R)
    requires Lists(n, wanted, picked, fits) && (wanted(n) ==> fits(n, x))
    ensures Lists(n + 1, wanted, if wanted(n) then picked + [x] else picked, fits)
  {
    if wanted(n) {
      FitsSnoc(Positions(n, wanted), picked, fits, n, x);
    }
  }

  lemma ListsSkip<R>(n: nat, wanted: nat -> bool, picked: seq<R>, fits: (nat, R) -> bool)
    requires Lists(n, wanted, picked, fits) && !wanted(n)
    ensures Lists(n + 1, wanted, picked, fits)
  {
  }

  lemma {:induction false} PositionsSame(n: nat, wanted: nat -> bool, wanted': nat -> bool)
    requires forall i: nat | i < n :: wanted(i) == wanted'(i)
    ensures Positions(n, wanted) == Positions(n, wanted')
  {
    if n > 0 {
      PositionsSame(n - 1, wanted, wanted');
    }
  }

  lemma ListsRefit<R>(n: nat, wanted: nat -> bool, picked: seq<R>, fits: (nat, R) -> bool,
                      wanted': nat -> bool, fits': (nat, R) -> bool)
    requires Lists(n, wanted, picked, fits)
    requires forall i: nat | i < n :: wanted(i) == wanted'(i)
    requires forall i: nat, x | i < n && fits(i, x) :: fits'(i, x)
    ensures Lists(n, wanted', picked, fits')
  {
    var ps := Positions(n, wanted);
    PositionsSame(n, wanted, wanted');
    PositionsExact(n, wanted);
    forall k | 0 <= k < |ps|
      ensures fits'(ps[k], picked[k])
    {
      assert ps[k] in ps;
    }
  }

  /** One more element at the end of the list. */
  lemma SelectsSnoc<T>(s: seq<T>, x: T, wanted: nat -> bool, picked: seq<T>)
    requires Selects(s, wanted, picked)
    ensures Selects(s + [x], wanted, if wanted(|s|) then picked + [x] else picked)
  {
    ListsRefit(|s|, wanted, picked, ElementOf(s), wanted, ElementOf(s + [x]));
    ListsNext(|s|, wanted, picked, ElementOf(s + [x]), x);
  }

  /** The same selection under another name of the wanted positions. */
  lemma SelectsSame<T>(s: seq<T>, wanted: nat -> bool, picked: seq<T>, wanted': nat -> bool)
    requires Selects(s, wanted, picked) && forall i: nat | i < |s| :: wanted(i) == wanted'(i)
    ensures Selects(s, wanted', picked)
  {
    ListsRefit(|s|, wanted, picked, ElementOf(s), wanted', ElementOf(s));
  }

  /** Ascending positions are determined by which they are. */
  lemma {:induction false} IncreasingUnique(ps: seq<nat>, qs: seq<nat>)
    requires Increasing(ps) && Increasing(qs) && forall i: nat :: i in ps <==> i in qs
    ensures ps == qs
  {
    if ps == [] {
      FirstIsMember(qs);
    } else if qs == [] {
      FirstIsMember(ps);
    } else {
      var p, q := ps[|ps| - 1], qs[|qs| - 1];
      LastIsLargest(ps);
      LastIsLargest(qs);
      assert p in qs && q in ps;
      var earlier, earlier' := ps[..|ps| - 1], qs[..|qs| - 1];
      forall i: nat
        ensures i in earlier <==> i in earlier'
      {
        InitMember(ps, i);
        InitMember(qs, i);
      }
      IncreasingUnique(earlier, earlier');
      assert ps == earlier + [p];
    }
  }

  lemma LastIsLargest(ps: seq<nat>)
    requires Increasing(ps) && ps != []
    ensures forall i | i in ps :: i <= ps[|ps| - 1]
  {
  }

  lemma InitMember(ps: seq<nat>, i: nat)
    requires Increasing(ps) && ps != []
    ensures i in ps[..|ps| - 1] <==> i in ps && i != ps[|ps| - 1]
  {
    assert ps == ps[..|ps| - 1] + [ps[|ps| - 1]];
  }

  /** So what is listed for known positions is listed in their order. */
  lemma ListedAt<R>(n: nat, wanted: nat -> bool, picked: seq<R>, fits: (nat, R) -> bool, ps: seq<nat>)
    requires Lists(n, wanted, picked, fits) && PositionsBelow(n, wanted, ps)
    ensures FitsAt(ps, picked, fits)
  {
    PositionsExact(n, wanted);
    IncreasingUnique(ps, Positions(n, wanted));
  }

  /** A selection is determined by the wanted positions. */
  lemma SelectsUnique<T>(s: seq<T>, wanted: nat -> bool, picked: seq<T>, picked': seq<T>)
    requires Selects(s, wanted, picked) && Selects(s, wanted, picked')
    ensures picked == picked'
  {
    var ps, fits := Positions(|s|, wanted), ElementOf(s);
    forall k | 0 <= k < |ps|
      ensures picked[k] == picked'[k]
    {
      assert fits(ps[k], picked[k]) && fits(ps[k], picked'[k]);
    }
  }

  /** What is listed is what fits some wanted position, if at most one element fits each. */
  lemma ListsMember<R>(n: nat, wanted: nat -> bool, picked: seq<R>, fits: (nat, R) -> bool, x: R)
    requires Lists(n, wanted, picked, fits)
    requires forall i: nat, y, z | fits(i, y) && fits(i, z) :: y == z
    ensures x in picked <==> exists i: nat :: i < n && wanted(i) && fits(i, x)
  {
    var ps := Positions(n, wanted);
    PositionsExact(n, wanted);
    if x in picked {
      var k :| 0 <= k < |picked| && picked[k] == x;
      assert ps[k] in ps && fits(ps[k], x);
    }
    if i: nat :| i < n && wanted(i) && fits(i, x) {
      assert i in ps;
      var k :| 0 <= k < |ps| && ps[k] == i;
      assert fits(i, picked[k]);
    }
  }

  // ---------------------------------------------------------------------------------------------
  // Filters
  // ---------------------------------------------------------------------------------------------

  /** The positions of the elements to keep. */
  ghost function Keeping<T>(s: seq<T>, keep: T -> bool): nat -> bool {
    (i: nat) => i < |s| && keep(s[i])
  }

  /** Exactly the elements to keep, each as often as it occurs, in their order. */
  ghost predicate Filters<T>(s: seq<T>, keep: T -> bool, picked: seq<T>) {
    Selects(s, Keeping(s, keep), picked)
  }

  lemma FiltersNone<T>(keep: T -> bool)
    ensures Filters([], keep, [])
  {
    ListsNone(Keeping([], keep), ElementOf<T>([]));
  }

  lemma FiltersSnoc<T>(s: seq<T>, x: T, keep: T -> bool, picked: seq<T>)
    requires Filters(s, keep, picked)
    ensures Filters(s + [x], keep, if keep(x) then picked + [x] else picked)
  {
    SelectsSame(s, Keeping(s, keep), picked, Keeping(s + [x], keep));
    SelectsSnoc(s, x, Keeping(s + [x], keep), picked);
  }

  lemma FiltersSame<T(!new)>(s: seq<T>, keep: T -> bool, picked: seq<T>, keep': T -> bool)
    requires Filters(s, keep, picked) && forall x :: keep(x) == keep'(x)
    ensures Filters(s, keep', picked)
  {
    SelectsSame(s, Keeping(s, keep), picked, Keeping(s, keep'));
  }

  /** A function that keeps or drops the last element and leaves the others to itself. */
  ghost predicate KeepsOrDrops<T(!new)>(keep: T -> bool, f: seq<T> -> seq<T>) {
    f([]) == [] && forall s, x :: f(s + [x]) == if keep(x) then f(s) + [x] else f(s)
  }

  /** Such a function filters. */
  lemma {:induction false} KeepsOrDropsFilters<T(!new)>(s: seq<T>, keep: T -> bool, f: seq<T> -> seq<T>)
    requires KeepsOrDrops(keep, f)
    ensures Filters(s, keep, f(s))
  {
    if s == [] {
      FiltersNone(keep);
    } else {
      var init, last := s[..|s| - 1], s[|s| - 1];
      KeepsOrDropsFilters(init, keep, f);
      FiltersSnoc(init, last, keep, f(init));
      assert s == init + [last];
      assert f(init + [last]) == if keep(last) then f(init) + [last] else f(init);
    }
  }

  /** A function that appends what it makes of the last element. */
  ghost predicate AppendsOne<K(!new), E>(f: seq<K> -> seq<E>, make: K -> E) {
    f([]) == [] && forall s, k :: f(s + [k]) == f(s) + [make(k)]
  }

  /** Such a function makes one element of each, in order. */
  lemma {:induction false} MakesEach<K(!new), E>(ks: seq<K>, f: seq<K> -> seq<E>, make: K -> E)
    requires AppendsOne(f, make)
    ensures |f(ks)| == |ks| && forall i | 0 <= i < |ks| :: f(ks)[i] == make(ks[i])
  {
    if ks == [] {
      assert f([]) == [];
    } else {
      var init, k := ks[..|ks| - 1], ks[|ks| - 1];
      MakesEach(init, f, make);
      assert ks == init + [k];
      assert f(init + [k]) == f(init) + [make(k)];
    }
  }
}

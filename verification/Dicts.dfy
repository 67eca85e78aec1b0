/** Insertion-ordered dictionaries, and what a loop that tallies a list into one computes. */
module Dicts {
  import opened Options
  import opened RealSums
  import opened Selections

  /** A dictionary that remembers the order in which its keys were first inserted. */
  datatype Dict<+K, +V> = Dict(keys: seq<K>, at: map<K, V>)

  function Put<K, V>(d: Dict<K, V>, k: K, v: V): Dict<K, V> {
    Dict(if k in d.at then d.keys else d.keys + [k], d.at[k := v])
  }

  function Get<K, V>(d: Dict<K, V>, k: K, default: V): V {
    if k in d.at then d.at[k] else default
  }

  /** The values at the listed keys, in that order. */
  function ValuesAt<K, V>(d: Dict<K, V>, ks: seq<K>, default: V): seq<V> {
    if ks == [] then [] else ValuesAt(d, ks[..|ks| - 1], default) + [Get(d, ks[|ks| - 1], default)]
  }

  ghost predicate NoDuplicates<T>(s: seq<T>) {
    forall i, j | 0 <= i < j < |s| :: s[i] != s[j]
  }

  /** The distinct elements of `s`, in the order of their first occurrence. */
  function Distinct<T(==)>(s: seq<T>): seq<T> {
    if s == [] then []
    else
      var earlier, last := Distinct(s[..|s| - 1]), s[|s| - 1];
      if last in earlier then earlier else earlier + [last]
  }

  /** The keys that the items carry; an item without one is skipped. */
  function Keys<T, K>(items: seq<T>, key: T -> Option<K>): seq<K> {
    if items == [] then []
    else
      var earlier, k := Keys(items[..|items| - 1], key), key(items[|items| - 1]);
      if k.Some? then earlier + [k.value] else earlier
  }

  /** The items whose key is `k`, in order. */
  function Group<T, K(==)>(items: seq<T>, key: T -> Option<K>, k: K): seq<T> {
    if items == [] then []
    else
      var earlier, last := Group(items[..|items| - 1], key, k), items[|items| - 1];
      if key(last) == Some(k) then earlier + [last] else earlier
  }

  function Filter<T>(items: seq<T>, keep: T -> bool): seq<T> {
    if items == [] then []
    else
      var earlier, last := Filter(items[..|items| - 1], keep), items[|items| - 1];
      if keep(last) then earlier + [last] else earlier
  }

  function Folded<T, V>(items: seq<T>, zero: V, add: (V, T) -> V): V {
    if items == [] then zero else add(Folded(items[..|items| - 1], zero, add), items[|items| - 1])
  }

  /** One loop over the items: each item with a key updates the value at that key. */
  function Tally<T, K(==), V>(items: seq<T>, key: T -> Option<K>, zero: V, add: (V, T) -> V): Dict<K, V> {
    if items == [] then Dict([], map[])
    else
      var earlier, last := Tally(items[..|items| - 1], key, zero, add), items[|items| - 1];
      if key(last).Some? then Put(earlier, key(last).value, add(Get(earlier, key(last).value, zero), last)) else earlier
  }

  // ---------------------------------------------------------------------------------------------
  // What a tally holds
  // ---------------------------------------------------------------------------------------------

  lemma {:induction false} DistinctExact<T>(s: seq<T>)
    ensures NoDuplicates(Distinct(s))
    ensures forall x :: x in Distinct(s) <==> x in s
  {
    if s != [] {
      var init := s[..|s| - 1];
      DistinctExact(init);
      assert s == init + [s[|s| - 1]];
    }
  }

  /** The tally's keys are the distinct keys in first-seen order, and each value folds that key's items. */
  lemma {:induction false} TallyExact<T, K, V>(items: seq<T>, key: T -> Option<K>, zero: V, add: (V, T) -> V)
    ensures var d := Tally(items, key, zero, add);
            && d.keys == Distinct(Keys(items, key))
            && (forall k :: k in d.at <==> k in d.keys)
            && forall k :: Get(d, k, zero) == Folded(Group(items, key, k), zero, add)
  {
    if items != [] {
      var init, last := items[..|items| - 1], items[|items| - 1];
      TallyExact(init, key, zero, add);
      var before, d := Tally(init, key, zero, add), Tally(items, key, zero, add);
      if key(last).Some? {
        var k := key(last).value;
        var ks := Keys(init, key);
        assert (ks + [k])[..|ks|] == ks;
        var g := Group(init, key, k);
        assert (g + [last])[..|g|] == g;
        forall j ensures Get(d, j, zero) == Folded(Group(items, key, j), zero, add) {
          assert j != k ==> Get(d, j, zero) == Get(before, j, zero);
        }
      }
    }
  }

  lemma {:induction false} KeysMember<T, K>(items: seq<T>, key: T -> Option<K>, k: K)
    ensures k in Keys(items, key) <==> Group(items, key, k) != []
    ensures k in Keys(items, key) <==> exists x :: x in items && key(x) == Some(k)
  {
    if items != [] {
      KeysMember(items[..|items| - 1], key, k);
      assert items == items[..|items| - 1] + [items[|items| - 1]];
    }
  }

  lemma {:induction false} GroupConcat<T, K>(a: seq<T>, b: seq<T>, key: T -> Option<K>, k: K)
    ensures Group(a + b, key, k) == Group(a, key, k) + Group(b, key, k)
  {
    if b == [] {
      assert a + b == a;
    } else {
      GroupConcat(a, b[..|b| - 1], key, k);
      assert (a + b)[..|a + b| - 1] == a + b[..|b| - 1];
    }
  }

  /** Tallying the selected items is tallying them all with the others' keys removed. */
  lemma {:induction false} TallyFiltered<T, K, V>(items: seq<T>, keep: T -> bool, key: T -> Option<K>,
                                                   key': T -> Option<K>, zero: V, add: (V, T) -> V)
    requires forall x :: key'(x) == if keep(x) then key(x) else None
    ensures Tally(Filter(items, keep), key, zero, add) == Tally(items, key', zero, add)
  {
    if items != [] {
      var init, last := items[..|items| - 1], items[|items| - 1];
      TallyFiltered(init, keep, key, key', zero, add);
      var kept := Filter(init, keep);
      assert (kept + [last])[..|kept|] == kept;
    }
  }

  // ---------------------------------------------------------------------------------------------
  // Sums over groups
  // ---------------------------------------------------------------------------------------------

  function SumBy<T>(items: seq<T>, weight: T -> real): real {
    if items == [] then 0.0 else SumBy(items[..|items| - 1], weight) + weight(items[|items| - 1])
  }

  /** The sum over all items that carry a key. */
  function KeyedSum<T, K>(items: seq<T>, key: T -> Option<K>, weight: T -> real): real {
    if items == [] then 0.0
    else
      var earlier, last := KeyedSum(items[..|items| - 1], key, weight), items[|items| - 1];
      if key(last).Some? then earlier + weight(last) else earlier
  }

  /** Each listed key's group sum. */
  function GroupSums<T, K(==)>(items: seq<T>, key: T -> Option<K>, weight: T -> real, ks: seq<K>): seq<real> {
    if ks == [] then []
    else GroupSums(items, key, weight, ks[..|ks| - 1]) + [SumBy(Group(items, key, ks[|ks| - 1]), weight)]
  }

  lemma {:induction false} GroupSumsEmpty<T, K>(key: T -> Option<K>, weight: T -> real, ks: seq<K>)
    ensures Sum(GroupSums([], key, weight, ks)) == 0.0
  {
    if ks != [] {
      GroupSumsEmpty(key, weight, ks[..|ks| - 1]);
      SumSnoc(GroupSums([], key, weight, ks[..|ks| - 1]), 0.0);
    }
  }

  lemma GroupSumStep<T, K>(init: seq<T>, last: T, key: T -> Option<K>, weight: T -> real, k: K)
    ensures SumBy(Group(init + [last], key, k), weight)
            == if key(last) == Some(k) then SumBy(Group(init, key, k), weight) + weight(last)
               else SumBy(Group(init, key, k), weight)
  {
    assert (init + [last])[..|init|] == init;
    var g := Group(init, key, k);
    assert (g + [last])[..|g|] == g;
  }

  /** One more item adds its weight once, at its own key. */
  lemma {:induction false} GroupSumsStep<T, K>(init: seq<T>, last: T,
                                               key: T -> Option<K>, weight: T -> real, ks: seq<K>)
    requires NoDuplicates(ks)
    ensures Sum(GroupSums(init + [last], key, weight, ks))
            == if key(last).Some? && key(last).value in ks then Sum(GroupSums(init, key, weight, ks)) + weight(last)
               else Sum(GroupSums(init, key, weight, ks))
  {
    if ks != [] {
      var n := |ks| - 1;
      var k := ks[n];
      GroupSumsStep(init, last, key, weight, ks[..n]);
      GroupSumStep(init, last, key, weight, k);
      SumSnoc(GroupSums(init, key, weight, ks[..n]), SumBy(Group(init, key, k), weight));
      SumSnoc(GroupSums(init + [last], key, weight, ks[..n]), SumBy(Group(init + [last], key, k), weight));
      assert ks == ks[..n] + [k];
      assert k !in ks[..n];
    }
  }

  /** The group sums of a complete duplicate-free list of keys add up to the sum over all keyed items. */
  lemma {:induction false} GroupsPartition<T, K>(items: seq<T>, key: T -> Option<K>, weight: T -> real, ks: seq<K>)
    requires NoDuplicates(ks) && forall k | k in Keys(items, key) :: k in ks
    ensures Sum(GroupSums(items, key, weight, ks)) == KeyedSum(items, key, weight)
  {
    if items == [] {
      GroupSumsEmpty(key, weight, ks);
    } else {
      var init, last := items[..|items| - 1], items[|items| - 1];
      assert items == init + [last];
      GroupsPartition(init, key, weight, ks);
      GroupSumsStep(init, last, key, weight, ks);
    }
  }

  // ---------------------------------------------------------------------------------------------
  // Keys and groups as lists
  // ---------------------------------------------------------------------------------------------

  ghost function HasKey<T, K>(key: T -> Option<K>, k: K): T -> bool {
    (x: T) => key(x) == Some(k)
  }

  /** A group is exactly the items with the key, in order and each as often as it occurs. */
  lemma GroupFilters<T(!new), K>(items: seq<T>, key: T -> Option<K>, k: K)
    ensures Filters(items, HasKey(key, k), Group(items, key, k))
  {
    var f := (s: seq<T>) => Group(s, key, k);
    forall s: seq<T>, x: T
      ensures f(s + [x]) == if HasKey(key, k)(x) then f(s) + [x] else f(s)
    {
      assert (s + [x])[..|s|] == s;
    }
    KeepsOrDropsFilters(items, HasKey(key, k), f);
  }

  /** The positions at which an element occurs for the first time. */
  ghost function FirstIn<T>(s: seq<T>): nat -> bool {
    (i: nat) => i < |s| && s[i] !in s[..i]
  }

  lemma FirstInPrefix<T>(s: seq<T>, n: nat, i: nat)
    requires i < n <= |s|
    ensures FirstIn(s[..n])(i) == FirstIn(s)(i)
  {
    assert s[..n][..i] == s[..i];
  }

  lemma DistinctSelectsNext<T>(init: seq<T>, last: T)
    requires Selects(init, FirstIn(init), Distinct(init))
    ensures Selects(init + [last], FirstIn(init + [last]), Distinct(init + [last]))
  {
    var s := init + [last];
    assert s[..|init|] == init;
    DistinctExact(init);
    forall i: nat | i < |init|
      ensures FirstIn(init)(i) == FirstIn(s)(i)
    {
      FirstInPrefix(s, |init|, i);
    }
    SelectsSame(init, FirstIn(init), Distinct(init), FirstIn(s));
    SelectsSnoc(init, last, FirstIn(s), Distinct(init));
  }

  /** The distinct elements come in the order of their first occurrence. */
  lemma {:induction false} DistinctSelects<T>(s: seq<T>)
    ensures Selects(s, FirstIn(s), Distinct(s))
  {
    if s == [] {
      ListsNone(FirstIn(s), ElementOf(s));
    } else {
      DistinctSelects(s[..|s| - 1]);
      DistinctSelectsNext(s[..|s| - 1], s[|s| - 1]);
      assert s == s[..|s| - 1] + [s[|s| - 1]];
    }
  }

  ghost function Keyed<T, K>(items: seq<T>, key: T -> Option<K>): nat -> bool {
    (i: nat) => i < |items| && key(items[i]).Some?
  }

  ghost function KeyAt<T, K>(items: seq<T>, key: T -> Option<K>): (nat, K) -> bool {
    (i: nat, k: K) => i < |items| && key(items[i]) == Some(k)
  }

  /** The keys are those of the items that carry one, in order. */
  lemma {:induction false} KeysList<T, K>(items: seq<T>, key: T -> Option<K>, n: nat)
    requires n <= |items|
    ensures Lists(n, Keyed(items, key), Keys(items[..n], key), KeyAt(items, key))
  {
    if n == 0 {
      ListsNone(Keyed(items, key), KeyAt(items, key));
    } else {
      KeysList(items, key, n - 1);
      assert items[..n][..n - 1] == items[..n - 1];
      if key(items[n - 1]).Some? {
        ListsNext(n - 1, Keyed(items, key), Keys(items[..n - 1], key), KeyAt(items, key), key(items[n - 1]).value);
      } else {
        ListsSkip(n - 1, Keyed(items, key), Keys(items[..n - 1], key), KeyAt(items, key));
      }
    }
  }

  lemma {:induction false} SumByIsSum<T>(items: seq<T>, weight: T -> real)
    ensures SumBy(items, weight) == Sum(Values(items, weight))
  {
    if items != [] {
      var init := items[..|items| - 1];
      SumByIsSum(init, weight);
      assert Values(items, weight)[..|items| - 1] == Values(init, weight);
    }
  }

  /** `ks` are the keys that the items carry, each once, in the order of their first occurrence. */
  ghost predicate FirstKeys<T, K(!new)>(items: seq<T>, key: T -> Option<K>, ks: seq<K>) {
    exists all :: KeysOf(items, key, all) && Selects(all, FirstIn(all), ks)
  }

  ghost predicate KeysOf<T, K>(items: seq<T>, key: T -> Option<K>, all: seq<K>) {
    Lists(|items|, Keyed(items, key), all, KeyAt(items, key))
  }

  lemma FirstKeysExact<T, K(!new)>(items: seq<T>, key: T -> Option<K>)
    ensures FirstKeys(items, key, Distinct(Keys(items, key)))
  {
    KeysList(items, key, |items|);
    assert items[..|items|] == items;
    DistinctSelects(Keys(items, key));
    assert KeysOf(items, key, Keys(items, key));
  }
}

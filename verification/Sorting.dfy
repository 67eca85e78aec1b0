/** The built-in stable sort by a key, as a function. */
module Sorting {

  ghost predicate SortedBy<T>(s: seq<T>, key: T -> real) {
    forall i, j | 0 <= i < j < |s| :: key(s[i]) <= key(s[j])
  }

  /** Inserts `x` after every element whose key is not larger. */
  function Insert<T>(s: seq<T>, x: T, key: T -> real): seq<T> {
    if s == [] || key(s[|s| - 1]) <= key(x) then s + [x]
    else Insert(s[..|s| - 1], x, key) + [s[|s| - 1]]
  }

  function SortBy<T>(s: seq<T>, key: T -> real): seq<T> {
    if s == [] then [] else Insert(SortBy(s[..|s| - 1], key), s[|s| - 1], key)
  }

  lemma {:induction false} InsertContents<T>(s: seq<T>, x: T, key: T -> real)
    ensures multiset(Insert(s, x, key)) == multiset(s) + multiset{x}
    ensures |Insert(s, x, key)| == |s| + 1
  {
    if s != [] && key(s[|s| - 1]) > key(x) {
      InsertContents(s[..|s| - 1], x, key);
      assert s == s[..|s| - 1] + [s[|s| - 1]];
    }
  }

  /** The last key after inserting is the larger of the two. */
  lemma InsertLast<T>(s: seq<T>, x: T, key: T -> real)
    ensures Insert(s, x, key) != []
    ensures var last := key(Insert(s, x, key)[|Insert(s, x, key)| - 1]);
            if s == [] || key(s[|s| - 1]) <= key(x) then last == key(x) else last == key(s[|s| - 1])
  {
  }

  lemma SortedSnoc<T>(s: seq<T>, x: T, key: T -> real)
    requires SortedBy(s, key) && (s != [] ==> key(s[|s| - 1]) <= key(x))
    ensures SortedBy(s + [x], key)
  {
  }

  lemma {:induction false} InsertSorted<T>(s: seq<T>, x: T, key: T -> real)
    requires SortedBy(s, key)
    ensures SortedBy(Insert(s, x, key), key)
  {
    if s == [] || key(s[|s| - 1]) <= key(x) {
      SortedSnoc(s, x, key);
    } else {
      var init, last := s[..|s| - 1], s[|s| - 1];
      InsertSorted(init, x, key);
      InsertLast(init, x, key);
      SortedSnoc(Insert(init, x, key), last, key);
    }
  }

  /** The result is in key order and a permutation of the input. */
  lemma {:induction false} SortByCorrect<T>(s: seq<T>, key: T -> real)
    ensures SortedBy(SortBy(s, key), key)
    ensures multiset(SortBy(s, key)) == multiset(s)
    ensures |SortBy(s, key)| == |s|
  {
    if s != [] {
      var init, last := s[..|s| - 1], s[|s| - 1];
      SortByCorrect(init, key);
      InsertSorted(SortBy(init, key), last, key);
      InsertContents(SortBy(init, key), last, key);
      assert s == init + [last];
    }
  }

  /** A list in key order stays as it is. */
  lemma {:induction false} SortedStays<T>(s: seq<T>, key: T -> real)
    requires SortedBy(s, key)
    ensures SortBy(s, key) == s
  {
    if s != [] {
      var init, last := s[..|s| - 1], s[|s| - 1];
      SortedStays(init, key);
      assert s == init + [last];
    }
  }

  lemma SortByMember<T>(s: seq<T>, key: T -> real, x: T)
    requires x in SortBy(s, key)
    ensures x in s
  {
    SortByCorrect(s, key);
    assert x in multiset(SortBy(s, key));
    assert x in multiset(s);
  }

  /** The elements with key `k`, in order. */
  function WithKey<T>(s: seq<T>, key: T -> real, k: real): seq<T> {
    if s == [] then []
    else
      var earlier := WithKey(s[..|s| - 1], key, k);
      if key(s[|s| - 1]) == k then earlier + [s[|s| - 1]] else earlier
  }

  lemma {:induction false} InsertIsStable<T>(s: seq<T>, x: T, key: T -> real, k: real)
    ensures WithKey(Insert(s, x, key), key, k) == if key(x) == k then WithKey(s, key, k) + [x] else WithKey(s, key, k)
  {
    if s == [] || key(s[|s| - 1]) <= key(x) {
      assert (s + [x])[..|s|] == s;
    } else {
      var init, last := s[..|s| - 1], s[|s| - 1];
      InsertIsStable(init, x, key, k);
      var inserted := Insert(init, x, key);
      assert (inserted + [last])[..|inserted|] == inserted;
    }
  }

  /** Elements with equal keys keep their order. */
  lemma {:induction false} SortIsStable<T>(s: seq<T>, key: T -> real, k: real)
    ensures WithKey(SortBy(s, key), key, k) == WithKey(s, key, k)
  {
    if s != [] {
      SortIsStable(s[..|s| - 1], key, k);
      InsertIsStable(SortBy(s[..|s| - 1], key), s[|s| - 1], key, k);
    }
  }
}

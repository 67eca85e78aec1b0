/** Merkle paths: what the extracted path proves, and what `verify_proof` accepts. */
module MerkleProofs {
  import opened Hashing
  import opened Merkle

  // ---------------------------------------------------------------------------------------------
  // The path of a leaf
  // ---------------------------------------------------------------------------------------------

  /** The sibling of node `i`, or the empty string for a lone last node. */
  function Sibling(level: seq<string>, i: nat): string
    requires i < |level|
  {
    if i % 2 == 1 then level[i - 1] else if i + 1 < |level| then level[i + 1] else ""
  }

  /** The siblings met from leaf `i` up to the root; lone nodes contribute nothing. */
  function Path(levels: seq<seq<string>>, i: nat): seq<string>
    requires Halving(levels) && i < |levels[0]|
    decreases |levels|
  {
    if |levels| == 1 then []
    else
      HalvingTail(levels);
      var sibling, above := Sibling(levels[0], i), Path(levels[1..], i / 2);
      if sibling != "" then [sibling] + above else above
  }

  lemma HalvingTail(levels: seq<seq<string>>)
    requires Halving(levels) && |levels| > 1
    ensures Halving(levels[1..])
    ensures forall i | 0 <= i < |levels[0]| :: i / 2 < |levels[1]|
  {
    var rest := levels[1..];
    assert rest[|rest| - 1] == levels[|levels| - 1];
    forall k | 0 <= k < |rest| - 1
      ensures |rest[k]| > 1 && |rest[k + 1]| == Half(|rest[k]|)
    {
      assert rest[k] == levels[k + 1] && rest[k + 1] == levels[k + 1 + 1];
    }
  }

  /** The path of leaf `i` in the tree of `es`. */
  function PathOf(h: HashFunction, es: seq<Entry>, i: nat): seq<string>
    requires i < |es|
  {
    LevelsShape(h, Leaves(h, es));
    Path(Levels(h, Leaves(h, es)), i)
  }

  lemma PathStep(h: HashFunction, level: Level, i: nat)
    requires |level| > 1 && i < |level|
    ensures Halving(Levels(h, level)) && Levels(h, level)[0] == level
    ensures Halving(Levels(h, NextLevel(h, level))) && i / 2 < |Levels(h, NextLevel(h, level))[0]|
    ensures var above := Path(Levels(h, NextLevel(h, level)), i / 2);
            Path(Levels(h, level), i) == (if i % 2 == 0 && i + 1 == |level| then above else [Sibling(level, i)] + above)
  {
    LevelsShape(h, level);
    LevelsShape(h, NextLevel(h, level));
    assert Levels(h, level)[1..] == Levels(h, NextLevel(h, level));
    assert Sibling(level, i) == "" <==> i % 2 == 0 && i + 1 == |level|;
  }

  // ---------------------------------------------------------------------------------------------
  // Paths prove membership when the sides are taken from the index
  // ---------------------------------------------------------------------------------------------

  /** Folds `path` from node `i` of a level of `n` nodes, taking sides from the index and rehashing lone
      nodes; the empty string if the path has the wrong length. */
  function RootFromPath(h: HashFunction, n: nat, i: nat, current: Digest, path: seq<string>): string
    decreases n
  {
    if n <= 1 then if path == [] then current else ""
    else if i % 2 == 0 && i + 1 >= n then RootFromPath(h, Half(n), i / 2, h(current), path)
    else if path == [] then ""
    else RootFromPath(h, Half(n), i / 2, h(Join(i, current, path[0])), path[1..])
  }

  function Join(i: nat, current: string, sibling: string): string {
    if i % 2 == 0 then current + sibling else sibling + current
  }

  /** The strings hashed by `RootFromPath`. */
  function FoldedOnPath(h: HashFunction, n: nat, i: nat, current: Digest, path: seq<string>): set<string>
    decreases n
  {
    if n <= 1 then {}
    else if i % 2 == 0 && i + 1 >= n then {current} + FoldedOnPath(h, Half(n), i / 2, h(current), path)
    else if path == [] then {}
    else {Join(i, current, path[0])} + FoldedOnPath(h, Half(n), i / 2, h(Join(i, current, path[0])), path[1..])
  }

  lemma CombinedIsJoin(level: Level, i: nat)
    requires i < |level|
    ensures Combined(level, i / 2)
            == if i % 2 == 0 && i + 1 == |level| then level[i] else Join(i, level[i], Sibling(level, i))
  {
    assert i == 2 * (i / 2) || i == 2 * (i / 2) + 1;
  }

  predicate IsLone(n: nat, i: nat) {
    i % 2 == 0 && i + 1 >= n
  }

  lemma ParentOf(h: HashFunction, level: Level, i: nat)
    requires |level| > 1 && i < |level|
    ensures i / 2 < |NextLevel(h, level)|
    ensures Combined(level, i / 2) in HashedAbove(h, level)
    ensures NextLevel(h, level)[i / 2] == h(Combined(level, i / 2))
    ensures Combined(level, i / 2) == if IsLone(|level|, i) then level[i] else Join(i, level[i], Sibling(level, i))
  {
    CombinedIsJoin(level, i);
  }

  /** One level of folding. */
  lemma FoldStep(h: HashFunction, n: nat, i: nat, current: Digest, path: seq<string>)
    requires n > 1
    ensures IsLone(n, i) ==>
              && RootFromPath(h, n, i, current, path) == RootFromPath(h, Half(n), i / 2, h(current), path)
              && FoldedOnPath(h, n, i, current, path) == {current} + FoldedOnPath(h, Half(n), i / 2, h(current), path)
    ensures !IsLone(n, i) && path == [] ==> RootFromPath(h, n, i, current, path) == ""
    ensures !IsLone(n, i) && path != [] ==>
              var joined := Join(i, current, path[0]);
              && RootFromPath(h, n, i, current, path) == RootFromPath(h, Half(n), i / 2, h(joined), path[1..])
              && FoldedOnPath(h, n, i, current, path)
                 == {joined} + FoldedOnPath(h, Half(n), i / 2, h(joined), path[1..])
  {
  }

  /** The extracted path of every leaf of every tree folds to the root. */
  lemma {:induction false} PathFoldsToRoot(h: HashFunction, level: Level, i: nat)
    requires i < |level|
    ensures Halving(Levels(h, level)) && Levels(h, level)[0] == level
    ensures RootFromPath(h, |level|, i, level[i], Path(Levels(h, level), i)) == Root(h, level)
    decreases |level|
  {
    LevelsShape(h, level);
    if |level| > 1 {
      var next := NextLevel(h, level);
      PathFoldsToRoot(h, next, i / 2);
      PathStep(h, level, i);
      ParentOf(h, level, i);
      var path, above := Path(Levels(h, level), i), Path(Levels(h, next), i / 2);
      FoldStep(h, |level|, i, level[i], path);
      if !IsLone(|level|, i) {
        assert path[1..] == above;
      }
    }
  }

  lemma JoinInjective(i: nat, c: string, s: string, c': string, s': string)
    requires |c| == |c'|
    requires Join(i, c, s) == Join(i, c', s')
    ensures c == c' && s == s'
  {
    var x, y := Join(i, c, s), Join(i, c', s');
    if i % 2 == 0 {
      assert x[..|c|] == c && y[..|c|] == c' && x[|c|..] == s && y[|c|..] == s';
    } else {
      assert |s| == |s'|;
      assert x[..|s|] == s && y[..|s|] == s' && x[|s|..] == c && y[|s|..] == c';
    }
  }

  /** What one level contributes: equal parents have equal children. */
  lemma StepBinds(h: HashFunction, level: Level, i: nat, current: Digest, path: seq<string>, hashed: set<string>)
    requires |level| > 1 && i < |level| && !Collision(h, hashed)
    requires HashedAbove(h, level) <= hashed
    requires IsLone(|level|, i) ==> current in hashed && h(current) == NextLevel(h, level)[i / 2]
    requires !IsLone(|level|, i) ==>
               && path != [] && Join(i, current, path[0]) in hashed
               && h(Join(i, current, path[0])) == NextLevel(h, level)[i / 2]
    ensures current == level[i]
    ensures !IsLone(|level|, i) ==> path[0] == Sibling(level, i)
  {
    ParentOf(h, level, i);
    if IsLone(|level|, i) {
      SameDigest(h, hashed, current, Combined(level, i / 2));
    } else {
      SameDigest(h, hashed, Join(i, current, path[0]), Combined(level, i / 2));
      JoinInjective(i, current, path[0], level[i], Sibling(level, i));
    }
  }

  /** Only the true node with its true path folds to the root. */
  lemma {:induction false} RootFromPathBinds(
    h: HashFunction, level: Level, i: nat, current: Digest, path: seq<string>, hashed: set<string>)
    requires i < |level|
    requires RootFromPath(h, |level|, i, current, path) == Root(h, level)
    requires HashedAbove(h, level) <= hashed && FoldedOnPath(h, |level|, i, current, path) <= hashed
    ensures Halving(Levels(h, level)) && Levels(h, level)[0] == level
    ensures (current == level[i] && path == Path(Levels(h, level), i)) || Collision(h, hashed)
    decreases |level|
  {
    LevelsShape(h, level);
    if |level| > 1 && !Collision(h, hashed) {
      var next := NextLevel(h, level);
      FoldStep(h, |level|, i, current, path);
      if IsLone(|level|, i) {
        RootFromPathBinds(h, next, i / 2, h(current), path, hashed);
        StepBinds(h, level, i, current, path, hashed);
        PathStep(h, level, i);
      } else {
        var rest := path[1..];
        RootFromPathBinds(h, next, i / 2, h(Join(i, current, path[0])), rest, hashed);
        StepBinds(h, level, i, current, path, hashed);
        PathStep(h, level, i);
        assert path == [path[0]] + rest;
      }
    }
  }

  /** Membership proofs are exact: with sides from the index, an entry and a path fold to the root of `es`
      if the entry is the one at that index with its extracted path, and only then unless two distinct
      strings hashed on the two sides collide. */
  lemma SidedProofExact(h: HashFunction, es: seq<Entry>, i: nat, e: Entry, path: seq<string>)
    requires i < |es|
    ensures e == es[i] && path == PathOf(h, es, i) ==>
              RootFromPath(h, |es|, i, h(LeafData(e)), path) == TreeOf(h, es).rootHash
    ensures RootFromPath(h, |es|, i, h(LeafData(e)), path) == TreeOf(h, es).rootHash ==>
              (e == es[i] && path == PathOf(h, es, i))
              || Collision(h, Hashed(h, es) + {LeafData(e)} + FoldedOnPath(h, |es|, i, h(LeafData(e)), path))
  {
    var leaves := Leaves(h, es);
    var hashed := Hashed(h, es) + {LeafData(e)} + FoldedOnPath(h, |es|, i, h(LeafData(e)), path);
    PathFoldsToRoot(h, leaves, i);
    if RootFromPath(h, |es|, i, h(LeafData(e)), path) == TreeOf(h, es).rootHash && !Collision(h, hashed) {
      RootFromPathBinds(h, leaves, i, h(LeafData(e)), path, hashed);
      assert LeafData(es[i]) in Hashed(h, es);
      SameDigest(h, hashed, LeafData(e), LeafData(es[i]));
      LeafDataInjective(e, es[i]);
    }
  }

  // ---------------------------------------------------------------------------------------------
  // verify_proof as written: the current hash always goes first
  // ---------------------------------------------------------------------------------------------

  function FoldPath(h: HashFunction, current: string, path: seq<string>): string
    decreases |path|
  {
    if path == [] then current else FoldPath(h, h(current + path[0]), path[1..])
  }

  function Folded(h: HashFunction, current: string, path: seq<string>): set<string>
    decreases |path|
  {
    if path == [] then {} else {current + path[0]} + Folded(h, h(current + path[0]), path[1..])
  }

  lemma {:induction false} FoldPathLast(h: HashFunction, current: Digest, path: seq<string>)
    requires path != []
    ensures var init := path[..|path| - 1]; var last := path[|path| - 1];
            && IsDigest(FoldPath(h, current, init))
            && FoldPath(h, current, path) == h(FoldPath(h, current, init) + last)
            && FoldPath(h, current, init) + last in Folded(h, current, path)
            && Folded(h, current, init) <= Folded(h, current, path)
    decreases |path|
  {
    var init := path[..|path| - 1];
    if |path| > 1 {
      FoldPathLast(h, h(current + path[0]), path[1..]);
      assert path[1..][..|path[1..]| - 1] == init[1..];
    }
  }

  /** The path of leaf 0 is the second node of every level below the root. */
  lemma {:induction false} LeftmostPath(h: HashFunction, level: Level)
    requires |level| > 0
    ensures Halving(Levels(h, level)) && Levels(h, level)[0] == level
    ensures var path := Path(Levels(h, level), 0);
            && |path| == |Levels(h, level)| - 1
            && forall k | 0 <= k < |path| :: path[k] == Levels(h, level)[k][1]
    decreases |level|
  {
    LevelsShape(h, level);
    if |level| > 1 {
      var next := NextLevel(h, level);
      PathStep(h, level, 0);
      LeftmostPath(h, next);
      var path, above := Path(Levels(h, level), 0), Path(Levels(h, next), 0);
      assert path == [level[1]] + above;
      forall k | 0 <= k < |path|
        ensures path[k] == Levels(h, level)[k][1]
      {
        if k > 0 {
          assert path[k] == above[k - 1];
        }
      }
    }
  }

  lemma {:induction false} LeftmostPathFolds(h: HashFunction, level: Level)
    requires |level| > 0
    ensures Halving(Levels(h, level)) && Levels(h, level)[0] == level
    ensures FoldPath(h, level[0], Path(Levels(h, level), 0)) == Root(h, level)
    decreases |level|
  {
    LevelsShape(h, level);
    if |level| > 1 {
      var next := NextLevel(h, level);
      PathStep(h, level, 0);
      LeftmostPathFolds(h, next);
      assert next[0] == h(Combined(level, 0));
      assert Sibling(level, 0) == level[1];
      assert Path(Levels(h, level), 0)[1..] == Path(Levels(h, next), 0);
    }
  }

  /** One step down the left edge: a fold ending in the first node of level `m` ended, one sibling earlier,
      in the first node of level `m - 1`, and that sibling is the second. */
  lemma LeftEdgeStep(h: HashFunction, level: Level, m: nat, current: Digest, path: seq<string>, hashed: set<string>)
    requires |level| > 0 && 0 < m < |Levels(h, level)| && |Levels(h, level)[m]| > 0
    requires path != [] && FoldPath(h, current, path) == Levels(h, level)[m][0]
    requires HashedAbove(h, level) <= hashed && Folded(h, current, path) <= hashed
    ensures var below := Levels(h, level)[m - 1];
            && |below| > 1
            && ((FoldPath(h, current, path[..|path| - 1]) == below[0] && path[|path| - 1] == below[1])
                || Collision(h, hashed))
  {
    var init, last := path[..|path| - 1], path[|path| - 1];
    var below := Levels(h, level)[m - 1];
    LevelsShape(h, level);
    FoldPathLast(h, current, path);
    var folded := FoldPath(h, current, init);
    assert Levels(h, level)[m - 1 + 1] == NextLevel(h, below);
    assert Combined(below, 0) in HashedAbove(h, below);
    LevelsHashed(h, level, m - 1);
    SameDigest(h, hashed, folded + last, Combined(below, 0));
    if !Collision(h, hashed) {
      JoinInjective(0, folded, last, below[0], below[1]);
    }
  }

  /** `current` and `path` are the first and the second nodes of the levels from `base` on. */
  ghost predicate OnEdgeFrom(levels: seq<Level>, base: nat, current: Digest, path: seq<string>)
    requires base + |path| < |levels|
  {
    && |levels[base]| > 0
    && current == levels[base][0]
    && forall k | 0 <= k < |path| :: |levels[base + k]| > 1 && path[k] == levels[base + k][1]
  }

  /** The same, for the levels up to `m`. */
  ghost predicate OnLeftEdge(levels: seq<Level>, m: nat, current: Digest, path: seq<string>)
    requires |path| <= m < |levels|
  {
    OnEdgeFrom(levels, m - |path|, current, path)
  }

  lemma EdgeSnoc(levels: seq<Level>, base: nat, current: Digest, path: seq<string>, sibling: string)
    requires base + |path| + 1 < |levels| && OnEdgeFrom(levels, base, current, path)
    requires |levels[base + |path|]| > 1 && sibling == levels[base + |path|][1]
    ensures OnEdgeFrom(levels, base, current, path + [sibling])
  {
    var longer := path + [sibling];
    forall k | 0 <= k < |longer|
      ensures |levels[base + k]| > 1 && longer[k] == levels[base + k][1]
    {
      if k < |path| {
        assert longer[k] == path[k];
      }
    }
  }

  lemma LeftEdgeExtends(levels: seq<Level>, m: nat, current: Digest, path: seq<string>)
    requires 0 < m < |levels| && path != [] && |path| <= m && |levels[m - 1]| > 1
    requires OnLeftEdge(levels, m - 1, current, path[..|path| - 1])
    requires path[|path| - 1] == levels[m - 1][1]
    ensures OnLeftEdge(levels, m, current, path)
  {
    var init := path[..|path| - 1];
    EdgeSnoc(levels, m - |path|, current, init, path[|path| - 1]);
    assert path == init + [path[|path| - 1]];
  }

  /** Peels a fold that ends in the first node of level `m` down that level's left edge. */
  lemma {:induction false} FoldBindsLeftEdge(
    h: HashFunction, level: Level, m: nat, current: Digest, path: seq<string>, hashed: set<string>)
    requires |level| > 0 && m < |Levels(h, level)| && |Levels(h, level)[m]| > 0
    requires FoldPath(h, current, path) == Levels(h, level)[m][0]
    requires HashedAbove(h, level) <= hashed && Folded(h, current, path) <= hashed
    ensures |path| <= m ==> OnLeftEdge(Levels(h, level), m, current, path) || Collision(h, hashed)
    ensures |path| > m ==>
              (FoldPath(h, current, path[..|path| - m]) == level[0] && Folded(h, current, path[..|path| - m]) <= hashed)
              || Collision(h, hashed)
    decreases |path|
  {
    LevelsShape(h, level);
    if m == 0 {
      assert path[..|path|] == path;
    } else if path != [] {
      var init := path[..|path| - 1];
      LeftEdgeStep(h, level, m, current, path, hashed);
      if !Collision(h, hashed) {
        FoldPathLast(h, current, path);
        FoldBindsLeftEdge(h, level, m - 1, current, init, hashed);
        if |path| > m {
          assert init[..|init| - (m - 1)] == path[..|path| - m];
        } else {
          LeftEdgeExtends(Levels(h, level), m, current, path);
        }
      }
    }
  }

  /** A string that starts with a digest is not the leaf string of a BIGINT-numbered entry. */
  lemma LeafDataIsNotFolded(e: Entry, current: Digest, s: string)
    requires IsBigInt(e.sequenceNumber)
    ensures LeafData(e) != current + s
  {
    BigIntIsShort(e.sequenceNumber);
    var n := |Decimal(e.sequenceNumber)|;
    assert LeafData(e)[n] == ':';
    assert (current + s)[n] == current[n] && IsHex(current[n]);
  }
}

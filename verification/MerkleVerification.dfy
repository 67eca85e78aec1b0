/** What `verify_proof` accepts. It folds the path onto the given leaf hash, the current hash always first; the
    entry is never looked at. */
module MerkleVerification {
  import opened Hashing
  import opened Merkle
  import opened MerkleProofs

  // ---------------------------------------------------------------------------------------------
  // Left-edge paths fold to the root
  // ---------------------------------------------------------------------------------------------

  lemma {:induction false} EdgeFolds(h: HashFunction, level: Level, base: nat, current: Digest, path: seq<string>)
    requires |level| > 0 && base + |path| == |Levels(h, level)| - 1
    requires OnEdgeFrom(Levels(h, level), base, current, path)
    ensures FoldPath(h, current, path) == Root(h, level)
    decreases |path|
  {
    LevelsShape(h, level);
    var levels := Levels(h, level);
    if path != [] {
      var here, rest := levels[base], path[1..];
      assert levels[base + 1] == NextLevel(h, here);
      assert Combined(here, 0) == current + path[0];
      var next: Digest := h(current + path[0]);
      forall k | 0 <= k < |rest|
        ensures |levels[base + 1 + k]| > 1 && rest[k] == levels[base + 1 + k][1]
      {
        assert rest[k] == path[k + 1] && base + 1 + k == base + (k + 1);
      }
      assert OnEdgeFrom(levels, base + 1, next, rest);
      EdgeFolds(h, level, base + 1, next, rest);
    }
  }

  // ---------------------------------------------------------------------------------------------
  // A leaf hash of digest form
  // ---------------------------------------------------------------------------------------------

  /** The first node of some level with the second nodes of that level and of those above it. */
  ghost predicate OnEdge(h: HashFunction, es: seq<Entry>, leaf: Digest, path: seq<string>)
    requires es != []
  {
    var levels := Levels(h, Leaves(h, es));
    |path| < |levels| && OnLeftEdge(levels, |levels| - 1, leaf, path)
  }

  lemma DigestBinds(h: HashFunction, es: seq<Entry>, leaf: Digest, path: seq<string>, hashed: set<string>)
    requires es != [] && IsBigInt(es[0].sequenceNumber)
    requires FoldPath(h, leaf, path) == Root(h, Leaves(h, es))
    requires Hashed(h, es) <= hashed && Folded(h, leaf, path) <= hashed
    ensures OnEdge(h, es, leaf, path) || Collision(h, hashed)
  {
    var leaves := Leaves(h, es);
    LevelsShape(h, leaves);
    var levels := Levels(h, leaves);
    var height := |levels| - 1;
    FoldBindsLeftEdge(h, leaves, height, leaf, path, hashed);
    if !Collision(h, hashed) && |path| > height {
      var rest := path[..|path| - height];
      FoldPathLast(h, leaf, rest);
      var folded := FoldPath(h, leaf, rest[..|rest| - 1]);
      assert LeafData(es[0]) in Hashed(h, es);
      SameDigest(h, hashed, folded + rest[|rest| - 1], LeafData(es[0]));
      LeafDataIsNotFolded(es[0], folded, rest[|rest| - 1]);
    }
  }

  /** For any digest as leaf hash: accepted are the first node of any level together with the second nodes of
      that level and of those above it, and nothing else, unless two hashed strings collide. */
  lemma DigestAccepted(h: HashFunction, es: seq<Entry>, leaf: Digest, path: seq<string>)
    requires es != [] && IsBigInt(es[0].sequenceNumber)
    ensures var accepted := FoldPath(h, leaf, path) == TreeOf(h, es).rootHash;
            && (OnEdge(h, es, leaf, path) ==> accepted)
            && (accepted ==> OnEdge(h, es, leaf, path) || Collision(h, Hashed(h, es) + Folded(h, leaf, path)))
  {
    if OnEdge(h, es, leaf, path) {
      OnEdgeFolds(h, es, leaf, path);
    }
    if FoldPath(h, leaf, path) == TreeOf(h, es).rootHash {
      DigestBinds(h, es, leaf, path, Hashed(h, es) + Folded(h, leaf, path));
    }
  }

  lemma OnEdgeFolds(h: HashFunction, es: seq<Entry>, leaf: Digest, path: seq<string>)
    requires es != [] && OnEdge(h, es, leaf, path)
    ensures FoldPath(h, leaf, path) == TreeOf(h, es).rootHash
  {
    EdgeFolds(h, Leaves(h, es), |Levels(h, Leaves(h, es))| - 1 - |path|, leaf, path);
  }

  // ---------------------------------------------------------------------------------------------
  // Any string as leaf hash
  // ---------------------------------------------------------------------------------------------

  /** The string whose hash is the first node of level `base`. */
  function EdgeText(h: HashFunction, es: seq<Entry>, base: nat): string
    requires es != [] && base < |Levels(h, Leaves(h, es))|
  {
    LevelsShape(h, Leaves(h, es));
    if base == 0 then LeafData(es[0]) else Combined(Levels(h, Leaves(h, es))[base - 1], 0)
  }

  lemma EdgeTextHashes(h: HashFunction, es: seq<Entry>, base: nat)
    requires es != [] && base < |Levels(h, Leaves(h, es))|
    ensures |Levels(h, Leaves(h, es))[base]| > 0
    ensures h(EdgeText(h, es, base)) == Levels(h, Leaves(h, es))[base][0]
    ensures EdgeText(h, es, base) in Hashed(h, es)
  {
    var leaves := Leaves(h, es);
    LevelsShape(h, leaves);
    var levels := Levels(h, leaves);
    if base == 0 {
      assert LeafData(es[0]) in Hashed(h, es);
    } else {
      assert levels[base - 1 + 1] == NextLevel(h, levels[base - 1]);
      assert Combined(levels[base - 1], 0) in HashedAbove(h, levels[base - 1]);
      LevelsHashed(h, leaves, base - 1);
    }
  }

  /** The accepted pairs: the root on its own; or the string behind the first node of some level, cut in two
      anywhere, followed by the second nodes of that level and of those above it. */
  ghost predicate EdgeProof(h: HashFunction, es: seq<Entry>, leaf: string, path: seq<string>)
    requires es != []
  {
    var levels := Levels(h, Leaves(h, es));
    if path == [] then leaf == Root(h, Leaves(h, es))
    else
      && |path| <= |levels|
      && leaf + path[0] == EdgeText(h, es, |levels| - |path|)
      && OnEdgeFrom(levels, |levels| - |path|, h(leaf + path[0]), path[1..])
  }

  lemma EdgeProofFolds(h: HashFunction, es: seq<Entry>, leaf: string, path: seq<string>)
    requires es != [] && EdgeProof(h, es, leaf, path)
    ensures FoldPath(h, leaf, path) == TreeOf(h, es).rootHash
  {
    if path != [] {
      EdgeFolds(h, Leaves(h, es), |Levels(h, Leaves(h, es))| - |path|, h(leaf + path[0]), path[1..]);
    }
  }

  lemma FoldBindsEdgeProof(h: HashFunction, es: seq<Entry>, leaf: string, path: seq<string>, hashed: set<string>)
    requires es != [] && IsBigInt(es[0].sequenceNumber)
    requires FoldPath(h, leaf, path) == TreeOf(h, es).rootHash
    requires Hashed(h, es) <= hashed && Folded(h, leaf, path) <= hashed
    ensures EdgeProof(h, es, leaf, path) || Collision(h, hashed)
  {
    if path != [] {
      DigestBinds(h, es, h(leaf + path[0]), path[1..], hashed);
      if !Collision(h, hashed) {
        EdgeGivesProof(h, es, leaf, path, hashed);
      }
    }
  }

  lemma EdgeGivesProof(h: HashFunction, es: seq<Entry>, leaf: string, path: seq<string>, hashed: set<string>)
    requires es != [] && path != [] && OnEdge(h, es, h(leaf + path[0]), path[1..])
    requires Hashed(h, es) + {leaf + path[0]} <= hashed
    ensures EdgeProof(h, es, leaf, path) || Collision(h, hashed)
  {
    var base := |Levels(h, Leaves(h, es))| - |path|;
    EdgeTextHashes(h, es, base);
    SameDigest(h, hashed, leaf + path[0], EdgeText(h, es, base));
  }

  /** What `verify_proof` accepts for a whole tree's root, for every leaf hash, path and entry: exactly the
      left-edge proofs, unless two distinct hashed strings collide. */
  lemma AcceptedExact(h: HashFunction, es: seq<Entry>, leaf: string, path: seq<string>)
    requires es != [] && IsBigInt(es[0].sequenceNumber)
    ensures EdgeProof(h, es, leaf, path) ==> FoldPath(h, leaf, path) == TreeOf(h, es).rootHash
    ensures FoldPath(h, leaf, path) == TreeOf(h, es).rootHash ==>
              EdgeProof(h, es, leaf, path) || Collision(h, Hashed(h, es) + Folded(h, leaf, path))
  {
    if EdgeProof(h, es, leaf, path) {
      EdgeProofFolds(h, es, leaf, path);
    }
    if FoldPath(h, leaf, path) == TreeOf(h, es).rootHash {
      FoldBindsEdgeProof(h, es, leaf, path, Hashed(h, es) + Folded(h, leaf, path));
    }
  }

  /** So acceptance says nothing about the entry: the root with an empty path is accepted with every entry,
      although it is not that entry's leaf hash in a tree of two or more, unless two strings collide. */
  lemma RootIsAcceptedForAnyEntry(h: HashFunction, es: seq<Entry>, e: Entry)
    requires |es| >= 2
    ensures FoldPath(h, TreeOf(h, es).rootHash, []) == TreeOf(h, es).rootHash
    ensures TreeOf(h, es).rootHash != h(LeafData(e)) || Collision(h, Hashed(h, es) + {LeafData(e)})
  {
    var leaves := Leaves(h, es);
    LevelsShape(h, leaves);
    var levels := Levels(h, leaves);
    var top := |levels| - 1;
    assert levels[0] != levels[top];
    EdgeTextHashes(h, es, top);
    if TreeOf(h, es).rootHash == h(LeafData(e)) {
      SameDigest(h, Hashed(h, es) + {LeafData(e)}, LeafData(e), EdgeText(h, es, top));
      LeafDataIsNotCombined(e, levels[top - 1], 0);
    }
  }

  // ---------------------------------------------------------------------------------------------
  // When the caller has computed the leaf hash from the entry
  // ---------------------------------------------------------------------------------------------

  lemma EdgeIsNotLeafHash(h: HashFunction, es: seq<Entry>, e: Entry, path: seq<string>, hashed: set<string>)
    requires es != [] && OnEdge(h, es, h(LeafData(e)), path)
    requires Hashed(h, es) + {LeafData(e)} <= hashed
    ensures (e == es[0] && |path| == |Levels(h, Leaves(h, es))| - 1) || Collision(h, hashed)
  {
    var leaves := Leaves(h, es);
    LevelsShape(h, leaves);
    var levels := Levels(h, leaves);
    var base := |levels| - 1 - |path|;
    EdgeTextHashes(h, es, base);
    SameDigest(h, hashed, LeafData(e), EdgeText(h, es, base));
    if !Collision(h, hashed) {
      if base == 0 {
        LeafDataInjective(e, es[0]);
      } else {
        LeafDataIsNotCombined(e, levels[base - 1], 0);
      }
    }
  }

  /** A left edge from the leaves to the root is the path of leaf 0. */
  lemma FullEdgeIsPath(h: HashFunction, es: seq<Entry>, leaf: Digest, path: seq<string>)
    requires es != [] && |path| == |Levels(h, Leaves(h, es))| - 1 && OnEdge(h, es, leaf, path)
    ensures path == PathOf(h, es, 0)
  {
    var levels := Levels(h, Leaves(h, es));
    LeftmostPath(h, Leaves(h, es));
    assert OnEdgeFrom(levels, 0, leaf, path);
    forall k | 0 <= k < |path|
      ensures path[k] == PathOf(h, es, 0)[k]
    {
      assert path[k] == levels[0 + k][1];
    }
  }

  lemma AcceptedIsGenuine(h: HashFunction, es: seq<Entry>, e: Entry, path: seq<string>, hashed: set<string>)
    requires es != [] && IsBigInt(es[0].sequenceNumber)
    requires FoldPath(h, h(LeafData(e)), path) == TreeOf(h, es).rootHash
    requires Hashed(h, es) + {LeafData(e)} <= hashed && Folded(h, h(LeafData(e)), path) <= hashed
    ensures (e == es[0] && path == PathOf(h, es, 0)) || Collision(h, hashed)
  {
    DigestBinds(h, es, h(LeafData(e)), path, hashed);
    if !Collision(h, hashed) {
      EdgeIsNotLeafHash(h, es, e, path, hashed);
      FullEdgeIsPath(h, es, h(LeafData(e)), path);
    }
  }

  /** With the leaf hash computed from the entry, accepted is the first entry of the list with its own path,
      and nothing else, unless two distinct hashed strings collide. */
  lemma VerifyProofExact(h: HashFunction, es: seq<Entry>, e: Entry, leaf: string, path: seq<string>)
    requires es != [] && IsBigInt(es[0].sequenceNumber)
    requires leaf == h(LeafData(e))
    ensures e == es[0] && path == PathOf(h, es, 0) ==> FoldPath(h, leaf, path) == TreeOf(h, es).rootHash
    ensures FoldPath(h, leaf, path) == TreeOf(h, es).rootHash ==>
              (e == es[0] && path == PathOf(h, es, 0))
              || Collision(h, Hashed(h, es) + {LeafData(e)} + Folded(h, leaf, path))
  {
    LeftmostPathFolds(h, Leaves(h, es));
    if FoldPath(h, leaf, path) == TreeOf(h, es).rootHash {
      AcceptedIsGenuine(h, es, e, path, Hashed(h, es) + {LeafData(e)} + Folded(h, leaf, path));
    }
  }

  lemma GenuineLeafHash(h: HashFunction, es: seq<Entry>, leaf: string)
    requires es != [] && EdgeProof(h, es, leaf, PathOf(h, es, 0))
    ensures leaf == h(LeafData(es[0]))
  {
    var leaves, path := Leaves(h, es), PathOf(h, es, 0);
    LevelsShape(h, leaves);
    LeftmostPath(h, leaves);
    var levels := Levels(h, leaves);
    if path != [] {
      assert |levels| - |path| == 1;
      var first: string := levels[0][0];
      assert Combined(levels[0], 0) == first + levels[0][1];
      assert path[0] == levels[0][1];
      SameSuffix(leaf, first, path[0]);
    }
  }

  lemma SameSuffix(a: string, b: string, s: string)
    requires a + s == b + s
    ensures a == b
  {
    assert |a| == |b|;
    assert (a + s)[..|a|] == a && (b + s)[..|a|] == b;
  }

  /** The exact condition: an accepted call proves the membership of its entry as leaf 0 if and only if the
      leaf hash is that of the entry and so computed by the caller, unless two hashed strings collide. */
  lemma GenuineIffLeafHash(h: HashFunction, es: seq<Entry>, e: Entry, leaf: string, path: seq<string>)
    requires es != [] && IsBigInt(es[0].sequenceNumber)
    requires FoldPath(h, leaf, path) == TreeOf(h, es).rootHash
    ensures (e == es[0] && path == PathOf(h, es, 0) <==> leaf == h(LeafData(e)))
            || Collision(h, Hashed(h, es) + {LeafData(e)} + Folded(h, leaf, path))
  {
    var hashed := Hashed(h, es) + {LeafData(e)} + Folded(h, leaf, path);
    if !Collision(h, hashed) {
      if leaf == h(LeafData(e)) {
        VerifyProofExact(h, es, e, leaf, path);
      }
      if e == es[0] && path == PathOf(h, es, 0) {
        FoldBindsEdgeProof(h, es, leaf, path, hashed);
        GenuineLeafHash(h, es, leaf);
      }
    }
  }

  /** A genuine proof, an entry's leaf hash with its own extracted path, is accepted exactly for leaf 0 whenever
      the entries are pairwise distinct: `verify_proof` rejects the proofs of all other leaves. */
  lemma VerifyProofOwnPath(h: HashFunction, es: seq<Entry>, i: nat)
    requires i < |es| && IsBigInt(es[0].sequenceNumber)
    requires forall j, k | 0 <= j < k < |es| :: es[j] != es[k]
    ensures var accepted := FoldPath(h, h(LeafData(es[i])), PathOf(h, es, i)) == TreeOf(h, es).rootHash;
            && (i == 0 ==> accepted)
            && (accepted ==> i == 0 || Collision(h, Hashed(h, es) + Folded(h, h(LeafData(es[i])), PathOf(h, es, i))))
  {
    VerifyProofExact(h, es, es[i], h(LeafData(es[i])), PathOf(h, es, i));
    assert LeafData(es[i]) in Hashed(h, es);
    assert Hashed(h, es) + {LeafData(es[i])} == Hashed(h, es);
  }
}

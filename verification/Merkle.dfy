/** Merkle snapshots: building the tree, extracting and checking paths, rebuilding it from rows. */
module Merkle {
  import opened Hashing

  /** The two fields of a hash-chain entry that go into a leaf. */
  datatype Entry = Entry(sequenceNumber: int, currentHash: string)

  datatype MerkleTree = MerkleTree(
    rootHash: string, leafHashes: seq<string>, treeLevels: seq<seq<string>>, totalLeaves: nat)

  /** A row of merkle_tree_nodes. */
  datatype NodeRow = NodeRow(level: nat, index: nat, hash: string)

  type Level = seq<Digest>

  const EmptyTree := MerkleTree("", [], [], 0)

  // ---------------------------------------------------------------------------------------------
  // Specification of the tree
  // ---------------------------------------------------------------------------------------------

  function LeafData(e: Entry): string {
    Decimal(e.sequenceNumber) + ":" + e.currentHash
  }

  function Leaves(h: HashFunction, es: seq<Entry>): Level {
    seq<Digest>(|es|, i requires 0 <= i < |es| => h(LeafData(es[i])))
  }

  function Half(n: nat): nat {
    (n + 1) / 2
  }

  /** The string hashed for parent `i`: two children, or a lone last child on its own. */
  function Combined(level: Level, i: nat): string
    requires i < Half(|level|)
  {
    var left: string := level[2 * i];
    if 2 * i + 1 < |level| then left + level[2 * i + 1] else left
  }

  function NextLevel(h: HashFunction, level: Level): Level {
    seq<Digest>(Half(|level|), i requires 0 <= i < Half(|level|) => h(Combined(level, i)))
  }

  function Levels(h: HashFunction, level: Level): seq<Level>
    requires |level| > 0
    decreases |level|
  {
    if |level| == 1 then [level] else [level] + Levels(h, NextLevel(h, level))
  }

  function Root(h: HashFunction, level: Level): Digest
    requires |level| > 0
    decreases |level|
  {
    if |level| == 1 then level[0] else Root(h, NextLevel(h, level))
  }

  function TreeOf(h: HashFunction, es: seq<Entry>): MerkleTree {
    if es == [] then EmptyTree
    else MerkleTree(Root(h, Leaves(h, es)), Leaves(h, es), Levels(h, Leaves(h, es)), |es|)
  }

  /** Level sizes halve, rounding up, down to a single node. */
  ghost predicate Halving(levels: seq<seq<string>>) {
    && |levels| > 0
    && |levels[|levels| - 1]| == 1
    && (forall k | 0 <= k < |levels| :: |levels[k]| > 0)
    && (forall k | 0 <= k < |levels| - 1 :: |levels[k]| > 1 && |levels[k + 1]| == Half(|levels[k]|))
  }

  lemma {:induction false} LevelsShape(h: HashFunction, level: Level)
    requires |level| > 0
    ensures Halving(Levels(h, level))
    ensures Levels(h, level)[0] == level
    ensures Levels(h, level)[|Levels(h, level)| - 1] == [Root(h, level)]
    ensures forall k | 0 <= k < |Levels(h, level)| - 1 :: Levels(h, level)[k + 1] == NextLevel(h, Levels(h, level)[k])
    decreases |level|
  {
    if |level| > 1 {
      var next := NextLevel(h, level);
      LevelsShape(h, next);
      var all, above := Levels(h, level), Levels(h, next);
      forall k | 0 <= k < |all| - 1
        ensures |all[k]| > 1 && |all[k + 1]| == Half(|all[k]|) && all[k + 1] == NextLevel(h, all[k])
      {
        if k > 0 {
          assert all[k] == above[k - 1] && all[k + 1] == above[k - 1 + 1];
        }
      }
    }
  }

  // ---------------------------------------------------------------------------------------------
  // Binding: the root determines the entries
  // ---------------------------------------------------------------------------------------------

  /** Every string hashed above the leaves. */
  function HashedAbove(h: HashFunction, level: Level): set<string>
    decreases |level|
  {
    if |level| <= 1 then {}
    else (set i | 0 <= i < Half(|level|) :: Combined(level, i)) + HashedAbove(h, NextLevel(h, level))
  }

  /** Every string hashed while building the tree of `es`. */
  function Hashed(h: HashFunction, es: seq<Entry>): set<string> {
    (set i | 0 <= i < |es| :: LeafData(es[i])) + HashedAbove(h, Leaves(h, es))
  }

  /** The leaf string: the number in decimal, a colon, the hash. */
  lemma LeafDataParts(e: Entry)
    ensures var n, whole := |Decimal(e.sequenceNumber)|, LeafData(e);
            && |whole| == n + 1 + |e.currentHash|
            && whole[..n] == Decimal(e.sequenceNumber) && whole[n] == ':' && whole[n + 1..] == e.currentHash
  {
  }

  lemma LeafDataInjective(e: Entry, f: Entry)
    requires LeafData(e) == LeafData(f)
    ensures e == f
  {
    DecimalHasNoColon(e.sequenceNumber);
    DecimalHasNoColon(f.sequenceNumber);
    var x, y := Decimal(e.sequenceNumber), Decimal(f.sequenceNumber);
    assert LeafData(e)[|x|] == ':' && LeafData(f)[|y|] == ':';
    assert forall i | 0 <= i < |x| :: LeafData(e)[i] == x[i];
    assert forall i | 0 <= i < |y| :: LeafData(f)[i] == y[i];
    assert |x| == |y|;
    assert LeafData(e)[..|x|] == x && LeafData(f)[..|x|] == y;
    assert LeafData(e)[|x| + 1..] == e.currentHash && LeafData(f)[|x| + 1..] == f.currentHash;
    DecimalInjective(e.sequenceNumber, f.sequenceNumber);
  }

  /** A leaf is never hashed from the same string as an inner node. */
  lemma LeafDataIsNotCombined(e: Entry, level: Level, i: nat)
    requires i < Half(|level|)
    ensures LeafData(e) != Combined(level, i)
  {
    assert LeafData(e)[|Decimal(e.sequenceNumber)|] == ':';
    assert forall k | 0 <= k < |Combined(level, i)| :: IsHex(Combined(level, i)[k]);
  }

  /** Equal parent strings come from equal children, lone or paired. */
  lemma CombinedInjective(a: Level, b: Level, i: nat, j: nat)
    requires i < Half(|a|) && j < Half(|b|)
    requires Combined(a, i) == Combined(b, j)
    ensures a[2 * i] == b[2 * j]
    ensures 2 * i + 1 < |a| <==> 2 * j + 1 < |b|
    ensures 2 * i + 1 < |a| ==> a[2 * i + 1] == b[2 * j + 1]
  {
    var x, y := Combined(a, i), Combined(b, j);
    assert x[..64] == a[2 * i] && y[..64] == b[2 * j];
    if 2 * i + 1 < |a| {
      assert |x| == 128;
      assert x[64..] == a[2 * i + 1] && y[64..] == b[2 * j + 1];
    }
  }

  lemma SameParentsSameLevel(a: Level, b: Level)
    requires 0 < Half(|a|) == Half(|b|)
    requires forall i | 0 <= i < Half(|a|) :: Combined(a, i) == Combined(b, i)
    ensures a == b
  {
    var last := Half(|a|) - 1;
    CombinedInjective(a, b, last, last);
    assert |a| == |b|;
    forall k | 0 <= k < |a|
      ensures a[k] == b[k]
    {
      CombinedInjective(a, b, k / 2, k / 2);
      assert k == 2 * (k / 2) || k == 2 * (k / 2) + 1;
    }
  }

  /** Two equal nodes with parents' strings `Combined(a, i)` and `Combined(b, j)` were hashed from one string. */
  lemma SameNode(h: HashFunction, a: Level, b: Level, i: nat, j: nat, hashed: set<string>)
    requires |a| > 1 && |b| > 1 && i < Half(|a|) && j < Half(|b|)
    requires h(Combined(a, i)) == h(Combined(b, j))
    requires HashedAbove(h, a) <= hashed && HashedAbove(h, b) <= hashed
    ensures Combined(a, i) == Combined(b, j) || Collision(h, hashed)
  {
    assert Combined(a, i) in HashedAbove(h, a) && Combined(b, j) in HashedAbove(h, b);
    SameDigest(h, hashed, Combined(a, i), Combined(b, j));
  }

  /** Going up one level is injective, collisions aside. */
  lemma NextLevelInjective(h: HashFunction, a: Level, b: Level, hashed: set<string>)
    requires |a| > 1 && |b| > 1
    requires NextLevel(h, a) == NextLevel(h, b)
    requires HashedAbove(h, a) <= hashed && HashedAbove(h, b) <= hashed
    ensures a == b || Collision(h, hashed)
  {
    if !Collision(h, hashed) {
      assert Half(|a|) == |NextLevel(h, a)| == Half(|b|);
      forall i | 0 <= i < Half(|a|)
        ensures Combined(a, i) == Combined(b, i)
      {
        assert NextLevel(h, a)[i] == NextLevel(h, b)[i];
        SameNode(h, a, b, i, i, hashed);
      }
      SameParentsSameLevel(a, b);
    }
  }

  lemma {:induction false} LevelsHashed(h: HashFunction, level: Level, k: nat)
    requires |level| > 0 && k < |Levels(h, level)|
    ensures HashedAbove(h, Levels(h, level)[k]) <= HashedAbove(h, level)
    decreases |level|
  {
    if k > 0 {
      LevelsHashed(h, NextLevel(h, level), k - 1);
    }
  }

  /** Below one root, the lower tree's bottom level is the level at the same height of the taller tree. */
  lemma {:induction false} SameRootLevels(h: HashFunction, a: Level, b: Level, hashed: set<string>)
    requires |a| > 0 && |b| > 0
    requires |Levels(h, a)| <= |Levels(h, b)|
    requires Root(h, a) == Root(h, b)
    requires HashedAbove(h, a) <= hashed && HashedAbove(h, b) <= hashed
    ensures a == Levels(h, b)[|Levels(h, b)| - |Levels(h, a)|] || Collision(h, hashed)
    decreases |a|
  {
    LevelsShape(h, b);
    if |a| == 1 {
      assert a == [Root(h, b)];
    } else {
      var d := |Levels(h, b)| - |Levels(h, a)|;
      SameRootLevels(h, NextLevel(h, a), NextLevel(h, b), hashed);
      if !Collision(h, hashed) {
        var peer := Levels(h, b)[d];
        assert Levels(h, b)[d + 1] == Levels(h, NextLevel(h, b))[d];
        assert NextLevel(h, a) == NextLevel(h, peer);
        assert |peer| > 1;
        LevelsHashed(h, b, d);
        NextLevelInjective(h, a, peer, hashed);
      }
    }
  }

  lemma LeavesInjective(h: HashFunction, es: seq<Entry>, fs: seq<Entry>, hashed: set<string>)
    requires Leaves(h, es) == Leaves(h, fs)
    requires Hashed(h, es) <= hashed && Hashed(h, fs) <= hashed
    ensures es == fs || Collision(h, hashed)
  {
    if !Collision(h, hashed) {
      assert |es| == |Leaves(h, es)| == |Leaves(h, fs)| == |fs|;
      forall i | 0 <= i < |es|
        ensures es[i] == fs[i]
      {
        assert Leaves(h, es)[i] == Leaves(h, fs)[i];
        assert LeafData(es[i]) in Hashed(h, es) && LeafData(fs[i]) in Hashed(h, fs);
        SameDigest(h, hashed, LeafData(es[i]), LeafData(fs[i]));
        LeafDataInjective(es[i], fs[i]);
      }
    }
  }

  /** No level above the leaves can pass for a leaf level. */
  lemma LeavesAreNotInner(h: HashFunction, es: seq<Entry>, below: Level, hashed: set<string>)
    requires es != [] && |below| > 1
    requires Leaves(h, es) == NextLevel(h, below)
    requires Hashed(h, es) <= hashed && HashedAbove(h, below) <= hashed
    ensures Collision(h, hashed)
  {
    assert Leaves(h, es)[0] == NextLevel(h, below)[0];
    assert LeafData(es[0]) in Hashed(h, es) && Combined(below, 0) in HashedAbove(h, below);
    LeafDataIsNotCombined(es[0], below, 0);
    SameDigest(h, hashed, LeafData(es[0]), Combined(below, 0));
  }

  lemma RootBindsOrdered(h: HashFunction, es: seq<Entry>, fs: seq<Entry>)
    requires es != [] && fs != []
    requires Root(h, Leaves(h, es)) == Root(h, Leaves(h, fs))
    requires |Levels(h, Leaves(h, es))| <= |Levels(h, Leaves(h, fs))|
    ensures es == fs || Collision(h, Hashed(h, es) + Hashed(h, fs))
  {
    var hashed := Hashed(h, es) + Hashed(h, fs);
    var a, b := Leaves(h, es), Leaves(h, fs);
    if !Collision(h, hashed) {
      SameRootLevels(h, a, b, hashed);
      LevelsShape(h, b);
      var d := |Levels(h, b)| - |Levels(h, a)|;
      if d == 0 {
        LeavesInjective(h, es, fs, hashed);
      } else {
        LevelsHashed(h, b, d - 1);
        LeavesAreNotInner(h, es, Levels(h, b)[d - 1], hashed);
      }
    }
  }

  /** The root hash determines the whole entry list, its length and order included: two lists with the
      same root are equal, or two distinct strings hashed while building the two trees collide. The
      empty list, whose root is the empty string, is covered. */
  lemma RootBinds(h: HashFunction, es: seq<Entry>, fs: seq<Entry>)
    requires TreeOf(h, es).rootHash == TreeOf(h, fs).rootHash
    ensures es == fs || Collision(h, Hashed(h, es) + Hashed(h, fs))
  {
    if es != [] && fs != [] {
      if |Levels(h, Leaves(h, es))| <= |Levels(h, Leaves(h, fs))| {
        RootBindsOrdered(h, es, fs);
      } else {
        RootBindsOrdered(h, fs, es);
        assert Hashed(h, es) + Hashed(h, fs) == Hashed(h, fs) + Hashed(h, es);
      }
    }
  }
}

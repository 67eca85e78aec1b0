/** The Merkle tree builder, proved against the specification in Merkle and MerkleProofs. */
module MerkleBuilder {
  import opened Hashing
  import opened Merkle
  import opened MerkleProofs
  import opened Options
  import opened Sequences

  class MerkleTreeBuilder {
    const h: HashFunction

    constructor (h: HashFunction)
      ensures this.h == h
    {
      this.h := h;
    }

    method BuildTree(entries: seq<Entry>) returns (tree: MerkleTree)
      ensures tree == TreeOf(h, entries)
    {
      if entries == [] {
        return EmptyTree;
      }
      var leafHashes: Level := [];
      for i := 0 to |entries|
        invariant leafHashes == Leaves(h, entries)[..i]
      {
        leafHashes := leafHashes + [h(LeafData(entries[i]))];
      }
      assert leafHashes == Leaves(h, entries);
      tree := BuildLevels(leafHashes);
    }

    method BuildLevels(leafHashes: Level) returns (tree: MerkleTree)
      requires leafHashes != []
      ensures tree == MerkleTree(Root(h, leafHashes), leafHashes, Levels(h, leafHashes), |leafHashes|)
    {
      var treeLevels: seq<Level> := [leafHashes];
      var currentLevel := leafHashes;
      while |currentLevel| > 1
        invariant |currentLevel| > 0
        invariant Root(h, currentLevel) == Root(h, leafHashes)
        invariant treeLevels + Levels(h, currentLevel)[1..] == Levels(h, leafHashes)
        decreases |currentLevel|
      {
        var nextLevel := BuildNext(currentLevel);
        assert Levels(h, currentLevel)[1..] == [nextLevel] + Levels(h, nextLevel)[1..];
        Reassociate(treeLevels, [nextLevel], Levels(h, nextLevel)[1..]);
        treeLevels := treeLevels + [nextLevel];
        currentLevel := nextLevel;
      }
      assert Levels(h, currentLevel)[1..] == [];
      return MerkleTree(currentLevel[0], leafHashes, treeLevels, |leafHashes|);
    }

    method BuildNext(level: Level) returns (nextLevel: Level)
      ensures nextLevel == NextLevel(h, level)
    {
      nextLevel := [];
      var i := 0;
      while i < |level|
        invariant i % 2 == 0 && i <= |level| + 1
        invariant nextLevel == NextLevel(h, level)[..i / 2]
      {
        var combined: string := level[i];
        if i + 1 < |level| {
          combined := combined + level[i + 1];
        }
        assert combined == Combined(level, i / 2) by { assert i == 2 * (i / 2); }
        nextLevel := nextLevel + [h(combined)];
        i := i + 2;
      }
    }

    /** `entry` is part of the signature but is never looked at. */
    method VerifyProof(entry: Entry, leafHash: string, merklePath: seq<string>, rootHash: string) returns (ok: bool)
      ensures ok <==> FoldPath(h, leafHash, merklePath) == rootHash
    {
      var currentHash := leafHash;
      for i := 0 to |merklePath|
        invariant FoldPath(h, currentHash, merklePath[i..]) == FoldPath(h, leafHash, merklePath)
      {
        var combined := currentHash + merklePath[i];
        currentHash := h(combined);
        assert merklePath[i..][1..] == merklePath[i + 1..];
      }
      ok := currentHash == rootHash;
    }

    /** None stands for the error of an index out of range. */
    method GetMerklePath(treeLevels: seq<seq<string>>, leafIndex: nat) returns (result: Option<seq<string>>)
      ensures result == ExtractedPath(treeLevels, leafIndex)
    {
      if treeLevels == [] {
        return None;
      }
      if leafIndex >= |treeLevels[0]| {
        return Some([]);
      }
      var path := [];
      var currentIndex: nat, currentLevel: nat := leafIndex, 0;
      ghost var whole := Climb(treeLevels, leafIndex);
      assert treeLevels[0..] == treeLevels;
      ClimbAfterNothing(whole);
      while currentLevel < |treeLevels| - 1
        invariant currentLevel < |treeLevels|
        invariant After(path, Climb(treeLevels[currentLevel..], currentIndex)) == whole
      {
        var level := treeLevels[currentLevel];
        DropOne(treeLevels, currentLevel);
        var siblingHash := "";
        if currentIndex % 2 == 0 {
          if currentIndex + 1 < |level| {
            siblingHash := level[currentIndex + 1];
          }
        } else if currentIndex - 1 < |level| {
          siblingHash := level[currentIndex - 1];
        } else {
          return None;
        }
        AfterOne(path, siblingHash, Climb(treeLevels[currentLevel + 1..], currentIndex / 2));
        if siblingHash != "" {
          path := path + [siblingHash];
        }
        currentIndex := currentIndex / 2;
        currentLevel := currentLevel + 1;
      }
      assert path + [] == path;
      return Some(path);
    }

    method ReconstructTree(nodeRows: seq<NodeRow>) returns (tree: MerkleTree)
      ensures tree == Rebuilt(nodeRows)
    {
      if nodeRows == [] {
        return EmptyTree;
      }
      var levels := GroupByLevel(nodeRows);
      var treeLevels := SortLevels(nodeRows, levels);
      LevelsOfRowsNonEmpty(nodeRows);
      return MerkleTree(treeLevels[|treeLevels| - 1][0], treeLevels[0], treeLevels, |treeLevels[0]|);
    }

    method SortLevels(ghost nodeRows: seq<NodeRow>, levels: map<nat, seq<string>>)
      returns (treeLevels: seq<seq<string>>)
      requires Grouped(nodeRows, levels)
      ensures treeLevels == LevelsOfRows(nodeRows)
    {
      treeLevels := [];
      var sortedLevels := SortedNumbers(levels.Keys);
      SortedNumbersSorted(levels.Keys);
      for i := 0 to |sortedLevels|
        invariant |treeLevels| == i
        invariant forall k | 0 <= k < i :: treeLevels[k] == LevelHashes(nodeRows, sortedLevels[k])
      {
        treeLevels := treeLevels + [levels[sortedLevels[i]]];
      }
    }

    method GroupByLevel(nodeRows: seq<NodeRow>) returns (levels: map<nat, seq<string>>)
      ensures Grouped(nodeRows, levels)
    {
      levels := map[];
      for i := 0 to |nodeRows|
        invariant Grouped(nodeRows[..i], levels)
      {
        var row := nodeRows[i];
        PrefixSnoc(nodeRows, i);
        GroupedSnoc(nodeRows[..i], row, levels);
        if row.level !in levels {
          levels := levels[row.level := []];
        }
        levels := levels[row.level := levels[row.level] + [row.hash]];
      }
      assert nodeRows[..|nodeRows|] == nodeRows;
    }
  }

  // ---------------------------------------------------------------------------------------------
  // Path extraction from any list of levels
  // ---------------------------------------------------------------------------------------------

  /** The sibling hash of position `i`, the empty string if there is none; None if looking it up fails. */
  function SiblingAt(level: seq<string>, i: nat): Option<string> {
    if i % 2 == 0 then if i + 1 < |level| then Some(level[i + 1]) else Some("")
    else if i - 1 < |level| then Some(level[i - 1]) else None
  }

  /** The path found so far, followed by what the rest of the climb finds. */
  function After(path: seq<string>, rest: Option<seq<string>>): Option<seq<string>> {
    if rest.None? then None else Some(path + rest.value)
  }

  function Climb(levels: seq<seq<string>>, i: nat): Option<seq<string>>
    decreases |levels|
  {
    if |levels| <= 1 then Some([])
    else
      var sibling := SiblingAt(levels[0], i);
      if sibling.None? then None
      else After(if sibling.value != "" then [sibling.value] else [], Climb(levels[1..], i / 2))
  }

  function ExtractedPath(levels: seq<seq<string>>, i: nat): Option<seq<string>> {
    if levels == [] then None else if i >= |levels[0]| then Some([]) else Climb(levels, i)
  }

  lemma ClimbAfterNothing(rest: Option<seq<string>>)
    ensures After([], rest) == rest
  {
    if rest.Some? {
      EmptyHead(rest.value);
    }
  }

  lemma AfterOne(path: seq<string>, sibling: string, rest: Option<seq<string>>)
    ensures After(path, After(if sibling != "" then [sibling] else [], rest))
            == After(if sibling != "" then path + [sibling] else path, rest)
  {
    if rest.Some? {
      if sibling != "" {
        Reassociate(path, [sibling], rest.value);
      } else {
        EmptyHead(rest.value);
      }
    }
  }

  /** On the levels of a tree, and on any levels whose sizes halve, the extraction succeeds and gives the path of
      siblings. */
  lemma {:induction false} ExtractedIsPath(levels: seq<seq<string>>, i: nat)
    requires Halving(levels) && i < |levels[0]|
    ensures ExtractedPath(levels, i) == Some(Path(levels, i))
    decreases |levels|
  {
    if |levels| > 1 {
      HalvingTail(levels);
      ExtractedIsPath(levels[1..], i / 2);
      EmptyHead(Path(levels[1..], i / 2));
    }
  }

  // ---------------------------------------------------------------------------------------------
  // Stored nodes
  // ---------------------------------------------------------------------------------------------

  /** The hashes of the rows of level `l`, in row order. */
  function LevelHashes(rows: seq<NodeRow>, l: nat): seq<string> {
    if rows == [] then []
    else
      var last := rows[|rows| - 1];
      var earlier := LevelHashes(rows[..|rows| - 1], l);
      if last.level == l then earlier + [last.hash] else earlier
  }

  function LevelNumbers(rows: seq<NodeRow>): set<nat> {
    set i | 0 <= i < |rows| :: rows[i].level
  }

  lemma LevelNumbersSnoc(rows: seq<NodeRow>, row: NodeRow)
    ensures LevelNumbers(rows + [row]) == LevelNumbers(rows) + {row.level}
  {
    assert forall i | 0 <= i < |rows| :: (rows + [row])[i] == rows[i];
    assert (rows + [row])[|rows|] == row;
    forall l | l in LevelNumbers(rows) + {row.level}
      ensures l in LevelNumbers(rows + [row])
    {
      if l in LevelNumbers(rows) {
        var i :| 0 <= i < |rows| && rows[i].level == l;
        assert (rows + [row])[i].level == l;
      }
    }
  }

  lemma LevelHashesSnoc(rows: seq<NodeRow>, row: NodeRow, l: nat)
    ensures LevelHashes(rows + [row], l)
            == if row.level == l then LevelHashes(rows, l) + [row.hash] else LevelHashes(rows, l)
  {
    assert (rows + [row])[..|rows|] == rows;
  }

  lemma {:induction false} NoHashesOutside(rows: seq<NodeRow>, l: nat)
    ensures l in LevelNumbers(rows) <==> LevelHashes(rows, l) != []
  {
    if rows != [] {
      var init := rows[..|rows| - 1];
      assert rows == init + [rows[|rows| - 1]];
      NoHashesOutside(init, l);
      LevelNumbersSnoc(init, rows[|rows| - 1]);
    }
  }

  ghost predicate Grouped(rows: seq<NodeRow>, levels: map<nat, seq<string>>) {
    && levels.Keys == LevelNumbers(rows)
    && forall l | l in levels :: levels[l] == LevelHashes(rows, l)
  }

  lemma GroupedSnoc(rows: seq<NodeRow>, row: NodeRow, levels: map<nat, seq<string>>)
    requires Grouped(rows, levels)
    ensures var earlier := if row.level in levels then levels[row.level] else [];
            Grouped(rows + [row], levels[row.level := earlier + [row.hash]])
  {
    LevelNumbersSnoc(rows, row);
    NoHashesOutside(rows, row.level);
    forall l | l in LevelNumbers(rows + [row])
      ensures LevelHashes(rows + [row], l)
              == if row.level == l then LevelHashes(rows, l) + [row.hash] else LevelHashes(rows, l)
    {
      LevelHashesSnoc(rows, row, l);
    }
  }

  ghost predicate IsMin(s: set<nat>, m: nat) {
    m in s && forall x | x in s :: m <= x
  }

  lemma MinExists(s: set<nat>)
    requires s != {}
    ensures exists m :: IsMin(s, m)
  {
    var m :| m in s;
    var rest := s - {m};
    assert forall x | x in s :: x == m || x in rest;
    if rest == {} {
      assert IsMin(s, m);
    } else {
      MinExists(rest);
      var m' :| IsMin(rest, m');
      assert IsMin(s, if m' < m then m' else m);
    }
  }

  function Min(s: set<nat>): (m: nat)
    requires s != {}
    ensures IsMin(s, m)
  {
    MinExists(s);
    assert exists m :: IsMin(s, m);
    var m :| m in s && forall x | x in s :: m <= x;
    m
  }

  function SortedNumbers(s: set<nat>): seq<nat> {
    if s == {} then [] else [Min(s)] + SortedNumbers(s - {Min(s)})
  }

  lemma {:induction false} SortedNumbersSorted(s: set<nat>)
    ensures forall x :: x in SortedNumbers(s) <==> x in s
    ensures forall i, j | 0 <= i < j < |SortedNumbers(s)| :: SortedNumbers(s)[i] < SortedNumbers(s)[j]
  {
    if s != {} {
      var m, rest := Min(s), SortedNumbers(s - {Min(s)});
      SortedNumbersSorted(s - {m});
      forall i, j | 0 <= i < j < |SortedNumbers(s)|
        ensures SortedNumbers(s)[i] < SortedNumbers(s)[j]
      {
        assert SortedNumbers(s)[j] == rest[j - 1] && rest[j - 1] in rest;
        if i > 0 {
          assert SortedNumbers(s)[i] == rest[i - 1];
        }
      }
    }
  }

  function LevelsOfRows(rows: seq<NodeRow>): seq<seq<string>> {
    var numbers := SortedNumbers(LevelNumbers(rows));
    seq(|numbers|, i requires 0 <= i < |numbers| => LevelHashes(rows, numbers[i]))
  }

  lemma LevelsOfRowsNonEmpty(rows: seq<NodeRow>)
    requires rows != []
    ensures |LevelsOfRows(rows)| > 0
    ensures forall i | 0 <= i < |LevelsOfRows(rows)| :: LevelsOfRows(rows)[i] != []
  {
    var numbers := SortedNumbers(LevelNumbers(rows));
    SortedNumbersSorted(LevelNumbers(rows));
    assert rows[0].level in LevelNumbers(rows);
    assert rows[0].level in numbers;
    forall i | 0 <= i < |numbers|
      ensures LevelsOfRows(rows)[i] != []
    {
      assert numbers[i] in LevelNumbers(rows);
      NoHashesOutside(rows, numbers[i]);
    }
  }

  function Rebuilt(rows: seq<NodeRow>): MerkleTree {
    if rows == [] then EmptyTree
    else
      LevelsOfRowsNonEmpty(rows);
      var levels := LevelsOfRows(rows);
      MerkleTree(levels[|levels| - 1][0], levels[0], levels, |levels[0]|)
  }

  lemma SomeElement(s: seq<nat>)
    ensures s == [] || exists x: nat :: x in s
  {
    if s != [] {
      assert s[0] in s;
    }
  }

  lemma {:induction false} SortedRange(s: seq<nat>, n: nat)
    requires forall x: nat :: x in s <==> x < n
    requires forall i, j | 0 <= i < j < |s| :: s[i] < s[j]
    ensures |s| == n && forall i | 0 <= i < n :: s[i] == i
  {
    if n > 0 {
      assert n - 1 in s;
      var last := |s| - 1;
      var k :| 0 <= k < |s| && s[k] == n - 1;
      assert s[last] in s;
      assert k == last;
      var init := s[..last];
      forall x: nat
        ensures x in init <==> x < n - 1
      {
        if x < n - 1 {
          assert x in s;
        }
      }
      SortedRange(init, n - 1);
      assert forall i | 0 <= i < last :: s[i] == init[i];
    } else {
      SomeElement(s);
    }
  }

  function LevelAt(levels: seq<seq<string>>, l: nat): seq<string> {
    if l < |levels| then levels[l] else []
  }

  lemma RowsRebuildLevels(rows: seq<NodeRow>, levels: seq<seq<string>>)
    requires forall l: nat :: LevelHashes(rows, l) == LevelAt(levels, l)
    requires forall l | 0 <= l < |levels| :: levels[l] != []
    ensures LevelsOfRows(rows) == levels
  {
    var numbers := SortedNumbers(LevelNumbers(rows));
    SortedNumbersSorted(LevelNumbers(rows));
    forall l: nat
      ensures l in numbers <==> l < |levels|
    {
      NoHashesOutside(rows, l);
      assert LevelHashes(rows, l) == LevelAt(levels, l);
    }
    SortedRange(numbers, |levels|);
    forall i | 0 <= i < |levels|
      ensures LevelsOfRows(rows)[i] == levels[i]
    {
      assert LevelHashes(rows, numbers[i]) == LevelAt(levels, i);
    }
  }

  /** Whatever the interleaving of the levels, rows that list each level's nodes in order rebuild the tree. */
  lemma RowsRebuildTree(h: HashFunction, es: seq<Entry>, rows: seq<NodeRow>)
    requires forall l: nat :: LevelHashes(rows, l) == LevelAt(TreeOf(h, es).treeLevels, l)
    ensures Rebuilt(rows) == TreeOf(h, es)
  {
    var levels := TreeOf(h, es).treeLevels;
    if es != [] {
      LevelsShape(h, Leaves(h, es));
    }
    RowsRebuildLevels(rows, levels);
    if rows == [] {
      assert LevelsOfRows(rows) == [];
    } else {
      LevelsOfRowsNonEmpty(rows);
    }
  }

  /** The rows that a snapshot stores, level by level, and the order in which they are read back. */
  method StoredRows(tree: MerkleTree) returns (rows: seq<NodeRow>)
    ensures rows == RowsUpTo(tree.treeLevels, |tree.treeLevels|)
  {
    rows := [];
    for k := 0 to |tree.treeLevels|
      invariant rows == RowsUpTo(tree.treeLevels, k)
    {
      var level := tree.treeLevels[k];
      for i := 0 to |level|
        invariant rows == RowsUpTo(tree.treeLevels, k) + LevelRows(level, k, i)
      {
        rows := rows + [NodeRow(k, i, level[i])];
      }
    }
  }

  function LevelRows(level: seq<string>, k: nat, n: nat): seq<NodeRow>
    requires n <= |level|
  {
    if n == 0 then [] else LevelRows(level, k, n - 1) + [NodeRow(k, n - 1, level[n - 1])]
  }

  function RowsUpTo(levels: seq<seq<string>>, n: nat): seq<NodeRow>
    requires n <= |levels|
  {
    if n == 0 then [] else RowsUpTo(levels, n - 1) + LevelRows(levels[n - 1], n - 1, |levels[n - 1]|)
  }

  lemma {:induction false} LevelHashesConcat(rows: seq<NodeRow>, more: seq<NodeRow>, l: nat)
    ensures LevelHashes(rows + more, l) == LevelHashes(rows, l) + LevelHashes(more, l)
  {
    if more == [] {
      assert rows + more == rows;
    } else {
      var init, last := more[..|more| - 1], more[|more| - 1];
      LevelHashesConcat(rows, init, l);
      Reassociate(rows, init, [last]);
      assert more == init + [last];
      LevelHashesSnoc(rows + init, last, l);
    }
  }

  lemma {:induction false} LevelRowsHashes(level: seq<string>, k: nat, n: nat, l: nat)
    requires n <= |level|
    ensures LevelHashes(LevelRows(level, k, n), l) == if l == k then level[..n] else []
  {
    if n > 0 {
      LevelRowsHashes(level, k, n - 1, l);
      LevelHashesSnoc(LevelRows(level, k, n - 1), NodeRow(k, n - 1, level[n - 1]), l);
      PrefixSnoc(level, n - 1);
    }
  }

  lemma AllLevelRowsHashes(rows: seq<NodeRow>, level: seq<string>, k: nat, l: nat)
    ensures LevelHashes(rows + LevelRows(level, k, |level|), l)
            == if l == k then LevelHashes(rows, l) + level else LevelHashes(rows, l)
  {
    LevelHashesConcat(rows, LevelRows(level, k, |level|), l);
    LevelRowsHashes(level, k, |level|, l);
    assert level[..|level|] == level;
  }

  lemma RowsUpToNext(levels: seq<seq<string>>, n: nat, l: nat)
    requires n < |levels|
    ensures LevelHashes(RowsUpTo(levels, n + 1), l)
            == if l == n then LevelHashes(RowsUpTo(levels, n), l) + levels[n] else LevelHashes(RowsUpTo(levels, n), l)
  {
    AllLevelRowsHashes(RowsUpTo(levels, n), levels[n], n, l);
  }

  /** The hashes of level `l` among the rows of the first `n` levels. */
  ghost predicate HashesUpTo(levels: seq<seq<string>>, n: nat, l: nat)
    requires n <= |levels|
  {
    LevelHashes(RowsUpTo(levels, n), l) == if l < n then levels[l] else []
  }

  lemma HashesUpToNext(levels: seq<seq<string>>, n: nat, l: nat)
    requires n < |levels| && HashesUpTo(levels, n, l)
    ensures HashesUpTo(levels, n + 1, l)
  {
    RowsUpToNext(levels, n, l);
    EmptyHead(levels[n]);
  }

  lemma {:induction false} RowsUpToHashes(levels: seq<seq<string>>, n: nat, l: nat)
    requires n <= |levels|
    ensures HashesUpTo(levels, n, l)
  {
    if n > 0 {
      RowsUpToHashes(levels, n - 1, l);
      HashesUpToNext(levels, n - 1, l);
    }
  }

  /** Storing a tree's nodes and reconstructing them gives the tree back, so a snapshot's stored root
      passes the root comparison. */
  lemma StoreThenReconstruct(h: HashFunction, es: seq<Entry>)
    ensures Rebuilt(RowsUpTo(TreeOf(h, es).treeLevels, |TreeOf(h, es).treeLevels|)) == TreeOf(h, es)
  {
    var levels := TreeOf(h, es).treeLevels;
    forall l: nat
      ensures LevelHashes(RowsUpTo(levels, |levels|), l) == LevelAt(levels, l)
    {
      RowsUpToHashes(levels, |levels|, l);
    }
    RowsRebuildTree(h, es, RowsUpTo(levels, |levels|));
  }

  /** The row is the one of a node of the tree's first `n` levels. */
  predicate IsNodeRow(levels: seq<seq<string>>, n: nat, r: NodeRow)
    requires n <= |levels|
  {
    r.level < n && r.index < |levels[r.level]| && r.hash == levels[r.level][r.index]
  }

  predicate RowBefore(r: NodeRow, r': NodeRow) {
    r.level < r'.level || (r.level == r'.level && r.index < r'.index)
  }

  ghost predicate RowsAscend(rows: seq<NodeRow>) {
    forall i, j | 0 <= i < j < |rows| :: RowBefore(rows[i], rows[j])
  }

  lemma {:induction false} LevelRowsAre(level: seq<string>, k: nat, n: nat)
    requires n <= |level|
    ensures var rows := LevelRows(level, k, n);
            |rows| == n && forall i | 0 <= i < n :: rows[i] == NodeRow(k, i, level[i])
  {
    if n > 0 {
      LevelRowsAre(level, k, n - 1);
    }
  }

  lemma RowsJoin(earlier: seq<NodeRow>, level: seq<string>, k: nat)
    requires RowsAscend(earlier) && forall r | r in earlier :: r.level < k
    ensures RowsAscend(earlier + LevelRows(level, k, |level|))
  {
    var later := LevelRows(level, k, |level|);
    LevelRowsAre(level, k, |level|);
    var rows := earlier + later;
    forall i, j | 0 <= i < j < |rows|
      ensures RowBefore(rows[i], rows[j])
    {
      if i < |earlier| {
        assert rows[i] == earlier[i] && earlier[i] in earlier;
      }
    }
  }

  lemma LevelRowsMember(level: seq<string>, k: nat, r: NodeRow)
    ensures r in LevelRows(level, k, |level|) <==> r.level == k && r.index < |level| && r.hash == level[r.index]
  {
    LevelRowsAre(level, k, |level|);
    if r.level == k && r.index < |level| && r.hash == level[r.index] {
      assert LevelRows(level, k, |level|)[r.index] == r;
    }
  }

  /** The stored rows are exactly one for each node, with its level, its place in the level and its hash, level by level
      and in each level from left to right. */
  lemma {:induction false} StoredRowsExact(levels: seq<seq<string>>, n: nat)
    requires n <= |levels|
    ensures forall r :: r in RowsUpTo(levels, n) <==> IsNodeRow(levels, n, r)
    ensures RowsAscend(RowsUpTo(levels, n))
  {
    if n > 0 {
      StoredRowsExact(levels, n - 1);
      RowsJoin(RowsUpTo(levels, n - 1), levels[n - 1], n - 1);
      forall r
        ensures r in RowsUpTo(levels, n) <==> IsNodeRow(levels, n, r)
      {
        LevelRowsMember(levels[n - 1], n - 1, r);
      }
    }
  }
}

/** What the hash chain guarantees: the head binds everything below it, and tampering is localised. */
module ChainBinding {
  import opened Hashing
  import opened HashChain

  // ---------------------------------------------------------------------------------------------
  // The head determines the rows
  // ---------------------------------------------------------------------------------------------

  /** Every string hashed by the walk over `rows`. */
  function HashedRows(salt: string, rows: seq<Record>): set<string> {
    set i | 0 <= i < |rows| :: PayloadOf(salt, rows[i])
  }

  /** The hash fields have the length of a SHA-256 hex digest. */
  ghost predicate DigestSized(rows: seq<Record>) {
    forall i | 0 <= i < |rows| :: |rows[i].previousHash| == 64 && |rows[i].dataHash| == 64
  }

  predicate SameLink(r: Record, s: Record) {
    && r.previousHash == s.previousHash && r.dataHash == s.dataHash
    && r.currentHash == s.currentHash && r.sequenceNumber == s.sequenceNumber
  }

  /** Two accepted rows with the same current hash agree, unless their payloads collide. */
  lemma SameCurrentSameLink(h: HashFunction, salt: string, r: Record, s: Record, hashed: set<string>)
    requires !HashBroken(h, salt, r) && !HashBroken(h, salt, s)
    requires |r.previousHash| == |s.previousHash| && |r.dataHash| == |s.dataHash|
    requires r.currentHash == s.currentHash
    requires PayloadOf(salt, r) in hashed && PayloadOf(salt, s) in hashed
    ensures SameLink(r, s) || Collision(h, hashed)
  {
    SameDigest(h, hashed, PayloadOf(salt, r), PayloadOf(salt, s));
    if !Collision(h, hashed) {
      ChainPayloadInjective(r.previousHash, r.dataHash, r.sequenceNumber,
                            s.previousHash, s.dataHash, s.sequenceNumber, salt);
    }
  }

  /** The row with `k` rows after it. */
  function FromEnd(rows: seq<Record>, k: nat): Record
    requires k < |rows|
  {
    rows[|rows| - 1 - k]
  }

  predicate SameSizes(r: Record, s: Record) {
    |r.previousHash| == |s.previousHash| && |r.dataHash| == |s.dataHash|
  }

  /** The hash fields of the last `m` rows have pairwise the same lengths. */
  ghost predicate SizesAgree(a: seq<Record>, b: seq<Record>, m: nat)
    requires m <= |a| && m <= |b|
  {
    forall k | 0 <= k < m :: SameSizes(FromEnd(a, k), FromEnd(b, k))
  }

  /** The last `m` rows have pairwise the same links. */
  ghost predicate LinksAgree(a: seq<Record>, b: seq<Record>, m: nat)
    requires m <= |a| && m <= |b|
  {
    forall k | 0 <= k < m :: SameLink(FromEnd(a, k), FromEnd(b, k))
  }

  /** Equal current hashes give equal rows, and so equal current hashes one row further down. */
  lemma LinkBinds(h: HashFunction, salt: string, a: seq<Record>, b: seq<Record>, i: nat, j: nat, hashed: set<string>)
    requires Accepted(h, salt, a) && Accepted(h, salt, b)
    requires i < |a| && j < |b| && a[i].currentHash == b[j].currentHash
    requires |a[i].previousHash| == |b[j].previousHash| && |a[i].dataHash| == |b[j].dataHash|
    requires HashedRows(salt, a) <= hashed && HashedRows(salt, b) <= hashed && !Collision(h, hashed)
    ensures SameLink(a[i], b[j])
    ensures i > 0 && j > 0 ==> a[i - 1].currentHash == b[j - 1].currentHash
  {
    assert !Flagged(h, salt, a, i) && !Flagged(h, salt, b, j);
    assert PayloadOf(salt, a[i]) in HashedRows(salt, a) && PayloadOf(salt, b[j]) in HashedRows(salt, b);
    SameCurrentSameLink(h, salt, a[i], b[j], hashed);
  }

  /** One row further from the end. */
  lemma OneMoreBinds(h: HashFunction, salt: string, a: seq<Record>, b: seq<Record>, k: nat, hashed: set<string>)
    requires Accepted(h, salt, a) && Accepted(h, salt, b) && k < |a| && k < |b|
    requires FromEnd(a, k).currentHash == FromEnd(b, k).currentHash && SameSizes(FromEnd(a, k), FromEnd(b, k))
    requires HashedRows(salt, a) <= hashed && HashedRows(salt, b) <= hashed && !Collision(h, hashed)
    ensures SameLink(FromEnd(a, k), FromEnd(b, k))
    ensures k + 1 < |a| && k + 1 < |b| ==> FromEnd(a, k + 1).currentHash == FromEnd(b, k + 1).currentHash
  {
    LinkBinds(h, salt, a, b, |a| - 1 - k, |b| - 1 - k, hashed);
  }

  lemma {:induction false} HeadBindsWithin(
    h: HashFunction, salt: string, a: seq<Record>, b: seq<Record>, m: nat, hashed: set<string>)
    requires Accepted(h, salt, a) && Accepted(h, salt, b)
    requires 0 < m <= |a| && m <= |b| && SizesAgree(a, b, m) && FromEnd(a, 0).currentHash == FromEnd(b, 0).currentHash
    requires HashedRows(salt, a) <= hashed && HashedRows(salt, b) <= hashed && !Collision(h, hashed)
    ensures LinksAgree(a, b, m)
    ensures m < |a| && m < |b| ==> FromEnd(a, m).currentHash == FromEnd(b, m).currentHash
  {
    if m > 1 {
      HeadBindsWithin(h, salt, a, b, m - 1, hashed);
    }
    OneMoreBinds(h, salt, a, b, m - 1, hashed);
  }

  /** Head binding, with its exact condition: the last `m` rows of two accepted row lists with the same last
      `current_hash` agree on every link if and only if their hash fields have pairwise the same lengths, or two
      distinct hashed payloads collide. */
  lemma HeadBinds(h: HashFunction, salt: string, a: seq<Record>, b: seq<Record>, m: nat)
    requires Accepted(h, salt, a) && Accepted(h, salt, b)
    requires 0 < m <= |a| && m <= |b| && FromEnd(a, 0).currentHash == FromEnd(b, 0).currentHash
    ensures (LinksAgree(a, b, m) <==> SizesAgree(a, b, m)) || Collision(h, HashedRows(salt, a) + HashedRows(salt, b))
  {
    var hashed := HashedRows(salt, a) + HashedRows(salt, b);
    if SizesAgree(a, b, m) && !Collision(h, hashed) {
      HeadBindsWithin(h, salt, a, b, m, hashed);
    }
    if LinksAgree(a, b, m) {
      LinksGiveSizes(a, b, m);
    }
  }

  lemma LinksGiveSizes(a: seq<Record>, b: seq<Record>, m: nat)
    requires m <= |a| && m <= |b| && LinksAgree(a, b, m)
    ensures SizesAgree(a, b, m)
  {
    forall k | 0 <= k < m
      ensures SameSizes(FromEnd(a, k), FromEnd(b, k))
    {
      assert SameLink(FromEnd(a, k), FromEnd(b, k));
    }
  }

  function HashedData(entries: seq<Record>): set<string> {
    set i | 0 <= i < |entries| :: HashedText(entries[i].payload)
  }

  lemma DigestSizesAgree(a: seq<Record>, b: seq<Record>, m: nat)
    requires DigestSized(a) && DigestSized(b) && m <= |a| && m <= |b|
    ensures SizesAgree(a, b, m)
  {
  }

  lemma SameHeadSameLength(h: HashFunction, salt: string, a: seq<Record>, b: seq<Record>, hashed: set<string>)
    requires WellFormed(h, salt, a) && WellFormed(h, salt, b)
    requires a != [] && b != [] && StateOf(a).lastHash == StateOf(b).lastHash
    requires HashedRows(salt, a) <= hashed && HashedRows(salt, b) <= hashed && !Collision(h, hashed)
    ensures |a| == |b| && LinksAgree(a, b, |a|)
  {
    var m := if |a| <= |b| then |a| else |b|;
    WellFormedIsSized(h, salt, a);
    WellFormedIsSized(h, salt, b);
    DigestSizesAgree(a, b, m);
    HeadBindsWithin(h, salt, a, b, m, hashed);
    assert SameLink(FromEnd(a, 0), FromEnd(b, 0));
  }

  ghost predicate SameRecord(r: Record, s: Record) {
    SameLink(r, s) && HashedText(r.payload) == HashedText(s.payload)
  }

  lemma LinkedDataAgrees(h: HashFunction, a: seq<Record>, b: seq<Record>, i: nat, hashed: set<string>)
    requires |a| == |b| && LinksAgree(a, b, |a|) && i < |a|
    requires h(HashedText(a[i].payload)) == a[i].dataHash && h(HashedText(b[i].payload)) == b[i].dataHash
    requires HashedData(a) <= hashed && HashedData(b) <= hashed && !Collision(h, hashed)
    ensures SameRecord(a[i], b[i])
  {
    assert SameLink(FromEnd(a, |a| - 1 - i), FromEnd(b, |a| - 1 - i));
    assert HashedText(a[i].payload) in HashedData(a) && HashedText(b[i].payload) in HashedData(b);
    SameDigest(h, hashed, HashedText(a[i].payload), HashedText(b[i].payload));
  }

  /** For whole chains the head determines the length too, and every audited payload: two well-formed
      chains with the same head carry the same data at the same places, or two hashed strings collide. */
  lemma HeadBindsChains(h: HashFunction, salt: string, a: seq<Record>, b: seq<Record>)
    requires WellFormed(h, salt, a) && WellFormed(h, salt, b)
    requires a != [] && b != [] && StateOf(a).lastHash == StateOf(b).lastHash
    ensures var hashed := HashedRows(salt, a) + HashedRows(salt, b) + HashedData(a) + HashedData(b);
            (|a| == |b| && forall i | 0 <= i < |a| :: SameRecord(a[i], b[i])) || Collision(h, hashed)
  {
    var hashed := HashedRows(salt, a) + HashedRows(salt, b) + HashedData(a) + HashedData(b);
    if !Collision(h, hashed) {
      SameHeadSameLength(h, salt, a, b, hashed);
      forall i | 0 <= i < |a|
        ensures SameRecord(a[i], b[i])
      {
        LinkedDataAgrees(h, a, b, i, hashed);
      }
    }
  }

  lemma WellFormedIsSized(h: HashFunction, salt: string, entries: seq<Record>)
    requires WellFormed(h, salt, entries)
    ensures DigestSized(entries)
  {
    forall i | 0 <= i < |entries|
      ensures |entries[i].previousHash| == 64
    {
      assert !Flagged(h, salt, entries, i);
      if i > 0 {
        assert !Flagged(h, salt, entries, i - 1);
      }
    }
  }

  /** The lengths matter: the payload has no separators, so any text `moved` can change from the end of one hash
      field to the start of the next with the walk still accepting and the head unchanged. */
  lemma HeadBindingNeedsSizes(h: HashFunction, salt: string, auditId: string, data: AuditData,
                              previous: string, moved: string, rest: string, n: int)
    ensures var current: string := h(ChainPayload(previous + moved, rest, salt, n));
            var r := Record(auditId, data, previous + moved, rest, current, n, false);
            var s := Record(auditId, data, previous, moved + rest, current, n, false);
            && Accepted(h, salt, [r]) && Accepted(h, salt, [s]) && r.currentHash == s.currentHash
            && (moved != "" ==> !SameLink(r, s))
  {
    assert ChainPayload(previous + moved, rest, salt, n) == ChainPayload(previous, moved + rest, salt, n) by {
      assert (previous + moved) + rest == previous + (moved + rest);
    }
    assert |previous + moved| == |previous| + |moved|;
  }

  // ---------------------------------------------------------------------------------------------
  // Tampering is localised
  // ---------------------------------------------------------------------------------------------

  /** Replacing one row's current hash is reported at exactly that row and its successor. */
  lemma TamperedCurrentHash(h: HashFunction, salt: string, rows: seq<Record>, i: nat, forged: string, k: nat)
    requires Accepted(h, salt, rows)
    requires i < |rows| && k < |rows| && forged != rows[i].currentHash
    ensures Flagged(h, salt, rows[i := rows[i].(currentHash := forged)], k) <==> k == i || k == i + 1
  {
    assert !Flagged(h, salt, rows, k);
    assert !Flagged(h, salt, rows, i);
  }

  /** Replacing one row's data hash is reported at exactly that row, unless the two payloads collide. */
  lemma TamperedDataHash(h: HashFunction, salt: string, rows: seq<Record>, i: nat, forged: string, k: nat)
    requires Accepted(h, salt, rows)
    requires i < |rows| && k < |rows| && forged != rows[i].dataHash
    ensures var row := rows[i].(dataHash := forged);
            (Flagged(h, salt, rows[i := row], k) <==> k == i)
            || Collides(h, PayloadOf(salt, rows[i]), PayloadOf(salt, row))
  {
    var row := rows[i].(dataHash := forged);
    assert !Flagged(h, salt, rows, k);
    assert !Flagged(h, salt, rows, i);
    if PayloadOf(salt, row) == PayloadOf(salt, rows[i]) {
      ChainPayloadOneField(row.previousHash, row.dataHash, rows[i].previousHash, rows[i].dataHash,
                           row.sequenceNumber, salt);
    }
  }

  /** Replacing one row's previous hash is reported at exactly that row; for the first row of the walk,
      which has no predecessor to compare with, unless the two payloads collide. */
  lemma TamperedPreviousHash(h: HashFunction, salt: string, rows: seq<Record>, i: nat, forged: string, k: nat)
    requires Accepted(h, salt, rows)
    requires i < |rows| && k < |rows| && forged != rows[i].previousHash
    ensures var row := rows[i].(previousHash := forged);
            (Flagged(h, salt, rows[i := row], k) <==> k == i)
            || (i == 0 && Collides(h, PayloadOf(salt, rows[i]), PayloadOf(salt, row)))
  {
    var row := rows[i].(previousHash := forged);
    assert !Flagged(h, salt, rows, k);
    assert !Flagged(h, salt, rows, i);
    if PayloadOf(salt, row) == PayloadOf(salt, rows[i]) {
      ChainPayloadOneField(row.previousHash, row.dataHash, rows[i].previousHash, rows[i].dataHash,
                           row.sequenceNumber, salt);
    }
  }

  /** The walk never looks at the audited data itself: changing it alone is not reported anywhere. */
  lemma TamperedDataIsNotWalked(h: HashFunction, salt: string, rows: seq<Record>, i: nat, forged: AuditData, k: nat)
    requires i < |rows| && k < |rows|
    ensures Flagged(h, salt, rows[i := rows[i].(payload := forged)], k) <==> Flagged(h, salt, rows, k)
  {
  }

  // ---------------------------------------------------------------------------------------------
  // Deletions
  // ---------------------------------------------------------------------------------------------

  /** Every contiguous stretch of an accepted row list is accepted: the walk compares neither the first link to
      genesis nor the numbering. */
  lemma StretchIsAccepted(h: HashFunction, salt: string, rows: seq<Record>, lo: nat, hi: nat)
    requires Accepted(h, salt, rows) && lo <= hi <= |rows|
    ensures Accepted(h, salt, rows[lo..hi])
  {
    forall i | 0 <= i < hi - lo
      ensures !Flagged(h, salt, rows[lo..hi], i)
    {
      assert !Flagged(h, salt, rows, lo + i);
    }
  }

  function Without(rows: seq<Record>, lo: nat, hi: nat): seq<Record>
    requires lo <= hi <= |rows|
  {
    rows[..lo] + rows[hi..]
  }

  /** Rows of a well-formed chain have different payloads, so they have different hashes or collide. */
  lemma RowsDiffer(h: HashFunction, salt: string, rows: seq<Record>, i: nat, j: nat)
    requires WellFormed(h, salt, rows) && i < j < |rows|
    ensures rows[i].currentHash != rows[j].currentHash
            || Collides(h, PayloadOf(salt, rows[i]), PayloadOf(salt, rows[j]))
  {
    WellFormedIsSized(h, salt, rows);
    assert !Flagged(h, salt, rows, i) && !Flagged(h, salt, rows, j);
    if PayloadOf(salt, rows[i]) == PayloadOf(salt, rows[j]) {
      ChainPayloadInjective(rows[i].previousHash, rows[i].dataHash, rows[i].sequenceNumber,
                            rows[j].previousHash, rows[j].dataHash, rows[j].sequenceNumber, salt);
    }
  }

  /** Behind the gap every row still follows the one it followed before. */
  lemma OthersUnflagged(h: HashFunction, salt: string, rows: seq<Record>, lo: nat, hi: nat, k: nat)
    requires Accepted(h, salt, rows) && lo < hi <= |rows| && k < |rows| - (hi - lo) && (k != lo || lo == 0)
    ensures !Flagged(h, salt, Without(rows, lo, hi), k)
  {
    var left := Without(rows, lo, hi);
    var there := if k < lo then k else k + (hi - lo);
    assert left[k] == rows[there];
    assert !Flagged(h, salt, rows, there);
    if k > 0 {
      assert left[k - 1] == rows[there - 1];
    }
  }

  lemma AfterGap(h: HashFunction, salt: string, rows: seq<Record>, lo: nat, hi: nat)
    requires WellFormed(h, salt, rows) && 0 < lo < hi < |rows|
    ensures Flagged(h, salt, Without(rows, lo, hi), lo)
            || Collides(h, PayloadOf(salt, rows[lo - 1]), PayloadOf(salt, rows[hi - 1]))
  {
    var left := Without(rows, lo, hi);
    assert left[lo] == rows[hi] && left[lo - 1] == rows[lo - 1];
    assert !Flagged(h, salt, rows, hi);
    RowsDiffer(h, salt, rows, lo - 1, hi - 1);
  }

  /** Which deletions are noticed: removing the rows `lo..hi` of a well-formed chain is not reported at all at
      either end of the chain, and otherwise at exactly the row after the gap, unless the payloads of the last
      row before the gap and of the last row in it collide. */
  lemma RemovalIsFlagged(h: HashFunction, salt: string, rows: seq<Record>, lo: nat, hi: nat, k: nat)
    requires WellFormed(h, salt, rows) && lo < hi <= |rows| && k < |rows| - (hi - lo)
    ensures var inside := 0 < lo && hi < |rows|;
            || (Flagged(h, salt, Without(rows, lo, hi), k) <==> inside && k == lo)
            || (inside && Collides(h, PayloadOf(salt, rows[lo - 1]), PayloadOf(salt, rows[hi - 1])))
  {
    if 0 < lo && k == lo {
      AfterGap(h, salt, rows, lo, hi);
    } else {
      OthersUnflagged(h, salt, rows, lo, hi, k);
    }
  }
}

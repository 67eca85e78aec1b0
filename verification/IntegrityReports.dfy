/** What tampering and deletions make of the integrity report: which rows it lists, in which order, and for what. */
module IntegrityReports {
  import opened ChainBinding
  import opened HashChain
  import opened Hashing
  import opened Selections

  /** The report lists exactly the rows at these positions as tampered, in this order. */
  ghost predicate TamperedAre(h: HashFunction, salt: string, rows: seq<Record>, ps: seq<nat>) {
    rows != [] && FitsAt(ps, ReportOf(h, salt, rows).tamperedEntries, TellsOf(h, salt, rows))
  }

  lemma FlaggedIsBroken(h: HashFunction, salt: string, rows: seq<Record>, ps: seq<nat>)
    requires Increasing(ps) && forall i: nat :: i in ps <==> i < |rows| && Flagged(h, salt, rows, i)
    ensures PositionsBelow(|rows|, BrokenIn(h, salt, rows, true), ps)
  {
    forall i: nat
      ensures i in ps <==> i < |rows| && BrokenIn(h, salt, rows, true)(i)
    {
      if i < |rows| {
        InfoTells(h, salt, rows, i);
      }
    }
  }

  /** The rows that the walk flags are those that the report lists. */
  lemma TamperedAreFlagged(h: HashFunction, salt: string, rows: seq<Record>, ps: seq<nat>)
    requires rows != [] && Increasing(ps)
    requires forall i: nat :: i in ps <==> i < |rows| && Flagged(h, salt, rows, i)
    ensures TamperedAre(h, salt, rows, ps)
  {
    ReportExact(h, salt, rows);
    FlaggedIsBroken(h, salt, rows, ps);
    ListedAt(|rows|, BrokenIn(h, salt, rows, true), ReportOf(h, salt, rows).tamperedEntries,
             TellsOf(h, salt, rows), ps);
  }

  lemma OneFlagged(h: HashFunction, salt: string, rows: seq<Record>, i: nat)
    requires i < |rows| && forall k: nat | k < |rows| :: Flagged(h, salt, rows, k) <==> k == i
    ensures TamperedAre(h, salt, rows, [i])
  {
    TamperedAreFlagged(h, salt, rows, [i]);
  }

  lemma NoneFlagged(h: HashFunction, salt: string, rows: seq<Record>)
    requires rows != [] && Accepted(h, salt, rows)
    ensures ReportOf(h, salt, rows).tamperedEntries == []
  {
    TamperedAreFlagged(h, salt, rows, []);
  }

  /** A report with one tampered row, and what it says is wrong with it. */
  ghost predicate ListsOnly(report: IntegrityReport, r: Record, issues: seq<Issue>) {
    report.Checked? && report.tamperedEntries == [EntryInfo(r.auditId, r.sequenceNumber, false, issues)]
  }

  lemma OnlyEntry(h: HashFunction, salt: string, rows: seq<Record>, i: nat, issues: seq<Issue>)
    requires TamperedAre(h, salt, rows, [i]) && issues != [] && LinkFirst(issues) && i < |rows|
    requires PreviousHashMismatch in issues <==> i > 0 && rows[i].previousHash != rows[i - 1].currentHash
    requires CurrentHashMismatch in issues <==> HashBroken(h, salt, rows[i])
    ensures ListsOnly(ReportOf(h, salt, rows), rows[i], issues)
  {
    var info := EntryInfo(rows[i].auditId, rows[i].sequenceNumber, false, issues);
    var listed := ReportOf(h, salt, rows).tamperedEntries;
    assert Tells(h, salt, rows, i, listed[0]) && Tells(h, salt, rows, i, info);
    TellsOne(h, salt, rows, i, listed[0], info);
  }

  /** A replaced current hash: the report lists that row, for its hash, and then the next one, for its link. */
  lemma TamperedCurrentHashReported(h: HashFunction, salt: string, rows: seq<Record>, i: nat, forged: string)
    requires Accepted(h, salt, rows) && i < |rows| && forged != rows[i].currentHash
    ensures var report := ReportOf(h, salt, rows[i := rows[i].(currentHash := forged)]);
            && report.Checked?
            && report.tamperedEntries
               == [EntryInfo(rows[i].auditId, rows[i].sequenceNumber, false, [CurrentHashMismatch])]
                  + if i + 1 == |rows| then []
                    else [EntryInfo(rows[i + 1].auditId, rows[i + 1].sequenceNumber, false, [PreviousHashMismatch])]
  {
    var rows' := rows[i := rows[i].(currentHash := forged)];
    forall k: nat | k < |rows|
      ensures Flagged(h, salt, rows', k) <==> k == i || k == i + 1
    {
      TamperedCurrentHash(h, salt, rows, i, forged, k);
    }
    assert !Flagged(h, salt, rows, i);
    if i + 1 == |rows| {
      OneFlagged(h, salt, rows', i);
      OnlyEntry(h, salt, rows', i, [CurrentHashMismatch]);
    } else {
      assert !Flagged(h, salt, rows, i + 1);
      TamperedAreFlagged(h, salt, rows', [i, i + 1]);
      TwoEntries(h, salt, rows', i);
    }
  }

  lemma TwoEntries(h: HashFunction, salt: string, rows: seq<Record>, i: nat)
    requires i + 1 < |rows| && TamperedAre(h, salt, rows, [i, i + 1])
    requires HashBroken(h, salt, rows[i]) && !LinkBroken(rows, i)
    requires !HashBroken(h, salt, rows[i + 1]) && LinkBroken(rows, i + 1)
    ensures ReportOf(h, salt, rows).tamperedEntries
            == [EntryInfo(rows[i].auditId, rows[i].sequenceNumber, false, [CurrentHashMismatch]),
                EntryInfo(rows[i + 1].auditId, rows[i + 1].sequenceNumber, false, [PreviousHashMismatch])]
  {
    var listed := ReportOf(h, salt, rows).tamperedEntries;
    var first := EntryInfo(rows[i].auditId, rows[i].sequenceNumber, false, [CurrentHashMismatch]);
    var second := EntryInfo(rows[i + 1].auditId, rows[i + 1].sequenceNumber, false, [PreviousHashMismatch]);
    assert [i, i + 1][1] == i + 1;
    assert Tells(h, salt, rows, i, listed[0]) && Tells(h, salt, rows, i, first);
    assert Tells(h, salt, rows, i + 1, listed[1]) && Tells(h, salt, rows, i + 1, second);
    TellsOne(h, salt, rows, i, listed[0], first);
    TellsOne(h, salt, rows, i + 1, listed[1], second);
  }

  /** A replaced data hash: the report lists that row only, for its hash, or the two payloads collide. */
  lemma TamperedDataHashReported(h: HashFunction, salt: string, rows: seq<Record>, i: nat, forged: string)
    requires Accepted(h, salt, rows) && i < |rows| && forged != rows[i].dataHash
    ensures var row := rows[i].(dataHash := forged);
            || ListsOnly(ReportOf(h, salt, rows[i := row]), row, [CurrentHashMismatch])
            || Collides(h, PayloadOf(salt, rows[i]), PayloadOf(salt, row))
  {
    var row := rows[i].(dataHash := forged);
    var rows' := rows[i := row];
    if !Collides(h, PayloadOf(salt, rows[i]), PayloadOf(salt, row)) {
      forall k: nat | k < |rows|
        ensures Flagged(h, salt, rows', k) <==> k == i
      {
        TamperedDataHash(h, salt, rows, i, forged, k);
      }
      assert !Flagged(h, salt, rows, i);
      assert Flagged(h, salt, rows', i) && !LinkBroken(rows', i);
      OneFlagged(h, salt, rows', i);
      OnlyEntry(h, salt, rows', i, [CurrentHashMismatch]);
    }
  }

  /** A replaced previous hash: the report lists that row only, for its link if there is a row before it, and for its
      hash, or the two payloads collide. */
  lemma TamperedPreviousHashReported(h: HashFunction, salt: string, rows: seq<Record>, i: nat, forged: string)
    requires Accepted(h, salt, rows) && i < |rows| && forged != rows[i].previousHash
    ensures var row := rows[i].(previousHash := forged);
            || ListsOnly(ReportOf(h, salt, rows[i := row]), row,
                         (if i > 0 then [PreviousHashMismatch] else []) + [CurrentHashMismatch])
            || Collides(h, PayloadOf(salt, rows[i]), PayloadOf(salt, row))
  {
    var row := rows[i].(previousHash := forged);
    var rows' := rows[i := row];
    if !Collides(h, PayloadOf(salt, rows[i]), PayloadOf(salt, row)) {
      forall k: nat | k < |rows|
        ensures Flagged(h, salt, rows', k) <==> k == i
      {
        TamperedPreviousHash(h, salt, rows, i, forged, k);
      }
      assert !Flagged(h, salt, rows, i);
      OneFlagged(h, salt, rows', i);
      PreviousHashChangesPayload(salt, rows[i], row);
      OnlyEntry(h, salt, rows', i, (if i > 0 then [PreviousHashMismatch] else []) + [CurrentHashMismatch]);
    }
  }

  lemma PreviousHashChangesPayload(salt: string, r: Record, row: Record)
    requires row == r.(previousHash := row.previousHash) && row.previousHash != r.previousHash
    ensures PayloadOf(salt, row) != PayloadOf(salt, r)
  {
    if PayloadOf(salt, row) == PayloadOf(salt, r) {
      ChainPayloadOneField(row.previousHash, row.dataHash, r.previousHash, r.dataHash, row.sequenceNumber, salt);
    }
  }

  lemma InnerRemoval(h: HashFunction, salt: string, rows: seq<Record>, lo: nat, hi: nat)
    requires WellFormed(h, salt, rows) && 0 < lo < hi < |rows|
    requires !Collides(h, PayloadOf(salt, rows[lo - 1]), PayloadOf(salt, rows[hi - 1]))
    ensures ListsOnly(ReportOf(h, salt, Without(rows, lo, hi)), rows[hi], [PreviousHashMismatch])
  {
    var left := Without(rows, lo, hi);
    forall k: nat | k < |left|
      ensures Flagged(h, salt, left, k) <==> k == lo
    {
      RemovalIsFlagged(h, salt, rows, lo, hi, k);
    }
    OneFlagged(h, salt, left, lo);
    assert left[lo] == rows[hi] && !Flagged(h, salt, rows, hi);
    assert Flagged(h, salt, left, lo) && !HashBroken(h, salt, left[lo]);
    OnlyEntry(h, salt, left, lo, [PreviousHashMismatch]);
  }

  lemma OuterRemoval(h: HashFunction, salt: string, rows: seq<Record>, lo: nat, hi: nat)
    requires WellFormed(h, salt, rows) && lo < hi <= |rows| && (lo == 0 || hi == |rows|)
    ensures Accepted(h, salt, Without(rows, lo, hi))
  {
    forall k: nat | k < |Without(rows, lo, hi)|
      ensures !Flagged(h, salt, Without(rows, lo, hi), k)
    {
      RemovalIsFlagged(h, salt, rows, lo, hi, k);
    }
  }

  /** Rows `lo..hi` removed from a well-formed chain: the report lists the row after the gap, for its link and nothing
      else, if rows are left on both sides, and otherwise nothing; or two payloads collide. */
  lemma RemovalReported(h: HashFunction, salt: string, rows: seq<Record>, lo: nat, hi: nat)
    requires WellFormed(h, salt, rows) && lo < hi <= |rows| && Without(rows, lo, hi) != []
    ensures var report := ReportOf(h, salt, Without(rows, lo, hi));
            if 0 < lo && hi < |rows|
            then ListsOnly(report, rows[hi], [PreviousHashMismatch])
                 || Collides(h, PayloadOf(salt, rows[lo - 1]), PayloadOf(salt, rows[hi - 1]))
            else report.tamperedEntries == [] && report.verified
  {
    if 0 < lo && hi < |rows| {
      if !Collides(h, PayloadOf(salt, rows[lo - 1]), PayloadOf(salt, rows[hi - 1])) {
        InnerRemoval(h, salt, rows, lo, hi);
      }
    } else {
      OuterRemoval(h, salt, rows, lo, hi);
      NoneFlagged(h, salt, Without(rows, lo, hi));
    }
  }
}

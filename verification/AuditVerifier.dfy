/** The second verifier: per-entry checks, the scan over all entries, the summary, and the tamper report. */
module AuditVerifier {
  import opened Hashing
  import opened HashChain
  import opened ChainBinding
  import opened Selections
  import opened Sequences

  datatype Checks = Checks(dataHashValid: bool, chainHashValid: bool, previousHashValid: bool) {
    predicate AllValid() {
      dataHashValid && chainHashValid && previousHashValid
    }
  }

  datatype VerificationResult = EntryNotFound | Verified(checks: Checks) {
    predicate Tampered() {
      EntryNotFound? || !checks.AllValid()
    }
  }

  datatype TamperedEntry = TamperedEntry(auditId: string, sequenceNumber: int, result: VerificationResult)

  datatype Summary = Summary(totalEntries: int, verifiedEntries: nat, tamperedEntries: nat, chainValid: bool)

  datatype AnomalyType = Unknown | ChainHashMismatch | DataTampering | ChainLinkBroken

  datatype Anomaly = Anomaly(auditId: string, sequenceNumber: int, anomalyType: AnomalyType, critical: bool)

  datatype ScanReport = ScanReport(
    tamperedCount: nat, tamperedEntries: seq<TamperedEntry>, summary: Summary, anomalies: seq<Anomaly>)

  // ---------------------------------------------------------------------------------------------
  // Specification
  // ---------------------------------------------------------------------------------------------

  /** The three checks on a record `r` of the store. */
  function ChecksOf(h: HashFunction, salt: string, entries: seq<Record>, r: Record): Checks {
    var predecessors := InRange(entries, r.sequenceNumber - 1, r.sequenceNumber - 1);
    Checks(h(StoredText(r.payload)) == r.dataHash,
           !HashBroken(h, salt, r),
           r.sequenceNumber > 1 && predecessors != [] ==> r.previousHash == predecessors[0].currentHash)
  }

  function ResultOf(h: HashFunction, salt: string, entries: seq<Record>, auditId: string)
    : VerificationResult
  {
    var i := IndexOf(entries, auditId);
    if i == |entries| then EntryNotFound else Verified(ChecksOf(h, salt, entries, entries[i]))
  }

  /** The store after verifying one id: the outcome is written to that record's flag. */
  function AfterVerify(h: HashFunction, salt: string, entries: seq<Record>, auditId: string): seq<Record> {
    Marked(entries, auditId, !ResultOf(h, salt, entries, auditId).Tampered())
  }

  /** The scan over sequence numbers `seqNo..total`: what it lists and the store it leaves. */
  function Scan(h: HashFunction, salt: string, entries: seq<Record>, seqNo: int, total: int)
    : (seq<TamperedEntry>, seq<Record>)
    decreases total - seqNo
  {
    if seqNo > total then ([], entries)
    else
      var found := InRange(entries, seqNo, seqNo);
      if found == [] then Scan(h, salt, entries, seqNo + 1, total)
      else
        var result := ResultOf(h, salt, entries, found[0].auditId);
        var rest := Scan(h, salt, AfterVerify(h, salt, entries, found[0].auditId), seqNo + 1, total);
        if result.Tampered() then ([TamperedEntry(found[0].auditId, seqNo, result)] + rest.0, rest.1) else rest
  }

  /** What is listed so far and what the rest of the scan adds make up the whole scan. */
  ghost predicate Remaining(h: HashFunction, salt: string, entries: seq<Record>, seqNo: int, total: int,
                            listed: seq<TamperedEntry>, whole: (seq<TamperedEntry>, seq<Record>))
  {
    var rest := Scan(h, salt, entries, seqNo, total);
    listed + rest.0 == whole.0 && rest.1 == whole.1
  }

  /** How many of the sequence numbers `1..n` have a record marked verified. */
  function VerifiedCount(entries: seq<Record>, n: int): (count: nat)
    ensures n >= 0 ==> count <= n
  {
    if n <= 0 then 0
    else
      var found := InRange(entries, n, n);
      VerifiedCount(entries, n - 1) + if found != [] && found[0].verified then 1 else 0
  }

  function Classify(t: TamperedEntry): Anomaly {
    match t.result
    case EntryNotFound => Anomaly(t.auditId, t.sequenceNumber, Unknown, false)
    case Verified(c) =>
      if !c.chainHashValid then Anomaly(t.auditId, t.sequenceNumber, ChainHashMismatch, true)
      else if !c.dataHashValid then Anomaly(t.auditId, t.sequenceNumber, DataTampering, true)
      else if !c.previousHashValid then Anomaly(t.auditId, t.sequenceNumber, ChainLinkBroken, true)
      else Anomaly(t.auditId, t.sequenceNumber, Unknown, false)
  }

  // ---------------------------------------------------------------------------------------------
  // The verifier
  // ---------------------------------------------------------------------------------------------

  class Verifier {
    const chain: HashChainManager

    constructor (chain: HashChainManager)
      ensures this.chain == chain
    {
      this.chain := chain;
    }

    method VerifyEntry(auditId: string) returns (result: VerificationResult)
      modifies chain.store`entries
      ensures result == ResultOf(chain.h, chain.salt, old(chain.store.entries), auditId)
      ensures chain.store.entries == AfterVerify(chain.h, chain.salt, old(chain.store.entries), auditId)
    {
      var i := chain.store.FindByAuditId(auditId);
      if i == |chain.store.entries| {
        return EntryNotFound;
      }
      var record := chain.store.entries[i];
      var dataHashValid := chain.h(StoredText(record.payload)) == record.dataHash;
      var computed: string :=
        ComputeChainHash(chain.h, record.previousHash, record.dataHash, chain.salt, record.sequenceNumber);
      var chainHashValid := computed == record.currentHash;
      var previousHashValid := true;
      if record.sequenceNumber > 1 {
        var predecessors := chain.store.FetchEntries(record.sequenceNumber - 1, record.sequenceNumber - 1);
        if predecessors != [] {
          previousHashValid := record.previousHash == predecessors[0].currentHash;
        }
      }
      result := Verified(Checks(dataHashValid, chainHashValid, previousHashValid));
      var _ := chain.store.UpdateVerified(auditId, result.checks.AllValid());
    }

    method DetectTampering() returns (tampered: seq<TamperedEntry>)
      modifies chain.store`entries
      ensures var total := chain.store.chainState.total;
              (tampered, chain.store.entries) == Scan(chain.h, chain.salt, old(chain.store.entries), 1, total)
    {
      tampered := [];
      var total := chain.store.chainState.total;
      if total == 0 {
        return;
      }
      var seqNo := 1;
      ghost var whole := Scan(chain.h, chain.salt, chain.store.entries, 1, total);
      while seqNo <= total
        invariant Remaining(chain.h, chain.salt, chain.store.entries, seqNo, total, tampered, whole)
        decreases total - seqNo
      {
        tampered := ScanOne(seqNo, total, tampered, whole);
        seqNo := seqNo + 1;
      }
      assert tampered + [] == tampered;
    }

    /** One turn of that loop. */
    method ScanOne(seqNo: int, ghost total: int, tampered: seq<TamperedEntry>,
                   ghost whole: (seq<TamperedEntry>, seq<Record>))
      returns (tampered': seq<TamperedEntry>)
      requires seqNo <= total && Remaining(chain.h, chain.salt, chain.store.entries, seqNo, total, tampered, whole)
      modifies chain.store`entries
      ensures Remaining(chain.h, chain.salt, chain.store.entries, seqNo + 1, total, tampered', whole)
    {
      tampered' := tampered;
      var found := chain.store.FetchEntries(seqNo, seqNo);
      if found != [] {
        var entry := found[0];
        var result := VerifyEntry(entry.auditId);
        if result.Tampered() {
          Reassociate(tampered, [TamperedEntry(entry.auditId, seqNo, result)],
                      Scan(chain.h, chain.salt, chain.store.entries, seqNo + 1, total).0);
          tampered' := tampered + [TamperedEntry(entry.auditId, seqNo, result)];
        }
      }
    }

    method GetVerificationSummary() returns (summary: Summary)
      requires chain.store.chainState.total >= 0
      ensures summary == SummaryOf(chain.h, chain.salt, chain.store.entries, chain.store.chainState.total)
    {
      var total := chain.store.chainState.total;
      var verification := chain.VerifyWholeChain();
      var verified, tampered := CountMarks(total);
      summary := Summary(total, verified, tampered, verification.NothingToVerify? || verification.verified);
    }

    method CountMarks(total: nat) returns (verified: nat, tampered: nat)
      ensures verified == VerifiedCount(chain.store.entries, total) && verified + tampered == total
    {
      verified, tampered := 0, 0;
      for seqNo := 1 to total + 1
        invariant verified == VerifiedCount(chain.store.entries, seqNo - 1)
        invariant verified + tampered == seqNo - 1
      {
        var found := chain.store.FetchEntries(seqNo, seqNo);
        CountStep(chain.store.entries, seqNo);
        if found != [] && found[0].verified {
          verified := verified + 1;
        } else {
          tampered := tampered + 1;
        }
      }
    }
  }

  lemma CountStep(entries: seq<Record>, n: nat)
    requires n > 0
    ensures var found := InRange(entries, n, n);
            VerifiedCount(entries, n)
            == VerifiedCount(entries, n - 1) + if found != [] && found[0].verified then 1 else 0
  {
  }

  function SummaryOf(h: HashFunction, salt: string, entries: seq<Record>, total: int): Summary
    requires total >= 0
  {
    var report := if total == 0 then NothingToVerify else ReportOf(h, salt, InRange(entries, 1, total));
    Summary(total, VerifiedCount(entries, total), total - VerifiedCount(entries, total),
            report.NothingToVerify? || report.verified)
  }

  class TamperDetector {
    const verifier: Verifier
    var anomalies: seq<Anomaly>

    constructor (verifier: Verifier)
      ensures this.verifier == verifier && anomalies == []
    {
      this.verifier := verifier;
      anomalies := [];
    }

    /** One full scan. The store keeps its hash fields; only the `verified` flags change. */
    method RunScan() returns (report: ScanReport)
      requires verifier.chain.store.chainState.total >= 0
      modifies this`anomalies, verifier.chain.store`entries
      ensures var chain := verifier.chain;
              var total := chain.store.chainState.total;
              && (report.tamperedEntries, chain.store.entries)
                 == Scan(chain.h, chain.salt, old(chain.store.entries), 1, total)
              && report.tamperedCount == |report.tamperedEntries|
              && report.summary == SummaryOf(chain.h, chain.salt, chain.store.entries, total)
      ensures anomalies == report.anomalies
      ensures |anomalies| == |report.tamperedEntries|
      ensures forall i | 0 <= i < |anomalies| :: anomalies[i] == Classify(report.tamperedEntries[i])
    {
      var tampered := verifier.DetectTampering();
      var summary := verifier.GetVerificationSummary();
      var found := ClassifyAnomalies(tampered);
      report := ScanReport(|tampered|, tampered, summary, found);
      anomalies := found;
    }
  }

  method ClassifyAnomalies(tampered: seq<TamperedEntry>) returns (anomalies: seq<Anomaly>)
    ensures |anomalies| == |tampered|
    ensures forall i | 0 <= i < |tampered| :: anomalies[i] == Classify(tampered[i])
  {
    anomalies := [];
    for i := 0 to |tampered|
      invariant |anomalies| == i
      invariant forall k | 0 <= k < i :: anomalies[k] == Classify(tampered[k])
    {
      var entry := tampered[i];
      var kind, critical := Unknown, false;
      if entry.result.Verified? {
        var details := entry.result.checks;
        if !details.chainHashValid {
          kind, critical := ChainHashMismatch, true;
        } else if !details.dataHashValid {
          kind, critical := DataTampering, true;
        } else if !details.previousHashValid {
          kind, critical := ChainLinkBroken, true;
        }
      }
      anomalies := anomalies + [Anomaly(entry.auditId, entry.sequenceNumber, kind, critical)];
    }
  }

  // ---------------------------------------------------------------------------------------------
  // The scan over ascending sequence numbers
  // ---------------------------------------------------------------------------------------------

  ghost predicate UniqueIds(entries: seq<Record>) {
    forall i, j | 0 <= i < j < |entries| :: entries[i].auditId != entries[j].auditId
  }

  /** In the order of their numbers; rows may have been removed. */
  ghost predicate Ascending(entries: seq<Record>) {
    forall i, j | 0 <= i < j < |entries| :: entries[i].sequenceNumber < entries[j].sequenceNumber
  }

  ghost predicate NumbersWithin(entries: seq<Record>, total: int) {
    forall i | 0 <= i < |entries| :: 1 <= entries[i].sequenceNumber <= total
  }

  /** What the scan needs of a store: ids and numbers identify its rows. */
  ghost predicate Scannable(entries: seq<Record>, total: int) {
    Ascending(entries) && UniqueIds(entries) && NumbersWithin(entries, total)
  }

  lemma NumberedIsScannable(entries: seq<Record>)
    requires Numbered(entries) && UniqueIds(entries)
    ensures Scannable(entries, |entries|)
  {
  }

  /** Some check on row `i` fails. */
  predicate Failing(h: HashFunction, salt: string, entries: seq<Record>, i: nat)
    requires i < |entries|
  {
    !ChecksOf(h, salt, entries, entries[i]).AllValid()
  }

  /** The store with the flags of the first `n` records set to what the scan found. */
  function MarkedUpTo(h: HashFunction, salt: string, entries: seq<Record>, n: nat): seq<Record>
    requires n <= |entries|
  {
    seq(|entries|, i requires 0 <= i < |entries| =>
      if i < n then entries[i].(verified := !Failing(h, salt, entries, i)) else entries[i])
  }

  function EntryFor(h: HashFunction, salt: string, entries: seq<Record>, i: nat): TamperedEntry
    requires i < |entries|
  {
    TamperedEntry(entries[i].auditId, entries[i].sequenceNumber, Verified(ChecksOf(h, salt, entries, entries[i])))
  }

  /** The failing rows from index `n` on, in order. */
  function FailingFrom(h: HashFunction, salt: string, entries: seq<Record>, n: nat): seq<TamperedEntry>
    requires n <= |entries|
    decreases |entries| - n
  {
    if n == |entries| then []
    else
      var later := FailingFrom(h, salt, entries, n + 1);
      if Failing(h, salt, entries, n) then [EntryFor(h, salt, entries, n)] + later else later
  }

  lemma {:induction false} NumberMissing(entries: seq<Record>, seqNo: int)
    requires forall i | 0 <= i < |entries| :: entries[i].sequenceNumber != seqNo
    ensures InRange(entries, seqNo, seqNo) == []
  {
    if entries != [] {
      NumberMissing(entries[..|entries| - 1], seqNo);
    }
  }

  lemma {:induction false} NumberFound(entries: seq<Record>, i: nat)
    requires Ascending(entries) && i < |entries|
    ensures InRange(entries, entries[i].sequenceNumber, entries[i].sequenceNumber) == [entries[i]]
  {
    var last := |entries| - 1;
    if i < last {
      NumberFound(entries[..last], i);
    } else {
      NumberMissing(entries[..last], entries[i].sequenceNumber);
    }
  }

  /** The same rows, flags aside. */
  ghost predicate SameButFlags(entries: seq<Record>, marked: seq<Record>) {
    && |entries| == |marked|
    && forall i | 0 <= i < |entries| :: marked[i] == entries[i].(verified := marked[i].verified)
  }

  lemma MarkingSetsFlags(h: HashFunction, salt: string, entries: seq<Record>, n: nat)
    requires n <= |entries|
    ensures SameButFlags(entries, MarkedUpTo(h, salt, entries, n))
  {
  }

  /** Looking up a number finds the same row, flag aside. */
  lemma SameFound(entries: seq<Record>, marked: seq<Record>, seqNo: int)
    requires Ascending(entries) && SameButFlags(entries, marked)
    ensures SameButFlags(InRange(entries, seqNo, seqNo), InRange(marked, seqNo, seqNo))
  {
    if i: nat :| i < |entries| && entries[i].sequenceNumber == seqNo {
      NumberFound(entries, i);
      NumberFound(marked, i);
    } else {
      NumberMissing(entries, seqNo);
      NumberMissing(marked, seqNo);
    }
  }

  /** The flags do not influence the checks. */
  lemma FlagsAreNotChecked(h: HashFunction, salt: string, entries: seq<Record>, marked: seq<Record>, i: nat)
    requires Ascending(entries) && SameButFlags(entries, marked) && i < |entries|
    ensures ChecksOf(h, salt, marked, marked[i]) == ChecksOf(h, salt, entries, entries[i])
  {
    SameFound(entries, marked, entries[i].sequenceNumber - 1);
  }

  lemma IdFound(entries: seq<Record>, marked: seq<Record>, n: nat)
    requires UniqueIds(entries) && SameButFlags(entries, marked) && n < |entries|
    ensures IndexOf(marked, entries[n].auditId) == n
  {
    assert marked[n].auditId == entries[n].auditId;
    assert forall i | 0 <= i < n :: marked[i].auditId == entries[i].auditId != entries[n].auditId;
  }

  lemma ScanStep(h: HashFunction, salt: string, entries: seq<Record>, n: nat)
    requires Ascending(entries) && UniqueIds(entries) && n < |entries|
    ensures var marked := MarkedUpTo(h, salt, entries, n);
            && InRange(marked, entries[n].sequenceNumber, entries[n].sequenceNumber) == [entries[n]]
            && ResultOf(h, salt, marked, entries[n].auditId) == Verified(ChecksOf(h, salt, entries, entries[n]))
            && AfterVerify(h, salt, marked, entries[n].auditId) == MarkedUpTo(h, salt, entries, n + 1)
  {
    var marked := MarkedUpTo(h, salt, entries, n);
    MarkingSetsFlags(h, salt, entries, n);
    FlagsAreNotChecked(h, salt, entries, marked, n);
    NumberFound(marked, n);
    IdFound(entries, marked, n);
    var after := AfterVerify(h, salt, marked, entries[n].auditId);
    assert after == marked[n := marked[n].(verified := !Failing(h, salt, entries, n))];
    assert after == MarkedUpTo(h, salt, entries, n + 1);
  }

  /** The first `n` rows have smaller numbers, and the others do not. */
  ghost predicate Reached(entries: seq<Record>, n: nat, seqNo: int) {
    && n <= |entries|
    && (forall i | 0 <= i < n :: entries[i].sequenceNumber < seqNo)
    && (forall i | n <= i < |entries| :: seqNo <= entries[i].sequenceNumber)
  }

  /** Having come to the number `seqNo` and the row with index `n`. */
  ghost predicate At(entries: seq<Record>, total: int, n: nat, seqNo: int) {
    Scannable(entries, total) && Reached(entries, n, seqNo)
  }

  predicate RowHas(entries: seq<Record>, n: nat, seqNo: int) {
    n < |entries| && entries[n].sequenceNumber == seqNo
  }

  ghost predicate Missing(entries: seq<Record>, seqNo: int) {
    forall i: nat :: !RowHas(entries, i, seqNo)
  }

  lemma NumberIsMissing(entries: seq<Record>, seqNo: int)
    requires Missing(entries, seqNo)
    ensures InRange(entries, seqNo, seqNo) == []
  {
    forall i: nat | i < |entries|
      ensures entries[i].sequenceNumber != seqNo
    {
      assert !RowHas(entries, i, seqNo);
    }
    NumberMissing(entries, seqNo);
  }

  lemma NextRow(entries: seq<Record>, total: int, n: nat, seqNo: int)
    requires At(entries, total, n, seqNo) && RowHas(entries, n, seqNo)
    ensures At(entries, total, n + 1, seqNo + 1) && seqNo <= total
  {
  }

  lemma NextNumber(entries: seq<Record>, total: int, n: nat, seqNo: int)
    requires At(entries, total, n, seqNo) && !RowHas(entries, n, seqNo)
    ensures At(entries, total, n, seqNo + 1) && Missing(entries, seqNo)
  {
  }

  lemma AtRow(entries: seq<Record>, total: int, n: nat, seqNo: int)
    requires At(entries, total, n, seqNo)
    ensures n < |entries| ==> seqNo <= total
  {
    if n < |entries| {
      assert seqNo <= entries[n].sequenceNumber <= total;
    }
  }

  lemma AtEnd(entries: seq<Record>, total: int, n: nat, seqNo: int)
    requires At(entries, total, n, seqNo) && seqNo > total
    ensures n == |entries|
  {
    AtRow(entries, total, n, seqNo);
  }

  /** What holds at the end and, backwards, at every row and at every missing number. */
  ghost predicate HoldsBackward(entries: seq<Record>, total: int, p: (nat, int) -> bool) {
    && p(|entries|, total + 1)
    && (forall n: nat, seqNo: int | RowHas(entries, n, seqNo) && seqNo <= total && p(n + 1, seqNo + 1) :: p(n, seqNo))
    && (forall n: nat, seqNo: int | Missing(entries, seqNo) && seqNo <= total && p(n, seqNo + 1) :: p(n, seqNo))
  }

  lemma {:induction false} ByNumbers(entries: seq<Record>, total: int, p: (nat, int) -> bool, n: nat, seqNo: int)
    requires HoldsBackward(entries, total, p) && At(entries, total, n, seqNo) && seqNo <= total + 1
    ensures p(n, seqNo)
    decreases total - seqNo
  {
    if seqNo > total {
      AtEnd(entries, total, n, seqNo);
    } else if RowHas(entries, n, seqNo) {
      NextRow(entries, total, n, seqNo);
      ByNumbers(entries, total, p, n + 1, seqNo + 1);
    } else {
      NextNumber(entries, total, n, seqNo);
      ByNumbers(entries, total, p, n, seqNo + 1);
    }
  }

  /** Once the rows before index `n` are marked, the scan from `seqNo` on lists the other failing rows. */
  ghost predicate ScansRest(h: HashFunction, salt: string, entries: seq<Record>, total: int, n: nat, seqNo: int) {
    n <= |entries|
    && Scan(h, salt, MarkedUpTo(h, salt, entries, n), seqNo, total)
       == (FailingFrom(h, salt, entries, n), MarkedUpTo(h, salt, entries, |entries|))
  }

  lemma MarkedMissing(entries: seq<Record>, marked: seq<Record>, seqNo: int)
    requires SameButFlags(entries, marked) && Missing(entries, seqNo)
    ensures InRange(marked, seqNo, seqNo) == []
  {
    forall i: nat
      ensures !RowHas(marked, i, seqNo)
    {
      assert !RowHas(entries, i, seqNo);
    }
    NumberIsMissing(marked, seqNo);
  }

  lemma ScanSkip(h: HashFunction, salt: string, entries: seq<Record>, total: int, n: nat, seqNo: int)
    requires Missing(entries, seqNo) && seqNo <= total && ScansRest(h, salt, entries, total, n, seqNo + 1)
    ensures ScansRest(h, salt, entries, total, n, seqNo)
  {
    MarkingSetsFlags(h, salt, entries, n);
    MarkedMissing(entries, MarkedUpTo(h, salt, entries, n), seqNo);
  }

  lemma ScanRow(h: HashFunction, salt: string, entries: seq<Record>, total: int, n: nat, seqNo: int)
    requires Scannable(entries, total) && RowHas(entries, n, seqNo) && seqNo <= total
    requires ScansRest(h, salt, entries, total, n + 1, seqNo + 1)
    ensures ScansRest(h, salt, entries, total, n, seqNo)
  {
    ScanStep(h, salt, entries, n);
  }

  lemma ScansBackward(h: HashFunction, salt: string, entries: seq<Record>, total: int, p: (nat, int) -> bool)
    requires Scannable(entries, total)
    requires forall n, seqNo :: p(n, seqNo) <==> ScansRest(h, salt, entries, total, n, seqNo)
    ensures HoldsBackward(entries, total, p)
  {
    assert ScansRest(h, salt, entries, total, |entries|, total + 1);
    forall n: nat, seqNo: int | RowHas(entries, n, seqNo) && seqNo <= total && p(n + 1, seqNo + 1)
      ensures p(n, seqNo)
    {
      ScanRow(h, salt, entries, total, n, seqNo);
    }
    forall n: nat, seqNo: int | Missing(entries, seqNo) && seqNo <= total && p(n, seqNo + 1)
      ensures p(n, seqNo)
    {
      ScanSkip(h, salt, entries, total, n, seqNo);
    }
  }

  lemma ScanFromStart(h: HashFunction, salt: string, entries: seq<Record>, total: nat)
    requires Scannable(entries, total)
    ensures Scan(h, salt, entries, 1, total)
            == (FailingFrom(h, salt, entries, 0), MarkedUpTo(h, salt, entries, |entries|))
  {
    var p := (n: nat, seqNo: int) => ScansRest(h, salt, entries, total, n, seqNo);
    ScansBackward(h, salt, entries, total, p);
    ByNumbers(entries, total, p, 0, 1);
    assert MarkedUpTo(h, salt, entries, 0) == entries;
  }

  ghost predicate FailingEntry(h: HashFunction, salt: string, entries: seq<Record>, i: nat, t: TamperedEntry) {
    i < |entries| && Failing(h, salt, entries, i) && t == EntryFor(h, salt, entries, i)
  }

  ghost predicate FailingAfter(h: HashFunction, salt: string, entries: seq<Record>, n: nat, t: TamperedEntry) {
    exists i: nat :: n <= i && FailingEntry(h, salt, entries, i, t)
  }

  lemma FailingHere(h: HashFunction, salt: string, entries: seq<Record>, n: nat, t: TamperedEntry)
    ensures FailingAfter(h, salt, entries, n, t) <==>
            FailingEntry(h, salt, entries, n, t) || FailingAfter(h, salt, entries, n + 1, t)
  {
  }

  lemma FailingFirst(h: HashFunction, salt: string, entries: seq<Record>, n: nat, t: TamperedEntry)
    requires n < |entries|
    ensures t in FailingFrom(h, salt, entries, n) <==>
            FailingEntry(h, salt, entries, n, t) || t in FailingFrom(h, salt, entries, n + 1)
  {
  }

  /** The scan's list consists of the entries for the failing rows. */
  lemma {:induction false} FailingEntries(h: HashFunction, salt: string, entries: seq<Record>, n: nat, t: TamperedEntry)
    requires n <= |entries|
    ensures t in FailingFrom(h, salt, entries, n) <==> FailingAfter(h, salt, entries, n, t)
    decreases |entries| - n
  {
    if n < |entries| {
      FailingEntries(h, salt, entries, n + 1, t);
      FailingFirst(h, salt, entries, n, t);
      FailingHere(h, salt, entries, n, t);
    }
  }

  lemma MarkedFlag(h: HashFunction, salt: string, entries: seq<Record>, i: nat)
    requires Ascending(entries) && i < |entries|
    ensures var seqNo, marked := entries[i].sequenceNumber, MarkedUpTo(h, salt, entries, |entries|);
            InRange(marked, seqNo, seqNo) == [entries[i].(verified := !Failing(h, salt, entries, i))]
  {
    var marked := MarkedUpTo(h, salt, entries, |entries|);
    MarkingSetsFlags(h, salt, entries, |entries|);
    NumberFound(marked, i);
  }

  lemma FailingStep(h: HashFunction, salt: string, entries: seq<Record>, n: nat)
    requires n < |entries|
    ensures |FailingFrom(h, salt, entries, n)|
            == |FailingFrom(h, salt, entries, n + 1)| + if Failing(h, salt, entries, n) then 1 else 0
  {
  }

  /** Among the numbers from `seqNo` on those of the rows from index `n` on that do not fail count as verified. */
  ghost predicate CountsRest(h: HashFunction, salt: string, entries: seq<Record>, total: int, n: nat, seqNo: int) {
    n <= |entries|
    && var marked := MarkedUpTo(h, salt, entries, |entries|);
       VerifiedCount(marked, total) - VerifiedCount(marked, seqNo - 1)
       == |entries| - n - |FailingFrom(h, salt, entries, n)|
  }

  lemma CountRow(h: HashFunction, salt: string, entries: seq<Record>, total: int, n: nat, seqNo: int)
    requires Scannable(entries, total) && RowHas(entries, n, seqNo)
    requires CountsRest(h, salt, entries, total, n + 1, seqNo + 1)
    ensures CountsRest(h, salt, entries, total, n, seqNo)
  {
    CountStep(MarkedUpTo(h, salt, entries, |entries|), seqNo);
    MarkedFlag(h, salt, entries, n);
    FailingStep(h, salt, entries, n);
  }

  lemma CountSkip(h: HashFunction, salt: string, entries: seq<Record>, total: int, n: nat, seqNo: int)
    requires Missing(entries, seqNo) && CountsRest(h, salt, entries, total, n, seqNo + 1)
    ensures CountsRest(h, salt, entries, total, n, seqNo)
  {
    MarkingSetsFlags(h, salt, entries, |entries|);
    MarkedMissing(entries, MarkedUpTo(h, salt, entries, |entries|), seqNo);
  }

  lemma CountsBackward(h: HashFunction, salt: string, entries: seq<Record>, total: int, p: (nat, int) -> bool)
    requires Scannable(entries, total)
    requires forall n, seqNo :: p(n, seqNo) <==> CountsRest(h, salt, entries, total, n, seqNo)
    ensures HoldsBackward(entries, total, p)
  {
    assert CountsRest(h, salt, entries, total, |entries|, total + 1);
    forall n: nat, seqNo: int | RowHas(entries, n, seqNo) && seqNo <= total && p(n + 1, seqNo + 1)
      ensures p(n, seqNo)
    {
      CountRow(h, salt, entries, total, n, seqNo);
    }
    forall n: nat, seqNo: int | Missing(entries, seqNo) && seqNo <= total && p(n, seqNo + 1)
      ensures p(n, seqNo)
    {
      CountSkip(h, salt, entries, total, n, seqNo);
    }
  }

  lemma CountsMatch(h: HashFunction, salt: string, entries: seq<Record>, total: nat)
    requires Scannable(entries, total)
    ensures VerifiedCount(MarkedUpTo(h, salt, entries, |entries|), total)
            == |entries| - |FailingFrom(h, salt, entries, 0)|
  {
    var p := (n: nat, seqNo: int) => CountsRest(h, salt, entries, total, n, seqNo);
    CountsBackward(h, salt, entries, total, p);
    ByNumbers(entries, total, p, 0, 1);
  }

  /** On every store with unique ids and ascending numbers within `1..total`, whatever has been tampered with or
      removed: the scan lists exactly the rows with a failing check, marks the others verified, and the summary
      after it counts the listed rows and the missing numbers as tampered. */
  lemma ScanExact(h: HashFunction, salt: string, entries: seq<Record>, total: nat, t: TamperedEntry)
    requires Scannable(entries, total)
    ensures var (tampered, after) := Scan(h, salt, entries, 1, total);
            && (t in tampered <==> exists i: nat :: FailingEntry(h, salt, entries, i, t))
            && after == MarkedUpTo(h, salt, entries, |entries|)
            && SummaryOf(h, salt, after, total).tamperedEntries == |tampered| + (total - |entries|)
  {
    ScanFromStart(h, salt, entries, total);
    FailingEntries(h, salt, entries, 0, t);
    CountsMatch(h, salt, entries, total);
  }

  /** What the checks say about row `i` of a store with ascending numbers: whether its rebuilt text has the data hash,
      whether its fields have the current hash, and whether its previous hash is the current hash of the row numbered
      just before it, if there is one. */
  ghost predicate ChecksTell(h: HashFunction, salt: string, entries: seq<Record>, i: nat, checks: Checks) {
    && i < |entries|
    && var r := entries[i];
       && (checks.dataHashValid <==> h(StoredText(r.payload)) == r.dataHash)
       && (checks.chainHashValid <==>
             h(ChainPayload(r.previousHash, r.dataHash, salt, r.sequenceNumber)) == r.currentHash)
       && (checks.previousHashValid <==>
             forall j: nat | j < |entries| && r.sequenceNumber > 1
                             && entries[j].sequenceNumber == r.sequenceNumber - 1 ::
               r.previousHash == entries[j].currentHash)
  }

  lemma ChecksExact(h: HashFunction, salt: string, entries: seq<Record>, i: nat)
    requires Ascending(entries) && i < |entries|
    ensures ChecksTell(h, salt, entries, i, ChecksOf(h, salt, entries, entries[i]))
  {
    var before := entries[i].sequenceNumber - 1;
    if j: nat :| j < |entries| && entries[j].sequenceNumber == before {
      NumberFound(entries, j);
    } else {
      NumberMissing(entries, before);
    }
  }

  ghost function SomeCheckFails(h: HashFunction, salt: string, entries: seq<Record>): nat -> bool {
    (i: nat) => exists checks :: ChecksTell(h, salt, entries, i, checks) && !checks.AllValid()
  }

  /** The entry of the scan's list for row `i`. */
  ghost predicate ListsRow(h: HashFunction, salt: string, entries: seq<Record>, i: nat, t: TamperedEntry) {
    && i < |entries| && t.auditId == entries[i].auditId && t.sequenceNumber == entries[i].sequenceNumber
    && t.result.Verified? && ChecksTell(h, salt, entries, i, t.result.checks)
  }

  ghost function ListsRowOf(h: HashFunction, salt: string, entries: seq<Record>): (nat, TamperedEntry) -> bool {
    (i: nat, t: TamperedEntry) => ListsRow(h, salt, entries, i, t)
  }

  lemma FailingExact(h: HashFunction, salt: string, entries: seq<Record>, i: nat)
    requires Ascending(entries) && i < |entries|
    ensures SomeCheckFails(h, salt, entries)(i) == Failing(h, salt, entries, i)
    ensures ListsRow(h, salt, entries, i, EntryFor(h, salt, entries, i))
  {
    ChecksExact(h, salt, entries, i);
    var own := ChecksOf(h, salt, entries, entries[i]);
    forall checks | ChecksTell(h, salt, entries, i, checks)
      ensures checks == own
    {
    }
  }

  /** The failing rows among the first `n`, in order. */
  function FailingUpTo(h: HashFunction, salt: string, entries: seq<Record>, n: nat): seq<TamperedEntry>
    requires n <= |entries|
  {
    if n == 0 then []
    else
      var earlier := FailingUpTo(h, salt, entries, n - 1);
      if Failing(h, salt, entries, n - 1) then earlier + [EntryFor(h, salt, entries, n - 1)] else earlier
  }

  /** The failing rows split at `n`. */
  ghost predicate FailingSplit(h: HashFunction, salt: string, entries: seq<Record>, n: nat) {
    n <= |entries|
    && FailingUpTo(h, salt, entries, n) + FailingFrom(h, salt, entries, n) == FailingFrom(h, salt, entries, 0)
  }

  lemma FailingSplitNext(h: HashFunction, salt: string, entries: seq<Record>, n: nat)
    requires n < |entries| && FailingSplit(h, salt, entries, n)
    ensures FailingSplit(h, salt, entries, n + 1)
  {
    Reassociate(FailingUpTo(h, salt, entries, n), [EntryFor(h, salt, entries, n)],
                FailingFrom(h, salt, entries, n + 1));
  }

  lemma NothingSplit(h: HashFunction, salt: string, entries: seq<Record>)
    ensures FailingSplit(h, salt, entries, 0)
  {
    EmptyHead(FailingFrom(h, salt, entries, 0));
  }

  lemma FailingSplits(h: HashFunction, salt: string, entries: seq<Record>)
    ensures FailingSplit(h, salt, entries, |entries|)
  {
    var p := (n: nat) => FailingSplit(h, salt, entries, n);
    NothingSplit(h, salt, entries);
    forall n: nat | n < |entries| && p(n)
      ensures p(n + 1)
    {
      FailingSplitNext(h, salt, entries, n);
    }
    StepByStep(p, |entries|);
  }

  /** The list of the failing rows among the first `n`. */
  ghost predicate FailingListed(h: HashFunction, salt: string, entries: seq<Record>, n: nat) {
    n <= |entries|
    && Lists(n, SomeCheckFails(h, salt, entries), FailingUpTo(h, salt, entries, n), ListsRowOf(h, salt, entries))
  }

  lemma FailingListedNext(h: HashFunction, salt: string, entries: seq<Record>, n: nat)
    requires Ascending(entries) && n < |entries| && FailingListed(h, salt, entries, n)
    ensures FailingListed(h, salt, entries, n + 1)
  {
    FailingExact(h, salt, entries, n);
    ListsNext(n, SomeCheckFails(h, salt, entries), FailingUpTo(h, salt, entries, n), ListsRowOf(h, salt, entries),
              EntryFor(h, salt, entries, n));
  }

  lemma FailingList(h: HashFunction, salt: string, entries: seq<Record>)
    requires Ascending(entries)
    ensures FailingListed(h, salt, entries, |entries|)
  {
    var p := (n: nat) => FailingListed(h, salt, entries, n);
    ListsNone(SomeCheckFails(h, salt, entries), ListsRowOf(h, salt, entries));
    forall n: nat | n < |entries| && p(n)
      ensures p(n + 1)
    {
      FailingListedNext(h, salt, entries, n);
    }
    StepByStep(p, |entries|);
  }

  /** The scan's list: one entry for exactly each row with a failing check, in order, with the row's id and number and
      what each of its checks found. */
  lemma ScanInOrder(h: HashFunction, salt: string, entries: seq<Record>, total: nat)
    requires Scannable(entries, total)
    ensures Lists(|entries|, SomeCheckFails(h, salt, entries), Scan(h, salt, entries, 1, total).0,
                  ListsRowOf(h, salt, entries))
  {
    ScanFromStart(h, salt, entries, total);
    FailingList(h, salt, entries);
    FailingSplits(h, salt, entries);
    var listed := FailingUpTo(h, salt, entries, |entries|);
    assert listed + [] == listed;
  }

  // ---------------------------------------------------------------------------------------------
  // The two verifiers agree
  // ---------------------------------------------------------------------------------------------

  /** On a numbered store the link check is that of the walk. */
  lemma LinkCheck(h: HashFunction, salt: string, entries: seq<Record>, i: nat)
    requires Numbered(entries) && i < |entries|
    ensures ChecksOf(h, salt, entries, entries[i]).previousHashValid <==> !LinkBroken(entries, i)
  {
    if i > 0 {
      RangeOfNumbered(entries, i, i);
    }
  }

  /** Flagged by the walk, or the data hash no longer matches the record. */
  predicate Suspect(h: HashFunction, salt: string, entries: seq<Record>, i: nat)
    requires i < |entries|
  {
    Flagged(h, salt, entries, i) || h(StoredText(entries[i].payload)) != entries[i].dataHash
  }

  /** On a numbered store the per-entry checks fail exactly on the suspects. */
  lemma ChecksAreSuspicion(h: HashFunction, salt: string, entries: seq<Record>, i: nat)
    requires Numbered(entries) && i < |entries|
    ensures Failing(h, salt, entries, i) <==> Suspect(h, salt, entries, i)
  {
    LinkCheck(h, salt, entries, i);
  }

  lemma ListedIsFailing(h: HashFunction, salt: string, entries: seq<Record>, i: nat, t: TamperedEntry)
    requires Numbered(entries) && UniqueIds(entries) && i < |entries|
    requires t in Scan(h, salt, entries, 1, |entries|).0 && t.sequenceNumber == i + 1
    ensures FailingEntry(h, salt, entries, i, t)
  {
    NumberedIsScannable(entries);
    ScanExact(h, salt, entries, |entries|, t);
    var k: nat :| FailingEntry(h, salt, entries, k, t);
    assert k == i;
  }

  /** On a store with unique ids and sequence numbers 1, 2, ..., whatever else has been tampered with, the
      scan lists exactly the rows that the chain walk flags together with those whose data hash no longer
      matches the record, and it marks every other row verified. */
  lemma VerifiersAgree(h: HashFunction, salt: string, entries: seq<Record>, i: nat)
    requires Numbered(entries) && UniqueIds(entries) && i < |entries|
    ensures var (tampered, after) := Scan(h, salt, entries, 1, |entries|);
            && InRange(entries, 1, |entries|) == entries
            && ((exists t :: t in tampered && t.sequenceNumber == i + 1) <==>
                Flagged(h, salt, entries, i) || h(StoredText(entries[i].payload)) != entries[i].dataHash)
            && |after| == |entries|
            && after[i] == entries[i].(verified := !Suspect(h, salt, entries, i))
  {
    var t := EntryFor(h, salt, entries, i);
    NumberedIsScannable(entries);
    ScanExact(h, salt, entries, |entries|, t);
    assert FailingEntry(h, salt, entries, i, t) <==> Failing(h, salt, entries, i);
    ChecksAreSuspicion(h, salt, entries, i);
    if u :| u in Scan(h, salt, entries, 1, |entries|).0 && u.sequenceNumber == i + 1 {
      ListedIsFailing(h, salt, entries, i, u);
    }
    RangeOfNumbered(entries, 1, |entries|);
  }

  /** The scan's count equals the summary's. */
  lemma ScanCountIsSummaryCount(h: HashFunction, salt: string, entries: seq<Record>)
    requires Numbered(entries) && UniqueIds(entries)
    ensures var (tampered, after) := Scan(h, salt, entries, 1, |entries|);
            SummaryOf(h, salt, after, |entries|).tamperedEntries == |tampered|
  {
    NumberedIsScannable(entries);
    ScanFromStart(h, salt, entries, |entries|);
    CountsMatch(h, salt, entries, |entries|);
  }

  /** Some entry of the scan's list is for the row with this sequence number. */
  ghost predicate Listed(h: HashFunction, salt: string, entries: seq<Record>, seqNo: int) {
    exists t :: t in Scan(h, salt, entries, 1, |entries|).0 && t.sequenceNumber == seqNo
  }

  /** Recomputation matches: on a store that nobody tampered with the scan lists nothing. */
  lemma CleanScanListsNothing(h: HashFunction, salt: string, entries: seq<Record>, i: nat)
    requires WellFormed(h, salt, entries) && UniqueIds(entries) && i < |entries|
    ensures !Listed(h, salt, entries, i + 1)
  {
    VerifiersAgree(h, salt, entries, i);
    EncoderMatters(entries[i].payload, ISO_ENCODER);
    assert !Flagged(h, salt, entries, i);
  }

  /** Without the registered encoder the data check would fail on every untampered row whose time is in UTC, as the
      logger stamps all of them, and only on those, unless the two texts collide. */
  lemma CheckWithoutEncoder(h: HashFunction, salt: string, entries: seq<Record>, i: nat)
    requires WellFormed(h, salt, entries) && i < |entries|
    ensures var d := entries[i].payload;
            || (h(TextOf(d, false)) != entries[i].dataHash <==> d.zone.Utc?)
            || Collides(h, HashedText(d), TextOf(d, false))
  {
    EncoderMatters(entries[i].payload, false);
  }

  /** Whatever one record's data is changed to in a store that nobody else tampered with: that record is listed
      exactly if its rebuilt text has changed, unless the old and the new text collide, and no other record is.
      The chain walk alone notices none of this. */
  lemma TamperedDataIsScanned(h: HashFunction, salt: string, entries: seq<Record>, i: nat, forged: AuditData, k: nat)
    requires WellFormed(h, salt, entries) && UniqueIds(entries) && i < |entries| && k < |entries|
    ensures var original, changed := HashedText(entries[i].payload), StoredText(forged);
            var listed := Listed(h, salt, entries[i := entries[i].(payload := forged)], k + 1);
            (listed <==> k == i && changed != original) || (k == i && Collides(h, original, changed))
  {
    var tamperedStore := entries[i := entries[i].(payload := forged)];
    VerifiersAgree(h, salt, tamperedStore, k);
    TamperedDataIsNotWalked(h, salt, entries, i, forged, k);
    EncoderMatters(entries[k].payload, ISO_ENCODER);
    assert !Flagged(h, salt, entries, k);
  }

  // ---------------------------------------------------------------------------------------------
  // What the anomalies say
  // ---------------------------------------------------------------------------------------------

  lemma ClassifiedType(h: HashFunction, salt: string, entries: seq<Record>, i: nat)
    requires Numbered(entries) && i < |entries| && Failing(h, salt, entries, i)
    ensures Classify(EntryFor(h, salt, entries, i))
            == Anomaly(entries[i].auditId, i + 1, FirstFailure(h, salt, entries, i), true)
  {
    LinkCheck(h, salt, entries, i);
  }

  /** What is wrong with a row: its own chain hash, else its data, else the link to the row before. */
  function FirstFailure(h: HashFunction, salt: string, entries: seq<Record>, i: nat): AnomalyType
    requires i < |entries|
  {
    if HashBroken(h, salt, entries[i]) then ChainHashMismatch
    else if h(StoredText(entries[i].payload)) != entries[i].dataHash then DataTampering
    else if LinkBroken(entries, i) then ChainLinkBroken
    else Unknown
  }

  /** The anomalies of a scan on a numbered store with unique ids: one, and critical, for exactly each row with
      something wrong, typed by the first thing that is wrong with it; none is of unknown type. */
  lemma AnomaliesExact(h: HashFunction, salt: string, entries: seq<Record>, i: nat, a: Anomaly)
    requires Numbered(entries) && UniqueIds(entries) && i < |entries| && a.sequenceNumber == i + 1
    ensures (exists t :: t in Scan(h, salt, entries, 1, |entries|).0 && Classify(t) == a) <==>
            FirstFailure(h, salt, entries, i) != Unknown
            && a == Anomaly(entries[i].auditId, i + 1, FirstFailure(h, salt, entries, i), true)
  {
    var found := Scan(h, salt, entries, 1, |entries|).0;
    var t := EntryFor(h, salt, entries, i);
    NumberedIsScannable(entries);
    ScanExact(h, salt, entries, |entries|, t);
    assert FailingEntry(h, salt, entries, i, t) <==> Failing(h, salt, entries, i);
    ChecksAreSuspicion(h, salt, entries, i);
    if Failing(h, salt, entries, i) {
      ClassifiedType(h, salt, entries, i);
    }
    if u :| u in found && Classify(u) == a {
      ClassifyKeepsNumber(u);
      ListedIsFailing(h, salt, entries, i, u);
    }
  }

  lemma ClassifyKeepsNumber(t: TamperedEntry)
    ensures Classify(t).sequenceNumber == t.sequenceNumber
  {
  }

  // ---------------------------------------------------------------------------------------------
  // Removed rows
  // ---------------------------------------------------------------------------------------------

  lemma RemovalKeepsScannable(rows: seq<Record>, lo: nat, hi: nat)
    requires Numbered(rows) && UniqueIds(rows) && lo <= hi <= |rows|
    ensures Scannable(Without(rows, lo, hi), |rows|)
  {
  }

  /** Where the row at `k` was before the removal. */
  function Before(lo: nat, hi: nat, k: nat): nat
    requires lo <= hi
  {
    if k < lo then k else k + (hi - lo)
  }

  lemma LeftRow(rows: seq<Record>, lo: nat, hi: nat, k: nat)
    requires lo <= hi <= |rows| && k < |rows| - (hi - lo)
    ensures Before(lo, hi, k) < |rows| && Without(rows, lo, hi)[k] == rows[Before(lo, hi, k)]
  {
  }

  /** The link check of a row that is left is skipped, or it is the one that passed before. */
  lemma LeftLinkPasses(h: HashFunction, salt: string, rows: seq<Record>, lo: nat, hi: nat, k: nat)
    requires Numbered(rows) && UniqueIds(rows) && lo <= hi <= |rows| && k < |rows| - (hi - lo)
    requires !LinkBroken(rows, Before(lo, hi, k))
    ensures ChecksOf(h, salt, Without(rows, lo, hi), Without(rows, lo, hi)[k]).previousHashValid
  {
    var left, there := Without(rows, lo, hi), Before(lo, hi, k);
    LeftRow(rows, lo, hi, k);
    RemovalKeepsScannable(rows, lo, hi);
    if k > 0 && left[k - 1].sequenceNumber == there {
      NumberFound(left, k - 1);
      LeftRow(rows, lo, hi, k - 1);
    } else {
      NumberMissing(left, there);
    }
  }

  lemma LeftRowPasses(h: HashFunction, salt: string, rows: seq<Record>, lo: nat, hi: nat, k: nat)
    requires WellFormed(h, salt, rows) && UniqueIds(rows) && lo <= hi <= |rows| && k < |rows| - (hi - lo)
    ensures !Failing(h, salt, Without(rows, lo, hi), k)
  {
    var there := Before(lo, hi, k);
    LeftRow(rows, lo, hi, k);
    EncoderMatters(rows[there].payload, ISO_ENCODER);
    assert !Flagged(h, salt, rows, there);
    LeftLinkPasses(h, salt, rows, lo, hi, k);
  }

  lemma {:induction false} NoneFailing(h: HashFunction, salt: string, entries: seq<Record>, n: nat)
    requires n <= |entries| && forall i | n <= i < |entries| :: !Failing(h, salt, entries, i)
    ensures FailingFrom(h, salt, entries, n) == []
    decreases |entries| - n
  {
    if n < |entries| {
      NoneFailing(h, salt, entries, n + 1);
    }
  }

  /** Removing the rows `lo..hi` of a well-formed chain: the scan lists nothing, wherever they were, and marks all
      rows that are left verified; only the summary counts the removed rows. */
  lemma ScanMissesRemoval(h: HashFunction, salt: string, rows: seq<Record>, lo: nat, hi: nat)
    requires WellFormed(h, salt, rows) && UniqueIds(rows) && lo <= hi <= |rows|
    ensures var (tampered, after) := Scan(h, salt, Without(rows, lo, hi), 1, |rows|);
            && tampered == []
            && SameButFlags(Without(rows, lo, hi), after) && (forall k | 0 <= k < |after| :: after[k].verified)
            && SummaryOf(h, salt, after, |rows|).tamperedEntries == hi - lo
  {
    var left := Without(rows, lo, hi);
    RemovalKeepsScannable(rows, lo, hi);
    forall k | 0 <= k < |left|
      ensures !Failing(h, salt, left, k)
    {
      LeftRowPasses(h, salt, rows, lo, hi, k);
    }
    ScanFromStart(h, salt, left, |rows|);
    NoneFailing(h, salt, left, 0);
    CountsMatch(h, salt, left, |rows|);
    MarkingSetsFlags(h, salt, left, |left|);
  }

  lemma {:induction false} AllInRange(entries: seq<Record>, total: int)
    requires NumbersWithin(entries, total)
    ensures InRange(entries, 1, total) == entries
  {
    if entries != [] {
      var init := entries[..|entries| - 1];
      AllInRange(init, total);
      assert entries == init + [entries[|entries| - 1]];
    }
  }

  /** The walk does not read the flags. */
  lemma FlagsAreNotWalked(h: HashFunction, salt: string, entries: seq<Record>, marked: seq<Record>)
    requires SameButFlags(entries, marked)
    ensures Accepted(h, salt, marked) <==> Accepted(h, salt, entries)
  {
    forall i | 0 <= i < |entries|
      ensures Flagged(h, salt, marked, i) <==> Flagged(h, salt, entries, i)
    {
    }
  }

  /** The same deletion in the summary's chain verdict, which is that of the walk: it stays valid exactly if
      nothing inside the chain was removed, unless two payloads collide. */
  lemma SummaryNoticesInnerRemoval(h: HashFunction, salt: string, rows: seq<Record>, lo: nat, hi: nat)
    requires WellFormed(h, salt, rows) && UniqueIds(rows) && lo < hi <= |rows|
    ensures var after := Scan(h, salt, Without(rows, lo, hi), 1, |rows|).1;
            || (SummaryOf(h, salt, after, |rows|).chainValid <==> lo == 0 || hi == |rows|)
            || (0 < lo && hi < |rows| && Collides(h, PayloadOf(salt, rows[lo - 1]), PayloadOf(salt, rows[hi - 1])))
  {
    var left, after := Without(rows, lo, hi), Scan(h, salt, Without(rows, lo, hi), 1, |rows|).1;
    ScanMissesRemoval(h, salt, rows, lo, hi);
    RemovalKeepsScannable(rows, lo, hi);
    AllInRange(after, |rows|);
    FlagsAreNotWalked(h, salt, left, after);
    if after != [] {
      ReportCounts(h, salt, after);
    }
    forall k: nat | k < |left| && k != lo
      ensures !Flagged(h, salt, left, k)
    {
      OthersUnflagged(h, salt, rows, lo, hi, k);
    }
    if lo < |left| {
      RemovalIsFlagged(h, salt, rows, lo, hi, lo);
    }
  }
}

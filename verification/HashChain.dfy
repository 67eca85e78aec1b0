/** The tamper-evident hash chain of the audit log: the in-memory store, appending, and the verifying walk. */
module HashChain {
  import opened Hashing
  import opened Options
  import opened Selections
  import opened Sequences

  const GENESIS_HASH: string := "0000000000000000000000000000000000000000000000000000000000000000"

  /** The zone of a time stamp; an offset is the text that is written for it, empty for a naive time. */
  datatype Zone = Utc | Offset(text: string)

  /** The fields that the data hash covers, as the parts of their JSON text: what comes before the time, the time
      without its zone, the zone, and what comes after. */
  datatype AuditData = AuditData(before: string, time: string, zone: Zone, after: string)

  /** The text of the data; a time in UTC ends in an offset if it is written by `isoformat`, else in a letter. */
  function TextOf(d: AuditData, isoFormat: bool): string {
    d.before + d.time + (if d.zone.Offset? then d.zone.text else if isoFormat then "+00:00" else "Z") + d.after
  }

  /** The text that is hashed when an entry is appended. */
  function HashedText(d: AuditData): string {
    TextOf(d, true)
  }

  /** The entry's model registers `isoformat` as the encoder of times for the stored JSON record. */
  const ISO_ENCODER := true

  /** The text rebuilt from the stored record. */
  function StoredText(d: AuditData): string {
    TextOf(d, ISO_ENCODER)
  }

  /** The encoder is what makes recomputation match: without it the text of every time in UTC would differ. */
  lemma EncoderMatters(d: AuditData, isoFormat: bool)
    ensures TextOf(d, isoFormat) == HashedText(d) <==> isoFormat || !d.zone.Utc?
  {
    assert d.zone.Utc? && !isoFormat ==> |HashedText(d)| == |TextOf(d, isoFormat)| + 5;
  }

  /** An audit entry: its id, and the data that its data hash covers. */
  datatype AuditEntry = AuditEntry(auditId: string, payload: AuditData)

  /** A stored record: the entry's data and its place in the chain. Any field may have been tampered with. */
  datatype Record = Record(
    auditId: string, payload: AuditData,
    previousHash: string, dataHash: string, currentHash: string, sequenceNumber: int,
    verified: bool)

  datatype ChainState = ChainState(lastSequence: int, lastHash: string, total: int)

  datatype HashChainEntry = HashChainEntry(
    previousHash: string, currentHash: string, dataHash: string, sequenceNumber: int)

  datatype Issue = PreviousHashMismatch | CurrentHashMismatch

  datatype EntryInfo = EntryInfo(auditId: string, sequence: int, valid: bool, issues: seq<Issue>)

  datatype IntegrityReport =
    | NothingToVerify
    | Checked(verified: bool, totalChecked: nat, verifiedCount: nat, tamperedCount: nat,
              tamperedEntries: seq<EntryInfo>, verifiedEntries: seq<EntryInfo>)

  // ---------------------------------------------------------------------------------------------
  // Store lookups
  // ---------------------------------------------------------------------------------------------

  function InRange(entries: seq<Record>, start: int, end: int): seq<Record> {
    if entries == [] then []
    else
      var last := entries[|entries| - 1];
      var earlier := InRange(entries[..|entries| - 1], start, end);
      if start <= last.sequenceNumber <= end then earlier + [last] else earlier
  }

  ghost function NumberedWithin(start: int, end: int): Record -> bool {
    (r: Record) => start <= r.sequenceNumber <= end
  }

  lemma InRangeSnoc(entries: seq<Record>, r: Record, start: int, end: int)
    ensures InRange(entries + [r], start, end)
            == if start <= r.sequenceNumber <= end then InRange(entries, start, end) + [r]
               else InRange(entries, start, end)
  {
    assert (entries + [r])[..|entries|] == entries;
  }

  /** A range query returns exactly the records numbered within the range, in the order of the store. */
  lemma RangeFilters(entries: seq<Record>, start: int, end: int)
    ensures Filters(entries, NumberedWithin(start, end), InRange(entries, start, end))
  {
    var f := (s: seq<Record>) => InRange(s, start, end);
    forall s: seq<Record>, r: Record
      ensures f(s + [r]) == if NumberedWithin(start, end)(r) then f(s) + [r] else f(s)
    {
      InRangeSnoc(s, r, start, end);
    }
    KeepsOrDropsFilters(entries, NumberedWithin(start, end), f);
  }

  /** The index of the first record with this id, or the number of records. */
  function IndexOf(entries: seq<Record>, auditId: string): (i: nat)
    ensures i <= |entries|
    ensures i < |entries| ==> entries[i].auditId == auditId
    ensures forall k | 0 <= k < i :: entries[k].auditId != auditId
  {
    if entries == [] then 0
    else if entries[0].auditId == auditId then 0
    else 1 + IndexOf(entries[1..], auditId)
  }

  /** The effect of setting the `verified` flag of the first record with this id. */
  function Marked(entries: seq<Record>, auditId: string, verified: bool): seq<Record> {
    var i := IndexOf(entries, auditId);
    if i == |entries| then entries else entries[i := entries[i].(verified := verified)]
  }

  class Store {
    var entries: seq<Record>
    var chainState: ChainState

    constructor ()
      ensures entries == [] && chainState == ChainState(0, GENESIS_HASH, 0)
    {
      entries := [];
      chainState := ChainState(0, GENESIS_HASH, 0);
    }

    method FetchEntries(start: int, end: int) returns (rows: seq<Record>)
      ensures rows == InRange(entries, start, end)
    {
      rows := [];
      for i := 0 to |entries|
        invariant rows == InRange(entries[..i], start, end)
      {
        assert entries[..i + 1][..i] == entries[..i];
        if start <= entries[i].sequenceNumber <= end {
          rows := rows + [entries[i]];
        }
      }
      assert entries[..|entries|] == entries;
    }

    method FindByAuditId(auditId: string) returns (i: nat)
      ensures i == IndexOf(entries, auditId)
    {
      i := 0;
      while i < |entries| && entries[i].auditId != auditId
        invariant i <= |entries|
        invariant forall k | 0 <= k < i :: entries[k].auditId != auditId
      {
        i := i + 1;
      }
    }

    method UpdateVerified(auditId: string, verified: bool) returns (found: bool)
      modifies this`entries
      ensures entries == Marked(old(entries), auditId, verified)
      ensures found <==> exists k | 0 <= k < |old(entries)| :: old(entries)[k].auditId == auditId
    {
      var i := FindByAuditId(auditId);
      found := i < |entries|;
      if found {
        entries := entries[i := entries[i].(verified := verified)];
      }
    }
  }

  /** The audit entries behind the stored records. */
  function Logged(entries: seq<Record>): seq<AuditEntry> {
    seq(|entries|, i requires 0 <= i < |entries| => AuditEntry(entries[i].auditId, entries[i].payload))
  }

  /** The attempts of one call, numbered from 0, to create a chain entry that fail before inserting. */
  type Failures = set<nat>

  // ---------------------------------------------------------------------------------------------
  // Appending
  // ---------------------------------------------------------------------------------------------

  function NewRecord(h: HashFunction, salt: string, state: ChainState, e: AuditEntry): Record {
    Record(e.auditId, e.payload, state.lastHash, h(HashedText(e.payload)),
           ComputeChainHash(h, state.lastHash, h(HashedText(e.payload)), salt, state.lastSequence + 1),
           state.lastSequence + 1, false)
  }

  class HashChainManager {
    const h: HashFunction
    const salt: string
    const store: Store

    constructor (h: HashFunction, salt: string)
      ensures this.h == h && this.salt == salt && fresh(store)
      ensures Valid() && store.entries == []
    {
      this.h := h;
      this.salt := salt;
      store := new Store();
    }

    /** What every append keeps: the chain is well formed and the state describes it. */
    ghost predicate Valid()
      reads store
    {
      && WellFormed(h, salt, store.entries)
      && store.chainState == StateOf(store.entries)
    }

    method CreateChainEntry(e: AuditEntry) returns (link: HashChainEntry)
      modifies store
      ensures var r := NewRecord(h, salt, old(store.chainState), e);
              && store.entries == old(store.entries) + [r]
              && store.chainState == ChainState(r.sequenceNumber, r.currentHash, old(store.chainState).total + 1)
              && link == HashChainEntry(r.previousHash, r.currentHash, r.dataHash, r.sequenceNumber)
      ensures old(Valid()) ==> Valid() && store.entries == Appended(h, salt, old(store.entries), e)
    {
      var state := store.chainState;
      var nextSeq := state.lastSequence + 1;
      var dataHash: string := h(HashedText(e.payload));
      var currentHash: string := ComputeChainHash(h, state.lastHash, dataHash, salt, nextSeq);
      link := HashChainEntry(state.lastHash, currentHash, dataHash, nextSeq);
      var record := Record(
        e.auditId, e.payload, link.previousHash, link.dataHash, link.currentHash, nextSeq, false);
      AppendKeepsWellFormed(h, salt, store.entries, e);
      store.entries := store.entries + [record];
      store.chainState := ChainState(nextSeq, currentHash, state.total + 1);
    }

    method VerifyChainIntegrity(start: int, end: int) returns (report: IntegrityReport)
      ensures report ==
              if store.chainState.total == 0 then NothingToVerify
              else ReportOf(h, salt, InRange(store.entries, start, end))
      ensures report.Checked? ==> Reports(h, salt, InRange(store.entries, start, end), report)
      ensures report.NothingToVerify? <==> store.chainState.total == 0 || InRange(store.entries, start, end) == []
    {
      if store.chainState.total == 0 {
        return NothingToVerify;
      }
      var rows := store.FetchEntries(start, end);
      if rows == [] {
        return NothingToVerify;
      }
      report := WalkRows(rows);
      ReportExact(h, salt, rows);
    }

    method WalkRows(rows: seq<Record>) returns (report: IntegrityReport)
      requires rows != []
      ensures report == ReportOf(h, salt, rows)
    {
      var tampered: seq<EntryInfo>, verified: seq<EntryInfo> := [], [];
      var previous: Option<string> := None;
      for i := 0 to |rows|
        invariant tampered == Infos(h, salt, rows, i, false)
        invariant verified == Infos(h, salt, rows, i, true)
        invariant previous == if i == 0 then None else Some(rows[i - 1].currentHash)
      {
        var info := CheckRow(rows, i, previous);
        if info.valid {
          verified := verified + [info];
        } else {
          tampered := tampered + [info];
        }
        previous := Some(rows[i].currentHash);
      }
      report := Checked(|tampered| == 0, |rows|, |verified|, |tampered|, tampered, verified);
    }

    method CheckRow(rows: seq<Record>, i: nat, previous: Option<string>) returns (info: EntryInfo)
      requires i < |rows| && previous == if i == 0 then None else Some(rows[i - 1].currentHash)
      ensures info == InfoOf(h, salt, rows, i)
    {
      var row := rows[i];
      var isValid, issues := true, [];
      if previous.Some? && row.previousHash != previous.value {
        isValid, issues := false, [PreviousHashMismatch];
      }
      var recomputed := ComputeChainHash(h, row.previousHash, row.dataHash, salt, row.sequenceNumber);
      if recomputed != row.currentHash {
        isValid, issues := false, issues + [CurrentHashMismatch];
      }
      info := EntryInfo(row.auditId, row.sequenceNumber, isValid, issues);
    }

    /** Both bounds omitted: the walk covers sequence numbers 1 to the recorded total. */
    method VerifyWholeChain() returns (report: IntegrityReport)
      ensures report ==
              if store.chainState.total == 0 then NothingToVerify
              else ReportOf(h, salt, InRange(store.entries, 1, store.chainState.total))
    {
      report := VerifyChainIntegrity(1, store.chainState.total);
    }
  }

  // ---------------------------------------------------------------------------------------------
  // What the walk reports
  // ---------------------------------------------------------------------------------------------

  predicate LinkBroken(rows: seq<Record>, i: nat)
    requires i < |rows|
  {
    i > 0 && rows[i].previousHash != rows[i - 1].currentHash
  }

  function PayloadOf(salt: string, r: Record): string {
    ChainPayload(r.previousHash, r.dataHash, salt, r.sequenceNumber)
  }

  predicate HashBroken(h: HashFunction, salt: string, r: Record) {
    h(PayloadOf(salt, r)) != r.currentHash
  }

  predicate Flagged(h: HashFunction, salt: string, rows: seq<Record>, i: nat)
    requires i < |rows|
  {
    LinkBroken(rows, i) || HashBroken(h, salt, rows[i])
  }

  function InfoOf(h: HashFunction, salt: string, rows: seq<Record>, i: nat): EntryInfo
    requires i < |rows|
  {
    EntryInfo(rows[i].auditId, rows[i].sequenceNumber, !Flagged(h, salt, rows, i),
              (if LinkBroken(rows, i) then [PreviousHashMismatch] else []) +
              (if HashBroken(h, salt, rows[i]) then [CurrentHashMismatch] else []))
  }

  /** The entry infos of the first `n` rows that are (or are not) flagged, in row order. */
  function Infos(h: HashFunction, salt: string, rows: seq<Record>, n: nat, valid: bool): seq<EntryInfo>
    requires n <= |rows|
  {
    if n == 0 then []
    else
      var earlier := Infos(h, salt, rows, n - 1, valid);
      if Flagged(h, salt, rows, n - 1) != valid then earlier + [InfoOf(h, salt, rows, n - 1)] else earlier
  }

  function ReportOf(h: HashFunction, salt: string, rows: seq<Record>): IntegrityReport {
    if rows == [] then NothingToVerify
    else
      var tampered := Infos(h, salt, rows, |rows|, false);
      var verified := Infos(h, salt, rows, |rows|, true);
      Checked(|tampered| == 0, |rows|, |verified|, |tampered|, tampered, verified)
  }

  ghost predicate AcceptedUpTo(h: HashFunction, salt: string, rows: seq<Record>, n: nat)
    requires n <= |rows|
  {
    n == 0 || (AcceptedUpTo(h, salt, rows, n - 1) && !Flagged(h, salt, rows, n - 1))
  }

  /** The walk accepts: no row is flagged. */
  ghost predicate Accepted(h: HashFunction, salt: string, rows: seq<Record>) {
    forall i | 0 <= i < |rows| :: !Flagged(h, salt, rows, i)
  }

  lemma InfosStep(h: HashFunction, salt: string, rows: seq<Record>, n: nat, valid: bool)
    requires n < |rows|
    ensures |Infos(h, salt, rows, n + 1, valid)|
            == if Flagged(h, salt, rows, n) != valid then |Infos(h, salt, rows, n, valid)| + 1
               else |Infos(h, salt, rows, n, valid)|
  {
  }

  lemma {:induction false} InfosCount(h: HashFunction, salt: string, rows: seq<Record>, n: nat)
    requires n <= |rows|
    ensures |Infos(h, salt, rows, n, true)| + |Infos(h, salt, rows, n, false)| == n
  {
    if n > 0 {
      var m := n - 1;
      InfosCount(h, salt, rows, m);
      InfosStep(h, salt, rows, m, true);
      InfosStep(h, salt, rows, m, false);
    }
  }

  lemma {:induction false} AcceptedRow(h: HashFunction, salt: string, rows: seq<Record>, n: nat, i: nat)
    requires i < n <= |rows| && AcceptedUpTo(h, salt, rows, n)
    ensures !Flagged(h, salt, rows, i)
  {
    if i < n - 1 {
      AcceptedRow(h, salt, rows, n - 1, i);
    }
  }

  lemma {:induction false} AcceptedPrefix(h: HashFunction, salt: string, rows: seq<Record>, n: nat)
    requires n <= |rows| && Accepted(h, salt, rows)
    ensures AcceptedUpTo(h, salt, rows, n)
  {
    if n > 0 {
      AcceptedPrefix(h, salt, rows, n - 1);
    }
  }

  lemma AcceptedRows(h: HashFunction, salt: string, rows: seq<Record>)
    ensures AcceptedUpTo(h, salt, rows, |rows|) <==> Accepted(h, salt, rows)
  {
    if AcceptedUpTo(h, salt, rows, |rows|) {
      forall i | 0 <= i < |rows|
        ensures !Flagged(h, salt, rows, i)
      {
        AcceptedRow(h, salt, rows, |rows|, i);
      }
    }
    if Accepted(h, salt, rows) {
      AcceptedPrefix(h, salt, rows, |rows|);
    }
  }

  lemma {:induction false} NoInfos(h: HashFunction, salt: string, rows: seq<Record>, n: nat)
    requires n <= |rows|
    ensures |Infos(h, salt, rows, n, false)| == 0 <==> AcceptedUpTo(h, salt, rows, n)
  {
    if n > 0 {
      NoInfos(h, salt, rows, n - 1);
      InfosStep(h, salt, rows, n - 1, false);
    }
  }

  /** Every row is either verified or tampered, and the verdict is acceptance of the walked rows. */
  lemma ReportCounts(h: HashFunction, salt: string, rows: seq<Record>)
    requires rows != []
    ensures var r := ReportOf(h, salt, rows);
            && r.verifiedCount + r.tamperedCount == r.totalChecked == |rows|
            && (r.verified <==> Accepted(h, salt, rows))
  {
    InfosCount(h, salt, rows, |rows|);
    NoInfos(h, salt, rows, |rows|);
    AcceptedRows(h, salt, rows);
  }

  /** What an entry info says about row `i`: id and number are the row's; the kinds of break, at most one of each
      and the link first, are those that the row has. */
  ghost predicate Tells(h: HashFunction, salt: string, rows: seq<Record>, i: nat, info: EntryInfo) {
    && i < |rows|
    && info.auditId == rows[i].auditId && info.sequence == rows[i].sequenceNumber
    && (info.valid <==> info.issues == [])
    && (PreviousHashMismatch in info.issues <==> i > 0 && rows[i].previousHash != rows[i - 1].currentHash)
    && (CurrentHashMismatch in info.issues <==>
          h(ChainPayload(rows[i].previousHash, rows[i].dataHash, salt, rows[i].sequenceNumber))
          != rows[i].currentHash)
    && LinkFirst(info.issues)
  }

  predicate LinkFirst(issues: seq<Issue>) {
    && |issues| <= 2
    && (|issues| == 2 ==> issues[0] == PreviousHashMismatch && issues[1] == CurrentHashMismatch)
  }

  /** The link to the row before or the row's own hash is broken. */
  ghost predicate Broken(h: HashFunction, salt: string, rows: seq<Record>, i: nat) {
    && i < |rows|
    && (|| (i > 0 && rows[i].previousHash != rows[i - 1].currentHash)
        || h(ChainPayload(rows[i].previousHash, rows[i].dataHash, salt, rows[i].sequenceNumber))
           != rows[i].currentHash)
  }

  ghost function TellsOf(h: HashFunction, salt: string, rows: seq<Record>): (nat, EntryInfo) -> bool {
    (i: nat, info: EntryInfo) => Tells(h, salt, rows, i, info)
  }

  ghost function BrokenIn(h: HashFunction, salt: string, rows: seq<Record>, broken: bool): nat -> bool {
    (i: nat) => Broken(h, salt, rows, i) == broken
  }

  lemma InfoTells(h: HashFunction, salt: string, rows: seq<Record>, i: nat)
    requires i < |rows|
    ensures Tells(h, salt, rows, i, InfoOf(h, salt, rows, i))
    ensures Broken(h, salt, rows, i) <==> Flagged(h, salt, rows, i)
  {
  }

  /** The infos of the first `n` rows are listed. */
  ghost predicate InfosListed(h: HashFunction, salt: string, rows: seq<Record>, n: nat, valid: bool) {
    n <= |rows|
    && Lists(n, BrokenIn(h, salt, rows, !valid), Infos(h, salt, rows, n, valid), TellsOf(h, salt, rows))
  }

  lemma InfosListedNext(h: HashFunction, salt: string, rows: seq<Record>, n: nat, valid: bool)
    requires n < |rows| && InfosListed(h, salt, rows, n, valid)
    ensures InfosListed(h, salt, rows, n + 1, valid)
  {
    InfoTells(h, salt, rows, n);
    ListsNext(n, BrokenIn(h, salt, rows, !valid), Infos(h, salt, rows, n, valid), TellsOf(h, salt, rows),
              InfoOf(h, salt, rows, n));
  }

  lemma InfosList(h: HashFunction, salt: string, rows: seq<Record>, valid: bool)
    ensures InfosListed(h, salt, rows, |rows|, valid)
  {
    var p := (n: nat) => InfosListed(h, salt, rows, n, valid);
    ListsNone(BrokenIn(h, salt, rows, !valid), TellsOf(h, salt, rows));
    forall n: nat | n < |rows| && p(n)
      ensures p(n + 1)
    {
      InfosListedNext(h, salt, rows, n, valid);
    }
    StepByStep(p, |rows|);
  }

  /** The contents of a report: one true info for exactly each broken row, and for exactly each other row, both in row
      order; their numbers; and the verdict. */
  ghost predicate Reports(h: HashFunction, salt: string, rows: seq<Record>, report: IntegrityReport) {
    && report.Checked?
    && Lists(|rows|, BrokenIn(h, salt, rows, true), report.tamperedEntries, TellsOf(h, salt, rows))
    && Lists(|rows|, BrokenIn(h, salt, rows, false), report.verifiedEntries, TellsOf(h, salt, rows))
    && report.totalChecked == |rows|
    && report.tamperedCount == |report.tamperedEntries| && report.verifiedCount == |report.verifiedEntries|
    && (report.verified <==> report.tamperedEntries == [])
  }

  lemma ReportExact(h: HashFunction, salt: string, rows: seq<Record>)
    requires rows != []
    ensures Reports(h, salt, rows, ReportOf(h, salt, rows))
  {
    InfosList(h, salt, rows, false);
    InfosList(h, salt, rows, true);
  }

  /** There is one true info for a row. */
  lemma TellsOne(h: HashFunction, salt: string, rows: seq<Record>, i: nat, info: EntryInfo, info': EntryInfo)
    requires Tells(h, salt, rows, i, info) && Tells(h, salt, rows, i, info')
    ensures info == info'
  {
    OrderedIssues(info.issues);
    OrderedIssues(info'.issues);
  }

  lemma OrderedIssues(issues: seq<Issue>)
    requires LinkFirst(issues)
    ensures issues == (if PreviousHashMismatch in issues then [PreviousHashMismatch] else [])
                      + (if CurrentHashMismatch in issues then [CurrentHashMismatch] else [])
  {
    if |issues| == 2 {
      assert issues == [issues[0], issues[1]];
    } else if |issues| == 1 {
      if issues[0] == PreviousHashMismatch {
        assert issues == [PreviousHashMismatch];
      } else {
        assert issues == [CurrentHashMismatch];
      }
    }
  }

  /** The info is the true one of some row that is broken, or that is not. */
  ghost predicate TellsSome(h: HashFunction, salt: string, rows: seq<Record>, broken: bool, info: EntryInfo) {
    exists i: nat :: Broken(h, salt, rows, i) == broken && Tells(h, salt, rows, i, info)
  }

  lemma ListedInfos(h: HashFunction, salt: string, rows: seq<Record>, infos: seq<EntryInfo>, broken: bool,
                    info: EntryInfo)
    requires Lists(|rows|, BrokenIn(h, salt, rows, broken), infos, TellsOf(h, salt, rows))
    ensures info in infos <==> TellsSome(h, salt, rows, broken, info)
  {
    var wanted, fits := BrokenIn(h, salt, rows, broken), TellsOf(h, salt, rows);
    forall i: nat, y, z | fits(i, y) && fits(i, z)
      ensures y == z
    {
      TellsOne(h, salt, rows, i, y, z);
    }
    ListsMember(|rows|, wanted, infos, fits, info);
    if i: nat :| Broken(h, salt, rows, i) == broken && Tells(h, salt, rows, i, info) {
      assert i < |rows| && wanted(i) && fits(i, info);
    }
    if i: nat :| i < |rows| && wanted(i) && fits(i, info) {
      assert Broken(h, salt, rows, i) == broken && Tells(h, salt, rows, i, info);
    }
  }

  /** An info is listed as tampered exactly if it is the true one of some broken row, and as verified exactly if it is
      the true one of some other row. */
  lemma ListedExactly(h: HashFunction, salt: string, rows: seq<Record>, info: EntryInfo)
    requires rows != []
    ensures var report := ReportOf(h, salt, rows);
            && (info in report.tamperedEntries <==> TellsSome(h, salt, rows, true, info))
            && (info in report.verifiedEntries <==> TellsSome(h, salt, rows, false, info))
  {
    var report := ReportOf(h, salt, rows);
    ReportExact(h, salt, rows);
    ListedInfos(h, salt, rows, report.tamperedEntries, true, info);
    ListedInfos(h, salt, rows, report.verifiedEntries, false, info);
  }

  // ---------------------------------------------------------------------------------------------
  // Reachable chains
  // ---------------------------------------------------------------------------------------------

  /** Sequence numbers 1, 2, ...; genesis first; every link and every hash right; data hashes match. */
  ghost predicate WellFormed(h: HashFunction, salt: string, entries: seq<Record>) {
    && Numbered(entries)
    && (entries != [] ==> entries[0].previousHash == GENESIS_HASH)
    && (forall i | 0 <= i < |entries| :: entries[i].dataHash == h(HashedText(entries[i].payload)))
    && Accepted(h, salt, entries)
  }

  function StateOf(entries: seq<Record>): ChainState {
    ChainState(|entries|, if entries == [] then GENESIS_HASH else entries[|entries| - 1].currentHash, |entries|)
  }

  function Appended(h: HashFunction, salt: string, entries: seq<Record>, e: AuditEntry): seq<Record> {
    entries + [NewRecord(h, salt, StateOf(entries), e)]
  }

  lemma AppendKeepsWellFormed(h: HashFunction, salt: string, entries: seq<Record>, e: AuditEntry)
    ensures WellFormed(h, salt, entries) ==> WellFormed(h, salt, Appended(h, salt, entries, e))
    ensures StateOf(Appended(h, salt, entries, e)) ==
            var r := NewRecord(h, salt, StateOf(entries), e); ChainState(r.sequenceNumber, r.currentHash, |entries| + 1)
  {
    if WellFormed(h, salt, entries) {
      var longer := Appended(h, salt, entries, e);
      forall i | 0 <= i < |longer|
        ensures !Flagged(h, salt, longer, i)
      {
        if i < |entries| {
          assert !Flagged(h, salt, entries, i);
        }
      }
    }
  }

  datatype Op = Append(entry: AuditEntry) | Mark(auditId: string, verified: bool)

  function Run(h: HashFunction, salt: string, ops: seq<Op>): seq<Record> {
    if ops == [] then []
    else
      var before := Run(h, salt, ops[..|ops| - 1]);
      match ops[|ops| - 1]
      case Append(e) => Appended(h, salt, before, e)
      case Mark(id, verified) => Marked(before, id, verified)
  }

  /** The rows agree in everything but their `verified` flags. */
  ghost predicate SameButFlags(entries: seq<Record>, other: seq<Record>) {
    |entries| == |other| && forall i | 0 <= i < |entries| :: other[i] == entries[i].(verified := other[i].verified)
  }

  lemma MarkChangesFlags(entries: seq<Record>, id: string, verified: bool)
    ensures SameButFlags(entries, Marked(entries, id, verified))
  {
  }

  lemma FlagsAreNotWalked(h: HashFunction, salt: string, entries: seq<Record>, other: seq<Record>, i: nat)
    requires SameButFlags(entries, other) && i < |entries|
    ensures Flagged(h, salt, other, i) <==> Flagged(h, salt, entries, i)
  {
    assert other[i] == entries[i].(verified := other[i].verified);
    if i > 0 {
      assert other[i - 1] == entries[i - 1].(verified := other[i - 1].verified);
    }
  }

  lemma FlagsKeepWellFormed(h: HashFunction, salt: string, entries: seq<Record>, other: seq<Record>)
    requires WellFormed(h, salt, entries) && SameButFlags(entries, other)
    ensures WellFormed(h, salt, other) && StateOf(other) == StateOf(entries)
  {
    forall i | 0 <= i < |other|
      ensures !Flagged(h, salt, other, i)
    {
      FlagsAreNotWalked(h, salt, entries, other, i);
      assert !Flagged(h, salt, entries, i);
    }
  }

  /** The walk ignores the `verified` flags. */
  lemma MarkKeepsWellFormed(h: HashFunction, salt: string, entries: seq<Record>, id: string, verified: bool)
    requires WellFormed(h, salt, entries)
    ensures WellFormed(h, salt, Marked(entries, id, verified))
    ensures StateOf(Marked(entries, id, verified)) == StateOf(entries)
  {
    MarkChangesFlags(entries, id, verified);
    FlagsKeepWellFormed(h, salt, entries, Marked(entries, id, verified));
  }

  ghost predicate Numbered(entries: seq<Record>) {
    forall i | 0 <= i < |entries| :: entries[i].sequenceNumber == i + 1
  }

  function RangeStart(n: nat, start: int): (lo: nat)
    ensures lo <= n
  {
    if start <= 1 then 0 else if start <= n then start - 1 else n
  }

  function RangeEnd(n: nat, start: int, end: int): (hi: nat)
    ensures RangeStart(n, start) <= hi <= n
  {
    if end <= RangeStart(n, start) then RangeStart(n, start) else if end <= n then end else n
  }

  /** In a numbered store a range of sequence numbers selects one contiguous stretch of rows. */
  lemma {:induction false} RangeOfNumbered(entries: seq<Record>, start: int, end: int)
    requires Numbered(entries)
    ensures InRange(entries, start, end) == entries[RangeStart(|entries|, start)..RangeEnd(|entries|, start, end)]
  {
    var n := |entries|;
    if n > 0 {
      var init, last := entries[..n - 1], entries[n - 1];
      RangeOfNumbered(init, start, end);
      var lo, hi := RangeStart(n - 1, start), RangeEnd(n - 1, start, end);
      SliceOfPrefix(entries, n - 1, lo, hi);
      if start <= n <= end {
        SliceSnoc(entries, lo, n - 1);
      }
    }
  }

  /** After any run of appends and verification marks the chain is well formed, and the walk over every
      range of sequence numbers finds nothing. */
  lemma {:induction false} EveryRunVerifies(h: HashFunction, salt: string, ops: seq<Op>, start: int, end: int)
    ensures WellFormed(h, salt, Run(h, salt, ops))
    ensures Accepted(h, salt, InRange(Run(h, salt, ops), start, end))
  {
    if ops != [] {
      var before := Run(h, salt, ops[..|ops| - 1]);
      EveryRunVerifies(h, salt, ops[..|ops| - 1], start, end);
      match ops[|ops| - 1]
      case Append(e) => AppendKeepsWellFormed(h, salt, before, e);
      case Mark(id, verified) => MarkKeepsWellFormed(h, salt, before, id, verified);
    }
    WellFormedRangesVerify(h, salt, Run(h, salt, ops), start, end);
  }

  lemma WellFormedRangesVerify(h: HashFunction, salt: string, entries: seq<Record>, start: int, end: int)
    requires WellFormed(h, salt, entries)
    ensures Accepted(h, salt, InRange(entries, start, end))
  {
    RangeOfNumbered(entries, start, end);
    var lo := RangeStart(|entries|, start);
    var rows := InRange(entries, start, end);
    forall i | 0 <= i < |rows|
      ensures !Flagged(h, salt, rows, i)
    {
      assert rows[i] == entries[lo + i];
      assert !Flagged(h, salt, entries, lo + i);
    }
  }
}

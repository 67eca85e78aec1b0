# Verified models of the spend-monitoring services

Dafny models, with proofs, of the parts of the repository whose job is a hard guarantee:

- the tamper-evident logs: the Merkle snapshots of the hash-chain service, and the hash chain of the
  audit-log service with its two verifiers (`Hashing`, `Merkle`, `MerkleProofs`, `MerkleVerification`,
  `MerkleBuilder`, `HashChain`, `ChainBinding`, `IntegrityReports`, `AuditVerifier`);
- the queueing and admission state machines: batch processor with circuit breaker, buffered logger, sliding-window
  rate limiter (`BatchProcessor`, `BatchRuns`, `BatchStranding`, `BatchRecovery`, `AuditLogger`, `RateLimiter`);
- the graph and window algorithms: depth-bounded breadth-first search, sliding-window grouping with merging, greedy
  segmentation, and the vendor-graph builder and analyzer (`VendorGraph`, `SplittingGroup`, `GroupMetrics`,
  `WindowWalk`, `WindowAnalyzer`, `WindowProperties`, `WindowTotals`, `WindowCoverage`, `WindowReturns`,
  `GroupPatterns`, `StalePatterns`, `PatternDetector`, `RiskScores`, `Dicts`, `GraphBuilder`, `GraphContents`,
  `GraphAnalyzer`, `GraphAggregates`, `GraphFindings`, `OfficialFindings`, `GraphReports`);
- the statistics: percentiles, outlier detection and concentration indices (`Statistics`, `OutlierBounds`, `Outliers`,
  `Concentration`, `RealSums`, `Sorting`).

Objects whose methods update fields are classes; each method is proved equal to a specification function of the old
state, and the properties are lemmas about those functions over all inputs and all runs. Pure code is functions. What a
main operation returns is pinned down twice: by its specification function, and by a lemma that describes the result on
the inputs alone, without that function. Results that are lists are described position by position (`Selections`): one
element for exactly the wanted positions, in order.

Conventions:

- The hash is an arbitrary function into strings of 64 hexadecimal digits. No injectivity is assumed: results
  read "equal, or here are two distinct strings among those hashed that collide".
- Numbers are exact reals. A square root is an arbitrary function `sqrt`; a lemma that depends on its value requires
  it to be the non-negative number whose square is the argument.
- Each public call is one atomic step; which append attempts fail is an arbitrary set per call, and the clock is an
  input (monotone for the rate limiter).

## What the proofs show about the code

Where the code does not do what its documentation or its names suggest, the model follows the code:

- `verify_proof` always concatenates the current hash before the sibling, and never looks at the entry or computes its
  leaf hash. It accepts exactly the left-edge proofs, collisions aside: the root on its own, or the string behind the
  first node of any level, cut in two anywhere, with the second nodes from there up (`AcceptedExact`). So the root with
  an empty path passes with every entry (`RootIsAcceptedForAnyEntry`). An accepted call proves that its entry is leaf 0
  if and only if the caller has computed the leaf hash from the entry (`GenuineIffLeafHash`); and the genuine proofs of
  all other leaves are rejected (`VerifyProofOwnPath`). With sides taken from the leaf index, membership proofs would
  be exact for every leaf (`SidedProofExact`).
- The chain payload has no separators. Two accepted chains with one head agree on their last rows if and only if the
  hash fields of these rows have pairwise equal lengths (`HeadBinds`); otherwise any text can move from one field to
  the next unnoticed (`HeadBindingNeedsSizes`).
- The chain walk never looks at the audited data (`TamperedDataIsNotWalked`), and compares neither the first link to
  genesis nor the numbering. Rows removed at either end go unnoticed; rows removed inside are reported at the row after
  the gap (`RemovalIsFlagged`).
- The two audit verifiers part ways on removed rows. The scan skips the link check of a row whose predecessor is
  missing, so after any removal from an untampered store it lists nothing; the summary counts each missing number as
  tampered, and its chain verdict is that of the walk (`ScanMissesRemoval`, `SummaryNoticesInnerRemoval`).
- The per-entry scan recomputes the data hash from the stored JSON record. This matches the hash taken at append time
  because the entry's model registers `isoformat` as its JSON encoder of times
  (`services/audit-log-svc/models/audit.py:87-90`): on an untampered store nothing is listed (`CleanScanListsNothing`).
  Without that registration the check would fail on every row with a time in UTC (`CheckWithoutEncoder`).
- A batch that fails after a successful append is re-queued whole, so its first entries are written twice
  (`EntryWrittenTwice`). Every entry is held exactly once in all runs if and only if the batch size is 1
  (`KeptOnceIff`), and none is lost in all runs if and only if it is at least 1 (`NothingIsLostIff`): with a smaller
  one every flush takes the queue and writes nothing (`SmallBatchHoldsNothing`). With a circuit threshold below 1 the
  circuit is "closed" although the threshold is reached (`ThresholdMatters`).
- A flush of an empty queue returns at once, the final one in `stop()` included, so entries that wait for retry are only
  ever written by a flush that finds something queued: without failures and unblocked, it empties both exactly if the
  queue was not empty or nothing waited (`DrainsIffQueued`). For every batch size there are runs after which no number
  of flushes writes what waits, healthy chain or not (`EntriesStrand`).
- An open circuit does probe: after every run, a flush that finds something queued once the recovery time is over makes
  an attempt and closes or reopens the circuit (`OpenCircuitProbes`); too early, or with an empty queue, nothing is
  written and no failure is noted, and only then (`OpenCircuitIdlesIff`).
- `AuditLogger.flush` drops the entries whose write fails (`BufferAccounts`, `StoppedMatchesDirect`). It drops nothing
  exactly if no call's failures meet the attempts the call makes (`NothingDroppedIff`), and for every buffer size one
  failed attempt loses an entry (`OneFailureDrops`).
- Amounts that are all equal count as not consistent at all in the risk score of a group: that factor falls from 1 to 0
  as the spread grows, but is 0 without any spread (`ReturnedRisk`).
- With `max_requests` of 0 or less the rate limiter indexes an empty list (`AdmittedIffWindowHasRoom`).
- Merging groups of orders joins their patterns without looking for them again (`PatternsPileUp`). So a returned group
  can show a pattern that its own orders do not have, and lack one that they have (`PatternsGoWrong`). Groups show
  their own patterns in all calls if and only if windows are shorter than a day, when nothing is ever grouped
  (`OwnPatternsIff`); in a single call a group does if only one large enough window starts in it (`OneWindowShowsOwn`).
- The vendor-graph code names an edge kind, `APPROVES`, that its enumeration does not declare. A graph can be built
  only if no transaction has both an approver and a vendor, and no risk pattern about officials is ever
  reported (`BuildEdges`, `OfficialsGoUnreported`). With or without the name declared, on every graph that can be
  built a report that does not fail is exact (`ReportIsExact`).
- The index of concentration and the repeat score measure how far the shares are apart: for `n` shares, `n - 1` times
  the value is the sum of the squared differences of all pairs (`ConcentrationIsPairs`, `ScoreIsPairs`).
- The repeat score of an official with a single vendor is 0, the lowest, although the comment promises a high score
  for few vendors; the other version of the same index gives 1 there (`ScoresAgreeUnlessSingle`, `RepeatScoreExact`).
  The reported counts are keyed by vendor name, so vendors with equal names overwrite each other
  (`CountsByNameExact`).

## Model

| member | source | states |
|---|---|---|
| Hashing.DecimalInjective | services/audit-log-svc/utils/hash_utils.py:20 | writing a number in decimal, sign included, loses nothing |
| Hashing.ChainPayloadInjective | services/audit-log-svc/utils/hash_utils.py:15-21 | with hash fields of equal length the separator-free payload determines both hashes and the number |
| Hashing.ChainPayloadOneField | services/audit-log-svc/utils/hash_utils.py:15-21 | changing one hash field alone always changes the payload, whatever the lengths |
| Hashing.ChainPayloadSalt | services/audit-log-svc/utils/hash_utils.py:15-21 | another salt, all else being equal, always gives another payload |
| Merkle.LevelsShape | services/audit-hashchain-svc/utils/merkle_utils.py:32-49 | the levels start with the leaves, each next level is the rehash of the one below, sizes halve rounding up, and the last holds just the root |
| Merkle.LeafDataInjective | services/audit-hashchain-svc/utils/merkle_utils.py:24-30 | the hashed leaf string determines the sequence number and the entry hash |
| Merkle.LeafDataIsNotCombined | services/audit-hashchain-svc/utils/merkle_utils.py:24-46 | a leaf string is never the string of an inner node, lone or paired |
| Merkle.CombinedInjective | services/audit-hashchain-svc/utils/merkle_utils.py:38-46 | equal inner strings come from equal children, and a lone node is told apart from a pair |
| Merkle.NextLevelInjective | services/audit-hashchain-svc/utils/merkle_utils.py:35-49 | going up one level is injective, or two hashed strings collide |
| Merkle.SameRootLevels | services/audit-hashchain-svc/utils/merkle_utils.py:32-49 | with one root, the bottom level of the lower tree is the level of the same height in the taller one, or a collision |
| Merkle.RootBinds | services/audit-hashchain-svc/utils/merkle_utils.py:13-56 | two entry lists of any lengths, empty included, with the same root hash are equal, or two distinct strings hashed while building them collide |
| MerkleProofs.PathFoldsToRoot | services/audit-hashchain-svc/utils/merkle_utils.py:114-147 | for every tree and leaf index, the extracted path with sides from the index, rehashing lone nodes, folds to the root |
| MerkleProofs.RootFromPathBinds | services/audit-hashchain-svc/utils/merkle_utils.py:114-147 | only the true node with its true path folds to the root, or a collision |
| MerkleProofs.SidedProofExact | services/audit-hashchain-svc/utils/merkle_utils.py:24-49 | a membership proof with sides from the index is accepted if the entry is the one at that index with its extracted path, and only then, or a collision |
| MerkleProofs.LeftmostPathFolds | services/audit-hashchain-svc/utils/merkle_utils.py:58-75 | folding current-then-sibling along leaf 0's path gives the root, in every tree |
| MerkleVerification.DigestAccepted | services/audit-hashchain-svc/utils/merkle_utils.py:58-75 | for any digest as leaf hash, verify_proof accepts the first node of any level with the second nodes of that level and above, and nothing else, or a collision |
| MerkleVerification.AcceptedExact | services/audit-hashchain-svc/utils/merkle_utils.py:58-75 | the same for any string as leaf hash and any path: accepted are exactly the left-edge proofs, or a collision |
| MerkleVerification.RootIsAcceptedForAnyEntry | services/audit-hashchain-svc/utils/merkle_utils.py:58-75 | the root with an empty path is accepted with every entry, though in a tree of two or more it is no entry's leaf hash, or a collision |
| MerkleVerification.VerifyProofExact | services/audit-hashchain-svc/utils/merkle_utils.py:58-75 | if the leaf hash is computed from the entry, accepted is the first entry with its own path, and no other entry or path, or a collision |
| MerkleVerification.GenuineIffLeafHash | services/audit-hashchain-svc/utils/merkle_utils.py:58-75 | an accepted call is the genuine proof of leaf 0 if and only if its leaf hash is that of its entry, or a collision |
| MerkleVerification.VerifyProofOwnPath | services/audit-hashchain-svc/utils/merkle_utils.py:58-75 | so among distinct entries a genuine proof is accepted for leaf 0 only, or a collision |
| MerkleBuilder.MerkleTreeBuilder.BuildTree | services/audit-hashchain-svc/utils/merkle_utils.py:13-56 | the loop builds the specified tree: leaf data, levels and root; an empty list gives the empty tree |
| MerkleBuilder.MerkleTreeBuilder.VerifyProof | services/audit-hashchain-svc/utils/merkle_utils.py:58-75 | accepts exactly when the left fold of the path equals the given root |
| MerkleBuilder.MerkleTreeBuilder.GetMerklePath | services/audit-hashchain-svc/utils/merkle_utils.py:114-147 | for any list of levels: the siblings that exist on the way up, the empty path for an index beyond the leaves, and an error where a lookup is out of range |
| MerkleBuilder.ExtractedIsPath | services/audit-hashchain-svc/utils/merkle_utils.py:114-147 | on levels whose sizes halve, as in every tree, the extraction succeeds with the leaf's path of siblings |
| MerkleBuilder.MerkleTreeBuilder.GroupByLevel | services/audit-hashchain-svc/utils/merkle_utils.py:88-95 | groups rows by level: exactly the levels that occur, each with its rows' hashes in row order |
| MerkleBuilder.MerkleTreeBuilder.ReconstructTree | services/audit-hashchain-svc/utils/merkle_utils.py:77-112 | the tree made of the grouped levels in ascending order; no rows give the empty tree |
| MerkleBuilder.StoredRows | services/audit-hashchain-svc/services/hashchain_service.py:237-254 | the stored rows of a tree, level by level, node by node |
| MerkleBuilder.StoredRowsExact | services/audit-hashchain-svc/services/hashchain_service.py:237-254 | the stored rows are exactly one for each node, with its level, its place in the level and its hash, level by level and from left to right |
| MerkleBuilder.RowsRebuildTree | services/audit-hashchain-svc/utils/merkle_utils.py:77-112 | rows in any interleaving of the levels that keeps each level's order rebuild the same tree |
| MerkleBuilder.StoreThenReconstruct | services/audit-hashchain-svc/services/hashchain_service.py:237-254 | storing a tree's nodes and reconstructing them gives the tree back |
| HashChain.Store.FetchEntries | services/audit-log-svc/services/hash_chain_manager.py:51-58 | the records in the range of sequence numbers, in order |
| HashChain.RangeFilters | services/audit-log-svc/services/hash_chain_manager.py:51-58 | exactly the records numbered within the range, in the order of the store and each as often as it occurs |
| HashChain.Store.FindByAuditId | services/audit-log-svc/services/hash_chain_manager.py:60-64 | the first record with the id, or none |
| HashChain.Store.UpdateVerified | services/audit-log-svc/services/hash_chain_manager.py:72-77 | sets one flag of the first record with the id; succeeds exactly if there is one |
| HashChain.HashChainManager.CreateChainEntry | services/audit-log-svc/services/hash_chain_manager.py:143-178 | appends one linked record, moves the chain state on, and keeps the chain well formed |
| HashChain.HashChainManager.VerifyChainIntegrity | services/audit-log-svc/services/hash_chain_manager.py:184-251 | reports exactly the rows whose link or hash is broken, each with its id, its number and the kinds of break, and the others as verified, in row order; nothing to verify exactly if the chain or the range is empty |
| HashChain.ReportCounts | services/audit-log-svc/services/hash_chain_manager.py:244-251 | verified and tampered counts always add up to the rows checked, and the verdict is that no row is flagged |
| HashChain.ReportExact | services/audit-log-svc/services/hash_chain_manager.py:206-251 | the contents of the report: one entry for exactly each broken row as tampered, and for exactly each other row as verified, both in row order, each with the row's id and number and with exactly the kinds of break that the row has |
| HashChain.ListedExactly | services/audit-log-svc/services/hash_chain_manager.py:206-242 | an entry is in one of the lists if and only if it is the true one of some row that is broken, or that is not |
| HashChain.AppendKeepsWellFormed | services/audit-log-svc/services/hash_chain_manager.py:143-170 | appending keeps numbering, genesis link, links, hashes and state |
| HashChain.RangeOfNumbered | services/audit-log-svc/services/hash_chain_manager.py:51-58 | on a numbered store every range query returns one contiguous stretch of the chain |
| HashChain.EveryRunVerifies | services/audit-log-svc/services/hash_chain_manager.py:143-251 | after any run of appends and verification marks the chain is well formed and every sub-range verifies |
| HashChain.WellFormedRangesVerify | services/audit-log-svc/services/hash_chain_manager.py:184-251 | every sub-range of a well-formed chain verifies |
| ChainBinding.HeadBinds | services/audit-log-svc/services/hash_chain_manager.py:206-251 | the last m rows of two accepted row lists with the same last hash agree on previous, data and current hash and number if and only if their hash fields have pairwise equal lengths, or two hashed payloads collide |
| ChainBinding.HeadBindsChains | services/audit-log-svc/services/hash_chain_manager.py:143-251 | two well-formed chains with the same head have the same length, links and audited data, or two hashed strings collide |
| ChainBinding.HeadBindingNeedsSizes | services/audit-log-svc/utils/hash_utils.py:15-21 | counterexamples for every other pair of lengths: any text moved from one hash field to the next gives a different accepted row with the same head |
| ChainBinding.TamperedCurrentHash | services/audit-log-svc/services/hash_chain_manager.py:210-242 | a replaced current hash is reported at exactly that row and its successor |
| ChainBinding.TamperedDataHash | services/audit-log-svc/services/hash_chain_manager.py:210-242 | a replaced data hash is reported at exactly that row, or the two payloads collide |
| ChainBinding.TamperedPreviousHash | services/audit-log-svc/services/hash_chain_manager.py:210-242 | a replaced previous hash is reported at exactly that row; on the first row, or the two payloads collide |
| ChainBinding.TamperedDataIsNotWalked | services/audit-log-svc/services/hash_chain_manager.py:210-242 | changing the audited data alone changes nothing in the report |
| ChainBinding.StretchIsAccepted | services/audit-log-svc/services/hash_chain_manager.py:206-251 | every contiguous stretch of an accepted row list is accepted |
| ChainBinding.RemovalIsFlagged | services/audit-log-svc/services/hash_chain_manager.py:206-251 | removing any stretch of rows of a well-formed chain is not reported at either end, and otherwise reported at exactly the row after the gap, or two payloads collide |
| IntegrityReports.TamperedCurrentHashReported | services/audit-log-svc/services/hash_chain_manager.py:206-251 | the list of tampered entries after replacing a current hash: that row for its hash, then the next one for its link |
| IntegrityReports.TamperedDataHashReported | services/audit-log-svc/services/hash_chain_manager.py:206-251 | after replacing a data hash: that row only, for its hash, or the two payloads collide |
| IntegrityReports.TamperedPreviousHashReported | services/audit-log-svc/services/hash_chain_manager.py:206-251 | after replacing a previous hash: that row only, for its link if there is a row before it and for its hash, or the two payloads collide |
| IntegrityReports.RemovalReported | services/audit-log-svc/services/hash_chain_manager.py:206-251 | after removing a stretch of a well-formed chain: the row after the gap only, for its link only, if rows are left on both sides, and otherwise nothing; or two payloads collide |
| AuditVerifier.Verifier.VerifyEntry | services/audit-log-svc/services/audit_verifier.py:28-95 | data, chain and link check of one record, written back to its flag; an unknown id counts as tampered and writes nothing |
| AuditVerifier.Verifier.DetectTampering | services/audit-log-svc/services/audit_verifier.py:109-130 | the scan by sequence number: what it lists and the flags it leaves |
| AuditVerifier.Verifier.GetVerificationSummary | services/audit-log-svc/services/audit_verifier.py:136-156 | counts per sequence number of rows marked verified, and the verdict of the walk |
| AuditVerifier.TamperDetector.RunScan | services/audit-log-svc/services/tamper_detector.py:32-56 | scan, then summary, then one anomaly per listed row, kept in the detector |
| AuditVerifier.AnomaliesExact | services/audit-log-svc/services/tamper_detector.py:62-94 | a scan of a numbered store with unique ids yields one critical anomaly for exactly each row with something wrong, typed by the first of chain hash, data and link that is wrong, and never one of unknown type |
| AuditVerifier.ScanExact | services/audit-log-svc/services/audit_verifier.py:109-156 | for unique ids and ascending numbers, rows missing or not and whatever was tampered with: the scan lists exactly the rows with a failing check and marks the others verified, and the summary counts the listed rows plus the missing numbers |
| AuditVerifier.ScanInOrder | services/audit-log-svc/services/audit_verifier.py:43-130 | the scan's list holds one entry for exactly each row with a failing check, in order, with the row's id and number and what each of the three checks found, on any store with unique ids and ascending numbers |
| AuditVerifier.VerifiersAgree | services/audit-log-svc/services/audit_verifier.py:28-130 | on any numbered store with unique ids the scan lists exactly the rows the walk flags and those whose rebuilt text has another hash, and marks all others verified |
| AuditVerifier.ScanCountIsSummaryCount | services/audit-log-svc/services/tamper_detector.py:32-47 | the scan's tampered count equals the summary's |
| AuditVerifier.CleanScanListsNothing | services/audit-log-svc/models/audit.py:141-159 | recomputation matches: on an untampered store the scan lists nothing |
| AuditVerifier.TamperedDataIsScanned | services/audit-log-svc/services/audit_verifier.py:43-54 | whatever one record's data is changed to, the scan lists exactly that row, and only if its rebuilt text has changed, or the old and the new text collide |
| AuditVerifier.ScanMissesRemoval | services/audit-log-svc/services/audit_verifier.py:65-71 | after removing any stretch of rows of an untampered store the scan lists nothing and marks all rows left verified, while the summary counts exactly the removed rows |
| AuditVerifier.SummaryNoticesInnerRemoval | services/audit-log-svc/services/audit_verifier.py:136-156 | and the summary's chain verdict stays valid exactly if the stretch reached an end of the chain, or two payloads collide |
| BatchProcessor.BatchProcessor.Enqueue | services/audit-log-svc/services/batch_processor.py:101-107 | counts, queues, and flushes once the batch size is reached, whatever the size; passes the flush's error on |
| BatchProcessor.BatchProcessor.Flush | services/audit-log-svc/services/batch_processor.py:109-152 | the whole new state of a flush, blocked, probing or closed, for every batch size, the number flushed by full batches, and the error for a size of 0; keeps the chain valid |
| BatchProcessor.BatchProcessor.ProcessOneBatch | services/audit-log-svc/services/batch_processor.py:131-146 | one sub-batch: success resets the breaker; failure keeps what was appended, re-queues the whole batch and may open the circuit |
| BatchProcessor.BatchProcessor.ProcessRetryQueue | services/audit-log-svc/services/batch_processor.py:178-187 | tries each waiting entry once; failures wait again in order |
| BatchRuns.OneSubBatch | services/audit-log-svc/services/batch_processor.py:125-152 | a flush of at most one batch is exactly one sub-batch and at most one retry pass |
| BatchRuns.EveryRunBalances | services/audit-log-svc/services/batch_processor.py:101-152 | after every run, whatever fails: queued = flushed + queue + retry queue, and fewer than batch_size are queued, so the next flush is one sub-batch |
| BatchRuns.EveryRun | services/audit-log-svc/services/batch_processor.py:101-176 | for every configuration HALF_OPEN never survives a call and OPEN means at least threshold failures; with a threshold of at least 1, CLOSED holds exactly while the failures are below it |
| BatchRuns.SmallBatchHoldsNothing | services/audit-log-svc/services/batch_processor.py:125-130 | with a batch size below 1, after any run nothing is queued, waiting or written |
| BatchRuns.ThresholdMatters | services/audit-log-svc/services/batch_processor.py:158-171 | that rule holds in all runs if and only if the threshold is at least 1 |
| BatchRuns.NothingIsLost | services/audit-log-svc/services/batch_processor.py:101-187 | for batch sizes from 1, over every run with arbitrary failures, chain plus queue plus retry queue is exactly what was enqueued plus the repeated batch prefixes, with multiplicity |
| BatchRuns.NothingIsLostIff | services/audit-log-svc/services/batch_processor.py:101-187 | every enqueued entry is kept in all runs if and only if the batch size is at least 1 |
| BatchRuns.KeptOnceIff | services/audit-log-svc/services/batch_processor.py:101-187 | every entry is held exactly once in all runs if and only if the batch size is 1, for every threshold |
| BatchRuns.EntryWrittenTwice | services/audit-log-svc/services/batch_processor.py:131-150 | for every batch size from 2 and any entries, a run with one failure that writes the first entry twice or leaves it both written and waiting, by threshold |
| BatchRuns.HealthyFlushDrains | services/audit-log-svc/services/batch_processor.py:109-152 | an unblocked flush of a queue that is not empty, without failures, writes queue then retry queue, empties both and closes the circuit |
| BatchStranding.DrainsIffQueued | services/audit-log-svc/services/batch_processor.py:109-150 | after any run an unblocked flush without failures leaves queue and retry queue empty if and only if the queue was not empty or nothing waited for retry |
| BatchStranding.FlushesAloneDoNothing | services/audit-log-svc/services/batch_processor.py:111-112 | from an empty queue no sequence of flushes, with or without failures, changes anything, whatever waits for retry |
| BatchStranding.EntriesStrand | services/audit-log-svc/services/batch_processor.py:95-112 | for every batch size and threshold a run after which entries wait for retry and no number of flushes, the one in stop included, ever writes them |
| BatchRuns.NoFailuresExactOrder | services/audit-log-svc/services/batch_processor.py:101-152 | without failures the chain followed by the queue is the enqueue order, each entry once |
| BatchRuns.OpenAppendsNothing | services/audit-log-svc/services/batch_processor.py:114-123 | once a run has opened the circuit, no sequence of calls before the recovery time appends or closes it, and what is enqueued meanwhile is kept |
| BatchRuns.ProbeDecides | services/audit-log-svc/services/batch_processor.py:115-171 | a failed probe reopens at once and keeps the queue for retry; a successful one closes |
| BatchRecovery.FlushExact | services/audit-log-svc/services/batch_processor.py:101-187 | after every run, everything that a flush or an enqueue changes, on the times, the queues and the attempts that fail: queue, retry queue, circuit, failures, all counters and what is written in which order |
| BatchRecovery.OpenCircuitProbes | services/audit-log-svc/services/batch_processor.py:114-176 | after every run that ends with an open circuit, a flush that finds something queued at or after last failure + recovery makes an attempt; without failures it writes queue and retry queue and closes the circuit; with a failure in the batch the circuit is reopened at this time |
| BatchRecovery.OpenCircuitIdlesIff | services/audit-log-svc/services/batch_processor.py:173-176 | an open circuit's flush writes nothing and changes neither circuit, last failure nor the number of openings if and only if it comes before last failure + recovery or the queue is empty |
| BatchRecovery.FlushedCountExact | services/audit-log-svc/services/batch_processor.py:109-152 | a flush returns the number of queued entries if all of them are written, and 0 otherwise |
| BatchRecovery.RaisesIff | services/audit-log-svc/services/batch_processor.py:130 | enqueueing raises exactly if the batch size is 0, and a flush never does |
| AuditLogger.Logger.Log | services/audit-log-svc/services/audit_logger.py:125-130 | buffered or direct, with the new buffer and chain; a direct failure reaches the caller; keeps the chain valid |
| AuditLogger.Logger.Flush | services/audit-log-svc/services/audit_logger.py:139-152 | writes the entries whose attempt succeeds in order, forgets the others, empties the buffer, counts the writes; keeps the chain valid |
| AuditLogger.ChosenSelects | services/audit-log-svc/services/audit_logger.py:139-152 | every buffered entry is attempted: exactly those whose own attempt succeeds are written, in order and each as often as it is buffered |
| AuditLogger.BufferAccounts | services/audit-log-svc/services/audit_logger.py:139-174 | over every run, logged = written + buffered + dropped, with multiplicity |
| AuditLogger.NoDropsInOrder | services/audit-log-svc/services/audit_logger.py:139-174 | if nothing is dropped, chain followed by buffer is the logged order |
| AuditLogger.StoppedMatchesDirect | services/audit-log-svc/services/audit_logger.py:58-67 | after stop the buffered logger equals the unbuffered one if and only if no attempt failed |
| AuditLogger.NothingDroppedIff | services/audit-log-svc/services/audit_logger.py:139-174 | a run drops nothing if and only if no call's failing set meets the attempts that call makes, a condition on the calls alone |
| AuditLogger.StoppedMatchesDirectIff | services/audit-log-svc/services/audit_logger.py:58-67 | the same condition decides whether the stopped buffered logger equals the unbuffered one |
| AuditLogger.OneFailureDrops | services/audit-log-svc/services/audit_logger.py:139-152 | for every buffer size a run with one failed attempt loses an entry |
| RateLimiter.RateLimiterMiddleware.Dispatch | services/audit-log-svc/middleware/rate_limiter.py:52-87 | response and new per-client lists of one request, exempt paths included |
| RateLimiter.RateLimiterMiddleware.Prune | services/audit-log-svc/middleware/rate_limiter.py:60-63 | keeps exactly the times after the window start, in order |
| RateLimiter.RecentFilters | services/audit-log-svc/middleware/rate_limiter.py:60-63 | pruning keeps exactly the times after the window start, each as often as it occurs and in order |
| RateLimiter.AnswerExact | services/audit-log-svc/middleware/rate_limiter.py:52-87 | the whole answer on the path and the times of the client's admissions: three exempt paths that change nothing, an admission with the number left after it while the window has room, else a refusal, or the failure on an empty window |
| RateLimiter.PrunedIsHistory | services/audit-log-svc/middleware/rate_limiter.py:60-63 | at every call the pruned list is the client's whole admission history restricted to the window |
| RateLimiter.AdmittedIffWindowHasRoom | services/audit-log-svc/middleware/rate_limiter.py:65-81 | admitted exactly when fewer than max_requests were admitted in the window; refused exactly when it is full |
| RateLimiter.LimitHolds | services/audit-log-svc/middleware/rate_limiter.py:56-81 | every half-open interval of the window's length, closed on either side, holds at most max_requests admissions of a client |
| RateLimiter.RefusalFacts | services/audit-log-svc/middleware/rate_limiter.py:65-78 | a refusal sees exactly max_requests recent admissions; Retry-After is the time until the oldest leaves, rounded up |
| RateLimiter.RetryAfterSuffices | services/audit-log-svc/middleware/rate_limiter.py:65-81 | waiting Retry-After with no other admission gets in |
| RateLimiter.RetryAfterIsTight | services/audit-log-svc/middleware/rate_limiter.py:65-81 | a retry more than a second earlier is refused again |
| VendorGraph.BallIsPaths | services/backend-api/services/graph_service.py:101-118 | the ball of radius k is the set of ids joined to the vendor by an undirected path of at most k edges |
| VendorGraph.BuildAdjacency | services/backend-api/services/graph_service.py:101-104 | the adjacency lists represent exactly the undirected edges |
| VendorGraph.FrontIsShortest | services/backend-api/services/graph_service.py:110-118 | a new id at the front of the queue is met at its shortest distance |
| VendorGraph.VisitKeeps | services/backend-api/services/graph_service.py:114-118 | expanding keeps the invariant: ordered queue, exact distances, no neighbour forgotten |
| VendorGraph.EmptyQueueMeansBall | services/backend-api/services/graph_service.py:110-118 | when the queue is empty the visited ids are the ball |
| VendorGraph.ReachableIds | services/backend-api/services/graph_service.py:106-118 | terminates with exactly the ids within depth edges, each expanded at its shortest distance |
| VendorGraph.GetVendorGraph | services/backend-api/services/graph_service.py:84-156 | the induced subgraph on those ids; none exactly if the vendor is no node |
| VendorGraph.SelectedIffReachable | services/backend-api/services/graph_service.py:120-145 | a node or edge row is returned exactly if it, or both its ends, are joined to the vendor by a path of at most depth edges |
| VendorGraph.SelectionExact | services/backend-api/services/graph_service.py:120-145 | the selected rows as lists: exactly those node rows, and edge rows with both ends, in the order of the rows and each as often as it occurs |
| SplittingGroup.ContractSplittingGroup.CalculateMetrics | services/detection_svc/models/contract_splitting.py:98-135 | the metrics of the orders; an empty group keeps its metrics, and skipped parts keep their previous values |
| GroupMetrics.MetricsExact | services/detection_svc/models/contract_splitting.py:98-135 | for two or more orders the metrics are true of them: number, sum, mean, least and greatest amount, spread, mean and extreme gaps in date order, whether no gap is above a day, whether and by how much the sum exceeds a positive threshold; exactly unless a threshold that is not positive was already marked as exceeded |
| GroupMetrics.MetricsOfFew | services/detection_svc/models/contract_splitting.py:98-135 | a single order has its amount throughout, no spread and no days between; without orders nothing is calculated |
| SplittingGroup.DaysBetween | services/detection_svc/models/contract_splitting.py:121-124 | the gaps between consecutive dates |
| SplittingGroup.AverageGap | services/detection_svc/models/contract_splitting.py:118-129 | the average gap telescopes to (last - first) / (n - 1), is not negative, and is at most 1 in a sequential group |
| WindowWalk.FirstMergeable | services/detection_svc/analytics/window_analyzer.py:120-140 | the first group of the same vendor and department with an overlapping window, if any |
| WindowAnalyzer.Analyzer.AnalyzeWindows | services/detection_svc/analytics/window_analyzer.py:29-75 | the window walk over group objects returns the specified valid groups by descending risk |
| WindowProperties.WindowOrdersExact | services/detection_svc/analytics/window_analyzer.py:45-57 | in date order a window holds exactly the orders dated after the anchor's day and within the window, and the anchor if it is below the threshold; other orders of the anchor's day are left out |
| WindowProperties.WindowOrdersInOrder | services/detection_svc/analytics/window_analyzer.py:45-57 | the window as a list: the later orders of the window in order and each as often as it occurs, then the anchor if it is below the threshold |
| WindowAnalyzer.Analyzer.CreateGroup | services/detection_svc/analytics/window_analyzer.py:81-114 | a new group with metrics, patterns and risk of its orders |
| WindowAnalyzer.Analyzer.MergeWithExisting | services/detection_svc/analytics/window_analyzer.py:120-137 | merges into the first mergeable group only and leaves all others unchanged |
| WindowAnalyzer.Analyzer.MergeGroups | services/detection_svc/analytics/window_analyzer.py:142-163 | union of orders by id, window and patterns, metrics and risk recomputed, in the target object |
| WindowAnalyzer.UnionOrders | services/detection_svc/analytics/window_analyzer.py:147-151 | appends the orders whose ids are new |
| WindowProperties.DetectedPatternsObeyRule | services/detection_svc/analytics/window_analyzer.py:169-210 | sequential splitting or a frequency spike implies temporal clustering |
| WindowProperties.RiskIsAScore | services/detection_svc/analytics/window_analyzer.py:216-245 | the risk score is between 0 and 1 |
| WindowProperties.HighRiskExceeds | services/detection_svc/analytics/window_analyzer.py:216-245 | only a group whose total exceeds a positive threshold can score above 0.7 |
| WindowProperties.MergedOk | services/detection_svc/analytics/window_analyzer.py:142-163 | merging two sound groups gives a sound group: orders in the window, current metrics, pattern rule, score |
| WindowWalk.OnlyLastMerges | services/detection_svc/analytics/window_analyzer.py:120-140 | with anchors in date order only the last group can be merged into, and it is exactly if its window reaches the new one |
| WindowWalk.WalkAccounts | services/detection_svc/analytics/window_analyzer.py:59-72 | whatever merging joins, each group has exactly what the windows that start in its window have |
| WindowWalk.WalkPlainOrMerged | services/detection_svc/analytics/window_analyzer.py:59-72 | whatever merging joins, a group is a window's group as it was made, or two windows start in it |
| WindowProperties.WindowsOk | services/detection_svc/analytics/window_analyzer.py:41-72 | after the walk over any list of orders all groups are sound and their windows pairwise apart |
| WindowTotals.NoDoubleCounting | services/detection_svc/analytics/window_analyzer.py:41-75 | for any list of orders, repeated ids included: the returned groups have disjoint windows with their orders inside, none holds an order more often than the list, and the totals sum to at most the total of all orders; if no id repeats in the list, none does within a group |
| WindowTotals.OrderInOneGroup | services/detection_svc/analytics/window_analyzer.py:41-75 | for any list of orders, an order is in at most one returned group |
| WindowTotals.ReturnedGroupsConsistent | services/detection_svc/analytics/window_analyzer.py:158-245 | for any list of orders, repeated ids included, every returned group, merges included, obeys the pattern rule, has the telescoped average gap and a risk in [0, 1], and exceeds its positive threshold if it is marked as high risk |
| WindowTotals.ReturnedByRisk | services/detection_svc/analytics/window_analyzer.py:73-75 | the groups come in descending order of risk |
| WindowReturns.WalkedAreMeasured | services/detection_svc/analytics/window_analyzer.py:41-72 | after the walk the metrics of every group, merged or not, are true of its orders |
| WindowReturns.ReturnedIff | services/detection_svc/analytics/window_analyzer.py:247-261 | a group of the walk is returned if and only if its orders add up to more than a positive threshold, or it shows two different patterns, or one of its orders is from 90 to 99 percent of its own threshold |
| RiskScores.ReturnedRisk | services/detection_svc/analytics/window_analyzer.py:216-245 | the risk of every returned group on its orders, patterns and spread: four tenths for the excess over the threshold, two each for number of orders and of patterns, one each for closeness in time and evenness of the amounts; high above 0.7 |
| WindowCoverage.AnalysisCovers | services/detection_svc/analytics/window_analyzer.py:41-72 | for any list of orders, before filtering, an id is in some group exactly if some window with at least three orders holds it |
| WindowCoverage.PatternsPileUp | services/detection_svc/analytics/window_analyzer.py:142-163 | a returned group's patterns are exactly those of the windows that start in its window, each found among the window's own orders |
| WindowCoverage.CreatedPatterns | services/detection_svc/analytics/window_analyzer.py:104-113 | a window's group shows exactly the patterns of its own orders |
| GroupPatterns.PatternsExact | services/detection_svc/analytics/window_analyzer.py:169-210 | when a group has each of the five patterns, on the dates and amounts of its orders, if the square root is right |
| GroupPatterns.ShownExactly | services/detection_svc/analytics/window_analyzer.py:104-163 | a returned group shows a pattern if and only if some window that starts in it has three or more orders that have the pattern |
| WindowCoverage.OneWindowShowsOwn | services/detection_svc/analytics/window_analyzer.py:104-140 | a returned group in whose window only one large enough window starts shows exactly the patterns of its own orders |
| StalePatterns.PatternsGoWrong | services/detection_svc/analytics/window_analyzer.py:158-160 | for every threshold and windows of a day or more, seven orders that come back as one group: with two days or more it shows a pattern its orders do not have, with one day it lacks one they have |
| StalePatterns.OwnPatternsIff | services/detection_svc/analytics/window_analyzer.py:142-163 | all returned groups of all calls show exactly the patterns of their own orders if and only if windows are shorter than a day |
| PatternDetector.Detector.DetectSequentialSplitting | services/detection_svc/analytics/pattern_detector.py:116-161 | the segmentation loop returns the specified groups in order |
| PatternDetector.Detector.FinalizeGroup | services/detection_svc/analytics/pattern_detector.py:163-197 | appends the segment's group exactly if it is long enough and exceeds the threshold |
| PatternDetector.SegmentationExact | services/detection_svc/analytics/pattern_detector.py:127-159 | the segments joined are the below-threshold orders in date order, each spans at most three days, and no cut that respects the larger orders uses fewer segments |
| PatternDetector.GreedyIsMinimal | services/detection_svc/analytics/pattern_detector.py:132-154 | every possible cut has at least as many segments as the greedy one opens |
| PatternDetector.DetectedExact | services/detection_svc/analytics/pattern_detector.py:163-216 | the returned groups are exactly those of the segments with at least three orders and a sum above the threshold; risk in [0, 1] |
| PatternDetector.DetectedInOrder | services/detection_svc/analytics/pattern_detector.py:127-197 | the result as a list: one group for exactly each segment of three or more orders with a sum above the threshold, in the order of the segments |
| RiskScores.SegmentGroupExact | services/detection_svc/analytics/pattern_detector.py:163-216 | everything such a group says: owner, first and last date, orders, metrics, pattern, and the risk: four tenths for the excess, three each for number of orders and closeness in time |
| Sorting.SortByCorrect | services/detection_svc/analytics/window_analyzer.py:41 | the sort used throughout: ordered by key and a permutation |
| Sorting.SortIsStable | services/detection_svc/analytics/window_analyzer.py:74 | and stable: equal keys keep their order |
| Statistics.PercentileMonotone | services/detection_svc/analytics/statistical.py:80-95 | the percentile is monotone in p and stays between minimum and maximum |
| Statistics.PercentileOfHalf | services/detection_svc/analytics/statistical.py:34-39 | the 50th percentile is the median, odd and even lengths |
| Outliers.PercentileExact | services/detection_svc/analytics/statistical.py:80-95 | the percentile lies at (n - 1) p hundredths of an index: the value there, or as far between the two neighbours as the position is |
| Outliers.MomentsExact | services/detection_svc/analytics/statistical.py:20-43 | there are statistics exactly if there are values; number, mean, and the spread, whose square is the mean squared deviation |
| Outliers.OrderStatisticsExact | services/detection_svc/analytics/statistical.py:29-50 | least and greatest value, quartiles, their distance, fences one and a half times as far out, median |
| Outliers.OutlierCountExact | services/detection_svc/analytics/statistical.py:51 | outlier_count is the number of positions whose value is more than one and a half quartile distances outside the quartiles |
| Outliers.IqrExact | services/detection_svc/analytics/statistical.py:128-138 | the interquartile method returns exactly those positions, in ascending order |
| Outliers.ZScoreExact | services/detection_svc/analytics/statistical.py:140-146 | the z-score method returns exactly the positions whose value is more than two and a half standard deviations from the mean, in ascending order |
| Statistics.FlaggedExact | services/detection_svc/analytics/statistical.py:138-146 | the reported indices are exactly the flagged positions, ascending |
| Statistics.ZScoreFlagsFew | services/detection_svc/analytics/statistical.py:140-146 | the z-score method flags none, or k of n values with 25k < 4n |
| OutlierBounds.ZScoreNeedsEight | services/detection_svc/analytics/statistical.py:140-146 | with seven values or fewer the z-score method flags none |
| OutlierBounds.EightCanHaveOne | services/detection_svc/analytics/statistical.py:140-146 | and with eight it can flag one, so seven is the limit |
| OutlierBounds.IqrFlagsFewerThanHalf | services/detection_svc/analytics/statistical.py:45-51 | the interquartile method flags fewer than half of the values, as many as outlier_count says |
| RealSums.SpreadHolds | services/detection_svc/analytics/statistical.py:42 | n times the sum of squares is at least the square of the sum, with equality exactly if all values are equal |
| Concentration.NormalisedOfShares | services/detection_svc/utils/graph_metrics.py:36-39 | for two or more shares of one whole the normalised index is in [0, 1) before clamping, and 0 exactly if all shares are equal |
| Concentration.ScoresAgreeUnlessSingle | services/detection_svc/graph/graph_analyzer.py:129-140 | the inline score and calculate_hhi agree exactly for two or more shares; only a single share makes the latter 1 and the former 0 |
| RealSums.PairLaw | services/detection_svc/utils/graph_metrics.py:23-39 | n times the sum of squares exceeds the square of the sum by the squared differences of all pairs |
| Concentration.IndexIsPairs | services/detection_svc/utils/graph_metrics.py:23-39 | for two or more shares of one whole, n - 1 times either version of the index is the sum of the squared differences of all pairs of shares |
| Dicts.TallyExact | services/detection_svc/graph/graph_builder.py:320-328 | a tallying loop over an insertion-ordered dictionary: keys are the distinct keys in first-seen order, each value folds that key's items |
| Dicts.FirstKeysExact | services/detection_svc/graph/graph_builder.py:320-328 | the keys are those that the items carry, each once, in the order of first occurrence |
| Dicts.GroupFilters | services/detection_svc/graph/graph_builder.py:271-276 | a group is exactly the items with the key, in order and each as often as it occurs |
| Dicts.GroupsPartition | services/detection_svc/graph/graph_analyzer.py:60 | group sums over a complete duplicate-free list of keys add up to the sum over all keyed items |
| GraphBuilder.BuildSupplyEdges | services/detection_svc/graph/graph_builder.py:260-292 | one edge per vendor and department in first-seen order, with the sum and number of their transactions |
| GraphBuilder.BuildManageEdges | services/detection_svc/graph/graph_builder.py:295-318 | one edge per official and department with the number of approvals |
| GraphBuilder.BuildApproveEdges | services/detection_svc/graph/graph_builder.py:320-343 | the incremental counts and values equal those of the grouped transactions; fails exactly if there is such an edge and its kind is not declared |
| GraphBuilder.BuildSharingEdges | services/detection_svc/graph/graph_builder.py:345-365 | for each official an edge for every pair of the listed vendors |
| GraphBuilder.BuildEdges | services/detection_svc/graph/graph_builder.py:249-367 | all edges; fails exactly if a transaction has both an approver and a vendor while the edge kind is undeclared |
| GraphBuilder.BuildVendorNodes | services/detection_svc/graph/graph_builder.py:180-204 | one node per vendor row, with the sum and number of its transactions |
| GraphBuilder.BuildDepartmentNodes | services/detection_svc/graph/graph_builder.py:206-227 | one node per department in first-seen order, named as in its first transaction, with the number of its transactions |
| GraphBuilder.BuildGraph | services/detection_svc/graph/graph_builder.py:33-83 | nodes of all three kinds and edges of all four, or the failure of the edges |
| GraphContents.EdgesInOrder | services/detection_svc/graph/graph_builder.py:249-343 | the edges as lists: for each pair of ids that occurs together, in the order of first occurrence, one supply, management or approval edge with the numbers and sums of exactly their transactions and the capped weight; then the sharing edges |
| GraphContents.RowNodesExact | services/detection_svc/graph/graph_builder.py:180-245 | one node for each vendor row and each official row, in order, with the numbers and sums of exactly their transactions |
| GraphContents.DepartmentNodesExact | services/detection_svc/graph/graph_builder.py:206-227 | one node for each department in the order of first occurrence, with the number of its transactions and the name in the first of them |
| GraphAggregates.NodeSpendsAddUp | services/detection_svc/graph/graph_builder.py:180-204 | if every vendor is returned once, the spends on the vendor nodes add up to all that was spent with a vendor |
| GraphAggregates.EdgesAreExact | services/detection_svc/graph/graph_builder.py:260-343 | for every vendor and department, and official and vendor: one edge with the exact aggregates if they have transactions, none otherwise |
| GraphAggregates.SpendIsConserved | services/detection_svc/graph/graph_analyzer.py:38-67 | the analyzer's total spend is the sum of the department's vendor transactions, over as many vendors as supply it |
| GraphAnalyzer.AnalyzeHhi | services/detection_svc/graph/graph_analyzer.py:19-97 | the result for a known department; an unknown one is an error |
| GraphAnalyzer.AnalyzeRepeatOfficials | services/detection_svc/graph/graph_analyzer.py:99-193 | one result per official with approvals; the undeclared edge kind fails exactly if there are an official and an edge |
| GraphAnalyzer.DetectRiskPatterns | services/detection_svc/graph/graph_analyzer.py:195-284 | the report with its four kinds of pattern in order, or the first error |
| GraphFindings.ConcentrationExact | services/detection_svc/graph/graph_analyzer.py:52-68 | on a built graph the index is in [0, 1], 1 exactly for one supplier, 0 exactly if two or more got the same |
| GraphFindings.ConcentrationIsPairs | services/detection_svc/graph/graph_analyzer.py:52-68 | on a built graph, from the transactions alone: n - 1 times the index is the sum of the squared differences of all pairs of the n suppliers' shares; 1 for a single supplier |
| GraphFindings.LevelExact | services/detection_svc/utils/graph_metrics.py:42-51 | the level of concentration that is reported for an index |
| GraphFindings.DominantsAreFew | services/detection_svc/graph/graph_analyzer.py:70-84 | at most five vendors are dominant |
| GraphFindings.DominantsExact | services/detection_svc/graph/graph_analyzer.py:70-84 | the dominant vendors are exactly the suppliers with a fifth or more of the transactions' sum, largest share first |
| OfficialFindings.ApprovalsAreConserved | services/detection_svc/graph/graph_analyzer.py:126-134 | the counted approvals of an official add up to those in the transactions |
| OfficialFindings.RepeatScoreExact | services/detection_svc/graph/graph_analyzer.py:126-187 | the score is in [0, 1) and 0 exactly if all vendors have equally many approvals, a single vendor included; connections and indicators are those of the transactions |
| OfficialFindings.ScoreIsPairs | services/detection_svc/graph/graph_analyzer.py:126-148 | on a built graph, from the transactions alone: n - 1 times the score is the sum of the squared differences of all pairs of the n vendors' shares of the approvals; 0 for a single vendor |
| OfficialFindings.IndicatorsExact | services/detection_svc/graph/graph_analyzer.py:150-163 | the indicators are exactly those that the score, the number of approvals and the number of vendors warrant |
| OfficialFindings.CountsByNameExact | services/detection_svc/graph/graph_analyzer.py:178-181 | counts are keyed by name; as many are left as there are vendors if and only if their names differ, and then each is the vendor's number of approvals in the transactions |
| OfficialFindings.ByNameLast | services/detection_svc/graph/graph_analyzer.py:178-181 | of vendors with one name the last one's count is reported |
| OfficialFindings.NameExact | services/detection_svc/graph/graph_analyzer.py:165-169 | a vendor is named as in the last node with its id, and by its id if there is none |
| OfficialFindings.RepeatsExact | services/detection_svc/graph/graph_analyzer.py:113-193 | on a built graph no division by zero, and a result for exactly the listed officials that approved for a vendor |
| OfficialFindings.RepeatsInOrder | services/detection_svc/graph/graph_analyzer.py:113-193 | one result for exactly each listed official that approved for some vendor, in the order of the officials |
| OfficialFindings.EveryPairOnce | services/detection_svc/graph/graph_builder.py:353-365 | every two vendors of an official are joined, by n(n-1)/2 edges in all |
| OfficialFindings.SharingIsRebuilt | services/detection_svc/graph/graph_analyzer.py:237-243 | the analyzer rebuilds exactly the vendor set of each official with two or more vendors, and has no entry for any other |
| OfficialFindings.DepartmentsAreCounted | services/detection_svc/graph/graph_analyzer.py:258-262 | the count of a vendor is the number of different departments it has transactions with |
| GraphReports.ReportIsExact | services/detection_svc/graph/graph_analyzer.py:195-284 | on every graph that can be built, with the edge kind declared or not: when the report fails, and that it otherwise holds exactly the patterns that the transactions warrant |
| GraphReports.ReportInOrder | services/detection_svc/graph/graph_analyzer.py:195-284 | a report as a list: the concentration if it is above 0.7, the officials with a score above 0.7 in order, one pattern for each official with more than three vendors and for each vendor with more than five departments; the first two kinds are counted as severe |
| GraphReports.OfficialsGoUnreported | services/detection_svc/models/vendor_graph.py:20-29 | as declared, no report on a graph that can be built has a pattern about officials |

## Left out

- SHA-256, UTF-8, JSON text and model serialization: the hash is an arbitrary function, and the audited data is its
  JSON text in four parts, of which only the zone of the time can be written in two ways.
- Floating-point rounding, confidence intervals, the sigmoid, the confidence score and the seasonal pattern.
- PostgreSQL, Redis, notary and blockchain publishing, routes, configuration, logging, data export, retention: calls
  into code that is not visible, or plumbing.
- Interleavings inside an awaited call: every public call is one step.
- The status and the back link set on the caller's audit entry, search and query functions of the store.
- Failures of an append after it has inserted: an attempt either fails before inserting or succeeds.
- Leaf indices below 0, which index from the end in the source: path extraction takes natural numbers.
- The alert callback, time stamps of scans, and the free-text `issues` of anomalies.
- Display data: names in the index and pattern results, group ids, labels, colours, evidence and recommendation texts.
- Registration numbers, roles and other stored attributes of nodes, and centrality, clustering and community detection.
- The order in which a set of vendors is listed when pairs are made: any duplicate-free listing is allowed, chosen
  per official.
- Amounts that are not positive: orders are validated to have positive amounts (`contract_splitting.py:52-58`) and
  the transaction query returns positive amounts only (`graph_builder.py:95-98`), so the amount types are positive.
- The result groups are returned as values; later changes by a caller to the shared group objects are not modelled.
- `analyze_patterns`, the detectors that combine these results, and the other services of the repository: they would
  add only one-branch checks.

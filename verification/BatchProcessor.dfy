/** The batch processor: queue, retry queue and circuit breaker in front of the hash chain.

    Every public call is one atomic step. `now` is the monotonic clock read by the call, and `failing` is the set
    of the call's attempts to create a chain entry, numbered from 0, that fail; both are arbitrary.
  */
module BatchProcessor {
  import opened HashChain
  import opened Options
  import opened Sequences

  datatype CircuitState = Closed | Open | HalfOpen

  datatype Config = Config(batchSize: int, threshold: int, recovery: real)

  datatype State = State(
    queue: seq<AuditEntry>, retry: seq<AuditEntry>,
    circuit: CircuitState, failureCount: int, lastFailure: Option<real>,
    totalQueued: int, totalFlushed: int, totalFailed: int, batchesProcessed: int, circuitOpens: int,
    log: seq<AuditEntry>)

  /** A state and the number of attempts made so far. */
  datatype Progress = Progress(state: State, attempts: nat)

  // ---------------------------------------------------------------------------------------------
  // Specification of the steps
  // ---------------------------------------------------------------------------------------------

  const Initial := State([], [], Closed, 0, None, 0, 0, 0, 0, 0, [])

  /** How many entries of the batch are appended before the first failing attempt. */
  function Appendable(batch: seq<AuditEntry>, failing: Failures, k: nat): (n: nat)
    ensures n <= |batch|
    ensures n < |batch| ==> k + n in failing
    decreases |batch|
  {
    if batch == [] || k in failing then 0 else 1 + Appendable(batch[1..], failing, k + 1)
  }

  lemma AppendableStep(batch: seq<AuditEntry>, failing: Failures, k: nat, n: nat)
    requires n < |batch| && k + n !in failing
    ensures Appendable(batch[n..], failing, k + n) == 1 + Appendable(batch[n + 1..], failing, k + n + 1)
  {
    DropOne(batch, n);
  }

  function RecordSuccess(s: State): State {
    s.(failureCount := 0, circuit := Closed)
  }

  function RecordFailure(c: Config, s: State, now: real): State {
    var failures := s.failureCount + 1;
    var failed := s.(failureCount := failures, lastFailure := Some(now));
    if failures >= c.threshold then failed.(circuit := Open, circuitOpens := s.circuitOpens + 1) else failed
  }

  /** One sub-batch: whole, or an appended prefix followed by a failure that re-queues all of it. */
  function ProcessBatch(c: Config, s: State, batch: seq<AuditEntry>, failing: Failures, k: nat, now: real): State {
    var n := Appendable(batch, failing, k);
    var appended := s.(log := s.log + batch[..n]);
    if n == |batch| then
      RecordSuccess(appended.(totalFlushed := s.totalFlushed + n, batchesProcessed := s.batchesProcessed + 1))
    else
      var failed := RecordFailure(c, appended.(totalFailed := s.totalFailed + |batch|), now);
      failed.(retry := failed.retry + batch)
  }

  function Attempts(batch: seq<AuditEntry>, failing: Failures, k: nat): nat {
    var n := Appendable(batch, failing, k);
    if n == |batch| then n else n + 1
  }

  function FirstBatch(c: Config, entries: seq<AuditEntry>): seq<AuditEntry>
    requires c.batchSize >= 1
  {
    if |entries| <= c.batchSize then entries else entries[..c.batchSize]
  }

  function LaterBatches(c: Config, entries: seq<AuditEntry>): (rest: seq<AuditEntry>)
    requires c.batchSize >= 1 && entries != []
    ensures |rest| < |entries|
  {
    entries[|FirstBatch(c, entries)|..]
  }

  /** All sub-batches in turn, with the number of attempts used so far. */
  function ProcessBatches(c: Config, s: State, entries: seq<AuditEntry>, failing: Failures, k: nat, now: real): Progress
    requires c.batchSize >= 1
    decreases |entries|
  {
    if entries == [] then Progress(s, k)
    else
      var batch := FirstBatch(c, entries);
      ProcessBatches(c, ProcessBatch(c, s, batch, failing, k, now), LaterBatches(c, entries), failing,
                     k + Attempts(batch, failing, k), now)
  }

  /** Processing `entries` from `s` is what remains of a pass that ends in `whole`. */
  ghost predicate Remaining(c: Config, s: State, entries: seq<AuditEntry>, failing: Failures, k: nat, now: real,
                            whole: Progress)
    requires c.batchSize >= 1
  {
    ProcessBatches(c, s, entries, failing, k, now) == whole
  }

  lemma RemainingStep(
    c: Config, s: State, entries: seq<AuditEntry>, failing: Failures, k: nat, now: real, whole: Progress,
    s': State, rest: seq<AuditEntry>, k': nat)
    requires c.batchSize >= 1 && entries != []
    requires Remaining(c, s, entries, failing, k, now, whole)
    requires s' == ProcessBatch(c, s, FirstBatch(c, entries), failing, k, now)
    requires rest == LaterBatches(c, entries) && k' == k + Attempts(FirstBatch(c, entries), failing, k)
    ensures Remaining(c, s', rest, failing, k', now, whole)
  {
  }

  /** The retry pass: one attempt per entry; what fails is queued again, in order. */
  function RetryEach(s: State, entries: seq<AuditEntry>, failing: Failures, k: nat): State
    decreases |entries|
  {
    if entries == [] then s
    else
      var e := entries[0];
      var s' := if k !in failing then s.(log := s.log + [e], totalFlushed := s.totalFlushed + 1)
                else s.(retry := s.retry + [e]);
      RetryEach(s', entries[1..], failing, k + 1)
  }

  predicate ShouldAttemptRecovery(c: Config, s: State, now: real) {
    s.lastFailure.None? || now - s.lastFailure.value >= c.recovery
  }

  /** The circuit is open and the recovery time has not passed. */
  predicate Blocked(c: Config, s: State, now: real) {
    s.circuit.Open? && !ShouldAttemptRecovery(c, s, now)
  }

  /** The state right before the sub-batches: the queue is taken, an open circuit is being probed. */
  function Probing(s: State): State {
    (if s.circuit.Open? then s.(circuit := HalfOpen) else s).(queue := [])
  }

  /** The loop over sub-batches; with a negative size it makes no turn. */
  function SubBatches(c: Config, s: State, entries: seq<AuditEntry>, failing: Failures, now: real): Progress
    requires c.batchSize != 0
  {
    if c.batchSize < 0 then Progress(s, 0) else ProcessBatches(c, s, entries, failing, 0, now)
  }

  /** A flush raises an error, after taking the queue, when it gets to its loop with a batch size of 0. */
  predicate Raises(c: Config, s: State, now: real) {
    s.queue != [] && !Blocked(c, s, now) && c.batchSize == 0
  }

  function Flushed(c: Config, s: State, failing: Failures, now: real): State {
    if s.queue == [] then s
    else if Blocked(c, s, now) then s.(retry := s.retry + s.queue, queue := [])
    else if c.batchSize == 0 then Probing(s)
    else
      var Progress(done, k) := SubBatches(c, Probing(s), s.queue, failing, now);
      if done.circuit.Closed? && done.retry != [] then RetryEach(done.(retry := []), done.retry, failing, k) else done
  }

  function Queued(s: State, e: AuditEntry): State {
    s.(totalQueued := s.totalQueued + 1, queue := s.queue + [e])
  }

  function Enqueued(c: Config, s: State, e: AuditEntry, failing: Failures, now: real): State {
    var queued := Queued(s, e);
    if |queued.queue| >= c.batchSize then Flushed(c, queued, failing, now) else queued
  }

  // ---------------------------------------------------------------------------------------------
  // The processor
  // ---------------------------------------------------------------------------------------------

  class BatchProcessor {
    const chain: HashChainManager
    const config: Config

    var queue: seq<AuditEntry>
    var retryQueue: seq<AuditEntry>
    var circuitState: CircuitState
    var failureCount: int
    var lastFailureTime: Option<real>
    var totalQueued: int
    var totalFlushed: int
    var totalFailed: int
    var batchesProcessed: int
    var circuitOpens: int

    constructor (chain: HashChainManager, config: Config)
      ensures this.chain == chain && this.config == config
      ensures View() == Initial.(log := Logged(chain.store.entries))
    {
      this.chain := chain;
      this.config := config;
      queue, retryQueue := [], [];
      circuitState, failureCount, lastFailureTime := Closed, 0, None;
      totalQueued, totalFlushed, totalFailed, batchesProcessed, circuitOpens := 0, 0, 0, 0, 0;
    }

    ghost function View(): State
      reads this, chain.store
    {
      State(queue, retryQueue, circuitState, failureCount, lastFailureTime,
            totalQueued, totalFlushed, totalFailed, batchesProcessed, circuitOpens, Logged(chain.store.entries))
    }

    method Enqueue(e: AuditEntry, failing: Failures, now: real) returns (raised: bool)
      modifies this, chain.store
      ensures View() == Enqueued(config, old(View()), e, failing, now)
      ensures raised <==> Raises(config, Queued(old(View()), e), now)
      ensures !old(chain.Valid()) || chain.Valid()
    {
      totalQueued := totalQueued + 1;
      queue := queue + [e];
      raised := false;
      if |queue| >= config.batchSize {
        var _, error := Flush(failing, now);
        raised := error;
      }
    }

    /** Returns the number of entries flushed from the queue, retried entries not counted, and whether the call
        raised an error instead. */
    method Flush(failing: Failures, now: real) returns (flushed: int, raised: bool)
      modifies this, chain.store
      ensures View() == Flushed(config, old(View()), failing, now)
      ensures raised <==> Raises(config, old(View()), now)
      ensures flushed == FlushedCount(config, old(View()), failing, now)
      ensures !old(chain.Valid()) || chain.Valid()
    {
      if queue == [] {
        return 0, false;
      }
      if circuitState.Open? {
        var attempt := ShouldAttempt(now);
        if attempt {
          circuitState := HalfOpen;
        } else {
          MoveQueueToRetry();
          return 0, false;
        }
      }
      var entries := queue;
      queue := [];
      if config.batchSize == 0 {
        return 0, true;
      }
      var k := 0;
      flushed, raised := 0, false;
      if config.batchSize > 0 {
        flushed, k := ProcessEntries(entries, failing, now);
      }
      if circuitState.Closed? && retryQueue != [] {
        ProcessRetryQueue(failing, k);
      }
    }

    /** The loop over sub-batches; `k` counts the attempts made. */
    method ProcessEntries(entries: seq<AuditEntry>, failing: Failures, now: real) returns (flushed: int, k: nat)
      requires config.batchSize >= 1
      modifies this, chain.store
      ensures Progress(View(), k) == ProcessBatches(config, old(View()), entries, failing, 0, now)
      ensures flushed == totalFlushed - old(totalFlushed)
      ensures !old(chain.Valid()) || chain.Valid()
    {
      ghost var whole := ProcessBatches(config, View(), entries, failing, 0, now);
      var rest := entries;
      flushed, k := 0, 0;
      while rest != []
        invariant Remaining(config, View(), rest, failing, k, now, whole)
        invariant flushed == totalFlushed - old(totalFlushed)
        invariant !old(chain.Valid()) || chain.Valid()
        decreases |rest|
      {
        var count;
        count, k := ProcessNext(rest, failing, k, now, whole);
        flushed := flushed + count;
        rest := LaterBatches(config, rest);
      }
    }

    /** One turn of that loop: the next sub-batch of `rest`. */
    method ProcessNext(rest: seq<AuditEntry>, failing: Failures, k: nat, now: real, ghost whole: Progress)
      returns (flushed: int, k': nat)
      requires config.batchSize >= 1 && rest != []
      requires Remaining(config, View(), rest, failing, k, now, whole)
      modifies this, chain.store
      ensures Remaining(config, View(), LaterBatches(config, rest), failing, k', now, whole)
      ensures flushed == totalFlushed - old(totalFlushed)
      ensures !old(chain.Valid()) || chain.Valid()
    {
      var batch := FirstBatch(config, rest);
      var attempts, done := ProcessOneBatch(batch, failing, k, now);
      flushed := if done then |batch| else 0;
      k' := k + attempts;
      RemainingStep(config, old(View()), rest, failing, k, now, whole, View(), LaterBatches(config, rest), k');
    }

    /** The body of the flush loop for one sub-batch. */
    method ProcessOneBatch(batch: seq<AuditEntry>, failing: Failures, k: nat, now: real)
      returns (attempts: nat, done: bool)
      modifies this, chain.store
      ensures View() == ProcessBatch(config, old(View()), batch, failing, k, now)
      ensures attempts == Attempts(batch, failing, k)
      ensures done <==> Appendable(batch, failing, k) == |batch|
      ensures !old(chain.Valid()) || chain.Valid()
    {
      var n := AppendWhileOk(batch, failing, k);
      done := n == |batch|;
      if done {
        attempts := n;
        totalFlushed := totalFlushed + |batch|;
        batchesProcessed := batchesProcessed + 1;
        NoteSuccess();
      } else {
        attempts := n + 1;
        totalFailed := totalFailed + |batch|;
        NoteFailure(now);
        retryQueue := retryQueue + batch;
      }
    }

    method NoteSuccess()
      modifies this
      ensures View() == RecordSuccess(old(View()))
    {
      failureCount := 0;
      circuitState := Closed;
    }

    method NoteFailure(now: real)
      modifies this
      ensures View() == RecordFailure(config, old(View()), now)
    {
      failureCount := failureCount + 1;
      lastFailureTime := Some(now);
      if failureCount >= config.threshold {
        circuitState := Open;
        circuitOpens := circuitOpens + 1;
      }
    }

    /** Appends entries until an attempt fails; what was appended before the failure stays in the chain. */
    method AppendWhileOk(batch: seq<AuditEntry>, failing: Failures, k: nat) returns (n: nat)
      modifies chain.store
      ensures n == Appendable(batch, failing, k)
      ensures Logged(chain.store.entries) == old(Logged(chain.store.entries)) + batch[..n]
      ensures !old(chain.Valid()) || chain.Valid()
    {
      n := 0;
      ghost var log := Logged(chain.store.entries);
      assert batch[0..] == batch && log + batch[..0] == log;
      while n < |batch| && k + n !in failing
        invariant n <= |batch|
        invariant n + Appendable(batch[n..], failing, k + n) == Appendable(batch, failing, k)
        invariant Logged(chain.store.entries) == log + batch[..n]
        invariant !old(chain.Valid()) || chain.Valid()
      {
        AppendableStep(batch, failing, k, n);
        PrefixSnoc(batch, n);
        Reassociate(log, batch[..n], [batch[n]]);
        AppendOne(batch[n]);
        n := n + 1;
      }
    }

    method AppendOne(e: AuditEntry)
      modifies chain.store
      ensures Logged(chain.store.entries) == old(Logged(chain.store.entries)) + [e]
      ensures !old(chain.Valid()) || chain.Valid()
    {
      var _ := chain.CreateChainEntry(e);
    }

    method MoveQueueToRetry()
      modifies this
      ensures View() == old(View()).(retry := old(retryQueue) + old(queue), queue := [])
    {
      while queue != []
        invariant retryQueue + queue == old(retryQueue) + old(queue)
        invariant View() == old(View()).(queue := queue, retry := retryQueue)
        decreases |queue|
      {
        Reassociate(retryQueue, [queue[0]], queue[1..]);
        assert queue == [queue[0]] + queue[1..];
        retryQueue := retryQueue + [queue[0]];
        queue := queue[1..];
      }
    }

    method ShouldAttempt(now: real) returns (attempt: bool)
      ensures attempt <==> ShouldAttemptRecovery(config, View(), now)
    {
      if lastFailureTime.None? {
        return true;
      }
      attempt := now - lastFailureTime.value >= config.recovery;
    }

    method ProcessRetryQueue(failing: Failures, k: nat)
      modifies this, chain.store
      ensures View() == RetryEach(old(View()).(retry := []), old(retryQueue), failing, k)
      ensures !old(chain.Valid()) || chain.Valid()
    {
      var entries := retryQueue;
      retryQueue := [];
      assert entries[0..] == entries;
      for i := 0 to |entries|
        invariant RetryEach(View(), entries[i..], failing, k + i)
               == RetryEach(old(View()).(retry := []), entries, failing, k)
        invariant !old(chain.Valid()) || chain.Valid()
      {
        assert entries[i..][1..] == entries[i + 1..];
        if k + i !in failing {
          AppendOne(entries[i]);
          totalFlushed := totalFlushed + 1;
        } else {
          retryQueue := retryQueue + [entries[i]];
        }
      }
    }
  }

  /** What `Flush` returns: the growth of `totalFlushed` before the retry pass. */
  function FlushedCount(c: Config, s: State, failing: Failures, now: real): int {
    if s.queue == [] || Blocked(c, s, now) || c.batchSize == 0 then 0
    else SubBatches(c, Probing(s), s.queue, failing, now).state.totalFlushed - s.totalFlushed
  }
}

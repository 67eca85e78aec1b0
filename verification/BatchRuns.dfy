/** What every run of the batch processor keeps: nothing is lost, and the circuit breaker behaves. */
module BatchRuns {
  import opened HashChain
  import opened Options
  import opened Sequences
  import opened BatchProcessor

  /** A public call. The background loop and `stop` are flushes. */
  datatype Event =
    | EnqueueEvent(entry: AuditEntry, failing: Failures, now: real)
    | FlushEvent(failing: Failures, now: real)

  function Step(c: Config, s: State, e: Event): State {
    match e
    case EnqueueEvent(entry, failing, now) => Enqueued(c, s, entry, failing, now)
    case FlushEvent(failing, now) => Flushed(c, s, failing, now)
  }

  function Run(c: Config, events: seq<Event>): State {
    if events == [] then Initial else Step(c, Run(c, events[..|events| - 1]), events[|events| - 1])
  }

  /** The enqueued entries, in order. */
  function Submitted(events: seq<Event>): seq<AuditEntry> {
    if events == [] then []
    else
      var last := events[|events| - 1];
      var earlier := Submitted(events[..|events| - 1]);
      if last.EnqueueEvent? then earlier + [last.entry] else earlier
  }

  // ---------------------------------------------------------------------------------------------
  // A flush below the batch size handles exactly one sub-batch
  // ---------------------------------------------------------------------------------------------

  /** The state in which an event reaches its flush, if it does. */
  function Before(s: State, e: Event): State {
    match e
    case EnqueueEvent(entry, _, _) => Queued(s, entry)
    case FlushEvent(_, _) => s
  }

  predicate Flushes(c: Config, s: State, e: Event) {
    match e
    case EnqueueEvent(_, _, _) => |s.queue| + 1 >= c.batchSize
    case FlushEvent(_, _) => s.queue != []
  }

  lemma StepIsFlush(c: Config, s: State, e: Event)
    ensures Step(c, s, e) == if Flushes(c, s, e) then Flushed(c, Before(s, e), e.failing, e.now) else Before(s, e)
  {
  }

  /** An unblocked flush of at most one batch: the whole queue is one sub-batch, then the retry pass runs if
      the circuit is closed. */
  function FlushedOnce(c: Config, s: State, failing: Failures, now: real): State {
    var done := ProcessBatch(c, Probing(s), s.queue, failing, 0, now);
    if done.circuit.Closed? && done.retry != []
    then RetryEach(done.(retry := []), done.retry, failing, Attempts(s.queue, failing, 0)) else done
  }

  lemma OneSubBatch(c: Config, s: State, failing: Failures, now: real)
    requires c.batchSize >= 1 && 0 < |s.queue| <= c.batchSize && !Blocked(c, s, now)
    ensures ProcessBatches(c, Probing(s), s.queue, failing, 0, now)
            == Progress(ProcessBatch(c, Probing(s), s.queue, failing, 0, now), Attempts(s.queue, failing, 0))
    ensures Flushed(c, s, failing, now) == FlushedOnce(c, s, failing, now)
  {
    assert FirstBatch(c, s.queue) == s.queue;
    assert LaterBatches(c, s.queue) == [];
  }

  function RetryOne(s: State, e: AuditEntry, fails: bool): State {
    if fails then s.(retry := s.retry + [e]) else s.(log := s.log + [e], totalFlushed := s.totalFlushed + 1)
  }

  lemma RetryOneAccounts(s: State, e: AuditEntry, fails: bool)
    ensures var s' := RetryOne(s, e, fails);
            multiset(s'.log) + multiset(s'.retry) == multiset(s.log) + multiset(s.retry) + multiset{e}
  {
    MultisetSnoc(s.log, e);
    MultisetSnoc(s.retry, e);
  }

  lemma MultisetCons<T>(s: seq<T>)
    requires s != []
    ensures multiset(s) == multiset{s[0]} + multiset(s[1..])
  {
    assert s == [s[0]] + s[1..];
  }

  lemma {:induction false} RetryKeeps(s: State, entries: seq<AuditEntry>, failing: Failures, k: nat)
    ensures var s' := RetryEach(s, entries, failing, k);
            && s'.queue == s.queue && s'.circuit == s.circuit && s'.failureCount == s.failureCount
            && s'.lastFailure == s.lastFailure && s'.totalQueued == s.totalQueued
            && s'.totalFlushed + |s'.retry| == s.totalFlushed + |s.retry| + |entries|
            && multiset(s'.log) + multiset(s'.retry) == multiset(s.log) + multiset(s.retry) + multiset(entries)
    decreases |entries|
  {
    if entries != [] {
      RetryKeeps(RetryOne(s, entries[0], k in failing), entries[1..], failing, k + 1);
      RetryOneAccounts(s, entries[0], k in failing);
      MultisetCons(entries);
    }
  }

  // ---------------------------------------------------------------------------------------------
  // The invariant of every run
  // ---------------------------------------------------------------------------------------------

  /** What every run keeps, whatever the threshold: the counters balance and less than one batch is queued. */
  ghost predicate Balanced(c: Config, s: State) {
    && s.totalQueued == s.totalFlushed + |s.queue| + |s.retry|
    && |s.queue| < c.batchSize
  }

  /** For every threshold: no call leaves the circuit half open, and it is open only after enough failures. */
  ghost predicate CircuitOk(c: Config, s: State) {
    && s.failureCount >= 0
    && !s.circuit.HalfOpen?
    && (s.circuit.Open? ==> s.failureCount >= c.threshold && s.lastFailure.Some?)
    && (c.threshold >= 1 ==> (s.circuit.Closed? <==> s.failureCount < c.threshold))
  }

  lemma FlushedOnceBalances(c: Config, s: State, failing: Failures, now: real)
    requires c.batchSize >= 1 && s.totalQueued == s.totalFlushed + |s.queue| + |s.retry|
    ensures Balanced(c, FlushedOnce(c, s, failing, now))
    ensures FlushedOnce(c, s, failing, now).queue == []
  {
    var done := ProcessBatch(c, Probing(s), s.queue, failing, 0, now);
    if done.circuit.Closed? && done.retry != [] {
      RetryKeeps(done.(retry := []), done.retry, failing, Attempts(s.queue, failing, 0));
    }
  }

  lemma FlushedOnceCircuit(c: Config, s: State, failing: Failures, now: real)
    requires CircuitOk(c, s)
    ensures CircuitOk(c, FlushedOnce(c, s, failing, now))
  {
    var done := ProcessBatch(c, Probing(s), s.queue, failing, 0, now);
    if done.circuit.Closed? && done.retry != [] {
      RetryKeeps(done.(retry := []), done.retry, failing, Attempts(s.queue, failing, 0));
    }
  }

  lemma StepBalances(c: Config, s: State, e: Event)
    requires c.batchSize >= 1 && Balanced(c, s)
    ensures Balanced(c, Step(c, s, e))
    ensures Flushes(c, s, e) ==> Step(c, s, e).queue == []
  {
    StepIsFlush(c, s, e);
    if Flushes(c, s, e) {
      var b := Before(s, e);
      if !Blocked(c, b, e.now) {
        OneSubBatch(c, b, e.failing, e.now);
        FlushedOnceBalances(c, b, e.failing, e.now);
      }
    }
  }

  lemma StepCircuit(c: Config, s: State, e: Event)
    requires c.batchSize >= 1 && Balanced(c, s) && CircuitOk(c, s)
    ensures CircuitOk(c, Step(c, s, e))
  {
    StepIsFlush(c, s, e);
    if Flushes(c, s, e) {
      var b := Before(s, e);
      if !Blocked(c, b, e.now) {
        OneSubBatch(c, b, e.failing, e.now);
        FlushedOnceCircuit(c, b, e.failing, e.now);
      }
    }
  }

  /** After every run, whatever failed and whatever the threshold: the counters balance, and fewer than one
      batch is queued, so the next flush handles exactly one sub-batch. */
  lemma {:induction false} EveryRunBalances(c: Config, events: seq<Event>)
    requires c.batchSize >= 1
    ensures Balanced(c, Run(c, events))
  {
    if events != [] {
      EveryRunBalances(c, events[..|events| - 1]);
      StepBalances(c, Run(c, events[..|events| - 1]), events[|events| - 1]);
    }
  }

  /** After every run, whatever failed and whatever the configuration: HALF_OPEN never survives a call, and OPEN
      means at least `threshold` consecutive failures; with a threshold of at least 1, CLOSED holds exactly while
      the consecutive failures are below it. */
  lemma {:induction false} EveryRun(c: Config, events: seq<Event>)
    ensures CircuitOk(c, Run(c, events))
  {
    if c.batchSize < 1 {
      SmallBatchHoldsNothing(c, events);
    } else if events != [] {
      EveryRun(c, events[..|events| - 1]);
      EveryRunBalances(c, events[..|events| - 1]);
      StepCircuit(c, Run(c, events[..|events| - 1]), events[|events| - 1]);
    }
  }

  predicate ClosedRule(c: Config, events: seq<Event>) {
    Run(c, events).circuit.Closed? <==> Run(c, events).failureCount < c.threshold
  }

  /** A threshold below 1 breaks the CLOSED rule at once: it holds in all runs exactly when it is at least 1. */
  lemma ThresholdMatters(c: Config)
    ensures c.threshold >= 1 <==> forall events :: ClosedRule(c, events)
  {
    if c.threshold >= 1 {
      forall events
        ensures ClosedRule(c, events)
      {
        EveryRun(c, events);
      }
    } else {
      assert !ClosedRule(c, []);
    }
  }

  /** With a batch size below 1 every flush takes the queue and appends nothing: after any run nothing is
      queued, nothing waits for retry and nothing has been written. */
  lemma {:induction false} SmallBatchHoldsNothing(c: Config, events: seq<Event>)
    requires c.batchSize < 1
    ensures var s := Run(c, events);
            && s.queue == [] && s.retry == [] && s.log == []
            && s.circuit.Closed? && s.failureCount == 0 && s.totalFlushed == 0
  {
    if events != [] {
      SmallBatchHoldsNothing(c, events[..|events| - 1]);
      StepIsFlush(c, Run(c, events[..|events| - 1]), events[|events| - 1]);
    }
  }

  // ---------------------------------------------------------------------------------------------
  // Nothing is lost
  // ---------------------------------------------------------------------------------------------

  /** The entries that a call appends to the chain although it re-queues them: the prefix of a sub-batch
      before the attempt that failed. */
  function Repeated(c: Config, s: State, e: Event): seq<AuditEntry> {
    var b := Before(s, e);
    var n := Appendable(b.queue, e.failing, 0);
    if Flushes(c, s, e) && !Blocked(c, b, e.now) && n < |b.queue| then b.queue[..n] else []
  }

  function AllRepeated(c: Config, events: seq<Event>): seq<AuditEntry> {
    if events == [] then []
    else
      var init := events[..|events| - 1];
      AllRepeated(c, init) + Repeated(c, Run(c, init), events[|events| - 1])
  }

  /** Everything the processor holds or has written. */
  function Everything(s: State): multiset<AuditEntry> {
    multiset(s.log) + multiset(s.queue) + multiset(s.retry)
  }

  lemma BatchContents(c: Config, s: State, failing: Failures, now: real)
    ensures var n := Appendable(s.queue, failing, 0);
            var done := ProcessBatch(c, Probing(s), s.queue, failing, 0, now);
            && done.queue == []
            && done.log == s.log + s.queue[..n]
            && done.retry == if n < |s.queue| then s.retry + s.queue else s.retry
  {
  }

  lemma BatchAccounts(c: Config, s: State, failing: Failures, now: real)
    ensures var n := Appendable(s.queue, failing, 0);
            Everything(ProcessBatch(c, Probing(s), s.queue, failing, 0, now))
            == Everything(s) + if n < |s.queue| then multiset(s.queue[..n]) else multiset{}
  {
    var n := Appendable(s.queue, failing, 0);
    BatchContents(c, s, failing, now);
    assert s.queue[..|s.queue|] == s.queue;
    assert multiset(s.log + s.queue[..n]) == multiset(s.log) + multiset(s.queue[..n]);
    assert multiset(s.retry + s.queue) == multiset(s.retry) + multiset(s.queue);
  }

  lemma SameEverything(s: State, s': State)
    requires s'.queue == s.queue
    requires multiset(s'.log) + multiset(s'.retry) == multiset(s.log) + multiset(s.retry)
    ensures Everything(s') == Everything(s)
  {
    assert Everything(s) == (multiset(s.log) + multiset(s.retry)) + multiset(s.queue);
    assert Everything(s') == (multiset(s'.log) + multiset(s'.retry)) + multiset(s'.queue);
  }

  lemma RetryAccounts(s: State, failing: Failures, k: nat)
    ensures Everything(RetryEach(s.(retry := []), s.retry, failing, k)) == Everything(s)
  {
    RetryKeeps(s.(retry := []), s.retry, failing, k);
    SameEverything(s, RetryEach(s.(retry := []), s.retry, failing, k));
  }

  lemma FlushedOnceContents(c: Config, s: State, failing: Failures, now: real)
    ensures var n := Appendable(s.queue, failing, 0);
            Everything(FlushedOnce(c, s, failing, now))
            == Everything(s) + if n < |s.queue| then multiset(s.queue[..n]) else multiset{}
  {
    BatchAccounts(c, s, failing, now);
    RetryAccounts(ProcessBatch(c, Probing(s), s.queue, failing, 0, now), failing, Attempts(s.queue, failing, 0));
  }

  /** The first step of conservation: one call adds what it enqueues and what it repeats, nothing else. */
  lemma StepContents(c: Config, s: State, e: Event)
    requires c.batchSize >= 1 && |s.queue| < c.batchSize
    ensures Everything(Step(c, s, e)) == Everything(Before(s, e)) + multiset(Repeated(c, s, e))
  {
    StepIsFlush(c, s, e);
    var b := Before(s, e);
    if Flushes(c, s, e) {
      if Blocked(c, b, e.now) {
        assert multiset(b.retry + b.queue) == multiset(b.retry) + multiset(b.queue);
      } else {
        OneSubBatch(c, b, e.failing, e.now);
        FlushedOnceContents(c, b, e.failing, e.now);
      }
    }
  }

  lemma BeforeContents(s: State, e: Event)
    ensures Everything(Before(s, e)) == Everything(s) + if e.EnqueueEvent? then multiset{e.entry} else multiset{}
  {
  }

  lemma SubmittedContents(events: seq<Event>)
    requires events != []
    ensures var e := events[|events| - 1];
            multiset(Submitted(events))
            == multiset(Submitted(events[..|events| - 1])) + if e.EnqueueEvent? then multiset{e.entry} else multiset{}
  {
  }

  /** Conservation over every run with arbitrary append failures: what is in the chain, the queue and the
      retry queue is exactly what was enqueued plus the repeated prefixes, with multiplicity. */
  lemma {:induction false} NothingIsLost(c: Config, events: seq<Event>)
    requires c.batchSize >= 1
    ensures Everything(Run(c, events)) == multiset(Submitted(events)) + multiset(AllRepeated(c, events))
  {
    if events != [] {
      var init, last := events[..|events| - 1], events[|events| - 1];
      var s := Run(c, init);
      NothingIsLost(c, init);
      EveryRunBalances(c, init);
      StepContents(c, s, last);
      BeforeContents(s, last);
      SubmittedContents(events);
      var earlier, now := AllRepeated(c, init), Repeated(c, s, last);
      assert multiset(earlier + now) == multiset(earlier) + multiset(now);
      assert AllRepeated(c, events) == earlier + now;
    }
  }

  /** So every enqueued entry is in the chain, the queue or the retry queue; and entries are held exactly
      once over all runs in which no sub-batch failed after a successful append. */
  lemma EveryEntryIsKept(c: Config, events: seq<Event>)
    requires c.batchSize >= 1
    ensures multiset(Submitted(events)) <= Everything(Run(c, events))
    ensures Everything(Run(c, events)) == multiset(Submitted(events)) <==> AllRepeated(c, events) == []
  {
    NothingIsLost(c, events);
    var repeated := AllRepeated(c, events);
    if repeated != [] {
      assert repeated[0] in multiset(repeated);
    }
  }

  const NO_ENTRY := AuditEntry("", AuditData("", "", Utc, ""))

  ghost predicate Kept(c: Config, events: seq<Event>) {
    multiset(Submitted(events)) <= Everything(Run(c, events))
  }

  ghost predicate KeptOnce(c: Config, events: seq<Event>) {
    Everything(Run(c, events)) == multiset(Submitted(events))
  }

  lemma SmallBatchLoses(c: Config, e: AuditEntry)
    requires c.batchSize < 1
    ensures !Kept(c, [EnqueueEvent(e, {}, 0.0)])
  {
    var event := EnqueueEvent(e, {}, 0.0);
    SmallBatchHoldsNothing(c, [event]);
    assert [event][..0] == [];
    assert Submitted([event]) == [e];
    assert e in multiset([e]);
  }

  /** In all runs every enqueued entry is in the chain, the queue or the retry queue, if and only if the batch
      size is at least 1. */
  lemma NothingIsLostIff(c: Config)
    ensures (forall events :: Kept(c, events)) <==> c.batchSize >= 1
  {
    if c.batchSize >= 1 {
      forall events
        ensures Kept(c, events)
      {
        EveryEntryIsKept(c, events);
      }
    } else {
      SmallBatchLoses(c, NO_ENTRY);
    }
  }

  // ---------------------------------------------------------------------------------------------
  // Nothing is duplicated exactly for a batch size of 1
  // ---------------------------------------------------------------------------------------------

  /** A batch of one entry has no prefix to repeat. */
  lemma {:induction false} SingleBatchesRepeatNothing(c: Config, events: seq<Event>)
    requires c.batchSize == 1
    ensures AllRepeated(c, events) == []
  {
    if events != [] {
      SingleBatchesRepeatNothing(c, events[..|events| - 1]);
      EveryRunBalances(c, events[..|events| - 1]);
    }
  }

  /** Enqueues all entries, the last call with a failure on its second attempt. */
  function FailingRun(entries: seq<AuditEntry>, last: AuditEntry): seq<Event> {
    Enqueues(entries) + [EnqueueEvent(last, {1}, 0.0)]
  }

  function Enqueues(entries: seq<AuditEntry>): seq<Event> {
    if entries == [] then []
    else Enqueues(entries[..|entries| - 1]) + [EnqueueEvent(entries[|entries| - 1], {}, 0.0)]
  }

  lemma RunSnoc(c: Config, events: seq<Event>, e: Event)
    ensures Run(c, events + [e]) == Step(c, Run(c, events), e)
    ensures AllRepeated(c, events + [e]) == AllRepeated(c, events) + Repeated(c, Run(c, events), e)
    ensures Submitted(events + [e]) == if e.EnqueueEvent? then Submitted(events) + [e.entry] else Submitted(events)
  {
    assert (events + [e])[..|events|] == events;
  }

  lemma EnqueueWaits(c: Config, s: State, e: AuditEntry)
    requires |s.queue| + 1 < c.batchSize
    ensures Step(c, s, EnqueueEvent(e, {}, 0.0)) == Queued(s, e)
    ensures Repeated(c, s, EnqueueEvent(e, {}, 0.0)) == []
  {
  }

  /** The state with the entries queued and nothing else done. */
  function FullQueue(entries: seq<AuditEntry>): State {
    Initial.(queue := entries, totalQueued := |entries|)
  }

  /** After these events the entries are queued, in order, and nothing else has happened. */
  ghost predicate Waits(c: Config, events: seq<Event>, entries: seq<AuditEntry>) {
    Run(c, events) == FullQueue(entries) && Submitted(events) == entries && AllRepeated(c, events) == []
  }

  lemma OneMoreWaits(c: Config, events: seq<Event>, entries: seq<AuditEntry>, e: AuditEntry)
    requires Waits(c, events, entries) && |entries| + 1 < c.batchSize
    ensures Waits(c, events + [EnqueueEvent(e, {}, 0.0)], entries + [e])
  {
    RunSnoc(c, events, EnqueueEvent(e, {}, 0.0));
    EnqueueWaits(c, FullQueue(entries), e);
  }

  lemma {:induction false} EnqueuesWait(c: Config, entries: seq<AuditEntry>)
    requires |entries| < c.batchSize
    ensures Waits(c, Enqueues(entries), entries)
  {
    if entries != [] {
      var init, last := entries[..|entries| - 1], entries[|entries| - 1];
      EnqueuesWait(c, init);
      OneMoreWaits(c, Enqueues(init), init, last);
      assert entries == init + [last];
    }
  }

  lemma SecondFails(batch: seq<AuditEntry>)
    requires |batch| >= 2
    ensures Appendable(batch, {1}, 0) == 1
  {
    assert Appendable(batch[1..], {1}, 1) == 0;
  }

  /** The last call of the failing run. */
  lemma FillingCall(c: Config, events: seq<Event>, entries: seq<AuditEntry>, e: AuditEntry, failing: Failures)
    requires Waits(c, events, entries) && |entries| + 1 == c.batchSize
    ensures var full, event := entries + [e], EnqueueEvent(e, failing, 0.0);
            && Run(c, events + [event]) == Flushed(c, FullQueue(full), failing, 0.0)
            && Submitted(events + [event]) == full
            && AllRepeated(c, events + [event])
               == if Appendable(full, failing, 0) < |full| then full[..Appendable(full, failing, 0)] else []
  {
    var event := EnqueueEvent(e, failing, 0.0);
    RunSnoc(c, events, event);
    StepIsFlush(c, FullQueue(entries), event);
    EmptyHead(Repeated(c, FullQueue(entries), event));
  }

  lemma FailingRunSplits(c: Config, entries: seq<AuditEntry>, last: AuditEntry)
    requires |entries| + 1 == c.batchSize >= 2
    ensures var full := entries + [last];
            && Run(c, FailingRun(entries, last)) == Flushed(c, FullQueue(full), {1}, 0.0)
            && Submitted(FailingRun(entries, last)) == full
            && AllRepeated(c, FailingRun(entries, last)) == full[..1]
  {
    EnqueuesWait(c, entries);
    FillingCall(c, Enqueues(entries), entries, last, {1});
    SecondFails(entries + [last]);
  }

  /** For every batch size of 2 or more, one failure on the second entry of a full batch duplicates the first:
      it is written, and then either everything is written again by the retry pass of the same flush, or, if
      that one failure opens the circuit, all entries wait for retry. */
  lemma EntryWrittenTwice(c: Config, entries: seq<AuditEntry>, last: AuditEntry)
    requires |entries| + 1 == c.batchSize >= 2
    ensures var full, s := entries + [last], Run(c, FailingRun(entries, last));
            && Submitted(FailingRun(entries, last)) == full
            && Everything(s) == multiset(full) + multiset(full[..1])
            && (if c.threshold >= 2 then s.log == full[..1] + full && s.retry == []
                else s.log == full[..1] && s.retry == full)
  {
    NothingIsLost(c, FailingRun(entries, last));
    FailingRunSplits(c, entries, last);
    FailedFlush(c, FullQueue(entries + [last]));
  }

  lemma FailedBatch(c: Config, s: State)
    requires |s.queue| == c.batchSize >= 2 && s == FullQueue(s.queue)
    ensures var done := ProcessBatch(c, Probing(s), s.queue, {1}, 0, 0.0);
            && done.log == s.queue[..1] && done.retry == s.queue && (done.circuit.Closed? <==> c.threshold >= 2)
            && Attempts(s.queue, {1}, 0) == 2
  {
    SecondFails(s.queue);
    BatchContents(c, s, {1}, 0.0);
    EmptyHead(s.queue);
    EmptyHead(s.queue[..1]);
  }

  lemma FailedFlush(c: Config, s: State)
    requires |s.queue| == c.batchSize >= 2 && s == FullQueue(s.queue)
    ensures var s' := Flushed(c, s, {1}, 0.0);
            if c.threshold >= 2 then s'.log == s.queue[..1] + s.queue && s'.retry == []
            else s'.log == s.queue[..1] && s'.retry == s.queue
  {
    FailedBatch(c, s);
    OneSubBatch(c, s, {1}, 0.0);
    var done := ProcessBatch(c, Probing(s), s.queue, {1}, 0, 0.0);
    RetryAll(done.(retry := []), s.queue, {1}, 2);
  }

  /** In all runs every entry is held exactly once, if and only if the batch size is 1. */
  lemma KeptOnceIff(c: Config)
    ensures (forall events :: KeptOnce(c, events)) <==> c.batchSize == 1
  {
    if c.batchSize == 1 {
      forall events
        ensures KeptOnce(c, events)
      {
        NothingIsLost(c, events);
        SingleBatchesRepeatNothing(c, events);
      }
    } else if c.batchSize < 1 {
      SmallBatchLoses(c, NO_ENTRY);
      assert !KeptOnce(c, [EnqueueEvent(NO_ENTRY, {}, 0.0)]);
    } else {
      LargeBatchDuplicates(c, seq(c.batchSize - 1, i => NO_ENTRY));
    }
  }

  lemma AddedElement<T>(s: multiset<T>, more: multiset<T>, x: T)
    requires x in more
    ensures s + more != s
  {
    assert (s + more)[x] > s[x];
  }

  lemma LargeBatchDuplicates(c: Config, entries: seq<AuditEntry>)
    requires |entries| + 1 == c.batchSize >= 2
    ensures !KeptOnce(c, FailingRun(entries, NO_ENTRY))
  {
    var full := entries + [NO_ENTRY];
    EntryWrittenTwice(c, entries, NO_ENTRY);
    AddedElement(multiset(full), multiset(full[..1]), full[0]);
  }

  // ---------------------------------------------------------------------------------------------
  // Without failures: exact order; with a healthy circuit: full recovery
  // ---------------------------------------------------------------------------------------------

  lemma {:induction false} AllAppendable(batch: seq<AuditEntry>, failing: Failures, k: nat)
    requires failing == {}
    ensures Appendable(batch, failing, k) == |batch|
    decreases |batch|
  {
    if batch != [] {
      AllAppendable(batch[1..], failing, k + 1);
    }
  }

  lemma {:induction false} RetryAll(s: State, entries: seq<AuditEntry>, failing: Failures, k: nat)
    requires forall f | f in failing :: f < k
    ensures RetryEach(s, entries, failing, k) == s.(log := s.log + entries, totalFlushed := s.totalFlushed + |entries|)
    decreases |entries|
  {
    if entries == [] {
      assert s.log + entries == s.log;
    } else {
      RetryAll(s.(log := s.log + [entries[0]], totalFlushed := s.totalFlushed + 1), entries[1..], failing, k + 1);
      assert entries == [entries[0]] + entries[1..];
      Reassociate(s.log, [entries[0]], entries[1..]);
    }
  }

  /** One unblocked flush without failures writes the queue and then the retry queue, in order, empties
      both, and closes the circuit. */
  lemma HealthyFlushDrains(c: Config, s: State, now: real)
    requires c.batchSize >= 1 && 0 < |s.queue| <= c.batchSize && !Blocked(c, s, now)
    ensures var s' := Flushed(c, s, {}, now);
            && s'.log == s.log + s.queue + s.retry
            && s'.queue == [] && s'.retry == []
            && s'.circuit.Closed? && s'.failureCount == 0
  {
    OneSubBatch(c, s, {}, now);
    AllAppendable(s.queue, {}, 0);
    BatchContents(c, s, {}, now);
    assert s.queue[..|s.queue|] == s.queue;
    var done := ProcessBatch(c, Probing(s), s.queue, {}, 0, now);
    if done.retry != [] {
      RetryAll(done.(retry := []), done.retry, {}, |s.queue|);
    } else {
      assert s.log + s.queue + [] == s.log + s.queue;
    }
  }

  /** If no attempt ever fails, the chain followed by the queue is the enqueue order, each entry once. */
  lemma {:induction false} NoFailuresExactOrder(c: Config, events: seq<Event>)
    requires c.batchSize >= 1
    requires forall i | 0 <= i < |events| :: events[i].failing == {}
    ensures var s := Run(c, events);
            && s.log + s.queue == Submitted(events) && s.retry == [] && s.circuit.Closed?
            && |s.queue| < c.batchSize
  {
    if events != [] {
      var init, last := events[..|events| - 1], events[|events| - 1];
      var s := Run(c, init);
      NoFailuresExactOrder(c, init);
      StepIsFlush(c, s, last);
      var b := Before(s, last);
      assert b.log + b.queue == Submitted(events) by {
        if last.EnqueueEvent? {
          Reassociate(s.log, s.queue, [last.entry]);
        }
      }
      if Flushes(c, s, last) {
        HealthyFlushDrains(c, b, last.now);
        assert b.log + b.queue + [] == b.log + b.queue;
      }
    }
  }

  // ---------------------------------------------------------------------------------------------
  // The open circuit
  // ---------------------------------------------------------------------------------------------

  function RunFrom(c: Config, s: State, events: seq<Event>): State {
    if events == [] then s else Step(c, RunFrom(c, s, events[..|events| - 1]), events[|events| - 1])
  }

  lemma {:induction false} RunContinues(c: Config, events: seq<Event>, later: seq<Event>)
    ensures Run(c, events + later) == RunFrom(c, Run(c, events), later)
  {
    if later == [] {
      assert events + later == events;
    } else {
      var init, last := later[..|later| - 1], later[|later| - 1];
      RunContinues(c, events, init);
      assert later == init + [last];
      Reassociate(events, init, [last]);
      RunSnoc(c, events + init, last);
    }
  }

  lemma {:induction false} BlockedRunAppendsNothing(c: Config, s: State, later: seq<Event>, until: real)
    requires s.circuit.Open? && s.lastFailure.Some? && until == s.lastFailure.value + c.recovery
    requires forall i | 0 <= i < |later| :: later[i].now < until
    ensures var s' := RunFrom(c, s, later);
            && s'.log == s.log && s'.circuit.Open? && s'.lastFailure == s.lastFailure
            && s'.circuitOpens == s.circuitOpens
  {
    if later != [] {
      BlockedRunAppendsNothing(c, s, later[..|later| - 1], until);
      StepIsFlush(c, RunFrom(c, s, later[..|later| - 1]), later[|later| - 1]);
    }
  }

  /** Once a run has opened the circuit, no sequence of calls appends anything or closes it before the recovery
      time after the last failure has passed, and every entry enqueued meanwhile is kept. */
  lemma OpenAppendsNothing(c: Config, events: seq<Event>, later: seq<Event>)
    requires Run(c, events).circuit.Open?
    requires forall i | 0 <= i < |later| ::
               Run(c, events).lastFailure.Some? ==> later[i].now < Run(c, events).lastFailure.value + c.recovery
    ensures Run(c, events).lastFailure.Some?
    ensures Run(c, events + later).log == Run(c, events).log && Run(c, events + later).circuit.Open?
    ensures Kept(c, events + later)
  {
    EveryRun(c, events);
    var s := Run(c, events);
    BlockedRunAppendsNothing(c, s, later, s.lastFailure.value + c.recovery);
    RunContinues(c, events, later);
    if c.batchSize < 1 {
      SmallBatchHoldsNothing(c, events);
    } else {
      EveryEntryIsKept(c, events + later);
    }
  }

  /** A failed probe reopens the circuit at once, restarts the recovery clock and keeps the whole queue for
      retry; a successful one closes it. */
  lemma ProbeDecides(c: Config, s: State, failing: Failures, now: real)
    requires 0 < |s.queue| <= c.batchSize
    requires s.circuit.Open? && s.failureCount >= c.threshold && !Blocked(c, s, now)
    ensures var s' := Flushed(c, s, failing, now);
            if Appendable(s.queue, failing, 0) < |s.queue|
            then s'.circuit.Open? && s'.lastFailure == Some(now) && s'.circuitOpens == s.circuitOpens + 1
                 && s'.retry == s.retry + s.queue
            else s'.circuit.Closed? && s'.failureCount == 0
  {
    OneSubBatch(c, s, failing, now);
    BatchContents(c, s, failing, now);
    var done := ProcessBatch(c, Probing(s), s.queue, failing, 0, now);
    RetryKeeps(done.(retry := []), done.retry, failing, Attempts(s.queue, failing, 0));
  }
}

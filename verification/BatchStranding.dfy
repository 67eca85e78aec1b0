/** Entries waiting for retry: when a flush writes them, and when no flush ever will. */
module BatchStranding {
  import opened BatchProcessor
  import opened BatchRuns
  import HashChain
  import opened Sequences

  // ---------------------------------------------------------------------------------------------
  // A healthy flush drains both queues unless there is nothing in the first
  // ---------------------------------------------------------------------------------------------

  /** A flush finds nothing to do in an empty queue and returns at once, whatever waits for retry. */
  lemma EmptyQueueFlush(c: Config, s: State, e: Event)
    requires s.queue == [] && e.FlushEvent?
    ensures Step(c, s, e) == s
  {
  }

  /** After any run, an unblocked flush in which no attempt fails leaves nothing queued and nothing waiting for
      retry if and only if something was queued before or nothing was waiting. */
  lemma DrainsIffQueued(c: Config, events: seq<Event>, now: real)
    requires c.batchSize >= 1 && !Blocked(c, Run(c, events), now)
    ensures var s, s' := Run(c, events), Run(c, events + [FlushEvent({}, now)]);
            s'.queue == [] && s'.retry == [] <==> s.queue != [] || s.retry == []
  {
    var s := Run(c, events);
    RunSnoc(c, events, FlushEvent({}, now));
    EveryRunBalances(c, events);
    if s.queue == [] {
      EmptyQueueFlush(c, s, FlushEvent({}, now));
    } else {
      HealthyFlushDrains(c, s, now);
    }
  }

  // ---------------------------------------------------------------------------------------------
  // Stranded entries
  // ---------------------------------------------------------------------------------------------

  ghost predicate OnlyFlushes(events: seq<Event>) {
    forall i | 0 <= i < |events| :: events[i].FlushEvent?
  }

  /** With an empty queue no number of flushes changes anything, whatever the circuit and the chain do. */
  lemma {:induction false} FlushesAloneDoNothing(c: Config, s: State, flushes: seq<Event>)
    requires s.queue == [] && OnlyFlushes(flushes)
    ensures RunFrom(c, s, flushes) == s
  {
    if flushes != [] {
      FlushesAloneDoNothing(c, s, flushes[..|flushes| - 1]);
      EmptyQueueFlush(c, s, flushes[|flushes| - 1]);
    }
  }

  function UpTo(n: nat): HashChain.Failures {
    if n == 0 then {0} else UpTo(n - 1) + {n}
  }

  lemma {:induction false} UpToHas(n: nat, k: nat)
    ensures k in UpTo(n) <==> k <= n
  {
    if n > 0 {
      UpToHas(n - 1, k);
    }
  }

  lemma {:induction false} RetryAllFails(s: State, entries: seq<HashChain.AuditEntry>, failing: HashChain.Failures,
                                         k: nat)
    requires forall j | k <= j < k + |entries| :: j in failing
    ensures RetryEach(s, entries, failing, k) == s.(retry := s.retry + entries)
    decreases |entries|
  {
    if entries == [] {
      assert s.retry + entries == s.retry;
    } else {
      RetryAllFails(s.(retry := s.retry + [entries[0]]), entries[1..], failing, k + 1);
      assert entries == [entries[0]] + entries[1..];
      Reassociate(s.retry, [entries[0]], entries[1..]);
    }
  }

  lemma FirstAttemptFails(c: Config, full: seq<HashChain.AuditEntry>, failing: HashChain.Failures)
    requires |full| == c.batchSize >= 1 && 0 in failing
    ensures var s := FullQueue(full);
            var done := ProcessBatch(c, Probing(s), full, failing, 0, 0.0);
            && done.queue == [] && done.retry == full && done.log == [] && Attempts(full, failing, 0) == 1
  {
    assert Appendable(full, failing, 0) == 0;
    BatchContents(c, FullQueue(full), failing, 0.0);
    EmptyHead(full);
  }

  /** A flush of a full queue in which every attempt fails, the retry pass included if there is one. */
  lemma AllAttemptsFail(c: Config, full: seq<HashChain.AuditEntry>)
    requires |full| == c.batchSize >= 1
    ensures var s := Flushed(c, FullQueue(full), UpTo(|full|), 0.0);
            s.queue == [] && s.retry == full && s.log == []
  {
    var failing := UpTo(|full|);
    forall k | 0 <= k <= |full|
      ensures k in failing
    {
      UpToHas(|full|, k);
    }
    FirstAttemptFails(c, full, failing);
    OneSubBatch(c, FullQueue(full), failing, 0.0);
    var done := ProcessBatch(c, Probing(FullQueue(full)), full, failing, 0, 0.0);
    EmptyHead(full);
    RetryAllFails(done.(retry := []), full, failing, 1);
  }

  /** Enqueues a full batch, with every attempt of the last call failing. */
  function StrandingRun(entries: seq<HashChain.AuditEntry>, last: HashChain.AuditEntry): seq<Event> {
    Enqueues(entries) + [EnqueueEvent(last, UpTo(|entries| + 1), 0.0)]
  }

  /** For every batch size there are runs after which entries wait for retry and no number of flushes, healthy or
      not, the final one of a stop included, ever writes them. */
  lemma EntriesStrand(c: Config, entries: seq<HashChain.AuditEntry>, last: HashChain.AuditEntry, flushes: seq<Event>)
    requires |entries| + 1 == c.batchSize && OnlyFlushes(flushes)
    ensures var s := Run(c, StrandingRun(entries, last) + flushes);
            s.queue == [] && s.retry == entries + [last] && s.log == []
  {
    var failing := UpTo(|entries| + 1);
    EnqueuesWait(c, entries);
    FillingCall(c, Enqueues(entries), entries, last, failing);
    AllAttemptsFail(c, entries + [last]);
    RunContinues(c, StrandingRun(entries, last), flushes);
    FlushesAloneDoNothing(c, Run(c, StrandingRun(entries, last)), flushes);
  }
}

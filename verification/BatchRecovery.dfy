/** What a flush does, stated on the times, the queues and the attempts that fail: when an open circuit probes, and
    everything that every flush changes. */
module BatchRecovery {
  import opened BatchProcessor
  import opened BatchRuns
  import HashChain
  import opened Options
  import opened Selections
  import opened Sequences

  type Entries = seq<HashChain.AuditEntry>

  // ---------------------------------------------------------------------------------------------
  // Attempts
  // ---------------------------------------------------------------------------------------------

  /** The first `n` attempts of the call succeed, and the next one fails unless all entries were tried. */
  ghost predicate StopsAt(total: nat, failing: HashChain.Failures, n: nat) {
    && n <= total && (n < total ==> n in failing)
    && forall j: nat | j < n :: j !in failing
  }

  lemma {:induction false} AppendableStops(batch: Entries, failing: HashChain.Failures, k: nat)
    ensures forall j: nat | k <= j < k + Appendable(batch, failing, k) :: j !in failing
    decreases |batch|
  {
    if batch != [] && k !in failing {
      AppendableStops(batch[1..], failing, k + 1);
    }
  }

  lemma StopsOnce(batch: Entries, failing: HashChain.Failures, n: nat)
    requires StopsAt(|batch|, failing, n)
    ensures Appendable(batch, failing, 0) == n
  {
    AppendableStops(batch, failing, 0);
    var m := Appendable(batch, failing, 0);
    assert m < n ==> m !in failing;
  }

  /** The attempts numbered from `k` that succeed, or that fail. */
  ghost function Outcome(failing: HashChain.Failures, k: nat, succeed: bool): nat -> bool {
    (i: nat) => (k + i !in failing) == succeed
  }

  /** A retry pass over the waiting entries with attempts numbered from `k`: the entries whose attempts succeed are
      written in order, the others wait again in order. */
  ghost predicate Retried(waiting: Entries, failing: HashChain.Failures, k: nat, written: Entries, left: Entries) {
    && Selects(waiting, Outcome(failing, k, true), written)
    && Selects(waiting, Outcome(failing, k, false), left)
  }

  lemma RetriedNone(failing: HashChain.Failures, k: nat)
    ensures Retried([], failing, k, [], [])
  {
    ListsNone(Outcome(failing, k, true), ElementOf<HashChain.AuditEntry>([]));
    ListsNone(Outcome(failing, k, false), ElementOf<HashChain.AuditEntry>([]));
  }

  lemma OutcomeSnoc(waiting: Entries, e: HashChain.AuditEntry, failing: HashChain.Failures, k: nat, succeed: bool,
                    picked: Entries)
    requires Selects(waiting, Outcome(failing, k, succeed), picked)
    ensures Selects(waiting + [e], Outcome(failing, k, succeed),
                    if (k + |waiting| !in failing) == succeed then picked + [e] else picked)
  {
    SelectsSnoc(waiting, e, Outcome(failing, k, succeed), picked);
  }

  lemma RetriedSnoc(waiting: Entries, e: HashChain.AuditEntry, failing: HashChain.Failures, k: nat,
                    written: Entries, left: Entries)
    requires Retried(waiting, failing, k, written, left)
    ensures if k + |waiting| in failing then Retried(waiting + [e], failing, k, written, left + [e])
            else Retried(waiting + [e], failing, k, written + [e], left)
  {
    OutcomeSnoc(waiting, e, failing, k, true, written);
    OutcomeSnoc(waiting, e, failing, k, false, left);
  }

  lemma RetrySnoc(s: State, entries: Entries, e: HashChain.AuditEntry, failing: HashChain.Failures, k: nat)
    ensures RetryEach(s, entries + [e], failing, k)
            == RetryOne(RetryEach(s, entries, failing, k), e, k + |entries| in failing)
    decreases |entries|
  {
    if entries == [] {
      assert [] + [e] == [e] && [e][1..] == [];
    } else {
      assert (entries + [e])[1..] == entries[1..] + [e];
      RetrySnoc(RetryOne(s, entries[0], k in failing), entries[1..], e, failing, k + 1);
    }
  }

  /** What the retry pass leaves. */
  ghost predicate RetryResult(s: State, s': State, waiting: Entries, failing: HashChain.Failures, k: nat,
                              written: Entries) {
    && s' == s.(log := s.log + written, retry := s'.retry, totalFlushed := s.totalFlushed + |written|)
    && Retried(waiting, failing, k, written, s'.retry)
  }

  lemma {:induction false} RetryExact(s: State, waiting: Entries, failing: HashChain.Failures, k: nat)
    requires s.retry == []
    ensures exists written :: RetryResult(s, RetryEach(s, waiting, failing, k), waiting, failing, k, written)
  {
    if waiting == [] {
      RetriedNone(failing, k);
      assert s.log + [] == s.log;
      assert RetryResult(s, RetryEach(s, waiting, failing, k), waiting, failing, k, []);
    } else {
      var init, e := waiting[..|waiting| - 1], waiting[|waiting| - 1];
      RetryExact(s, init, failing, k);
      var before := RetryEach(s, init, failing, k);
      var written :| RetryResult(s, before, init, failing, k, written);
      RetrySnoc(s, init, e, failing, k);
      RetriedSnoc(init, e, failing, k, written, before.retry);
      assert waiting == init + [e];
      Reassociate(s.log, written, [e]);
      if k + |init| in failing {
        assert RetryResult(s, RetryEach(s, waiting, failing, k), waiting, failing, k, written);
      } else {
        assert RetryResult(s, RetryEach(s, waiting, failing, k), waiting, failing, k, written + [e]);
      }
    }
  }

  // ---------------------------------------------------------------------------------------------
  // Everything that a flush changes
  // ---------------------------------------------------------------------------------------------

  /** The circuit is open and less than the recovery time has passed since the last failure. */
  predicate TooEarly(c: Config, s: State, now: real) {
    s.circuit.Open? && s.lastFailure.Some? && now < s.lastFailure.value + c.recovery
  }

  lemma TooEarlyBlocks(c: Config, s: State, now: real)
    ensures Blocked(c, s, now) <==> TooEarly(c, s, now)
  {
  }

  /** A batch in which every attempt succeeds: the breaker is reset, and what waited is retried. */
  ghost predicate Succeeded(c: Config, s: State, failing: HashChain.Failures, s': State, written: Entries) {
    && Retried(s.retry, failing, |s.queue|, written, s'.retry)
    && s' == State([], s'.retry, Closed, 0, s.lastFailure, s.totalQueued,
                   s.totalFlushed + |s.queue| + |written|, s.totalFailed, s.batchesProcessed + 1, s.circuitOpens,
                   s.log + s.queue + written)
  }

  /** A batch whose attempt `n` fails: the entries before it are written although the whole batch waits again; the
      circuit opens if that makes enough failures, and otherwise, if it was closed, what waits is retried. */
  ghost predicate Failed(c: Config, s: State, failing: HashChain.Failures, now: real, n: nat, s': State,
                         written: Entries)
    requires n < |s.queue|
  {
    var opens := s.failureCount + 1 >= c.threshold;
    && (if opens then written == [] && s'.retry == s.retry + s.queue
        else Retried(s.retry + s.queue, failing, n + 1, written, s'.retry))
    && s' == State([], s'.retry, if opens then Open else s.circuit, s.failureCount + 1, Some(now), s.totalQueued,
                   s.totalFlushed + |written|, s.totalFailed + |s.queue|, s.batchesProcessed,
                   s.circuitOpens + if opens then 1 else 0,
                   s.log + s.queue[..n] + written)
  }

  /** All that any flush does, for every run before it and whatever fails: nothing with an empty queue; too early after
      the circuit has opened, the queue waits for retry; and otherwise the attempts are made, up to the first that
      fails in the batch. */
  ghost predicate FlushResult(c: Config, s: State, failing: HashChain.Failures, now: real, s': State) {
    if s.queue == [] then s' == s
    else if TooEarly(c, s, now) then s' == s.(queue := [], retry := s.retry + s.queue)
    else
      exists n: nat, written ::
        && StopsAt(|s.queue|, failing, n)
        && if n == |s.queue| then Succeeded(c, s, failing, s', written)
           else Failed(c, s, failing, now, n, s', written)
  }

  lemma WholeBatch(c: Config, s: State, failing: HashChain.Failures, now: real)
    requires StopsAt(|s.queue|, failing, |s.queue|) && s.queue != []
    ensures exists written :: Succeeded(c, s, failing, FlushedOnce(c, s, failing, now), written)
  {
    var done := ProcessBatch(c, Probing(s), s.queue, failing, 0, now);
    StopsOnce(s.queue, failing, |s.queue|);
    assert s.queue[..|s.queue|] == s.queue;
    var s' := FlushedOnce(c, s, failing, now);
    if s.retry == [] {
      RetriedNone(failing, |s.queue|);
      assert s.log + s.queue + [] == s.log + s.queue;
      assert Succeeded(c, s, failing, s', []);
    } else {
      RetryExact(done.(retry := []), s.retry, failing, |s.queue|);
      var written :| RetryResult(done.(retry := []), s', s.retry, failing, |s.queue|, written);
      assert Succeeded(c, s, failing, s', written);
    }
  }

  lemma BrokenBatch(c: Config, s: State, failing: HashChain.Failures, now: real, n: nat)
    requires StopsAt(|s.queue|, failing, n) && n < |s.queue| && CircuitOk(c, s)
    ensures exists written :: Failed(c, s, failing, now, n, FlushedOnce(c, s, failing, now), written)
  {
    var done := ProcessBatch(c, Probing(s), s.queue, failing, 0, now);
    StopsOnce(s.queue, failing, n);
    var s' := FlushedOnce(c, s, failing, now);
    if s.failureCount + 1 >= c.threshold {
      assert s.log + s.queue[..n] + [] == s.log + s.queue[..n];
      assert Failed(c, s, failing, now, n, s', []);
    } else {
      RetryExact(done.(retry := []), s.retry + s.queue, failing, n + 1);
      var written :| RetryResult(done.(retry := []), s', s.retry + s.queue, failing, n + 1, written);
      assert Failed(c, s, failing, now, n, s', written);
    }
  }

  lemma FlushDoes(c: Config, s: State, failing: HashChain.Failures, now: real)
    requires c.batchSize >= 1 && |s.queue| <= c.batchSize && CircuitOk(c, s)
    ensures FlushResult(c, s, failing, now, Flushed(c, s, failing, now))
  {
    TooEarlyBlocks(c, s, now);
    if s.queue != [] && !TooEarly(c, s, now) {
      OneSubBatch(c, s, failing, now);
      AppendableStops(s.queue, failing, 0);
      var n := Appendable(s.queue, failing, 0);
      assert StopsAt(|s.queue|, failing, n);
      if n == |s.queue| {
        WholeBatch(c, s, failing, now);
      } else {
        BrokenBatch(c, s, failing, now, n);
      }
    }
  }

  /** After every run, a flush does exactly that, and enqueueing an entry does it to the longer queue once that is a
      full batch. */
  lemma FlushExact(c: Config, events: seq<Event>, e: Event)
    requires c.batchSize >= 1
    ensures var s, s' := Run(c, events), Run(c, events + [e]);
            match e
            case FlushEvent(failing, now) => FlushResult(c, s, failing, now, s')
            case EnqueueEvent(entry, failing, now) =>
              var longer := s.(queue := s.queue + [entry], totalQueued := s.totalQueued + 1);
              if |longer.queue| < c.batchSize then s' == longer else FlushResult(c, longer, failing, now, s')
  {
    var s := Run(c, events);
    RunSnoc(c, events, e);
    EveryRunBalances(c, events);
    EveryRun(c, events);
    FlushDoes(c, Before(s, e), e.failing, e.now);
  }

  /** What a flush returns, after every run: the number of queued entries if all of them are written, and else 0. */
  lemma FlushedCountExact(c: Config, events: seq<Event>, failing: HashChain.Failures, now: real)
    requires c.batchSize >= 1
    ensures var s := Run(c, events);
            FlushedCount(c, s, failing, now)
            == if TooEarly(c, s, now) || (exists k: nat :: k < |s.queue| && k in failing) then 0 else |s.queue|
  {
    var s := Run(c, events);
    EveryRunBalances(c, events);
    TooEarlyBlocks(c, s, now);
    if s.queue != [] && !TooEarly(c, s, now) {
      OneSubBatch(c, s, failing, now);
      AppendableStops(s.queue, failing, 0);
      var n := Appendable(s.queue, failing, 0);
      if k: nat :| k < |s.queue| && k in failing {
        assert n <= k;
      }
    }
  }

  /** Enqueueing raises an error exactly if the batch size is 0, whatever happened before; a flush never does. */
  lemma RaisesIff(c: Config, events: seq<Event>, e: HashChain.AuditEntry, now: real)
    ensures Raises(c, Queued(Run(c, events), e), now) <==> c.batchSize == 0
    ensures !Raises(c, Run(c, events), now)
  {
    if c.batchSize < 1 {
      SmallBatchHoldsNothing(c, events);
    }
  }

  // ---------------------------------------------------------------------------------------------
  // Recovery
  // ---------------------------------------------------------------------------------------------

  lemma AllRetried(waiting: Entries, failing: HashChain.Failures, k: nat, written: Entries, left: Entries)
    requires Retried(waiting, failing, k, written, left)
    requires AllSucceed(failing, k, |waiting|)
    ensures written == waiting && left == []
  {
    RetriedAll(waiting, failing, k);
    SelectsUnique(waiting, Outcome(failing, k, true), written, waiting);
    SelectsUnique(waiting, Outcome(failing, k, false), left, []);
  }

  /** None of the attempts numbered `k` up to `k + n` fails. */
  ghost predicate AllSucceed(failing: HashChain.Failures, k: nat, n: nat) {
    forall j: nat | k <= j < k + n :: j !in failing
  }

  lemma {:induction false} RetriedAll(waiting: Entries, failing: HashChain.Failures, k: nat)
    requires AllSucceed(failing, k, |waiting|)
    ensures Retried(waiting, failing, k, waiting, [])
  {
    if waiting == [] {
      RetriedNone(failing, k);
    } else {
      var init, e := waiting[..|waiting| - 1], waiting[|waiting| - 1];
      assert k + |init| !in failing;
      assert AllSucceed(failing, k, |init|);
      RetriedAll(init, failing, k);
      RetriedSnoc(init, e, failing, k, init, []);
      assert waiting == init + [e];
    }
  }

  /** An attempt shows: something is written, or the failure is noted with the time of the call. */
  ghost predicate Attempted(s: State, s': State, now: real) {
    |s'.log| > |s.log| || (s'.lastFailure == Some(now) && s'.circuitOpens == s.circuitOpens + 1)
  }

  ghost predicate Recovered(s: State, s': State) {
    && s'.log == s.log + s.queue + s.retry && s'.queue == [] && s'.retry == []
    && s'.circuit.Closed? && s'.failureCount == 0
  }

  ghost predicate Reopened(s: State, s': State, now: real) {
    s'.circuit.Open? && s'.lastFailure == Some(now) && s'.circuitOpens == s.circuitOpens + 1
  }

  lemma WholeProbe(c: Config, s: State, failing: HashChain.Failures, now: real, s': State, written: Entries)
    requires s.queue != [] && Succeeded(c, s, failing, s', written)
    ensures Attempted(s, s', now) && s'.circuit.Closed?
    ensures AllSucceed(failing, |s.queue|, |s.retry|) ==> Recovered(s, s')
  {
    if AllSucceed(failing, |s.queue|, |s.retry|) {
      AllRetried(s.retry, failing, |s.queue|, written, s'.retry);
    }
  }

  lemma BrokenProbe(c: Config, s: State, failing: HashChain.Failures, now: real, n: nat, s': State, written: Entries)
    requires s.circuit.Open? && CircuitOk(c, s)
    requires n < |s.queue| && Failed(c, s, failing, now, n, s', written)
    ensures Attempted(s, s', now) && Reopened(s, s', now)
  {
  }

  /** What a probe does. */
  ghost predicate ProbeResult(s: State, failing: HashChain.Failures, now: real, s': State) {
    && Attempted(s, s', now)
    && (AllSucceed(failing, 0, |s.queue| + |s.retry|) ==> Recovered(s, s'))
    && (if AllSucceed(failing, 0, |s.queue|) then s'.circuit.Closed? else Reopened(s, s', now))
  }

  lemma ProbeDoes(c: Config, s: State, failing: HashChain.Failures, now: real, s': State)
    requires FlushResult(c, s, failing, now, s') && CircuitOk(c, s)
    requires s.circuit.Open? && s.queue != [] && !TooEarly(c, s, now)
    ensures ProbeResult(s, failing, now, s')
  {
    var n: nat, written :|
      && StopsAt(|s.queue|, failing, n)
      && if n == |s.queue| then Succeeded(c, s, failing, s', written)
         else Failed(c, s, failing, now, n, s', written);
    if n == |s.queue| {
      WholeProbe(c, s, failing, now, s', written);
      if AllSucceed(failing, 0, |s.queue| + |s.retry|) {
        assert AllSucceed(failing, |s.queue|, |s.retry|);
      }
    } else {
      BrokenProbe(c, s, failing, now, n, s', written);
      assert !AllSucceed(failing, 0, |s.queue|);
      assert !AllSucceed(failing, 0, |s.queue| + |s.retry|);
    }
  }

  /** After every run that ends with an open circuit, a flush that finds something queued once the recovery time has
      passed since the last failure makes an attempt. If none of its attempts fails, it writes the queue and then what
      waits, and closes the circuit; if the batch fails, the circuit opens again and the time is noted. */
  lemma OpenCircuitProbes(c: Config, events: seq<Event>, failing: HashChain.Failures, now: real)
    requires c.batchSize >= 1 && Run(c, events).circuit.Open?
    ensures var s, s' := Run(c, events), Run(c, events + [FlushEvent(failing, now)]);
            && s.lastFailure.Some?
            && (s.queue != [] && now >= s.lastFailure.value + c.recovery ==> ProbeResult(s, failing, now, s'))
  {
    var s, s' := Run(c, events), Run(c, events + [FlushEvent(failing, now)]);
    FlushExact(c, events, FlushEvent(failing, now));
    EveryRun(c, events);
    if s.queue != [] && !TooEarly(c, s, now) {
      ProbeDoes(c, s, failing, now, s');
    }
  }

  /** An open circuit stays exactly as it is, with nothing written and no failure noted, if and only if the flush comes
      before the recovery time is over or finds nothing queued. */
  lemma OpenCircuitIdlesIff(c: Config, events: seq<Event>, failing: HashChain.Failures, now: real)
    requires c.batchSize >= 1 && Run(c, events).circuit.Open?
    ensures var s, s' := Run(c, events), Run(c, events + [FlushEvent(failing, now)]);
            && s.lastFailure.Some?
            && (s'.log == s.log && s'.circuit == s.circuit && s'.lastFailure == s.lastFailure
                && s'.circuitOpens == s.circuitOpens
                <==> now < s.lastFailure.value + c.recovery || s.queue == [])
  {
    FlushExact(c, events, FlushEvent(failing, now));
    OpenCircuitProbes(c, events, failing, now);
  }
}

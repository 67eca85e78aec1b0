/** The audit logger: direct and buffered writes to the hash chain, and what they keep. */
module AuditLogger {
  import opened HashChain
  import opened Selections
  import opened Sequences

  datatype State = State(buffer: seq<AuditEntry>, log: seq<AuditEntry>)

  // ---------------------------------------------------------------------------------------------
  // Specification
  // ---------------------------------------------------------------------------------------------

  /** The entries whose attempt, counted from `k`, succeeds (or fails), in order. */
  function Chosen(entries: seq<AuditEntry>, failing: Failures, succeed: bool): seq<AuditEntry> {
    if entries == [] then []
    else
      var n := |entries| - 1;
      var earlier := Chosen(entries[..n], failing, succeed);
      if (n !in failing) == succeed then earlier + [entries[n]] else earlier
  }

  /** The attempts that succeed, or that fail. */
  ghost function Outcome(failing: Failures, succeed: bool): nat -> bool {
    (i: nat) => (i !in failing) == succeed
  }

  /** Every entry is attempted: those whose own attempts succeed are written, in order and each as often as it is
      buffered, however many attempts fail before. */
  lemma {:induction false} ChosenSelects(entries: seq<AuditEntry>, failing: Failures, succeed: bool)
    ensures Selects(entries, Outcome(failing, succeed), Chosen(entries, failing, succeed))
  {
    if entries == [] {
      ListsNone(Outcome(failing, succeed), ElementOf(entries));
    } else {
      var init, last := entries[..|entries| - 1], entries[|entries| - 1];
      ChosenSelects(init, failing, succeed);
      SelectsSnoc(init, last, Outcome(failing, succeed), Chosen(init, failing, succeed));
      assert entries == init + [last];
    }
  }

  /** A flush writes what succeeds and forgets the rest: failed entries are only reported, not kept. */
  function Flushed(s: State, failing: Failures): State {
    State([], s.log + Chosen(s.buffer, failing, true))
  }

  function LoggedBuffered(s: State, bufferSize: int, e: AuditEntry, failing: Failures): State {
    var buffered := s.(buffer := s.buffer + [e]);
    if |buffered.buffer| >= bufferSize then Flushed(buffered, failing) else buffered
  }

  function LoggedDirectly(s: State, e: AuditEntry, failing: Failures): State {
    if 0 in failing then s else s.(log := s.log + [e])
  }

  // ---------------------------------------------------------------------------------------------
  // The logger
  // ---------------------------------------------------------------------------------------------

  class Logger {
    const chain: HashChainManager
    const isAsync: bool
    const bufferSize: int
    var buffer: seq<AuditEntry>

    constructor (chain: HashChainManager, isAsync: bool, bufferSize: int)
      ensures this.chain == chain && this.isAsync == isAsync && this.bufferSize == bufferSize
      ensures buffer == []
    {
      this.chain := chain;
      this.isAsync := isAsync;
      this.bufferSize := bufferSize;
      buffer := [];
    }

    ghost function View(): State
      reads this, chain.store
    {
      State(buffer, Logged(chain.store.entries))
    }

    /** In direct mode a failing attempt is raised to the caller. */
    method Log(e: AuditEntry, failing: Failures) returns (raised: bool)
      modifies this, chain.store
      ensures View() == if isAsync then LoggedBuffered(old(View()), bufferSize, e, failing)
                        else LoggedDirectly(old(View()), e, failing)
      ensures raised <==> !isAsync && 0 in failing
      ensures !old(chain.Valid()) || chain.Valid()
    {
      raised := false;
      if isAsync {
        buffer := buffer + [e];
        if |buffer| >= bufferSize {
          var _ := Flush(failing);
        }
      } else {
        var written := WriteSync(e, 0 in failing);
        raised := !written;
      }
    }

    method Flush(failing: Failures) returns (count: nat)
      modifies this, chain.store
      ensures View() == Flushed(old(View()), failing)
      ensures count == |Chosen(old(buffer), failing, true)|
      ensures Selects(old(buffer), Outcome(failing, true), View().log[|old(View()).log|..])
      ensures !old(chain.Valid()) || chain.Valid()
    {
      ChosenSelects(buffer, failing, true);
      if buffer == [] {
        assert View().log + [] == View().log;
        return 0;
      }
      var entries := buffer;
      buffer := [];
      count := WriteAll(entries, failing);
    }

    method WriteAll(entries: seq<AuditEntry>, failing: Failures) returns (count: nat)
      modifies chain.store
      ensures Logged(chain.store.entries) == old(Logged(chain.store.entries)) + Chosen(entries, failing, true)
      ensures count == |Chosen(entries, failing, true)|
      ensures !old(chain.Valid()) || chain.Valid()
    {
      count := 0;
      ghost var log := Logged(chain.store.entries);
      assert log + [] == log;
      for i := 0 to |entries|
        invariant Logged(chain.store.entries) == log + Chosen(entries[..i], failing, true)
        invariant count == |Chosen(entries[..i], failing, true)|
        invariant !old(chain.Valid()) || chain.Valid()
      {
        PrefixSnoc(entries, i);
        Reassociate(log, Chosen(entries[..i], failing, true), [entries[i]]);
        var written := WriteSync(entries[i], i in failing);
        if written {
          count := count + 1;
        }
      }
      assert entries[..|entries|] == entries;
    }

    method WriteSync(e: AuditEntry, fails: bool) returns (written: bool)
      modifies chain.store
      ensures written <==> !fails
      ensures Logged(chain.store.entries) ==
              if fails then old(Logged(chain.store.entries)) else old(Logged(chain.store.entries)) + [e]
      ensures !old(chain.Valid()) || chain.Valid()
    {
      written := !fails;
      if written {
        var _ := chain.CreateChainEntry(e);
      }
    }
  }

  // ---------------------------------------------------------------------------------------------
  // Runs of the buffered logger
  // ---------------------------------------------------------------------------------------------

  datatype Event = LogEvent(entry: AuditEntry, failing: Failures) | FlushEvent(failing: Failures)

  function Step(bufferSize: int, s: State, e: Event): State {
    match e
    case LogEvent(entry, failing) => LoggedBuffered(s, bufferSize, entry, failing)
    case FlushEvent(failing) => Flushed(s, failing)
  }

  function Run(bufferSize: int, events: seq<Event>): State {
    if events == [] then State([], [])
    else Step(bufferSize, Run(bufferSize, events[..|events| - 1]), events[|events| - 1])
  }

  function Submitted(events: seq<Event>): seq<AuditEntry> {
    if events == [] then []
    else
      var last := events[|events| - 1];
      var earlier := Submitted(events[..|events| - 1]);
      if last.LogEvent? then earlier + [last.entry] else earlier
  }

  /** What one call drops: the buffered entries whose attempt fails in its flush. */
  function Dropped(bufferSize: int, s: State, e: Event): seq<AuditEntry> {
    match e
    case LogEvent(entry, failing) =>
      if |s.buffer| + 1 >= bufferSize then Chosen(s.buffer + [entry], failing, false) else []
    case FlushEvent(failing) => Chosen(s.buffer, failing, false)
  }

  function AllDropped(bufferSize: int, events: seq<Event>): seq<AuditEntry> {
    if events == [] then []
    else
      var init := events[..|events| - 1];
      AllDropped(bufferSize, init) + Dropped(bufferSize, Run(bufferSize, init), events[|events| - 1])
  }

  lemma AddOnEitherSide<T>(a: multiset<T>, b: multiset<T>, total: multiset<T>, x: multiset<T>)
    requires a + b == total
    ensures (a + x) + b == total + x && a + (b + x) == total + x
  {
  }

  lemma {:induction false} ChosenPartition(entries: seq<AuditEntry>, failing: Failures)
    ensures multiset(Chosen(entries, failing, true)) + multiset(Chosen(entries, failing, false)) == multiset(entries)
  {
    if entries != [] {
      var init, last := entries[..|entries| - 1], entries[|entries| - 1];
      var written, dropped := Chosen(init, failing, true), Chosen(init, failing, false);
      ChosenPartition(init, failing);
      assert entries == init + [last];
      MultisetSnoc(init, last);
      MultisetSnoc(written, last);
      MultisetSnoc(dropped, last);
      AddOnEitherSide(multiset(written), multiset(dropped), multiset(init), multiset{last});
    }
  }

  lemma {:induction false} NoneDropped(entries: seq<AuditEntry>, failing: Failures)
    ensures Chosen(entries, failing, false) == [] ==> Chosen(entries, failing, true) == entries
  {
    if entries != [] {
      NoneDropped(entries[..|entries| - 1], failing);
      assert entries == entries[..|entries| - 1] + [entries[|entries| - 1]];
    }
  }

  function Held(s: State): multiset<AuditEntry> {
    multiset(s.log) + multiset(s.buffer)
  }

  function Added(e: Event): seq<AuditEntry> {
    if e.LogEvent? then [e.entry] else []
  }

  lemma FlushAccounts(s: State, failing: Failures)
    ensures var dropped := Chosen(s.buffer, failing, false);
            && Held(Flushed(s, failing)) + multiset(dropped) == Held(s)
            && (dropped == [] ==> Flushed(s, failing).log == s.log + s.buffer)
  {
    ChosenPartition(s.buffer, failing);
    NoneDropped(s.buffer, failing);
    var written := Chosen(s.buffer, failing, true);
    assert multiset(s.log + written) == multiset(s.log) + multiset(written);
  }

  lemma BufferingAccounts(s: State, e: AuditEntry)
    ensures Held(s.(buffer := s.buffer + [e])) == Held(s) + multiset{e}
    ensures s.log + (s.buffer + [e]) == s.log + s.buffer + [e]
  {
    assert multiset(s.buffer + [e]) == multiset(s.buffer) + multiset{e};
  }

  /** The account of one call: what is held grows by `added` and shrinks by `dropped`, in order if nothing is
      dropped. */
  ghost predicate Accounts(s: State, s': State, added: seq<AuditEntry>, dropped: seq<AuditEntry>) {
    && Held(s') + multiset(dropped) == Held(s) + multiset(added)
    && (dropped == [] ==> s'.log + s'.buffer == s.log + s.buffer + added)
  }

  lemma FlushedAccounts(s: State, failing: Failures)
    ensures Accounts(s, Flushed(s, failing), [], Chosen(s.buffer, failing, false))
  {
    FlushAccounts(s, failing);
    assert Flushed(s, failing).buffer == [];
    var log := Flushed(s, failing).log;
    assert log + [] == log && s.log + s.buffer + [] == s.log + s.buffer;
  }

  lemma BufferedAccounts(s: State, s': State, s'': State, e: AuditEntry, dropped: seq<AuditEntry>)
    requires s' == s.(buffer := s.buffer + [e]) && Accounts(s', s'', [], dropped)
    ensures Accounts(s, s'', [e], dropped)
  {
    BufferingAccounts(s, e);
    assert s'.log + s'.buffer + [] == s'.log + s'.buffer;
  }

  lemma StepAccounts(bufferSize: int, s: State, e: Event)
    ensures Accounts(s, Step(bufferSize, s, e), Added(e), Dropped(bufferSize, s, e))
  {
    match e {
      case LogEvent(entry, failing) =>
        var buffered := s.(buffer := s.buffer + [entry]);
        if |buffered.buffer| >= bufferSize {
          FlushedAccounts(buffered, failing);
          BufferedAccounts(s, buffered, Flushed(buffered, failing), entry, Chosen(buffered.buffer, failing, false));
        } else {
          BufferingAccounts(s, entry);
        }
      case FlushEvent(failing) =>
        FlushedAccounts(s, failing);
    }
  }

  lemma SubmittedSnoc(events: seq<Event>)
    requires events != []
    ensures multiset(Submitted(events))
            == multiset(Submitted(events[..|events| - 1])) + multiset(Added(events[|events| - 1]))
  {
  }

  /** Over every run, whatever fails: what was logged is in the chain, in the buffer, or was dropped by a
      failed attempt, with multiplicity. */
  lemma {:induction false} BufferAccounts(bufferSize: int, events: seq<Event>)
    ensures Held(Run(bufferSize, events)) + multiset(AllDropped(bufferSize, events)) == multiset(Submitted(events))
  {
    if events != [] {
      var init, last := events[..|events| - 1], events[|events| - 1];
      var s := Run(bufferSize, init);
      BufferAccounts(bufferSize, init);
      StepAccounts(bufferSize, s, last);
      SubmittedSnoc(events);
      var earlier, now := AllDropped(bufferSize, init), Dropped(bufferSize, s, last);
      assert multiset(earlier + now) == multiset(earlier) + multiset(now);
      Rebalance(Held(s), Held(Run(bufferSize, events)), multiset(Added(last)), multiset(now),
                multiset(earlier), multiset(Submitted(init)));
    }
  }

  lemma {:induction false} NoDropsInOrder(bufferSize: int, events: seq<Event>)
    requires AllDropped(bufferSize, events) == []
    ensures var s := Run(bufferSize, events); s.log + s.buffer == Submitted(events)
  {
    if events != [] {
      var init, last := events[..|events| - 1], events[|events| - 1];
      NoDropsInOrder(bufferSize, init);
      StepAccounts(bufferSize, Run(bufferSize, init), last);
    }
  }

  /** The unbuffered logger with the same entries and no failures. */
  function RunDirect(entries: seq<AuditEntry>): State {
    if entries == [] then State([], [])
    else LoggedDirectly(RunDirect(entries[..|entries| - 1]), entries[|entries| - 1], {})
  }

  lemma {:induction false} DirectIsOrder(entries: seq<AuditEntry>)
    ensures RunDirect(entries) == State([], entries)
  {
    if entries != [] {
      var n := |entries| - 1;
      DirectIsOrder(entries[..n]);
      PrefixSnoc(entries, n);
      assert entries[..n + 1] == entries;
    }
  }

  /** After `stop`, a run that ends in a flush, the buffered logger has written exactly what the unbuffered
      one writes, in the same order, if and only if no attempt failed on a buffered entry. */
  lemma StoppedMatchesDirect(bufferSize: int, events: seq<Event>)
    requires events != [] && events[|events| - 1].FlushEvent?
    ensures Run(bufferSize, events) == RunDirect(Submitted(events)) <==> AllDropped(bufferSize, events) == []
  {
    var s := Run(bufferSize, events);
    assert s.buffer == [];
    DirectIsOrder(Submitted(events));
    BufferAccounts(bufferSize, events);
    var dropped := AllDropped(bufferSize, events);
    if dropped == [] {
      NoDropsInOrder(bufferSize, events);
      assert s.log + [] == s.log;
    } else {
      assert dropped[0] in multiset(dropped);
      assert multiset(s.log) + multiset(dropped) == multiset(Submitted(events));
    }
  }

  // ---------------------------------------------------------------------------------------------
  // The same condition on the calls alone
  // ---------------------------------------------------------------------------------------------

  /** How many entries are buffered after the calls. */
  function Pending(bufferSize: int, events: seq<Event>): nat {
    if events == [] then 0
    else
      var n := Pending(bufferSize, events[..|events| - 1]);
      if events[|events| - 1].FlushEvent? || n + 1 >= bufferSize then 0 else n + 1
  }

  /** How many attempts a call makes when `n` entries are buffered. */
  function AttemptsOf(bufferSize: int, n: nat, e: Event): nat {
    if e.FlushEvent? then n else if n + 1 >= bufferSize then n + 1 else 0
  }

  ghost predicate NoneFails(failing: Failures, attempts: nat) {
    forall i: nat | i < attempts :: i !in failing
  }

  /** No call's failing set meets the attempts that the call makes. */
  ghost predicate Harmless(bufferSize: int, events: seq<Event>) {
    forall k: nat | k < |events| ::
      NoneFails(events[k].failing, AttemptsOf(bufferSize, Pending(bufferSize, events[..k]), events[k]))
  }

  lemma {:induction false} NoneChosen(entries: seq<AuditEntry>, failing: Failures)
    ensures Chosen(entries, failing, false) == [] <==> NoneFails(failing, |entries|)
  {
    if entries != [] {
      NoneChosen(entries[..|entries| - 1], failing);
    }
  }

  lemma {:induction false} PendingIsBuffered(bufferSize: int, events: seq<Event>)
    ensures |Run(bufferSize, events).buffer| == Pending(bufferSize, events)
  {
    if events != [] {
      PendingIsBuffered(bufferSize, events[..|events| - 1]);
    }
  }

  lemma DropsNothing(bufferSize: int, s: State, e: Event)
    ensures Dropped(bufferSize, s, e) == [] <==> NoneFails(e.failing, AttemptsOf(bufferSize, |s.buffer|, e))
  {
    match e
    case LogEvent(entry, failing) => NoneChosen(s.buffer + [entry], failing);
    case FlushEvent(failing) => NoneChosen(s.buffer, failing);
  }

  lemma HarmlessSnoc(bufferSize: int, events: seq<Event>, e: Event)
    ensures Harmless(bufferSize, events + [e]) <==>
            Harmless(bufferSize, events) && NoneFails(e.failing, AttemptsOf(bufferSize, Pending(bufferSize, events), e))
  {
    var longer, n: nat := events + [e], |events|;
    assert longer[..n] == events && longer[n] == e;
    forall k: nat | k < n
      ensures longer[..k] == events[..k] && longer[k] == events[k]
    {
    }
    if Harmless(bufferSize, longer) {
      assert NoneFails(longer[n].failing, AttemptsOf(bufferSize, Pending(bufferSize, longer[..n]), longer[n]));
      forall k: nat | k < n
        ensures NoneFails(events[k].failing, AttemptsOf(bufferSize, Pending(bufferSize, events[..k]), events[k]))
      {
        assert NoneFails(longer[k].failing, AttemptsOf(bufferSize, Pending(bufferSize, longer[..k]), longer[k]));
      }
    }
  }

  /** A run drops nothing exactly if no call's failing set meets the attempts that the call makes. */
  lemma {:induction false} NothingDroppedIff(bufferSize: int, events: seq<Event>)
    ensures AllDropped(bufferSize, events) == [] <==> Harmless(bufferSize, events)
  {
    if events != [] {
      var init, last := events[..|events| - 1], events[|events| - 1];
      NothingDroppedIff(bufferSize, init);
      PendingIsBuffered(bufferSize, init);
      DropsNothing(bufferSize, Run(bufferSize, init), last);
      HarmlessSnoc(bufferSize, init, last);
      assert events == init + [last];
    }
  }

  /** After `stop` the buffered logger has written what the unbuffered one writes exactly if no call's failing set
      meets the attempts that the call makes. */
  lemma StoppedMatchesDirectIff(bufferSize: int, events: seq<Event>)
    requires events != [] && events[|events| - 1].FlushEvent?
    ensures Run(bufferSize, events) == RunDirect(Submitted(events)) <==> Harmless(bufferSize, events)
  {
    StoppedMatchesDirect(bufferSize, events);
    NothingDroppedIff(bufferSize, events);
  }

  /** For every buffer size one failed attempt is enough to lose an entry, before and after `stop`. */
  lemma OneFailureDrops(bufferSize: int, e: AuditEntry)
    ensures var events := [LogEvent(e, {0}), FlushEvent({0})];
            AllDropped(bufferSize, events) == [e] && Run(bufferSize, events) == State([], [])
  {
    var events := [LogEvent(e, {0}), FlushEvent({0})];
    var first := events[..1];
    assert first == [LogEvent(e, {0})] && first[..0] == [];
    assert [] + [e] == [e] && [e][..0] == [];
    assert Chosen([e], {0}, true) == [];
    assert Chosen([e], {0}, false) == Chosen([], {0}, false) + [e] == [e];
    assert Run(bufferSize, []) == State([], []) && AllDropped(bufferSize, []) == [];
    if bufferSize <= 1 {
      assert AllDropped(bufferSize, first) == [e] && Run(bufferSize, first) == State([], []);
    } else {
      assert AllDropped(bufferSize, first) == [] && Run(bufferSize, first) == State([e], []);
    }
  }
}

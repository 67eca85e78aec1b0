/** The sliding-window rate limiter: admission of requests per client, and its guarantees over whole runs. */
module RateLimiter {
  import opened Selections

  const EXEMPT_PATHS: set<string> := {"/health", "/metrics", "/"}

  datatype Response =
    | Exempt
    | Admitted(remaining: int)
    | Refused(retryAfter: int)
    | IndexError  // reading the oldest timestamp of an empty list

  datatype Config = Config(maxRequests: int, window: int)

  datatype Request = Request(path: string, client: string, now: real)

  type Requests = map<string, seq<real>>

  // ---------------------------------------------------------------------------------------------
  // Specification of one call
  // ---------------------------------------------------------------------------------------------

  function Lookup(requests: Requests, client: string): seq<real> {
    if client in requests then requests[client] else []
  }

  /** The timestamps after `start`, in order. */
  function Recent(times: seq<real>, start: real): seq<real> {
    if times == [] then []
    else
      var earlier, last := Recent(times[..|times| - 1], start), times[|times| - 1];
      if last > start then earlier + [last] else earlier
  }

  lemma RecentSnoc(times: seq<real>, last: real, start: real)
    ensures Recent(times + [last], start)
            == if last > start then Recent(times, start) + [last] else Recent(times, start)
  {
    assert (times + [last])[..|times|] == times;
  }

  /** Pruning keeps exactly the times after the start, in order. */
  lemma RecentFilters(times: seq<real>, start: real)
    ensures Filters(times, (t: real) => t > start, Recent(times, start))
  {
    var f, keep := (s: seq<real>) => Recent(s, start), (t: real) => t > start;
    forall s: seq<real>, t: real
      ensures f(s + [t]) == if keep(t) then f(s) + [t] else f(s)
    {
      RecentSnoc(s, t, start);
    }
    KeepsOrDropsFilters(times, keep, f);
  }

  /** The part of an admission history within the window that ends at `now`. */
  function Window(c: Config, times: seq<real>, now: real): seq<real> {
    Recent(times, now - c.window as real)
  }

  predicate Limited(r: Request) {
    r.path !in EXEMPT_PATHS
  }

  /** The client's timestamps within the window that ends now. */
  function Pruned(c: Config, requests: Requests, client: string, now: real): seq<real> {
    Recent(Lookup(requests, client), now - c.window as real)
  }

  predicate Admits(c: Config, requests: Requests, r: Request) {
    Limited(r) && |Pruned(c, requests, r.client, r.now)| < c.maxRequests
  }

  function ResponseTo(c: Config, requests: Requests, r: Request): Response {
    var recent := Pruned(c, requests, r.client, r.now);
    if !Limited(r) then Exempt
    else if Admits(c, requests, r) then Admitted(c.maxRequests - |recent| - 1)
    else if recent == [] then IndexError
    else Refused((recent[0] - (r.now - c.window as real)).Floor + 1)
  }

  function After(c: Config, requests: Requests, r: Request): Requests {
    var recent := Pruned(c, requests, r.client, r.now);
    if !Limited(r) then requests
    else requests[r.client := if Admits(c, requests, r) then recent + [r.now] else recent]
  }

  class RateLimiterMiddleware {
    const config: Config
    var requests: Requests

    constructor (config: Config)
      ensures this.config == config && requests == map[]
    {
      this.config := config;
      requests := map[];
    }

    method Dispatch(r: Request) returns (response: Response)
      modifies this
      ensures response == ResponseTo(config, old(requests), r)
      ensures requests == After(config, old(requests), r)
    {
      if r.path in EXEMPT_PATHS {
        return Exempt;
      }
      var windowStart := r.now - config.window as real;
      var timestamps := Prune(Lookup(requests, r.client), windowStart);
      requests := requests[r.client := timestamps];
      if |timestamps| >= config.maxRequests {
        if timestamps == [] {
          return IndexError;
        }
        var retryAfter := (timestamps[0] - windowStart).Floor + 1;
        return Refused(retryAfter);
      }
      timestamps := timestamps + [r.now];
      requests := requests[r.client := timestamps];
      response := Admitted(config.maxRequests - |timestamps|);
    }

    method Prune(timestamps: seq<real>, windowStart: real) returns (kept: seq<real>)
      ensures kept == Recent(timestamps, windowStart)
    {
      kept := [];
      for i := 0 to |timestamps|
        invariant kept == Recent(timestamps[..i], windowStart)
      {
        assert timestamps[..i + 1][..i] == timestamps[..i];
        if timestamps[i] > windowStart {
          kept := kept + [timestamps[i]];
        }
      }
      assert timestamps[..|timestamps|] == timestamps;
    }
  }

  // ---------------------------------------------------------------------------------------------
  // Runs
  // ---------------------------------------------------------------------------------------------

  function Run(c: Config, rs: seq<Request>): Requests {
    if rs == [] then map[] else After(c, Run(c, rs[..|rs| - 1]), rs[|rs| - 1])
  }

  /** The times at which the client's requests were admitted during a run. */
  function AdmittedTimes(c: Config, rs: seq<Request>, client: string): seq<real> {
    if rs == [] then []
    else
      var init, last := rs[..|rs| - 1], rs[|rs| - 1];
      var earlier := AdmittedTimes(c, init, client);
      if last.client == client && Admits(c, Run(c, init), last) then earlier + [last.now] else earlier
  }

  /** The monotonic clock never goes back, and `now` is not before the run's end. */
  ghost predicate Monotone(rs: seq<Request>, now: real) {
    && (forall i, j | 0 <= i < j < |rs| :: rs[i].now <= rs[j].now)
    && (rs != [] ==> rs[|rs| - 1].now <= now)
  }

  lemma MonotoneInit(rs: seq<Request>, now: real)
    requires rs != [] && Monotone(rs, now)
    ensures Monotone(rs[..|rs| - 1], rs[|rs| - 1].now) && rs[|rs| - 1].now <= now
  {
  }

  lemma {:induction false} RecentTwice(times: seq<real>, a: real, b: real)
    requires a <= b
    ensures Recent(Recent(times, a), b) == Recent(times, b)
  {
    if times != [] {
      var init, last := times[..|times| - 1], times[|times| - 1];
      RecentTwice(init, a, b);
      if last > a {
        RecentSnoc(Recent(init, a), last, b);
      }
    }
  }

  lemma RecentAgree(s: seq<real>, t: seq<real>, a: real, b: real)
    requires a <= b && Recent(s, a) == Recent(t, a)
    ensures Recent(s, b) == Recent(t, b)
    ensures Recent(Recent(s, a), b) == Recent(t, b)
  {
    RecentTwice(s, a, b);
    RecentTwice(t, a, b);
  }

  /** One call keeps the client's list in step with its admission history. */
  lemma PruneStep(c: Config, before: Requests, history: seq<real>, r: Request, client: string, now: real)
    requires r.now <= now
    requires Pruned(c, before, client, r.now) == Window(c, history, r.now)
    ensures var longer := if r.client == client && Admits(c, before, r) then history + [r.now] else history;
            Pruned(c, After(c, before, r), client, now) == Window(c, longer, now)
  {
    var earlier, start := r.now - c.window as real, now - c.window as real;
    var times, after := Lookup(before, client), Lookup(After(c, before, r), client);
    RecentAgree(times, history, earlier, start);
    if r.client != client || !Limited(r) {
      assert after == times;
    } else if Admits(c, before, r) {
      assert after == Recent(times, earlier) + [r.now];
      RecentSnoc(Recent(times, earlier), r.now, start);
      RecentSnoc(history, r.now, start);
    } else {
      assert after == Recent(times, earlier);
    }
  }

  /** At every call the pruned list is the client's whole admission history restricted to the window. */
  lemma {:induction false} PrunedIsHistory(c: Config, rs: seq<Request>, client: string, now: real)
    requires Monotone(rs, now)
    ensures Pruned(c, Run(c, rs), client, now) == Window(c, AdmittedTimes(c, rs, client), now)
  {
    if rs != [] {
      var init, last := rs[..|rs| - 1], rs[|rs| - 1];
      MonotoneInit(rs, now);
      PrunedIsHistory(c, init, client, last.now);
      PruneStep(c, Run(c, init), AdmittedTimes(c, init, client), last, client, now);
    }
  }

  /** A limited request is admitted exactly when fewer than `maxRequests` requests of the same client were
      admitted within the last window; otherwise that window is full and the request is refused (or, when
      no request is ever allowed, the handler fails on the empty list). */
  lemma AdmittedIffWindowHasRoom(c: Config, rs: seq<Request>, r: Request)
    requires Monotone(rs, r.now) && Limited(r)
    ensures var used := |Window(c, AdmittedTimes(c, rs, r.client), r.now)|;
            && (ResponseTo(c, Run(c, rs), r).Admitted? <==> used < c.maxRequests)
            && (ResponseTo(c, Run(c, rs), r).Refused? <==> used >= c.maxRequests && used > 0)
            && (ResponseTo(c, Run(c, rs), r).IndexError? <==> used == 0 && c.maxRequests <= 0)
  {
    PrunedIsHistory(c, rs, r.client, r.now);
  }

  // ---------------------------------------------------------------------------------------------
  // The limit itself
  // ---------------------------------------------------------------------------------------------

  predicate InInterval(t: real, start: real, length: real, closedLeft: bool) {
    if closedLeft then start <= t < start + length else start < t <= start + length
  }

  /** How many of the times lie in a half-open interval. */
  function CountIn(times: seq<real>, start: real, length: real, closedLeft: bool): nat {
    if times == [] then 0
    else
      CountIn(times[..|times| - 1], start, length, closedLeft)
      + if InInterval(times[|times| - 1], start, length, closedLeft) then 1 else 0
  }

  /** All times of an interval that contains `t`, where no time is later than `t`, are recent at `t`. */
  lemma {:induction false} CountInIsRecent(times: seq<real>, start: real, length: real, closedLeft: bool, t: real)
    requires InInterval(t, start, length, closedLeft)
    requires AtMost(times, t)
    ensures CountIn(times, start, length, closedLeft) <= |Recent(times, t - length)|
  {
    if times != [] {
      CountInIsRecent(times[..|times| - 1], start, length, closedLeft, t);
    }
  }

  ghost predicate AtMost(times: seq<real>, now: real) {
    forall i | 0 <= i < |times| :: times[i] <= now
  }

  ghost predicate Ascending(times: seq<real>) {
    forall i, j | 0 <= i < j < |times| :: times[i] <= times[j]
  }

  /** Admission times are recorded in order and lie in the past. */
  lemma {:induction false} AdmittedInThePast(c: Config, rs: seq<Request>, client: string, now: real)
    requires Monotone(rs, now)
    ensures AtMost(AdmittedTimes(c, rs, client), now) && Ascending(AdmittedTimes(c, rs, client))
  {
    if rs != [] {
      MonotoneInit(rs, now);
      AdmittedInThePast(c, rs[..|rs| - 1], client, rs[|rs| - 1].now);
    }
  }

  /** Rate limit over whole runs: for every client, every half-open interval as long as the window holds at
      most `maxRequests` admitted requests. */
  lemma {:induction false} LimitHolds(c: Config, rs: seq<Request>, client: string, now: real, start: real,
                                      closedLeft: bool)
    requires Monotone(rs, now) && c.maxRequests >= 0
    ensures CountIn(AdmittedTimes(c, rs, client), start, c.window as real, closedLeft) <= c.maxRequests
  {
    if rs != [] {
      var init, last := rs[..|rs| - 1], rs[|rs| - 1];
      var admitted := AdmittedTimes(c, init, client);
      MonotoneInit(rs, now);
      LimitHolds(c, init, client, last.now, start, closedLeft);
      if last.client == client && Admits(c, Run(c, init), last) {
        assert (admitted + [last.now])[..|admitted|] == admitted;
        if InInterval(last.now, start, c.window as real, closedLeft) {
          AdmittedInThePast(c, init, client, last.now);
          CountInIsRecent(admitted, start, c.window as real, closedLeft, last.now);
          AdmittedIffWindowHasRoom(c, init, last);
        }
      }
    }
  }

  // ---------------------------------------------------------------------------------------------
  // Retry-After
  // ---------------------------------------------------------------------------------------------

  lemma {:induction false} RecentIsCount(times: seq<real>, start: real, length: real)
    requires AtMost(times, start + length)
    ensures |Recent(times, start)| == CountIn(times, start, length, false)
  {
    if times != [] {
      RecentIsCount(times[..|times| - 1], start, length);
    }
  }

  /** Raising the start past the oldest remaining time drops at least one. */
  lemma {:induction false} RecentShrinks(times: seq<real>, a: real, b: real)
    requires a <= b
    ensures |Recent(times, b)| <= |Recent(times, a)|
    ensures Recent(times, a) != [] && Recent(times, a)[0] <= b ==> |Recent(times, b)| < |Recent(times, a)|
  {
    if times != [] {
      RecentShrinks(times[..|times| - 1], a, b);
    }
  }

  /** Raising the start to below all remaining times drops nothing. */
  lemma {:induction false} RecentUnchanged(times: seq<real>, a: real, b: real)
    requires a <= b
    requires forall i | 0 <= i < |times| :: times[i] > a ==> times[i] > b
    ensures Recent(times, b) == Recent(times, a)
  {
    if times != [] {
      RecentUnchanged(times[..|times| - 1], a, b);
    }
  }

  /** A refusal: the client's recent admissions are exactly `maxRequests` many, and `Retry-After` is the time
      until the oldest of them leaves the window, rounded up to the next whole second. */
  lemma RefusalFacts(c: Config, rs: seq<Request>, r: Request, retryAfter: int)
    requires Monotone(rs, r.now) && ResponseTo(c, Run(c, rs), r) == Refused(retryAfter)
    ensures var start := r.now - c.window as real;
            var recent := Window(c, AdmittedTimes(c, rs, r.client), r.now);
            && recent != [] && |recent| >= c.maxRequests
            && (c.maxRequests >= 0 ==> |recent| == c.maxRequests)
            && (retryAfter - 1) as real <= recent[0] - start < retryAfter as real
  {
    PrunedIsHistory(c, rs, r.client, r.now);
    AdmittedInThePast(c, rs, r.client, r.now);
    RecentIsCount(AdmittedTimes(c, rs, r.client), r.now - c.window as real, c.window as real);
    if c.maxRequests >= 0 {
      LimitHolds(c, rs, r.client, r.now, r.now - c.window as real, false);
    }
  }

  lemma WindowShrinks(c: Config, times: seq<real>, now: real, now': real)
    requires now <= now' && Window(c, times, now) != [] && now' - c.window as real >= Window(c, times, now)[0]
    ensures |Window(c, times, now')| < |Window(c, times, now)|
  {
    RecentShrinks(times, now - c.window as real, now' - c.window as real);
  }

  /** Waiting the announced `Retry-After` works: if a request is refused and the client has no request
      admitted in the meantime, any request from `now + retryAfter` on is admitted. */
  lemma RetryAfterSuffices(
    c: Config, rs: seq<Request>, r: Request, retryAfter: int, later: seq<Request>, again: Request)
    requires Monotone(rs, r.now) && Monotone(later, again.now) && Limited(again) && r.client == again.client
    requires ResponseTo(c, Run(c, rs), r) == Refused(retryAfter) && c.maxRequests >= 1
    requires AdmittedTimes(c, later, r.client) == AdmittedTimes(c, rs, r.client)
    requires again.now >= r.now + retryAfter as real && r.now <= again.now
    ensures ResponseTo(c, Run(c, later), again).Admitted?
  {
    var times := AdmittedTimes(c, rs, r.client);
    RefusalFacts(c, rs, r, retryAfter);
    WindowShrinks(c, times, r.now, again.now);
    AdmittedIffWindowHasRoom(c, later, again);
  }

  lemma {:induction false} RecentAreLater(times: seq<real>, start: real)
    requires Ascending(times)
    ensures Recent(times, start) != [] ==> Recent(times, start)[0] > start
    ensures forall i | 0 <= i < |times| ::
              times[i] > start ==> Recent(times, start) != [] && times[i] >= Recent(times, start)[0]
  {
    if times != [] {
      var init, last := times[..|times| - 1], times[|times| - 1];
      RecentAreLater(init, start);
      if Recent(init, start) != [] {
        RecentMember(init, start);
      }
    }
  }

  lemma {:induction false} RecentMember(times: seq<real>, start: real)
    requires Recent(times, start) != []
    ensures Recent(times, start)[0] in times
  {
    var init := times[..|times| - 1];
    if Recent(init, start) != [] {
      RecentMember(init, start);
    }
  }

  lemma WindowUnchanged(c: Config, times: seq<real>, now: real, now': real)
    requires now <= now' && Window(c, times, now) != [] && now' - c.window as real < Window(c, times, now)[0]
    requires Ascending(times)
    ensures Window(c, times, now') == Window(c, times, now)
  {
    RecentAreLater(times, now - c.window as real);
    RecentUnchanged(times, now - c.window as real, now' - c.window as real);
  }

  /** And it is not more than a second too long: any request earlier than a second before the announced time
      is refused again. */
  lemma RetryAfterIsTight(
    c: Config, rs: seq<Request>, r: Request, retryAfter: int, later: seq<Request>, again: Request)
    requires Monotone(rs, r.now) && Monotone(later, again.now) && Limited(again) && r.client == again.client
    requires ResponseTo(c, Run(c, rs), r) == Refused(retryAfter)
    requires AdmittedTimes(c, later, r.client) == AdmittedTimes(c, rs, r.client)
    requires again.now < r.now + (retryAfter - 1) as real && r.now <= again.now
    ensures ResponseTo(c, Run(c, later), again).Refused?
  {
    RefusalFacts(c, rs, r, retryAfter);
    AdmittedInThePast(c, rs, r.client, r.now);
    WindowUnchanged(c, AdmittedTimes(c, rs, r.client), r.now, again.now);
    AdmittedIffWindowHasRoom(c, later, again);
  }

  // ---------------------------------------------------------------------------------------------
  // The whole answer
  // ---------------------------------------------------------------------------------------------

  /** How many of the client's requests were admitted in the window that ends now. */
  function UsedIn(c: Config, rs: seq<Request>, client: string, now: real): nat {
    CountIn(AdmittedTimes(c, rs, client), now - c.window as real, c.window as real, false)
  }

  lemma WindowIsCount(c: Config, times: seq<real>, now: real)
    requires AtMost(times, now)
    ensures |Window(c, times, now)| == CountIn(times, now - c.window as real, c.window as real, false)
  {
    var start, length := now - c.window as real, c.window as real;
    assert start + length == now;
    RecentIsCount(times, start, length);
  }

  lemma PrunedIsUsed(c: Config, pruned: seq<real>, times: seq<real>, now: real)
    requires pruned == Window(c, times, now) && AtMost(times, now)
    ensures |pruned| == CountIn(times, now - c.window as real, c.window as real, false)
  {
    WindowIsCount(c, times, now);
  }

  lemma AdmittedBefore(c: Config, rs: seq<Request>, client: string, now: real)
    requires Monotone(rs, now)
    ensures AtMost(AdmittedTimes(c, rs, client), now)
  {
    AdmittedInThePast(c, rs, client, now);
  }

  lemma UsedIsPruned(c: Config, rs: seq<Request>, r: Request)
    requires Monotone(rs, r.now)
    ensures |Pruned(c, Run(c, rs), r.client, r.now)| == UsedIn(c, rs, r.client, r.now)
  {
    PrunedIsHistory(c, rs, r.client, r.now);
    AdmittedBefore(c, rs, r.client, r.now);
    PrunedIsUsed(c, Pruned(c, Run(c, rs), r.client, r.now), AdmittedTimes(c, rs, r.client), r.now);
  }

  lemma RunSnoc(c: Config, rs: seq<Request>, r: Request)
    ensures Run(c, rs + [r]) == After(c, Run(c, rs), r)
    ensures AdmittedTimes(c, rs + [r], r.client)
            == if Admits(c, Run(c, rs), r) then AdmittedTimes(c, rs, r.client) + [r.now]
               else AdmittedTimes(c, rs, r.client)
  {
    assert (rs + [r])[..|rs|] == rs;
  }

  /** The whole answer to a request after any run, on its path and the times of the client's admissions: three paths are
      exempt and change nothing; a request is admitted exactly while the window has room, and is told how much is left
      after it; otherwise it is refused, or fails if the window is empty. */
  lemma AnswerExact(c: Config, rs: seq<Request>, r: Request)
    requires Monotone(rs, r.now)
    ensures var answer, used := ResponseTo(c, Run(c, rs), r), UsedIn(c, rs, r.client, r.now);
            var before, after := AdmittedTimes(c, rs, r.client), AdmittedTimes(c, rs + [r], r.client);
            if r.path == "/health" || r.path == "/metrics" || r.path == "/"
            then answer == Exempt && Run(c, rs + [r]) == Run(c, rs) && after == before
            else if used < c.maxRequests then answer == Admitted(c.maxRequests - used - 1) && after == before + [r.now]
            else (if used > 0 then answer.Refused? else answer == IndexError) && after == before
  {
    UsedIsPruned(c, rs, r);
    RunSnoc(c, rs, r);
  }
}

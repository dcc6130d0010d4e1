/**
 * The keep-alive system's bookkeeping: the active flag, the three counters,
 * the thread list, the retry decisions of a ping with their exponential
 * backoff, the critical-alert condition, the request rule that turns a
 * server error into a failure, and the log-level filter. Threads, timers,
 * sleeping and HTTP are outside the model: the outcome of each request and
 * the current time are inputs, and a retry the source hands to a timer is
 * returned as a ScheduledPing.
 */
module KeepAlive {
  import opened Wrappers

  datatype PingType = Startup | Primary | Secondary

  /** What the HTTP library reports for one request. */
  datatype HttpOutcome = Response(status: int) | Timeout | ConnectionError | OtherError

  /** Why _make_request raised. */
  datatype RequestError = ServerError(status: int) | TimedOut(seconds: nat) | ConnectFailed | Failed

  datatype RequestResult = Ok(status: int) | Err(error: RequestError)

  /** A call of _ping that a timer will make after `delay` seconds. */
  datatype ScheduledPing = ScheduledPing(delay: nat, pingType: PingType, retryCount: nat)

  datatype Counters = Counters(success: nat, failure: nat, requests: nat)

  /** What one _ping call decides: the new counters, the retry it schedules
      and whether it raises the critical alert. */
  datatype PingOutcome = PingOutcome(counters: Counters, retry: Option<ScheduledPing>, alert: bool)

  datatype LogLevel = Debug | Info | Warning | Error | Critical

  /** What a keep-alive thread is for. */
  datatype ThreadKind = PingThread(pingType: PingType) | HealthThread

  datatype ThreadSpec = ThreadSpec(name: string, interval: nat, kind: ThreadKind)

  // ---------------------------------------------------------------------
  // Requests, backoff and the ping decision

  /** _make_request: a response with status 500 or above raises, as do the
      transport failures; any lower status passes through. */
  function MakeRequest(outcome: HttpOutcome, requestTimeout: nat): (r: RequestResult)
    ensures r.Ok? <==> outcome.Response? && outcome.status < 500
    ensures r.Ok? ==> r.status == outcome.status
  {
    match outcome
    case Response(status) => if status >= 500 then Err(ServerError(status)) else Ok(status)
    case Timeout => Err(TimedOut(requestTimeout))
    case ConnectionError => Err(ConnectFailed)
    case OtherError => Err(Failed)
  }

  function Pow2(n: nat): (r: nat)
    ensures r >= 1
  {
    if n == 0 then 1 else 2 * Pow2(n - 1)
  }

  /** The wait before retry number r + 1: 5 * 2^r seconds, at most 60. */
  function Backoff(r: nat): nat
  {
    if 5 * Pow2(r) < 60 then 5 * Pow2(r) else 60
  }

  /** _ping's decision. A success resets the failure count and counts one
      more success and one more request. A failure counts one more failure
      unless it is the startup ping; it schedules a retry with backoff while
      retries remain; and it raises the alert when a non-startup failure
      brings the failure count to or past the threshold. */
  function PingDecision(c: Counters, pingType: PingType, retryCount: nat, ok: bool,
                        maxRetries: nat, failureThreshold: nat): PingOutcome
  {
    if ok then PingOutcome(Counters(c.success + 1, 0, c.requests + 1), None, false)
    else
      var after := if pingType != Startup then c.(failure := c.failure + 1) else c;
      var retry := if retryCount < maxRetries
        then Some(ScheduledPing(Backoff(retryCount), pingType, retryCount + 1)) else None;
      PingOutcome(after, retry, pingType != Startup && after.failure >= failureThreshold)
  }

  /** log(): debug messages are dropped unless verbose; an unknown level logs
      at info. */
  function LogTarget(level: string, verbose: bool): (r: Option<LogLevel>)
    ensures r.None? <==> level == "debug" && !verbose
    ensures level == "debug" && verbose ==> r == Some(Debug)
    ensures level == "info" ==> r == Some(Info)
    ensures level == "warning" ==> r == Some(Warning)
    ensures level == "error" ==> r == Some(Error)
    ensures level == "critical" ==> r == Some(Critical)
    ensures level !in {"debug", "info", "warning", "error", "critical"} ==> r == Some(Info)
  {
    if level == "debug" && !verbose then None
    else if level == "debug" then Some(Debug)
    else if level == "warning" then Some(Warning)
    else if level == "error" then Some(Error)
    else if level == "critical" then Some(Critical)
    else Some(Info)
  }

  // ---------------------------------------------------------------------
  // Properties of the decision

  lemma {:induction false} Pow2Monotone(a: nat, b: nat)
    requires a <= b
    ensures Pow2(a) <= Pow2(b)
    decreases b
  {
    if a < b {
      Pow2Monotone(a, b - 1);
    }
  }

  /** Every backoff lies between 5 and 60 seconds. */
  lemma BackoffRange(r: nat)
    ensures 5 <= Backoff(r) <= 60
  {
  }

  /** Later retries never wait less. */
  lemma BackoffMonotone(a: nat, b: nat)
    requires a <= b
    ensures Backoff(a) <= Backoff(b)
  {
    Pow2Monotone(a, b);
  }

  /** The schedule is 5, 10, 20, 40 seconds, then the 60-second cap. */
  lemma BackoffSchedule(r: nat)
    ensures r == 0 ==> Backoff(r) == 5
    ensures r == 1 ==> Backoff(r) == 10
    ensures r == 2 ==> Backoff(r) == 20
    ensures r == 3 ==> Backoff(r) == 40
    ensures r >= 4 ==> Backoff(r) == 60
  {
    if r >= 4 {
      Pow2Monotone(4, r);
      assert Pow2(4) == 16;
    }
  }

  /** A successful ping zeroes the failure count and adds exactly one
      success and one request; it neither retries nor alerts. */
  lemma SuccessCounts(c: Counters, pingType: PingType, retryCount: nat, maxRetries: nat, failureThreshold: nat)
    ensures var d := PingDecision(c, pingType, retryCount, true, maxRetries, failureThreshold);
      && d.counters.failure == 0
      && d.counters.success == c.success + 1
      && d.counters.requests == c.requests + 1
      && d.retry.None? && !d.alert
  {
  }

  /** A failed ping adds exactly one failure unless it is the startup ping,
      which leaves every counter as it was; a failure never counts as a
      success or a request. */
  lemma FailureCounts(c: Counters, pingType: PingType, retryCount: nat, maxRetries: nat, failureThreshold: nat)
    ensures var d := PingDecision(c, pingType, retryCount, false, maxRetries, failureThreshold);
      && (pingType != Startup ==> d.counters == c.(failure := c.failure + 1))
      && (pingType == Startup ==> d.counters == c)
  {
  }

  /** A retry is scheduled exactly when the ping failed with retries left; it
      repeats the same ping type with the next retry count after the backoff. */
  lemma RetryGuard(c: Counters, pingType: PingType, retryCount: nat, ok: bool, maxRetries: nat, failureThreshold: nat)
    ensures var d := PingDecision(c, pingType, retryCount, ok, maxRetries, failureThreshold);
      && (d.retry.Some? <==> !ok && retryCount < maxRetries)
      && (d.retry.Some? ==>
            d.retry.value == ScheduledPing(Backoff(retryCount), pingType, retryCount + 1)
            && 5 <= d.retry.value.delay <= 60)
  {
    BackoffRange(retryCount);
  }

  /** The critical alert fires exactly on a failed non-startup ping that
      brings the failure count to or past the threshold, so every further
      failure alerts again. */
  lemma AlertRule(c: Counters, pingType: PingType, retryCount: nat, ok: bool, maxRetries: nat, failureThreshold: nat)
    ensures PingDecision(c, pingType, retryCount, ok, maxRetries, failureThreshold).alert <==>
      !ok && pingType != Startup && c.failure + 1 >= failureThreshold
  {
  }

  /** Every ping keeps the request count equal to the success count when
      they start equal: only successes count as requests. */
  lemma RequestsTrackSuccesses(c: Counters, pingType: PingType, retryCount: nat, ok: bool, maxRetries: nat, failureThreshold: nat)
    requires c.requests == c.success
    ensures var d := PingDecision(c, pingType, retryCount, ok, maxRetries, failureThreshold);
      d.counters.requests == d.counters.success
  {
  }

  // ---------------------------------------------------------------------
  // A chain of retries

  datatype ChainResult = ChainResult(attempts: nat, counters: Counters, alerts: nat)

  /** A ping followed by the retries it schedules, `outcomes` giving whether
      each successive attempt succeeds; the chain ends when an attempt
      schedules no retry (or the outcomes run out). */
  function RunChain(c: Counters, pingType: PingType, retryCount: nat, outcomes: seq<bool>,
                    maxRetries: nat, failureThreshold: nat): ChainResult
    decreases |outcomes|
  {
    if outcomes == [] then ChainResult(0, c, 0)
    else
      var d := PingDecision(c, pingType, retryCount, outcomes[0], maxRetries, failureThreshold);
      var alerts := if d.alert then 1 else 0;
      match d.retry
      case None => ChainResult(1, d.counters, alerts)
      case Some(next) =>
        var rest := RunChain(d.counters, pingType, next.retryCount, outcomes[1..], maxRetries, failureThreshold);
        ChainResult(1 + rest.attempts, rest.counters, alerts + rest.alerts)
  }

  /** A chain that starts at retry count r makes at most maxRetries + 1 - r
      attempts; from a first attempt, at most maxRetries + 1. */
  lemma {:induction false} ChainBounded(c: Counters, pingType: PingType, retryCount: nat, outcomes: seq<bool>,
                                        maxRetries: nat, failureThreshold: nat)
    requires retryCount <= maxRetries
    ensures RunChain(c, pingType, retryCount, outcomes, maxRetries, failureThreshold).attempts
      <= maxRetries + 1 - retryCount
    decreases |outcomes|
  {
    if outcomes != [] {
      var d := PingDecision(c, pingType, retryCount, outcomes[0], maxRetries, failureThreshold);
      if d.retry.Some? {
        ChainBounded(d.counters, pingType, retryCount + 1, outcomes[1..], maxRetries, failureThreshold);
      }
    }
  }

  /** The bound is reached: when every attempt fails, the chain makes exactly
      maxRetries + 1 - r attempts, and a non-startup chain adds one failure
      per attempt. */
  lemma {:induction false} ChainAllFail(c: Counters, pingType: PingType, retryCount: nat, outcomes: seq<bool>,
                                        maxRetries: nat, failureThreshold: nat)
    requires retryCount <= maxRetries && |outcomes| >= maxRetries + 1 - retryCount
    requires forall k :: 0 <= k < |outcomes| ==> !outcomes[k]
    ensures var res := RunChain(c, pingType, retryCount, outcomes, maxRetries, failureThreshold);
      && res.attempts == maxRetries + 1 - retryCount
      && (pingType != Startup ==> res.counters.failure == c.failure + res.attempts)
      && (pingType == Startup ==> res.counters == c)
    decreases |outcomes|
  {
    assert !outcomes[0];
    var d := PingDecision(c, pingType, retryCount, false, maxRetries, failureThreshold);
    if retryCount < maxRetries {
      forall k | 0 <= k < |outcomes[1..]| ensures !outcomes[1..][k] {
        assert outcomes[1..][k] == outcomes[k + 1];
      }
      ChainAllFail(d.counters, pingType, retryCount + 1, outcomes[1..], maxRetries, failureThreshold);
    }
  }

  /** A chain raises no alert while even an all-failing chain would stay below
      the threshold. */
  lemma {:induction false} ChainQuiet(c: Counters, pingType: PingType, retryCount: nat, outcomes: seq<bool>,
                                      maxRetries: nat, failureThreshold: nat)
    requires retryCount <= maxRetries
    requires c.failure + maxRetries + 1 - retryCount < failureThreshold
    ensures RunChain(c, pingType, retryCount, outcomes, maxRetries, failureThreshold).alerts == 0
    decreases |outcomes|
  {
    if outcomes != [] {
      var d := PingDecision(c, pingType, retryCount, outcomes[0], maxRetries, failureThreshold);
      if d.retry.Some? {
        ChainQuiet(d.counters, pingType, retryCount + 1, outcomes[1..], maxRetries, failureThreshold);
      }
    }
  }

  /** With the default settings (3 retries, threshold 5) one chain started
      right after start() never raises the alert: it fails at most 4 times. */
  lemma DefaultChainNeverAlerts(pingType: PingType, outcomes: seq<bool>)
    ensures RunChain(Counters(0, 0, 0), pingType, 0, outcomes, DefaultMaxRetries, DefaultFailureThreshold).alerts == 0
  {
    ChainQuiet(Counters(0, 0, 0), pingType, 0, outcomes, DefaultMaxRetries, DefaultFailureThreshold);
  }

  // ---------------------------------------------------------------------
  // Counters over a run of pings

  datatype PingEvent = PingEvent(pingType: PingType, ok: bool)

  /** The counters after the pings of `events`, in order. */
  function Replay(c: Counters, events: seq<PingEvent>, maxRetries: nat, failureThreshold: nat): Counters
  {
    if events == [] then c
    else
      var e := events[|events| - 1];
      PingDecision(Replay(c, events[..|events| - 1], maxRetries, failureThreshold), e.pingType, 0, e.ok,
                   maxRetries, failureThreshold).counters
  }

  function Successes(events: seq<PingEvent>): nat
  {
    if events == [] then 0
    else Successes(events[..|events| - 1]) + (if events[|events| - 1].ok then 1 else 0)
  }

  predicate AnySuccess(events: seq<PingEvent>)
  {
    exists k :: 0 <= k < |events| && events[k].ok
  }

  /** Failed non-startup pings after the last success. */
  function TrailingFailures(events: seq<PingEvent>): nat
  {
    if events == [] then 0
    else
      var e := events[|events| - 1];
      if e.ok then 0
      else TrailingFailures(events[..|events| - 1]) + (if e.pingType != Startup then 1 else 0)
  }

  /** The counters count every success as one success and one request, and
      the failure count is the run of non-startup failures since the last
      success (on top of the starting count when no ping succeeded). */
  lemma {:induction false} ReplayCounts(c: Counters, events: seq<PingEvent>, maxRetries: nat, failureThreshold: nat)
    ensures var r := Replay(c, events, maxRetries, failureThreshold);
      && r.success == c.success + Successes(events)
      && r.requests == c.requests + Successes(events)
      && r.failure == (if AnySuccess(events) then 0 else c.failure) + TrailingFailures(events)
  {
    if events != [] {
      var init := events[..|events| - 1];
      var e := events[|events| - 1];
      ReplayCounts(c, init, maxRetries, failureThreshold);
      if !e.ok {
        if AnySuccess(events) {
          var k :| 0 <= k < |events| && events[k].ok;
          assert k < |init| && init[k].ok;
        } else {
          assert !AnySuccess(init) by {
            forall k | 0 <= k < |init| ensures !init[k].ok {
              assert init[k] == events[k];
            }
          }
        }
      } else {
        assert events[|events| - 1].ok;
      }
    }
  }

  /** From fresh counters, the alert fires on a failed non-startup ping
      exactly when it ends a run of at least `failureThreshold` consecutive
      non-startup failures. */
  lemma AlertMeansConsecutiveFailures(events: seq<PingEvent>, e: PingEvent, maxRetries: nat, failureThreshold: nat)
    ensures var c := Replay(Counters(0, 0, 0), events, maxRetries, failureThreshold);
      PingDecision(c, e.pingType, 0, e.ok, maxRetries, failureThreshold).alert <==>
        !e.ok && e.pingType != Startup && TrailingFailures(events + [e]) >= failureThreshold
  {
    ReplayCounts(Counters(0, 0, 0), events, maxRetries, failureThreshold);
    assert (events + [e])[..|events|] == events;
  }

  // ---------------------------------------------------------------------
  // The keep-alive object

  const DefaultPrimaryInterval: nat := 25 * 60
  const DefaultSecondaryInterval: nat := 15 * 60
  const DefaultHealthCheckInterval: nat := 2 * 60
  const DefaultRequestTimeout: nat := 10
  const DefaultMaxRetries: nat := 3
  const DefaultFailureThreshold: nat := 5

  class BackendKeepAlive {
    const primaryInterval: nat
    const secondaryInterval: nat
    const healthCheckInterval: nat
    const requestTimeout: nat
    const maxRetries: nat
    const failureThreshold: nat
    const verbose: bool

    var isActive: bool
    var startTime: Option<int>
    var successCount: nat
    var failureCount: nat
    var requestCount: nat
    var lastPingTime: Option<int>
    var threads: seq<ThreadSpec>

    function Counts(): Counters
      reads this
    {
      Counters(successCount, failureCount, requestCount)
    }

    /** Only successful pings are counted as requests. */
    ghost predicate Valid()
      reads this
    {
      requestCount == successCount
    }

    /** The threads start() launches, in order. */
    function NewThreads(): (r: seq<ThreadSpec>)
      ensures |r| == 3
      ensures r[0].kind == PingThread(Primary) && r[0].interval == primaryInterval
      ensures r[1].kind == PingThread(Secondary) && r[1].interval == secondaryInterval
      ensures r[2].kind == HealthThread && r[2].interval == healthCheckInterval
      ensures r[0].name == "KeepAlive-Primary" && r[1].name == "KeepAlive-Secondary" && r[2].name == "KeepAlive-Health"
    {
      [ThreadSpec("KeepAlive-Primary", primaryInterval, PingThread(Primary)),
       ThreadSpec("KeepAlive-Secondary", secondaryInterval, PingThread(Secondary)),
       ThreadSpec("KeepAlive-Health", healthCheckInterval, HealthThread)]
    }

    constructor (primaryInterval: nat, secondaryInterval: nat, healthCheckInterval: nat,
                 requestTimeout: nat, maxRetries: nat, failureThreshold: nat, verbose: bool)
      ensures Valid()
      ensures this.primaryInterval == primaryInterval && this.secondaryInterval == secondaryInterval
      ensures this.healthCheckInterval == healthCheckInterval && this.requestTimeout == requestTimeout
      ensures this.maxRetries == maxRetries && this.failureThreshold == failureThreshold && this.verbose == verbose
      ensures !isActive && startTime.None? && Counts() == Counters(0, 0, 0) && lastPingTime.None? && threads == []
    {
      this.primaryInterval := primaryInterval;
      this.secondaryInterval := secondaryInterval;
      this.healthCheckInterval := healthCheckInterval;
      this.requestTimeout := requestTimeout;
      this.maxRetries := maxRetries;
      this.failureThreshold := failureThreshold;
      this.verbose := verbose;
      isActive := false;
      startTime := None;
      successCount, failureCount, requestCount := 0, 0, 0;
      lastPingTime := None;
      threads := [];
    }

    /** start(): on a running system nothing changes; otherwise the system
        becomes active with zeroed counters, the three loop threads are
        added, and the startup ping is scheduled after `delayStartupPing`. */
    method Start(now: int, delayStartupPing: nat) returns (startup: Option<ScheduledPing>)
      requires Valid()
      modifies this
      ensures Valid()
      ensures old(isActive) ==> unchanged(this) && startup.None?
      ensures !old(isActive) ==>
        && isActive && startTime == Some(now) && Counts() == Counters(0, 0, 0)
        && threads == old(threads) + NewThreads()
        && lastPingTime == old(lastPingTime)
        && startup == Some(ScheduledPing(delayStartupPing, Startup, 0))
    {
      if isActive {
        return None;
      }
      isActive := true;
      startTime := Some(now);
      successCount, failureCount, requestCount := 0, 0, 0;
      threads := threads + [NewThreads()[0]];
      threads := threads + [NewThreads()[1]];
      threads := threads + [NewThreads()[2]];
      assert threads == old(threads) + NewThreads();
      startup := Some(ScheduledPing(delayStartupPing, Startup, 0));
    }

    /** _ping(pingType, retryCount), given what the request to /api/health
        returned: updates the counters as PingDecision says, records the time
        of a success, and returns whether it succeeded, the retry it
        schedules and whether it raised the critical alert. */
    method Ping(pingType: PingType, retryCount: nat, outcome: HttpOutcome, now: int)
      returns (ok: bool, retry: Option<ScheduledPing>, alert: bool)
      requires Valid()
      modifies this`successCount, this`failureCount, this`requestCount, this`lastPingTime
      ensures Valid()
      ensures ok <==> MakeRequest(outcome, requestTimeout).Ok?
      ensures var d := PingDecision(old(Counts()), pingType, retryCount, ok, maxRetries, failureThreshold);
        Counts() == d.counters && retry == d.retry && alert == d.alert
      ensures lastPingTime == if ok then Some(now) else old(lastPingTime)
    {
      var response := MakeRequest(outcome, requestTimeout);
      ok := response.Ok?;
      retry := None;
      alert := false;
      if ok {
        lastPingTime := Some(now);
        requestCount := requestCount + 1;
        failureCount := 0;
        successCount := successCount + 1;
        return;
      }
      if pingType != Startup {
        failureCount := failureCount + 1;
      }
      if retryCount < maxRetries {
        retry := Some(ScheduledPing(Backoff(retryCount), pingType, retryCount + 1));
      }
      alert := pingType != Startup && failureCount >= failureThreshold;
    }

    /** stop(): on a stopped system nothing changes; otherwise the system is
        marked inactive and everything else is kept. */
    method Stop()
      requires Valid()
      modifies this`isActive
      ensures Valid()
      ensures !isActive
    {
      if !isActive {
        return;
      }
      isActive := false;
    }
  }
}

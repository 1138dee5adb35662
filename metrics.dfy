/** The two request counters. They are C# `int`s raised by
    `Interlocked.Increment`, which wraps from int.MaxValue to int.MinValue;
    calls are taken one after another. */
module Metrics {
  import opened Common

  /** What GetCurrentMetrics reports, without the uptime. */
  datatype MetricsDto = MetricsDto(totalRequests: Int32, totalErrors: Int32)

  /** A 32-bit increment. */
  function Inc32(x: Int32): (r: Int32)
    ensures x < 0x7FFF_FFFF ==> r == x + 1
    ensures x == 0x7FFF_FFFF ==> r == -0x8000_0000
  {
    Wrap32(x + 1)
  }

  class MetricsService {
    var totalRequests: Int32
    var totalErrors: Int32

    /** Both counters start at 0 (lines 9-10). */
    constructor ()
      ensures totalRequests == 0 && totalErrors == 0
    {
      totalRequests := 0;
      totalErrors := 0;
    }

    /** The counters as a value. */
    function Snapshot(): MetricsDto
      reads this
    {
      MetricsDto(totalRequests, totalErrors)
    }

    /** Line 13. */
    method IncrementRequests()
      modifies this
      ensures totalRequests == Inc32(old(totalRequests)) && totalErrors == old(totalErrors)
    {
      totalRequests := Inc32(totalRequests);
    }

    /** Line 14. */
    method IncrementErrors()
      modifies this
      ensures totalErrors == Inc32(old(totalErrors)) && totalRequests == old(totalRequests)
    {
      totalErrors := Inc32(totalErrors);
    }

    /** Lines 16-24: reads both counters, changes neither. */
    method GetCurrentMetrics() returns (m: MetricsDto)
      ensures m.totalRequests == totalRequests && m.totalErrors == totalErrors
    {
      m := MetricsDto(totalRequests, totalErrors);
    }
  }
}

/** The middleware that counts every request, and every request whose
    handler throws. */
module Middleware {
  import opened Common
  import opened Metrics

  /** How the rest of the pipeline ends for one request. */
  datatype HandlerOutcome = Completed | Threw(error: Exception)

  /** The counters after one invocation ending in `outcome`: one more
      request, and an error counter that moves exactly when the handler
      threw. */
  function Step(before: MetricsDto, outcome: HandlerOutcome): (after: MetricsDto)
    ensures before.totalRequests < 0x7FFF_FFFF ==> after.totalRequests == before.totalRequests + 1
    ensures after.totalErrors != before.totalErrors <==> outcome.Threw?
    ensures outcome.Threw? && before.totalErrors < 0x7FFF_FFFF ==> after.totalErrors == before.totalErrors + 1
  {
    MetricsDto(Inc32(before.totalRequests),
               if outcome.Threw? then Inc32(before.totalErrors) else before.totalErrors)
  }

  /** The counters of a fresh service after invocations ending in
      `outcomes`, oldest first; the request counter is their number modulo
      2^32. */
  function Replay(outcomes: seq<HandlerOutcome>): (r: MetricsDto)
    ensures r.totalRequests == Wrap32(|outcomes|)
  {
    if outcomes == [] then MetricsDto(0, 0)
    else
      var init := outcomes[..|outcomes| - 1];
      Inc32OfWrap(|init|);
      Step(Replay(init), outcomes[|outcomes| - 1])
  }

  /** The number of invocations whose handler threw. */
  function Throws(outcomes: seq<HandlerOutcome>): (n: nat)
    ensures n <= |outcomes|
  {
    if outcomes == [] then 0
    else Throws(outcomes[..|outcomes| - 1]) + (if outcomes[|outcomes| - 1].Threw? then 1 else 0)
  }

  /** Incrementing a wrapped value is wrapping the increment. */
  lemma Inc32OfWrap(x: int)
    ensures Inc32(Wrap32(x)) == Wrap32(x + 1)
  {
    var m := 0x1_0000_0000;
    var w: int := Wrap32(x);
    assert (x - w) % m == 0;
    var q := (x - w) / m;
    assert x + 1 == (w + 1) + q * m;
    WrapPeriodic(w + 1, q);
  }

  /** Wrap32 ignores whole multiples of 2^32. */
  lemma {:induction false} WrapPeriodic(y: int, q: int)
    ensures Wrap32(y + q * 0x1_0000_0000) == Wrap32(y)
    decreases if q < 0 then -q else q
  {
    if q > 0 {
      WrapPeriodic(y, q - 1);
      assert y + q * 0x1_0000_0000 == (y + (q - 1) * 0x1_0000_0000) + 0x1_0000_0000;
    } else if q < 0 {
      WrapPeriodic(y, q + 1);
      assert y + q * 0x1_0000_0000 == (y + (q + 1) * 0x1_0000_0000) - 0x1_0000_0000;
    }
  }

  /** After N invocations of which M threw, the counters read N and M, each
      modulo 2^32. */
  lemma {:induction false} ReplayCounts(outcomes: seq<HandlerOutcome>)
    ensures Replay(outcomes) == MetricsDto(Wrap32(|outcomes|), Wrap32(Throws(outcomes)))
  {
    if outcomes != [] {
      var init := outcomes[..|outcomes| - 1];
      ReplayCounts(init);
      Inc32OfWrap(|init|);
      Inc32OfWrap(Throws(init));
    }
  }

  /** Below 2^31 invocations nothing wraps: requests = N and
      0 <= errors <= requests. */
  lemma ErrorsNeverExceedRequests(outcomes: seq<HandlerOutcome>)
    requires |outcomes| < 0x8000_0000
    ensures Replay(outcomes).totalRequests == |outcomes|
    ensures Replay(outcomes).totalErrors == Throws(outcomes)
    ensures 0 <= Replay(outcomes).totalErrors <= Replay(outcomes).totalRequests
  {
    ReplayCounts(outcomes);
  }

  class MetricsMiddleware {
    const metricsService: MetricsService

    constructor (metricsService: MetricsService)
      ensures this.metricsService == metricsService
    {
      this.metricsService := metricsService;
    }

    /** Lines 17-30: the request is counted before the handler runs, so
        `next` already sees it; a throwing handler is counted as an error
        and its exception passes on unchanged; a completing one leaves the
        error counter alone. */
    method InvokeAsync(next: MetricsDto -> HandlerOutcome) returns (outcome: HandlerOutcome)
      modifies metricsService
      ensures outcome == next(MetricsDto(Inc32(old(metricsService.totalRequests)), old(metricsService.totalErrors)))
      ensures metricsService.Snapshot() == Step(old(metricsService.Snapshot()), outcome)
    {
      metricsService.IncrementRequests();
      outcome := next(metricsService.Snapshot());
      if outcome.Threw? {
        metricsService.IncrementErrors();
        return Threw(outcome.error);
      }
    }
  }

  /** One more invocation on top of a replayed history is the replay of the
      longer history: the counters a fresh service shows after a sequence of
      InvokeAsync calls are Replay of their outcomes. */
  lemma ReplayExtends(outcomes: seq<HandlerOutcome>, outcome: HandlerOutcome)
    ensures Replay(outcomes + [outcome]) == Step(Replay(outcomes), outcome)
  {
    assert (outcomes + [outcome])[..|outcomes|] == outcomes;
  }
}

/** The circuit breaker of the remote reranker, and how many calls a run without success can make. */
module JevBreaker {

  datatype Settings = Settings(failureLimit: nat, openMs: nat) {
    /** The bounds the constructor enforces. */
    predicate Valid() {
      1 <= failureLimit <= 20 && 1_000 <= openMs <= 300_000
    }
  }

  datatype Breaker = Breaker(failures: nat, openUntil: int)

  const CLOSED := Breaker(0, 0)

  /** How a rerank ends: too few candidates, or too few after packing; a failure, perhaps before anything was sent; or
      an answer that was used. */
  datatype Outcome = TooFew | OverBudget | Failed(sent: bool) | Applied

  /** One rerank: when the breaker is asked, when it ends, and how it would end if the breaker lets it through. */
  datatype Call = Call(start: int, end: int, outcome: Outcome)

  /** The rerank gets past the check of the clock. */
  predicate LetThrough(b: Breaker, c: Call) {
    !c.outcome.TooFew? && c.start >= b.openUntil
  }

  predicate FailsNow(b: Breaker, c: Call) {
    LetThrough(b, c) && c.outcome.Failed?
  }

  /** The rerank sends a request to the remote ranker. */
  predicate Sends(b: Breaker, c: Call) {
    LetThrough(b, c) && (c.outcome.Applied? || (c.outcome.Failed? && c.outcome.sent))
  }

  function After(b: Breaker, settings: Settings, c: Call): Breaker {
    if !LetThrough(b, c) then b
    else
      match c.outcome
      case Failed(_) =>
        Breaker(b.failures + 1, if b.failures + 1 >= settings.failureLimit then c.end + settings.openMs else b.openUntil)
      case Applied => CLOSED
      case _ => b
  }

  function Run(b: Breaker, settings: Settings, calls: seq<Call>): Breaker {
    if calls == [] then b else After(Run(b, settings, calls[..|calls| - 1]), settings, calls[|calls| - 1])
  }

  /** Reranks do not overlap and the clock does not go back. */
  ghost predicate Ordered(calls: seq<Call>) {
    && (forall i | 0 <= i < |calls| :: 0 <= calls[i].start <= calls[i].end)
    && (forall i, j | 0 <= i < j < |calls| :: calls[i].end <= calls[j].start)
  }

  ghost predicate NoSuccess(calls: seq<Call>) {
    forall i | 0 <= i < |calls| :: !calls[i].outcome.Applied?
  }

  function RemoteCalls(b: Breaker, settings: Settings, calls: seq<Call>): nat {
    if calls == [] then 0
    else
      var init, last := calls[..|calls| - 1], calls[|calls| - 1];
      RemoteCalls(b, settings, init) + if Sends(Run(b, settings, init), last) then 1 else 0
  }

  /** When each failure of the run was noticed, in order. */
  function FailureTimes(b: Breaker, settings: Settings, calls: seq<Call>): seq<int> {
    if calls == [] then []
    else
      var init, last := calls[..|calls| - 1], calls[|calls| - 1];
      FailureTimes(b, settings, init) + if FailsNow(Run(b, settings, init), last) then [last.end] else []
  }

  // ---------------------------------------------------------------- the bound

  lemma OrderedPrefix(calls: seq<Call>)
    requires calls != [] && Ordered(calls)
    ensures Ordered(calls[..|calls| - 1])
  {
  }

  /** The breaker after failures at `times` and no success: once it has opened, failures are a whole open period apart. */
  ghost predicate Spread(settings: Settings, b: Breaker, times: seq<int>, now: int) {
    && b.failures == |times|
    && (times != [] ==> times[|times| - 1] <= now)
    && (|times| < settings.failureLimit ==> b.openUntil == 0)
    && (|times| >= settings.failureLimit >= 1 ==>
          && b.openUntil == times[|times| - 1] + settings.openMs
          && times[settings.failureLimit - 1] + (|times| - settings.failureLimit) * settings.openMs <= times[|times| - 1])
  }

  lemma SpreadStep(settings: Settings, b: Breaker, times: seq<int>, now: int, c: Call)
    requires settings.Valid() && Spread(settings, b, times, now)
    requires now <= c.start <= c.end && !c.outcome.Applied?
    ensures Spread(settings, After(b, settings, c), times + if FailsNow(b, c) then [c.end] else [], c.end)
  {
    if |times| >= settings.failureLimit {
      OneMore(times[settings.failureLimit - 1], |times| - settings.failureLimit, settings.openMs);
    }
  }

  lemma {:induction false} FailuresSpreadOut(settings: Settings, calls: seq<Call>)
    requires settings.Valid() && Ordered(calls) && NoSuccess(calls)
    ensures var times := FailureTimes(CLOSED, settings, calls);
            && Spread(settings, Run(CLOSED, settings, calls), times, if calls == [] then 0 else calls[|calls| - 1].end)
            && RemoteCalls(CLOSED, settings, calls) <= |times|
            && (calls == [] ==> times == [])
  {
    if calls != [] {
      var init, last := calls[..|calls| - 1], calls[|calls| - 1];
      OrderedPrefix(calls);
      hide Spread, After;
      FailuresSpreadOut(settings, init);
      var now := if init == [] then 0 else init[|init| - 1].end;
      SpreadStep(settings, Run(CLOSED, settings, init), FailureTimes(CLOSED, settings, init), now, last);
    }
  }

  lemma OneMore(start: int, n: int, ms: int)
    ensures start + (n + 1) * ms == start + n * ms + ms
  {
  }

  lemma QuotientBound(n: int, ms: int, d: int)
    requires ms > 0 && n * ms <= d
    ensures n <= d / ms
  {
    var q := d / ms;
    var excess := n - q - 1;
    assert d == q * ms + d % ms && d % ms < ms;
    assert excess * ms == n * ms - q * ms - ms;
    assert excess * ms < 0;
    NegativeFactor(excess, ms);
  }

  lemma NegativeFactor(x: int, ms: int)
    requires ms > 0 && x * ms < 0
    ensures x < 0
  {
  }

  /** Without a success, and from a closed breaker, fewer than `failureLimit` failures make as many remote calls at most;
      from the failure that opens the breaker on, each further one costs a whole open period:
      at most failureLimit + floor(D / openMs) calls, D running from that failure to the end of the run. */
  lemma CallsAreBounded(settings: Settings, calls: seq<Call>)
    requires settings.Valid() && Ordered(calls) && NoSuccess(calls)
    ensures var times := FailureTimes(CLOSED, settings, calls);
            if |times| < settings.failureLimit then RemoteCalls(CLOSED, settings, calls) < settings.failureLimit
            else
              && calls != []
              && var d := calls[|calls| - 1].end - times[settings.failureLimit - 1];
              && d >= 0
              && RemoteCalls(CLOSED, settings, calls) <= |times| <= settings.failureLimit + d / settings.openMs
  {
    FailuresSpreadOut(settings, calls);
    var times := FailureTimes(CLOSED, settings, calls);
    hide FailureTimes, RemoteCalls, Run;
    if |times| >= settings.failureLimit {
      var d := calls[|calls| - 1].end - times[settings.failureLimit - 1];
      QuotientBound(|times| - settings.failureLimit, settings.openMs, d);
    }
  }
}

/** How often pairing may fail, measured from a fresh origin and from any reachable state. */
module PairingBounds {
  import opened Sequences
  import opened Wrappers
  import opened Pairing

  /** The times of the failures recorded for `origin` along a run. */
  function FailureTimes(c: Config, s: State, ops: seq<Op>, origin: string): seq<int>
    decreases |ops|
  {
    if ops == [] then []
    else
      var r := Step(c, s, ops[0]);
      (if FailsFor(c, s, ops[0], origin) then [Finished(ops[0])] else []) + FailureTimes(c, r.0, ops[1..], origin)
  }

  predicate FailsFor(c: Config, s: State, op: Op, origin: string) {
    op.Pair? && op.call.origin == origin && Step(c, s, op).1 == PairOutput(Err(InvalidCode))
  }

  predicate SucceedsFor(c: Config, s: State, op: Op, origin: string) {
    op.Pair? && op.call.origin == origin && Step(c, s, op).1.PairOutput? && Step(c, s, op).1.paired.Ok?
  }

  ghost predicate NoSuccessFor(c: Config, s: State, ops: seq<Op>, origin: string)
    decreases |ops|
  {
    ops == [] || (!SucceedsFor(c, s, ops[0], origin) && NoSuccessFor(c, Step(c, s, ops[0]).0, ops[1..], origin))
  }

  /** What the attempt on file for an origin can look like at time `now`. */
  ghost predicate Sane(a: Option<Attempt>, now: int) {
    a.Some? ==>
      && 1 <= a.value.count <= MAX_FAILURES && 0 <= a.value.windowStartedAt <= now
      && (a.value.count < MAX_FAILURES ==> a.value.blockedUntil == 0)
      && (a.value.count == MAX_FAILURES ==> a.value.blockedUntil >= a.value.windowStartedAt + BLOCK_MS)
  }

  /** What one operation does to one origin's attempt: nothing, a failure, a clean slate. */
  ghost predicate AttemptStep(a: Option<Attempt>, a': Option<Attempt>, failed: bool, op: Op) {
    if failed then
      (a.None? || a.value.blockedUntil == 0 || a.value.blockedUntil <= Started(op)) && a' == Some(AfterFailure(a, Finished(op)))
    else
      a' == a || (a'.None? && a.Some? && Stale(a.value, Finished(op)))
  }

  lemma OpMovesAttempt(c: Config, s: State, op: Op, origin: string)
    requires !SucceedsFor(c, s, op, origin)
    ensures AttemptStep(Lookup(s.attempts, origin), Lookup(Step(c, s, op).0.attempts, origin), FailsFor(c, s, op, origin), op)
  {
    match op
    case Pair(p) => PairMovesAttempt(c, s, p, origin);
    case Authenticate(_, _, _, now) => CleanupMovesAttempt(s, now, origin);
    case Revoke(_, _) =>
    case CurrentCode(_, _) =>
    case RotateCode(_, _) =>
  }

  lemma CleanupMovesAttempt(s: State, now: int, origin: string)
    ensures Lookup(Cleanup(s, now).attempts, origin)
         == if origin in s.attempts && !Stale(s.attempts[origin], now) then Some(s.attempts[origin]) else None
  {
  }

  lemma PairMovesAttempt(c: Config, s: State, p: PairCall, origin: string)
    requires !SucceedsFor(c, s, Pair(p), origin)
    ensures AttemptStep(Lookup(s.attempts, origin), Lookup(PairStep(c, s, p).0.attempts, origin),
                        FailsFor(c, s, Pair(p), origin), Pair(p))
  {
    hide Live;
    if PairStep(c, s, p).1.Ok? {
      CleanupMovesAttempt(Accepted(c, Renewed(s, p.now, p.renewed), p), p.now, origin);
    }
  }

  lemma StepStaysSane(a: Option<Attempt>, a': Option<Attempt>, failed: bool, op: Op, from: int)
    requires Sane(a, from) && from <= Started(op) <= Finished(op) && AttemptStep(a, a', failed, op)
    requires from >= 0
    ensures Sane(a', Finished(op))
  {
  }

  lemma WindowsPassed(later: int, earlier: int, k: nat)
    requires later - earlier >= k * WINDOW_MS
    ensures later / WINDOW_MS >= earlier / WINDOW_MS + k
  {
    assert later >= earlier + k * 60_000;
    assert (earlier + k * 60_000) / 60_000 == earlier / 60_000 + k;
  }

  /** The failures still possible up to time `t`. */
  function Allowance(a: Option<Attempt>, now: int, t: int): int {
    match a
    case None => 5 + 4 * ((t - now) / WINDOW_MS)
    case Some(x) => 5 - x.count + 4 * ((t - x.windowStartedAt) / WINDOW_MS)
  }

  lemma AllowancePays(a: Option<Attempt>, a': Option<Attempt>, failed: bool, op: Op, from: int, t: int)
    requires Sane(a, from) && from <= Started(op) <= Finished(op) <= t && AttemptStep(a, a', failed, op)
    ensures Allowance(a', Finished(op), t) + (if failed then 1 else 0) <= Allowance(a, from, t)
  {
    var now := Finished(op);
    if failed {
      if a.Some? && now - a.value.windowStartedAt < WINDOW_MS {
      } else if a.Some? {
        WindowsPassed(t - a.value.windowStartedAt, t - now, 1);
        if a.value.count == MAX_FAILURES {
          WindowsPassed(t - a.value.windowStartedAt, t - now, 5);
        }
      } else {
        WindowsPassed(t - from, t - now, 0);
      }
    } else if a' == a {
      if a.None? {
        WindowsPassed(t - from, t - now, 0);
      }
    } else {
      WindowsPassed(t - a.value.windowStartedAt, t - now, 1);
      if a.value.count == MAX_FAILURES {
        WindowsPassed(t - a.value.windowStartedAt, t - now, 5);
      }
    }
  }

  lemma {:induction false} FailuresWithinAllowance(c: Config, s: State, ops: seq<Op>, origin: string, from: int, t: int)
    requires ClockFrom(ops, from) && NoSuccessFor(c, s, ops, origin) && Sane(Lookup(s.attempts, origin), from)
    requires forall x | x in FailureTimes(c, s, ops, origin) :: x <= t
    requires FailureTimes(c, s, ops, origin) != [] && from >= 0
    ensures |FailureTimes(c, s, ops, origin)| <= Allowance(Lookup(s.attempts, origin), from, t)
    decreases |ops|
  {
    var op, s' := ops[0], Step(c, s, ops[0]).0;
    var a, a' := Lookup(s.attempts, origin), Lookup(s'.attempts, origin);
    var failed, rest := FailsFor(c, s, op, origin), FailureTimes(c, s', ops[1..], origin);
    hide Step, FailsFor, SucceedsFor;
    OpMovesAttempt(c, s, op, origin);
    StepStaysSane(a, a', failed, op, from);
    assert forall x | x in rest :: x in FailureTimes(c, s, ops, origin);
    if rest != [] {
      FailureIsLater(c, s', ops[1..], origin, Finished(op));
      assert rest[0] in rest && rest[0] in FailureTimes(c, s, ops, origin);
      assert Finished(op) <= rest[0] <= t;
      AllowancePays(a, a', failed, op, from, t);
      FailuresWithinAllowance(c, s', ops[1..], origin, Finished(op), t);
    } else {
      assert failed && Finished(op) in FailureTimes(c, s, ops, origin);
      AllowancePays(a, a', failed, op, from, t);
      AllowanceIsNotNegative(a', Finished(op), t);
    }
  }

  lemma AllowanceIsNotNegative(a: Option<Attempt>, now: int, t: int)
    requires Sane(a, now) && now <= t
    ensures Allowance(a, now, t) >= 0
  {
  }

  lemma {:induction false} FailureIsLater(c: Config, s: State, ops: seq<Op>, origin: string, from: int)
    requires ClockFrom(ops, from)
    ensures forall x | x in FailureTimes(c, s, ops, origin) :: from <= x
    decreases |ops|
  {
    hide Step, FailsFor;
    if ops != [] {
      FailureIsLater(c, Step(c, s, ops[0]).0, ops[1..], origin, Finished(ops[0]));
    }
  }

  /** The window on file is over at `now`, or the next failure ends it with a block. */
  ghost predicate WindowIsSpent(a: Option<Attempt>, now: int) {
    a.Some? ==>
      || now - a.value.windowStartedAt >= WINDOW_MS
      || (Sane(a, now) && a.value.count >= MAX_FAILURES - 1)
  }

  lemma StepStaysSpent(a: Option<Attempt>, a': Option<Attempt>, op: Op, from: int)
    requires WindowIsSpent(a, from) && 0 <= from <= Started(op) <= Finished(op) && AttemptStep(a, a', false, op)
    ensures WindowIsSpent(a', Finished(op))
  {
  }

  /** The first failure after a spent window opens a new one or blocks, and pays for what follows. */
  lemma FirstFailurePays(a: Option<Attempt>, a': Option<Attempt>, op: Op, from: int, t: int)
    requires WindowIsSpent(a, from) && 0 <= from <= Started(op) <= Finished(op) <= t && AttemptStep(a, a', true, op)
    ensures Sane(a', Finished(op))
    ensures 1 + Allowance(a', Finished(op), t) <= 5 + 4 * ((t - Finished(op)) / WINDOW_MS)
  {
    if a.Some? && Finished(op) - a.value.windowStartedAt < WINDOW_MS {
      WindowReachesBack(t - a.value.windowStartedAt, t - Finished(op));
    }
  }

  lemma WindowReachesBack(long: int, short: int)
    requires short <= long < short + WINDOW_MS
    ensures long / WINDOW_MS <= short / WINDOW_MS + 1
  {
  }

  /** At most five failures, and four more for each whole window they span. */
  predicate WithinRate(times: seq<int>)
    requires times != []
  {
    |times| <= 5 + 4 * ((times[|times| - 1] - times[0]) / WINDOW_MS)
  }

  /** From a clean slate, or a window that is spent, the failures recorded for an origin over D milliseconds number at
      most 5 + 4 * floor(D / 60000). */
  lemma {:induction false} FailureRateBound(c: Config, s: State, ops: seq<Op>, origin: string, from: int)
    requires ClockFrom(ops, from) && NoSuccessFor(c, s, ops, origin) && from >= 0
    requires WindowIsSpent(Lookup(s.attempts, origin), from)
    requires FailureTimes(c, s, ops, origin) != []
    ensures WithinRate(FailureTimes(c, s, ops, origin))
    decreases |ops|
  {
    hide Step, FailsFor, SucceedsFor, WindowIsSpent, Sane, Allowance;
    var op, s' := ops[0], Step(c, s, ops[0]).0;
    var a, a' := Lookup(s.attempts, origin), Lookup(s'.attempts, origin);
    var f, rest := FailureTimes(c, s, ops, origin), FailureTimes(c, s', ops[1..], origin);
    OpMovesAttempt(c, s, op, origin);
    if FailsFor(c, s, op, origin) {
      FailuresAreOrdered(c, s, ops, origin, from);
      assert f == [Finished(op)] + rest;
      if rest != [] {
        assert rest[|rest| - 1] == f[|f| - 1];
        FailuresAreOrdered(c, s', ops[1..], origin, Finished(op));
        FirstFailurePays(a, a', op, from, f[|f| - 1]);
        FailuresWithinAllowance(c, s', ops[1..], origin, Finished(op), f[|f| - 1]);
      }
    } else {
      StepStaysSpent(a, a', op, from);
      FailureRateBound(c, s', ops[1..], origin, Finished(op));
    }
  }

  ghost predicate NoneAfterLast(times: seq<int>) {
    forall i | 0 <= i < |times| :: times[i] <= times[|times| - 1]
  }

  lemma {:induction false} FailuresAreOrdered(c: Config, s: State, ops: seq<Op>, origin: string, from: int)
    requires ClockFrom(ops, from)
    ensures NoneAfterLast(FailureTimes(c, s, ops, origin))
    ensures FailureTimes(c, s, ops, origin) != [] ==> from <= FailureTimes(c, s, ops, origin)[0]
    decreases |ops|
  {
    hide Step, FailsFor;
    if ops != [] {
      var s' := Step(c, s, ops[0]).0;
      var f, rest := FailureTimes(c, s, ops, origin), FailureTimes(c, s', ops[1..], origin);
      FailuresAreOrdered(c, s', ops[1..], origin, Finished(ops[0]));
      if FailsFor(c, s, ops[0], origin) && rest != [] {
        assert f == [Finished(ops[0])] + rest;
        assert rest[0] <= rest[|rest| - 1];
        assert f[|f| - 1] == rest[|rest| - 1];
        forall i | 0 <= i < |f| ensures f[i] <= f[|f| - 1] {
          if i > 0 {
            assert f[i] == rest[i - 1];
          }
        }
      }
    }
  }

  // ---------------------------------------------------------------- every reachable state

  /** The manager after a run. */
  function After(c: Config, s: State, ops: seq<Op>): State
    decreases |ops|
  {
    if ops == [] then s else After(c, Step(c, s, ops[0]).0, ops[1..])
  }

  /** When the last operation of a run that began at `from` was over. */
  function EndOf(ops: seq<Op>, from: int): int
    decreases |ops|
  {
    if ops == [] then from else EndOf(ops[1..], Finished(ops[0]))
  }

  lemma SuccessClearsAttempt(c: Config, s: State, op: Op, origin: string)
    requires SucceedsFor(c, s, op, origin)
    ensures Lookup(Step(c, s, op).0.attempts, origin) == None
  {
    hide CheckOrigin, Live;
  }

  /** Whatever the run, successes included, the attempts on file stay sane. */
  lemma {:induction false} RunStaysSane(c: Config, s: State, ops: seq<Op>, origin: string, from: int)
    requires ClockFrom(ops, from) && from >= 0 && Sane(Lookup(s.attempts, origin), from)
    ensures Sane(Lookup(After(c, s, ops).attempts, origin), EndOf(ops, from)) && EndOf(ops, from) >= from
    decreases |ops|
  {
    hide Step, FailsFor, SucceedsFor;
    if ops != [] {
      var op, s' := ops[0], Step(c, s, ops[0]).0;
      if SucceedsFor(c, s, op, origin) {
        SuccessClearsAttempt(c, s, op, origin);
      } else {
        OpMovesAttempt(c, s, op, origin);
        StepStaysSane(Lookup(s.attempts, origin), Lookup(s'.attempts, origin), FailsFor(c, s, op, origin), op, from);
      }
      RunStaysSane(c, s', ops[1..], origin, Finished(op));
    }
  }

  lemma {:induction false} ClockGoesOn(before: seq<Op>, after: seq<Op>, from: int)
    requires ClockFrom(before + after, from)
    ensures ClockFrom(before, from) && ClockFrom(after, EndOf(before, from))
    decreases |before|
  {
    if before == [] {
      assert before + after == after;
    } else {
      assert (before + after)[1..] == before[1..] + after;
      ClockGoesOn(before[1..], after, Finished(before[0]));
    }
  }

  /** After any run of a new manager, with successes and failures of all origins, the next failures of an origin without
      a success over D milliseconds number at most 8 + 4 * floor(D / 60000). */
  lemma FailureRateBoundAfterAnyRun(c: Config, first: Code, before: seq<Op>, ops: seq<Op>, origin: string, from: int)
    requires ClockFrom(before + ops, from) && from >= 0
    requires NoSuccessFor(c, After(c, State(first, [], map[]), before), ops, origin)
    requires FailureTimes(c, After(c, State(first, [], map[]), before), ops, origin) != []
    ensures var f := FailureTimes(c, After(c, State(first, [], map[]), before), ops, origin);
            |f| <= 8 + 4 * ((f[|f| - 1] - f[0]) / WINDOW_MS)
  {
    hide FailureTimes, NoSuccessFor, After;
    var s := State(first, [], map[]);
    ClockGoesOn(before, ops, from);
    RunStaysSane(c, s, before, origin, from);
    FailureRateBoundAnywhere(c, After(c, s, before), ops, origin, EndOf(before, from));
  }

  /** Measured from the middle of a run the bound is 8 + 4 * floor(D / 60000): the window may already
      hold failures made before the interval. */
  lemma {:induction false} FailureRateBoundAnywhere(c: Config, s: State, ops: seq<Op>, origin: string, from: int)
    requires ClockFrom(ops, from) && NoSuccessFor(c, s, ops, origin) && from >= 0
    requires Sane(Lookup(s.attempts, origin), from)
    requires FailureTimes(c, s, ops, origin) != []
    ensures var f := FailureTimes(c, s, ops, origin);
            |f| <= 8 + 4 * ((f[|f| - 1] - f[0]) / WINDOW_MS)
    decreases |ops|
  {
    hide Step, FailsFor, SucceedsFor;
    var op, s' := ops[0], Step(c, s, ops[0]).0;
    var a, a' := Lookup(s.attempts, origin), Lookup(s'.attempts, origin);
    var f, rest := FailureTimes(c, s, ops, origin), FailureTimes(c, s', ops[1..], origin);
    OpMovesAttempt(c, s, op, origin);
    StepStaysSane(a, a', FailsFor(c, s, op, origin), op, from);
    if FailsFor(c, s, op, origin) {
      FailuresAreOrdered(c, s, ops, origin, from);
      assert f == [Finished(op)] + rest;
      if rest != [] {
        assert rest[|rest| - 1] == f[|f| - 1];
        FailuresAreOrdered(c, s', ops[1..], origin, Finished(op));
        FailuresWithinAllowance(c, s', ops[1..], origin, Finished(op), f[|f| - 1]);
        if a.Some? && Finished(op) - a.value.windowStartedAt < WINDOW_MS {
          assert a'.value.count >= 2;
          WindowReachesBack(f[|f| - 1] - a'.value.windowStartedAt, f[|f| - 1] - Finished(op));
        } else {
          assert a'.value.count == 1 && a'.value.windowStartedAt == Finished(op);
        }
      }
    } else {
      FailureRateBoundAnywhere(c, s', ops[1..], origin, Finished(op));
    }
  }

  // ---------------------------------------------------------------- the bounds are attained

  /** A code that is wrong now and stays wrong when the manager renews its own. */
  ghost predicate AlwaysWrong(s: State, p: PairCall) {
    CheckOrigin(p.extensionId, p.origin).None? && p.code != s.pairing.code && p.code != p.renewed.code
  }

  /** The call at each of the given times. */
  function Burst(p: PairCall, times: seq<int>): seq<Op> {
    if times == [] then [] else [Pair(p.(checkedAt := times[0], now := times[0]))] + Burst(p, times[1..])
  }

  /** Failing at each of these times runs into no block. */
  ghost predicate Unblocked(a: Option<Attempt>, times: seq<int>)
    decreases |times|
  {
    times == [] ||
    ((a.Some? ==> a.value.blockedUntil == 0 || a.value.blockedUntil <= times[0]) &&
     Unblocked(Some(AfterFailure(a, times[0])), times[1..]))
  }

  ghost predicate Ascending(times: seq<int>, from: int) {
    times == [] || (from <= times[0] && Ascending(times[1..], times[0]))
  }

  lemma WrongCodeFails(c: Config, s: State, p: PairCall, now: int)
    requires AlwaysWrong(s, p) && Unblocked(Lookup(s.attempts, p.origin), [now])
    ensures var op := Pair(p.(checkedAt := now, now := now));
            && FailsFor(c, s, op, p.origin)
            && AlwaysWrong(Step(c, s, op).0, p)
            && Lookup(Step(c, s, op).0.attempts, p.origin) == Some(AfterFailure(Lookup(s.attempts, p.origin), now))
  {
    hide CheckOrigin, AfterFailure;
  }

  /** Wrong codes that run into no block all fail, and none succeeds. */
  lemma {:induction false} BurstFails(c: Config, s: State, p: PairCall, times: seq<int>, from: int)
    requires AlwaysWrong(s, p) && Unblocked(Lookup(s.attempts, p.origin), times) && Ascending(times, from)
    ensures FailureTimes(c, s, Burst(p, times), p.origin) == times
    ensures NoSuccessFor(c, s, Burst(p, times), p.origin) && ClockFrom(Burst(p, times), from)
    decreases |times|
  {
    hide AlwaysWrong, Step, AfterFailure;
    if times != [] {
      var op := Pair(p.(checkedAt := times[0], now := times[0]));
      assert Burst(p, times)[1..] == Burst(p, times[1..]);
      assert Unblocked(Lookup(s.attempts, p.origin), [times[0]]);
      WrongCodeFails(c, s, p, times[0]);
      BurstFails(c, Step(c, s, op).0, p, times[1..], times[0]);
    }
  }

  lemma FailsOnce(a: Option<Attempt>, t: int, rest: seq<int>)
    requires a.Some? ==> a.value.blockedUntil == 0 || a.value.blockedUntil <= t
    requires Unblocked(Some(AfterFailure(a, t)), rest)
    ensures Unblocked(a, [t] + rest)
  {
    assert ([t] + rest)[1..] == rest;
  }

  lemma FiveOf(t: int)
    ensures [t] + [] == [t] && [t] + [t] == [t, t] && [t] + [t, t] == [t, t, t]
    ensures [t] + [t, t, t] == [t, t, t, t] && [t] + [t, t, t, t] == [t, t, t, t, t]
  {
  }

  /** A new window takes five failures at once. */
  lemma FiveFit(a: Option<Attempt>, t: int)
    requires a.Some? && t - a.value.windowStartedAt >= WINDOW_MS && a.value.blockedUntil <= t
    ensures Unblocked(a, [t, t, t, t, t])
  {
    hide Unblocked;
    FiveOf(t);
    NoneFit(Some(Attempt(5, t, t + BLOCK_MS)));
    FailsOnce(Some(Attempt(4, t, 0)), t, []);
    FailsOnce(Some(Attempt(3, t, 0)), t, [t]);
    FailsOnce(Some(Attempt(2, t, 0)), t, [t, t]);
    FailsOnce(Some(Attempt(1, t, 0)), t, [t, t, t]);
    FailsOnce(a, t, [t, t, t, t]);
  }

  lemma NoneFit(a: Option<Attempt>)
    ensures Unblocked(a, [])
  {
  }

  lemma AscendingCons(t: int, rest: seq<int>, from: int)
    requires from <= t && Ascending(rest, t)
    ensures Ascending([t] + rest, from)
  {
    assert ([t] + rest)[1..] == rest;
  }

  lemma FiveAscend(t: int, from: int)
    requires from <= t
    ensures Ascending([t, t, t, t, t], from)
  {
    FiveOf(t);
    AscendingCons(t, [], t);
    AscendingCons(t, [t], t);
    AscendingCons(t, [t, t], t);
    AscendingCons(t, [t, t, t], t);
    AscendingCons(t, [t, t, t, t], from);
  }

  /** A run of a fresh origin whose second to ninth failures lie within a millisecond: three use up the window of the
      first, and five more the next. Seen from the middle of a run, eight failures need no time. */
  lemma MidWindowBurst(c: Config, s: State, p: PairCall)
    requires AlwaysWrong(s, p) && p.origin !in s.attempts
    ensures var times := [0, 59_999, 59_999, 59_999, 60_000, 60_000, 60_000, 60_000, 60_000];
            FailureTimes(c, s, Burst(p, times), p.origin) == times
            && NoSuccessFor(c, s, Burst(p, times), p.origin) && ClockFrom(Burst(p, times), 0)
  {
    hide Unblocked, Ascending, FailureTimes, NoSuccessFor, ClockFrom, Burst;
    var late := [60_000, 60_000, 60_000, 60_000, 60_000];
    FiveFit(Some(Attempt(4, 0, 0)), 60_000);
    FailsOnce(Some(Attempt(3, 0, 0)), 59_999, late);
    FailsOnce(Some(Attempt(2, 0, 0)), 59_999, [59_999] + late);
    FailsOnce(Some(Attempt(1, 0, 0)), 59_999, [59_999] + ([59_999] + late));
    FailsOnce(None, 0, [59_999] + ([59_999] + ([59_999] + late)));
    FiveAscend(60_000, 59_999);
    AscendingCons(59_999, late, 59_999);
    AscendingCons(59_999, [59_999] + late, 59_999);
    AscendingCons(59_999, [59_999] + ([59_999] + late), 0);
    AscendingCons(0, [59_999] + ([59_999] + ([59_999] + late)), 0);
    assert [0] + ([59_999] + ([59_999] + ([59_999] + late))) == [0, 59_999, 59_999, 59_999, 60_000, 60_000, 60_000, 60_000, 60_000];
    BurstFails(c, s, p, [0, 59_999, 59_999, 59_999, 60_000, 60_000, 60_000, 60_000, 60_000], 0);
  }

  // ---------------------------------------------------------------- when the bound of five holds

  ghost predicate CanPair(origin: string) {
    exists extensionId :: CheckOrigin(extensionId, origin).None?
  }

  /** From `from` on, every run without a success keeps within five failures and four for each whole window. */
  ghost predicate RateHolds(c: Config, s: State, origin: string, from: int) {
    forall ops | ClockFrom(ops, from) && NoSuccessFor(c, s, ops, origin) && FailureTimes(c, s, ops, origin) != [] ::
      WithinRate(FailureTimes(c, s, ops, origin))
  }

  lemma {:induction false} StrangersNeverFail(c: Config, s: State, ops: seq<Op>, origin: string)
    requires !CanPair(origin)
    ensures FailureTimes(c, s, ops, origin) == []
    decreases |ops|
  {
    if ops != [] {
      if ops[0].Pair? && ops[0].call.origin == origin {
        assert CheckOrigin(ops[0].call.extensionId, origin).Some?;
      }
      StrangersNeverFail(c, Step(c, s, ops[0]).0, ops[1..], origin);
    }
  }

  /** One to three failures in a window that is still open leave room for one more at its end and five in the next. */
  lemma OpenWindowBreaksTheRate(c: Config, s: State, p: PairCall, from: int)
    requires AlwaysWrong(s, p) && from >= 0 && Sane(Lookup(s.attempts, p.origin), from)
    requires !WindowIsSpent(Lookup(s.attempts, p.origin), from)
    ensures !RateHolds(c, s, p.origin, from)
  {
    hide Unblocked, Ascending, FailureTimes, NoSuccessFor, ClockFrom, Burst, AlwaysWrong;
    var a := Lookup(s.attempts, p.origin).value;
    var last, next := a.windowStartedAt + 59_999, a.windowStartedAt + 60_000;
    FiveFit(Some(Attempt(a.count + 1, a.windowStartedAt, 0)), next);
    FailsOnce(Some(a), last, [next, next, next, next, next]);
    FiveAscend(next, last);
    AscendingCons(last, [next, next, next, next, next], from);
    var times := [last] + [next, next, next, next, next];
    BurstFails(c, s, p, times, from);
    assert !WithinRate(times);
    assert !RateHolds(c, s, p.origin, from);
  }

  /** From a sane state, the bound of five failures and four for each whole window holds for every run exactly when the
      origin cannot pair at all or its window is spent. */
  lemma FailureRateBoundIsExact(c: Config, s: State, origin: string, from: int)
    requires from >= 0 && Sane(Lookup(s.attempts, origin), from)
    ensures RateHolds(c, s, origin, from) <==> !CanPair(origin) || WindowIsSpent(Lookup(s.attempts, origin), from)
  {
    hide Sane, WindowIsSpent, WithinRate, FailureTimes, NoSuccessFor, ClockFrom, Lookup;
    if !CanPair(origin) {
      forall ops ensures FailureTimes(c, s, ops, origin) == [] {
        StrangersNeverFail(c, s, ops, origin);
      }
    } else if WindowIsSpent(Lookup(s.attempts, origin), from) {
      forall ops | ClockFrom(ops, from) && NoSuccessFor(c, s, ops, origin) && FailureTimes(c, s, ops, origin) != []
        ensures WithinRate(FailureTimes(c, s, ops, origin))
      {
        FailureRateBound(c, s, ops, origin, from);
      }
    } else {
      var extensionId :| CheckOrigin(extensionId, origin).None?;
      var p := PairCall(s.pairing.code + "x", extensionId, origin, 0, 0, s.pairing, s.pairing, "", "");
      assert |p.code| > |s.pairing.code|;
      OpenWindowBreaksTheRate(c, s, p, from);
    }
  }
}

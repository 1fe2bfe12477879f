/** The readiness of a language-server session: notifications, quiet-period timers and warm-up probes of any age. */
module Readiness {
  import opened Wrappers

  datatype Mode = Cold | Warming | Ready | Failed | Closed

  datatype Signal = SaysWarming | SaysReady

  /** A warm-up request under way: it waits for symbols, then for evidence about the first of them. */
  datatype Probe = Probe(generation: nat, term: string, forEvidence: bool)

  /** `timers` are the live quiet-period and retry timers with the generation each will finish; `readyTimer` names the
      one that can be cleared. `latest` is the last readiness notification, which the session itself does not keep. */
  datatype Session = Session(
    mode: Mode, generation: nat, subscribed: bool, hasClient: bool, term: Option<string>,
    timers: map<nat, nat>, readyTimer: Option<nat>, nextTimer: nat, warmupTimer: bool, probes: multiset<Probe>,
    symbols: map<string, string>, evidence: map<string, string>, latest: Option<Signal>)

  const NEW := Session(Cold, 0, false, false, None, map[], None, 0, false, multiset{}, map[], map[], None)

  // ---------------------------------------------------------------- the steps of the session

  function ClearReadyTimer(s: Session): Session {
    s.(timers := if s.readyTimer.Some? then s.timers - {s.readyTimer.value} else s.timers, readyTimer := None)
  }

  function Prewarm(s: Session, created: bool): Session {
    if s.mode != Cold then s else s.(mode := Warming, hasClient := created, subscribed := created)
  }

  function Fail(s: Session): Session {
    if s.mode == Closed then s else s.(mode := Failed, warmupTimer := false)
  }

  function MarkReady(s: Session): Session {
    if s.mode == Closed then s else ClearReadyTimer(s.(mode := Ready, warmupTimer := false))
  }

  function FinishWarmup(s: Session, generation: nat): Session {
    if s.mode == Closed || generation != s.generation then s
    else if s.hasClient && s.term.Some? && s.term.value != "" && s.term.value !in s.symbols then
      s.(probes := s.probes + multiset{Probe(generation, s.term.value, false)})
    else MarkReady(s)
  }

  function StartTimer(s: Session, generation: nat): Session {
    s.(timers := s.timers[s.nextTimer := generation], readyTimer := Some(s.nextTimer), nextTimer := s.nextTimer + 1)
  }

  function ScheduleReady(s: Session, generation: nat, quietMs: int): Session {
    if s.mode == Closed then s
    else if quietMs <= 0 then FinishWarmup(Cleared(s), generation)
    else StartTimer(Cleared(s), generation)
  }

  /** `clearTimeout(this.readyTimer)` alone: the field keeps naming the dead timer. */
  function Cleared(s: Session): Session {
    s.(timers := ClearReadyTimer(s).timers)
  }

  function Notified(s: Session, signal: Signal, quietMs: int): Session {
    if !s.subscribed then s
    else if signal.SaysWarming? then
      ClearReadyTimer(s).(generation := s.generation + 1, mode := Warming, latest := Some(signal))
    else ScheduleReady(s.(latest := Some(signal)), s.generation, quietMs)
  }

  function TimerFired(s: Session, id: nat): Session {
    if id !in s.timers then s else FinishWarmup(s.(timers := s.timers - {id}), s.timers[id])
  }

  function WarmupTimedOut(s: Session): Session {
    if !s.warmupTimer then s else if s.mode == Warming then Fail(s.(warmupTimer := false)) else s.(warmupTimer := false)
  }

  /** Symbols arrive; `found` says that one of them is worth asking evidence for. */
  function SymbolsArrived(s: Session, p: Probe, symbols: string, found: bool): Session {
    if p !in s.probes || p.forEvidence then s
    else
      var t := s.(probes := s.probes - multiset{p});
      if p.generation != t.generation then t
      else
        var u := t.(symbols := t.symbols[p.term := symbols]);
        if found then u.(probes := u.probes + multiset{p.(forEvidence := true)}) else MarkReady(u)
  }

  function EvidenceArrived(s: Session, p: Probe, evidence: string): Session {
    if p !in s.probes || !p.forEvidence then s
    else
      var t := s.(probes := s.probes - multiset{p});
      if p.generation != t.generation then t else MarkReady(t.(evidence := t.evidence[p.term := evidence]))
  }

  function ProbeFailed(s: Session, p: Probe): Session {
    if p !in s.probes then s
    else
      var t := s.(probes := s.probes - multiset{p});
      if t.mode == Warming && p.generation == t.generation then StartTimer(t, p.generation) else t
  }

  function CloseBegun(s: Session): Session {
    Cleared(s).(mode := Closed, warmupTimer := false, subscribed := false)
  }

  datatype Op =
    | Ask(term: string, created: bool)            // context(): keeps the first term, prewarms a cold session
    | Start(created: bool)                        // prewarm()
    | Started                                     // the initialize handshake is done
    | StartFailed
    | Notify(signal: Signal)
    | Fire(id: nat)
    | WarmupTimeout
    | Symbols(probe: Probe, symbols: string, found: bool)
    | Evidence(probe: Probe, evidence: string)
    | ProbeError(probe: Probe)
    | FilesChanged
    | QueryStores(key: string, value: string)
    | Close
    | ClientClosed

  function Step(s: Session, quietMs: int, op: Op): Session {
    match op
    case Ask(term, created) =>
      Prewarm(if s.term.None? && term != "" then s.(term := Some(term)) else s, created)
    case Start(created) => Prewarm(s, created)
    case Started => s.(warmupTimer := true)
    case StartFailed => Fail(s)
    case Notify(signal) => Notified(s, signal, quietMs)
    case Fire(id) => TimerFired(s, id)
    case WarmupTimeout => WarmupTimedOut(s)
    case Symbols(probe, symbols, found) => SymbolsArrived(s, probe, symbols, found)
    case Evidence(probe, evidence) => EvidenceArrived(s, probe, evidence)
    case ProbeError(probe) => ProbeFailed(s, probe)
    case FilesChanged => if s.hasClient then s.(symbols := map[], evidence := map[]) else s
    case QueryStores(key, value) => s.(symbols := s.symbols[key := value])
    case Close => CloseBegun(s)
    case ClientClosed => if s.mode == Closed then s.(hasClient := false) else s
  }

  function Run(s: Session, quietMs: int, ops: seq<Op>): Session {
    if ops == [] then s else Step(Run(s, quietMs, ops[..|ops| - 1]), quietMs, ops[|ops| - 1])
  }

  // ---------------------------------------------------------------- the class

  class LspSymbolSession {
    const quietMs: int
    var state: Mode
    var readinessGeneration: nat
    var subscribed: bool
    var hasClient: bool
    var warmupTerm: Option<string>
    var timers: map<nat, nat>
    var readyTimer: Option<nat>
    var nextTimer: nat
    var warmupTimer: bool
    var probes: multiset<Probe>
    var symbolCache: map<string, string>
    var evidenceCache: map<string, string>
    ghost var latest: Option<Signal>

    ghost function Now(): Session
      reads this
    {
      Session(state, readinessGeneration, subscribed, hasClient, warmupTerm, timers, readyTimer, nextTimer, warmupTimer,
              probes, symbolCache, evidenceCache, latest)
    }

    constructor (quietMs: int)
      ensures this.quietMs == quietMs && Now() == NEW
    {
      this.quietMs := quietMs;
      state, readinessGeneration, subscribed, hasClient, warmupTerm := Cold, 0, false, false, None;
      timers, readyTimer, nextTimer, warmupTimer, probes := map[], None, 0, false, multiset{};
      symbolCache, evidenceCache, latest := map[], map[], None;
    }

    method StartWarming(created: bool)
      modifies this
      ensures Now() == Prewarm(old(Now()), created)
    {
      if state != Cold {
        return;
      }
      state := Warming;
      hasClient := created;
      subscribed := created;
    }

    method OnNotification(signal: Signal)
      modifies this
      ensures Now() == Notified(old(Now()), signal, quietMs)
    {
      if !subscribed {
        return;
      }
      latest := Some(signal);
      if signal.SaysWarming? {
        readinessGeneration := readinessGeneration + 1;
        if readyTimer.Some? {
          timers := timers - {readyTimer.value};
        }
        readyTimer := None;
        state := Warming;
      } else {
        Schedule(readinessGeneration);
      }
    }

    method Schedule(generation: nat)
      modifies this
      ensures Now() == ScheduleReady(old(Now()), generation, quietMs)
    {
      if state == Closed {
        return;
      }
      if readyTimer.Some? {
        timers := timers - {readyTimer.value};
      }
      if quietMs <= 0 {
        Finish(generation);
        return;
      }
      SetReadyTimer(generation);
    }

    method SetReadyTimer(generation: nat)
      modifies this
      ensures Now() == StartTimer(old(Now()), generation)
    {
      timers := timers[nextTimer := generation];
      readyTimer := Some(nextTimer);
      nextTimer := nextTimer + 1;
    }

    /** `finishWarmup` up to its first `await`. */
    method Finish(generation: nat)
      modifies this
      ensures Now() == FinishWarmup(old(Now()), generation)
    {
      if state == Closed || generation != readinessGeneration {
        return;
      }
      if hasClient && warmupTerm.Some? && warmupTerm.value != "" && warmupTerm.value !in symbolCache {
        probes := probes + multiset{Probe(generation, warmupTerm.value, false)};
        return;
      }
      if generation == readinessGeneration {
        BecomeReady();
      }
    }

    method BecomeReady()
      modifies this
      ensures Now() == MarkReady(old(Now()))
    {
      if state == Closed {
        return;
      }
      state := Ready;
      warmupTimer := false;
      if readyTimer.Some? {
        timers := timers - {readyTimer.value};
      }
      readyTimer := None;
    }

    method OnTimer(id: nat)
      requires id in timers
      modifies this
      ensures Now() == TimerFired(old(Now()), id)
    {
      var generation := timers[id];
      timers := timers - {id};
      Finish(generation);
    }

    /** `finishWarmup` after the symbols of `p` have arrived. */
    method OnSymbols(p: Probe, symbols: string, found: bool)
      requires p in probes && !p.forEvidence
      modifies this
      ensures Now() == SymbolsArrived(old(Now()), p, symbols, found)
    {
      hide MarkReady;
      probes := probes - multiset{p};
      if p.generation != readinessGeneration {
        return;
      }
      symbolCache := symbolCache[p.term := symbols];
      if found {
        probes := probes + multiset{p.(forEvidence := true)};
        return;
      }
      if p.generation == readinessGeneration {
        BecomeReady();
      }
    }

    /** `finishWarmup` after the evidence of `p` has arrived. */
    method OnEvidence(p: Probe, evidence: string)
      requires p in probes && p.forEvidence
      modifies this
      ensures Now() == EvidenceArrived(old(Now()), p, evidence)
    {
      hide MarkReady;
      probes := probes - multiset{p};
      if p.generation != readinessGeneration {
        return;
      }
      evidenceCache := evidenceCache[p.term := evidence];
      if p.generation == readinessGeneration {
        BecomeReady();
      }
    }

    /** `finishWarmup` when a request of `p` was rejected. */
    method OnProbeError(p: Probe)
      requires p in probes
      modifies this
      ensures Now() == ProbeFailed(old(Now()), p)
    {
      probes := probes - multiset{p};
      if state == Warming && p.generation == readinessGeneration {
        SetReadyTimer(p.generation);
      }
    }

    method GiveUp()
      modifies this
      ensures Now() == Fail(old(Now()))
    {
      if state == Closed {
        return;
      }
      state := Failed;
      warmupTimer := false;
    }

    method OnWarmupTimer()
      requires warmupTimer
      modifies this
      ensures Now() == WarmupTimedOut(old(Now()))
    {
      warmupTimer := false;
      if state == Warming {
        GiveUp();
      }
    }

    /** `close` up to its first `await`. */
    method BeginClose()
      modifies this
      ensures Now() == CloseBegun(old(Now()))
    {
      state := Closed;
      warmupTimer := false;
      if readyTimer.Some? {
        timers := timers - {readyTimer.value};
      }
      subscribed := false;
    }
  }

  // ---------------------------------------------------------------- invariants

  /** Some probe or live timer would finish this generation. */
  ghost predicate Pending(probes: multiset<Probe>, timers: map<nat, nat>, generation: nat) {
    || (exists p | p in probes :: p.generation == generation)
    || (exists id | id in timers :: timers[id] == generation)
  }

  /** No probe and no live timer is of a later generation. */
  ghost predicate NoneLater(probes: multiset<Probe>, timers: map<nat, nat>, generation: nat) {
    && (forall p | p in probes :: p.generation <= generation)
    && (forall id | id in timers :: timers[id] <= generation)
  }

  /** Probes and timers of the current generation owe to a "ready" that is still the latest notification, and so does a
      session that is ready. A closed session hears nothing. */
  ghost predicate Safe(s: Session) {
    && NoneLater(s.probes, s.timers, s.generation)
    && (Pending(s.probes, s.timers, s.generation) ==> s.latest == Some(SaysReady))
    && (s.mode == Ready ==> s.latest == Some(SaysReady))
    && (s.mode == Closed || s.mode == Cold ==> !s.subscribed)
    && (s.mode == Cold ==> s.latest == None)
  }

  /** A session that is still warming although the server's last word was "ready" has something under way. */
  ghost predicate NotForgotten(s: Session) {
    s.mode == Warming && s.latest == Some(SaysReady) ==> Pending(s.probes, s.timers, s.generation)
  }

  // what the elementary changes do to the probes and timers of a generation

  lemma FewerProbes(probes: multiset<Probe>, timers: map<nat, nat>, generation: nat, p: Probe)
    requires NoneLater(probes, timers, generation) && p in probes
    ensures NoneLater(probes - multiset{p}, timers, generation)
    ensures Pending(probes - multiset{p}, timers, generation) ==> Pending(probes, timers, generation)
    ensures p.generation != generation && Pending(probes, timers, generation) ==>
              Pending(probes - multiset{p}, timers, generation)
    ensures p.generation == generation ==> Pending(probes, timers, generation)
  {
    var less := probes - multiset{p};
    assert forall q | q in less :: q in probes;
    assert forall q | q in probes && q != p :: q in less;
  }

  lemma MoreProbes(probes: multiset<Probe>, timers: map<nat, nat>, generation: nat, p: Probe)
    requires NoneLater(probes, timers, generation) && p.generation == generation
    ensures NoneLater(probes + multiset{p}, timers, generation)
    ensures Pending(probes + multiset{p}, timers, generation)
  {
    assert p in probes + multiset{p};
    assert forall q | q in probes + multiset{p} :: q in probes || q == p;
  }

  lemma FewerTimers(probes: multiset<Probe>, timers: map<nat, nat>, generation: nat, id: nat)
    requires NoneLater(probes, timers, generation)
    ensures NoneLater(probes, timers - {id}, generation)
    ensures Pending(probes, timers - {id}, generation) ==> Pending(probes, timers, generation)
    ensures id in timers && timers[id] == generation ==> Pending(probes, timers, generation)
    ensures id in timers && timers[id] != generation && Pending(probes, timers, generation) ==>
              Pending(probes, timers - {id}, generation)
  {
    var less := timers - {id};
    assert forall j | j in less :: j in timers && less[j] == timers[j];
    assert forall j | j in timers && j != id :: j in less;
  }

  lemma MoreTimers(probes: multiset<Probe>, timers: map<nat, nat>, generation: nat, id: nat)
    requires NoneLater(probes, timers, generation)
    ensures NoneLater(probes, timers[id := generation], generation)
    ensures Pending(probes, timers[id := generation], generation)
  {
    assert id in timers[id := generation];
  }

  lemma NextGeneration(probes: multiset<Probe>, timers: map<nat, nat>, generation: nat)
    requires NoneLater(probes, timers, generation)
    ensures NoneLater(probes, timers, generation + 1) && !Pending(probes, timers, generation + 1)
  {
  }

  // the steps

  lemma ClearedIsSafe(s: Session)
    requires Safe(s)
    ensures Safe(Cleared(s)) && Safe(ClearReadyTimer(s))
  {
    hide Pending, NoneLater;
    if s.readyTimer.Some? {
      FewerTimers(s.probes, s.timers, s.generation, s.readyTimer.value);
    }
  }

  /** Finishing a generation settles the session or starts a probe; an older generation changes nothing. */
  lemma FinishIsSafe(s: Session, generation: nat)
    requires Safe(s) && (generation == s.generation ==> s.latest == Some(SaysReady))
    ensures Safe(FinishWarmup(s, generation))
    ensures generation == s.generation || NotForgotten(s) ==> NotForgotten(FinishWarmup(s, generation))
  {
    hide Pending, NoneLater, MarkReady;
    MarkReadyIsSafeIf(s);
    if s.term.Some? {
      MoreProbes(s.probes, s.timers, s.generation, Probe(s.generation, s.term.value, false));
    }
  }

  lemma MarkReadyIsSafeIf(s: Session)
    requires Safe(s)
    ensures s.latest == Some(SaysReady) ==> Safe(MarkReady(s)) && NotForgotten(MarkReady(s))
  {
  }

  lemma StartTimerIsSafe(s: Session)
    requires Safe(s) && s.latest == Some(SaysReady)
    ensures Safe(StartTimer(s, s.generation)) && NotForgotten(StartTimer(s, s.generation))
  {
    hide Pending, NoneLater;
    MoreTimers(s.probes, s.timers, s.generation, s.nextTimer);
  }

  lemma NotifiedIsSafe(s: Session, signal: Signal, quietMs: int)
    requires Safe(s) && NotForgotten(s)
    ensures Safe(Notified(s, signal, quietMs)) && NotForgotten(Notified(s, signal, quietMs))
  {
    hide Pending, NoneLater, FinishWarmup, StartTimer;
    if s.subscribed {
      if signal.SaysWarming? {
        ClearedIsSafe(s);
        NextGeneration(ClearReadyTimer(s).probes, ClearReadyTimer(s).timers, s.generation);
      } else {
        var t := s.(latest := Some(signal));
        ClearedIsSafe(t);
        FinishIsSafe(Cleared(t), s.generation);
        StartTimerIsSafe(Cleared(t));
      }
    }
  }

  lemma TimerFiredIsSafe(s: Session, id: nat)
    requires Safe(s) && NotForgotten(s)
    ensures Safe(TimerFired(s, id)) && NotForgotten(TimerFired(s, id))
  {
    hide Pending, NoneLater, FinishWarmup;
    if id in s.timers {
      FewerTimers(s.probes, s.timers, s.generation, id);
      FinishIsSafe(s.(timers := s.timers - {id}), s.timers[id]);
    }
  }

  lemma ProbeAnswerIsSafe(s: Session, p: Probe, answer: string, found: bool)
    requires Safe(s) && NotForgotten(s)
    ensures Safe(SymbolsArrived(s, p, answer, found)) && NotForgotten(SymbolsArrived(s, p, answer, found))
    ensures Safe(EvidenceArrived(s, p, answer)) && NotForgotten(EvidenceArrived(s, p, answer))
  {
    hide Pending, NoneLater, MarkReady;
    if p in s.probes {
      FewerProbes(s.probes, s.timers, s.generation, p);
      var t := s.(probes := s.probes - multiset{p});
      MarkReadyIsSafeIf(t.(symbols := t.symbols[p.term := answer]));
      MarkReadyIsSafeIf(t.(evidence := t.evidence[p.term := answer]));
      if p.generation == s.generation {
        MoreProbes(t.probes, t.timers, t.generation, p.(forEvidence := true));
      }
    }
  }

  lemma ProbeFailedIsSafe(s: Session, p: Probe)
    requires Safe(s) && NotForgotten(s)
    ensures Safe(ProbeFailed(s, p)) && NotForgotten(ProbeFailed(s, p))
  {
    hide Pending, NoneLater;
    if p in s.probes {
      FewerProbes(s.probes, s.timers, s.generation, p);
      var t := s.(probes := s.probes - multiset{p});
      MoreTimers(t.probes, t.timers, t.generation, t.nextTimer);
    }
  }

  lemma CloseIsSafe(s: Session)
    requires Safe(s)
    ensures Safe(CloseBegun(s)) && NotForgotten(CloseBegun(s))
  {
    hide Pending, NoneLater, Cleared;
    ClearedIsSafe(s);
  }

  lemma PrewarmIsSafe(s: Session, created: bool)
    requires Safe(s) && NotForgotten(s)
    ensures Safe(Prewarm(s, created)) && NotForgotten(Prewarm(s, created))
  {
    hide Pending, NoneLater;
  }

  lemma AskIsSafe(s: Session, quietMs: int, op: Op)
    requires Safe(s) && NotForgotten(s) && op.Ask?
    ensures Safe(Step(s, quietMs, op)) && NotForgotten(Step(s, quietMs, op))
  {
    hide Prewarm, Pending, NoneLater;
    PrewarmIsSafe(if s.term.None? && op.term != "" then s.(term := Some(op.term)) else s, op.created);
  }

  lemma StepIsSafe(s: Session, quietMs: int, op: Op)
    requires Safe(s) && NotForgotten(s)
    ensures Safe(Step(s, quietMs, op)) && NotForgotten(Step(s, quietMs, op))
  {
    hide Safe, NotForgotten, Prewarm, Fail, Notified, TimerFired, WarmupTimedOut, SymbolsArrived, EvidenceArrived,
      ProbeFailed, CloseBegun;
    match op {
      case Notify(signal) => NotifiedIsSafe(s, signal, quietMs);
      case Fire(id) => TimerFiredIsSafe(s, id);
      case Symbols(probe, symbols, found) => ProbeAnswerIsSafe(s, probe, symbols, found);
      case Evidence(probe, evidence) => ProbeAnswerIsSafe(s, probe, evidence, false);
      case ProbeError(probe) => ProbeFailedIsSafe(s, probe);
      case Close => CloseIsSafe(s);
      case Ask(term, created) => AskIsSafe(s, quietMs, op);
      case Start(created) => PrewarmIsSafe(s, created);
      case _ => QuietStepIsSafe(s, quietMs, op);
    }
  }

  lemma QuietStepIsSafe(s: Session, quietMs: int, op: Op)
    requires Safe(s) && NotForgotten(s)
    requires !op.Notify? && !op.Fire? && !op.Symbols? && !op.Evidence? && !op.ProbeError? && !op.Close?
    requires !op.Ask? && !op.Start?
    ensures Safe(Step(s, quietMs, op)) && NotForgotten(Step(s, quietMs, op))
  {
    hide Pending, NoneLater;
  }

  // ---------------------------------------------------------------- the main results

  lemma {:induction false} RunIsSafe(quietMs: int, ops: seq<Op>)
    ensures Safe(Run(NEW, quietMs, ops)) && NotForgotten(Run(NEW, quietMs, ops))
  {
    if ops != [] {
      hide Safe, NotForgotten, Step;
      RunIsSafe(quietMs, ops[..|ops| - 1]);
      StepIsSafe(Run(NEW, quietMs, ops[..|ops| - 1]), quietMs, ops[|ops| - 1]);
    }
  }

  /** Readiness is never stale: whatever probes and timers of earlier generations are still to come in, a session that is
      ready last heard "ready". */
  lemma ReadyIsNeverStale(quietMs: int, ops: seq<Op>)
    ensures Run(NEW, quietMs, ops).mode == Ready ==> Run(NEW, quietMs, ops).latest == Some(SaysReady)
  {
    RunIsSafe(quietMs, ops);
  }

  /** Nor is it lost: while a session is warming after the server's last word was "ready", a probe or a timer of the
      current generation is under way. */
  lemma ReadinessIsNotForgotten(quietMs: int, ops: seq<Op>)
    ensures var s := Run(NEW, quietMs, ops);
            s.mode == Warming && s.latest == Some(SaysReady) ==> Pending(s.probes, s.timers, s.generation)
  {
    RunIsSafe(quietMs, ops);
  }

  /** Closed is final. */
  lemma {:induction false} ClosedIsAbsorbing(quietMs: int, before: seq<Op>, after: seq<Op>)
    requires Run(NEW, quietMs, before).mode == Closed
    ensures Run(NEW, quietMs, before + after).mode == Closed
  {
    if after == [] {
      assert before + after == before;
    } else {
      var init := after[..|after| - 1];
      assert (before + after)[..|before + after| - 1] == before + init;
      ClosedIsAbsorbing(quietMs, before, init);
      RunIsSafe(quietMs, before + init);
      ClosedStep(Run(NEW, quietMs, before + init), quietMs, after[|after| - 1]);
    }
  }

  lemma ClosedStep(s: Session, quietMs: int, op: Op)
    requires s.mode == Closed && !s.subscribed
    ensures Step(s, quietMs, op).mode == Closed
  {
  }
}

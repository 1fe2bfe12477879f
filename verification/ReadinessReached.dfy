/** How a session moves between its modes, and that it does become ready once the server has said so and answers. */
module ReadinessReached {
  import opened Wrappers
  import opened Readiness

  /** Nothing is left to ask before a session is ready: there is no client, no term, or its symbols are known. */
  predicate WarmedUp(s: Session) {
    !s.hasClient || s.term == None || s.term == Some("") || s.term.value in s.symbols
  }

  /** The server's word, a timer or an answer that completes the current generation. */
  predicate Completes(s: Session, quietMs: int, op: Op) {
    match op
    case Notify(SaysReady) => s.subscribed && quietMs <= 0 && WarmedUp(s)
    case Fire(id) => id in s.timers && s.timers[id] == s.generation && WarmedUp(s)
    case Symbols(p, _, found) => p in s.probes && !p.forEvidence && p.generation == s.generation && !found
    case Evidence(p, _) => p in s.probes && p.forEvidence && p.generation == s.generation
    case _ => false
  }

  // what becomes of each field, whatever the step

  /** Every way from one mode to another. */
  function ModeAfter(s: Session, quietMs: int, op: Op): Mode {
    if op.Close? then Closed
    else if op == Notify(SaysWarming) && s.subscribed then Warming
    else if s.mode == Closed then Closed
    else if (op.Ask? || op.Start?) && s.mode == Cold then Warming
    else if op.StartFailed? || (op.WarmupTimeout? && s.warmupTimer && s.mode == Warming) then Failed
    else if Completes(s, quietMs, op) then Ready
    else s.mode
  }

  /** The server's "warming" alone begins another generation. */
  function GenerationAfter(s: Session, op: Op): nat {
    if op == Notify(SaysWarming) && s.subscribed then s.generation + 1 else s.generation
  }

  function SubscribedAfter(s: Session, op: Op): bool {
    if (op.Ask? || op.Start?) && s.mode == Cold then op.created else s.subscribed && !op.Close?
  }

  function ClientAfter(s: Session, op: Op): bool {
    if (op.Ask? || op.Start?) && s.mode == Cold then op.created else s.hasClient && !(op.ClientClosed? && s.mode == Closed)
  }

  /** The first term asked for is the one to warm up with. */
  function TermAfter(s: Session, op: Op): Option<string> {
    if op.Ask? && s.term == None && op.term != "" then Some(op.term) else s.term
  }

  /** Readiness and closing clear the timer that is named, and a word of the server does. */
  predicate Clears(s: Session, quietMs: int, op: Op) {
    || op.Close? || (s.mode != Closed && Completes(s, quietMs, op))
    || (op.Notify? && s.subscribed && (s.mode != Closed || op.signal.SaysWarming?))
  }

  /** A quiet period and a failed request start a timer for the current generation. */
  predicate Starts(s: Session, quietMs: int, op: Op) {
    || (op == Notify(SaysReady) && s.subscribed && s.mode != Closed && quietMs > 0)
    || (op.ProbeError? && op.probe in s.probes && s.mode == Warming && op.probe.generation == s.generation)
  }

  /** A timer fires once. */
  function TimersAfter(s: Session, quietMs: int, op: Op): map<nat, nat> {
    var unfired := if op.Fire? then s.timers - {op.id} else s.timers;
    var kept := if Clears(s, quietMs, op) && s.readyTimer.Some? then unfired - {s.readyTimer.value} else unfired;
    if Starts(s, quietMs, op) then kept[s.nextTimer := s.generation] else kept
  }

  function ReadyTimerAfter(s: Session, quietMs: int, op: Op): Option<nat> {
    if Starts(s, quietMs, op) then Some(s.nextTimer)
    else if (op == Notify(SaysWarming) && s.subscribed) || (s.mode != Closed && Completes(s, quietMs, op)) then None
    else s.readyTimer
  }

  /** The limit on the warm-up runs from the handshake to readiness, failure or closing. */
  function WarmupTimerAfter(s: Session, quietMs: int, op: Op): bool {
    op.Started? || (s.warmupTimer && !op.Close? && !op.WarmupTimeout?
                    && (s.mode == Closed || !(op.StartFailed? || Completes(s, quietMs, op))))
  }

  /** The current generation is complete but for a term whose symbols are not known. */
  predicate Asks(s: Session, quietMs: int, op: Op) {
    && s.mode != Closed && !WarmedUp(s)
    && match op
       case Notify(SaysReady) => s.subscribed && quietMs <= 0
       case Fire(id) => id in s.timers && s.timers[id] == s.generation
       case _ => false
  }

  /** A request is answered once; one for symbols is followed by one for evidence. */
  function ProbesAfter(s: Session, quietMs: int, op: Op): multiset<Probe> {
    if Asks(s, quietMs, op) then s.probes + multiset{Probe(s.generation, s.term.value, false)}
    else match op
      case Symbols(p, _, found) =>
        if p !in s.probes || p.forEvidence then s.probes
        else if found && p.generation == s.generation then s.probes - multiset{p} + multiset{Probe(p.generation, p.term, true)}
        else s.probes - multiset{p}
      case Evidence(p, _) => if p in s.probes && p.forEvidence then s.probes - multiset{p} else s.probes
      case ProbeError(p) => if p in s.probes then s.probes - multiset{p} else s.probes
      case _ => s.probes
  }

  /** The caches take the answers of the current generation, and changed files empty them. */
  function SymbolsAfter(s: Session, op: Op): map<string, string> {
    match op
    case Symbols(p, symbols, _) =>
      if p in s.probes && !p.forEvidence && p.generation == s.generation then s.symbols[p.term := symbols] else s.symbols
    case QueryStores(key, value) => s.symbols[key := value]
    case FilesChanged => if s.hasClient then map[] else s.symbols
    case _ => s.symbols
  }

  function EvidenceAfter(s: Session, op: Op): map<string, string> {
    match op
    case Evidence(p, evidence) =>
      if p in s.probes && p.forEvidence && p.generation == s.generation then s.evidence[p.term := evidence] else s.evidence
    case FilesChanged => if s.hasClient then map[] else s.evidence
    case _ => s.evidence
  }

  function After(s: Session, quietMs: int, op: Op): Session {
    Session(ModeAfter(s, quietMs, op), GenerationAfter(s, op), SubscribedAfter(s, op), ClientAfter(s, op), TermAfter(s, op),
            TimersAfter(s, quietMs, op), ReadyTimerAfter(s, quietMs, op),
            if Starts(s, quietMs, op) then s.nextTimer + 1 else s.nextTimer,
            WarmupTimerAfter(s, quietMs, op), ProbesAfter(s, quietMs, op), SymbolsAfter(s, op), EvidenceAfter(s, op),
            if op.Notify? && s.subscribed then Some(op.signal) else s.latest)
  }

  function Named(s: Session): map<nat, nat> {
    if s.readyTimer.Some? then s.timers - {s.readyTimer.value} else s.timers
  }

  lemma FinishIsExplained(s: Session, generation: nat)
    ensures FinishWarmup(s, generation) ==
            if s.mode == Closed || generation != s.generation then s
            else if WarmedUp(s) then s.(mode := Ready, warmupTimer := false, timers := Named(s), readyTimer := None)
            else s.(probes := s.probes + multiset{Probe(generation, s.term.value, false)})
  {
  }

  lemma ReadyMeans(s: Session)
    ensures MarkReady(s) ==
            if s.mode == Closed then s
            else s.(mode := Ready, warmupTimer := false, timers := Named(s), readyTimer := None)
  {
  }

  lemma WarmingIsExplained(s: Session, quietMs: int)
    ensures Step(s, quietMs, Notify(SaysWarming)) == After(s, quietMs, Notify(SaysWarming))
  {
    hide FinishWarmup, ScheduleReady;
  }

  lemma QuietPeriodIsExplained(s: Session, quietMs: int)
    requires s.subscribed && s.mode != Closed && quietMs > 0
    ensures Step(s, quietMs, Notify(SaysReady)) == After(s, quietMs, Notify(SaysReady))
  {
    hide FinishWarmup, WarmedUp;
  }

  lemma ReadyIsExplained(s: Session, quietMs: int)
    requires !(s.subscribed && s.mode != Closed && quietMs > 0)
    ensures Step(s, quietMs, Notify(SaysReady)) == After(s, quietMs, Notify(SaysReady))
  {
    FinishIsExplained(Cleared(s.(latest := Some(SaysReady))), s.generation);
    hide FinishWarmup, StartTimer;
  }

  lemma FireIsExplained(s: Session, quietMs: int, id: nat)
    ensures Step(s, quietMs, Fire(id)) == After(s, quietMs, Fire(id))
  {
    if id in s.timers {
      FinishIsExplained(s.(timers := s.timers - {id}), s.timers[id]);
    } else {
      assert s.timers - {id} == s.timers;
    }
    hide FinishWarmup, WarmedUp;
  }

  lemma AnswersOnly(s: Session, quietMs: int, op: Op)
    requires op.Symbols? || op.Evidence? || op.ProbeError?
    ensures Starts(s, quietMs, op) ==> op.ProbeError?
    ensures !Asks(s, quietMs, op)
    ensures Clears(s, quietMs, op) == (s.mode != Closed && Completes(s, quietMs, op))
    ensures TermAfter(s, op) == s.term && SubscribedAfter(s, op) == s.subscribed && ClientAfter(s, op) == s.hasClient
    ensures GenerationAfter(s, op) == s.generation
  {
  }

  lemma SymbolsLead(s: Session, quietMs: int, p: Probe, symbols: string, found: bool)
    ensures var less := s.probes - multiset{p};
            Step(s, quietMs, Symbols(p, symbols, found)) ==
            if p !in s.probes || p.forEvidence then s
            else if p.generation != s.generation then s.(probes := less)
            else
              var u := s.(probes := less, symbols := s.symbols[p.term := symbols]);
              if found then u.(probes := less + multiset{Probe(p.generation, p.term, true)})
              else if s.mode == Closed then u
              else u.(mode := Ready, warmupTimer := false, timers := Named(s), readyTimer := None)
  {
    ReadyMeans(s.(probes := s.probes - multiset{p}, symbols := s.symbols[p.term := symbols]));
    hide MarkReady;
  }

  lemma EvidenceLeads(s: Session, quietMs: int, p: Probe, evidence: string)
    ensures var less := s.probes - multiset{p};
            Step(s, quietMs, Evidence(p, evidence)) ==
            if p !in s.probes || !p.forEvidence then s
            else if p.generation != s.generation then s.(probes := less)
            else
              var u := s.(probes := less, evidence := s.evidence[p.term := evidence]);
              if s.mode == Closed then u
              else u.(mode := Ready, warmupTimer := false, timers := Named(s), readyTimer := None)
  {
    ReadyMeans(s.(probes := s.probes - multiset{p}, evidence := s.evidence[p.term := evidence]));
    hide MarkReady;
  }

  lemma SymbolsAreExplained(s: Session, quietMs: int, p: Probe, symbols: string, found: bool)
    ensures Step(s, quietMs, Symbols(p, symbols, found)) == After(s, quietMs, Symbols(p, symbols, found))
  {
    var op := Symbols(p, symbols, found);
    SymbolsLead(s, quietMs, p, symbols, found);
    AnswersOnly(s, quietMs, op);
    hide Step, WarmedUp, Starts, Asks, Clears, TermAfter, SubscribedAfter, ClientAfter, GenerationAfter;
  }

  lemma EvidenceIsExplained(s: Session, quietMs: int, p: Probe, evidence: string)
    ensures Step(s, quietMs, Evidence(p, evidence)) == After(s, quietMs, Evidence(p, evidence))
  {
    var op := Evidence(p, evidence);
    EvidenceLeads(s, quietMs, p, evidence);
    AnswersOnly(s, quietMs, op);
    hide Step, WarmedUp, Starts, Asks, Clears, TermAfter, SubscribedAfter, ClientAfter, GenerationAfter;
  }

  lemma ProbeErrorIsExplained(s: Session, quietMs: int, p: Probe)
    ensures Step(s, quietMs, ProbeError(p)) == After(s, quietMs, ProbeError(p))
  {
    AnswersOnly(s, quietMs, ProbeError(p));
    hide WarmedUp, Asks, Clears, TermAfter, SubscribedAfter, ClientAfter, GenerationAfter;
  }

  lemma AskIsExplained(s: Session, quietMs: int, op: Op)
    requires op.Ask? || op.Start?
    ensures Step(s, quietMs, op) == After(s, quietMs, op)
  {
  }

  lemma QuietStepIsExplained(s: Session, quietMs: int, op: Op)
    requires op.Started? || op.StartFailed? || op.WarmupTimeout? || op.FilesChanged? || op.QueryStores? || op.Close? || op.ClientClosed?
    ensures Step(s, quietMs, op) == After(s, quietMs, op)
  {
  }

  /** The steps of the session, told field by field. */
  lemma StepsAreExact(s: Session, quietMs: int, op: Op)
    ensures Step(s, quietMs, op) == After(s, quietMs, op)
  {
    hide Step, After;
    match op {
      case Notify(signal) =>
        if signal == SaysWarming {
          WarmingIsExplained(s, quietMs);
        } else if s.subscribed && s.mode != Closed && quietMs > 0 {
          QuietPeriodIsExplained(s, quietMs);
        } else {
          ReadyIsExplained(s, quietMs);
        }
      case Fire(id) => FireIsExplained(s, quietMs, id);
      case Symbols(p, symbols, found) => SymbolsAreExplained(s, quietMs, p, symbols, found);
      case Evidence(p, evidence) => EvidenceIsExplained(s, quietMs, p, evidence);
      case ProbeError(p) => ProbeErrorIsExplained(s, quietMs, p);
      case Ask(_, _) => AskIsExplained(s, quietMs, op);
      case Start(_) => AskIsExplained(s, quietMs, op);
      case _ => QuietStepIsExplained(s, quietMs, op);
    }
  }

  // ---------------------------------------------------------------- readiness comes

  /** Nothing but time passing and requests being answered. */
  predicate OnlyAnswers(ops: seq<Op>) {
    forall op | op in ops :: op.Fire? || op.Symbols? || op.Evidence?
  }

  lemma {:induction false} RunOn(quietMs: int, s: Session, ops: seq<Op>, more: seq<Op>)
    ensures Run(s, quietMs, ops + more) == Run(Run(s, quietMs, ops), quietMs, more)
    decreases |more|
  {
    if more == [] {
      assert ops + more == ops;
    } else {
      var init := more[..|more| - 1];
      assert (ops + more)[..|ops + more| - 1] == ops + init;
      RunOn(quietMs, s, ops, init);
    }
  }

  lemma OneStep(quietMs: int, s: Session, op: Op)
    ensures Run(s, quietMs, [op]) == After(s, quietMs, op)
  {
    hide Step, After;
    assert [op][..0] == [];
    assert Run(s, quietMs, [op][..0]) == s;
    StepsAreExact(s, quietMs, op);
  }

  lemma SymbolsThenEvidence(s: Session, quietMs: int, p: Probe, symbols: string, evidence: string)
    requires p in s.probes && p.generation == s.generation && s.mode != Closed && !p.forEvidence
    ensures var t := After(s, quietMs, Symbols(p, symbols, true));
            After(t, quietMs, Evidence(Probe(p.generation, p.term, true), evidence)).mode == Ready
  {
    var t := After(s, quietMs, Symbols(p, symbols, true));
    assert t.mode == s.mode && t.generation == s.generation && Probe(p.generation, p.term, true) in t.probes;
  }

  /** A request of the current generation that is answered leads to readiness at once, or through the evidence. */
  lemma AnsweredProbe(s: Session, quietMs: int, p: Probe, symbols: string, evidence: string, found: bool) returns (ops: seq<Op>)
    requires p in s.probes && p.generation == s.generation && s.mode != Closed
    ensures OnlyAnswers(ops) && |ops| <= 2 && Run(s, quietMs, ops).mode == Ready
  {
    hide Run, Step;
    if p.forEvidence || !found {
      var op := if p.forEvidence then Evidence(p, evidence) else Symbols(p, symbols, false);
      ops := [op];
      OneStep(quietMs, s, op);
    } else {
      var first, last := Symbols(p, symbols, true), Evidence(Probe(p.generation, p.term, true), evidence);
      ops := [first, last];
      var t := After(s, quietMs, first);
      SymbolsThenEvidence(s, quietMs, p, symbols, evidence);
      hide After;
      OneStep(quietMs, s, first);
      OneStep(quietMs, t, last);
      RunOn(quietMs, s, [first], [last]);
      assert [first] + [last] == ops;
    }
  }

  /** Whatever has happened before, a session that is warming after the server's last word was "ready" becomes ready by
      waiting and by answers alone, in three steps at most, and whatever the answers are. */
  lemma ReadinessIsReached(quietMs: int, ops: seq<Op>, symbols: string, evidence: string, found: bool) returns (more: seq<Op>)
    requires Run(NEW, quietMs, ops).mode == Warming && Run(NEW, quietMs, ops).latest == Some(SaysReady)
    ensures OnlyAnswers(more) && |more| <= 3 && Run(NEW, quietMs, ops + more).mode == Ready
  {
    hide Run, Step;
    ReadinessIsNotForgotten(quietMs, ops);
    var s := Run(NEW, quietMs, ops);
    if p :| p in s.probes && p.generation == s.generation {
      more := AnsweredProbe(s, quietMs, p, symbols, evidence, found);
    } else {
      var id :| id in s.timers && s.timers[id] == s.generation;
      more := FiredTimer(s, quietMs, id, symbols, evidence, found);
    }
    RunOn(quietMs, NEW, ops, more);
  }

  /** A timer of the current generation that fires leads to readiness, or to a request that does. */
  lemma FiredTimer(s: Session, quietMs: int, id: nat, symbols: string, evidence: string, found: bool) returns (ops: seq<Op>)
    requires id in s.timers && s.timers[id] == s.generation && s.mode != Closed
    ensures OnlyAnswers(ops) && |ops| <= 3 && Run(s, quietMs, ops).mode == Ready
  {
    hide Run, Step;
    OneStep(quietMs, s, Fire(id));
    if WarmedUp(s) {
      ops := [Fire(id)];
    } else {
      var t := After(s, quietMs, Fire(id));
      var p := Probe(s.generation, s.term.value, false);
      assert t.mode == s.mode && t.generation == s.generation && p in t.probes;
      var rest := AnsweredProbe(t, quietMs, p, symbols, evidence, found);
      ops := [Fire(id)] + rest;
      RunOn(quietMs, s, [Fire(id)], rest);
    }
  }
}

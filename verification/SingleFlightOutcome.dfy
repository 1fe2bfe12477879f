/** What the callers of a session get: the outcome of the creation they wait for, and a session when it succeeds. */
module SingleFlightOutcome {
  import opened Wrappers
  import opened SingleFlight

  // ---------------------------------------------------------------- what has happened to a creation

  /** At step `i` of the run this happened. */
  ghost predicate Happened(normalize: string -> string, ops: seq<Op>, i: nat, op: Op)
    requires i < |ops|
  {
    ops[i] == op && Enabled(Run(normalize, EMPTY, ops[..i]), op)
  }

  ghost predicate EverHappened(normalize: string -> string, ops: seq<Op>, op: Op) {
    exists i | 0 <= i < |ops| :: Happened(normalize, ops, i, op)
  }

  /** The session of the creation was started. */
  ghost predicate Succeeded(normalize: string -> string, ops: seq<Op>, c: nat) {
    EverHappened(normalize, ops, StartOk(c))
  }

  ghost predicate Failed(normalize: string -> string, ops: seq<Op>, c: nat) {
    EverHappened(normalize, ops, ReconcileFailed(c)) || EverHappened(normalize, ops, StartFailed(c))
  }

  lemma EverHappenedOneMore(normalize: string -> string, ops: seq<Op>, last: Op, op: Op)
    ensures EverHappened(normalize, ops + [last], op) <==>
            EverHappened(normalize, ops, op) || (last == op && Enabled(Run(normalize, EMPTY, ops), op))
  {
    hide Run, Enabled;
    var all := ops + [last];
    assert all[..|ops|] == ops && all[|ops|] == last;
    assert forall i | 0 <= i < |ops| :: all[..i] == ops[..i] && all[i] == ops[i];
    forall i | 0 <= i < |ops| ensures Happened(normalize, all, i, op) <==> Happened(normalize, ops, i, op) {
    }
    if last == op && Enabled(Run(normalize, EMPTY, ops), op) {
      assert Happened(normalize, all, |ops|, op);
    }
  }

  predicate HasFailed(phase: Phase) {
    phase == Rejected || phase == Cleaned(None)
  }

  lemma RunOneMore(normalize: string -> string, ops: seq<Op>, op: Op)
    ensures var m := Run(normalize, EMPTY, ops);
            Run(normalize, EMPTY, ops + [op]) == if Enabled(m, op) then Step(normalize, m, op) else m
  {
    assert (ops + [op])[..|ops|] == ops;
  }

  /** What one step does to the outcome of a creation. */
  lemma StepSettles(normalize: string -> string, m: Manager, op: Op, c: nat)
    requires Enabled(m, op) && c < |Step(normalize, m, op).creations|
    ensures var t := Step(normalize, m, op);
            && |m.creations| <= |t.creations|
            && (ResultOf(t.creations[c].phase).Some? <==> op == StartOk(c) || (c < |m.creations| && ResultOf(m.creations[c].phase).Some?))
            && (HasFailed(t.creations[c].phase) <==>
                  op == ReconcileFailed(c) || op == StartFailed(c) || (c < |m.creations| && HasFailed(m.creations[c].phase)))
  {
  }

  /** A creation has a session exactly when its start succeeded, and is without one exactly when something failed. */
  lemma {:induction false} OutcomesAreExact(normalize: string -> string, ops: seq<Op>, c: nat)
    ensures var m := Run(normalize, EMPTY, ops);
            && (c < |m.creations| ==>
                  && (ResultOf(m.creations[c].phase).Some? <==> Succeeded(normalize, ops, c))
                  && (HasFailed(m.creations[c].phase) <==> Failed(normalize, ops, c)))
            && (c >= |m.creations| ==> !Succeeded(normalize, ops, c) && !Failed(normalize, ops, c))
  {
    if ops != [] {
      var init, op := ops[..|ops| - 1], ops[|ops| - 1];
      var before := Run(normalize, EMPTY, init);
      OutcomesAreExact(normalize, init, c);
      assert init + [op] == ops;
      EverHappenedOneMore(normalize, init, op, StartOk(c));
      EverHappenedOneMore(normalize, init, op, ReconcileFailed(c));
      EverHappenedOneMore(normalize, init, op, StartFailed(c));
      RunOneMore(normalize, init, op);
      hide Run, EverHappened, HasFailed, ResultOf;
      if Enabled(before, op) && c < |Step(normalize, before, op).creations| {
        StepSettles(normalize, before, op, c);
      }
      hide Step;
    }
  }

  /** A call that waited returns the session of its root when the creation it waited for succeeded, and throws when that
      failed; there is no third way. */
  lemma CallersGetTheOutcome(normalize: string -> string, ops: seq<Op>, k: nat)
    requires Enabled(Run(normalize, EMPTY, ops), Resume(k))
    ensures var m := Run(normalize, EMPTY, ops);
            var root, c := m.callers[k].root, m.callers[k].place.creation;
            var place := Step(normalize, m, Resume(k)).callers[k].place;
            if Succeeded(normalize, ops, c)
            then root in m.sessions && (root, m.sessions[root]) in m.started && place == Returned(m.sessions[root])
            else Failed(normalize, ops, c) && place == Threw
  {
    hide Run, Succeeded, Failed;
    var m := Run(normalize, EMPTY, ops);
    RunKeepsInv(normalize, ops);
    OutcomesAreExact(normalize, ops, m.callers[k].place.creation);
  }

  // ---------------------------------------------------------------- a call that meets no failure

  /** A session on file is returned at once, and nothing is created. */
  lemma SessionsAreReused(normalize: string -> string, m: Manager, k: nat)
    requires Enabled(m, Ready(k)) && m.callers[k].root in m.sessions
    ensures var t := Step(normalize, m, Ready(k));
            t.callers[k].place == Returned(m.sessions[m.callers[k].root]) && t.creations == m.creations && t.pending == m.pending
  {
  }

  /** What is left to do for a creation when nothing fails. */
  function Rest(c: nat, phase: Phase): seq<Op> {
    match phase
    case Reconciling => [Reconciled(c), StartOk(c), Cleanup(c)]
    case Starting(_) => [StartOk(c), Cleanup(c)]
    case Resolved(_) => [Cleanup(c)]
    case Rejected => [Cleanup(c)]
    case Cleaned(_) => []
  }

  function IdOf(phase: Phase, next: nat): Option<nat> {
    match phase
    case Reconciling => Some(next)
    case Starting(id) => Some(id)
    case Resolved(id) => Some(id)
    case Rejected => None
    case Cleaned(result) => result
  }

  lemma {:induction false} RunOn(normalize: string -> string, m: Manager, ops: seq<Op>, more: seq<Op>)
    ensures Run(normalize, m, ops + more) == Run(normalize, Run(normalize, m, ops), more)
    decreases |more|
  {
    if more == [] {
      assert ops + more == ops;
    } else {
      assert (ops + more)[..|ops + more| - 1] == ops + more[..|more| - 1];
      RunOn(normalize, m, ops, more[..|more| - 1]);
    }
  }

  lemma FirstStep(normalize: string -> string, m: Manager, op: Op, rest: seq<Op>)
    requires Enabled(m, op)
    ensures Run(normalize, m, [op] + rest) == Run(normalize, Step(normalize, m, op), rest)
  {
    hide Step, Enabled;
    assert [op][..0] == [];
    assert Run(normalize, m, [op][..0]) == m;
    RunOn(normalize, m, [op], rest);
  }

  lemma RestGoesOn(normalize: string -> string, m: Manager, c: nat)
    requires c < |m.creations| && !m.creations[c].phase.Cleaned?
    ensures var rest := Rest(c, m.creations[c].phase);
            && rest != [] && Enabled(m, rest[0])
            && var t := Step(normalize, m, rest[0]);
               && t.callers == m.callers && c < |t.creations| && Rest(c, t.creations[c].phase) == rest[1..]
               && IdOf(t.creations[c].phase, t.nextId) == IdOf(m.creations[c].phase, m.nextId)
  {
  }

  /** From wherever a creation stands, the rest of it and the resumption of a call that waits for it settle the call. */
  lemma {:induction false} WaitingEnds(normalize: string -> string, m: Manager, k: nat)
    requires k < |m.callers| && m.callers[k].place.Awaiting? && m.callers[k].place.creation < |m.creations|
    ensures var c := m.callers[k].place.creation;
            var phase := m.creations[c].phase;
            var id := IdOf(phase, m.nextId);
            var t := Run(normalize, m, Rest(c, phase) + [Resume(k)]);
            |t.callers| == |m.callers| && t.callers[k].root == m.callers[k].root
            && t.callers[k].place == if id.Some? then Returned(id.value) else Threw
    decreases |Rest(m.callers[k].place.creation, m.creations[m.callers[k].place.creation].phase)|
  {
    var c := m.callers[k].place.creation;
    var phase := m.creations[c].phase;
    var rest := Rest(c, phase);
    if rest == [] {
      FirstStep(normalize, m, Resume(k), []);
      assert [Resume(k)] + [] == rest + [Resume(k)];
      assert Run(normalize, Step(normalize, m, Resume(k)), []) == Step(normalize, m, Resume(k));
    } else {
      hide Run;
      RestGoesOn(normalize, m, c);
      var t := Step(normalize, m, rest[0]);
      hide Step, Rest, IdOf, Enabled;
      WaitingEnds(normalize, t, k);
      FirstStep(normalize, m, rest[0], rest[1..] + [Resume(k)]);
      assert [rest[0]] + (rest[1..] + [Resume(k)]) == rest + [Resume(k)];
    }
  }

  lemma PlacedCallEnds(normalize: string -> string, m: Manager, k: nat) returns (tail: seq<Op>)
    requires k < |m.callers| && (m.callers[k].place.Returned? || m.callers[k].place.Awaiting?)
    requires m.callers[k].place.Awaiting? ==>
               m.callers[k].place.creation < |m.creations| && !HasFailed(m.creations[m.callers[k].place.creation].phase)
    ensures |tail| <= 4 && forall op | op in tail :: !op.NotReady? && !op.ReconcileFailed? && !op.StartFailed?
    ensures var t := Run(normalize, m, tail);
            k < |t.callers| && t.callers[k].root == m.callers[k].root && t.callers[k].place.Returned?
  {
    if m.callers[k].place.Awaiting? {
      var c := m.callers[k].place.creation;
      tail := Rest(c, m.creations[c].phase) + [Resume(k)];
      hide Run;
      WaitingEnds(normalize, m, k);
    } else {
      tail := [];
    }
  }

  /** Whatever has happened before, a new call that meets no failure returns a session of its normalised root. */
  lemma CallsSucceed(normalize: string -> string, ops: seq<Op>, root: string) returns (more: seq<Op>)
    requires var m := Run(normalize, EMPTY, ops);
             forall c | 0 <= c < |m.creations| && m.creations[c].root == normalize(root) :: m.creations[c].phase != Rejected
    ensures more != [] && more[0] == Call(root) && |more| <= 6
    ensures forall op | op in more :: !op.NotReady? && !op.ReconcileFailed? && !op.StartFailed?
    ensures var m, t := Run(normalize, EMPTY, ops), Run(normalize, EMPTY, ops + more);
            var k := |m.callers|;
            k < |t.callers| && t.callers[k].place.Returned? && (normalize(root), t.callers[k].place.id) in t.started
  {
    hide Run;
    var m := Run(normalize, EMPTY, ops);
    var k := |m.callers|;
    RunKeepsInv(normalize, ops);
    var called := Step(normalize, m, Call(root));
    var placed := Step(normalize, called, Ready(k));
    assert placed.callers[k].root == normalize(root);
    assert placed.callers[k].place.Awaiting? ==>
        placed.callers[k].place.creation < |placed.creations| && !HasFailed(placed.creations[placed.callers[k].place.creation].phase);
    hide Inv, Step;
    var tail := PlacedCallEnds(normalize, placed, k);
    more := [Call(root), Ready(k)] + tail;
    FirstStep(normalize, m, Call(root), [Ready(k)] + tail);
    FirstStep(normalize, called, Ready(k), tail);
    assert more == [Call(root)] + ([Ready(k)] + tail);
    RunOn(normalize, EMPTY, ops, more);
    SessionsAreSingleFlight(normalize, ops + more);
  }

  // ---------------------------------------------------------------- ids are fresh

  function IdInUse(phase: Phase): Option<nat> {
    match phase
    case Starting(id) => Some(id)
    case _ => ResultOf(phase)
  }

  /** No two creations have one id, and none has the next one. */
  ghost predicate IdsAreApart(m: Manager) {
    && (forall c | 0 <= c < |m.creations| && IdInUse(m.creations[c].phase).Some? :: IdInUse(m.creations[c].phase).value < m.nextId)
    && (forall c, d | 0 <= c < d < |m.creations| && IdInUse(m.creations[c].phase).Some? ::
          IdInUse(m.creations[d].phase) != IdInUse(m.creations[c].phase))
  }

  lemma StepKeepsIdsApart(normalize: string -> string, m: Manager, op: Op)
    requires IdsAreApart(m) && Enabled(m, op)
    ensures IdsAreApart(Step(normalize, m, op))
  {
    match op {
      case Reconciled(c) => NewIdIsApart(m, c);
      case _ => OthersKeepIds(normalize, m, op);
    }
  }

  lemma OthersKeepIds(normalize: string -> string, m: Manager, op: Op)
    requires IdsAreApart(m) && Enabled(m, op) && !op.Reconciled?
    ensures IdsAreApart(Step(normalize, m, op))
  {
    hide IdsAreApart;
    OthersTakeNoId(normalize, m, op);
    hide Step, OldIdStays, IdInUse;
    OldIdsStayApart(m, Step(normalize, m, op));
  }

  lemma OthersTakeNoId(normalize: string -> string, m: Manager, op: Op)
    requires Enabled(m, op) && !op.Reconciled?
    ensures var t := Step(normalize, m, op);
            && t.nextId == m.nextId && |m.creations| <= |t.creations|
            && (forall c | 0 <= c < |m.creations| :: OldIdStays(m, t, c))
            && (forall c | |m.creations| <= c < |t.creations| :: IdInUse(t.creations[c].phase) == None)
  {
  }

  lemma OldIdsStayApart(m: Manager, t: Manager)
    requires IdsAreApart(m) && t.nextId == m.nextId && |m.creations| <= |t.creations|
    requires forall c | 0 <= c < |m.creations| :: OldIdStays(m, t, c)
    requires forall c | |m.creations| <= c < |t.creations| :: IdInUse(t.creations[c].phase) == None
    ensures IdsAreApart(t)
  {
    forall c | 0 <= c < |t.creations| && IdInUse(t.creations[c].phase).Some?
      ensures c < |m.creations| && IdInUse(m.creations[c].phase) == IdInUse(t.creations[c].phase)
    {
      assert c < |m.creations| ==> OldIdStays(m, t, c);
    }
  }

  predicate OldIdStays(m: Manager, t: Manager, c: nat)
    requires c < |m.creations|
  {
    c < |t.creations| && (IdInUse(t.creations[c].phase) == None || IdInUse(t.creations[c].phase) == IdInUse(m.creations[c].phase))
  }

  lemma NewIdIsApart(m: Manager, c: nat)
    requires IdsAreApart(m) && c < |m.creations|
    ensures IdsAreApart(GotId(m, c))
  {
  }

  /** The requests to start go out under different ids, in every run. */
  lemma {:induction false} IdsStayApart(normalize: string -> string, ops: seq<Op>)
    ensures IdsAreApart(Run(normalize, EMPTY, ops))
  {
    if ops != [] {
      IdsStayApart(normalize, ops[..|ops| - 1]);
      var before := Run(normalize, EMPTY, ops[..|ops| - 1]);
      hide IdsAreApart, Step, Enabled;
      if Enabled(before, ops[|ops| - 1]) {
        StepKeepsIdsApart(normalize, before, ops[|ops| - 1]);
      }
    }
  }
}

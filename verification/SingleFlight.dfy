/** Creating at most one memory session per workspace root, whatever the interleaving of the callers. */
module SingleFlight {
  import opened Wrappers

  /** Where the creation of a session stands; `Cleaned` once it has left the table of pending ones. */
  datatype Phase = Reconciling | Starting(id: nat) | Resolved(id: nat) | Rejected | Cleaned(result: Option<nat>)

  datatype Creation = Creation(root: string, phase: Phase)

  /** Where a call of `ensureSession` stands. */
  datatype Place = Checking | Awaiting(creation: nat) | Returned(id: nat) | Threw

  datatype Caller = Caller(root: string, place: Place)

  /** `started` is the history of successful `startSession` requests. */
  datatype Manager = Manager(sessions: map<string, nat>, pending: map<string, nat>, creations: seq<Creation>,
                             callers: seq<Caller>, nextId: nat, started: seq<(string, nat)>)

  const EMPTY := Manager(map[], map[], [], [], 0, [])

  // ---------------------------------------------------------------- the steps between two awaits

  function Called(m: Manager, root: string): Manager {
    m.(callers := m.callers + [Caller(root, Checking)])
  }

  function Placed(m: Manager, k: nat, place: Place): Manager
    requires k < |m.callers|
  {
    m.(callers := m.callers[k := m.callers[k].(place := place)])
  }

  function InPhase(m: Manager, c: nat, phase: Phase): Manager
    requires c < |m.creations|
  {
    m.(creations := m.creations[c := m.creations[c].(phase := phase)])
  }

  /** The memory service is ready: take the session, join the creation under way, or begin one. */
  function LookedUp(m: Manager, k: nat): Manager
    requires k < |m.callers|
  {
    var root := m.callers[k].root;
    if root in m.sessions then Placed(m, k, Returned(m.sessions[root]))
    else if root in m.pending then Placed(m, k, Awaiting(m.pending[root]))
    else
      var c := |m.creations|;
      Placed(m.(creations := m.creations + [Creation(root, Reconciling)], pending := m.pending[root := c]), k, Awaiting(c))
  }

  function GotId(m: Manager, c: nat): Manager
    requires c < |m.creations|
  {
    InPhase(m, c, Starting(m.nextId)).(nextId := m.nextId + 1)
  }

  function Started(m: Manager, c: nat): Manager
    requires c < |m.creations| && m.creations[c].phase.Starting?
  {
    var root, id := m.creations[c].root, m.creations[c].phase.id;
    InPhase(m, c, Resolved(id)).(sessions := m.sessions[root := id], started := m.started + [(root, id)])
  }

  /** The `finally` of a settled creation. */
  function CleanedUp(m: Manager, c: nat): Manager
    requires c < |m.creations|
  {
    var phase := m.creations[c].phase;
    InPhase(m, c, Cleaned(if phase.Resolved? then Some(phase.id) else None)).(pending := m.pending - {m.creations[c].root})
  }

  function Resumed(m: Manager, k: nat): Manager
    requires k < |m.callers| && m.callers[k].place.Awaiting? && m.callers[k].place.creation < |m.creations|
    requires m.creations[m.callers[k].place.creation].phase.Cleaned?
  {
    var result := m.creations[m.callers[k].place.creation].phase.result;
    Placed(m, k, if result.Some? then Returned(result.value) else Threw)
  }

  datatype Op =
    | Call(root: string)
    | Ready(caller: nat)
    | NotReady(caller: nat)
    | Reconciled(creation: nat)
    | ReconcileFailed(creation: nat)
    | StartOk(creation: nat)
    | StartFailed(creation: nat)
    | Cleanup(creation: nat)
    | Resume(caller: nat)

  predicate Enabled(m: Manager, op: Op) {
    match op
    case Call(_) => true
    case Ready(k) => k < |m.callers| && m.callers[k].place.Checking?
    case NotReady(k) => k < |m.callers| && m.callers[k].place.Checking?
    case Reconciled(c) => c < |m.creations| && m.creations[c].phase.Reconciling?
    case ReconcileFailed(c) => c < |m.creations| && m.creations[c].phase.Reconciling?
    case StartOk(c) => c < |m.creations| && m.creations[c].phase.Starting?
    case StartFailed(c) => c < |m.creations| && m.creations[c].phase.Starting?
    case Cleanup(c) => c < |m.creations| && (m.creations[c].phase.Resolved? || m.creations[c].phase.Rejected?)
    case Resume(k) =>
      && k < |m.callers| && m.callers[k].place.Awaiting? && m.callers[k].place.creation < |m.creations|
      && m.creations[m.callers[k].place.creation].phase.Cleaned?
  }

  function Step(normalize: string -> string, m: Manager, op: Op): Manager
    requires Enabled(m, op)
  {
    match op
    case Call(root) => Called(m, normalize(root))
    case Ready(k) => LookedUp(m, k)
    case NotReady(k) => Placed(m, k, Threw)
    case Reconciled(c) => GotId(m, c)
    case ReconcileFailed(c) => InPhase(m, c, Rejected)
    case StartOk(c) => Started(m, c)
    case StartFailed(c) => InPhase(m, c, Rejected)
    case Cleanup(c) => CleanedUp(m, c)
    case Resume(k) => Resumed(m, k)
  }

  /** A run; what is not enabled does not happen. */
  function Run(normalize: string -> string, m: Manager, ops: seq<Op>): Manager {
    if ops == [] then m
    else
      var before := Run(normalize, m, ops[..|ops| - 1]);
      if Enabled(before, ops[|ops| - 1]) then Step(normalize, before, ops[|ops| - 1]) else before
  }

  class AgentMemorySessionManager {
    const normalize: string -> string
    var sessions: map<string, nat>
    var pendingSessions: map<string, nat>
    var creations: seq<Creation>
    var callers: seq<Caller>
    var nextId: nat
    ghost var started: seq<(string, nat)>

    ghost function Now(): Manager
      reads this
    {
      Manager(sessions, pendingSessions, creations, callers, nextId, started)
    }

    constructor (normalize: string -> string)
      ensures this.normalize == normalize && Now() == EMPTY
    {
      this.normalize := normalize;
      sessions, pendingSessions, creations, callers, nextId, started := map[], map[], [], [], 0, [];
    }

    /** `ensureSession` up to waiting for the memory service. */
    method EnsureSession(root: string) returns (caller: nat)
      modifies this
      ensures Now() == Step(normalize, old(Now()), Call(root)) && caller == old(|callers|)
    {
      caller := |callers|;
      callers := callers + [Caller(normalize(root), Checking)];
    }

    /** `ensureSession` once the memory service is ready. */
    method OnReady(caller: nat)
      requires Enabled(Now(), Ready(caller))
      modifies this
      ensures Now() == Step(normalize, old(Now()), Ready(caller))
    {
      var root := callers[caller].root;
      if root in sessions {
        callers := callers[caller := Caller(root, Returned(sessions[root]))];
        return;
      }
      if root in pendingSessions {
        callers := callers[caller := Caller(root, Awaiting(pendingSessions[root]))];
        return;
      }
      var creation := |creations|;
      creations := creations + [Creation(root, Reconciling)];
      pendingSessions := pendingSessions[root := creation];
      callers := callers[caller := Caller(root, Awaiting(creation))];
    }

    /** `createSession` once stale sessions are dealt with: the request to start goes out under a fresh id. */
    method OnReconciled(creation: nat)
      requires Enabled(Now(), Reconciled(creation))
      modifies this
      ensures Now() == Step(normalize, old(Now()), Reconciled(creation))
    {
      creations := creations[creation := creations[creation].(phase := Starting(nextId))];
      nextId := nextId + 1;
    }

    /** `createSession` once the session is started. */
    method OnStarted(creation: nat)
      requires Enabled(Now(), StartOk(creation))
      modifies this
      ensures Now() == Step(normalize, old(Now()), StartOk(creation))
    {
      var root, id := creations[creation].root, creations[creation].phase.id;
      started := started + [(root, id)];
      sessions := sessions[root := id];
      creations := creations[creation := Creation(root, Resolved(id))];
    }

    method OnRejected(creation: nat)
      requires Enabled(Now(), ReconcileFailed(creation)) || Enabled(Now(), StartFailed(creation))
      modifies this
      ensures Now() == InPhase(old(Now()), creation, Rejected)
    {
      creations := creations[creation := creations[creation].(phase := Rejected)];
    }

    /** The `finally` of a creation. */
    method OnSettled(creation: nat)
      requires Enabled(Now(), Cleanup(creation))
      modifies this
      ensures Now() == Step(normalize, old(Now()), Cleanup(creation))
    {
      var phase := creations[creation].phase;
      pendingSessions := pendingSessions - {creations[creation].root};
      creations := creations[creation := creations[creation].(phase := Cleaned(if phase.Resolved? then Some(phase.id) else None))];
    }

    /** `ensureSession` after the creation it waited for. */
    method OnResume(caller: nat)
      requires Enabled(Now(), Resume(caller))
      modifies this
      ensures Now() == Step(normalize, old(Now()), Resume(caller))
    {
      var result := creations[callers[caller].place.creation].phase.result;
      callers := callers[caller := callers[caller].(place := if result.Some? then Returned(result.value) else Threw)];
    }
  }

  // ---------------------------------------------------------------- the invariant

  predicate InFlight(phase: Phase) {
    phase.Reconciling? || phase.Starting?
  }

  /** The table of pending creations holds exactly those that have not been cleaned up, each under its root. */
  ghost predicate PendingIsExact(m: Manager) {
    && (forall r | r in m.pending ::
          m.pending[r] < |m.creations| && m.creations[m.pending[r]].root == r && !m.creations[m.pending[r]].phase.Cleaned?)
    && (forall c | 0 <= c < |m.creations| && !m.creations[c].phase.Cleaned? ::
          m.creations[c].root in m.pending && m.pending[m.creations[c].root] == c)
  }

  function ResultOf(phase: Phase): Option<nat> {
    match phase
    case Resolved(id) => Some(id)
    case Cleaned(result) => result
    case _ => None
  }

  /** A root is either without a session or done with creating one. */
  ghost predicate CreationsAgree(m: Manager) {
    && (forall c | 0 <= c < |m.creations| && InFlight(m.creations[c].phase) :: m.creations[c].root !in m.sessions)
    && (forall c | 0 <= c < |m.creations| && ResultOf(m.creations[c].phase).Some? ::
          IsSession(m, m.creations[c].root, ResultOf(m.creations[c].phase).value))
  }

  predicate IsSession(m: Manager, root: string, id: nat) {
    root in m.sessions && m.sessions[root] == id
  }

  ghost predicate CallersAgree(m: Manager) {
    && (forall k | 0 <= k < |m.callers| && m.callers[k].place.Awaiting? ::
          m.callers[k].place.creation < |m.creations| && m.creations[m.callers[k].place.creation].root == m.callers[k].root)
    && (forall k | 0 <= k < |m.callers| && m.callers[k].place.Returned? ::
          IsSession(m, m.callers[k].root, m.callers[k].place.id))
  }

  /** Started sessions are the table of sessions, one for each root. */
  ghost predicate StartedOnce(m: Manager) {
    && (forall i | 0 <= i < |m.started| :: IsSession(m, m.started[i].0, m.started[i].1))
    && (forall r | r in m.sessions :: (r, m.sessions[r]) in m.started)
    && (forall i, j | 0 <= i < j < |m.started| :: m.started[i].0 != m.started[j].0)
  }

  ghost predicate Inv(m: Manager) {
    PendingIsExact(m) && CreationsAgree(m) && CallersAgree(m) && StartedOnce(m)
  }

  lemma StepKeepsPending(normalize: string -> string, m: Manager, op: Op)
    requires Inv(m) && Enabled(m, op)
    ensures PendingIsExact(Step(normalize, m, op))
  {
    hide CreationsAgree, CallersAgree, StartedOnce;
    match op {
      case Ready(k) => LookUpKeepsPending(m, k);
      case Cleanup(c) => CleanUpKeepsPending(m, c);
      case _ => assert PendingIsExact(m);
    }
  }

  lemma LookUpKeepsPending(m: Manager, k: nat)
    requires PendingIsExact(m) && k < |m.callers|
    ensures PendingIsExact(LookedUp(m, k))
  {
  }

  lemma CleanUpKeepsPending(m: Manager, c: nat)
    requires PendingIsExact(m) && Enabled(m, Cleanup(c))
    ensures PendingIsExact(CleanedUp(m, c))
  {
  }

  lemma StepKeepsCreations(normalize: string -> string, m: Manager, op: Op)
    requires Inv(m) && Enabled(m, op)
    ensures CreationsAgree(Step(normalize, m, op))
  {
    hide CallersAgree, StartedOnce;
    match op {
      case Ready(k) => LookUpKeepsCreations(m, k);
      case StartOk(c) => StartKeepsCreations(m, c);
      case Cleanup(c) => CleanUpKeepsCreations(m, c);
      case _ => assert CreationsAgree(m);
    }
  }

  lemma LookUpKeepsCreations(m: Manager, k: nat)
    requires CreationsAgree(m) && k < |m.callers|
    ensures CreationsAgree(LookedUp(m, k))
  {
  }

  lemma StartKeepsCreations(m: Manager, c: nat)
    requires PendingIsExact(m) && CreationsAgree(m) && Enabled(m, StartOk(c))
    ensures CreationsAgree(Started(m, c))
  {
  }

  lemma CleanUpKeepsCreations(m: Manager, c: nat)
    requires CreationsAgree(m) && Enabled(m, Cleanup(c))
    ensures CreationsAgree(CleanedUp(m, c))
  {
  }

  lemma StepKeepsCallers(normalize: string -> string, m: Manager, op: Op)
    requires Inv(m) && Enabled(m, op)
    ensures CallersAgree(Step(normalize, m, op))
  {
    hide StartedOnce;
    match op {
      case Ready(k) => LookUpKeepsCallers(m, k);
      case StartOk(c) => StartKeepsCallers(m, c);
      case Resume(k) => ResumeKeepsCallers(m, k);
      case _ => assert CallersAgree(m);
    }
  }

  lemma StartKeepsCallers(m: Manager, c: nat)
    requires CreationsAgree(m) && CallersAgree(m) && Enabled(m, StartOk(c))
    ensures CallersAgree(Started(m, c))
  {
  }

  lemma ResumeKeepsCallers(m: Manager, k: nat)
    requires CreationsAgree(m) && CallersAgree(m) && Enabled(m, Resume(k))
    ensures CallersAgree(Resumed(m, k))
  {
  }

  lemma LookUpKeepsCallers(m: Manager, k: nat)
    requires PendingIsExact(m) && CallersAgree(m) && k < |m.callers|
    ensures CallersAgree(LookedUp(m, k))
  {
  }

  lemma StepKeepsStarted(normalize: string -> string, m: Manager, op: Op)
    requires Inv(m) && Enabled(m, op)
    ensures StartedOnce(Step(normalize, m, op))
  {
    hide CallersAgree, PendingIsExact;
  }

  lemma {:induction false} RunKeepsInv(normalize: string -> string, ops: seq<Op>)
    ensures Inv(Run(normalize, EMPTY, ops))
  {
    if ops != [] {
      RunKeepsInv(normalize, ops[..|ops| - 1]);
      var before, op := Run(normalize, EMPTY, ops[..|ops| - 1]), ops[|ops| - 1];
      hide PendingIsExact, CreationsAgree, CallersAgree, StartedOnce, Step, Enabled;
      if Enabled(before, op) {
        StepKeepsPending(normalize, before, op);
        StepKeepsCreations(normalize, before, op);
        StepKeepsCallers(normalize, before, op);
        StepKeepsStarted(normalize, before, op);
      }
    }
  }

  /** At most one session is ever started for a root, and every call for the root that returns gets that session. */
  lemma SessionsAreSingleFlight(normalize: string -> string, ops: seq<Op>)
    ensures var m := Run(normalize, EMPTY, ops);
            && (forall i, j | 0 <= i < j < |m.started| :: m.started[i].0 != m.started[j].0)
            && (forall k | 0 <= k < |m.callers| && m.callers[k].place.Returned? ::
                  (m.callers[k].root, m.callers[k].place.id) in m.started)
  {
    hide Run;
    RunKeepsInv(normalize, ops);
    var m := Run(normalize, EMPTY, ops);
    forall k | 0 <= k < |m.callers| && m.callers[k].place.Returned?
      ensures (m.callers[k].root, m.callers[k].place.id) in m.started
    {
      assert IsSession(m, m.callers[k].root, m.callers[k].place.id);
    }
  }

  /** Two calls for one root that both return, return the same session. */
  lemma CallersShareTheSession(normalize: string -> string, ops: seq<Op>, j: nat, k: nat)
    requires var m := Run(normalize, EMPTY, ops);
             && j < |m.callers| && k < |m.callers| && m.callers[j].root == m.callers[k].root
             && m.callers[j].place.Returned? && m.callers[k].place.Returned?
    ensures var m := Run(normalize, EMPTY, ops);
            m.callers[j].place.id == m.callers[k].place.id
  {
    hide Run;
    RunKeepsInv(normalize, ops);
  }
}

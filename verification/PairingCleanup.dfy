/** The lazy cleanup of attempts and sessions: what it leaves alone, and exactly when it can be seen. */
module PairingCleanup {
  import opened Sequences
  import opened Wrappers
  import opened Pairing

  /** The attempt that still matters at time `t`. */
  function Effective(attempts: map<string, Attempt>, origin: string, t: int): Option<Attempt> {
    if origin in attempts && !Stale(attempts[origin], t) then Some(attempts[origin]) else None
  }

  /** Two states that differ only in what has expired by time `t`. */
  ghost predicate SameUntil(s: State, s': State, t: int) {
    && s.pairing == s'.pairing
    && Live(s.sessions, t) == Live(s'.sessions, t)
    && (forall o :: Effective(s.attempts, o, t) == Effective(s'.attempts, o, t))
  }

  lemma LiveLater(sessions: seq<Session>, t: int, later: int)
    requires t <= later
    ensures Live(Live(sessions, t), later) == Live(sessions, later)
  {
    FilterAbsorbs(NotExpired(later), NotExpired(t), sessions);
  }

  lemma LiveAppend(sessions: seq<Session>, x: Session, t: int)
    ensures Live(sessions + [x], t) == Live(sessions, t) + if x.expiresAt <= t then [] else [x]
  {
    FilterAppend(NotExpired(t), sessions, x);
  }

  lemma SameLater(s: State, s': State, t: int, later: int)
    requires SameUntil(s, s', t) && t <= later
    ensures SameUntil(s, s', later)
  {
    LiveLater(s.sessions, t, later);
    LiveLater(s'.sessions, t, later);
    forall o ensures Effective(s.attempts, o, later) == Effective(s'.attempts, o, later) {
      assert Effective(s.attempts, o, t) == Effective(s'.attempts, o, t);
    }
  }

  lemma CleanupIsTheSame(s: State, t: int)
    ensures SameUntil(s, Cleanup(s, t), t)
  {
    LiveLater(s.sessions, t, t);
  }

  lemma CleanupsAgree(s: State, s': State, t: int)
    requires SameUntil(s, s', t)
    ensures Cleanup(s, t) == Cleanup(s', t)
  {
    var m, m' := Cleanup(s, t).attempts, Cleanup(s', t).attempts;
    forall o ensures o in m <==> o in m' && (o in m ==> m[o] == m'[o]) {
      assert Effective(s.attempts, o, t) == Effective(s'.attempts, o, t);
    }
    assert m == m';
  }

  lemma PairStepAgrees(c: Config, s: State, s': State, p: PairCall)
    requires SameUntil(s, s', p.checkedAt) && p.checkedAt <= p.now
    ensures PairStep(c, s, p).1 == PairStep(c, s', p).1
    ensures SameUntil(PairStep(c, s, p).0, PairStep(c, s', p).0, p.now)
  {
    hide CheckOrigin;
    SameLater(s, s', p.checkedAt, p.now);
    assert Effective(s.attempts, p.origin, p.checkedAt) == Effective(s'.attempts, p.origin, p.checkedAt);
    assert Effective(s.attempts, p.origin, p.now) == Effective(s'.attempts, p.origin, p.now);
    var r, r' := Renewed(s, p.now, p.renewed), Renewed(s', p.now, p.renewed);
    if CheckOrigin(p.extensionId, p.origin).None? && BlockedUntil(s.attempts, p.origin, p.checkedAt).None? {
      if p.code != r.pairing.code {
        assert AfterFailure(Lookup(s.attempts, p.origin), p.now) == AfterFailure(Lookup(s'.attempts, p.origin), p.now);
        var f, f' := PairStep(c, s, p).0, PairStep(c, s', p).0;
        forall o ensures Effective(f.attempts, o, p.now) == Effective(f'.attempts, o, p.now) {
          assert Effective(s.attempts, o, p.now) == Effective(s'.attempts, o, p.now);
        }
      } else {
        SuccessAgrees(c, r, r', p);
      }
    }
  }

  lemma SuccessAgrees(c: Config, r: State, r': State, p: PairCall)
    requires SameUntil(r, r', p.now)
    ensures Cleanup(Accepted(c, r, p), p.now) == Cleanup(Accepted(c, r', p), p.now)
  {
    var session := Session(p.sessionId, p.extensionId, p.origin, c.hash(p.token), p.now, p.now + c.sessionTtl);
    var a, a' := Accepted(c, r, p), Accepted(c, r', p);
    LiveAppend(r.sessions, session, p.now);
    LiveAppend(r'.sessions, session, p.now);
    forall o ensures Effective(a.attempts, o, p.now) == Effective(a'.attempts, o, p.now) {
      assert Effective(r.attempts, o, p.now) == Effective(r'.attempts, o, p.now);
    }
    CleanupsAgree(a, a', p.now);
  }

  /** The second state is the first as a cleanup at `t` and the same operations since have left it. */
  ghost predicate CleanedAt(s: State, s': State, t: int, now: int) {
    && s.pairing == s'.pairing
    && s'.sessions == Live(s.sessions, t)
    && (forall o :: Effective(s.attempts, o, now) == Effective(s'.attempts, o, now))
  }

  lemma CleanedIsTheSame(s: State, s': State, t: int, now: int)
    requires CleanedAt(s, s', t, now) && t <= now
    ensures SameUntil(s, s', now)
  {
    LiveLater(s.sessions, t, now);
  }

  lemma CleanedLater(s: State, s': State, t: int, now: int, later: int)
    requires CleanedAt(s, s', t, now) && t <= now <= later
    ensures CleanedAt(s, s', t, later)
  {
    CleanedIsTheSame(s, s', t, now);
    SameLater(s, s', now, later);
  }

  /** What a cleanup leaves, an earlier one would have left too. */
  lemma LiveEarlier(sessions: seq<Session>, t: int, now: int)
    requires t <= now
    ensures Live(Live(sessions, now), t) == Live(sessions, now)
  {
    FilterCommutes(NotExpired(t), NotExpired(now), sessions);
    FilterAbsorbs(NotExpired(now), NotExpired(t), sessions);
  }

  /** The operation is not a revoke that finds a session on file, but none that was unexpired at `t`. */
  predicate SeesNoExpiry(s: State, op: Op, t: int) {
    op.Revoke? ==> (HasSession(s.sessions, op.sessionId) ==> HasSession(Live(s.sessions, t), op.sessionId))
  }

  lemma PairKeepsCleaned(c: Config, s: State, s': State, p: PairCall, t: int)
    requires CleanedAt(s, s', t, p.checkedAt) && t <= p.checkedAt <= p.now
    ensures PairStep(c, s, p).1 == PairStep(c, s', p).1
    ensures CleanedAt(PairStep(c, s, p).0, PairStep(c, s', p).0, t, p.now)
  {
    CleanedIsTheSame(s, s', t, p.checkedAt);
    PairStepAgrees(c, s, s', p);
    SameLater(s, s', p.checkedAt, p.now);
    var r, r' := Renewed(s, p.now, p.renewed), Renewed(s', p.now, p.renewed);
    hide CheckOrigin, AfterFailure, BlockedUntil, Accepted;
    if PairStep(c, s, p).1.Ok? {
      SuccessAgrees(c, r, r', p);
      LiveEarlier(Accepted(c, r, p).sessions, t, p.now);
    }
  }

  /** One operation on the state and on its cleaned counterpart. */
  lemma StepKeepsCleaned(c: Config, s: State, s': State, op: Op, t: int, now: int)
    requires CleanedAt(s, s', t, now) && t <= now <= Started(op) <= Finished(op)
    ensures CleanedAt(Step(c, s, op).0, Step(c, s', op).0, t, Finished(op))
    ensures Step(c, s, op).1 == Step(c, s', op).1 <==> SeesNoExpiry(s, op, t)
  {
    CleanedLater(s, s', t, now, Started(op));
    CleanedLater(s, s', t, now, Finished(op));
    match op
    case Pair(p) =>
      hide PairStep;
      PairKeepsCleaned(c, s, s', p, t);
    case Authenticate(token, extensionId, origin, at) =>
      hide CheckOrigin, FindSession;
      CleanedIsTheSame(s, s', t, at);
      CleanupsAgree(s, s', at);
      LiveEarlier(s.sessions, t, at);
    case Revoke(id, at) =>
      LiveMembers(s.sessions, t);
      FilterCommutes(NotExpired(t), NotNamed(id), s.sessions);
    case CurrentCode(_, _) =>
    case RotateCode(_, _) =>
  }

  /** No revoke of the run, made without the cleanup, finds only sessions that had expired by `t`. */
  ghost predicate NeverSeesExpiry(c: Config, s: State, ops: seq<Op>, t: int)
    decreases |ops|
  {
    ops == [] || (SeesNoExpiry(s, ops[0], t) && NeverSeesExpiry(c, Step(c, s, ops[0]).0, ops[1..], t))
  }

  lemma {:induction false} RunsAgreeExactly(c: Config, s: State, s': State, ops: seq<Op>, t: int, now: int)
    requires CleanedAt(s, s', t, now) && t <= now && ClockFrom(ops, now)
    ensures Outputs(c, s, ops) == Outputs(c, s', ops) <==> NeverSeesExpiry(c, s, ops, t)
    decreases |ops|
  {
    hide Step, CleanedAt, SeesNoExpiry;
    if ops != [] {
      var r, r' := Step(c, s, ops[0]), Step(c, s', ops[0]);
      StepKeepsCleaned(c, s, s', ops[0], t, now);
      RunsAgreeExactly(c, r.0, r'.0, ops[1..], t, Finished(ops[0]));
      assert Outputs(c, s, ops)[0] == r.1 && Outputs(c, s, ops)[1..] == Outputs(c, r.0, ops[1..]);
      assert Outputs(c, s', ops)[0] == r'.1 && Outputs(c, s', ops)[1..] == Outputs(c, r'.0, ops[1..]);
    }
  }

  /** An extra cleanup at any time goes unseen by all the calls that follow, exactly when none of them revokes a session
      that is still on file although it had expired by then. */
  lemma CleanupIsUnobservable(c: Config, s: State, ops: seq<Op>, t: int)
    requires ClockFrom(ops, t)
    ensures Outputs(c, s, ops) == Outputs(c, Cleanup(s, t), ops) <==> NeverSeesExpiry(c, s, ops, t)
  {
    CleanupIsTheSame(s, t);
    RunsAgreeExactly(c, s, Cleanup(s, t), ops, t, t);
  }

  lemma {:induction false} NoRevokeSeesNoExpiry(c: Config, s: State, ops: seq<Op>, t: int)
    requires forall op | op in ops :: !op.Revoke?
    ensures NeverSeesExpiry(c, s, ops, t)
    decreases |ops|
  {
    hide Step;
    if ops != [] {
      assert ops[0] in ops && forall op | op in ops[1..] :: op in ops;
      NoRevokeSeesNoExpiry(c, Step(c, s, ops[0]).0, ops[1..], t);
    }
  }

  /** Without revokes a cleanup is never seen. */
  lemma OnlyRevokeSeesCleanup(c: Config, s: State, ops: seq<Op>, t: int)
    requires ClockFrom(ops, t) && forall op | op in ops :: !op.Revoke?
    ensures Outputs(c, s, ops) == Outputs(c, Cleanup(s, t), ops)
  {
    NoRevokeSeesNoExpiry(c, s, ops, t);
    CleanupIsUnobservable(c, s, ops, t);
  }

  /** Revoking is the one call that can see a cleanup: exactly when every session it names has expired. */
  lemma RevokeSeesExpiry(c: Config, s: State, id: string, t: int)
    ensures Step(c, s, Revoke(id, t)).1 == Step(c, Cleanup(s, t), Revoke(id, t)).1
       <==> (HasSession(s.sessions, id) ==> exists x :: x in s.sessions && x.id == id && x.expiresAt > t)
  {
    LiveMembers(s.sessions, t);
    if HasSession(Live(s.sessions, t), id) {
      var x :| x in Live(s.sessions, t) && x.id == id;
      assert x in s.sessions;
    }
    if exists x :: x in s.sessions && x.id == id && x.expiresAt > t {
      var x :| x in s.sessions && x.id == id && x.expiresAt > t;
      assert x in Live(s.sessions, t);
    }
  }
}

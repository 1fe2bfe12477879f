/** Who gets in: which codes pair, which tokens authenticate, and for how long, over every run. */
module PairingAccess {
  import opened Sequences
  import opened Wrappers
  import opened Pairing
  import opened PairingBounds
  import opened PairingCleanup

  // ---------------------------------------------------------------- origins

  const ID_LETTERS := "abcdefghijklmnop"

  /** An extension id is 32 letters from a to p. */
  predicate IsExtensionId(id: string) {
    |id| == 32 && forall c | c in id :: c in ID_LETTERS
  }

  lemma IdLettersAreARange(c: char)
    ensures c in ID_LETTERS <==> 'a' <= c <= 'p'
  {
    if 'a' <= c <= 'p' {
      assert ID_LETTERS[c as int - 97] == c;
    }
  }

  /** Only an extension under its own origin is let on. */
  lemma OriginCheckIsExact(extensionId: string, origin: string)
    ensures CheckOrigin(extensionId, origin) ==
            if !IsExtensionId(extensionId) then Some(InvalidExtension)
            else if origin == "chrome-extension://" + extensionId then None
            else Some(OriginMismatch)
  {
    forall c: char ensures c in ID_LETTERS <==> 'a' <= c <= 'p' {
      IdLettersAreARange(c);
    }
  }

  // ---------------------------------------------------------------- pairing

  /** The code that counts at `now`: an expired one has been renewed. */
  function CodeAt(s: State, now: int, renewed: Code): string {
    if s.pairing.expiresAt <= now then renewed.code else s.pairing.code
  }

  /** The origin has failed too often, and the block is not over. */
  predicate IsBlocked(s: State, origin: string, now: int) {
    origin in s.attempts && s.attempts[origin].blockedUntil != 0 && now < s.attempts[origin].blockedUntil
  }

  /** Pairing succeeds for an unblocked origin with the code that counts, and for nothing else. */
  lemma PairingIsExact(c: Config, s: State, p: PairCall)
    requires CheckOrigin(p.extensionId, p.origin) == None
    ensures Step(c, s, Pair(p)).1 == PairOutput(
              if IsBlocked(s, p.origin, p.checkedAt) then Err(Blocked(s.attempts[p.origin].blockedUntil))
              else if p.code == CodeAt(s, p.now, p.renewed) then Ok(Paired(p.token, p.sessionId, p.now + c.sessionTtl))
              else Err(InvalidCode))
  {
    hide CheckOrigin, Live, AfterFailure;
  }

  /** The call is a pairing that succeeds. */
  predicate Succeeds(c: Config, s: State, op: Op) {
    op.Pair? && PairStep(c, s, op.call).1.Ok?
  }

  /** A success puts a new session on file, changes the code and forgives the origin; sessions that had expired go. */
  lemma SuccessOpensASession(c: Config, s: State, p: PairCall)
    requires Succeeds(c, s, Pair(p))
    ensures var s' := Step(c, s, Pair(p)).0;
            && s'.pairing == p.replacement && p.origin !in s'.attempts
            && forall x :: x in s'.sessions <==>
                 x.expiresAt > p.now &&
                 (x in s.sessions
                  || x == Session(p.sessionId, p.extensionId, p.origin, c.hash(p.token), p.now, p.now + c.sessionTtl))
  {
    hide CheckOrigin, AfterFailure;
    var added := Session(p.sessionId, p.extensionId, p.origin, c.hash(p.token), p.now, p.now + c.sessionTtl);
    LiveMembers(s.sessions + [added], p.now);
    hide Live;
    assert forall x :: x in s.sessions + [added] <==> x in s.sessions || x == added;
  }

  /** An attempt is remembered while its block lasts and for a minute after it began. */
  predicate IsRemembered(a: Attempt, now: int) {
    now < a.blockedUntil || now < a.windowStartedAt + 60_000
  }

  /** A success and an authentication forget exactly the attempts that are over; nothing else forgets or changes any. */
  lemma OnlyOldAttemptsAreForgotten(c: Config, s: State, op: Op, origin: string)
    requires !(op.Pair? && op.call.origin == origin)
    ensures var s' := Step(c, s, op).0;
            && (origin in s'.attempts ==> origin in s.attempts && s'.attempts[origin] == s.attempts[origin])
            && (origin in s.attempts && origin !in s'.attempts ==> !IsRemembered(s.attempts[origin], Finished(op)))
            && (Succeeds(c, s, op) || (op.Authenticate? && op.token != "" && CheckOrigin(op.extensionId, op.origin) == None) ==>
                  (origin in s'.attempts <==> origin in s.attempts && IsRemembered(s.attempts[origin], Finished(op))))
  {
    hide CheckOrigin, AfterFailure, Live, FindSession;
  }

  /** The code shown is the one on file while it lasts, and a new one afterwards or when it is changed. */
  lemma ShownCodesAreExact(c: Config, s: State, now: int, next: Code)
    ensures Step(c, s, CurrentCode(now, next)) ==
            (var shown := if now < s.pairing.expiresAt then s.pairing else next; (State(shown, s.sessions, s.attempts), CodeOutput(shown)))
    ensures Step(c, s, RotateCode(now, next)) == (State(next, s.sessions, s.attempts), CodeOutput(next))
  {
  }

  /** Revoking takes every session of that id off the file, and no other, and tells whether there was one. */
  lemma RevokingIsExact(c: Config, s: State, id: string, now: int)
    ensures var r := Step(c, s, Revoke(id, now));
            && r.1 == RevokeOutput(exists x :: x in s.sessions && x.id == id)
            && r.0.pairing == s.pairing && r.0.attempts == s.attempts
            && forall x :: x in r.0.sessions <==> x in s.sessions && x.id != id
  {
    FilterMembers(NotNamed(id), s.sessions);
  }

  /** A failure counts within a minute of the first, and the fifth blocks for five minutes. */
  lemma FailureIsCounted(c: Config, s: State, p: PairCall)
    requires Step(c, s, Pair(p)).1 == PairOutput(Err(InvalidCode))
    ensures var s' := Step(c, s, Pair(p)).0;
            && s'.sessions == s.sessions && p.origin in s'.attempts
            && var a := s'.attempts[p.origin];
               if p.origin in s.attempts && p.now < s.attempts[p.origin].windowStartedAt + 60_000
               then && a.count == s.attempts[p.origin].count + 1 && a.windowStartedAt == s.attempts[p.origin].windowStartedAt
                    && a.blockedUntil == (if a.count < 5 then 0 else p.now + 300_000)
               else a == Attempt(1, p.now, 0)
  {
  }

  // ---------------------------------------------------------------- over whole runs

  /** At step `i` the run pairs with this call. */
  predicate PairsAt(c: Config, s: State, ops: seq<Op>, i: nat, p: PairCall)
    requires i < |ops|
  {
    ops[i] == Pair(p) && Succeeds(c, After(c, s, ops[..i]), ops[i])
  }

  predicate RevokedAfter(ops: seq<Op>, i: nat, id: string) {
    exists j | i < j < |ops| :: ops[j].Revoke? && ops[j].sessionId == id
  }

  function Opened(c: Config, p: PairCall): Session {
    Session(p.sessionId, p.extensionId, p.origin, c.hash(p.token), p.now, p.now + c.sessionTtl)
  }

  lemma {:induction false} AfterOneMore(c: Config, s: State, ops: seq<Op>, op: Op)
    ensures After(c, s, ops + [op]) == Step(c, After(c, s, ops), op).0
    decreases |ops|
  {
    hide Step;
    if ops == [] {
      assert ops + [op] == [op] && [op][1..] == [];
    } else {
      assert (ops + [op])[0] == ops[0] && (ops + [op])[1..] == ops[1..] + [op];
      AfterOneMore(c, Step(c, s, ops[0]).0, ops[1..], op);
    }
  }

  /** What one call does to the sessions that are still good at `now`. */
  lemma StepKeepsGoodSessions(c: Config, s: State, op: Op, x: Session, now: int)
    requires Finished(op) <= now < x.expiresAt
    ensures x in Step(c, s, op).0.sessions <==>
            || (x in s.sessions && !(op.Revoke? && op.sessionId == x.id))
            || (Succeeds(c, s, op) && x == Opened(c, op.call))
  {
    hide CheckOrigin, AfterFailure;
    match op
    case Pair(p) =>
      if Succeeds(c, s, op) {
        SuccessOpensASession(c, s, p);
      }
    case Authenticate(_, _, _, t) => LiveMembers(s.sessions, t);
    case Revoke(id, _) => FilterMembers(NotNamed(id), s.sessions);
    case CurrentCode(_, _) =>
    case RotateCode(_, _) =>
  }

  ghost predicate EndsBy(ops: seq<Op>, now: int) {
    forall i | 0 <= i < |ops| :: Finished(ops[i]) <= now
  }

  /** A session that is still good is on file exactly when an earlier pairing of the run opened it and no later call
      revoked it. */
  lemma {:induction false} SessionsComeFromPairing(c: Config, first: Code, ops: seq<Op>, x: Session, now: int)
    requires EndsBy(ops, now) && now < x.expiresAt
    ensures x in After(c, State(first, [], map[]), ops).sessions <==>
            exists i, p | 0 <= i < |ops| ::
              PairsAt(c, State(first, [], map[]), ops, i, p) && x == Opened(c, p) && !RevokedAfter(ops, i, x.id)
    decreases |ops|
  {
    var s0 := State(first, [], map[]);
    if ops != [] {
      var n := |ops| - 1;
      var init, op := ops[..n], ops[n];
      assert ops == init + [op];
      assert EndsBy(init, now) by {
        assert forall i | 0 <= i < n :: init[i] == ops[i];
      }
      SessionsComeFromPairing(c, first, init, x, now);
      AfterOneMore(c, s0, init, op);
      StepKeepsGoodSessions(c, After(c, s0, init), op, x, now);
      hide After, Step;
      assert forall i | 0 <= i < n :: init[..i] == ops[..i] && init[i] == ops[i];
      forall i, p | 0 <= i < n
        ensures PairsAt(c, s0, ops, i, p) <==> PairsAt(c, s0, init, i, p)
        ensures RevokedAfter(ops, i, x.id) <==> RevokedAfter(init, i, x.id) || (op.Revoke? && op.sessionId == x.id)
      {
        RevokedOneMore(init, op, i, x.id);
      }
      LastPairs(c, s0, init, op, x);
    }
  }

  lemma RevokedOneMore(init: seq<Op>, op: Op, i: nat, id: string)
    requires i < |init|
    ensures RevokedAfter(init + [op], i, id) <==> RevokedAfter(init, i, id) || (op.Revoke? && op.sessionId == id)
  {
    var ops := init + [op];
    assert forall j | 0 <= j < |init| :: ops[j] == init[j];
    assert ops[|init|] == op;
  }

  lemma LastPairs(c: Config, s: State, init: seq<Op>, op: Op, x: Session)
    ensures (exists p :: PairsAt(c, s, init + [op], |init|, p) && x == Opened(c, p) && !RevokedAfter(init + [op], |init|, x.id))
       <==> (Succeeds(c, After(c, s, init), op) && x == Opened(c, op.call))
  {
    hide After, Step;
    assert (init + [op])[..|init|] == init && (init + [op])[|init|] == op;
    if Succeeds(c, After(c, s, init), op) && x == Opened(c, op.call) {
      assert PairsAt(c, s, init + [op], |init|, op.call);
    }
  }

  lemma AnswerOf(c: Config, s: State, token: string, extensionId: string, origin: string, now: int)
    ensures Step(c, s, Authenticate(token, extensionId, origin, now)).1
         == AuthOutput(AuthStep(c, s, token, extensionId, origin, now).1)
  {
    hide AuthStep;
  }

  /** In every run of a new manager a token lets an extension in exactly when an earlier pairing of that extension gave out
      a token with the same digest, its session was not revoked since, and its time is not over. */
  lemma TokensAreExact(c: Config, first: Code, ops: seq<Op>, token: string, extensionId: string, origin: string, now: int)
    requires EndsBy(ops, now) && CheckOrigin(extensionId, origin) == None && token != ""
    ensures var s := After(c, State(first, [], map[]), ops);
            Step(c, s, Authenticate(token, extensionId, origin, now)).1.found.value.Some? <==>
            exists i, p | 0 <= i < |ops| ::
              PairsAt(c, State(first, [], map[]), ops, i, p) && LetsIn(c, p, token, extensionId, origin, now)
              && !RevokedAfter(ops, i, p.sessionId)
  {
    hide CheckOrigin, After, Step, PairsAt, RevokedAfter;
    var s0 := State(first, [], map[]);
    var s := After(c, s0, ops);
    AuthenticationIsExact(c, s, token, extensionId, origin, now);
    AnswerOf(c, s, token, extensionId, origin, now);
    if x :| x in s.sessions && Opens(c, x, token, extensionId, origin, now) {
      SessionsComeFromPairing(c, first, ops, x, now);
      var i, p :| 0 <= i < |ops| && PairsAt(c, s0, ops, i, p) && x == Opened(c, p) && !RevokedAfter(ops, i, x.id);
      assert LetsIn(c, p, token, extensionId, origin, now);
    }
    if i, p :|
      && 0 <= i < |ops| && PairsAt(c, s0, ops, i, p)
      && LetsIn(c, p, token, extensionId, origin, now) && !RevokedAfter(ops, i, p.sessionId)
    {
      SessionsComeFromPairing(c, first, ops, Opened(c, p), now);
      assert Opens(c, Opened(c, p), token, extensionId, origin, now);
    }
  }

  /** What a pairing is good for: the same extension and origin, a token of the same digest, until the session's end. */
  predicate LetsIn(c: Config, p: PairCall, token: string, extensionId: string, origin: string, now: int) {
    && c.hash(p.token) == c.hash(token) && p.extensionId == extensionId && p.origin == origin
    && now < p.now + c.sessionTtl
  }
}

/** Pairing a browser extension: codes, sessions, the failure window and the lazy cleanup. */
module Pairing {
  import opened Sequences
  import opened Wrappers

  const WINDOW_MS := 60_000
  const BLOCK_MS := 300_000
  const MAX_FAILURES := 5

  datatype Code = Code(code: string, expiresAt: int)

  datatype Attempt = Attempt(count: nat, windowStartedAt: int, blockedUntil: int)

  datatype Session = Session(id: string, extensionId: string, origin: string, tokenHash: string, createdAt: int, expiresAt: int)

  /** Sessions are in insertion order. */
  datatype State = State(pairing: Code, sessions: seq<Session>, attempts: map<string, Attempt>)

  /** The token digest and the session lifetime. */
  datatype Config = Config(hash: string -> string, sessionTtl: int)

  datatype PairError = InvalidExtension | OriginMismatch | Blocked(blockedUntil: int) | InvalidCode

  datatype Paired = Paired(token: string, sessionId: string, expiresAt: int)

  /** One call of `pair`: its arguments, the clock when the block is checked and afterwards, and what
      the random sources return. */
  datatype PairCall = PairCall(code: string, extensionId: string, origin: string, checkedAt: int, now: int,
                               renewed: Code, replacement: Code, token: string, sessionId: string)

  datatype Op =
    | Pair(call: PairCall)
    | Authenticate(token: string, extensionId: string, origin: string, now: int)
    | Revoke(sessionId: string, now: int)
    | CurrentCode(now: int, renewed: Code)
    | RotateCode(now: int, replacement: Code)

  datatype Output =
    | PairOutput(paired: Result<Paired, PairError>)
    | AuthOutput(found: Result<Option<(string, int)>, PairError>)
    | RevokeOutput(existed: bool)
    | CodeOutput(code: Code)

  function Started(op: Op): int {
    if op.Pair? then op.call.checkedAt else op.now
  }

  function Finished(op: Op): int {
    if op.Pair? then op.call.now else op.now
  }

  // ---------------------------------------------------------------- the pieces of each call

  function CheckOrigin(extensionId: string, origin: string): Option<PairError> {
    if |extensionId| != 32 || exists c | c in extensionId :: !('a' <= c <= 'p') then Some(InvalidExtension)
    else if origin != "chrome-extension://" + extensionId then Some(OriginMismatch)
    else None
  }

  function BlockedUntil(attempts: map<string, Attempt>, origin: string, now: int): Option<int> {
    if origin in attempts && attempts[origin].blockedUntil != 0 && attempts[origin].blockedUntil > now
    then Some(attempts[origin].blockedUntil)
    else None
  }

  /** The attempt recorded by a failure at `now`, given the one on file. */
  function AfterFailure(previous: Option<Attempt>, now: int): Attempt {
    var within := previous.Some? && now - previous.value.windowStartedAt < WINDOW_MS;
    var count := if within then previous.value.count + 1 else 1;
    Attempt(count, if within then previous.value.windowStartedAt else now,
            if count >= MAX_FAILURES then now + BLOCK_MS else 0)
  }

  function Lookup(attempts: map<string, Attempt>, origin: string): Option<Attempt> {
    if origin in attempts then Some(attempts[origin]) else None
  }

  predicate Stale(a: Attempt, now: int) {
    a.blockedUntil <= now && now - a.windowStartedAt >= WINDOW_MS
  }

  function NotExpired(now: int): Session -> bool {
    (s: Session) => s.expiresAt > now
  }

  function Live(sessions: seq<Session>, now: int): seq<Session> {
    Filter(NotExpired(now), sessions)
  }

  function Cleanup(s: State, now: int): State {
    State(s.pairing, Live(s.sessions, now), map o | o in s.attempts && !Stale(s.attempts[o], now) :: s.attempts[o])
  }

  function Renewed(s: State, now: int, renewed: Code): State {
    if now >= s.pairing.expiresAt then s.(pairing := renewed) else s
  }

  /** The first session of this extension and origin with the token's digest. */
  function FindSession(sessions: seq<Session>, extensionId: string, origin: string, tokenHash: string): Option<(string, int)> {
    if sessions == [] then None
    else if sessions[0].extensionId == extensionId && sessions[0].origin == origin && sessions[0].tokenHash == tokenHash
    then Some((sessions[0].id, sessions[0].expiresAt))
    else FindSession(sessions[1..], extensionId, origin, tokenHash)
  }

  function NotNamed(id: string): Session -> bool {
    (s: Session) => s.id != id
  }

  function WithoutSession(sessions: seq<Session>, id: string): seq<Session> {
    Filter(NotNamed(id), sessions)
  }

  predicate HasSession(sessions: seq<Session>, id: string) {
    exists x | x in sessions :: x.id == id
  }

  // ---------------------------------------------------------------- each call as a whole

  /** The state after a correct code, before the cleanup: a new session, a new code, a clean slate. */
  function Accepted(c: Config, s: State, p: PairCall): State {
    var session := Session(p.sessionId, p.extensionId, p.origin, c.hash(p.token), p.now, p.now + c.sessionTtl);
    State(p.replacement, s.sessions + [session], s.attempts - {p.origin})
  }

  function PairStep(c: Config, s: State, p: PairCall): (State, Result<Paired, PairError>) {
    var refused := CheckOrigin(p.extensionId, p.origin);
    if refused.Some? then (s, Err(refused.value)) else
    var blocked := BlockedUntil(s.attempts, p.origin, p.checkedAt);
    if blocked.Some? then (s, Err(Blocked(blocked.value))) else
    var current := Renewed(s, p.now, p.renewed);
    if p.code != current.pairing.code then
      (current.(attempts := current.attempts[p.origin := AfterFailure(Lookup(current.attempts, p.origin), p.now)]),
       Err(InvalidCode))
    else
      (Cleanup(Accepted(c, current, p), p.now), Ok(Paired(p.token, p.sessionId, p.now + c.sessionTtl)))
  }

  function AuthStep(c: Config, s: State, token: string, extensionId: string, origin: string, now: int)
    : (State, Result<Option<(string, int)>, PairError>)
  {
    if token == "" then (s, Ok(None)) else
    var refused := CheckOrigin(extensionId, origin);
    if refused.Some? then (s, Err(refused.value)) else
    var clean := Cleanup(s, now);
    (clean, Ok(FindSession(clean.sessions, extensionId, origin, c.hash(token))))
  }

  function Step(c: Config, s: State, op: Op): (State, Output) {
    match op
    case Pair(p) => var r := PairStep(c, s, p); (r.0, PairOutput(r.1))
    case Authenticate(token, extensionId, origin, now) =>
      var r := AuthStep(c, s, token, extensionId, origin, now); (r.0, AuthOutput(r.1))
    case Revoke(id, _) => (s.(sessions := WithoutSession(s.sessions, id)), RevokeOutput(HasSession(s.sessions, id)))
    case CurrentCode(now, renewed) => var s' := Renewed(s, now, renewed); (s', CodeOutput(s'.pairing))
    case RotateCode(now, replacement) =>
      var s' := Renewed(s.(pairing := replacement), now, replacement); (s', CodeOutput(s'.pairing))
  }

  function Outputs(c: Config, s: State, ops: seq<Op>): seq<Output>
    decreases |ops|
  {
    if ops == [] then []
    else var r := Step(c, s, ops[0]); [r.1] + Outputs(c, r.0, ops[1..])
  }

  /** The clock never runs backwards, within a call or between calls, and starts at `from` or later. */
  ghost predicate ClockFrom(ops: seq<Op>, from: int) {
    ops == [] || (from <= Started(ops[0]) <= Finished(ops[0]) && ClockFrom(ops[1..], Finished(ops[0])))
  }

  // ---------------------------------------------------------------- authentication

  lemma LiveMembers(sessions: seq<Session>, t: int)
    ensures forall x :: x in Live(sessions, t) <==> x in sessions && x.expiresAt > t
  {
    FilterMembers(NotExpired(t), sessions);
  }

  /** A session that this token opens for this extension at `now`. */
  predicate Opens(c: Config, x: Session, token: string, extensionId: string, origin: string, now: int) {
    x.tokenHash == c.hash(token) && x.extensionId == extensionId && x.origin == origin && now < x.expiresAt
  }

  lemma {:induction false} FoundIsExact(sessions: seq<Session>, extensionId: string, origin: string, hash: string)
    ensures var found := FindSession(sessions, extensionId, origin, hash);
            match found
            case Some(answer) =>
              exists k | 0 <= k < |sessions| ::
                IsFirst(sessions, k, extensionId, origin, hash) && answer == (sessions[k].id, sessions[k].expiresAt)
            case None => forall x | x in sessions :: !(x.extensionId == extensionId && x.origin == origin && x.tokenHash == hash)
  {
    if sessions != [] {
      FoundIsExact(sessions[1..], extensionId, origin, hash);
      var found := FindSession(sessions, extensionId, origin, hash);
      if sessions[0].extensionId == extensionId && sessions[0].origin == origin && sessions[0].tokenHash == hash {
        assert IsFirst(sessions, 0, extensionId, origin, hash);
      } else if found.Some? {
        var k :| 0 <= k < |sessions[1..]| && IsFirst(sessions[1..], k, extensionId, origin, hash)
          && found.value == (sessions[1..][k].id, sessions[1..][k].expiresAt);
        assert IsFirst(sessions, k + 1, extensionId, origin, hash) by {
          assert forall j | 0 < j <= k :: sessions[j] == sessions[1..][j - 1];
        }
      }
    }
  }

  predicate IsFirst(sessions: seq<Session>, k: nat, extensionId: string, origin: string, hash: string)
    requires k < |sessions|
  {
    && sessions[k].extensionId == extensionId && sessions[k].origin == origin && sessions[k].tokenHash == hash
    && forall j | 0 <= j < k :: !(sessions[j].extensionId == extensionId && sessions[j].origin == origin && sessions[j].tokenHash == hash)
  }

  /** A call with a token is answered with a session on file that the token opens, and with nothing when there is none. */
  lemma AuthenticationIsExact(c: Config, s: State, token: string, extensionId: string, origin: string, now: int)
    requires CheckOrigin(extensionId, origin) == None
    ensures var found := AuthStep(c, s, token, extensionId, origin, now).1;
            && found.Ok?
            && (found.value.Some? <==> token != "" && exists x | x in s.sessions :: Opens(c, x, token, extensionId, origin, now))
            && (found.value.Some? ==> exists x | x in s.sessions ::
                  Opens(c, x, token, extensionId, origin, now) && found.value.value == (x.id, x.expiresAt))
  {
    hide CheckOrigin;
    if token != "" {
      LiveMembers(s.sessions, now);
      var live := Live(s.sessions, now);
      FoundIsExact(live, extensionId, origin, c.hash(token));
      hide Live, FindSession;
      var found := FindSession(live, extensionId, origin, c.hash(token));
      if found.Some? {
        var k :| 0 <= k < |live| && IsFirst(live, k, extensionId, origin, c.hash(token)) && found.value == (live[k].id, live[k].expiresAt);
        assert live[k] in live && Opens(c, live[k], token, extensionId, origin, now);
      }
    }
  }

  // ---------------------------------------------------------------- the manager

  class PairingManager {
    const config: Config
    var pairing: Code
    var sessions: seq<Session>
    var attempts: map<string, Attempt>

    ghost function View(): State
      reads this
    {
      State(pairing, sessions, attempts)
    }

    constructor (config: Config, first: Code)
      ensures this.config == config && View() == State(first, [], map[])
    {
      this.config := config;
      pairing, sessions, attempts := first, [], map[];
    }

    method CurrentCode(now: int, renewed: Code) returns (code: Code)
      modifies this`pairing
      ensures (View(), CodeOutput(code)) == Step(config, old(View()), Op.CurrentCode(now, renewed))
    {
      if now >= pairing.expiresAt {
        pairing := renewed;
      }
      code := pairing;
    }

    method RotateCode(now: int, replacement: Code) returns (code: Code)
      modifies this`pairing
      ensures (View(), CodeOutput(code)) == Step(config, old(View()), Op.RotateCode(now, replacement))
    {
      pairing := replacement;
      code := CurrentCode(now, replacement);
    }

    method RecordPairingFailure(origin: string, now: int)
      modifies this`attempts
      ensures attempts == old(attempts)[origin := AfterFailure(Lookup(old(attempts), origin), now)]
    {
      var within := origin in attempts && now - attempts[origin].windowStartedAt < WINDOW_MS;
      var count := if within then attempts[origin].count + 1 else 1;
      var started := if within then attempts[origin].windowStartedAt else now;
      attempts := attempts[origin := Attempt(count, started, if count >= MAX_FAILURES then now + BLOCK_MS else 0)];
    }

    method CleanUp(now: int)
      modifies this`sessions, this`attempts
      ensures View() == Cleanup(old(View()), now)
    {
      var kept := [];
      for i := 0 to |sessions|
        invariant sessions == old(sessions) && attempts == old(attempts)
        invariant kept == Live(sessions[..i], now)
      {
        assert sessions[..i + 1][..i] == sessions[..i];
        if sessions[i].expiresAt > now {
          kept := kept + [sessions[i]];
        }
      }
      assert sessions[..|sessions|] == sessions;
      sessions := kept;
      var origins := attempts.Keys;
      while origins != {}
        invariant sessions == kept
        invariant origins <= attempts.Keys <= old(attempts).Keys
        invariant forall o | o in attempts :: attempts[o] == old(attempts)[o]
        invariant forall o | o in old(attempts) && o !in origins :: o in attempts <==> !Stale(old(attempts)[o], now)
        invariant forall o | o in origins :: o in attempts
        decreases |origins|
      {
        var o :| o in origins;
        origins := origins - {o};
        if Stale(attempts[o], now) {
          attempts := attempts - {o};
        }
      }
      assert attempts == Cleanup(old(View()), now).attempts;
    }

    method Pair(p: PairCall) returns (result: Result<Paired, PairError>)
      modifies this
      ensures (View(), result) == PairStep(config, old(View()), p)
    {
      var refused := CheckOrigin(p.extensionId, p.origin);
      if refused.Some? {
        return Err(refused.value);
      }
      var blocked := BlockedUntil(attempts, p.origin, p.checkedAt);
      if blocked.Some? {
        return Err(Blocked(blocked.value));
      }
      var current := CurrentCode(p.now, p.renewed);
      if p.code != current.code {
        RecordPairingFailure(p.origin, p.now);
        return Err(InvalidCode);
      }
      attempts := attempts - {p.origin};
      var session := Session(p.sessionId, p.extensionId, p.origin, config.hash(p.token), p.now, p.now + config.sessionTtl);
      sessions := sessions + [session];
      pairing := p.replacement;
      CleanUp(p.now);
      result := Ok(Paired(p.token, p.sessionId, session.expiresAt));
    }

    method Authenticate(token: string, extensionId: string, origin: string, now: int)
      returns (result: Result<Option<(string, int)>, PairError>)
      modifies this`sessions, this`attempts
      ensures (View(), result) == AuthStep(config, old(View()), token, extensionId, origin, now)
      ensures CheckOrigin(extensionId, origin) == None ==>
                && result.Ok?
                && (result.value.Some? <==>
                      token != "" && exists x | x in old(sessions) :: Opens(config, x, token, extensionId, origin, now))
                && (result.value.Some? ==> exists x | x in old(sessions) ::
                      Opens(config, x, token, extensionId, origin, now) && result.value.value == (x.id, x.expiresAt))
    {
      hide CheckOrigin, Opens;
      if CheckOrigin(extensionId, origin) == None {
        AuthenticationIsExact(config, View(), token, extensionId, origin, now);
      }
      if token == "" {
        return Ok(None);
      }
      var refused := CheckOrigin(extensionId, origin);
      if refused.Some? {
        return Err(refused.value);
      }
      CleanUp(now);
      var candidate := config.hash(token);
      ghost var all := sessions;
      for i := 0 to |sessions|
        invariant FindSession(all, extensionId, origin, candidate) == FindSession(sessions[i..], extensionId, origin, candidate)
      {
        var session := sessions[i];
        assert sessions[i..][1..] == sessions[i + 1..];
        if session.extensionId == extensionId && session.origin == origin && session.tokenHash == candidate {
          return Ok(Some((session.id, session.expiresAt)));
        }
      }
      result := Ok(None);
    }

    method Revoke(sessionId: string) returns (found: bool)
      modifies this`sessions
      ensures found == HasSession(old(sessions), sessionId)
      ensures sessions == WithoutSession(old(sessions), sessionId)
    {
      found := exists x | x in sessions :: x.id == sessionId;
      sessions := WithoutSession(sessions, sessionId);
    }
  }
}

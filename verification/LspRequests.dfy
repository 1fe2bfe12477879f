/** The pending-request table of the LSP client: what each event does to it, over every run. */
module LspRequests {
  import opened Wrappers

  datatype JsonId = Absent | NullId | NumberId(n: int) | StringId(s: string)

  /** A decoded JSON-RPC message; an absent method is the empty string. */
  datatype Message = Message(id: JsonId, methodName: string, error: Option<string>, result: string)

  datatype Reason = MissingLength | ProcessError | ProcessExit | Closed

  datatype Outcome = Resolved(result: string) | Rejected(error: string) | TimedOut | WriteFailed | Cancelled(reason: Reason)

  datatype Settlement = Settlement(id: nat, outcome: Outcome)

  /** Ids handed out, requests awaiting an answer in the order they were sent, armed timers, and the
      promises settled so far. */
  datatype Table = Table(nextId: nat, pending: seq<nat>, timers: set<nat>, settled: seq<Settlement>)

  datatype Event = Request(written: bool) | TimerFires(id: nat) | Receive(message: Message) | RejectAll(reason: Reason)

  const Empty := Table(0, [], {}, [])

  function Without(ids: seq<nat>, id: nat): seq<nat> {
    if ids == [] then [] else Without(ids[..|ids| - 1], id) + if ids[|ids| - 1] == id then [] else [ids[|ids| - 1]]
  }

  function CancelAll(ids: seq<nat>, reason: Reason): (cancelled: seq<Settlement>)
    ensures |cancelled| == |ids|
    ensures forall i | 0 <= i < |ids| :: cancelled[i] == Settlement(ids[i], Cancelled(reason))
  {
    seq(|ids|, i requires 0 <= i < |ids| => Settlement(ids[i], Cancelled(reason)))
  }

  function Settle(t: Table, id: nat, outcome: Outcome): Table {
    Table(t.nextId, Without(t.pending, id), t.timers - {id}, t.settled + [Settlement(id, outcome)])
  }

  /** A message is an answer when it names no method and its id is a pending number. */
  predicate Answers(t: Table, m: Message) {
    m.methodName == "" && m.id.NumberId? && m.id.n >= 0 && m.id.n in t.pending
  }

  function Step(t: Table, e: Event): Table {
    match e
    case Request(written) =>
      var id := t.nextId + 1;
      if written then Table(id, t.pending + [id], t.timers + {id}, t.settled)
      else Table(id, t.pending, t.timers, t.settled + [Settlement(id, WriteFailed)])
    case TimerFires(id) => if id in t.timers then Settle(t, id, TimedOut) else t
    case Receive(m) =>
      if !Answers(t, m) then t
      else Settle(t, m.id.n, if m.error.Some? then Rejected(m.error.value) else Resolved(m.result))
    case RejectAll(reason) =>
      Table(t.nextId, [], t.timers - (set id | id in t.pending), t.settled + CancelAll(t.pending, reason))
  }

  function Run(events: seq<Event>): Table {
    if events == [] then Empty else Step(Run(events[..|events| - 1]), events[|events| - 1])
  }

  // ---------------------------------------------------------------- exactly once

  ghost predicate Distinct(ids: seq<nat>) {
    forall i, j | 0 <= i < j < |ids| :: ids[i] != ids[j]
  }

  ghost predicate SettledOnce(settled: seq<Settlement>) {
    forall i, j | 0 <= i < j < |settled| :: settled[i].id != settled[j].id
  }

  ghost predicate IsSettled(t: Table, id: nat) {
    exists s :: s in t.settled && s.id == id
  }

  /** The table holds exactly the ids handed out and not yet settled, each with its timer armed, and no
      id is settled twice. */
  ghost predicate Exact(t: Table) {
    && Distinct(t.pending) && SettledOnce(t.settled)
    && (forall id: nat | IsSettled(t, id) :: 1 <= id <= t.nextId)
    && (forall id: nat :: id in t.pending <==> 1 <= id <= t.nextId && !IsSettled(t, id))
    && (forall id: nat :: id in t.timers <==> id in t.pending)
  }

  lemma {:induction false} WithoutRemoves(ids: seq<nat>, id: nat)
    ensures forall x :: x in Without(ids, id) <==> x in ids && x != id
    ensures Distinct(ids) ==> Distinct(Without(ids, id))
  {
    if ids != [] {
      var init, last := ids[..|ids| - 1], ids[|ids| - 1];
      WithoutRemoves(init, id);
      assert ids == init + [last];
      if Distinct(ids) {
        assert forall i | 0 <= i < |init| :: init[i] == ids[i] && init[i] != last;
        assert Distinct(init);
        var kept := Without(init, id);
        assert forall i | 0 <= i < |kept| :: kept[i] in kept && kept[i] in init;
        assert forall i | 0 <= i < |kept| :: kept[i] != last;
      }
    }
  }

  lemma SettleIsExact(t: Table, id: nat, outcome: Outcome)
    requires Exact(t) && id in t.pending
    ensures Exact(Settle(t, id, outcome))
  {
    WithoutRemoves(t.pending, id);
    AppendSettled(t, Settle(t, id, outcome), [Settlement(id, outcome)]);
  }

  lemma AppendSettled(t: Table, t': Table, more: seq<Settlement>)
    requires t'.settled == t.settled + more
    requires SettledOnce(t.settled) && SettledOnce(more) && forall s | s in more :: !IsSettled(t, s.id)
    ensures SettledOnce(t'.settled)
    ensures forall id :: IsSettled(t', id) <==> IsSettled(t, id) || exists s :: s in more && s.id == id
  {
    forall i, j | 0 <= i < j < |t'.settled| ensures t'.settled[i].id != t'.settled[j].id {
      if i < |t.settled| <= j {
        assert t'.settled[i] in t.settled && t'.settled[j] == more[j - |t.settled|] && t'.settled[j] in more;
      }
    }
    forall id | IsSettled(t', id) ensures IsSettled(t, id) || exists s :: s in more && s.id == id {
      var s :| s in t'.settled && s.id == id;
      assert s in t.settled || s in more;
    }
  }

  lemma RequestIsExact(t: Table, written: bool)
    requires Exact(t)
    ensures Exact(Step(t, Request(written)))
  {
    var t', id := Step(t, Request(written)), t.nextId + 1;
    if written {
      assert forall x :: IsSettled(t', x) <==> IsSettled(t, x);
    } else {
      AppendSettled(t, t', [Settlement(id, WriteFailed)]);
    }
  }

  lemma RejectAllIsExact(t: Table, reason: Reason)
    requires Exact(t)
    ensures Exact(Step(t, RejectAll(reason)))
  {
    var t', more := Step(t, RejectAll(reason)), CancelAll(t.pending, reason);
    forall s | s in more ensures !IsSettled(t, s.id) && s.id in t.pending {
      var i :| 0 <= i < |more| && more[i] == s;
      assert s.id == t.pending[i];
    }
    AppendSettled(t, t', more);
    forall id | id in t.pending ensures IsSettled(t', id) {
      var i :| 0 <= i < |t.pending| && t.pending[i] == id;
      assert more[i].id == id && more[i] in more;
    }
  }

  lemma StepIsExact(t: Table, e: Event)
    requires Exact(t)
    ensures Exact(Step(t, e))
  {
    hide Exact;
    match e
    case Request(written) => RequestIsExact(t, written);
    case TimerFires(id) =>
      if id in t.timers {
        TimersArePending(t, id);
        SettleIsExact(t, id, TimedOut);
      }
    case Receive(m) =>
      if Answers(t, m) {
        SettleIsExact(t, m.id.n, if m.error.Some? then Rejected(m.error.value) else Resolved(m.result));
      }
    case RejectAll(reason) => RejectAllIsExact(t, reason);
  }

  lemma TimersArePending(t: Table, id: nat)
    requires Exact(t) && id in t.timers
    ensures id in t.pending
  {
  }

  /** Over every run the table is exact: ids stay fresh and each request settles at most once. */
  lemma {:induction false} EveryRunIsExact(events: seq<Event>)
    ensures Exact(Run(events))
  {
    if events == [] {
      assert forall id :: !IsSettled(Empty, id);
    } else {
      EveryRunIsExact(events[..|events| - 1]);
      StepIsExact(Run(events[..|events| - 1]), events[|events| - 1]);
    }
  }

  // ---------------------------------------------------------------- why a request settled

  /** The only events that may settle a request, and with which outcome. */
  ghost predicate Explains(before: Table, e: Event, s: Settlement) {
    match s.outcome
    case Resolved(result) =>
      e.Receive? && e.message.methodName == "" && e.message.id == NumberId(s.id) && e.message.error.None?
      && e.message.result == result && s.id in before.pending
    case Rejected(error) =>
      e.Receive? && e.message.methodName == "" && e.message.id == NumberId(s.id) && e.message.error == Some(error)
      && s.id in before.pending
    case TimedOut => e == TimerFires(s.id) && s.id in before.timers
    case WriteFailed => e == Request(false) && s.id == before.nextId + 1
    case Cancelled(reason) => e == RejectAll(reason) && s.id in before.pending
  }

  /** One event only adds settlements, each explained by that event. */
  lemma StepExplains(t: Table, e: Event, k: nat)
    requires |t.settled| <= k < |Step(t, e).settled|
    ensures Explains(t, e, Step(t, e).settled[k])
  {
    if e.RejectAll? {
      assert Step(t, e).settled[k] == CancelAll(t.pending, e.reason)[k - |t.settled|];
    }
  }

  lemma StepKeepsSettled(t: Table, e: Event)
    ensures t.settled <= Step(t, e).settled && t.nextId <= Step(t, e).nextId
  {
  }

  /** Every settlement of every run is explained by the event that made it. */
  lemma {:induction false} EverySettlementIsExplained(events: seq<Event>, k: nat) returns (i: nat)
    requires k < |Run(events).settled|
    ensures i < |events|
    ensures |Run(events[..i]).settled| <= k < |Run(events[..i + 1]).settled|
    ensures Explains(Run(events[..i]), events[i], Run(events).settled[k])
  {
    hide Step, Explains;
    var init, last := events[..|events| - 1], events[|events| - 1];
    StepKeepsSettled(Run(init), last);
    if k < |Run(init).settled| {
      i := EverySettlementIsExplained(init, k);
      assert init[..i] == events[..i] && init[..i + 1] == events[..i + 1];
    } else {
      i := |init|;
      assert events[..i + 1] == events;
      StepExplains(Run(init), last, k);
    }
  }

  /** Late, duplicate and foreign answers change nothing. */
  lemma LateAnswersChangeNothing(events: seq<Event>, m: Message)
    requires m.id.NumberId? ==> m.id.n < 1 || m.id.n > Run(events).nextId || IsSettled(Run(events), m.id.n)
    ensures Run(events + [Receive(m)]) == Run(events)
  {
    EveryRunIsExact(events);
    assert (events + [Receive(m)])[..|events|] == events;
  }

  lemma AnsweringTwiceIsAnsweringOnce(events: seq<Event>, m: Message)
    ensures Run(events + [Receive(m)] + [Receive(m)]) == Run(events + [Receive(m)])
  {
    var once := events + [Receive(m)];
    assert once[..|events|] == events && (once + [Receive(m)])[..|once|] == once;
    if Answers(Run(events), m) {
      WithoutRemoves(Run(events).pending, m.id.n);
    }
  }

  /** Closing settles everything: afterwards each id ever handed out has exactly one settlement. */
  lemma ClosingSettlesEverything(events: seq<Event>, reason: Reason, id: nat)
    requires 1 <= id <= Run(events + [RejectAll(reason)]).nextId
    ensures Run(events + [RejectAll(reason)]).pending == []
    ensures IsSettled(Run(events + [RejectAll(reason)]), id) && SettledOnce(Run(events + [RejectAll(reason)]).settled)
  {
    var all := events + [RejectAll(reason)];
    assert all[..|events|] == events;
    EveryRunIsExact(all);
    assert id !in Run(all).pending;
  }

  // ---------------------------------------------------------------- what settles a request

  /** A request that was made and has no outcome yet. */
  ghost predicate IsOpen(t: Table, id: int) {
    1 <= id <= t.nextId && !IsSettled(t, id)
  }

  /** From `t` to `t'` the request `id`, and no other, gets an outcome; it no longer waits, nor does its timer. */
  ghost predicate SettlesOne(t: Table, t': Table, id: nat, outcome: Outcome) {
    && t'.settled == t.settled + [Settlement(id, outcome)]
    && id !in t'.pending && id !in t'.timers && t'.nextId == t.nextId
    && forall k: nat | k != id :: (k in t'.pending <==> k in t.pending) && (k in t'.timers <==> k in t.timers)
  }

  lemma RunOneMore(events: seq<Event>, e: Event)
    ensures Run(events + [e]) == Step(Run(events), e)
  {
    assert (events + [e])[..|events|] == events;
  }

  lemma OpenIsPending(t: Table, id: nat)
    requires Exact(t)
    ensures IsOpen(t, id) <==> id in t.pending
    ensures IsOpen(t, id) <==> id in t.timers
  {
  }

  lemma SettleSettlesOne(t: Table, id: nat, outcome: Outcome)
    ensures SettlesOne(t, Settle(t, id, outcome), id, outcome)
  {
    WithoutRemoves(t.pending, id);
  }

  /** The answer to an open request gives it its result, or its error when there is one. */
  lemma AnswerSettlesItsRequest(events: seq<Event>, m: Message, id: nat)
    requires m.methodName == "" && m.id == NumberId(id) && IsOpen(Run(events), id)
    ensures SettlesOne(Run(events), Run(events + [Receive(m)]), id,
                       if m.error.Some? then Rejected(m.error.value) else Resolved(m.result))
  {
    hide IsOpen, SettlesOne, Exact;
    EveryRunIsExact(events);
    OpenIsPending(Run(events), id);
    RunOneMore(events, Receive(m));
    SettleSettlesOne(Run(events), id, if m.error.Some? then Rejected(m.error.value) else Resolved(m.result));
  }

  /** A timer that fires while its request is open times it out, and nothing else does. */
  lemma TimerSettlesItsRequest(events: seq<Event>, id: nat)
    ensures if IsOpen(Run(events), id) then SettlesOne(Run(events), Run(events + [TimerFires(id)]), id, TimedOut)
            else Run(events + [TimerFires(id)]) == Run(events)
  {
    hide IsOpen, SettlesOne, Exact;
    EveryRunIsExact(events);
    OpenIsPending(Run(events), id);
    RunOneMore(events, TimerFires(id));
    SettleSettlesOne(Run(events), id, TimedOut);
  }

  /** A request that is written is open until something settles it; one that is not fails at once. */
  lemma RequestIsOpenWhenWritten(events: seq<Event>, written: bool)
    ensures var t, t', id := Run(events), Run(events + [Request(written)]), Run(events).nextId + 1;
            && t'.nextId == id && !IsSettled(t, id)
            && (written ==> t'.settled == t.settled && IsOpen(t', id) && id in t'.pending && id in t'.timers)
            && (!written ==> t'.settled == t.settled + [Settlement(id, WriteFailed)] && id !in t'.pending && id !in t'.timers)
            && forall k: nat | k != id :: (k in t'.pending <==> k in t.pending) && (k in t'.timers <==> k in t.timers)
  {
    EveryRunIsExact(events);
    RunOneMore(events, Request(written));
  }

  /** Notifications and requests of the server settle nothing. */
  lemma ServerMessagesSettleNothing(events: seq<Event>, m: Message)
    requires m.methodName != "" || !m.id.NumberId?
    ensures Run(events + [Receive(m)]) == Run(events)
  {
    RunOneMore(events, Receive(m));
  }

  /** Rejecting all cancels every open request for that reason, and keeps what was settled. */
  lemma RejectAllCancelsTheOpen(events: seq<Event>, reason: Reason, id: nat)
    ensures var t, t' := Run(events), Run(events + [RejectAll(reason)]);
            && t.settled <= t'.settled && t'.pending == [] && t'.timers == {}
            && (IsOpen(t, id) <==> Settlement(id, Cancelled(reason)) in t'.settled[|t.settled|..])
            && forall s | s in t'.settled[|t.settled|..] :: s.outcome == Cancelled(reason)
  {
    EveryRunIsExact(events);
    RunOneMore(events, RejectAll(reason));
    var t, t' := Run(events), Run(events + [RejectAll(reason)]);
    var more := CancelAll(t.pending, reason);
    assert t'.settled[|t.settled|..] == more;
    hide IsOpen, Exact, CancelAll;
    OpenIsPending(t, id);
    TimersAreGone(t);
    if id in t.pending {
      var i :| 0 <= i < |t.pending| && t.pending[i] == id;
      assert more[i] == Settlement(id, Cancelled(reason));
    }
    if Settlement(id, Cancelled(reason)) in more {
      var i :| 0 <= i < |more| && more[i] == Settlement(id, Cancelled(reason));
      assert t.pending[i] == id;
    }
  }

  lemma TimersAreGone(t: Table)
    requires Exact(t)
    ensures t.timers - (set id | id in t.pending) == {}
  {
  }
}

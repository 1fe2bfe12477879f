/** The stdio LSP client: its receive buffer and its pending requests, updated in place. */
module LspClient {
  import opened Wrappers
  import opened LspFraming
  import opened LspRequests

  /** What a run of decoded bodies does to the table; a body that does not parse is skipped. */
  function ReceiveAll(parse: Bytes -> Option<Message>, t: Table, bodies: seq<Bytes>): Table {
    if bodies == [] then t
    else
      var before := ReceiveAll(parse, t, bodies[..|bodies| - 1]);
      match parse(bodies[|bodies| - 1])
      case None => before
      case Some(m) => Step(before, Receive(m))
  }

  lemma ReceiveAllAppend(parse: Bytes -> Option<Message>, t: Table, bodies: seq<Bytes>, body: Bytes)
    ensures ReceiveAll(parse, t, bodies + [body])
         == var before := ReceiveAll(parse, t, bodies);
            match parse(body) case None => before case Some(m) => Step(before, Receive(m))
    ensures ReceiveAll(parse, t, []) == t
  {
    assert (bodies + [body])[..|bodies|] == bodies;
  }

  class StdioLspClient {
    const parse: Bytes -> Option<Message>
    var buffer: Bytes
    var nextId: nat
    var pending: seq<nat>
    var timers: set<nat>
    var settled: seq<Settlement>

    ghost function State(): Table
      reads this
    {
      Table(nextId, pending, timers, settled)
    }

    constructor (parse: Bytes -> Option<Message>)
      ensures this.parse == parse && buffer == [] && State() == Empty
    {
      this.parse := parse;
      buffer, nextId, pending, timers, settled := [], 0, [], {}, [];
    }

    /** Sends a request; `written` is false when writing to the child's standard input throws. */
    method SendRequest(written: bool) returns (id: nat)
      modifies this`nextId, this`pending, this`timers, this`settled
      ensures id == old(nextId) + 1 && State() == Step(old(State()), Request(written))
    {
      nextId := nextId + 1;
      id := nextId;
      if written {
        timers := timers + {id};
        pending := pending + [id];
      } else {
        settled := settled + [Settlement(id, WriteFailed)];
      }
    }

    method OnTimeout(id: nat)
      modifies this`pending, this`timers, this`settled
      ensures State() == Step(old(State()), TimerFires(id))
    {
      if id in timers {
        timers := timers - {id};
        pending := Without(pending, id);
        settled := settled + [Settlement(id, TimedOut)];
      }
    }

    method HandleMessage(m: Message)
      modifies this`pending, this`timers, this`settled
      ensures State() == Step(old(State()), Receive(m))
    {
      if m.methodName != "" || m.id.Absent? || m.id.NullId? || m.id.StringId? {
        return;
      }
      if m.id.n < 0 || m.id.n !in pending {
        return;
      }
      pending := Without(pending, m.id.n);
      timers := timers - {m.id.n as nat};
      match m.error {
        case Some(error) => settled := settled + [Settlement(m.id.n, Rejected(error))];
        case None => settled := settled + [Settlement(m.id.n, Resolved(m.result))];
      }
    }

    method RejectPending(reason: Reason)
      modifies this`pending, this`timers, this`settled
      ensures State() == Step(old(State()), RejectAll(reason))
    {
      ghost var cancelled := CancelAll(pending, reason);
      for i := 0 to |pending|
        invariant pending == old(pending) && nextId == old(nextId)
        invariant timers == old(timers) - set id | id in pending[..i]
        invariant settled == old(settled) + cancelled[..i]
      {
        timers := timers - {pending[i]};
        settled := settled + [Settlement(pending[i], Cancelled(reason))];
        assert pending[..i + 1] == pending[..i] + [pending[i]];
      }
      assert pending[..|pending|] == pending;
      pending := [];
    }

    /** One turn of the decode loop: looks for a frame and takes it off the front of the buffer. */
    method ReadFrame() returns (turn: Turn)
      modifies this`buffer
      ensures turn == NextTurn(old(buffer))
      ensures buffer == match turn case Wait => old(buffer) case GiveUp => [] case Take(_, rest) => rest
    {
      var headerEnd := Terminator(buffer, 0);
      if headerEnd == |buffer| {
        return Wait;
      }
      var lengthMatch := ContentLength(buffer[..headerEnd]);
      if lengthMatch.None? {
        buffer := [];
        return GiveUp;
      }
      var bodyStart, bodyEnd := headerEnd + 4, headerEnd + 4 + lengthMatch.value;
      if |buffer| < bodyEnd {
        return Wait;
      }
      turn := Take(buffer[bodyStart..bodyEnd], buffer[bodyEnd..]);
      buffer := buffer[bodyEnd..];
    }

    /** The decode loop: deliver every complete body, keep the incomplete rest. */
    method OnData(chunk: Bytes)
      modifies this
      ensures var d := Drain(old(buffer) + chunk);
              var received := ReceiveAll(parse, old(State()), d.bodies);
              && buffer == d.rest
              && State() == if d.rejected then Step(received, RejectAll(MissingLength)) else received
    {
      hide NextTurn, Step, ReceiveAll;
      ReceiveAllAppend(parse, State(), [], []);
      buffer := buffer + chunk;
      ghost var whole := Drain(buffer);
      ghost var done: seq<Bytes> := [];
      while true
        invariant State() == ReceiveAll(parse, old(State()), done)
        invariant whole == Drained(done + Drain(buffer).bodies, Drain(buffer).rest, Drain(buffer).rejected)
        decreases |buffer|
      {
        ghost var rest := buffer;
        var turn := ReadFrame();
        match turn {
          case Wait =>
            assert done + [] == done;
            return;
          case GiveUp =>
            assert done + [] == done;
            RejectPending(MissingLength);
            return;
          case Take(body, after) =>
            assert Drain(rest).bodies == [body] + Drain(after).bodies;
            assert done + ([body] + Drain(after).bodies) == (done + [body]) + Drain(after).bodies;
            ReceiveAllAppend(parse, old(State()), done, body);
            done := done + [body];
            var message := parse(body);
            if message.Some? {
              HandleMessage(message.value);
            }
        }
      }
    }
  }
}

/** Nested, concurrent executions and the event log they leave: the log determines the call tree. */
module CallTree {
  import opened Wrappers

  /** What one execution appends to the log. Span ids come from a source of fresh ids. */
  datatype Event =
    | Started(span: nat, parent: Option<nat>, correlation: nat, name: string)
    | Ended(span: nat, parent: Option<nat>, correlation: nat, success: bool)

  /** `Ending` is between appending the terminal event and settling; `EndingAgain` follows an observer that threw. */
  datatype Status = Running | Ending(returned: bool) | EndingAgain | Done

  /** An execution as it really is. `lateThrow` says that an observer threw after the action had returned. */
  datatype Execution = Execution(parent: Option<nat>, correlation: nat, name: string, status: Status,
                                 outcome: Option<bool>, lateThrow: bool)

  datatype Pipeline = Pipeline(executions: seq<Execution>, log: seq<Event>)

  const IDLE := Pipeline([], [])

  datatype Op =
    | Start(parent: Option<nat>, name: string)              // execute() in the context of `parent`
    | Finish(span: nat, returned: bool, success: bool)      // the action is over
    | Settle(span: nat, throws: bool)                       // the writes are done; observers are notified

  ghost predicate ChildrenDone(p: Pipeline, span: nat) {
    forall k | 0 <= k < |p.executions| && p.executions[k].parent == Some(span) :: p.executions[k].status.Done?
  }

  /** Nested executions begin while their parent runs, and an action awaits the executions it began. */
  ghost predicate Enabled(p: Pipeline, op: Op) {
    match op
    case Start(parent, _) => parent.Some? ==> parent.value < |p.executions| && p.executions[parent.value].status.Running?
    case Finish(k, _, _) => k < |p.executions| && p.executions[k].status.Running? && ChildrenDone(p, k)
    case Settle(k, _) => k < |p.executions| && (p.executions[k].status.Ending? || p.executions[k].status.EndingAgain?)
  }

  /** The correlation of the context, or a fresh one. */
  function CorrelationIn(p: Pipeline, parent: Option<nat>): nat {
    if parent.Some? && parent.value < |p.executions| then p.executions[parent.value].correlation else |p.executions|
  }

  function Begun(p: Pipeline, parent: Option<nat>, name: string): Pipeline {
    var span, correlation := |p.executions|, CorrelationIn(p, parent);
    Pipeline(p.executions + [Execution(parent, correlation, name, Running, None, false)],
             p.log + [Started(span, parent, correlation, name)])
  }

  function EndEvent(p: Pipeline, k: nat, success: bool): Event
    requires k < |p.executions|
  {
    Ended(k, p.executions[k].parent, p.executions[k].correlation, success)
  }

  function Finished(p: Pipeline, k: nat, returned: bool, success: bool): Pipeline
    requires k < |p.executions|
  {
    var ok := returned && success;
    Pipeline(p.executions[k := p.executions[k].(status := Ending(returned), outcome := Some(ok))],
             p.log + [EndEvent(p, k, ok)])
  }

  /** An observer that throws after the action returned sends the execution through its failure path. */
  function Settled(p: Pipeline, k: nat, throws: bool): Pipeline
    requires k < |p.executions|
  {
    if throws && p.executions[k].status == Ending(true) then
      Pipeline(p.executions[k := p.executions[k].(status := EndingAgain, lateThrow := true)],
               p.log + [EndEvent(p, k, false)])
    else p.(executions := p.executions[k := p.executions[k].(status := Done)])
  }

  ghost function Step(p: Pipeline, op: Op): Pipeline
    requires Enabled(p, op)
  {
    match op
    case Start(parent, name) => Begun(p, parent, name)
    case Finish(k, returned, success) => Finished(p, k, returned, success)
    case Settle(k, throws) => Settled(p, k, throws)
  }

  /** A run; what is not enabled does not happen. */
  ghost function Run(ops: seq<Op>): Pipeline {
    if ops == [] then IDLE
    else
      var before := Run(ops[..|ops| - 1]);
      if Enabled(before, ops[|ops| - 1]) then Step(before, ops[|ops| - 1]) else before
  }

  // ---------------------------------------------------------------- the class

  class ActionExecutionPipeline {
    var executions: seq<Execution>
    /** The event store, to which appends are queued in order. */
    var log: seq<Event>

    ghost function Now(): Pipeline
      reads this
    {
      Pipeline(executions, log)
    }

    constructor ()
      ensures Now() == IDLE
    {
      executions, log := [], [];
    }

    /** `execute` up to calling the action. */
    method Begin(parent: Option<nat>, name: string) returns (span: nat)
      requires Enabled(Now(), Start(parent, name))
      modifies this
      ensures Now() == Step(old(Now()), Start(parent, name)) && span == old(|executions|)
    {
      span := |executions|;
      var correlation := span;
      if parent.Some? {
        correlation := executions[parent.value].correlation;
      }
      log := log + [Started(span, parent, correlation, name)];
      executions := executions + [Execution(parent, correlation, name, Running, None, false)];
    }

    /** `execute` when the action has returned or thrown: the terminal event. */
    method Complete(span: nat, returned: bool, success: bool)
      requires Enabled(Now(), Finish(span, returned, success))
      modifies this
      ensures Now() == Step(old(Now()), Finish(span, returned, success))
    {
      AppendEnd(span, returned && success);
      executions := executions[span := executions[span].(status := Ending(returned), outcome := Some(returned && success))];
    }

    method AppendEnd(span: nat, success: bool)
      requires span < |executions|
      modifies this`log
      ensures log == old(log) + [EndEvent(old(Now()), span, success)]
    {
      log := log + [Ended(span, executions[span].parent, executions[span].correlation, success)];
    }

    /** `execute` after its writes: observers are told in turn until one throws. */
    method Conclude(span: nat, observers: seq<bool>) returns (told: nat)
      requires Enabled(Now(), Settle(span, true in observers))
      modifies this
      ensures Now() == Step(old(Now()), Settle(span, true in observers))
      ensures told <= |observers| && true !in observers[..told]
      ensures if true in observers then told < |observers| && observers[told] else told == |observers|
    {
      var throws;
      told, throws := Notify(observers);
      if throws && executions[span].status == Ending(true) {
        AppendEnd(span, false);
        executions := executions[span := executions[span].(status := EndingAgain, lateThrow := true)];
      } else {
        executions := executions[span := executions[span].(status := Done)];
      }
    }

    /** Observers that throw at once are marked `true`; those behind the first of them hear nothing. */
    method Notify(observers: seq<bool>) returns (told: nat, throws: bool)
      ensures throws <==> true in observers
      ensures told <= |observers| && true !in observers[..told]
      ensures if throws then told < |observers| && observers[told] else told == |observers|
    {
      told := 0;
      while told < |observers|
        invariant told <= |observers| && true !in observers[..told]
      {
        if observers[told] {
          return told, true;
        }
        told := told + 1;
      }
      assert observers[..told] == observers;
      return told, false;
    }
  }

  // ---------------------------------------------------------------- the tree, and the tree read from the log

  datatype Tree = Node(name: string, outcome: Option<bool>, children: seq<Tree>)

  /** The execution `k` and what it called, in the order of the calls. */
  function TreeOf(executions: seq<Execution>, k: nat): Tree
    requires k < |executions|
    decreases |executions| - k, 0
  {
    Node(executions[k].name, executions[k].outcome, CalledBy(executions, k, k + 1))
  }

  function CalledBy(executions: seq<Execution>, k: nat, from: nat): seq<Tree>
    requires k < from <= |executions|
    decreases |executions| - from, 1
  {
    if from == |executions| then []
    else if executions[from].parent == Some(k) then [TreeOf(executions, from)] + CalledBy(executions, k, from + 1)
    else CalledBy(executions, k, from + 1)
  }

  /** The first terminal event of a span decides its outcome. */
  function OutcomeIn(log: seq<Event>, span: nat): Option<bool> {
    if log == [] then None
    else if log[0].Ended? && log[0].span == span then Some(log[0].success)
    else OutcomeIn(log[1..], span)
  }

  /** The tree below the started event at `i`, by span and parent ids alone. */
  function Rebuilt(log: seq<Event>, i: nat): Tree
    requires i < |log| && log[i].Started?
    decreases |log| - i, 0
  {
    Node(log[i].name, OutcomeIn(log, log[i].span), RebuiltChildren(log, log[i].span, i + 1))
  }

  function RebuiltChildren(log: seq<Event>, span: nat, from: nat): seq<Tree>
    requires from <= |log|
    decreases |log| - from, 1
  {
    if from == |log| then []
    else if log[from].Started? && log[from].parent == Some(span) then [Rebuilt(log, from)] + RebuiltChildren(log, span, from + 1)
    else RebuiltChildren(log, span, from + 1)
  }

  function Starts(log: seq<Event>): nat {
    if log == [] then 0 else Starts(log[..|log| - 1]) + if log[|log| - 1].Started? then 1 else 0
  }

  function Ends(log: seq<Event>, span: nat): nat {
    if log == [] then 0
    else
      var last := log[|log| - 1];
      Ends(log[..|log| - 1], span) + if last.Ended? && last.span == span then 1 else 0
  }

  // ---------------------------------------------------------------- invariants

  /** The started events are the executions, in order. */
  ghost predicate StartsAreExecutions(p: Pipeline) {
    && Starts(p.log) == |p.executions|
    && forall i | 0 <= i < |p.log| && p.log[i].Started? :: IsStartOf(p, i, Starts(p.log[..i]))
  }

  predicate IsStartOf(p: Pipeline, i: nat, k: nat)
    requires i < |p.log|
  {
    && k < |p.executions|
    && p.log[i] == Started(k, p.executions[k].parent, p.executions[k].correlation, p.executions[k].name)
  }

  /** How many terminal events an execution has by now. */
  function EndsOwed(e: Execution): nat {
    if e.status.Running? then 0 else if e.lateThrow then 2 else 1
  }

  /** Each execution has the terminal events its status calls for, and the first of them tells its outcome. */
  ghost predicate EndsAreRight(p: Pipeline) {
    && (forall k | 0 <= k < |p.executions| :: Ends(p.log, k) == EndsOwed(p.executions[k]))
    && (forall k | 0 <= k < |p.executions| :: OutcomeIn(p.log, k) == p.executions[k].outcome)
    && (forall i | 0 <= i < |p.log| && p.log[i].Ended? ::
          && p.log[i].span < |p.executions| && p.log[i].parent == p.executions[p.log[i].span].parent
          && p.log[i].correlation == p.executions[p.log[i].span].correlation)
    && (forall k | 0 <= k < |p.executions| :: p.executions[k].outcome.None? <==> p.executions[k].status.Running?)
    && (forall k | 0 <= k < |p.executions| :: p.executions[k].lateThrow ==>
          p.executions[k].status.EndingAgain? || p.executions[k].status.Done?)
  }

  /** Parents come first, share their correlation, and run as long as a child is not done. */
  ghost predicate FamilyHolds(p: Pipeline) {
    forall k | 0 <= k < |p.executions| && p.executions[k].parent.Some? ::
      var parent := p.executions[k].parent.value;
      && parent < k
      && p.executions[k].correlation == p.executions[parent].correlation
      && (!p.executions[k].status.Done? ==> p.executions[parent].status.Running?)
  }

  ghost predicate RootsAreFresh(p: Pipeline) {
    forall k | 0 <= k < |p.executions| && p.executions[k].parent.None? :: p.executions[k].correlation == k
  }

  /** After a terminal event of a span, no event of a child of the span comes. */
  ghost predicate Nested(log: seq<Event>) {
    forall i, j | 0 <= i < j < |log| && log[i].Ended? :: log[j].parent != Some(log[i].span)
  }

  /** A terminal event follows the started event of its span. */
  ghost predicate EndsFollowStarts(log: seq<Event>) {
    forall i | 0 <= i < |log| && log[i].Ended? :: log[i].span < Starts(log[..i])
  }

  ghost predicate Inv(p: Pipeline) {
    && StartsAreExecutions(p) && EndsAreRight(p) && FamilyHolds(p) && RootsAreFresh(p)
    && Nested(p.log) && EndsFollowStarts(p.log)
  }

  lemma StartsAppend(log: seq<Event>, e: Event)
    ensures Starts(log + [e]) == Starts(log) + if e.Started? then 1 else 0
    ensures forall i | 0 <= i < |log| :: (log + [e])[..i] == log[..i]
    ensures (log + [e])[..|log|] == log
  {
  }

  lemma {:induction false} OutcomeAppend(log: seq<Event>, e: Event, span: nat)
    ensures OutcomeIn(log + [e], span)
            == if OutcomeIn(log, span).Some? then OutcomeIn(log, span)
               else if e.Ended? && e.span == span then Some(e.success) else None
  {
    if log != [] {
      assert (log + [e])[1..] == log[1..] + [e];
      OutcomeAppend(log[1..], e, span);
    } else {
      assert OutcomeIn([], span) == None;
    }
  }

  lemma {:induction false} NoEndsNoEvents(log: seq<Event>, span: nat)
    requires Ends(log, span) == 0
    ensures forall i | 0 <= i < |log| && log[i].Ended? :: log[i].span != span
  {
    if log != [] {
      NoEndsNoEvents(log[..|log| - 1], span);
    }
  }

  /** Appending an event of `k` keeps the log nested while the parent of `k` runs. */
  lemma AppendKeepsNested(p: Pipeline, e: Event)
    requires EndsAreRight(p) && Nested(p.log)
    requires e.parent.Some? ==> e.parent.value < |p.executions| && p.executions[e.parent.value].status.Running?
    ensures Nested(p.log + [e])
  {
    if e.parent.Some? {
      assert Ends(p.log, e.parent.value) == EndsOwed(p.executions[e.parent.value]);
      NoEndsNoEvents(p.log, e.parent.value);
    }
  }

  lemma BegunKeepsInv(p: Pipeline, parent: Option<nat>, name: string)
    requires Inv(p) && Enabled(p, Start(parent, name))
    ensures Inv(Begun(p, parent, name))
  {
    hide StartsAreExecutions, EndsAreRight, Nested, EndsFollowStarts, FamilyHolds, RootsAreFresh, Starts, CorrelationIn;
    var q := Begun(p, parent, name);
    var e := q.log[|p.log|];
    assert q.log == p.log + [e];
    BegunKeepsStarts(p, parent, name);
    AppendKeepsNested(p, e);
    BegunKeepsEnds(p, parent, name);
    BegunKeepsFamily(p, parent, name);
    AppendKeepsOrder(p.log, e);
  }

  lemma BegunKeepsFamily(p: Pipeline, parent: Option<nat>, name: string)
    requires FamilyHolds(p) && RootsAreFresh(p) && Enabled(p, Start(parent, name))
    ensures FamilyHolds(Begun(p, parent, name)) && RootsAreFresh(Begun(p, parent, name))
  {
  }

  lemma AppendKeepsOrder(log: seq<Event>, e: Event)
    requires EndsFollowStarts(log) && (e.Ended? ==> e.span < Starts(log))
    ensures EndsFollowStarts(log + [e])
  {
    StartsAppend(log, e);
    hide Starts;
  }

  lemma BegunKeepsStarts(p: Pipeline, parent: Option<nat>, name: string)
    requires StartsAreExecutions(p) && Enabled(p, Start(parent, name))
    ensures StartsAreExecutions(Begun(p, parent, name))
  {
    var q := Begun(p, parent, name);
    StartsAppend(p.log, q.log[|p.log|]);
    hide Starts;
    forall i | 0 <= i < |q.log| && q.log[i].Started? ensures IsStartOf(q, i, Starts(q.log[..i])) {
      assert i < |p.log| ==> IsStartOf(p, i, Starts(p.log[..i]));
    }
  }

  lemma BegunKeepsEnds(p: Pipeline, parent: Option<nat>, name: string)
    requires EndsAreRight(p) && Enabled(p, Start(parent, name))
    ensures EndsAreRight(Begun(p, parent, name))
  {
    var q := Begun(p, parent, name);
    var e := q.log[|p.log|];
    var span := |p.executions|;
    UnknownSpan(p, span);
    hide Ends, OutcomeIn;
    forall k | 0 <= k < |q.executions|
      ensures Ends(q.log, k) == EndsOwed(q.executions[k]) && OutcomeIn(q.log, k) == q.executions[k].outcome
    {
      OutcomeAppend(p.log, e, k);
      assert k < span ==> Ends(p.log, k) == EndsOwed(p.executions[k]) && OutcomeIn(p.log, k) == p.executions[k].outcome;
    }
  }

  lemma UnknownSpan(p: Pipeline, span: nat)
    requires EndsAreRight(p) && span >= |p.executions|
    ensures Ends(p.log, span) == 0 && OutcomeIn(p.log, span) == None
  {
    NeverEnded(p.log, span);
  }

  lemma {:induction false} NeverEnded(log: seq<Event>, span: nat)
    requires forall i | 0 <= i < |log| && log[i].Ended? :: log[i].span != span
    ensures Ends(log, span) == 0 && OutcomeIn(log, span) == None
  {
    if log != [] {
      NeverEnded(log[..|log| - 1], span);
      OutcomeAppend(log[..|log| - 1], log[|log| - 1], span);
      assert log == log[..|log| - 1] + [log[|log| - 1]];
    }
  }

  /** The record of `k` changes without changing who called it, in what context, under what name. */
  predicate SameCall(e: Execution, f: Execution) {
    e.parent == f.parent && e.correlation == f.correlation && e.name == f.name
  }

  /** A terminal event of `k` is appended and its record becomes `e`. */
  function Appended(p: Pipeline, k: nat, e: Execution, success: bool): Pipeline
    requires k < |p.executions|
  {
    Pipeline(p.executions[k := e], p.log + [EndEvent(p, k, success)])
  }

  lemma EndKeepsStarts(p: Pipeline, k: nat, e: Execution, success: bool)
    requires StartsAreExecutions(p) && k < |p.executions| && SameCall(p.executions[k], e)
    ensures StartsAreExecutions(Appended(p, k, e, success))
  {
    var q := Appended(p, k, e, success);
    StartsAppend(p.log, q.log[|p.log|]);
    hide Starts;
    forall i | 0 <= i < |q.log| && q.log[i].Started? ensures IsStartOf(q, i, Starts(q.log[..i])) {
      assert IsStartOf(p, i, Starts(p.log[..i]));
    }
  }

  lemma EndKeepsEnds(p: Pipeline, k: nat, e: Execution, success: bool)
    requires EndsAreRight(p) && k < |p.executions| && SameCall(p.executions[k], e)
    requires EndsOwed(e) == EndsOwed(p.executions[k]) + 1 && !e.status.Running?
    requires e.outcome == if p.executions[k].outcome.Some? then p.executions[k].outcome else Some(success)
    requires e.lateThrow ==> e.status.EndingAgain? || e.status.Done?
    ensures EndsAreRight(Appended(p, k, e, success))
  {
    var q := Appended(p, k, e, success);
    var event := q.log[|p.log|];
    hide Ends, OutcomeIn;
    forall j | 0 <= j < |q.executions|
      ensures Ends(q.log, j) == EndsOwed(q.executions[j]) && OutcomeIn(q.log, j) == q.executions[j].outcome
    {
      OutcomeAppend(p.log, event, j);
    }
  }

  /** Only `k` changes status, and it runs neither more than before nor after its children are done. */
  lemma StatusKeepsFamily(p: Pipeline, k: nat, e: Execution, log: seq<Event>)
    requires FamilyHolds(p) && RootsAreFresh(p) && k < |p.executions| && SameCall(p.executions[k], e)
    requires !p.executions[k].status.Done? && (p.executions[k].status.Running? ==> ChildrenDone(p, k))
    ensures FamilyHolds(Pipeline(p.executions[k := e], log)) && RootsAreFresh(Pipeline(p.executions[k := e], log))
  {
  }

  lemma FinishedKeepsInv(p: Pipeline, k: nat, returned: bool, success: bool)
    requires Inv(p) && Enabled(p, Finish(k, returned, success))
    ensures Inv(Finished(p, k, returned, success))
  {
    var ok := returned && success;
    var e := p.executions[k].(status := Ending(returned), outcome := Some(ok));
    assert Finished(p, k, returned, success) == Appended(p, k, e, ok);
    EndKeepsAll(p, k, e, ok);
  }

  lemma EndKeepsAll(p: Pipeline, k: nat, e: Execution, success: bool)
    requires Inv(p) && k < |p.executions| && SameCall(p.executions[k], e)
    requires !p.executions[k].status.Done? && (p.executions[k].status.Running? ==> ChildrenDone(p, k))
    requires EndsOwed(e) == EndsOwed(p.executions[k]) + 1 && !e.status.Running?
    requires e.outcome == if p.executions[k].outcome.Some? then p.executions[k].outcome else Some(success)
    requires e.lateThrow ==> e.status.EndingAgain? || e.status.Done?
    ensures Inv(Appended(p, k, e, success))
  {
    EndKeepsStarts(p, k, e, success);
    EndKeepsEnds(p, k, e, success);
    StatusKeepsFamily(p, k, e, p.log + [EndEvent(p, k, success)]);
    AppendKeepsNested(p, EndEvent(p, k, success));
    AppendKeepsOrder(p.log, EndEvent(p, k, success));
    hide StartsAreExecutions, EndsAreRight, Nested, EndsFollowStarts, FamilyHolds, RootsAreFresh;
  }

  lemma SettledKeepsInv(p: Pipeline, k: nat, throws: bool)
    requires Inv(p) && Enabled(p, Settle(k, throws))
    ensures Inv(Settled(p, k, throws))
  {
    if throws && p.executions[k].status == Ending(true) {
      var e := p.executions[k].(status := EndingAgain, lateThrow := true);
      assert Settled(p, k, throws) == Appended(p, k, e, false);
      EndKeepsAll(p, k, e, false);
    } else {
      var e := p.executions[k].(status := Done);
      assert Settled(p, k, throws) == Pipeline(p.executions[k := e], p.log);
      StatusKeepsFamily(p, k, e, p.log);
      DoneKeepsEnds(p, k);
      hide StartsAreExecutions, EndsAreRight, Nested, EndsFollowStarts, FamilyHolds, RootsAreFresh;
    }
  }

  lemma DoneKeepsEnds(p: Pipeline, k: nat)
    requires EndsAreRight(p) && k < |p.executions| && !p.executions[k].status.Running?
    ensures EndsAreRight(Pipeline(p.executions[k := p.executions[k].(status := Done)], p.log))
  {
    hide Ends, OutcomeIn;
  }

  lemma {:induction false} RunKeepsInv(ops: seq<Op>)
    ensures Inv(Run(ops))
  {
    if ops != [] {
      var before, op := Run(ops[..|ops| - 1]), ops[|ops| - 1];
      RunKeepsInv(ops[..|ops| - 1]);
      hide Inv, Enabled;
      if Enabled(before, op) {
        match op
        case Start(parent, name) => BegunKeepsInv(before, parent, name);
        case Finish(k, returned, success) => FinishedKeepsInv(before, k, returned, success);
        case Settle(k, throws) => SettledKeepsInv(before, k, throws);
      }
    }
  }

  // ---------------------------------------------------------------- the log determines the tree

  lemma StartsStep(log: seq<Event>, i: nat)
    requires i < |log|
    ensures Starts(log[..i + 1]) == Starts(log[..i]) + if log[i].Started? then 1 else 0
  {
    assert log[..i + 1][..i] == log[..i];
  }

  lemma {:induction false} StartsGrow(log: seq<Event>, i: nat, j: nat)
    requires i <= j <= |log|
    ensures Starts(log[..i]) <= Starts(log[..j])
    decreases j
  {
    if i < j {
      StartsGrow(log, i, j - 1);
      StartsStep(log, j - 1);
    }
  }

  lemma {:induction false} RebuiltIsTree(p: Pipeline, i: nat)
    requires StartsAreExecutions(p) && EndsAreRight(p) && i < |p.log| && p.log[i].Started?
    ensures Starts(p.log[..i]) < |p.executions|
    ensures Rebuilt(p.log, i) == TreeOf(p.executions, Starts(p.log[..i]))
    decreases |p.log| - i, 0
  {
    hide Starts, OutcomeIn, RebuiltChildren, CalledBy, Ends, EndsOwed;
    var k := Starts(p.log[..i]);
    assert IsStartOf(p, i, k);
    assert OutcomeIn(p.log, k) == p.executions[k].outcome;
    StartsStep(p.log, i);
    RebuiltIsCalled(p, k, i + 1);
  }

  lemma {:induction false} RebuiltIsCalled(p: Pipeline, k: nat, from: nat)
    requires StartsAreExecutions(p) && EndsAreRight(p) && from <= |p.log| && k < Starts(p.log[..from])
    ensures Starts(p.log[..from]) <= |p.executions|
    ensures RebuiltChildren(p.log, k, from) == CalledBy(p.executions, k, Starts(p.log[..from]))
    decreases |p.log| - from, 1
  {
    hide Starts, OutcomeIn, EndsAreRight;
    if from == |p.log| {
      assert p.log[..from] == p.log;
    } else {
      StartsStep(p.log, from);
      RebuiltIsCalled(p, k, from + 1);
      if p.log[from].Started? {
        assert IsStartOf(p, from, Starts(p.log[..from]));
        RebuiltIsTree(p, from);
      }
    }
  }

  /** Whatever the interleaving, the tree read from the log below a started event, by span and parent ids alone, is the
      tree of calls below the execution that appended it, finished or not. */
  lemma LogDeterminesCallTree(ops: seq<Op>, i: nat)
    requires i < |Run(ops).log| && Run(ops).log[i].Started?
    ensures var p := Run(ops);
            && p.log[i].span < |p.executions|
            && Rebuilt(p.log, i) == TreeOf(p.executions, p.log[i].span)
  {
    hide Run, Rebuilt, TreeOf, Starts;
    var p := Run(ops);
    RunKeepsInv(ops);
    RebuiltIsTree(p, i);
    assert IsStartOf(p, i, Starts(p.log[..i]));
  }

  // ---------------------------------------------------------------- intervals and correlation

  lemma {:induction false} StartPosition(log: seq<Event>, k: nat) returns (i: nat)
    requires k < Starts(log)
    ensures i < |log| && log[i].Started? && Starts(log[..i]) == k
  {
    var n := |log| - 1;
    assert log[..n + 1] == log;
    if k < Starts(log[..n]) {
      i := StartPosition(log[..n], k);
      assert log[..n][..i] == log[..i];
    } else {
      i := n;
    }
  }

  /** An execution has one started event, and the rest of it and of its calls lies behind that event. */
  lemma OneStart(ops: seq<Op>, k: nat) returns (i: nat)
    requires k < |Run(ops).executions|
    ensures var log := Run(ops).log;
            && i < |log| && log[i].Started? && log[i].span == k
            && (forall j | 0 <= j < |log| && log[j].Started? && log[j].span == k :: j == i)
            && (forall j | 0 <= j < |log| && log[j].Ended? && log[j].span == k :: i < j)
            && (forall j | 0 <= j < |log| && log[j].parent == Some(k) :: i < j)
  {
    hide Run, Starts, EndsAreRight, RootsAreFresh, Nested, EndsFollowStarts;
    var p := Run(ops);
    RunKeepsInv(ops);
    i := StartPosition(p.log, k);
    assert IsStartOf(p, i, k);
    forall j | 0 <= j < |p.log| && j != i
      ensures !(p.log[j].Started? && p.log[j].span == k)
      ensures j < i ==> !(p.log[j].Ended? && p.log[j].span == k) && p.log[j].parent != Some(k)
    {
      NotTheStart(p, i, j);
    }
  }

  lemma OtherStart(p: Pipeline, i: nat, j: nat)
    requires StartsAreExecutions(p) && i < |p.log| && j < |p.log| && i != j && p.log[i].Started? && p.log[j].Started?
    ensures p.log[j].span != Starts(p.log[..i])
  {
    hide Starts;
    StartsStep(p.log, i);
    StartsStep(p.log, j);
    if j < i {
      StartsGrow(p.log, j + 1, i);
    } else {
      StartsGrow(p.log, i + 1, j);
    }
    assert IsStartOf(p, j, Starts(p.log[..j]));
  }

  lemma EarlierEvent(p: Pipeline, i: nat, j: nat)
    requires Inv(p) && j < i < |p.log|
    ensures var k := Starts(p.log[..i]);
            !(p.log[j].Ended? && p.log[j].span == k) && p.log[j].parent != Some(k)
  {
    hide Starts, Nested, RootsAreFresh;
    StartsGrow(p.log, j, i);
    var m := p.log[j].span;
    if p.log[j].Started? {
      assert IsStartOf(p, j, Starts(p.log[..j]));
    } else {
      assert m < Starts(p.log[..j]) && p.log[j].parent == p.executions[m].parent;
    }
  }

  lemma NotTheStart(p: Pipeline, i: nat, j: nat)
    requires Inv(p) && i < |p.log| && j < |p.log| && i != j && p.log[i].Started?
    ensures var k := Starts(p.log[..i]);
            && !(p.log[j].Started? && p.log[j].span == k)
            && (j < i ==> !(p.log[j].Ended? && p.log[j].span == k) && p.log[j].parent != Some(k))
  {
    if p.log[j].Started? {
      OtherStart(p, i, j);
    }
    hide Starts, StartsAreExecutions, EndsAreRight, FamilyHolds, Nested, RootsAreFresh, EndsFollowStarts;
    if j < i {
      EarlierEvent(p, i, j);
    }
  }

  /** At step `i` of the run the action of `k` has returned, its terminal event is out, and an observer throws at once. */
  ghost predicate ObserverThrowsAt(ops: seq<Op>, i: nat, k: nat)
    requires i < |ops|
  {
    && ops[i] == Settle(k, true)
    && k < |Run(ops[..i]).executions| && Run(ops[..i]).executions[k].status == Ending(true)
  }

  ghost predicate ObserverThrows(ops: seq<Op>, k: nat) {
    exists i | 0 <= i < |ops| :: ObserverThrowsAt(ops, i, k)
  }

  lemma ObserverThrowsStep(ops: seq<Op>, op: Op, k: nat)
    ensures ObserverThrows(ops + [op], k) <==>
            || ObserverThrows(ops, k)
            || (op == Settle(k, true) && k < |Run(ops).executions| && Run(ops).executions[k].status == Ending(true))
  {
    hide Run;
    var more := ops + [op];
    assert more[..|ops|] == ops;
    assert forall i | 0 <= i < |ops| :: more[..i] == ops[..i];
    assert forall i | 0 <= i < |ops| :: ObserverThrowsAt(more, i, k) <==> ObserverThrowsAt(ops, i, k);
    assert ObserverThrowsAt(more, |ops|, k) <==>
           op == Settle(k, true) && k < |Run(ops).executions| && Run(ops).executions[k].status == Ending(true);
  }

  /** One step sets the mark exactly when it is the throw of an observer, and never takes it back. */
  lemma StepMarksThrow(p: Pipeline, op: Op, k: nat)
    requires Enabled(p, op) && k < |Step(p, op).executions|
    ensures Step(p, op).executions[k].lateThrow <==>
            && k < |p.executions|
            && (p.executions[k].lateThrow || (op == Settle(k, true) && p.executions[k].status == Ending(true)))
  {
  }

  /** The mark on an execution tells what happened in the run. */
  lemma {:induction false} MarkTellsTheRun(ops: seq<Op>, k: nat)
    ensures ObserverThrows(ops, k) <==> k < |Run(ops).executions| && Run(ops).executions[k].lateThrow
  {
    if ops != [] {
      var init, op := ops[..|ops| - 1], ops[|ops| - 1];
      assert ops == init + [op];
      MarkTellsTheRun(init, k);
      ObserverThrowsStep(init, op, k);
      RunAppend(init, op);
      hide ObserverThrows, Step;
      if Enabled(Run(init), op) {
        StepKeepsExecutions(Run(init), op);
        if k < |Step(Run(init), op).executions| {
          StepMarksThrow(Run(init), op, k);
        }
      }
    }
  }

  lemma StepKeepsExecutions(p: Pipeline, op: Op)
    requires Enabled(p, op)
    ensures |p.executions| <= |Step(p, op).executions|
  {
  }

  /** A settled execution has exactly one terminal event, unless in the run an observer threw at once after its action had
      returned: then it has two. No event of a call it made comes after the first of them. */
  lemma TerminalEvents(ops: seq<Op>, k: nat)
    requires k < |Run(ops).executions| && Run(ops).executions[k].status.Done?
    ensures var p := Run(ops);
            && Ends(p.log, k) == (if ObserverThrows(ops, k) then 2 else 1)
            && forall i, j | 0 <= i < j < |p.log| && p.log[i].Ended? && p.log[i].span == k :: p.log[j].parent != Some(k)
  {
    hide Run, ObserverThrows;
    RunKeepsInv(ops);
    MarkTellsTheRun(ops, k);
  }

  /** The execution at the root of the calls that led to `k`. */
  ghost function RootOf(executions: seq<Execution>, k: nat): nat
    requires k < |executions|
  {
    if executions[k].parent.Some? && executions[k].parent.value < k then RootOf(executions, executions[k].parent.value) else k
  }

  lemma {:induction false} CorrelationIsRoot(p: Pipeline, k: nat)
    requires FamilyHolds(p) && RootsAreFresh(p) && k < |p.executions|
    ensures p.executions[k].correlation == RootOf(p.executions, k)
  {
    if p.executions[k].parent.Some? {
      CorrelationIsRoot(p, p.executions[k].parent.value);
    }
  }

  /** Two events carry the same correlation exactly when their executions belong to the same tree. */
  lemma CorrelationCoversTheTree(ops: seq<Op>, i: nat, j: nat)
    requires i < |Run(ops).log| && j < |Run(ops).log|
    ensures var p := Run(ops);
            && p.log[i].span < |p.executions| && p.log[j].span < |p.executions|
            && (p.log[i].correlation == p.log[j].correlation <==>
                  RootOf(p.executions, p.log[i].span) == RootOf(p.executions, p.log[j].span))
  {
    hide Run, RootOf;
    RunKeepsInv(ops);
    EventCorrelation(Run(ops), i);
    EventCorrelation(Run(ops), j);
  }

  lemma EventCorrelation(p: Pipeline, i: nat)
    requires Inv(p) && i < |p.log|
    ensures p.log[i].span < |p.executions|
    ensures p.log[i].correlation == RootOf(p.executions, p.log[i].span)
  {
    hide RootOf, Starts;
    if p.log[i].Started? {
      assert IsStartOf(p, i, Starts(p.log[..i]));
    }
    CorrelationIsRoot(p, p.log[i].span);
  }

  /** An observer that throws leaves a failure behind a completed call. */
  lemma ThrowingObserverEndsTwice()
    ensures var p := Run([Start(None, "search"), Finish(0, true, true), Settle(0, true), Settle(0, false)]);
            p.log == [Started(0, None, 0, "search"), Ended(0, None, 0, true), Ended(0, None, 0, false)]
  {
    var begin, finish, settle, again := Start(None, "search"), Finish(0, true, true), Settle(0, true), Settle(0, false);
    RunAppend([], begin);
    assert [] + [begin] == [begin];
    RunAppend([begin], finish);
    assert [begin] + [finish] == [begin, finish];
    RunAppend([begin, finish], settle);
    assert [begin, finish] + [settle] == [begin, finish, settle];
    RunAppend([begin, finish, settle], again);
    assert [begin, finish, settle] + [again] == [begin, finish, settle, again];
  }

  lemma RunAppend(ops: seq<Op>, op: Op)
    ensures Run(ops + [op]) == if Enabled(Run(ops), op) then Step(Run(ops), op) else Run(ops)
  {
    assert (ops + [op])[..|ops|] == ops;
  }
}

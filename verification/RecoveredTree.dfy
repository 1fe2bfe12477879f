/** The pipeline's events in the event store: what a restart recovers rebuilds the call tree of the run. */
module RecoveredTree {
  import C = CallTree
  import S = EventStore
  import opened Sequences
  import opened Text
  import opened Wrappers

  /** How ids are written, and what is read out of a payload. */
  datatype Wire = Wire(spanId: nat -> string, spanOf: string -> nat, correlationId: nat -> string,
                       correlationOf: string -> nat, spanIn: string -> string, nameIn: string -> string) {
    /** Ids are neither empty nor padded, and different ids are written differently. */
    ghost predicate Sound() {
      && (forall k :: spanId(k) != "" && spanOf(spanId(k)) == k)
      && (forall k :: correlationId(k) != "" && Trim(correlationId(k)) == correlationId(k) && correlationOf(correlationId(k)) == k)
    }
  }

  const STARTED := "tool/started"
  const COMPLETED := "tool/completed"
  const FAILED := "tool/failed"

  function Kind(e: C.Event): string {
    if e.Started? then STARTED else if e.success then COMPLETED else FAILED
  }

  predicate IsPipelineKind(kind: string) {
    kind == STARTED || kind == COMPLETED || kind == FAILED
  }

  /** The input the pipeline submits for an event; times, sizes and sessions are free. */
  predicate Carries(w: Wire, input: S.Input, e: C.Event) {
    && input.kind == Kind(e)
    && input.correlationId == Some(w.correlationId(e.correlation))
    && input.parentId == (if e.parent.Some? then Some(w.spanId(e.parent.value)) else None)
    && w.spanIn(input.data) == w.spanId(e.span)
    && (e.Started? ==> w.nameIn(input.data) == e.name)
  }

  /** The pipeline's events were submitted in this order, and written, among inputs of other kinds. */
  ghost predicate Submitted(w: Wire, tries: seq<S.Try>, log: seq<C.Event>) {
    if tries == [] then log == []
    else
      var init, last := tries[..|tries| - 1], tries[|tries| - 1];
      if !IsPipelineKind(last.0.kind) then Submitted(w, init, log)
      else log != [] && last.1 && Carries(w, last.0, log[|log| - 1]) && Submitted(w, init, log[..|log| - 1])
  }

  function Read(w: Wire): S.Event -> seq<C.Event> {
    (x: S.Event) =>
      var parent := if x.parentId.Some? then Some(w.spanOf(x.parentId.value)) else None;
      var span, correlation := w.spanOf(w.spanIn(x.data)), w.correlationOf(x.correlationId);
      if x.kind == STARTED then [C.Started(span, parent, correlation, w.nameIn(x.data))]
      else if IsPipelineKind(x.kind) then [C.Ended(span, parent, correlation, x.kind == COMPLETED)]
      else []
  }

  lemma ReadsBack(w: Wire, input: S.Input, e: C.Event, number: int)
    requires w.Sound() && Carries(w, input, e)
    ensures Read(w)(S.Snapshot(input, number)) == [e]
  {
    hide Trim;
  }

  lemma OtherKindsAreSkipped(w: Wire, input: S.Input, number: int)
    requires !IsPipelineKind(input.kind)
    ensures Read(w)(S.Snapshot(input, number)) == []
  {
    hide Trim;
  }

  lemma NothingIsRead(w: Wire)
    ensures FlatMap(Read(w), []) == []
  {
  }

  lemma OneMoreIsRead(w: Wire, before: seq<S.Event>, last: S.Try, number: int)
    ensures FlatMap(Read(w), S.WithNext(before, last, number))
         == FlatMap(Read(w), before) + if last.1 then Read(w)(S.Snapshot(last.0, number)) else []
  {
    hide S.Snapshot, Read, FlatMap;
    if last.1 {
      FlatMapAppend(Read(w), before, S.Snapshot(last.0, number));
    } else {
      assert before + [] == before && FlatMap(Read(w), before) + [] == FlatMap(Read(w), before);
    }
  }

  lemma {:induction false} SubmittedReadsBack(w: Wire, tries: seq<S.Try>, log: seq<C.Event>, number: int)
    requires w.Sound() && Submitted(w, tries, log)
    ensures FlatMap(Read(w), S.Successes(tries, number)) == log
  {
    hide S.Snapshot, Carries, Read, FlatMap;
    if tries == [] {
      NothingIsRead(w);
    } else {
      var n, last := |tries| - 1, tries[|tries| - 1];
      OneMoreIsRead(w, S.Successes(tries[..n], number), last, number + n);
      if IsPipelineKind(last.0.kind) {
        SubmittedReadsBack(w, tries[..n], log[..|log| - 1], number);
        ReadsBack(w, last.0, log[|log| - 1], number + n);
      } else {
        SubmittedReadsBack(w, tries[..n], log, number);
        OtherKindsAreSkipped(w, last.0, number + n);
      }
    }
  }

  /** The first stored events are those of the first tries, and carry the first events of the pipeline. */
  lemma {:induction false} SubmittedPrefix(w: Wire, tries: seq<S.Try>, log: seq<C.Event>, n: nat) returns (m: nat, k: nat)
    requires Submitted(w, tries, log) && n <= |S.Successes(tries, 1)|
    ensures m <= |tries| && k <= |log| && Submitted(w, tries[..m], log[..k])
    ensures S.Successes(tries[..m], 1) == S.Successes(tries, 1)[..n]
    ensures n == |S.Successes(tries, 1)| ==> k == |log|
  {
    hide Carries, S.Snapshot;
    if n == |S.Successes(tries, 1)| {
      m, k := |tries|, |log|;
      assert tries[..m] == tries && log[..k] == log && S.Successes(tries, 1)[..n] == S.Successes(tries, 1);
    } else {
      var last := |tries| - 1;
      if IsPipelineKind(tries[last].0.kind) {
        m, k := SubmittedPrefix(w, tries[..last], log[..|log| - 1], n);
        assert log[..|log| - 1][..k] == log[..k];
      } else {
        m, k := SubmittedPrefix(w, tries[..last], log, n);
      }
      assert tries[..last][..m] == tries[..m];
    }
  }

  lemma StepAppendsAtMostOne(p: C.Pipeline, op: C.Op)
    requires C.Enabled(p, op)
    ensures p.log <= C.Step(p, op).log && |C.Step(p, op).log| <= |p.log| + 1
  {
  }

  /** A run leaves its log one event at a time: every prefix of it is the log of an earlier moment. */
  lemma {:induction false} PrefixIsEarlier(ops: seq<C.Op>, k: nat) returns (j: nat)
    requires k <= |C.Run(ops).log|
    ensures j <= |ops| && C.Run(ops[..j]).log == C.Run(ops).log[..k]
    ensures k == |C.Run(ops).log| ==> j == |ops|
  {
    hide C.Enabled, C.Step;
    if k == |C.Run(ops).log| {
      j := |ops|;
      assert ops[..j] == ops && C.Run(ops).log[..k] == C.Run(ops).log;
    } else {
      var init, op := ops[..|ops| - 1], ops[|ops| - 1];
      if C.Enabled(C.Run(init), op) {
        StepAppendsAtMostOne(C.Run(init), op);
      }
      j := PrefixIsEarlier(init, k);
      assert init[..j] == ops[..j];
    }
  }

  /** The file after a new store was asked to append all this. */
  function FileOf(codec: S.Codec, tries: seq<S.Try>): string {
    S.Written(codec, S.LogRun(S.Log([], 1), S.Appends(tries)).events)
  }

  lemma AppendedIsLog(tries: seq<S.Try>)
    requires |tries| < S.MAX_SAFE_INTEGER
    ensures S.LogRun(S.Log([], 1), S.Appends(tries)).events == S.Successes(tries, 1)
    ensures S.IsLog(S.Successes(tries, 1))
  {
    hide S.LogRun, S.Appends, S.Snapshot, S.Successes;
    S.AppendsKeepTheirOrder(S.Log([], 1), tries);
    assert [] + S.Successes(tries, 1) == S.Successes(tries, 1);
    S.SuccessesAreTheWritten(tries, 1);
    NumbersAreValid(tries, S.Successes(tries, 1));
  }

  lemma NumbersAreValid(tries: seq<S.Try>, events: seq<S.Event>)
    requires |tries| < S.MAX_SAFE_INTEGER && S.OnlyWritten(tries, 1, events) && S.Increasing(events)
    ensures S.IsLog(events)
  {
    hide S.Snapshot;
    forall i | 0 <= i < |events| ensures S.IsValid(events[i]) {
      assert S.IsSuccess(tries, events[i].seq_ - 1, events[i]);
    }
  }

  /** A crash may cut the file off anywhere. What a restart then recovers is what the pipeline had logged at an earlier
      moment of the run, and rebuilds the tree of calls of that moment; from the whole file, that of the whole run. */
  lemma RestartRebuildsTheTree(codec: S.Codec, w: Wire, ops: seq<C.Op>, tries: seq<S.Try>, file: string) returns (j: nat)
    requires S.Sound(codec) && w.Sound() && |tries| < S.MAX_SAFE_INTEGER
    requires Submitted(w, tries, C.Run(ops).log) && file <= FileOf(codec, tries)
    ensures j <= |ops| && (file == FileOf(codec, tries) ==> j == |ops|)
    ensures var recovered, p := FlatMap(Read(w), S.Loaded(codec, file)), C.Run(ops[..j]);
            && recovered == p.log
            && forall i | 0 <= i < |recovered| && recovered[i].Started? ::
                 recovered[i].span < |p.executions| && C.Rebuilt(recovered, i) == C.TreeOf(p.executions, recovered[i].span)
  {
    hide *;
    assert FileOf(codec, tries) == S.Written(codec, S.Successes(tries, 1)) by {
      AppendedIsLog(tries);
      FileIsWritten(codec, tries);
    }
    AppendedIsLog(tries);
    var n := S.CrashLosesOnlyTheTail(codec, S.Successes(tries, 1), file);
    assert S.Successes(tries, 1)[..|S.Successes(tries, 1)|] == S.Successes(tries, 1);
    var m, k := SubmittedPrefix(w, tries, C.Run(ops).log, n);
    SubmittedReadsBack(w, tries[..m], C.Run(ops).log[..k], 1);
    j := PrefixIsEarlier(ops, k);
    var p := C.Run(ops[..j]);
    forall i | 0 <= i < |p.log| && p.log[i].Started?
      ensures p.log[i].span < |p.executions| && C.Rebuilt(p.log, i) == C.TreeOf(p.executions, p.log[i].span)
    {
      C.LogDeterminesCallTree(ops[..j], i);
    }
  }

  lemma FileIsWritten(codec: S.Codec, tries: seq<S.Try>)
    requires S.LogRun(S.Log([], 1), S.Appends(tries)).events == S.Successes(tries, 1)
    ensures FileOf(codec, tries) == S.Written(codec, S.Successes(tries, 1))
  {
  }
}

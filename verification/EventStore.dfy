/** The append-only log of runtime events: what memory holds, what a restart recovers, what a query returns. */
module EventStore {
  import opened Lines
  import opened Sequences
  import opened Sorting
  import opened Text
  import opened Wrappers

  const MAX_SAFE_INTEGER := 9_007_199_254_740_991

  /** `data` is the JSON text of the payload. */
  datatype Event = Event(seq_: int, id: string, timestamp: string, kind: string, correlationId: string,
                         sessionId: Option<string>, conversationId: Option<string>, parentId: Option<string>, data: string)

  /** How an event is written as one line, and what a line is read as: `None` when it does not parse or is not a
      valid event. */
  datatype Codec = Codec(encode: Event -> string, decode: string -> Option<Event>)

  predicate IsValid(e: Event) {
    0 < e.seq_ <= MAX_SAFE_INTEGER
  }

  predicate ProperPrefix(a: string, b: string) {
    a < b
  }

  /** What JSON gives: one line per event that reads back, and no beginning of a line that reads as anything. */
  ghost predicate Sound(codec: Codec) {
    && (forall e | IsValid(e) :: codec.decode(codec.encode(e)) == Some(e))
    && (forall e :: '\n' !in codec.encode(e) && '\r' !in codec.encode(e) && !IsBlank(codec.encode(e)))
    && (forall e, line | ProperPrefix(line, codec.encode(e)) :: codec.decode(line) == None)
  }

  predicate EarlierSeq(a: Event, b: Event) {
    a.seq_ < b.seq_
  }

  function LastN<T>(xs: seq<T>, n: nat): seq<T> {
    if |xs| <= n then xs else xs[|xs| - n..]
  }

  // ---------------------------------------------------------------- reading the file

  /** `text.split(/\r?\n/)`. */
  function SplitLines(text: string): seq<string> {
    var complete := Complete(text);
    seq(|complete|, i requires 0 <= i < |complete| => Chomp(complete[i])) + [Tail(text)]
  }

  function LineEvents(codec: Codec): string -> seq<Event> {
    line => if IsBlank(line) || codec.decode(line).None? then [] else [codec.decode(line).value]
  }

  function Loaded(codec: Codec, text: string): seq<Event> {
    Sort(EarlierSeq, FlatMap(LineEvents(codec), SplitLines(text)))
  }

  lemma EmptyFlatMap(f: string -> seq<Event>)
    ensures FlatMap(f, []) == []
  {
  }

  function NextAfter(events: seq<Event>): int {
    if events == [] then 1 else events[|events| - 1].seq_ + 1
  }

  // ---------------------------------------------------------------- queries

  datatype Query = Query(correlationId: Option<string>, sessionId: Option<string>, conversationId: Option<string>,
                         kindPrefix: Option<string>, sinceSeq: Option<int>, limit: Option<int>)

  function ByCorrelation(q: Query): Event -> bool {
    (e: Event) => q.correlationId.None? || e.correlationId == q.correlationId.value
  }

  function BySession(q: Query): Event -> bool {
    (e: Event) => q.sessionId.None? || e.sessionId == q.sessionId
  }

  function ByConversation(q: Query): Event -> bool {
    (e: Event) => q.conversationId.None? || e.conversationId == q.conversationId
  }

  function ByKind(q: Query): Event -> bool {
    (e: Event) => q.kindPrefix.None? || q.kindPrefix.value <= e.kind
  }

  function BySeq(q: Query): Event -> bool {
    (e: Event) => q.sinceSeq.None? || e.seq_ > q.sinceSeq.value
  }

  predicate Selects(q: Query, e: Event) {
    ByCorrelation(q)(e) && BySession(q)(e) && ByConversation(q)(e) && ByKind(q)(e) && BySeq(q)(e)
  }

  function Limit(limit: Option<int>): (n: nat)
    ensures 1 <= n <= 10_000
    ensures limit == None ==> n == 500
    ensures limit.Some? && 1 <= limit.value <= 10_000 ==> n == limit.value
    ensures limit.Some? && !(1 <= limit.value <= 10_000) ==> n == if limit.value < 1 then 1 else 10_000
  {
    var wanted := limit.GetOr(500);
    if wanted < 1 then 1 else if wanted > 10_000 then 10_000 else wanted
  }

  lemma {:induction false} FilterTwice<T>(p: T -> bool, q: T -> bool, both: T -> bool, xs: seq<T>)
    requires forall x :: both(x) <==> p(x) && q(x)
    ensures Filter(q, Filter(p, xs)) == Filter(both, xs)
  {
    if xs != [] {
      FilterTwice(p, q, both, xs[..|xs| - 1]);
      FilterAppend(q, Filter(p, xs[..|xs| - 1]), xs[|xs| - 1]);
    }
  }

  /** Filtering five times is filtering once. */
  lemma FiltersFuse(q: Query, events: seq<Event>)
    ensures Filter(BySeq(q), Filter(ByKind(q), Filter(ByConversation(q), Filter(BySession(q), Filter(ByCorrelation(q), events)))))
            == Filter(e => Selects(q, e), events)
  {
    var a, b, c, d, f := ByCorrelation(q), BySession(q), ByConversation(q), ByKind(q), BySeq(q);
    var all := (e: Event) => Selects(q, e);
    assert forall e :: all(e) <==> a(e) && b(e) && c(e) && d(e) && f(e);
    hide ByCorrelation, BySession, ByConversation, ByKind, BySeq, Selects, Filter;
    var ab := (e: Event) => a(e) && b(e);
    var abc := (e: Event) => ab(e) && c(e);
    var abcd := (e: Event) => abc(e) && d(e);
    FilterTwice(a, b, ab, events);
    FilterTwice(ab, c, abc, events);
    FilterTwice(abc, d, abcd, events);
    FilterTwice(abcd, f, all, events);
  }

  /** The event is of the correlation, session, conversation and kind that is asked for, and later than what is known. */
  predicate IsWanted(q: Query, e: Event) {
    && (q.correlationId.Some? ==> e.correlationId == q.correlationId.value)
    && (q.sessionId.Some? ==> e.sessionId == q.sessionId)
    && (q.conversationId.Some? ==> e.conversationId == q.conversationId)
    && (q.kindPrefix.Some? ==> |q.kindPrefix.value| <= |e.kind| && e.kind[..|q.kindPrefix.value|] == q.kindPrefix.value)
    && (q.sinceSeq.Some? ==> q.sinceSeq.value < e.seq_)
  }

  /** Wanted events at increasing places, within the limit; one that is left out comes before them, and only when there are as
      many as the limit allows. */
  ghost predicate IsAnswer(q: Query, events: seq<Event>, r: seq<Event>, places: seq<nat>) {
    && |r| == |places| <= Limit(q.limit)
    && (forall i, j | 0 <= i < j < |places| :: places[i] < places[j])
    && (forall i | 0 <= i < |places| :: places[i] < |events| && r[i] == events[places[i]] && IsWanted(q, r[i]))
    && (forall k | 0 <= k < |events| && IsWanted(q, events[k]) && k !in places ::
          |places| == Limit(q.limit) && forall i | 0 <= i < |places| :: k < places[i])
  }

  /** Leaving out all but the last `n` places leaves out earlier ones only. */
  lemma LastOfPlaces(all: seq<nat>, n: nat)
    requires forall i, j | 0 <= i < j < |all| :: all[i] < all[j]
    ensures forall k | k in all && k !in LastN(all, n) :: |LastN(all, n)| == n && forall i | 0 <= i < n :: k < LastN(all, n)[i]
  {
    var last := LastN(all, n);
    if |all| > n {
      forall k | k in all ensures k in last || forall i | 0 <= i < n :: k < last[i] {
        var j :| 0 <= j < |all| && all[j] == k;
        if j >= |all| - n {
          assert last[j - (|all| - n)] == k;
        }
      }
    }
  }

  ghost predicate Ascends(places: seq<nat>) {
    forall i, j | 0 <= i < j < |places| :: places[i] < places[j]
  }

  ghost predicate Within(places: seq<nat>, n: nat) {
    forall i | 0 <= i < |places| :: places[i] < n
  }

  lemma SuffixAscends(all: seq<nat>, from: nat)
    requires from <= |all| && Ascends(all)
    ensures Ascends(all[from..])
  {
    var places := all[from..];
    forall i, j | 0 <= i < j < |places| ensures places[i] < places[j] {
      assert places[i] == all[from + i] && places[j] == all[from + j];
    }
  }

  lemma SuffixIsWithin(all: seq<nat>, from: nat, n: nat)
    requires from <= |all| && Within(all, n)
    ensures Within(all[from..], n) && forall k | k in all[from..] :: k in all
  {
    var places := all[from..];
    forall i | 0 <= i < |places| ensures places[i] < n && places[i] in all {
      assert places[i] == all[from + i];
    }
  }

  lemma SuffixOfAt(events: seq<Event>, all: seq<nat>, from: nat)
    requires from <= |all| && Within(all, |events|) && Within(all[from..], |events|)
    ensures At(events, all)[from..] == At(events, all[from..])
  {
  }

  lemma LastOfAt(events: seq<Event>, all: seq<nat>, n: nat)
    requires Ascends(all) && Within(all, |events|)
    ensures var places := LastN(all, n);
            && |places| <= n && Ascends(places) && Within(places, |events|) && (forall k | k in places :: k in all)
            && LastN(At(events, all), n) == At(events, places)
  {
    var from := if |all| > n then |all| - n else 0;
    assert LastN(all, n) == all[from..] && LastN(At(events, all), n) == At(events, all)[from..];
    hide LastN, Ascends, Within;
    SuffixAscends(all, from);
    SuffixIsWithin(all, from, |events|);
    SuffixOfAt(events, all, from);
  }

  lemma LastAnswers(q: Query, events: seq<Event>, keep: Event -> bool, all: seq<nat>)
    requires ArePlaces(keep, events, all) && forall e :: keep(e) <==> IsWanted(q, e)
    ensures IsAnswer(q, events, LastN(At(events, all), Limit(q.limit)), LastN(all, Limit(q.limit)))
  {
    hide IsWanted, Limit;
    var n := Limit(q.limit);
    LastOfPlaces(all, n);
    LastOfAt(events, all, n);
    PlacesAreKept(keep, events, all);
    hide LastN, ArePlaces, Within;
    var r, places := LastN(At(events, all), n), LastN(all, n);
    forall i | 0 <= i < |places| ensures places[i] < |events| && r[i] == events[places[i]] && IsWanted(q, r[i]) {
      assert places[i] in places;
      assert keep(events[places[i]]);
    }
  }

  lemma PlacesAreKept(keep: Event -> bool, events: seq<Event>, all: seq<nat>)
    requires ArePlaces(keep, events, all)
    ensures forall k | k in all :: k < |events| && keep(events[k])
    ensures forall k | 0 <= k < |events| && keep(events[k]) :: k in all
  {
  }

  lemma LastPlaces(q: Query, events: seq<Event>) returns (places: seq<nat>)
    ensures IsAnswer(q, events, LastN(Filter(e => Selects(q, e), events), Limit(q.limit)), places)
  {
    var keep := (e: Event) => Selects(q, e);
    var all := FilterIsExact(keep, events);
    assert forall e :: keep(e) <==> IsWanted(q, e);
    hide IsWanted, Selects, Limit, Filter, IsAnswer, ArePlaces, LastN;
    LastAnswers(q, events, keep, all);
    places := LastN(all, Limit(q.limit));
  }

  // ---------------------------------------------------------------- the store

  /** What `append` is asked to store, with the clock reading and the fresh id it is given. */
  datatype Input = Input(kind: string, correlationId: Option<string>, sessionId: Option<string>,
                         conversationId: Option<string>, parentId: Option<string>, data: string, timestamp: string, id: string)

  predicate IsTruthy(s: Option<string>) {
    s.Some? && s.value != ""
  }

  function Snapshot(input: Input, number: int): Event {
    Event(number, input.id, input.timestamp, input.kind,
          if input.correlationId.Some? && Trim(input.correlationId.value) != "" then Trim(input.correlationId.value) else input.id,
          if IsTruthy(input.sessionId) then input.sessionId else None,
          if IsTruthy(input.conversationId) then input.conversationId else None,
          if IsTruthy(input.parentId) then input.parentId else None,
          input.data)
  }

  datatype Store = Store(events: seq<Event>, nextSeq: int, file: string)

  function Started(codec: Codec, max: nat, file: string): Store {
    var loaded := Loaded(codec, file);
    Store(LastN(loaded, max), NextAfter(loaded), file)
  }

  /** An append takes the next number; a write that fails leaves the file and the memory alone. */
  function Appended(codec: Codec, max: nat, s: Store, input: Input, written: bool): Store {
    var event := Snapshot(input, s.nextSeq);
    if !written then s.(nextSeq := s.nextSeq + 1)
    else Store(LastN(s.events + [event], max), s.nextSeq + 1, s.file + codec.encode(event) + ['\n'])
  }

  class RuntimeEventStore {
    const codec: Codec
    const maxInMemory: nat
    var events: seq<Event>
    var nextSeq: int
    /** The bytes on disk, which only `Append` and crashes change. */
    var file: string

    ghost function State(): Store
      reads this
    {
      Store(events, nextSeq, file)
    }

    constructor (codec: Codec, maxInMemory: Option<int>, file: string)
      ensures this.codec == codec && this.file == file && events == [] && nextSeq == 1
      ensures this.maxInMemory == match maxInMemory
                case None => 20_000
                case Some(n) => if n < 100 then 100 else n
    {
      this.codec := codec;
      this.maxInMemory := if maxInMemory.GetOr(20_000) < 100 then 100 else maxInMemory.GetOr(20_000);
      this.events := [];
      this.nextSeq := 1;
      this.file := file;
    }

    method Init()
      modifies this
      ensures State() == Started(codec, maxInMemory, old(file))
    {
      var lines := SplitLines(file);
      hide SplitLines, Sort, FlatMap, IsBlank;
      var loaded: seq<Event> := [];
      EmptyFlatMap(LineEvents(codec));
      for i := 0 to |lines|
        invariant loaded == FlatMap(LineEvents(codec), lines[..i])
        invariant events == old(events) && nextSeq == old(nextSeq) && file == old(file)
      {
        assert lines[..i + 1] == lines[..i] + [lines[i]];
        FlatMapAppend(LineEvents(codec), lines[..i], lines[i]);
        if IsBlank(lines[i]) {
          continue;
        }
        var event := codec.decode(lines[i]);
        if event.Some? {
          loaded := loaded + [event.value];
        }
      }
      assert lines[..|lines|] == lines;
      loaded := Sort(EarlierSeq, loaded);
      events := LastN(loaded, maxInMemory);
      nextSeq := NextAfter(loaded);
    }

    method Append(input: Input, written: bool) returns (r: Result<Event, ()>)
      modifies this
      requires |events| <= maxInMemory
      ensures State() == Appended(codec, maxInMemory, old(State()), input, written)
      ensures r == if written then Ok(Snapshot(input, old(nextSeq))) else Err(())
      ensures |events| <= maxInMemory
    {
      var event := Snapshot(input, nextSeq);
      nextSeq := nextSeq + 1;
      if !written {
        return Err(());
      }
      file := file + codec.encode(event) + ['\n'];
      events := events + [event];
      if |events| > maxInMemory {
        events := events[|events| - maxInMemory..];
      }
      return Ok(event);
    }

    /** The last matching events in memory, in order. */
    method Find(q: Query) returns (r: seq<Event>)
      ensures r == LastN(Filter(e => Selects(q, e), events), Limit(q.limit))
      ensures exists places :: IsAnswer(q, events, r, places)
    {
      ghost var places := LastPlaces(q, events);
      hide Filter, IsAnswer;
      r := Filter(BySeq(q), Filter(ByKind(q), Filter(ByConversation(q), Filter(BySession(q), Filter(ByCorrelation(q), events)))));
      FiltersFuse(q, events);
      r := LastN(r, Limit(q.limit));
    }
  }

  // ---------------------------------------------------------------- runs

  /** The file a log has when every event was written out. */
  function Written(codec: Codec, log: seq<Event>): string {
    if log == [] then [] else Written(codec, log[..|log| - 1]) + codec.encode(log[|log| - 1]) + ['\n']
  }

  /** Numbers strictly increase, and each can be read back. */
  ghost predicate IsLog(log: seq<Event>) {
    && (forall i | 0 <= i < |log| :: IsValid(log[i]))
    && (forall i, j | 0 <= i < j < |log| :: log[i].seq_ < log[j].seq_)
  }

  datatype Op = Append(input: Input, written: bool) | Restart

  function Step(codec: Codec, max: nat, s: Store, op: Op): Store {
    match op
    case Append(input, written) => Appended(codec, max, s, input, written)
    case Restart => Started(codec, max, s.file)
  }

  function Run(codec: Codec, max: nat, s: Store, ops: seq<Op>): Store {
    if ops == [] then s else Step(codec, max, Run(codec, max, s, ops[..|ops| - 1]), ops[|ops| - 1])
  }

  /** The log by itself: no file, no bound on memory, nothing to read back. */
  datatype Log = Log(events: seq<Event>, nextSeq: int)

  function LogStep(l: Log, op: Op): Log {
    match op
    case Append(input, written) => Log(if written then l.events + [Snapshot(input, l.nextSeq)] else l.events, l.nextSeq + 1)
    case Restart => Log(l.events, NextAfter(l.events))
  }

  function LogRun(l: Log, ops: seq<Op>): Log {
    if ops == [] then l else LogStep(LogRun(l, ops[..|ops| - 1]), ops[|ops| - 1])
  }

  /** The store shows the log: the file holds all of it, memory its end. */
  ghost predicate Shows(codec: Codec, max: nat, s: Store, l: Log) {
    && s.file == Written(codec, l.events)
    && s.events == LastN(l.events, max)
    && s.nextSeq == l.nextSeq
    && NextAfter(l.events) <= l.nextSeq
    && IsLog(l.events)
  }

  // ---------------------------------------------------------------- recovery

  function Encoded(codec: Codec, log: seq<Event>): seq<string> {
    seq(|log|, i requires 0 <= i < |log| => codec.encode(log[i]))
  }

  lemma {:induction false} WrittenSplits(codec: Codec, log: seq<Event>, torn: string)
    requires Sound(codec) && '\n' !in torn
    ensures Complete(Written(codec, log) + torn) == Encoded(codec, log)
    ensures Tail(Written(codec, log) + torn) == torn
  {
    hide Complete, Tail;
    if log == [] {
      assert Written(codec, log) + torn == torn;
      NoLineFeed(torn);
    } else {
      var init, line := log[..|log| - 1], codec.encode(log[|log| - 1]);
      WrittenSplits(codec, init, []);
      assert Written(codec, init) + [] == Written(codec, init);
      SplitContinues(Written(codec, init), line + ['\n'] + torn);
      assert Written(codec, log) + torn == Written(codec, init) + (line + ['\n'] + torn);
      assert [] + (line + ['\n'] + torn) == line + ['\n'] + torn;
      assert Encoded(codec, log) == Encoded(codec, init) + [line];
      FirstLine(line, torn);
      NoLineFeed(torn);
    }
  }

  lemma {:induction false} LinesOfLog(codec: Codec, log: seq<Event>, lines: seq<string>)
    requires Sound(codec) && IsLog(log)
    requires |lines| == |log| && forall i | 0 <= i < |log| :: lines[i] == codec.encode(log[i])
    ensures FlatMap(LineEvents(codec), lines) == log
  {
    hide IsBlank;
    if log != [] {
      var n := |log| - 1;
      LinesOfLog(codec, log[..n], lines[..n]);
      assert IsValid(log[n]);
      assert LineEvents(codec)(lines[n]) == [log[n]];
    }
  }

  lemma LogIsSorted(log: seq<Event>)
    requires IsLog(log)
    ensures Sort(EarlierSeq, log) == log
  {
    assert Sorted(EarlierSeq, log);
    SortOfSorted(EarlierSeq, log);
  }

  /** Reading complete lines and one more piece that holds no line feed. */
  lemma LoadedWithTail(codec: Codec, log: seq<Event>, torn: string)
    requires Sound(codec) && IsLog(log) && '\n' !in torn
    ensures Loaded(codec, Written(codec, log) + torn) == Sort(EarlierSeq, log + LineEvents(codec)(torn))
  {
    var text := Written(codec, log) + torn;
    var lines := SplitLines(text);
    WrittenSplits(codec, log, torn);
    forall i | 0 <= i < |log| ensures lines[i] == codec.encode(log[i]) {
      var line := codec.encode(log[i]);
      assert line != [] ==> line[|line| - 1] in line;
    }
    assert lines == lines[..|log|] + [torn];
    hide SplitLines, LineEvents, Written;
    LinesOfLog(codec, log, lines[..|log|]);
    FlatMapAppend(LineEvents(codec), lines[..|log|], torn);
  }

  lemma NothingIsRead(codec: Codec)
    ensures LineEvents(codec)([]) == []
  {
    assert IsBlank([]);
  }

  /** A restart on a cleanly ended file recovers exactly the log. */
  lemma CleanFileRecovers(codec: Codec, log: seq<Event>)
    requires Sound(codec) && IsLog(log)
    ensures Loaded(codec, Written(codec, log)) == log
  {
    assert Written(codec, log) + [] == Written(codec, log);
    NothingIsRead(codec);
    hide Loaded, Written, LineEvents, Sound, IsLog;
    LoadedWithTail(codec, log, []);
    assert log + [] == log;
    LogIsSorted(log);
  }

  /** A crash while an event is being written loses that event and no other; the store continues above the log. When
      all of the line but its end was written, the event is recovered too. */
  lemma TornTailRecovers(codec: Codec, max: nat, log: seq<Event>, e: Event, torn: string)
    requires Sound(codec) && IsLog(log + [e]) && torn <= codec.encode(e)
    ensures var s := Started(codec, max, Written(codec, log) + torn);
            var recovered := if torn == codec.encode(e) then log + [e] else log;
            && s.events == LastN(recovered, max)
            && s.nextSeq == NextAfter(recovered)
            && forall i | 0 <= i < |recovered| :: recovered[i].seq_ < s.nextSeq
  {
    PrefixIsLog(log, e);
    PieceReads(codec, e, torn);
    hide Written, Loaded, LineEvents, IsLog, Sound;
    LoadedWithTail(codec, log, torn);
    LogIsSorted(log);
    LogIsSorted(log + [e]);
    assert log + [] == log;
  }

  /** A prefix of a written file is some whole lines and a torn piece of the next. */
  lemma {:induction false} PrefixOfWritten(codec: Codec, log: seq<Event>, file: string) returns (n: nat, torn: string)
    requires file <= Written(codec, log)
    ensures n <= |log| && file == Written(codec, log[..n]) + torn
    ensures if n == |log| then torn == [] else torn <= codec.encode(log[n])
  {
    if file == Written(codec, log) {
      n, torn := |log|, [];
      assert log[..n] == log && file == file + [];
    } else {
      var init := log[..|log| - 1];
      if |file| < |Written(codec, init)| {
        assert file <= Written(codec, init);
        n, torn := PrefixOfWritten(codec, init, file);
        assert init[..n] == log[..n];
      } else {
        n, torn := |init|, file[|Written(codec, init)|..];
      }
    }
  }

  lemma {:induction false} WrittenGrows(codec: Codec, log: seq<Event>, m: nat, n: nat)
    requires m <= n <= |log|
    ensures |Written(codec, log[..m])| <= |Written(codec, log[..n])|
  {
    if m < n {
      WrittenGrows(codec, log, m, n - 1);
      assert log[..n][..n - 1] == log[..n - 1];
    }
  }

  lemma TornReads(codec: Codec, log: seq<Event>, n: nat, torn: string)
    requires Sound(codec) && IsLog(log) && n < |log| && torn <= codec.encode(log[n])
    ensures Loaded(codec, Written(codec, log[..n]) + torn) == if torn == codec.encode(log[n]) then log[..n + 1] else log[..n]
  {
    assert IsLog(log[..n]) && IsLog(log[..n + 1]);
    assert log[..n + 1] == log[..n] + [log[n]] && log[..n] + [] == log[..n];
    hide Written, Loaded, LineEvents, Sound;
    PieceReads(codec, log[n], torn);
    LoadedWithTail(codec, log[..n], torn);
    LogIsSorted(log[..n]);
    LogIsSorted(log[..n + 1]);
  }

  lemma WrittenStep(codec: Codec, log: seq<Event>, n: nat)
    requires n < |log|
    ensures |Written(codec, log[..n + 1])| == |Written(codec, log[..n])| + |codec.encode(log[n])| + 1
  {
    assert log[..n + 1][..n] == log[..n];
  }

  lemma WholeLines(codec: Codec, log: seq<Event>, n: nat, size: nat)
    requires n <= |log| && |Written(codec, log[..n])| <= size && (n < |log| ==> size < |Written(codec, log[..n + 1])|)
    ensures forall k | 0 <= k <= |log| :: k <= n <==> |Written(codec, log[..k])| <= size
  {
    hide Written;
    forall k | 0 <= k <= |log| ensures k <= n <==> |Written(codec, log[..k])| <= size {
      if k <= n {
        WrittenGrows(codec, log, k, n);
      } else {
        WrittenGrows(codec, log, n + 1, k);
      }
    }
  }

  /** Whatever part of the file a crash leaves, a restart recovers exactly the events whose lines, but for the line
      feed at the end, are in it. */
  lemma CrashLosesOnlyTheTail(codec: Codec, log: seq<Event>, file: string) returns (n: nat)
    requires Sound(codec) && IsLog(log) && file <= Written(codec, log)
    ensures n <= |log| && Loaded(codec, file) == log[..n]
    ensures forall k | 0 <= k <= |log| :: k <= n <==> |Written(codec, log[..k])| <= |file| + 1
  {
    hide Sound, IsLog, Loaded, Written;
    var torn;
    n, torn := PrefixOfWritten(codec, log, file);
    if n == |log| {
      assert log[..n] == log && file == Written(codec, log);
      CleanFileRecovers(codec, log);
    } else {
      TornReads(codec, log, n, torn);
      WrittenStep(codec, log, n);
      if torn == codec.encode(log[n]) {
        n := n + 1;
        if n < |log| {
          WrittenStep(codec, log, n);
          LinesAreNotEmpty(codec, log[n]);
        }
      }
    }
    WholeLines(codec, log, n, |file| + 1);
  }

  lemma LinesAreNotEmpty(codec: Codec, e: Event)
    requires Sound(codec)
    ensures codec.encode(e) != []
  {
    assert !IsBlank(codec.encode(e));
  }

  lemma PieceReads(codec: Codec, e: Event, torn: string)
    requires Sound(codec) && IsValid(e) && torn <= codec.encode(e)
    ensures '\n' !in torn
    ensures LineEvents(codec)(torn) == if torn == codec.encode(e) then [e] else []
  {
    hide IsBlank;
    if torn != codec.encode(e) {
      assert ProperPrefix(torn, codec.encode(e));
    }
  }

  lemma PrefixIsLog(log: seq<Event>, e: Event)
    requires IsLog(log + [e])
    ensures IsLog(log) && IsValid(e)
    ensures forall i | 0 <= i < |log| :: log[i].seq_ < e.seq_ && log[i].seq_ < NextAfter(log)
  {
    assert forall i | 0 <= i < |log| :: log[i] == (log + [e])[i];
    assert (log + [e])[|log|] == e;
  }

  // ---------------------------------------------------------------- every run shows its log

  lemma LastNAppend<T>(xs: seq<T>, x: T, n: nat)
    ensures LastN(LastN(xs, n) + [x], n) == LastN(xs + [x], n)
  {
  }

  lemma LogGrows(log: seq<Event>, e: Event)
    requires IsLog(log) && IsValid(e) && NextAfter(log) <= e.seq_
    ensures IsLog(log + [e])
  {
  }

  lemma WrittenAppend(codec: Codec, log: seq<Event>, e: Event)
    ensures Written(codec, log + [e]) == Written(codec, log) + codec.encode(e) + ['\n']
  {
    assert (log + [e])[..|log|] == log;
  }

  lemma NextAfterAppend(log: seq<Event>, e: Event)
    ensures NextAfter(log + [e]) == e.seq_ + 1
  {
  }

  lemma SnapshotIsNumbered(input: Input, number: int)
    ensures Snapshot(input, number).seq_ == number
  {
  }

  lemma AppendShowsLog(codec: Codec, max: nat, s: Store, l: Log, input: Input, written: bool)
    requires Shows(codec, max, s, l) && 0 < l.nextSeq <= MAX_SAFE_INTEGER
    ensures Shows(codec, max, Appended(codec, max, s, input, written), LogStep(l, Append(input, written)))
  {
    hide Written, LastN, NextAfter, IsLog, Snapshot;
    if written {
      var event := Snapshot(input, l.nextSeq);
      SnapshotIsNumbered(input, l.nextSeq);
      WrittenAppend(codec, l.events, event);
      LastNAppend(l.events, event, max);
      NextAfterAppend(l.events, event);
      LogGrows(l.events, event);
    }
  }

  lemma RestartShowsLog(codec: Codec, max: nat, s: Store, l: Log)
    requires Sound(codec) && Shows(codec, max, s, l)
    ensures Shows(codec, max, Started(codec, max, s.file), LogStep(l, Restart))
  {
    hide Sound, Written, Loaded, LastN, NextAfter, IsLog;
    CleanFileRecovers(codec, l.events);
  }

  lemma StepShowsLog(codec: Codec, max: nat, s: Store, l: Log, op: Op)
    requires Sound(codec) && Shows(codec, max, s, l) && 0 < l.nextSeq <= MAX_SAFE_INTEGER
    ensures Shows(codec, max, Step(codec, max, s, op), LogStep(l, op))
  {
    hide Shows, Sound, Appended, Started, LogStep;
    match op
    case Append(input, written) => AppendShowsLog(codec, max, s, l, input, written);
    case Restart => RestartShowsLog(codec, max, s, l);
  }

  lemma {:induction false} NextSeqGrowsSlowly(l: Log, ops: seq<Op>)
    requires 0 < NextAfter(l.events) <= l.nextSeq
    ensures 0 < NextAfter(LogRun(l, ops).events) <= LogRun(l, ops).nextSeq <= l.nextSeq + |ops|
  {
    if ops != [] {
      NextSeqGrowsSlowly(l, ops[..|ops| - 1]);
    }
  }

  /** After any run of appends, failed or not, and restarts, the file holds exactly the log of the written events, their
      numbers strictly increase, and memory holds exactly the last `max` of them. */
  lemma {:induction false} EveryRunShowsItsLog(codec: Codec, max: nat, s: Store, l: Log, ops: seq<Op>)
    requires Sound(codec) && Shows(codec, max, s, l) && 0 < NextAfter(l.events)
    requires l.nextSeq + |ops| <= MAX_SAFE_INTEGER
    ensures Shows(codec, max, Run(codec, max, s, ops), LogRun(l, ops))
  {
    hide Shows, Sound, LogStep, Step;
    if ops != [] {
      var init := ops[..|ops| - 1];
      assert l.nextSeq >= NextAfter(l.events) by {
        ShowsNext(codec, max, s, l);
      }
      EveryRunShowsItsLog(codec, max, s, l, init);
      NextSeqGrowsSlowly(l, init);
      StepShowsLog(codec, max, Run(codec, max, s, init), LogRun(l, init), ops[|ops| - 1]);
    }
  }

  lemma ShowsNext(codec: Codec, max: nat, s: Store, l: Log)
    requires Shows(codec, max, s, l)
    ensures NextAfter(l.events) <= l.nextSeq
  {
  }

  /** An input, and whether its write succeeds. */
  type Try = (Input, bool)

  function Appends(tries: seq<Try>): seq<Op> {
    seq(|tries|, i requires 0 <= i < |tries| => Append(tries[i].0, tries[i].1))
  }

  function WithNext(before: seq<Event>, last: Try, number: int): seq<Event> {
    before + if last.1 then [Snapshot(last.0, number)] else []
  }

  /** The events of the tries that were written; a failed one has used up its number all the same. */
  function Successes(tries: seq<Try>, number: int): seq<Event> {
    if tries == [] then []
    else
      var n, last := |tries| - 1, tries[|tries| - 1];
      WithNext(Successes(tries[..n], number), last, number + n)
  }

  /** Whichever writes fail, the log grows by exactly the events that were written, in the order of their appends, each
      under the number of its append. */
  lemma {:induction false} AppendsKeepTheirOrder(l: Log, tries: seq<Try>)
    ensures LogRun(l, Appends(tries)) == Log(l.events + Successes(tries, l.nextSeq), l.nextSeq + |tries|)
  {
    hide Snapshot;
    if tries == [] {
      assert l.events + [] == l.events;
    } else {
      var init := tries[..|tries| - 1];
      AppendsKeepTheirOrder(l, init);
      assert Appends(tries)[..|tries| - 1] == Appends(init);
    }
  }

  predicate IsSuccess(tries: seq<Try>, i: int, e: Event) {
    0 <= i < |tries| && tries[i].1 && e == Snapshot(tries[i].0, e.seq_)
  }

  ghost predicate OnlyWritten(tries: seq<Try>, number: int, events: seq<Event>) {
    forall e | e in events :: IsSuccess(tries, e.seq_ - number, e)
  }

  ghost predicate AllWritten(tries: seq<Try>, number: int, events: seq<Event>) {
    forall i | 0 <= i < |tries| && tries[i].1 :: Snapshot(tries[i].0, number + i) in events
  }

  ghost predicate Increasing(events: seq<Event>) {
    forall i, j | 0 <= i < j < |events| :: events[i].seq_ < events[j].seq_
  }

  /** They are the events of exactly the written tries, each under the number of its try, in that order. */
  lemma {:induction false} SuccessesAreTheWritten(tries: seq<Try>, number: int)
    ensures OnlyWritten(tries, number, Successes(tries, number))
    ensures AllWritten(tries, number, Successes(tries, number))
    ensures Increasing(Successes(tries, number))
  {
    hide OnlyWritten, AllWritten, Increasing, Snapshot;
    if tries == [] {
      NothingWritten(number);
    } else {
      var n, last := |tries| - 1, tries[|tries| - 1];
      SuccessesAreTheWritten(tries[..n], number);
      var before := Successes(tries[..n], number);
      assert tries[..n] + [last] == tries;
      OneMoreIsWritten(tries[..n], last, number, before);
      OneMoreIsIn(tries[..n], last, number, before);
      OneMoreIsLater(tries[..n], last, number, before);
    }
  }

  lemma NothingWritten(number: int)
    ensures OnlyWritten([], number, []) && AllWritten([], number, []) && Increasing([])
  {
  }

  lemma OneMoreIsWritten(tries: seq<Try>, last: Try, number: int, before: seq<Event>)
    requires OnlyWritten(tries, number, before)
    ensures OnlyWritten(tries + [last], number, WithNext(before, last, number + |tries|))
  {
    forall e | e in WithNext(before, last, number + |tries|) ensures IsSuccess(tries + [last], e.seq_ - number, e) {
      if e in before {
        assert IsSuccess(tries, e.seq_ - number, e);
      }
    }
  }

  lemma OneMoreIsIn(tries: seq<Try>, last: Try, number: int, before: seq<Event>)
    requires AllWritten(tries, number, before)
    ensures AllWritten(tries + [last], number, WithNext(before, last, number + |tries|))
  {
    hide Snapshot;
    var after := WithNext(before, last, number + |tries|);
    forall i | 0 <= i <= |tries| && (tries + [last])[i].1 ensures Snapshot((tries + [last])[i].0, number + i) in after {
      if i == |tries| {
        assert after[|before|] == Snapshot(last.0, number + i);
      }
    }
  }

  lemma OneMoreIsLater(tries: seq<Try>, last: Try, number: int, before: seq<Event>)
    requires OnlyWritten(tries, number, before) && Increasing(before)
    ensures Increasing(WithNext(before, last, number + |tries|))
  {
    var after := WithNext(before, last, number + |tries|);
    forall i, j | 0 <= i < j < |after| ensures after[i].seq_ < after[j].seq_ {
      assert after[i] == before[i] && before[i] in before;
      assert IsSuccess(tries, before[i].seq_ - number, before[i]);
    }
  }
}

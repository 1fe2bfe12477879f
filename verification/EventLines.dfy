/** What is written of an input, and what a file of lines is read as. */
module EventLines {
  import opened Lines
  import opened Sequences
  import opened Sorting
  import opened Text
  import opened Wrappers
  import opened EventStore

  // ---------------------------------------------------------------- from an input to its event

  /** A name that says something is kept. */
  predicate IsKept(given: Option<string>, kept: Option<string>) {
    if given == None || given == Some("") then kept == None else kept == given
  }

  /** An event carries what its input says; without a correlation of its own it begins one. */
  lemma SnapshotIsExact(input: Input, number: int)
    ensures var e := Snapshot(input, number);
            && e.seq_ == number && e.id == input.id && e.timestamp == input.timestamp && e.kind == input.kind && e.data == input.data
            && IsKept(input.sessionId, e.sessionId) && IsKept(input.conversationId, e.conversationId)
            && IsKept(input.parentId, e.parentId)
            && (input.correlationId == None || IsBlank(input.correlationId.value) ==> e.correlationId == input.id)
            && (input.correlationId.Some? && !IsBlank(input.correlationId.value) ==> IsTrimmed(input.correlationId.value, e.correlationId))
  {
    if input.correlationId.Some? {
      var text := input.correlationId.value;
      hide IsTrimmed, IsBlank, Trim;
      TrimmedIsTrim(text, Trim(text));
    }
  }

  // ---------------------------------------------------------------- from a file to its events

  /** Lines end at a line feed, together with a carriage return before it. */
  lemma LinesAreExact(line: string, rest: string)
    requires '\n' !in line
    ensures SplitLines(line) == [line]
    ensures SplitLines(line + "\r\n" + rest) == [line] + SplitLines(rest)
    ensures (line == [] || line[|line| - 1] != '\r') ==> SplitLines(line + "\n" + rest) == [line] + SplitLines(rest)
  {
    hide Complete, Tail;
    NoLineFeed(line);
    FirstLine(line, rest);
    FirstLine(line + "\r", rest);
    assert line + "\n" + rest == line + ['\n'] + rest;
    assert line + "\r\n" + rest == (line + "\r") + ['\n'] + rest;
    assert Chomp(line + "\r") == line;
  }

  /** A line is read as an event when it is not white space and can be read. */
  predicate IsReadAs(codec: Codec, line: string, e: Event) {
    !IsBlank(line) && codec.decode(line) == Some(e)
  }

  lemma {:induction false} ReadEvents(codec: Codec, lines: seq<string>)
    ensures forall e :: e in FlatMap(LineEvents(codec), lines) <==> exists line | line in lines :: IsReadAs(codec, line, e)
  {
    hide IsBlank;
    if lines != [] {
      var n := |lines| - 1;
      ReadEvents(codec, lines[..n]);
      assert lines == lines[..n] + [lines[n]];
      forall e ensures e in LineEvents(codec)(lines[n]) <==> IsReadAs(codec, lines[n], e) {
      }
      hide LineEvents, IsReadAs;
    }
  }

  lemma EarlierIsAnOrder()
    ensures StrictWeakOrder(EarlierSeq)
  {
  }

  function Numbered(n: int): Event -> bool {
    (e: Event) => e.seq_ == n
  }

  /** Loading gives what the lines are read as, sorted by number, those of one number in the order of their lines. */
  lemma LoadedIsExact(codec: Codec, text: string)
    ensures var loaded := Loaded(codec, text);
            && (forall i, j | 0 <= i < j < |loaded| :: loaded[i].seq_ <= loaded[j].seq_)
            && multiset(loaded) == multiset(FlatMap(LineEvents(codec), SplitLines(text)))
            && (forall e :: e in loaded <==> exists line | line in SplitLines(text) :: IsReadAs(codec, line, e))
            && (forall n :: Filter(Numbered(n), loaded) == Filter(Numbered(n), FlatMap(LineEvents(codec), SplitLines(text))))
  {
    var events := FlatMap(LineEvents(codec), SplitLines(text));
    ReadEvents(codec, SplitLines(text));
    SortIsPermutation(EarlierSeq, events);
    SortedByNumber(events);
    hide SplitLines, FlatMap, IsReadAs, LineEvents, Sort, Filter, Numbered;
    forall n ensures Filter(Numbered(n), Sort(EarlierSeq, events)) == Filter(Numbered(n), events) {
      SameNumberInOrder(events, n);
    }
  }

  lemma SortedByNumber(events: seq<Event>)
    ensures var sorted := Sort(EarlierSeq, events);
            forall i, j | 0 <= i < j < |sorted| :: sorted[i].seq_ <= sorted[j].seq_
  {
    EarlierIsAnOrder();
    SortIsSorted(EarlierSeq, events);
    hide Sort, StrictWeakOrder;
  }

  lemma SameNumberInOrder(events: seq<Event>, n: int)
    ensures Filter(Numbered(n), Sort(EarlierSeq, events)) == Filter(Numbered(n), events)
  {
    var x := Event(n, "", "", "", "", None, None, None, "");
    EarlierIsAnOrder();
    SortIsStable(EarlierSeq, x, events);
    assert forall e :: Numbered(n)(e) <==> Ties(EarlierSeq, x)(e);
    hide Sort, Filter, StrictWeakOrder;
    SameFilter(Numbered(n), Ties(EarlierSeq, x), events);
    SameFilter(Numbered(n), Ties(EarlierSeq, x), Sort(EarlierSeq, events));
  }

  lemma {:induction false} SameFilter<T(!new)>(p: T -> bool, q: T -> bool, xs: seq<T>)
    requires forall x :: p(x) <==> q(x)
    ensures Filter(p, xs) == Filter(q, xs)
  {
    if xs != [] {
      SameFilter(p, q, xs[..|xs| - 1]);
    }
  }

  /** The next number follows the greatest that was read, and is one when nothing was. */
  lemma NumberingIsExact(codec: Codec, max: nat, file: string)
    ensures var s, loaded := Started(codec, max, file), Loaded(codec, file);
            && (loaded == [] ==> s.nextSeq == 1)
            && (forall e | e in loaded :: e.seq_ < s.nextSeq)
            && (loaded != [] ==> exists e | e in loaded :: e.seq_ == s.nextSeq - 1)
  {
    LoadedIsExact(codec, file);
    hide Loaded, IsReadAs, SplitLines, Filter, FlatMap;
    var loaded := Loaded(codec, file);
    if loaded != [] {
      assert loaded[|loaded| - 1] in loaded;
    }
  }
}

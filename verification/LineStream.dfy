/** Collecting a search tool's output line by line under a byte limit and a match limit. */
module LineStream {
  import opened Lines
  import opened Wrappers

  function CharBytes(c: char): nat {
    if c as int < 0x80 then 1 else if c as int < 0x800 then 2 else if c as int < 0x1_0000 then 3 else 4
  }

  /** The length of a string in UTF-8. */
  function ByteLength(s: string): nat {
    if s == [] then 0 else CharBytes(s[0]) + ByteLength(s[1..])
  }

  datatype Limits = Limits(maxMatches: nat, maxBytes: nat, isMatch: string -> bool) {
    predicate Valid() {
      maxMatches >= 1
    }
  }

  datatype Output = Output(stdout: string, bytes: nat, matches: nat, stopped: bool)

  /** The limits a run is given, with their defaults and least values. */
  function LimitsOf(maxMatches: Option<int>, maxBytes: Option<int>, isMatch: string -> bool): (l: Limits)
    ensures l.Valid() && l.isMatch == isMatch
    ensures maxMatches == None ==> l.maxMatches == 20
    ensures maxMatches.Some? ==> l.maxMatches == if maxMatches.value >= 1 then maxMatches.value else 1
    ensures maxBytes == None ==> l.maxBytes == 4_194_304
    ensures maxBytes.Some? ==> l.maxBytes == if maxBytes.value >= 32_768 then maxBytes.value else 32_768
  {
    Limits(Max(1, maxMatches.GetOr(20)), Max(32 * 1024, maxBytes.GetOr(4 * 1024 * 1024)), isMatch)
  }

  function Max(a: nat, b: int): nat {
    if b < a then a else b
  }

  const NOTHING := Output([], 0, 0, false)

  /** What one line adds: nothing once stopped, and nothing when it does not fit, which stops the stream. */
  function AppendLine(l: Limits, o: Output, line: string): Output {
    var normalized := Chomp(line);
    var size := ByteLength(normalized + ['\n']);
    if o.stopped then o
    else if o.bytes + size > l.maxBytes then o.(stopped := true)
    else if !l.isMatch(normalized) then Output(o.stdout + normalized + ['\n'], o.bytes + size, o.matches, false)
    else Output(o.stdout + normalized + ['\n'], o.bytes + size, o.matches + 1, o.matches + 1 >= l.maxMatches)
  }

  function AppendAll(l: Limits, o: Output, lines: seq<string>): Output {
    if lines == [] then o else AppendLine(l, AppendAll(l, o, lines[..|lines| - 1]), lines[|lines| - 1])
  }

  /** All lines of a text; the last one may be unterminated. */
  function AllLines(text: string): seq<string> {
    Complete(text) + if Tail(text) == [] then [] else [Tail(text)]
  }

  /** The output of a whole text, taken line by line. */
  function OutputOf(l: Limits, text: string): Output {
    AppendAll(l, NOTHING, AllLines(text))
  }

  // ---------------------------------------------------------------- the stream

  datatype Stream = Stream(output: Output, pending: string)

  function Receive(l: Limits, s: Stream, chunk: string): Stream {
    if s.output.stopped then s
    else
      var all := s.pending + chunk;
      var output := AppendAll(l, s.output, Complete(all));
      if output.stopped then Stream(output, [])
      else if ByteLength(Tail(all)) > l.maxBytes then Stream(output.(stopped := true), [])
      else Stream(output, Tail(all))
  }

  function ReceiveAll(l: Limits, s: Stream, chunks: seq<string>): Stream {
    if chunks == [] then s else Receive(l, ReceiveAll(l, s, chunks[..|chunks| - 1]), chunks[|chunks| - 1])
  }

  function Close(l: Limits, s: Stream): Output {
    if !s.output.stopped && s.pending != [] then AppendLine(l, s.output, s.pending) else s.output
  }

  /** In the midst of a chunk, `output` and the rest `pending` will come to what the whole chunk comes to. */
  ghost predicate IsReceiving(l: Limits, before: Stream, chunk: string, output: Output, pending: string) {
    && !before.output.stopped && !output.stopped
    && Tail(pending) == Tail(before.pending + chunk)
    && AppendAll(l, output, Complete(pending)) == AppendAll(l, before.output, Complete(before.pending + chunk))
  }

  lemma StoppedReceivesNothing(l: Limits, s: Stream, chunk: string)
    requires s.output.stopped
    ensures Receive(l, s, chunk) == s
  {
  }

  lemma ReceivingBegins(l: Limits, before: Stream, chunk: string)
    requires !before.output.stopped
    ensures IsReceiving(l, before, chunk, before.output, before.pending + chunk)
  {
  }

  lemma ReceivingTakesLine(l: Limits, before: Stream, chunk: string, output: Output, pending: string)
    requires IsReceiving(l, before, chunk, output, pending) && LineEnd(pending) < |pending|
    ensures var next, rest := AppendLine(l, output, pending[..LineEnd(pending)]), pending[LineEnd(pending) + 1..];
            if next.stopped then Receive(l, before, chunk) == Stream(next, []) else IsReceiving(l, before, chunk, next, rest)
  {
    hide Complete, Tail, AppendLine, LineEnd, ByteLength, AppendAll;
    TakeLine(l, output, pending);
    var next, rest := AppendLine(l, output, pending[..LineEnd(pending)]), pending[LineEnd(pending) + 1..];
    if next.stopped {
      StoppedStays(l, next, Complete(rest));
    }
  }

  lemma ReceivingEnds(l: Limits, before: Stream, chunk: string, output: Output, pending: string)
    requires IsReceiving(l, before, chunk, output, pending) && LineEnd(pending) == |pending|
    ensures Receive(l, before, chunk)
         == if ByteLength(pending) > l.maxBytes then Stream(output.(stopped := true), []) else Stream(output, pending)
  {
    assert Complete(pending) == [] && Tail(pending) == pending;
    NothingAppended(l, output);
    hide Complete, Tail, LineEnd, ByteLength, AppendAll;
  }

  class StreamingCommand {
    const limits: Limits
    var stdout: string
    var pending: string
    var stdoutBytes: nat
    var matchCount: nat
    var stoppedEarly: bool

    ghost function State(): Stream
      reads this
    {
      Stream(Output(stdout, stdoutBytes, matchCount, stoppedEarly), pending)
    }

    constructor (limits: Limits)
      ensures this.limits == limits && State() == Stream(NOTHING, [])
    {
      this.limits := limits;
      stdout, pending, stdoutBytes, matchCount, stoppedEarly := [], [], 0, 0, false;
    }

    method StopEarly()
      modifies this
      ensures State() == old(if stoppedEarly then State() else Stream(State().output.(stopped := true), []))
    {
      if stoppedEarly {
        return;
      }
      stoppedEarly := true;
      pending := [];
    }

    method Append(line: string)
      modifies this
      ensures State().output == AppendLine(limits, old(State().output), line)
      ensures pending == if stoppedEarly && !old(stoppedEarly) then [] else old(pending)
    {
      if stoppedEarly {
        return;
      }
      var normalizedLine := Chomp(line);
      var outputBytes := ByteLength(normalizedLine + ['\n']);
      if stdoutBytes + outputBytes > limits.maxBytes {
        StopEarly();
        return;
      }
      stdout := stdout + normalizedLine + ['\n'];
      stdoutBytes := stdoutBytes + outputBytes;
      if limits.isMatch(normalizedLine) {
        matchCount := matchCount + 1;
        if matchCount >= limits.maxMatches {
          StopEarly();
        }
      }
    }

    method OnData(chunk: string)
      modifies this
      ensures State() == Receive(limits, old(State()), chunk)
    {
      hide Receive, IsReceiving, AppendLine, LineEnd, ByteLength;
      if stoppedEarly {
        StoppedReceivesNothing(limits, State(), chunk);
        return;
      }
      ghost var before := State();
      pending := pending + chunk;
      var newlineIndex := LineEnd(pending);
      ReceivingBegins(limits, before, chunk);
      while newlineIndex < |pending|
        invariant !stoppedEarly && newlineIndex == LineEnd(pending)
        invariant IsReceiving(limits, before, chunk, State().output, pending)
        decreases |pending|
      {
        ReceivingTakesLine(limits, before, chunk, State().output, pending);
        Append(pending[..newlineIndex]);
        if stoppedEarly {
          return;
        }
        pending := pending[newlineIndex + 1..];
        newlineIndex := LineEnd(pending);
      }
      ReceivingEnds(limits, before, chunk, State().output, pending);
      if !stoppedEarly && ByteLength(pending) > limits.maxBytes {
        StopEarly();
      }
    }

    method OnClose()
      modifies this
      ensures State().output == Close(limits, old(State()))
    {
      if !stoppedEarly && pending != [] {
        Append(pending);
      }
    }
  }

  /** One turn of the loop: appending the lines of `pending` is appending its first line, then those of the rest. */
  lemma TakeLine(l: Limits, o: Output, pending: string)
    requires LineEnd(pending) < |pending|
    ensures var line, rest := pending[..LineEnd(pending)], pending[LineEnd(pending) + 1..];
            && AppendAll(l, o, Complete(pending)) == AppendAll(l, AppendLine(l, o, line), Complete(rest))
            && Tail(pending) == Tail(rest)
  {
    var line, rest := pending[..LineEnd(pending)], pending[LineEnd(pending) + 1..];
    hide Complete, Tail, LineEnd, AppendAll, AppendLine;
    SplitOnce(pending);
    OneLineAppended(l, o, line);
    AppendAllSplits(l, o, [line], Complete(rest));
  }

  lemma OneLineAppended(l: Limits, o: Output, line: string)
    ensures AppendAll(l, o, [line]) == AppendLine(l, o, line)
  {
    hide AppendLine;
    NothingAppended(l, o);
    assert [line][..0] == [];
  }

  lemma NothingAppended(l: Limits, o: Output)
    ensures AppendAll(l, o, []) == o
  {
  }

  lemma SplitOnce(text: string)
    requires LineEnd(text) < |text|
    ensures Complete(text) == [text[..LineEnd(text)]] + Complete(text[LineEnd(text) + 1..])
    ensures Tail(text) == Tail(text[LineEnd(text) + 1..])
  {
    hide LineEnd;
  }

  lemma AppendAllOneMore(l: Limits, o: Output, lines: seq<string>, line: string)
    ensures AppendAll(l, o, lines + [line]) == AppendLine(l, AppendAll(l, o, lines), line)
  {
    assert (lines + [line])[..|lines|] == lines;
  }

  lemma {:induction false} AppendAllSplits(l: Limits, o: Output, a: seq<string>, b: seq<string>)
    ensures AppendAll(l, o, a + b) == AppendAll(l, AppendAll(l, o, a), b)
  {
    hide AppendLine;
    if b == [] {
      assert a + b == a;
    } else {
      AppendAllSplits(l, o, a, b[..|b| - 1]);
      assert a + b == (a + b[..|b| - 1]) + [b[|b| - 1]];
      AppendAllOneMore(l, o, a + b[..|b| - 1], b[|b| - 1]);
    }
  }

  /** Once stopped, further lines change nothing. */
  lemma {:induction false} AppendAllStopped(l: Limits, o: Output, a: seq<string>, b: seq<string>)
    requires AppendAll(l, o, a).stopped
    ensures AppendAll(l, o, a + b) == AppendAll(l, o, a)
  {
    AppendAllSplits(l, o, a, b);
    StoppedStays(l, AppendAll(l, o, a), b);
  }

  lemma {:induction false} StoppedStays(l: Limits, o: Output, b: seq<string>)
    requires o.stopped
    ensures AppendAll(l, o, b) == o
  {
    if b != [] {
      StoppedStays(l, o, b[..|b| - 1]);
    }
  }

  // ---------------------------------------------------------------- chunks

  function Concat(chunks: seq<string>): string {
    if chunks == [] then [] else Concat(chunks[..|chunks| - 1]) + chunks[|chunks| - 1]
  }

  lemma {:induction false} ByteLengthConcat(a: string, b: string)
    ensures ByteLength(a + b) == ByteLength(a) + ByteLength(b)
  {
    if a == [] {
      assert a + b == b;
    } else {
      assert (a + b)[1..] == a[1..] + b;
      ByteLengthConcat(a[1..], b);
    }
  }

  /** Whatever is added to an oversized beginning of a line, the line does not fit. */
  lemma OversizedNeverFits(l: Limits, o: Output, pending: string, more: string)
    requires ByteLength(pending) > l.maxBytes
    ensures AppendLine(l, o, pending + more) == o.(stopped := true)
  {
    ByteLengthConcat(pending, more);
    LineBytes(pending + more);
    hide Chomp, ByteLength;
  }

  /** Normalising a line and ending it with a line feed does not make it shorter. */
  lemma LineBytes(line: string)
    ensures ByteLength(Chomp(line) + ['\n']) >= ByteLength(line)
  {
    var chomped := Chomp(line);
    assert ByteLength(['\n']) == 1 && ByteLength(['\r']) == 1;
    assert line == chomped || line == chomped + ['\r'];
    hide ByteLength, Chomp;
    ByteLengthConcat(chomped, ['\n']);
    ByteLengthConcat(chomped, ['\r']);
  }

  lemma TailStartsALine(pending: string, more: string)
    requires '\n' !in pending && pending != []
    ensures AllLines(pending + more) != [] && pending <= AllLines(pending + more)[0]
  {
    var text := pending + more;
    LineEndOf(pending, more);
    assert text[..|pending|] == pending;
    if LineEnd(text) < |text| {
      assert text[..LineEnd(text)][..|pending|] == pending;
    }
  }

  lemma AllLinesContinue(a: string, b: string)
    ensures AllLines(a + b) == Complete(a) + AllLines(Tail(a) + b)
  {
    SplitContinues(a, b);
    hide Complete, Tail;
    var tail := if Tail(a + b) == [] then [] else [Tail(a + b)];
    assert Complete(a) + Complete(Tail(a) + b) + tail == Complete(a) + (Complete(Tail(a) + b) + tail);
  }

  /** Where the stream stands after some text: at the fold of its complete lines, or stopped for good. */
  ghost predicate StandsAt(l: Limits, s: Stream, text: string) {
    if s.output.stopped then forall more :: Remaining(l, text, more) == s.output
    else s.output == AppendAll(l, NOTHING, Complete(text)) && s.pending == Tail(text)
  }

  function Remaining(l: Limits, text: string, more: string): Output {
    OutputOf(l, text + more)
  }

  lemma StoppedByLines(l: Limits, text: string)
    requires AppendAll(l, NOTHING, Complete(text)).stopped
    ensures forall more :: Remaining(l, text, more) == AppendAll(l, NOTHING, Complete(text))
  {
    hide Complete, Tail, AppendAll, AllLines;
    forall more ensures Remaining(l, text, more) == AppendAll(l, NOTHING, Complete(text)) {
      AllLinesContinue(text, more);
      AppendAllStopped(l, NOTHING, Complete(text), AllLines(Tail(text) + more));
    }
  }

  lemma StoppedByPending(l: Limits, text: string)
    requires !AppendAll(l, NOTHING, Complete(text)).stopped && ByteLength(Tail(text)) > l.maxBytes
    ensures forall more :: Remaining(l, text, more) == AppendAll(l, NOTHING, Complete(text)).(stopped := true)
  {
    hide Complete, Tail, AppendAll, AllLines, AppendLine;
    var o, tail := AppendAll(l, NOTHING, Complete(text)), Tail(text);
    forall more ensures Remaining(l, text, more) == o.(stopped := true) {
      AllLinesContinue(text, more);
      TailHasNoLineFeed(text);
      assert tail != [];
      TailStartsALine(tail, more);
      var lines := AllLines(tail + more);
      var first := lines[0];
      OversizedNeverFits(l, o, tail, first[|tail|..]);
      assert first == tail + first[|tail|..];
      FirstStops(l, o, lines);
      AppendAllSplits(l, NOTHING, Complete(text), lines);
    }
  }

  lemma FirstStops(l: Limits, o: Output, lines: seq<string>)
    requires lines != [] && AppendLine(l, o, lines[0]).stopped
    ensures AppendAll(l, o, lines) == AppendLine(l, o, lines[0])
  {
    hide AppendLine;
    assert AppendAll(l, o, [lines[0]]) == AppendLine(l, o, lines[0]);
    assert lines == [lines[0]] + lines[1..];
    AppendAllStopped(l, o, [lines[0]], lines[1..]);
  }

  lemma ReceiveStands(l: Limits, s: Stream, text: string, chunk: string)
    requires StandsAt(l, s, text)
    ensures StandsAt(l, Receive(l, s, chunk), text + chunk)
  {
    hide Complete, Tail, AppendAll, AllLines, OutputOf, ByteLength;
    if s.output.stopped {
      forall more ensures Remaining(l, text + chunk, more) == s.output {
        assert text + chunk + more == text + (chunk + more);
        assert Remaining(l, text, chunk + more) == s.output;
      }
    } else {
      SplitContinues(text, chunk);
      AppendAllSplits(l, NOTHING, Complete(text), Complete(Tail(text) + chunk));
      if AppendAll(l, NOTHING, Complete(text + chunk)).stopped {
        StoppedByLines(l, text + chunk);
      } else if ByteLength(Tail(text + chunk)) > l.maxBytes {
        StoppedByPending(l, text + chunk);
      }
    }
  }

  lemma {:induction false} ReceiveAllStands(l: Limits, chunks: seq<string>)
    ensures StandsAt(l, ReceiveAll(l, Stream(NOTHING, []), chunks), Concat(chunks))
  {
    if chunks == [] {
      assert Complete([]) == [] && Tail([]) == [];
    } else {
      hide StandsAt, Receive;
      ReceiveAllStands(l, chunks[..|chunks| - 1]);
      ReceiveStands(l, ReceiveAll(l, Stream(NOTHING, []), chunks[..|chunks| - 1]), Concat(chunks[..|chunks| - 1]),
                    chunks[|chunks| - 1]);
    }
  }

  /** However the output of the tool is cut into chunks, the collected output is that of the whole text. */
  lemma ChunkingIsInvisible(l: Limits, chunks: seq<string>)
    ensures Close(l, ReceiveAll(l, Stream(NOTHING, []), chunks)) == OutputOf(l, Concat(chunks))
  {
    ReceiveAllStands(l, chunks);
    var s, text := ReceiveAll(l, Stream(NOTHING, []), chunks), Concat(chunks);
    hide Complete, Tail, AppendAll, AppendLine, ReceiveAll, Concat;
    if s.output.stopped {
      assert text + [] == text;
      assert Remaining(l, text, []) == s.output;
    } else if s.pending != [] {
      AppendAllOneMore(l, NOTHING, Complete(text), Tail(text));
    } else {
      assert Complete(text) + [] == Complete(text);
    }
  }

  // ---------------------------------------------------------------- the longest prefix

  function Joined(lines: seq<string>): string {
    if lines == [] then [] else Joined(lines[..|lines| - 1]) + Chomp(lines[|lines| - 1]) + ['\n']
  }

  function Matches(l: Limits, lines: seq<string>): nat {
    if lines == [] then 0
    else Matches(l, lines[..|lines| - 1]) + if l.isMatch(Chomp(lines[|lines| - 1])) then 1 else 0
  }

  /** The first `k` lines fit the byte limit, and the last match allowed is not before the last of them. */
  predicate Fits(l: Limits, lines: seq<string>, k: nat)
    requires k <= |lines|
  {
    ByteLength(Joined(lines[..k])) <= l.maxBytes && (k > 0 ==> Matches(l, lines[..k - 1]) < l.maxMatches)
  }

  lemma FitsIsMonotone(l: Limits, lines: seq<string>, j: nat, k: nat)
    requires j <= k <= |lines| && Fits(l, lines, k)
    ensures Fits(l, lines, j)
    decreases k
  {
    if j < k {
      assert lines[..k][..k - 1] == lines[..k - 1];
      ByteLengthConcat(Joined(lines[..k - 1]), Chomp(lines[k - 1]) + ['\n']);
      assert Joined(lines[..k]) == Joined(lines[..k - 1]) + (Chomp(lines[k - 1]) + ['\n']);
      assert k > 1 ==> lines[..k - 1][..k - 2] == lines[..k - 2];
      hide ByteLength, Joined;
      FitsIsMonotone(l, lines, j, k - 1);
    }
  }

  /** `o` holds the longest prefix of the normalised lines that fits, namely `k` lines, and it is stopped exactly when a
      line was left out or the last allowed match was taken. */
  ghost predicate IsLongestPrefix(l: Limits, lines: seq<string>, o: Output, k: nat) {
    && k <= |lines|
    && o.stdout == Joined(lines[..k])
    && o.bytes == ByteLength(o.stdout)
    && o.matches == Matches(l, lines[..k]) <= l.maxMatches
    && Fits(l, lines, k)
    && (forall j: nat | j <= |lines| && Fits(l, lines, j) :: j <= k)
    && (o.stopped <==> k < |lines| || o.matches == l.maxMatches)
  }

  lemma {:induction false} OutputIsLongestPrefix(l: Limits, lines: seq<string>) returns (k: nat)
    requires l.Valid()
    ensures IsLongestPrefix(l, lines, AppendAll(l, NOTHING, lines), k)
  {
    if lines == [] {
      k := 0;
    } else {
      var init := lines[..|lines| - 1];
      k := OutputIsLongestPrefix(l, init);
      hide IsLongestPrefix, AppendLine;
      k := LongestPrefixStep(l, lines, AppendAll(l, NOTHING, init), k);
    }
  }

  lemma LongestPrefixStep(l: Limits, lines: seq<string>, o: Output, before: nat) returns (k: nat)
    requires l.Valid() && lines != [] && IsLongestPrefix(l, lines[..|lines| - 1], o, before)
    ensures IsLongestPrefix(l, lines, AppendLine(l, o, lines[|lines| - 1]), k)
  {
    if o.stopped {
      k := before;
      StoppedPrefix(l, lines, o, before);
    } else {
      k := GrowingPrefix(l, lines, o, before);
    }
  }

  lemma StoppedPrefix(l: Limits, lines: seq<string>, o: Output, before: nat)
    requires l.Valid() && lines != [] && IsLongestPrefix(l, lines[..|lines| - 1], o, before) && o.stopped
    ensures IsLongestPrefix(l, lines, o, before)
  {
    var n := |lines| - 1;
    assert lines[..n][..before] == lines[..before];
    FitsOfInit(l, lines);
    assert !Fits(l, lines, n + 1) by {
      if Fits(l, lines, n + 1) && before < n {
        FitsIsMonotone(l, lines, n, n + 1);
      }
    }
    hide Fits, Joined, Matches, ByteLength;
  }

  lemma PrefixIsCut(l: Limits, lines: seq<string>, o: Output)
    requires l.Valid() && lines != []
    requires IsLongestPrefix(l, lines[..|lines| - 1], o, |lines| - 1) && !o.stopped
    requires o.bytes + ByteLength(Chomp(lines[|lines| - 1]) + ['\n']) > l.maxBytes
    ensures IsLongestPrefix(l, lines, o.(stopped := true), |lines| - 1)
  {
    var n := |lines| - 1;
    assert lines[..n][..n] == lines[..n] && lines[..n + 1] == lines;
    FitsOfInit(l, lines);
    JoinedStep(lines);
    hide Joined, Chomp, ByteLength, Matches;
    assert !Fits(l, lines, n + 1);
  }

  lemma PrefixGrows(l: Limits, lines: seq<string>, o: Output)
    requires l.Valid() && lines != []
    requires IsLongestPrefix(l, lines[..|lines| - 1], o, |lines| - 1) && !o.stopped
    requires o.bytes + ByteLength(Chomp(lines[|lines| - 1]) + ['\n']) <= l.maxBytes
    ensures IsLongestPrefix(l, lines, AppendLine(l, o, lines[|lines| - 1]), |lines|)
  {
    var n := |lines| - 1;
    assert lines[..n][..n] == lines[..n] && lines[..n + 1] == lines;
    JoinedStep(lines);
    hide Joined, Chomp, ByteLength;
    assert o.matches < l.maxMatches && Fits(l, lines, n + 1);
  }

  lemma GrowingPrefix(l: Limits, lines: seq<string>, o: Output, before: nat) returns (k: nat)
    requires l.Valid() && lines != [] && IsLongestPrefix(l, lines[..|lines| - 1], o, before) && !o.stopped
    ensures IsLongestPrefix(l, lines, AppendLine(l, o, lines[|lines| - 1]), k)
  {
    var n := |lines| - 1;
    hide Fits, Joined, Chomp, ByteLength, Matches;
    assert before == n;
    if o.bytes + ByteLength(Chomp(lines[n]) + ['\n']) > l.maxBytes {
      k := n;
      PrefixIsCut(l, lines, o);
    } else {
      k := n + 1;
      PrefixGrows(l, lines, o);
    }
  }

  lemma JoinedStep(lines: seq<string>)
    requires lines != []
    ensures var n := |lines| - 1;
            && Joined(lines) == Joined(lines[..n]) + Chomp(lines[n]) + ['\n']
            && ByteLength(Joined(lines)) == ByteLength(Joined(lines[..n])) + ByteLength(Chomp(lines[n]) + ['\n'])
  {
    hide ByteLength, Chomp;
    var n := |lines| - 1;
    var init, last := Joined(lines[..n]), Chomp(lines[n]);
    assert Joined(lines) == init + last + ['\n'];
    hide Joined;
    assert init + last + ['\n'] == init + (last + ['\n']);
    ByteLengthConcat(init, last + ['\n']);
  }

  lemma FitsOfInit(l: Limits, lines: seq<string>)
    requires lines != []
    ensures forall j: nat | j < |lines| :: Fits(l, lines, j) <==> Fits(l, lines[..|lines| - 1], j)
  {
    var init := lines[..|lines| - 1];
    forall j: nat | j < |lines| ensures Fits(l, lines, j) <==> Fits(l, init, j) {
      assert lines[..j] == init[..j];
      assert j > 0 ==> lines[..j - 1] == init[..j - 1];
    }
  }
}

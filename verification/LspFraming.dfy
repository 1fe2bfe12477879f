/** Content-Length framing of the LSP base protocol: writing a frame, and decoding a byte stream that
    arrives in arbitrary chunks. */
module LspFraming {
  import opened Letters
  import opened Wrappers
  import opened Numerals
  import opened Sequences

  newtype byte = b: int | 0 <= b < 256

  type Bytes = seq<byte>

  function Encode(s: string): Bytes {
    seq(|s|, i requires 0 <= i < |s| => if s[i] as int < 256 then s[i] as int as byte else 63)
  }

  function Decode(bytes: Bytes): string {
    seq(|bytes|, i requires 0 <= i < |bytes| => bytes[i] as int as char)
  }

  /** Index of the first header terminator from `i` on, or the length when there is none. */
  function Terminator(b: Bytes, i: nat): (e: nat)
    requires i <= |b|
    ensures i <= e <= |b|
    ensures e < |b| ==> TerminatorAt(b, e)
    ensures forall k | i <= k < e :: !TerminatorAt(b, k)
    decreases |b| - i
  {
    if i == |b| || TerminatorAt(b, i) then i else Terminator(b, i + 1)
  }

  predicate TerminatorAt(b: Bytes, i: nat) {
    i + 4 <= |b| && b[i] == 13 && b[i + 1] == 10 && b[i + 2] == 13 && b[i + 3] == 10
  }

  // ---------------------------------------------------------------- the Content-Length pattern

  predicate MatchesIgnoringCase(h: string, i: nat, pattern: string) {
    i + |pattern| <= |h| && forall k | 0 <= k < |pattern| :: LowerChar(h[i + k]) == pattern[k]
  }

  function SkipSpaces(h: string, i: nat): (j: nat)
    requires i <= |h|
    ensures i <= j <= |h|
    decreases |h| - i
  {
    if i < |h| && (h[i] == ' ' || '\t' <= h[i] <= '\r') then SkipSpaces(h, i + 1) else i
  }

  function SkipDigits(h: string, i: nat): (j: nat)
    requires i <= |h|
    ensures i <= j <= |h|
    decreases |h| - i
  {
    if i < |h| && '0' <= h[i] <= '9' then SkipDigits(h, i + 1) else i
  }

  const LENGTH_FIELD: string := "content-length:"

  /** The field name, optional white space and a run of digits, at position `i`. */
  function LengthAt(h: string, i: nat): Option<nat> {
    if i > |h| || !MatchesIgnoringCase(h, i, LENGTH_FIELD) then None
    else
      var from := SkipSpaces(h, i + |LENGTH_FIELD|);
      var to := SkipDigits(h, from);
      if from == to then None else Some(Read(h[from..to], 10))
  }

  /** The leftmost match at the start of the header or after a line break. */
  function LengthFrom(h: string, i: nat): Option<nat>
    decreases |h| - i
  {
    if i > |h| then None
    else if (i == 0 || (i >= 2 && h[i - 2..i] == "\r\n")) && LengthAt(h, i).Some? then LengthAt(h, i)
    else LengthFrom(h, i + 1)
  }

  function ContentLength(header: Bytes): Option<nat> {
    LengthFrom(Decode(header), 0)
  }

  // ---------------------------------------------------------------- decoding

  datatype Drained = Drained(bodies: seq<Bytes>, rest: Bytes, rejected: bool)

  /** One turn of the decode loop: wait for more, give the buffer up, or take a body off its front. */
  datatype Turn = Wait | GiveUp | Take(body: Bytes, rest: Bytes)

  function NextTurn(b: Bytes): (t: Turn)
    ensures t.Take? ==> |t.rest| < |b|
  {
    var e := Terminator(b, 0);
    if e == |b| then Wait
    else match ContentLength(b[..e])
      case None => GiveUp
      case Some(n) =>
        var from, to := e + 4, e + 4 + n;
        if |b| < to then Wait else Take(b[from..to], b[to..])
  }

  /** Everything complete in a buffer, and what stays buffered. A header without a length discards
      the whole buffer. */
  function Drain(b: Bytes): Drained
    decreases |b|
  {
    match NextTurn(b)
    case Wait => Drained([], b, false)
    case GiveUp => Drained([], [], true)
    case Take(body, rest) =>
      var d := Drain(rest);
      Drained([body] + d.bodies, d.rest, d.rejected)
  }

  /** Feeding one more chunk to a client that holds `rest`. */
  function Feed(d: Drained, chunk: Bytes): Drained {
    var more := Drain(d.rest + chunk);
    Drained(d.bodies + more.bodies, more.rest, d.rejected || more.rejected)
  }

  function FeedAll(chunks: seq<Bytes>): Drained {
    if chunks == [] then Drained([], [], false)
    else Feed(FeedAll(chunks[..|chunks| - 1]), chunks[|chunks| - 1])
  }

  // ---------------------------------------------------------------- chunk independence

  lemma TerminatorOfPrefix(a: Bytes, b: Bytes)
    requires Terminator(a, 0) < |a|
    ensures Terminator(a + b, 0) == Terminator(a, 0)
  {
    var e := Terminator(a, 0);
    assert TerminatorAt(a + b, e);
    assert forall k: nat | k < e :: TerminatorAt(a + b, k) == TerminatorAt(a, k);
  }

  /** Bytes that arrive later do not change what the loop already does. */
  lemma NextTurnOfPrefix(a: Bytes, b: Bytes)
    ensures NextTurn(a).GiveUp? ==> NextTurn(a + b).GiveUp?
    ensures NextTurn(a).Take? ==> NextTurn(a + b) == Take(NextTurn(a).body, NextTurn(a).rest + b)
  {
    hide ContentLength;
    var e := Terminator(a, 0);
    if e < |a| {
      TerminatorOfPrefix(a, b);
      assert (a + b)[..e] == a[..e];
      match ContentLength(a[..e])
      case None =>
      case Some(n) =>
        if e + 4 + n <= |a| {
          assert (a + b)[e + 4..e + 4 + n] == a[e + 4..e + 4 + n];
          assert (a + b)[e + 4 + n..] == a[e + 4 + n..] + b;
        }
    }
  }

  function Taken(body: Bytes, d: Drained): Drained {
    Drained([body] + d.bodies, d.rest, d.rejected)
  }

  lemma DrainStep(b: Bytes)
    ensures Drain(b) == match NextTurn(b)
                        case Wait => Drained([], b, false)
                        case GiveUp => Drained([], [], true)
                        case Take(body, rest) => Taken(body, Drain(rest))
  {
    hide NextTurn;
  }

  lemma TakeThenFeed(body: Bytes, d: Drained, b: Bytes)
    ensures Feed(Taken(body, d), b) == Taken(body, Feed(d, b))
  {
    hide Drain;
    var more := Drain(d.rest + b).bodies;
    assert [body] + (d.bodies + more) == ([body] + d.bodies) + more;
  }

  /** Splitting a stream in two changes nothing, unless the first part loses its buffer to a header
      without a length. */
  lemma {:induction false} SplittingIsInvisible(a: Bytes, b: Bytes)
    ensures !Drain(a).rejected ==> Drain(a + b) == Feed(Drain(a), b)
    ensures Drain(a).rejected ==> Drain(a + b) == Drain(a)
    decreases |a|
  {
    hide NextTurn, Drain;
    NextTurnOfPrefix(a, b);
    DrainStep(a);
    DrainStep(a + b);
    match NextTurn(a)
    case Wait => assert [] + Drain(a + b).bodies == Drain(a + b).bodies;
    case GiveUp =>
    case Take(body, rest) =>
      SplittingIsInvisible(rest, b);
      TakeThenFeed(body, Drain(rest), b);
  }

  /** When chunking can be seen: exactly when a header without a length is followed by something that
      leaves a trace. */
  lemma ChunkingShowsOnlyAfterRejection(a: Bytes, b: Bytes)
    ensures (Drain(a + b).bodies == Feed(Drain(a), b).bodies && Drain(a + b).rest == Feed(Drain(a), b).rest)
       <==> (!Drain(a).rejected || (Drain(b).bodies == [] && Drain(b).rest == []))
  {
    SplittingIsInvisible(a, b);
    if Drain(a).rejected {
      RejectionEmptiesTheBuffer(a);
      assert [] + b == b;
    }
  }

  lemma {:induction false} RejectionEmptiesTheBuffer(a: Bytes)
    requires Drain(a).rejected
    ensures Drain(a).rest == []
    decreases |a|
  {
    hide NextTurn;
    if NextTurn(a).Take? {
      RejectionEmptiesTheBuffer(NextTurn(a).rest);
    }
  }

  function Concat(chunks: seq<Bytes>): Bytes {
    FlatMap((c: Bytes) => c, chunks)
  }

  lemma ConcatAppend(chunks: seq<Bytes>)
    requires chunks != []
    ensures Concat(chunks) == Concat(chunks[..|chunks| - 1]) + chunks[|chunks| - 1]
  {
  }

  /** A stream that never loses its buffer is decoded the same way however it is cut into chunks. */
  lemma {:induction false} ChunkingIsInvisible(chunks: seq<Bytes>)
    requires !Drain(Concat(chunks)).rejected
    ensures FeedAll(chunks) == Drain(Concat(chunks))
  {
    if chunks != [] {
      var init, last := chunks[..|chunks| - 1], chunks[|chunks| - 1];
      ConcatAppend(chunks);
      SplittingIsInvisible(Concat(init), last);
      ChunkingIsInvisible(init);
    } else {
      assert Terminator([], 0) == 0;
    }
  }

  // ---------------------------------------------------------------- round trip with the writer

  function Header(length: nat): string {
    "Content-Length: " + Print(length, 10) + "\r\n\r\n"
  }

  /** `writeMessage`: the byte length of the body, a blank line, the body. */
  function Frame(body: Bytes): Bytes {
    Encode(Header(|body|)) + body
  }

  function EncodeAll(bodies: seq<Bytes>): Bytes {
    if bodies == [] then [] else Frame(bodies[0]) + EncodeAll(bodies[1..])
  }

  /** How many whole frames of `bodies` lie within the first `n` bytes of the stream. */
  function CompleteFrames(bodies: seq<Bytes>, n: nat): (k: nat)
    ensures k <= |bodies|
  {
    if bodies == [] || |Frame(bodies[0])| > n then 0
    else 1 + CompleteFrames(bodies[1..], n - |Frame(bodies[0])|)
  }

  function HeaderLength(length: nat): nat {
    16 + |Print(length, 10)|
  }

  lemma SkipDigitsStops(h: string, i: nat, j: nat)
    requires i <= j <= |h| && (forall k | i <= k < j :: '0' <= h[k] <= '9') && j == |h|
    ensures SkipDigits(h, i) == j
    decreases j - i
  {
    if i < j {
      SkipDigitsStops(h, i + 1, j);
    }
  }

  lemma LengthOfHeader(digits: string, h: string)
    requires h == "Content-Length: " + digits && digits != []
    requires forall c | c in digits :: '0' <= c <= '9'
    ensures LengthFrom(h, 0) == Some(Read(digits, 10))
  {
    assert h[..16] == "Content-Length: ";
    assert forall k | 0 <= k < 15 :: h[k] == "Content-Length: "[k];
    assert MatchesIgnoringCase(h, 0, LENGTH_FIELD);
    assert h[15] == ' ';
    assert h[16..] == digits;
    assert forall k | 16 <= k < |h| :: h[k] == digits[k - 16] && h[k] in digits;
    assert SkipSpaces(h, 15) == SkipSpaces(h, 16) == 16;
    SkipDigitsStops(h, 16, |h|);
    assert h[16..|h|] == digits;
  }

  lemma HeaderOfFrame(body: Bytes)
    ensures var e := HeaderLength(|body|);
            && e + 4 + |body| == |Frame(body)|
            && TerminatorAt(Frame(body), e)
            && (forall k | 0 <= k < e :: Frame(body)[k] != 13)
            && ContentLength(Frame(body)[..e]) == Some(|body|)
            && Frame(body)[e + 4..] == body
  {
    var digits := Print(|body|, 10);
    PrintIsDigits(|body|, 10);
    ReadPrint(|body|, 10);
    var h, e := Header(|body|), HeaderLength(|body|);
    assert |h| == e + 4;
    assert h[e..] == "\r\n\r\n";
    var text := "Content-Length: " + digits;
    assert h[..e] == text;
    LengthOfHeader(digits, text);
    var f := Frame(body);
    assert Decode(f[..e]) == text by {
      forall k | 0 <= k < e ensures Decode(f[..e])[k] == text[k] {
        assert text[k] == h[k];
        HeaderIsPlain(digits, text, k);
      }
    }
    forall k | 0 <= k < e ensures f[k] != 13 {
      assert text[k] == h[k];
      HeaderIsPlain(digits, text, k);
    }
    assert h[e] == '\r' && h[e + 1] == '\n' && h[e + 2] == '\r' && h[e + 3] == '\n';
  }

  lemma HeaderIsPlain(digits: string, text: string, k: nat)
    requires text == "Content-Length: " + digits && k < |text|
    requires forall c | c in digits :: IsDigit(c, 10)
    ensures text[k] as int < 256 && text[k] != '\r'
  {
    if k < 16 {
      assert text[k] == "Content-Length: "[k];
    } else {
      assert text[k] == digits[k - 16] && text[k] in digits;
    }
  }

  lemma NextTurnOfFrame(body: Bytes, more: Bytes)
    ensures NextTurn(Frame(body) + more) == Take(body, more)
  {
    hide ContentLength, Frame;
    HeaderOfFrame(body);
    var f, e := Frame(body) + more, HeaderLength(|body|);
    assert TerminatorAt(f, e) by {
      assert f[e..e + 4] == Frame(body)[e..e + 4];
    }
    assert forall k | 0 <= k < e :: f[k] == Frame(body)[k] && !TerminatorAt(f, k);
    assert Terminator(f, 0) == e;
    assert f[..e] == Frame(body)[..e];
    assert f[e + 4..e + 4 + |body|] == Frame(body)[e + 4..];
    assert f[e + 4 + |body|..] == more;
  }

  lemma NextTurnOfCutFrame(body: Bytes, n: nat)
    requires n < |Frame(body)|
    ensures NextTurn(Frame(body)[..n]) == Wait
  {
    hide ContentLength, Frame;
    HeaderOfFrame(body);
    var f, e := Frame(body)[..n], HeaderLength(|body|);
    assert forall k | 0 <= k < n :: f[k] == Frame(body)[k];
    if Terminator(f, 0) < n {
      assert Terminator(f, 0) == e by {
        assert TerminatorAt(f, Terminator(f, 0));
        assert n >= e + 4 ==> TerminatorAt(f, e);
      }
      assert f[..e] == Frame(body)[..e];
    }
  }

  /** Decoding the first `n` bytes of a written stream gives the bodies of the whole frames in it, and
      keeps exactly the bytes after them. */
  lemma {:induction false} DrainOfWrittenPrefix(bodies: seq<Bytes>, n: nat)
    requires n <= |EncodeAll(bodies)|
    ensures var k := CompleteFrames(bodies, n);
            && |EncodeAll(bodies[..k])| <= n
            && Drain(EncodeAll(bodies)[..n]) == Drained(bodies[..k], EncodeAll(bodies)[..n][|EncodeAll(bodies[..k])|..], false)
  {
    hide NextTurn, Frame, Drain;
    var stream := EncodeAll(bodies);
    DrainStep(stream[..n]);
    if bodies == [] {
      assert stream[..n] == [];
      NothingIsIncomplete();
    } else {
      var first, rest := Frame(bodies[0]), EncodeAll(bodies[1..]);
      if n < |first| {
        assert stream[..n] == first[..n];
        NextTurnOfCutFrame(bodies[0], n);
      } else {
        var k := CompleteFrames(bodies[1..], n - |first|);
        DrainOfWrittenPrefix(bodies[1..], n - |first|);
        assert stream[..n] == first + rest[..n - |first|];
        NextTurnOfFrame(bodies[0], rest[..n - |first|]);
        assert bodies[..k + 1][1..] == bodies[1..][..k];
        assert bodies[..k + 1] == [bodies[0]] + bodies[1..][..k];
        assert EncodeAll(bodies[..k + 1]) == first + EncodeAll(bodies[1..][..k]);
      }
    }
  }

  lemma NothingIsIncomplete()
    ensures NextTurn([]) == Wait
  {
  }

  /** The round trip: however the written stream is cut, and wherever it stops, the client delivers the
      bodies of the whole frames received, in order, and buffers exactly the incomplete rest. */
  lemma FramingRoundTrips(bodies: seq<Bytes>, chunks: seq<Bytes>)
    requires Concat(chunks) <= EncodeAll(bodies)
    ensures var received := Concat(chunks);
            var k := CompleteFrames(bodies, |received|);
            && |EncodeAll(bodies[..k])| <= |received|
            && FeedAll(chunks) == Drained(bodies[..k], received[|EncodeAll(bodies[..k])|..], false)
  {
    var received := Concat(chunks);
    assert EncodeAll(bodies)[..|received|] == received;
    DrainOfWrittenPrefix(bodies, |received|);
    ChunkingIsInvisible(chunks);
  }

  /** Once the whole stream has arrived every body has been delivered and nothing is left over. */
  lemma {:induction false} EverythingIsDelivered(bodies: seq<Bytes>)
    ensures CompleteFrames(bodies, |EncodeAll(bodies)|) == |bodies|
  {
    if bodies != [] {
      EverythingIsDelivered(bodies[1..]);
    }
  }
}

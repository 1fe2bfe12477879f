/** Which headers give a length, wherever in the header it stands, and the frames that are read by them. */
module LspHeaders {
  import opened Letters
  import opened LspFraming
  import opened Numerals
  import opened Wrappers

  const BLANKS: string := [' ', 9 as char, 10 as char, 11 as char, 12 as char, 13 as char]

  /** The name of the field, in capital or small letters. */
  predicate IsFieldName(text: string) {
    |text| == 15 && forall k | 0 <= k < 15 :: text[k] == "content-length:"[k] || text[k] == "CONTENT-LENGTH:"[k]
  }

  /** A line of the header that begins at `i` gives a length: its name, blanks, and the digits from `start` up to `end`. */
  predicate GivesLength(h: string, i: nat, start: nat, end: nat) {
    && i + 15 <= start < end <= |h|
    && (i == 0 || (i >= 2 && h[i - 2] == '\r' && h[i - 1] == '\n'))
    && IsFieldName(h[i..i + 15])
    && (forall k | i + 15 <= k < start :: h[k] in BLANKS)
    && (forall k | start <= k < end :: h[k] in DIGITS)
    && (end < |h| ==> h[end] !in DIGITS)
  }

  /** No line from `from` on and before this one gives a length. */
  ghost predicate GivesFirst(h: string, from: nat, i: nat, start: nat, end: nat) {
    from <= i && GivesLength(h, i, start, end) && forall k: nat, a: nat, b: nat | from <= k < i :: !GivesLength(h, k, a, b)
  }

  ghost predicate IsFirstLength(h: string, from: nat, n: nat) {
    exists i: nat, start: nat, end: nat :: GivesFirst(h, from, i, start, end) && n == Read(h[start..end], 10)
  }

  lemma FirstLengthIsEarlier(h: string, i: nat, n: nat)
    requires IsFirstLength(h, i + 1, n) && forall start: nat, end: nat :: !GivesLength(h, i, start, end)
    ensures IsFirstLength(h, i, n)
  {
    var j: nat, start: nat, end: nat :| GivesFirst(h, i + 1, j, start, end) && n == Read(h[start..end], 10);
    assert GivesFirst(h, i, j, start, end);
  }

  lemma NamesAreTheField(h: string, i: nat)
    requires i + 15 <= |h|
    ensures MatchesIgnoringCase(h, i, LENGTH_FIELD) <==> IsFieldName(h[i..i + 15])
  {
    var name := h[i..i + 15];
    forall k | 0 <= k < 15
      ensures LowerChar(name[k]) == LENGTH_FIELD[k] <==> name[k] == "content-length:"[k] || name[k] == "CONTENT-LENGTH:"[k]
    {
      SameLetter(name[k], k);
    }
    hide LowerChar;
    if IsFieldName(name) {
      forall k | 0 <= k < 15 ensures LowerChar(h[i + k]) == LENGTH_FIELD[k] {
        assert name[k] == h[i + k];
      }
    }
    if MatchesIgnoringCase(h, i, LENGTH_FIELD) {
      forall k | 0 <= k < 15 ensures LowerChar(name[k]) == LENGTH_FIELD[k] {
        assert name[k] == h[i + k];
      }
    }
  }

  lemma SameLetter(c: char, k: nat)
    requires k < 15
    ensures LowerChar(c) == LENGTH_FIELD[k] <==> c == "content-length:"[k] || c == "CONTENT-LENGTH:"[k]
  {
  }

  lemma BlanksAreTheSpaces(c: char)
    ensures c in BLANKS <==> c == ' ' || '\t' <= c <= '\r'
  {
  }

  lemma {:induction false} SpacesSkipped(h: string, i: nat)
    requires i <= |h|
    ensures var j := SkipSpaces(h, i);
            (forall k | i <= k < j :: h[k] in BLANKS) && (j < |h| ==> h[j] !in BLANKS)
    decreases |h| - i
  {
    if i < |h| {
      BlanksAreTheSpaces(h[i]);
      if h[i] in BLANKS {
        SpacesSkipped(h, i + 1);
      }
    }
  }

  lemma {:induction false} DigitsSkipped(h: string, i: nat)
    requires i <= |h|
    ensures var j := SkipDigits(h, i);
            (forall k | i <= k < j :: h[k] in DIGITS) && (j < |h| ==> h[j] !in DIGITS)
    decreases |h| - i
  {
    if i < |h| {
      DigitsAreARange(h[i]);
      if h[i] in DIGITS {
        DigitsSkipped(h, i + 1);
      }
    }
  }

  lemma DigitsAreNotBlank(c: char)
    requires c in DIGITS
    ensures c !in BLANKS
  {
    DigitsAreARange(c);
    BlanksAreTheSpaces(c);
  }

  predicate BeginsALine(h: string, i: nat) {
    i == 0 || (2 <= i <= |h| && h[i - 2..i] == "\r\n")
  }

  /** The field at one place. */
  lemma LengthHere(h: string, i: nat)
    requires i <= |h| && BeginsALine(h, i)
    ensures forall start: nat, end: nat :: GivesLength(h, i, start, end) ==> LengthAt(h, i) == Some(Read(h[start..end], 10))
    ensures LengthAt(h, i).Some? ==> exists start: nat, end: nat :: GivesLength(h, i, start, end)
  {
    if i + 15 <= |h| {
      NamesAreTheField(h, i);
      var from := SkipSpaces(h, i + 15);
      var to := SkipDigits(h, from);
      SpacesSkipped(h, i + 15);
      DigitsSkipped(h, from);
      hide SkipSpaces, SkipDigits, MatchesIgnoringCase, IsFieldName;
      if from < |h| && h[from] in DIGITS {
        DigitsAreNotBlank(h[from]);
      }
      forall start: nat, end: nat | GivesLength(h, i, start, end)
        ensures LengthAt(h, i) == Some(Read(h[start..end], 10))
      {
        assert h[start] in DIGITS;
        DigitsAreNotBlank(h[start]);
        assert start == from;
        assert end == to;
      }
      if LengthAt(h, i).Some? {
        assert GivesLength(h, i, from, to);
      }
    }
  }

  lemma NoLengthElsewhere(h: string, i: nat)
    ensures i > |h| || !BeginsALine(h, i) ==> forall start: nat, end: nat :: !GivesLength(h, i, start, end)
  {
    if 2 <= i <= |h| {
      assert h[i - 2..i] == "\r\n" <==> h[i - 2] == '\r' && h[i - 1] == '\n';
    }
  }

  lemma {:induction false} FirstLengthFrom(h: string, i: nat)
    ensures match LengthFrom(h, i)
            case None => forall j: nat, start: nat, end: nat | i <= j :: !GivesLength(h, j, start, end)
            case Some(n) => IsFirstLength(h, i, n)
    decreases |h| - i
  {
    hide GivesLength, LengthAt, IsFirstLength;
    if i > |h| {
      forall j: nat, start: nat, end: nat | i <= j ensures !GivesLength(h, j, start, end) {
        NoLengthElsewhere(h, j);
      }
    } else {
      if BeginsALine(h, i) {
        LengthHere(h, i);
      } else {
        NoLengthElsewhere(h, i);
      }
      if BeginsALine(h, i) && LengthAt(h, i).Some? {
        LengthHereIsFirst(h, i);
      } else {
        assert forall start: nat, end: nat :: !GivesLength(h, i, start, end);
        FirstLengthFrom(h, i + 1);
        if LengthFrom(h, i + 1).Some? {
          FirstLengthIsEarlier(h, i, LengthFrom(h, i + 1).value);
        }
      }
    }
  }

  lemma LengthHereIsFirst(h: string, i: nat)
    requires i <= |h| && BeginsALine(h, i) && LengthAt(h, i).Some?
    ensures IsFirstLength(h, i, LengthAt(h, i).value)
  {
    hide LengthAt;
    LengthHere(h, i);
    var start: nat, end: nat :| GivesLength(h, i, start, end);
    assert GivesFirst(h, i, i, start, end);
  }

  /** A header's length is that of the first line that gives one, whatever lines stand before it. */
  lemma LengthIsExact(h: string)
    ensures match LengthFrom(h, 0)
            case None => forall i: nat, start: nat, end: nat :: !GivesLength(h, i, start, end)
            case Some(n) => IsFirstLength(h, 0, n)
  {
    FirstLengthFrom(h, 0);
  }

  lemma TurnAfterHeader(b: Bytes, e: nat, n: nat)
    requires Terminator(b, 0) == e < |b| && ContentLength(b[..e]) == Some(n)
    ensures e + 4 + n <= |b| ==> NextTurn(b) == Take(b[e + 4..e + 4 + n], b[e + 4 + n..])
    ensures e + 4 + n > |b| ==> NextTurn(b) == Wait
  {
    hide ContentLength, Terminator, TerminatorAt;
  }

  /** A header ends at the first blank line. */
  lemma TerminatorIsABlankLine(b: Bytes, i: nat)
    ensures TerminatorAt(b, i) <==> i + 4 <= |b| && Decode(b[i..i + 4]) == "\r\n\r\n"
  {
    if i + 4 <= |b| {
      var d := Decode(b[i..i + 4]);
      assert d[0] as int == b[i] as int && d[1] as int == b[i + 1] as int;
      assert d[2] as int == b[i + 2] as int && d[3] as int == b[i + 3] as int;
      assert d == "\r\n\r\n" <==> d[0] == '\r' && d[1] == '\n' && d[2] == '\r' && d[3] == '\n';
    }
  }

  /** A header up to and with the blank line that ends it. */
  predicate IsHeader(header: Bytes, n: nat) {
    |header| >= 4 && Terminator(header, 0) == |header| - 4 && ContentLength(header[..|header| - 4]) == Some(n)
  }

  /** Whatever its header says besides, a frame is taken off the front of the buffer once all of its body is there. */
  lemma AnyFrameIsTaken(header: Bytes, n: nat, body: Bytes, rest: Bytes)
    requires IsHeader(header, n)
    ensures |body| == n ==> NextTurn(header + (body + rest)) == Take(body, rest)
    ensures |body| < n ==> NextTurn(header + body) == Wait
  {
    if |body| < n {
      HeaderGivesTurn(header, n, body);
    } else if |body| == n {
      HeaderGivesTurn(header, n, body + rest);
      assert (body + rest)[..n] == body && (body + rest)[n..] == rest;
    }
  }

  lemma HeaderGivesTurn(header: Bytes, n: nat, more: Bytes)
    requires IsHeader(header, n)
    ensures NextTurn(header + more) == if |more| < n then Wait else Take(more[..n], more[n..])
  {
    hide ContentLength, TerminatorAt;
    var b, e := header + more, |header| - 4;
    TerminatorOfPrefix(header, more);
    assert b[..e] == header[..e];
    TurnAfterHeader(b, e, n);
    hide Terminator, NextTurn;
    if n <= |more| {
      assert b[e + 4..e + 4 + n] == more[..n] && b[e + 4 + n..] == more[n..];
    }
  }
}

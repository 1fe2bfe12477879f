/** Splitting text at line feeds, and how that commutes with putting text together. */
module Lines {

  /** The index of the first line feed, or the length of the text. */
  function LineEnd(text: string): (k: nat)
    ensures k <= |text|
  {
    if text == [] || text[0] == '\n' then 0 else 1 + LineEnd(text[1..])
  }

  lemma {:induction false} LineEndMeaning(text: string)
    ensures '\n' !in text[..LineEnd(text)]
    ensures LineEnd(text) < |text| ==> text[LineEnd(text)] == '\n'
  {
    if text != [] && text[0] != '\n' {
      LineEndMeaning(text[1..]);
      assert text[..LineEnd(text)] == [text[0]] + text[1..][..LineEnd(text[1..])];
    }
  }

  lemma {:induction false} LineEndOf(line: string, rest: string)
    requires '\n' !in line
    ensures rest == [] ==> LineEnd(line + rest) == |line|
    ensures rest != [] && rest[0] == '\n' ==> LineEnd(line + rest) == |line|
    ensures LineEnd(line + rest) == |line| + LineEnd(rest)
  {
    if line == [] {
      assert line + rest == rest;
    } else {
      assert line[0] in line;
      assert (line + rest)[1..] == line[1..] + rest;
      LineEndOf(line[1..], rest);
    }
  }

  /** The lines that are ended by a line feed, without it. */
  function Complete(text: string): seq<string>
    decreases |text|
  {
    var k := LineEnd(text);
    if k == |text| then [] else [text[..k]] + Complete(text[k + 1..])
  }

  /** What follows the last line feed. */
  function Tail(text: string): string
    decreases |text|
  {
    var k := LineEnd(text);
    if k == |text| then text else Tail(text[k + 1..])
  }

  /** A line without a carriage return at its end. */
  function Chomp(line: string): string {
    if line != [] && line[|line| - 1] == '\r' then line[..|line| - 1] else line
  }

  lemma NoLineFeed(text: string)
    requires '\n' !in text
    ensures Complete(text) == [] && Tail(text) == text
  {
    LineEndOf(text, []);
    assert text + [] == text;
  }

  lemma FirstLine(line: string, rest: string)
    requires '\n' !in line
    ensures Complete(line + ['\n'] + rest) == [line] + Complete(rest)
    ensures Tail(line + ['\n'] + rest) == Tail(rest)
  {
    var text := line + ['\n'] + rest;
    assert text == line + (['\n'] + rest);
    LineEndOf(line, ['\n'] + rest);
    assert text[..|line|] == line && text[|line| + 1..] == rest;
  }

  lemma {:induction false} TailHasNoLineFeed(text: string)
    ensures '\n' !in Tail(text)
    ensures forall line | line in Complete(text) :: '\n' !in line
    decreases |text|
  {
    var k := LineEnd(text);
    LineEndMeaning(text);
    if k == |text| {
      assert text[..k] == text;
    } else {
      TailHasNoLineFeed(text[k + 1..]);
    }
  }

  lemma SplitStep(line: string, rest: string, b: string)
    requires '\n' !in line
    requires Complete(rest + b) == Complete(rest) + Complete(Tail(rest) + b)
    requires Tail(rest + b) == Tail(Tail(rest) + b)
    ensures var a := line + ['\n'] + rest;
            && Complete(a + b) == Complete(a) + Complete(Tail(a) + b)
            && Tail(a + b) == Tail(Tail(a) + b)
  {
    hide Complete, Tail, LineEnd;
    FirstLine(line, rest);
    FirstLine(line, rest + b);
    assert line + ['\n'] + rest + b == line + ['\n'] + (rest + b);
    assert [line] + (Complete(rest) + Complete(Tail(rest) + b)) == [line] + Complete(rest) + Complete(Tail(rest) + b);
  }

  /** Splitting more text continues with the tail of what was there. */
  lemma {:induction false} SplitContinues(a: string, b: string)
    ensures Complete(a + b) == Complete(a) + Complete(Tail(a) + b)
    ensures Tail(a + b) == Tail(Tail(a) + b)
    decreases |a|
  {
    var k := LineEnd(a);
    LineEndMeaning(a);
    hide LineEnd;
    if k == |a| {
      assert Complete(a) == [] && Tail(a) == a;
    } else {
      hide Complete, Tail;
      SplitContinues(a[k + 1..], b);
      assert a == a[..k] + ['\n'] + a[k + 1..];
      SplitStep(a[..k], a[k + 1..], b);
    }
  }
}

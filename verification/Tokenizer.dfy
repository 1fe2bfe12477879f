/** The scan shared by every `matchAll` loop with a cursor: plain text between non-overlapping matches. */
module Tokenizer {
  import opened Sequences

  /** A part and the index just past its source text. */
  datatype Match<T> = NoMatch | Match(part: T, end: nat)

  /** What to look for at a position, what plain text becomes, and the source text of a part. */
  datatype Grammar<!T> = Grammar(matchAt: (string, nat) -> Match<T>, plain: string -> T, source: T -> string) {

    /** Matches are non-empty stretches of `s`, and every part prints back to the text it came from. */
    ghost predicate FaithfulTo(s: string) {
      && (forall text :: source(plain(text)) == text)
      && (forall i: nat | i < |s| && matchAt(s, i).Match? ::
            var m := matchAt(s, i); i < m.end <= |s| && s[i..m.end] == source(m.part))
    }
  }

  /** `parts` with the plain text between `cursor` and `i`, when there is any. */
  function WithPlain<T>(g: Grammar<T>, s: string, parts: seq<T>, cursor: nat, i: nat): seq<T>
    requires cursor <= i <= |s|
  {
    if cursor < i then parts + [g.plain(s[cursor..i])] else parts
  }

  /** The split from position `i` on, with the text since `cursor` still to be emitted. */
  function SplitFrom<T>(g: Grammar<T>, s: string, parts: seq<T>, cursor: nat, i: nat): seq<T>
    requires g.FaithfulTo(s) && cursor <= i <= |s|
    decreases |s| - i
  {
    if i == |s| then WithPlain(g, s, parts, cursor, i)
    else if g.matchAt(s, i).Match? then
      var m := g.matchAt(s, i);
      SplitFrom(g, s, WithPlain(g, s, parts, cursor, i) + [m.part], m.end, m.end)
    else SplitFrom(g, s, parts, cursor, i + 1)
  }

  method Split<T>(g: Grammar<T>, s: string) returns (parts: seq<T>)
    requires g.FaithfulTo(s)
    ensures parts == SplitFrom(g, s, [], 0, 0)
  {
    parts := [];
    var cursor, i := 0, 0;
    while i < |s|
      invariant 0 <= cursor <= i <= |s|
      invariant SplitFrom(g, s, parts, cursor, i) == SplitFrom(g, s, [], 0, 0)
    {
      var m := g.matchAt(s, i);
      if m.Match? {
        if i > cursor {
          parts := parts + [g.plain(s[cursor..i])];
        }
        parts := parts + [m.part];
        cursor, i := m.end, m.end;
      } else {
        i := i + 1;
      }
    }
    if cursor < |s| {
      parts := parts + [g.plain(s[cursor..i])];
    }
  }

  /** Splitting loses nothing: the sources of the parts, in order, are the text. */
  lemma {:induction false} SplitPreservesText<T>(g: Grammar<T>, s: string, parts: seq<T>, cursor: nat, i: nat)
    requires g.FaithfulTo(s) && cursor <= i <= |s| && FlatMap(g.source, parts) == s[..cursor]
    ensures FlatMap(g.source, SplitFrom(g, s, parts, cursor, i)) == s
    decreases |s| - i
  {
    if i == |s| {
      assert s[..i] == s;
    } else if g.matchAt(s, i).Match? {
      var m, plain := g.matchAt(s, i), WithPlain(g, s, parts, cursor, i);
      FlatMapAppend(g.source, plain, m.part);
      assert s[..m.end] == s[..i] + s[i..m.end];
      SplitPreservesText(g, s, plain + [m.part], m.end, m.end);
    } else {
      SplitPreservesText(g, s, parts, cursor, i + 1);
    }
  }

  // ---------------------------------------------------------------- which split it is

  /** Nothing matches from `from` up to `to`, and there the text ends or a match begins. */
  ghost predicate IsGap<T>(g: Grammar<T>, s: string, from: nat, to: nat) {
    && from < to <= |s|
    && (forall k: nat | from <= k < to :: g.matchAt(s, k).NoMatch?)
    && (to == |s| || g.matchAt(s, to).Match?)
  }

  /** The parts of `s` from `from` on: every leftmost match, and the whole text of every gap between them. */
  ghost predicate IsSplit<T>(g: Grammar<T>, s: string, from: nat, parts: seq<T>)
    requires g.FaithfulTo(s) && from <= |s|
    decreases |parts|
  {
    if parts == [] then from == |s|
    else if from == |s| then false
    else if g.matchAt(s, from).Match? then
      parts[0] == g.matchAt(s, from).part && IsSplit(g, s, g.matchAt(s, from).end, parts[1..])
    else
      exists to: nat :: IsGap(g, s, from, to) && parts[0] == g.plain(s[from..to]) && IsSplit(g, s, to, parts[1..])
  }

  lemma MatchThenSplit<T>(g: Grammar<T>, s: string, from: nat, rest: seq<T>)
    requires g.FaithfulTo(s) && from < |s| && g.matchAt(s, from).Match?
    requires IsSplit(g, s, g.matchAt(s, from).end, rest)
    ensures IsSplit(g, s, from, [g.matchAt(s, from).part] + rest)
  {
    assert ([g.matchAt(s, from).part] + rest)[1..] == rest;
  }

  lemma GapThenSplit<T>(g: Grammar<T>, s: string, from: nat, to: nat, rest: seq<T>)
    requires g.FaithfulTo(s) && IsGap(g, s, from, to) && IsSplit(g, s, to, rest)
    ensures IsSplit(g, s, from, [g.plain(s[from..to])] + rest)
  {
    assert ([g.plain(s[from..to])] + rest)[1..] == rest;
  }

  /** The scan adds to what it has the leftmost matches and the gaps from the cursor on. */
  lemma {:induction false} SplitIsLeftmost<T>(g: Grammar<T>, s: string, parts: seq<T>, cursor: nat, i: nat)
    returns (rest: seq<T>)
    requires g.FaithfulTo(s) && cursor <= i <= |s|
    requires forall k: nat | cursor <= k < i :: g.matchAt(s, k).NoMatch?
    ensures SplitFrom(g, s, parts, cursor, i) == parts + rest && IsSplit(g, s, cursor, rest)
    decreases |s| - i
  {
    if i < |s| && g.matchAt(s, i).NoMatch? {
      rest := SplitIsLeftmost(g, s, parts, cursor, i + 1);
    } else {
      var after: seq<T> := [];
      if i < |s| {
        var m := g.matchAt(s, i);
        var more := SplitIsLeftmost(g, s, WithPlain(g, s, parts, cursor, i) + [m.part], m.end, m.end);
        after := [m.part] + more;
        assert WithPlain(g, s, parts, cursor, i) + [m.part] + more == WithPlain(g, s, parts, cursor, i) + after;
        MatchThenSplit(g, s, i, more);
      } else {
        assert WithPlain(g, s, parts, cursor, i) + after == WithPlain(g, s, parts, cursor, i);
      }
      hide IsSplit, SplitFrom;
      if cursor < i {
        rest := [g.plain(s[cursor..i])] + after;
        assert parts + rest == (parts + [g.plain(s[cursor..i])]) + after;
        GapThenSplit(g, s, cursor, i, after);
      } else {
        rest := after;
      }
    }
  }

  /** There is only one such split. */
  lemma {:induction false} SplitIsUnique<T>(g: Grammar<T>, s: string, from: nat, a: seq<T>, b: seq<T>)
    requires g.FaithfulTo(s) && from <= |s| && IsSplit(g, s, from, a) && IsSplit(g, s, from, b)
    ensures a == b
    decreases |a|
  {
    if a != [] {
      if g.matchAt(s, from).Match? {
        SplitIsUnique(g, s, g.matchAt(s, from).end, a[1..], b[1..]);
      } else {
        var to: nat :| IsGap(g, s, from, to) && a[0] == g.plain(s[from..to]) && IsSplit(g, s, to, a[1..]);
        var end: nat :| IsGap(g, s, from, end) && b[0] == g.plain(s[from..end]) && IsSplit(g, s, end, b[1..]);
        assert to == end;
        SplitIsUnique(g, s, to, a[1..], b[1..]);
      }
      assert a == [a[0]] + a[1..] && b == [b[0]] + b[1..];
    }
  }
}

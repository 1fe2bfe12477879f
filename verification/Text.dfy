/** JavaScript's idea of white space, and trimming. */
module Text {

  predicate IsWhitespace(c: char) {
    var n := c as int;
    || 9 <= n <= 13 || n == 32 || n == 0xA0 || n == 0x1680 || 0x2000 <= n <= 0x200A
    || n == 0x2028 || n == 0x2029 || n == 0x202F || n == 0x205F || n == 0x3000 || n == 0xFEFF
  }

  predicate IsBlank(s: string) {
    forall c | c in s :: IsWhitespace(c)
  }

  function TrimStart(s: string): string {
    if s != [] && IsWhitespace(s[0]) then TrimStart(s[1..]) else s
  }

  function TrimEnd(s: string): string {
    if s != [] && IsWhitespace(s[|s| - 1]) then TrimEnd(s[..|s| - 1]) else s
  }

  function Trim(s: string): string {
    TrimEnd(TrimStart(s))
  }

  /** Trimming takes exactly the white space at both ends. */
  lemma {:induction false} TrimIsExact(s: string) returns (before: string, after: string)
    ensures s == before + Trim(s) + after && IsBlank(before) && IsBlank(after)
    ensures Trim(s) != [] ==> !IsWhitespace(Trim(s)[0]) && !IsWhitespace(Trim(s)[|Trim(s)| - 1])
  {
    hide IsWhitespace;
    if s != [] && IsWhitespace(s[0]) {
      before, after := TrimIsExact(s[1..]);
      before := [s[0]] + before;
    } else {
      before := [];
      after := TrimEndIsExact(s);
    }
  }

  /** The text without the white space around it. */
  ghost predicate IsTrimmed(text: string, trimmed: string) {
    && trimmed != [] && !IsWhitespace(trimmed[0]) && !IsWhitespace(trimmed[|trimmed| - 1])
    && exists before, after :: IsBlank(before) && IsBlank(after) && text == before + trimmed + after
  }

  /** Nothing is left of white space, and of anything else there is one trimmed text. */
  lemma TrimmedIsTrim(text: string, trimmed: string)
    ensures Trim(text) == [] <==> IsBlank(text)
    ensures IsTrimmed(text, trimmed) <==> trimmed != [] && trimmed == Trim(text)
  {
    hide IsWhitespace, Trim;
    var before, after := TrimIsExact(text);
    if Trim(text) != [] {
      assert text[|before|] == Trim(text)[0] && text[|before|] in text;
      assert IsTrimmed(text, Trim(text));
    }
    assert Trim(text) == [] ==> text == before + after;
    if IsTrimmed(text, trimmed) {
      var b, a :| IsBlank(b) && IsBlank(a) && text == b + trimmed + a;
      assert text[|b|] == trimmed[0] && text[|b|] in text;
      SameEnds(before, Trim(text), after, b, trimmed, a);
    }
  }

  lemma SameEnds(before: string, s: string, after: string, b: string, t: string, a: string)
    requires before + s + after == b + t + a && s != [] && t != []
    requires IsBlank(before) && IsBlank(after) && IsBlank(b) && IsBlank(a)
    requires !IsWhitespace(s[0]) && !IsWhitespace(s[|s| - 1]) && !IsWhitespace(t[0]) && !IsWhitespace(t[|t| - 1])
    ensures s == t
  {
    hide IsWhitespace;
    var text := before + s + after;
    var e, f := |before| + |s| - 1, |b| + |t| - 1;
    assert text[|before|] == s[0] && text[e] == s[|s| - 1];
    assert text[|b|] == t[0] && text[f] == t[|t| - 1];
    forall k | 0 <= k < |text|
      ensures (k < |before| || k > e ==> IsWhitespace(text[k])) && (k < |b| || k > f ==> IsWhitespace(text[k]))
    {
      InOneOfThree(before, s, after, k);
      InOneOfThree(b, t, a, k);
    }
    assert |before| == |b| && e == f;
    assert s == text[|before|..e + 1] && t == text[|b|..f + 1];
  }

  lemma InOneOfThree(a: string, b: string, c: string, k: nat)
    requires k < |a + b + c|
    ensures k < |a| ==> (a + b + c)[k] in a
    ensures |a| + |b| <= k ==> (a + b + c)[k] in c
  {
    if |a| + |b| <= k {
      assert (a + b + c)[k] == c[k - |a| - |b|];
    }
  }

  lemma {:induction false} TrimEndIsExact(s: string) returns (after: string)
    ensures s == TrimEnd(s) + after && IsBlank(after)
    ensures TrimEnd(s) != [] ==> TrimEnd(s)[0] == s[0] && !IsWhitespace(TrimEnd(s)[|TrimEnd(s)| - 1])
  {
    hide IsWhitespace;
    if s != [] && IsWhitespace(s[|s| - 1]) {
      after := TrimEndIsExact(s[..|s| - 1]);
      after := after + [s[|s| - 1]];
    } else {
      after := [];
    }
  }

  predicate StartsAt(text: string, wanted: string, i: nat) {
    i + |wanted| <= |text| && text[i..i + |wanted|] == wanted
  }

  predicate Contains(text: string, wanted: string) {
    exists i: nat | i <= |text| :: StartsAt(text, wanted, i)
  }

  lemma ContainsAppend(text: string, more: string, wanted: string)
    requires Contains(text, wanted)
    ensures Contains(text + more, wanted)
  {
    var i: nat :| i <= |text| && StartsAt(text, wanted, i);
    assert (text + more)[i..i + |wanted|] == text[i..i + |wanted|];
    assert StartsAt(text + more, wanted, i);
  }

  lemma ContainsMiddle(before: string, wanted: string, after: string)
    ensures Contains(before + wanted + after, wanted)
  {
    var text := before + wanted + after;
    assert text[|before|..|before| + |wanted|] == wanted;
    assert StartsAt(text, wanted, |before|);
  }
}

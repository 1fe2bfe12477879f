/** Inline markup: splitting a block's text into plain, bold, struck, code, italic and linked parts. */
module RichText {
  import opened Sequences
  import opened Tokenizer

  datatype Mark = Plain | Bold | Strike | Code | Italic | Link(url: string)

  datatype Part = Part(content: string, mark: Mark)

  /** The first index from `i` on whose character is `c` or `d`, or the end. */
  function Scan(s: string, i: nat, c: char, d: char): (j: nat)
    requires i <= |s|
    ensures i <= j <= |s|
    decreases |s| - i
  {
    if i == |s| || s[i] == c || s[i] == d then i else Scan(s, i + 1, c, d)
  }

  predicate At(s: string, i: nat, token: string) {
    i + |token| <= |s| && s[i..i + |token|] == token
  }

  /** `open [^c]+ open`, where `open` is one or two of the same character `c`. */
  function Delimited(s: string, i: nat, open: string, mark: Mark, stop: char): Match<Part>
    requires open != []
  {
    if !At(s, i, open) then NoMatch
    else
      var from := i + |open|;
      var to := Scan(s, from, open[0], stop);
      if from < to && At(s, to, open) then Match(Part(s[from..to], mark), to + |open|) else NoMatch
  }

  /** `[label](http://target)` or `[label](https://target)`. */
  function LinkAt(s: string, i: nat): Match<Part> {
    if !At(s, i, "[") then NoMatch
    else
      var labelEnd := Scan(s, i + 1, ']', ']');
      if labelEnd == i + 1 || !At(s, labelEnd, "](") then NoMatch
      else
        var from := labelEnd + 2;
        var scheme := if At(s, from, "https://") then 8 else if At(s, from, "http://") then 7 else 0;
        if scheme == 0 then NoMatch
        else
          var to := Scan(s, from + scheme, ')', ')');
          if from + scheme < to && At(s, to, ")")
          then Match(Part(s[i + 1..labelEnd], Link(s[from..to])), to + 1)
          else NoMatch
  }

  /** The alternatives of the markup pattern at `i`, in order. */
  function MatchAt(s: string, i: nat): Match<Part> {
    var bold := Delimited(s, i, "**", Bold, '*');
    if bold.Match? then bold else
    var strike := Delimited(s, i, "~~", Strike, '~');
    if strike.Match? then strike else
    var code := Delimited(s, i, "`", Code, '`');
    if code.Match? then code else
    var link := LinkAt(s, i);
    if link.Match? then link else
    Delimited(s, i, "*", Italic, '\n')
  }

  /** The source text of a part. */
  function Markup(p: Part): string {
    match p.mark
    case Plain => p.content
    case Bold => "**" + p.content + "**"
    case Strike => "~~" + p.content + "~~"
    case Code => "`" + p.content + "`"
    case Italic => "*" + p.content + "*"
    case Link(url) => "[" + p.content + "](" + url + ")"
  }

  /** A match at `i` is a non-empty stretch of the source and prints back to exactly that stretch. */
  predicate PrintsBack(s: string, i: nat, m: Match<Part>) {
    m.Match? ==> i < m.end <= |s| && s[i..m.end] == Markup(m.part)
  }

  lemma Cut(s: string, a: nat, b: nat, c: nat)
    requires a <= b <= c <= |s|
    ensures s[a..c] == s[a..b] + s[b..c]
  {
  }

  lemma DelimitedMarkup(s: string, i: nat, open: string, mark: Mark, stop: char)
    requires open != [] && forall content :: Markup(Part(content, mark)) == open + content + open
    ensures PrintsBack(s, i, Delimited(s, i, open, mark, stop))
  {
    hide Markup;
    if Delimited(s, i, open, mark, stop).Match? {
      var from := i + |open|;
      var to := Scan(s, from, open[0], stop);
      Cut(s, i, from, to);
      Cut(s, i, to, to + |open|);
    }
  }

  lemma Pieces(s: string, a: nat, b: nat, c: nat, d: nat, e: nat)
    requires a <= b <= c <= d <= e < |s|
    ensures s[a..e + 1] == s[a..b] + s[b..c] + s[c..d] + s[d..e] + s[e..e + 1]
  {
    Cut(s, a, b, c);
    Cut(s, a, c, d);
    Cut(s, a, d, e);
    Cut(s, a, e, e + 1);
  }

  lemma LinkShape(s: string, i: nat) returns (labelEnd: nat, to: nat)
    requires LinkAt(s, i).Match?
    ensures i + 1 <= labelEnd && labelEnd + 2 <= to < |s|
    ensures s[i..i + 1] == "[" && s[labelEnd..labelEnd + 2] == "](" && s[to..to + 1] == ")"
    ensures LinkAt(s, i) == Match(Part(s[i + 1..labelEnd], Link(s[labelEnd + 2..to])), to + 1)
  {
    hide Scan;
    labelEnd, to := Scan(s, i + 1, ']', ']'), LinkAt(s, i).end - 1;
  }

  lemma LinkMarkup(s: string, i: nat)
    ensures PrintsBack(s, i, LinkAt(s, i))
  {
    hide LinkAt;
    if LinkAt(s, i).Match? {
      var labelEnd, to := LinkShape(s, i);
      Pieces(s, i, i + 1, labelEnd, labelEnd + 2, to);
      assert Markup(LinkAt(s, i).part) == "[" + s[i + 1..labelEnd] + "](" + s[labelEnd + 2..to] + ")";
    }
  }

  lemma MatchMarkup(s: string, i: nat)
    ensures PrintsBack(s, i, MatchAt(s, i))
  {
    DelimitedMarkup(s, i, "**", Bold, '*');
    DelimitedMarkup(s, i, "~~", Strike, '~');
    DelimitedMarkup(s, i, "`", Code, '`');
    LinkMarkup(s, i);
    DelimitedMarkup(s, i, "*", Italic, '\n');
    hide Delimited, LinkAt, PrintsBack;
  }

  // ---------------------------------------------------------------- what is recognised

  predicate IsWebAddress(url: string) {
    || (|url| > 8 && url[..8] == "https://")
    || (|url| > 7 && url[..7] == "http://")
  }

  /** What the markup can spell: something between the markers, without the character that would end it early. */
  predicate IsMarked(p: Part) {
    && p.content != ""
    && match p.mark
       case Plain => false
       case Bold => '*' !in p.content
       case Strike => '~' !in p.content
       case Code => '`' !in p.content
       case Italic => '*' !in p.content && '\n' !in p.content
       case Link(url) => ']' !in p.content && IsWebAddress(url) && ')' !in url
  }

  predicate Spells(s: string, i: nat, p: Part) {
    IsMarked(p) && i + |Markup(p)| <= |s| && s[i..i + |Markup(p)|] == Markup(p)
  }

  lemma {:induction false} ScanStops(s: string, i: nat, c: char, d: char)
    requires i <= |s|
    ensures var j := Scan(s, i, c, d);
            && (j < |s| ==> s[j] == c || s[j] == d)
            && c !in s[i..j] && d !in s[i..j]
    decreases |s| - i
  {
    if i < |s| && s[i] != c && s[i] != d {
      ScanStops(s, i + 1, c, d);
      var j := Scan(s, i, c, d);
      assert s[i..j] == [s[i]] + s[i + 1..j];
    }
  }

  lemma {:induction false} ScanFinds(s: string, i: nat, j: nat, c: char, d: char)
    requires i <= j < |s| && c !in s[i..j] && d !in s[i..j] && (s[j] == c || s[j] == d)
    ensures Scan(s, i, c, d) == j
    decreases j - i
  {
    if i < j {
      assert s[i] in s[i..j] && s[i..j] == [s[i]] + s[i + 1..j];
      ScanFinds(s, i + 1, j, c, d);
    }
  }

  lemma Within(s: string, i: nat, all: string, p: nat, q: nat)
    requires i + |all| <= |s| && s[i..i + |all|] == all && p <= q <= |all|
    ensures s[i + p..i + q] == all[p..q]
  {
    forall k | 0 <= k < q - p ensures s[i + p..i + q][k] == all[p..q][k] {
      assert s[i + p + k] == s[i..i + |all|][p + k];
    }
  }

  /** A stretch that is put together from pieces, taken apart. */
  lemma Apart(s: string, i: nat, a: string, b: string, c: string)
    requires i + |a| + |b| + |c| <= |s| && s[i..i + |a| + |b| + |c|] == a + b + c
    ensures s[i..i + |a|] == a && s[i + |a|..i + |a| + |b|] == b && s[i + |a| + |b|..i + |a| + |b| + |c|] == c
  {
    var all := a + b + c;
    Within(s, i, all, 0, |a|);
    Within(s, i, all, |a|, |a| + |b|);
    Within(s, i, all, |a| + |b|, |all|);
    assert all[..|a|] == a && all[|a|..|a| + |b|] == b && all[|a| + |b|..|all|] == c;
  }

  lemma DelimitedFinds(s: string, i: nat, open: string, mark: Mark, stop: char, content: string)
    requires open != [] && content != "" && open[0] !in content && stop !in content
    requires i + |open| + |content| + |open| <= |s| && s[i..i + |open| + |content| + |open|] == open + content + open
    ensures Delimited(s, i, open, mark, stop) == Match(Part(content, mark), i + |open| + |content| + |open|)
  {
    Apart(s, i, open, content, open);
    var from := i + |open|;
    var to := from + |content|;
    assert s[to] == s[to..to + |open|][0];
    ScanFinds(s, from, to, open[0], stop);
  }

  lemma DelimitedIsClean(s: string, i: nat, open: string, mark: Mark, stop: char)
    requires open != [] && Delimited(s, i, open, mark, stop).Match?
    ensures var p := Delimited(s, i, open, mark, stop).part;
            p.mark == mark && p.content != "" && open[0] !in p.content && stop !in p.content
    ensures s[i] == open[0]
  {
    ScanStops(s, i + |open|, open[0], stop);
    assert s[i..i + |open|][0] == s[i];
  }

  /** How long the scheme of the address at `from` is, or nothing. */
  function SchemeLength(s: string, from: nat): nat {
    if At(s, from, "https://") then 8 else if At(s, from, "http://") then 7 else 0
  }

  lemma SchemeIsExact(s: string, from: nat, to: nat)
    requires from <= to <= |s|
    ensures IsWebAddress(s[from..to]) <==> SchemeLength(s, from) > 0 && from + SchemeLength(s, from) < to
  {
    var url := s[from..to];
    assert |url| >= 8 ==> url[..8] == s[from..from + 8] && url[4] == s[from..from + 8][4];
    assert |url| >= 7 ==> url[..7] == s[from..from + 7] && url[4] == s[from..from + 7][4];
    assert "https://"[4] == 's' && "http://"[4] == ':';
  }

  lemma SchemeHasNoBracket(s: string, from: nat, to: nat)
    requires from <= to <= |s| && SchemeLength(s, from) > 0 && from + SchemeLength(s, from) <= to
    ensures ')' in s[from..to] <==> ')' in s[from + SchemeLength(s, from)..to]
  {
    var n := SchemeLength(s, from);
    assert ')' !in s[from..from + n];
    Cut(s, from, from + n, to);
  }

  lemma LinkIsClean(s: string, i: nat)
    requires LinkAt(s, i).Match?
    ensures var p := LinkAt(s, i).part;
            p.mark.Link? && p.content != "" && ']' !in p.content && IsWebAddress(p.mark.url) && ')' !in p.mark.url
    ensures s[i] == '['
  {
    hide Scan, IsWebAddress;
    var labelEnd := Scan(s, i + 1, ']', ']');
    ScanStops(s, i + 1, ']', ']');
    var from := labelEnd + 2;
    var n := SchemeLength(s, from);
    var to := Scan(s, from + n, ')', ')');
    assert LinkAt(s, i).part == Part(s[i + 1..labelEnd], Link(s[from..to]));
    assert i + 1 < labelEnd < from + n < to <= |s| && n > 0 && s[i..i + 1] == "[";
    assert s[i..i + 1][0] == s[i];
    hide *;
    ScanStops(s, from + n, ')', ')');
    SchemeIsExact(s, from, to);
    SchemeHasNoBracket(s, from, to);
  }

  lemma LinkPieces(s: string, i: nat, content: string, url: string)
    requires var all := "[" + content + "](" + url + ")"; i + |all| <= |s| && s[i..i + |all|] == all
    ensures var labelEnd := i + 1 + |content|;
            var to := labelEnd + 2 + |url|;
            && to < |s| && At(s, i, "[") && s[i + 1..labelEnd] == content && At(s, labelEnd, "](")
            && s[labelEnd + 2..to] == url && At(s, to, ")")
  {
    var front := "[" + content + "](";
    assert "[" + content + "](" + url + ")" == front + url + ")";
    Apart(s, i, front, url, ")");
    Apart(s, i, "[", content, "](");
  }

  lemma LinkFinds(s: string, i: nat, content: string, url: string)
    requires content != "" && ']' !in content && IsWebAddress(url) && ')' !in url
    requires var all := "[" + content + "](" + url + ")"; i + |all| <= |s| && s[i..i + |all|] == all
    ensures LinkAt(s, i) == Match(Part(content, Link(url)), i + |content| + |url| + 4)
  {
    hide Scan, IsWebAddress;
    LinkPieces(s, i, content, url);
    var labelEnd := i + 1 + |content|;
    var from, to := labelEnd + 2, labelEnd + 2 + |url|;
    assert s[labelEnd] == s[labelEnd..labelEnd + 2][0] && s[to] == s[to..to + 1][0];
    ScanFinds(s, i + 1, labelEnd, ']', ']');
    SchemeIsExact(s, from, to);
    SchemeHasNoBracket(s, from, to);
    ScanFinds(s, from + SchemeLength(s, from), to, ')', ')');
  }

  lemma MatchIsClean(s: string, i: nat)
    requires MatchAt(s, i).Match?
    ensures IsMarked(MatchAt(s, i).part)
  {
    hide Delimited, LinkAt;
    if Delimited(s, i, "**", Bold, '*').Match? {
      DelimitedIsClean(s, i, "**", Bold, '*');
    } else if Delimited(s, i, "~~", Strike, '~').Match? {
      DelimitedIsClean(s, i, "~~", Strike, '~');
    } else if Delimited(s, i, "`", Code, '`').Match? {
      DelimitedIsClean(s, i, "`", Code, '`');
    } else if LinkAt(s, i).Match? {
      LinkIsClean(s, i);
    } else {
      DelimitedIsClean(s, i, "*", Italic, '\n');
    }
  }

  lemma Elsewhere(s: string, i: nat, open: string, mark: Mark, stop: char)
    requires open != [] && i < |s| && s[i] != open[0]
    ensures Delimited(s, i, open, mark, stop).NoMatch?
  {
    if Delimited(s, i, open, mark, stop).Match? {
      DelimitedIsClean(s, i, open, mark, stop);
    }
  }

  lemma NoLinkHere(s: string, i: nat)
    requires i < |s| && s[i] != '['
    ensures LinkAt(s, i).NoMatch?
  {
    if LinkAt(s, i).Match? {
      LinkIsClean(s, i);
    }
  }

  lemma SpelledIsMatched(s: string, i: nat, p: Part)
    requires Spells(s, i, p)
    ensures MatchAt(s, i) == Match(p, i + |Markup(p)|)
  {
    var c := p.content;
    assert s[i] == s[i..i + |Markup(p)|][0] == Markup(p)[0];
    match p.mark {
      case Bold =>
        DelimitedFinds(s, i, "**", Bold, '*', c);
      case Strike =>
        DelimitedFinds(s, i, "~~", Strike, '~', c);
        Elsewhere(s, i, "**", Bold, '*');
      case Code =>
        DelimitedFinds(s, i, "`", Code, '`', c);
        Elsewhere(s, i, "**", Bold, '*');
        Elsewhere(s, i, "~~", Strike, '~');
      case Link(url) =>
        LinkFinds(s, i, c, url);
        Elsewhere(s, i, "**", Bold, '*');
        Elsewhere(s, i, "~~", Strike, '~');
        Elsewhere(s, i, "`", Code, '`');
      case Italic =>
        DelimitedFinds(s, i, "*", Italic, '\n', c);
        OneStarIsNotTwo(s, i, c);
        Elsewhere(s, i, "~~", Strike, '~');
        Elsewhere(s, i, "`", Code, '`');
        NoLinkHere(s, i);
    }
    hide Delimited, LinkAt;
  }

  lemma OneStarIsNotTwo(s: string, i: nat, content: string)
    requires content != "" && '*' !in content && i + |content| + 2 <= |s| && s[i..i + |content| + 2] == "*" + content + "*"
    ensures Delimited(s, i, "**", Bold, '*').NoMatch?
  {
    assert s[i + 1] == s[i..i + |content| + 2][1] == content[0];
    assert content[0] in content;
    assert s[i..i + 2][1] == s[i + 1];
  }

  /** What is recognised at a position is exactly what is spelled out there: the alternatives never compete. */
  lemma MatchIsExact(s: string, i: nat, p: Part)
    ensures MatchAt(s, i) == Match(p, i + |Markup(p)|) <==> Spells(s, i, p)
  {
    hide MatchAt, Markup;
    if Spells(s, i, p) {
      SpelledIsMatched(s, i, p);
    }
    if MatchAt(s, i) == Match(p, i + |Markup(p)|) {
      MatchMarkup(s, i);
      MatchIsClean(s, i);
    }
  }

  function Markdown(): Grammar<Part> {
    Grammar(MatchAt, text => Part(text, Plain), Markup)
  }

  lemma MarkdownIsFaithful(s: string)
    ensures Markdown().FaithfulTo(s)
  {
    forall i: nat | i < |s| && MatchAt(s, i).Match?
      ensures var m := MatchAt(s, i); i < m.end <= |s| && s[i..m.end] == Markup(m.part)
    {
      MatchMarkup(s, i);
    }
  }

  function Parts(s: string): seq<Part> {
    MarkdownIsFaithful(s);
    SplitFrom(Markdown(), s, [], 0, 0)
  }

  /** Putting the markers back gives the source text, for every text. */
  lemma PartsPreserveText(s: string)
    ensures FlatMap(Markdown().source, Parts(s)) == s
  {
    MarkdownIsFaithful(s);
    SplitPreservesText(Markdown(), s, [], 0, 0);
  }

  /** `parts` are those of `text`: what is spelled out from the left, and the text between, nothing else. */
  ghost predicate AreParts(parts: seq<Part>, text: string) {
    MarkdownIsFaithful(text);
    IsSplit(Markdown(), text, 0, parts)
  }

  lemma PartsAreTheParts(s: string)
    ensures AreParts(Parts(s), s)
  {
    MarkdownIsFaithful(s);
    var rest := SplitIsLeftmost(Markdown(), s, [], 0, 0);
    assert [] + rest == rest;
  }
}

/** Filtering a DOM snapshot under a node budget: what is kept, and how the kept nodes are linked again. */
module DomNormalizer {
  import opened Letters
  import opened Text
  import opened Wrappers

  /** A node of one document; `parent` is negative for a root. */
  datatype Source = Source(tag: string, attributes: map<string, string>, parent: int)

  datatype Output = Output(index: nat, sourceIndex: nat, parent: Option<nat>, tag: string, attributes: map<string, string>,
                           interactive: bool)

  datatype Mode = Nothing | Summary | Interactive | Full

  const SUMMARY_TAGS := {"HTML", "BODY", "MAIN", "HEADER", "NAV", "ASIDE", "FOOTER", "FORM", "H1", "H2", "H3", "H4", "H5", "H6"}

  const INTERACTIVE_TAGS := {"A", "BUTTON", "INPUT", "SELECT", "TEXTAREA", "OPTION", "DETAILS", "SUMMARY", "DIALOG"}

  const INTERACTIVE_ROLES := ["button", "link", "textbox", "checkbox", "radio", "combobox", "menuitem", "tab", "switch"]

  predicate IsInteractive(node: Source) {
    || node.tag in INTERACTIVE_TAGS
    || ("role" in node.attributes && exists word | word in INTERACTIVE_ROLES :: ContainsIgnoringCase(node.attributes["role"], word))
  }

  predicate Includes(mode: Mode, node: Source) {
    || mode.Full?
    || (mode.Interactive? && (IsInteractive(node) || node.tag in SUMMARY_TAGS))
    || (mode.Summary? && node.tag in SUMMARY_TAGS)
  }

  /** The filter a mode stands for. */
  function Keeper(mode: Mode): Source -> bool {
    (node: Source) => Includes(mode, node)
  }

  const HEADINGS := ["H1", "H2", "H3", "H4", "H5", "H6"]
  const REGIONS := ["HTML", "BODY", "MAIN", "HEADER", "NAV", "ASIDE", "FOOTER", "FORM"]
  const CONTROLS := ["A", "BUTTON", "INPUT", "SELECT", "TEXTAREA", "OPTION", "DETAILS", "SUMMARY", "DIALOG"]

  /** The text has the word at some place, every letter in lower case or in capitals. */
  ghost predicate Mentions(text: string, word: string) {
    exists i: nat | i + |word| <= |text| :: SpellsAt(text, i, word)
  }

  predicate SpellsAt(text: string, i: nat, word: string)
    requires i + |word| <= |text|
  {
    forall k | 0 <= k < |word| :: IsLetter(text[i..i + |word|][k], word[k])
  }

  /** The character is this small letter, or its capital. */
  predicate IsLetter(c: char, small: char) {
    c == small || exists k: nat | k < 26 :: small == LETTERS[k] && c == CAPITALS[k]
  }

  lemma SameLetter(c: char, small: char)
    requires 'a' <= small <= 'z'
    ensures LowerChar(c) == small <==> IsLetter(c, small)
  {
    var k := small as int - 97;
    assert |LETTERS| == 26 && |CAPITALS| == 26;
    hide LETTERS, CAPITALS;
    PlacesAgree(k);
    if LowerChar(c) == small && c != small {
      assert small == LETTERS[k] && c == CAPITALS[k];
    }
    if j: nat :| j < 26 && small == LETTERS[j] && c == CAPITALS[j] {
      PlacesAgree(j);
    }
  }

  lemma ContainsMeans(text: string, word: string)
    requires word != [] && forall c | c in word :: 'a' <= c <= 'z'
    ensures ContainsIgnoringCase(text, word) <==> Mentions(text, word)
  {
    forall i: nat | i + |word| <= |text|
      ensures StartsAt(Lower(text), word, i) <==> SpellsAt(text, i, word)
    {
      var here := text[i..i + |word|];
      assert Lower(text)[i..i + |word|] == Lower(here);
      forall k | 0 <= k < |word| ensures Lower(here)[k] == word[k] <==> IsLetter(here[k], word[k]) {
        assert word[k] in word;
        SameLetter(here[k], word[k]);
      }
    }
  }

  /** What each mode keeps: everything, the regions and headings of a page, or those and its controls. */
  lemma ModesAreExact(node: Source)
    ensures !Includes(Nothing, node) && Includes(Full, node)
    ensures Includes(Summary, node) <==> node.tag in REGIONS || node.tag in HEADINGS
    ensures Includes(Interactive, node) <==> node.tag in REGIONS || node.tag in HEADINGS || IsInteractive(node)
    ensures IsInteractive(node) <==>
            || node.tag in CONTROLS
            || ("role" in node.attributes
                && var role := node.attributes["role"];
                   || Mentions(role, "button") || Mentions(role, "link") || Mentions(role, "textbox") || Mentions(role, "checkbox")
                   || Mentions(role, "radio") || Mentions(role, "combobox") || Mentions(role, "menuitem") || Mentions(role, "tab")
                   || Mentions(role, "switch"))
  {
    if "role" in node.attributes {
      RolesAreExact(node.attributes["role"]);
    }
  }

  lemma RolesAreExact(role: string)
    ensures (exists word | word in INTERACTIVE_ROLES :: ContainsIgnoringCase(role, word)) <==>
            || Mentions(role, "button") || Mentions(role, "link") || Mentions(role, "textbox") || Mentions(role, "checkbox")
            || Mentions(role, "radio") || Mentions(role, "combobox") || Mentions(role, "menuitem") || Mentions(role, "tab")
            || Mentions(role, "switch")
  {
    hide ContainsIgnoringCase, Mentions;
    ContainsMeans(role, "button");
    ContainsMeans(role, "link");
    ContainsMeans(role, "textbox");
    ContainsMeans(role, "checkbox");
    ContainsMeans(role, "radio");
    ContainsMeans(role, "combobox");
    ContainsMeans(role, "menuitem");
    ContainsMeans(role, "tab");
    ContainsMeans(role, "switch");
    assert INTERACTIVE_ROLES[0] == "button" && INTERACTIVE_ROLES[1] == "link" && INTERACTIVE_ROLES[2] == "textbox";
    assert INTERACTIVE_ROLES[3] == "checkbox" && INTERACTIVE_ROLES[4] == "radio" && INTERACTIVE_ROLES[5] == "combobox";
    assert INTERACTIVE_ROLES[6] == "menuitem" && INTERACTIVE_ROLES[7] == "tab" && INTERACTIVE_ROLES[8] == "switch";
  }

  /** Parents are numbered below their children. */
  predicate ValidDocument(nodes: seq<Source>) {
    forall i | 0 <= i < |nodes| :: nodes[i].parent < i
  }

  // ---------------------------------------------------------------- attributes

  /** What an index into the string table denotes; `None` is JavaScript's `undefined`. */
  function StringAt(strings: seq<string>, index: int): Option<string> {
    if 0 <= index < |strings| then Some(strings[index]) else None
  }

  /** Pair `k` of the raw list names `name`. */
  predicate Names(raw: seq<int>, strings: seq<string>, k: nat, name: string)
    requires 2 * k + 1 < |raw|
  {
    name != "" && StringAt(strings, raw[2 * k]) == Some(name)
  }

  /** Among the first `pairs` pairs, the last one that names `name` decides; a missing value reads as empty. */
  function LastValue(raw: seq<int>, strings: seq<string>, name: string, pairs: nat): Option<string>
    requires 2 * pairs <= |raw|
  {
    if pairs == 0 then None
    else if Names(raw, strings, pairs - 1, name) then Some(StringAt(strings, raw[2 * pairs - 1]).GetOr(""))
    else LastValue(raw, strings, name, pairs - 1)
  }

  /** An attribute has the value of the last pair that names it, and none when no pair does. */
  lemma {:induction false} LastPairDecides(raw: seq<int>, strings: seq<string>, name: string, pairs: nat)
    requires 2 * pairs <= |raw|
    ensures match LastValue(raw, strings, name, pairs)
            case None => forall k | 0 <= k < pairs :: !Names(raw, strings, k, name)
            case Some(value) => exists k | 0 <= k < pairs :: IsLastPair(raw, strings, name, k, pairs) && value == ValueAt(raw, strings, k)
  {
    if pairs > 0 {
      LastPairDecides(raw, strings, name, pairs - 1);
      if Names(raw, strings, pairs - 1, name) {
        assert IsLastPair(raw, strings, name, pairs - 1, pairs);
      } else if LastValue(raw, strings, name, pairs).Some? {
        var k :| 0 <= k < pairs - 1 && IsLastPair(raw, strings, name, k, pairs - 1)
          && LastValue(raw, strings, name, pairs).value == ValueAt(raw, strings, k);
        assert IsLastPair(raw, strings, name, k, pairs);
      }
    }
  }

  predicate IsLastPair(raw: seq<int>, strings: seq<string>, name: string, k: nat, pairs: nat)
    requires 2 * pairs <= |raw| && k < pairs
  {
    Names(raw, strings, k, name) && forall j | k < j < pairs :: !Names(raw, strings, j, name)
  }

  /** An index outside the table stands for no string, and a missing value reads as empty. */
  function ValueAt(raw: seq<int>, strings: seq<string>, k: nat): string
    requires 2 * k + 1 < |raw|
  {
    if 0 <= raw[2 * k + 1] < |strings| then strings[raw[2 * k + 1]] else ""
  }

  lemma NamesMeans(raw: seq<int>, strings: seq<string>, k: nat, name: string)
    requires 2 * k + 1 < |raw|
    ensures Names(raw, strings, k, name) <==> 0 <= raw[2 * k] < |strings| && strings[raw[2 * k]] == name && |name| > 0
  {
  }

  method DecodeAttributes(raw: seq<int>, strings: seq<string>) returns (result: map<string, string>)
    ensures forall name :: name in result <==> LastValue(raw, strings, name, |raw| / 2).Some?
    ensures forall name | name in result :: LastValue(raw, strings, name, |raw| / 2) == Some(result[name])
  {
    result := map[];
    var index := 0;
    while index + 1 < |raw|
      invariant index % 2 == 0 && 0 <= index <= |raw|
      invariant forall name :: name in result <==> LastValue(raw, strings, name, index / 2).Some?
      invariant forall name | name in result :: LastValue(raw, strings, name, index / 2) == Some(result[name])
    {
      var name, value := StringAt(strings, raw[index]), StringAt(strings, raw[index + 1]);
      if name.Some? && name.value != "" {
        result := result[name.value := value.GetOr("")];
      }
      index := index + 2;
    }
  }

  // ---------------------------------------------------------------- the nearest included ancestor

  function Nearest(nodes: seq<Source>, current: int, included: map<nat, nat>): Option<nat>
    requires ValidDocument(nodes) && current < |nodes|
    decreases current + 1
  {
    if current < 0 then None
    else if current in included then Some(included[current])
    else Nearest(nodes, nodes[current].parent, included)
  }

  method NearestIncludedParent(nodes: seq<Source>, start: int, included: map<nat, nat>) returns (found: Option<nat>)
    requires ValidDocument(nodes) && start < |nodes|
    ensures found == Nearest(nodes, start, included)
  {
    var current := start;
    while current >= 0
      invariant current < |nodes|
      invariant Nearest(nodes, start, included) == Nearest(nodes, current, included)
    {
      if current in included {
        return Some(included[current]);
      }
      current := nodes[current].parent;
    }
    return None;
  }

  lemma {:induction false} NearestIgnoresLater(nodes: seq<Source>, current: int, included: map<nat, nat>, key: nat, value: nat)
    requires ValidDocument(nodes) && current < |nodes| && current < key
    ensures Nearest(nodes, current, included[key := value]) == Nearest(nodes, current, included)
    decreases current + 1
  {
    if current >= 0 && current !in included {
      NearestIgnoresLater(nodes, nodes[current].parent, included, key, value);
    }
  }

  // ---------------------------------------------------------------- one document

  /** The source indexes of the includable nodes among the first `n`, in order. */
  function Includable(nodes: seq<Source>, keep: Source -> bool, n: nat): seq<nat>
    requires n <= |nodes|
  {
    if n == 0 then []
    else
      var before := Includable(nodes, keep, n - 1);
      if keep(nodes[n - 1]) then before + [n - 1] else before
  }

  function Take<T>(xs: seq<T>, budget: int): (r: seq<T>)
    ensures r <= xs && (budget <= 0 ==> r == []) && (budget > 0 ==> |r| == if |xs| < budget then |xs| else budget)
  {
    if budget <= 0 then [] else if |xs| <= budget then xs else xs[..budget]
  }

  function Sources(output: seq<Output>): seq<nat> {
    seq(|output|, k requires 0 <= k < |output| => output[k].sourceIndex)
  }

  /** Where each kept source node stands in the output. */
  function Positions(output: seq<Output>): map<nat, nat> {
    if output == [] then map[]
    else Positions(output[..|output| - 1])[output[|output| - 1].sourceIndex := |output| - 1]
  }

  /** Outputs are numbered, keep the source order and hang below their nearest kept ancestor. */
  ghost predicate WellLinked(nodes: seq<Source>, output: seq<Output>)
    requires ValidDocument(nodes)
  {
    && (forall k | 0 <= k < |output| :: output[k].sourceIndex < |nodes|)
    && (forall j, k | 0 <= j < k < |output| :: output[j].sourceIndex < output[k].sourceIndex)
    && (forall k | 0 <= k < |output| ::
          var o := output[k];
          var s := nodes[o.sourceIndex];
          && o.index == k && o.tag == s.tag && o.attributes == s.attributes && o.interactive == IsInteractive(s)
          && o.parent == Nearest(nodes, s.parent, Positions(output)))
  }

  predicate Ascending(s: seq<nat>) {
    forall j, k | 0 <= j < k < |s| :: s[j] < s[k]
  }

  /** The includable nodes are exactly those to keep among the first `n`, in document order. */
  lemma {:induction false} IncludableMeaning(nodes: seq<Source>, keep: Source -> bool, n: nat)
    requires n <= |nodes|
    ensures forall i: nat :: i in Includable(nodes, keep, n) <==> i < n && keep(nodes[i])
    ensures Ascending(Includable(nodes, keep, n))
  {
    if n > 0 {
      IncludableMeaning(nodes, keep, n - 1);
      var before := Includable(nodes, keep, n - 1);
      assert forall j | 0 <= j < |before| :: before[j] in before;
    }
  }

  lemma {:induction false} IncludablePrefix(nodes: seq<Source>, keep: Source -> bool, m: nat, n: nat)
    requires m <= n <= |nodes|
    ensures Includable(nodes, keep, m) <= Includable(nodes, keep, n)
  {
    if m < n {
      IncludablePrefix(nodes, keep, m, n - 1);
    }
  }

  /** Adding the next kept node leaves all links right. */
  lemma WellLinkedExtends(nodes: seq<Source>, output: seq<Output>, o: Output)
    requires ValidDocument(nodes) && WellLinked(nodes, output)
    requires o.sourceIndex < |nodes| && o.index == |output|
    requires forall k | 0 <= k < |output| :: output[k].sourceIndex < o.sourceIndex
    requires o.tag == nodes[o.sourceIndex].tag && o.attributes == nodes[o.sourceIndex].attributes
    requires o.interactive == IsInteractive(nodes[o.sourceIndex])
    requires o.parent == Nearest(nodes, nodes[o.sourceIndex].parent, Positions(output))
    ensures WellLinked(nodes, output + [o])
    ensures Positions(output + [o]) == Positions(output)[o.sourceIndex := |output|]
  {
    var more := output + [o];
    hide Positions;
    assert Positions(more) == Positions(output)[o.sourceIndex := |output|] by {
      PositionsExtend(output, o);
    }
    forall k | 0 <= k < |more|
      ensures more[k].parent == Nearest(nodes, nodes[more[k].sourceIndex].parent, Positions(more))
    {
      NearestIgnoresLater(nodes, nodes[more[k].sourceIndex].parent, Positions(output), o.sourceIndex, |output|);
    }
  }

  lemma PositionsExtend(output: seq<Output>, o: Output)
    ensures Positions(output + [o]) == Positions(output)[o.sourceIndex := |output|]
  {
    assert (output + [o])[..|output|] == output;
  }

  /** `output` is the well linked image of all includable nodes among the first `n`. */
  ghost predicate Covers(nodes: seq<Source>, keep: Source -> bool, output: seq<Output>, n: nat)
    requires ValidDocument(nodes) && n <= |nodes|
  {
    && WellLinked(nodes, output)
    && Sources(output) == Includable(nodes, keep, n)
    && forall k | 0 <= k < |output| :: output[k].sourceIndex < n
  }

  lemma CoversOneMore(nodes: seq<Source>, keep: Source -> bool, output: seq<Output>, n: nat, o: Output)
    requires ValidDocument(nodes) && n < |nodes| && Covers(nodes, keep, output, n) && keep(nodes[n])
    requires nodes[n].parent < |nodes|
    requires o == Output(|output|, n, Nearest(nodes, nodes[n].parent, Positions(output)), nodes[n].tag, nodes[n].attributes,
                         IsInteractive(nodes[n]))
    ensures Covers(nodes, keep, output + [o], n + 1)
    ensures Positions(output + [o]) == Positions(output)[n := |output|]
  {
    hide WellLinked, Positions, Nearest;
    WellLinkedExtends(nodes, output, o);
    assert Sources(output + [o]) == Sources(output) + [n];
  }

  lemma CoversIsWellLinked(nodes: seq<Source>, keep: Source -> bool, output: seq<Output>, n: nat)
    requires ValidDocument(nodes) && n <= |nodes| && Covers(nodes, keep, output, n)
    ensures WellLinked(nodes, output)
  {
    hide WellLinked;
  }

  lemma CoversUpToBudget(nodes: seq<Source>, keep: Source -> bool, output: seq<Output>, n: nat, budget: int)
    requires ValidDocument(nodes) && n <= |nodes| && Covers(nodes, keep, output, n)
    requires n == |nodes| || |output| >= budget
    requires if budget > 0 then |output| <= budget else n == 0
    ensures Sources(output) == Take(Includable(nodes, keep, |nodes|), budget)
  {
    hide WellLinked;
    assert |Sources(output)| == |output|;
    IncludablePrefix(nodes, keep, n, |nodes|);
  }

  method NormalizeDocument(nodes: seq<Source>, keep: Source -> bool, budget: int)
    returns (output: seq<Output>, remaining: int)
    requires ValidDocument(nodes)
    ensures Sources(output) == Take(Includable(nodes, keep, |nodes|), budget)
    ensures WellLinked(nodes, output)
    ensures remaining == budget - |output|
  {
    output, remaining := [], budget;
    var sourceToOutput: map<nat, nat> := map[];
    var index := 0;
    assert Covers(nodes, keep, output, 0);
    hide WellLinked, Positions, Nearest, Covers, Includable, Sources, Take, IsInteractive;
    while index < |nodes| && remaining > 0
      invariant 0 <= index <= |nodes|
      invariant remaining == budget - |output| && (if budget > 0 then remaining >= 0 else index == 0)
      invariant sourceToOutput == Positions(output)
      invariant Covers(nodes, keep, output, index)
      decreases |nodes| - index
    {
      var n := index;
      index := index + 1;
      if !keep(nodes[n]) {
        continue;
      }
      assert nodes[n].parent < |nodes|;
      var parent := NearestIncludedParent(nodes, nodes[n].parent, sourceToOutput);
      var o := Output(|output|, n, parent, nodes[n].tag, nodes[n].attributes, IsInteractive(nodes[n]));
      CoversOneMore(nodes, keep, output, n, o);
      sourceToOutput := sourceToOutput[n := |output|];
      output := output + [o];
      remaining := remaining - 1;
    }
    CoversUpToBudget(nodes, keep, output, index, budget);
    assert WellLinked(nodes, output) by {
      CoversIsWellLinked(nodes, keep, output, index);
    }
  }

  // ---------------------------------------------------------------- the snapshot

  /** A kept node across documents: its document and its source index. */
  function Labelled(document: nat, indexes: seq<nat>): seq<(nat, nat)> {
    seq(|indexes|, k requires 0 <= k < |indexes| => (document, indexes[k]))
  }

  /** All includable nodes of the first `n` documents, in order. */
  function AllIncludable(documents: seq<seq<Source>>, keep: Source -> bool, n: nat): seq<(nat, nat)>
    requires n <= |documents|
  {
    if n == 0 then []
    else
      var here := Includable(documents[n - 1], keep, |documents[n - 1]|);
      AllIncludable(documents, keep, n - 1) + Labelled(n - 1, here)
  }

  /** All kept nodes of the first `n` documents, in order. */
  function AllKept(outputs: seq<seq<Output>>, n: nat): seq<(nat, nat)>
    requires n <= |outputs|
  {
    if n == 0 then [] else AllKept(outputs, n - 1) + Labelled(n - 1, Sources(outputs[n - 1]))
  }

  function TotalNodes(documents: seq<seq<Source>>, n: nat): nat
    requires n <= |documents|
  {
    if n == 0 then 0 else TotalNodes(documents, n - 1) + |documents[n - 1]|
  }

  lemma TakeSplits<T>(a: seq<T>, b: seq<T>, budget: int)
    ensures Take(a + b, budget) == Take(a, budget) + Take(b, budget - |Take(a, budget)|)
  {
  }

  lemma TakeLabelled(document: nat, indexes: seq<nat>, budget: int)
    ensures Take(Labelled(document, indexes), budget) == Labelled(document, Take(indexes, budget))
  {
  }

  lemma {:induction false} AllKeptPrefix(outputs: seq<seq<Output>>, more: seq<seq<Output>>, n: nat)
    requires n <= |outputs| && outputs <= more
    ensures AllKept(more, n) == AllKept(outputs, n)
  {
    if n > 0 {
      AllKeptPrefix(outputs, more, n - 1);
    }
  }

  /** One more document takes the budget the earlier ones left. */
  lemma KeptExtends(documents: seq<seq<Source>>, keep: Source -> bool, maxNodes: int, outputs: seq<seq<Output>>,
                    output: seq<Output>)
    requires var d := |outputs|;
             && d < |documents|
             && AllKept(outputs, d) == Take(AllIncludable(documents, keep, d), maxNodes)
             && Sources(output) == Take(Includable(documents[d], keep, |documents[d]|), maxNodes - |AllKept(outputs, d)|)
    ensures var d := |outputs|;
            && AllKept(outputs + [output], d + 1) == Take(AllIncludable(documents, keep, d + 1), maxNodes)
            && |AllKept(outputs + [output], d + 1)| == |AllKept(outputs, d)| + |output|
            && TotalNodes(documents, d + 1) == TotalNodes(documents, d) + |documents[d]|
  {
    hide Take, Includable;
    var d := |outputs|;
    var here := Includable(documents[d], keep, |documents[d]|);
    TakeSplits(AllIncludable(documents, keep, d), Labelled(d, here), maxNodes);
    TakeLabelled(d, here, maxNodes - |AllKept(outputs, d)|);
    AllKeptPrefix(outputs, outputs + [output], d);
    assert AllKept(outputs + [output], d + 1) == AllKept(outputs, d) + Labelled(d, Sources(output));
    hide AllKept, Labelled, Sources;
  }

  datatype Snapshot = Snapshot(documents: seq<seq<Output>>, totalNodes: nat, returnedNodes: nat, truncated: bool)

  /** The first documents are normalised: together they keep what the budget allows, and are linked right. */
  ghost predicate NormalizedSoFar(documents: seq<seq<Source>>, keep: Source -> bool, maxNodes: int,
                                  outputs: seq<seq<Output>>, total: nat, returned: nat)
    requires forall d | 0 <= d < |documents| :: ValidDocument(documents[d])
  {
    && |outputs| <= |documents|
    && AllKept(outputs, |outputs|) == Take(AllIncludable(documents, keep, |outputs|), maxNodes)
    && (forall d | 0 <= d < |outputs| :: WellLinked(documents[d], outputs[d]))
    && total == TotalNodes(documents, |outputs|)
    && returned == |AllKept(outputs, |outputs|)|
  }

  lemma NothingNormalized(documents: seq<seq<Source>>, keep: Source -> bool, maxNodes: int)
    requires forall d | 0 <= d < |documents| :: ValidDocument(documents[d])
    ensures NormalizedSoFar(documents, keep, maxNodes, [], 0, 0)
  {
  }

  lemma OneMoreNormalized(documents: seq<seq<Source>>, keep: Source -> bool, maxNodes: int, outputs: seq<seq<Output>>,
                          total: nat, returned: nat, output: seq<Output>)
    requires forall d | 0 <= d < |documents| :: ValidDocument(documents[d])
    requires NormalizedSoFar(documents, keep, maxNodes, outputs, total, returned) && |outputs| < |documents|
    requires var nodes := documents[|outputs|];
             Sources(output) == Take(Includable(nodes, keep, |nodes|), maxNodes - returned) && WellLinked(nodes, output)
    ensures NormalizedSoFar(documents, keep, maxNodes, outputs + [output], total + |documents[|outputs|]|, returned + |output|)
  {
    hide Take, Includable, AllIncludable, AllKept, WellLinked, ValidDocument, TotalNodes, Sources;
    KeptExtends(documents, keep, maxNodes, outputs, output);
  }

  lemma AllNormalized(documents: seq<seq<Source>>, keep: Source -> bool, maxNodes: int, outputs: seq<seq<Output>>, total: nat,
                      returned: nat)
    requires forall d | 0 <= d < |documents| :: ValidDocument(documents[d])
    requires NormalizedSoFar(documents, keep, maxNodes, outputs, total, returned) && |outputs| == |documents|
    ensures AllKept(outputs, |documents|) == Take(AllIncludable(documents, keep, |documents|), maxNodes)
    ensures forall d | 0 <= d < |documents| :: WellLinked(documents[d], outputs[d])
    ensures total == TotalNodes(documents, |documents|) && returned == |AllKept(outputs, |documents|)|
  {
    hide Take, AllIncludable, AllKept, WellLinked, ValidDocument, TotalNodes;
  }

  /** The output is the first `maxNodes` includable nodes of the snapshot, and links are right in every document. */
  method NormalizeSnapshot(documents: seq<seq<Source>>, mode: Mode, maxNodes: int)
    returns (r: Snapshot)
    requires forall d | 0 <= d < |documents| :: ValidDocument(documents[d])
    ensures mode.Nothing? ==> r.documents == []
    ensures !mode.Nothing? ==>
              && |r.documents| == |documents|
              && AllKept(r.documents, |documents|)
                 == Take(AllIncludable(documents, Keeper(mode), |documents|), maxNodes)
              && (forall d | 0 <= d < |documents| :: WellLinked(documents[d], r.documents[d]))
              && r.totalNodes == TotalNodes(documents, |documents|)
              && r.returnedNodes == |AllKept(r.documents, |documents|)|
              && (r.truncated <==> r.returnedNodes < r.totalNodes && r.returnedNodes == maxNodes)
  {
    if mode.Nothing? {
      return Snapshot([], 0, 0, false);
    }
    hide *;
    var keep := Keeper(mode);
    var outputs, remaining, total, returned := NormalizeDocuments(documents, keep, maxNodes);
    AllNormalized(documents, keep, maxNodes, outputs, total, returned);
    return Snapshot(outputs, total, returned, returned < total && remaining == 0);
  }

  /** The loop over the documents, under one budget. */
  method NormalizeDocuments(documents: seq<seq<Source>>, keep: Source -> bool, maxNodes: int)
    returns (outputs: seq<seq<Output>>, remaining: int, total: nat, returned: nat)
    requires forall d | 0 <= d < |documents| :: ValidDocument(documents[d])
    ensures NormalizedSoFar(documents, keep, maxNodes, outputs, total, returned)
    ensures |outputs| == |documents| && remaining == maxNodes - returned
  {
    hide *;
    outputs, remaining, total, returned := [], maxNodes, 0, 0;
    NothingNormalized(documents, keep, maxNodes);
    for d := 0 to |documents|
      invariant |outputs| == d && remaining == maxNodes - returned
      invariant NormalizedSoFar(documents, keep, maxNodes, outputs, total, returned)
    {
      var output, left := NormalizeDocument(documents[d], keep, remaining);
      OneMoreNormalized(documents, keep, maxNodes, outputs, total, returned, output);
      outputs, remaining := outputs + [output], left;
      total, returned := total + |documents[d]|, returned + |output|;
    }
  }

  /** Some kept node: a document and a place in it. */
  predicate IsKeptAt(documents: seq<seq<Source>>, keep: Source -> bool, n: nat, place: (nat, nat)) {
    place.0 < n && place.0 < |documents| && place.1 < |documents[place.0]| && keep(documents[place.0][place.1])
  }

  predicate ComesBefore(a: (nat, nat), b: (nat, nat)) {
    a.0 < b.0 || (a.0 == b.0 && a.1 < b.1)
  }

  ghost predicate InSourceOrder(places: seq<(nat, nat)>) {
    forall j, k | 0 <= j < k < |places| :: ComesBefore(places[j], places[k])
  }

  /** The includable nodes of a snapshot are those to keep, document by document and each in its order. */
  lemma {:induction false} AllIncludableMeaning(documents: seq<seq<Source>>, keep: Source -> bool, n: nat)
    requires n <= |documents|
    ensures var all := AllIncludable(documents, keep, n);
            && (forall place: (nat, nat) :: place in all <==> IsKeptAt(documents, keep, n, place))
            && InSourceOrder(all)
  {
    if n > 0 {
      AllIncludableMeaning(documents, keep, n - 1);
      var before, here := AllIncludable(documents, keep, n - 1), Includable(documents[n - 1], keep, |documents[n - 1]|);
      IncludableMeaning(documents[n - 1], keep, |documents[n - 1]|);
      assert InSourceOrder(before);
      var all := before + Labelled(n - 1, here);
      assert AllIncludable(documents, keep, n) == all;
      hide Includable, AllIncludable;
      LabelledMembers(n - 1, here);
      forall place: (nat, nat) ensures place in all <==> IsKeptAt(documents, keep, n, place) {
        assert place in all <==> place in before || place in Labelled(n - 1, here);
        var i := place.1;
        assert i in here <==> i < |documents[n - 1]| && keep(documents[n - 1][i]);
        assert place in before <==> IsKeptAt(documents, keep, n - 1, place);
      }
      hide IsKeptAt;
      forall j, k | 0 <= j < k < |all| ensures ComesBefore(all[j], all[k]) {
        if k < |before| {
          assert all[j] == before[j] && all[k] == before[k];
          assert ComesBefore(before[j], before[k]);
        } else {
          assert all[k] == Labelled(n - 1, here)[k - |before|];
          if j < |before| {
            assert all[j] == before[j] && before[j] in before;
            EarlierDocument(documents, keep, n - 1, before[j]);
            assert all[k] in Labelled(n - 1, here);
          } else {
            assert all[j] == Labelled(n - 1, here)[j - |before|];
            assert here[j - |before|] < here[k - |before|];
          }
        }
      }
    }
  }

  lemma EarlierDocument(documents: seq<seq<Source>>, keep: Source -> bool, n: nat, place: (nat, nat))
    requires IsKeptAt(documents, keep, n, place)
    ensures place.0 < n
  {
  }

  lemma LabelledMembers(document: nat, indexes: seq<nat>)
    ensures forall place: (nat, nat) :: place in Labelled(document, indexes) <==> place.0 == document && place.1 in indexes
  {
    forall place: (nat, nat) | place.0 == document && place.1 in indexes ensures place in Labelled(document, indexes) {
      var k :| 0 <= k < |indexes| && indexes[k] == place.1;
      assert Labelled(document, indexes)[k] == place;
    }
  }

  /** In the mode that keeps everything, the nodes that are counted are the nodes that can be kept. */
  lemma {:induction false} TotalIsTheCount(documents: seq<seq<Source>>, n: nat)
    requires n <= |documents|
    ensures TotalNodes(documents, n) == |AllIncludable(documents, Keeper(Full), n)|
  {
    if n > 0 {
      TotalIsTheCount(documents, n - 1);
      EverythingIsIncludable(documents[n - 1], |documents[n - 1]|);
    }
  }

  lemma {:induction false} EverythingIsIncludable(nodes: seq<Source>, n: nat)
    requires n <= |nodes|
    ensures |Includable(nodes, Keeper(Full), n)| == n
  {
    if n > 0 {
      EverythingIsIncludable(nodes, n - 1);
    }
  }

  // ---------------------------------------------------------------- truncation

  lemma {:induction false} IncludableIsNoMore(documents: seq<seq<Source>>, keep: Source -> bool, n: nat)
    requires n <= |documents|
    ensures |AllIncludable(documents, keep, n)| <= TotalNodes(documents, n)
  {
    if n > 0 {
      IncludableIsNoMore(documents, keep, n - 1);
      IncludableCount(documents[n - 1], keep, |documents[n - 1]|);
    }
  }

  lemma {:induction false} IncludableCount(nodes: seq<Source>, keep: Source -> bool, n: nat)
    requires n <= |nodes|
    ensures |Includable(nodes, keep, n)| <= n
  {
    if n > 0 {
      IncludableCount(nodes, keep, n - 1);
    }
  }

  /** When an includable node was dropped, `truncated` reports it exactly when the budget was not negative. */
  lemma DroppedIsReported(documents: seq<seq<Source>>, keep: Source -> bool, maxNodes: int)
    requires |Take(AllIncludable(documents, keep, |documents|), maxNodes)|
             < |AllIncludable(documents, keep, |documents|)|
    ensures var returned := |Take(AllIncludable(documents, keep, |documents|), maxNodes)|;
            returned < TotalNodes(documents, |documents|) && returned == maxNodes <==> maxNodes >= 0
  {
    IncludableIsNoMore(documents, keep, |documents|);
  }

  // ---------------------------------------------------------------- ancestry

  /** `a` is a proper ancestor of source node `b`. */
  predicate SourceAncestor(nodes: seq<Source>, a: nat, b: nat)
    requires ValidDocument(nodes) && b < |nodes|
    decreases b
  {
    nodes[b].parent >= 0 && (nodes[b].parent == a || SourceAncestor(nodes, a, nodes[b].parent))
  }

  predicate Linked(output: seq<Output>) {
    forall k | 0 <= k < |output| :: output[k].parent.Some? ==> output[k].parent.value < k
  }

  predicate OutputAncestor(output: seq<Output>, a: nat, b: nat)
    requires Linked(output) && b < |output|
    decreases b
  {
    output[b].parent.Some? && (output[b].parent.value == a || OutputAncestor(output, a, output[b].parent.value))
  }

  lemma {:induction false} PositionsMeaning(output: seq<Output>)
    requires forall j, k | 0 <= j < k < |output| :: output[j].sourceIndex < output[k].sourceIndex
    ensures forall k | 0 <= k < |output| :: output[k].sourceIndex in Positions(output) && Positions(output)[output[k].sourceIndex] == k
    ensures forall s | s in Positions(output) :: Positions(output)[s] < |output| && output[Positions(output)[s]].sourceIndex == s
  {
    if output != [] {
      PositionsMeaning(output[..|output| - 1]);
    }
  }

  /** The nearest kept ancestor, if any, is a kept node at or above where the search started. */
  lemma {:induction false} NearestIsAbove(nodes: seq<Source>, output: seq<Output>, current: int)
    requires ValidDocument(nodes) && WellLinked(nodes, output) && current < |nodes|
    ensures var found := Nearest(nodes, current, Positions(output));
            found.Some? ==> found.value < |output| && output[found.value].sourceIndex <= current
    decreases current + 1
  {
    PositionsMeaning(output);
    hide WellLinked, Positions;
    if current >= 0 && current !in Positions(output) {
      NearestIsAbove(nodes, output, nodes[current].parent);
    }
  }

  lemma WellLinkedIsLinked(nodes: seq<Source>, output: seq<Output>)
    requires ValidDocument(nodes) && WellLinked(nodes, output)
    ensures Linked(output)
  {
    forall k | 0 <= k < |output| && output[k].parent.Some? ensures output[k].parent.value < k {
      NearestIsAbove(nodes, output, nodes[output[k].sourceIndex].parent);
    }
  }

  /** A kept node is at or above `current` exactly when it is the nearest kept node there or one of its ancestors. */
  lemma {:induction false} AboveIsNearestOrAbove(nodes: seq<Source>, output: seq<Output>, a: nat, current: int)
    requires ValidDocument(nodes) && WellLinked(nodes, output) && Linked(output) && a < |output| && 0 <= current < |nodes|
    ensures var found := Nearest(nodes, current, Positions(output));
            (current == output[a].sourceIndex || SourceAncestor(nodes, output[a].sourceIndex, current))
            <==> found.Some? && found.value < |output| && (found.value == a || OutputAncestor(output, a, found.value))
    decreases current
  {
    PositionsMeaning(output);
    NearestIsAbove(nodes, output, current);
    var parent := nodes[current].parent;
    if parent >= 0 {
      AboveIsNearestOrAbove(nodes, output, a, parent);
    }
    if current in Positions(output) {
      var k := Positions(output)[current];
      assert output[k].parent == Nearest(nodes, parent, Positions(output));
      if parent >= 0 {
        NearestIsAbove(nodes, output, parent);
      }
    }
  }

  /** Filtering preserves ancestry, in both directions. */
  lemma AncestryIsPreserved(nodes: seq<Source>, output: seq<Output>, a: nat, b: nat)
    requires ValidDocument(nodes) && WellLinked(nodes, output) && a < |output| && b < |output|
    ensures Linked(output)
    ensures OutputAncestor(output, a, b) <==> SourceAncestor(nodes, output[a].sourceIndex, output[b].sourceIndex)
  {
    WellLinkedIsLinked(nodes, output);
    var parent := nodes[output[b].sourceIndex].parent;
    if parent >= 0 {
      AboveIsNearestOrAbove(nodes, output, a, parent);
      NearestIsAbove(nodes, output, parent);
    }
  }
}
